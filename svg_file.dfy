/** One input file: it remembers the length of the markup it optimised and
    classifies the size of the final output against it. */
module SvgFile {
  import opened SvgTree
  import opened TreePass
  import opened Optimizer

  /** The classification `formatSavings` prints: "(unknown)", "±0%",
      "-N%", "+N%", or "+Infinity%" when the original size is still 0. */
  datatype Savings = Unknown | NoChange | Decrease(percent: nat) | Increase(percent: nat) | IncreaseInfinite

  /** `Math.round(100 * newSize / originalSize)`: the nearest integer to the
      new size as a percentage of the original, halves rounded up. */
  function RoundedPercent(newSize: nat, originalSize: nat): (p: nat)
    requires originalSize > 0
    ensures 2 * originalSize * p <= 200 * newSize + originalSize < 2 * originalSize * (p + 1)
  {
    var q, d := 200 * newSize + originalSize, 2 * originalSize;
    assert q == d * (q / d) + q % d;
    q / d
  }

  /** `formatSavings`, as written. A size is a length, so `newSize < 0.0001`
      is `newSize == 0`. The equality with the original size is tested
      before the rounded factor; a factor below 100 prints as "-factor%",
      anything else as "+(factor - 100)%". */
  function FormatSavings(originalFileSize: nat, newSize: nat): (r: Savings)
    ensures r == Unknown <==> newSize == 0
    ensures r == NoChange <==> newSize > 0 && newSize == originalFileSize
    ensures r == IncreaseInfinite <==> newSize > 0 && originalFileSize == 0
    ensures r.Decrease? ==> 0 < originalFileSize && r.percent == RoundedPercent(newSize, originalFileSize) < 100
    ensures r.Increase? ==> 0 < originalFileSize && newSize != originalFileSize
                            && r.percent == RoundedPercent(newSize, originalFileSize) - 100
  {
    if newSize == 0 then Unknown
    else if originalFileSize == 0 then IncreaseInfinite
    else
      var factor := RoundedPercent(newSize, originalFileSize);
      if newSize == originalFileSize then NoChange
      else if factor < 100 then Decrease(factor)
      else Increase(factor - 100)
  }

  /** A "-" figure is only ever printed for a file that shrank, and a file
      that grew always prints a "+" figure. */
  lemma FormatSavingsDirection(originalFileSize: nat, newSize: nat)
    ensures FormatSavings(originalFileSize, newSize).Decrease? ==> newSize < originalFileSize
    ensures 0 < originalFileSize < newSize ==> FormatSavings(originalFileSize, newSize).Increase?
  {
    if 0 < newSize && 0 < originalFileSize && newSize != originalFileSize {
      var p := RoundedPercent(newSize, originalFileSize);
      if p < 100 {
        ScaleMonotone(2 * originalFileSize, p + 1, 100);
        assert 200 * newSize + originalFileSize < 200 * originalFileSize;
      }
    }
  }

  /** Scaling by a positive size keeps the order: the step from a factor
      below 100 to a size below the original. */
  lemma ScaleMonotone(a: nat, b: nat, c: nat)
    requires b <= c
    ensures a * b <= a * c
  {
  }

  /** As written, a file that shrank by less than half a percent is
      reported as grown by 0%. */
  lemma ShrunkFileReportedAsIncrease()
    ensures FormatSavings(1000, 999) == Increase(0)
  {
  }

  /** As written, the "-" figure is the new size as a percentage of the
      original: a file cut to 70% of its size prints "-70%", not "-30%". */
  lemma DecreaseReportsRatio()
    ensures FormatSavings(100, 70) == Decrease(70)
  {
  }

  /** The classification with both figures measured as the change from the
      original size, so that the sign always follows the direction. */
  function FormatSavingsCorrected(originalFileSize: nat, newSize: nat): (r: Savings)
    ensures r == Unknown <==> newSize == 0
    ensures r == NoChange <==> newSize > 0 && newSize == originalFileSize
    ensures r == IncreaseInfinite <==> newSize > 0 && originalFileSize == 0
    ensures r.Decrease? <==> 0 < newSize < originalFileSize
    ensures r.Increase? <==> 0 < originalFileSize < newSize
    ensures r.Decrease? ==>
              2 * originalFileSize * r.percent <= 200 * (originalFileSize - newSize) + originalFileSize
                < 2 * originalFileSize * (r.percent + 1)
    ensures r.Increase? ==>
              2 * originalFileSize * r.percent <= 200 * (newSize - originalFileSize) + originalFileSize
                < 2 * originalFileSize * (r.percent + 1)
  {
    if newSize == 0 then Unknown
    else if originalFileSize == 0 then IncreaseInfinite
    else if newSize == originalFileSize then NoChange
    else if newSize < originalFileSize then Decrease(RoundedPercent(originalFileSize - newSize, originalFileSize))
    else Increase(RoundedPercent(newSize - originalFileSize, originalFileSize))
  }

  class SvgFile {
    const filePath: string
    const fileContent: string
    /** The length of the markup last optimised; 0 until then. */
    var originalFileSize: nat

    constructor (filePath: string, fileContent: string)
      ensures this.filePath == filePath && this.fileContent == fileContent
      ensures originalFileSize == 0
    {
      this.filePath := filePath;
      this.fileContent := fileContent;
      originalFileSize := 0;
    }

    /** `formatSavings`: the new size classified against the size recorded
        by the last `optimize`. The equality test comes before the rounded
        factor, as in the source. */
    method FormatSavingsOf(newSize: nat) returns (r: Savings)
      ensures r == FormatSavings(originalFileSize, newSize)
    {
      if newSize == 0 {
        return Unknown;
      }
      if originalFileSize == 0 {
        return IncreaseInfinite;
      }
      var factor := RoundedPercent(newSize, originalFileSize);
      if newSize == originalFileSize {
        r := NoChange;
      } else if factor < 100 {
        r := Decrease(factor);
      } else {
        r := Increase(factor - 100);
      }
    }

    /** `optimize`: records the input's length, then runs the Optimizer on
        it. Parsing the markup into the element tree is foreign and is a
        parameter, as are the content box and serialise-then-parse. */
    method Optimize(svgData: string, parse: string -> Element, contentBox: Element -> Box, toXml: Element -> ParsedDoc)
      returns (r: NormalizeResult)
      modifies this
      ensures originalFileSize == |svgData|
      ensures r == Normalize(parse(svgData), contentBox, toXml)
    {
      originalFileSize := |svgData|;
      var inliner := new Optimizer(parse(svgData));
      r := inliner.Inline(contentBox, toXml);
    }

  }
}
