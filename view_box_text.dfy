/** The text side of a `viewBox` edit: splitting the attribute on a single
    space, joining the fields back, reading a field as a number the way
    `parseFloat` reads an integer, and printing a number back. */
module ViewBoxText {

  /** `s.split(" ")`: the maximal space-free runs between single spaces;
      two adjacent spaces give an empty field, and the empty string gives
      one empty field. */
  function Split(s: string): (r: seq<string>)
    ensures |r| >= 1
    ensures forall i :: 0 <= i < |r| ==> ' ' !in r[i]
    decreases |s|
  {
    if s == [] then [""]
    else if s[0] == ' ' then [""] + Split(s[1..])
    else
      var rest := Split(s[1..]);
      [[s[0]] + rest[0]] + rest[1..]
  }

  /** `fields.join(" ")`. */
  function Join(fields: seq<string>): string
    requires |fields| >= 1
    decreases |fields|
  {
    if |fields| == 1 then fields[0] else fields[0] + " " + Join(fields[1..])
  }

  /** Joining the fields of a split gives back the original text. */
  lemma {:induction false} JoinSplit(s: string)
    ensures Join(Split(s)) == s
    decreases |s|
  {
    if s == [] {
    } else if s[0] == ' ' {
      JoinSplit(s[1..]);
      assert Split(s)[1..] == Split(s[1..]);
    } else {
      JoinSplit(s[1..]);
      var rest := Split(s[1..]);
      if |rest| == 1 {
        assert Split(s) == [[s[0]] + rest[0]];
      } else {
        assert Split(s)[1..] == rest[1..];
        assert Join(Split(s)) == [s[0]] + rest[0] + " " + Join(rest[1..]);
      }
    }
  }

  /** A field that starts with a character other than a space splits into
      that character prepended to the first field of the rest. */
  lemma {:induction false} SplitCons(c: char, s: string)
    requires c != ' '
    ensures Split([c] + s) == [[c] + Split(s)[0]] + Split(s)[1..]
  {
    assert ([c] + s)[1..] == s;
  }

  /** Splitting space-free fields joined by single spaces gives back the
      fields. */
  lemma {:induction false} SplitJoin(fields: seq<string>)
    requires |fields| >= 1
    requires forall i :: 0 <= i < |fields| ==> ' ' !in fields[i]
    ensures Split(Join(fields)) == fields
    decreases |fields|
  {
    if |fields| == 1 {
      SplitFieldAlone(fields[0]);
    } else {
      SplitJoin(fields[1..]);
      SplitFieldThenSpace(fields[0], Join(fields[1..]));
      assert [fields[0]] + fields[1..] == fields;
    }
  }

  /** A space-free string splits into itself alone. */
  lemma {:induction false} SplitFieldAlone(f: string)
    requires ' ' !in f
    ensures Split(f) == [f]
    decreases |f|
  {
    if f != [] {
      SplitFieldAlone(f[1..]);
      assert [f[0]] + f[1..] == f;
    }
  }

  /** A space-free field followed by a space and more text splits into the
      field followed by the split of the rest. */
  lemma {:induction false} SplitFieldThenSpace(f: string, rest: string)
    requires ' ' !in f
    ensures Split(f + " " + rest) == [f] + Split(rest)
    decreases |f|
  {
    if f == [] {
      assert f + " " + rest == [' '] + rest;
      assert ([' '] + rest)[1..] == rest;
    } else {
      SplitFieldThenSpace(f[1..], rest);
      assert f + " " + rest == [f[0]] + (f[1..] + " " + rest);
      SplitCons(f[0], f[1..] + " " + rest);
      assert [f[0]] + f[1..] == f;
    }
  }

  predicate IsDigit(c: char) {
    '0' <= c <= '9'
  }

  /** The number of leading decimal digits of `s`. */
  function DigitRun(s: string): (n: nat)
    ensures n <= |s|
    ensures forall i :: 0 <= i < n ==> IsDigit(s[i])
    ensures n < |s| ==> !IsDigit(s[n])
    decreases |s|
  {
    if s != [] && IsDigit(s[0]) then 1 + DigitRun(s[1..]) else 0
  }

  /** The value of a string of decimal digits. */
  function DigitsValue(s: string): nat
    requires forall i :: 0 <= i < |s| ==> IsDigit(s[i])
    decreases |s|
  {
    if s == [] then 0
    else
      var last := s[|s| - 1];
      assert IsDigit(last);
      10 * DigitsValue(s[..|s| - 1]) + (last as int - '0' as int)
  }

  /** `parseFloat` on a field, for the integers this model works with: an
      optional sign followed by the longest run of decimal digits, whatever
      comes after it ignored; no digit at all reads as NaN (`None`). */
  function ParseNumber(field: string): Option<int> {
    var negative := field != [] && field[0] == '-';
    var body := if field != [] && (field[0] == '-' || field[0] == '+') then field[1..] else field;
    var n := DigitRun(body);
    if n == 0 then None
    else
      var v: int := DigitsValue(body[..n]);
      Some(if negative then -v else v)
  }

  function DigitChar(d: nat): char
    requires d < 10
  {
    ('0' as int + d) as char
  }

  /** The decimal digits of a natural number, without leading zeros. */
  function NatText(n: nat): (s: string)
    ensures |s| >= 1
    ensures forall i :: 0 <= i < |s| ==> IsDigit(s[i])
    decreases n
  {
    if n < 10 then [DigitChar(n)] else NatText(n / 10) + [DigitChar(n % 10)]
  }

  /** A number converted to text, as `join` prints it. */
  function NumberText(n: int): string {
    if n < 0 then "-" + NatText(-n) else NatText(n)
  }

  /** How a number that `parseFloat` could not read prints. */
  const NaNText := "NaN"

  /** NaN does not read as a number. */
  lemma NaNUnread()
    ensures ParseNumber(NaNText) == None
  {
    assert NaNText[0] == 'N';
  }

  /** The digits of a natural number read back as that number. */
  lemma {:induction false} NatTextValue(n: nat)
    ensures DigitsValue(NatText(n)) == n
    decreases n
  {
    if n >= 10 {
      NatTextValue(n / 10);
      var s := NatText(n);
      assert s[..|s| - 1] == NatText(n / 10);
    }
  }

  /** The digit run of digits followed by text that does not start with a
      digit is exactly those digits. */
  lemma {:induction false} DigitRunPrefix(d: string, rest: string)
    requires forall i :: 0 <= i < |d| ==> IsDigit(d[i])
    requires rest == [] || !IsDigit(rest[0])
    ensures DigitRun(d + rest) == |d|
    decreases |d|
  {
    if d == [] {
      assert d + rest == rest;
    } else {
      assert (d + rest)[1..] == d[1..] + rest;
      DigitRunPrefix(d[1..], rest);
    }
  }

  /** `parseFloat` reads the leading number and ignores whatever follows
      it, so a printed number followed by text that does not start with a
      digit (a unit, a space, another field) reads back as that number. */
  lemma {:induction false} ParseLeadingNumber(n: int, rest: string)
    requires rest == [] || !IsDigit(rest[0])
    ensures ParseNumber(NumberText(n) + rest) == Some(n)
  {
    var digits := if n < 0 then NatText(-n) else NatText(n);
    NatTextValue(if n < 0 then -n else n);
    DigitRunPrefix(digits, rest);
    var body := digits + rest;
    assert body[..|digits|] == digits;
    var s := NumberText(n) + rest;
    if n < 0 {
      assert s == ['-'] + body;
      assert s[0] == '-' && s[1..] == body;
    } else {
      assert s == body;
      assert IsDigit(s[0]);
    }
  }

  /** Reading back a printed number gives the number. */
  lemma {:induction false} ParsePrinted(n: int)
    ensures ParseNumber(NumberText(n)) == Some(n)
  {
    ParseLeadingNumber(n, []);
    assert NumberText(n) + [] == NumberText(n);
  }

  /** A printed number, and NaN, hold no space. */
  lemma NumberTextSpaceFree(n: int)
    ensures ' ' !in NumberText(n)
    ensures ' ' !in NaNText
  {
    var digits := if n < 0 then NatText(-n) else NatText(n);
    assert forall i :: 0 <= i < |digits| ==> digits[i] != ' ';
    if n < 0 {
      assert forall i :: 1 <= i < |NumberText(n)| ==> NumberText(n)[i] == digits[i - 1];
    }
  }

  datatype Option<T> = None | Some(value: T)
}
