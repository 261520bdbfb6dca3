/** The `Optimizer` object: it owns the element tree of one document and,
    in `Inline`, inlines the translations below the root, moves the content
    to the origin and collapses the duplicate root `svg`. */
module Optimizer {
  import opened SvgTree
  import opened TreePass
  import opened XmlMerge

  /** A parsed document whose `svg` entries have the parser's shape. */
  type ParsedDoc = d: XmlDoc | SvgEntryParsed(d.root) witness XmlDoc("svg", XmlNode(map[]))

  /** The outcome of `inline`: a throw from the first walk (the transform
      error or the `hasOwnProperty` TypeError), or what the merge made of
      the serialised tree. */
  datatype NormalizeResult = InlineThrown | Normalized(merge: MergeResult)

  /** What `inline` computes from the document it starts with. The content
      box and the serialise-then-parse step belong to foreign libraries and
      are parameters. */
  function Normalize(doc: Element, contentBox: Element -> Box, toXml: Element -> ParsedDoc): (r: NormalizeResult)
    ensures r == InlineThrown <==> exists i :: 0 <= i < |doc.children| && Inlined(doc.children[i], 0, 0).Thrown?
    ensures r.Normalized? ==>
              var inlined := InlineDocument(doc).element;
              && inlined.children == seq(|doc.children|, i requires 0 <= i < |doc.children| => Inlined(doc.children[i], 0, 0).element)
              && r.merge == Collapse(toXml(ReoriginDocument(inlined, contentBox(inlined))))
  {
    match InlineDocument(doc)
    case Thrown => InlineThrown
    case Ok(inlined) =>
      var box := contentBox(inlined);
      Normalized(Collapse(toXml(ReoriginDocument(inlined, box))))
  }

  class Optimizer {
    /** The live document; its root is the wrapper `svg` that the element
        library adds around the markup. */
    var svgDocument: Element

    /** Parsing the markup is foreign: the constructor takes the tree. */
    constructor (svgDocument: Element)
      ensures this.svgDocument == svgDocument
    {
      this.svgDocument := svgDocument;
    }

    /** `inline`: every child of the root is inlined from (0, 0); the root
        itself is not touched. The content box of the result is taken, every
        child of the root is moved by its negated origin, and the serialised
        tree goes through the duplicate-root merge. A throw in the first walk
        leaves the document as it was. */
    method Inline(contentBox: Element -> Box, toXml: Element -> ParsedDoc) returns (r: NormalizeResult)
      modifies this
      ensures r == Normalize(old(svgDocument), contentBox, toXml)
      ensures InlineDocument(old(svgDocument)).Thrown? ==> svgDocument == old(svgDocument)
      ensures InlineDocument(old(svgDocument)).Ok? ==>
                var inlined := InlineDocument(old(svgDocument)).element;
                svgDocument == ReoriginDocument(inlined, contentBox(inlined))
    {
      var inlined := InlineChildren(svgDocument);
      if inlined.Thrown? {
        return InlineThrown;
      }
      svgDocument := inlined.element;
      var rbox := contentBox(svgDocument);
      svgDocument := MoveChildrenToOrigin(svgDocument, rbox);
      var merge := RemoveDuplicateSvg(toXml(svgDocument));
      r := Normalized(merge);
    }
  }

  /** `inline` throws exactly when an element the walk reaches strictly
      below the root has a transform that is not a pure translation or an
      attribute named `hasOwnProperty`; the root itself plays no part, and
      neither does content below an element without `children()`. The root is the document wrapper, whose
      `children()` `inline` calls unguarded. */
  lemma NormalizeFailsIff(doc: Element, contentBox: Element -> Box, toXml: Element -> ParsedDoc)
    requires doc.isParent
    ensures Normalize(doc, contentBox, toXml) == InlineThrown
            <==> exists p :: p != [] && ValidPath(doc, p) && ThrowsOn(At(doc, p))
  {
    if Normalize(doc, contentBox, toXml) == InlineThrown {
      var i :| 0 <= i < |doc.children| && Inlined(doc.children[i], 0, 0).Thrown?;
      InlinedFailsIff(doc.children[i], 0, 0);
      var q: seq<nat> :| ValidPath(doc.children[i], q) && ThrowsOn(At(doc.children[i], q));
      var p: seq<nat> := [i as nat] + q;
      assert p[1..] == q;
      assert ValidPath(doc, p) && At(doc, p) == At(doc.children[i], q);
      assert exists p': seq<nat> :: p' != [] && ValidPath(doc, p') && ThrowsOn(At(doc, p'));
    } else {
      forall p | p != [] && ValidPath(doc, p)
        ensures !ThrowsOn(At(doc, p))
      {
        var c := doc.children[p[0]];
        assert Inlined(c, 0, 0).Ok?;
        InlinedFailsIff(c, 0, 0);
        assert ValidPath(c, p[1..]) && At(doc, p) == At(c, p[1..]);
        assert !ThrowsOn(At(c, p[1..]));
      }
    }
  }

  /** After a successful `inline`, every element the walks reach strictly
      below the root sits where its own position plus the translations on
      its path and the negated content-box origin put it (an `svg` or a `g`
      is not moved by the second walk), has the identity transform and
      carries no stripped attribute; the content of such an element without
      `children()` is left exactly as it was. */
  lemma InlineResultAt(doc: Element, box: Box, p: seq<nat>)
    requires InlineDocument(doc).Ok?
    requires p != [] && ValidPath(doc, p)
    ensures var final := ReoriginDocument(InlineDocument(doc).element, box);
            && ValidPath(final, p)
            && At(final, p).name == At(doc, p).name
            && At(final, p).transform == Identity
            && At(final, p).x == At(doc, p).x + PathShiftX(doc.children[p[0]], p[1..])
                                 + (if IsMoved(At(doc, p).name) then -box.x else 0)
            && At(final, p).y == At(doc, p).y + PathShiftY(doc.children[p[0]], p[1..])
                                 + (if IsMoved(At(doc, p).name) then -box.y else 0)
            && (forall k :: k in At(final, p).attrs ==> !IsStripped(k))
            && (!At(doc, p).isParent ==> At(final, p).children == At(doc, p).children)
  {
    var inlined := InlineDocument(doc).element;
    var o := At(doc, p);
    InlineDocumentAt(doc, p);
    var mid := At(inlined, p);
    ReoriginDocumentAt(inlined, box, p);
    var final := ReoriginDocument(inlined, box);
    var f := At(final, p);
    assert f.attrs.Keys == mid.attrs.Keys;
    assert forall k :: k in mid.attrs ==> !IsStripped(k);
  }

  /** Below the root, the inlined document holds each element the walk
      reaches with its name, moved by the translations on its path,
      untransformed and stripped; below an element without `children()`
      nothing changes. */
  lemma InlineDocumentAt(doc: Element, p: seq<nat>)
    requires InlineDocument(doc).Ok?
    requires p != [] && ValidPath(doc, p)
    ensures var inlined := InlineDocument(doc).element;
            && ValidPath(inlined, p)
            && At(inlined, p).name == At(doc, p).name
            && At(inlined, p).x == At(doc, p).x + PathShiftX(doc.children[p[0]], p[1..])
            && At(inlined, p).y == At(doc, p).y + PathShiftY(doc.children[p[0]], p[1..])
            && At(inlined, p).transform == Identity
            && At(inlined, p).attrs == Stripped(At(doc, p).attrs)
            && At(inlined, p).isParent == At(doc, p).isParent
            && (!At(doc, p).isParent ==> At(inlined, p).children == At(doc, p).children)
  {
    var inlined := InlineDocument(doc).element;
    var c := doc.children[p[0]];
    var q := p[1..];
    assert ValidPath(c, q) && At(doc, p) == At(c, q);
    assert Inlined(c, 0, 0) == Ok(inlined.children[p[0]]);
    InlinedAt(c, 0, 0, q);
    assert At(inlined, p) == At(inlined.children[p[0]], q);
  }

  /** Below the root, the re-origined document holds each element with its
      name and transform, moved by the negated content-box origin unless it
      is an `svg` or a `g`, and with the `viewBox` edit on an `svg`; below an
      element without `children()` nothing changes. */
  lemma ReoriginDocumentAt(d: Element, box: Box, p: seq<nat>)
    requires p != [] && ValidPath(d, p)
    ensures ValidPath(ReoriginDocument(d, box), p)
    ensures var r := At(ReoriginDocument(d, box), p);
            var o := At(d, p);
            && r.name == o.name
            && r.transform == o.transform
            && r.x == o.x + (if IsMoved(o.name) then -box.x else 0)
            && r.y == o.y + (if IsMoved(o.name) then -box.y else 0)
            && r.attrs == (if o.name == "svg" then ModifyViewBox(o.attrs, -box.x, -box.y) else o.attrs)
            && (!o.isParent ==> r.children == o.children)
  {
    var c := d.children[p[0]];
    var q := p[1..];
    assert At(d, p) == At(c, q);
    ReoriginedAt(c, -box.x, -box.y, q);
    var rc := Reorigined(c, -box.x, -box.y);
    assert ReoriginDocument(d, box).children[p[0]] == rc;
    assert At(ReoriginDocument(d, box), p) == At(rc, q);
  }
}
