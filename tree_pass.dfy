/** The two walks the Optimizer makes over the element tree: inlining
    translations (with attribute stripping) and moving the content to the
    origin (with the `viewBox` edit). Each walk is a method that visits the
    children in a loop and recurses, proved equal to a function that says
    what the walk computes; the lemmas say what that means per element. */
module TreePass {
  import opened JsObject
  import opened SvgTree
  import opened ViewBoxText

  /** The outcome of inlining: the rebuilt element, or a throw: the error
      for a transform that is more than a translation, or the TypeError
      `removeAttributes` runs into. Which of the two is not kept. */
  datatype InlineResult = Ok(element: Element) | Thrown

  /** `inlineOnElement` throws on the element itself: its transform is more
      than a translation, or, once it is moved and untransformed, an
      attribute named `hasOwnProperty` breaks `removeAttributes`. */
  predicate ThrowsOn(e: Element) {
    !IsTranslation(e.transform) || ShadowsHasOwnProperty(e.attrs.Keys)
  }

  /** The axis-aligned box of the rendered content. */
  datatype Box = Box(x: int, y: int, width: int, height: int)

  // ----- inlining -----

  /** What `inlineOnElement(e, offsetX, offsetY)` leaves behind: throws on
      the element itself as `ThrowsOn` says; otherwise adds the translation to the
      offset, moves the element by the sum, clears its transform, strips its
      attributes and, when its wrapper has `children()`, visits every child
      with that same sum. The children of any other element are kept. */
  function Inlined(e: Element, offsetX: int, offsetY: int): InlineResult
    decreases e
  {
    if ThrowsOn(e) then Thrown
    else
      var x, y := offsetX + e.transform.x, offsetY + e.transform.y;
      if e.isParent && exists i :: 0 <= i < |e.children| && Inlined(e.children[i], x, y).Thrown? then Thrown
      else
        var kids := if e.isParent then seq(|e.children|, i requires 0 <= i < |e.children| => Inlined(e.children[i], x, y).element)
                    else e.children;
        Ok(Element(e.name, e.x + x, e.y + y, Identity, Stripped(e.attrs), e.isParent, kids))
  }

  /** `inlineOnElement`: the check first, then move, untransform, strip, and
      the children in order when the wrapper has `children()`; the first
      failure aborts the walk. */
  method InlineOnElement(e: Element, offsetX: int, offsetY: int) returns (r: InlineResult)
    ensures r == Inlined(e, offsetX, offsetY)
    decreases e
  {
    var t := e.transform;
    if !IsTranslation(t) {
      return Thrown;
    }
    var x, y := offsetX + t.x, offsetY + t.y;
    var ok, attrs := RemoveAttributes(e.attrs);
    if !ok {
      return Thrown;
    }
    var kids := e.children;
    if e.isParent {
      kids := [];
      var i := 0;
      while i < |e.children|
        invariant 0 <= i <= |e.children|
        invariant |kids| == i
        invariant forall j :: 0 <= j < i ==> Inlined(e.children[j], x, y) == Ok(kids[j])
      {
        var child := InlineOnElement(e.children[i], x, y);
        if child.Thrown? {
          assert Inlined(e.children[i], x, y).Thrown?;
          return Thrown;
        }
        kids := kids + [child.element];
        i := i + 1;
      }
    }
    r := Ok(Element(e.name, e.x + x, e.y + y, Identity, attrs, e.isParent, kids));
  }

  /** Inlining throws exactly when some element the walk reaches, the
      start included, has a transform that is not a pure translation or an
      attribute named `hasOwnProperty`; content below an element without
      `children()` plays no part. */
  lemma {:induction false} InlinedFailsIff(e: Element, offsetX: int, offsetY: int)
    ensures Inlined(e, offsetX, offsetY).Thrown?
            <==> exists p :: ValidPath(e, p) && ThrowsOn(At(e, p))
    decreases e
  {
    if !ThrowsOn(e) {
      var x, y := offsetX + e.transform.x, offsetY + e.transform.y;
      if Inlined(e, offsetX, offsetY).Thrown? {
        var i :| 0 <= i < |e.children| && Inlined(e.children[i], x, y).Thrown?;
        InlinedFailsIff(e.children[i], x, y);
        var q: seq<nat> :| ValidPath(e.children[i], q) && ThrowsOn(At(e.children[i], q));
        var p: seq<nat> := [i as nat] + q;
        assert p[1..] == q;
        assert ValidPath(e, p) && At(e, p) == At(e.children[i], q);
        assert ThrowsOn(At(e, p));
        assert exists p': seq<nat> :: ValidPath(e, p') && ThrowsOn(At(e, p'));
      } else {
        forall p | ValidPath(e, p)
          ensures !ThrowsOn(At(e, p))
        {
          if p == [] {
            assert At(e, p) == e;
            assert !ThrowsOn(e);
          } else {
            var c := e.children[p[0]];
            assert Inlined(c, x, y).Ok?;
            InlinedFailsIff(c, x, y);
            assert ValidPath(c, p[1..]) && At(e, p) == At(c, p[1..]);
            assert !ThrowsOn(At(c, p[1..]));
          }
        }
      }
    } else {
      var p: seq<nat> := [];
      assert ValidPath(e, p) && At(e, p) == e;
      assert exists p': seq<nat> :: ValidPath(e, p') && ThrowsOn(At(e, p'));
    }
  }

  /** After a successful inlining the tree has the same shape, and every
      element the walk reaches has been moved by the offset plus the sum of
      the translations from the start down to itself; its transform is the
      identity, its stripped attributes are gone and its name is kept. The
      children of a reached element without `children()` are left exactly
      as they were. */
  lemma {:induction false} InlinedAt(e: Element, offsetX: int, offsetY: int, p: seq<nat>)
    requires Inlined(e, offsetX, offsetY).Ok?
    requires ValidPath(e, p)
    ensures var r := Inlined(e, offsetX, offsetY).element;
            && ValidPath(r, p)
            && At(r, p).name == At(e, p).name
            && At(r, p).x == At(e, p).x + offsetX + PathShiftX(e, p)
            && At(r, p).y == At(e, p).y + offsetY + PathShiftY(e, p)
            && At(r, p).transform == Identity
            && At(r, p).attrs == Stripped(At(e, p).attrs)
            && At(r, p).isParent == At(e, p).isParent
            && |At(r, p).children| == |At(e, p).children|
            && (!At(e, p).isParent ==> At(r, p).children == At(e, p).children)
    decreases |p|
  {
    if p != [] {
      var x, y := offsetX + e.transform.x, offsetY + e.transform.y;
      var c := e.children[p[0]];
      assert Inlined(c, x, y).Ok?;
      assert Inlined(e, offsetX, offsetY).element.children[p[0]] == Inlined(c, x, y).element;
      InlinedAt(c, x, y, p[1..]);
    }
  }

  /** No path reaches into the inlined tree that did not reach into the
      original one. */
  lemma {:induction false} InlinedPathBack(e: Element, offsetX: int, offsetY: int, p: seq<nat>)
    requires Inlined(e, offsetX, offsetY).Ok?
    requires ValidPath(Inlined(e, offsetX, offsetY).element, p)
    ensures ValidPath(e, p)
    decreases |p|
  {
    if p != [] {
      var x, y := offsetX + e.transform.x, offsetY + e.transform.y;
      var c := e.children[p[0]];
      assert Inlined(c, x, y).Ok?;
      assert Inlined(e, offsetX, offsetY).element.children[p[0]] == Inlined(c, x, y).element;
      InlinedPathBack(c, x, y, p[1..]);
    }
  }

  /** `inline`'s first walk: the document root stays as it is and each of
      its children is inlined from offset (0, 0). */
  function InlineDocument(doc: Element): (r: InlineResult)
    ensures r.Ok? ==>
              && r.element.name == doc.name && r.element.x == doc.x && r.element.y == doc.y
              && r.element.transform == doc.transform && r.element.attrs == doc.attrs
              && |r.element.children| == |doc.children|
              && forall i :: 0 <= i < |doc.children| ==> Inlined(doc.children[i], 0, 0) == Ok(r.element.children[i])
    ensures r.Thrown? <==> exists i :: 0 <= i < |doc.children| && Inlined(doc.children[i], 0, 0).Thrown?
  {
    var kids := seq(|doc.children|, i requires 0 <= i < |doc.children| => Inlined(doc.children[i], 0, 0));
    if exists i :: 0 <= i < |kids| && kids[i].Thrown? then Thrown
    else Ok(doc.(children := seq(|kids|, i requires 0 <= i < |kids| => kids[i].element)))
  }

  /** The first loop of `inline`: each child of the root, in order, goes
      through `inlineOnElement` from (0, 0); the first failure aborts. */
  method InlineChildren(doc: Element) returns (r: InlineResult)
    ensures r == InlineDocument(doc)
  {
    var kids: seq<Element> := [];
    var i := 0;
    while i < |doc.children|
      invariant 0 <= i <= |doc.children|
      invariant |kids| == i
      invariant forall j :: 0 <= j < i ==> Inlined(doc.children[j], 0, 0) == Ok(kids[j])
    {
      var child := InlineOnElement(doc.children[i], 0, 0);
      if child.Thrown? {
        assert InlineDocument(doc).Thrown?;
        return Thrown;
      }
      kids := kids + [child.element];
      i := i + 1;
    }
    r := Ok(doc.(children := kids));
  }

  // ----- moving to the origin -----

  /** `moveToOrigin` moves everything but `svg` and `g` elements. */
  predicate IsMoved(name: string) {
    name != "svg" && name != "g"
  }

  /** A parsed number shifted by an offset; NaN stays NaN. */
  function Shifted(v: Option<int>, offset: int): Option<int> {
    match v
    case Some(n) => Some(n + offset)
    case None => None
  }

  /** A field of the `viewBox` read as a number, shifted and printed back;
      a field that does not read as a number prints as NaN. */
  function ShiftField(field: string, offset: int): (r: string)
    ensures ' ' !in r
    ensures ParseNumber(r) == Shifted(ParseNumber(field), offset)
  {
    var v := ParseNumber(field);
    NumberTextSpaceFree(0);
    if v.Some? then
      ParsePrinted(v.value + offset);
      NumberTextSpaceFree(v.value + offset);
      NumberText(v.value + offset)
    else
      NaNUnread();
      NaNText
  }

  /** The fields a `viewBox` edit writes back: the first shifted by `dx`,
      the second by `dy`, the rest kept. When there is only one field, the
      second reads as NaN, as `parseFloat(undefined)` does. */
  function ShiftedFields(parts: seq<string>, dx: int, dy: int): (fields: seq<string>)
    requires |parts| >= 1
    ensures |fields| == if |parts| >= 2 then |parts| else 2
    ensures (forall i :: 0 <= i < |parts| ==> ' ' !in parts[i]) ==> forall i :: 0 <= i < |fields| ==> ' ' !in fields[i]
  {
    NumberTextSpaceFree(0);
    var second := if |parts| >= 2 then ShiftField(parts[1], dy) else NaNText;
    var rest := if |parts| >= 2 then parts[2..] else [];
    [ShiftField(parts[0], dx), second] + rest
  }

  /** `modifyViewBox`, as written: with no string `viewBox` nothing
      changes; otherwise its fields are shifted and joined back with single
      spaces. The second field is shifted by `offsetX` too; `offsetY` is
      not used. */
  function ModifyViewBox(attrs: map<string, AttrValue>, offsetX: int, offsetY: int): (r: map<string, AttrValue>)
    ensures r.Keys == attrs.Keys
    ensures forall k :: k in attrs && k != "viewBox" ==> r[k] == attrs[k]
    ensures !("viewBox" in attrs && attrs["viewBox"].Text?) ==> r == attrs
    ensures "viewBox" in attrs ==> r["viewBox"].Text? == attrs["viewBox"].Text?
  {
    if "viewBox" in attrs && attrs["viewBox"].Text? then
      attrs["viewBox" := Text(Join(ShiftedFields(Split(attrs["viewBox"].s), offsetX, offsetX)))]
    else attrs
  }

  /** How the written-back fields read: the first as the old first shifted
      by `dx`, the second as the old second shifted by `dy` (NaN when there
      was none), and every later field as it was. */
  lemma ShiftedFieldsRead(parts: seq<string>, dx: int, dy: int)
    requires |parts| >= 1
    ensures var fields := ShiftedFields(parts, dx, dy);
            && ParseNumber(fields[0]) == Shifted(ParseNumber(parts[0]), dx)
            && ParseNumber(fields[1]) == (if |parts| >= 2 then Shifted(ParseNumber(parts[1]), dy) else None)
            && forall i :: 2 <= i < |parts| ==> fields[i] == parts[i]
  {
    var fields := ShiftedFields(parts, dx, dy);
    var first := ShiftField(parts[0], dx);
    assert fields[0] == first;
    if |parts| >= 2 {
      var second := ShiftField(parts[1], dy);
      assert fields == [first, second] + parts[2..];
      assert fields[1] == second;
      forall i | 2 <= i < |parts|
        ensures fields[i] == parts[i]
      {
        assert fields[i] == parts[2..][i - 2];
      }
    } else {
      assert fields == [first, NaNText];
      NaNUnread();
    }
  }

  /** What `modifyViewBox` does to the fields of a string `viewBox`: its
      first two fields read as the old ones plus `offsetX` (the y offset
      plays no part); every later field is kept. */
  lemma ModifyViewBoxFields(attrs: map<string, AttrValue>, offsetX: int, offsetY: int)
    ensures "viewBox" in attrs && attrs["viewBox"].Text? ==>
              var before := Split(attrs["viewBox"].s);
              var after := Split(ModifyViewBox(attrs, offsetX, offsetY)["viewBox"].s);
              && |after| == (if |before| >= 2 then |before| else 2)
              && ParseNumber(after[0]) == Shifted(ParseNumber(before[0]), offsetX)
              && ParseNumber(after[1]) == (if |before| >= 2 then Shifted(ParseNumber(before[1]), offsetX) else None)
              && forall i :: 2 <= i < |before| ==> after[i] == before[i]
  {
    if "viewBox" in attrs && attrs["viewBox"].Text? {
      var before := Split(attrs["viewBox"].s);
      var fields := ShiftedFields(before, offsetX, offsetX);
      assert ModifyViewBox(attrs, offsetX, offsetY)["viewBox"].s == Join(fields);
      SplitJoin(fields);
      ShiftedFieldsRead(before, offsetX, offsetX);
    }
  }

  /** As written, the second `viewBox` field moves with the x offset:
      moving "0 0 10 10" by (-100, -50) gives the fields -100 -100 10 10. */
  lemma ViewBoxYMovedByX()
    ensures var r := ModifyViewBox(map["viewBox" := Text("0 0 10 10")], -100, -50);
            "viewBox" in r && r["viewBox"].Text? && Split(r["viewBox"].s) == ["-100", "-100", "10", "10"]
  {
    var before: seq<string> := ["0", "0", "10", "10"];
    var after: seq<string> := ["-100", "-100", "10", "10"];
    assert Join(before) == "0 0 10 10";
    SplitJoin(before);
    ShiftZero();
    assert ShiftedFields(before, -100, -100) == after;
    NumberTextSpaceFree(0);
    SplitJoin(after);
  }

  /** The field "0" shifted by -100 prints as "-100". */
  lemma ShiftZero()
    ensures ShiftField("0", -100) == "-100"
  {
    assert DigitRun("0") == 1 && "0"[..1] == "0";
    assert ParseNumber("0") == Some(0);
    assert NatText(100) == "100";
  }

  /** The `viewBox` edit with the second field moved by `offsetY`. */
  function ModifyViewBoxCorrected(attrs: map<string, AttrValue>, offsetX: int, offsetY: int): (r: map<string, AttrValue>)
    ensures r.Keys == attrs.Keys
    ensures forall k :: k in attrs && k != "viewBox" ==> r[k] == attrs[k]
    ensures !("viewBox" in attrs && attrs["viewBox"].Text?) ==> r == attrs
    ensures "viewBox" in attrs ==> r["viewBox"].Text? == attrs["viewBox"].Text?
  {
    if "viewBox" in attrs && attrs["viewBox"].Text? then
      attrs["viewBox" := Text(Join(ShiftedFields(Split(attrs["viewBox"].s), offsetX, offsetY)))]
    else attrs
  }

  /** The corrected edit moves the minimum x by `offsetX` and the minimum y
      by `offsetY`, and keeps every other field. */
  lemma ModifyViewBoxCorrectedFields(attrs: map<string, AttrValue>, offsetX: int, offsetY: int)
    ensures "viewBox" in attrs && attrs["viewBox"].Text? ==>
              var before := Split(attrs["viewBox"].s);
              var after := Split(ModifyViewBoxCorrected(attrs, offsetX, offsetY)["viewBox"].s);
              && |after| == (if |before| >= 2 then |before| else 2)
              && ParseNumber(after[0]) == Shifted(ParseNumber(before[0]), offsetX)
              && ParseNumber(after[1]) == (if |before| >= 2 then Shifted(ParseNumber(before[1]), offsetY) else None)
              && forall i :: 2 <= i < |before| ==> after[i] == before[i]
  {
    if "viewBox" in attrs && attrs["viewBox"].Text? {
      var before := Split(attrs["viewBox"].s);
      var fields := ShiftedFields(before, offsetX, offsetY);
      assert ModifyViewBoxCorrected(attrs, offsetX, offsetY)["viewBox"].s == Join(fields);
      SplitJoin(fields);
      ShiftedFieldsRead(before, offsetX, offsetY);
    }
  }

  /** What `moveToOrigin(e, offsetX, offsetY)` leaves behind: an `svg`
      element has its `viewBox` edited, a `g` element is left alone, any
      other element is moved; when the wrapper has `children()`, every child
      is visited with the same offset, and otherwise the children are kept. */
  function Reorigined(e: Element, offsetX: int, offsetY: int): Element
    decreases e
  {
    Element(
      e.name,
      if IsMoved(e.name) then e.x + offsetX else e.x,
      if IsMoved(e.name) then e.y + offsetY else e.y,
      e.transform,
      if e.name == "svg" then ModifyViewBox(e.attrs, offsetX, offsetY) else e.attrs,
      e.isParent,
      if e.isParent then seq(|e.children|, i requires 0 <= i < |e.children| => Reorigined(e.children[i], offsetX, offsetY))
      else e.children)
  }

  /** `moveToOrigin`: dispatch on the element's name, then the children in
      order when the wrapper has `children()`. */
  method MoveToOrigin(e: Element, offsetX: int, offsetY: int) returns (r: Element)
    ensures r == Reorigined(e, offsetX, offsetY)
    decreases e
  {
    var x, y, attrs := e.x, e.y, e.attrs;
    if e.name == "svg" {
      attrs := ModifyViewBox(e.attrs, offsetX, offsetY);
    } else if e.name == "g" {
    } else {
      x, y := e.x + offsetX, e.y + offsetY;
    }
    var kids := e.children;
    if e.isParent {
      kids := [];
      var i := 0;
      while i < |e.children|
        invariant 0 <= i <= |e.children|
        invariant |kids| == i
        invariant forall j :: 0 <= j < i ==> kids[j] == Reorigined(e.children[j], offsetX, offsetY)
      {
        var child := MoveToOrigin(e.children[i], offsetX, offsetY);
        kids := kids + [child];
        i := i + 1;
      }
    }
    r := Element(e.name, x, y, e.transform, attrs, e.isParent, kids);
  }

  /** Moving to the origin keeps the tree's shape, names and transforms;
      every element reached by a path is moved by exactly the offset unless
      it is an `svg` or a `g`, and only an `svg` has its attributes touched,
      by the `viewBox` edit. The children of a reached element without
      `children()` are left exactly as they were. */
  lemma {:induction false} ReoriginedAt(e: Element, offsetX: int, offsetY: int, p: seq<nat>)
    ensures ValidPath(Reorigined(e, offsetX, offsetY), p) <==> ValidPath(e, p)
    ensures ValidPath(e, p) ==>
              var r := At(Reorigined(e, offsetX, offsetY), p);
              var o := At(e, p);
              && r.name == o.name
              && r.transform == o.transform
              && r.isParent == o.isParent
              && |r.children| == |o.children|
              && (!o.isParent ==> r.children == o.children)
              && r.x == o.x + (if IsMoved(o.name) then offsetX else 0)
              && r.y == o.y + (if IsMoved(o.name) then offsetY else 0)
              && r.attrs == (if o.name == "svg" then ModifyViewBox(o.attrs, offsetX, offsetY) else o.attrs)
    decreases |p|
  {
    if p != [] && e.isParent && p[0] < |e.children| {
      ReoriginedAt(e.children[p[0]], offsetX, offsetY, p[1..]);
    }
  }

  /** `inline`'s second walk: the root stays as it is and each of its
      children is moved by the negated origin of the content box. */
  function ReoriginDocument(doc: Element, box: Box): (r: Element)
    ensures r.name == doc.name && r.x == doc.x && r.y == doc.y
    ensures r.transform == doc.transform && r.attrs == doc.attrs
    ensures |r.children| == |doc.children|
    ensures forall i :: 0 <= i < |doc.children| ==> r.children[i] == Reorigined(doc.children[i], -box.x, -box.y)
  {
    doc.(children := seq(|doc.children|, i requires 0 <= i < |doc.children| => Reorigined(doc.children[i], -box.x, -box.y)))
  }

  /** The second loop of `inline`: each child of the root, in order, goes
      through `moveToOrigin` with the negated origin of the content box. */
  method MoveChildrenToOrigin(doc: Element, box: Box) returns (r: Element)
    ensures r == ReoriginDocument(doc, box)
  {
    var moved: seq<Element> := [];
    var i := 0;
    while i < |doc.children|
      invariant 0 <= i <= |doc.children|
      invariant |moved| == i
      invariant forall j :: 0 <= j < i ==> moved[j] == Reorigined(doc.children[j], -box.x, -box.y)
    {
      var child := MoveToOrigin(doc.children[i], -box.x, -box.y);
      moved := moved + [child];
      i := i + 1;
    }
    r := doc.(children := moved);
    assert r.children == ReoriginDocument(doc, box).children;
  }
}
