/** The live SVG element tree the Optimizer walks, as values.
    An element has a position that `dmove` shifts, a decomposed transform,
    its attributes and its children. */
module SvgTree {
  import opened JsObject

  /** The decomposition of an element's transform matrix: translation,
      scale, skew and rotation. Coordinates are integers. */
  datatype Transform = Transform(x: int, y: int, scaleX: int, scaleY: int, skewX: int, skewY: int, rotation: int)

  /** The transform `untransform()` leaves behind. */
  const Identity := Transform(0, 0, 1, 1, 0, 0, 0)

  /** An attribute value as the element's attribute getter hands it out:
      a string, or a number for attributes that read as numbers. */
  datatype AttrValue = Text(s: string) | Num(n: int)

  /** One element of the tree. `isParent` says whether the element's
      wrapper has a `children()` method, as the container wrappers (`svg`,
      `g`, `defs`, ...) have and the shape wrappers (`rect`, `path`, ...) do
      not. The walks visit `children` only when it holds; below an element
      without it, `children` is content that no walk reaches. */
  datatype Element = Element(
    name: string,
    x: int,
    y: int,
    transform: Transform,
    attrs: map<string, AttrValue>,
    isParent: bool,
    children: seq<Element>)

  /** A transform that is a pure translation: no skew, unit scale, no rotation. */
  predicate IsTranslation(t: Transform) {
    t.skewX == 0 && t.skewY == 0 && t.scaleX == 1 && t.scaleY == 1 && t.rotation == 0
  }

  /** The characters a regular-expression `.` does not match. */
  predicate IsLineTerminator(c: char) {
    c == '\n' || c == '\r' || c == '\U{2028}' || c == '\U{2029}'
  }

  /** STRIPPED_ATTRIBUTES, `^(id|data-.*?)$`: exactly `id`, or `data-`
      followed by characters none of which ends a line. */
  predicate IsStripped(key: string) {
    key == "id"
    || (|key| >= 5 && key[..5] == "data-" && forall i :: 5 <= i < |key| ==> !IsLineTerminator(key[i]))
  }

  /** The pattern is anchored at both ends and its `.` stops at a line
      terminator: `id` and every `data-` name are stripped, a name that only
      contains or extends `id`, and a `data-` name spanning two lines, are
      not. */
  lemma StrippedNames()
    ensures IsStripped("id") && IsStripped("data-") && IsStripped("data-name")
    ensures !IsStripped("ids") && !IsStripped("xid") && !IsStripped("data") && !IsStripped("data-a\nb")
  {
    assert "data-a\nb"[6] == '\n';
  }

  /** The attributes that survive stripping. */
  function Stripped(attrs: map<string, AttrValue>): map<string, AttrValue> {
    map k | k in attrs && !IsStripped(k) :: attrs[k]
  }

  /** `removeAttributes`: walks the attribute names and deletes each one
      that matches the stripped pattern. Every step first asks the
      attribute object `hasOwnProperty(key)`, which throws when an attribute
      is itself named `hasOwnProperty`; `ok` is false for that throw. */
  method RemoveAttributes(attrs: map<string, AttrValue>) returns (ok: bool, r: map<string, AttrValue>)
    ensures ok <==> !ShadowsHasOwnProperty(attrs.Keys)
    ensures ok ==> forall k :: k in r <==> k in attrs && !IsStripped(k)
    ensures ok ==> forall k :: k in r ==> r[k] == attrs[k]
    ensures ok ==> r == Stripped(attrs)
  {
    r := attrs;
    var todo := attrs.Keys;
    while todo != {}
      invariant todo <= attrs.Keys
      invariant ShadowsHasOwnProperty(attrs.Keys) ==> todo == attrs.Keys
      invariant forall k :: k in r <==> k in attrs && (k in todo || !IsStripped(k))
      invariant forall k :: k in r ==> r[k] == attrs[k]
      decreases todo
    {
      var key :| key in todo;
      if ShadowsHasOwnProperty(attrs.Keys) {
        return false, attrs;
      }
      if IsStripped(key) {
        r := r - {key};
      }
      todo := todo - {key};
    }
    ok := true;
  }

  /** A path of child indices leads from `e` to one of the descendants a
      walk reaches (the empty path to `e` itself): every step goes into a
      child of an element whose wrapper has `children()`. */
  predicate ValidPath(e: Element, p: seq<nat>)
    decreases |p|
  {
    p == [] || (e.isParent && p[0] < |e.children| && ValidPath(e.children[p[0]], p[1..]))
  }

  /** The element a valid path leads to. */
  function At(e: Element, p: seq<nat>): Element
    requires ValidPath(e, p)
    decreases |p|
  {
    if p == [] then e else At(e.children[p[0]], p[1..])
  }

  /** The sum of the x translations of every element on the path,
      the start and the end included. */
  function PathShiftX(e: Element, p: seq<nat>): int
    requires ValidPath(e, p)
    decreases |p|
  {
    e.transform.x + if p == [] then 0 else PathShiftX(e.children[p[0]], p[1..])
  }

  /** The same for y. */
  function PathShiftY(e: Element, p: seq<nat>): int
    requires ValidPath(e, p)
    decreases |p|
  {
    e.transform.y + if p == [] then 0 else PathShiftY(e.children[p[0]], p[1..])
  }
}
