/** The structural merge `removeDuplicateSVG` makes on the parsed XML
    document: it collapses `<svg><svg>…</svg></svg>` into one root `svg`.
    The document has the parser's object shape: a node maps the key `$`
    to its attributes, the key `_` to its text, and every other key, a tag
    name, to the non-empty sequence of child nodes with that tag. */
module XmlMerge {
  import opened JsObject

  datatype XmlField =
    | Attributes(attrs: map<string, string>)
    | Elements(nodes: seq<XmlNode>)
    | Chars(text: string)

  datatype XmlNode = XmlNode(fields: map<string, XmlField>)

  /** A parsed document: the root tag name and the root node. */
  datatype XmlDoc = XmlDoc(rootName: string, root: XmlNode)

  datatype MergeError =
    | NoRootSvg            // "no root SVG found"
    | MixedWithOtherNodes  // "mixed <svg> with other nodes on the second level"
    | MultipleSvg          // "multiple <svg> on the second level found"
    | ShadowedHasOwnProperty  // the TypeError of a `hasOwnProperty` call on an object owning that key

  /** The outcome: a rejection, the input text passed through, or the
      merged document to be serialised. */
  datatype MergeResult = Rejected(error: MergeError) | Unchanged | Merged(doc: XmlDoc)

  /** The pattern is anchored at both ends and case-sensitive: the three
      names pass, a prefixed, extended or differently cased one does not. */
  lemma AllowedRootAttributeNames()
    ensures IsAllowedRootAttribute("xmlns") && IsAllowedRootAttribute("viewBox") && IsAllowedRootAttribute("class")
    ensures !IsAllowedRootAttribute("xmlns:xlink") && !IsAllowedRootAttribute("viewbox")
            && !IsAllowedRootAttribute("className") && !IsAllowedRootAttribute("style")
  {
  }

  /** The own keys of the `allowedKeys` literal in `areValidRootChildren`. */
  const RootKeys: set<string> := {"$", "defs", "svg"}

  /** The root keys `areValidRootChildren` lets through: a lookup on
      `allowedKeys` that is not `undefined`, so an own key or an inherited
      one. */
  const AcceptedRootKeys: set<string> := RootKeys + ObjectPrototypeMembers

  /** ALLOWED_ROOT_ATTRIBUTES, `^(xmlns|viewBox|class)$`: these three names
      exactly, so `xmlns:xlink` is not one of them. */
  predicate IsAllowedRootAttribute(key: string) {
    key == "xmlns" || key == "viewBox" || key == "class"
  }

  /** A tag key holds a non-empty sequence of nodes, as the parser builds
      it with `explicitArray`. Only the `svg` key of the root matters here. */
  predicate SvgEntryParsed(n: XmlNode) {
    "svg" in n.fields ==> n.fields["svg"].Elements? && |n.fields["svg"].nodes| >= 1
  }

  /** A node's `$`, or no attributes when it has none. */
  function AttributesOf(n: XmlNode): map<string, string> {
    if "$" in n.fields && n.fields["$"].Attributes? then n.fields["$"].attrs else map[]
  }

  /** The allowed root attributes among `attrs`. */
  function AllowedPart(attrs: map<string, string>): map<string, string> {
    map k | k in attrs && IsAllowedRootAttribute(k) :: attrs[k]
  }

  /** The merged root attributes: the allowed ones of the root, overwritten
      by the allowed ones of the nested `svg`. */
  function MergedAttributes(rootAttrs: map<string, string>, childAttrs: map<string, string>): (m: map<string, string>)
    ensures forall k :: k in m <==> IsAllowedRootAttribute(k) && (k in rootAttrs || k in childAttrs)
    ensures forall k :: k in m ==> m[k] == if k in childAttrs then childAttrs[k] else rootAttrs[k]
  {
    AllowedPart(rootAttrs) + AllowedPart(childAttrs)
  }

  /** The new root: the merged attributes under `$`, and every other entry
      of the nested `svg` as it was. */
  function MovedChildren(merged: map<string, string>, child: XmlNode): (n: XmlNode)
    ensures n.fields.Keys == child.fields.Keys + {"$"}
    ensures n.fields["$"] == Attributes(merged)
    ensures forall k :: k in child.fields && k != "$" ==> n.fields[k] == child.fields[k]
  {
    XmlNode(child.fields["$" := Attributes(merged)])
  }

  /** The only nested `svg` of a root that has exactly one. */
  function Nested(root: XmlNode): XmlNode
    requires "svg" in root.fields && root.fields["svg"].Elements? && |root.fields["svg"].nodes| >= 1
  {
    root.fields["svg"].nodes[0]
  }

  /** The merge calls `hasOwnProperty` on the root's attributes, on the
      nested `svg`'s attributes and on the nested `svg` itself, once per
      key; it throws when one of them owns a key `hasOwnProperty`. */
  predicate MergeThrows(root: XmlNode, child: XmlNode) {
    ShadowsHasOwnProperty(AttributesOf(root).Keys) || ShadowsHasOwnProperty(AttributesOf(child).Keys)
    || ShadowsHasOwnProperty(child.fields.Keys)
  }

  /** What `removeDuplicateSVG` decides on a parsed document, in the order
      the source checks: a root that is not `svg` is rejected; a root with
      no nested `svg` passes through; a root with a key other than `$`,
      `defs`, `svg` and the inherited names is rejected; more than one
      nested `svg` is rejected; otherwise the root becomes the nested
      `svg`'s entries under the merged attributes, unless an attribute of
      either level or an entry of the nested `svg` is named
      `hasOwnProperty`, which makes the merge throw. */
  function Collapse(doc: XmlDoc): (r: MergeResult)
    requires SvgEntryParsed(doc.root)
    ensures r == Rejected(NoRootSvg) <==> doc.rootName != "svg"
    ensures r == Unchanged <==> doc.rootName == "svg" && "svg" !in doc.root.fields
    ensures r == Rejected(MixedWithOtherNodes) <==>
              doc.rootName == "svg" && "svg" in doc.root.fields && !(doc.root.fields.Keys <= AcceptedRootKeys)
    ensures r == Rejected(MultipleSvg) <==>
              doc.rootName == "svg" && "svg" in doc.root.fields && doc.root.fields.Keys <= AcceptedRootKeys
              && |doc.root.fields["svg"].nodes| > 1
    ensures r == Rejected(ShadowedHasOwnProperty) <==>
              doc.rootName == "svg" && "svg" in doc.root.fields && doc.root.fields.Keys <= AcceptedRootKeys
              && |doc.root.fields["svg"].nodes| == 1 && MergeThrows(doc.root, Nested(doc.root))
    ensures r.Merged? <==>
              doc.rootName == "svg" && "svg" in doc.root.fields && doc.root.fields.Keys <= AcceptedRootKeys
              && |doc.root.fields["svg"].nodes| == 1 && !MergeThrows(doc.root, Nested(doc.root))
    ensures r.Merged? ==>
              r.doc == XmlDoc("svg", MovedChildren(MergedAttributes(AttributesOf(doc.root), AttributesOf(Nested(doc.root))), Nested(doc.root)))
  {
    if doc.rootName != "svg" then Rejected(NoRootSvg)
    else if "svg" !in doc.root.fields then Unchanged
    else if !(doc.root.fields.Keys <= AcceptedRootKeys) then Rejected(MixedWithOtherNodes)
    else if |doc.root.fields["svg"].nodes| > 1 then Rejected(MultipleSvg)
    else if MergeThrows(doc.root, Nested(doc.root)) then Rejected(ShadowedHasOwnProperty)
    else
      var child := Nested(doc.root);
      Merged(XmlDoc("svg", MovedChildren(MergedAttributes(AttributesOf(doc.root), AttributesOf(child)), child)))
  }

  /** `areValidRootChildren`: goes through the root's keys and answers false
      at the first one for which the `allowedKeys` lookup is `undefined`. */
  method AreValidRootChildren(root: XmlNode) returns (ok: bool)
    ensures ok <==> root.fields.Keys <= AcceptedRootKeys
  {
    var keys := root.fields.Keys;
    while keys != {}
      invariant keys <= root.fields.Keys
      invariant forall k :: k in root.fields && k !in keys ==> k in AcceptedRootKeys
      decreases keys
    {
      var key :| key in keys;
      if key !in AcceptedRootKeys {
        return false;
      }
      keys := keys - {key};
    }
    return true;
  }

  /** One pass of `mergeAndStripAttributes`: copies each allowed attribute
      of `attrs` into `merged`, overwriting what is there. Every step asks
      `attrs.hasOwnProperty(key)` first, which throws when `attrs` owns a
      key `hasOwnProperty`; `ok` is false for that throw. */
  method CopyAllowed(merged: map<string, string>, attrs: map<string, string>) returns (ok: bool, r: map<string, string>)
    ensures ok <==> !ShadowsHasOwnProperty(attrs.Keys)
    ensures ok ==> r == merged + AllowedPart(attrs)
  {
    r := merged;
    var keys := attrs.Keys;
    while keys != {}
      invariant keys <= attrs.Keys
      invariant ShadowsHasOwnProperty(attrs.Keys) ==> keys == attrs.Keys
      invariant forall k :: k in r <==> k in merged || (k in attrs && k !in keys && IsAllowedRootAttribute(k))
      invariant forall k :: k in r ==> r[k] == if k in attrs && k !in keys && IsAllowedRootAttribute(k) then attrs[k] else merged[k]
      decreases keys
    {
      var key :| key in keys;
      if ShadowsHasOwnProperty(attrs.Keys) {
        return false, merged;
      }
      if IsAllowedRootAttribute(key) {
        r := r[key := attrs[key]];
      }
      keys := keys - {key};
    }
    ok := true;
  }

  /** `mergeAndStripAttributes`: the root's attributes first, then the
      nested `svg`'s, keeping only the allowed ones; a throw in either pass
      ends it. */
  method MergeAndStripAttributes(rootAttrs: map<string, string>, childAttrs: map<string, string>)
    returns (ok: bool, merged: map<string, string>)
    ensures ok <==> !ShadowsHasOwnProperty(rootAttrs.Keys) && !ShadowsHasOwnProperty(childAttrs.Keys)
    ensures ok ==> merged == MergedAttributes(rootAttrs, childAttrs)
  {
    ok, merged := CopyAllowed(map[], rootAttrs);
    if ok {
      ok, merged := CopyAllowed(merged, childAttrs);
    }
  }

  /** `moveChildren`: a fresh node holding the merged attributes under `$`,
      then every entry of the nested `svg` except its own `$`. Every step
      asks `childNode.hasOwnProperty(key)` first, which throws when the
      nested `svg` owns an entry `hasOwnProperty`; `ok` is false for that
      throw. */
  method MoveChildren(merged: map<string, string>, child: XmlNode) returns (ok: bool, n: XmlNode)
    ensures ok <==> !ShadowsHasOwnProperty(child.fields.Keys)
    ensures ok ==> n == MovedChildren(merged, child)
  {
    var fields := map["$" := Attributes(merged)];
    var keys := child.fields.Keys;
    while keys != {}
      invariant keys <= child.fields.Keys
      invariant ShadowsHasOwnProperty(child.fields.Keys) ==> keys == child.fields.Keys
      invariant "$" in fields && fields["$"] == Attributes(merged)
      invariant forall k :: k in fields <==> k == "$" || (k in child.fields && k !in keys)
      invariant forall k :: k in fields && k != "$" ==> fields[k] == child.fields[k]
      decreases keys
    {
      var key :| key in keys;
      if ShadowsHasOwnProperty(child.fields.Keys) {
        return false, XmlNode(fields);
      }
      if key != "$" {
        fields := fields[key := child.fields[key]];
      }
      keys := keys - {key};
    }
    ok, n := true, XmlNode(fields);
  }

  /** `removeDuplicateSVG` after parsing and before serialising. */
  method RemoveDuplicateSvg(doc: XmlDoc) returns (r: MergeResult)
    requires SvgEntryParsed(doc.root)
    ensures r == Collapse(doc)
  {
    if doc.rootName != "svg" {
      return Rejected(NoRootSvg);
    }
    var rootNode := doc.root;
    if "svg" !in rootNode.fields {
      return Unchanged;
    }
    var valid := AreValidRootChildren(rootNode);
    if !valid {
      return Rejected(MixedWithOtherNodes);
    }
    if |rootNode.fields["svg"].nodes| > 1 {
      return Rejected(MultipleSvg);
    }
    var childNode := rootNode.fields["svg"].nodes[0];
    var merged, newRoot;
    var ok;
    ok, merged := MergeAndStripAttributes(AttributesOf(rootNode), AttributesOf(childNode));
    if !ok {
      return Rejected(ShadowedHasOwnProperty);
    }
    ok, newRoot := MoveChildren(merged, childNode);
    if !ok {
      return Rejected(ShadowedHasOwnProperty);
    }
    r := Merged(XmlDoc("svg", newRoot));
  }

  /** A merged document holds no nested `svg` unless the nested `svg` itself
      held one; so merging the merged document again passes it through. */
  lemma MergeSettles(doc: XmlDoc)
    requires SvgEntryParsed(doc.root)
    requires Collapse(doc).Merged?
    ensures "svg" in Collapse(doc).doc.root.fields <==> "svg" in Nested(doc.root).fields
    ensures "svg" !in Nested(doc.root).fields ==> Collapse(Collapse(doc).doc) == Unchanged
  {
  }

  /** The root's own `defs` does not survive a merge: the new root has a
      `defs` entry exactly when the nested `svg` had one, and it is that one. */
  lemma MergeDropsRootDefs(doc: XmlDoc)
    requires SvgEntryParsed(doc.root)
    requires Collapse(doc).Merged?
    ensures "defs" in Collapse(doc).doc.root.fields <==> "defs" in Nested(doc.root).fields
    ensures "defs" in Nested(doc.root).fields ==>
              Collapse(doc).doc.root.fields["defs"] == Nested(doc.root).fields["defs"]
  {
  }

  /** A root entry named after an inherited member, such as an element
      `<toString>` beside the nested `svg`, passes the key check, and the
      merge then drops it: only the nested `svg`'s entries survive. */
  lemma InheritedRootKeyDropped(child: XmlNode, other: XmlField)
    requires "toString" !in child.fields
    requires !MergeThrows(XmlNode(map["svg" := Elements([child])]), child)
    ensures var doc := XmlDoc("svg", XmlNode(map["svg" := Elements([child]), "toString" := other]));
            && Collapse(doc).Merged?
            && "toString" !in Collapse(doc).doc.root.fields
  {
    var doc := XmlDoc("svg", XmlNode(map["svg" := Elements([child]), "toString" := other]));
    assert "toString" in ObjectPrototypeMembers;
    assert doc.root.fields.Keys == {"svg", "toString"};
  }
}
