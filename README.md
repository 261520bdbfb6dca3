# svg-min normaliser, modelled in Dafny

This project models the SVG normaliser of svg-min: the `Optimizer` that
runs before the SVG minifier, and the savings figure that `SvgFile` prints
afterwards.

- **Tree pass** (`svg_tree.dfy`, `tree_pass.dfy`, `view_box_text.dfy`).
  - The inlining walk refuses any transform that is more than a translation.
  - Otherwise it adds the element's translation to the running offset and moves the element by the sum.
  - It then resets the transform to the identity, strips `id` and `data-*` attributes, and visits the children with the same sum.
  - Stripping asks the attribute object `hasOwnProperty(key)` for every key. An element with an attribute named `hasOwnProperty` therefore makes that call throw a TypeError, and the walk fails as it does for a transform.
  - Each walk descends only into an element whose svg.js wrapper has a `children()` method (a container such as `svg`, `g` or `defs`). Each element records this in its `isParent` flag. What lies below any other element is carried along untouched.
  - The re-origin walk rewrites the `viewBox` of `svg` elements, leaves `g` elements alone, and moves everything else by the negated origin of the content box.
  - The `viewBox` edit splits the attribute on single spaces, shifts the first two fields and joins them back.
- **Structural merge** (`xml_merge.dfy`). `removeDuplicateSVG` works on the parsed XML object.
  - It rejects a document without a root `svg`.
  - It passes a root without a nested `svg` through.
  - It rejects a root with keys other than `$`, `defs` and `svg`, and then one with more than one nested `svg`.
  - The key test is a lookup on an object literal, so a name inherited from `Object.prototype` (`toString`, `constructor`, ...) passes it too. The merge then drops that entry.
  - Otherwise the new root holds the merged allow-listed attributes (the nested values win) and the nested `svg`'s entries.
  - The merge loops call `hasOwnProperty` on the objects they walk. So an attribute of either `svg` level, or an entry of the nested `svg`, named `hasOwnProperty` makes the merge throw, and the merge is rejected.
- **JavaScript objects** (`js_object.dfy`). This holds the names every object inherits from `Object.prototype`, and the own key that breaks `hasOwnProperty`.
- **Optimizer object** (`optimizer.dfy`). It holds the live document. `Inline` runs both walks over the root's children and then the merge. The root itself is never moved, untransformed or stripped.
- **SvgFile** (`svg_file.dfy`). The constructor and `optimize` keep `originalFileSize`. `formatSavings` is a classification: unknown, ±0%, -N%, +N%.

Each walk is a method with a loop over the children. The method is proved equal to a function that states what the walk computes. Lemmas then state per element, by path from the start of the walk, where that element ends up.

Inputs that belong to foreign libraries are parameters:

- `contentBox`: the rendered box, from svg.js `rbox()`.
- `toXml`: serialising the tree and parsing it back with xml2js.
- `parse`: building the element tree from markup.

## Model

| member | source | states |
|---|---|---|
| SvgTree.RemoveAttributes | lib/Optimizer.js:91-101 | throws exactly when an attribute is named `hasOwnProperty`. Otherwise it deletes exactly the attributes named `id`, or `data-` followed by no line terminator, and every other attribute keeps its value |
| SvgTree.StrippedNames | lib/Optimizer.js:6 | the stripped-name pattern is anchored and its `.` stops at a line terminator: `id`, `data-` and `data-name` match, while `ids`, `xid`, `data` and a `data-` name spanning two lines do not |
| TreePass.InlineOnElement | lib/Optimizer.js:59-82 | the recursive walk computes `Inlined`. It throws on a non-translation or on a `hasOwnProperty` attribute; otherwise the element is moved, untransformed and stripped. Its loop inlines the children only when the wrapper has `children()`, and otherwise keeps them |
| TreePass.InlinedFailsIff | lib/Optimizer.js:62-81 | inlining throws exactly when some element the walk reaches has skew, non-unit scale or rotation, or an attribute named `hasOwnProperty`. Content below an element without `children()` plays no part |
| TreePass.InlinedAt | lib/Optimizer.js:69-81 | on success every element the walk reaches keeps its name, its `children()` flag and its number of children. It is moved by the starting offset plus the translations on its path, including its own, and has the identity transform and only unstripped attributes. Below an element without `children()` the content is unchanged |
| TreePass.InlinedPathBack | lib/Optimizer.js:76-81 | inlining adds no element: every path into the result is a path into the input |
| TreePass.InlineDocument | lib/Optimizer.js:36-39 | the document root is left as it is and each top-level child is inlined from offset (0, 0); the walk fails exactly when one of them fails |
| TreePass.InlineChildren | lib/Optimizer.js:36-39 | the first loop of `inline`, over the root's children, computes `InlineDocument` |
| TreePass.ShiftField | lib/Optimizer.js:155-156 | a shifted field holds no space and reads back as the old number plus the offset, NaN staying NaN |
| TreePass.ModifyViewBox | lib/Optimizer.js:144-159 | the edit adds and removes no attribute and changes none but `viewBox`. An attribute set without a string `viewBox` is returned unchanged, and a string `viewBox` stays a string |
| TreePass.ModifyViewBoxFields | lib/Optimizer.js:154-157 | the first two fields of a string `viewBox` read as the old ones plus `offsetX`, a missing second field becomes NaN, and every later field is kept |
| TreePass.ViewBoxYMovedByX | lib/Optimizer.js:156 | as written, moving "0 0 10 10" by (-100, -50) yields the fields -100 -100 10 10 |
| TreePass.ModifyViewBoxCorrected | lib/Optimizer.js:144-159 | the corrected edit, like the one as written, adds and removes no attribute and changes none but a string `viewBox` |
| TreePass.ModifyViewBoxCorrectedFields | lib/Optimizer.js:154-157 | the corrected edit moves the first field by `offsetX` and the second by `offsetY`, and keeps the rest |
| TreePass.MoveToOrigin | lib/Optimizer.js:110-134 | the recursive walk computes `Reorigined`. Its loop visits the children only when the wrapper has `children()` |
| TreePass.ReoriginedAt | lib/Optimizer.js:112-133 | the re-origin walk keeps the shape it walks, names, transforms and `children()` flags. Each element it reaches is moved by the offset unless it is an `svg` or a `g`; only an `svg` has its attributes changed, by the `viewBox` edit. Below an element without `children()` the content is unchanged |
| TreePass.ReoriginDocument | lib/Optimizer.js:41-45 | the root is left as it is and every top-level child is moved by the negated origin of the content box |
| TreePass.MoveChildrenToOrigin | lib/Optimizer.js:41-45 | the second loop of `inline`, over the root's children, computes `ReoriginDocument` |
| ViewBoxText.Split | lib/Optimizer.js:154 | splitting on a space yields at least one field and no field holds a space |
| ViewBoxText.JoinSplit | lib/Optimizer.js:154-157 | joining the fields of a split gives back the attribute text |
| ViewBoxText.SplitJoin | lib/Optimizer.js:154-157 | splitting space-free fields joined by spaces gives back the fields |
| ViewBoxText.ParsePrinted | lib/Optimizer.js:155-157 | a number printed by the join reads back as that number |
| ViewBoxText.ParseLeadingNumber | lib/Optimizer.js:155-156 | `parseFloat` reads an optional sign and the leading digits and ignores what follows, so a printed number followed by text that does not start with a digit reads back as that number |
| ViewBoxText.NaNUnread | lib/Optimizer.js:155-157 | a field written back as NaN reads as NaN again |
| XmlMerge.MergedAttributes | lib/Optimizer.js:263-286 | the merged attributes are exactly the names `xmlns`, `viewBox` and `class` present at either level; the nested `svg`'s value wins |
| XmlMerge.AllowedRootAttributeNames | lib/Optimizer.js:7 | the root attribute pattern is anchored and case-sensitive: `xmlns`, `viewBox` and `class` pass, while `xmlns:xlink`, `viewbox`, `className` and `style` do not |
| XmlMerge.MovedChildren | lib/Optimizer.js:297-313 | the new root holds the merged attributes under `$` and every other entry of the nested `svg` unchanged; nothing of the old root's other entries |
| XmlMerge.Collapse | lib/Optimizer.js:181-213 | the outcome, in the source's order:
- no root `svg`: rejected;
- no nested `svg`: passed through;
- a root key that is neither `$`, `defs`, `svg` nor inherited from `Object.prototype`: rejected;
- several nested `svg`: rejected;
- a `hasOwnProperty` attribute at either level, or a `hasOwnProperty` entry in the nested `svg`: rejected for the thrown TypeError;
- otherwise merged, with the merged root |
| XmlMerge.AreValidRootChildren | lib/Optimizer.js:236-250 | answers true exactly when every key of the root is `$`, `defs`, `svg` or the name of a member every object inherits from `Object.prototype` |
| XmlMerge.CopyAllowed | lib/Optimizer.js:267-283 | throws exactly when the attributes include one named `hasOwnProperty`. Otherwise one pass of the merge loop adds the allowed attributes of one level over what is already merged |
| XmlMerge.MergeAndStripAttributes | lib/Optimizer.js:263-286 | throws exactly when either level has an attribute named `hasOwnProperty`. Otherwise the two passes, root first, compute `MergedAttributes` |
| XmlMerge.MoveChildren | lib/Optimizer.js:297-313 | throws exactly when the nested `svg` has an entry named `hasOwnProperty`. Otherwise the loop over the nested `svg`'s keys computes `MovedChildren` |
| XmlMerge.RemoveDuplicateSvg | lib/Optimizer.js:168-227 | the decision and merge after parsing compute `Collapse`, including the inherited key names and the `hasOwnProperty` TypeError |
| XmlMerge.MergeSettles | lib/Optimizer.js:210-213 | a merged document has a nested `svg` only if the removed wrapper's child had one; otherwise merging it again passes it through |
| XmlMerge.MergeDropsRootDefs | lib/Optimizer.js:297-312 | the root's own `defs` is discarded; the new root's `defs` is the nested `svg`'s |
| XmlMerge.InheritedRootKeyDropped | lib/Optimizer.js:236-313 | a root entry named `toString` beside a single nested `svg` passes the key check and is merged away: the new root has no `toString` |
| Optimizer.Optimizer.constructor | lib/Optimizer.js:19-28 | the object holds the given document tree |
| Optimizer.Optimizer.Inline | lib/Optimizer.js:34-50 | `Inline` returns `Normalize` of the document it started with; on success the document becomes the inlined and re-origined tree, on a transform error it is unchanged |
| Optimizer.Normalize | lib/Optimizer.js:34-50 | `inline` throws exactly when some child of the root throws when inlined from (0, 0). Otherwise each child is inlined, and the outcome is the merge of the serialised tree after both walks |
| Optimizer.NormalizeFailsIff | lib/Optimizer.js:34-39 | for a root whose wrapper has `children()`, `inline` throws exactly when an element the walk reaches strictly below the root has a transform that is not a pure translation, or an attribute named `hasOwnProperty` |
| Optimizer.InlineDocumentAt | lib/Optimizer.js:36-39 | after the first walk every element it reaches below the root keeps its name and `children()` flag. It sits at its old position plus the translations on its path, with the identity transform and only its unstripped attributes. Below an element without `children()` nothing changes |
| Optimizer.ReoriginDocumentAt | lib/Optimizer.js:41-45 | after the second walk every element it reaches below the root keeps its name and transform. It is moved by the negated content-box origin unless it is an `svg` or `g`, and an `svg` gets the `viewBox` edit. Below an element without `children()` nothing changes |
| Optimizer.InlineResultAt | lib/Optimizer.js:34-45 | after `inline` every element the walks reach below the root has the identity transform and no stripped attribute. It sits at its old position plus the translations on its path, plus the negated content-box origin unless it is an `svg` or `g`. The content of such an element without `children()` is exactly as it was |
| SvgFile.RoundedPercent | lib/SvgFile.js:96 | the factor is the nearest integer to 100·new/original, halves rounded up |
| SvgFile.FormatSavings | lib/SvgFile.js:89-113 | unknown exactly for size 0; ±0% exactly for an equal size; "+Infinity%" when the original size is 0; a "-" figure is the rounded factor and below 100; a "+" figure is the factor minus 100 |
| SvgFile.FormatSavingsDirection | lib/SvgFile.js:99-110 | a "-" figure is printed only for a file that shrank, and a file that grew always prints a "+" figure |
| SvgFile.ShrunkFileReportedAsIncrease | lib/SvgFile.js:103-110 | as written, 999 bytes from 1000 prints "+0%" |
| SvgFile.DecreaseReportsRatio | lib/SvgFile.js:103-106 | as written, 70 bytes from 100 prints "-70%" |
| SvgFile.FormatSavingsCorrected | lib/SvgFile.js:89-113 | the sign follows the direction of the change, and the figure is the rounded change as a percentage of the original size |
| SvgFile.SvgFile.constructor | lib/SvgFile.js:14-39 | `originalFileSize` starts at 0 |
| SvgFile.SvgFile.Optimize | lib/SvgFile.js:60-67 | `originalFileSize` becomes the input's length before the Optimizer runs on the parsed input |
| SvgFile.SvgFile.FormatSavingsOf | lib/SvgFile.js:89-113 | `formatSavings` classifies the new size against the `originalFileSize` recorded by the last `optimize`, as `FormatSavings` does |

## Left out

- svg.js and svgdom internals are left out. This covers how `transform()` decomposes a matrix, what `dmove` does per element type, and how `rbox()` measures content. A transform is a record of its decomposition. `dmove` adds to a position. The content box is a function parameter.
- Parsing the markup, serialising the tree and parsing it with xml2js are foreign. They are parameters `parse` and `toXml`. The rejections xml2js itself makes (a parse error, a builder exception) are not modelled, and neither is the Promise around the merge.
- Coordinates are integers. `ParseNumber` reads an optional sign and the leading decimal digits, as `parseFloat` does for integers. Fractions, exponents, `Infinity` and leading whitespace are floating-point behaviour and are not modelled.
- TreePass.InlineOnElement: elements are values that the walk rebuilds, not svg.js wrapper objects mutated in place, so aliasing between wrappers is not modelled.
- TreePass.MoveToOrigin: it rebuilds the element in the same way and does not mutate it in place.
- SvgTree.RemoveAttributes: it returns the attribute map without the stripped names instead of deleting from the element.
- Optimizer.Optimizer.Inline: when a transform is refused, the source has already changed the elements visited before the throw. The model keeps the document as it was, because the document is abandoned once the error propagates.
- TreePass.ModifyViewBox: `element.attr(attrs)` writes every attribute back through svg.js's setter. The model treats writing back the other attributes as leaving them unchanged. Whatever normalisation that setter applies is not modelled.
- Optimizer.NormalizeFailsIff: the root is the svg.js document wrapper, a container whose `children()` `inline` calls without a guard. The lemma assumes the root has that flag.
- TreePass.Inlined: the transform error and the `hasOwnProperty` TypeError are both a throw out of `inline`. The model keeps that `inline` throws, not which of the two errors it is. With two children that would throw different errors, which one is thrown depends on their order.
- XmlMerge.Collapse: the `hasOwnProperty` TypeError is thrown inside the xml2js callback. The model treats it as a rejection of the merge; how it actually reaches the caller is not modelled.
- XmlMerge: a node's keys are a map, so the insertion order of its keys is not modelled. The order of nodes under one tag is kept.
- XmlMerge: an element whose only content is text is parsed by xml2js into a bare string. The model's nodes are always objects, so that case is not modelled.
- SvgFile.SvgFile.Optimize: `|svgData|` counts characters, while JavaScript's `length` counts UTF-16 code units.
- `runSvgo`, `minify`, the chalk colouring and prettyBytes formatting of the savings line are not modelled. They are the external minifier and presentation.
- `lib/Minifier.js` (globbing, file I/O, console output, usage), `index.js` (argument parsing) and `test.js` are not part of this model.
- The corrected members `ModifyViewBoxCorrected` and `FormatSavingsCorrected` stand beside the as-written ones. The Optimizer pipeline keeps the source's behaviour.

## Findings

| source | as written | input that shows it | evidently intended | confidence | as-written member | corrected member |
|---|---|---|---|---|---|---|
| lib/Optimizer.js:156 | the second `viewBox` field is shifted by `offsetX` | viewBox "0 0 10 10" moved by (-100, -50) becomes "-100 -100 10 10" | the minimum y shifted by `offsetY`: "-100 -50 10 10" | high, not executed | TreePass.ViewBoxYMovedByX | TreePass.ModifyViewBoxCorrectedFields |
| lib/SvgFile.js:103-106 | a smaller file prints "-factor%", where factor is the new size as a percentage of the original | original 100, new 70 prints "-70%" | "-30%", the share saved, as the "+" branch prints the share grown | medium, not executed | SvgFile.DecreaseReportsRatio | SvgFile.FormatSavingsCorrected |
| lib/SvgFile.js:99-110 | a smaller file whose factor rounds to 100 falls into the "+" branch | original 1000, new 999 prints "+0%" | a "-" figure for any file that shrank | medium, not executed | SvgFile.ShrunkFileReportedAsIncrease | SvgFile.FormatSavingsCorrected |
