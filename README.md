# A verified model of the beamline_grafana converters

Two Python scripts take a CS-Studio display to a Grafana panel. They pass the identity of each
live value through an SVG file as a side channel.

- `bobToSvg.py` reads a `.bob` display and keeps its `label` and `textupdate` widgets as canvas
  items. It sizes the canvas as the largest right and bottom edge plus a 20-unit margin. Then it
  writes one SVG `<text>` node per item that has text. The nodes are numbered `text-1`,
  `text-2`, ... in item order. Each live `textupdate` node carries its process-variable (PV) name
  in an `inkscape:label` attribute.
- `makeGrafanaPannel.py` scans every element of that SVG. Each id `text-<n>` yields a
  dictionary entry `n -> label.split(' ')`, and the dictionary is sorted by key. A missing label
  or a non-numeric suffix turns the whole dictionary into `{}`. The script then fills a panel
  template. Each entry contributes one value mapping, one archiver query and one
  `mapValue(...)` call, appended to the helper script. The panel is saved as
  `json/<stem>.json`.

The project has one module per concern:

- `wrappers.dfy`: `Option` and `Result`.
- `pytext.dfy`: the Python string built-ins the scripts use: `strip`, `split(' ')`, `str(int)`,
  `int(str)`, `float(str)` in decimal notation, and `str` of the floats that get printed.
- `xml_tree.dfy`: an ElementTree element and `iter()`.
- `json.dfy`: a JSON value whose objects keep Python's dict insertion order.
- `bob_to_svg.dfy`: the first stage.
- `grafana_panel.dfy`: the second stage.
- `pipeline.dfy`: the two stages composed. This is the round trip through the side channel.

Each loop of the scripts is a method with a `while` loop. Each is proved equal to a
specification function, and the properties are proved as lemmas about those functions.

- `BobToSvg.ParseBob` does the widget loop with running maxima.
- `BobToSvg.ItemsToSvg` does the item loop with the text counter.
- `GrafanaPanel.GetTextPVs` does the `root.iter()` loop that fills the dictionary.
- `GrafanaPanel.CollectEntries` and `GrafanaPanel.FillTemplate` do the lines of `main` that
  build the lists, extend the script and write into the template.

Some behaviour of the code that a reader may not expect:

- Labels are split at every single space. Two adjacent spaces give an empty token
  (`GrafanaPanel.SplitKeepsEmptyTokens`).
- A `textupdate` always shows the placeholder `22.2C`, so it is always drawn.
- Every drawn node with an id `text-<n>` must carry a label. A visible static label, or a
  `textupdate` without a PV, is drawn without one. The reader then returns `{}` for the whole
  document (`GrafanaPanel.UnlabelledTextEmpties`, `Pipeline.RoundTripUnlabelled`). So the round
  trip keeps the entries only when every drawn item is a labelled `textupdate`.
- An entry with fewer than three tokens stops `main` with an IndexError, and no panel is
  written. `split(' ')` always gives at least one token, so the entry's mapping and its query
  (which reads only the first token) have already been appended, and its tokens printed, when
  the `mapValue(...)` text raises.

## Model

| member | source | states |
|---|---|---|
| PyText.Strip | bobToSvg.py:14 | the result is the input with only whitespace (as `str.isspace`) removed at its two ends, and it neither starts nor ends with whitespace |
| PyText.StripUnpadded | bobToSvg.py:14 | text with no whitespace at its ends is unchanged by `strip()` |
| PyText.IndexOf | makeGrafanaPannel.py:20 | the position found holds the character and no earlier position does |
| PyText.Split | makeGrafanaPannel.py:20 | `split(' ')` gives at least one piece, no piece contains the separator, and joining the pieces with the separator gives back the input |
| PyText.SplitJoin | makeGrafanaPannel.py:20 | splitting undoes joining whenever no piece holds the separator: the two are inverses |
| PyText.SplitWithoutSeparator | makeGrafanaPannel.py:20 | text without the separator splits into itself alone |
| PyText.NatToString | bobToSvg.py:160 | `str(n)` is canonical decimal digits (no leading zero) that spell `n` |
| PyText.IntToString | bobToSvg.py:160 | `str(i)` ends in a digit and starts with `-` exactly when `i` is negative |
| PyText.ParseIntOfString | makeGrafanaPannel.py:20 | `int(str(i)) == i` for every integer |
| PyText.IntToStringInjective | bobToSvg.py:160-161 | distinct integers print as distinct texts |
| PyText.ParseInt | makeGrafanaPannel.py:20 | `int(s)`: sign and digits inside whitespace, else the error value; its meaning for the texts the scripts write is proved by `ParseIntOfString` |
| PyText.DigitsBelowPow10 | bobToSvg.py:22 | `n` decimal digits spell a number below 10^n |
| PyText.Truncate | bobToSvg.py:22 | `int()` of a parsed float, with no contract of its own; `TruncateTowardZero` proves it rounds toward zero |
| PyText.ParseFloat | bobToSvg.py:39 | `float(s)` for decimal notation, with no contract of its own; `ParseFloatOfParts`, `ParseFloatOfIntString`, `QuarterStringValue` and `FloatReprValue` prove what it reads back |
| PyText.TruncateTowardZero | bobToSvg.py:22 | `int()` of a parsed float rounds it toward zero |
| PyText.ParseFloatOfIntString | bobToSvg.py:22 | `int(float(str(i))) == i` |
| PyText.ParseFloatOfParts | bobToSvg.py:39 | `float()` reads `[-]digits.digits` back into exactly its sign and its two runs of digits |
| PyText.QuarterString | bobToSvg.py:158 | `str(y + 0.75 * h)` from the number of quarters, with no contract of its own; `QuarterStringValue` proves it reads back as that value |
| PyText.QuarterStringValue | bobToSvg.py:158 | the printed baseline, read back with `float()`, is exactly a quarter of the number of quarters it was printed from |
| PyText.TrimZerosValue | bobToSvg.py:171 | trailing zeros of a fraction scale its digits by a power of ten |
| PyText.FloatRepr | bobToSvg.py:171 | `str()` of a parsed float, with no contract of its own; `FloatReprValue` proves it reads back as the same number |
| PyText.FloatReprValue | bobToSvg.py:171 | the printed text of a parsed float reads back with `float()` as the same number |
| XmlTree.Iter | makeGrafanaPannel.py:17 | `iter()` starts with the element itself |
| XmlTree.IterVisitsDescendant | makeGrafanaPannel.py:17 | every element of any child's subtree, at any depth, is visited: the scan is not top-level only |
| XmlTree.IterAllLeaves | makeGrafanaPannel.py:17 | childless siblings are visited exactly in the order they are listed |
| Json.Get | makeGrafanaPannel.py:92 | a lookup finds nothing exactly when the key is absent, and what it finds is a field of the object |
| Json.GetPastHead | makeGrafanaPannel.py:71-87 | fields with other names in front of a field do not change what a lookup reads |
| Json.Put | makeGrafanaPannel.py:93-97 | assigning an existing key keeps the key order; a new key goes last |
| Json.PutGet | makeGrafanaPannel.py:94-97 | after `d[k] = v`, `d[k]` is `v` and every other key reads as before |
| Json.PutUnique | makeGrafanaPannel.py:93-97 | assignment keeps every key unique |
| Json.PutExisting | makeGrafanaPannel.py:93 | assigning an existing key changes that field's value in place and nothing else |
| BobToSvg.ChildText | bobToSvg.py:10-14 | the default when the child or its text is missing; otherwise the text without surrounding whitespace and nothing else removed |
| BobToSvg.ChildInt | bobToSvg.py:17-24 | the default when the child or its text is missing or is not a number; otherwise the parsed value rounded toward zero |
| BobToSvg.ChildIntOfInt | bobToSvg.py:17-24 | integer text reads back as its own value, whatever the default |
| BobToSvg.FontProps | bobToSvg.py:27-45 | ("Sans", 12) unless both `font` levels exist; then the inner family or "Sans", and the parsed size, or 12 when the size is missing or unparsable |
| BobToSvg.Component | bobToSvg.py:57-59 | a missing colour attribute is the default 0; a present one is `int()` of its text |
| BobToSvg.ForegroundColor | bobToSvg.py:48-63 | black unless both elements exist; black as a whole when any present component fails `int()`; otherwise the three components |
| BobToSvg.ForegroundColorOfInts | bobToSvg.py:56-60 | components written as integers read back as that colour |
| BobToSvg.StripCaPrefix | bobToSvg.py:92 | a PV starting with `ca://` loses exactly that prefix; any other PV is unchanged |
| BobToSvg.StripCaPrefixOfPrefixed | bobToSvg.py:92 | `ca://` + pv becomes pv |
| BobToSvg.KindOf | bobToSvg.py:75-77 | a widget is a label exactly when its type is `label`, a text update exactly when it is `textupdate` |
| BobToSvg.ToItem | bobToSvg.py:79-116 | a record exists exactly for the two kinds; its geometry uses the defaults 0, 0, 80 and 20; a label keeps its text and has no PV; a text update shows `22.2C` and has the PV without `ca://` |
| BobToSvg.ExtractItems | bobToSvg.py:74-116 | reference definition of the items of a widget list, with no contract of its own; `ExtractAppend`, `UnrecognisedIgnored`, `ItemsComeFromWidgets` and `ParseBob` state its meaning |
| BobToSvg.ExtractAppend | bobToSvg.py:74-116 | extraction works widget by widget: the items of a concatenation are the concatenated items |
| BobToSvg.UnrecognisedIgnored | bobToSvg.py:74-77 | a widget of any other kind contributes nothing, so it leaves the items and the extent unchanged |
| BobToSvg.ItemsComeFromWidgets | bobToSvg.py:74-116 | each item is the record of some widget in the list |
| BobToSvg.RunningMax | bobToSvg.py:71-72 | reference definition of `max_x = max(max_x, ...)` from 0, with no contract of its own; `RunningMaxIsMax` and `RunningMaxMonotone` state its meaning |
| BobToSvg.RunningMaxIsMax | bobToSvg.py:71-72 | the running maximum started at 0 is at least 0, at least every value, and is 0 or one of the values |
| BobToSvg.RunningMaxMonotone | bobToSvg.py:99-100 | folding in more values never lowers the running maximum |
| BobToSvg.EdgesAppend | bobToSvg.py:99-100 | one more item moves each extent to the larger of the old extent and its edge |
| BobToSvg.RightExtent | bobToSvg.py:99 | the right extent is at least 0, reaches every right edge, and is 0 or one of them |
| BobToSvg.BottomExtent | bobToSvg.py:100 | the bottom extent likewise for bottom edges |
| BobToSvg.ParseBob | bobToSvg.py:66-120 | the items are those of the recognised widgets, in order; the width is 20 plus the largest right edge (at least 0), reaching every right edge and equal to some edge plus 20 or to 20 alone; the height likewise |
| BobToSvg.Emitted | bobToSvg.py:144-147 | reference definition of the items that are drawn, with no contract of its own; `EmittedHaveText` and `EmittedAppend` state its meaning |
| BobToSvg.EmittedHaveText | bobToSvg.py:144-147 | every drawn item has text and is one of the items |
| BobToSvg.EmittedAppend | bobToSvg.py:144-147 | the drawn items of a concatenation are the concatenated drawn items |
| BobToSvg.Fill | bobToSvg.py:172 | the `rgb(r,g,b)` text, with no contract of its own |
| BobToSvg.FontSizeText | bobToSvg.py:171 | `str(font_size)`, with no contract of its own; `FontSizeTextValue` proves it reads back as the size |
| BobToSvg.FontSizeTextValue | bobToSvg.py:171 | the printed font size reads back with `float()`: the default as 12, a parsed size as the same number |
| BobToSvg.Stamp | bobToSvg.py:176-178 | the label stamping, with no contract of its own; `StampKeeps` and `StampLabel` state its meaning |
| BobToSvg.StampKeeps | bobToSvg.py:176-178 | stamping the label leaves every presentation attribute as it was |
| BobToSvg.StampLabel | bobToSvg.py:176-178 | the label is added exactly for a text update with a non-empty PV, and its value is that PV |
| BobToSvg.LabelNotPresentation | bobToSvg.py:163-178 | the label key is none of the six presentation keys |
| BobToSvg.TextAttrsLabel | bobToSvg.py:163-178 | a node's attributes are the six presentation keys, plus the label exactly when its item is a text update with a PV, and then the label is the PV |
| BobToSvg.TextAttrsPresentation | bobToSvg.py:158-172 | a node's id is `text-<n>`, its `x` is `str(x)`, its `y` the baseline text, its `font-family` the item's family, its `font-size` `str(font_size)` and its `fill` `rgb(r,g,b)` |
| BobToSvg.TextNode | bobToSvg.py:158-180 | the node's id is `text-<n>`, its content the item's text; its `x` is `str(x)`, its baseline `str(y + 0.75 * h)`, its `font-family` the item's family, its `font-size` `str(font_size)` and its `fill` `rgb(r,g,b)`; it has `inkscape:label` exactly when the item is a text update with a PV, that label is the PV, and the node has no other attribute |
| BobToSvg.TextNodeBaseline | bobToSvg.py:158 | the `y` attribute reads back with `float()` as `y + 0.75 * height` |
| BobToSvg.Numbered | bobToSvg.py:142-161 | reference definition of the counter value each drawn item takes, with no contract of its own; `NumberedAt` states its meaning |
| BobToSvg.NumberedAt | bobToSvg.py:142-161 | the k-th numbered item is the k-th drawn item with number n + k: skipped items do not advance the counter |
| BobToSvg.TextNodesNumbered | bobToSvg.py:142-180 | node k (from 0) draws the k-th item with text and has number k + 1 |
| BobToSvg.RootAttrs | bobToSvg.py:132-140 | the root's namespace, size and view box, with no contract of its own |
| BobToSvg.SvgDocument | bobToSvg.py:123-182 | reference definition of the whole document, with no contract of its own; `ItemsToSvg` is proved equal to it and `TextNodesNumbered` states what its children are |
| BobToSvg.ItemsToSvg | bobToSvg.py:123-182 | the document has one child per item with text, in item order; child k is the node for the k-th such item numbered k + 1 |
| BobToSvg.NodeOfItem | bobToSvg.py:142-161 | an item with text becomes node number 1 + (number of items before it that have text) |
| BobToSvg.IdsDistinct | bobToSvg.py:160-161 | no two nodes share an id |
| BobToSvg.PumpLabelItem | bobToSvg.py:79-116 | a label "Pump A" at (10, 20), 80 by 20, without font or colour, becomes that item with "Sans", 12 and black |
| BobToSvg.PumpLabelNode | bobToSvg.py:158-178 | its node is `text-1` with baseline "35.0", fill "rgb(0,0,0)" and no label |
| GrafanaPanel.Find | makeGrafanaPannel.py:20 | `d.get(k)` on the dictionary, with no contract of its own |
| GrafanaPanel.Insert | makeGrafanaPannel.py:20-21 | `PVs[k] = v` on a sorted dictionary, with no contract of its own; `InsertFind` and `InsertAscending` state its meaning |
| GrafanaPanel.InsertFind | makeGrafanaPannel.py:20 | `PVs[k] = v` reads back as `v` and leaves every other key as it was |
| GrafanaPanel.InsertAscending | makeGrafanaPannel.py:21 | the dictionary stays sorted by key after every assignment |
| GrafanaPanel.FindBelowFirst | makeGrafanaPannel.py:21 | no key below the first of a sorted dictionary is present |
| GrafanaPanel.FindPresent | makeGrafanaPannel.py:21 | a present key is at or above the first key of a sorted dictionary |
| GrafanaPanel.AscendingUnique | makeGrafanaPannel.py:21 | two sorted dictionaries with the same lookups are the same: sorting leaves one possible result |
| GrafanaPanel.StepOf | makeGrafanaPannel.py:18-20 | what the loop does with one element (skip, assign, or raise), with no contract of its own; `BindingSource`, `MappingNamesElement` and `Pipeline.StepOfStamped` state its meaning |
| GrafanaPanel.Steps | makeGrafanaPannel.py:17-20 | the step of each visited element; its contract gives only the length, and `StepsAppend` and `TextPVsMeaning` state the rest |
| GrafanaPanel.StepsAppend | makeGrafanaPannel.py:17 | the steps of two stretches of the scan are concatenated |
| GrafanaPanel.Fold | makeGrafanaPannel.py:16-20 | reference definition of the loop, with no contract of its own; `FoldFails` and `FoldFind` state its meaning |
| GrafanaPanel.TextPVs | makeGrafanaPannel.py:11-24 | reference definition of `get_text_PVs`, with no contract of its own; `TextPVsMeaning` states its meaning |
| GrafanaPanel.LastBindingIsLast | makeGrafanaPannel.py:17-20 | the reference value of a key is from a step that binds it with no later step binding it, and is absent exactly when no step binds it |
| GrafanaPanel.FoldFails | makeGrafanaPannel.py:11-24 | the loop raises exactly when some element raises |
| GrafanaPanel.FoldFind | makeGrafanaPannel.py:16-21 | a loop that finishes leaves a sorted dictionary holding each key's last binding, and the previous value for keys never bound |
| GrafanaPanel.TextPVsMeaning | makeGrafanaPannel.py:11-24 | `{}` when any element raises; otherwise keys strictly ascending, each holding the tokens of the last element in document order whose id names it |
| GrafanaPanel.BindingSource | makeGrafanaPannel.py:18-20 | each entry comes from an element whose id is `text-` plus its key and whose label splits into its tokens |
| GrafanaPanel.DescendantFails | makeGrafanaPannel.py:11-24 | an element at any depth with a bad id suffix or no label empties the result |
| GrafanaPanel.FoldNext | makeGrafanaPannel.py:17-20 | what one turn of the loop does to the rest of the fold |
| GrafanaPanel.FoldAt | makeGrafanaPannel.py:17-20 | one turn of the loop case by case: a skip leaves the dictionary, a failure ends the read, an assignment inserts the entry |
| GrafanaPanel.GetTextPVs | makeGrafanaPannel.py:11-24 | the loop returns exactly the reference dictionary, `{}` on any failure |
| GrafanaPanel.MappingRecord | makeGrafanaPannel.py:66-69 | the mapping record, with no contract of its own; `MappingNamesElement` states its meaning |
| GrafanaPanel.TargetRecord | makeGrafanaPannel.py:71-87 | the query record, with no contract of its own; `TargetRefId`, `TargetQueriesPv` and `RefIdsDistinct` state its meaning |
| GrafanaPanel.MapValueCall | makeGrafanaPannel.py:89 | the generated call text, with no contract of its own |
| GrafanaPanel.FirstShort | makeGrafanaPannel.py:89 | the position of the first entry that has fewer than three tokens, every earlier one having three |
| GrafanaPanel.Mappings | makeGrafanaPannel.py:66-69 | reference definition of the mapping list, with no contract of its own; `MappingsAt` states its meaning |
| GrafanaPanel.Targets | makeGrafanaPannel.py:71-87 | reference definition of the query list, with no contract of its own; `TargetsAt` states its meaning |
| GrafanaPanel.Calls | makeGrafanaPannel.py:89-90 | reference definition of the appended calls, with no contract of its own; `CallsInOrder` states its meaning |
| GrafanaPanel.Options | makeGrafanaPannel.py:92-93 | the existing `options` object, or a fresh one, with no contract of its own; `PanelGet` states its meaning |
| GrafanaPanel.Panel | makeGrafanaPannel.py:92-97 | reference definition of the filled template, with no contract of its own; `PanelGet` and `PanelUnique` state its meaning |
| GrafanaPanel.AssembleSpec | makeGrafanaPannel.py:61-97 | reference definition of the panel or the error, with no contract of its own; `AssembleOutcome` and `PanelGet` state its meaning |
| GrafanaPanel.CompleteSnoc | makeGrafanaPannel.py:65-90 | appending an entry with three tokens keeps every entry complete |
| GrafanaPanel.MappingsSnoc | makeGrafanaPannel.py:66-69 | one more entry adds its mapping at the end |
| GrafanaPanel.TargetsSnoc | makeGrafanaPannel.py:71-87 | one more entry adds its query at the end |
| GrafanaPanel.CallsSnoc | makeGrafanaPannel.py:89-90 | one more entry appends its call to the script |
| GrafanaPanel.CollectStep | makeGrafanaPannel.py:65-90 | one complete entry extends the mappings, the queries and the script by its own record each |
| GrafanaPanel.CollectEntries | makeGrafanaPannel.py:61-90 | an IndexError naming the first entry with fewer than three tokens, or else all mappings, all queries, and the helper text plus two newlines plus the calls in order |
| GrafanaPanel.FillTemplate | makeGrafanaPannel.py:92-97 | the template with `options` (fresh when absent or not an object) given the three values, then `targets` replaced |
| GrafanaPanel.Assemble | makeGrafanaPannel.py:61-97 | the lines of `main` from line 61 on give exactly the reference panel or the reference error |
| GrafanaPanel.PanelGet | makeGrafanaPannel.py:92-97 | the panel holds the SVG text, the script and the mappings under `options` and the queries under `targets`; every other top-level key, and every other key of an existing `options` object, is as in the template |
| GrafanaPanel.PanelUnique | makeGrafanaPannel.py:92-97 | a template without repeated keys gives a panel without repeated keys |
| GrafanaPanel.AssembleOutcome | makeGrafanaPannel.py:65-97 | an IndexError exactly when some entry has fewer than three tokens, naming the first such entry; otherwise a failure exactly when the template is not an object |
| GrafanaPanel.MappingsAt | makeGrafanaPannel.py:66-69 | one mapping per entry, in key order, mapping `str(idx)` to `text-<idx>` |
| GrafanaPanel.CompleteInit | makeGrafanaPannel.py:65-90 | dropping the last entry keeps every entry complete |
| GrafanaPanel.TargetsAt | makeGrafanaPannel.py:71-87 | one query per entry, in key order, for the entry's first token |
| GrafanaPanel.CallsInOrder | makeGrafanaPannel.py:89-90 | each entry's call follows the calls of the entries before it in the script |
| GrafanaPanel.MappingNamesElement | makeGrafanaPannel.py:66-69 | the element a mapping names is read back under the mapping's entry number, and the mapped name parses to that number |
| GrafanaPanel.QueryFixedKeys | makeGrafanaPannel.py:72-85 | none of the fixed query fields is named `refId` or `target` |
| GrafanaPanel.TargetRefId | makeGrafanaPannel.py:81 | a query's `refId` is `E<idx>` |
| GrafanaPanel.TargetQueriesPv | makeGrafanaPannel.py:86 | a query's `target` is the PV it was given |
| GrafanaPanel.RefIdsDistinct | makeGrafanaPannel.py:81 | distinct entries get distinct query ids |
| GrafanaPanel.LastIndexOf | makeGrafanaPannel.py:101 | the last occurrence of a character: it is there and none follows; none exactly when absent |
| GrafanaPanel.LastIndexOfAppend | makeGrafanaPannel.py:101 | text without the character appended after it does not move the last occurrence |
| GrafanaPanel.BaseName | makeGrafanaPannel.py:101 | the file name is a suffix of the path without `/`, the whole path when it has none |
| GrafanaPanel.Stem | makeGrafanaPannel.py:101 | the part before the last dot when that dot is neither the first nor the last character; otherwise the name itself |
| GrafanaPanel.LastDotUnique | makeGrafanaPannel.py:101 | there is only one last occurrence of a character |
| GrafanaPanel.OutputPath | makeGrafanaPannel.py:100-101 | `json/<stem>.json`, with no contract of its own; `OutputPathOfSvg` states its meaning |
| GrafanaPanel.BaseNameInDir | makeGrafanaPannel.py:101 | the name of a file in a directory is the file's own name |
| GrafanaPanel.StemOfSvg | makeGrafanaPannel.py:101 | the stem of `x.svg` is `x`, whatever dots `x` holds |
| GrafanaPanel.OutputPathOfSvg | makeGrafanaPannel.py:100-101 | `x.svg` in any directory is saved as `json/x.json` |
| GrafanaPanel.UnlabelledTextEmpties | makeGrafanaPannel.py:18-24 | a document with one `text-7` element without a label reads as `{}` |
| GrafanaPanel.SplitKeepsEmptyTokens | makeGrafanaPannel.py:20 | `"PV:A  mA"` splits into `["PV:A", "", "mA"]` |
| Pipeline.NamesAgree | makeGrafanaPannel.py:7 | both scripts use the id prefix `text-` and the same qualified label attribute |
| Pipeline.StepOfStamped | makeGrafanaPannel.py:18-20 | a node with the id and label the first stage writes reads back as that binding |
| Pipeline.StepOfTextNode | bobToSvg.py:160-178 | the node for an item numbered n reads back as `n -> pv.split(' ')` for a labelled item, and raises otherwise |
| Pipeline.RootSkipped | bobToSvg.py:132-140 | the root has no id and is skipped |
| Pipeline.DocumentNodes | bobToSvg.py:163-174 | the document's iteration is the root followed by its text nodes |
| Pipeline.TextNodeSteps | bobToSvg.py:142-180 | each text node reads back as the step expected of its item and number |
| Pipeline.DocumentSteps | makeGrafanaPannel.py:17-20 | the scan sees the root, then one node per drawn item in order, numbered by position |
| Pipeline.OnlyBinding | makeGrafanaPannel.py:20 | with a key bound at one position only, that binding is its value |
| Pipeline.FindNumbered | makeGrafanaPannel.py:21 | in a dictionary numbered from `first`, key n is entry n - first or absent |
| Pipeline.FoldUnlabelled | makeGrafanaPannel.py:22-24 | the expected steps fail as soon as one drawn item has no label |
| Pipeline.FoldLabelledKey | makeGrafanaPannel.py:17-21 | each key reads the same in the rebuilt dictionary as in the expected one |
| Pipeline.FoldLabelled | makeGrafanaPannel.py:17-21 | on labelled items the reader's loop rebuilds exactly the expected dictionary |
| Pipeline.RoundTripUnlabelled | makeGrafanaPannel.py:11-24 | when some drawn item has no label, reading the first stage's SVG gives `{}` |
| Pipeline.RoundTripLabelled | makeGrafanaPannel.py:11-21 | when every drawn item is a text update with a PV, reading the first stage's SVG gives one entry per drawn item, keyed 1, 2, ... in drawing order, holding its PV's tokens |
| Pipeline.FirstTokenIsPv | makeGrafanaPannel.py:86 | a PV without spaces comes back as the first token, which the query asks for |
| Pipeline.MappingNamesNode | makeGrafanaPannel.py:68 | the mapping for entry n names the text node the first stage numbered n |
| Pipeline.PanelOfEntries | makeGrafanaPannel.py:65-97 | with three tokens per PV the panel is written, with one mapping and one query per drawn item in drawing order |
| Pipeline.PanelOfDocument | makeGrafanaPannel.py:61-97 | end to end: a display whose drawn items are all text updates with three-token PVs gives a panel whose k-th mapping is for `text-<k+1>` and whose k-th query asks for the first token of the k-th PV |
| Pipeline.ShortPvStops | makeGrafanaPannel.py:89 | a drawn PV with fewer than three tokens stops the second stage with an IndexError |

## Left out

- XML reading and writing (`ET.parse`, `find`, `findall`, `tree.write`, namespace registration) are not modelled. A widget is a record of the texts of its first child elements, and an element's attributes are a map, so attribute order is not modelled.
- JSON `load` and `dump`, all file reads and writes, `argparse`, the `sys.argv` checks, `sys.exit` and every `print` (the printed dictionary, the template path, each token list and the error messages) are I/O. The template, the SVG text and the helper text are parameters of `GrafanaPanel.Assemble`.
- A document `ET.parse` cannot read, or an SVG file that is missing, also makes `get_text_PVs` return `{}`. The model starts from the parsed tree.
- A missing or unreadable template, and an output file that cannot be written, are fatal errors of the I/O around `main`. The only template error modelled is a template whose top level is not an object, `GrafanaPanel.TemplateNotObject`.
- `js/helpers.js` is not part of this model. It runs inside Grafana, and only its text is passed through.
- The datasource fields of each query are taken as the constants the script writes, without further meaning.
- `PyText.ParseInt`: does not accept underscores between digits or non-ASCII digits, both of which Python's `int()` allows. It also accepts any number of digits, where CPython 3.11 and later raise ValueError beyond 4300 digits. Such an id makes `get_text_PVs` return `{}`, and such a colour component makes the colour black; the model reads the number instead.
- `PyText.ParseFloat`: covers decimal notation only. Exponents, `inf`, `nan`, underscores and non-ASCII digits give the error value here, but Python reads them. A parsed float is exact, with no rounding to binary double precision.
- `BobToSvg.ChildInt`: returns the default for `inf`, `1e400` and other texts `float()` reads as infinite, or that `ParseFloat` rejects. In Python, `int()` of an infinite float raises OverflowError, which `get_child_int` does not catch, so `parse_bob` aborts. A run of more than 309 digits is also read by Python as infinite and aborts the same way, where the model returns its exact value.
- `PyText.FloatRepr`: prints the positional form. Python switches to exponent form at or above 1e16 and below 1e-4, and prints the shortest text that rounds to the double. So `str(font_size)` is modelled exactly only for short decimals of moderate size.
- `PyText.QuarterString`: prints `y + 0.75 * h` exactly. The Python float is exact only while the number of quarters stays below 2^53 and prints in exponent form from 1e16.
- `GrafanaPanel.BaseName`: splits at `/` only. It ignores `pathlib`'s normalisation of trailing slashes and `.` components, and Windows separators.
- `GrafanaPanel.Insert`: keeps the dictionary sorted at every assignment, where the script sorts once at the end. `GrafanaPanel.AscendingUnique` shows that both give the same dictionary.
- Exceptions inside `get_text_PVs` other than a bad id suffix or a missing label, such as running out of memory, are not modelled.
