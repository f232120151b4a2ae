# Dependency Graph for Salesforce, modelled in Dafny

This project models the core of a VS Code extension that draws a Mermaid dependency graph of a Salesforce DX project:

- **Catalog.** Classes, triggers, Aura components, Lightning Web Components (LWC), Visualforce pages and components, and flows are listed from the project's `force-app/main/default` folder.
- **References.** Each item's text is searched for the names of the other items. Apex references are labelled (`instantiation`, `reference`, method names, `controller`, `imported`). The result is a cross-reference map in insertion order.
- **Ranking.** The map's values are sorted by how connected each item is.
- **Filter and cap.** When an item is selected, only the items within two reference steps of it are kept. At most 700 edges are drawn.
- **Page.** The graph definition, the colouring style sheet and the page header are built as text.
- **Explorer entry point.** The right-click handler turns a file path into a graph type and a focus name.

The modules follow the program's structure:

| module | file | models |
|---|---|---|
| `Maybe`, `Seqs`, `Strings` | strings.dfy | JavaScript string operations used by the source (`indexOf`, `includes`, `replace` with a string pattern, `split`/`pop`, `join`, `toLowerCase` on ASCII) |
| `Patterns` | patterns.dfy | the global regular expressions of `findReference`: `match` as `Scan`, `replace` as `GlobalReplace` |
| `ItemTypes` | item_types.dfy | the six item types, unique and display names, search patterns, `getSourceCodeFolder`, the flag parsing of `createGraph` |
| `Catalog` | catalog.dfy | `getItemList` of the three item-type classes, `getItemTextFromFile`; the file system is a `Project` value |
| `Detector` | detector.dfy | `findReference` of `ItemType` and `JSItemType`, and `getReferenceSet` |
| `CrossReference` | cross_reference.dfy | the build loop of `createGraph` that fills the cross-reference map |
| `Ranking` | ranking.dfy | the comparator and the stable sort of the map's values |
| `Assembly` | assembly.dfy | the drawing loop: the focus filter, the colouring lists, the edge cap, the Mermaid lines |
| `GraphPage` | graph_page.dfy | `getStyleSheet` and the text `displayGraph` builds |
| `Extension` | extension.dfy | `graphItemHandler` as written, and as evidently intended |
| `Graph` | graph.dfy | `createGraph` from end to end |

Design decisions:

- **Items are indices.** An item is its index in the catalog, with kinds in registration order. The cross-reference map is an insertion-ordered key list plus a `map<string, nat>`, because `Map.prototype.set` on an existing key keeps the key's first position.
- **Sets are sequences.** `referencesSet` and `methodReferencesSet` are JavaScript `Set`s iterated in insertion order. They are modelled as duplicate-free sequences.
- **Regular expressions.** The patterns are hand-written matchers. Item names are treated literally. That is exact for Apex identifiers, which hold no regular-expression metacharacters.
- **Loop order.** The drawing loop is modelled as "filter the ranked items, then place the survivors in order". The filter reads only the finished map, so testing and placing each item in turn (`Assembly.Loop`) draws the same as placing the survivors in order (`Assembly.LoopIsWalk`).

## Model

| member | source | states |
|---|---|---|
| Strings.ReplaceFirst | src/dependencyGraph.js:130-133 | a string-pattern `replace` leaves a text without the pattern unchanged, and otherwise changes its length by the length difference of pattern and replacement |
| Strings.ReplaceFirstAt | src/dependencyGraph.js:130-133 | only the first occurrence is replaced: the text before it and after it is kept |
| Strings.FirstPiece | extension.js:110 | `split(c)[0]` is the longest prefix without `c`; it is the whole string when `c` is absent |
| Strings.LastPiece | extension.js:89-90 | what `pop()` returns after `split(c)` holds no `c`, ends the string, and is the last split piece |
| Strings.JoinSplit | extension.js:89-90 | joining the pieces of a split with the separator gives the string back |
| Patterns.ScanLiteralHits | src/dependencyGraph.js:107-109 | every match of the instantiation pattern `new X\(` is the text `new X(` |
| Patterns.ScanMemberHits | src/dependencyGraph.js:111-112 | every match of `X\.[^ <>]*?\(?` is `X.` or `X.(`, because the lazy run is left empty |
| Patterns.ScanUnique | src/dependencyGraph.js:108-117 | a pattern matching at exactly one position yields exactly that one match |
| Patterns.ScanLiteralAbsent | src/dependencyGraph.js:119-121 | a text without the literal yields no hits, as `match` returning `null` becomes `[]` |
| Patterns.ScanMemberAbsent | src/dependencyGraph.js:119-121 | a text without `X.` yields no member-access hits |
| Patterns.ScanFlowAbsent | src/dependencyGraph.js:114-121 | a text without `Flow` yields no flow-interview hits |
| Patterns.GlobalReplaceIdentity | src/dependencyGraph.js:134 | a global replace whose pattern matches nowhere leaves the text as it is |
| Patterns.QuoteSemicolonDropped | src/dependencyGraph.js:206 | `/';/g` removes a closing `';` from a text that holds no other `';` |
| Patterns.PrefixReplaced | src/dependencyGraph.js:207 | the lazy import prefix is replaced up to the first dot after `@salesforce/apex/`, and the rest is kept |
| Patterns.DotTailToEnd | src/dependencyGraph.js:130 | `/\..*/` removes a dot together with the rest of its line |
| ItemTypes.Rank | src/dependencyGraph.js:256-262 | each kind sits at its position in the registration order of `itemTypeMap` |
| ItemTypes.TagInjective | src/dependencyGraph.js:254-255 | the six type tags are pairwise distinct |
| ItemTypes.UniqueName | src/dependencyGraph.js:49-51 | the type tag is what follows the last hyphen of a unique name |
| ItemTypes.UniqueNameInjective | src/dependencyGraph.js:269-270 | two items share a unique name only when they share name and kind, so same-named items of two kinds never collide |
| ItemTypes.DisplayName | src/dependencyGraph.js:277-278 | the type tag is what follows the last space of a display name |
| ItemTypes.DisplayNameInjective | src/dependencyGraph.js:277-278 | two display names are equal only for equal name and kind |
| ItemTypes.Kebab | src/dependencyGraph.js:163-166 | the kebab-case form has no upper-case letter and is no shorter than the name |
| ItemTypes.KebabAppend | src/dependencyGraph.js:165 | the conversion works character by character, so it distributes over concatenation |
| ItemTypes.KebabRoundTrip | src/dependencyGraph.js:163-166 | for a name without hyphens, the conversion back to camel case recovers the name, so no information is lost |
| ItemTypes.SearchPattern | src/dependencyGraph.js:160-171 | an LWC is searched as `c-` plus its kebab-case name, an Aura component as `c:name `, and every other kind by its bare name |
| ItemTypes.AuraPatternExample | src/dependencyGraph.js:167-169 | the Aura pattern of `MyWidget` is `c:MyWidget ` with its trailing space |
| ItemTypes.SourceCodeFolder | src/dependencyGraph.js:28-48 | `null` exactly when the folder already names `force-app`, `main` and `default`; otherwise an extension of the folder naming all three |
| ItemTypes.SourceCodeFolderOrder | src/dependencyGraph.js:33-47 | the three tests run in priority order: the first segment the folder lacks, and every segment after it, are appended in order |
| ItemTypes.AllSegmentsAppended | src/dependencyGraph.js:35-37 | appending the three segments always yields a path that names all three |
| ItemTypes.MainDefaultAppended | src/dependencyGraph.js:39-41 | a path that names `force-app` names all three once `main` and `default` are appended |
| ItemTypes.DefaultAppended | src/dependencyGraph.js:43-45 | a path that names `force-app` and `main` names all three once `default` is appended |
| ItemTypes.HandlerFlagRoundTrip | extension.js:33-80 | each per-kind menu command's flag makes `createGraph` draw that kind |
| ItemTypes.SingleFlag | src/dependencyGraph.js:380-381 | a single argument carries a flag exactly when it lowers to that flag |
| ItemTypes.FlagIsLower | src/dependencyGraph.js:380 | the menu flags are already lower case, so lowering keeps them |
| Catalog.Stem | src/dependencyGraph.js:98 | the item name plus the extension is the file name |
| Catalog.StemOfAppend | src/dependencyGraph.js:97-101 | stripping an extension undoes appending it |
| Catalog.FileItems | src/dependencyGraph.js:92-104 | each item comes from a valid file of the folder, with its name, kind and path; every valid file yields its item |
| Catalog.FlowFileKept | src/dependencyGraph.js:247-252 | a flow file is kept even when its name contains "test", unless it is hidden |
| Catalog.BundleEntries | src/dependencyGraph.js:178-188 | one entry per subfolder, `null` exactly for `.json` and hidden entries; each other entry is the item at `<dir>/<sub>/<sub><ext>` |
| Catalog.PageItem | src/dependencyGraph.js:233-242 | a `.component` file is named without that suffix and read from `components`; a page is named without `.page` and read from `pages` |
| Catalog.PageItems | src/dependencyGraph.js:213-246 | the Visualforce items are exactly the page items of the valid page and component files |
| Catalog.Present | src/dependencyGraph.js:406-409 | the builder visits exactly the non-null entries |
| Catalog.PresentWrap | src/dependencyGraph.js:406-409 | a list without nulls is visited whole, in order |
| Catalog.Items | src/dependencyGraph.js:398-403 | the catalog holds exactly the items of each kind's list |
| Catalog.FileItemOrigin | src/dependencyGraph.js:92-104 | a class, trigger or flow in the catalog comes from a valid file of its kind's folder, at that file's path |
| Catalog.FileItemComplete | src/dependencyGraph.js:92-104 | every valid file of a class, trigger or flow folder is in the catalog |
| Catalog.BundleItemOrigin | src/dependencyGraph.js:172-189 | a component is named after a non-skipped subfolder, and its main file sits inside it under the same name |
| Catalog.ItemText | src/dependencyGraph.js:283-305 | a single-file item's text is its file; a component's text starts with its main file followed by the part separator, and is at least three separators long |
| Catalog.ComponentTextParts | src/dependencyGraph.js:288-301 | each companion script of a component is in its text right after a separator, and the `Helper.js` script ends it |
| Catalog.ComponentTextNonEmpty | src/dependencyGraph.js:411-414 | a component's text is never empty, so the builder never skips a component |
| Catalog.CompanionPathOfBundle | src/dependencyGraph.js:290-298 | without dots in the folder names, each companion script sits next to the main file and is named after the component |
| Detector.CleanDefault | src/dependencyGraph.js:124-135 | a bare `X.` becomes `reference`; every other label holds only letters, digits, white space and colons |
| Detector.SafeReplaceSafe | src/dependencyGraph.js:134 | after the last clean-up step no character outside `[a-zA-Z\d\s:]` is left |
| Detector.DefaultReferences | src/dependencyGraph.js:105-138 | one label per raw hit, in hit order: the `i`-th label is the `i`-th hit cleaned |
| Detector.ComponentReferences | src/dependencyGraph.js:190-211 | one label per `controller=` or Apex-import hit, in hit order: the `i`-th label is the `i`-th hit cleaned |
| Detector.FindReference | src/dependencyGraph.js:313 | Aura and LWC items get the component detector's labels, hit by hit; the other kinds get the default detector's |
| Detector.ReferenceLabel | src/dependencyGraph.js:312-321 | `Set.add(...xs)` keeps only the first label, so the set is empty exactly when nothing was found, and otherwise holds the first label |
| Detector.MemberWithoutCallIsReference | src/dependencyGraph.js:125-128 | a use of a constant, `X.`, is labelled `reference` |
| Detector.MemberCallIsEmpty | src/dependencyGraph.js:130 | `X.(` loses its name, dot and parenthesis, so its label is empty |
| Detector.CutInstantiation | src/dependencyGraph.js:130 | the first three steps leave `new X` of `new X(` |
| Detector.RenameInstantiation | src/dependencyGraph.js:131-132 | `new X` is renamed `instantiation` |
| Detector.InstantiationLabel | src/dependencyGraph.js:124-135 | `new X(` is labelled `instantiation` |
| Detector.CutFlow | src/dependencyGraph.js:130 | the dot-tail step cuts `Flow.Interview.X` down to `Flow` |
| Detector.FlowLabel | src/dependencyGraph.js:114-135 | a flow interview is labelled `Flow`, not `flow`: it is cut at its first dot before the `flow` replacement can see it |
| Detector.ControllerLabel | src/dependencyGraph.js:204-208 | `controller="X"` is labelled `controller` |
| Detector.NoQuoteUnchanged | src/dependencyGraph.js:206 | a label without a quote is not changed by the `';` removal |
| Detector.NoImportUnchanged | src/dependencyGraph.js:207 | a label without an import is not changed by the import rewrite |
| Detector.BareMemberHits | src/dependencyGraph.js:111-112 | in a text without `X.(`, every member-access hit is the bare `X.` |
| Detector.BareUsesAreReferences | src/dependencyGraph.js:105-138 | a text that uses `X` only as `X.` (no `new X(`, no `X.(`, no `Flow`) yields one `reference` label per use |
| Detector.ImportScan | src/dependencyGraph.js:196-198 | the import pattern finds exactly one hit in `import y from '@salesforce/apex/X.m';`: the whole line |
| Detector.ImportLabel | src/dependencyGraph.js:203-208 | the clean-up turns that import line into `imported` followed directly by the method name `m` |
| Detector.ImportReference | src/dependencyGraph.js:190-211 | an Aura or LWC text made of that import line yields exactly `["imported" + m]` |
| Detector.SingleInstantiation | test/suite/extension.test.js:29-60 | a text that creates `X` once and mentions it nowhere else yields exactly `["instantiation"]` |
| CrossReference.SurveyOf | src/dependencyGraph.js:420-453 | the survey records, per pair of items, whether the scanner's text includes the other's search text, and the label it would attach |
| CrossReference.AddNew | src/dependencyGraph.js:440 | `Set.add` keeps the old elements in place, adds the new one, and never duplicates |
| CrossReference.IndicesOf | src/dependencyGraph.js:424-425 | a kind's item list is exactly the catalog indices of that kind, in order, without repeats |
| CrossReference.ScanCount | src/dependencyGraph.js:425-441 | a scan raises each candidate's count by one exactly when it finds that candidate |
| CrossReference.ScanRefs | src/dependencyGraph.js:425-441 | a scan adds to the scanner's references exactly the candidates it finds, and touches no other item's references |
| CrossReference.ScanLabels | src/dependencyGraph.js:446-474 | the class scan gives each class it finds the scanner's label; other scans add no label |
| CrossReference.ScanKeys | src/dependencyGraph.js:425-441 | a scan stores exactly the keys of the candidates it finds, and never reorders stored keys |
| CrossReference.ProcessCount | src/dependencyGraph.js:406-478 | one item's turn raises another item's count once per scan that finds it |
| CrossReference.ProcessRefs | src/dependencyGraph.js:406-478 | one item's turn gives it exactly the references its scans find |
| CrossReference.ProcessLabels | src/dependencyGraph.js:444-474 | one item's turn labels exactly the classes its class scan finds |
| CrossReference.ProcessKeys | src/dependencyGraph.js:406-478 | one item's turn stores the item when its text is non-empty, plus everything it finds |
| CrossReference.BuiltCount | src/dependencyGraph.js:398-480 | an item's count is the number of times the scanners so far found it |
| CrossReference.BuiltRefs | src/dependencyGraph.js:398-480 | an item references exactly what its own scans found, once it has had its turn |
| CrossReference.BuiltLabels | src/dependencyGraph.js:444-474 | a class's labels are the labels of the class scans that found it |
| CrossReference.BuiltKeys | src/dependencyGraph.js:398-480 | the map holds exactly the keys of the items that scanned a non-empty text or were found; keys keep their first insertion position |
| CrossReference.StoreValid | src/dependencyGraph.js:477 | storing an item under its own key keeps the map well formed |
| CrossReference.VisitValid | src/dependencyGraph.js:431-440 | counting, storing and linking a found item keeps the map well formed |
| CrossReference.ScanValid | src/dependencyGraph.js:425-441 | a whole scan keeps the map well formed |
| CrossReference.ProcessValid | src/dependencyGraph.js:406-478 | one item's turn keeps the map well formed |
| CrossReference.BuiltValid | src/dependencyGraph.js:398-480 | every state of the build is well formed |
| CrossReference.BuildValid | src/dependencyGraph.js:394-480 | the finished map has duplicate-free, in-range references, and each key stored once with the item of that key |
| CrossReference.HitsWithoutFocus | src/dependencyGraph.js:420-474 | without a selected item no scanner counts the same item twice |
| CrossReference.CountIsInDegree | src/dependencyGraph.js:431-432 | without a selected item, an item's `referencedCount` is the number of items that reference it |
| CrossReference.FocusCountsClassesTwice | src/dependencyGraph.js:420-474 | with a selected item, a class found by a class is counted twice (same-type scan and class scan) but linked once |
| Ranking.AheadMeaning | src/dependencyGraph.js:485-488 | the comparator orders by descending total, then by descending out-degree, and is total |
| Ranking.AheadTransitive | src/dependencyGraph.js:485-488 | the comparator's order is transitive |
| Ranking.Insert | src/dependencyGraph.js:484-488 | inserting adds exactly the new entry |
| Ranking.Sort | src/dependencyGraph.js:484-488 | the sort is a permutation of its input |
| Ranking.InsertSorted | src/dependencyGraph.js:484-488 | inserting into a sorted list keeps it sorted |
| Ranking.SortSorted | src/dependencyGraph.js:484-488 | the sort's output is ordered as the comparator demands |
| Ranking.InsertPeers | src/dependencyGraph.js:484-488 | an inserted entry goes after every entry of equal rank |
| Ranking.SortStable | src/dependencyGraph.js:484-488 | entries of equal rank keep their original relative order, as with `Array.prototype.sort` |
| Assembly.KeyListOfCards | src/dependencyGraph.js:270 | the cards' keys are the catalog's keys |
| Assembly.ValidFits | src/dependencyGraph.js:484 | a well-formed map fits the catalog it was built from |
| Assembly.Ranked | src/dependencyGraph.js:484-488 | each ranked entry carries the current numbers of the item it names |
| Assembly.RankedOrder | src/dependencyGraph.js:484-488 | the ranked array is a permutation of the map's values, sorted, and stable among equals |
| Assembly.Selected | src/dependencyGraph.js:497 | the selected item exists exactly when the focus key is in the map, and it is the item stored there |
| Assembly.FocusKept | src/dependencyGraph.js:501-506 | the selected item itself is always drawn |
| Assembly.KeptNearFocus | src/dependencyGraph.js:501-519 | with a selected item, an item is drawn exactly when it is the focus, shares its key, or lies one or two reference steps from it in either direction |
| Assembly.ReachesTwo | src/dependencyGraph.js:334-345 | `checkReferenceSet` together with a direct reference means "within two steps" |
| Assembly.KeptIdsMembers | src/dependencyGraph.js:499-519 | the drawn items are exactly the ranked items that pass the filter |
| Assembly.AddToGroupKinds | src/dependencyGraph.js:533-536 | a kind enters `listByType` once, at the end, the first time one of its items is listed |
| Assembly.AddToGroupMembers | src/dependencyGraph.js:533-536 | listing a key appends it to its own kind's list and leaves the others alone |
| Assembly.EmitEdges | src/dependencyGraph.js:540-568 | drawing one item's edges raises the count by at most its number of references, and changes no colouring list |
| Assembly.CappedMeaning | src/dependencyGraph.js:547-551 | the cap keeps exactly the first `budget` edges and every lone line |
| Assembly.EmitPrefix | src/dependencyGraph.js:540-568 | an item's drawn edges are the first `min(budget, n)` of its `n` references, in order |
| Assembly.EmitCapped | src/dependencyGraph.js:547-551 | drawing an item's edges draws the capped prefix of them |
| Assembly.LoneUncapped | src/dependencyGraph.js:570-574 | the line of a referenced item without references is drawn whatever the count |
| Assembly.PlaceLines | src/dependencyGraph.js:521-574 | placing one item adds its capped edges, then its lone line |
| Assembly.WalkCount | src/dependencyGraph.js:499-575 | the final `dependencyCount` is the number of edges the uncapped graph has, up to the limit |
| Assembly.WalkLines | src/dependencyGraph.js:499-575 | the lines drawn are the uncapped graph's lines with every edge past the limit dropped |
| Assembly.LoopIsWalk | src/dependencyGraph.js:499-575 | the loop that tests each ranked item and places it when it passes draws exactly what placing the filtered items in order draws |
| Assembly.AssembleWalk | src/dependencyGraph.js:499-575 | the drawing loop over the ranked items from an empty start equals placing the filtered ranked items in order |
| Assembly.AssembleCap | src/dependencyGraph.js:547-551 | the first `min(700, n)` of the filtered graph's `n` edges are drawn, every lone line is drawn, and the count is the number drawn |
| Assembly.PlaceLists | src/dependencyGraph.js:521-537 | a placed item is independent exactly when it has no references; it goes to `moreRefs` with six or more references, else to its kind's list |
| Assembly.WalkMoreRefs | src/dependencyGraph.js:527-530 | `elementsWithMoreRefs` is the drawn items with six or more references, in drawing order |
| Assembly.WalkMembers | src/dependencyGraph.js:531-537 | each kind's list is that kind's drawn items with fewer than six references, in drawing order |
| Assembly.WalkStandalone | src/dependencyGraph.js:521-525 | `independentItemList` is the display names of the drawn items without references |
| Assembly.WalkKinds | src/dependencyGraph.js:531-537 | a kind is listed once, and exactly when one of its drawn items has fewer than six references |
| Assembly.AssembleLists | src/dependencyGraph.js:521-537 | the assembled colouring lists, stated against the drawn items from an empty start |
| Assembly.ReduceJoin | src/dependencyGraph.js:328-330 | the reduction from `''` puts a `<br>` before every label |
| Assembly.FormattedLabels | src/dependencyGraph.js:322-333 | with labels, a node's text is its display name, an empty line, then one label per line |
| Assembly.LineText | src/dependencyGraph.js:566 | every Mermaid line ends in a newline |
| Assembly.AssembleInRange | src/dependencyGraph.js:540-574 | every drawn line names items of the catalog |
| Assembly.DefinitionEmpty | src/dependencyGraph.js:566-573 | the graph definition is empty exactly when no line was drawn |
| Assembly.DefinitionLines | src/dependencyGraph.js:566-573 | with newline-free names and labels, the definition has one text line per drawn line |
| Assembly.ReduceOneLine | src/dependencyGraph.js:328-330 | newline-free labels reduce to a newline-free text |
| GraphPage.KindStyles | src/displayGraph.js:34-37 | one class per entry of `listByType`, in its order |
| GraphPage.StyleSheet | src/displayGraph.js:25-44 | the style sheet is empty exactly when there are no high-fan-out items, no listed kinds and no selected item |
| GraphPage.Styles | src/displayGraph.js:25-44 | the sheet defines one class per listed kind, plus one for high-fan-out items and one for the focus when present |
| GraphPage.TextsEmpty | src/displayGraph.js:34-37 | a list of classes has empty text exactly when it is empty |
| GraphPage.ThreeLines | src/displayGraph.js:30 | a class's text splits into an empty line, its `classDef` line and its `class` line |
| GraphPage.TextsHeads | src/displayGraph.js:34-37 | the `classDef` lines of the text are exactly the classes' heads, in order |
| GraphPage.StyleSheetHeads | src/displayGraph.js:25-44 | the sheet's `classDef` lines: `moreRefs` first exactly when needed, then each listed kind with its colour, then the focus class exactly when there is a focus |
| GraphPage.MoreRefsHead | src/displayGraph.js:30 | the high-fan-out class is orange with a 4px stroke |
| GraphPage.KindHead | src/displayGraph.js:36 | a kind's class is named by its tag and filled with the kind's colour |
| GraphPage.FocusHead | src/displayGraph.js:41 | the focus class is `<name>Item` with an 8px red stroke |
| GraphPage.Decimal | src/displayGraph.js:67 | the decimal rendering of a count is non-empty and ends in a digit |
| GraphPage.DecimalInjective | src/displayGraph.js:67 | different counts render differently |
| GraphPage.NoDependencyMessage | src/displayGraph.js:52-54 | the message names the graph type and ends with the project folder |
| GraphPage.IndependentElement | src/displayGraph.js:62-63 | the independent pseudo-node is absent exactly when no item is independent; otherwise it starts with `independentItems(ITEMS WITH NO DEPENDENCIES:<br><br>`, ends with `)` and a newline, and names every independent item |
| GraphPage.HeaderWarning | src/displayGraph.js:65-68 | the header ends in the truncation warning exactly when the count equals the limit |
| GraphPage.Body | src/displayGraph.js:74 | the graph text starts with `graph LR` and the definition, ends with the style sheet, and holds exactly the independent pseudo-node in between |
| GraphPage.BodyNamesIndependent | src/displayGraph.js:62-74 | every independent item is named in the graph text |
| GraphPage.DisplayGraph | src/displayGraph.js:46-83 | a message is shown exactly when the definition is empty; otherwise a page with the header and body |
| Extension.ExtensionFlag | extension.js:92-99 | every flag the chain yields is one of the per-kind commands' flags |
| Extension.ItemCommand | extension.js:81-113 | a graph request's focus name holds no dot or slash and needs a dot in the path; it throws only on a dot-free path |
| Extension.ClassMetaArmUnreachable | extension.js:93 | the popped extension is never `cls-meta.xml` |
| Extension.NoMetaMatch | extension.js:100-105 | a path without a hyphen matches neither `includes` test |
| Extension.SimplePath | extension.js:89-110 | for `<dir>/<name>.<ext>` with dot-free folders, the extension is `ext` and the focus name is `name` |
| Extension.ItemCommandMainFile | extension.js:81-113 | with dot-free folders, each kind's main file, flows included, draws that kind, focused on the file's item |
| Extension.FlowMetaFile | extension.js:89-112 | a flow's `.flow-meta.xml` file draws the flow graph, focused on the flow |
| Extension.FlowMetaOverride | extension.js:100-102 | `flow-meta.xml` anywhere in a path without `js-meta.xml` forces `--flow`, whatever the popped extension |
| Extension.LwcMetaOverride | extension.js:103-105 | `js-meta.xml` anywhere in a path forces the padded `--lwc  ` flag, whatever the popped extension |
| Extension.IgnoredExactly | extension.js:92-108 | the handler returns without a graph call exactly when neither needle is in the path and the chain knows no flag for the popped extension |
| Extension.SimpleCommand | extension.js:89-112 | a `<dir>/<name>.<ext>` path with dot-free parts and an extension the chain knows, not starting with `x`, requests that extension's flag focused on `name` |
| Extension.MainExtensionFlag | extension.js:92-99 | the chain maps each non-flow kind's main extension to that kind's flag |
| Extension.MetaPath | extension.js:89-110 | a metadata file's popped extension is `xml`, and its focus name is the file's name |
| Extension.ClassMetaNoMatch | extension.js:100-105 | a class metadata path with dot-free folders matches neither `includes` test |
| Extension.ClassMetaIsFlow | extension.js:89-112 | right-clicking a class metadata file requests a flow graph |
| Extension.PaddedFlagIsClass | extension.js:103-105 | `--lwc  `, lowered, is none of the flags, so it selects the class graph |
| Extension.LwcMetaIsClass | extension.js:103-112 | right-clicking an LWC metadata file requests the class graph |
| Extension.DottedFolderName | extension.js:110 | a dot in a folder name cuts the focus name to the folder's name before the dot |
| Extension.DottedFolderExample | extension.js:89-110 | `/ws/my.app/classes/Foo.cls` focuses on `my` |
| Extension.IntendedCommand | extension.js:81-113 | the corrected handler never throws and yields a dot-free, slash-free focus name |
| Extension.IntendedMainFlag | extension.js:92-99 | with the corrected handler, each kind's main file, flows included, selects its own kind |
| Extension.IntendedOtherFlags | extension.js:92-105 | with the corrected handler, class metadata selects classes, and LWC scripts and metadata select LWCs |
| Extension.IntendedMainFile | extension.js:81-113 | with the corrected handler, a main file in any folder draws its kind, focused on its item |
| Extension.IntendedMetaFiles | extension.js:89-105 | with the corrected handler, class and LWC metadata files draw their own kind |
| Graph.FocusName | src/dependencyGraph.js:388-392 | there is a focus exactly when a non-empty item was selected; its type tag follows its last hyphen |
| Graph.RequestOf | src/dependencyGraph.js:379-392 | the graph type is the parsed flag, and the focus key carries that type's tag |
| Graph.Prepare | src/dependencyGraph.js:394-575 | the built map is well formed over the catalog, and every drawn line names catalog items |
| Graph.FocusCard | src/dependencyGraph.js:497 | the focus card exists exactly when the focus key is in the map |
| Graph.CreateGraph | src/dependencyGraph.js:366-377 | the error outcome happens exactly when the resolved folder already names all three segments, and it reports the decoded folder |
| Graph.CreateGraphShows | src/dependencyGraph.js:366-587 | the message is shown exactly when the filtered graph has no line; otherwise the count is its edge count up to 700, and the header warns exactly when it has 700 or more edges |
| Graph.ShowCap | src/dependencyGraph.js:577-586 | the page of a capped run: the message exactly for an empty graph, the warning exactly at the limit |
| Graph.IntendedHandlerRequest | extension.js:110-112 | with the corrected handler, a main file's request is its own kind, focused on its item's unique name |
| Graph.LwcMetaRequest | extension.js:103-112 | as written, an LWC metadata file requests the class graph, focused on a class key |

## Left out

- VS Code: the windows, the information and error messages, `getFolderPath`, and the command registration. The project folder and the right-clicked path are parameters.
- The file system: `fs.existsSync`, `readdirSync` and `readFileSync` are read from a `Project` value holding folder listings and file texts. A missing folder lists as empty and a missing file reads as "".
- `path.resolve` is taken to have been applied already. The Windows delimiter `\` is left out: the model uses `/`.
- The HTML page around the graph and `openBrowserWithGraph`. The page is modelled as its header and its graph text.
- The `itemsList` cache of `fetchItemsFromFolder` across calls. The model builds each catalog afresh, which is what a first call does.
- `console.log` output.
- UTF-16 code units. A string is a sequence of Unicode characters, while the source's regular expressions have no `u` flag and work on UTF-16 code units. So `.` in `Flow.Interview.X`, `[^ <>]` and `[^a-zA-Z\d\s:]` treat a character outside the Basic Multilingual Plane as one unit here and as two in the source (one space instead of two after the last clean-up step).
- Item names holding regular-expression metacharacters: names are matched literally, which is exact for Apex identifiers.
- `toLowerCase` beyond ASCII. The needles compared after lowering ("test" and the flags) are ASCII, and no other character lowers onto one of their letters.
- The leading line break inside the graph `div`, and the `maxTextSize` setting of the Mermaid script.
- The per-reference filter at src/dependencyGraph.js:541-545 is not modelled as a step: it can only run when `itemDoesNotHaveReferences` is true, and then the item has already been skipped.
- GraphPage.NoDependencyMessage: states the message's start and end, not the optional ` for <name>` in between.
- GraphPage.StyleSheetHeads: states the `classDef` lines; the `class` lines are stated only through `GraphPage.Texts` and `GraphPage.Roster`.
- Catalog.ItemText: states where the main file and the `Helper.js` script sit (with Catalog.ComponentTextParts), and that the `.js` and `Controller.js` scripts each follow a separator, not their exact positions.
- Extension.ItemCommandMainFile: holds for folders without dots; Extension.DottedFolderName states what a dotted folder does when the text after its dot does not start with `x`, and Extension.FlowMetaOverride, Extension.LwcMetaOverride and Extension.IgnoredExactly hold for every path.
- Detector.ImportLabel: states the label for an import line whose binding `y` and method name `m` hold no quote of either kind and no line break; a quote in them can end or start another match of the clean-up patterns.
- Detector.CutFlow: requires that `X.` does not occur inside `Flow.Interview.X`; for a flow whose name occurs followed by a dot inside that text (a flow named `w`), the first step removes it and the label differs.

## Findings

| source | as written | input that shows it | evidently intended | confidence | as-written member | corrected member |
|---|---|---|---|---|---|---|
| extension.js:89-99 | the extension is the last `.`-piece of the path, so the `cls-meta.xml` arm can never fire, and a class metadata file falls through to the `xml` arm | `/p/classes/Foo.cls-meta.xml` requests `--flow` with focus `Foo` | a class metadata file draws the class graph | not executed | Extension.ClassMetaIsFlow | Extension.IntendedMetaFiles |
| extension.js:103-105 | an LWC metadata file gets the flag `--lwc  ` with two trailing spaces, which matches no flag in `createGraph` | `/p/lwc/foo/foo.js-meta.xml` gives a class graph focused on `foo-CLASS` | the LWC graph focused on the component | not executed | Extension.LwcMetaIsClass | Extension.IntendedMetaFiles |
| extension.js:110 | the focus name is taken from before the first dot of the whole path, not of the file name | `/ws/my.app/classes/Foo.cls` focuses on `my` | the focus is the file's own name, `Foo` | not executed | Extension.DottedFolderExample | Extension.IntendedMainFile |
