/**
 * `createGraph`: decode and resolve the project folder, read the flags and the focus,
 * build the cross-reference map over the catalog, assemble the Mermaid lines and show
 * the page (or the message, or the folder error).
 * Source: src/dependencyGraph.js:366-586.
 */
module Graph {
  import opened Maybe
  import opened Strings
  import opened Patterns
  import opened ItemTypes
  import opened Catalog
  import opened CrossReference
  import opened Assembly
  import opened GraphPage
  import Extension

  /** How `createGraph` ends. */
  datatype Outcome =
    | NoFolder(folder: string)   // the error message naming the decoded folder
    | Displayed(view: Shown)     // what `displayGraph` shows

  /** `projectFolder.replace(/%20/g, ' ')`. */
  function DecodedFolder(projectFolder: string): string {
    GlobalReplace(Literal("%20"), projectFolder, " ", 0)
  }

  /** The unique name of the selected item; an absent or empty selection is no focus. */
  function FocusName(selected: Option<string>, k: Kind): (r: Option<string>)
    ensures r.Some? <==> selected.Some? && selected.value != ""
    ensures r.Some? ==> LastPiece(r.value, '-') == Tag(k)
  {
    if selected.Some? && selected.value != "" then Some(UniqueName(selected.value, k)) else None
  }

  /** The graph type and focus `createGraph` derives from its arguments. */
  function RequestOf(selected: Option<string>, args: seq<string>): (r: Request)
    ensures r.graphType == ParseGraphType(args)
    ensures r.focus.Some? ==> LastPiece(r.focus.value, '-') == Tag(r.graphType)
  {
    var k := ParseGraphType(args);
    Request(k, FocusName(selected, k))
  }

  /** Each item's text, read once per item. */
  function TextsOf(p: Project, items: seq<Item>): (r: seq<string>)
    ensures |r| == |items| && forall i :: 0 <= i < |items| ==> r[i] == ItemText(p, items[i])
  {
    seq(|items|, i requires 0 <= i < |items| => ItemText(p, items[i]))
  }

  /** The catalog's cards, the built map and the assembled layout. */
  datatype Run = Run(cards: seq<Card>, st: State, lay: Layout)

  /** Build the map over the catalog of `src` and assemble its graph. */
  function Prepare(p: Project, src: string, req: Request): (r: Run)
    ensures |r.cards| == |Items(p, src)|
    ensures Valid(r.st, KeyList(r.cards)) && Fits(r.cards, r.st)
    ensures r.lay == Assemble(r.cards, r.st, req)
    ensures InRange(|r.cards|, r.lay.lines)
  {
    var items := Items(p, src);
    var texts := TextsOf(p, items);
    var st := Build(items, texts, req);
    var cards := Cards(items);
    KeyListOfCards(items);
    BuildValid(items, texts, req);
    AssembleInRange(cards, st, req);
    Run(cards, st, Assemble(cards, st, req))
  }

  /** The selected item's card, when the focus names an item of the map. */
  function FocusCard(run: Run, focus: Option<string>): (r: Option<Card>)
    requires Fits(run.cards, run.st)
    ensures r.Some? <==> focus.Some? && focus.value in run.st.stored
  {
    var sel := Selected(run.st, focus);
    if sel.Some? then Some(run.cards[sel.value]) else None
  }

  /** The end of `createGraph`: the style sheet, the definition and `displayGraph`. */
  function Show(run: Run, req: Request, folder: string): Shown
    requires Fits(run.cards, run.st) && InRange(|run.cards|, run.lay.lines)
  {
    var focus := FocusCard(run, req.focus);
    var styles := StyleSheet(run.lay.moreRefs, run.lay.groups, focus);
    var definition := Definition(run.cards, run.st, run.lay.lines);
    var selected := if focus.Some? then Some(focus.value.display) else None;
    DisplayGraph(definition, GraphTypeDescription(req.graphType), folder, styles, selected,
                 run.lay.independent, run.lay.count, DependencyLimit)
  }

  /** `createGraph(projectFolder, selectedItem, myArgs)` over the project `p`. */
  function CreateGraph(p: Project, projectFolder: string, selected: Option<string>, args: seq<string>): (r: Outcome)
    ensures r.NoFolder? <==> HasAllSegments(ReplaceFirst(DecodedFolder(projectFolder), "\\c%3A", ""))
    ensures r.NoFolder? ==> r.folder == DecodedFolder(projectFolder)
  {
    var folder := DecodedFolder(projectFolder);
    match SourceCodeFolder(folder)
    case None => NoFolder(folder)
    case Some(src) =>
      var req := RequestOf(selected, args);
      Displayed(Show(Prepare(p, src, req), req, folder))
  }

  /** A list of lines is empty exactly when it has neither edges nor lone lines. */
  lemma {:induction false} NoLines(ls: seq<Line>)
    ensures ls == [] <==> EdgesOf(ls) == [] && LonesOf(ls) == []
  {
    if ls != [] {
      NoLines(ls[1..]);
    }
  }

  /**
   * The page against the graph the filter lets through: the message is shown exactly
   * when that graph has no line at all, the count is the number of its edges up to the
   * limit, and the header warns exactly when it has at least `DependencyLimit` edges.
   */
  lemma CreateGraphShows(p: Project, projectFolder: string, selected: Option<string>, args: seq<string>)
    requires !HasAllSegments(ReplaceFirst(DecodedFolder(projectFolder), "\\c%3A", ""))
    ensures var folder := DecodedFolder(projectFolder);
            var src := SourceCodeFolder(folder).value;
            var req := RequestOf(selected, args);
            var run := Prepare(p, src, req);
            var w := Uncapped(run.cards, run.st, req);
            var r := CreateGraph(p, projectFolder, selected, args);
            && r.Displayed?
            && (r.view.Message? <==> w == [])
            && (r.view.Page? ==> run.lay.count == Min(DependencyLimit, |EdgesOf(w)|))
            && (r.view.Page? ==>
                  (EndsWith(r.view.header, Warning(run.lay.count)) <==> |EdgesOf(w)| >= DependencyLimit))
  {
    var folder := DecodedFolder(projectFolder);
    var src := SourceCodeFolder(folder).value;
    var req := RequestOf(selected, args);
    var run := Prepare(p, src, req);
    var w := Uncapped(run.cards, run.st, req);
    CreateGraphRun(p, projectFolder, selected, args);
    AssembleCap(run.cards, run.st, req);
    ShowCap(run, req, folder, w);
  }

  /** With a source folder found, `createGraph` shows the prepared run. */
  lemma CreateGraphRun(p: Project, projectFolder: string, selected: Option<string>, args: seq<string>)
    requires !HasAllSegments(ReplaceFirst(DecodedFolder(projectFolder), "\\c%3A", ""))
    ensures var folder := DecodedFolder(projectFolder);
            var req := RequestOf(selected, args);
            && SourceCodeFolder(folder).Some?
            && CreateGraph(p, projectFolder, selected, args)
               == Displayed(Show(Prepare(p, SourceCodeFolder(folder).value, req), req, folder))
  {
  }

  /** The page of a run whose lines are the capped lines of `w`. */
  lemma ShowCap(run: Run, req: Request, folder: string, w: seq<Line>)
    requires Fits(run.cards, run.st) && InRange(|run.cards|, run.lay.lines)
    requires EdgesOf(run.lay.lines) == EdgesOf(w)[..Min(DependencyLimit, |EdgesOf(w)|)]
    requires LonesOf(run.lay.lines) == LonesOf(w)
    requires run.lay.count == Min(DependencyLimit, |EdgesOf(w)|)
    ensures var v := Show(run, req, folder);
            && (v.Message? <==> w == [])
            && (v.Page? ==> (EndsWith(v.header, Warning(run.lay.count)) <==> |EdgesOf(w)| >= DependencyLimit))
  {
    DefinitionEmpty(run.cards, run.st, run.lay.lines);
    NoLines(run.lay.lines);
    NoLines(w);
    var focus := FocusCard(run, req.focus);
    var shown := if focus.Some? then Some(focus.value.display) else None;
    HeaderWarning(GraphTypeDescription(req.graphType), folder, shown, run.lay.count, DependencyLimit);
  }

  /**
   * The focus `createGraph` looks up for each kind's main file right-clicked in the
   * explorer, with the handler as evidently intended: the item's own unique name.
   */
  lemma IntendedHandlerRequest(dir: string, name: string, k: Kind)
    requires '.' !in name && '/' !in name && name != ""
    ensures var c := Extension.IntendedCommand(dir + Delimiter + name + ItemTypes.Extension(k));
            && c.Graph?
            && RequestOf(Some(c.name), [c.flag]) == Request(k, Some(UniqueName(name, k)))
  {
    Extension.IntendedMainFile(dir, name, k);
  }

  /**
   * The handler as written sends an LWC's metadata file to the class graph, where the
   * focus is the unique name of a class that does not exist.
   */
  lemma LwcMetaRequest(dir: string, name: string)
    requires '.' !in dir && '.' !in name && '/' !in name && name != ""
    ensures var c := Extension.ItemCommand(dir + "/" + name + ".js-meta.xml");
            && c.Graph?
            && RequestOf(Some(c.name), [c.flag]) == Request(Class, Some(UniqueName(name, Class)))
  {
    Extension.LwcMetaIsClass(dir, name);
  }
}
