/**
 * The text `displayGraph` puts on the page: the Mermaid style sheet that colours the
 * nodes, the header with its truncation warning, the pseudo-node listing independent
 * items, and the message shown instead of a page when the graph is empty.
 * Source: src/displayGraph.js:25-83.
 */
module GraphPage {
  import opened Maybe
  import opened Strings
  import opened ItemTypes
  import opened Assembly

  // ---------------------------------------------------------------------------
  // Style sheet

  /** A Mermaid class: a `classDef` line giving its look and a `class` line naming its nodes. */
  datatype Style = Style(name: string, look: string, members: seq<string>)

  /** `classDef <name> <look>`. */
  function Head(s: Style): string {
    "classDef " + s.name + " " + s.look
  }

  /** `class <members joined by commas> <name>`. */
  function Roster(s: Style): string {
    "class " + Join(s.members, ",") + " " + s.name
  }

  /** A class as the style sheet writes it: both lines, each preceded by a newline. */
  function StyleText(s: Style): string {
    "\n" + Head(s) + "\n" + Roster(s) + "\n"
  }

  function Texts(ss: seq<Style>): string {
    if ss == [] then "" else StyleText(ss[0]) + Texts(ss[1..])
  }

  /** The class for the nodes with six or more references. */
  function MoreRefsStyle(moreRefs: seq<string>): Style {
    Style("moreRefs", "fill:orange,stroke-width:4px;", moreRefs)
  }

  /** The class colouring the nodes of one kind: named by its tag, filled with its colour. */
  function KindStyle(g: Group): Style {
    Style(Tag(g.kind), "fill:" + Color(g.kind) + ",stroke-width:4px;", g.members)
  }

  /** The class outlining the focus item in red. */
  function FocusStyle(focus: Card): Style {
    Style(focus.name + "Item", "stroke:red,stroke-width:8px;", [focus.key])
  }

  function KindStyles(gs: seq<Group>): (r: seq<Style>)
    ensures |r| == |gs|
    ensures forall i :: 0 <= i < |gs| ==> r[i] == KindStyle(gs[i])
  {
    if gs == [] then [] else [KindStyle(gs[0])] + KindStyles(gs[1..])
  }

  /**
   * `getStyleSheet`: the high-fan-out class when there are such nodes, one class per
   * entry of `listByType`, and the focus class when an item is selected.
   */
  function StyleSheet(moreRefs: seq<string>, groups: seq<Group>, focus: Option<Card>): (r: string)
    ensures r == "" <==> moreRefs == [] && groups == [] && focus.None?
  {
    var ss := Styles(moreRefs, groups, focus);
    TextsEmpty(ss);
    Texts(ss)
  }

  /** The classes the style sheet defines, in order. */
  function Styles(moreRefs: seq<string>, groups: seq<Group>, focus: Option<Card>): (r: seq<Style>)
    ensures |r| == (if moreRefs == [] then 0 else 1) + |groups| + (if focus.Some? then 1 else 0)
  {
    (if |moreRefs| > 0 then [MoreRefsStyle(moreRefs)] else [])
    + KindStyles(groups)
    + (if focus.Some? then [FocusStyle(focus.value)] else [])
  }

  lemma {:induction false} TextsEmpty(ss: seq<Style>)
    ensures Texts(ss) == "" <==> ss == []
  {
    if ss != [] {
      assert |StyleText(ss[0])| > 0;
    }
  }

  /** The lines of the style sheet that define a class. */
  function Heads(lines: seq<string>): seq<string> {
    if lines == [] then []
    else (if StartsWith(lines[0], "classDef ") then [lines[0]] else []) + Heads(lines[1..])
  }

  /** A class's text, split into lines: an empty line, its `classDef` line and its `class` line. */
  lemma ThreeLines(h: string, c: string, rest: string)
    requires '\n' !in h && '\n' !in c
    ensures Split("\n" + h + "\n" + c + "\n" + rest, '\n') == ["", h, c] + Split(rest, '\n')
  {
    var z := c + ['\n'] + rest;
    var y := h + ['\n'] + z;
    var x := [] + ['\n'] + y;
    assert x == "\n" + h + "\n" + c + "\n" + rest;
    SplitAfter(c, '\n', rest);
    SplitAfter(h, '\n', z);
    SplitAfter([], '\n', y);
    var tail := Split(rest, '\n');
    assert Split(x, '\n') == [""] + ([h] + ([c] + tail));
    Regroup(h, c, tail);
  }

  lemma Regroup(h: string, c: string, tail: seq<string>)
    ensures [""] + ([h] + ([c] + tail)) == ["", h, c] + tail
  {
  }

  lemma HeadIsHead(s: Style)
    ensures StartsWith(Head(s), "classDef ")
  {
    assert Head(s)[..9] == "classDef ";
  }

  lemma RosterIsNotHead(s: Style)
    ensures !StartsWith(Roster(s), "classDef ")
  {
    assert Roster(s)[5] == ' ';
  }

  /** No line break in any name, look or member of the classes. */
  predicate OneLine(ss: seq<Style>) {
    forall i :: 0 <= i < |ss| ==> '\n' !in Head(ss[i]) && '\n' !in Roster(ss[i])
  }

  /** The `classDef` lines of a list of classes. */
  function HeadsOf(ss: seq<Style>): (r: seq<string>)
    ensures |r| == |ss|
    ensures forall i :: 0 <= i < |ss| ==> r[i] == Head(ss[i])
  {
    if ss == [] then [] else [Head(ss[0])] + HeadsOf(ss[1..])
  }

  /** Of a class's three lines only the `classDef` line is a head. */
  lemma HeadsOfBlock(h: string, c: string, rest: seq<string>)
    requires StartsWith(h, "classDef ") && !StartsWith(c, "classDef ")
    ensures Heads(["", h, c] + rest) == [h] + Heads(rest)
  {
    assert !StartsWith("", "classDef ");
    var lines := ["", h, c] + rest;
    assert lines[1..] == [h, c] + rest;
    assert lines[1..][1..] == [c] + rest;
    assert lines[1..][1..][1..] == rest;
    assert Heads([c] + rest) == Heads(rest);
    assert Heads([h, c] + rest) == [h] + Heads([c] + rest);
    assert Heads(lines) == Heads([h, c] + rest);
  }

  /** Exactly the `classDef` lines are heads: a `class` line has a space where `classDef` has a `D`. */
  lemma {:induction false} TextsHeads(ss: seq<Style>)
    requires OneLine(ss)
    ensures Heads(Split(Texts(ss), '\n')) == HeadsOf(ss)
  {
    if ss != [] {
      var s := ss[0];
      var h, c := Head(s), Roster(s);
      assert OneLine(ss[1..]);
      TextsHeads(ss[1..]);
      var rest := Split(Texts(ss[1..]), '\n');
      assert Texts(ss) == "\n" + h + "\n" + c + "\n" + Texts(ss[1..]);
      ThreeLines(h, c, Texts(ss[1..]));
      HeadIsHead(s);
      RosterIsNotHead(s);
      HeadsOfBlock(h, c, rest);
    } else {
      assert Split("", '\n') == [""];
      assert !StartsWith("", "classDef ");
    }
  }

  /**
   * The style sheet defines one class per kind present in `listByType`, in its order and
   * with that kind's colour; before them the high-fan-out class exactly when there are
   * high-fan-out nodes, and after them the focus class exactly when there is a focus item.
   */
  lemma StyleSheetHeads(moreRefs: seq<string>, groups: seq<Group>, focus: Option<Card>)
    requires OneLine(Styles(moreRefs, groups, focus))
    ensures var heads := Heads(Split(StyleSheet(moreRefs, groups, focus), '\n'));
            var m := if moreRefs == [] then 0 else 1;
            && |heads| == m + |groups| + (if focus.Some? then 1 else 0)
            && (moreRefs != [] ==> heads[0] == "classDef moreRefs fill:orange,stroke-width:4px;")
            && (forall i :: 0 <= i < |groups| ==>
                  heads[m + i] == "classDef " + Tag(groups[i].kind) + " fill:" + Color(groups[i].kind) + ",stroke-width:4px;")
            && (focus.Some? ==> heads[|heads| - 1] == "classDef " + focus.value.name + "Item stroke:red,stroke-width:8px;")
  {
    var ss := Styles(moreRefs, groups, focus);
    var m := if moreRefs == [] then 0 else 1;
    TextsHeads(ss);
    StylesOrder(moreRefs, groups, focus);
    var heads := HeadsOf(ss);
    if moreRefs != [] {
      MoreRefsHead(moreRefs);
    }
    if focus.Some? {
      FocusHead(focus.value);
    }
    forall i | 0 <= i < |groups|
      ensures heads[m + i] == "classDef " + Tag(groups[i].kind) + " fill:" + Color(groups[i].kind) + ",stroke-width:4px;"
    {
      KindHead(groups[i]);
    }
  }

  /** Where each class stands in the style sheet. */
  lemma StylesOrder(moreRefs: seq<string>, groups: seq<Group>, focus: Option<Card>)
    ensures var ss := Styles(moreRefs, groups, focus);
            var m := if moreRefs == [] then 0 else 1;
            && (moreRefs != [] ==> ss[0] == MoreRefsStyle(moreRefs))
            && (forall i :: 0 <= i < |groups| ==> ss[m + i] == KindStyle(groups[i]))
            && (focus.Some? ==> ss[|ss| - 1] == FocusStyle(focus.value))
  {
    var a := if |moreRefs| > 0 then [MoreRefsStyle(moreRefs)] else [];
    var ks := KindStyles(groups);
    var f := if focus.Some? then [FocusStyle(focus.value)] else [];
    var ss := Styles(moreRefs, groups, focus);
    assert ss == (a + ks) + f;
    forall i | 0 <= i < |groups|
      ensures ss[|a| + i] == KindStyle(groups[i])
    {
      assert ss[|a| + i] == (a + ks)[|a| + i] == ks[i];
    }
    if moreRefs != [] {
      assert ss[0] == (a + ks)[0] == a[0];
    }
  }

  lemma MoreRefsHead(moreRefs: seq<string>)
    ensures Head(MoreRefsStyle(moreRefs)) == "classDef moreRefs fill:orange,stroke-width:4px;"
  {
    MoreRefsPrefix();
    MoreRefsLook();
  }

  lemma MoreRefsPrefix()
    ensures "classDef " + "moreRefs" + " " == "classDef moreRefs "
  {
    assert "classDef " + "moreRefs" == "classDef moreRefs";
  }

  lemma MoreRefsLook()
    ensures "classDef moreRefs " + "fill:orange,stroke-width:4px;" == "classDef moreRefs fill:orange,stroke-width:4px;"
  {
  }

  lemma KindHead(g: Group)
    ensures Head(KindStyle(g)) == "classDef " + Tag(g.kind) + " fill:" + Color(g.kind) + ",stroke-width:4px;"
  {
    assert " " + ("fill:" + Color(g.kind) + ",stroke-width:4px;") == " fill:" + Color(g.kind) + ",stroke-width:4px;";
  }

  lemma FocusHead(focus: Card)
    ensures Head(FocusStyle(focus)) == "classDef " + focus.name + "Item stroke:red,stroke-width:8px;"
  {
    var a := "Item" + " " + "stroke:red,stroke-width:8px;";
    var b := "Item stroke:red,stroke-width:8px;";
    assert |a| == |b|;
    forall i | 0 <= i < |a|
      ensures a[i] == b[i]
    {
    }
  }

  // ---------------------------------------------------------------------------
  // Page text

  function Digit(d: nat): char
    requires d < 10
  {
    ('0' as int + d) as char
  }

  /** `${n}` for a natural number: its decimal digits. */
  function Decimal(n: nat): (r: string)
    ensures |r| > 0 && '0' <= r[|r| - 1] <= '9'
  {
    if n < 10 then [Digit(n)] else Decimal(n / 10) + [Digit(n % 10)]
  }

  lemma DecimalLength(n: nat)
    ensures n < 10 <==> |Decimal(n)| == 1
  {
    if n >= 10 {
      assert |Decimal(n)| == |Decimal(n / 10)| + 1;
    }
  }

  /** Decimal rendering is one-to-one, so the count in the header determines the count. */
  lemma {:induction false} DecimalInjective(m: nat, n: nat)
    requires Decimal(m) == Decimal(n)
    ensures m == n
  {
    var dm := Decimal(m);
    DecimalLength(m);
    DecimalLength(n);
    if m >= 10 && n >= 10 {
      assert Decimal(m / 10) == dm[..|dm| - 1] == Decimal(n / 10);
      DecimalInjective(m / 10, n / 10);
      assert Digit(m % 10) == Digit(n % 10);
    } else if m < 10 && n < 10 {
      assert Digit(m) == Digit(n);
    }
  }

  /** What the page shows instead of a graph when there is nothing to draw. */
  function NoDependencyMessage(description: string, selected: Option<string>, path: string): (r: string)
    ensures StartsWith(r, "Dependency Graph:  No " + description + " dependencies found")
    ensures EndsWith(r, " in project folder " + path)
  {
    var head := "Dependency Graph:  No " + description + " dependencies found";
    var tail := " in project folder " + path;
    var r := head + (if selected.Some? then " for " + selected.value else "") + tail;
    assert r[..|head|] == head;
    assert r[|r| - |tail|..] == tail;
    r
  }

  /** The opening of the pseudo-node for the items without dependencies. */
  const IndependentHead: string := "independentItems(ITEMS WITH NO DEPENDENCIES:<br><br>"

  /**
   * The pseudo-node listing the items without dependencies, one per line: absent when
   * there are none, otherwise a node that names every one of them.
   */
  function IndependentElement(independent: seq<string>): (r: string)
    ensures r == "" <==> independent == []
    ensures independent != [] ==> StartsWith(r, IndependentHead) && EndsWith(r, ")\n")
    ensures forall i :: 0 <= i < |independent| ==> Contains(r, independent[i])
  {
    if |independent| == 0 then ""
    else
      var names := Join(independent, "<br>");
      var r := IndependentHead + names + ")\n";
      assert r[..|IndependentHead|] == IndependentHead;
      assert r[|r| - 2..] == ")\n";
      forall i | 0 <= i < |independent|
        ensures Contains(r, independent[i])
      {
        JoinContains(independent, "<br>", i);
        ContainsWithin(IndependentHead, names, ")\n", independent[i]);
      }
      r
  }

  /** The sentence appended to the header when the graph holds exactly the limit of edges. */
  function Warning(count: nat): string {
    "<br>WARNING:  Graph is limited to " + Decimal(count) + " dependencies."
  }

  /** The page's header. */
  function Header(description: string, path: string, selected: Option<string>, count: nat, limit: nat): string {
    description + " Dependency Graph for " + path
    + (if selected.Some? then "<br>Dependencies for " + selected.value else "")
    + "<br><br>Number of Dependencies: " + Decimal(count)
    + (if count == limit then Warning(count) else "")
  }

  /**
   * The header ends in the truncation warning exactly when the count equals the limit:
   * otherwise it ends in the count's last digit, and the warning ends in a full stop.
   */
  lemma HeaderWarning(description: string, path: string, selected: Option<string>, count: nat, limit: nat)
    ensures EndsWith(Header(description, path, selected, count, limit), Warning(count)) <==> count == limit
  {
    var h := Header(description, path, selected, count, limit);
    var w := Warning(count);
    assert w[|w| - 1] == '.';
    if count != limit {
      var d := Decimal(count);
      assert h[|h| - 1] == d[|d| - 1];
    } else {
      assert h[|h| - |w|..] == w;
    }
  }

  /** The graph text inside the page. */
  function Body(definition: string, independent: seq<string>, styles: string): (r: string)
    ensures StartsWith(r, "graph LR\n" + definition)
    ensures EndsWith(r, styles)
    ensures |r| == |"graph LR\n" + definition| + |IndependentElement(independent)| + |styles|
    ensures r[|"graph LR\n" + definition|..|r| - |styles|] == IndependentElement(independent)
  {
    var head := "graph LR\n" + definition;
    var middle := IndependentElement(independent);
    var r := head + middle + styles;
    assert r[..|head|] == head;
    assert r[|r| - |styles|..] == styles;
    assert r[|head|..|r| - |styles|] == middle;
    r
  }

  /** Every item without dependencies is named in the graph text. */
  lemma BodyNamesIndependent(definition: string, independent: seq<string>, styles: string, i: nat)
    requires i < |independent|
    ensures Contains(Body(definition, independent, styles), independent[i])
  {
    var head := "graph LR\n" + definition;
    ContainsWithin(head, IndependentElement(independent), styles, independent[i]);
  }

  /** What `displayGraph` shows. */
  datatype Shown = Message(text: string) | Page(header: string, body: string)

  /** `displayGraph`: a message when the definition is empty, otherwise the page. */
  function DisplayGraph(
    definition: string, description: string, path: string, styles: string,
    selected: Option<string>, independent: seq<string>, count: nat, limit: nat): (r: Shown)
    ensures r.Message? <==> definition == ""
    ensures r.Message? ==> r.text == NoDependencyMessage(description, selected, path)
    ensures r.Page? ==> r.header == Header(description, path, selected, count, limit)
    ensures r.Page? ==> StartsWith(r.body, "graph LR\n" + definition) && EndsWith(r.body, styles)
  {
    if definition == "" then Message(NoDependencyMessage(description, selected, path))
    else Page(Header(description, path, selected, count, limit), Body(definition, independent, styles))
  }
}
