/**
 * Graph assembly: the second half of `createGraph`. The cross-reference map's values
 * are ranked, filtered by the focus item (or, without one, by the requested kind),
 * sorted into the independent, high-fan-out and per-kind lists used for colouring,
 * and turned into Mermaid lines, at most `DependencyLimit` of them edges.
 * Source: src/dependencyGraph.js:322-345, 484-575.
 */
module Assembly {
  import opened Maybe
  import opened Seqs
  import opened Strings
  import opened ItemTypes
  import opened Catalog
  import opened CrossReference
  import opened Ranking

  /** Mermaid's practical limit on the number of edges drawn. */
  const DependencyLimit: nat := 700

  /** A line of the graph definition: an edge, or a referenced node with no references. */
  datatype Line = Edge(from: nat, to: nat) | Lone(node: nat)

  /** One entry of `listByType`: a kind and the keys of its nodes, in insertion order. */
  datatype Group = Group(kind: Kind, members: seq<string>)

  /** What the assembly loop accumulates. */
  datatype Layout = Layout(
    lines: seq<Line>, moreRefs: seq<string>, independent: seq<string>,
    groups: seq<Group>, count: nat)

  /** What the graph shows of an item: its key, its label, its name and its kind. */
  datatype Card = Card(key: string, display: string, name: string, kind: Kind)

  /** The cards of a catalog, by index. */
  function Cards(items: seq<Item>): (r: seq<Card>)
    ensures |r| == |items|
    ensures forall i :: 0 <= i < |items| ==>
              r[i] == Card(Key(items[i]), Display(items[i]), items[i].name, items[i].kind)
  {
    seq(|items|, i requires 0 <= i < |items| => Card(Key(items[i]), Display(items[i]), items[i].name, items[i].kind))
  }

  /** The keys of a deck of cards, by index. */
  function KeyList(cards: seq<Card>): (r: seq<string>)
    ensures |r| == |cards| && forall i :: 0 <= i < |cards| ==> r[i] == cards[i].key
  {
    seq(|cards|, i requires 0 <= i < |cards| => cards[i].key)
  }

  lemma KeyListOfCards(items: seq<Item>)
    ensures KeyList(Cards(items)) == KeysOf(items)
  {
  }

  /** The nodes fit the catalog: one per item, and every reference and stored value an item. */
  predicate Fits(cards: seq<Card>, st: State) {
    && |st.nodes| == |cards|
    && (forall x :: 0 <= x < |cards| ==> Below(st.nodes[x].refs, |cards|))
    && (forall k :: k in st.stored ==> st.stored[k] < |cards|)
  }

  lemma ValidFits(cards: seq<Card>, st: State)
    requires Valid(st, KeyList(cards))
    ensures Fits(cards, st)
  {
  }

  // ---------------------------------------------------------------------------
  // Ranking

  /** The ranking entry of item `x`. */
  function EntryOf(st: State, x: nat): (e: Entry)
    requires x < |st.nodes|
    ensures e.id == x
  {
    Entry(x, st.nodes[x].count + |st.nodes[x].refs|, |st.nodes[x].refs|)
  }

  /** `[...crossReferenceMap.values()]`, as ranking entries, in key order. */
  function ValueEntries(cards: seq<Card>, st: State): (r: seq<Entry>)
    requires Valid(st, KeyList(cards))
    ensures |r| == |st.keys|
    ensures forall i :: 0 <= i < |r| ==> r[i] == EntryOf(st, st.stored[st.keys[i]])
  {
    seq(|st.keys|, i requires 0 <= i < |st.keys| => EntryOf(st, st.stored[st.keys[i]]))
  }

  /** Every entry names an item and carries that item's current numbers. */
  predicate Faithful(st: State, es: seq<Entry>) {
    forall i :: 0 <= i < |es| ==> es[i].id < |st.nodes| && es[i] == EntryOf(st, es[i].id)
  }

  /** The sorted array the assembly loop walks. */
  function Ranked(cards: seq<Card>, st: State): (r: seq<Entry>)
    requires Valid(st, KeyList(cards))
    ensures Faithful(st, r)
  {
    var vs := ValueEntries(cards, st);
    var r := Sort(vs);
    forall i | 0 <= i < |r|
      ensures r[i].id < |st.nodes| && r[i] == EntryOf(st, r[i].id)
    {
      assert r[i] in multiset(vs);
    }
    r
  }

  /**
   * The ranking is a permutation of the map's values, ordered as the comparator asks,
   * and equally ranked nodes keep the map's insertion order.
   */
  lemma RankedOrder(cards: seq<Card>, st: State, w: Entry)
    requires Valid(st, KeyList(cards))
    ensures multiset(Ranked(cards, st)) == multiset(ValueEntries(cards, st))
    ensures Sorted(Ranked(cards, st))
    ensures Peers(Ranked(cards, st), w) == Peers(ValueEntries(cards, st), w)
  {
    SortSorted(ValueEntries(cards, st));
    SortStable(ValueEntries(cards, st), w);
  }

  // ---------------------------------------------------------------------------
  // The focus filter

  /** `theSelectedItem`: the item stored under the focus key, when there is one. */
  function Selected(st: State, focus: Option<string>): (r: Option<nat>)
    ensures r.Some? <==> focus.Some? && focus.value in st.stored
    ensures r.Some? ==> r.value == st.stored[focus.value]
  {
    if focus.Some? && focus.value in st.stored then Some(st.stored[focus.value]) else None
  }

  /** `a.checkReferenceSet(b)`: some item `a` references references `b`. */
  predicate Via(st: State, a: nat, b: nat)
    requires a < |st.nodes|
  {
    exists r :: r in st.nodes[a].refs && r < |st.nodes| && b in st.nodes[r].refs
  }

  /**
   * Whether node `a` is drawn: with a focus item, when it is the focus or lies one or two
   * reference steps from it in either direction; otherwise when it has the requested kind.
   */
  predicate Kept(cards: seq<Card>, st: State, req: Request, a: nat)
    requires Fits(cards, st) && a < |cards|
  {
    match Selected(st, req.focus)
    case None => cards[a].kind == req.graphType
    case Some(s) =>
      || cards[a].key == req.focus.value
      || s in st.nodes[a].refs || a in st.nodes[s].refs
      || Via(st, a, s) || Via(st, s, a)
  }

  /** The focus item itself is always drawn. */
  lemma FocusKept(cards: seq<Card>, st: State, req: Request)
    requires Valid(st, KeyList(cards)) && Selected(st, req.focus).Some?
    ensures Selected(st, req.focus).value < |cards|
    ensures Kept(cards, st, req, Selected(st, req.focus).value)
  {
  }

  /** A reference path of one or two steps from `a` to `b`. */
  predicate Reaches(st: State, a: nat, b: nat, steps: nat)
    requires a < |st.nodes|
    decreases steps
  {
    && steps > 0
    && (|| b in st.nodes[a].refs
        || exists r :: r in st.nodes[a].refs && r < |st.nodes| && Reaches(st, r, b, steps - 1))
  }

  /** With a focus item, the filter keeps the focus and everything within two steps of it. */
  lemma KeptNearFocus(cards: seq<Card>, st: State, req: Request, a: nat)
    requires Valid(st, KeyList(cards)) && a < |cards| && Selected(st, req.focus).Some?
    ensures var s := Selected(st, req.focus).value;
            Kept(cards, st, req, a)
            <==> a == s || cards[a].key == cards[s].key || Reaches(st, a, s, 2) || Reaches(st, s, a, 2)
  {
    var s := Selected(st, req.focus).value;
    ReachesTwo(st, a, s);
    ReachesTwo(st, s, a);
  }

  lemma ReachesTwo(st: State, a: nat, b: nat)
    requires a < |st.nodes|
    ensures Reaches(st, a, b, 2) <==> b in st.nodes[a].refs || Via(st, a, b)
  {
    if Via(st, a, b) {
      var r :| r in st.nodes[a].refs && r < |st.nodes| && b in st.nodes[r].refs;
      assert Reaches(st, r, b, 1);
    }
    if Reaches(st, a, b, 2) && b !in st.nodes[a].refs {
      var r :| r in st.nodes[a].refs && r < |st.nodes| && Reaches(st, r, b, 1);
      assert b in st.nodes[r].refs;
    }
  }

  /** The items the loop draws, in ranked order. */
  function KeptIds(cards: seq<Card>, st: State, req: Request, es: seq<Entry>): (r: seq<nat>)
    requires Fits(cards, st) && Faithful(st, es)
    ensures forall i :: 0 <= i < |r| ==> r[i] < |cards|
  {
    if es == [] then []
    else
      var rest := KeptIds(cards, st, req, es[1..]);
      if Kept(cards, st, req, es[0].id) then [es[0].id] + rest else rest
  }

  /** The drawn items are exactly the ranked items that pass the filter. */
  lemma {:induction false} KeptIdsMembers(cards: seq<Card>, st: State, req: Request, es: seq<Entry>, a: nat)
    requires Fits(cards, st) && Faithful(st, es)
    ensures a in KeptIds(cards, st, req, es)
            <==> exists i :: 0 <= i < |es| && es[i].id == a && Kept(cards, st, req, a)
  {
    if es != [] {
      KeptIdsMembers(cards, st, req, es[1..], a);
      if exists i :: 0 <= i < |es| && es[i].id == a && Kept(cards, st, req, a) {
        var i :| 0 <= i < |es| && es[i].id == a && Kept(cards, st, req, a);
        if i > 0 {
          assert es[1..][i - 1].id == a;
        }
      }
      if exists i :: 0 <= i < |es[1..]| && es[1..][i].id == a && Kept(cards, st, req, a) {
        var i :| 0 <= i < |es[1..]| && es[1..][i].id == a && Kept(cards, st, req, a);
        assert es[i + 1].id == a;
      }
    }
  }

  // ---------------------------------------------------------------------------
  // The assembly loop

  /** `listByType`: append a key to its kind's list, creating the list on first use. */
  function AddToGroup(gs: seq<Group>, k: Kind, u: string): (r: seq<Group>)
    ensures |r| == |gs| || |r| == |gs| + 1
  {
    if gs == [] then [Group(k, [u])]
    else if gs[0].kind == k then [gs[0].(members := gs[0].members + [u])] + gs[1..]
    else [gs[0]] + AddToGroup(gs[1..], k, u)
  }

  /** A kind enters `listByType` once, at the end, the first time one of its nodes is listed. */
  lemma {:induction false} AddToGroupKinds(gs: seq<Group>, k: Kind, u: string)
    ensures Kinds(AddToGroup(gs, k, u)) == if k in Kinds(gs) then Kinds(gs) else Kinds(gs) + [k]
  {
    if gs != [] && gs[0].kind != k {
      AddToGroupKinds(gs[1..], k, u);
    }
  }

  /** Adding to one kind's list appends the key to that list and leaves the others alone. */
  lemma {:induction false} AddToGroupMembers(gs: seq<Group>, k: Kind, u: string, k': Kind)
    ensures Members(AddToGroup(gs, k, u), k') == if k' == k then Members(gs, k) + [u] else Members(gs, k')
  {
    if gs != [] && gs[0].kind != k {
      AddToGroupMembers(gs[1..], k, u, k');
    }
  }

  /** The kinds of a `listByType`, in insertion order. */
  function Kinds(gs: seq<Group>): (r: seq<Kind>)
    ensures |r| == |gs|
  {
    if gs == [] then [] else [gs[0].kind] + Kinds(gs[1..])
  }

  /** The keys listed under kind `k`. */
  function Members(gs: seq<Group>, k: Kind): seq<string> {
    if gs == [] then []
    else if gs[0].kind == k then gs[0].members
    else Members(gs[1..], k)
  }

  /** The edges of `a`, each drawn while fewer than `DependencyLimit` have been drawn. */
  function EmitEdges(a: nat, rs: seq<nat>, lay: Layout): (r: Layout)
    ensures r.moreRefs == lay.moreRefs && r.independent == lay.independent && r.groups == lay.groups
    ensures lay.count <= r.count <= lay.count + |rs|
    decreases |rs|
  {
    if rs == [] then lay
    else if lay.count >= DependencyLimit then EmitEdges(a, rs[1..], lay)
    else EmitEdges(a, rs[1..], lay.(lines := lay.lines + [Edge(a, rs[0])], count := lay.count + 1))
  }

  /** A node without references that others reference gets a line of its own. */
  function LoneLine(st: State, a: nat): seq<Line>
    requires a < |st.nodes|
  {
    if |st.nodes[a].refs| == 0 && st.nodes[a].count > 0 then [Lone(a)] else []
  }

  /**
   * The colouring lists: a node without references is listed as independent, and a
   * node is listed as high fan-out when it references six or more items, else under
   * its kind.
   */
  function File(cards: seq<Card>, st: State, a: nat, lay: Layout): (r: Layout)
    requires Fits(cards, st) && a < |cards|
    ensures r.lines == lay.lines && r.count == lay.count
  {
    var rs := st.nodes[a].refs;
    var key := cards[a].key;
    var independent := if |rs| == 0 then lay.independent + [cards[a].display] else lay.independent;
    if |rs| >= 6 then lay.(moreRefs := lay.moreRefs + [key], independent := independent)
    else lay.(groups := AddToGroup(lay.groups, cards[a].kind, key), independent := independent)
  }

  /** The loop body for a node that passed the filter: list it, then draw its lines. */
  function Place(cards: seq<Card>, st: State, a: nat, lay: Layout): Layout
    requires Fits(cards, st) && a < |cards|
  {
    var drawn := EmitEdges(a, st.nodes[a].refs, File(cards, st, a, lay));
    drawn.(lines := drawn.lines + LoneLine(st, a))
  }

  /**
   * `sortedClassReferenceArray.forEach(...)` as written: each ranked entry is tested
   * against the filter and, when it passes, placed; an entry that fails is skipped.
   */
  function Loop(cards: seq<Card>, st: State, req: Request, es: seq<Entry>, lay: Layout): Layout
    requires Fits(cards, st) && Faithful(st, es)
  {
    if es == [] then lay
    else
      var a := es[0].id;
      Loop(cards, st, req, es[1..], if Kept(cards, st, req, a) then Place(cards, st, a, lay) else lay)
  }

  /** The placements alone, over a list of nodes already known to pass the filter. */
  function Walk(cards: seq<Card>, st: State, ids: seq<nat>, lay: Layout): Layout
    requires Fits(cards, st) && forall i :: 0 <= i < |ids| ==> ids[i] < |cards|
  {
    if ids == [] then lay else Walk(cards, st, ids[1..], Place(cards, st, ids[0], lay))
  }

  /**
   * The filter reads only the finished cross-reference map, never the layout, so
   * filtering first and then placing the survivors in order is the same loop.
   */
  lemma {:induction false} LoopIsWalk(cards: seq<Card>, st: State, req: Request, es: seq<Entry>, lay: Layout)
    requires Fits(cards, st) && Faithful(st, es)
    ensures Loop(cards, st, req, es, lay) == Walk(cards, st, KeptIds(cards, st, req, es), lay)
  {
    if es != [] {
      var a := es[0].id;
      var rest := KeptIds(cards, st, req, es[1..]);
      if Kept(cards, st, req, a) {
        LoopIsWalk(cards, st, req, es[1..], Place(cards, st, a, lay));
        WalkStep(cards, st, [a] + rest, lay);
        assert ([a] + rest)[1..] == rest;
      } else {
        LoopIsWalk(cards, st, req, es[1..], lay);
      }
    }
  }

  const Empty: Layout := Layout([], [], [], [], 0)

  /** The assembly is the placement walk over the drawn items, started from nothing. */
  lemma AssembleWalk(cards: seq<Card>, st: State, req: Request)
    requires Valid(st, KeyList(cards))
    ensures Fits(cards, st)
    ensures Assemble(cards, st, req) == Walk(cards, st, KeptIds(cards, st, req, Ranked(cards, st)), Empty)
  {
    ValidFits(cards, st);
    LoopIsWalk(cards, st, req, Ranked(cards, st), Empty);
  }

  /** The assembly of a built state: the loop over the ranked entries, started from nothing. */
  function Assemble(cards: seq<Card>, st: State, req: Request): Layout
    requires Valid(st, KeyList(cards))
  {
    ValidFits(cards, st);
    Loop(cards, st, req, Ranked(cards, st), Empty)
  }

  // ---------------------------------------------------------------------------
  // The would-be graph and the cap

  /** The edges of `a`, one per reference, in reference order. */
  function EdgeLines(a: nat, rs: seq<nat>): (r: seq<Line>)
    ensures |r| == |rs| && forall i :: 0 <= i < |rs| ==> r[i] == Edge(a, rs[i])
  {
    seq(|rs|, i requires 0 <= i < |rs| => Edge(a, rs[i]))
  }

  /** Every line the drawn nodes would contribute without the cap. */
  function WouldBe(st: State, ids: seq<nat>): seq<Line>
    requires forall i :: 0 <= i < |ids| ==> ids[i] < |st.nodes|
  {
    if ids == [] then []
    else EdgeLines(ids[0], st.nodes[ids[0]].refs) + LoneLine(st, ids[0]) + WouldBe(st, ids[1..])
  }

  /** The edge lines of `ls`. */
  function EdgesOf(ls: seq<Line>): (r: seq<Line>)
    ensures |r| <= |ls|
  {
    if ls == [] then [] else (if ls[0].Edge? then [ls[0]] else []) + EdgesOf(ls[1..])
  }

  /** The lone lines of `ls`. */
  function LonesOf(ls: seq<Line>): seq<Line> {
    if ls == [] then [] else (if ls[0].Lone? then [ls[0]] else []) + LonesOf(ls[1..])
  }

  /** `ls` with every edge after the first `budget` edges dropped. */
  function Capped(ls: seq<Line>, budget: nat): seq<Line> {
    if ls == [] then []
    else if ls[0].Lone? then [ls[0]] + Capped(ls[1..], budget)
    else if budget == 0 then Capped(ls[1..], 0)
    else [ls[0]] + Capped(ls[1..], budget - 1)
  }

  function Min(a: nat, b: nat): nat {
    if a <= b then a else b
  }

  /** The cap keeps exactly the first `budget` edges and every lone line. */
  lemma {:induction false} CappedMeaning(ls: seq<Line>, budget: nat)
    ensures EdgesOf(Capped(ls, budget)) == EdgesOf(ls)[..Min(budget, |EdgesOf(ls)|)]
    ensures LonesOf(Capped(ls, budget)) == LonesOf(ls)
  {
    if ls != [] {
      if ls[0].Lone? || budget == 0 {
        CappedMeaning(ls[1..], budget);
      } else {
        CappedMeaning(ls[1..], budget - 1);
      }
    }
  }

  lemma {:induction false} EdgesOfAppend(x: seq<Line>, y: seq<Line>)
    ensures EdgesOf(x + y) == EdgesOf(x) + EdgesOf(y)
  {
    if x != [] {
      assert (x + y)[0] == x[0];
      assert (x + y)[1..] == x[1..] + y;
      EdgesOfAppend(x[1..], y);
    } else {
      assert x + y == y;
    }
  }

  lemma {:induction false} CappedAppend(x: seq<Line>, y: seq<Line>, budget: nat)
    ensures Capped(x + y, budget) == Capped(x, budget) + Capped(y, budget - Min(budget, |EdgesOf(x)|))
  {
    if x != [] {
      assert (x + y)[0] == x[0];
      assert (x + y)[1..] == x[1..] + y;
      var m := |EdgesOf(x[1..])|;
      if x[0].Lone? {
        assert |EdgesOf(x)| == m;
        CappedAppend(x[1..], y, budget);
        Associate([x[0]], Capped(x[1..], budget), Capped(y, budget - Min(budget, m)));
      } else if budget == 0 {
        CappedAppend(x[1..], y, budget);
      } else {
        assert |EdgesOf(x)| == m + 1;
        CappedAppend(x[1..], y, budget - 1);
        Associate([x[0]], Capped(x[1..], budget - 1), Capped(y, budget - 1 - Min(budget - 1, m)));
      }
    } else {
      assert x + y == y;
    }
  }

  lemma {:induction false} CappedEdgeLines(a: nat, rs: seq<nat>, budget: nat)
    ensures |EdgesOf(EdgeLines(a, rs))| == |rs|
    ensures Capped(EdgeLines(a, rs), budget) == EdgeLines(a, rs[..Min(budget, |rs|)])
  {
    if rs != [] {
      assert EdgeLines(a, rs)[1..] == EdgeLines(a, rs[1..]);
      if budget == 0 {
        CappedEdgeLines(a, rs[1..], 0);
      } else {
        CappedEdgeLines(a, rs[1..], budget - 1);
        assert rs[..Min(budget, |rs|)] == [rs[0]] + rs[1..][..Min(budget - 1, |rs| - 1)];
      }
    }
  }

  /** Drawing a node's edges draws as many of them, in order, as the budget allows. */
  lemma {:induction false} EmitPrefix(a: nat, rs: seq<nat>, lay: Layout)
    requires lay.count <= DependencyLimit
    ensures var m := Min(DependencyLimit - lay.count, |rs|);
            EmitEdges(a, rs, lay) == lay.(lines := lay.lines + EdgeLines(a, rs[..m]), count := lay.count + m)
    decreases |rs|
  {
    if rs == [] {
      assert lay.lines + EdgeLines(a, []) == lay.lines;
    } else if lay.count >= DependencyLimit {
      EmitPrefix(a, rs[1..], lay);
    } else {
      var lay' := lay.(lines := lay.lines + [Edge(a, rs[0])], count := lay.count + 1);
      EmitPrefix(a, rs[1..], lay');
      var m := Min(DependencyLimit - lay.count, |rs|);
      assert Min(DependencyLimit - lay'.count, |rs[1..]|) == m - 1;
      EdgeLinesStep(a, rs, m);
      Associate(lay.lines, [Edge(a, rs[0])], EdgeLines(a, rs[1..][..m - 1]));
    }
  }

  /** The edges of a non-empty prefix: the first edge, then the rest's. */
  lemma EdgeLinesStep(a: nat, rs: seq<nat>, m: nat)
    requires 0 < m <= |rs|
    ensures EdgeLines(a, rs[..m]) == [Edge(a, rs[0])] + EdgeLines(a, rs[1..][..m - 1])
  {
    assert rs[..m] == [rs[0]] + rs[1..][..m - 1];
  }

  /** Drawing a node's edges draws the capped prefix of them. */
  lemma EmitCapped(a: nat, rs: seq<nat>, lay: Layout)
    requires lay.count <= DependencyLimit
    ensures var budget := DependencyLimit - lay.count;
            EmitEdges(a, rs, lay)
            == lay.(lines := lay.lines + Capped(EdgeLines(a, rs), budget), count := lay.count + Min(budget, |rs|))
  {
    EmitPrefix(a, rs, lay);
    CappedEdgeLines(a, rs, DependencyLimit - lay.count);
  }

  /** Lone lines are never capped. */
  lemma LoneUncapped(st: State, a: nat, budget: nat)
    requires a < |st.nodes|
    ensures Capped(LoneLine(st, a), budget) == LoneLine(st, a)
    ensures EdgesOf(LoneLine(st, a)) == []
  {
  }

  /** Placing one node adds its capped edges, then its lone line. */
  lemma PlaceLines(cards: seq<Card>, st: State, a: nat, lay: Layout)
    requires Fits(cards, st) && a < |cards| && lay.count <= DependencyLimit
    ensures var budget := DependencyLimit - lay.count;
            var own := EdgeLines(a, st.nodes[a].refs) + LoneLine(st, a);
            && Place(cards, st, a, lay).lines == lay.lines + Capped(own, budget)
            && Place(cards, st, a, lay).count == lay.count + Min(budget, |EdgesOf(own)|)
  {
    var rs := st.nodes[a].refs;
    var budget := DependencyLimit - lay.count;
    EmitCapped(a, rs, File(cards, st, a, lay));
    CappedAppend(EdgeLines(a, rs), LoneLine(st, a), budget);
    CappedEdgeLines(a, rs, budget);
    EdgesOfAppend(EdgeLines(a, rs), LoneLine(st, a));
    LoneUncapped(st, a, budget - Min(budget, |rs|));
    Associate(lay.lines, Capped(EdgeLines(a, rs), budget), LoneLine(st, a));
  }

  /** The would-be lines of a non-empty list: the first node's, then the rest's. */
  lemma WouldBeStep(st: State, ids: seq<nat>)
    requires (forall i :: 0 <= i < |ids| ==> ids[i] < |st.nodes|) && ids != []
    ensures WouldBe(st, ids) == (EdgeLines(ids[0], st.nodes[ids[0]].refs) + LoneLine(st, ids[0])) + WouldBe(st, ids[1..])
  {
  }

  /**
   * The loop draws the capped would-be graph: its lines are the would-be lines with
   * every edge past the limit dropped, and its count is the number of edges kept.
   */
  lemma {:induction false} WalkCount(cards: seq<Card>, st: State, ids: seq<nat>, lay: Layout)
    requires Fits(cards, st) && (forall i :: 0 <= i < |ids| ==> ids[i] < |cards|) && lay.count <= DependencyLimit
    ensures Walk(cards, st, ids, lay).count
            == lay.count + Min(DependencyLimit - lay.count, |EdgesOf(WouldBe(st, ids))|)
  {
    if ids != [] {
      var a := ids[0];
      var own := EdgeLines(a, st.nodes[a].refs) + LoneLine(st, a);
      var rest := WouldBe(st, ids[1..]);
      var next := Place(cards, st, a, lay);
      WalkStep(cards, st, ids, lay);
      WouldBeStep(st, ids);
      PlaceLines(cards, st, a, lay);
      WalkCount(cards, st, ids[1..], next);
      EdgesOfAppend(own, rest);
    }
  }

  lemma {:induction false} WalkLines(cards: seq<Card>, st: State, ids: seq<nat>, lay: Layout)
    requires Fits(cards, st) && (forall i :: 0 <= i < |ids| ==> ids[i] < |cards|) && lay.count <= DependencyLimit
    ensures Walk(cards, st, ids, lay).lines == lay.lines + Capped(WouldBe(st, ids), DependencyLimit - lay.count)
  {
    if ids != [] {
      var a := ids[0];
      var budget := DependencyLimit - lay.count;
      var own := EdgeLines(a, st.nodes[a].refs) + LoneLine(st, a);
      var rest := WouldBe(st, ids[1..]);
      var next := Place(cards, st, a, lay);
      WalkStep(cards, st, ids, lay);
      WouldBeStep(st, ids);
      PlaceLines(cards, st, a, lay);
      var left := budget - Min(budget, |EdgesOf(own)|);
      assert DependencyLimit - next.count == left;
      WalkLines(cards, st, ids[1..], next);
      assert Walk(cards, st, ids, lay).lines == (lay.lines + Capped(own, budget)) + Capped(rest, left);
      CappedAppend(own, rest, budget);
      Associate(lay.lines, Capped(own, budget), Capped(rest, left));
    }
  }

  /** The lines the filtered graph would have without the cap. */
  function Uncapped(cards: seq<Card>, st: State, req: Request): seq<Line>
    requires Valid(st, KeyList(cards))
  {
    ValidFits(cards, st);
    WouldBe(st, KeptIds(cards, st, req, Ranked(cards, st)))
  }

  /**
   * The 700-edge cap: the edges drawn are the first `min(700, n)` of the `n` edges the
   * filtered graph has, every lone line is drawn, and the count is the number drawn.
   */
  lemma AssembleCap(cards: seq<Card>, st: State, req: Request)
    requires Valid(st, KeyList(cards))
    ensures Fits(cards, st)
    ensures var lay := Assemble(cards, st, req);
            var w := WouldBe(st, KeptIds(cards, st, req, Ranked(cards, st)));
            && EdgesOf(lay.lines) == EdgesOf(w)[..Min(DependencyLimit, |EdgesOf(w)|)]
            && LonesOf(lay.lines) == LonesOf(w)
            && lay.count == Min(DependencyLimit, |EdgesOf(w)|)
            && lay.count <= DependencyLimit
  {
    AssembleWalk(cards, st, req);
    var ids := KeptIds(cards, st, req, Ranked(cards, st));
    var w := WouldBe(st, ids);
    var lay := Walk(cards, st, ids, Empty);
    WalkLines(cards, st, ids, Empty);
    EmptyLeft(Capped(w, DependencyLimit));
    assert lay.lines == Capped(w, DependencyLimit);
    WalkCount(cards, st, ids, Empty);
    assert lay.count == Min(DependencyLimit, |EdgesOf(w)|);
    CappedMeaning(w, DependencyLimit);
  }

  // ---------------------------------------------------------------------------
  // The colouring lists

  /** The keys of the nodes with six or more references, in drawing order. */
  function HighFanOut(cards: seq<Card>, st: State, ids: seq<nat>): seq<string>
    requires Fits(cards, st) && forall i :: 0 <= i < |ids| ==> ids[i] < |cards|
  {
    if ids == [] then []
    else (if |st.nodes[ids[0]].refs| >= 6 then [cards[ids[0]].key] else []) + HighFanOut(cards, st, ids[1..])
  }

  /** The keys of the nodes of kind `k` with fewer than six references, in drawing order. */
  function LowFanOut(cards: seq<Card>, st: State, ids: seq<nat>, k: Kind): seq<string>
    requires Fits(cards, st) && forall i :: 0 <= i < |ids| ==> ids[i] < |cards|
  {
    if ids == [] then []
    else
      var a := ids[0];
      (if |st.nodes[a].refs| < 6 && cards[a].kind == k then [cards[a].key] else []) + LowFanOut(cards, st, ids[1..], k)
  }

  /** The labels of the nodes without references, in drawing order. */
  function Standalone(cards: seq<Card>, st: State, ids: seq<nat>): seq<string>
    requires Fits(cards, st) && forall i :: 0 <= i < |ids| ==> ids[i] < |cards|
  {
    if ids == [] then []
    else (if |st.nodes[ids[0]].refs| == 0 then [cards[ids[0]].display] else []) + Standalone(cards, st, ids[1..])
  }

  /** One turn of the loop. */
  lemma WalkStep(cards: seq<Card>, st: State, ids: seq<nat>, lay: Layout)
    requires Fits(cards, st) && (forall i :: 0 <= i < |ids| ==> ids[i] < |cards|) && ids != []
    ensures forall i :: 0 <= i < |ids[1..]| ==> ids[1..][i] < |cards|
    ensures Walk(cards, st, ids, lay) == Walk(cards, st, ids[1..], Place(cards, st, ids[0], lay))
  {
  }

  /** What placing one node adds to the colouring lists. */
  lemma PlaceLists(cards: seq<Card>, st: State, a: nat, lay: Layout)
    requires Fits(cards, st) && a < |cards|
    ensures var rs := st.nodes[a].refs;
            var r := Place(cards, st, a, lay);
            && r.moreRefs == lay.moreRefs + (if |rs| >= 6 then [cards[a].key] else [])
            && r.independent == lay.independent + (if |rs| == 0 then [cards[a].display] else [])
            && r.groups == (if |rs| >= 6 then lay.groups else AddToGroup(lay.groups, cards[a].kind, cards[a].key))
  {
  }

  /** The loop appends each drawn node with six or more references to the high-fan-out list. */
  lemma {:induction false} WalkMoreRefs(cards: seq<Card>, st: State, ids: seq<nat>, lay: Layout)
    requires Fits(cards, st) && forall i :: 0 <= i < |ids| ==> ids[i] < |cards|
    ensures Walk(cards, st, ids, lay).moreRefs == lay.moreRefs + HighFanOut(cards, st, ids)
  {
    if ids != [] {
      var a := ids[0];
      var next := Place(cards, st, a, lay);
      var own := if |st.nodes[a].refs| >= 6 then [cards[a].key] else [];
      WalkStep(cards, st, ids, lay);
      PlaceLists(cards, st, a, lay);
      WalkMoreRefs(cards, st, ids[1..], next);
      assert HighFanOut(cards, st, ids) == own + HighFanOut(cards, st, ids[1..]);
      Associate(lay.moreRefs, own, HighFanOut(cards, st, ids[1..]));
    }
  }

  /** Placing one node appends its key to its kind's list when it has fewer than six references. */
  lemma PlaceMembers(cards: seq<Card>, st: State, a: nat, lay: Layout, k: Kind)
    requires Fits(cards, st) && a < |cards|
    ensures Members(Place(cards, st, a, lay).groups, k)
            == Members(lay.groups, k) + (if |st.nodes[a].refs| < 6 && cards[a].kind == k then [cards[a].key] else [])
  {
    PlaceLists(cards, st, a, lay);
    AddToGroupMembers(lay.groups, cards[a].kind, cards[a].key, k);
  }

  /** The loop appends each other drawn node to the list of its kind. */
  lemma {:induction false} WalkMembers(cards: seq<Card>, st: State, ids: seq<nat>, lay: Layout, k: Kind)
    requires Fits(cards, st) && forall i :: 0 <= i < |ids| ==> ids[i] < |cards|
    ensures Members(Walk(cards, st, ids, lay).groups, k) == Members(lay.groups, k) + LowFanOut(cards, st, ids, k)
  {
    if ids != [] {
      var a := ids[0];
      var next := Place(cards, st, a, lay);
      var own := if |st.nodes[a].refs| < 6 && cards[a].kind == k then [cards[a].key] else [];
      WalkStep(cards, st, ids, lay);
      PlaceMembers(cards, st, a, lay, k);
      WalkMembers(cards, st, ids[1..], next, k);
      assert LowFanOut(cards, st, ids, k) == own + LowFanOut(cards, st, ids[1..], k);
      Associate(Members(lay.groups, k), own, LowFanOut(cards, st, ids[1..], k));
    }
  }

  /** The loop lists exactly the drawn nodes without references as independent. */
  lemma {:induction false} WalkStandalone(cards: seq<Card>, st: State, ids: seq<nat>, lay: Layout)
    requires Fits(cards, st) && forall i :: 0 <= i < |ids| ==> ids[i] < |cards|
    ensures Walk(cards, st, ids, lay).independent == lay.independent + Standalone(cards, st, ids)
  {
    if ids != [] {
      var a := ids[0];
      var next := Place(cards, st, a, lay);
      var own := if |st.nodes[a].refs| == 0 then [cards[a].display] else [];
      WalkStep(cards, st, ids, lay);
      PlaceLists(cards, st, a, lay);
      WalkStandalone(cards, st, ids[1..], next);
      assert Standalone(cards, st, ids) == own + Standalone(cards, st, ids[1..]);
      Associate(lay.independent, own, Standalone(cards, st, ids[1..]));
    }
  }

  /** Placing one node lists its kind when it has fewer than six references and the kind is new. */
  lemma PlaceKinds(cards: seq<Card>, st: State, a: nat, lay: Layout)
    requires Fits(cards, st) && a < |cards|
    ensures var low := |st.nodes[a].refs| < 6;
            Kinds(Place(cards, st, a, lay).groups)
            == if low && cards[a].kind !in Kinds(lay.groups) then Kinds(lay.groups) + [cards[a].kind] else Kinds(lay.groups)
  {
    PlaceLists(cards, st, a, lay);
    AddToGroupKinds(lay.groups, cards[a].kind, cards[a].key);
  }

  /**
   * A kind is listed once, and it is listed exactly when some drawn node of that kind
   * has fewer than six references.
   */
  lemma {:induction false} WalkKinds(cards: seq<Card>, st: State, ids: seq<nat>, lay: Layout, k: Kind)
    requires Fits(cards, st) && forall i :: 0 <= i < |ids| ==> ids[i] < |cards|
    ensures NoDup(Kinds(lay.groups)) ==> NoDup(Kinds(Walk(cards, st, ids, lay).groups))
    ensures k in Kinds(Walk(cards, st, ids, lay).groups) <==> k in Kinds(lay.groups) || LowFanOut(cards, st, ids, k) != []
  {
    if ids != [] {
      var a := ids[0];
      var next := Place(cards, st, a, lay);
      var low := |st.nodes[a].refs| < 6;
      WalkStep(cards, st, ids, lay);
      PlaceKinds(cards, st, a, lay);
      if NoDup(Kinds(lay.groups)) && low && cards[a].kind !in Kinds(lay.groups) {
        assert NoDup(Kinds(lay.groups) + [cards[a].kind]);
      }
      WalkKinds(cards, st, ids[1..], next, k);
      assert LowFanOut(cards, st, ids, k) != []
             <==> (low && cards[a].kind == k) || LowFanOut(cards, st, ids[1..], k) != [];
    }
  }

  /**
   * The colouring lists of the assembled graph: the high-fan-out keys, each kind's list
   * of the remaining keys (a kind listed once, and only when its list is non-empty),
   * and the independent labels, all in drawing order.
   */
  lemma AssembleLists(cards: seq<Card>, st: State, req: Request, k: Kind)
    requires Valid(st, KeyList(cards))
    ensures Fits(cards, st)
    ensures var lay := Assemble(cards, st, req);
            var ids := KeptIds(cards, st, req, Ranked(cards, st));
            && lay.moreRefs == HighFanOut(cards, st, ids)
            && lay.independent == Standalone(cards, st, ids)
            && Members(lay.groups, k) == LowFanOut(cards, st, ids, k)
            && NoDup(Kinds(lay.groups))
            && (k in Kinds(lay.groups) <==> LowFanOut(cards, st, ids, k) != [])
  {
    AssembleWalk(cards, st, req);
    var ids := KeptIds(cards, st, req, Ranked(cards, st));
    WalkMoreRefs(cards, st, ids, Empty);
    EmptyLeft(HighFanOut(cards, st, ids));
    WalkMembers(cards, st, ids, Empty, k);
    EmptyLeft(LowFanOut(cards, st, ids, k));
    WalkStandalone(cards, st, ids, Empty);
    EmptyLeft(Standalone(cards, st, ids));
    WalkKinds(cards, st, ids, Empty, k);
  }

  // ---------------------------------------------------------------------------
  // Mermaid text

  /** The label reduction: `labels.reduce((prev, next) => prev + '<br>' + next, '')`. */
  function Reduce(labels: seq<string>): string {
    if labels == [] then "" else Reduce(labels[..|labels| - 1]) + "<br>" + labels[|labels| - 1]
  }

  /** Because the reduction starts from the empty string, it puts a break before every label. */
  lemma {:induction false} ReduceJoin(labels: seq<string>)
    requires labels != []
    ensures Reduce(labels) == "<br>" + Join(labels, "<br>")
    decreases |labels|
  {
    var n := |labels|;
    if n > 1 {
      var init := labels[..n - 1];
      ReduceJoin(init);
      JoinSnoc(init, labels[n - 1], "<br>");
      assert init + [labels[n - 1]] == labels;
    }
  }

  /** Joining a list with one more element at its end. */
  lemma {:induction false} JoinSnoc(xs: seq<string>, x: string, sep: string)
    requires xs != []
    ensures Join(xs + [x], sep) == Join(xs, sep) + sep + x
    decreases |xs|
  {
    if |xs| > 1 {
      assert (xs + [x])[1..] == xs[1..] + [x];
      JoinSnoc(xs[1..], x, sep);
    }
  }

  /** `getFormattedMethodReferenceStringList`: the node's label with its usage labels. */
  function Formatted(card: Card, labels: seq<string>): string {
    if labels == [] then "(" + card.display + ")"
    else "(" + card.display + "<br>" + Reduce(labels) + ")"
  }

  /** With usage labels the label is the name, an empty line, then one label per line. */
  lemma FormattedLabels(card: Card, labels: seq<string>)
    requires labels != []
    ensures Formatted(card, labels) == "(" + card.display + "<br><br>" + Join(labels, "<br>") + ")"
  {
    ReduceJoin(labels);
  }

  lemma InRangeAppend(n: nat, x: seq<Line>, y: seq<Line>)
    requires InRange(n, x) && InRange(n, y)
    ensures InRange(n, x + y)
  {
    forall i | 0 <= i < |x + y|
      ensures ((x + y)[i].Edge? ==> (x + y)[i].from < n && (x + y)[i].to < n)
              && ((x + y)[i].Lone? ==> (x + y)[i].node < n)
    {
      if i >= |x| {
        assert (x + y)[i] == y[i - |x|];
      }
    }
  }

  lemma {:induction false} CappedInRange(n: nat, ls: seq<Line>, budget: nat)
    requires InRange(n, ls)
    ensures InRange(n, Capped(ls, budget))
  {
    if ls != [] {
      assert InRange(n, ls[1..]);
      assert InRange(n, [ls[0]]);
      if ls[0].Lone? {
        CappedInRange(n, ls[1..], budget);
        InRangeAppend(n, [ls[0]], Capped(ls[1..], budget));
      } else if budget == 0 {
        CappedInRange(n, ls[1..], 0);
      } else {
        CappedInRange(n, ls[1..], budget - 1);
        InRangeAppend(n, [ls[0]], Capped(ls[1..], budget - 1));
      }
    }
  }

  lemma {:induction false} WouldBeInRange(cards: seq<Card>, st: State, ids: seq<nat>)
    requires Fits(cards, st) && forall i :: 0 <= i < |ids| ==> ids[i] < |cards|
    ensures InRange(|cards|, WouldBe(st, ids))
  {
    if ids != [] {
      var a := ids[0];
      var rs := st.nodes[a].refs;
      assert Below(rs, |cards|);
      assert InRange(|cards|, EdgeLines(a, rs));
      assert InRange(|cards|, LoneLine(st, a));
      WouldBeInRange(cards, st, ids[1..]);
      InRangeAppend(|cards|, EdgeLines(a, rs), LoneLine(st, a));
      InRangeAppend(|cards|, EdgeLines(a, rs) + LoneLine(st, a), WouldBe(st, ids[1..]));
    }
  }

  /** Every line the assembly draws names items of the catalog. */
  lemma AssembleInRange(cards: seq<Card>, st: State, req: Request)
    requires Valid(st, KeyList(cards))
    ensures Fits(cards, st)
    ensures InRange(|cards|, Assemble(cards, st, req).lines)
  {
    AssembleWalk(cards, st, req);
    var ids := KeptIds(cards, st, req, Ranked(cards, st));
    WalkLines(cards, st, ids, Empty);
    EmptyLeft(Capped(WouldBe(st, ids), DependencyLimit));
    WouldBeInRange(cards, st, ids);
    CappedInRange(|cards|, WouldBe(st, ids), DependencyLimit);
  }

  /** A definition is empty exactly when it has no line: every line's text ends in a newline. */
  lemma DefinitionEmpty(cards: seq<Card>, st: State, ls: seq<Line>)
    requires Fits(cards, st) && InRange(|cards|, ls)
    ensures Definition(cards, st, ls) == "" <==> ls == []
  {
    if ls != [] {
      assert |LineText(cards, st, ls[0])| > 0;
    }
  }

  /** The Mermaid text of one line. */
  function LineText(cards: seq<Card>, st: State, l: Line): (t: string)
    requires Fits(cards, st)
    requires l.Edge? ==> l.from < |cards| && l.to < |cards|
    requires l.Lone? ==> l.node < |cards|
    ensures |t| > 0 && t[|t| - 1] == '\n'
  {
    match l
    case Edge(a, r) =>
      cards[a].key + "(" + cards[a].display + ") --> " + cards[r].key + Formatted(cards[r], st.nodes[r].labels) + "\n"
    case Lone(a) => cards[a].key + "(" + cards[a].display + ")\n"
  }

  /** Every line names items of the catalog. */
  predicate InRange(n: nat, ls: seq<Line>) {
    forall i :: 0 <= i < |ls| ==>
      (ls[i].Edge? ==> ls[i].from < n && ls[i].to < n) && (ls[i].Lone? ==> ls[i].node < n)
  }

  /** `graphDefinition`: the lines' texts, one after the other. */
  function Definition(cards: seq<Card>, st: State, ls: seq<Line>): (t: string)
    requires Fits(cards, st) && InRange(|cards|, ls)
  {
    if ls == [] then "" else LineText(cards, st, ls[0]) + Definition(cards, st, ls[1..])
  }

  /** The definition is empty exactly when there is no line, and it has one newline per line. */
  lemma {:induction false} DefinitionLines(cards: seq<Card>, st: State, ls: seq<Line>)
    requires Fits(cards, st) && InRange(|cards|, ls)
    requires forall i :: 0 <= i < |cards| ==> '\n' !in cards[i].key && '\n' !in cards[i].display
    requires forall i :: 0 <= i < |cards| ==> forall l :: l in st.nodes[i].labels ==> '\n' !in l
    ensures Definition(cards, st, ls) == "" <==> ls == []
    ensures |Split(Definition(cards, st, ls), '\n')| == |ls| + 1
  {
    if ls != [] {
      DefinitionLines(cards, st, ls[1..]);
      var t := LineText(cards, st, ls[0]);
      var body := t[..|t| - 1];
      LineTextOneLine(cards, st, ls[0]);
      assert t == body + ['\n'];
      SplitAfter(body, '\n', Definition(cards, st, ls[1..]));
      assert Definition(cards, st, ls) == body + "\n" + Definition(cards, st, ls[1..]);
    }
  }

  /** A line's text has its newline at the end only. */
  lemma LineTextOneLine(cards: seq<Card>, st: State, l: Line)
    requires Fits(cards, st)
    requires l.Edge? ==> l.from < |cards| && l.to < |cards|
    requires l.Lone? ==> l.node < |cards|
    requires forall i :: 0 <= i < |cards| ==> '\n' !in cards[i].key && '\n' !in cards[i].display
    requires forall i :: 0 <= i < |cards| ==> forall l :: l in st.nodes[i].labels ==> '\n' !in l
    ensures var t := LineText(cards, st, l); '\n' !in t[..|t| - 1]
  {
    match l
    case Edge(a, r) =>
      LabelsOneLine(cards[r], st.nodes[r].labels);
    case Lone(a) =>
  }

  lemma LabelsOneLine(card: Card, labels: seq<string>)
    requires '\n' !in card.display
    requires forall l :: l in labels ==> '\n' !in l
    ensures '\n' !in Formatted(card, labels)
  {
    if labels != [] {
      ReduceOneLine(labels);
    }
  }

  lemma {:induction false} ReduceOneLine(labels: seq<string>)
    requires forall l :: l in labels ==> '\n' !in l
    ensures '\n' !in Reduce(labels)
    decreases |labels|
  {
    if labels != [] {
      var n := |labels|;
      assert labels[n - 1] in labels;
      ReduceOneLine(labels[..n - 1]);
    }
  }
}
