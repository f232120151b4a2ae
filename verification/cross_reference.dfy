/**
 * The cross-reference builder: the nested loop at the heart of `createGraph`.
 *
 * Every catalog item in turn scans its own text. An item is an index into the catalog,
 * which stands in for object identity: a Visualforce page and a Visualforce component
 * with the same name share a key but are different items. Each item carries
 *   - `refs`: the items it references, in the order first found (a `Set` of objects);
 *   - `count`: how many times it was found by a scan (`referencedCount`);
 *   - `labels`: how classes are used, in the order first found (`methodReferencesSet`).
 * The cross-reference map is its keys in first-insertion order (`Map.set` on a present
 * key keeps the key's place) together with the item each key was last set to.
 *
 * What each scanner finds in its text is computed once, as a `Survey`, so that the
 * fold itself only moves facts about indices around.
 * Source: src/dependencyGraph.js:389-480.
 */
module CrossReference {
  import opened Maybe
  import opened Seqs
  import opened Strings
  import opened ItemTypes
  import opened Catalog
  import opened Detector

  /** The graph asked for: a kind, and the focus item's name when one was selected. */
  datatype Request = Request(graphType: Kind, focus: Option<string>)

  datatype Node = Node(refs: seq<nat>, count: nat, labels: seq<string>)

  datatype State = State(nodes: seq<Node>, keys: seq<string>, stored: map<string, nat>)

  /**
   * Per item: its kind and key, whether its text is non-empty, and for every other
   * item whether its text reveals that item and which label it would give it.
   */
  datatype Survey = Survey(
    kinds: seq<Kind>, keys: seq<string>, active: seq<bool>,
    hit: seq<seq<bool>>, lab: seq<seq<Option<string>>>)

  predicate Shaped(sv: Survey) {
    var n := |sv.kinds|;
    && |sv.keys| == n && |sv.active| == n && |sv.hit| == n && |sv.lab| == n
    && (forall i :: 0 <= i < n ==> |sv.hit[i]| == n && |sv.lab[i]| == n)
  }

  /** Whether the scanner `i` finds item `j` in its text. */
  predicate Hit(items: seq<Item>, texts: seq<string>, i: nat, j: nat)
    requires i < |items| && j < |items| && |texts| == |items|
  {
    Key(items[j]) != Key(items[i]) && Contains(texts[i], Search(items[j]))
  }

  /** The label a class found by scanner `i` receives, if any. */
  function LabelOf(items: seq<Item>, texts: seq<string>, i: nat, j: nat): Option<string>
    requires i < |items| && j < |items| && |texts| == |items|
  {
    ReferenceLabel(items[i].kind, texts[i], items[j].name)
  }

  /** What every item finds in its text. */
  function SurveyOf(items: seq<Item>, texts: seq<string>): (sv: Survey)
    requires |texts| == |items|
    ensures Shaped(sv) && |sv.kinds| == |items|
    ensures forall i :: 0 <= i < |items| ==>
              sv.kinds[i] == items[i].kind && sv.keys[i] == Key(items[i]) && (sv.active[i] <==> texts[i] != "")
    ensures forall i, j :: 0 <= i < |items| && 0 <= j < |items| ==>
              (sv.hit[i][j] <==> Hit(items, texts, i, j)) && sv.lab[i][j] == LabelOf(items, texts, i, j)
  {
    var n := |items|;
    Survey(
      seq(n, i requires 0 <= i < n => items[i].kind),
      seq(n, i requires 0 <= i < n => Key(items[i])),
      seq(n, i requires 0 <= i < n => texts[i] != ""),
      seq(n, i requires 0 <= i < n => seq(n, j requires 0 <= j < n => Hit(items, texts, i, j))),
      seq(n, i requires 0 <= i < n => seq(n, j requires 0 <= j < n => LabelOf(items, texts, i, j))))
  }

  predicate NoDup<T(==)>(s: seq<T>) {
    forall a, b :: 0 <= a < b < |s| ==> s[a] != s[b]
  }

  /** `Set.prototype.add` on an insertion-ordered set. */
  function AddNew<T(==)>(s: seq<T>, x: T): (r: seq<T>)
    ensures s <= r && x in r
    ensures forall y :: y in r ==> y in s || y == x
    ensures NoDup(s) ==> NoDup(r)
  {
    if x in s then s else s + [x]
  }

  function Ind(b: bool): nat {
    if b then 1 else 0
  }

  // ---------------------------------------------------------------------------
  // The fold

  function Init(n: nat): (st: State)
    ensures |st.nodes| == n
  {
    State(seq(n, _ => Node([], 0, [])), [], map[])
  }

  /** `crossReferenceMap.set(key, items[x])`. */
  function Store(st: State, key: string, x: nat): (r: State)
    ensures r.nodes == st.nodes && st.keys <= r.keys
    ensures forall k :: k in r.stored <==> k in st.stored || k == key
  {
    var keys := if key in st.stored then st.keys else st.keys + [key];
    State(st.nodes, keys, st.stored[key := x])
  }

  /** What one hit does: count it, label it, store it, and add it to the scanner's references. */
  function Visit(sv: Survey, st: State, i: nat, j: nat, tag: Option<string>): (r: State)
    requires Shaped(sv) && |st.nodes| == |sv.kinds| && i < |sv.kinds| && j < |sv.kinds|
    ensures |r.nodes| == |st.nodes|
  {
    var nj := st.nodes[j];
    var labels := if tag.Some? then AddNew(nj.labels, tag.value) else nj.labels;
    var nodes := st.nodes[j := nj.(count := nj.count + 1, labels := labels)];
    var nodes := nodes[i := nodes[i].(refs := AddNew(nodes[i].refs, j))];
    Store(st.(nodes := nodes), sv.keys[j], j)
  }

  predicate Below(cands: seq<nat>, n: nat) {
    forall k :: 0 <= k < |cands| ==> cands[k] < n
  }

  /** The tag a scan attaches to a found item: the class scan's label, or nothing. */
  function TagOf(sv: Survey, i: nat, j: nat, withLabels: bool): Option<string>
    requires Shaped(sv) && i < |sv.kinds| && j < |sv.kinds|
  {
    if withLabels then sv.lab[i][j] else None
  }

  /**
   * One `forEach` over a candidate list: every candidate the scanner finds is visited;
   * the class scan also records the label of each class found.
   */
  function ScanFrom(sv: Survey, i: nat, cands: seq<nat>, withLabels: bool, st: State): (r: State)
    requires Shaped(sv) && |st.nodes| == |sv.kinds| && i < |sv.kinds| && Below(cands, |sv.kinds|)
    ensures |r.nodes| == |st.nodes|
    decreases |cands|
  {
    if cands == [] then st
    else
      var j := cands[0];
      var st' := if sv.hit[i][j] then Visit(sv, st, i, j, TagOf(sv, i, j, withLabels)) else st;
      ScanFrom(sv, i, cands[1..], withLabels, st')
  }

  /** The indices of the items of kind `k`, in catalog order: that kind's item list. */
  function IndicesOf(kinds: seq<Kind>, k: Kind, from: nat): (r: seq<nat>)
    ensures NoDup(r) && Below(r, |kinds|)
    ensures forall j :: j in r <==> from <= j < |kinds| && kinds[j] == k
    decreases |kinds| - from
  {
    if from >= |kinds| then []
    else
      var rest := IndicesOf(kinds, k, from + 1);
      if kinds[from] == k then [from] + rest else rest
  }

  /**
   * Whether the same-type scan runs for a scanner of kind `k`: always when a focus was
   * selected, otherwise only for the requested kind, and never for classes or triggers.
   */
  predicate SameTypeRuns(req: Request, k: Kind) {
    req.focus.Some? || (k == req.graphType && k != Class && k != Trigger)
  }

  /**
   * The body of `itemListForType.forEach`: an item with empty text is skipped;
   * otherwise the same-type scan (when it runs), the class scan, and the item is stored.
   */
  function Process(sv: Survey, req: Request, st: State, i: nat): (r: State)
    requires Shaped(sv) && |st.nodes| == |sv.kinds| && i < |sv.kinds|
    ensures |r.nodes| == |st.nodes|
  {
    if !sv.active[i] then st
    else
      var k := sv.kinds[i];
      var st1 := if SameTypeRuns(req, k) then ScanFrom(sv, i, IndicesOf(sv.kinds, k, 0), false, st) else st;
      var st2 := ScanFrom(sv, i, IndicesOf(sv.kinds, Class, 0), true, st1);
      Store(st2, sv.keys[i], i)
  }

  /** The state after the first `n` items of the catalog have scanned their texts. */
  function Built(sv: Survey, req: Request, n: nat): (st: State)
    requires Shaped(sv) && n <= |sv.kinds|
    ensures |st.nodes| == |sv.kinds|
  {
    if n == 0 then Init(|sv.kinds|) else Process(sv, req, Built(sv, req, n - 1), n - 1)
  }

  /** `createGraph`'s build loop over the whole catalog. */
  function Build(items: seq<Item>, texts: seq<string>, req: Request): (st: State)
    requires |texts| == |items|
    ensures |st.nodes| == |items|
  {
    var sv := SurveyOf(items, texts);
    Built(sv, req, |items|)
  }

  // ---------------------------------------------------------------------------
  // Relations the build realises

  /** Scanner `i` finds `j` in its same-type scan. */
  predicate SameTypeHit(sv: Survey, req: Request, i: nat, j: nat)
    requires Shaped(sv) && i < |sv.kinds| && j < |sv.kinds|
  {
    sv.active[i] && SameTypeRuns(req, sv.kinds[i]) && sv.kinds[j] == sv.kinds[i] && sv.hit[i][j]
  }

  /** Scanner `i` finds class `j` in its class scan. */
  predicate ClassHit(sv: Survey, i: nat, j: nat)
    requires Shaped(sv) && i < |sv.kinds| && j < |sv.kinds|
  {
    sv.active[i] && sv.kinds[j] == Class && sv.hit[i][j]
  }

  /** `j` ends up among the references of `i`. */
  predicate Linked(sv: Survey, req: Request, i: nat, j: nat)
    requires Shaped(sv) && i < |sv.kinds| && j < |sv.kinds|
  {
    SameTypeHit(sv, req, i, j) || ClassHit(sv, i, j)
  }

  /** How many times scanner `i` counts `j`: once per scan that finds it. */
  function Hits(sv: Survey, req: Request, i: nat, j: nat): nat
    requires Shaped(sv) && i < |sv.kinds| && j < |sv.kinds|
  {
    Ind(SameTypeHit(sv, req, i, j)) + Ind(ClassHit(sv, i, j))
  }

  // ---------------------------------------------------------------------------
  // One scan

  /** A scan counts each candidate it finds once. */
  lemma {:induction false} ScanCount(sv: Survey, i: nat, cands: seq<nat>, withLabels: bool, st: State, j: nat)
    requires Shaped(sv) && |st.nodes| == |sv.kinds| && i < |sv.kinds| && Below(cands, |sv.kinds|) && NoDup(cands)
    requires j < |sv.kinds|
    ensures ScanFrom(sv, i, cands, withLabels, st).nodes[j].count
            == st.nodes[j].count + Ind(j in cands && sv.hit[i][j])
    decreases |cands|
  {
    if cands != [] {
      var c := cands[0];
      var st' := if sv.hit[i][c] then Visit(sv, st, i, c, TagOf(sv, i, c, withLabels)) else st;
      assert NoDup(cands[1..]) && Below(cands[1..], |sv.kinds|);
      ScanCount(sv, i, cands[1..], withLabels, st', j);
      assert j in cands <==> j == c || j in cands[1..];
      assert c !in cands[1..];
    }
  }

  /** A scan adds to the scanner's references exactly the candidates it finds. */
  lemma {:induction false} ScanRefs(sv: Survey, i: nat, cands: seq<nat>, withLabels: bool, st: State)
    requires Shaped(sv) && |st.nodes| == |sv.kinds| && i < |sv.kinds| && Below(cands, |sv.kinds|)
    ensures var r := ScanFrom(sv, i, cands, withLabels, st);
            && (forall x :: 0 <= x < |sv.kinds| && x != i ==> r.nodes[x].refs == st.nodes[x].refs)
            && (forall j :: j in r.nodes[i].refs <==> j in st.nodes[i].refs || (j in cands && sv.hit[i][j]))
    decreases |cands|
  {
    if cands != [] {
      var c := cands[0];
      var st' := if sv.hit[i][c] then Visit(sv, st, i, c, TagOf(sv, i, c, withLabels)) else st;
      assert Below(cands[1..], |sv.kinds|);
      ScanRefs(sv, i, cands[1..], withLabels, st');
      assert forall j :: j in cands <==> j == c || j in cands[1..];
    }
  }

  /** A class scan gives each class it finds the scanner's label; other scans label nothing. */
  lemma {:induction false} ScanLabels(sv: Survey, i: nat, cands: seq<nat>, withLabels: bool, st: State, j: nat)
    requires Shaped(sv) && |st.nodes| == |sv.kinds| && i < |sv.kinds| && Below(cands, |sv.kinds|) && j < |sv.kinds|
    ensures forall l ::
              (l in ScanFrom(sv, i, cands, withLabels, st).nodes[j].labels
               <==> l in st.nodes[j].labels || (withLabels && j in cands && sv.hit[i][j] && sv.lab[i][j] == Some(l)))
    decreases |cands|
  {
    if cands != [] {
      var c := cands[0];
      var st' := if sv.hit[i][c] then Visit(sv, st, i, c, TagOf(sv, i, c, withLabels)) else st;
      assert Below(cands[1..], |sv.kinds|);
      ScanLabels(sv, i, cands[1..], withLabels, st', j);
      assert j in cands <==> j == c || j in cands[1..];
    }
  }

  /** A scan only adds keys: those of the candidates it finds. */
  lemma {:induction false} ScanKeys(sv: Survey, i: nat, cands: seq<nat>, withLabels: bool, st: State)
    requires Shaped(sv) && |st.nodes| == |sv.kinds| && i < |sv.kinds| && Below(cands, |sv.kinds|)
    ensures var r := ScanFrom(sv, i, cands, withLabels, st);
            && st.keys <= r.keys
            && forall k ::
                 (k in r.stored
                  <==> k in st.stored || exists j :: j in cands && j < |sv.kinds| && sv.hit[i][j] && sv.keys[j] == k)
    decreases |cands|
  {
    if cands != [] {
      var c := cands[0];
      var st' := if sv.hit[i][c] then Visit(sv, st, i, c, TagOf(sv, i, c, withLabels)) else st;
      assert Below(cands[1..], |sv.kinds|);
      ScanKeys(sv, i, cands[1..], withLabels, st');
      assert forall j :: j in cands <==> j == c || j in cands[1..];
    }
  }

  // ---------------------------------------------------------------------------
  // One scanner

  lemma ProcessCount(sv: Survey, req: Request, st: State, i: nat, j: nat)
    requires Shaped(sv) && |st.nodes| == |sv.kinds| && i < |sv.kinds| && j < |sv.kinds|
    ensures Process(sv, req, st, i).nodes[j].count == st.nodes[j].count + Hits(sv, req, i, j)
  {
    if sv.active[i] {
      var k := sv.kinds[i];
      var st1 := if SameTypeRuns(req, k) then ScanFrom(sv, i, IndicesOf(sv.kinds, k, 0), false, st) else st;
      if SameTypeRuns(req, k) {
        ScanCount(sv, i, IndicesOf(sv.kinds, k, 0), false, st, j);
      }
      ScanCount(sv, i, IndicesOf(sv.kinds, Class, 0), true, st1, j);
    }
  }

  lemma ProcessRefs(sv: Survey, req: Request, st: State, i: nat)
    requires Shaped(sv) && |st.nodes| == |sv.kinds| && i < |sv.kinds|
    ensures var r := Process(sv, req, st, i);
            && (forall x :: 0 <= x < |sv.kinds| && x != i ==> r.nodes[x].refs == st.nodes[x].refs)
            && (forall j: nat :: j in r.nodes[i].refs <==> j in st.nodes[i].refs || (j < |sv.kinds| && Linked(sv, req, i, j)))
  {
    if sv.active[i] {
      var k := sv.kinds[i];
      var st1 := if SameTypeRuns(req, k) then ScanFrom(sv, i, IndicesOf(sv.kinds, k, 0), false, st) else st;
      if SameTypeRuns(req, k) {
        ScanRefs(sv, i, IndicesOf(sv.kinds, k, 0), false, st);
      }
      ScanRefs(sv, i, IndicesOf(sv.kinds, Class, 0), true, st1);
    }
  }

  lemma ProcessLabels(sv: Survey, req: Request, st: State, i: nat, j: nat)
    requires Shaped(sv) && |st.nodes| == |sv.kinds| && i < |sv.kinds| && j < |sv.kinds|
    ensures forall l ::
              (l in Process(sv, req, st, i).nodes[j].labels
               <==> l in st.nodes[j].labels || (ClassHit(sv, i, j) && sv.lab[i][j] == Some(l)))
  {
    if sv.active[i] {
      var k := sv.kinds[i];
      var st1 := if SameTypeRuns(req, k) then ScanFrom(sv, i, IndicesOf(sv.kinds, k, 0), false, st) else st;
      if SameTypeRuns(req, k) {
        ScanLabels(sv, i, IndicesOf(sv.kinds, k, 0), false, st, j);
      }
      ScanLabels(sv, i, IndicesOf(sv.kinds, Class, 0), true, st1, j);
    }
  }

  lemma ProcessKeys(sv: Survey, req: Request, st: State, i: nat)
    requires Shaped(sv) && |st.nodes| == |sv.kinds| && i < |sv.kinds|
    ensures var r := Process(sv, req, st, i);
            && st.keys <= r.keys
            && forall k ::
                 (k in r.stored
                  <==> || k in st.stored
                       || (sv.active[i] && k == sv.keys[i])
                       || exists j :: 0 <= j < |sv.kinds| && Linked(sv, req, i, j) && sv.keys[j] == k)
  {
    if sv.active[i] {
      var k := sv.kinds[i];
      var st1 := if SameTypeRuns(req, k) then ScanFrom(sv, i, IndicesOf(sv.kinds, k, 0), false, st) else st;
      if SameTypeRuns(req, k) {
        ScanKeys(sv, i, IndicesOf(sv.kinds, k, 0), false, st);
      }
      ScanKeys(sv, i, IndicesOf(sv.kinds, Class, 0), true, st1);
    }
  }

  // ---------------------------------------------------------------------------
  // The whole build

  /** The number of times the first `n` scanners count `j`. */
  function Incoming(sv: Survey, req: Request, j: nat, n: nat): nat
    requires Shaped(sv) && j < |sv.kinds| && n <= |sv.kinds|
  {
    if n == 0 then 0 else Incoming(sv, req, j, n - 1) + Hits(sv, req, n - 1, j)
  }

  /** An item's count is the number of times the scanners so far found it. */
  lemma {:induction false} BuiltCount(sv: Survey, req: Request, n: nat, j: nat)
    requires Shaped(sv) && n <= |sv.kinds| && j < |sv.kinds|
    ensures Built(sv, req, n).nodes[j].count == Incoming(sv, req, j, n)
  {
    if n > 0 {
      BuiltCount(sv, req, n - 1, j);
      ProcessCount(sv, req, Built(sv, req, n - 1), n - 1, j);
    }
  }

  /** An item references exactly what its own scans found, once it has scanned. */
  lemma {:induction false} BuiltRefs(sv: Survey, req: Request, n: nat)
    requires Shaped(sv) && n <= |sv.kinds|
    ensures forall i, j :: 0 <= i < |sv.kinds| && 0 <= j < |sv.kinds| ==>
              (j in Built(sv, req, n).nodes[i].refs <==> i < n && Linked(sv, req, i, j))
    ensures forall i, j :: 0 <= i < |sv.kinds| && j in Built(sv, req, n).nodes[i].refs ==> j < |sv.kinds|
  {
    if n > 0 {
      BuiltRefs(sv, req, n - 1);
      ProcessRefs(sv, req, Built(sv, req, n - 1), n - 1);
    }
  }

  /** A class's labels are the labels of the class scans that found it. */
  lemma {:induction false} BuiltLabels(sv: Survey, req: Request, n: nat, j: nat)
    requires Shaped(sv) && n <= |sv.kinds| && j < |sv.kinds|
    ensures forall l ::
              (l in Built(sv, req, n).nodes[j].labels
               <==> exists i :: 0 <= i < n && ClassHit(sv, i, j) && sv.lab[i][j] == Some(l))
  {
    if n > 0 {
      BuiltLabels(sv, req, n - 1, j);
      ProcessLabels(sv, req, Built(sv, req, n - 1), n - 1, j);
    }
  }

  /** An item enters the map by scanning a non-empty text or by being found. */
  predicate Entered(sv: Survey, req: Request, n: nat, x: nat)
    requires Shaped(sv) && n <= |sv.kinds| && x < |sv.kinds|
  {
    (x < n && sv.active[x]) || exists i :: 0 <= i < n && Linked(sv, req, i, x)
  }

  /** After the first `n` scanners the map holds exactly the keys of the items that entered it. */
  ghost predicate StoredExactly(sv: Survey, req: Request, n: nat)
    requires Shaped(sv) && n <= |sv.kinds|
  {
    forall k ::
      (k in Built(sv, req, n).stored
       <==> exists x :: 0 <= x < |sv.kinds| && sv.keys[x] == k && Entered(sv, req, n, x))
  }

  /**
   * The map holds exactly the keys of the items that entered it, and no key is ever
   * removed or moved: the key order of an earlier state is a prefix of a later one's.
   */
  lemma {:induction false} BuiltKeys(sv: Survey, req: Request, n: nat)
    requires Shaped(sv) && n <= |sv.kinds|
    ensures forall k ::
              (k in Built(sv, req, n).stored
               <==> exists x :: 0 <= x < |sv.kinds| && sv.keys[x] == k && Entered(sv, req, n, x))
    ensures forall m :: 0 <= m <= n ==> Built(sv, req, m).keys <= Built(sv, req, n).keys
  {
    BuiltStored(sv, req, n);
    assert StoredExactly(sv, req, n);
    forall m | 0 <= m <= n
      ensures Built(sv, req, m).keys <= Built(sv, req, n).keys
    {
      BuiltPrefix(sv, req, m, n);
    }
  }

  lemma {:induction false} BuiltStored(sv: Survey, req: Request, n: nat)
    requires Shaped(sv) && n <= |sv.kinds|
    ensures StoredExactly(sv, req, n)
  {
    if n > 0 {
      BuiltStored(sv, req, n - 1);
      BuiltStep(sv, req, n - 1);
    }
  }

  lemma {:induction false} BuiltPrefix(sv: Survey, req: Request, m: nat, n: nat)
    requires Shaped(sv) && m <= n <= |sv.kinds|
    ensures Built(sv, req, m).keys <= Built(sv, req, n).keys
  {
    if m < n {
      BuiltPrefix(sv, req, m, n - 1);
      ProcessKeys(sv, req, Built(sv, req, n - 1), n - 1);
      assert Built(sv, req, m).keys <= Built(sv, req, n - 1).keys <= Built(sv, req, n).keys;
    }
  }

  /** Entering by the first `p + 1` scanners: by the first `p`, or by scanner `p`. */
  lemma EnteredStep(sv: Survey, req: Request, p: nat, x: nat)
    requires Shaped(sv) && p < |sv.kinds| && x < |sv.kinds|
    ensures Entered(sv, req, p + 1, x)
            <==> Entered(sv, req, p, x) || (x == p && sv.active[x]) || Linked(sv, req, p, x)
  {
    if Entered(sv, req, p + 1, x) && !(x == p && sv.active[x]) && !Linked(sv, req, p, x) {
      if !(x < p + 1 && sv.active[x]) {
        var i :| 0 <= i < p + 1 && Linked(sv, req, i, x);
        assert i < p;
      }
    }
  }

  /** The stored keys after one more scanner, in terms of who entered. */
  lemma BuiltStep(sv: Survey, req: Request, p: nat)
    requires Shaped(sv) && p < |sv.kinds| && StoredExactly(sv, req, p)
    ensures StoredExactly(sv, req, p + 1)
  {
    var st := Built(sv, req, p);
    var st' := Built(sv, req, p + 1);
    ProcessKeys(sv, req, st, p);
    assert st' == Process(sv, req, st, p);
    forall k
      ensures k in st'.stored <==> exists x :: 0 <= x < |sv.kinds| && sv.keys[x] == k && Entered(sv, req, p + 1, x)
    {
      if exists x :: 0 <= x < |sv.kinds| && sv.keys[x] == k && Entered(sv, req, p + 1, x) {
        var x :| 0 <= x < |sv.kinds| && sv.keys[x] == k && Entered(sv, req, p + 1, x);
        EnteredStep(sv, req, p, x);
      }
      if k in st'.stored {
        if k in st.stored {
          var x :| 0 <= x < |sv.kinds| && sv.keys[x] == k && Entered(sv, req, p, x);
          EnteredStep(sv, req, p, x);
        } else if sv.active[p] && k == sv.keys[p] {
          EnteredStep(sv, req, p, p);
        } else {
          var j :| 0 <= j < |sv.kinds| && Linked(sv, req, p, j) && sv.keys[j] == k;
          EnteredStep(sv, req, p, j);
        }
      }
    }
  }

  // ---------------------------------------------------------------------------
  // Well-formedness

  /**
   * What the rest of the engine relies on, for a catalog whose keys are `keys`: every
   * reference and every stored item is an index of the catalog, references are
   * duplicate-free, the key order lists each stored key exactly once, and each key is
   * stored with an item that has that key.
   */
  predicate Valid(st: State, keys: seq<string>) {
    var n := |keys|;
    && |st.nodes| == n
    && (forall x :: 0 <= x < n ==> NoDup(st.nodes[x].refs) && Below(st.nodes[x].refs, n))
    && NoDup(st.keys)
    && (forall i :: 0 <= i < |st.keys| ==> st.keys[i] in st.stored)
    && (forall k :: k in st.stored ==> k in st.keys && st.stored[k] < n && keys[st.stored[k]] == k)
  }

  lemma StoreValid(st: State, keys: seq<string>, x: nat)
    requires Valid(st, keys) && x < |keys|
    ensures Valid(Store(st, keys[x], x), keys)
  {
    if keys[x] !in st.stored {
      assert keys[x] !in st.keys;
    }
  }

  /** Changing only the nodes keeps a state well formed when the references stay in range. */
  lemma NodesValid(st: State, nodes: seq<Node>, keys: seq<string>)
    requires Valid(st, keys) && |nodes| == |keys|
    requires forall x :: 0 <= x < |keys| ==> NoDup(nodes[x].refs) && Below(nodes[x].refs, |keys|)
    ensures Valid(st.(nodes := nodes), keys)
  {
  }

  /** A hit changes only the scanner's references, and only by adding the found item. */
  lemma VisitRefs(sv: Survey, st: State, i: nat, j: nat, tag: Option<string>)
    requires Shaped(sv) && |st.nodes| == |sv.kinds| && i < |sv.kinds| && j < |sv.kinds|
    ensures forall x :: 0 <= x < |sv.kinds| ==>
              Visit(sv, st, i, j, tag).nodes[x].refs == if x == i then AddNew(st.nodes[i].refs, j) else st.nodes[x].refs
  {
  }

  /** A hit stores the found item's key in the state with the new nodes. */
  lemma VisitStore(sv: Survey, st: State, i: nat, j: nat, tag: Option<string>)
    requires Shaped(sv) && |st.nodes| == |sv.kinds| && i < |sv.kinds| && j < |sv.kinds|
    ensures Visit(sv, st, i, j, tag) == Store(st.(nodes := Visit(sv, st, i, j, tag).nodes), sv.keys[j], j)
  {
  }

  lemma VisitValid(sv: Survey, st: State, i: nat, j: nat, tag: Option<string>)
    requires Shaped(sv) && Valid(st, sv.keys) && i < |sv.kinds| && j < |sv.kinds|
    ensures Valid(Visit(sv, st, i, j, tag), sv.keys)
  {
    var nodes := Visit(sv, st, i, j, tag).nodes;
    VisitRefs(sv, st, i, j, tag);
    forall x | 0 <= x < |sv.keys|
      ensures NoDup(nodes[x].refs) && Below(nodes[x].refs, |sv.keys|)
    {
    }
    NodesValid(st, nodes, sv.keys);
    StoreValid(st.(nodes := nodes), sv.keys, j);
    VisitStore(sv, st, i, j, tag);
  }

  lemma {:induction false} ScanValid(sv: Survey, i: nat, cands: seq<nat>, withLabels: bool, st: State)
    requires Shaped(sv) && Valid(st, sv.keys) && i < |sv.kinds| && Below(cands, |sv.kinds|)
    ensures Valid(ScanFrom(sv, i, cands, withLabels, st), sv.keys)
    decreases |cands|
  {
    if cands != [] {
      var c := cands[0];
      if sv.hit[i][c] {
        VisitValid(sv, st, i, c, TagOf(sv, i, c, withLabels));
      }
      var st' := if sv.hit[i][c] then Visit(sv, st, i, c, TagOf(sv, i, c, withLabels)) else st;
      ScanValid(sv, i, cands[1..], withLabels, st');
    }
  }

  lemma ProcessValid(sv: Survey, req: Request, st: State, i: nat)
    requires Shaped(sv) && Valid(st, sv.keys) && i < |sv.kinds|
    ensures Valid(Process(sv, req, st, i), sv.keys)
  {
    if sv.active[i] {
      var k := sv.kinds[i];
      var st1 := if SameTypeRuns(req, k) then ScanFrom(sv, i, IndicesOf(sv.kinds, k, 0), false, st) else st;
      if SameTypeRuns(req, k) {
        ScanValid(sv, i, IndicesOf(sv.kinds, k, 0), false, st);
      }
      ScanValid(sv, i, IndicesOf(sv.kinds, Class, 0), true, st1);
      StoreValid(ScanFrom(sv, i, IndicesOf(sv.kinds, Class, 0), true, st1), sv.keys, i);
    }
  }

  /** Every state of the build is well formed. */
  lemma {:induction false} BuiltValid(sv: Survey, req: Request, n: nat)
    requires Shaped(sv) && n <= |sv.kinds|
    ensures Valid(Built(sv, req, n), sv.keys)
  {
    if n == 0 {
      assert Valid(Init(|sv.kinds|), sv.keys);
    } else {
      BuiltValid(sv, req, n - 1);
      ProcessValid(sv, req, Built(sv, req, n - 1), n - 1);
    }
  }

  /** The keys of a catalog, by index. */
  function KeysOf(items: seq<Item>): (r: seq<string>)
    ensures |r| == |items| && forall i :: 0 <= i < |items| ==> r[i] == Key(items[i])
  {
    seq(|items|, i requires 0 <= i < |items| => Key(items[i]))
  }

  /** The build over a catalog yields a well-formed state. */
  lemma BuildValid(items: seq<Item>, texts: seq<string>, req: Request)
    requires |texts| == |items|
    ensures Valid(Build(items, texts, req), KeysOf(items))
  {
    var sv := SurveyOf(items, texts);
    BuiltValid(sv, req, |items|);
    assert sv.keys == KeysOf(items);
  }

  // ---------------------------------------------------------------------------
  // Counting with and without a focus

  /** The number of the first `n` items that reference `j`. */
  function InDegree(st: State, j: nat, n: nat): nat
    requires n <= |st.nodes|
  {
    if n == 0 then 0 else InDegree(st, j, n - 1) + Ind(j in st.nodes[n - 1].refs)
  }

  /** Without a focus no scanner finds an item twice. */
  lemma HitsWithoutFocus(sv: Survey, req: Request, i: nat, j: nat)
    requires Shaped(sv) && i < |sv.kinds| && j < |sv.kinds| && req.focus.None?
    ensures Hits(sv, req, i, j) == Ind(Linked(sv, req, i, j))
  {
  }

  /** Without a focus an item's count is the number of items that reference it. */
  lemma CountIsInDegree(sv: Survey, req: Request, j: nat)
    requires Shaped(sv) && j < |sv.kinds| && req.focus.None?
    ensures var st := Built(sv, req, |sv.kinds|);
            st.nodes[j].count == InDegree(st, j, |sv.kinds|)
  {
    BuiltCount(sv, req, |sv.kinds|, j);
    BuiltRefs(sv, req, |sv.kinds|);
    IncomingIsInDegree(sv, req, j, |sv.kinds|);
  }

  lemma {:induction false} IncomingIsInDegree(sv: Survey, req: Request, j: nat, m: nat)
    requires Shaped(sv) && j < |sv.kinds| && m <= |sv.kinds| && req.focus.None?
    requires forall i :: 0 <= i < |sv.kinds| ==>
               (j in Built(sv, req, |sv.kinds|).nodes[i].refs <==> Linked(sv, req, i, j))
    ensures Incoming(sv, req, j, m) == InDegree(Built(sv, req, |sv.kinds|), j, m)
  {
    if m > 0 {
      IncomingIsInDegree(sv, req, j, m - 1);
      HitsWithoutFocus(sv, req, m - 1, j);
    }
  }

  /**
   * With a focus, a class found by another class is counted twice, once by the
   * same-type scan and once by the class scan, while it is referenced only once.
   */
  lemma FocusCountsClassesTwice(sv: Survey, req: Request, i: nat, j: nat)
    requires Shaped(sv) && i < |sv.kinds| && j < |sv.kinds| && req.focus.Some?
    requires sv.kinds[i] == Class && ClassHit(sv, i, j)
    ensures Hits(sv, req, i, j) == 2
  {
  }
}
