/**
 * The ordering of the graph's nodes: the cross-reference map's values sorted by
 * descending `referencedCount + referencesSet.size`, ties by descending
 * `referencesSet.size`, with `Array.prototype.sort`'s stability keeping the map's
 * insertion order among equals.
 * Source: src/dependencyGraph.js:484-488.
 */
module Ranking {
  import opened Seqs

  /** A node to be ranked: its catalog index, `count + |refs|`, and `|refs|`. */
  datatype Entry = Entry(id: nat, total: nat, out: nat)

  /** The comparator handed to `sort`: positive when `b` belongs before `a`. */
  function Compare(a: Entry, b: Entry): int {
    var difference := b.total - a.total;
    if difference != 0 then difference else b.out - a.out
  }

  /** `a` may stand before `b`: the comparator does not ask to swap them. */
  predicate Ahead(a: Entry, b: Entry) {
    Compare(a, b) <= 0
  }

  /** The comparator orders by total first and by out-degree among equal totals. */
  lemma AheadMeaning(a: Entry, b: Entry)
    ensures Ahead(a, b) <==> a.total > b.total || (a.total == b.total && a.out >= b.out)
    ensures Ahead(a, b) || Ahead(b, a)
  {
  }

  lemma AheadTransitive(a: Entry, b: Entry, c: Entry)
    requires Ahead(a, b) && Ahead(b, c)
    ensures Ahead(a, c)
  {
  }

  /** `a` and `b` are equal as far as the comparator can tell. */
  predicate SameRank(a: Entry, b: Entry) {
    a.total == b.total && a.out == b.out
  }

  predicate Sorted(s: seq<Entry>) {
    forall i, j :: 0 <= i < j < |s| ==> Ahead(s[i], s[j])
  }

  /** The entries of `s` that rank equal to `w`, in their order in `s`. */
  function Peers(s: seq<Entry>, w: Entry): (r: seq<Entry>)
    ensures |r| <= |s|
  {
    if s == [] then []
    else (if SameRank(s[0], w) then [s[0]] else []) + Peers(s[1..], w)
  }

  lemma PeersStep(s: seq<Entry>, w: Entry)
    requires s != []
    ensures Peers(s, w) == (if SameRank(s[0], w) then [s[0]] else []) + Peers(s[1..], w)
  {
  }

  /** Places `x` after every entry of the sorted `s` that may stand before it. */
  function Insert(x: Entry, s: seq<Entry>): (r: seq<Entry>)
    ensures multiset(r) == multiset(s) + multiset{x}
    ensures |r| == |s| + 1
  {
    if s == [] then [x]
    else if Ahead(s[0], x) then
      assert s == [s[0]] + s[1..];
      [s[0]] + Insert(x, s[1..])
    else [x] + s
  }

  /** A stable insertion sort: each entry is inserted in its original order. */
  function Sort(s: seq<Entry>): (r: seq<Entry>)
    ensures multiset(r) == multiset(s)
    ensures |r| == |s|
  {
    if s == [] then []
    else
      var last := |s| - 1;
      assert s == s[..last] + [s[last]];
      Insert(s[last], Sort(s[..last]))
  }

  /** The sort of a non-empty list inserts its last entry into the sort of the others. */
  lemma SortStep(s: seq<Entry>)
    requires s != []
    ensures Sort(s) == Insert(s[|s| - 1], Sort(s[..|s| - 1]))
  {
  }

  lemma SplitLast(s: seq<Entry>)
    requires s != []
    ensures s[..|s| - 1] + [s[|s| - 1]] == s
  {
  }

  lemma {:induction false} InsertSorted(x: Entry, s: seq<Entry>)
    requires Sorted(s)
    ensures Sorted(Insert(x, s))
  {
    if s != [] {
      if Ahead(s[0], x) {
        InsertSorted(x, s[1..]);
        var t := Insert(x, s[1..]);
        forall e | e in t
          ensures Ahead(s[0], e)
        {
          assert e in multiset(t);
          assert e in multiset(s[1..]) || e == x;
        }
      } else {
        AheadMeaning(s[0], x);
      }
    }
  }

  /** The output is ordered as the comparator demands. */
  lemma {:induction false} SortSorted(s: seq<Entry>)
    ensures Sorted(Sort(s))
  {
    if s != [] {
      var last := |s| - 1;
      SortSorted(s[..last]);
      InsertSorted(s[last], Sort(s[..last]));
    }
  }

  /** Inserting `x` puts it after every entry of its own rank. */
  lemma {:induction false} InsertPeers(x: Entry, s: seq<Entry>, w: Entry)
    requires Sorted(s)
    ensures Peers(Insert(x, s), w) == Peers(s, w) + (if SameRank(x, w) then [x] else [])
  {
    if s != [] {
      if Ahead(s[0], x) {
        InsertPeers(x, s[1..], w);
        var own := if SameRank(s[0], w) then [s[0]] else [];
        PeersStep(s, w);
        PeersStep(Insert(x, s), w);
        assert Insert(x, s)[0] == s[0] && Insert(x, s)[1..] == Insert(x, s[1..]);
        Associate(own, Peers(s[1..], w), if SameRank(x, w) then [x] else []);
      } else {
        assert ([x] + s)[1..] == s;
        if SameRank(x, w) {
          StrictlyBelowNoPeers(x, s, w);
        }
      }
    }
  }

  /** No entry of a sorted list led by something ranked below `x` shares `x`'s rank. */
  lemma {:induction false} StrictlyBelowNoPeers(x: Entry, s: seq<Entry>, w: Entry)
    requires Sorted(s) && s != [] && !Ahead(s[0], x) && SameRank(x, w)
    ensures Peers(s, w) == []
  {
    AheadMeaning(s[0], x);
    if |s| > 1 {
      assert Ahead(s[0], s[1]);
      AheadMeaning(s[0], s[1]);
      AheadMeaning(s[1], x);
      StrictlyBelowNoPeers(x, s[1..], w);
    }
  }

  /** Peers of a list with one more entry at its end. */
  lemma {:induction false} PeersAppend(s: seq<Entry>, x: Entry, w: Entry)
    ensures Peers(s + [x], w) == Peers(s, w) + (if SameRank(x, w) then [x] else [])
  {
    if s != [] {
      assert (s + [x])[1..] == s[1..] + [x];
      PeersAppend(s[1..], x, w);
    }
  }

  /** Stability: entries of equal rank keep their original relative order. */
  lemma {:induction false} SortStable(s: seq<Entry>, w: Entry)
    ensures Peers(Sort(s), w) == Peers(s, w)
  {
    if s != [] {
      var last := |s| - 1;
      SortStable(s[..last], w);
      SortSorted(s[..last]);
      SortStep(s);
      SplitLast(s);
      InsertPeers(s[last], Sort(s[..last]), w);
      PeersAppend(s[..last], s[last], w);
    }
  }
}
