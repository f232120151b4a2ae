/** The conventional optional value, standing in for JavaScript's `null`/`undefined`. */
module Maybe {
  datatype Option<+T> = None | Some(value: T)
}

/** Regrouping facts about sequence concatenation, stated once for every element type. */
module Seqs {
  lemma Associate<T>(x: seq<T>, y: seq<T>, z: seq<T>)
    ensures (x + y) + z == x + (y + z)
  {
  }

  /** Anything appended to nothing is itself. */
  lemma EmptyLeft<T>(x: seq<T>)
    ensures [] + x == x
  {
  }
}

/**
 * The handful of JavaScript string operations the dependency-graph engine relies on
 * (`includes`, `indexOf`, `startsWith`, `endsWith`, `replace` with a string pattern,
 * `toLowerCase`, `split`, `join`), written over `seq<char>`.
 */
module Strings {
  import opened Maybe

  /** `p` occurs in `s` at index `i`. */
  predicate OccursAt(s: string, p: string, i: nat) {
    i + |p| <= |s| && s[i..i + |p|] == p
  }

  predicate StartsWith(s: string, p: string) {
    p <= s
  }

  predicate EndsWith(s: string, p: string) {
    |p| <= |s| && s[|s| - |p|..] == p
  }

  /** `String.prototype.indexOf(p, from)`: the first occurrence at or after `from`. */
  function IndexOf(s: string, p: string, from: nat): (r: Option<nat>)
    ensures r.Some? ==> from <= r.value && OccursAt(s, p, r.value)
    ensures forall j: nat :: from <= j && (r.None? || j < r.value) ==> !OccursAt(s, p, j)
    decreases |s| - from
  {
    if |s| < from + |p| then None
    else if OccursAt(s, p, from) then Some(from)
    else IndexOf(s, p, from + 1)
  }

  /** `String.prototype.includes(p)`. */
  predicate Contains(s: string, p: string) {
    IndexOf(s, p, 0).Some?
  }

  lemma ContainsAt(s: string, p: string, i: nat)
    requires OccursAt(s, p, i)
    ensures Contains(s, p)
  {
  }

  lemma ContainsExtend(s: string, p: string, r: string)
    requires Contains(s, p)
    ensures Contains(s + r, p)
  {
    var i := IndexOf(s, p, 0).value;
    assert (s + r)[i..i + |p|] == s[i..i + |p|];
    ContainsAt(s + r, p, i);
  }

  /** Segment `p` sits between `a` and `b`. */
  lemma ContainsPiece(a: string, p: string, b: string)
    ensures Contains(a + p + b, p)
  {
    assert (a + p + b)[|a|..|a| + |p|] == p;
    ContainsAt(a + p + b, p, |a|);
  }

  /** Text around a string that contains `p` still contains it. */
  lemma ContainsWithin(a: string, s: string, b: string, p: string)
    requires Contains(s, p)
    ensures Contains(a + s + b, p)
  {
    var i := IndexOf(s, p, 0).value;
    assert (a + s + b)[|a| + i..|a| + i + |p|] == s[i..i + |p|];
    ContainsAt(a + s + b, p, |a| + i);
  }

  /** A string that lacks one of the characters of `p` cannot contain `p`. */
  lemma MissingCharNotContained(s: string, p: string, c: char)
    requires c in p && c !in s
    ensures !Contains(s, p)
  {
    var k :| 0 <= k < |p| && p[k] == c;
    forall i: nat | i + |p| <= |s|
      ensures !OccursAt(s, p, i)
    {
      assert s[i..i + |p|][k] == s[i + k] != p[k];
    }
  }

  /** `s.replace(p, r)` with a string pattern: only the first occurrence is replaced. */
  function ReplaceFirst(s: string, p: string, r: string): (t: string)
    ensures !Contains(s, p) ==> t == s
    ensures Contains(s, p) ==> |t| == |s| - |p| + |r|
  {
    match IndexOf(s, p, 0)
    case None => s
    case Some(i) => s[..i] + r + s[i + |p|..]
  }

  lemma ReplaceFirstAt(s: string, p: string, r: string, i: nat)
    requires OccursAt(s, p, i)
    requires forall j: nat :: j < i ==> !OccursAt(s, p, j)
    ensures ReplaceFirst(s, p, r) == s[..i] + r + s[i + |p|..]
  {
    var k := IndexOf(s, p, 0);
    assert k.Some?;
    assert k.value == i;
  }

  /** Replacing a whole string by a new text yields the new text. */
  lemma ReplaceFirstWhole(s: string, r: string)
    ensures ReplaceFirst(s, s, r) == r
  {
    ReplaceFirstAt(s, s, r, 0);
  }

  /** Replacing the first occurrence of a character that `u` does not hold. */
  lemma ReplaceFirstChar(u: string, c: char, v: string, r: string)
    requires c !in u
    ensures ReplaceFirst(u + [c] + v, [c], r) == u + r + v
  {
    var s := u + [c] + v;
    assert s[|u|..|u| + 1] == [c];
    forall j: nat | j < |u|
      ensures !OccursAt(s, [c], j)
    {
      assert s[j..j + 1][0] == u[j] != c;
    }
    ReplaceFirstAt(s, [c], r, |u|);
    assert s[..|u|] == u;
    assert s[|u| + 1..] == v;
  }

  function AsciiLowerChar(c: char): char {
    if 'A' <= c <= 'Z' then (c as int - 'A' as int + 'a' as int) as char else c
  }

  predicate IsUpper(c: char) {
    'A' <= c <= 'Z'
  }

  /**
   * `toLowerCase` restricted to the ASCII letters. Every needle the engine looks for
   * after lowering ("test", the command-line flags) is pure ASCII, and no other
   * character lowers to one of their letters, so the comparisons come out the same.
   */
  function AsciiLower(s: string): (r: string)
    ensures |r| == |s|
    ensures forall i :: 0 <= i < |s| ==> r[i] == AsciiLowerChar(s[i])
  {
    if s == [] then [] else [AsciiLowerChar(s[0])] + AsciiLower(s[1..])
  }

  /** Lowering leaves a string without upper-case letters unchanged. */
  lemma LowerFixed(s: string)
    requires forall i :: 0 <= i < |s| ==> !IsUpper(s[i])
    ensures AsciiLower(s) == s
  {
  }

  /** `Array.prototype.join(sep)`. */
  function Join(xs: seq<string>, sep: string): string {
    if |xs| == 0 then ""
    else if |xs| == 1 then xs[0]
    else xs[0] + sep + Join(xs[1..], sep)
  }

  /** Each joined piece occurs in the joined text. */
  lemma {:induction false} JoinContains(xs: seq<string>, sep: string, i: nat)
    requires i < |xs|
    ensures Contains(Join(xs, sep), xs[i])
    decreases |xs|
  {
    if |xs| == 1 {
      ContainsPiece("", xs[0], "");
      assert "" + xs[0] + "" == xs[0];
    } else if i == 0 {
      ContainsPiece("", xs[0], sep + Join(xs[1..], sep));
      assert "" + xs[0] + (sep + Join(xs[1..], sep)) == Join(xs, sep);
    } else {
      JoinContains(xs[1..], sep, i - 1);
      ContainsWithin(xs[0] + sep, Join(xs[1..], sep), "", xs[i]);
      assert xs[0] + sep + Join(xs[1..], sep) + "" == Join(xs, sep);
    }
  }

  /** Index of the first `c` in `s`. */
  function CharIndex(s: string, c: char): (i: nat)
    requires c in s
    ensures i < |s| && s[i] == c && c !in s[..i]
  {
    if s[0] == c then 0
    else
      var k := CharIndex(s[1..], c);
      assert s[1..][..k] == s[1..k + 1];
      assert s[..k + 1] == [s[0]] + s[1..k + 1];
      k + 1
  }

  /** The first `c` comes no later than any `c`. */
  lemma {:induction false} CharIndexFirst(s: string, c: char, j: nat)
    requires j < |s| && s[j] == c
    ensures CharIndex(s, c) <= j
  {
    if s[0] != c {
      CharIndexFirst(s[1..], c, j - 1);
    }
  }

  /** `s.split(c)` for a one-character separator: every piece is free of `c`. */
  function Split(s: string, c: char): (parts: seq<string>)
    ensures |parts| >= 1
    ensures forall k :: 0 <= k < |parts| ==> c !in parts[k]
    decreases |s|
  {
    if c !in s then [s]
    else
      var i := CharIndex(s, c);
      [s[..i]] + Split(s[i + 1..], c)
  }

  /** Splitting at a separator that ends the first piece. */
  lemma SplitAfter(u: string, c: char, v: string)
    requires c !in u
    ensures Split(u + [c] + v, c) == [u] + Split(v, c)
  {
    var s := u + [c] + v;
    assert s[|u|] == c;
    CharIndexFirst(s, c, |u|);
    assert s[..|u|] == u;
    assert forall j :: 0 <= j < |u| ==> s[j] == u[j];
    assert s[|u| + 1..] == v;
  }

  /** Joining the pieces of a split with the separator gives the string back. */
  lemma {:induction false} JoinSplit(s: string, c: char)
    ensures Join(Split(s, c), [c]) == s
    decreases |s|
  {
    if c in s {
      var i := CharIndex(s, c);
      var rest := Split(s[i + 1..], c);
      JoinSplit(s[i + 1..], c);
      assert Split(s, c) == [s[..i]] + rest;
      assert ([s[..i]] + rest)[1..] == rest;
      calc {
        Join(Split(s, c), [c]);
        s[..i] + [c] + Join(rest, [c]);
        s[..i] + [c] + s[i + 1..];
        { assert s == s[..i] + [s[i]] + s[i + 1..]; }
        s;
      }
    }
  }

  /** The first piece of `s.split(c)`: everything before the first `c`. */
  function FirstPiece(s: string, c: char): (r: string)
    ensures c !in r
    ensures r <= s
    ensures c in s ==> |r| < |s| && s[|r|] == c
    ensures c !in s ==> r == s
    ensures r == Split(s, c)[0]
  {
    var parts := Split(s, c);
    if c in s then
      var i := CharIndex(s, c);
      assert parts[0] == s[..i];
      parts[0]
    else parts[0]
  }

  /** The first piece ends at the first separator. */
  lemma FirstPieceAt(u: string, c: char, v: string)
    requires c !in u
    ensures FirstPiece(u + [c] + v, c) == u
  {
    SplitAfter(u, c, v);
  }

  /** The last piece of `s.split(c)` (what `pop()` returns): everything after the last `c`. */
  function LastPiece(s: string, c: char): (r: string)
    ensures c !in r
    ensures EndsWith(s, r)
    ensures c !in s ==> r == s
    ensures r == Split(s, c)[|Split(s, c)| - 1]
    decreases |s|
  {
    if c !in s then s
    else
      var i := CharIndex(s, c);
      var t := s[i + 1..];
      var r := LastPiece(t, c);
      assert s[|s| - |r|..] == t[|t| - |r|..];
      r
  }
}
