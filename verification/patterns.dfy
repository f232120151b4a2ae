/**
 * The few regular expressions the reference detector uses, each written out as a
 * hand-made matcher over `seq<char>` instead of a general regular-expression engine.
 *
 * `MatchLength(p, t, i)` is the length of the match JavaScript's backtracking engine
 * reports when it tries pattern `p` at index `i` of `t` (lazy quantifiers try the
 * shortest run first), or 0 when the pattern does not match there; no pattern here
 * matches the empty string. `Scan` is `t.match(re)` for a global `re` and
 * `GlobalReplace` is `t.replace(re, rep)` for a global `re`.
 */
module Patterns {
  import opened Maybe
  import opened Seqs
  import opened Strings

  /** What `.` does not match in a JavaScript regular expression without the `s` flag. */
  predicate IsLineTerminator(c: char) {
    c == '\n' || c == '\r' || c == '\U{2028}' || c == '\U{2029}'
  }

  /** The class `\s` of JavaScript regular expressions. */
  predicate IsSpace(c: char) {
    || c == '\t' || c == '\n' || c == '\U{B}' || c == '\U{C}' || c == '\r' || c == ' '
    || c == '\U{A0}' || c == '\U{1680}' || '\U{2000}' <= c <= '\U{200A}'
    || c == '\U{2028}' || c == '\U{2029}' || c == '\U{202F}' || c == '\U{205F}'
    || c == '\U{3000}' || c == '\U{FEFF}'
  }

  predicate IsLetterOrDigit(c: char) {
    'a' <= c <= 'z' || 'A' <= c <= 'Z' || '0' <= c <= '9'
  }

  /** The complement of `[^a-zA-Z\d\s:]`: characters the label clean-up keeps. */
  predicate IsLabelSafe(c: char) {
    IsLetterOrDigit(c) || IsSpace(c) || c == ':'
  }

  /**
   * An Apex-style identifier. The source splices item names into regular expressions
   * unescaped; for names built from these characters that is the same as matching
   * them literally, which is what the matchers below do.
   */
  predicate IsIdentifier(x: string) {
    |x| > 0 && forall k :: 0 <= k < |x| ==> IsLetterOrDigit(x[k]) || x[k] == '_'
  }

  /** The fixed middle part of an Apex import path. */
  const ApexPath: string := " from '@salesforce/apex/"

  datatype Pattern =
    | Literal(lit: string)        // a pattern without metacharacters, e.g. `new X\(`
    | MemberAccess(name: string)  // `X\.[^ <>]*?\(?`
    | FlowInterview(name: string) // `Flow.Interview.X` (the dots are unescaped)
    | ApexImport(name: string)    // `import .*? from \'@salesforce/apex/X.(.*?)\';`
    | ApexImportPrefix            // `import .*? from '@salesforce\/apex\/.*?\.`
    | DotTail                     // `\..*`
    | Unsafe                      // `[^a-zA-Z\d\s:]`

  /** The number of characters `.*` consumes at `i`. */
  function LineRun(t: string, i: nat): (n: nat)
    requires i <= |t|
    ensures i + n <= |t|
    ensures forall k :: i <= k < i + n ==> !IsLineTerminator(t[k])
    ensures i + n < |t| ==> IsLineTerminator(t[i + n])
    decreases |t| - i
  {
    if i == |t| || IsLineTerminator(t[i]) then 0 else 1 + LineRun(t, i + 1)
  }

  /** `(.*?)';` at `m`: the end of the shortest line-internal run followed by `';`. */
  function QuoteClose(t: string, m: nat): (r: Option<nat>)
    requires m <= |t|
    ensures r.Some? ==> m + 2 <= r.value <= |t|
    decreases |t| - m
  {
    if OccursAt(t, "';", m) then Some(m + 2)
    else if m < |t| && !IsLineTerminator(t[m]) then QuoteClose(t, m + 1)
    else None
  }

  /** `' from \'@salesforce/apex/X.(.*?)\';'` at `q`. */
  function ImportTail(t: string, x: string, q: nat): (r: Option<nat>)
    requires q <= |t|
    ensures r.Some? ==> q < r.value <= |t|
  {
    var d := q + |ApexPath| + |x|;
    if OccursAt(t, ApexPath + x, q) && d < |t| && !IsLineTerminator(t[d]) then QuoteClose(t, d + 1)
    else None
  }

  /** `.*?` before the import tail: the shortest run for which the tail matches. */
  function ImportBody(t: string, x: string, q: nat): (r: Option<nat>)
    requires q <= |t|
    ensures r.Some? ==> q < r.value <= |t|
    decreases |t| - q
  {
    match ImportTail(t, x, q)
    case Some(e) => Some(e)
    case None => if q < |t| && !IsLineTerminator(t[q]) then ImportBody(t, x, q + 1) else None
  }

  /** `.*?\.` at `m`: the end just past the first `.` reachable on the same line. */
  function DotFrom(t: string, m: nat): (r: Option<nat>)
    requires m <= |t|
    ensures r.Some? ==> m < r.value <= |t| && t[r.value - 1] == '.'
    decreases |t| - m
  {
    if m < |t| && t[m] == '.' then Some(m + 1)
    else if m < |t| && !IsLineTerminator(t[m]) then DotFrom(t, m + 1)
    else None
  }

  /** `.*? from '@salesforce\/apex\/.*?\.` at `q`. */
  function PrefixBody(t: string, q: nat): (r: Option<nat>)
    requires q <= |t|
    ensures r.Some? ==> q < r.value <= |t|
    decreases |t| - q
  {
    var tail := if OccursAt(t, ApexPath, q) then DotFrom(t, q + |ApexPath|) else None;
    match tail
    case Some(e) => Some(e)
    case None => if q < |t| && !IsLineTerminator(t[q]) then PrefixBody(t, q + 1) else None
  }

  function MatchLength(p: Pattern, t: string, i: nat): (n: nat)
    requires i <= |t|
    ensures i + n <= |t|
  {
    match p
    case Literal(lit) =>
      if |lit| > 0 && OccursAt(t, lit, i) then |lit| else 0
    case MemberAccess(x) =>
      if OccursAt(t, x + ".", i) then
        (if i + |x| + 1 < |t| && t[i + |x| + 1] == '(' then |x| + 2 else |x| + 1)
      else 0
    case FlowInterview(x) =>
      if && i + 15 + |x| <= |t|
         && t[i..i + 4] == "Flow" && !IsLineTerminator(t[i + 4])
         && t[i + 5..i + 14] == "Interview" && !IsLineTerminator(t[i + 14])
         && t[i + 15..i + 15 + |x|] == x
      then 15 + |x| else 0
    case ApexImport(x) =>
      if OccursAt(t, "import ", i) then
        match ImportBody(t, x, i + 7)
        case Some(e) => e - i
        case None => 0
      else 0
    case ApexImportPrefix =>
      if OccursAt(t, "import ", i) then
        match PrefixBody(t, i + 7)
        case Some(e) => e - i
        case None => 0
      else 0
    case DotTail =>
      if i < |t| && t[i] == '.' then 1 + LineRun(t, i + 1) else 0
    case Unsafe =>
      if i < |t| && !IsLabelSafe(t[i]) then 1 else 0
  }

  /** `t.match(re)` for a global `re`, resumed at `i`: every match, left to right, without overlap. */
  function Scan(p: Pattern, t: string, i: nat): (hits: seq<string>)
    requires i <= |t|
    ensures forall k :: 0 <= k < |hits| ==> 0 < |hits[k]| <= |t| - i
    decreases |t| - i
  {
    if i == |t| then []
    else
      var n := MatchLength(p, t, i);
      if n > 0 then [t[i..i + n]] + Scan(p, t, i + n) else Scan(p, t, i + 1)
  }

  /** `t.replace(re, rep)` for a global `re`, resumed at `i`. */
  function GlobalReplace(p: Pattern, t: string, rep: string, i: nat): string
    requires i <= |t|
    decreases |t| - i
  {
    if i == |t| then ""
    else
      var n := MatchLength(p, t, i);
      if n > 0 then rep + GlobalReplace(p, t, rep, i + n) else [t[i]] + GlobalReplace(p, t, rep, i + 1)
  }

  /** Positions where the pattern does not match contribute nothing to the scan. */
  lemma {:induction false} ScanSkip(p: Pattern, t: string, i: nat, j: nat)
    requires i <= j <= |t|
    requires forall k :: i <= k < j ==> MatchLength(p, t, k) == 0
    ensures Scan(p, t, i) == Scan(p, t, j)
    decreases j - i
  {
    if i < j {
      ScanSkip(p, t, i + 1, j);
    }
  }

  /** Positions where the pattern does not match are copied unchanged. */
  lemma {:induction false} GlobalReplaceSkip(p: Pattern, t: string, rep: string, i: nat, j: nat)
    requires i <= j <= |t|
    requires forall k :: i <= k < j ==> MatchLength(p, t, k) == 0
    ensures GlobalReplace(p, t, rep, i) == t[i..j] + GlobalReplace(p, t, rep, j)
    decreases j - i
  {
    if i < j {
      GlobalReplaceStep(p, t, rep, i);
      GlobalReplaceSkip(p, t, rep, i + 1, j);
      assert t[i..j] == [t[i]] + t[i + 1..j];
      Associate([t[i]], t[i + 1..j], GlobalReplace(p, t, rep, j));
    }
  }

  /** A dot whose line runs to the end of the text is removed with everything after it. */
  lemma DotTailToEnd(t: string, i: nat)
    requires i < |t| && t[i] == '.' && LineRun(t, i + 1) == |t| - i - 1
    ensures GlobalReplace(DotTail, t, "", i) == ""
  {
    assert MatchLength(DotTail, t, i) == |t| - i;
  }

  /** A line without terminators is consumed whole by `.*`. */
  lemma {:induction false} LineRunToEnd(t: string, i: nat)
    requires i <= |t| && forall k :: i <= k < |t| ==> !IsLineTerminator(t[k])
    ensures LineRun(t, i) == |t| - i
    decreases |t| - i
  {
    if i < |t| {
      LineRunToEnd(t, i + 1);
    }
  }

  /** A position where the pattern does not match is copied. */
  lemma GlobalReplaceStep(p: Pattern, t: string, rep: string, i: nat)
    requires i < |t| && MatchLength(p, t, i) == 0
    ensures GlobalReplace(p, t, rep, i) == [t[i]] + GlobalReplace(p, t, rep, i + 1)
  {
  }

  /** A match at `i` is replaced, and the replacement resumes after it. */
  lemma GlobalReplaceHit(p: Pattern, t: string, rep: string, i: nat)
    requires i < |t| && MatchLength(p, t, i) > 0
    ensures GlobalReplace(p, t, rep, i) == rep + GlobalReplace(p, t, rep, i + MatchLength(p, t, i))
  {
  }

  /** A text in which the pattern matches nowhere is left as it is. */
  lemma GlobalReplaceIdentity(p: Pattern, t: string, rep: string)
    requires forall k :: 0 <= k < |t| ==> MatchLength(p, t, k) == 0
    ensures GlobalReplace(p, t, rep, 0) == t
  {
    GlobalReplaceSkip(p, t, rep, 0, |t|);
    assert t[0..|t|] == t;
  }

  /** A scan whose pattern matches at exactly one position returns exactly that match. */
  lemma ScanUnique(p: Pattern, t: string, j: nat)
    requires j <= |t| && MatchLength(p, t, j) > 0
    requires forall k :: 0 <= k < |t| && k != j ==> MatchLength(p, t, k) == 0
    ensures Scan(p, t, 0) == [t[j..j + MatchLength(p, t, j)]]
  {
    ScanSkip(p, t, 0, j);
    ScanLast(p, t, j);
  }

  /** A match after which the pattern matches nowhere is the last hit. */
  lemma ScanLast(p: Pattern, t: string, j: nat)
    requires j <= |t| && MatchLength(p, t, j) > 0
    requires forall k :: j < k < |t| ==> MatchLength(p, t, k) == 0
    ensures Scan(p, t, j) == [t[j..j + MatchLength(p, t, j)]]
  {
    var n := MatchLength(p, t, j);
    ScanHit(p, t, j);
    ScanSkip(p, t, j + n, |t|);
    assert [t[j..j + n]] + [] == [t[j..j + n]];
  }

  /** A match at `j` is the next hit, and the scan resumes after it. */
  lemma ScanHit(p: Pattern, t: string, j: nat)
    requires j <= |t| && MatchLength(p, t, j) > 0
    ensures Scan(p, t, j) == [t[j..j + MatchLength(p, t, j)]] + Scan(p, t, j + MatchLength(p, t, j))
  {
  }

  /** Every hit of a literal pattern is the literal itself. */
  lemma {:induction false} ScanLiteralHits(lit: string, t: string, i: nat)
    requires i <= |t|
    ensures forall h :: h in Scan(Literal(lit), t, i) ==> h == lit
    decreases |t| - i
  {
    if i < |t| {
      var n := MatchLength(Literal(lit), t, i);
      if n > 0 {
        ScanLiteralHits(lit, t, i + n);
      } else {
        ScanLiteralHits(lit, t, i + 1);
      }
    }
  }

  /**
   * Every hit of `X\.[^ <>]*?\(?` is `X.` or `X.(`: the lazy run is left empty because
   * the optional parenthesis after it can always succeed.
   */
  lemma {:induction false} ScanMemberHits(x: string, t: string, i: nat)
    requires i <= |t|
    ensures forall h :: h in Scan(MemberAccess(x), t, i) ==> MemberText(x, h)
    decreases |t| - i
  {
    if i < |t| {
      var n := MatchLength(MemberAccess(x), t, i);
      if n > 0 {
        ScanHit(MemberAccess(x), t, i);
        MemberHit(x, t, i);
        ScanMemberHits(x, t, i + n);
      } else {
        ScanMiss(MemberAccess(x), t, i);
        ScanMemberHits(x, t, i + 1);
      }
    }
  }

  /** `X.` or `X.(`. */
  predicate MemberText(x: string, h: string) {
    h == x + "." || h == x + ".("
  }

  /** A member-access match is `X.` or `X.(`. */
  lemma MemberHit(x: string, t: string, i: nat)
    requires i <= |t| && MatchLength(MemberAccess(x), t, i) > 0
    ensures MemberText(x, t[i..i + MatchLength(MemberAccess(x), t, i)])
  {
    var n := MatchLength(MemberAccess(x), t, i);
    assert t[i..i + |x| + 1] == x + ".";
    if n == |x| + 2 {
      assert t[i..i + n] == t[i..i + |x| + 1] + [t[i + |x| + 1]];
    }
  }

  /** A position where the pattern does not match adds no hit. */
  lemma ScanMiss(p: Pattern, t: string, i: nat)
    requires i < |t| && MatchLength(p, t, i) == 0
    ensures Scan(p, t, i) == Scan(p, t, i + 1)
  {
  }

  /** A text without the literal has no hits for it. */
  lemma ScanLiteralAbsent(lit: string, t: string)
    requires !Contains(t, lit)
    ensures Scan(Literal(lit), t, 0) == []
  {
    ScanSkip(Literal(lit), t, 0, |t|);
  }

  /** A text without `X.` has no member-access hits. */
  lemma ScanMemberAbsent(x: string, t: string)
    requires !Contains(t, x + ".")
    ensures Scan(MemberAccess(x), t, 0) == []
  {
    ScanSkip(MemberAccess(x), t, 0, |t|);
  }

  /** A text without `Flow` has no flow-interview hits. */
  lemma ScanFlowAbsent(x: string, t: string)
    requires !Contains(t, "Flow")
    ensures Scan(FlowInterview(x), t, 0) == []
  {
    forall k | 0 <= k < |t|
      ensures MatchLength(FlowInterview(x), t, k) == 0
    {
      if k + 15 + |x| <= |t| && t[k..k + 4] == "Flow" {
        assert OccursAt(t, "Flow", k);
      }
    }
    ScanSkip(FlowInterview(x), t, 0, |t|);
  }

  // ---------------------------------------------------------------------------
  // The lazy runs of the import patterns

  /** The import path's only quote is its seventh character. */
  lemma ApexPathQuote()
    ensures |ApexPath| == 24 && ApexPath[6] == '\''
    ensures forall k :: 0 <= k < |ApexPath| && k != 6 ==> ApexPath[k] != '\''
    ensures forall k :: 0 <= k < |ApexPath| ==> !IsLineTerminator(ApexPath[k])
  {
    var w := ApexPath;
    forall k | 0 <= k < |w|
      ensures (k != 6 ==> w[k] != '\'') && !IsLineTerminator(w[k])
    {
    }
  }

  /** The import path cannot start where no quote follows six places later. */
  lemma ApexPathNeedsQuote(t: string, q: nat)
    requires q + 6 < |t| ==> t[q + 6] != '\''
    ensures !OccursAt(t, ApexPath, q)
  {
    ApexPathQuote();
  }

  /** `.*?\.` stops at the first dot, when the run to it stays on one line. */
  lemma {:induction false} DotFromFirst(t: string, m: nat, d: nat)
    requires m <= d < |t| && t[d] == '.'
    requires forall k :: m <= k < d ==> t[k] != '.' && !IsLineTerminator(t[k])
    ensures DotFrom(t, m) == Some(d + 1)
    decreases d - m
  {
    if m < d {
      DotFromFirst(t, m + 1, d);
    }
  }

  /** `(.*?)';` closes at the first `';`, here the end of a quote-free line. */
  lemma {:induction false} QuoteCloseEnd(t: string, m: nat)
    requires m + 2 <= |t| && t[|t| - 2..] == "';"
    requires forall k :: m <= k < |t| - 2 ==> t[k] != '\'' && !IsLineTerminator(t[k])
    ensures QuoteClose(t, m) == Some(|t|)
    decreases |t| - m
  {
    if m < |t| - 2 {
      assert !OccursAt(t, "';", m) by { assert t[m..m + 2][0] == t[m]; }
      QuoteCloseEnd(t, m + 1);
    } else {
      assert t[m..m + 2] == t[|t| - 2..];
    }
  }

  /** With no quote from `q` on, the import path cannot follow, so the prefix fails. */
  lemma {:induction false} PrefixBodyNone(t: string, q: nat)
    requires q <= |t| && forall k :: q <= k < |t| ==> t[k] != '\''
    ensures PrefixBody(t, q).None?
    decreases |t| - q
  {
    ApexPathNeedsQuote(t, q);
    if q < |t| {
      PrefixBodyNone(t, q + 1);
    }
  }

  /** The lazy run of the prefix ends at the first import path, when it stays on one line. */
  lemma {:induction false} PrefixBodyFirst(t: string, q: nat, q0: nat)
    requires q <= q0 <= |t| && OccursAt(t, ApexPath, q0)
    requires DotFrom(t, q0 + |ApexPath|).Some?
    requires forall k :: q <= k < q0 ==> !IsLineTerminator(t[k]) && !OccursAt(t, ApexPath, k)
    ensures PrefixBody(t, q) == DotFrom(t, q0 + |ApexPath|)
    decreases q0 - q
  {
    if q < q0 {
      PrefixBodyFirst(t, q + 1, q0);
    }
  }

  /** The lazy run of the import ends at the first import path, when it stays on one line. */
  lemma {:induction false} ImportBodyFirst(t: string, x: string, q: nat, q0: nat)
    requires q <= q0 <= |t| && ImportTail(t, x, q0).Some?
    requires forall k :: q <= k < q0 ==> !IsLineTerminator(t[k]) && !OccursAt(t, ApexPath, k)
    ensures ImportBody(t, x, q) == ImportTail(t, x, q0)
    decreases q0 - q
  {
    if q < q0 {
      assert !OccursAt(t, ApexPath + x, q) by {
        if OccursAt(t, ApexPath + x, q) {
          assert t[q..q + |ApexPath|] == t[q..q + |ApexPath + x|][..|ApexPath|];
          assert OccursAt(t, ApexPath, q);
        }
      }
      ImportBodyFirst(t, x, q + 1, q0);
    }
  }

  /** A text whose only match is its tail `w` keeps everything before and replaces the tail. */
  lemma GlobalReplaceTail(p: Pattern, u: string, w: string, rep: string)
    requires w != [] && MatchLength(p, u + w, |u|) == |w|
    requires forall k :: 0 <= k < |u| ==> MatchLength(p, u + w, k) == 0
    ensures GlobalReplace(p, u + w, rep, 0) == u + rep
  {
    var t := u + w;
    GlobalReplaceSkip(p, t, rep, 0, |u|);
    GlobalReplaceHit(p, t, rep, |u|);
    assert t[0..|u|] == u;
    assert GlobalReplace(p, t, rep, |t|) == "";
    assert rep + [] == rep;
  }

  lemma NoQuoteSemicolonAt(u: string, k: nat)
    requires k < |u| && !OccursAt(u, "';", k) && (k + 1 == |u| ==> u[k] != '\'')
    ensures MatchLength(Literal("';"), u + "';", k) == 0
  {
    var t := u + "';";
    if k + 1 < |u| {
      assert t[k..k + 2] == u[k..k + 2];
    } else {
      assert t[k..k + 2][0] == u[k];
    }
  }

  lemma NoQuoteSemicolonBefore(u: string)
    requires forall k :: 0 <= k < |u| ==> !OccursAt(u, "';", k)
    requires u == [] || u[|u| - 1] != '\''
    ensures forall k :: 0 <= k < |u| ==> MatchLength(Literal("';"), u + "';", k) == 0
  {
    forall k | 0 <= k < |u|
      ensures MatchLength(Literal("';"), u + "';", k) == 0
    {
      NoQuoteSemicolonAt(u, k);
    }
  }

  lemma QuoteSemicolonAtEnd(u: string)
    ensures MatchLength(Literal("';"), u + "';", |u|) == 2
  {
    assert (u + "';")[|u|..|u| + 2] == "';";
  }

  /** Removing `';` from a text that holds none and ends in no quote drops just the added end. */
  lemma QuoteSemicolonDropped(u: string)
    requires forall k :: 0 <= k < |u| ==> !OccursAt(u, "';", k)
    requires u == [] || u[|u| - 1] != '\''
    ensures GlobalReplace(Literal("';"), u + "';", "", 0) == u
  {
    NoQuoteSemicolonBefore(u);
    QuoteSemicolonAtEnd(u);
    GlobalReplaceTail(Literal("';"), u, "';", "");
    assert u + [] == u;
  }

  /** With no quote from `j` on, the prefix pattern matches nowhere from `j` on. */
  lemma PrefixAbsentFrom(u: string, j: nat)
    requires forall k :: j <= k < |u| ==> u[k] != '\''
    ensures forall k :: j <= k < |u| ==> MatchLength(ApexImportPrefix, u, k) == 0
  {
    forall k | j <= k < |u|
      ensures MatchLength(ApexImportPrefix, u, k) == 0
    {
      if k + 7 <= |u| {
        PrefixBodyNone(u, k + 7);
      }
    }
  }

  /**
   * `import .*? from '@salesforce\/apex\/.*?\.` at the start of a line that holds the
   * import path at `q0`, stays on one line, and has its first dot after the path at
   * `d`: the match runs up to and including that dot.
   */
  lemma PrefixMatch(u: string, q0: nat, d: nat)
    requires OccursAt(u, "import ", 0) && 7 <= q0 && OccursAt(u, ApexPath, q0)
    requires q0 + |ApexPath| <= d < |u| && u[d] == '.'
    requires forall k :: 7 <= k < q0 ==> !IsLineTerminator(u[k]) && !OccursAt(u, ApexPath, k)
    requires forall k :: q0 + |ApexPath| <= k < d ==> u[k] != '.' && !IsLineTerminator(u[k])
    ensures MatchLength(ApexImportPrefix, u, 0) == d + 1
  {
    DotFromFirst(u, q0 + |ApexPath|, d);
    PrefixBodyFirst(u, 7, q0);
  }

  /**
   * On such a line with no quote after the dot, everything up to the dot becomes
   * `rep` and the rest stays.
   */
  lemma PrefixReplaced(u: string, q0: nat, d: nat, rep: string)
    requires OccursAt(u, "import ", 0) && 7 <= q0 && OccursAt(u, ApexPath, q0)
    requires q0 + |ApexPath| <= d < |u| && u[d] == '.'
    requires forall k :: 7 <= k < q0 ==> !IsLineTerminator(u[k]) && !OccursAt(u, ApexPath, k)
    requires forall k :: q0 + |ApexPath| <= k < d ==> u[k] != '.' && !IsLineTerminator(u[k])
    requires forall k :: d < k < |u| ==> u[k] != '\''
    ensures GlobalReplace(ApexImportPrefix, u, rep, 0) == rep + u[d + 1..]
  {
    PrefixMatch(u, q0, d);
    GlobalReplaceHit(ApexImportPrefix, u, rep, 0);
    PrefixAbsentFrom(u, d + 1);
    GlobalReplaceSkip(ApexImportPrefix, u, rep, d + 1, |u|);
    assert GlobalReplace(ApexImportPrefix, u, rep, |u|) == "";
    assert u[d + 1..|u|] + "" == u[d + 1..];
  }
}
