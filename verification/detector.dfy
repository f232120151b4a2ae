/**
 * The reference detector: given the text of a scanning item and the name of a class
 * that text mentions, the labels that describe how it is used.
 *
 * Classes, triggers, flows and Visualforce items use the default detector of
 * `ItemType.findReference`; Aura and LWC items use the override of `JSItemType`.
 * Either detector collects raw regular-expression hits and sends each through a
 * chain of replacements. `getReferenceSet` then keeps at most one label.
 * Source: src/dependencyGraph.js:105-138, 190-211, 312-321.
 */
module Detector {
  import opened Maybe
  import opened Strings
  import opened Patterns
  import opened ItemTypes

  // ---------------------------------------------------------------------------
  // Default detector

  /** The instantiation pattern as a string: `new X\(` with a literal backslash. */
  function InstantiationText(x: string): string {
    "new " + x + "\\("
  }

  /** The flow pattern as a string: `Flow.Interview.X`. */
  function FlowText(x: string): string {
    "Flow.Interview." + x
  }

  /** The raw hits: every `new X(`, then every `X.`-access, then every flow interview. */
  function DefaultHits(t: string, x: string): seq<string> {
    Scan(Literal("new " + x + "("), t, 0) + Scan(MemberAccess(x), t, 0) + Scan(FlowInterview(x), t, 0)
  }

  /**
   * The clean-up of one default hit. The last step replaces each character Mermaid
   * does not accept in a label by a space, so a label holds only letters, digits,
   * white space and colons, with `reference` as the one label that skips the chain.
   */
  function CleanDefault(x: string, h: string): (r: string)
    ensures h == x + "." ==> r == "reference"
    ensures h != x + "." ==> forall k :: 0 <= k < |r| ==> IsLabelSafe(r[k])
  {
    if h == x + "." then "reference"
    else
      var t := Rename(x, Cut(x, h));
      SafeReplaceSafe(t, 0);
      GlobalReplace(Unsafe, t, " ", 0)
  }

  /** The first three steps: drop the first `X.` and the first `(`, then cut at the first dot. */
  function Cut(x: string, h: string): string {
    GlobalReplace(DotTail, ReplaceFirst(ReplaceFirst(h, x + ".", ""), "(", ""), "", 0)
  }

  /** The next three steps: the first instantiation and the first flow reference renamed. */
  function Rename(x: string, t: string): string {
    var t := ReplaceFirst(t, InstantiationText(x), "instantiation");
    var t := ReplaceFirst(t, "new " + x, "instantiation");
    ReplaceFirst(t, FlowText(x), "flow")
  }

  /** Replacing each unsafe character by a space leaves only safe characters. */
  lemma {:induction false} SafeReplaceSafe(t: string, i: nat)
    requires i <= |t|
    ensures forall k :: 0 <= k < |GlobalReplace(Unsafe, t, " ", i)| ==> IsLabelSafe(GlobalReplace(Unsafe, t, " ", i)[k])
    decreases |t| - i
  {
    if i < |t| {
      SafeReplaceSafe(t, i + 1);
      var rest := GlobalReplace(Unsafe, t, " ", i + 1);
      if MatchLength(Unsafe, t, i) > 0 {
        assert GlobalReplace(Unsafe, t, " ", i) == " " + rest;
        assert IsSpace(' ');
      } else {
        assert GlobalReplace(Unsafe, t, " ", i) == [t[i]] + rest;
      }
    }
  }

  /** `ItemType.findReference`: every raw hit, cleaned, in order. */
  function DefaultReferences(t: string, x: string): (r: seq<string>)
    ensures |r| == |DefaultHits(t, x)|
    ensures forall i :: 0 <= i < |r| ==> r[i] == CleanDefault(x, DefaultHits(t, x)[i])
  {
    var hs := DefaultHits(t, x);
    seq(|hs|, i requires 0 <= i < |hs| => CleanDefault(x, hs[i]))
  }

  // ---------------------------------------------------------------------------
  // Component detector

  /** `controller="X"`. */
  function ControllerText(x: string): string {
    "controller=\"" + x + "\""
  }

  /** The raw hits: every `controller="X"`, then every Apex import of `X`. */
  function ComponentHits(t: string, x: string): seq<string> {
    Scan(Literal(ControllerText(x)), t, 0) + Scan(ApexImport(x), t, 0)
  }

  /** The clean-up of one component hit. */
  function CleanComponent(x: string, h: string): string {
    var t := ReplaceFirst(h, ControllerText(x), "controller");
    var t := GlobalReplace(Literal("';"), t, "", 0);
    GlobalReplace(ApexImportPrefix, t, "imported", 0)
  }

  /** `JSItemType.findReference`: every raw hit, cleaned, in order. */
  function ComponentReferences(t: string, x: string): (r: seq<string>)
    ensures |r| == |ComponentHits(t, x)|
    ensures forall i :: 0 <= i < |r| ==> r[i] == CleanComponent(x, ComponentHits(t, x)[i])
  {
    var hs := ComponentHits(t, x);
    seq(|hs|, i requires 0 <= i < |hs| => CleanComponent(x, hs[i]))
  }

  // ---------------------------------------------------------------------------
  // Dispatch

  /** `findReference` of the scanning item's kind: Aura and LWC override the default. */
  function FindReference(k: Kind, t: string, x: string): (r: seq<string>)
    ensures HasJS(k) ==> |r| == |ComponentHits(t, x)|
    ensures HasJS(k) ==> forall i :: 0 <= i < |r| ==> r[i] == CleanComponent(x, ComponentHits(t, x)[i])
    ensures !HasJS(k) ==> |r| == |DefaultHits(t, x)|
    ensures !HasJS(k) ==> forall i :: 0 <= i < |r| ==> r[i] == CleanDefault(x, DefaultHits(t, x)[i])
  {
    if HasJS(k) then ComponentReferences(t, x) else DefaultReferences(t, x)
  }

  /**
   * `getReferenceSet`: `Set.add(...xs)` adds only its first argument, so the set holds
   * the first label found, or nothing.
   */
  function ReferenceLabel(k: Kind, t: string, x: string): (r: Option<string>)
    ensures r.None? <==> FindReference(k, t, x) == []
    ensures r.Some? ==> r.value == FindReference(k, t, x)[0]
  {
    var found := FindReference(k, t, x);
    if |found| > 0 then Some(found[0]) else None
  }

  // ---------------------------------------------------------------------------
  // What the clean-up makes of each kind of hit

  /** A character that cannot be part of an identifier is not in one. */
  lemma NotInIdentifier(x: string, c: char)
    requires IsIdentifier(x) && !IsLetterOrDigit(c) && c != '_'
    ensures c !in x
  {
    forall k | 0 <= k < |x|
      ensures x[k] != c
    {
    }
  }

  /** Concatenation does not bring in a character neither part has. */
  lemma NotInAppend(a: string, b: string, c: char)
    requires c !in a && c !in b
    ensures c !in a + b
  {
    forall k | 0 <= k < |a + b|
      ensures (a + b)[k] != c
    {
      if k < |a| {
        assert (a + b)[k] == a[k];
      } else {
        assert (a + b)[k] == b[k - |a|];
      }
    }
  }

  /** A text without unsafe characters passes the last step unchanged. */
  lemma SafeTextUnchanged(t: string)
    requires forall k :: 0 <= k < |t| ==> IsLabelSafe(t[k])
    ensures GlobalReplace(Unsafe, t, " ", 0) == t
  {
    GlobalReplaceIdentity(Unsafe, t, " ");
  }

  /** A text without a dot passes the dot-tail step unchanged. */
  lemma DotFreeUnchanged(t: string)
    requires '.' !in t
    ensures GlobalReplace(DotTail, t, "", 0) == t
  {
    forall k | 0 <= k < |t|
      ensures MatchLength(DotTail, t, k) == 0
    {
      assert t[k] in t;
    }
    GlobalReplaceIdentity(DotTail, t, "");
  }

  /** A lower-case word is label-safe, so the last step keeps it. */
  lemma LowerWordKept(w: string)
    requires forall k :: 0 <= k < |w| ==> 'a' <= w[k] <= 'z'
    ensures GlobalReplace(Unsafe, w, " ", 0) == w
  {
    SafeTextUnchanged(w);
  }

  /** A bare `X.`, a use of a constant, is labelled `reference`. */
  lemma MemberWithoutCallIsReference(x: string)
    ensures CleanDefault(x, x + ".") == "reference"
  {
  }

  /** `X.(` loses its name, its dot and its parenthesis: the label is empty. */
  lemma MemberCallIsEmpty(x: string)
    requires IsIdentifier(x)
    ensures CleanDefault(x, x + ".(") == ""
  {
    var h := x + ".(";
    assert h != x + "." by { assert |h| != |x + "."|; }
    assert Cut(x, h) == "" by {
      assert h == x + "." + "(";
      ReplaceFirstAt(h, x + ".", "", 0);
      assert h[0..0] + "" + h[|x| + 1..] == "(";
      ReplaceFirstWhole("(", "");
    }
    assert Rename(x, "") == "";
  }

  /** The cut leaves `new X` of `new X(`. */
  lemma CutInstantiation(x: string)
    requires IsIdentifier(x)
    ensures Cut(x, "new " + x + "(") == "new " + x
  {
    var u := "new " + x;
    var h := u + "(";
    NotInIdentifier(x, '.');
    NotInIdentifier(x, '(');
    NotInAppend("new ", x, '.');
    NotInAppend("new ", x, '(');
    NotInAppend(u, "(", '.');
    assert (x + ".")[|x|] == '.';
    MissingCharNotContained(h, x + ".", '.');
    ReplaceFirstChar(u, '(', "", "");
    assert u + [] + [] == u;
    assert u + ['('] + [] == h;
    DotFreeUnchanged(u);
  }

  /** `new X` is renamed `instantiation`. */
  lemma RenameInstantiation(x: string)
    requires IsIdentifier(x)
    ensures Rename(x, "new " + x) == "instantiation"
  {
    var u := "new " + x;
    NotInIdentifier(x, '\\');
    NotInAppend("new ", x, '\\');
    assert InstantiationText(x)[|InstantiationText(x)| - 2] == '\\';
    MissingCharNotContained(u, InstantiationText(x), '\\');
    ReplaceFirstWhole(u, "instantiation");
    assert FlowText(x)[4] == '.';
    MissingCharNotContained("instantiation", FlowText(x), '.');
  }

  /** A hit other than a bare `X.` goes through the whole chain. */
  lemma CleanDefaultChain(x: string, h: string)
    requires h != x + "."
    ensures CleanDefault(x, h) == GlobalReplace(Unsafe, Rename(x, Cut(x, h)), " ", 0)
  {
  }

  /** A hit that ends in another character than a dot is not a bare `X.`. */
  lemma NotBareMember(x: string, h: string)
    requires h != [] && h[|h| - 1] != '.'
    ensures h != x + "."
  {
    assert (x + ".")[|x|] == '.';
  }

  lemma InstantiationWordKept()
    ensures GlobalReplace(Unsafe, "instantiation", " ", 0) == "instantiation"
  {
    var w := "instantiation";
    forall k | 0 <= k < |w|
      ensures 'a' <= w[k] <= 'z'
    {
    }
    LowerWordKept(w);
  }

  /** `new X(` becomes `instantiation`. */
  lemma InstantiationLabel(x: string)
    requires IsIdentifier(x)
    ensures CleanDefault(x, "new " + x + "(") == "instantiation"
  {
    var h := "new " + x + "(";
    assert h[|h| - 1] == '(';
    NotBareMember(x, h);
    CleanDefaultChain(x, h);
    CutInstantiation(x);
    RenameInstantiation(x);
    InstantiationWordKept();
  }

  /** A hit with neither `X.` nor `(` goes to the dot-tail step unchanged. */
  lemma CutPlain(x: string, h: string)
    requires !Contains(h, x + ".") && '(' !in h
    ensures Cut(x, h) == GlobalReplace(DotTail, h, "", 0)
  {
    MissingCharNotContained(h, "(", '(');
  }

  /** `Flow.Interview.X` starts with `Flow.` and has no line terminator after it. */
  lemma FlowShape(x: string)
    requires IsIdentifier(x)
    ensures var h := FlowText(x);
            && h[0..4] == "Flow" && h[4] == '.' && '(' !in h
            && (forall k :: 0 <= k < 4 ==> h[k] != '.')
            && forall k :: 5 <= k < |h| ==> !IsLineTerminator(h[k])
  {
    var h := FlowText(x);
    NotInIdentifier(x, '(');
    NotInAppend("Flow.Interview.", x, '(');
    forall k | 5 <= k < |h|
      ensures !IsLineTerminator(h[k])
    {
      if k >= 15 {
        assert h[k] == x[k - 15];
      }
    }
  }

  /** The cut leaves `Flow` of `Flow.Interview.X`, unless `X.` occurs inside it. */
  lemma CutFlow(x: string)
    requires IsIdentifier(x) && !Contains(FlowText(x), x + ".")
    ensures Cut(x, FlowText(x)) == "Flow"
  {
    var h := FlowText(x);
    FlowShape(x);
    CutPlain(x, h);
    forall k | 0 <= k < 4
      ensures MatchLength(DotTail, h, k) == 0
    {
    }
    GlobalReplaceSkip(DotTail, h, "", 0, 4);
    LineRunToEnd(h, 5);
    DotTailToEnd(h, 4);
    assert h[0..4] + "" == "Flow";
  }

  lemma FlowWordKept()
    ensures GlobalReplace(Unsafe, "Flow", " ", 0) == "Flow"
  {
    var w := "Flow";
    forall k | 0 <= k < |w|
      ensures IsLabelSafe(w[k])
    {
    }
    SafeTextUnchanged(w);
  }

  /** `Flow` is left alone by the renaming. */
  lemma RenameFlowWord(x: string)
    ensures Rename(x, "Flow") == "Flow"
  {
    assert InstantiationText(x)[|InstantiationText(x)| - 2] == '\\';
    MissingCharNotContained("Flow", InstantiationText(x), '\\');
    assert ("new " + x)[3] == ' ';
    MissingCharNotContained("Flow", "new " + x, ' ');
    assert FlowText(x)[4] == '.';
    MissingCharNotContained("Flow", FlowText(x), '.');
  }

  /**
   * `Flow.Interview.X` is cut at its first dot before the `flow` replacement could
   * see it, so the label is `Flow`. (When `X.` occurs inside the hit, as for a flow
   * named `w`, the first step removes it and the label differs.)
   */
  lemma FlowLabel(x: string)
    requires IsIdentifier(x) && !Contains(FlowText(x), x + ".")
    ensures CleanDefault(x, FlowText(x)) == "Flow"
  {
    assert FlowText(x)[|FlowText(x)| - 1] == x[|x| - 1] != '.';
    NotBareMember(x, FlowText(x));
    CleanDefaultChain(x, FlowText(x));
    CutFlow(x);
    RenameFlowWord(x);
    FlowWordKept();
  }

  /** A text without a quote has no `';` to remove. */
  lemma NoQuoteUnchanged(t: string)
    requires '\'' !in t
    ensures GlobalReplace(Literal("';"), t, "", 0) == t
  {
    forall k | 0 <= k < |t|
      ensures MatchLength(Literal("';"), t, k) == 0
    {
      if k + 2 <= |t| {
        assert t[k..k + 2][0] == t[k];
      }
    }
    GlobalReplaceIdentity(Literal("';"), t, "");
  }

  /** A text without a `p` holds no import. */
  lemma NoImportUnchanged(t: string)
    requires 'p' !in t
    ensures GlobalReplace(ApexImportPrefix, t, "imported", 0) == t
  {
    forall k | 0 <= k < |t|
      ensures MatchLength(ApexImportPrefix, t, k) == 0
    {
      if k + 7 <= |t| {
        assert t[k..k + 7][2] == t[k + 2];
      }
    }
    GlobalReplaceIdentity(ApexImportPrefix, t, "imported");
  }

  /** `controller="X"` becomes `controller`. */
  lemma ControllerLabel(x: string)
    ensures CleanComponent(x, ControllerText(x)) == "controller"
  {
    ReplaceFirstWhole(ControllerText(x), "controller");
    ControllerWordKept();
  }

  /** The word `controller` survives the last two steps. */
  lemma ControllerWordKept()
    ensures GlobalReplace(ApexImportPrefix, GlobalReplace(Literal("';"), "controller", "", 0), "imported", 0) == "controller"
  {
    var w := "controller";
    forall k | 0 <= k < |w|
      ensures w[k] != '\'' && w[k] != 'p'
    {
    }
    NoQuoteUnchanged(w);
    NoImportUnchanged(w);
  }

  // ---------------------------------------------------------------------------
  // Bare uses

  /** Without `X.(` in the text, a member-access match is a bare `X.`. */
  lemma BareMemberHit(t: string, x: string, i: nat)
    requires i <= |t| && MatchLength(MemberAccess(x), t, i) > 0 && !Contains(t, x + ".(")
    ensures t[i..i + MatchLength(MemberAccess(x), t, i)] == x + "."
  {
    MemberHit(x, t, i);
    if t[i..i + MatchLength(MemberAccess(x), t, i)] == x + ".(" {
      ContainsAt(t, x + ".(", i);
    }
  }

  /** Without `X.(` in the text, every member-access hit is a bare `X.`. */
  lemma {:induction false} BareMemberHits(t: string, x: string, i: nat)
    requires i <= |t| && !Contains(t, x + ".(")
    ensures forall h :: h in Scan(MemberAccess(x), t, i) ==> h == x + "."
    decreases |t| - i
  {
    if i < |t| {
      var n := MatchLength(MemberAccess(x), t, i);
      if n > 0 {
        BareMemberHits(t, x, i + n);
        BareMemberHit(t, x, i);
        ScanHit(MemberAccess(x), t, i);
      } else {
        BareMemberHits(t, x, i + 1);
        ScanMiss(MemberAccess(x), t, i);
      }
    }
  }

  /**
   * A text that mentions `X` only as bare `X.` uses (no `new X(`, no `X.(`, no `Flow`)
   * yields one `reference` label per use.
   */
  lemma BareUsesAreReferences(t: string, x: string)
    requires !Contains(t, "new " + x + "(") && !Contains(t, x + ".(") && !Contains(t, "Flow")
    ensures var r := DefaultReferences(t, x);
            && |r| == |Scan(MemberAccess(x), t, 0)|
            && forall i :: 0 <= i < |r| ==> r[i] == "reference"
  {
    ScanLiteralAbsent("new " + x + "(", t);
    ScanFlowAbsent(x, t);
    var hs := Scan(MemberAccess(x), t, 0);
    assert DefaultHits(t, x) == hs;
    BareMemberHits(t, x, 0);
    forall i | 0 <= i < |hs|
      ensures CleanDefault(x, hs[i]) == "reference"
    {
      assert hs[i] in hs;
    }
  }

  // ---------------------------------------------------------------------------
  // An Apex import

  /** `import <y> from '@salesforce/apex/X.<m>';`, one line of a component's script. */
  function ImportLine(x: string, y: string, m: string): string {
    ImportHead(x, y, m) + "';"
  }

  /** The import line without its closing `';`. */
  function ImportHead(x: string, y: string, m: string): string {
    "import " + y + ApexPath + x + "." + m
  }

  /** A run of text that stays on one line and holds no quote of either kind. */
  predicate Plain(s: string) {
    forall k :: 0 <= k < |s| ==> s[k] != '\'' && s[k] != '"' && !IsLineTerminator(s[k])
  }

  /** Where the pieces of an import line sit. */
  lemma ImportHeadShape(x: string, y: string, m: string)
    ensures var u := ImportHead(x, y, m);
            var q0 := 7 + |y|;
            var d := q0 + |ApexPath| + |x|;
            && |u| == d + |m| + 1
            && u[..7] == "import " && u[7..q0] == y
            && u[q0..d] == ApexPath + x && u[d] == '.' && u[d + 1..] == m
  {
  }

  /** The words around the free parts of an import line hold no quote and no line break. */
  lemma ImportWords()
    ensures forall k :: 0 <= k < |"import "| ==> "import "[k] != '\'' && "import "[k] != '"' && !IsLineTerminator("import "[k])
    ensures forall k :: 0 <= k < |ApexPath| ==> ApexPath[k] != '"'
    ensures ApexPath[7] == '@'
  {
    var w := "import ";
    forall k | 0 <= k < |w|
      ensures w[k] != '\'' && w[k] != '"' && !IsLineTerminator(w[k])
    {
    }
    var a := ApexPath;
    forall k | 0 <= k < |a|
      ensures a[k] != '"'
    {
    }
  }

  /** One character of an import line whose free parts are plain. */
  lemma ImportCharAt(x: string, y: string, m: string, k: nat)
    requires IsIdentifier(x) && Plain(y) && Plain(m) && k < |ImportHead(x, y, m)|
    ensures var u := ImportHead(x, y, m);
            var q0 := 7 + |y|;
            var d := q0 + |ApexPath| + |x|;
            && u[k] != '"' && !IsLineTerminator(u[k])
            && (k != q0 + 6 ==> u[k] != '\'')
            && (q0 + |ApexPath| <= k < d ==> u[k] != '.')
  {
    var u := ImportHead(x, y, m);
    var q0 := 7 + |y|;
    var d := q0 + |ApexPath| + |x|;
    ImportHeadShape(x, y, m);
    if k < 7 {
      ImportWords();
      assert u[k] == u[..7][k];
    } else if k < q0 {
      assert u[k] == u[7..q0][k - 7];
    } else if k < q0 + |ApexPath| {
      ImportWords();
      ApexPathQuote();
      assert u[k] == u[q0..d][k - q0] == ApexPath[k - q0];
    } else if k < d {
      assert u[k] == u[q0..d][k - q0] == x[k - q0 - |ApexPath|];
    } else if k > d {
      assert u[k] == u[d + 1..][k - d - 1];
    }
  }

  /**
   * In an import line whose free parts are plain, the only quote before the closing
   * `';` is the one that opens the path, followed by `@`; there is no double quote, no
   * line break, and no dot between the path and the dot after `X`.
   */
  lemma ImportChars(x: string, y: string, m: string)
    requires IsIdentifier(x) && Plain(y) && Plain(m)
    ensures var u := ImportHead(x, y, m);
            var q0 := 7 + |y|;
            var d := q0 + |ApexPath| + |x|;
            && '"' !in u
            && (forall k :: 0 <= k < |u| && k != q0 + 6 ==> u[k] != '\'')
            && (forall k :: 0 <= k < |u| ==> !IsLineTerminator(u[k]))
            && (forall k :: q0 + |ApexPath| <= k < d ==> u[k] != '.')
            && u[q0 + 6] == '\'' && u[q0 + 7] == '@'
  {
    var u := ImportHead(x, y, m);
    var q0 := 7 + |y|;
    var d := q0 + |ApexPath| + |x|;
    forall k | 0 <= k < |u|
      ensures u[k] != '"' && !IsLineTerminator(u[k])
      ensures k != q0 + 6 ==> u[k] != '\''
      ensures q0 + |ApexPath| <= k < d ==> u[k] != '.'
    {
      ImportCharAt(x, y, m, k);
    }
    ImportHeadShape(x, y, m);
    ImportWords();
    ApexPathQuote();
    assert u[q0 + 6] == u[q0..d][6] && u[q0 + 7] == u[q0..d][7];
  }

  /** Before the quote that opens it, the import path cannot start. */
  lemma ImportPathFirst(t: string, q0: nat)
    requires q0 + 6 <= |t| && forall k :: 0 <= k < q0 + 6 ==> t[k] != '\''
    ensures forall k :: 0 <= k < q0 ==> !OccursAt(t, ApexPath, k)
  {
    forall k | 0 <= k < q0
      ensures !OccursAt(t, ApexPath, k)
    {
      ApexPathNeedsQuote(t, k);
    }
  }

  /** The Apex import pattern matches the whole line, from `import` to the closing `';`. */
  lemma ImportMatch(x: string, y: string, m: string)
    requires IsIdentifier(x) && Plain(y) && Plain(m)
    ensures MatchLength(ApexImport(x), ImportLine(x, y, m), 0) == |ImportLine(x, y, m)|
  {
    var u := ImportHead(x, y, m);
    var h := ImportLine(x, y, m);
    var q0 := 7 + |y|;
    var d := q0 + |ApexPath| + |x|;
    ImportHeadShape(x, y, m);
    ImportChars(x, y, m);
    assert h[|h| - 2..] == "';";
    QuoteCloseEnd(h, d + 1);
    assert OccursAt(h, ApexPath + x, q0) by { assert h[q0..d] == u[q0..d]; }
    assert ImportTail(h, x, q0) == Some(|h|);
    ImportPathFirst(h, q0);
    ImportBodyFirst(h, x, 7, q0);
    assert OccursAt(h, "import ", 0) by { assert h[..7] == u[..7]; }
  }

  /** A script made of one such line yields that line as its one Apex import hit. */
  lemma ImportScan(x: string, y: string, m: string)
    requires IsIdentifier(x) && Plain(y) && Plain(m)
    ensures Scan(ApexImport(x), ImportLine(x, y, m), 0) == [ImportLine(x, y, m)]
  {
    var h := ImportLine(x, y, m);
    ImportMatch(x, y, m);
    ScanHit(ApexImport(x), h, 0);
    assert h[0..|h|] == h;
  }

  /** The `';` step drops the closing quote and semicolon, and nothing else. */
  lemma ImportQuoteDropped(x: string, y: string, m: string)
    requires IsIdentifier(x) && Plain(y) && Plain(m)
    ensures GlobalReplace(Literal("';"), ImportLine(x, y, m), "", 0) == ImportHead(x, y, m)
  {
    var u := ImportHead(x, y, m);
    var q0 := 7 + |y|;
    ImportHeadShape(x, y, m);
    ImportChars(x, y, m);
    forall k | 0 <= k < |u|
      ensures !OccursAt(u, "';", k)
    {
      if k + 2 <= |u| {
        assert u[k..k + 2][0] == u[k] && u[k..k + 2][1] == u[k + 1];
      }
    }
    QuoteSemicolonDropped(u);
  }

  /** The prefix step turns everything up to the dot after `X` into `imported`. */
  lemma ImportPrefixReplaced(x: string, y: string, m: string)
    requires IsIdentifier(x) && Plain(y) && Plain(m)
    ensures GlobalReplace(ApexImportPrefix, ImportHead(x, y, m), "imported", 0) == "imported" + m
  {
    var u := ImportHead(x, y, m);
    var q0 := 7 + |y|;
    var d := q0 + |ApexPath| + |x|;
    ImportHeadShape(x, y, m);
    ImportChars(x, y, m);
    assert OccursAt(u, ApexPath, q0) by { assert u[q0..q0 + |ApexPath|] == u[q0..d][..|ApexPath|]; }
    ImportPathFirst(u, q0);
    PrefixReplaced(u, q0, d, "imported");
  }

  /**
   * `import <y> from '@salesforce/apex/X.<m>';` becomes `imported` followed directly by
   * the method name: the prefix replacement consumes the dot after `X`.
   */
  lemma ImportLabel(x: string, y: string, m: string)
    requires IsIdentifier(x) && Plain(y) && Plain(m)
    ensures CleanComponent(x, ImportLine(x, y, m)) == "imported" + m
  {
    var h := ImportLine(x, y, m);
    ImportChars(x, y, m);
    assert '"' !in h;
    assert ControllerText(x)[11] == '"';
    MissingCharNotContained(h, ControllerText(x), '"');
    ImportQuoteDropped(x, y, m);
    ImportPrefixReplaced(x, y, m);
  }

  /**
   * An Aura or LWC script made of one such line references `X` once, with the label
   * `imported<m>`.
   */
  lemma ImportReference(k: Kind, x: string, y: string, m: string)
    requires HasJS(k) && IsIdentifier(x) && Plain(y) && Plain(m)
    ensures FindReference(k, ImportLine(x, y, m), x) == ["imported" + m]
  {
    var h := ImportLine(x, y, m);
    ImportChars(x, y, m);
    assert '"' !in h;
    assert ControllerText(x)[11] == '"';
    MissingCharNotContained(h, ControllerText(x), '"');
    ScanLiteralAbsent(ControllerText(x), h);
    ImportScan(x, y, m);
    assert ComponentHits(h, x) == [h];
    ImportLabel(x, y, m);
  }

  // ---------------------------------------------------------------------------
  // The parsing scenario: one instantiation, nothing else

  /**
   * A text that creates one instance of `X` and mentions it nowhere else (no `X.`,
   * no flow interview) yields exactly the label `instantiation`.
   */
  lemma SingleInstantiation(t: string, x: string, j: nat)
    requires IsIdentifier(x)
    requires OccursAt(t, "new " + x + "(", j)
    requires forall k: nat :: k != j ==> !OccursAt(t, "new " + x + "(", k)
    requires !Contains(t, x + ".") && !Contains(t, "Flow")
    ensures FindReference(Class, t, x) == ["instantiation"]
  {
    var lit := "new " + x + "(";
    forall k | 0 <= k < |t| && k != j
      ensures MatchLength(Literal(lit), t, k) == 0
    {
    }
    ScanUnique(Literal(lit), t, j);
    ScanMemberAbsent(x, t);
    ScanFlowAbsent(x, t);
    assert DefaultHits(t, x) == [lit];
    InstantiationLabel(x);
  }
}
