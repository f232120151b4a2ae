/**
 * The six kinds of Salesforce artifact the graph knows about, with everything that is
 * fixed per kind: its tag, folder, file extension, colour, whether it has companion
 * JavaScript files, the pattern that reveals a reference to an item of the kind, and
 * the identity (unique name) and display name of an item.
 * Source: src/dependencyGraph.js, the `ItemType` family and the `itemTypeMap` registration.
 */
module ItemTypes {
  import opened Maybe
  import opened Strings

  datatype Kind = Class | Trigger | Aura | Lwc | Visualforce | Flow

  /** The order in which the kinds are registered, and therefore scanned. */
  const Registration: seq<Kind> := [Class, Trigger, Aura, Lwc, Visualforce, Flow]

  function Rank(k: Kind): (r: nat)
    ensures r < |Registration| && Registration[r] == k
  {
    match k
    case Class => 0
    case Trigger => 1
    case Aura => 2
    case Lwc => 3
    case Visualforce => 4
    case Flow => 5
  }

  function Tag(k: Kind): string {
    match k
    case Class => "CLASS"
    case Trigger => "TRIGGER"
    case Aura => "AURA"
    case Lwc => "LWC"
    case Visualforce => "VISUALFORCE"
    case Flow => "FLOW"
  }

  function Folder(k: Kind): string {
    match k
    case Class => "classes"
    case Trigger => "triggers"
    case Aura => "aura"
    case Lwc => "lwc"
    case Visualforce => "pages"
    case Flow => "flows"
  }

  function Extension(k: Kind): string {
    match k
    case Class => ".cls"
    case Trigger => ".trigger"
    case Aura => ".cmp"
    case Lwc => ".html"
    case Visualforce => ".page"
    case Flow => ".flow-meta.xml"
  }

  function Color(k: Kind): string {
    match k
    case Class => "lightblue"
    case Trigger => "cyan"
    case Aura => "yellow"
    case Lwc => "lightgreen"
    case Visualforce => "plum"
    case Flow => "pink"
  }

  /** Aura and LWC items are folders with companion `.js` files (the `JSItemType` subclass). */
  predicate HasJS(k: Kind) {
    k == Aura || k == Lwc
  }

  /** `getGraphTypeDescription`. */
  function GraphTypeDescription(k: Kind): string {
    match k
    case Class => "Classes"
    case Trigger => "Triggers"
    case Lwc => "LWCs"
    case Aura => "Aura Components"
    case Flow => "Flows"
    case Visualforce => "VisualForce Pages/Components"
  }

  /** Distinct kinds have distinct tags. */
  lemma TagInjective(k1: Kind, k2: Kind)
    requires Tag(k1) == Tag(k2)
    ensures k1 == k2
  {
    assert Tag(k1)[0] == Tag(k2)[0] && |Tag(k1)| == |Tag(k2)|;
  }

  // ---------------------------------------------------------------------------
  // Identity

  /** `getUniqueName`: the key of an item in the cross-reference map. */
  function UniqueName(name: string, k: Kind): (u: string)
    ensures LastPiece(u, '-') == Tag(k)
  {
    LastPieceAfter(name, '-', Tag(k));
    name + "-" + Tag(k)
  }

  /** The text shown for an item in the graph. */
  function DisplayName(name: string, k: Kind): (d: string)
    ensures LastPiece(d, ' ') == Tag(k)
  {
    LastPieceAfter(name, ' ', Tag(k));
    name + " " + Tag(k)
  }

  /** The last piece of `a + c + t` is `t` when `t` does not hold the separator. */
  lemma {:induction false} LastPieceAfter(a: string, c: char, t: string)
    requires c !in t
    ensures LastPiece(a + [c] + t, c) == t
    decreases |a|
  {
    var s := a + [c] + t;
    assert s[|a|] == c;
    var i := CharIndex(s, c);
    CharIndexFirst(s, c, |a|);
    if i == |a| {
      assert s[i + 1..] == t;
    } else {
      assert s[i + 1..] == a[i + 1..] + [c] + t;
      LastPieceAfter(a[i + 1..], c, t);
    }
  }

  /**
   * Items of different kinds never share a key, even when their names are equal, and
   * neither do items of one kind with different names: the tags hold no hyphen, so the
   * tag is everything after the last hyphen of the key.
   */
  lemma UniqueNameInjective(n1: string, k1: Kind, n2: string, k2: Kind)
    requires UniqueName(n1, k1) == UniqueName(n2, k2)
    ensures n1 == n2 && k1 == k2
  {
    TagInjective(k1, k2);
    var u := UniqueName(n1, k1);
    assert n1 == u[..|n1|] && n2 == u[..|n2|];
  }

  /** The same holds of display names, whose separator is a space. */
  lemma DisplayNameInjective(n1: string, k1: Kind, n2: string, k2: Kind)
    requires DisplayName(n1, k1) == DisplayName(n2, k2)
    ensures n1 == n2 && k1 == k2
  {
    TagInjective(k1, k2);
    var d := DisplayName(n1, k1);
    assert n1 == d[..|n1|] && n2 == d[..|n2|];
  }

  // ---------------------------------------------------------------------------
  // Search patterns

  function AsciiUpperChar(c: char): char {
    if 'a' <= c <= 'z' then (c as int - 'a' as int + 'A' as int) as char else c
  }

  /** What one character of a name becomes in kebab-case. */
  function KebabChar(c: char): string {
    if IsUpper(c) then ['-', AsciiLowerChar(c)] else [c]
  }

  /** `aName.replace(/([A-Z])/g, g => '-' + g.toLowerCase())`: camelCase to kebab-case. */
  function Kebab(x: string): (r: string)
    ensures forall k :: 0 <= k < |r| ==> !IsUpper(r[k])
    ensures |r| >= |x|
  {
    if x == [] then [] else KebabChar(x[0]) + Kebab(x[1..])
  }

  lemma {:induction false} KebabAppend(a: string, b: string)
    ensures Kebab(a + b) == Kebab(a) + Kebab(b)
  {
    if a != [] {
      assert (a + b)[0] == a[0];
      assert (a + b)[1..] == a[1..] + b;
      KebabAppend(a[1..], b);
      calc {
        Kebab(a + b);
        KebabChar(a[0]) + Kebab(a[1..] + b);
        KebabChar(a[0]) + (Kebab(a[1..]) + Kebab(b));
        (KebabChar(a[0]) + Kebab(a[1..])) + Kebab(b);
      }
    } else {
      assert a + b == b;
    }
  }

  /** Back from kebab-case: a hyphen and the letter after it become that letter in upper case. */
  function Camel(r: string): string
    decreases |r|
  {
    if r == [] then []
    else if r[0] == '-' && |r| >= 2 then [AsciiUpperChar(r[1])] + Camel(r[2..])
    else [r[0]] + Camel(r[1..])
  }

  /** For a name without hyphens the kebab-case tag loses nothing. */
  lemma {:induction false} KebabRoundTrip(x: string)
    requires '-' !in x
    ensures Camel(Kebab(x)) == x
  {
    if x != [] {
      assert '-' !in x[1..];
      KebabRoundTrip(x[1..]);
      if IsUpper(x[0]) {
        var r := Kebab(x);
        assert r == KebabChar(x[0]) + Kebab(x[1..]);
        assert KebabChar(x[0]) == ['-', AsciiLowerChar(x[0])];
        assert r[2..] == Kebab(x[1..]);
      } else {
        var r := Kebab(x);
        assert r[1..] == Kebab(x[1..]);
      }
      assert x == [x[0]] + x[1..];
    }
  }

  /** `getComponentName`: the text whose presence in another item's text reveals a reference. */
  function SearchPattern(name: string, k: Kind): (p: string)
    ensures k == Lwc ==> StartsWith(p, "c-") && forall i :: 2 <= i < |p| ==> !IsUpper(p[i])
    ensures k == Lwc && '-' !in name ==> Camel(p[2..]) == name
    ensures k == Aura ==> StartsWith(p, "c:") && EndsWith(p, " ") && |p| == |name| + 3
    ensures k != Lwc && k != Aura ==> p == name
  {
    match k
    case Lwc =>
      var p := "c-" + Kebab(name);
      assert p[2..] == Kebab(name);
      if '-' !in name then KebabRoundTrip(name); p else p
    case Aura => "c:" + name + " "
    case _ => name
  }

  lemma AuraPatternExample()
    ensures SearchPattern("MyWidget", Aura) == "c:MyWidget "
  {
  }

  // ---------------------------------------------------------------------------
  // Project folder

  /** The folder delimiter; the model takes POSIX paths. */
  const Delimiter: string := "/"

  predicate HasAllSegments(path: string) {
    Contains(path, "force-app") && Contains(path, "main") && Contains(path, "default")
  }

  lemma AllSegmentsAppended(q: string)
    ensures HasAllSegments(q + Delimiter + "force-app" + Delimiter + "main" + Delimiter + "default")
  {
    var r := q + Delimiter + "force-app" + Delimiter + "main" + Delimiter + "default";
    ContainsPiece(q + Delimiter, "force-app", Delimiter + "main" + Delimiter + "default");
    assert r == q + Delimiter + "force-app" + (Delimiter + "main" + Delimiter + "default");
    ContainsPiece(q + Delimiter + "force-app" + Delimiter, "main", Delimiter + "default");
    assert r == q + Delimiter + "force-app" + Delimiter + "main" + (Delimiter + "default");
    ContainsPiece(q + Delimiter + "force-app" + Delimiter + "main" + Delimiter, "default", "");
    assert r == r + "";
  }

  lemma MainDefaultAppended(q: string)
    requires Contains(q, "force-app")
    ensures HasAllSegments(q + Delimiter + "main" + Delimiter + "default")
  {
    var r := q + Delimiter + "main" + Delimiter + "default";
    ContainsExtend(q, "force-app", Delimiter + "main" + Delimiter + "default");
    assert r == q + (Delimiter + "main" + Delimiter + "default");
    ContainsPiece(q + Delimiter, "main", Delimiter + "default");
    assert r == q + Delimiter + "main" + (Delimiter + "default");
    ContainsPiece(q + Delimiter + "main" + Delimiter, "default", "");
    assert r == r + "";
  }

  lemma DefaultAppended(q: string)
    requires Contains(q, "force-app") && Contains(q, "main")
    ensures HasAllSegments(q + Delimiter + "default")
  {
    ContainsExtend(q, "force-app", Delimiter + "default");
    ContainsExtend(q, "main", Delimiter + "default");
    assert q + Delimiter + "default" == q + (Delimiter + "default");
    ContainsPiece(q + Delimiter, "default", "");
    assert q + Delimiter + "default" == q + Delimiter + "default" + "";
  }

  /**
   * `getSourceCodeFolder` on an already resolved path: the missing conventional segments
   * are appended in priority order, so the result always names all three, and a path
   * that already names all three is refused.
   */
  function SourceCodeFolder(folder: string): (r: Option<string>)
    ensures r.None? <==> HasAllSegments(ReplaceFirst(folder, "\\c%3A", ""))
    ensures r.Some? ==> StartsWith(r.value, ReplaceFirst(folder, "\\c%3A", "")) && HasAllSegments(r.value)
  {
    var q := ReplaceFirst(folder, "\\c%3A", "");
    if !Contains(q, "force-app") then
      AllSegmentsAppended(q);
      Some(q + Delimiter + "force-app" + Delimiter + "main" + Delimiter + "default")
    else if !Contains(q, "main") then
      MainDefaultAppended(q);
      Some(q + Delimiter + "main" + Delimiter + "default")
    else if !Contains(q, "default") then
      DefaultAppended(q);
      Some(q + Delimiter + "default")
    else None
  }

  /** The conventional segments of a source folder, in the order they nest. */
  const Segments: seq<string> := ["force-app", "main", "default"]

  lemma SegmentsJoined()
    ensures Join(Segments[0..], Delimiter) == "force-app" + Delimiter + "main" + Delimiter + "default"
    ensures Join(Segments[1..], Delimiter) == "main" + Delimiter + "default"
    ensures Join(Segments[2..], Delimiter) == "default"
  {
    assert Segments[0..][1..] == Segments[1..];
    assert Segments[1..][1..] == Segments[2..];
    assert Join(Segments[2..], Delimiter) == "default";
    assert Join(Segments[1..], Delimiter) == "main" + Delimiter + "default";
  }

  /**
   * The priority order: when the first conventional segment the path lacks is
   * `Segments[j]`, the result is the path followed by that segment and every one after
   * it, each behind a delimiter.
   */
  lemma SourceCodeFolderOrder(folder: string, j: nat)
    requires j < |Segments|
    requires !Contains(ReplaceFirst(folder, "\\c%3A", ""), Segments[j])
    requires forall i :: 0 <= i < j ==> Contains(ReplaceFirst(folder, "\\c%3A", ""), Segments[i])
    ensures SourceCodeFolder(folder) == Some(ReplaceFirst(folder, "\\c%3A", "") + Delimiter + Join(Segments[j..], Delimiter))
  {
    var q := ReplaceFirst(folder, "\\c%3A", "");
    SegmentsJoined();
    if j == 0 {
      assert q + Delimiter + Join(Segments[0..], Delimiter)
          == q + Delimiter + "force-app" + Delimiter + "main" + Delimiter + "default";
    } else if j == 1 {
      assert Contains(q, Segments[0]);
      assert q + Delimiter + Join(Segments[1..], Delimiter) == q + Delimiter + "main" + Delimiter + "default";
    } else {
      assert Contains(q, Segments[0]) && Contains(q, Segments[1]);
    }
  }

  // ---------------------------------------------------------------------------
  // Command-line flags

  /** The flag each per-kind menu command passes to `createGraph`. */
  function HandlerFlag(k: Kind): string {
    match k
    case Class => "--classes"
    case Trigger => "--trigger"
    case Flow => "--flow"
    case Aura => "--aura"
    case Lwc => "--lwc"
    case Visualforce => "--vf"
  }

  /** Some argument equals `flag` once lower-cased (`lowerCaseArgs.includes(flag)`). */
  predicate HasFlag(args: seq<string>, flag: string) {
    exists i :: 0 <= i < |args| && AsciiLower(args[i]) == flag
  }

  /** The argument parsing at the top of `createGraph`: lower-cased exact matches, in priority order. */
  function ParseGraphType(args: seq<string>): Kind {
    if HasFlag(args, "--trigger") then Trigger
    else if HasFlag(args, "--lwc") then Lwc
    else if HasFlag(args, "--aura") then Aura
    else if HasFlag(args, "--flow") then Flow
    else if HasFlag(args, "--visualforce") || HasFlag(args, "--vf") then Visualforce
    else Class
  }

  /** Every per-kind menu command's flag selects that kind. */
  lemma HandlerFlagRoundTrip(k: Kind)
    ensures ParseGraphType([HandlerFlag(k)]) == k
  {
    var f := HandlerFlag(k);
    FlagIsLower(k);
    SingleFlag(f, "--trigger");
    SingleFlag(f, "--lwc");
    SingleFlag(f, "--aura");
    SingleFlag(f, "--flow");
    SingleFlag(f, "--visualforce");
    SingleFlag(f, "--vf");
  }

  /** A single argument carries exactly the flag it lowers to. */
  lemma SingleFlag(f: string, g: string)
    ensures HasFlag([f], g) <==> AsciiLower(f) == g
  {
    assert [f][0] == f;
  }

  lemma FlagIsLower(k: Kind)
    ensures AsciiLower(HandlerFlag(k)) == HandlerFlag(k)
  {
    match k
    case Class => LowerFixed("--classes");
    case Trigger => LowerFixed("--trigger");
    case Flow => LowerFixed("--flow");
    case Aura => LowerFixed("--aura");
    case Lwc => LowerFixed("--lwc");
    case Visualforce => LowerFixed("--vf");
  }
}
