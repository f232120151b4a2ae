/**
 * The catalog: which items a project holds and what text each of them has.
 *
 * The file system is an abstract snapshot: directory listings and file contents keyed
 * by path, where a missing directory lists as empty and a missing file reads as "".
 * Each kind lists its items from its own folder (`getItemList` and its overrides);
 * the catalog is the concatenation of the kinds' lists in registration order, which
 * is the order in which the cross-reference builder visits them.
 * Source: src/dependencyGraph.js, `ItemType`, `JSItemType`, `VFItemType`,
 * `FlowItemType` and `ItemData`.
 */
module Catalog {
  import opened Maybe
  import opened Strings
  import opened ItemTypes

  /** A snapshot of the project on disk. */
  datatype Project = Project(dirs: map<string, seq<string>>, files: map<string, string>)

  /** `readDirIfItExists`: a folder that is not there lists as empty. */
  function ReadDir(p: Project, path: string): seq<string> {
    if path in p.dirs then p.dirs[path] else []
  }

  /** `getFile`: a file that is not there reads as the empty text. */
  function ReadFile(p: Project, path: string): string {
    if path in p.files then p.files[path] else ""
  }

  /** An `ItemData`: a name, the kind it was listed under and the file it was read from. */
  datatype Item = Item(name: string, kind: Kind, path: string)

  /** The item's key in the cross-reference map. */
  function Key(it: Item): string {
    UniqueName(it.name, it.kind)
  }

  /** The item's label in the graph. */
  function Display(it: Item): string {
    DisplayName(it.name, it.kind)
  }

  /** The text whose presence in another item's text counts as a reference to it. */
  function Search(it: Item): string {
    SearchPattern(it.name, it.kind)
  }

  /** The folder a kind lists its items from. */
  function KindDir(folder: string, k: Kind): string {
    folder + Delimiter + Folder(k)
  }

  // ---------------------------------------------------------------------------
  // File names

  /** The kinds whose items are single files checked by `validateFileName`. */
  predicate IsFileKind(k: Kind) {
    k == Class || k == Trigger || k == Flow
  }

  /**
   * `validateFileName`: no leading dot, the kind's extension, and, except for flows,
   * no "test" anywhere in the name whatever its case.
   */
  predicate ValidFileName(k: Kind, f: string) {
    && !StartsWith(f, ".")
    && (k == Flow || !Contains(AsciiLower(f), "test"))
    && EndsWith(f, Extension(k))
  }

  /** The file name without its extension. */
  function Stem(f: string, ext: string): (n: string)
    requires EndsWith(f, ext)
    ensures n + ext == f
  {
    assert f == f[..|f| - |ext|] + f[|f| - |ext|..];
    f[..|f| - |ext|]
  }

  /** Stripping an extension undoes appending it. */
  lemma StemOfAppend(n: string, ext: string)
    ensures EndsWith(n + ext, ext) && Stem(n + ext, ext) == n
  {
    assert (n + ext)[|n|..] == ext;
    assert (n + ext)[..|n|] == n;
  }

  /**
   * `ItemType.getItemList`: one item per valid file, in listing order, named after the
   * file without its extension and pointing at the file in the kind's folder.
   */
  function FileItems(k: Kind, dir: string, fs: seq<string>): (r: seq<Item>)
    requires IsFileKind(k)
    ensures |r| <= |fs|
    ensures forall it :: it in r ==>
              && it.kind == k && it.name + Extension(k) in fs
              && ValidFileName(k, it.name + Extension(k))
              && it.path == dir + Delimiter + it.name + Extension(k)
    ensures forall f :: f in fs && ValidFileName(k, f) ==>
              Item(Stem(f, Extension(k)), k, dir + Delimiter + f) in r
  {
    if fs == [] then []
    else
      var rest := FileItems(k, dir, fs[1..]);
      assert forall f :: f in fs[1..] ==> f in fs;
      if ValidFileName(k, fs[0]) then [Item(Stem(fs[0], Extension(k)), k, dir + Delimiter + fs[0])] + rest
      else rest
  }

  /** A flow file is kept whatever its name says, "test" included, unless it is hidden. */
  lemma FlowFileKept(n: string)
    requires |n| > 0 && n[0] != '.'
    ensures ValidFileName(Flow, n + Extension(Flow))
  {
    StemOfAppend(n, Extension(Flow));
    assert (n + Extension(Flow))[0] == n[0];
  }

  // ---------------------------------------------------------------------------
  // Lightning components: one subfolder per item

  /** A subfolder entry the listing maps to `null`. */
  predicate IsSkippedFolder(sub: string) {
    Contains(sub, ".json") || StartsWith(sub, ".")
  }

  /** The main file of a component: `<dir>/<sub>/<sub><extension>`. */
  function BundlePath(dir: string, sub: string, k: Kind): string {
    dir + Delimiter + sub + Delimiter + sub + Extension(k)
  }

  /** `JSItemType.getItemList` once the folder is known not to be empty. */
  function BundleEntries(k: Kind, dir: string, subs: seq<string>): (r: seq<Option<Item>>)
    ensures |r| == |subs|
    ensures forall i :: 0 <= i < |subs| ==> (r[i].None? <==> IsSkippedFolder(subs[i]))
    ensures forall i :: 0 <= i < |subs| && r[i].Some? ==>
              r[i].value == Item(subs[i], k, BundlePath(dir, subs[i], k))
  {
    if subs == [] then []
    else
      var e := if IsSkippedFolder(subs[0]) then None else Some(Item(subs[0], k, BundlePath(dir, subs[0], k)));
      [e] + BundleEntries(k, dir, subs[1..])
  }

  // ---------------------------------------------------------------------------
  // Visualforce pages and components

  predicate ValidPageFile(f: string) {
    !StartsWith(f, ".") && (EndsWith(f, ".page") || EndsWith(f, ".component"))
  }

  /**
   * One page-or-component file as an item. The suffix decides both the name and the
   * folder the path points at, whichever listing the file came from.
   */
  function PageItem(folder: string, f: string): (it: Item)
    requires ValidPageFile(f)
    ensures it.kind == Visualforce
    ensures EndsWith(f, ".component") ==>
              it.name + ".component" == f && it.path == folder + Delimiter + "components" + Delimiter + f
    ensures !EndsWith(f, ".component") ==>
              it.name + ".page" == f && it.path == KindDir(folder, Visualforce) + Delimiter + f
  {
    if EndsWith(f, ".component") then
      Item(Stem(f, ".component"), Visualforce, folder + Delimiter + "components" + Delimiter + f)
    else
      Item(Stem(f, ".page"), Visualforce, KindDir(folder, Visualforce) + Delimiter + f)
  }

  /** The filter and map of `VFItemType.getItemList`. */
  function PageItems(folder: string, fs: seq<string>): (r: seq<Item>)
    ensures |r| <= |fs|
    ensures forall it :: it in r ==> it.kind == Visualforce
    ensures forall f :: f in fs && ValidPageFile(f) ==> PageItem(folder, f) in r
    ensures forall it :: it in r ==> exists f :: f in fs && ValidPageFile(f) && it == PageItem(folder, f)
  {
    if fs == [] then []
    else
      var rest := PageItems(folder, fs[1..]);
      assert forall f :: f in fs[1..] ==> f in fs;
      if ValidPageFile(fs[0]) then [PageItem(folder, fs[0])] + rest else rest
  }

  // ---------------------------------------------------------------------------
  // Listing per kind

  /**
   * `getItemList` of the kind's class: `None` stands for the `null` a component or
   * Visualforce listing returns when its folders are empty, a `None` entry for the
   * `null` a skipped component subfolder becomes.
   */
  function ItemList(p: Project, folder: string, k: Kind): (r: Option<seq<Option<Item>>>)
    ensures r.Some? ==> forall i :: 0 <= i < |r.value| && r.value[i].Some? ==> r.value[i].value.kind == k
  {
    var dir := KindDir(folder, k);
    match k
    case Aura => ComponentList(k, dir, ReadDir(p, dir))
    case Lwc => ComponentList(k, dir, ReadDir(p, dir))
    case Visualforce =>
      var all := ReadDir(p, dir) + ReadDir(p, folder + Delimiter + "components");
      if |all| == 0 then None else Some(Wrap(PageItems(folder, all)))
    case _ => Some(Wrap(FileItems(k, dir, ReadDir(p, dir))))
  }

  function ComponentList(k: Kind, dir: string, subs: seq<string>): (r: Option<seq<Option<Item>>>)
    ensures r.Some? ==> forall i :: 0 <= i < |r.value| && r.value[i].Some? ==> r.value[i].value.kind == k
  {
    if |subs| == 0 then None else Some(BundleEntries(k, dir, subs))
  }

  /** Every item as a non-null entry. */
  function Wrap(items: seq<Item>): (r: seq<Option<Item>>)
    ensures |r| == |items|
    ensures forall i :: 0 <= i < |items| ==> r[i] == Some(items[i])
  {
    if items == [] then [] else [Some(items[0])] + Wrap(items[1..])
  }

  /** The non-null entries, in order: what the builder visits (it skips `null`). */
  function Present(es: seq<Option<Item>>): (r: seq<Item>)
    ensures |r| <= |es|
    ensures forall it :: it in r <==> Some(it) in es
  {
    if es == [] then []
    else
      var rest := Present(es[1..]);
      assert forall e :: e in es <==> e == es[0] || e in es[1..];
      if es[0].Some? then [es[0].value] + rest else rest
  }

  /** Wrapping and then dropping the nulls gives the items back. */
  lemma {:induction false} PresentWrap(items: seq<Item>)
    ensures Present(Wrap(items)) == items
  {
    if items != [] {
      assert Wrap(items)[1..] == Wrap(items[1..]);
      PresentWrap(items[1..]);
    }
  }

  /** The items of one kind the builder visits; a `null` list contributes none. */
  function KindItems(p: Project, folder: string, k: Kind): (r: seq<Item>)
    ensures forall it :: it in r ==> it.kind == k
  {
    match ItemList(p, folder, k)
    case None => []
    case Some(es) =>
      assert forall it :: Some(it) in es ==> it.kind == k;
      Present(es)
  }

  /** The whole catalog, kinds in registration order. */
  function Items(p: Project, folder: string): (r: seq<Item>)
    ensures forall it :: it in r <==> it in KindItems(p, folder, it.kind)
  {
    KindItems(p, folder, Class) + KindItems(p, folder, Trigger) + KindItems(p, folder, Aura)
    + KindItems(p, folder, Lwc) + KindItems(p, folder, Visualforce) + KindItems(p, folder, Flow)
  }

  /** A class or trigger in the catalog comes from a valid file of its folder. */
  lemma FileItemOrigin(p: Project, folder: string, it: Item)
    requires it in Items(p, folder) && IsFileKind(it.kind)
    ensures ValidFileName(it.kind, it.name + Extension(it.kind))
    ensures it.name + Extension(it.kind) in ReadDir(p, KindDir(folder, it.kind))
    ensures it.path == KindDir(folder, it.kind) + Delimiter + it.name + Extension(it.kind)
  {
    var k := it.kind;
    var dir := KindDir(folder, k);
    PresentWrap(FileItems(k, dir, ReadDir(p, dir)));
  }

  /** Every valid file of a class, trigger or flow folder becomes a catalog item. */
  lemma FileItemComplete(p: Project, folder: string, k: Kind, f: string)
    requires IsFileKind(k) && f in ReadDir(p, KindDir(folder, k)) && ValidFileName(k, f)
    ensures Item(Stem(f, Extension(k)), k, KindDir(folder, k) + Delimiter + f) in Items(p, folder)
  {
    var dir := KindDir(folder, k);
    PresentWrap(FileItems(k, dir, ReadDir(p, dir)));
  }

  /**
   * A component in the catalog is named after a subfolder that is neither hidden nor
   * a `.json` entry, and its main file sits inside that subfolder under the same name.
   */
  lemma BundleItemOrigin(p: Project, folder: string, it: Item)
    requires it in Items(p, folder) && HasJS(it.kind)
    ensures it.name in ReadDir(p, KindDir(folder, it.kind)) && !IsSkippedFolder(it.name)
    ensures it.path == BundlePath(KindDir(folder, it.kind), it.name, it.kind)
  {
    var k := it.kind;
    var dir := KindDir(folder, k);
    var subs := ReadDir(p, dir);
    var es := BundleEntries(k, dir, subs);
    assert Some(it) in es;
    var i :| 0 <= i < |es| && es[i] == Some(it);
  }

  // ---------------------------------------------------------------------------
  // Item text

  /** The separator `getItemTextFromFile` puts between a component's files. */
  const PartSeparator: string := "////\n"

  /** A companion script: the main path with its first extension occurrence replaced. */
  function CompanionPath(it: Item, suffix: string): string {
    ReplaceFirst(it.path, Extension(it.kind), suffix)
  }

  /**
   * `getItemTextFromFile`: the file's text; for a component, followed by its `.js`,
   * `Controller.js` and `Helper.js` companions, each missing one read as "".
   */
  function ItemText(p: Project, it: Item): (t: string)
    ensures !HasJS(it.kind) ==> t == ReadFile(p, it.path)
    ensures HasJS(it.kind) ==> StartsWith(t, ReadFile(p, it.path) + PartSeparator)
    ensures HasJS(it.kind) ==> |t| >= 3 * |PartSeparator|
  {
    if HasJS(it.kind) then
      ReadFile(p, it.path) + PartSeparator
      + ReadFile(p, CompanionPath(it, ".js")) + PartSeparator
      + ReadFile(p, CompanionPath(it, "Controller.js")) + PartSeparator
      + ReadFile(p, CompanionPath(it, "Helper.js"))
    else ReadFile(p, it.path)
  }

  /**
   * Every companion script of a component is part of its text: the `.js` and
   * `Controller.js` scripts each right after a separator, the `Helper.js` script at the end.
   */
  lemma ComponentTextParts(p: Project, it: Item)
    requires HasJS(it.kind)
    ensures var t := ItemText(p, it);
            && EndsWith(t, PartSeparator + ReadFile(p, CompanionPath(it, "Helper.js")))
            && Contains(t, PartSeparator + ReadFile(p, CompanionPath(it, ".js")))
            && Contains(t, PartSeparator + ReadFile(p, CompanionPath(it, "Controller.js")))
  {
    SeparatedParts(ReadFile(p, it.path), ReadFile(p, CompanionPath(it, ".js")),
                   ReadFile(p, CompanionPath(it, "Controller.js")), ReadFile(p, CompanionPath(it, "Helper.js")));
  }

  /** Where the parts sit in four texts joined by the separator. */
  lemma SeparatedParts(a: string, b: string, c: string, d: string)
    ensures var t := a + PartSeparator + b + PartSeparator + c + PartSeparator + d;
            && EndsWith(t, PartSeparator + d)
            && Contains(t, PartSeparator + b)
            && Contains(t, PartSeparator + c)
  {
    var t := a + PartSeparator + b + PartSeparator + c + PartSeparator + d;
    assert t == a + (PartSeparator + b) + (PartSeparator + c + PartSeparator + d);
    ContainsPiece(a, PartSeparator + b, PartSeparator + c + PartSeparator + d);
    assert t == (a + PartSeparator + b) + (PartSeparator + c) + (PartSeparator + d);
    ContainsPiece(a + PartSeparator + b, PartSeparator + c, PartSeparator + d);
  }

  /** A component's text is never empty, so a component is always scanned. */
  lemma ComponentTextNonEmpty(p: Project, it: Item)
    requires HasJS(it.kind)
    ensures ItemText(p, it) != ""
  {
  }

  /**
   * For a component folder whose path holds no dot before the main file's extension,
   * the companion script sits next to the main file, named after the component.
   */
  lemma CompanionPathOfBundle(dir: string, sub: string, k: Kind, suffix: string)
    requires HasJS(k) && '.' !in dir && '.' !in sub
    ensures CompanionPath(Item(sub, k, BundlePath(dir, sub, k)), suffix)
            == dir + Delimiter + sub + Delimiter + sub + suffix
  {
    var stem := dir + Delimiter + sub + Delimiter + sub;
    var ext := Extension(k);
    var s := BundlePath(dir, sub, k);
    assert s == stem + ext;
    assert '.' !in stem;
    assert ext[0] == '.';
    assert s[|stem|..|stem| + |ext|] == ext;
    forall j: nat | j < |stem|
      ensures !OccursAt(s, ext, j)
    {
      if j + |ext| <= |s| {
        assert s[j..j + |ext|][0] == s[j] == stem[j] != ext[0];
      }
    }
    ReplaceFirstAt(s, ext, suffix, |stem|);
    assert s[..|stem|] == stem;
    assert s[|stem| + |ext|..] == [];
  }
}
