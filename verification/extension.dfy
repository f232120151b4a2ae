/**
 * The explorer context-menu command of the extension: from the path of the file the
 * user right-clicked, decide which kind of graph to draw and which item to focus on.
 * Source: extension.js:81-113; the per-kind menu commands are extension.js:33-80.
 */
module Extension {
  import opened Maybe
  import opened Strings
  import opened ItemTypes

  /** What the handler does with a path. */
  datatype Command =
    | Ignore                              // no graph type for this file: return
    | Graph(name: string, flag: string)   // createGraph(folder, name, [flag])
    | Throws                              // `uriPathArray[0]` is undefined: a TypeError

  /** The chain of conditionals mapping the popped extension to a flag, `null` when none. */
  function ExtensionFlag(ext: string): (r: Option<string>)
    ensures r.Some? ==> exists k :: HandlerFlag(k) == r.value
  {
    assert HandlerFlag(Class) == "--classes" && HandlerFlag(Trigger) == "--trigger";
    assert HandlerFlag(Flow) == "--flow" && HandlerFlag(Aura) == "--aura";
    assert HandlerFlag(Lwc) == "--lwc" && HandlerFlag(Visualforce) == "--vf";
    if ext == "cls" then Some("--classes")
    else if ext == "cls-meta.xml" then Some("--classes")
    else if ext == "trigger" then Some("--trigger")
    else if ext == "xml" then Some("--flow")
    else if ext == "cmp" then Some("--aura")
    else if ext == "js" then Some("--lwc")
    else if ext == "html" then Some("--lwc")
    else if ext == "page" then Some("--vf")
    else None
  }

  /**
   * `graphItemHandler` as written: the extension is what follows the LAST dot of the
   * whole path, the two `includes` tests look at the whole path, the LWC metadata flag
   * carries two trailing spaces, and the focus name is the last `/`-piece of what
   * precedes the FIRST dot of the whole path.
   */
  function ItemCommand(path: string): (r: Command)
    ensures r.Graph? ==> '.' !in r.name && '/' !in r.name && '.' in path
    ensures r.Throws? ==> '.' !in path
  {
    var ext := LastPiece(path, '.');
    var flag :=
      if Contains(path, "js-meta.xml") then Some("--lwc  ")
      else if Contains(path, "flow-meta.xml") then Some("--flow")
      else ExtensionFlag(ext);
    if flag.None? then Ignore
    else if '.' !in path then Throws
    else Graph(LastPiece(FirstPiece(path, '.'), '/'), flag.value)
  }

  /** The arm for `cls-meta.xml` can never fire: a popped `.`-piece holds no dot. */
  lemma ClassMetaArmUnreachable(path: string)
    ensures LastPiece(path, '.') != "cls-meta.xml"
  {
    assert "cls-meta.xml"[8] == '.';
  }

  /** A path that the `includes` tests cannot match: it has no hyphen. */
  lemma NoMetaMatch(path: string)
    requires '-' !in path
    ensures !Contains(path, "js-meta.xml") && !Contains(path, "flow-meta.xml")
  {
    MissingCharNotContained(path, "js-meta.xml", '-');
    MissingCharNotContained(path, "flow-meta.xml", '-');
  }

  /** `<dir>/<name>.<ext>` where only the file name holds a dot. */
  lemma SimplePath(dir: string, name: string, ext: string)
    requires '.' !in dir && '.' !in name && '/' !in name && '.' !in ext
    ensures LastPiece(dir + "/" + name + "." + ext, '.') == ext
    ensures LastPiece(FirstPiece(dir + "/" + name + "." + ext, '.'), '/') == name
  {
    assert dir + "/" + name + "." + ext == (dir + "/" + name) + ['.'] + ext;
    LastPieceAfter(dir + "/" + name, '.', ext);
    FirstPieceAt(dir + "/" + name, '.', ext);
    LastPieceAfter(dir, '/', name);
  }

  /**
   * On the paths it was written for, the handler draws the kind the file belongs to,
   * focused on the file's item: the main file of any kind whose folder and name hold no
   * dot. A flow gets there through the `flow-meta.xml` override, the others through the
   * chain.
   */
  lemma ItemCommandMainFile(dir: string, name: string, k: Kind)
    requires '.' !in dir && '.' !in name && '/' !in name
    ensures ItemCommand(dir + Delimiter + name + Extension(k)) == Graph(name, HandlerFlag(k))
    ensures ParseGraphType([HandlerFlag(k)]) == k
  {
    if k == Flow {
      FlowMetaFile(dir, name);
    } else {
      var ext := MainExtension(k);
      MainExtensionShape(k);
      assert dir + Delimiter + name + Extension(k) == dir + "/" + name + "." + ext;
      MainExtensionFlag(k);
      SimpleCommand(dir, name, ext);
    }
    HandlerFlagRoundTrip(k);
  }

  /** A flow's metadata file draws the flow graph, focused on the flow. */
  lemma FlowMetaFile(dir: string, name: string)
    requires '.' !in dir && '.' !in name && '/' !in name
    ensures ItemCommand(dir + "/" + name + ".flow-meta.xml") == Graph(name, "--flow")
  {
    var pre := dir + "/" + name;
    assert pre + ".flow-meta.xml" == pre + "." + "flow-meta" + ".xml";
    MetaPath(dir, name, "flow-meta");
    FlowNeedleIn(pre);
    LwcNeedleNotIn(pre);
    FlowMetaOverride(pre + ".flow-meta.xml", name);
  }

  /** A flow metadata path holds the flow needle. */
  lemma FlowNeedleIn(pre: string)
    ensures Contains(pre + ".flow-meta.xml", "flow-meta.xml")
  {
    assert pre + ".flow-meta.xml" == (pre + ".") + "flow-meta.xml" + "";
    ContainsPiece(pre + ".", "flow-meta.xml", "");
  }

  /** With a dot-free stem, a flow metadata path does not hold the LWC needle. */
  lemma LwcNeedleNotIn(pre: string)
    requires '.' !in pre
    ensures !Contains(pre + ".flow-meta.xml", "js-meta.xml")
  {
    assert pre + ".flow-meta.xml" == pre + "." + "flow-meta" + ".xml";
    MetaNeedle(pre, "flow-meta", "js-meta.xml", 7);
  }

  /**
   * The `js-meta.xml` override wins over everything else: the padded LWC flag, focused
   * on the name before the path's first dot.
   */
  lemma LwcMetaOverride(path: string, name: string)
    requires Contains(path, "js-meta.xml")
    requires LastPiece(FirstPiece(path, '.'), '/') == name
    ensures ItemCommand(path) == Graph(name, "--lwc  ")
  {
    NeedleDot(path, "js-meta.xml", 7);
  }

  /**
   * Without the `js-meta.xml` override, `flow-meta.xml` anywhere in the path forces the
   * flow graph, whatever the popped extension.
   */
  lemma FlowMetaOverride(path: string, name: string)
    requires Contains(path, "flow-meta.xml") && !Contains(path, "js-meta.xml")
    requires LastPiece(FirstPiece(path, '.'), '/') == name
    ensures ItemCommand(path) == Graph(name, "--flow")
  {
    NeedleDot(path, "flow-meta.xml", 9);
  }

  /** A path holding a needle with a dot holds a dot. */
  lemma NeedleDot(path: string, p: string, m: nat)
    requires m < |p| && p[m] == '.' && Contains(path, p)
    ensures '.' in path
  {
    var i := IndexOf(path, p, 0).value;
    assert path[i..i + |p|][m] == p[m];
  }

  /**
   * The handler returns without drawing exactly when neither needle is in the path and
   * the chain knows no flag for the popped extension.
   */
  lemma IgnoredExactly(path: string)
    ensures ItemCommand(path) == Ignore
            <==> && !Contains(path, "js-meta.xml") && !Contains(path, "flow-meta.xml")
                 && ExtensionFlag(LastPiece(path, '.')).None?
  {
  }

  /** `<dir>/<name>.<ext>` with an extension the chain knows and that does not start with `x`. */
  lemma SimpleCommand(dir: string, name: string, ext: string)
    requires '.' !in dir && '.' !in name && '/' !in name && '.' !in ext
    requires ext != [] && ext[0] != 'x' && ExtensionFlag(ext).Some?
    ensures ItemCommand(dir + "/" + name + "." + ext) == Graph(name, ExtensionFlag(ext).value)
  {
    var path := dir + "/" + name + "." + ext;
    SimplePath(dir, name, ext);
    NoMetaDot(dir + "/" + name, ext);
    assert path[|dir| + 1 + |name|] == '.';
    PlainCommand(path, ext, name, ExtensionFlag(ext).value);
  }

  /** With a single dot followed by anything but `x`, neither `includes` test matches. */
  lemma NoMetaDot(pre: string, ext: string)
    requires '.' !in pre && '.' !in ext && (ext == [] || ext[0] != 'x')
    ensures !Contains(pre + "." + ext, "js-meta.xml") && !Contains(pre + "." + ext, "flow-meta.xml")
  {
    OneDotNoMatch(pre, ext, "js-meta.xml", 7);
    OneDotNoMatch(pre, ext, "flow-meta.xml", 9);
  }

  /** A path the `includes` tests miss goes by its popped extension alone. */
  lemma PlainCommand(path: string, ext: string, name: string, flag: string)
    requires !Contains(path, "js-meta.xml") && !Contains(path, "flow-meta.xml") && '.' in path
    requires LastPiece(path, '.') == ext && ExtensionFlag(ext) == Some(flag)
    requires LastPiece(FirstPiece(path, '.'), '/') == name
    ensures ItemCommand(path) == Graph(name, flag)
  {
  }

  /** The extension of a kind's main file, without its dot. */
  function MainExtension(k: Kind): string {
    match k
    case Class => "cls"
    case Trigger => "trigger"
    case Aura => "cmp"
    case Lwc => "html"
    case Visualforce => "page"
    case Flow => "flow-meta.xml"
  }

  /**
   * The main extension follows the file name's dot and holds no slash; only a flow's
   * holds a dot or hyphen or starts with `x`.
   */
  lemma MainExtensionShape(k: Kind)
    ensures Extension(k) == "." + MainExtension(k)
    ensures '/' !in MainExtension(k)
    ensures k != Flow ==> '.' !in MainExtension(k) && '-' !in MainExtension(k)
    ensures k != Flow ==> MainExtension(k) != [] && MainExtension(k)[0] != 'x'
  {
    MainExtensionDot(k);
    MainExtensionChars(k);
  }

  lemma MainExtensionDot(k: Kind)
    ensures Extension(k) == "." + MainExtension(k)
  {
  }

  lemma MainExtensionChars(k: Kind)
    ensures '/' !in MainExtension(k)
    ensures k != Flow ==> '.' !in MainExtension(k) && '-' !in MainExtension(k)
  {
    var r := MainExtension(k);
    forall i | 0 <= i < |r|
      ensures r[i] != '/' && (k != Flow ==> r[i] != '.' && r[i] != '-')
    {
    }
  }

  /** The chain maps each main extension to its kind's flag. */
  lemma MainExtensionFlag(k: Kind)
    requires k != Flow
    ensures ExtensionFlag(MainExtension(k)) == Some(HandlerFlag(k))
  {
    match k
    case Class =>
    case Trigger =>
    case Aura => assert "cmp" != "cls" && "cmp" != "xml";
    case Lwc => assert "html" != "page";
    case Visualforce => assert "page" != "html";
  }

  /**
   * A pattern whose dot at `m` is followed by `p[m + 1]` cannot occur in a text whose
   * only dot is followed by something else.
   */
  lemma OneDotNoMatch(pre: string, ext: string, p: string, m: nat)
    requires m + 1 < |p| && p[m] == '.'
    requires '.' !in pre && '.' !in ext && (ext == [] || ext[0] != p[m + 1])
    ensures !Contains(pre + "." + ext, p)
  {
    var s := pre + "." + ext;
    forall i: nat | i + |p| <= |s|
      ensures !OccursAt(s, p, i)
    {
      var w := s[i..i + |p|];
      if i + m < |pre| {
        assert w[m] == pre[i + m];
      } else if i + m > |pre| {
        assert w[m] == ext[i + m - |pre| - 1];
      } else {
        assert w[m + 1] == ext[0];
      }
    }
  }

  /** The same for a text with two dots, each followed by something other than `p[m + 1]`. */
  lemma TwoDotNoMatch(u: string, v: string, w: string, p: string, m: nat)
    requires m + 1 < |p| && p[m] == '.'
    requires '.' !in u && '.' !in v && '.' !in w
    requires v != [] && v[0] != p[m + 1] && (w == [] || w[0] != p[m + 1])
    ensures !Contains(u + "." + v + "." + w, p)
  {
    var s := u + "." + v + "." + w;
    var d := |u| + 1 + |v|;
    forall i: nat | i + |p| <= |s|
      ensures !OccursAt(s, p, i)
    {
      var x := s[i..i + |p|];
      if i + m < |u| {
        assert x[m] == u[i + m];
      } else if i + m == |u| {
        assert x[m + 1] == v[0];
      } else if i + m < d {
        assert x[m] == v[i + m - |u| - 1];
      } else if i + m == d {
        assert x[m + 1] == w[0];
      } else {
        assert x[m] == w[i + m - d - 1];
      }
    }
  }

  /** The two suffixes the handler reads from a metadata file's path. */
  lemma MetaPath(dir: string, name: string, main: string)
    requires '.' !in dir && '.' !in name && '/' !in name && '.' !in main
    ensures var path := dir + "/" + name + "." + main + ".xml";
            && LastPiece(path, '.') == "xml"
            && LastPiece(FirstPiece(path, '.'), '/') == name
  {
    var path := dir + "/" + name + "." + main + ".xml";
    assert path == (dir + "/" + name) + ['.'] + (main + ".xml");
    assert path == (dir + "/" + name + "." + main) + ['.'] + "xml";
    LastPieceAfter(dir + "/" + name + "." + main, '.', "xml");
    FirstPieceAt(dir + "/" + name, '.', main + ".xml");
    LastPieceAfter(dir, '/', name);
  }

  /**
   * A pattern whose dot at `m` is followed by something other than `main[0]`, and that
   * does not start with the character `m` places before `.xml`'s dot, cannot occur in
   * `<P>.<main>.xml` with dot-free `P` and `main`.
   */
  lemma MetaNeedle(pre: string, main: string, p: string, m: nat)
    requires '.' !in pre && '.' !in main && main != []
    requires m + 1 < |p| && m <= |main| + 1 && p[m] == '.' && p[m + 1] != main[0]
    requires p[0] != ("." + main + ".xml")[|main| + 1 - m]
    ensures !Contains(pre + "." + main + ".xml", p)
  {
    var suffix := "." + main + ".xml";
    var d := |main| + 1;
    var s := pre + suffix;
    assert s == pre + "." + main + ".xml";
    forall k | 0 < k < |suffix| && k != d
      ensures suffix[k] != '.'
    {
      if k < d {
        assert suffix[k] == main[k - 1];
      }
    }
    forall i: nat | i + |p| <= |s|
      ensures !OccursAt(s, p, i)
    {
      var w := s[i..i + |p|];
      if i + m < |pre| {
        assert w[m] == pre[i + m];
      } else if i + m == |pre| {
        assert w[m + 1] == suffix[1];
      } else if i + m == |pre| + d {
        assert w[0] == suffix[d - m];
      } else {
        assert w[m] == suffix[i + m - |pre|];
      }
    }
  }

  /** A class's metadata path matches neither `includes` test. */
  lemma ClassMetaNoMatch(pre: string)
    requires '.' !in pre
    ensures !Contains(pre + ".cls-meta.xml", "js-meta.xml")
    ensures !Contains(pre + ".cls-meta.xml", "flow-meta.xml")
  {
    assert pre + ".cls-meta.xml" == pre + "." + "cls-meta" + ".xml";
    MetaNeedle(pre, "cls-meta", "js-meta.xml", 7);
    MetaNeedle(pre, "cls-meta", "flow-meta.xml", 9);
  }

  /**
   * Right-clicking a class's metadata file draws a FLOW graph: the popped extension is
   * `xml`, never `cls-meta.xml`, and the item is looked up among the flows.
   */
  lemma ClassMetaIsFlow(dir: string, name: string)
    requires '.' !in dir && '.' !in name && '/' !in name
    ensures ItemCommand(dir + "/" + name + ".cls-meta.xml") == Graph(name, "--flow")
    ensures ParseGraphType(["--flow"]) == Flow
  {
    var pre := dir + "/" + name;
    assert pre + ".cls-meta.xml" == pre + "." + "cls-meta" + ".xml";
    MetaPath(dir, name, "cls-meta");
    ClassMetaNoMatch(pre);
    assert (pre + ".cls-meta.xml")[|pre|] == '.';
    assert ExtensionFlag("xml") == Some("--flow");
    PlainCommand(pre + ".cls-meta.xml", "xml", name, "--flow");
    HandlerFlagRoundTrip(Flow);
  }

  /** The LWC metadata flag, lowered, is none of the flags `createGraph` looks for. */
  lemma PaddedFlagIsClass()
    ensures ParseGraphType(["--lwc  "]) == Class
  {
    var f := "--lwc  ";
    LowerFixed(f);
    SingleFlag(f, "--trigger");
    SingleFlag(f, "--lwc");
    SingleFlag(f, "--aura");
    SingleFlag(f, "--flow");
    SingleFlag(f, "--visualforce");
    SingleFlag(f, "--vf");
  }

  /**
   * Right-clicking an LWC's metadata file passes `--lwc` followed by two spaces, which
   * matches no flag once lowered, so the component is looked up among the CLASSES.
   */
  lemma LwcMetaIsClass(dir: string, name: string)
    requires '.' !in dir && '.' !in name && '/' !in name
    ensures ItemCommand(dir + "/" + name + ".js-meta.xml") == Graph(name, "--lwc  ")
    ensures ParseGraphType(["--lwc  "]) == Class
  {
    var pre := dir + "/" + name;
    assert pre + ".js-meta.xml" == pre + "." + "js-meta" + ".xml";
    assert pre + ".js-meta.xml" == (pre + ".") + "js-meta.xml" + "";
    MetaPath(dir, name, "js-meta");
    ContainsPiece(pre + ".", "js-meta.xml", "");
    PaddedFlagIsClass();
  }

  /**
   * A dot in a folder name cuts the focus name short: it is taken from before the
   * FIRST dot of the whole path, so `/ws/my.app/classes/Foo.cls` focuses on `my`. The
   * folder text after the dot must not start with `x`, or a folder ending in `js-meta`
   * would match the metadata tests.
   */
  lemma DottedFolderName(a: string, b: string, name: string)
    requires '.' !in a && '.' !in b && '.' !in name && '/' !in name
    requires b == [] || b[0] != 'x'
    ensures ItemCommand(a + "." + b + "/" + name + ".cls") == Graph(LastPiece(a, '/'), "--classes")
  {
    var path := a + "." + b + "/" + name + ".cls";
    DottedPieces(a, b, name);
    LastPieceAfter(a + "." + b + "/" + name, '.', "cls");
    FirstPieceAt(a, '.', b + "/" + name + ".cls");
    NoMetaTwoDots(a, b + "/" + name);
    assert path[|a|] == '.';
    assert ExtensionFlag("cls") == Some("--classes");
    PlainCommand(path, "cls", LastPiece(a, '/'), "--classes");
  }

  /** The three ways the dotted-folder path splits at its dots. */
  lemma DottedPieces(a: string, b: string, name: string)
    ensures var path := a + "." + b + "/" + name + ".cls";
            && path == (a + "." + b + "/" + name) + ['.'] + "cls"
            && path == a + ['.'] + (b + "/" + name + ".cls")
            && path == a + "." + (b + "/" + name) + "." + "cls"
  {
  }

  /** With two dots, the second followed by `cls` and the first by anything but `x`. */
  lemma NoMetaTwoDots(a: string, v: string)
    requires '.' !in a && '.' !in v && v != [] && v[0] != 'x'
    ensures !Contains(a + "." + v + "." + "cls", "js-meta.xml")
    ensures !Contains(a + "." + v + "." + "cls", "flow-meta.xml")
  {
    TwoDotNoMatch(a, v, "cls", "js-meta.xml", 7);
    TwoDotNoMatch(a, v, "cls", "flow-meta.xml", 9);
  }

  lemma ExampleName()
    ensures LastPiece("/ws/my", '/') == "my"
  {
    assert "/ws/my" == "/ws" + ['/'] + "my";
    LastPieceAfter("/ws", '/', "my");
  }

  lemma DottedFolderExample()
    ensures ItemCommand("/ws/my.app/classes/Foo.cls") == Graph("my", "--classes")
  {
    var a, b, name := "/ws/my", "app/classes", "Foo";
    assert "/ws/my.app/classes/Foo.cls" == a + "." + b + "/" + name + ".cls";
    assert '.' !in a && '.' !in b && '.' !in name && '/' !in name;
    ExampleName();
    DottedFolderName(a, b, name);
  }

  // ---------------------------------------------------------------------------
  // The handler as evidently intended

  /** The flag for a file's extension (everything after the file name's first dot). */
  function IntendedFlag(ext: string): Option<string> {
    if Contains(ext, "js-meta.xml") then Some("--lwc")
    else if Contains(ext, "flow-meta.xml") then Some("--flow")
    else ExtensionFlag(ext)
  }

  /**
   * The handler reading only the file's own name: the extension is what follows its
   * first dot, the focus name what precedes it, and the LWC flag has no stray spaces.
   */
  function IntendedCommand(path: string): (r: Command)
    ensures !r.Throws?
    ensures r.Graph? ==> '.' !in r.name && '/' !in r.name
  {
    var file := LastPiece(path, '/');
    if '.' !in file then Ignore
    else
      var dot := CharIndex(file, '.');
      var flag := IntendedFlag(file[dot + 1..]);
      if flag.None? then Ignore
      else Graph(FirstPiece(file, '.'), flag.value)
  }

  lemma FileShape(dir: string, name: string, ext: string)
    requires '/' !in name && '/' !in ext
    ensures var file := name + "." + ext;
            && dir + "/" + name + "." + ext == dir + ['/'] + file
            && file == name + ['.'] + ext
            && '/' !in file
  {
  }

  /** `<anything>/<name>.<ext>`: the file name and the extension, whatever the folder. */
  lemma FilePieces(dir: string, name: string, ext: string)
    requires '.' !in name && '/' !in name && '/' !in ext
    ensures var file := LastPiece(dir + "/" + name + "." + ext, '/');
            && file == name + "." + ext
            && '.' in file && CharIndex(file, '.') == |name|
            && file[|name| + 1..] == ext
            && FirstPiece(file, '.') == name
  {
    var file := name + "." + ext;
    FileShape(dir, name, ext);
    LastPieceAfter(dir, '/', file);
    assert file[|name|] == '.';
    CharIndexFirst(file, '.', |name|);
    FirstPieceAt(name, '.', ext);
  }

  /** Each kind's main file selects its own kind. */
  lemma IntendedMainFlag(k: Kind)
    ensures IntendedFlag(MainExtension(k)) == Some(HandlerFlag(k))
  {
    if k == Flow {
      ContainsPiece("", "flow-meta.xml", "");
      assert "" + "flow-meta.xml" + "" == "flow-meta.xml";
      MissingCharNotContained("flow-meta.xml", "js-meta.xml", 'j');
    } else {
      MainExtensionShape(k);
      NoMetaMatch(MainExtension(k));
    }
  }

  /** The class and LWC metadata files, and LWC scripts, select their own kind. */
  lemma IntendedOtherFlags()
    ensures IntendedFlag("cls-meta.xml") == Some(HandlerFlag(Class))
    ensures IntendedFlag("js") == Some(HandlerFlag(Lwc))
    ensures IntendedFlag("js-meta.xml") == Some(HandlerFlag(Lwc))
  {
    IntendedClassMetaFlag();
    IntendedScriptFlag();
    IntendedLwcMetaFlag();
  }

  lemma IntendedClassMetaFlag()
    ensures IntendedFlag("cls-meta.xml") == Some("--classes")
  {
    MissingCharNotContained("cls-meta.xml", "js-meta.xml", 'j');
    MissingCharNotContained("cls-meta.xml", "flow-meta.xml", 'f');
  }

  lemma IntendedScriptFlag()
    ensures IntendedFlag("js") == Some("--lwc")
  {
    NoMetaMatch("js");
  }

  lemma IntendedLwcMetaFlag()
    ensures IntendedFlag("js-meta.xml") == Some("--lwc")
  {
    ContainsPiece("", "js-meta.xml", "");
    assert "" + "js-meta.xml" + "" == "js-meta.xml";
  }

  /**
   * Whatever folder it sits in, each kind's main file draws that kind's graph focused
   * on the file's item.
   */
  lemma IntendedMainFile(dir: string, name: string, k: Kind)
    requires '.' !in name && '/' !in name
    ensures IntendedCommand(dir + Delimiter + name + Extension(k)) == Graph(name, HandlerFlag(k))
    ensures ParseGraphType([HandlerFlag(k)]) == k
  {
    var ext := MainExtension(k);
    MainExtensionShape(k);
    assert dir + Delimiter + name + Extension(k) == dir + "/" + name + "." + ext;
    FilePieces(dir, name, ext);
    IntendedMainFlag(k);
    HandlerFlagRoundTrip(k);
  }

  /** The class and LWC metadata files draw the graph of their own kind. */
  lemma IntendedMetaFiles(dir: string, name: string)
    requires '.' !in name && '/' !in name
    ensures IntendedCommand(dir + "/" + name + ".cls-meta.xml") == Graph(name, HandlerFlag(Class))
    ensures IntendedCommand(dir + "/" + name + ".js-meta.xml") == Graph(name, HandlerFlag(Lwc))
  {
    assert dir + "/" + name + ".cls-meta.xml" == dir + "/" + name + "." + "cls-meta.xml";
    assert dir + "/" + name + ".js-meta.xml" == dir + "/" + name + "." + "js-meta.xml";
    FilePieces(dir, name, "cls-meta.xml");
    FilePieces(dir, name, "js-meta.xml");
    IntendedOtherFlags();
  }
}
