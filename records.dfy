/** What the classifier finds: a module kind and the record of one archive member,
    with the three names derived from its path (wheeldex.py lines 14-58). */
module Records {
  import opened Wrappers
  import opened Strings

  datatype ModuleType = Source | Bytecode | Extension | Package | NamespacePackage

  /** One archive member recognised as a module: its path in the archive, the suffix that
      matched it, and its kind. Python compares two records by `pathInArchive` alone (`SameModule`). */
  datatype FoundModule = FoundModule(pathInArchive: string, ext: string, modtype: ModuleType) {

    /** Where the member lands relative to site-packages under the wheel layout of PEP 427
        (see `SitePathLayout`). */
    function PathInSitePackages(): Option<string>
    {
      var parts := Split(pathInArchive, '/');
      if EndsWith(parts[0], ".dist-info") then None
      else if EndsWith(parts[0], ".data") then
        if |parts| > 2 && parts[1] in ["platlib", "purelib"] then Some(Join(parts[2..], '/')) else None
      else Some(pathInArchive)
    }

    /** The member is installed somewhere importable. */
    predicate Installed()
    {
      PathInSitePackages().Some?
    }

    /** The dotted import name: the site-packages path with `len(ext)` characters cut from
        the end (Python slicing `[:-len(ext)]`) and every `/` turned into `.`. */
    function ModuleName(): (r: string)
      requires Installed()
      ensures '/' !in r
      ensures |r| <= |PathInSitePackages().value|
    {
      ReplaceChar(DropLast(PathInSitePackages().value, |ext|), '/', '.')
    }

    /** The package that contains the module: the module name up to its last dot, or `""` (top
        level) when the name has no dot; so it is shorter than the name whenever it is not empty. */
    function ParentPkg(): (r: string)
      requires Installed()
      ensures var name := ModuleName();
        && ('.' !in name ==> r == "")
        && ('.' in name ==> |r| < |name| && name[..|r|] == r && name[|r|] == '.' && '.' !in name[|r| + 1..])
    {
      BeforeLast(ModuleName(), '.')
    }
  }

  /** The wheel layout of PEP 427: `*.dist-info/...` is metadata and is not installed;
      `*.data/platlib/...` and `*.data/purelib/...` are unwrapped (the installed path is what
      follows the first two directories); any other `*.data/...` member is not importable;
      everything else is installed where it is. */
  lemma SitePathLayout(m: FoundModule)
    ensures var parts := Split(m.pathInArchive, '/');
      var r := m.PathInSitePackages();
      && (EndsWith(parts[0], ".dist-info") ==> r.None?)
      && (!EndsWith(parts[0], ".dist-info") && EndsWith(parts[0], ".data") ==>
            (r.Some? <==> |parts| > 2 && (parts[1] == "platlib" || parts[1] == "purelib"))
            && (r.Some? ==> m.pathInArchive == parts[0] + "/" + parts[1] + "/" + r.value))
      && (!EndsWith(parts[0], ".dist-info") && !EndsWith(parts[0], ".data") ==> r == Some(m.pathInArchive))
  {
    var parts := Split(m.pathInArchive, '/');
    SplitParts(m.pathInArchive, '/');
    if |parts| > 2 {
      JoinPeelTwo(parts, '/');
    }
  }

  /** The parent package ends with a dot only when the module name has an empty segment (two dots
      in a row, as `a//b.py` gives); otherwise it is empty or ends with a name character. */
  lemma ParentPkgNoTrailingDot(m: FoundModule)
    requires m.Installed()
    requires var name := m.ModuleName(); forall i :: 0 <= i < |name| - 1 ==> !(name[i] == '.' && name[i + 1] == '.')
    ensures var r := m.ParentPkg(); r == "" || r[|r| - 1] != '.'
  {
  }

  /** `a//b.py` is the module `a..b` of the package `a.`: a parent package can end with a dot. */
  lemma ParentPkgWithTrailingDot(m: FoundModule)
    requires m == FoundModule("a" + "/" + "/" + "b" + ".py", ".py", Source)
    ensures m.Installed() && m.ModuleName() == "a" + "." + "." + "b" && m.ParentPkg() == "a" + "."
  {
    assert m.pathInArchive == "a" + ("/" + "/" + "b" + ".py");
    PlainMemberInstalled("a", "/" + "/" + "b" + ".py", ".py", Source);
    PackagedNames(m, "a" + "/", "b");
    ReplaceCharConcat("a", "/", '/', '.');
    ReplaceCharAbsent("a", '/', '.');
  }

  /** Python's `FoundModule.__eq__`: two records are the same module iff they come from the same member. */
  predicate SameModule(a: FoundModule, b: FoundModule)
  {
    a.pathInArchive == b.pathInArchive
  }

  /** When the installed path ends with the matched suffix, the module name is the installed path
      with that suffix removed, up to the `/` to `.` translation. */
  lemma ModuleNameStripsSuffix(m: FoundModule)
    requires m.Installed()
    requires 0 < |m.ext| < |m.PathInSitePackages().value|
    requires EndsWith(m.PathInSitePackages().value, m.ext)
    ensures ReplaceChar(m.PathInSitePackages().value, '/', '.') == m.ModuleName() + ReplaceChar(m.ext, '/', '.')
  {
    var site := m.PathInSitePackages().value;
    assert site == site[..|site| - |m.ext|] + m.ext;
    ReplaceCharConcat(site[..|site| - |m.ext|], m.ext, '/', '.');
  }

  /** A member under `<name>.data/platlib/` or `<name>.data/purelib/` is installed, and named,
      exactly as the same member at the archive root would be (when that root path is itself
      installed unchanged, i.e. its first directory is not another `.data` or `.dist-info`). */
  lemma {:induction false} DataPayloadUnwrapped(dataDir: string, scheme: string, rest: string, ext: string, kind: ModuleType)
    requires '/' !in dataDir && EndsWith(dataDir, ".data")
    requires scheme == "platlib" || scheme == "purelib"
    requires FoundModule(rest, ext, kind).PathInSitePackages() == Some(rest)
    ensures var m := FoundModule(dataDir + "/" + scheme + "/" + rest, ext, kind);
      && m.Installed()
      && m.PathInSitePackages() == FoundModule(rest, ext, kind).PathInSitePackages()
      && m.ModuleName() == FoundModule(rest, ext, kind).ModuleName()
  {
    assert dataDir[|dataDir| - 1] == 'a';
    var path := dataDir + "/" + scheme + "/" + rest;
    assert path == dataDir + ['/'] + (scheme + ['/'] + rest);
    SplitCons(dataDir, '/', scheme + ['/'] + rest);
    SplitCons(scheme, '/', rest);
    var parts := Split(path, '/');
    assert parts == [dataDir, scheme] + Split(rest, '/');
    assert parts[2..] == Split(rest, '/');
    SplitParts(rest, '/');
    SitePathLayout(FoundModule(rest, ext, kind));
  }

  /** A member under `<name>.data/` in any other directory (`scripts`, `headers`, ...) is not installed. */
  lemma {:induction false} OtherDataNotInstalled(dataDir: string, sub: string, rest: string, ext: string, kind: ModuleType)
    requires '/' !in dataDir && EndsWith(dataDir, ".data")
    requires '/' !in sub && sub != "platlib" && sub != "purelib"
    ensures !FoundModule(dataDir + "/" + sub + "/" + rest, ext, kind).Installed()
  {
    assert dataDir[|dataDir| - 1] == 'a';
    var path := dataDir + "/" + sub + "/" + rest;
    assert path == dataDir + ['/'] + (sub + ['/'] + rest);
    SplitCons(dataDir, '/', sub + ['/'] + rest);
    SplitCons(sub, '/', rest);
  }

  /** Nothing under a `*.dist-info` directory is installed. */
  lemma {:induction false} DistInfoNotInstalled(infoDir: string, rest: string, ext: string, kind: ModuleType)
    requires '/' !in infoDir && EndsWith(infoDir, ".dist-info")
    ensures !FoundModule(infoDir + "/" + rest, ext, kind).Installed()
  {
    SplitCons(infoDir, '/', rest);
  }

  /** A member whose first directory (or whole name) is neither `*.dist-info` nor `*.data` is
      installed where it is. */
  lemma {:induction false} PlainMemberInstalled(first: string, rest: string, ext: string, kind: ModuleType)
    requires '/' !in first && !EndsWith(first, ".dist-info") && !EndsWith(first, ".data")
    requires rest == [] || rest[0] == '/'
    ensures FoundModule(first + rest, ext, kind).PathInSitePackages() == Some(first + rest)
  {
    if rest == [] {
      assert first + rest == first;
      SplitSingle(first, '/');
    } else {
      assert first + rest == first + ['/'] + rest[1..];
      SplitCons(first, '/', rest[1..]);
    }
  }

  /** A top-level module: a member installed as `<stem><ext>` with a dotless `stem` is the
      module `stem`, outside any package. */
  lemma TopLevelNames(m: FoundModule, stem: string)
    requires m.PathInSitePackages() == Some(stem + m.ext)
    requires m.ext != [] && '.' !in stem && '/' !in stem
    ensures m.ModuleName() == stem && m.ParentPkg() == ""
  {
    assert DropLast(stem + m.ext, |m.ext|) == stem;
    ReplaceCharAbsent(stem, '/', '.');
  }

  /** A module in a package: a member installed as `<dir>/<stem><ext>` with a dotless `stem` is the
      module `<dir>.<stem>` of package `<dir>` (with `/` read as `.`). */
  lemma {:induction false} PackagedNames(m: FoundModule, dir: string, stem: string)
    requires m.PathInSitePackages() == Some(dir + "/" + stem + m.ext)
    requires m.ext != [] && '.' !in stem && '/' !in stem
    ensures var pkg := ReplaceChar(dir, '/', '.');
      m.ModuleName() == pkg + "." + stem && m.ParentPkg() == pkg
  {
    var head := dir + ("/" + stem);
    assert DropLast(dir + "/" + stem + m.ext, |m.ext|) == head;
    var pkg := ReplaceChar(dir, '/', '.');
    ReplaceCharConcat(dir, "/" + stem, '/', '.');
    ReplaceCharConcat("/", stem, '/', '.');
    ReplaceCharAbsent(stem, '/', '.');
    var name := m.ModuleName();
    assert name == pkg + ['.'] + stem;
    BeforeLastOf(pkg, '.', stem);
  }
}
