/** The fixtures and expectations of test_wheeldex.py as verified facts about the model.
    Names are written as concatenations of their directory, stem and suffix; they denote the
    same strings as the fixture's literals. */
module WheeldexTests {
  import opened Wrappers
  import opened Strings
  import opened Archive
  import opened Records
  import opened Suffixes
  import opened Classifier
  import opened Namespaces
  import opened StringOrder

  /** The bytes of a Python `b'...'` literal: the low byte of each character (the code point itself
      for the ASCII texts used here). */
  function LiteralBytes(s: string): (b: Bytes)
    ensures |b| == |s|
    ensures forall i :: 0 <= i < |s| && s[i] as int < 256 ==> b[i] as int == s[i] as int
  {
    seq(|s|, i requires 0 <= i < |s| => (s[i] as int % 256) as byte)
  }

  /** The standard declaration of a non PEP 420 namespace package. */
  function NsPkgDecl(): Bytes
  {
    LiteralBytes("from pkgutil import extend_path\n__path__ = extend_path(__path__, __name__)\n")
  }

  /** What `test_check_namespace_pkg` asserts of the namespace check: it accepts the standard
      declaration and rejects the empty file and an `extend_path` call not assigned to `__path__`. */
  predicate NamespaceCheckAgrees(nsCheck: NsCheck)
  {
    && nsCheck(NsPkgDecl()) == Some(true)
    && nsCheck([]) == Some(false)
    && nsCheck(LiteralBytes("foo = extend_path()")) == Some(false)
  }

  /** `raise = 2`, which is not Python: `raise` is a keyword. */
  function RaiseAssign(): Bytes
  {
    LiteralBytes("raise = 2")
  }

  /** `cp36-cp36m-manylinux1_i686` */
  const Sample1Tag: string := "cp36" + "-" + "cp36m" + "-" + "manylinux1_i686"

  /** The extension-module suffix of CPython 3.6m on 32-bit x86 Linux. */
  const CpythonSuffix: string := ".cpython-36m-i386-linux-gnu.so"

  const TopLevelSo: string := "top_level" + CpythonSuffix
  const TopLevel2Py: string := "top_level2" + ".py"
  const ApkgInit: string := "apkg" + InitSuffix
  const Namespace1Foo: string := "namespace1" + "/" + "foo" + ".py"
  const Namespace2Init: string := "namespace2" + InitSuffix
  const Namespace2Bar: string := "namespace2" + "/" + "bar" + ".py"

  /** The `sample1` archive. */
  function Sample1(): ZipArchive
  {
    Sample1With(NsPkgDecl())
  }

  /** The members of `sample1`, with `nsDecl` in `namespace2/__init__.py`; every other member holds
      the empty text. */
  function Sample1With(nsDecl: Bytes): ZipArchive
  {
    ZipArchive([
      (TopLevelSo, []),
      (TopLevel2Py, []),
      (ApkgInit, []),
      (Namespace1Foo, []),
      (Namespace2Init, nsDecl),
      (Namespace2Bar, [])
    ])
  }

  const Sample1ParsedTag: Tag := Tag("cp36", "cp36m", "manylinux1_i686")

  lemma Sample1TagParsed()
    ensures ParseTag(Sample1Tag) == Some(Sample1ParsedTag)
  {
    ParseTagRoundTrip(Sample1ParsedTag);
  }

  /** The table for `cp36-cp36m-manylinux1_i686`: the base rules, the CPython 3.6m i386 suffix, `.so`. */
  const Sample1Rules: seq<Rule> :=
    BaseRules + [Rule(CpythonSuffix, Extension), Rule(".so", Extension)]

  /** `manylinux1_i686` is a manylinux platform on 32-bit x86. */
  lemma I686Platform(platform: string)
    requires platform == "manylinux1_i686"
    ensures StartsWith(platform, "manylinux") && LinuxArch(platform) == "i386"
  {
    assert platform[|platform| - 1] == '6';
  }

  /** The CPython ABI tag `cp36m` names the ABI `36m`. */
  lemma Cp36mAbi(abi: string)
    requires abi == "cp36m"
    ensures StartsWith(abi, "cp") && abi[2..] == "36m"
  {
  }

  /** On manylinux with a CPython ABI the table has exactly one specific suffix before `.so`. */
  lemma ManylinuxCpythonTable(t: Tag)
    requires StartsWith(t.platform, "manylinux") && StartsWith(t.abi, "cp")
    ensures SuffixTable(t) ==
      BaseRules + [Rule(".cpython-" + t.abi[2..] + "-" + LinuxArch(t.platform) + "-linux-gnu.so", Extension), Rule(".so", Extension)]
  {
    var rules := SuffixTable(t);
    assert rules == rules[..3] + [rules[3], rules[4]];
  }

  lemma Sample1TableBuilt(t: Tag)
    requires t == Sample1ParsedTag
    ensures SuffixTable(t) == Sample1Rules
  {
    I686Platform(t.platform);
    Cp36mAbi(t.abi);
    ManylinuxCpythonTable(t);
    CpythonSuffixIs(t.abi[2..], LinuxArch(t.platform));
  }

  lemma CpythonSuffixIs(abi: string, arch: string)
    requires abi == "36m" && arch == "i386"
    ensures ".cpython-" + abi + "-" + arch + "-linux-gnu.so" == CpythonSuffix
  {
  }

  /** A member that is not an `__init__.py`, first matched by rule `k` of the table and installed,
      contributes that rule's record. */
  lemma Sample1Matched(zf: ZipArchive, nsCheck: NsCheck, path: string, k: nat)
    requires path in zf.Namelist()
    requires IsFirstMatch(path, Sample1Rules, k) && k > 0
    requires FoundModule(path, Sample1Rules[k].suffix, Sample1Rules[k].kind).Installed()
    ensures ClassifyMember(zf, Sample1Tag, nsCheck, path) ==
      Success(Some(FoundModule(path, Sample1Rules[k].suffix, Sample1Rules[k].kind)))
  {
    Sample1TagParsed();
    Sample1TableBuilt(Sample1ParsedTag);
    FirstMatchIs(path, Sample1Rules, k);
  }

  /** A `<dir>/__init__.py` member whose contents parse is a package whatever the tag, a namespace
      package when its contents declare one. */
  lemma InitClassified(zf: ZipArchive, nsCheck: NsCheck, path: string, dir: string)
    requires path in zf.Namelist()
    requires path == dir + InitSuffix
    requires nsCheck(zf.Read(path).value).Some?
    ensures ClassifyMember(zf, Sample1Tag, nsCheck, path) ==
      Success(Some(FoundModule(path, InitSuffix, if nsCheck(zf.Read(path).value).value then NamespacePackage else Package)))
  {
    assert EndsWith(path, InitSuffix);
  }

  /** The CPython 3.6m i386 extension suffix has no `/` and ends with `so`. */
  lemma CpythonSuffixShape(s: string)
    requires s == CpythonSuffix
    ensures '/' !in s && s[|s| - 2] == 's' && s[|s| - 1] == 'o'
  {
  }

  lemma TopLevelFirstMatch(path: string)
    requires path == TopLevelSo
    ensures IsFirstMatch(path, Sample1Rules, 3)
  {
    assert path[|path| - 2] == 's' && path[|path| - 1] == 'o';
    assert !EndsWith(path, InitSuffix) && !EndsWith(path, ".py") && !EndsWith(path, ".pyc");
    assert EndsWith(path, CpythonSuffix);
  }

  lemma TopLevel2FirstMatch(path: string)
    requires path == TopLevel2Py
    ensures IsFirstMatch(path, Sample1Rules, 1)
  {
    assert path[|path| - 12] == 'o';
  }

  /** `<dir>/<stem>.py` is first matched by `.py`. */
  lemma NestedFirstMatch(path: string, dir: string, stem: string)
    requires path == dir + "/" + stem + ".py"
    requires |stem| > 0 && stem[|stem| - 1] != '_'
    ensures IsFirstMatch(path, Sample1Rules, 1)
  {
    assert path[|path| - 4] == stem[|stem| - 1];
  }

  /** `<dir>/<rest>` under a plain directory is installed where it is. */
  lemma NestedInstalled(path: string, dir: string, rest: string, ext: string, kind: ModuleType)
    requires path == dir + "/" + rest
    requires '/' !in dir && !EndsWith(dir, ".dist-info") && !EndsWith(dir, ".data")
    ensures FoundModule(path, ext, kind).PathInSitePackages() == Some(path)
  {
    assert path == dir + ("/" + rest);
    PlainMemberInstalled(dir, "/" + rest, ext, kind);
  }

  /** What `find_module_files(sample1, 'cp36-cp36m-manylinux1_i686')` yields, in order. */
  function Sample1Found(): seq<FoundModule>
  {
    [ FoundModule(TopLevelSo, CpythonSuffix, Extension),
      FoundModule(TopLevel2Py, ".py", Source),
      FoundModule(ApkgInit, InitSuffix, Package),
      FoundModule(Namespace1Foo, ".py", Source),
      FoundModule(Namespace2Init, InitSuffix, NamespacePackage),
      FoundModule(Namespace2Bar, ".py", Source) ]
  }

  /** The expected module names of the six records (`by_name` in `test_find_modules`). */
  const Sample1ModuleNames: seq<string> :=
    ["top_level", "top_level2", "apkg", "namespace1" + "." + "foo", "namespace2", "namespace2" + "." + "bar"]

  /** Their parent packages. */
  const Sample1Parents: seq<string> := ["", "", "", "namespace1", "", "namespace2"]

  /** Their kinds. */
  const Sample1Kinds: seq<ModuleType> := [Extension, Source, Package, Source, NamespacePackage, Source]

  /** A top-level member `<stem><ext>` is installed as the module `stem`. The member is its own
      first path component, so it must not end with `.dist-info` or `.data`: `penult`, the one but
      last character of `ext`, is neither the `f` of `.dist-info` nor the `t` of `.data`. */
  lemma TopLevelRecord(m: FoundModule, stem: string, penult: char)
    requires m.pathInArchive == stem + m.ext && |m.ext| >= 2 && m.ext[0] == '.'
    requires m.ext[|m.ext| - 2] == penult && penult != 'f' && penult != 't'
    requires '/' !in stem && '/' !in m.ext && '.' !in stem
    ensures m.Installed() && m.ModuleName() == stem && m.ParentPkg() == ""
  {
    var path := m.pathInArchive;
    assert path[|path| - 2] == penult;
    assert '/' !in path;
    PlainMemberInstalled(path, "", m.ext, m.modtype);
    assert path + "" == path;
    TopLevelNames(m, stem);
  }

  /** `<dir>/__init__.py` is installed as the package `dir`. `last`, the last character of `dir`, is
      neither the `o` of `.dist-info` nor the `a` of `.data`, so `dir` is a plain directory. */
  lemma InitRecord(m: FoundModule, dir: string, last: char)
    requires m.pathInArchive == dir + InitSuffix && m.ext == InitSuffix
    requires '/' !in dir && '.' !in dir && |dir| > 0 && dir[|dir| - 1] == last && last != 'o' && last != 'a'
    ensures m.Installed() && m.ModuleName() == dir && m.ParentPkg() == ""
  {
    PlainMemberInstalled(dir, InitSuffix, InitSuffix, m.modtype);
    TopLevelNames(m, dir);
  }

  /** `<dir>/<stem>.py` is the module `<dir>.<stem>` of package `dir`; `last` rules out the
      `.dist-info` and `.data` endings of `dir` as in `InitRecord`. */
  lemma NestedRecord(m: FoundModule, dir: string, stem: string, last: char)
    requires m.pathInArchive == dir + "/" + stem + ".py" && m.ext == ".py"
    requires '/' !in dir && '.' !in dir && |dir| > 0 && dir[|dir| - 1] == last && last != 'o' && last != 'a'
    requires '/' !in stem && '.' !in stem
    ensures m.Installed() && m.ModuleName() == dir + "." + stem && m.ParentPkg() == dir
  {
    NestedInstalled(m.pathInArchive, dir, stem + ".py", m.ext, m.modtype);
    PackagedNames(m, dir, stem);
    ReplaceCharAbsent(dir, '/', '.');
  }

  /** `m` is an installed record of kind `kind`, module name `name` and parent package `parent`. */
  predicate RecordIs(m: FoundModule, kind: ModuleType, name: string, parent: string)
  {
    m.modtype == kind && m.Installed() && m.ModuleName() == name && m.ParentPkg() == parent
  }

  /** Record `k` of `Sample1Found()` has the `k`-th expected kind, module name and parent package. */
  predicate NamedAs(k: nat)
    requires k < 6
  {
    RecordIs(Sample1Found()[k], Sample1Kinds[k], Sample1ModuleNames[k], Sample1Parents[k])
  }

  lemma TopLevelNamed()
    ensures NamedAs(0)
  {
    CpythonSuffixShape(Sample1Found()[0].ext);
    TopLevelRecord(Sample1Found()[0], "top_level", 's');
  }

  lemma TopLevel2Named()
    ensures NamedAs(1)
  {
    TopLevelRecord(Sample1Found()[1], "top_level2", 'p');
  }

  lemma ApkgNamed()
    ensures NamedAs(2)
  {
    InitRecord(Sample1Found()[2], "apkg", 'g');
  }

  lemma Namespace1FooNamed()
    ensures NamedAs(3)
  {
    NestedRecord(Sample1Found()[3], "namespace1", "foo", '1');
  }

  lemma Namespace2Named()
    ensures NamedAs(4)
  {
    InitRecord(Sample1Found()[4], "namespace2", '2');
  }

  lemma Namespace2BarNamed()
    ensures NamedAs(5)
  {
    NestedRecord(Sample1Found()[5], "namespace2", "bar", '2');
  }

  lemma Sample1RecordNamed(k: nat)
    requires k < 6
    ensures NamedAs(k)
  {
    if k == 0 { TopLevelNamed(); }
    else if k == 1 { TopLevel2Named(); }
    else if k == 2 { ApkgNamed(); }
    else if k == 3 { Namespace1FooNamed(); }
    else if k == 4 { Namespace2Named(); }
    else { Namespace2BarNamed(); }
  }

  lemma Sample1AllNamed()
    ensures forall k :: 0 <= k < |Sample1Found()| ==>
      RecordIs(Sample1Found()[k], Sample1Kinds[k], Sample1ModuleNames[k], Sample1Parents[k])
    ensures AllInstalled(Sample1Found())
  {
    forall k | 0 <= k < |Sample1Found()|
      ensures RecordIs(Sample1Found()[k], Sample1Kinds[k], Sample1ModuleNames[k], Sample1Parents[k])
      ensures Sample1Found()[k].Installed()
    {
      Sample1RecordNamed(k);
    }
  }

  lemma Sample1Names(nsDecl: Bytes)
    ensures Sample1With(nsDecl).Namelist() == [TopLevelSo, TopLevel2Py, ApkgInit, Namespace1Foo, Namespace2Init, Namespace2Bar]
  {
  }

  lemma ApkgRead(nsDecl: Bytes)
    ensures Sample1With(nsDecl).Read(ApkgInit) == Some([])
  {
    var e := Sample1With(nsDecl).entries;
    assert e[0].0 != ApkgInit && e[1].0 != ApkgInit;
    assert e[2] == (ApkgInit, []);
  }

  lemma Namespace2Read(nsDecl: Bytes)
    ensures Sample1With(nsDecl).Read(Namespace2Init) == Some(nsDecl)
  {
    var e := Sample1With(nsDecl).entries;
    assert e[0].0 != Namespace2Init && e[1].0 != Namespace2Init;
    assert e[2].0 != Namespace2Init && e[3].0 != Namespace2Init;
    assert e[4] == (Namespace2Init, nsDecl);
  }

  /** Member `i` of `sample1` contributes record `i` of `Sample1Found()`. */
  predicate MemberYields(nsCheck: NsCheck, nsDecl: Bytes, i: nat)
    requires i < 6
  {
    ClassifyMember(Sample1With(nsDecl), Sample1Tag, nsCheck, Sample1With(nsDecl).Namelist()[i]) ==
      Success(Some(Sample1Found()[i]))
  }

  lemma TopLevelClassified(nsCheck: NsCheck, nsDecl: Bytes)
    ensures MemberYields(nsCheck, nsDecl, 0)
  {
    Sample1Names(nsDecl);
    TopLevelFirstMatch(TopLevelSo);
    TopLevelNamed();
    Sample1Matched(Sample1With(nsDecl), nsCheck, TopLevelSo, 3);
  }

  lemma TopLevel2Classified(nsCheck: NsCheck, nsDecl: Bytes)
    ensures MemberYields(nsCheck, nsDecl, 1)
  {
    Sample1Names(nsDecl);
    TopLevel2FirstMatch(TopLevel2Py);
    TopLevel2Named();
    Sample1Matched(Sample1With(nsDecl), nsCheck, TopLevel2Py, 1);
  }

  lemma ApkgClassified(nsCheck: NsCheck, nsDecl: Bytes)
    requires nsCheck([]) == Some(false)
    ensures MemberYields(nsCheck, nsDecl, 2)
  {
    Sample1Names(nsDecl);
    ApkgRead(nsDecl);
    InitClassified(Sample1With(nsDecl), nsCheck, ApkgInit, "apkg");
  }

  lemma Namespace1FooClassified(nsCheck: NsCheck, nsDecl: Bytes)
    ensures MemberYields(nsCheck, nsDecl, 3)
  {
    Sample1Names(nsDecl);
    NestedFirstMatch(Namespace1Foo, "namespace1", "foo");
    Namespace1FooNamed();
    Sample1Matched(Sample1With(nsDecl), nsCheck, Namespace1Foo, 1);
  }

  lemma Namespace2Classified(nsCheck: NsCheck, nsDecl: Bytes)
    requires nsCheck(nsDecl) == Some(true)
    ensures MemberYields(nsCheck, nsDecl, 4)
  {
    Sample1Names(nsDecl);
    Namespace2Read(nsDecl);
    InitClassified(Sample1With(nsDecl), nsCheck, Namespace2Init, "namespace2");
  }

  lemma Namespace2BarClassified(nsCheck: NsCheck, nsDecl: Bytes)
    ensures MemberYields(nsCheck, nsDecl, 5)
  {
    Sample1Names(nsDecl);
    NestedFirstMatch(Namespace2Bar, "namespace2", "bar");
    Namespace2BarNamed();
    Sample1Matched(Sample1With(nsDecl), nsCheck, Namespace2Bar, 1);
  }

  /** Member `i` of `sample1` contributes record `i` of `Sample1Found()`. */
  lemma Sample1Member(nsCheck: NsCheck, nsDecl: Bytes, i: nat)
    requires nsCheck([]) == Some(false)
    requires i < 6 && (i == 4 ==> nsCheck(nsDecl) == Some(true))
    ensures MemberYields(nsCheck, nsDecl, i)
  {
    if i == 0 { TopLevelClassified(nsCheck, nsDecl); }
    else if i == 1 { TopLevel2Classified(nsCheck, nsDecl); }
    else if i == 2 { ApkgClassified(nsCheck, nsDecl); }
    else if i == 3 { Namespace1FooClassified(nsCheck, nsDecl); }
    else if i == 4 { Namespace2Classified(nsCheck, nsDecl); }
    else { Namespace2BarClassified(nsCheck, nsDecl); }
  }

  /** The first `i` members of `sample1` yield the first `i` expected records. */
  lemma {:induction false} Sample1Prefix(nsCheck: NsCheck, nsDecl: Bytes, i: nat)
    requires nsCheck([]) == Some(false)
    requires i <= 6 && (i > 4 ==> nsCheck(nsDecl) == Some(true))
    ensures var zf := Sample1With(nsDecl);
      ClassifyAll(zf, Sample1Tag, nsCheck, zf.Namelist()[..i]) == Success(Sample1Found()[..i])
  {
    var zf := Sample1With(nsDecl);
    if i > 0 {
      Sample1Prefix(nsCheck, nsDecl, i - 1);
      Sample1Member(nsCheck, nsDecl, i - 1);
      ClassifyAllExtend(zf, Sample1Tag, nsCheck, zf.Namelist(), Sample1Found(), i - 1);
    }
  }

  /** `test_find_modules`: given the facts `test_check_namespace_pkg` asserts of the namespace check,
      `find_module_files(sample1, 'cp36-cp36m-manylinux1_i686')` yields exactly the six expected
      records, in archive order. */
  lemma Sample1Classified(nsCheck: NsCheck)
    requires NamespaceCheckAgrees(nsCheck)
    ensures ClassifyAll(Sample1(), Sample1Tag, nsCheck, Sample1().Namelist()) == Success(Sample1Found())
  {
    var zf := Sample1();
    Sample1Prefix(nsCheck, NsPkgDecl(), 6);
    assert zf.Namelist()[..6] == zf.Namelist();
    assert Sample1Found()[..6] == Sample1Found();
  }

  /** `test_check_namespace_pkg`'s last case, as the code behaves: `ast.parse` rejects `raise = 2`,
      so a `sample1` whose `namespace2/__init__.py` holds it stops at that member with its
      `SyntaxError`, after the four members before it have been classified. */
  lemma NonPythonInitAborts(nsCheck: NsCheck)
    requires NamespaceCheckAgrees(nsCheck)
    requires nsCheck(RaiseAssign()).None?
    ensures var zf := Sample1With(RaiseAssign());
      ClassifyAll(zf, Sample1Tag, nsCheck, zf.Namelist()) == Failure(BadInit(Namespace2Init))
  {
    var zf := Sample1With(RaiseAssign());
    Sample1Prefix(nsCheck, RaiseAssign(), 4);
    Namespace2Raises(nsCheck, RaiseAssign());
    ClassifyAllStopsAt(zf, Sample1Tag, nsCheck, zf.Namelist(), 4);
  }

  /** Member 4 of `sample1`, `namespace2/__init__.py`, raises when the check cannot parse it. */
  lemma Namespace2Raises(nsCheck: NsCheck, nsDecl: Bytes)
    requires nsCheck(nsDecl).None?
    ensures var zf := Sample1With(nsDecl);
      ClassifyMember(zf, Sample1Tag, nsCheck, zf.Namelist()[4]) == Failure(BadInit(Namespace2Init))
  {
    Sample1Names(nsDecl);
    Namespace2Read(nsDecl);
    assert EndsWith(Namespace2Init, InitSuffix);
  }

  /** `x` is a namespace package of the records whose kinds, module names and parent packages are
      listed in `kinds`, `names` and `parents`. */
  predicate TableNamespace(kinds: seq<ModuleType>, names: seq<string>, parents: seq<string>, x: string)
    requires |kinds| == |names| == |parents|
  {
    || (exists k :: 0 <= k < |kinds| && kinds[k] == NamespacePackage && names[k] == x)
    || (&& x != ""
        && !(exists k :: 0 <= k < |kinds| && kinds[k] == Package && names[k] == x)
        && (exists k :: 0 <= k < |parents| && parents[k] == x))
  }

  /** The namespace packages of a list of records depend only on their kinds, names and parents. */
  lemma TableNamespaces(mods: seq<FoundModule>, kinds: seq<ModuleType>, names: seq<string>, parents: seq<string>)
    requires AllInstalled(mods)
    requires |mods| == |kinds| == |names| == |parents|
    requires forall k :: 0 <= k < |mods| ==> RecordIs(mods[k], kinds[k], names[k], parents[k])
    ensures forall x :: IsNamespacePackage(mods, x) <==> TableNamespace(kinds, names, parents, x)
  {
  }

  lemma Sample1TableNamespacesOnly(x: string)
    requires TableNamespace(Sample1Kinds, Sample1ModuleNames, Sample1Parents, x)
    ensures x == "namespace1" || x == "namespace2"
  {
    if exists k :: 0 <= k < 6 && Sample1Kinds[k] == NamespacePackage && Sample1ModuleNames[k] == x {
      var k :| 0 <= k < 6 && Sample1Kinds[k] == NamespacePackage && Sample1ModuleNames[k] == x;
      assert k == 4;
    } else {
      var k :| 0 <= k < 6 && Sample1Parents[k] == x;
      assert x != "";
    }
  }

  lemma Sample1TableNamespacesBoth()
    ensures TableNamespace(Sample1Kinds, Sample1ModuleNames, Sample1Parents, "namespace1")
    ensures TableNamespace(Sample1Kinds, Sample1ModuleNames, Sample1Parents, "namespace2")
  {
    assert Sample1Parents[3] == "namespace1";
    assert Sample1Kinds[4] == NamespacePackage && Sample1ModuleNames[4] == "namespace2";
    forall k | 0 <= k < 6 && Sample1Kinds[k] == Package
      ensures Sample1ModuleNames[k] != "namespace1"
    {
      assert k == 2;
    }
  }

  /** Records matching a table have the table's namespace packages. */
  lemma NamespacesByTable(mods: seq<FoundModule>, kinds: seq<ModuleType>, names: seq<string>, parents: seq<string>,
                          s: set<string>)
    requires AllInstalled(mods)
    requires |mods| == |kinds| == |names| == |parents|
    requires forall k :: 0 <= k < |mods| ==> RecordIs(mods[k], kinds[k], names[k], parents[k])
    requires forall x :: TableNamespace(kinds, names, parents, x) <==> x in s
    ensures forall x :: IsNamespacePackage(mods, x) <==> x in s
    ensures NamespaceSet(mods) == s
  {
    TableNamespaces(mods, kinds, names, parents);
  }

  /** The namespace packages the sample1 table names. */
  lemma Sample1TableIs()
    ensures forall x :: TableNamespace(Sample1Kinds, Sample1ModuleNames, Sample1Parents, x) <==> x in {"namespace1", "namespace2"}
  {
    Sample1TableNamespacesBoth();
    forall x | TableNamespace(Sample1Kinds, Sample1ModuleNames, Sample1Parents, x)
      ensures x in {"namespace1", "namespace2"}
    {
      Sample1TableNamespacesOnly(x);
    }
  }

  /** Exactly `namespace1` and `namespace2` are namespace packages of sample1's records. */
  lemma Sample1IsNamespace()
    ensures AllInstalled(Sample1Found())
    ensures forall x :: IsNamespacePackage(Sample1Found(), x) <==> x in {"namespace1", "namespace2"}
    ensures NamespaceSet(Sample1Found()) == {"namespace1", "namespace2"}
  {
    Sample1AllNamed();
    Sample1TableIs();
    NamespacesByTable(Sample1Found(), Sample1Kinds, Sample1ModuleNames, Sample1Parents, {"namespace1", "namespace2"});
  }

  /** `test_find_namespace_packages`: the namespace packages of sample1 are `namespace1` (implied by
      `namespace1/foo.py`, PEP 420) and `namespace2` (declared with `extend_path`). */
  lemma Sample1Namespaces()
    ensures AllInstalled(Sample1Found())
    ensures NamespaceSet(Sample1Found()) == {"namespace1", "namespace2"}
  {
    Sample1IsNamespace();
  }

  /** `sorted(find_namespace_packages(...))` on sample1's records. */
  lemma Sample1NamespacesSorted(mods: seq<FoundModule>, ns: seq<string>)
    requires mods == Sample1Found() && AllInstalled(mods)
    requires StrictlySorted(ns)
    requires forall x :: x in ns <==> IsNamespacePackage(mods, x)
    ensures ns == ["namespace1", "namespace2"]
  {
    Sample1IsNamespace();
    Namespace1Before2();
    SortedPair(ns, "namespace1", "namespace2");
  }

  /** A strictly sorted sequence holding exactly `a < b` is `[a, b]`. */
  lemma SortedPair(ns: seq<string>, a: string, b: string)
    requires StrictlySorted(ns) && Less(a, b)
    requires forall x :: x in ns <==> x in {a, b}
    ensures ns == [a, b]
  {
    StrictlySortedUnique(ns, [a, b]);
  }

  lemma Namespace1Before2()
    ensures Less("namespace1", "namespace2")
  {
    assert "namespace1"[1..] == "amespace1";
  }

  /** The two tests chained as the suite runs them: classify sample1, then infer its namespace
      packages; `sorted` gives them in ascending order. */
  method FindSample1Namespaces(nsCheck: NsCheck) returns (ns: seq<string>)
    requires NamespaceCheckAgrees(nsCheck)
    ensures ns == ["namespace1", "namespace2"]
  {
    var found := FindModuleFiles(Sample1(), Sample1Tag, nsCheck);
    Sample1Classified(nsCheck);
    Sample1AllNamed();
    ns := FindNamespacePackages(found.value);
    Sample1NamespacesSorted(found.value, ns);
  }

  /** An `__init__.py` is yielded even where nothing is installed: `x.data/headers/__init__.py`
      gives a record with no site-packages path. */
  lemma UninstalledInitYielded(zf: ZipArchive, nsCheck: NsCheck, path: string)
    requires path == "x.data" + "/" + "headers" + InitSuffix && path in zf.Namelist()
    requires nsCheck(zf.Read(path).value).Some?
    ensures var r := ClassifyMember(zf, Sample1Tag, nsCheck, path);
      r.Success? && r.value.Some? && !r.value.value.Installed()
  {
    assert EndsWith(path, InitSuffix);
    var m := ClassifyMember(zf, Sample1Tag, nsCheck, path).value.value;
    assert path == "x.data" + "/" + "headers" + "/" + "__init__.py";
    OtherDataNotInstalled("x.data", "headers", "__init__.py", InitSuffix, m.modtype);
  }

  /** Only the immediate parent is inferred: a lone `a/b/c.py` makes `a.b` a namespace package,
      but not `a`. */
  lemma ImmediateParentOnly(m: FoundModule)
    requires m == FoundModule("a/b" + "/" + "c" + ".py", ".py", Source)
    ensures m.Installed() && AllInstalled([m])
    ensures NamespaceSet([m]) == {"a.b"}
  {
    assert '/' !in "a" && "a"[0] == 'a';
    assert m.pathInArchive == "a" + ("/" + "b/c.py");
    PlainMemberInstalled("a", "/" + "b/c.py", ".py", Source);
    PackagedNames(m, "a/b", "c");
    assert ReplaceChar("a/b", '/', '.') == "a.b";
    forall x
      ensures IsNamespacePackage([m], x) <==> x == "a.b"
    {
      if x == "a.b" {
        assert [m][0].ParentPkg() == x;
      }
    }
  }
}
