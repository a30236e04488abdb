/** The module classifier (wheeldex.py lines 111-125): every archive member name becomes at most
    one module record. */
module Classifier {
  import opened Wrappers
  import opened Strings
  import opened Archive
  import opened Records
  import opened Suffixes

  /** Rule `i` is the first rule of the table whose suffix `path` ends with. */
  predicate IsFirstMatch(path: string, rules: seq<Rule>, i: int)
  {
    && 0 <= i < |rules|
    && EndsWith(path, rules[i].suffix)
    && forall j :: 0 <= j < i ==> !EndsWith(path, rules[j].suffix)
  }

  /** Scan the table in order and stop at the first suffix that matches. */
  function FirstMatch(path: string, rules: seq<Rule>): (r: Option<nat>)
    ensures r.Some? ==> IsFirstMatch(path, rules, r.value)
    ensures r.None? ==> forall j :: 0 <= j < |rules| ==> !EndsWith(path, rules[j].suffix)
  {
    if |rules| == 0 then None
    else if EndsWith(path, rules[0].suffix) then Some(0)
    else
      match FirstMatch(path, rules[1..])
      case None => None
      case Some(i) => Some(i + 1)
  }

  /** The record the first matching rule makes of `path`, kept only when it is installed. */
  function MatchRules(path: string, rules: seq<Rule>): (r: Option<FoundModule>)
    ensures r.Some? <==>
      exists i :: IsFirstMatch(path, rules, i) && FoundModule(path, rules[i].suffix, rules[i].kind).Installed()
    ensures r.Some? ==>
      exists i :: IsFirstMatch(path, rules, i) && r.value == FoundModule(path, rules[i].suffix, rules[i].kind)
  {
    match FirstMatch(path, rules)
    case None => None
    case Some(i) =>
      var m := FoundModule(path, rules[i].suffix, rules[i].kind);
      if m.Installed() then Some(m) else None
  }

  /** The inner loop of `find_module_files`: try the rules in order, `break` at the first suffix
      that matches, and keep its record only when it is installed. */
  method ScanRules(path: string, rules: seq<Rule>) returns (res: Option<FoundModule>)
    ensures res == MatchRules(path, rules)
  {
    var k := 0;
    while k < |rules|
      invariant 0 <= k <= |rules|
      invariant forall j :: 0 <= j < k ==> !EndsWith(path, rules[j].suffix)
    {
      var ext := rules[k].suffix;
      if EndsWith(path, ext) {
        FirstMatchIs(path, rules, k);
        var found := FoundModule(path, ext, rules[k].kind);
        if found.PathInSitePackages().Some? {
          return Some(found);
        }
        return None;
      }
      k := k + 1;
    }
    return None;
  }

  /** The namespace-package check of an `__init__.py`'s contents: `Some(b)` is its verdict, and
      `None` is the `SyntaxError` that `ast.parse` raises on contents that are not Python. */
  type NsCheck = Bytes -> Option<bool>

  /** Why a run stops: the tag's `ValueError`, or the `SyntaxError` of the `__init__.py` at `path`. */
  datatype ScanError = BadTag(cause: TagError) | BadInit(path: string)

  /** The listed member `path` raises: an `__init__.py` whose contents the check cannot parse, or
      any other member when the tag is malformed. */
  predicate MemberFails(zf: ZipArchive, wheelTag: string, nsCheck: NsCheck, path: string)
    requires path in zf.Namelist()
  {
    if EndsWith(path, InitSuffix) then nsCheck(zf.Read(path).value).None? else ParseTag(wheelTag).None?
  }

  /** What one listed member contributes: a record, nothing, or the error it raises. */
  function ClassifyMember(zf: ZipArchive, wheelTag: string, nsCheck: NsCheck, path: string)
    : (r: Result<Option<FoundModule>, ScanError>)
    requires path in zf.Namelist()
    ensures r.Failure? <==> MemberFails(zf, wheelTag, nsCheck, path)
    ensures EndsWith(path, InitSuffix) && r.Failure? ==> r.error == BadInit(path)
    ensures EndsWith(path, InitSuffix) && r.Success? ==>
      && r.value.Some?
      && r.value.value.pathInArchive == path && r.value.value.ext == InitSuffix
      && (r.value.value.modtype == Package || r.value.value.modtype == NamespacePackage)
      && (r.value.value.modtype == NamespacePackage <==> nsCheck(zf.Read(path).value) == Some(true))
    ensures !EndsWith(path, InitSuffix) && r.Failure? ==> r.error == BadTag(MalformedTag(wheelTag))
    ensures !EndsWith(path, InitSuffix) && r.Success? ==>
      r.value == MatchRules(path, SuffixTable(ParseTag(wheelTag).value))
    ensures r.Success? && r.value.Some? ==> r.value.value.pathInArchive == path
  {
    if EndsWith(path, InitSuffix) then
      match nsCheck(zf.Read(path).value)
      case None => Failure(BadInit(path))
      case Some(isNs) => Success(Some(FoundModule(path, InitSuffix, if isNs then NamespacePackage else Package)))
    else
      match ParseTag(wheelTag)
      case None => Failure(BadTag(MalformedTag(wheelTag)))
      case Some(t) => Success(MatchRules(path, SuffixTable(t)))
  }

  /** What a member contributes to the run. */
  type Contribution = Result<Option<FoundModule>, ScanError>

  /** The contributions of `names`, one per name, in order. */
  function Contributions(zf: ZipArchive, wheelTag: string, nsCheck: NsCheck, names: seq<string>)
    : (cs: seq<Contribution>)
    requires forall n :: n in names ==> n in zf.Namelist()
    ensures |cs| == |names|
    ensures forall k :: 0 <= k < |names| ==> cs[k] == ClassifyMember(zf, wheelTag, nsCheck, names[k])
  {
    seq(|names|, k requires 0 <= k < |names| => ClassifyMember(zf, wheelTag, nsCheck, names[k]))
  }

  /** Running through contributions in order: the first failure ends the run, otherwise the records
      that were found, in order. */
  function Collect(cs: seq<Contribution>): Result<seq<FoundModule>, ScanError>
    decreases |cs|
  {
    if cs == [] then Success([])
    else
      match Collect(cs[..|cs| - 1])
      case Failure(e) => Failure(e)
      case Success(prev) =>
        match cs[|cs| - 1]
        case Failure(e) => Failure(e)
        case Success(None) => Success(prev)
        case Success(Some(m)) => Success(prev + [m])
  }

  /** The records of `names`, in order; the first member that raises ends the run with its error. */
  function ClassifyAll(zf: ZipArchive, wheelTag: string, nsCheck: NsCheck, names: seq<string>)
    : Result<seq<FoundModule>, ScanError>
    requires forall n :: n in names ==> n in zf.Namelist()
  {
    Collect(Contributions(zf, wheelTag, nsCheck, names))
  }

  /** `find_module_files`: loop over `namelist()`; an `__init__.py` becomes a package at once
      (unless its contents do not parse), anything else is matched against the suffix table (`ScanRules`). */
  method FindModuleFiles(zf: ZipArchive, wheelTag: string, nsCheck: NsCheck)
    returns (r: Result<seq<FoundModule>, ScanError>)
    ensures r == ClassifyAll(zf, wheelTag, nsCheck, zf.Namelist())
  {
    var names := zf.Namelist();
    ghost var cs := Contributions(zf, wheelTag, nsCheck, names);
    var found: seq<FoundModule> := [];
    for i := 0 to |names|
      invariant Collect(cs[..i]) == Success(found)
    {
      var path := names[i];
      CollectStep(cs, i);
      if EndsWith(path, InitSuffix) {
        var verdict := nsCheck(zf.Read(path).value);
        if verdict.None? {
          CollectFailureAt(cs, i);
          return Failure(BadInit(path));
        }
        var modtype := Package;
        if verdict.value {
          modtype := NamespacePackage;
        }
        found := found + [FoundModule(path, InitSuffix, modtype)];
        continue;
      }
      var table := GetModuleSuffixes(wheelTag);
      if table.Failure? {
        CollectFailureAt(cs, i);
        return Failure(BadTag(table.error));
      }
      var res := ScanRules(path, table.value);
      if res.Some? {
        found := found + [res.value];
      }
    }
    assert cs[..|names|] == cs;
    return Success(found);
  }

  /** A first match found by scanning is the one `FirstMatch` reports. */
  lemma FirstMatchIs(path: string, rules: seq<Rule>, k: int)
    requires IsFirstMatch(path, rules, k)
    ensures FirstMatch(path, rules) == Some(k)
  {
  }

  /** One more contribution: fail with it, skip it, or append its record. */
  lemma CollectStep(cs: seq<Contribution>, i: nat)
    requires i < |cs|
    ensures Collect(cs[..i + 1]) ==
      match Collect(cs[..i])
      case Failure(e) => Failure(e)
      case Success(prev) =>
        match cs[i]
        case Failure(e) => Failure(e)
        case Success(None) => Success(prev)
        case Success(Some(m)) => Success(prev + [m])
  {
    assert cs[..i + 1][..i] == cs[..i];
  }

  /** A run that has not failed before a failing contribution fails with it. */
  lemma CollectFailureAt(cs: seq<Contribution>, i: nat)
    requires i < |cs| && cs[i].Failure? && Collect(cs[..i]).Success?
    ensures Collect(cs) == Failure(cs[i].error)
  {
    CollectStep(cs, i);
    CollectFailurePersists(cs, i + 1);
  }

  /** Once failed, a run stays failed with the same error. */
  lemma {:induction false} CollectFailurePersists(cs: seq<Contribution>, i: nat)
    requires i <= |cs| && Collect(cs[..i]).Failure?
    ensures Collect(cs) == Collect(cs[..i])
    decreases |cs| - i
  {
    if i == |cs| {
      assert cs[..i] == cs;
    } else {
      CollectStep(cs, i);
      CollectFailurePersists(cs, i + 1);
    }
  }

  /** A run fails exactly when some contribution is a failure, and then with the error of the first one. */
  lemma {:induction false} CollectFails(cs: seq<Contribution>)
    ensures Collect(cs).Failure? <==> exists k :: 0 <= k < |cs| && cs[k].Failure?
    ensures Collect(cs).Failure? ==> exists k :: FirstFailure(cs, k) && cs[k].error == Collect(cs).error
    decreases |cs|
  {
    if cs != [] {
      var n := |cs| - 1;
      var init := cs[..n];
      CollectFails(init);
      assert forall k :: 0 <= k < n ==> init[k] == cs[k];
      if Collect(init).Failure? {
        var k :| FirstFailure(init, k) && init[k].error == Collect(init).error;
        assert FirstFailure(cs, k);
      } else if cs[n].Failure? {
        CollectComplete(init);
        assert FirstFailure(cs, n);
      }
    }
  }

  /** Contribution `k` is the first failure. */
  predicate FirstFailure(cs: seq<Contribution>, k: int)
  {
    0 <= k < |cs| && cs[k].Failure? && forall j :: 0 <= j < k ==> cs[j].Success?
  }

  /** Every record comes from some contribution. */
  lemma {:induction false} CollectSound(cs: seq<Contribution>)
    requires Collect(cs).Success?
    ensures forall m :: m in Collect(cs).value ==> exists k :: 0 <= k < |cs| && cs[k] == Success(Some(m))
    decreases |cs|
  {
    if cs != [] {
      var n := |cs| - 1;
      var init := cs[..n];
      CollectSound(init);
      forall m | m in Collect(cs).value
        ensures exists k :: 0 <= k < |cs| && cs[k] == Success(Some(m))
      {
        if m in Collect(init).value {
          var k :| 0 <= k < n && init[k] == Success(Some(m));
          assert cs[k] == init[k];
        } else {
          assert cs[n] == Success(Some(m));
        }
      }
    }
  }

  /** A successful run has no failing contribution and keeps every record contributed. */
  lemma {:induction false} CollectComplete(cs: seq<Contribution>)
    requires Collect(cs).Success?
    ensures forall k :: 0 <= k < |cs| ==>
      cs[k].Success? && (cs[k].value.Some? ==> cs[k].value.value in Collect(cs).value)
    decreases |cs|
  {
    if cs != [] {
      var n := |cs| - 1;
      var init := cs[..n];
      CollectComplete(init);
      forall k | 0 <= k < n
        ensures cs[k].Success? && (cs[k].value.Some? ==> cs[k].value.value in Collect(cs).value)
      {
        assert cs[k] == init[k];
      }
    }
  }

  /** The records keep the order of the contributions that made them. */
  lemma {:induction false} CollectOrdered(cs: seq<Contribution>)
    requires Collect(cs).Success?
    ensures var found := Collect(cs).value;
      forall i, j :: 0 <= i < j < |found| ==> ContributedInOrder(cs, found[i], found[j])
    decreases |cs|
  {
    if cs != [] {
      var n := |cs| - 1;
      var init := cs[..n];
      CollectOrdered(init);
      CollectSound(init);
      var prev := Collect(init).value;
      var found := Collect(cs).value;
      forall i, j | 0 <= i < j < |found|
        ensures ContributedInOrder(cs, found[i], found[j])
      {
        assert found[i] == prev[i];
        if j < |prev| {
          assert found[j] == prev[j];
          var a, b :| 0 <= a < b < n && init[a] == Success(Some(prev[i])) && init[b] == Success(Some(prev[j]));
          assert cs[a] == init[a] && cs[b] == init[b];
        } else {
          assert prev[i] in prev;
          var a :| 0 <= a < n && init[a] == Success(Some(prev[i]));
          assert cs[a] == init[a];
          assert cs[n] == Success(Some(found[j]));
        }
      }
    }
  }

  /** `x` is contributed before `y`. */
  predicate ContributedInOrder(cs: seq<Contribution>, x: FoundModule, y: FoundModule)
  {
    exists a, b :: 0 <= a < b < |cs| && cs[a] == Success(Some(x)) && cs[b] == Success(Some(y))
  }

  /** The run fails exactly when some listed member raises, and then with the error of the first
      such member: the `SyntaxError` of an `__init__.py`, or the tag's `ValueError`. */
  lemma ClassifyAllFailure(zf: ZipArchive, wheelTag: string, nsCheck: NsCheck, names: seq<string>)
    requires forall n :: n in names ==> n in zf.Namelist()
    ensures var r := ClassifyAll(zf, wheelTag, nsCheck, names);
      && (r.Failure? <==> exists n :: n in names && MemberFails(zf, wheelTag, nsCheck, n))
      && (r.Failure? ==> exists k ::
            && 0 <= k < |names| && MemberFails(zf, wheelTag, nsCheck, names[k])
            && (forall j :: 0 <= j < k ==> !MemberFails(zf, wheelTag, nsCheck, names[j]))
            && r.error == if EndsWith(names[k], InitSuffix) then BadInit(names[k]) else BadTag(MalformedTag(wheelTag)))
  {
    var cs := Contributions(zf, wheelTag, nsCheck, names);
    CollectFails(cs);
    if exists n :: n in names && MemberFails(zf, wheelTag, nsCheck, n) {
      var n :| n in names && MemberFails(zf, wheelTag, nsCheck, n);
      var k :| 0 <= k < |names| && names[k] == n;
      assert cs[k].Failure?;
    }
    if Collect(cs).Failure? {
      var k :| FirstFailure(cs, k) && cs[k].error == Collect(cs).error;
      assert MemberFails(zf, wheelTag, nsCheck, names[k]);
      assert forall j :: 0 <= j < k ==> !MemberFails(zf, wheelTag, nsCheck, names[j]);
    }
  }

  /** Every record comes from a listed member and is exactly what that member contributes. */
  lemma ClassifyAllSound(zf: ZipArchive, wheelTag: string, nsCheck: NsCheck, names: seq<string>)
    requires forall n :: n in names ==> n in zf.Namelist()
    requires ClassifyAll(zf, wheelTag, nsCheck, names).Success?
    ensures forall m :: m in ClassifyAll(zf, wheelTag, nsCheck, names).value ==>
      m.pathInArchive in names && ClassifyMember(zf, wheelTag, nsCheck, m.pathInArchive) == Success(Some(m))
  {
    var cs := Contributions(zf, wheelTag, nsCheck, names);
    CollectSound(cs);
    forall m | m in Collect(cs).value
      ensures m.pathInArchive in names && ClassifyMember(zf, wheelTag, nsCheck, m.pathInArchive) == Success(Some(m))
    {
      var k :| 0 <= k < |cs| && cs[k] == Success(Some(m));
      assert m.pathInArchive == names[k];
    }
  }

  /** Every listed member that contributes a record has that record in the output; in particular
      every `__init__.py` member yields its record, installed or not. */
  lemma ClassifyAllComplete(zf: ZipArchive, wheelTag: string, nsCheck: NsCheck, names: seq<string>)
    requires forall n :: n in names ==> n in zf.Namelist()
    requires ClassifyAll(zf, wheelTag, nsCheck, names).Success?
    ensures forall n :: n in names ==>
      var c := ClassifyMember(zf, wheelTag, nsCheck, n);
      c.Success? && (c.value.Some? ==> c.value.value in ClassifyAll(zf, wheelTag, nsCheck, names).value)
  {
    var cs := Contributions(zf, wheelTag, nsCheck, names);
    CollectComplete(cs);
    forall n | n in names
      ensures var c := ClassifyMember(zf, wheelTag, nsCheck, n);
        c.Success? && (c.value.Some? ==> c.value.value in Collect(cs).value)
    {
      var k :| 0 <= k < |names| && names[k] == n;
      assert cs[k] == ClassifyMember(zf, wheelTag, nsCheck, n);
    }
  }

  /** `x` is listed before `y`. */
  predicate ListedBefore(names: seq<string>, x: string, y: string)
  {
    exists a, b :: 0 <= a < b < |names| && names[a] == x && names[b] == y
  }

  /** The output follows `namelist()` order: of two records, the earlier one comes from an earlier name. */
  lemma ClassifyAllOrdered(zf: ZipArchive, wheelTag: string, nsCheck: NsCheck, names: seq<string>)
    requires forall n :: n in names ==> n in zf.Namelist()
    requires ClassifyAll(zf, wheelTag, nsCheck, names).Success?
    ensures var found := ClassifyAll(zf, wheelTag, nsCheck, names).value;
      forall i, j :: 0 <= i < j < |found| ==> ListedBefore(names, found[i].pathInArchive, found[j].pathInArchive)
  {
    var cs := Contributions(zf, wheelTag, nsCheck, names);
    CollectOrdered(cs);
    var found := Collect(cs).value;
    forall i, j | 0 <= i < j < |found|
      ensures ListedBefore(names, found[i].pathInArchive, found[j].pathInArchive)
    {
      var a, b :| 0 <= a < b < |cs| && cs[a] == Success(Some(found[i])) && cs[b] == Success(Some(found[j]));
      assert names[a] == found[i].pathInArchive && names[b] == found[j].pathInArchive;
    }
  }

  /** When every listed member contributes a record, the output is exactly those records, in order. */
  lemma ClassifyAllEveryMember(zf: ZipArchive, wheelTag: string, nsCheck: NsCheck,
                               names: seq<string>, found: seq<FoundModule>)
    requires forall n :: n in names ==> n in zf.Namelist()
    requires |found| == |names|
    requires forall k :: 0 <= k < |names| ==>
      ClassifyMember(zf, wheelTag, nsCheck, names[k]) == Success(Some(found[k]))
    ensures ClassifyAll(zf, wheelTag, nsCheck, names) == Success(found)
  {
    var cs := Contributions(zf, wheelTag, nsCheck, names);
    CollectAllRecords(cs, found, |cs|);
    assert cs[..|cs|] == cs && found[..|cs|] == found;
  }

  /** The contributions of a prefix of the names are the prefix of their contributions. */
  lemma ContributionsPrefix(zf: ZipArchive, wheelTag: string, nsCheck: NsCheck, names: seq<string>, i: nat)
    requires forall n :: n in names ==> n in zf.Namelist()
    requires i <= |names|
    ensures Contributions(zf, wheelTag, nsCheck, names[..i]) == Contributions(zf, wheelTag, nsCheck, names)[..i]
  {
  }

  /** Classifying one more name that contributes a record appends that record. */
  lemma ClassifyAllExtend(zf: ZipArchive, wheelTag: string, nsCheck: NsCheck,
                          names: seq<string>, found: seq<FoundModule>, i: nat)
    requires forall n :: n in names ==> n in zf.Namelist()
    requires i < |names| && i < |found|
    requires ClassifyAll(zf, wheelTag, nsCheck, names[..i]) == Success(found[..i])
    requires ClassifyMember(zf, wheelTag, nsCheck, names[i]) == Success(Some(found[i]))
    ensures ClassifyAll(zf, wheelTag, nsCheck, names[..i + 1]) == Success(found[..i + 1])
  {
    var cs := Contributions(zf, wheelTag, nsCheck, names);
    ContributionsPrefix(zf, wheelTag, nsCheck, names, i);
    ContributionsPrefix(zf, wheelTag, nsCheck, names, i + 1);
    CollectExtend(cs, found, i);
  }

  /** A name that raises, after names that did not, ends the whole run with its error. */
  lemma ClassifyAllStopsAt(zf: ZipArchive, wheelTag: string, nsCheck: NsCheck, names: seq<string>, i: nat)
    requires forall n :: n in names ==> n in zf.Namelist()
    requires i < |names|
    requires ClassifyAll(zf, wheelTag, nsCheck, names[..i]).Success?
    requires ClassifyMember(zf, wheelTag, nsCheck, names[i]).Failure?
    ensures ClassifyAll(zf, wheelTag, nsCheck, names) == Failure(ClassifyMember(zf, wheelTag, nsCheck, names[i]).error)
  {
    var cs := Contributions(zf, wheelTag, nsCheck, names);
    ContributionsPrefix(zf, wheelTag, nsCheck, names, i);
    CollectFailureAt(cs, i);
  }

  lemma CollectExtend(cs: seq<Contribution>, found: seq<FoundModule>, i: nat)
    requires i < |cs| && i < |found|
    requires Collect(cs[..i]) == Success(found[..i])
    requires cs[i] == Success(Some(found[i]))
    ensures Collect(cs[..i + 1]) == Success(found[..i + 1])
  {
    CollectStep(cs, i);
    assert found[..i] + [found[i]] == found[..i + 1];
  }

  lemma {:induction false} CollectAllRecords(cs: seq<Contribution>, found: seq<FoundModule>, i: nat)
    requires i <= |cs| == |found|
    requires forall k :: 0 <= k < |cs| ==> cs[k] == Success(Some(found[k]))
    ensures Collect(cs[..i]) == Success(found[..i])
  {
    if i == 0 {
      assert cs[..0] == [];
    } else {
      CollectAllRecords(cs, found, i - 1);
      CollectStep(cs, i - 1);
      assert found[..i - 1] + [found[i - 1]] == found[..i];
    }
  }

  /** In a valid archive (each name listed once) no two records are the same module, so
      collecting the output in a Python `set` keeps every record. */
  lemma ClassifyAllDistinct(zf: ZipArchive, wheelTag: string, nsCheck: NsCheck)
    requires zf.Valid()
    requires ClassifyAll(zf, wheelTag, nsCheck, zf.Namelist()).Success?
    ensures var found := ClassifyAll(zf, wheelTag, nsCheck, zf.Namelist()).value;
      forall i, j :: 0 <= i < j < |found| ==> !SameModule(found[i], found[j])
  {
    var names := zf.Namelist();
    ClassifyAllOrdered(zf, wheelTag, nsCheck, names);
  }
}
