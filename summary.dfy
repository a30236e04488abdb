/** The summary of what a wheel makes importable (wheeldex.py lines 146-152): the records reachable
    from the top level, ordered by where they are installed. */
module Summary {
  import opened StringOrder
  import opened Records
  import opened Namespaces

  /** The sort key `m.path_in_site_packages` (every record the summary sorts has one). */
  function SiteKey(m: FoundModule): string
  {
    match m.PathInSitePackages()
    case Some(p) => p
    case None => ""
  }

  /** `s` is in ascending order of `key` (equal keys allowed). */
  predicate SortedBy(s: seq<FoundModule>, key: FoundModule -> string)
  {
    forall i, j :: 0 <= i < j < |s| ==> LessEq(key(s[i]), key(s[j]))
  }

  /** Insert `m` in front of the first record whose key is not smaller (so equal keys keep their order). */
  function InsertBy(m: FoundModule, s: seq<FoundModule>, key: FoundModule -> string): seq<FoundModule>
  {
    if s == [] || LessEq(key(m), key(s[0])) then [m] + s
    else [s[0]] + InsertBy(m, s[1..], key)
  }

  /** Inserting adds exactly `m`. */
  lemma {:induction false} InsertByCount(m: FoundModule, s: seq<FoundModule>, key: FoundModule -> string)
    ensures multiset(InsertBy(m, s, key)) == multiset(s) + multiset{m}
    decreases |s|
  {
    if s != [] && !LessEq(key(m), key(s[0])) {
      InsertByCount(m, s[1..], key);
      assert s == [s[0]] + s[1..];
    }
  }

  /** Inserting into a sorted sequence keeps it sorted. */
  lemma {:induction false} InsertBySorted(m: FoundModule, s: seq<FoundModule>, key: FoundModule -> string)
    requires SortedBy(s, key)
    ensures SortedBy(InsertBy(m, s, key), key)
    decreases |s|
  {
    var r := InsertBy(m, s, key);
    if s == [] {
    } else if LessEq(key(m), key(s[0])) {
      forall i, j | 0 <= i < j < |r| ensures LessEq(key(r[i]), key(r[j])) {
        if i == 0 && j > 1 && key(m) != key(s[0]) && key(s[0]) != key(r[j]) {
          assert LessEq(key(s[0]), key(s[j - 1]));
          LessTransitive(key(m), key(s[0]), key(r[j]));
        }
      }
    } else {
      LessTotal(key(m), key(s[0]));
      var tail := InsertBy(m, s[1..], key);
      InsertBySorted(m, s[1..], key);
      InsertByCount(m, s[1..], key);
      forall j | 0 <= j < |tail| ensures LessEq(key(s[0]), key(tail[j])) {
        assert tail[j] in multiset(tail);
        if tail[j] != m {
          assert tail[j] in multiset(s[1..]);
          var k :| 0 <= k < |s[1..]| && s[1..][k] == tail[j];
          assert s[k + 1] == tail[j];
        }
      }
      forall i, j | 0 <= i < j < |r| ensures LessEq(key(r[i]), key(r[j])) {
        if i > 0 { assert r[i] == tail[i - 1] && r[j] == tail[j - 1]; }
      }
    }
  }

  /** Python's `sorted(s, key=key)`: a stable insertion sort. */
  function SortBy(s: seq<FoundModule>, key: FoundModule -> string): seq<FoundModule>
  {
    if s == [] then [] else InsertBy(s[0], SortBy(s[1..], key), key)
  }

  /** Sorting yields an ascending rearrangement of its input. */
  lemma {:induction false} SortByCorrect(s: seq<FoundModule>, key: FoundModule -> string)
    ensures SortedBy(SortBy(s, key), key)
    ensures multiset(SortBy(s, key)) == multiset(s)
    decreases |s|
  {
    if s != [] {
      SortByCorrect(s[1..], key);
      InsertBySorted(s[0], SortBy(s[1..], key), key);
      InsertByCount(s[0], SortBy(s[1..], key), key);
      assert s == [s[0]] + s[1..];
    }
  }

  /** A rearrangement of installed records holds only installed records. */
  lemma SameRecordsInstalled(a: seq<FoundModule>, b: seq<FoundModule>)
    requires AllInstalled(a) && multiset(a) == multiset(b)
    ensures AllInstalled(b)
  {
    forall k | 0 <= k < |b| ensures b[k].Installed() {
      assert b[k] in multiset(a);
    }
  }

  /** A record reaches the summary when it is at the top level or its parent is a namespace package. */
  predicate Reachable(mods: seq<FoundModule>, m: FoundModule)
    requires AllInstalled(mods)
  {
    m.Installed() && (m.ParentPkg() == "" || IsNamespacePackage(mods, m.ParentPkg()))
  }

  /** The records of `s` that `keep` accepts, in their order. */
  function Filter(s: seq<FoundModule>, keep: FoundModule -> bool): seq<FoundModule>
  {
    if s == [] then []
    else
      var last := s[|s| - 1];
      Filter(s[..|s| - 1], keep) + (if keep(last) then [last] else [])
  }

  /** Filtering keeps each accepted record as often as it occurs and drops every other one. */
  lemma {:induction false} FilterCount(s: seq<FoundModule>, keep: FoundModule -> bool)
    ensures forall m :: multiset(Filter(s, keep))[m] == if keep(m) then multiset(s)[m] else 0
    decreases |s|
  {
    if s != [] {
      FilterCount(s[..|s| - 1], keep);
      assert s == s[..|s| - 1] + [s[|s| - 1]];
    }
  }

  /** Filtering a sorted sequence leaves it sorted. */
  lemma {:induction false} FilterSorted(s: seq<FoundModule>, keep: FoundModule -> bool, key: FoundModule -> string)
    requires SortedBy(s, key)
    ensures SortedBy(Filter(s, keep), key)
    decreases |s|
  {
    if s != [] {
      var init, last := s[..|s| - 1], s[|s| - 1];
      FilterSorted(init, keep, key);
      FilterCount(init, keep);
      var kept := Filter(init, keep);
      forall a | 0 <= a < |kept|
        ensures LessEq(key(kept[a]), key(last))
      {
        assert multiset(kept)[kept[a]] > 0;
        assert kept[a] in multiset(init);
        var k :| 0 <= k < |init| && init[k] == kept[a];
        assert s[k] == kept[a];
      }
    }
  }

  /** One more record of `s` adds it to the filtered prefix exactly when `keep` accepts it. */
  lemma FilterStep(s: seq<FoundModule>, keep: FoundModule -> bool, i: nat)
    requires i < |s|
    ensures Filter(s[..i + 1], keep) == Filter(s[..i], keep) + (if keep(s[i]) then [s[i]] else [])
  {
    assert s[..i + 1][..i] == s[..i];
  }

  /** `summarise_modules`: infer the namespace packages, then walk the records sorted by site path and
      keep those whose parent is empty or a namespace package. */
  method SummariseModules(mods: seq<FoundModule>) returns (summary: seq<FoundModule>)
    requires AllInstalled(mods)
    ensures AllInstalled(summary) && SortedBy(summary, SiteKey)
    ensures forall m :: multiset(summary)[m] == if Reachable(mods, m) then multiset(mods)[m] else 0
    ensures summary == Filter(SortBy(mods, SiteKey), m => Reachable(mods, m))
  {
    ghost var keep := m => Reachable(mods, m);
    var nsNames := FindNamespacePackages(mods);
    var nspkgNames := set x | x in nsNames;
    var ordered := SortBy(mods, SiteKey);
    SortByCorrect(mods, SiteKey);
    SameRecordsInstalled(mods, ordered);
    summary := [];
    for i := 0 to |ordered|
      invariant summary == Filter(ordered[..i], keep)
    {
      FilterStep(ordered, keep, i);
      var mod := ordered[i];
      var parent := mod.ParentPkg();
      assert (parent == "" || parent in nspkgNames) == Reachable(mods, mod);
      if parent == "" || parent in nspkgNames {
        summary := summary + [mod];
      }
    }
    assert ordered[..|ordered|] == ordered;
    FilterCount(ordered, keep);
    FilterSorted(ordered, keep, SiteKey);
    forall k | 0 <= k < |summary| ensures summary[k].Installed() {
      assert summary[k] in multiset(summary);
    }
  }
}
