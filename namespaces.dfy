/** Namespace-package inference (wheeldex.py lines 128-144): which package names exist only as
    namespaces, either declared with `extend_path` or implied by PEP 420 (modules in a directory
    that has no concrete `__init__.py`). */
module Namespaces {
  import opened StringOrder
  import opened Records

  /** Names and parents can only be taken of installed records (Python raises `TypeError` on `None`). */
  predicate AllInstalled(mods: seq<FoundModule>)
  {
    forall k :: 0 <= k < |mods| ==> mods[k].Installed()
  }

  /** One of the first `n` records has kind `kind` and module name `x`. */
  predicate KindNamed(mods: seq<FoundModule>, n: nat, kind: ModuleType, x: string)
    requires n <= |mods| && AllInstalled(mods)
  {
    exists k :: 0 <= k < n && mods[k].modtype == kind && mods[k].ModuleName() == x
  }

  /** One of the first `n` records has `x` as its parent package. */
  predicate ParentNamed(mods: seq<FoundModule>, n: nat, x: string)
    requires n <= |mods| && AllInstalled(mods)
  {
    exists k :: 0 <= k < n && mods[k].ParentPkg() == x
  }

  /** `x` is a namespace package: a record declares it (`namespace_package` kind), or it is the
      immediate parent of some record, non-empty, and no record is a concrete package named `x`. */
  predicate IsNamespacePackage(mods: seq<FoundModule>, x: string)
    requires AllInstalled(mods)
  {
    || KindNamed(mods, |mods|, NamespacePackage, x)
    || (x != "" && !KindNamed(mods, |mods|, Package, x) && ParentNamed(mods, |mods|, x))
  }

  /** Every module name and every parent package of the records: where a namespace package can come from. */
  function NamedPackages(mods: seq<FoundModule>): set<string>
    requires AllInstalled(mods)
  {
    (set k | 0 <= k < |mods| :: mods[k].ModuleName()) + (set k | 0 <= k < |mods| :: mods[k].ParentPkg())
  }

  /** The set of namespace package names (`namespace_pkgs` once both loops are done). */
  function NamespaceSet(mods: seq<FoundModule>): (ns: set<string>)
    requires AllInstalled(mods)
    ensures forall x :: x in ns <==> IsNamespacePackage(mods, x)
  {
    set x | x in NamedPackages(mods) && IsNamespacePackage(mods, x)
  }

  lemma KindNamedStep(mods: seq<FoundModule>, i: nat, kind: ModuleType)
    requires i < |mods| && AllInstalled(mods)
    ensures forall x :: KindNamed(mods, i + 1, kind, x) <==>
      KindNamed(mods, i, kind, x) || (mods[i].modtype == kind && mods[i].ModuleName() == x)
  {
    forall x | KindNamed(mods, i + 1, kind, x)
      ensures KindNamed(mods, i, kind, x) || (mods[i].modtype == kind && mods[i].ModuleName() == x)
    {
      var k :| 0 <= k < i + 1 && mods[k].modtype == kind && mods[k].ModuleName() == x;
    }
  }

  lemma ParentNamedStep(mods: seq<FoundModule>, i: nat)
    requires i < |mods| && AllInstalled(mods)
    ensures forall x :: ParentNamed(mods, i + 1, x) <==> ParentNamed(mods, i, x) || mods[i].ParentPkg() == x
  {
    forall x | ParentNamed(mods, i + 1, x)
      ensures ParentNamed(mods, i, x) || mods[i].ParentPkg() == x
    {
      var k :| 0 <= k < i + 1 && mods[k].ParentPkg() == x;
    }
  }

  /** `find_namespace_packages`: fill `concrete_pkgs` and `namespace_pkgs` from the records, add every
      non-empty immediate parent that is not concrete, and return the names in ascending order. */
  method FindNamespacePackages(mods: seq<FoundModule>) returns (names: seq<string>)
    requires AllInstalled(mods)
    ensures StrictlySorted(names)
    ensures forall x :: x in names <==> IsNamespacePackage(mods, x)
  {
    var concretePkgs: set<string> := {};
    var namespacePkgs: set<string> := {};
    for i := 0 to |mods|
      invariant forall x :: x in concretePkgs <==> KindNamed(mods, i, Package, x)
      invariant forall x :: x in namespacePkgs <==> KindNamed(mods, i, NamespacePackage, x)
    {
      KindNamedStep(mods, i, Package);
      KindNamedStep(mods, i, NamespacePackage);
      var mod := mods[i];
      if mod.modtype == Package {
        concretePkgs := concretePkgs + {mod.ModuleName()};
      }
      if mod.modtype == NamespacePackage {
        namespacePkgs := namespacePkgs + {mod.ModuleName()};
      }
    }
    for i := 0 to |mods|
      invariant forall x :: x in namespacePkgs <==>
        KindNamed(mods, |mods|, NamespacePackage, x) || (x != "" && x !in concretePkgs && ParentNamed(mods, i, x))
    {
      ParentNamedStep(mods, i);
      var pkg := mods[i].ParentPkg();
      if pkg != "" && pkg !in concretePkgs {
        namespacePkgs := namespacePkgs + {pkg};
      }
    }
    names := SortStrings(namespacePkgs);
  }

  /** Whether a name is a namespace package depends only on which records there are, not on
      their order or repetition. */
  lemma NamespacePackageByMembers(mods1: seq<FoundModule>, mods2: seq<FoundModule>, x: string)
    requires AllInstalled(mods1) && AllInstalled(mods2)
    requires forall m :: m in mods1 <==> m in mods2
    ensures IsNamespacePackage(mods1, x) <==> IsNamespacePackage(mods2, x)
  {
    forall kind ensures KindNamed(mods1, |mods1|, kind, x) ==> KindNamed(mods2, |mods2|, kind, x) {
      if KindNamed(mods1, |mods1|, kind, x) {
        var k :| 0 <= k < |mods1| && mods1[k].modtype == kind && mods1[k].ModuleName() == x;
        assert mods1[k] in mods2;
      }
    }
    forall kind ensures KindNamed(mods2, |mods2|, kind, x) ==> KindNamed(mods1, |mods1|, kind, x) {
      if KindNamed(mods2, |mods2|, kind, x) {
        var k :| 0 <= k < |mods2| && mods2[k].modtype == kind && mods2[k].ModuleName() == x;
        assert mods2[k] in mods1;
      }
    }
    if ParentNamed(mods1, |mods1|, x) {
      var k :| 0 <= k < |mods1| && mods1[k].ParentPkg() == x;
      assert mods1[k] in mods2;
    }
    if ParentNamed(mods2, |mods2|, x) {
      var k :| 0 <= k < |mods2| && mods2[k].ParentPkg() == x;
      assert mods2[k] in mods1;
    }
  }

  /** The output of `find_namespace_packages` is determined by the set of records: any two results
      for inputs with the same records, in whatever order, are the same sequence. */
  lemma NamespacePackagesOrderIndependent(mods1: seq<FoundModule>, mods2: seq<FoundModule>, names1: seq<string>, names2: seq<string>)
    requires AllInstalled(mods1) && AllInstalled(mods2)
    requires forall m :: m in mods1 <==> m in mods2
    requires StrictlySorted(names1) && forall x :: x in names1 <==> IsNamespacePackage(mods1, x)
    requires StrictlySorted(names2) && forall x :: x in names2 <==> IsNamespacePackage(mods2, x)
    ensures names1 == names2
  {
    forall x ensures x in names1 <==> x in names2 {
      NamespacePackageByMembers(mods1, mods2, x);
    }
    StrictlySortedUnique(names1, names2);
  }
}
