/** Python's `<` on `str`: lexicographic by code point, a proper prefix sorting first.
    `sorted` on names and paths uses this order. */
module StringOrder {

  predicate Less(a: string, b: string)
    decreases |a|
  {
    |b| > 0 && (|a| == 0 || a[0] < b[0] || (a[0] == b[0] && Less(a[1..], b[1..])))
  }

  predicate LessEq(a: string, b: string)
  {
    a == b || Less(a, b)
  }

  lemma {:induction false} LessIrreflexive(a: string)
    ensures !Less(a, a)
    decreases |a|
  {
    if |a| > 0 {
      LessIrreflexive(a[1..]);
    }
  }

  lemma {:induction false} LessTransitive(a: string, b: string, c: string)
    requires Less(a, b) && Less(b, c)
    ensures Less(a, c)
    decreases |a|
  {
    if |a| > 0 && a[0] == b[0] && b[0] == c[0] {
      LessTransitive(a[1..], b[1..], c[1..]);
    }
  }

  /** Any two strings are equal or ordered one way round. */
  lemma {:induction false} LessTotal(a: string, b: string)
    ensures a == b || Less(a, b) || Less(b, a)
    decreases |a|
  {
    if |a| > 0 && |b| > 0 && a[0] == b[0] {
      LessTotal(a[1..], b[1..]);
      if a[1..] == b[1..] {
        assert a == [a[0]] + a[1..] && b == [b[0]] + b[1..];
      }
    }
  }

  lemma {:induction false} LessAsymmetric(a: string, b: string)
    requires Less(a, b)
    ensures !Less(b, a)
  {
    if Less(b, a) {
      LessTransitive(a, b, a);
      LessIrreflexive(a);
    }
  }

  /** Ascending without duplicates: the shape `sorted(set_of_names)` has. */
  predicate StrictlySorted(s: seq<string>)
  {
    forall i, j :: 0 <= i < j < |s| ==> Less(s[i], s[j])
  }

  /** A finite set of strings holds a least element. */
  lemma {:induction false} MinimumExists(s: set<string>)
    requires s != {}
    ensures exists x :: x in s && forall y :: y in s ==> LessEq(x, y)
    decreases |s|
  {
    var z :| z in s;
    if s == {z} {
      assert forall y :: y in s ==> y == z;
    } else {
      MinimumExists(s - {z});
      var m :| m in s - {z} && forall y :: y in s - {z} ==> LessEq(m, y);
      LessTotal(m, z);
      if Less(m, z) {
        assert forall y :: y in s ==> LessEq(m, y);
      } else {
        forall y | y in s
          ensures LessEq(z, y)
        {
          if y != z {
            assert LessEq(m, y);
            if m != y { LessTransitive(z, m, y); }
          }
        }
      }
    }
  }

  /** Two strictly ascending sequences with the same elements are the same sequence:
      `sorted(set)` is determined by the set alone. */
  lemma {:induction false} StrictlySortedUnique(a: seq<string>, b: seq<string>)
    requires StrictlySorted(a) && StrictlySorted(b)
    requires forall x :: x in a <==> x in b
    ensures a == b
    decreases |a|
  {
    assert (|a| > 0) == (|b| > 0) by {
      if |a| > 0 { assert a[0] in b; }
      if |b| > 0 { assert b[0] in a; }
    }
    if |a| > 0 {
      if a[0] != b[0] {
        assert b[0] in a;
        assert a[0] in b;
        var i :| 0 <= i < |a| && a[i] == b[0];
        var j :| 0 <= j < |b| && b[j] == a[0];
        assert i > 0 && j > 0;
        assert Less(a[0], b[0]) && Less(b[0], a[0]);
        LessAsymmetric(a[0], b[0]);
      } else {
        forall x
          ensures x in a[1..] <==> x in b[1..]
        {
          if x in a[1..] {
            var i :| 1 <= i < |a| && a[i] == x;
            assert Less(a[0], x);
            LessIrreflexive(x);
            assert x != b[0] && x in b;
          }
          if x in b[1..] {
            var j :| 1 <= j < |b| && b[j] == x;
            assert Less(b[0], x);
            LessIrreflexive(x);
            assert x != a[0] && x in a;
          }
        }
        StrictlySortedUnique(a[1..], b[1..]);
        assert a == [a[0]] + a[1..] && b == [b[0]] + b[1..];
      }
    }
  }

  /** `sorted(names)` for a set of strings: picks the least remaining name until none is left. */
  method SortStrings(s: set<string>) returns (r: seq<string>)
    ensures StrictlySorted(r)
    ensures forall x :: x in r <==> x in s
  {
    var rest := s;
    r := [];
    while rest != {}
      invariant forall x :: x in s <==> x in r || x in rest
      invariant forall x :: x in r ==> x !in rest
      invariant StrictlySorted(r)
      invariant forall x, y :: x in r && y in rest ==> Less(x, y)
      decreases |rest|
    {
      MinimumExists(rest);
      var least :| least in rest && forall y :: y in rest ==> LessEq(least, y);
      r := r + [least];
      rest := rest - {least};
    }
  }
}
