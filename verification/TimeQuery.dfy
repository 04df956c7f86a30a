/** The meaning of `SELECT ... ORDER BY created_at LIMIT n`: a sorted page of the least rows,
    with rows of equal time in any order. */
module TimeQuery {

  ghost predicate Distinct<T>(s: seq<T>) {
    forall i, j :: 0 <= i < j < |s| ==> s[i] != s[j]
  }

  ghost predicate SortedBy<T>(s: seq<T>, key: T -> int) {
    forall i, j :: 0 <= i <= j < |s| ==> key(s[i]) <= key(s[j])
  }

  ghost function Elems<T>(s: seq<T>): set<T> {
    set x | x in s
  }

  /** Every answer the database may give. */
  ghost predicate IsPage<T>(all: set<T>, key: T -> int, limit: nat, page: seq<T>) {
    && Distinct(page)
    && SortedBy(page, key)
    && (forall x :: x in page ==> x in all)
    && |page| == (if |all| < limit then |all| else limit)
    && (forall x, y :: x in all && y in page && x !in page ==> key(y) <= key(x))
  }

  lemma {:induction false} DistinctSize<T>(s: seq<T>)
    requires Distinct(s)
    ensures |Elems(s)| == |s|
  {
    if s != [] {
      var n := |s| - 1;
      DistinctSize(s[..n]);
      assert Elems(s) == Elems(s[..n]) + {s[n]};
    }
  }

  lemma SubsetOfSameSize<T>(a: set<T>, b: set<T>)
    requires a <= b && |a| == |b|
    ensures a == b
  {
    assert |b - a| == |b| - |a|;
    assert b == a + (b - a);
  }

  /** A page leaves a row out only when the limit was reached. */
  lemma PageIsWhole<T>(all: set<T>, key: T -> int, limit: nat, page: seq<T>)
    requires IsPage(all, key, limit, page)
    ensures |all| <= limit ==> Elems(page) == all
    ensures (exists x :: x in all && x !in page) ==> |page| == limit < |all|
  {
    DistinctSize(page);
    if |all| <= limit {
      SubsetOfSameSize(Elems(page), all);
    }
  }

  lemma InsertAt<T>(x: T, s: seq<T>, k: nat, key: T -> int)
    requires Distinct(s) && SortedBy(s, key) && x !in s
    requires k <= |s|
    requires forall i :: 0 <= i < k ==> key(s[i]) <= key(x)
    requires k < |s| ==> key(x) <= key(s[k])
    ensures Distinct(s[..k] + [x] + s[k..])
    ensures SortedBy(s[..k] + [x] + s[k..], key)
    ensures Elems(s[..k] + [x] + s[k..]) == Elems(s) + {x}
  {
    var r := s[..k] + [x] + s[k..];
    forall i, j | 0 <= i < j < |r|
      ensures r[i] != r[j] && key(r[i]) <= key(r[j])
    {
      var a, b := if i < k then i else i - 1, if j < k then j else j - 1;
      assert i != k ==> r[i] == s[a];
      assert j != k ==> r[j] == s[b];
    }
    InsertElems(x, s, k);
  }

  lemma InsertElems<T>(x: T, s: seq<T>, k: nat)
    requires k <= |s|
    ensures Elems(s[..k] + [x] + s[k..]) == Elems(s) + {x}
  {
    assert s == s[..k] + s[k..];
  }

  method Select<T(==)>(all: set<T>, key: T -> int, limit: nat) returns (page: seq<T>)
    ensures IsPage(all, key, limit, page)
  {
    var rest, sorted := all, [];
    while rest != {}
      invariant rest <= all && Elems(sorted) == all - rest
      invariant Distinct(sorted) && SortedBy(sorted, key)
      decreases rest
    {
      var x :| x in rest;
      assert x !in Elems(sorted);
      var k := 0;
      while k < |sorted| && key(sorted[k]) <= key(x)
        invariant k <= |sorted|
        invariant forall i :: 0 <= i < k ==> key(sorted[i]) <= key(x)
      {
        k := k + 1;
      }
      InsertAt(x, sorted, k, key);
      sorted := sorted[..k] + [x] + sorted[k..];
      rest := rest - {x};
    }
    DistinctSize(sorted);
    assert Elems(sorted) == all;
    assert forall x :: x in sorted <==> x in Elems(sorted);
    if |sorted| <= limit {
      page := sorted;
    } else {
      page := sorted[..limit];
      assert forall x :: x in sorted ==> x in page || x in sorted[limit..];
    }
  }
}
