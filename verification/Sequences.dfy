/** Lists of distinct elements, as the kernel's queues are. */
module Sequences {

  ghost predicate Distinct<T>(a: seq<T>) {
    forall i, j :: 0 <= i < j < |a| ==> a[i] != a[j]
  }

  function Elems<T>(a: seq<T>): set<T> {
    set x | x in a
  }

  /** The numbers below n. */
  function UpTo(n: nat): (r: set<nat>)
    ensures forall k :: k in r <==> 0 <= k < n
  {
    if n == 0 then {} else UpTo(n - 1) + {n - 1}
  }

  lemma {:induction false} UpToSize(n: nat)
    ensures |UpTo(n)| == n
  {
    if n > 0 {
      UpToSize(n - 1);
    }
  }

  /** The numbers from lo on, below hi. */
  function UpFrom(lo: nat, hi: nat): (r: seq<nat>)
    requires lo <= hi
    ensures |r| == hi - lo && forall i :: 0 <= i < |r| ==> r[i] == lo + i
    ensures forall b :: b in r <==> lo <= b < hi
    decreases hi - lo
  {
    if lo == hi then [] else [lo] + UpFrom(lo + 1, hi)
  }

  /** The list after x has been unlinked from it. */
  function Without<T(==)>(a: seq<T>, x: T): seq<T> {
    if a == [] then [] else if a[0] == x then a[1..] else [a[0]] + Without(a[1..], x)
  }

  lemma {:induction false} WithoutMembers<T>(a: seq<T>, x: T)
    requires Distinct(a)
    ensures Distinct(Without(a, x))
    ensures forall y :: y in Without(a, x) <==> y in a && y != x
  {
    if a != [] {
      assert forall y :: y in a <==> y == a[0] || y in a[1..];
      WithoutMembers(a[1..], x);
      if a[0] != x {
        var r := Without(a[1..], x);
        assert a[0] !in a[1..];
        assert a[0] !in r;
        assert Without(a, x) == [a[0]] + r;
      } else {
        assert x !in a[1..];
      }
    }
  }

  lemma {:induction false} WithoutAt<T>(a: seq<T>, k: nat, x: T)
    requires k < |a| && a[k] == x && x !in a[..k]
    ensures Without(a, x) == a[..k] + a[k + 1..]
  {
    if k > 0 {
      assert a[0] in a[..k];
      assert a[1..][..k - 1] == a[..k][1..] && a[1..][k..] == a[k + 1..];
      WithoutAt(a[1..], k - 1, x);
    }
  }

  lemma {:induction false} WithoutAbsent<T>(a: seq<T>, x: T)
    requires x !in a
    ensures Without(a, x) == a
  {
    if a != [] {
      WithoutAbsent(a[1..], x);
    }
  }

  lemma {:induction false} ElemsSize<T>(a: seq<T>)
    requires Distinct(a)
    ensures |Elems(a)| == |a|
  {
    if a != [] {
      ElemsSize(a[1..]);
      assert Elems(a) == Elems(a[1..]) + {a[0]};
    }
  }

  lemma DistinctCons<T>(x: T, a: seq<T>)
    ensures Distinct([x] + a) <==> Distinct(a) && x !in a
  {
    var b := [x] + a;
    assert forall k :: 0 <= k < |a| ==> b[k + 1] == a[k];
    if Distinct(b) {
      forall i, j | 0 <= i < j < |a|
        ensures a[i] != a[j]
      {
        assert b[i + 1] != b[j + 1];
      }
      assert b[0] == x;
    }
  }

  lemma DistinctSnoc<T>(a: seq<T>, x: T)
    requires Distinct(a) && x !in a
    ensures Distinct(a + [x])
  {
  }

  lemma DistinctMid<T>(a: seq<T>, k: nat, x: T)
    requires Distinct(a) && x !in a && k <= |a|
    ensures Distinct(a[..k] + [x] + a[k..]) && Elems(a[..k] + [x] + a[k..]) == Elems(a) + {x}
  {
    var b := a[..k] + [x] + a[k..];
    forall i, j | 0 <= i < j < |b|
      ensures b[i] != b[j]
    {
      assert b[i] == if i < k then a[i] else if i == k then x else a[i - 1];
      assert b[j] == if j < k then a[j] else if j == k then x else a[j - 1];
    }
    assert a == a[..k] + a[k..];
  }
}
