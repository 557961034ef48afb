/** Circular doubly linked lists, as rt-thread/include/rtservice.h and rt-thread/src/memheap.c keep them:
    the links of each node, against the sequence of nodes met from some node on. */
module Rings {
  import opened Sequences

  function Succ<T>(r: seq<T>, i: nat): T
    requires i < |r|
  {
    if i + 1 < |r| then r[i + 1] else r[0]
  }

  function Pred<T>(r: seq<T>, i: nat): T
    requires i < |r|
  {
    if i > 0 then r[i - 1] else r[|r| - 1]
  }

  ghost predicate LinkAt<T>(r: seq<T>, i: nat, next: map<T, T>, prev: map<T, T>)
    requires i < |r|
  {
    r[i] in next && r[i] in prev && next[r[i]] == Succ(r, i) && prev[r[i]] == Pred(r, i)
  }

  /** next walks r from front to back and round, prev walks it the other way. */
  ghost predicate Ring<T>(r: seq<T>, next: map<T, T>, prev: map<T, T>) {
    r != [] && Distinct(r) && forall i :: 0 <= i < |r| ==> LinkAt(r, i, next, prev)
  }

  function PutAfter<T>(r: seq<T>, i: nat, n: T): seq<T>
    requires i < |r|
  {
    r[..i + 1] + [n] + r[i + 1..]
  }

  function Cut<T>(r: seq<T>, i: nat): seq<T>
    requires i < |r|
  {
    r[..i] + r[i + 1..]
  }

  /** Only the links of its own nodes matter to a ring. */
  lemma RingFrame<T>(r: seq<T>, next: map<T, T>, prev: map<T, T>, next': map<T, T>, prev': map<T, T>)
    requires Ring(r, next, prev)
    requires forall x :: x in r && x in next && x in prev ==>
               x in next' && x in prev' && next'[x] == next[x] && prev'[x] == prev[x]
    ensures Ring(r, next', prev')
  {
    forall i | 0 <= i < |r|
      ensures LinkAt(r, i, next', prev')
    {
      assert LinkAt(r, i, next, prev);
    }
  }

  /** The four writes of rt_list_insert_after put the new node behind node i. */
  lemma InsertKeepsRing<T>(r: seq<T>, i: nat, n: T, next: map<T, T>, prev: map<T, T>, next': map<T, T>,
      prev': map<T, T>)
    requires Ring(r, next, prev) && i < |r| && n !in r
    requires next' == next[n := Succ(r, i)][r[i] := n] && prev' == prev[n := r[i]][Succ(r, i) := n]
    ensures Ring(PutAfter(r, i, n), next', prev')
  {
    var r' := PutAfter(r, i, n);
    InsertDistinct(r, i, n);
    forall k | 0 <= k < |r'|
      ensures LinkAt(r', k, next', prev')
    {
      if k <= i {
        assert LinkAt(r, k, next, prev);
      } else if k > i + 1 {
        assert LinkAt(r, k - 1, next, prev);
      }
    }
  }

  lemma InsertDistinct<T>(r: seq<T>, i: nat, n: T)
    requires Distinct(r) && i < |r| && n !in r
    ensures Distinct(PutAfter(r, i, n))
    ensures forall x :: x in PutAfter(r, i, n) <==> x in r || x == n
  {
    assert r == r[..i + 1] + r[i + 1..];
  }

  /** The two writes of rt_list_remove take node i out, wherever the ring is entered. */
  lemma RemoveKeepsRing<T>(r: seq<T>, i: nat, next: map<T, T>, prev: map<T, T>, next': map<T, T>, prev': map<T, T>)
    requires Ring(r, next, prev) && i < |r| && |r| > 1
    requires next' == next[Pred(r, i) := Succ(r, i)] && prev' == prev[Succ(r, i) := Pred(r, i)]
    ensures Ring(Cut(r, i), next', prev')
  {
    var r' := Cut(r, i);
    CutDistinct(r, i);
    forall k | 0 <= k < |r'|
      ensures LinkAt(r', k, next', prev')
    {
      assert LinkAt(r, if k < i then k else k + 1, next, prev);
    }
  }

  lemma CutDistinct<T>(r: seq<T>, i: nat)
    requires Distinct(r) && i < |r|
    ensures Distinct(Cut(r, i))
    ensures forall x :: x in Cut(r, i) <==> x in r && x != r[i]
  {
    assert r == r[..i] + [r[i]] + r[i + 1..];
  }

  lemma LinksAt<T>(r: seq<T>, i: nat, next: map<T, T>, prev: map<T, T>)
    requires Ring(r, next, prev) && i < |r|
    ensures r[i] in next && r[i] in prev && next[r[i]] == Succ(r, i) && prev[r[i]] == Pred(r, i)
    ensures Succ(r, i) in next && Succ(r, i) in prev && Pred(r, i) in next && Pred(r, i) in prev
  {
    assert LinkAt(r, i, next, prev);
    assert LinkAt(r, if i + 1 < |r| then i + 1 else 0, next, prev);
    assert LinkAt(r, if i > 0 then i - 1 else |r| - 1, next, prev);
  }

  /** Inserting a node that still hangs in a ring, behind another node of that ring: the four writes of
      rt_list_insert_after, one after the other, leave no ring. */
  lemma InsertLinkedBreaks<T(!new)>(r: seq<T>, i: nat, j: nat, next: map<T, T>, prev: map<T, T>)
    requires Ring(r, next, prev) && i < |r| && j < |r| && i != j
    ensures Succ(r, i) in next && r[i] in next && r[j] in next
    ensures var n, l := r[j], r[i];
            var next' := next[n := next[l]][l := n];
            var prev' := prev[next[l] := n][n := l];
            !Ring(r, next', prev')
  {
    assert LinkAt(r, i, next, prev) && LinkAt(r, j, next, prev);
    var n, l := r[j], r[i];
    var next' := next[n := next[l]][l := n];
    var prev' := prev[next[l] := n][n := l];
    assert LinkAt(r, if i + 1 < |r| then i + 1 else 0, next, prev);
    assert next'[n] != Succ(r, j);
    assert !LinkAt(r, j, next', prev');
  }

  /** And behind a node of another ring: the ring it came from is broken. */
  lemma InsertLinkedTwice<T(!new)>(r: seq<T>, i: nat, q: seq<T>, j: nat, next: map<T, T>, prev: map<T, T>)
    requires Ring(r, next, prev) && Ring(q, next, prev) && |r| > 1 && i < |r| && j < |q| && Elems(r) !! Elems(q)
    ensures q[j] in next
    ensures var n, l := r[i], q[j];
            var next' := next[n := next[l]][l := n];
            var prev' := prev[next[l] := n][n := l];
            !Ring(r, next', prev')
  {
    assert LinkAt(r, i, next, prev) && LinkAt(q, j, next, prev);
    var n, l := r[i], q[j];
    var next' := next[n := next[l]][l := n];
    var prev' := prev[next[l] := n][n := l];
    assert Succ(q, j) in Elems(q) && Succ(r, i) in Elems(r) && n in Elems(r) && l in Elems(q);
    assert next'[n] == Succ(q, j) != Succ(r, i);
    assert !LinkAt(r, i, next', prev');
  }
}
