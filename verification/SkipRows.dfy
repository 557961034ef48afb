/** Rows of the timer skip list (rt-thread/src/timer.c) as sequences of timer ids: the bottom row
    holds every listed timer, each row above a part of the row below in the same order. */
module SkipRows {
  import opened Sequences

  type Id = nat

  /** The elements of b that lie in s, in the order of b. */
  function Filter(b: seq<Id>, s: set<Id>): seq<Id> {
    if b == [] then [] else (if b[0] in s then [b[0]] else []) + Filter(b[1..], s)
  }

  ghost predicate Sublist(a: seq<Id>, b: seq<Id>) {
    a == Filter(b, Elems(a))
  }

  ghost predicate Listed(a: seq<Id>, due: map<Id, int>) {
    forall i :: 0 <= i < |a| ==> a[i] in due
  }

  ghost predicate Sorted(a: seq<Id>, due: map<Id, int>)
    requires Listed(a, due)
  {
    forall i, j :: 0 <= i < j < |a| ==> due[a[i]] <= due[a[j]]
  }

  /** p is where a stable insertion of deadline d belongs: behind everything not later than d. */
  ghost predicate IsSplit(a: seq<Id>, due: map<Id, int>, d: int, p: nat)
    requires Listed(a, due)
  {
    && p <= |a|
    && (forall j :: 0 <= j < p ==> due[a[j]] <= d)
    && (forall j :: p <= j < |a| ==> d < due[a[j]])
  }

  function Insert(a: seq<Id>, p: nat, t: Id): seq<Id>
    requires p <= |a|
  {
    a[..p] + [t] + a[p..]
  }

  function Remove(a: seq<Id>, t: Id): seq<Id> {
    if a == [] then [] else (if a[0] == t then [] else [a[0]]) + Remove(a[1..], t)
  }

  // ---------------------------------------------------------------- filters

  lemma FilterCons(x: Id, a: seq<Id>, s: set<Id>)
    ensures Filter([x] + a, s) == (if x in s then [x] else []) + Filter(a, s)
  {
    assert ([x] + a)[1..] == a;
  }

  lemma {:induction false} FilterConcat(a: seq<Id>, b: seq<Id>, s: set<Id>)
    ensures Filter(a + b, s) == Filter(a, s) + Filter(b, s)
  {
    if a == [] {
      assert a + b == b;
    } else {
      var rest := a[1..];
      assert a + b == [a[0]] + (rest + b);
      FilterConcat(rest, b, s);
      FilterCons(a[0], rest + b, s);
      FilterCons(a[0], rest, s);
      assert a == [a[0]] + rest;
      hide Filter;
    }
  }

  lemma {:induction false} FilterMembers(b: seq<Id>, s: set<Id>)
    ensures forall x :: x in Filter(b, s) <==> x in b && x in s
  {
    if b != [] {
      FilterMembers(b[1..], s);
      assert b == [b[0]] + b[1..];
    }
  }

  lemma {:induction false} FilterAgree(b: seq<Id>, s: set<Id>, s': set<Id>)
    requires forall x :: x in b ==> (x in s <==> x in s')
    ensures Filter(b, s) == Filter(b, s')
  {
    if b != [] {
      assert b[0] in b;
      FilterAgree(b[1..], s, s');
    }
  }

  /** An order of b that every sublist inherits. */
  lemma {:induction false} FilterSorted(b: seq<Id>, s: set<Id>, due: map<Id, int>)
    requires Listed(b, due) && Sorted(b, due) && Distinct(b)
    ensures Listed(Filter(b, s), due) && Sorted(Filter(b, s), due) && Distinct(Filter(b, s))
  {
    if b != [] {
      var rest := b[1..];
      TailSorted(b, due);
      FilterSorted(rest, s, due);
      FilterMembers(rest, s);
      if b[0] in s {
        ConsSorted(b[0], Filter(rest, s), due);
      }
    }
  }

  lemma TailSorted(b: seq<Id>, due: map<Id, int>)
    requires b != [] && Listed(b, due) && Sorted(b, due) && Distinct(b)
    ensures Listed(b[1..], due) && Sorted(b[1..], due) && Distinct(b[1..]) && b[0] in due
    ensures forall y :: y in b[1..] ==> y in due && due[b[0]] <= due[y] && y != b[0]
  {
    var rest := b[1..];
    assert forall i :: 0 <= i < |rest| ==> rest[i] == b[i + 1];
  }

  lemma ConsSorted(x: Id, r: seq<Id>, due: map<Id, int>)
    requires Listed(r, due) && Sorted(r, due) && Distinct(r) && x in due
    requires forall y :: y in r ==> y in due && due[x] <= due[y] && y != x
    ensures Listed([x] + r, due) && Sorted([x] + r, due) && Distinct([x] + r)
  {
    var a := [x] + r;
    assert forall i :: 0 < i < |a| ==> a[i] == r[i - 1] && r[i - 1] in r;
  }

  // ---------------------------------------------------------------- removal

  lemma {:induction false} RemoveIsFilter(a: seq<Id>, t: Id)
    ensures Remove(a, t) == Filter(a, Elems(a) - {t})
    ensures Elems(Remove(a, t)) == Elems(a) - {t}
  {
    RemoveBy(a, t, Elems(a));
    FilterMembers(a, Elems(a) - {t});
  }

  lemma {:induction false} RemoveBy(a: seq<Id>, t: Id, s: set<Id>)
    requires forall x :: x in a ==> x in s
    ensures Remove(a, t) == Filter(a, s - {t})
  {
    if a != [] {
      assert a[0] in a;
      RemoveBy(a[1..], t, s);
    }
  }

  lemma {:induction false} FilterFilter(b: seq<Id>, s: set<Id>, s': set<Id>)
    ensures Filter(Filter(b, s), s') == Filter(b, s * s')
  {
    if b != [] {
      FilterFilter(b[1..], s, s');
      var h := if b[0] in s then [b[0]] else [];
      FilterConcat(h, Filter(b[1..], s), s');
      if b[0] in s {
        assert h[1..] == [];
      }
    }
  }

  /** Taking a timer out of both rows keeps the upper one a sublist of the lower. */
  lemma RemoveKeepsSublist(a: seq<Id>, b: seq<Id>, t: Id)
    requires Sublist(a, b)
    ensures Sublist(Remove(a, t), Remove(b, t))
  {
    RemoveIsFilter(a, t);
    RemoveIsFilter(b, t);
    FilterMembers(b, Elems(a));
    var s := Elems(a) - {t};
    assert Remove(a, t) == Filter(Filter(b, Elems(a)), s);
    FilterFilter(b, Elems(a), s);
    FilterFilter(b, Elems(b) - {t}, s);
    FilterAgree(b, Elems(a) * s, (Elems(b) - {t}) * s);
  }

  lemma RemoveKeepsOrder(a: seq<Id>, t: Id, due: map<Id, int>)
    requires Listed(a, due) && Sorted(a, due) && Distinct(a)
    ensures Listed(Remove(a, t), due) && Sorted(Remove(a, t), due) && Distinct(Remove(a, t))
  {
    RemoveIsFilter(a, t);
    FilterSorted(a, Elems(a) - {t}, due);
  }

  // ---------------------------------------------------------------- insertion

  lemma InsertElems(a: seq<Id>, p: nat, t: Id)
    requires p <= |a|
    ensures Elems(Insert(a, p, t)) == Elems(a) + {t}
  {
    var b := Insert(a, p, t);
    assert forall j :: 0 <= j < |a| ==> a[j] == b[if j < p then j else j + 1];
    assert b[p] == t;
    assert a == a[..p] + a[p..];
  }

  /** A stable insertion keeps a row sorted and free of repetitions. */
  lemma InsertKeepsOrder(a: seq<Id>, p: nat, t: Id, due: map<Id, int>)
    requires Listed(a, due) && Sorted(a, due) && Distinct(a) && t in due && t !in a && IsSplit(a, due, due[t], p)
    ensures var b := Insert(a, p, t); Listed(b, due) && Sorted(b, due) && Distinct(b)
  {
    var b := Insert(a, p, t);
    forall j | 0 <= j < |b|
      ensures b[j] == if j < p then a[j] else if j == p then t else a[j - 1]
    {
    }
  }

  lemma SplitUnique(a: seq<Id>, due: map<Id, int>, d: int, p: nat, q: nat)
    requires Listed(a, due) && IsSplit(a, due, d, p) && IsSplit(a, due, d, q)
    ensures p == q
  {
    var least := if p < q then p else q;
    assert least < |a| ==> a[least] in due;
  }

  /** The split of a sublist is the filtered split of the list. */
  lemma SplitOfSublist(a: seq<Id>, b: seq<Id>, due: map<Id, int>, d: int, p: nat, k: nat)
    requires Sublist(a, b) && Listed(a, due) && Listed(b, due) && IsSplit(a, due, d, p) && IsSplit(b, due, d, k)
    ensures a[..p] == Filter(b[..k], Elems(a)) && a[p..] == Filter(b[k..], Elems(a))
  {
    var s := Elems(a);
    var lo, hi := Filter(b[..k], s), Filter(b[k..], s);
    assert b == b[..k] + b[k..];
    FilterConcat(b[..k], b[k..], s);
    assert a == lo + hi;
    FilterMembers(b[..k], s);
    FilterMembers(b[k..], s);
    forall j | 0 <= j < |a|
      ensures j < |lo| <==> due[a[j]] <= d
    {
      if j < |lo| {
        assert a[j] == lo[j] && lo[j] in lo;
      } else {
        assert a[j] == hi[j - |lo|] && hi[j - |lo|] in hi;
      }
    }
    assert IsSplit(a, due, d, |lo|);
    SplitUnique(a, due, d, p, |lo|);
  }

  lemma FilterInsert(b: seq<Id>, k: nat, t: Id, s: set<Id>)
    requires k <= |b|
    ensures Filter(Insert(b, k, t), s) == Filter(b[..k], s) + (if t in s then [t] else []) + Filter(b[k..], s)
  {
    FilterConcat(b[..k] + [t], b[k..], s);
    FilterConcat(b[..k], [t], s);
    assert [t][1..] == [];
  }

  /** Inserting into both rows, each at its own split point. */
  lemma InsertKeepsSublist(a: seq<Id>, b: seq<Id>, t: Id, due: map<Id, int>, p: nat, k: nat)
    requires Sublist(a, b) && Listed(a, due) && Listed(b, due) && t in due && t !in b
    requires IsSplit(a, due, due[t], p) && IsSplit(b, due, due[t], k)
    ensures Sublist(Insert(a, p, t), Insert(b, k, t))
  {
    var s := Elems(a) + {t};
    SplitOfSublist(a, b, due, due[t], p, k);
    InsertElems(a, p, t);
    FilterInsert(b, k, t, s);
    FilterAgree(b[..k], s, Elems(a));
    FilterAgree(b[k..], s, Elems(a));
  }

  /** Inserting into the lower row only. */
  lemma InsertBelow(a: seq<Id>, b: seq<Id>, t: Id, k: nat)
    requires Sublist(a, b) && t !in a && k <= |b|
    ensures Sublist(a, Insert(b, k, t))
  {
    FilterInsert(b, k, t, Elems(a));
    assert b == b[..k] + b[k..];
    FilterConcat(b[..k], b[k..], Elems(a));
  }

  // ---------------------------------------------------------------- the whole list

  /** Every row sorted by deadline and free of repetitions, each a sublist of the row below it. */
  ghost predicate SkipList(rows: seq<seq<Id>>, due: map<Id, int>) {
    && |rows| > 0
    && (forall l :: 0 <= l < |rows| ==> Row(rows[l], due))
    && (forall l :: 0 < l < |rows| ==> Sublist(rows[l - 1], rows[l]))
  }

  ghost predicate Row(a: seq<Id>, due: map<Id, int>) {
    Listed(a, due) && Sorted(a, due) && Distinct(a)
  }

  function Bottom(rows: seq<seq<Id>>): seq<Id>
    requires |rows| > 0
  {
    rows[|rows| - 1]
  }

  /** A timer found in some row is in every row below it. */
  lemma {:induction false} DownToBottom(rows: seq<seq<Id>>, due: map<Id, int>, l: nat, x: Id)
    requires SkipList(rows, due) && l < |rows| && x in rows[l]
    ensures x in Bottom(rows)
    decreases |rows| - l
  {
    if l + 1 < |rows| {
      assert Sublist(rows[l + 1 - 1], rows[l + 1]);
      FilterMembers(rows[l + 1], Elems(rows[l]));
      DownToBottom(rows, due, l + 1, x);
    }
  }

  function RemoveAll(rows: seq<seq<Id>>, t: Id): seq<seq<Id>> {
    seq(|rows|, l requires 0 <= l < |rows| => Remove(rows[l], t))
  }

  lemma RemoveRow(a: seq<Id>, due: map<Id, int>, t: Id)
    requires Row(a, due)
    ensures Row(Remove(a, t), due) && t !in Remove(a, t) && Elems(Remove(a, t)) == Elems(a) - {t}
  {
    RemoveKeepsOrder(a, t, due);
    RemoveIsFilter(a, t);
    assert t in Remove(a, t) ==> t in Elems(Remove(a, t));
  }

  /** _rt_timer_remove: gone from every row, and every row as good as before. */
  lemma RemoveAllKeeps(rows: seq<seq<Id>>, due: map<Id, int>, t: Id)
    requires SkipList(rows, due)
    ensures SkipList(RemoveAll(rows, t), due)
    ensures forall l :: 0 <= l < |rows| ==> t !in RemoveAll(rows, t)[l]
    ensures Elems(Bottom(RemoveAll(rows, t))) == Elems(Bottom(rows)) - {t}
  {
    hide Row, Sublist, Remove, Elems;
    var r := RemoveAll(rows, t);
    forall l | 0 <= l < |rows|
      ensures Row(r[l], due) && t !in r[l] && Elems(r[l]) == Elems(rows[l]) - {t}
    {
      RemoveRow(rows[l], due, t);
    }
    forall l | 0 < l < |rows|
      ensures Sublist(r[l - 1], r[l])
    {
      assert Sublist(rows[l - 1], rows[l]);
      RemoveKeepsSublist(rows[l - 1], rows[l], t);
    }
  }

  /** Insertion into the rows from index top down to the bottom one, at the points at. */
  function InsertFrom(rows: seq<seq<Id>>, at: seq<nat>, t: Id, top: nat): seq<seq<Id>>
    requires |at| == |rows| && forall l :: 0 <= l < |rows| ==> at[l] <= |rows[l]|
  {
    seq(|rows|, l requires 0 <= l < |rows| => if l < top then rows[l] else Insert(rows[l], at[l], t))
  }

  ghost predicate AreSplits(rows: seq<seq<Id>>, due: map<Id, int>, d: int, at: seq<nat>)
  {
    && |at| == |rows|
    && (forall l :: 0 <= l < |rows| ==> at[l] <= |rows[l]|)
    && forall l :: 0 <= l < |rows| ==> Row(rows[l], due) && IsSplit(rows[l], due, d, at[l])
  }

  lemma InsertRow(rows: seq<seq<Id>>, due: map<Id, int>, at: seq<nat>, t: Id, l: nat)
    requires SkipList(rows, due) && t in due && t !in Bottom(rows) && l < |rows| && AreSplits(rows, due, due[t], at)
    ensures t !in rows[l] && Row(Insert(rows[l], at[l], t), due)
  {
    if t in rows[l] {
      DownToBottom(rows, due, l, t);
    }
    InsertKeepsOrder(rows[l], at[l], t, due);
  }

  /** Whatever height is drawn, multi-level insertion leaves a skip list, and the bottom row is the
      old one with t behind everything not later than it. */
  lemma InsertFromKeeps(rows: seq<seq<Id>>, due: map<Id, int>, at: seq<nat>, t: Id, top: nat)
    requires SkipList(rows, due) && t in due && t !in Bottom(rows) && top < |rows|
    requires AreSplits(rows, due, due[t], at)
    ensures SkipList(InsertFrom(rows, at, t, top), due)
    ensures Bottom(InsertFrom(rows, at, t, top)) == Insert(Bottom(rows), at[|rows| - 1], t)
  {
    hide Row, IsSplit, Sublist, Insert;
    var r := InsertFrom(rows, at, t, top);
    forall l | 0 <= l < |rows|
      ensures Row(r[l], due)
    {
      InsertRow(rows, due, at, t, l);
    }
    forall l | 0 < l < |rows|
      ensures Sublist(r[l - 1], r[l])
    {
      InsertRow(rows, due, at, t, l);
      InsertRow(rows, due, at, t, l - 1);
      assert Sublist(rows[l - 1], rows[l]);
      InsertPair(rows[l - 1], rows[l], t, due, at[l - 1], at[l]);
      if l - 1 < top <= l {
        InsertBelow(rows[l - 1], rows[l], t, at[l]);
      }
    }
  }

  lemma InsertPair(a: seq<Id>, b: seq<Id>, t: Id, due: map<Id, int>, p: nat, k: nat)
    requires Sublist(a, b) && Row(a, due) && Row(b, due) && t in due && t !in b
    requires IsSplit(a, due, due[t], p) && IsSplit(b, due, due[t], k)
    ensures Sublist(Insert(a, p, t), Insert(b, k, t))
  {
    InsertKeepsSublist(a, b, t, due, p, k);
  }
}
