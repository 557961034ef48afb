/** The page allocator of rt-thread/src/slab.c. The header of a free run, its link and its page count,
    lies in the run's own first page. */
module PageHeap {
  import opened PageModel

  function StartAt(runs: seq<Run>, i: nat): int {
    if i < |runs| then runs[i].start else NONE
  }

  ghost predicate Header(runs: seq<Run>, i: nat, next: seq<int>, count: seq<nat>)
    requires i < |runs|
  {
    && runs[i].start < |next| && runs[i].start < |count|
    && next[runs[i].start] == StartAt(runs, i + 1)
    && count[runs[i].start] == runs[i].len
  }

  /** The headers from list on spell out the runs. */
  ghost predicate Spells(runs: seq<Run>, list: int, next: seq<int>, count: seq<nat>) {
    list == StartAt(runs, 0) && forall i :: 0 <= i < |runs| ==> Header(runs, i, next, count)
  }

  function Splice(runs: seq<Run>, i: nat, j: nat, mid: seq<Run>): seq<Run>
    requires i <= j <= |runs|
  {
    runs[..i] + mid + runs[j..]
  }

  function StartBefore(runs: seq<Run>, i: nat): int
    requires i <= |runs|
  {
    if i == 0 then NONE else runs[i - 1].start
  }

  ghost predicate Between(runs: seq<Run>, i: nat, j: nat, m: Run)
    requires i <= j <= |runs|
  {
    StartBefore(runs, i) < m.start && (j < |runs| ==> m.start < runs[j].start)
  }

  /** Relinking runs i..j to at most one new run, by writing the link before it and its header only. */
  lemma SpliceSpells(runs: seq<Run>, list: int, next: seq<int>, count: seq<nat>, i: nat, j: nat, mid: seq<Run>,
                     list': int, next': seq<int>, count': seq<nat>, hi: nat)
    requires Canonical(runs, 0, hi) && Spells(runs, list, next, count) && |next| == |count| == |next'| == |count'| == hi
    requires i <= j <= |runs| && |mid| <= 1
    requires mid != [] ==> mid[0].start < hi && Between(runs, i, j, mid[0])
                           && next'[mid[0].start] == StartAt(runs, j) && count'[mid[0].start] == mid[0].len
    requires var first, prev := if mid != [] then mid[0].start else StartAt(runs, j), StartBefore(runs, i);
             if i == 0 then list' == first
             else prev < hi && list' == list && next'[prev] == first && count'[prev] == count[prev]
    requires forall p :: 0 <= p < hi && p != StartBefore(runs, i) && (mid != [] ==> p != mid[0].start)
               ==> next'[p] == next[p] && count'[p] == count[p]
    ensures Spells(Splice(runs, i, j, mid), list', next', count')
  {
    var all := Splice(runs, i, j, mid);
    forall k | 0 <= k < |all|
      ensures Header(all, k, next', count')
    {
      if k < i {
        assert all[k] == runs[k] && (k + 1 < i ==> all[k + 1] == runs[k + 1]);
        KeptHeader(runs, next, count, i, j, mid, k, hi);
      } else if k >= i + |mid| {
        var k' := k - i - |mid| + j;
        assert all[k] == runs[k'] && StartAt(all, k + 1) == StartAt(runs, k' + 1);
        KeptHeader(runs, next, count, i, j, mid, k', hi);
      } else {
        assert all[k] == mid[0] && StartAt(all, k + 1) == StartAt(runs, j);
      }
    }
  }

  lemma KeptHeader(runs: seq<Run>, next: seq<int>, count: seq<nat>, i: nat, j: nat, mid: seq<Run>, k: nat, hi: nat)
    requires Canonical(runs, 0, hi) && i <= j <= |runs| && |mid| <= 1 && k < |runs| && (k < i || j <= k)
    requires forall x :: 0 <= x < |runs| ==> Header(runs, x, next, count)
    requires mid != [] ==> Between(runs, i, j, mid[0])
    ensures Header(runs, k, next, count) && runs[k].start < hi
    ensures mid != [] ==> runs[k].start != mid[0].start
    ensures k + 1 != i ==> runs[k].start != StartBefore(runs, i)
  {
    StartsRise(runs, k, 0, hi);
    if j < k {
      StartsRise(runs, j, 0, hi);
    }
    if 0 < i <= k {
      StartsRise(runs, i - 1, 0, hi);
    }
  }

  lemma {:induction false} StartsRise(runs: seq<Run>, i: nat, lo: nat, hi: nat)
    requires Canonical(runs, lo, hi) && i < |runs|
    ensures lo <= runs[i].start && 0 < runs[i].len && runs[i].start + runs[i].len <= hi
    ensures Interval(runs[i].start, runs[i].len) <= Pages(runs)
    ensures forall j :: i < j < |runs| ==> runs[i].start + runs[i].len < runs[j].start
  {
    if i > 0 {
      StartsRise(runs[1..], i - 1, runs[0].start + runs[0].len + 1, hi);
      assert forall j :: i < j < |runs| ==> runs[j] == runs[1..][j - 1];
    } else {
      forall j | 0 < j < |runs|
        ensures runs[0].start + runs[0].len < runs[j].start
      {
        StartsRise(runs[1..], j - 1, runs[0].start + runs[0].len + 1, hi);
      }
    }
  }

  /** What a change at place i needs to know of its surroundings. */
  lemma Around(runs: seq<Run>, i: nat, hi: nat)
    requires Canonical(runs, 0, hi) && i <= |runs|
    ensures StartBefore(runs, i) < hi && (i > 0 ==> StartBefore(runs, i) in Pages(runs))
    ensures i < |runs| ==> StartBefore(runs, i) < runs[i].start
    ensures i + 1 < |runs| ==> runs[i].start + runs[i].len < runs[i + 1].start
    ensures i < |runs| ==>
              0 < runs[i].len && runs[i].start + runs[i].len <= hi
              && Interval(runs[i].start, runs[i].len) <= Pages(runs)
    ensures i < |runs| ==> forall p :: runs[i].start <= p < runs[i].start + runs[i].len ==> p in Pages(runs)
  {
    if i > 0 {
      StartsRise(runs, i - 1, 0, hi);
      assert runs[i - 1].start in Interval(runs[i - 1].start, runs[i - 1].len);
    }
    if i < |runs| {
      StartsRise(runs, i, 0, hi);
      assert forall p :: runs[i].start <= p < runs[i].start + runs[i].len ==> p in Interval(runs[i].start, runs[i].len);
    }
  }

  lemma StartIn(a: nat, n: nat)
    requires n > 0
    ensures a in Interval(a, n)
  {
  }

  /** The search passes over runs that are too short. */
  lemma {:induction false} AllocSkips(runs: seq<Run>, i: nat, n: nat)
    requires i <= |runs| && forall k :: 0 <= k < i ==> runs[k].len < n
    ensures AllocRuns(runs, n) == runs[..i] + AllocRuns(runs[i..], n)
    ensures AllocAt(runs, n) == AllocAt(runs[i..], n)
  {
    if i == 0 {
      assert runs[0..] == runs;
    } else {
      AllocSkips(runs[1..], i - 1, n);
      assert runs[1..][i - 1..] == runs[i..] && runs[..i] == [runs[0]] + runs[1..][..i - 1];
    }
  }

  lemma AllocHere(runs: seq<Run>, i: nat, n: nat)
    requires i <= |runs| && forall k :: 0 <= k < i ==> runs[k].len < n
    requires i < |runs| ==> runs[i].len >= n
    ensures AllocAt(runs, n) == StartAt(runs, i)
    ensures AllocRuns(runs, n) ==
              if i == |runs| then runs
              else Splice(runs, i, i + 1, if runs[i].len > n then [Run(runs[i].start + n, runs[i].len - n)] else [])
  {
    hide AllocRuns, AllocAt;
    AllocSkips(runs, i, n);
    AllocFirst(runs[i..], n);
    if i < |runs| {
      assert runs[i..][1..] == runs[i + 1..];
    } else {
      assert runs[..i] + [] == runs;
    }
  }

  lemma AllocFirst(runs: seq<Run>, n: nat)
    requires runs != [] ==> runs[0].len >= n
    ensures AllocAt(runs, n) == StartAt(runs, 0)
    ensures AllocRuns(runs, n) == if runs == [] then []
            else (if runs[0].len > n then [Run(runs[0].start + n, runs[0].len - n)] else []) + runs[1..]
  {
  }

  /** What rt_page_free passes over: runs that end before the pages, not touching them. */
  ghost predicate Passed(r: Run, a: nat) {
    r.start + r.len < a
  }

  lemma FreePast(runs: seq<Run>, a: nat, n: nat)
    requires runs != [] && Passed(runs[0], a)
    ensures FreeRuns(runs, a, n) == [runs[0]] + FreeRuns(runs[1..], a, n)
  {
  }

  lemma {:induction false} FreeSkips(runs: seq<Run>, i: nat, a: nat, n: nat)
    requires i <= |runs| && forall k :: 0 <= k < i ==> Passed(runs[k], a)
    ensures FreeRuns(runs, a, n) == runs[..i] + FreeRuns(runs[i..], a, n)
  {
    hide FreeRuns, Passed;
    if i == 0 {
      assert runs[0..] == runs;
    } else {
      FreePast(runs, a, n);
      FreeSkips(runs[1..], i - 1, a, n);
      assert runs[1..][i - 1..] == runs[i..] && runs[..i] == [runs[0]] + runs[1..][..i - 1];
    }
  }

  /** Each of the four ways out of the search of rt_page_free, as one relinking. */
  lemma FreeHere(runs: seq<Run>, i: nat, a: nat, n: nat)
    requires i <= |runs| && forall k :: 0 <= k < i ==> Passed(runs[k], a)
    ensures i == |runs| || (runs[i].start > a + n && runs[i].start + runs[i].len != a) ==>
              FreeRuns(runs, a, n) == Splice(runs, i, i, [Run(a, n)])
    ensures i < |runs| && runs[i].start == a + n && runs[i].start + runs[i].len != a ==>
              FreeRuns(runs, a, n) == Splice(runs, i, i + 1, [Run(a, n + runs[i].len)])
    ensures i < |runs| && runs[i].start + runs[i].len == a ==>
              FreeRuns(runs, a, n) ==
                if i + 1 < |runs| && runs[i + 1].start == a + n
                then Splice(runs, i, i + 2, [Run(runs[i].start, runs[i].len + n + runs[i + 1].len)])
                else Splice(runs, i, i + 1, [Run(runs[i].start, runs[i].len + n)])
  {
    hide FreeRuns;
    FreeSkips(runs, i, a, n);
    FreeFirst(runs[i..], a, n);
    if i < |runs| {
      assert runs[i..][1..] == runs[i + 1..];
      if i + 1 < |runs| {
        assert runs[i + 1..][1..] == runs[i + 2..];
      }
    }
  }

  lemma FreeFirst(runs: seq<Run>, a: nat, n: nat)
    ensures runs == [] ==> FreeRuns(runs, a, n) == [Run(a, n)]
    ensures runs != [] ==>
              var b, rest := runs[0], runs[1..];
              && (b.start + b.len == a && rest != [] && rest[0].start == a + n ==>
                    FreeRuns(runs, a, n) == [Run(b.start, b.len + n + rest[0].len)] + rest[1..])
              && (b.start + b.len == a && !(rest != [] && rest[0].start == a + n) ==>
                    FreeRuns(runs, a, n) == [Run(b.start, b.len + n)] + rest)
              && (b.start + b.len != a && b.start == a + n ==> FreeRuns(runs, a, n) == [Run(a, n + b.len)] + rest)
              && (b.start + b.len != a && b.start > a + n ==> FreeRuns(runs, a, n) == [Run(a, n)] + runs)
  {
  }

  /** A listed run and pages that are not free lie on one side of each other. */
  lemma Apart(runs: seq<Run>, i: nat, a: nat, n: nat, hi: nat)
    requires Canonical(runs, 0, hi) && i < |runs| && n > 0 && Interval(a, n) !! Pages(runs)
    ensures a + n <= runs[i].start || runs[i].start + runs[i].len <= a
  {
    StartsRise(runs, i, 0, hi);
    var r := runs[i];
    assert a in Interval(a, n) && r.start in Interval(r.start, r.len);
    assert a !in Interval(r.start, r.len) && r.start !in Interval(a, n);
  }

  /** nx and ct after rt_page_alloc cut n pages off the front of run i. */
  lemma SplitSpells(runs: seq<Run>, i: nat, n: nat, list: int, next: seq<int>, count: seq<nat>, list': int,
                    next': seq<int>, count': seq<nat>, hi: nat)
    requires Canonical(runs, 0, hi) && Spells(runs, list, next, count) && |next| == |count| == hi && i < |runs|
    requires (forall k :: 0 <= k < i ==> runs[k].len < n) && 0 < n < runs[i].len && runs[i].start + n < hi
    requires StartBefore(runs, i) < hi && list' == if i == 0 then runs[i].start + n else list
    requires var rest, cut := runs[i].start + n, next[runs[i].start + n := StartAt(runs, i + 1)];
             next' == (if i == 0 then cut else cut[StartBefore(runs, i) := rest])
               && count' == count[rest := runs[i].len - n]
    ensures Spells(AllocRuns(runs, n), list', next', count')
  {
    hide Canonical, Spells, AllocRuns;
    Around(runs, i, hi);
    AllocHere(runs, i, n);
    SpliceSpells(runs, list, next, count, i, i + 1, [Run(runs[i].start + n, runs[i].len - n)], list', next', count',
      hi);
  }

  lemma GrownSpells(runs: seq<Run>, i: nat, a: nat, n: nat, list: int, next: seq<int>, count: seq<nat>,
                    next': seq<int>, count': seq<nat>, hi: nat)
    requires Canonical(runs, 0, hi) && Spells(runs, list, next, count) && |next| == |count| == hi && i < |runs|
    requires (forall k :: 0 <= k < i ==> Passed(runs[k], a)) && runs[i].start + runs[i].len == a
             && StartAt(runs, i + 1) != a + n
    requires runs[i].start < hi && next' == next && count' == count[runs[i].start := runs[i].len + n]
    ensures Spells(FreeRuns(runs, a, n), list, next', count')
  {
    hide Canonical, Spells, FreeRuns;
    FreeHere(runs, i, a, n);
    Around(runs, i, hi);
    HeaderOf(runs, i, list, next, count);
    ListStarts(runs, list, next, count);
    SpliceSpells(runs, list, next, count, i, i + 1, [Run(runs[i].start, runs[i].len + n)], list, next', count', hi);
  }

  lemma JoinedSpells(runs: seq<Run>, i: nat, a: nat, n: nat, list: int, next: seq<int>, count: seq<nat>,
                     next': seq<int>, count': seq<nat>, hi: nat)
    requires Canonical(runs, 0, hi) && Spells(runs, list, next, count) && |next| == |count| == hi && i + 1 < |runs|
    requires (forall k :: 0 <= k < i ==> Passed(runs[k], a)) && runs[i].start + runs[i].len == a
             && runs[i + 1].start == a + n
    requires runs[i].start < hi && next' == next[runs[i].start := StartAt(runs, i + 2)]
    requires count' == count[runs[i].start := runs[i].len + n + runs[i + 1].len]
    ensures Spells(FreeRuns(runs, a, n), list, next', count')
  {
    hide Canonical, Spells, FreeRuns;
    FreeHere(runs, i, a, n);
    Around(runs, i, hi);
    Around(runs, i + 1, hi);
    HeaderOf(runs, i, list, next, count);
    ListStarts(runs, list, next, count);
    SpliceSpells(runs, list, next, count, i, i + 2, [Run(runs[i].start, runs[i].len + n + runs[i + 1].len)], list,
      next', count', hi);
  }

  lemma StaysCanonical(runs: seq<Run>, n: nat, hi: nat)
    requires Canonical(runs, 0, hi) && n > 0
    ensures Canonical(AllocRuns(runs, n), 0, hi)
  {
    AllocTakes(runs, n, 0, hi);
  }

  class PageHeap {
    const npages: nat
    const next: array<int>
    const count: array<nat>
    /** rt_page_list */
    var list: int
    ghost var runs: seq<Run>

    ghost predicate Valid()
      reads this, next, count
    {
      && next.Length == count.Length == npages
      && Canonical(runs, 0, npages)
      && Spells(runs, list, next[..], count[..])
    }

    ghost function FreePages(): set<nat>
      reads this
    {
      Pages(runs)
    }

    /** No header outside the given pages was written: the pages' owners find them as they left them. */
    twostate predicate OnlyTouched(pages: set<nat>)
      reads next, count
    {
      forall p :: 0 <= p < next.Length && p < count.Length && p !in pages ==>
               next[p] == old(next[p]) && count[p] == old(count[p])
    }

    /** *prev = target */
    method Link(prev: int, target: int)
      requires prev == NONE || 0 <= prev < next.Length
      modifies this`list, next
      ensures list == if prev == NONE then target else old(list)
      ensures next[..] == if prev == NONE then old(next[..]) else old(next[..])[prev := target]
    {
      if prev == NONE {
        list := target;
      } else {
        next[prev] := target;
      }
    }

    /** rt_page_alloc */
    method Alloc(n: nat) returns (b: int)
      requires Valid()
      modifies this`list, this`runs, next, count
      ensures Valid()
      ensures n == 0 ==> b == NONE && runs == old(runs)
      ensures n > 0 ==> b == AllocAt(old(runs), n) && runs == AllocRuns(old(runs), n)
      ensures OnlyTouched(old(FreePages()))
    {
      hide Canonical, Spells, Pages;
      assert next[..] == old(next[..]) && count[..] == old(count[..]);
      if n == 0 {
        return NONE;
      }
      var prev := NONE;
      b := list;
      ghost var i := 0;
      ListStarts(runs, list, next[..], count[..]);
      while b != NONE
        invariant Valid() && runs == old(runs) && list == old(list) && next[..] == old(next[..])
                  && count[..] == old(count[..])
        invariant i <= |runs| && b == StartAt(runs, i) && prev == StartBefore(runs, i)
        invariant forall k :: 0 <= k < i ==> runs[k].len < n
        decreases |runs| - i
      {
        AtHeader(i);
        if count[b] > n {
          Split(b, prev, n, i);
          return;
        }
        if count[b] == n {
          Unlink(b, prev, n, i);
          return;
        }
        prev := b;
        b := next[b];
        i := i + 1;
      }
      AllocHere(runs, i, n);
    }

    /** The front of a longer run goes out; the rest gets a header of its own. */
    method Split(b: nat, prev: int, n: nat, ghost i: nat)
      requires Valid() && 0 < n && i < |runs| && b == runs[i].start && prev == StartBefore(runs, i)
      requires runs[i].len > n && forall k :: 0 <= k < i ==> runs[k].len < n
      modifies this`list, this`runs, next, count
      ensures Valid() && b == AllocAt(old(runs), n) && runs == AllocRuns(old(runs), n)
      ensures OnlyTouched(old(FreePages()))
    {
      hide Canonical, Spells, Pages, Interval, AllocRuns, AllocAt, Splice;
      AtHeader(i);
      ghost var was, nx, ct, l := runs, next[..], count[..], list;
      Around(was, i, npages);
      var rest := b + n;
      next[rest] := next[b];
      count[rest] := count[b] - n;
      Link(prev, rest);
      AllocHere(was, i, n);
      StaysCanonical(was, n, npages);
      runs := AllocRuns(was, n);
      SplitSpells(was, i, n, l, nx, ct, list, next[..], count[..], npages);
    }

    /** A run of just the right length goes out. */
    method Unlink(b: nat, prev: int, n: nat, ghost i: nat)
      requires Valid() && 0 < n && i < |runs| && b == runs[i].start && prev == StartBefore(runs, i)
      requires runs[i].len == n && forall k :: 0 <= k < i ==> runs[k].len < n
      modifies this`list, this`runs, next
      ensures Valid() && b == AllocAt(old(runs), n) && runs == AllocRuns(old(runs), n)
      ensures OnlyTouched(old(FreePages()))
    {
      hide Canonical, Spells, Pages, Interval, AllocRuns, AllocAt;
      AtHeader(i);
      ghost var was, nx, ct, l := runs, next[..], count[..], list;
      Around(was, i, npages);
      Link(prev, next[b]);
      AllocHere(was, i, n);
      StaysCanonical(was, n, npages);
      runs := AllocRuns(was, n);
      SpliceSpells(was, l, nx, ct, i, i + 1, [], list, next[..], count[..], npages);
    }

    /** rt_page_init: one run of all the pages. */
    constructor (npages: nat)
      requires npages > 0
      ensures Valid() && this.npages == npages && runs == [Run(0, npages)] && fresh(next) && fresh(count)
    {
      this.npages := npages;
      next, count := new int[npages], new nat[npages];
      list := NONE;
      runs := [];
      new;
      Free(0, npages);
    }

    /** rt_page_free, of pages that are not free. */
    method Free(a: nat, n: nat)
      requires Valid() && n > 0 && a + n <= npages && Interval(a, n) !! FreePages()
      modifies this`list, this`runs, next, count
      ensures Valid() && runs == FreeRuns(old(runs), a, n)
      ensures OnlyTouched(old(FreePages()) + Interval(a, n))
    {
      hide Canonical, Spells, Pages, Interval;
      assert next[..] == old(next[..]) && count[..] == old(count[..]);
      var prev, b := NONE, list;
      ghost var i := 0;
      ListStarts(runs, list, next[..], count[..]);
      while b != NONE
        invariant Valid() && runs == old(runs) && list == old(list) && next[..] == old(next[..])
                  && count[..] == old(count[..])
        invariant i <= |runs| && b == StartAt(runs, i) && prev == StartBefore(runs, i)
        invariant forall k :: 0 <= k < i ==> Passed(runs[k], a)
        decreases |runs| - i
      {
        AtHeader(i);
        Apart(runs, i, a, n, npages);
        assert b > a || b + count[b] <= a;
        if b + count[b] == a {
          GrowBack(b, a, n, i);
          return;
        }
        if b == a + n {
          GrowFront(b, prev, a, n, i);
          return;
        }
        if b > a + n {
          break;
        }
        prev := b;
        b := next[b];
        i := i + 1;
      }
      Insert(b, prev, a, n, i);
    }

    method Absorb(b: nat, n: nat)
      requires b < count.Length == next.Length && next[b] < next.Length && n > 0
      modifies next, count
      ensures var nx, ct := old(next[..]), old(count[..]);
              var size := ct[b] + n;
              if b + size == nx[b] then count[..] == ct[b := size + ct[nx[b]]] && next[..] == nx[b := nx[nx[b]]]
              else count[..] == ct[b := size] && next[..] == nx
    {
      count[b] := count[b] + n;
      if b + count[b] == next[b] {
        count[b] := count[b] + count[next[b]];
        next[b] := next[next[b]];
      }
    }

    /** The run before takes the pages, and the run after too if they now touch. */
    method GrowBack(b: nat, a: nat, n: nat, ghost i: nat)
      requires Valid() && n > 0 && a + n <= npages && Interval(a, n) !! FreePages() && i < |runs| && b == runs[i].start
      requires runs[i].start + runs[i].len == a && forall k :: 0 <= k < i ==> Passed(runs[k], a)
      modifies this`runs, next, count
      ensures Valid() && runs == FreeRuns(old(runs), a, n)
      ensures OnlyTouched(old(FreePages()) + Interval(a, n))
    {
      hide Canonical, Spells, Pages, Interval;
      AtHeader(i);
      ghost var was, nx, ct := runs, next[..], count[..];
      Around(was, i, npages);
      FreeGives(was, a, n, 0, npages);
      if i + 1 < |was| {
        AtHeader(i + 1);
      }
      Absorb(b, n);
      runs := FreeRuns(was, a, n);
      if StartAt(was, i + 1) == a + n {
        JoinedSpells(was, i, a, n, list, nx, ct, next[..], count[..], npages);
      } else {
        GrownSpells(was, i, a, n, list, nx, ct, next[..], count[..], npages);
      }
    }

    /** The pages take over the header of the run after them. */
    method GrowFront(b: nat, prev: int, a: nat, n: nat, ghost i: nat)
      requires Valid() && n > 0 && Interval(a, n) !! FreePages() && i < |runs| && b == runs[i].start == a + n
      requires prev == StartBefore(runs, i) && forall k :: 0 <= k < i ==> Passed(runs[k], a)
      modifies this`list, this`runs, next, count
      ensures Valid() && runs == FreeRuns(old(runs), a, n)
      ensures OnlyTouched(old(FreePages()) + Interval(a, n))
    {
      hide Canonical, Spells, Pages, Interval;
      AtHeader(i);
      ghost var was, nx, ct, l := runs, next[..], count[..], list;
      Around(was, i, npages);
      FreeHere(was, i, a, n);
      StartIn(a, n);
      FreeGives(was, a, n, 0, npages);
      count[a] := count[b] + n;
      next[a] := next[b];
      Link(prev, a);
      runs := FreeRuns(was, a, n);
      SpliceSpells(was, l, nx, ct, i, i + 1, [Run(a, count[a])], list, next[..], count[..], npages);
    }

    /** A run of its own. */
    method Insert(b: int, prev: int, a: nat, n: nat, ghost i: nat)
      requires Valid() && n > 0 && a + n <= npages && Interval(a, n) !! FreePages() && i <= |runs|
               && b == StartAt(runs, i)
      requires prev == StartBefore(runs, i) && (forall k :: 0 <= k < i ==> Passed(runs[k], a))
      requires i < |runs| ==> runs[i].start > a + n
      modifies this`list, this`runs, next, count
      ensures Valid() && runs == FreeRuns(old(runs), a, n)
      ensures OnlyTouched(old(FreePages()) + Interval(a, n))
    {
      hide Canonical, Spells, Pages, Interval;
      ghost var was, nx, ct, l := runs, next[..], count[..], list;
      Around(was, i, npages);
      FreeHere(was, i, a, n);
      StartIn(a, n);
      FreeGives(was, a, n, 0, npages);
      count[a] := n;
      next[a] := b;
      Link(prev, a);
      runs := FreeRuns(was, a, n);
      SpliceSpells(was, l, nx, ct, i, i, [Run(a, n)], list, next[..], count[..], npages);
    }

    lemma AtHeader(i: nat)
      requires Valid() && i < |runs|
      ensures var b := runs[i].start; b < npages && next[b] == StartAt(runs, i + 1) && count[b] == runs[i].len
    {
      assert Header(runs, i, next[..], count[..]);
    }
  }

  lemma HeaderOf(runs: seq<Run>, i: nat, list: int, next: seq<int>, count: seq<nat>)
    requires Spells(runs, list, next, count) && i < |runs|
    ensures Header(runs, i, next, count) && (i > 0 ==> Header(runs, i - 1, next, count))
  {
  }

  lemma ListStarts(runs: seq<Run>, list: int, next: seq<int>, count: seq<nat>)
    requires Spells(runs, list, next, count)
    ensures list == StartAt(runs, 0)
  {
  }
}
