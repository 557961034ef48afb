/** The free pages of rt-thread/src/slab.c as a list of runs, and what rt_page_alloc and rt_page_free do
    to it. Pages are numbered from the start of the heap. */
module PageModel {

  datatype Run = Run(start: nat, len: nat)

  const NONE: int := -1

  /** Runs in address order between lo and hi, none empty, and no two touching. */
  ghost predicate Canonical(runs: seq<Run>, lo: nat, hi: nat) {
    runs != [] ==>
      && lo <= runs[0].start && 0 < runs[0].len && runs[0].start + runs[0].len <= hi
      && Canonical(runs[1..], runs[0].start + runs[0].len + 1, hi)
  }

  ghost predicate From(start: nat, p: nat) {
    start <= p
  }

  ghost function Interval(start: nat, len: nat): set<nat> {
    set p: nat | From(start, p) && p < start + len
  }

  ghost function Pages(runs: seq<Run>): set<nat> {
    if runs == [] then {} else Interval(runs[0].start, runs[0].len) + Pages(runs[1..])
  }

  function PageCount(runs: seq<Run>): nat {
    if runs == [] then 0 else runs[0].len + PageCount(runs[1..])
  }

  /** Where rt_page_alloc finds n pages. */
  function AllocAt(runs: seq<Run>, n: nat): int {
    if runs == [] then NONE
    else if runs[0].len >= n then runs[0].start
    else AllocAt(runs[1..], n)
  }

  /** The list it leaves. */
  function AllocRuns(runs: seq<Run>, n: nat): seq<Run> {
    if runs == [] then []
    else if runs[0].len > n then [Run(runs[0].start + n, runs[0].len - n)] + runs[1..]
    else if runs[0].len == n then runs[1..]
    else [runs[0]] + AllocRuns(runs[1..], n)
  }

  /** The list rt_page_free leaves: joined to the run before, to the run after, to both, or to neither. */
  function FreeRuns(runs: seq<Run>, a: nat, n: nat): seq<Run> {
    if runs == [] then [Run(a, n)]
    else
      var b, rest := runs[0], runs[1..];
      if b.start + b.len == a then
        if rest != [] && rest[0].start == a + n then [Run(b.start, b.len + n + rest[0].len)] + rest[1..]
        else [Run(b.start, b.len + n)] + rest
      else if b.start == a + n then [Run(a, n + b.len)] + rest
      else if b.start > a + n then [Run(a, n)] + runs
      else [b] + FreeRuns(rest, a, n)
  }

  lemma {:induction false} CanonicalFrom(runs: seq<Run>, lo: nat, lo': nat, hi: nat)
    requires Canonical(runs, lo, hi) && lo' <= lo
    ensures Canonical(runs, lo', hi)
  {
  }

  lemma {:induction false} PagesWithin(runs: seq<Run>, lo: nat, hi: nat)
    requires Canonical(runs, lo, hi)
    ensures forall p :: p in Pages(runs) ==> lo <= p < hi
  {
    if runs != [] {
      PagesWithin(runs[1..], runs[0].start + runs[0].len + 1, hi);
    }
  }

  /** Set against run: where the first run starts and ends can be read off the set of free pages. */
  lemma FirstRun(runs: seq<Run>, lo: nat, hi: nat)
    requires Canonical(runs, lo, hi) && runs != []
    ensures forall p :: p in Pages(runs) ==> runs[0].start <= p
    ensures forall p :: runs[0].start <= p < runs[0].start + runs[0].len ==> p in Pages(runs)
    ensures runs[0].start + runs[0].len !in Pages(runs)
    ensures forall p :: p in Pages(runs[1..]) <==> p in Pages(runs) && runs[0].start + runs[0].len < p
  {
    PagesWithin(runs[1..], runs[0].start + runs[0].len + 1, hi);
  }

  /** The list is determined by the set of free pages. */
  lemma {:induction false} CanonicalIsUnique(a: seq<Run>, b: seq<Run>, lo: nat, hi: nat)
    requires Canonical(a, lo, hi) && Canonical(b, lo, hi) && Pages(a) == Pages(b)
    ensures a == b
  {
    SomePage(a, lo, hi);
    SomePage(b, lo, hi);
    if a != [] {
      FirstRun(a, lo, hi);
      FirstRun(b, lo, hi);
      SameFirst(a, b);
      assert Pages(a[1..]) == Pages(b[1..]);
      CanonicalIsUnique(a[1..], b[1..], a[0].start + a[0].len + 1, hi);
      assert a == [a[0]] + a[1..] && b == [b[0]] + b[1..];
    }
  }

  lemma SomePage(a: seq<Run>, lo: nat, hi: nat)
    requires Canonical(a, lo, hi)
    ensures Pages(a) == {} <==> a == []
  {
    if a != [] {
      assert a[0].start in Pages(a);
    }
  }

  lemma SameFirst(a: seq<Run>, b: seq<Run>)
    requires a != [] && b != [] && Pages(a) == Pages(b) && a[0].len > 0 && b[0].len > 0
    requires forall p :: p in Pages(a) ==> a[0].start <= p && b[0].start <= p
    requires forall p :: a[0].start <= p < a[0].start + a[0].len ==> p in Pages(a)
    requires forall p :: b[0].start <= p < b[0].start + b[0].len ==> p in Pages(b)
    requires a[0].start + a[0].len !in Pages(a) && b[0].start + b[0].len !in Pages(b)
    ensures a[0] == b[0]
  {
    assert a[0].start in Pages(a) && b[0].start in Pages(b);
  }

  /** The count of the listed pages is the size of the free set. */
  lemma {:induction false} CountIsSize(runs: seq<Run>, lo: nat, hi: nat)
    requires Canonical(runs, lo, hi)
    ensures |Pages(runs)| == PageCount(runs)
  {
    if runs != [] {
      var rest := runs[1..];
      CountIsSize(rest, runs[0].start + runs[0].len + 1, hi);
      IntervalSize(runs[0].start, runs[0].len);
      PagesWithin(rest, runs[0].start + runs[0].len + 1, hi);
      assert Interval(runs[0].start, runs[0].len) !! Pages(rest);
    }
  }

  lemma {:induction false} IntervalSize(start: nat, len: nat)
    ensures |Interval(start, len)| == len
  {
    if len == 0 {
      assert Interval(start, 0) == {};
    } else {
      IntervalSize(start, len - 1);
      assert Interval(start, len) == Interval(start, len - 1) + {start + len - 1};
    }
  }

  /** Allocation takes the first run long enough, from its start, and no other page. */
  lemma {:induction false} AllocTakes(runs: seq<Run>, n: nat, lo: nat, hi: nat)
    requires Canonical(runs, lo, hi) && n > 0
    ensures Canonical(AllocRuns(runs, n), lo, hi)
    ensures AllocAt(runs, n) == NONE <==> forall r :: r in runs ==> r.len < n
    ensures AllocAt(runs, n) == NONE ==> AllocRuns(runs, n) == runs
    ensures AllocAt(runs, n) != NONE ==>
              var a := AllocAt(runs, n);
              lo <= a && a + n <= hi && Interval(a, n) <= Pages(runs)
                && Pages(AllocRuns(runs, n)) == Pages(runs) - Interval(a, n)
  {
    if runs != [] {
      var r, rest := runs[0], runs[1..];
      var end := r.start + r.len + 1;
      PagesWithin(rest, end, hi);
      assert forall x :: x in runs <==> x == r || x in rest;
      if r.len < n {
        AllocTakes(rest, n, end, hi);
        assert AllocRuns(runs, n)[1..] == AllocRuns(rest, n);
        assert [r] + rest == runs;
      } else {
        TakeFirst(r, rest, n, end, hi);
        assert runs == [r] + rest;
      }
    }
  }

  lemma TakeFirst(r: Run, rest: seq<Run>, n: nat, end: nat, hi: nat)
    requires 0 < n <= r.len && end == r.start + r.len + 1 && Canonical(rest, end, hi) && r.start + r.len <= hi
    ensures var left := AllocRuns([r] + rest, n);
            Canonical(left, r.start, hi) && Pages(left) == Pages([r] + rest) - Interval(r.start, n)
  {
    var all := [r] + rest;
    PagesWithin(rest, end, hi);
    assert all[1..] == rest;
    if r.len > n {
      var cut := Run(r.start + n, r.len - n);
      assert AllocRuns(all, n)[1..] == rest;
      assert Interval(r.start, r.len) - Interval(r.start, n) == Interval(cut.start, cut.len);
    } else {
      CanonicalFrom(rest, end, r.start, hi);
    }
  }

  lemma IntervalsJoin(a: nat, n: nat, m: nat)
    ensures Interval(a, n) + Interval(a + n, m) == Interval(a, n + m)
  {
  }

  lemma NotTouching(runs: seq<Run>, a: nat, n: nat, lo: nat, hi: nat)
    requires Canonical(runs, lo, hi) && runs != [] && n > 0 && Interval(a, n) !! Pages(runs)
    ensures a + n <= runs[0].start || runs[0].start + runs[0].len <= a
  {
    assert runs[0].start in Pages(runs);
    if runs[0].start < a {
      assert a in Interval(a, n) && a !in Pages(runs);
    } else {
      assert runs[0].start !in Interval(a, n);
    }
  }

  /** Freeing gives back exactly the pages named, and the list stays canonical. */
  lemma {:induction false} FreeGives(runs: seq<Run>, a: nat, n: nat, lo: nat, hi: nat)
    requires Canonical(runs, lo, hi) && n > 0 && lo <= a && a + n <= hi && Interval(a, n) !! Pages(runs)
    ensures Canonical(FreeRuns(runs, a, n), lo, hi)
    ensures Pages(FreeRuns(runs, a, n)) == Pages(runs) + Interval(a, n)
  {
    if runs == [] {
      assert Pages([Run(a, n)]) == Interval(a, n) + Pages([]);
    } else {
      var b, rest := runs[0], runs[1..];
      var end := b.start + b.len + 1;
      NotTouching(runs, a, n, lo, hi);
      if b.start + b.len == a {
        JoinAfter(b, rest, a, n, end, hi);
      } else if b.start == a + n {
        IntervalsJoin(a, n, b.len);
        assert FreeRuns(runs, a, n)[1..] == rest;
      } else if b.start > a + n {
        CanonicalFrom(runs, lo, lo, hi);
        assert FreeRuns(runs, a, n)[1..] == runs;
      } else {
        FreeGives(rest, a, n, end, hi);
        assert FreeRuns(runs, a, n)[1..] == FreeRuns(rest, a, n);
      }
    }
  }

  lemma JoinAfter(b: Run, rest: seq<Run>, a: nat, n: nat, end: nat, hi: nat)
    requires b.start + b.len == a && n > 0 && a + n <= hi && end == a + 1 && Canonical(rest, end, hi)
    requires Interval(a, n) !! Pages(rest)
    ensures var more := FreeRuns([b] + rest, a, n);
            Pages(more) == Pages([b] + rest) + Interval(a, n) && (b.len > 0 ==> Canonical(more, b.start, hi))
  {
    var all := [b] + rest;
    assert all[1..] == rest;
    var more := FreeRuns(all, a, n);
    IntervalsJoin(b.start, b.len, n);
    if rest != [] {
      NotTouching(rest, a, n, end, hi);
    }
    if rest != [] && rest[0].start == a + n {
      IntervalsJoin(b.start, b.len + n, rest[0].len);
      assert more[1..] == rest[1..];
    } else {
      assert more[1..] == rest;
    }
  }

  /** rt_page_alloc followed by rt_page_free of the same pages restores the identical list. */
  lemma AllocThenFree(runs: seq<Run>, n: nat, hi: nat)
    requires Canonical(runs, 0, hi) && n > 0 && AllocAt(runs, n) != NONE
    ensures AllocAt(runs, n) >= 0 && FreeRuns(AllocRuns(runs, n), AllocAt(runs, n), n) == runs
  {
    var a, left := AllocAt(runs, n), AllocRuns(runs, n);
    AllocTakes(runs, n, 0, hi);
    FreeGives(left, a, n, 0, hi);
    CanonicalIsUnique(FreeRuns(left, a, n), runs, 0, hi);
  }

  /** Two frees give the same list in either order. */
  lemma FreesCommute(runs: seq<Run>, a: nat, n: nat, b: nat, m: nat, hi: nat)
    requires Canonical(runs, 0, hi) && n > 0 && m > 0 && a + n <= hi && b + m <= hi
    requires Interval(a, n) !! Pages(runs) && Interval(b, m) !! Pages(runs) && Interval(a, n) !! Interval(b, m)
    ensures FreeRuns(FreeRuns(runs, a, n), b, m) == FreeRuns(FreeRuns(runs, b, m), a, n)
  {
    var ab, ba := FreeRuns(FreeRuns(runs, a, n), b, m), FreeRuns(FreeRuns(runs, b, m), a, n);
    FreeTwice(runs, a, n, b, m, hi);
    FreeTwice(runs, b, m, a, n, hi);
    hide FreeRuns, Canonical, Pages, Interval;
    assert Pages(ab) == Pages(ba);
    CanonicalIsUnique(ab, ba, 0, hi);
  }

  lemma FreeTwice(runs: seq<Run>, a: nat, n: nat, b: nat, m: nat, hi: nat)
    requires Canonical(runs, 0, hi) && n > 0 && m > 0 && a + n <= hi && b + m <= hi
    requires Interval(a, n) !! Pages(runs) && Interval(b, m) !! Pages(runs) && Interval(a, n) !! Interval(b, m)
    ensures var more := FreeRuns(FreeRuns(runs, a, n), b, m);
            Canonical(more, 0, hi) && Pages(more) == Pages(runs) + Interval(a, n) + Interval(b, m)
  {
    hide FreeRuns, Canonical, Pages, Interval;
    FreeGives(runs, a, n, 0, hi);
    FreeGives(FreeRuns(runs, a, n), b, m, 0, hi);
  }
}
