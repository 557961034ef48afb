/** The memory pool of rt-thread/src/mempool.c as a step system: who waits for a block, who has been woken
    for one, and the pool's own count of waiters. A step is one interrupt-disabled region. */
module MemPoolModel {
  import opened RtDef
  import opened Sequences

  /** free is block_list, waiting is suspend_thread from its head, count is suspend_thread_count; woken are
      the threads resumed for a block that have not run since. */
  datatype Pool = Pool(total: nat, free: seq<nat>, waiting: seq<Tid>, count: nat, woken: set<Tid>)

  datatype Event =
    | Alloc(t: Tid, wait: bool)   // one pass through the loop of rt_mp_alloc
    | Timeout(t: Tid)
    | Free(block: nat)

  /** rt_mp_free takes the first waiter off its list whenever the count is positive. */
  predicate Resumable(s: Pool) {
    s.count > 0 ==> s.waiting != []
  }

  predicate Enabled(s: Pool, e: Event) {
    match e
    case Alloc(t, _) => t !in s.waiting
    case Timeout(t) => t in s.waiting
    case Free(block) => block < s.total && block !in s.free && Resumable(s)
  }

  function Apply(s: Pool, e: Event): Pool
    requires Enabled(s, e)
  {
    match e
    case Alloc(t, wait) =>
      var s1 := s.(woken := s.woken - {t});
      if s.free != [] then s1.(free := s.free[1..])
      else if wait then s1.(waiting := [t] + s.waiting, count := s.count + 1)
      else s1
    case Timeout(t) => s.(waiting := Without(s.waiting, t))
    case Free(block) =>
      var s1 := s.(free := [block] + s.free);
      if s.count > 0 then s1.(waiting := s.waiting[1..], count := s.count - 1, woken := s.woken + {s.waiting[0]})
      else s1
  }

  function Start(total: nat): Pool {
    Pool(total, UpFrom(0, total), [], 0, {})
  }

  /** The blocks of the free list are blocks of the pool, each once; and nobody waits for a block already
      there: while threads wait, every free block has a thread woken for it. */
  ghost predicate Inv(s: Pool) {
    && Distinct(s.free) && Elems(s.free) <= UpTo(s.total)
    && Distinct(s.waiting) && |s.waiting| <= s.count && Elems(s.waiting) !! s.woken
    && (s.waiting != [] ==> |s.free| <= |s.woken|)
  }

  ghost predicate IsRun(trace: seq<Pool>, events: seq<Event>) {
    && |trace| == |events| + 1
    && forall k :: 0 <= k < |events| ==> Enabled(trace[k], events[k]) && trace[k + 1] == Apply(trace[k], events[k])
  }

  /** How many waits ended by timeout. */
  function TimedOut(events: seq<Event>): nat {
    if events == [] then 0
    else TimedOut(events[..|events| - 1]) + if events[|events| - 1].Timeout? then 1 else 0
  }

  /** Somebody can release a block here, and the release would resume a waiter that does not exist. */
  predicate Trap(s: Pool) {
    |s.free| < s.total && !Resumable(s)
  }

  // ---------------------------------------------------------------- steps

  lemma InList<T>(a: seq<T>)
    ensures forall x :: x in a <==> x in Elems(a)
  {
  }

  lemma ConsElems<T>(x: T, a: seq<T>)
    ensures Elems([x] + a) == Elems(a) + {x}
  {
  }

  lemma HeadElems<T>(a: seq<T>)
    requires a != [] && Distinct(a)
    ensures Distinct(a[1..]) && a[0] !in a[1..] && Elems(a) == Elems(a[1..]) + {a[0]} && a[0] !in Elems(a[1..])
  {
    assert a == [a[0]] + a[1..];
    DistinctCons(a[0], a[1..]);
  }

  lemma SizeWithout<T>(s: set<T>, x: T)
    ensures |s - {x}| + 1 >= |s| && (x !in s ==> s - {x} == s)
  {
    if x in s {
      assert s == (s - {x}) + {x};
    }
  }

  lemma AllocKeeps(s: Pool, t: Tid, wait: bool)
    requires Inv(s) && Enabled(s, Alloc(t, wait))
    ensures Inv(Apply(s, Alloc(t, wait)))
  {
    hide Distinct, Elems;
    SizeWithout(s.woken, t);
    InList(s.waiting);
    if s.free != [] {
      HeadElems(s.free);
    } else {
      DistinctCons(t, s.waiting);
      ConsElems(t, s.waiting);
    }
  }

  lemma FreeKeeps(s: Pool, block: nat)
    requires Inv(s) && Enabled(s, Free(block))
    ensures Inv(Apply(s, Free(block)))
  {
    hide Distinct, Elems;
    DistinctCons(block, s.free);
    ConsElems(block, s.free);
    if s.count > 0 {
      HeadElems(s.waiting);
      assert s.waiting[0] !in s.woken by { InList(s.waiting); }
    }
  }

  lemma WaitersCounted(s: Pool)
    requires Inv(s)
    ensures |s.waiting| <= s.count && (s.waiting == [] || s.count > 0)
  {
  }

  lemma TimeoutKeeps(s: Pool, t: Tid)
    requires Inv(s) && Enabled(s, Timeout(t))
    ensures Inv(Apply(s, Timeout(t))) && |Apply(s, Timeout(t)).waiting| == |s.waiting| - 1
  {
    var w := Without(s.waiting, t);
    WithoutMembers(s.waiting, t);
    ElemsSize(s.waiting);
    ElemsSize(w);
    assert Elems(w) == Elems(s.waiting) - {t};
  }

  /** What a step does to the account of waiters. */
  lemma StepKeeps(s: Pool, e: Event)
    requires Inv(s) && Enabled(s, e)
    ensures Inv(Apply(s, e)) && Apply(s, e).total == s.total
    ensures Apply(s, e).count - |Apply(s, e).waiting| == s.count - |s.waiting| + if e.Timeout? then 1 else 0
  {
    hide Inv;
    match e
    case Alloc(t, wait) => AllocKeeps(s, t, wait);
    case Timeout(t) => TimeoutKeeps(s, t);
    case Free(block) => FreeKeeps(s, block);
  }

  lemma StartKeeps(total: nat)
    ensures Inv(Start(total))
  {
    assert forall b :: b in Elems(UpFrom(0, total)) ==> b in UpTo(total);
  }

  /** Over any run the count is the waiting threads and the waits that ever timed out. */
  lemma {:induction false} RunKeeps(trace: seq<Pool>, events: seq<Event>, total: nat)
    requires IsRun(trace, events) && trace[0] == Start(total)
    ensures var s := trace[|events|];
            Inv(s) && s.total == total && s.count == |s.waiting| + TimedOut(events)
  {
    if events == [] {
      StartKeeps(total);
    } else {
      var m := |events| - 1;
      RunKeeps(trace[..m + 1], events[..m], total);
      StepKeeps(trace[m], events[m]);
    }
  }

  /** A thread that finds no block goes in front of all others that wait, and the next release is for it. */
  lemma NewestIsServedFirst(s: Pool, t: Tid, block: nat)
    requires Inv(s) && Enabled(s, Alloc(t, true)) && s.free == [] && block < s.total
    ensures var blocked := Apply(s, Alloc(t, true));
            && blocked.waiting == [t] + s.waiting && blocked.free == [] && Enabled(blocked, Free(block))
            && var served := Apply(blocked, Free(block));
               served.waiting == s.waiting && t in served.woken && served.free == [block] && served.count == s.count
  {
  }

  /** The block freed last is handed out first. */
  lemma LastFreedIsFirst(s: Pool, t: Tid, wait: bool, block: nat)
    requires Inv(s) && Enabled(s, Free(block)) && Enabled(Apply(s, Free(block)), Alloc(t, wait))
    ensures Apply(s, Free(block)).free[0] == block
    ensures Apply(Apply(s, Free(block)), Alloc(t, wait)).free == s.free
  {
  }

  // ---------------------------------------------------------------- when every release is sound

  /** A thread that is not in the list. */
  lemma {:induction false} SomeoneElse(a: seq<nat>) returns (t: nat)
    ensures forall x :: x in a ==> x < t
  {
    if a == [] {
      return 0;
    }
    t := SomeoneElse(a[1..]);
    t := if t <= a[0] then a[0] + 1 else t;
    assert a == [a[0]] + a[1..];
  }

  /** Free blocks and blocks in use make up the pool. */
  lemma Conserved(s: Pool)
    requires Inv(s)
    ensures |UpTo(s.total) - Elems(s.free)| + |s.free| == s.total
  {
    UpToSize(s.total);
    ElemsSize(s.free);
  }

  lemma SomeBlockHeld(s: Pool) returns (b: nat)
    requires Inv(s) && |s.free| < s.total
    ensures b < s.total && b !in s.free
  {
    Conserved(s);
    assert |UpTo(s.total) - Elems(s.free)| > 0;
    b :| b in UpTo(s.total) - Elems(s.free);
  }

  lemma ConsRun(s: Pool, e: Event, later: seq<Pool>, more: seq<Event>)
    requires Enabled(s, e) && IsRun(later, more) && later[0] == Apply(s, e)
    ensures IsRun([s] + later, [e] + more) && ([s] + later)[|more| + 1] == later[|more|]
  {
    var trace, events := [s] + later, [e] + more;
    forall k | 0 <= k < |events|
      ensures Enabled(trace[k], events[k]) && trace[k + 1] == Apply(trace[k], events[k])
    {
      if k > 0 {
        assert trace[k] == later[k - 1] && events[k] == more[k - 1];
      }
    }
  }

  lemma {:induction false} NoMoreTimeouts(e: Event, more: seq<Event>)
    requires !e.Timeout? && TimedOut(more) == 0
    ensures TimedOut([e] + more) == 0
  {
    var events := [e] + more;
    if more == [] {
      assert events[..0] == [];
    } else {
      NoMoreTimeouts(e, more[..|more| - 1]);
      assert events[..|events| - 1] == [e] + more[..|more| - 1];
    }
  }

  /** With one waiter too many in the count, releasing blocks until nobody waits leads to a trap. */
  lemma {:induction false} Drain(s: Pool) returns (later: seq<Pool>, more: seq<Event>)
    requires Inv(s) && 0 < s.total && |s.waiting| < s.count
    ensures IsRun(later, more) && later[0] == s && TimedOut(more) == 0 && Trap(later[|more|])
    decreases |s.waiting|, |s.free|
  {
    hide Inv;
    var e: Event;
    if |s.free| >= s.total {
      var t := SomeoneElse(s.waiting);
      e := Alloc(t, false);
    } else if s.waiting == [] {
      return [s], [];
    } else {
      var b := SomeBlockHeld(s);
      e := Free(b);
    }
    StepKeeps(s, e);
    later, more := Drain(Apply(s, e));
    ConsRun(s, e, later, more);
    NoMoreTimeouts(e, more);
    later, more := [s] + later, [e] + more;
  }

  lemma {:induction false} TimedOutConcat(a: seq<Event>, b: seq<Event>)
    ensures TimedOut(a + b) == TimedOut(a) + TimedOut(b)
  {
    if b == [] {
      assert a + b == a;
    } else {
      var m := |b| - 1;
      TimedOutConcat(a, b[..m]);
      assert (a + b)[..|a + b| - 1] == a + b[..m];
    }
  }

  /** A run goes on keeping the account of waiters. */
  lemma {:induction false} LaterKeeps(later: seq<Pool>, more: seq<Event>)
    requires IsRun(later, more) && Inv(later[0])
    ensures Inv(later[|more|])
    ensures later[|more|].count - |later[|more|].waiting| == later[0].count - |later[0].waiting| + TimedOut(more)
  {
    if more != [] {
      var m := |more| - 1;
      LaterKeeps(later[..m + 1], more[..m]);
      StepKeeps(later[m], more[m]);
    }
  }

  ghost predicate NeverTraps(s: Pool) {
    forall later, more :: IsRun(later, more) && later[0] == s && TimedOut(more) == 0 ==> !Trap(later[|more|])
  }

  /** Every release to come finds the waiter it resumes, if no further wait times out, exactly when no wait
      on this pool has timed out so far. */
  lemma NeverTrapsIff(trace: seq<Pool>, events: seq<Event>, total: nat)
    requires IsRun(trace, events) && trace[0] == Start(total) && 0 < total
    ensures NeverTraps(trace[|events|]) <==> forall e :: e in events ==> !e.Timeout?
  {
    var s := trace[|events|];
    RunKeeps(trace, events, total);
    NoneTimedOut(events);
    if TimedOut(events) == 0 {
      forall later, more | IsRun(later, more) && later[0] == s && TimedOut(more) == 0
        ensures !Trap(later[|more|])
      {
        LaterKeeps(later, more);
      }
    } else {
      var later, more := Drain(s);
    }
  }

  lemma {:induction false} NoneTimedOut(events: seq<Event>)
    ensures TimedOut(events) == 0 <==> forall e :: e in events ==> !e.Timeout?
  {
    if events != [] {
      var m := |events| - 1;
      NoneTimedOut(events[..m]);
      assert events == events[..m] + [events[m]];
    }
  }

  /** One block, held by thread 0; thread 7 waits for it and times out. The count stays at 1, and releasing
      the block would resume nobody's thread. */
  lemma TimeoutLeavesTrap()
    ensures var held := Apply(Start(1), Alloc(0, false));
            var asked := Apply(held, Alloc(7, true));
            var s := Apply(asked, Timeout(7));
            s.count == 1 && s.waiting == [] && Trap(s)
  {
    var held := Apply(Start(1), Alloc(0, false));
    assert held.free == [];
    var asked := Apply(held, Alloc(7, true));
    assert asked.waiting == [7];
  }
}
