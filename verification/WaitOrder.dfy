/** The order of wait lists in priority mode: rt_ipc_list_suspend of rt-thread/src/ipc.c puts a thread before the
    first worse one, and rt_thread_control of rt-thread/src/thread.c changes priorities without moving anybody. */
module WaitOrder {
  import opened RtDef
  import opened Sequences
  import opened ThreadLists
  import opened ThreadSteps

  ghost predicate Ascending(q: seq<Tid>, tcb: map<Tid, Tcb>) {
    && (forall i :: 0 <= i < |q| ==> q[i] in tcb)
    && forall i, j :: 0 <= i < j < |q| ==> tcb[q[i]].prio <= tcb[q[j]].prio
  }

  ghost predicate Sorted(s: System, w: nat) {
    WaitList(w) in s.lists && Ascending(s.lists[WaitList(w)], s.tcb)
  }

  // ---------------------------------------------------------------- one list

  lemma {:induction false} WithoutAscending(q: seq<Tid>, tcb: map<Tid, Tcb>, t: Tid)
    requires Ascending(q, tcb)
    ensures Ascending(Without(q, t), tcb) && forall y :: y in Without(q, t) ==> y in q
  {
    if q != [] && q[0] != t {
      var rest := q[1..];
      assert forall i :: 0 <= i < |rest| ==> rest[i] == q[i + 1];
      WithoutAscending(rest, tcb, t);
      var r := Without(rest, t);
      forall i | 0 <= i < |r|
        ensures r[i] in tcb && tcb[q[0]].prio <= tcb[r[i]].prio
      {
        assert r[i] in rest;
      }
      assert Without(q, t) == [q[0]] + r;
    } else if q != [] {
      assert forall i :: 0 <= i < |q[1..]| ==> q[1..][i] == q[i + 1];
    }
  }

  lemma PutAscending(q: seq<Tid>, tcb: map<Tid, Tcb>, t: Tid)
    requires Ascending(q, tcb) && t in tcb
    ensures Ascending(PutAt(q, Place(q, tcb, tcb[t].prio), t), tcb)
  {
    var k := Place(q, tcb, tcb[t].prio);
    var r := PutAt(q, k, t);
    forall i | 0 <= i < |r|
      ensures r[i] == if i < k then q[i] else if i == k then t else q[i - 1]
    {
    }
    hide Place;
  }

  /** Priorities of threads that are not in the list do not matter to it. */
  lemma SameAscending(q: seq<Tid>, tcb: map<Tid, Tcb>, tcb': map<Tid, Tcb>)
    requires forall y :: y in q && y in tcb ==> y in tcb' && tcb'[y].prio == tcb[y].prio
    requires Ascending(q, tcb)
    ensures Ascending(q, tcb')
  {
    assert forall i :: 0 <= i < |q| ==> q[i] in q;
  }

  /** Priority p suits the neighbours of the i-th thread. */
  predicate Suits(q: seq<Tid>, tcb: map<Tid, Tcb>, i: nat, p: nat)
    requires i < |q| && forall y :: y in q ==> y in tcb
  {
    (i > 0 ==> tcb[q[i - 1]].prio <= p) && (i + 1 < |q| ==> p <= tcb[q[i + 1]].prio)
  }

  lemma ChangeAscendingIff(q: seq<Tid>, tcb: map<Tid, Tcb>, i: nat, p: nat)
    requires Ascending(q, tcb) && Distinct(q) && i < |q| && (forall y :: y in q ==> y in tcb)
    ensures Ascending(q, tcb[q[i] := tcb[q[i]].(prio := p)]) <==> Suits(q, tcb, i, p)
  {
    var r := tcb[q[i] := tcb[q[i]].(prio := p)];
    assert forall j :: 0 <= j < |q| && j != i ==> q[j] != q[i];
    if Suits(q, tcb, i, p) {
      forall j, k | 0 <= j < k < |q|
        ensures r[q[j]].prio <= r[q[k]].prio
      {
        if j == i {
          assert tcb[q[i + 1]].prio <= tcb[q[k]].prio;
        } else if k == i {
          assert tcb[q[j]].prio <= tcb[q[i - 1]].prio;
        }
      }
    }
    if Ascending(q, r) {
      assert i > 0 ==> r[q[i - 1]].prio <= r[q[i]].prio;
      assert i + 1 < |q| ==> r[q[i]].prio <= r[q[i + 1]].prio;
    }
  }

  // ---------------------------------------------------------------- every step

  /** A wait list after a step that nobody joins it in: as before, or without one thread. */
  predicate Shorter(s: System, r: System, l: ListId, x: Tid)
    requires l in s.lists && l in r.lists
  {
    r.lists[l] == s.lists[l] || r.lists[l] == Without(s.lists[l], x)
  }

  lemma OffShorter(s: System, t: Tid, l: ListId)
    requires t in s.tcb && l in s.lists
    ensures l in Off(s, t).lists && Shorter(s, Off(s, t), l, t)
    ensures forall k :: k in s.lists ==> k in Off(s, t).lists
  {
    hide Without;
  }

  lemma RemoveShorter(s: System, t: Tid, l: ListId)
    requires t in s.tcb && Row(s, t) in s.lists && l in s.lists
    ensures l in RemoveThread(s, t).lists && Shorter(s, RemoveThread(s, t), l, t)
  {
    hide Off;
    OffShorter(s, t, l);
    OffShorter(s, t, Row(s, t));
  }

  lemma GoneShorter(s: System, c: Caller, w: nat)
    requires Shaped(s) && Enabled(s, Go(c)) && WaitList(w) in s.lists
    ensures WaitList(w) in Gone(s, c).lists && Shorter(s, Gone(s, c), WaitList(w), s.local[c].t)
  {
    hide PutAt, Off, RemoveThread, Without, Shaped;
    var t := s.local[c].t;
    InHand(s, c);
    ShapeOf(s, t);
    OffShorter(s, t, WaitList(w));
    RemoveShorter(s, t, WaitList(w));
    RemoveShorter(SetStat(s, t, Suspended), t, WaitList(w));
  }

  lemma WokeShorter(s: System, t: Tid, w: nat)
    requires t in s.tcb && Row(s, t) in s.lists && WaitList(w) in s.lists
    ensures WaitList(w) in Woke(s, t).lists && Shorter(s, Woke(s, t), WaitList(w), t)
  {
    hide PutAt, Off, Without;
    OffShorter(s, t, WaitList(w));
    OffShorter(s, t, Row(s, t));
    OffRow(s, t);
  }

  lemma OffRow(s: System, t: Tid)
    requires t in s.tcb
    ensures t in Off(s, t).tcb && Row(Off(s, t), t) == Row(s, t)
  {
  }

  lemma OtherShorter(s: System, e: Step, w: nat)
    requires Good(s) && Enabled(s, e) && WaitList(w) in s.lists && !e.Begin? && !e.Go? && !(e.Block? && e.w == w)
    ensures WaitList(w) in Apply(s, e).lists && exists x :: Shorter(s, Apply(s, e), WaitList(w), x)
  {
    hide PutAt, Off, RemoveThread, Without, Hung, MarksExact, Placed, Woke;
    var l, r := WaitList(w), Apply(s, e);
    match e
    case Block(t, _, timed) =>
      RemoveShorter(SetStat(s, t, Suspended), t, l);
      assert Shorter(s, r, l, t);
    case Sleep(t) =>
      RemoveShorter(SetStat(s, t, Suspended), t, l);
      assert Shorter(s, r, l, t);
    case Exit(t, _) =>
      RemoveShorter(s, t, l);
      assert Shorter(s, r, l, t);
    case Yield(t) =>
      OffShorter(s, t, l);
      assert Shorter(s, r, l, t);
    case Wake(v) =>
      HeadWaits(s, v);
      WokeShorter(s, s.lists[WaitList(v)][0], w);
      assert Shorter(s, r, l, s.lists[WaitList(v)][0]);
    case Timeout(t) =>
      ShapeOf(s, t);
      WokeShorter(s, t, w);
      assert Shorter(s, r, l, t);
    case SetPriority(t, p) =>
      RemoveShorter(s, t, l);
      assert Shorter(s, r, l, t);
    case Reap =>
      OffShorter(s, s.lists[Defunct][0], l);
      assert Shorter(s, r, l, s.lists[Defunct][0]);
  }

  /** The thread a step gives a priority, and which. */
  predicate Prioritizes(s: System, e: Step, t: Tid, p: nat)
    requires Shaped(s) && Enabled(s, e)
  {
    match e
    case SetPriority(u, x) => t == u && p == x
    case Go(c) => s.local[c] == Starting(t) && p == s.first[t]
    case _ => false
  }

  ghost predicate SamePrio(s: System, r: System, t: Tid) {
    t in s.tcb ==> t in r.tcb && r.tcb[t].prio == s.tcb[t].prio
  }

  lemma PriosAfterGo(s: System, c: Caller, y: Tid)
    requires Good(s) && Enabled(s, Go(c)) && forall p: nat :: !Prioritizes(s, Go(c), y, p)
    ensures SamePrio(s, Gone(s, c), y)
  {
    hide PutAt, Unhung, Hung, MarksExact, Placed;
    InHand(s, c);
    ShapeOf(s, s.local[c].t);
    assert s.local[c].Starting? ==> Prioritizes(s, Go(c), s.local[c].t, s.first[s.local[c].t]);
  }

  lemma PriosAfter(s: System, e: Step, y: Tid)
    requires Good(s) && Enabled(s, e) && forall p: nat :: !Prioritizes(s, e, y, p)
    ensures SamePrio(s, Apply(s, e), y)
  {
    hide PutAt, Unhung, Hung, MarksExact, Placed, Gone;
    match e
    case Go(c) => PriosAfterGo(s, c, y);
    case SetPriority(t, p) => assert Prioritizes(s, e, t, p);
    case Wake(w) => HeadWaits(s, w);
    case _ =>
  }

  lemma PrioSet(s: System, e: Step, t: Tid, p: nat)
    requires Good(s) && Enabled(s, e) && Prioritizes(s, e, t, p)
    ensures t in s.tcb && t in Apply(s, e).tcb && Apply(s, e).tcb[t].prio == p
    ensures s.tcb[t].stat != Ready ==>
              Apply(s, e).lists == s.lists && Apply(s, e).tcb == s.tcb[t := s.tcb[t].(prio := p)]
  {
    hide PutAt, Unhung, Hung, MarksExact, Placed;
    if e.Go? {
      InHand(s, e.c);
      ShapeOf(s, t);
    } else {
      ShapeOf(s, t);
    }
  }

  /** The step leaves list w in order: it gives no thread there a priority past a neighbour's. */
  ghost predicate Orderly(s: System, e: Step, w: nat)
    requires Shaped(s) && Enabled(s, e) && WaitList(w) in s.lists
  {
    var q := s.lists[WaitList(w)];
    forall i: nat, p: nat :: i < |q| && Prioritizes(s, e, q[i], p) ==> Suits(q, s.tcb, i, p)
  }

  lemma WaitersWait(s: System, w: nat)
    requires Good(s) && WaitList(w) in s.lists
    ensures Distinct(s.lists[WaitList(w)])
    ensures forall y :: y in s.lists[WaitList(w)] ==> y in s.tcb && s.tcb[y].stat == Suspended
  {
    forall y | y in s.lists[WaitList(w)]
      ensures y in s.tcb && s.tcb[y].stat == Suspended
    {
      assert Placed(s, y);
    }
  }

  lemma ChangeIff(s: System, e: Step, w: nat, i: nat, p: nat)
    requires Good(s) && Enabled(s, e) && Sorted(s, w) && i < |s.lists[WaitList(w)]|
    requires Prioritizes(s, e, s.lists[WaitList(w)][i], p)
    ensures Sorted(Apply(s, e), w) <==> Orderly(s, e, w)
  {
    hide Hung, MarksExact, Placed, Apply, Ascending, Suits, Shaped;
    var q := s.lists[WaitList(w)];
    WaitersWait(s, w);
    assert q[i] in q;
    PrioSet(s, e, q[i], p);
    ChangeAscendingIff(q, s.tcb, i, p);
    OneChange(s, e, q, i, p);
  }

  lemma OneChange(s: System, e: Step, q: seq<Tid>, i: nat, p: nat)
    requires Shaped(s) && Enabled(s, e) && Distinct(q) && i < |q| && Prioritizes(s, e, q[i], p)
    ensures forall j: nat, x: nat :: j < |q| && Prioritizes(s, e, q[j], x) ==> j == i && x == p
  {
  }

  /** Waiting for list w puts the thread in its place. */
  lemma BlockSorts(s: System, t: Tid, w: nat, timed: bool)
    requires Good(s) && Enabled(s, Block(t, w, timed)) && w in s.byPriority && Sorted(s, w)
    ensures Sorted(Apply(s, Block(t, w, timed)), w)
  {
    hide Hung, MarksExact, Placed, Ascending, PutAt, Place, RemoveThread;
    ShapeOf(s, t);
    Aside(s, t);
    SuspendedKeeps(s, t, timed);
    var m, q := Stopped(s, t, timed), s.lists[WaitList(w)];
    StoppedList(s, t, timed, w);
    SameAscending(q, s.tcb, m.tcb);
    PutAscending(q, m.tcb, t);
    var r := Apply(s, Block(t, w, timed));
    SameAscending(r.lists[WaitList(w)], m.tcb, r.tcb);
  }

  lemma StoppedList(s: System, t: Tid, timed: bool, w: nat)
    requires Running(s, t) && Row(s, t) in s.lists && WaitList(w) in s.lists
    ensures var m := Stopped(s, t, timed);
            && WaitList(w) in m.lists && m.lists[WaitList(w)] == s.lists[WaitList(w)] && m.byPriority == s.byPriority
            && t in m.tcb && m.tcb[t].prio == s.tcb[t].prio
            && forall y :: y in s.tcb ==> y in m.tcb && m.tcb[y].prio == s.tcb[y].prio
  {
    hide Without;
  }

  lemma ShorterSorted(s: System, r: System, w: nat, x: Tid)
    requires Sorted(s, w) && WaitList(w) in r.lists && Shorter(s, r, WaitList(w), x)
    requires forall y :: y in s.lists[WaitList(w)] ==> SamePrio(s, r, y)
    ensures Sorted(r, w)
  {
    hide Ascending;
    var q := s.lists[WaitList(w)];
    SameAscending(q, s.tcb, r.tcb);
    WithoutAscending(q, r.tcb, x);
  }

  /** In a state in order, a step leaves a sorted wait list of a priority-mode object sorted exactly when it gives
      no thread of that list a priority past a neighbour's. */
  lemma StepSortedIff(s: System, e: Step, w: nat)
    requires Good(s) && Enabled(s, e) && w in s.byPriority && Sorted(s, w)
    ensures Sorted(Apply(s, e), w) <==> Orderly(s, e, w)
  {
    hide Hung, MarksExact, Placed, Shaped, Ascending, Suits, Apply;
    var q := s.lists[WaitList(w)];
    if i: nat, p: nat :| i < |q| && Prioritizes(s, e, q[i], p) {
      ChangeIff(s, e, w, i, p);
    } else if e.Block? && e.w == w {
      BlockSorts(s, e.t, w, e.timed);
    } else {
      Undisturbed(s, e, w);
    }
  }

  lemma Undisturbed(s: System, e: Step, w: nat)
    requires Good(s) && Enabled(s, e) && Sorted(s, w) && !(e.Block? && e.w == w)
    requires forall i: nat, p: nat :: i < |s.lists[WaitList(w)]| ==> !Prioritizes(s, e, s.lists[WaitList(w)][i], p)
    ensures Sorted(Apply(s, e), w) && Orderly(s, e, w)
  {
    hide Hung, MarksExact, Placed, Shaped, Ascending, Suits, Apply;
    var q, r := s.lists[WaitList(w)], Apply(s, e);
    forall y | y in q
      ensures SamePrio(s, r, y)
    {
      var i :| 0 <= i < |q| && q[i] == y;
      PriosAfter(s, e, y);
    }
    var x := Leaves(s, e, w);
    ShorterSorted(s, r, w, x);
  }

  lemma Leaves(s: System, e: Step, w: nat) returns (x: Tid)
    requires Good(s) && Enabled(s, e) && WaitList(w) in s.lists && !(e.Block? && e.w == w)
    ensures WaitList(w) in Apply(s, e).lists && Shorter(s, Apply(s, e), WaitList(w), x)
  {
    hide Hung, MarksExact, Placed;
    if e.Go? {
      GoneShorter(s, e.c, w);
      x := s.local[e.c].t;
    } else if e.Begin? {
      x := 0;
    } else {
      OtherShorter(s, e, w);
      x :| Shorter(s, Apply(s, e), WaitList(w), x);
    }
  }

  // ---------------------------------------------------------------- runs

  ghost predicate AllSorted(trace: seq<System>, w: nat) {
    forall k :: 0 <= k < |trace| ==> Sorted(trace[k], w)
  }

  ghost predicate OrderlyAt(s: System, e: Step, w: nat) {
    Shaped(s) && Enabled(s, e) && WaitList(w) in s.lists && Orderly(s, e, w)
  }

  ghost predicate AllOrderly(trace: seq<System>, steps: seq<Step>, w: nat)
    requires |trace| == |steps| + 1
  {
    forall k :: 0 <= k < |steps| ==> OrderlyAt(trace[k], steps[k], w)
  }

  lemma SameModes(s: System, e: Step)
    requires Shaped(s) && Enabled(s, e)
    ensures Apply(s, e).byPriority == s.byPriority
  {
    hide PutAt, Without, Place;
    if e.Go? {
      InHand(s, e.c);
      ShapeOf(s, s.local[e.c].t);
    }
  }

  lemma {:induction false} SortedSoFar(trace: seq<System>, steps: seq<Step>, w: nat, k: nat)
    requires IsRun(trace, steps) && AllGood(trace) && w in trace[0].byPriority && Sorted(trace[0], w) && k <= |steps|
    ensures w in trace[k].byPriority
    ensures AllOrderly(trace, steps, w) ==> Sorted(trace[k], w)
  {
    hide Good, Sorted, Orderly, Apply;
    if k > 0 {
      SortedSoFar(trace, steps, w, k - 1);
      SameModes(trace[k - 1], steps[k - 1]);
      if AllOrderly(trace, steps, w) {
        assert OrderlyAt(trace[k - 1], steps[k - 1], w);
        StepSortedIff(trace[k - 1], steps[k - 1], w);
      }
    }
  }

  /** Over any run that leaves all in order: a wait list in priority mode stays sorted throughout exactly when no
      thread on it is ever given a priority past a neighbour's. */
  lemma RunSortedIff(trace: seq<System>, steps: seq<Step>, w: nat)
    requires IsRun(trace, steps) && AllGood(trace) && w in trace[0].byPriority && Sorted(trace[0], w)
    ensures AllSorted(trace, w) <==> AllOrderly(trace, steps, w)
  {
    hide Good, Orderly, Apply, Ascending;
    if AllSorted(trace, w) {
      forall k | 0 <= k < |steps|
        ensures OrderlyAt(trace[k], steps[k], w)
      {
        SortedSoFar(trace, steps, w, k);
        assert Sorted(trace[k], w) && Sorted(trace[k + 1], w) && Good(trace[k]);
        StepSortedIff(trace[k], steps[k], w);
      }
    }
    if AllOrderly(trace, steps, w) {
      forall k | 0 <= k < |trace|
        ensures Sorted(trace[k], w)
      {
        SortedSoFar(trace, steps, w, k);
      }
    }
  }

  /** The first waiter of a sorted list, which rt_ipc_list_resume wakes, is the best. */
  lemma WakesTheBest(s: System, w: nat)
    requires Sorted(s, w) && s.lists[WaitList(w)] != []
    ensures var q := s.lists[WaitList(w)]; forall y :: y in q ==> y in s.tcb && s.tcb[q[0]].prio <= s.tcb[y].prio
  {
    var q := s.lists[WaitList(w)];
    forall y | y in q
      ensures y in s.tcb && s.tcb[q[0]].prio <= s.tcb[y].prio
    {
      var i :| 0 <= i < |q| && q[i] == y;
    }
  }

  /** Threads 5 and 6 wait with priorities 1 and 2; 6 is given priority 0, as an owner of a mutex may be: it stays
      last, and 5 is woken first. */
  lemma PassedOver()
    ensures var s := System(map[ReadyRow(0) := [], ReadyRow(1) := [], ReadyRow(2) := [], WaitList(0) := [5, 6],
            Defunct := []],
                            {}, map[5 := Tcb(Suspended, On(WaitList(0)), 1, false),
                              6 := Tcb(Suspended, On(WaitList(0)), 2, false)],
                            map[], 3, map[5 := 1, 6 := 2], {0});
            && Shaped(s) && Sorted(s, 0) && Enabled(s, SetPriority(6, 0))
            && var r := Apply(s, SetPriority(6, 0));
               !Sorted(r, 0) && r.lists == s.lists && r.tcb[6].prio < r.tcb[5].prio
  {
    var q := [5, 6];
    assert q[0] == 5 && q[1] == 6;
  }
}
