/** When the thread calls of rt-thread/src/thread.c are safe although they let go of the interrupt lock: over
    whole runs, and call by call. */
module ThreadCalls {
  import opened RtDef
  import opened Sequences
  import opened ThreadLists
  import opened ThreadSteps

  // ---------------------------------------------------------------- calls in hand

  predicate Holds(l: Local, t: Tid) {
    l != Idle && l.t == t
  }

  /** What a call counts on when it takes its next step. */
  predicate HandOk(s: System, c: Caller)
    requires Shaped(s) && c in s.local
  {
    var l := s.local[c];
    l != Idle ==>
      var b := s.tcb[l.t];
      match l
      case Resuming(_) => b.stat == Suspended
      case Inserting(_) => b.stat == Suspended && b.link == Alone && !b.timerOn
      case Starting(_) => b.stat == Init
      case Numbered(_) => b.stat == Init
      case Started(_) => b.stat == Suspended && b.link == Alone && !b.timerOn
      case Removed(_, _) => b.link == Alone
      case Detached(_, _) => b.link == Alone && !b.timerOn
      case Closing(_) => b.stat == Closed && b.link == Alone && !b.timerOn
      case _ => true
  }

  ghost predicate HandsOk(s: System) {
    && Shaped(s)
    && (forall c :: c in s.local ==> HandOk(s, c))
    && forall c, d :: c in s.local && d in s.local && c != d && s.local[c] != Idle && s.local[d] != Idle ==>
         s.local[c].t != s.local[d].t
  }

  /** A step that takes a thread out of the hands of a call: another call on it, a timeout or a waker between the
      test and the region of rt_thread_resume, a timeout before rt_thread_delete has detached the timer, or a
      new priority for a thread that is being deleted while still READY. */
  predicate Meddles(s: System, e: Step, l: Local)
    requires Shaped(s) && Enabled(s, e)
  {
    match e
    case Begin(_, call) => Holds(l, call.t)
    case Timeout(t) => Holds(l, t) && (l.Resuming? || l.Removed?)
    case Wake(w) => Holds(l, s.lists[WaitList(w)][0]) && l.Resuming?
    case SetPriority(t, _) => Holds(l, t) && (l.Removed? || l.Detached?) && s.tcb[t].stat == Ready
    case _ => false
  }

  predicate Tame(s: System, e: Step)
    requires Shaped(s) && Enabled(s, e)
  {
    forall c :: c in s.local ==> !Meddles(s, e, s.local[c])
  }

  lemma HandIsSound(s: System, c: Caller)
    requires Good(s) && HandsOk(s) && Enabled(s, Go(c))
    ensures Sound(s, Go(c))
  {
    hide Hung, MarksExact;
    var t := s.local[c].t;
    InHand(s, c);
    assert HandOk(s, c) && Placed(s, t);
  }

  /** Calls on other threads do not notice a step that changes thread t only. */
  lemma OthersInHand(s: System, r: System, t: Tid, c: Caller)
    requires HandsOk(s) && Shaped(r) && Only(s, r, t) && c in s.local && c in r.local
             && r.local == s.local[c := r.local[c]]
    requires (s.local[c] == Idle ==> forall d :: d in s.local ==> !Holds(s.local[d], t))
             && (s.local[c] != Idle ==> s.local[c].t == t)
    requires r.local[c] == Idle || r.local[c].t == t
    requires HandOk(r, c)
    ensures HandsOk(r)
  {
    forall d | d in r.local && d != c
      ensures HandOk(r, d)
    {
      assert HandOk(s, d);
      assert !Holds(s.local[d], t);
    }
  }

  lemma OffBlock(s: System, t: Tid)
    requires t in s.tcb
    ensures Only(s, Off(s, t), t) && Off(s, t).local == s.local && Off(s, t).tcb[t] == s.tcb[t].(link := Alone)
  {
  }

  lemma RemoveBlock(s: System, t: Tid)
    requires t in s.tcb && Row(s, t) in s.lists
    ensures var r := RemoveThread(s, t);
            Only(s, r, t) && r.local == s.local && r.tcb[t] == s.tcb[t].(link := Alone)
  {
    hide Off;
    OffBlock(s, t);
  }

  lemma InsertBlock(s: System, t: Tid)
    requires t in s.tcb && Row(s, t) in s.lists
    ensures var r := InsertThread(s, t);
            Only(s, r, t) && r.local == s.local && r.tcb[t] == s.tcb[t].(stat := Ready, link := On(Row(s, t)))
  {
    hide PutAt;
  }

  lemma StoppedBlock(s: System, t: Tid, timed: bool)
    requires t in s.tcb && Row(s, t) in s.lists
    ensures var r := Stopped(s, t, timed);
            && Only(s, r, t) && r.local == s.local
            && r.tcb[t] == s.tcb[t].(stat := Suspended, link := Alone, timerOn := timed)
  {
    hide RemoveThread;
    RemoveBlock(SetStat(s, t, Suspended), t);
  }

  /** The block t has after the next step of a call on it. */
  function BlockAfter(b: Tcb, l: Local, first: nat): Tcb {
    match l
    case Resuming(_) => b.(link := Alone, timerOn := false)
    case Inserting(_) => b.(stat := Ready, link := On(ReadyRow(b.prio)))
    case Starting(_) => b.(prio := first)
    case Numbered(_) => b.(stat := Suspended)
    case Suspending(_) => b.(stat := Suspended, link := Alone, timerOn := false)
    case Removing(_, _) => b.(link := Alone)
    case Removed(_, _) => b.(timerOn := false)
    case Detached(_, _) => b.(stat := Closed)
    case Closing(_) => b.(link := On(Defunct))
    case _ => b
  }

  ghost predicate BlockMoves(s: System, c: Caller)
    requires Shaped(s) && Enabled(s, Go(c))
  {
    var r, t := Gone(s, c), s.local[c].t;
    && t in s.tcb && Only(s, r, t) && r.local == s.local[c := r.local[c]]
    && r.tcb[t] == BlockAfter(s.tcb[t], s.local[c], s.first[t])
  }

  lemma NodeMoves(s: System, c: Caller)
    requires Shaped(s) && Enabled(s, Go(c))
    requires s.local[c].Resuming? || s.local[c].Inserting? || s.local[c].Removing? || s.local[c].Closing?
    ensures BlockMoves(s, c)
  {
    hide PutAt, Off, RemoveThread, InsertThread, Shaped;
    var t := s.local[c].t;
    InHand(s, c);
    ShapeOf(s, t);
    OffBlock(s, t);
    RemoveBlock(s, t);
    InsertBlock(s, t);
  }

  lemma FieldMoves(s: System, c: Caller)
    requires Shaped(s) && Enabled(s, Go(c))
    requires !s.local[c].Resuming? && !s.local[c].Inserting? && !s.local[c].Removing? && !s.local[c].Closing?
    ensures BlockMoves(s, c)
  {
    hide Stopped, Shaped;
    var t := s.local[c].t;
    InHand(s, c);
    ShapeOf(s, t);
    StoppedBlock(s, t, false);
  }

  /** What the next step of a call does to its thread's block. */
  lemma GoneBlock(s: System, c: Caller)
    requires Shaped(s) && Enabled(s, Go(c))
    ensures BlockMoves(s, c)
  {
    hide BlockMoves;
    if s.local[c].Resuming? || s.local[c].Inserting? || s.local[c].Removing? || s.local[c].Closing? {
      NodeMoves(s, c);
    } else {
      FieldMoves(s, c);
    }
  }

  lemma GoKeepsHands(s: System, c: Caller)
    requires Good(s) && HandsOk(s) && Enabled(s, Go(c))
    ensures Good(Gone(s, c)) && HandsOk(Gone(s, c))
  {
    hide Gone, Hung, MarksExact;
    var t, r := s.local[c].t, Gone(s, c);
    HandIsSound(s, c);
    StepKeepsIff(s, Go(c));
    GoneBlock(s, c);
    GoneLocal(s, c);
    assert HandOk(s, c) && Placed(s, t);
    OthersInHand(s, r, t, c);
  }

  /** And where it leaves the call. */
  lemma GoneLocal(s: System, c: Caller)
    requires Shaped(s) && Enabled(s, Go(c))
    ensures Gone(s, c).local[c] == match s.local[c]
              case Resuming(t) => Inserting(t)
              case Starting(t) => Numbered(t)
              case Numbered(t) => Started(t)
              case Started(t) => if s.tcb[t].stat == Suspended then Resuming(t) else Idle
              case Removing(t, bury) => Removed(t, bury)
              case Removed(t, bury) => Detached(t, bury)
              case Detached(t, bury) => if bury then Closing(t) else Idle
              case _ => Idle
  {
  }

  lemma BeginKeepsHands(s: System, c: Caller, call: Call)
    requires Good(s) && HandsOk(s) && Enabled(s, Begin(c, call)) && Tame(s, Begin(c, call))
    ensures Good(Apply(s, Begin(c, call))) && HandsOk(Apply(s, Begin(c, call)))
  {
    hide Hung, MarksExact;
    var e := Begin(c, call);
    var r := Apply(s, e);
    StepKeepsIff(s, e);
    assert Placed(s, call.t);
    forall d | d in s.local
      ensures !Holds(s.local[d], call.t)
    {
      assert !Meddles(s, e, s.local[d]);
    }
    OthersInHand(s, r, call.t, c);
  }

  /** A region of some other kind that changes thread t. */
  lemma RegionKeepsHands(s: System, r: System, t: Tid)
    requires HandsOk(s) && Shaped(r) && Only(s, r, t) && t in s.tcb && r.local == s.local
    requires forall c :: c in s.local && Holds(s.local[c], t) ==> HandOk(r, c)
    ensures HandsOk(r)
  {
    forall d | d in r.local
      ensures HandOk(r, d)
    {
      assert HandOk(s, d);
    }
  }

  /** A thread that runs is in the hands of a call only where the call counts on nothing. */
  lemma RunnerUnneeded(s: System, t: Tid, c: Caller)
    requires Good(s) && HandsOk(s) && Running(s, t) && c in s.local && Holds(s.local[c], t)
    ensures s.local[c].Suspending? || s.local[c].Removing?
  {
    hide Hung, MarksExact;
    assert HandOk(s, c) && Placed(s, t);
  }

  /** The thread a step other than Begin and Go moves or marks. */
  function Target(s: System, e: Step): Tid
    requires Shaped(s) && Enabled(s, e) && !e.Begin? && !e.Go?
  {
    match e
    case Block(t, _, _) => t
    case Sleep(t) => t
    case Exit(t, _) => t
    case Yield(t) => t
    case Wake(w) => s.lists[WaitList(w)][0]
    case Timeout(t) => t
    case SetPriority(t, _) => t
    case Reap => s.lists[Defunct][0]
  }

  lemma OtherKeepsHands(s: System, e: Step)
    requires Good(s) && HandsOk(s) && Enabled(s, e) && Tame(s, e) && !e.Begin? && !e.Go?
    ensures Good(Apply(s, e)) && HandsOk(Apply(s, e))
  {
    hide Hung, MarksExact, HandOk, Apply;
    StepKeepsIff(s, e);
    var t, r := Target(s, e), Apply(s, e);
    TargetBlock(s, e);
    forall c | c in s.local && Holds(s.local[c], t)
      ensures HandOk(r, c)
    {
      OtherKeepsHand(s, e, c);
    }
    RegionKeepsHands(s, r, t);
  }

  lemma OtherKeepsHand(s: System, e: Step, c: Caller)
    requires Good(s) && HandsOk(s) && Enabled(s, e) && Tame(s, e) && !e.Begin? && !e.Go?
    requires c in s.local && Holds(s.local[c], Target(s, e)) && Shaped(Apply(s, e))
    ensures c in Apply(s, e).local && HandOk(Apply(s, e), c)
  {
    hide Hung, MarksExact, Apply, Shaped;
    var t, r := Target(s, e), Apply(s, e);
    TargetBlock(s, e);
    assert HandOk(s, c) && Placed(s, t) && !Meddles(s, e, s.local[c]);
    if Running(s, t) {
      RunnerUnneeded(s, t, c);
    }
  }

  /** What such a step does to its thread's block. */
  lemma TargetBlock(s: System, e: Step)
    requires Good(s) && Enabled(s, e) && !e.Begin? && !e.Go?
    ensures var t, r := Target(s, e), Apply(s, e);
            && t in s.tcb && Only(s, r, t) && r.local == s.local
            && (e.Block? || e.Sleep? || e.Exit? || e.Yield? ==> Running(s, t))
            && (e.Wake? ==> s.tcb[t].stat == Suspended && s.tcb[t].link == On(WaitList(e.w)))
            && (e.Timeout? ==> s.tcb[t].stat == Suspended && s.tcb[t].timerOn)
            && (e.SetPriority? && s.tcb[t].stat != Ready ==> r.tcb[t] == s.tcb[t].(prio := e.p))
            && (e.Reap? ==>
                 s.tcb[t].stat == Closed && s.tcb[t].link == On(Defunct) && r.tcb[t] == s.tcb[t].(link := Alone))
            && (e.Wake? || e.Timeout? ==> r.tcb[t] == Tcb(Ready, On(Row(s, t)), s.tcb[t].prio, false))
            && (e.Sleep? ==> r.tcb[t] == Tcb(Suspended, Alone, s.tcb[t].prio, true))
  {
    hide Hung, MarksExact, Placed, Distinct;
    match e
    case Block(t, w, timed) => BlockedKeeps(s, t, w, timed);
    case Sleep(t) => SleptKeeps(s, t);
    case Exit(t, bury) => ExitedKeeps(s, t, bury);
    case Yield(t) => YieldedKeeps(s, t); YieldedBlock(s, t);
    case Wake(w) => HeadWaits(s, w); WokeKeeps(s, s.lists[WaitList(w)][0]);
    case Timeout(t) => TimerWaits(s, t); WokeKeeps(s, t);
    case SetPriority(t, p) => PrioritizedKeeps(s, t, p);
    case Reap => ReapKeeps(s);
  }

  lemma YieldedBlock(s: System, t: Tid)
    requires t in s.tcb && Row(s, t) in s.lists
    ensures Yielded(s, t).lists.Keys == s.lists.Keys && Yielded(s, t).first == s.first && Yielded(s, t).max == s.max
    ensures Yielded(s, t).byPriority == s.byPriority
  {
  }

  /** As long as no step meddles with a thread in the hands of a call, every step is sound. */
  lemma TameKeeps(s: System, e: Step)
    requires Good(s) && HandsOk(s) && Enabled(s, e) && Tame(s, e)
    ensures Sound(s, e) && Good(Apply(s, e)) && HandsOk(Apply(s, e))
  {
    hide Good, HandsOk, Tame;
    match e
    case Go(c) => HandIsSound(s, c); GoKeepsHands(s, c);
    case Begin(c, call) => BeginKeepsHands(s, c, call);
    case _ => OtherKeepsHands(s, e);
  }

  predicate TameAt(s: System, e: Step) {
    Shaped(s) && Enabled(s, e) && Tame(s, e)
  }

  /** Over any run in which no step meddles with a thread in the hands of a call, the lists, the marks and the
      states are in order after every step, for every number of callers in any interleaving. */
  lemma {:induction false} RunKeeps(trace: seq<System>, steps: seq<Step>, k: nat)
    requires IsRun(trace, steps) && Good(trace[0]) && HandsOk(trace[0]) && k <= |steps|
    requires forall i :: 0 <= i < |steps| ==> TameAt(trace[i], steps[i])
    ensures Good(trace[k]) && HandsOk(trace[k])
  {
    hide Good, HandsOk, Tame;
    if k > 0 {
      RunKeeps(trace, steps, k - 1);
      assert TameAt(trace[k - 1], steps[k - 1]);
      TameKeeps(trace[k - 1], steps[k - 1]);
    }
  }

  // ---------------------------------------------------------------- one call

  /** Nobody else has t in hand. */
  ghost predicate Sole(s: System, c: Caller, t: Tid) {
    forall d :: d in s.local && d != c ==> !Holds(s.local[d], t)
  }

  /** A sound step that is no further call on t: all the others, ticks and wakers included, may come. */
  predicate Quiet(s: System, e: Step, t: Tid) {
    && Shaped(s) && Enabled(s, e) && Sound(s, e)
    && !(e.Begin? && e.call.t == t) && !(e.SetPriority? && e.t == t)
  }

  ghost predicate ReachesIn(s: System, r: System, t: Tid, n: nat)
    decreases n
  {
    if n == 0 then r == s else exists e, m :: StepsTo(s, e, m, t) && ReachesIn(m, r, t, n - 1)
  }

  predicate StepsTo(s: System, e: Step, m: System, t: Tid) {
    Quiet(s, e, t) && m == Apply(s, e)
  }

  /** However things go on, the call finds its thread as it needs it until it has finished with it. */
  ghost predicate SafeAhead(s: System, c: Caller, t: Tid) {
    forall r, n: nat :: ReachesIn(s, r, t, n) && c in r.local && Holds(r.local[c], t) ==> SoundAt(r, Go(c))
  }

  /** No tick, no waker and no dispatcher can get at the thread. */
  predicate OutOfReach(s: System, t: Tid)
    requires t in s.tcb
  {
    !s.tcb[t].timerOn && (s.tcb[t].link == Alone || s.tcb[t].link == On(Defunct))
  }

  /** The call may go on: it suspends, or its thread stays where it is. */
  ghost predicate Parked(s: System, c: Caller, t: Tid) {
    && Shaped(s) && c in s.local && t in s.tcb
    && (Holds(s.local[c], t) && !s.local[c].Suspending? ==> HandOk(s, c) && OutOfReach(s, t))
  }

  lemma ParkedIsSound(s: System, c: Caller, t: Tid)
    requires Good(s) && Parked(s, c, t) && Holds(s.local[c], t)
    ensures SoundAt(s, Go(c))
  {
    hide Hung, MarksExact;
    assert Placed(s, t);
  }

  lemma ParkedGo(s: System, d: Caller, c: Caller, t: Tid)
    requires Good(s) && Parked(s, c, t) && Sole(s, c, t) && Quiet(s, Go(d), t)
    ensures var r := Gone(s, d); Good(r) && Parked(r, c, t) && Sole(r, c, t)
  {
    hide Hung, MarksExact, Sound, Gone, HandOk, Placed;
    StepKeepsIff(s, Go(d));
    InHand(s, d);
    GoneBlock(s, d);
    GoneLocal(s, d);
    if s.local[d].t == t {
      ParkedOwn(s, d, c, t);
    } else if c != d {
      SameHand(s, Gone(s, d), c, t);
    }
  }

  /** Its own next step leaves the thread where nobody can get at it. */
  lemma ParkedOwn(s: System, d: Caller, c: Caller, t: Tid)
    requires Good(s) && Parked(s, c, t) && Sole(s, c, t) && Quiet(s, Go(d), t) && s.local[d].t == t && Good(Gone(s, d))
    ensures Parked(Gone(s, d), c, t) && Sole(Gone(s, d), c, t)
  {
    hide Hung, MarksExact, Sound, Gone;
    InHand(s, d);
    GoneBlock(s, d);
    GoneLocal(s, d);
    assert d == c && Placed(s, t);
  }

  lemma SameHand(s: System, r: System, c: Caller, t: Tid)
    requires Shaped(s) && Shaped(r) && c in s.local && c in r.local && r.local[c] == s.local[c] && t in s.tcb
             && t in r.tcb
    requires r.tcb[t] == s.tcb[t]
    ensures Holds(s.local[c], t) ==> (HandOk(r, c) <==> HandOk(s, c))
  {
  }

  lemma ParkedOther(s: System, e: Step, c: Caller, t: Tid)
    requires Good(s) && Parked(s, c, t) && Sole(s, c, t) && Quiet(s, e, t) && !e.Begin? && !e.Go?
    ensures var r := Apply(s, e); Good(r) && Parked(r, c, t) && Sole(r, c, t)
  {
    hide Hung, MarksExact, Sound;
    StepKeepsIff(s, e);
    assert Placed(s, t);
    TargetBlock(s, e);
  }

  lemma ParkedStays(s: System, e: Step, c: Caller, t: Tid)
    requires Good(s) && Parked(s, c, t) && Sole(s, c, t) && Quiet(s, e, t)
    ensures var r := Apply(s, e); Good(r) && Parked(r, c, t) && Sole(r, c, t)
  {
    if e.Go? {
      ParkedGo(s, e.c, c, t);
    } else if e.Begin? {
      hide Hung, MarksExact;
      StepKeepsIff(s, e);
    } else {
      ParkedOther(s, e, c, t);
    }
  }

  lemma ParkedMoves(s: System, e: Step, m: System, c: Caller, t: Tid)
    requires Good(s) && Parked(s, c, t) && Sole(s, c, t) && StepsTo(s, e, m, t)
    ensures Good(m) && Parked(m, c, t) && Sole(m, c, t)
  {
    hide Good, Parked, Sole;
    ParkedStays(s, e, c, t);
  }

  lemma {:induction false} ParkedAhead(s: System, c: Caller, t: Tid, r: System, n: nat)
    requires Good(s) && Parked(s, c, t) && Sole(s, c, t) && ReachesIn(s, r, t, n)
    ensures Good(r) && Parked(r, c, t)
    decreases n
  {
    hide Good, Parked, Sole, StepsTo;
    if n > 0 {
      var e, m :| StepsTo(s, e, m, t) && ReachesIn(m, r, t, n - 1);
      ParkedMoves(s, e, m, c, t);
      ParkedAhead(m, c, t, r, n - 1);
    }
  }

  // ---------------------------------------------------------------- how a call fails

  lemma Earlier(s: System, e: Step, r: System, t: Tid, n: nat)
    requires Quiet(s, e, t) && ReachesIn(Apply(s, e), r, t, n)
    ensures ReachesIn(s, r, t, n + 1)
  {
    hide Sound;
    assert StepsTo(s, e, Apply(s, e), t);
  }

  lemma {:induction false} Onwards(s: System, m: System, r: System, t: Tid, a: nat, b: nat)
    requires ReachesIn(s, m, t, a) && ReachesIn(m, r, t, b)
    ensures ReachesIn(s, r, t, a + b)
    decreases a
  {
    hide StepsTo;
    if a > 0 {
      var e, k :| StepsTo(s, e, k, t) && ReachesIn(k, m, t, a - 1);
      Onwards(k, m, r, t, a - 1, b);
    }
  }

  /** Wakers of its wait list get to the thread in the end. */
  lemma {:induction false} Arouse(s: System, t: Tid, w: nat) returns (r: System, n: nat)
    requires Good(s) && t in s.tcb && s.tcb[t].link == On(WaitList(w)) && WaitList(w) in s.lists
    ensures ReachesIn(s, r, t, n) && Good(r) && Running(r, t) && r.local == s.local
    decreases |s.lists[WaitList(w)]|
  {
    hide Good, Shaped, ReachesIn;
    WaitsThere(s, t, w);
    var h := s.lists[WaitList(w)][0];
    HeadWaits(s, w);
    WokeKeeps(s, h);
    var m := Woke(s, h);
    if h == t {
      r, n := m, 0;
      Nowhere(r, t);
    } else {
      WokeShortens(s, h, w);
      r, n := Arouse(m, t, w);
    }
    MayWake(s, w, t);
    Earlier(s, Wake(w), r, t, n);
    n := n + 1;
  }

  lemma WaitsThere(s: System, t: Tid, w: nat)
    requires Good(s) && t in s.tcb && s.tcb[t].link == On(WaitList(w)) && WaitList(w) in s.lists
    ensures s.lists[WaitList(w)] != []
  {
    assert t in s.lists[WaitList(w)];
  }

  lemma MayWake(s: System, w: nat, t: Tid)
    requires Good(s) && WaitList(w) in s.lists && s.lists[WaitList(w)] != []
    ensures s.lists[WaitList(w)][0] in s.tcb && Row(s, s.lists[WaitList(w)][0]) in s.lists
    ensures Quiet(s, Wake(w), t) && Apply(s, Wake(w)) == Woke(s, s.lists[WaitList(w)][0])
  {
    HeadWaits(s, w);
  }

  lemma Nowhere(s: System, t: Tid)
    ensures ReachesIn(s, s, t, 0)
  {
  }

  lemma WokeShortens(s: System, h: Tid, w: nat)
    requires Good(s) && h in s.tcb && s.tcb[h].link == On(WaitList(w)) && WaitList(w) in s.lists && Row(s, h) in s.lists
    ensures var r := Woke(s, h); WaitList(w) in r.lists && |r.lists[WaitList(w)]| == |s.lists[WaitList(w)]| - 1
  {
    hide MarksExact;
    OffHung(s, h);
  }

  /** The other threads of its queue may go to sleep, until it is alone there. */
  lemma {:induction false} Drain(s: System, t: Tid) returns (r: System, n: nat)
    requires Good(s) && Running(s, t) && Row(s, t) in s.lists
    ensures ReachesIn(s, r, t, n) && Good(r) && Running(r, t) && r.local == s.local && Row(r, t) in r.lists
    ensures r.tcb[t] == s.tcb[t] && r.lists[Row(r, t)] == [t]
    decreases |s.lists[Row(s, t)]|
  {
    hide Good, Shaped, ReachesIn;
    var q := s.lists[Row(s, t)];
    if forall i :: 0 <= i < |q| ==> q[i] == t {
      OnlyOne(s, t);
      r, n := s, 0;
      Nowhere(s, t);
    } else {
      var i :| 0 <= i < |q| && q[i] != t;
      var u := q[i];
      InRow(s, t, u);
      SleptKeeps(s, u);
      SleptShortens(s, u);
      var m := Stopped(s, u, true);
      StillRuns(s, m, t, u);
      r, n := Drain(m, t);
      MaySleep(s, u, t);
      Earlier(s, Sleep(u), r, t, n);
      n := n + 1;
    }
  }

  lemma StillRuns(s: System, m: System, t: Tid, u: Tid)
    requires Running(s, t) && Only(s, m, u) && t != u && Row(s, t) in s.lists
    ensures Running(m, t) && m.tcb[t] == s.tcb[t] && Row(m, t) == Row(s, t) && Row(m, t) in m.lists
  {
  }

  lemma MaySleep(s: System, u: Tid, t: Tid)
    requires Good(s) && Running(s, u)
    ensures Quiet(s, Sleep(u), t) && Apply(s, Sleep(u)) == Stopped(s, u, true)
  {
  }

  lemma InRow(s: System, t: Tid, u: Tid)
    requires Good(s) && t in s.tcb && Row(s, t) in s.lists && u in s.lists[Row(s, t)]
    ensures Running(s, u) && Row(s, u) == Row(s, t)
  {
    assert Placed(s, u);
  }

  lemma OnlyOne(s: System, t: Tid)
    requires Good(s) && Running(s, t) && Row(s, t) in s.lists
    requires forall i :: 0 <= i < |s.lists[Row(s, t)]| ==> s.lists[Row(s, t)][i] == t
    ensures s.lists[Row(s, t)] == [t]
  {
    var q := s.lists[Row(s, t)];
    assert Distinct(q) && t in q;
    assert Elems(q) == {t};
    ElemsSize(q);
  }

  lemma SleptShortens(s: System, u: Tid)
    requires Good(s) && Running(s, u) && Row(s, u) in s.lists
    ensures var r := Stopped(s, u, true); Row(s, u) in r.lists && |r.lists[Row(s, u)]| == |s.lists[Row(s, u)]| - 1
  {
    hide MarksExact;
    OffHung(SetStat(s, u, Suspended), u);
  }

  /** A timeout between the first region of rt_thread_delete and the one that detaches the timer. */
  lemma RemovedFails(s: System, c: Caller, t: Tid) returns (r: System, n: nat)
    requires Good(s) && c in s.local && s.local[c].Removed? && s.local[c].t == t && t in s.tcb && s.tcb[t].timerOn
    ensures ReachesIn(s, r, t, n) && c in r.local && Holds(r.local[c], t) && !SoundAt(r, Go(c))
  {
    hide Good, ReachesIn, Shaped, Gone;
    var m := TimesOut(s, t);
    GoodShape(m, t);
    AlwaysSound(m, c);
    GoOn(m, c, t);
    GoneLocal(m, c);
    r := Gone(m, c);
    Nowhere(r, t);
    Earlier(m, Go(c), r, t, 0);
    Earlier(s, Timeout(t), r, t, 1);
    n := 2;
  }

  lemma TimesOut(s: System, t: Tid) returns (m: System)
    requires Good(s) && t in s.tcb && s.tcb[t].timerOn
    ensures Good(m) && m.local == s.local && Running(m, t)
    ensures Quiet(s, Timeout(t), t) && Apply(s, Timeout(t)) == m
  {
    hide Hung, MarksExact, Placed;
    TimerWaits(s, t);
    ShapeOf(s, t);
    WokeKeeps(s, t);
    m := Woke(s, t);
  }

  lemma AlwaysSound(s: System, c: Caller)
    requires Shaped(s) && Enabled(s, Go(c)) && (s.local[c].Removing? || s.local[c].Removed?)
    ensures Sound(s, Go(c))
  {
  }

  /** A timeout or a waker between the test and the first region of rt_thread_resume. */
  lemma ResumingFails(s: System, c: Caller, t: Tid) returns (r: System, n: nat)
    requires Good(s) && c in s.local && s.local[c] == Resuming(t) && t in s.tcb && s.tcb[t].stat == Suspended
    requires s.tcb[t].timerOn || s.tcb[t].link != Alone
    ensures ReachesIn(s, r, t, n) && c in r.local && Holds(r.local[c], t) && !SoundAt(r, Go(c))
  {
    hide Good, Shaped, ReachesIn;
    var m, a := ToReady(s, t);
    var b: nat;
    GoodShape(m, t);
    r, b := Drain(m, t);
    Onwards(s, m, r, t, a, b);
    n := a + b;
  }

  lemma GoodShape(s: System, t: Tid)
    requires Good(s) && t in s.tcb
    ensures Shaped(s) && Row(s, t) in s.lists
  {
  }

  lemma ToReady(s: System, t: Tid) returns (m: System, n: nat)
    requires Good(s) && t in s.tcb && s.tcb[t].stat == Suspended && (s.tcb[t].timerOn || s.tcb[t].link != Alone)
    ensures ReachesIn(s, m, t, n) && Good(m) && Running(m, t) && m.local == s.local
  {
    hide Good, Shaped, ReachesIn;
    GoodShape(s, t);
    if s.tcb[t].timerOn {
      WokeKeeps(s, t);
      m, n := Woke(s, t), 1;
      Nowhere(m, t);
      Earlier(s, Timeout(t), m, t, 0);
    } else {
      WaitsSomewhere(s, t);
      m, n := Arouse(s, t, s.tcb[t].link.l.w);
    }
  }

  lemma WaitsSomewhere(s: System, t: Tid)
    requires Good(s) && t in s.tcb && s.tcb[t].stat == Suspended && s.tcb[t].link != Alone
    ensures s.tcb[t].link.l.WaitList? && s.tcb[t].link.l in s.lists
  {
    assert Placed(s, t);
  }

  /** The thread to be deleted can still run, and wait with a timer. */
  lemma ToTimed(s: System, c: Caller, t: Tid) returns (m: System, n: nat)
    requires Good(s) && c in s.local && s.local[c].Removing? && s.local[c].t == t && t in s.tcb && Sole(s, c, t)
    requires !OutOfReach(s, t)
    ensures ReachesIn(s, m, t, n) && Good(m) && m.local == s.local && t in m.tcb && m.tcb[t].timerOn
  {
    hide Hung, MarksExact, ReachesIn, Placed;
    Nowhere(s, t);
    if s.tcb[t].timerOn {
      return s, 0;
    }
    ToTimer(s, c, t);
    var k, a := s, 0;
    if s.tcb[t].link.l.WaitList? {
      k, a := Arouse(s, t, s.tcb[t].link.l.w);
    }
    m := Slept(k, t);
    Onwards(s, k, m, t, a, 1);
    n := a + 1;
  }

  lemma Slept(s: System, t: Tid) returns (m: System)
    requires Good(s) && Running(s, t)
    ensures ReachesIn(s, m, t, 1) && Good(m) && m.local == s.local && t in m.tcb && m.tcb[t].timerOn
  {
    hide Hung, MarksExact, ReachesIn, Placed;
    ShapeOf(s, t);
    SleptKeeps(s, t);
    m := Stopped(s, t, true);
    Nowhere(m, t);
    MaySleep(s, t, t);
    Earlier(s, Sleep(t), m, t, 0);
  }

  /** And then time out once the first region has taken it off its list. */
  lemma RemovingFails(s: System, c: Caller, t: Tid) returns (r: System, n: nat)
    requires Good(s) && c in s.local && s.local[c].Removing? && s.local[c].t == t && t in s.tcb && Sole(s, c, t)
    requires !OutOfReach(s, t)
    ensures ReachesIn(s, r, t, n) && c in r.local && Holds(r.local[c], t) && !SoundAt(r, Go(c))
  {
    hide Hung, MarksExact, ReachesIn, Placed, Gone, Sole, OutOfReach;
    var m, a := ToTimed(s, c, t);
    StepKeepsIff(m, Go(c));
    GoneBlock(m, c);
    GoneLocal(m, c);
    var d: nat;
    r, d := RemovedFails(Gone(m, c), c, t);
    Earlier(m, Go(c), r, t, d);
    Onwards(s, m, r, t, a, d + 1);
    n := a + d + 1;
  }

  /** With no timer on it, it is on its ready queue or on a wait list. */
  lemma ToTimer(s: System, c: Caller, t: Tid)
    requires Good(s) && c in s.local && s.local[c].Removing? && s.local[c].t == t && t in s.tcb && Sole(s, c, t)
    requires !OutOfReach(s, t) && !s.tcb[t].timerOn
    ensures s.tcb[t].link.On? && s.tcb[t].link.l in s.lists
    ensures s.tcb[t].link.l.WaitList? || Running(s, t)
  {
    assert Placed(s, t);
  }

  /** A call that counts on its thread t and alone has it in hand is safe, whatever ticks, wakers, other threads
      and other calls do, exactly when it suspends t, or no tick, waker or dispatcher can get at t: its timer is
      off, and it hangs on no ready queue and no wait list. For rt_thread_delete after its first region that is:
      the timer is not running. */
  lemma CallIsSafeIff(s: System, c: Caller, t: Tid)
    requires Good(s) && c in s.local && Holds(s.local[c], t) && HandOk(s, c) && Sole(s, c, t) && t in s.tcb
    ensures SafeAhead(s, c, t) <==> s.local[c].Suspending? || OutOfReach(s, t)
  {
    hide Hung, MarksExact, ReachesIn, Sound, Placed;
    if s.local[c].Suspending? || OutOfReach(s, t) {
      forall r, n: nat | ReachesIn(s, r, t, n) && c in r.local && Holds(r.local[c], t)
        ensures SoundAt(r, Go(c))
      {
        ParkedAhead(s, c, t, r, n);
        ParkedIsSound(r, c, t);
      }
    } else {
      var r: System, n: nat;
      OnlyThree(s, c, t);
      match s.local[c]
      case Resuming(_) => r, n := ResumingFails(s, c, t);
      case Removing(_, _) => r, n := RemovingFails(s, c, t);
      case Removed(_, _) => r, n := RemovedFails(s, c, t);
    }
  }

  lemma OnlyThree(s: System, c: Caller, t: Tid)
    requires Good(s) && c in s.local && Holds(s.local[c], t) && HandOk(s, c) && t in s.tcb
    requires !s.local[c].Suspending? && !OutOfReach(s, t)
    ensures s.local[c].Resuming? || s.local[c].Removing? || s.local[c].Removed?
    ensures s.local[c].Removed? ==> s.tcb[t].timerOn
    ensures s.local[c].Resuming? ==> s.tcb[t].timerOn || s.tcb[t].link != Alone
  {
    assert Placed(s, t);
  }

  lemma GoOn(s: System, c: Caller, t: Tid)
    requires Good(s) && Enabled(s, Go(c)) && Sound(s, Go(c))
    ensures Good(Gone(s, c)) && Shaped(Gone(s, c)) && Quiet(s, Go(c), t) && Apply(s, Go(c)) == Gone(s, c)
    ensures s.local[c].t in s.tcb && s.local[c].t in s.first && BlockMoves(s, c)
    ensures Gone(s, c).local == s.local[c := Gone(s, c).local[c]]
  {
    hide Hung, MarksExact, Placed, Sound, Gone;
    InHand(s, c);
    ShapeOf(s, s.local[c].t);
    StepKeepsIff(s, Go(c));
    GoneBlock(s, c);
  }

  /** A second rt_thread_resume of the thread, begun while the first is under way, can break it: the first call
      finds the thread alone on its ready queue, or hanging somewhere when it comes to insert it. */
  lemma SecondResumeFails(s: System, c: Caller, d: Caller, t: Tid) returns (r: System, n: nat)
    requires Good(s) && c in s.local && d in s.local && c != d && s.local[d] == Idle && HandOk(s, c)
    requires (s.local[c] == Resuming(t) || s.local[c] == Inserting(t)) && t in s.tcb
    ensures Enabled(s, Begin(d, Resume(t))) && ReachesIn(Apply(s, Begin(d, Resume(t))), r, t, n)
    ensures c in r.local && Holds(r.local[c], t) && !SoundAt(r, Go(c))
  {
    hide Hung, MarksExact, Placed, ReachesIn, Gone, Shaped;
    BegunKeeps(s, d, Resume(t));
    var a := SetLocal(s, d, Resuming(t));
    NotReady(a, t);
    GoOn(a, d, t);
    GoneLocal(a, d);
    var b := Gone(a, d);
    GoOn(b, d, t);
    GoneLocal(b, d);
    var e := Gone(b, d);
    ShapeOf(e, t);
    r, n := Drain(e, t);
    Earlier(b, Go(d), r, t, n);
    Earlier(a, Go(d), r, t, n + 1);
    n := n + 2;
  }

  lemma NotReady(s: System, t: Tid)
    requires Good(s) && t in s.tcb && s.tcb[t].stat == Suspended
    ensures s.tcb[t].link != On(Row(s, t))
  {
    assert Placed(s, t);
  }

  /** A second rt_thread_delete of the thread, begun before the first has put it on the defunct list, puts it there
      first. */
  lemma SecondDeleteFails(s: System, c: Caller, d: Caller, t: Tid) returns (r: System)
    requires Good(s) && c in s.local && d in s.local && c != d && s.local[d] == Idle && HandOk(s, c)
    requires s.local[c] == Closing(t) && t in s.tcb
    ensures Enabled(s, Begin(d, Delete(t, true))) && ReachesIn(Apply(s, Begin(d, Delete(t, true))), r, t, 4)
    ensures c in r.local && Holds(r.local[c], t) && !SoundAt(r, Go(c))
  {
    hide Hung, MarksExact, Placed, ReachesIn, Gone, Shaped;
    BegunKeeps(s, d, Delete(t, true));
    var a := SetLocal(s, d, Removing(t, true));
    GoOn(a, d, t);
    GoneLocal(a, d);
    var b := Gone(a, d);
    GoOn(b, d, t);
    GoneLocal(b, d);
    var e := Gone(b, d);
    r := BuriedBy(e, d, t);
    Earlier(b, Go(d), r, t, 2);
    Earlier(a, Go(d), r, t, 3);
  }

  lemma BuriedBy(s: System, d: Caller, t: Tid) returns (r: System)
    requires Good(s) && d in s.local && s.local[d] == Detached(t, true) && t in s.tcb && s.tcb[t].link == Alone
    requires !s.tcb[t].timerOn
    ensures ReachesIn(s, r, t, 2) && t in r.tcb && r.tcb[t].link == On(Defunct)
    ensures r.local == s.local[d := Idle]
  {
    hide Hung, MarksExact, Placed, ReachesIn, Gone, Shaped;
    GoOn(s, d, t);
    GoneLocal(s, d);
    var f := Gone(s, d);
    GoOn(f, d, t);
    GoneLocal(f, d);
    r := Gone(f, d);
    Nowhere(r, t);
    Earlier(f, Go(d), r, t, 0);
    Earlier(s, Go(d), r, t, 1);
  }

  // ---------------------------------------------------------------- whole calls, and the dispatcher

  /** Nothing in between, the regions make up the calls as class Scheduler has them. */
  lemma CallsAreRegions(s: System, c: Caller, t: Tid)
    requires Good(s) && c in s.local && t in s.tcb && Row(s, t) in s.lists && Defunct in s.lists
    ensures s.tcb[t].stat == Suspended ==>
              var r := InsertThread(SetTimer(Off(s, t), t, false), t);
              r.tcb[t].stat == Ready && r.lists == Woken(s.lists, s.tcb[t].link, t, s.tcb[t].prio)
    ensures var r := SetStat(SetTimer(RemoveThread(s, t), t, false), t, Closed);
            r.lists == Unhung(s.lists, s.tcb[t].link, t)
            && Onto(r, t, Defunct, 0).lists == r.lists[Defunct := [t] + r.lists[Defunct]]
  {
    hide Good, Without;
    var m := Off(s, t);
    var q := m.lists[Row(s, t)];
    assert PutAt(q, |q|, t) == q + [t];
    var d := Unhung(s.lists, s.tcb[t].link, t)[Defunct];
    assert PutAt(d, 0, t) == [t] + d;
  }

  /** Between any two steps the dispatcher is right: the lowest marked priority has a thread, which is READY, and
      no READY thread that is on a queue has a better one. */
  lemma DispatchIsSound(s: System, p: nat)
    requires Good(s) && p in s.marked && forall q :: q in s.marked ==> p <= q
    ensures ReadyRow(p) in s.lists && s.lists[ReadyRow(p)] != []
    ensures Running(s, s.lists[ReadyRow(p)][0]) && s.tcb[s.lists[ReadyRow(p)][0]].prio == p
    ensures forall u :: Running(s, u) ==> p <= s.tcb[u].prio
    ensures forall u :: u in s.tcb && s.tcb[u].stat == Ready && !Owed(s, u) ==> Running(s, u)
  {
    var h := s.lists[ReadyRow(p)][0];
    assert h in s.lists[ReadyRow(p)] && Placed(s, h);
    forall u | Running(s, u)
      ensures p <= s.tcb[u].prio
    {
      assert u in s.lists[Row(s, u)] && s.tcb[u].prio in s.marked;
    }
    forall u | u in s.tcb && s.tcb[u].stat == Ready && !Owed(s, u)
      ensures Running(s, u)
    {
      assert Placed(s, u);
    }
  }

  // ---------------------------------------------------------------- the two races

  /** Thread 7 has the block b; row, wait and dead are the one ready queue, the one wait list and the defunct list;
      the one caller has l to do. The threads that run meanwhile play no part. */
  function World(row: seq<Tid>, wait: seq<Tid>, dead: seq<Tid>, marked: set<nat>, b: Tcb, l: Local): System {
    System(map[ReadyRow(0) := row, WaitList(0) := wait, Defunct := dead], marked, map[7 := b], map[0 := l], 1,
           map[7 := 0], {})
  }

  /** Thread 7 waits, with a timer. */
  const WAITER: System := World([], [7], [], {}, Tcb(Suspended, On(WaitList(0)), 0, true), Idle)

  predicate Leads(s: System, e: Step, r: System) {
    Shaped(s) && Enabled(s, e) && Apply(s, e) == r
  }

  lemma WorldShaped(row: seq<Tid>, wait: seq<Tid>, dead: seq<Tid>, marked: set<nat>, b: Tcb, l: Local)
    requires b.prio == 0 && (b.link == Alone || b.link.l in {ReadyRow(0), WaitList(0), Defunct})
             && (l == Idle || l.t == 7)
    requires forall t :: t in row || t in wait || t in dead ==> t == 7
    ensures Shaped(World(row, wait, dead, marked, b, l))
  {
  }

  lemma WaiterIsGood()
    ensures Good(WAITER) && HandsOk(WAITER)
  {
    WorldShaped([], [7], [], {}, Tcb(Suspended, On(WaitList(0)), 0, true), Idle);
    hide Shaped;
    assert Placed(WAITER, 7);
  }

  lemma Removal(l: Local)
    requires l == Removing(7, true)
    ensures Leads(World([], [7], [], {}, Tcb(Suspended, On(WaitList(0)), 0, true), l), Go(0),
                  World([], [], [], {}, Tcb(Suspended, Alone, 0, true), Removed(7, true)))
  {
    hide Shaped;
    WorldShaped([], [7], [], {}, Tcb(Suspended, On(WaitList(0)), 0, true), l);
    assert Without([7], 7) == [];
  }

  lemma OffWorld(row: seq<Tid>, wait: seq<Tid>, marked: set<nat>, b: Tcb, l: Local)
    requires b.link == Alone || (b.link == On(ReadyRow(0)) && row == [7]) || (b.link == On(WaitList(0)) && wait == [7])
    ensures Off(World(row, wait, [], marked, b, l), 7)
         == World(if b.link == On(ReadyRow(0)) then [] else row, if b.link == On(WaitList(0)) then [] else wait, [],
                  marked, b.(link := Alone), l)
  {
    assert Without([7], 7) == [];
  }

  lemma InsertWorld(stat: Stat, on: bool, l: Local)
    ensures InsertThread(World([], [], [], {}, Tcb(stat, Alone, 0, on), l), 7)
         == World([7], [], [], {0}, Tcb(Ready, On(ReadyRow(0)), 0, on), l)
  {
    assert PutAt<Tid>([], 0, 7) == [7];
  }

  lemma LateTimeout(l: Local)
    requires l != Idle && l.t == 7
    ensures Leads(World([], [], [], {}, Tcb(Suspended, Alone, 0, true), l), Timeout(7),
                  World([7], [], [], {0}, Tcb(Ready, On(ReadyRow(0)), 0, false), l))
  {
    hide Shaped, Off, InsertThread;
    WorldShaped([], [], [], {}, Tcb(Suspended, Alone, 0, true), l);
    OffWorld([], [], {}, Tcb(Suspended, Alone, 0, true), l);
    var o := World([], [], [], {}, Tcb(Suspended, Alone, 0, true), l);
    assert SetTimer(o, 7, false) == World([], [], [], {}, Tcb(Suspended, Alone, 0, false), l);
    InsertWorld(Suspended, false, l);
  }

  lemma Burial()
    ensures Leads(World([7], [], [], {0}, Tcb(Closed, On(ReadyRow(0)), 0, false), Closing(7)), Go(0),
                  World([7], [], [7], {0}, Tcb(Closed, On(Defunct), 0, false), Idle))
  {
    hide Shaped;
    WorldShaped([7], [], [], {0}, Tcb(Closed, On(ReadyRow(0)), 0, false), Closing(7));
    assert PutAt<Tid>([], 0, 7) == [7];
  }

  lemma Closure(l: Local, r: Local, stat: Stat)
    requires (l == Removed(7, true) && r == Detached(7, true) && stat == Ready)
             || (l == Detached(7, true) && r == Closing(7) && stat == Closed)
    ensures Leads(World([7], [], [], {0}, Tcb(Ready, On(ReadyRow(0)), 0, false), l), Go(0),
                  World([7], [], [], {0}, Tcb(stat, On(ReadyRow(0)), 0, false), r))
  {
    hide Shaped;
    WorldShaped([7], [], [], {0}, Tcb(Ready, On(ReadyRow(0)), 0, false), l);
    hide Shaped;
  }

  lemma Opening(call: Call, l: Local)
    requires (call == Delete(7, true) && l == Removing(7, true)) || (call == Resume(7) && l == Resuming(7))
    ensures Leads(WAITER, Begin(0, call), World([], [7], [], {}, Tcb(Suspended, On(WaitList(0)), 0, true), l))
  {
    hide Shaped;
    WorldShaped([], [7], [], {}, Tcb(Suspended, On(WaitList(0)), 0, true), Idle);
    hide Shaped;
  }

  /** A run with these states and steps. */
  predicate Goes(states: seq<System>, steps: seq<Step>) {
    |states| == |steps| + 1 && forall k :: 0 <= k < |steps| ==> Leads(states[k], steps[k], states[k + 1])
  }

  /** rt_thread_delete of a thread in a timed wait, with a tick after its first region: the thread ends CLOSED,
      on its ready queue and on the defunct list at once. */
  lemma DeleteRace() returns (states: seq<System>)
    ensures Goes(states, [Begin(0, Delete(7, true)), Go(0), Timeout(7), Go(0), Go(0), Go(0)])
    ensures states[0] == WAITER && Good(states[0]) && !Good(states[6])
    ensures states[6] == World([7], [], [7], {0}, Tcb(Closed, On(Defunct), 0, false), Idle)
  {
    hide Leads, Good, World;
    WaiterIsGood();
    Opening(Delete(7, true), Removing(7, true));
    Removal(Removing(7, true));
    LateTimeout(Removed(7, true));
    Closure(Removed(7, true), Detached(7, true), Ready);
    Closure(Detached(7, true), Closing(7), Closed);
    Burial();
    states := [WAITER, World([], [7], [], {}, Tcb(Suspended, On(WaitList(0)), 0, true), Removing(7, true)),
               World([], [], [], {}, Tcb(Suspended, Alone, 0, true), Removed(7, true)),
               World([7], [], [], {0}, Tcb(Ready, On(ReadyRow(0)), 0, false), Removed(7, true)),
               World([7], [], [], {0}, Tcb(Ready, On(ReadyRow(0)), 0, false), Detached(7, true)),
               World([7], [], [], {0}, Tcb(Closed, On(ReadyRow(0)), 0, false), Closing(7)),
               World([7], [], [7], {0}, Tcb(Closed, On(Defunct), 0, false), Idle)];
    BothLists();
  }

  lemma BothLists()
    ensures !Good(World([7], [], [7], {0}, Tcb(Closed, On(Defunct), 0, false), Idle))
  {
    var r := World([7], [], [7], {0}, Tcb(Closed, On(Defunct), 0, false), Idle);
    assert 7 in r.lists[ReadyRow(0)] && 7 in r.tcb;
  }

  /** rt_thread_resume of the same thread, with a tick after its test: the thread is READY on no queue, and the
      bit of its priority is set although nobody is there. */
  lemma ResumeRace() returns (states: seq<System>)
    ensures Goes(states, [Begin(0, Resume(7)), Timeout(7), Go(0)])
    ensures states[0] == WAITER && Good(states[0]) && !Good(states[3])
    ensures states[3] == World([], [], [], {0}, Tcb(Ready, Alone, 0, false), Inserting(7))
  {
    hide Leads, Good;
    WaiterIsGood();
    Opening(Resume(7), Resuming(7));
    EarlyTimeout();
    LateUnlink();
    states := [WAITER, World([], [7], [], {}, Tcb(Suspended, On(WaitList(0)), 0, true), Resuming(7)),
               World([7], [], [], {0}, Tcb(Ready, On(ReadyRow(0)), 0, false), Resuming(7)),
               World([], [], [], {0}, Tcb(Ready, Alone, 0, false), Inserting(7))];
    NobodyThere();
  }

  lemma EarlyTimeout()
    ensures Leads(World([], [7], [], {}, Tcb(Suspended, On(WaitList(0)), 0, true), Resuming(7)), Timeout(7),
                  World([7], [], [], {0}, Tcb(Ready, On(ReadyRow(0)), 0, false), Resuming(7)))
  {
    hide Shaped, Off, InsertThread;
    WorldShaped([], [7], [], {}, Tcb(Suspended, On(WaitList(0)), 0, true), Resuming(7));
    OffWorld([], [7], {}, Tcb(Suspended, On(WaitList(0)), 0, true), Resuming(7));
    var o := World([], [], [], {}, Tcb(Suspended, Alone, 0, true), Resuming(7));
    assert SetTimer(o, 7, false) == World([], [], [], {}, Tcb(Suspended, Alone, 0, false), Resuming(7));
    InsertWorld(Suspended, false, Resuming(7));
  }

  lemma LateUnlink()
    ensures Leads(World([7], [], [], {0}, Tcb(Ready, On(ReadyRow(0)), 0, false), Resuming(7)), Go(0),
                  World([], [], [], {0}, Tcb(Ready, Alone, 0, false), Inserting(7)))
  {
    hide Shaped;
    WorldShaped([7], [], [], {0}, Tcb(Ready, On(ReadyRow(0)), 0, false), Resuming(7));
    assert Without([7], 7) == [];
  }

  lemma NobodyThere()
    ensures !Good(World([], [], [], {0}, Tcb(Ready, Alone, 0, false), Inserting(7)))
  {
    var r := World([], [], [], {0}, Tcb(Ready, Alone, 0, false), Inserting(7));
    assert 0 in r.marked;
  }
}
