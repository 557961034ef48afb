/** The thread calls of rt-thread/src/thread.c at the grain of the interrupt lock, with the regions of
    rt-thread/src/ipc.c, rt-thread/src/idle.c and the tick that move threads between lists. A step is one
    interrupt-disabled region, or one test or write a call makes outside of any; what a call has still to do
    is its Local value. Any caller may take any step it has come to, in any order. */
module ThreadSteps {
  import opened RtDef
  import opened Sequences
  import opened ThreadLists

  type Caller = nat

  datatype Local =
    | Idle
    | Resuming(t: Tid)                // rt_thread_resume has found it suspended
    | Inserting(t: Tid)               // and has unlinked it and stopped its timer
    | Starting(t: Tid)                // rt_thread_startup has found it in the initial state
    | Numbered(t: Tid)                // and has set its priority and masks
    | Started(t: Tid)                 // and its state; rt_thread_resume comes next
    | Suspending(t: Tid)              // rt_thread_suspend has found it ready
    | Removing(t: Tid, bury: bool)    // rt_thread_delete or rt_thread_detach has found it started
    | Removed(t: Tid, bury: bool)     // it is off its list, or was never on one
    | Detached(t: Tid, bury: bool)    // its timer is detached
    | Closing(t: Tid)                 // its state is CLOSED; the defunct list comes next

  /** bury: whether the thread goes to the defunct list, as Scheduler.Thread.Reaped says. */
  datatype Call = Resume(t: Tid) | Startup(t: Tid) | Suspend(t: Tid) | Delete(t: Tid, bury: bool)

  datatype Step =
    | Begin(c: Caller, call: Call)               // the test a call begins with
    | Go(c: Caller)                              // its next region or write
    | Block(t: Tid, w: nat, timed: bool)         // the running thread waits on list w
    | Sleep(t: Tid)
    | Exit(t: Tid, bury: bool)
    | Yield(t: Tid)
    | Wake(w: nat)                               // the first waiter of list w is resumed, inside one region
    | Timeout(t: Tid)                            // the tick finds its timer due
    | SetPriority(t: Tid, p: nat)
    | Reap                                       // the idle thread takes a thread off the defunct list

  datatype Tcb = Tcb(stat: Stat, link: Link, prio: nat, timerOn: bool)

  /** marked holds the priorities whose bit is set, first is init_priority, byPriority the wait lists of objects
      made with RT_IPC_FLAG_PRIO. */
  datatype System = System(lists: Lists<Tid>, marked: set<nat>, tcb: map<Tid, Tcb>, local: map<Caller, Local>,
                           max: nat, first: map<Tid, nat>, byPriority: set<nat>)

  // ---------------------------------------------------------------- the steps

  function SetLocal(s: System, c: Caller, l: Local): System {
    s.(local := s.local[c := l])
  }

  function SetStat(s: System, t: Tid, stat: Stat): System
    requires t in s.tcb
  {
    s.(tcb := s.tcb[t := s.tcb[t].(stat := stat)])
  }

  function SetTimer(s: System, t: Tid, on: bool): System
    requires t in s.tcb
  {
    s.(tcb := s.tcb[t := s.tcb[t].(timerOn := on)])
  }

  function SetPrio(s: System, t: Tid, p: nat): System
    requires t in s.tcb
  {
    s.(tcb := s.tcb[t := s.tcb[t].(prio := p)])
  }

  /** rt_list_remove on its node. */
  function Off(s: System, t: Tid): System
    requires t in s.tcb
  {
    s.(lists := Unhung(s.lists, s.tcb[t].link, t), tcb := s.tcb[t := s.tcb[t].(link := Alone)])
  }

  /** rt_list_insert_before or rt_list_insert_after at place k of list l. Of a node that still hangs elsewhere
      this makes an entry of both lists; Rings.InsertLinkedBreaks says what becomes of the links. */
  function Onto(s: System, t: Tid, l: ListId, k: nat): System
    requires t in s.tcb && l in s.lists && k <= |s.lists[l]|
  {
    s.(lists := s.lists[l := PutAt(s.lists[l], k, t)], tcb := s.tcb[t := s.tcb[t].(link := On(l))])
  }

  function Row(s: System, t: Tid): ListId
    requires t in s.tcb
  {
    ReadyRow(s.tcb[t].prio)
  }

  /** rt_schedule_remove_thread */
  function RemoveThread(s: System, t: Tid): System
    requires t in s.tcb && Row(s, t) in s.lists
  {
    var r := Off(s, t);
    if r.lists[Row(s, t)] == [] then r.(marked := r.marked - {s.tcb[t].prio}) else r
  }

  /** rt_schedule_insert_thread */
  function InsertThread(s: System, t: Tid): System
    requires t in s.tcb && Row(s, t) in s.lists
  {
    var r := Onto(SetStat(s, t, Ready), t, Row(s, t), |s.lists[Row(s, t)]|);
    r.(marked := r.marked + {s.tcb[t].prio})
  }

  /** rt_thread_resume or rt_thread_timeout where nothing can come in between. */
  function Woke(s: System, t: Tid): System
    requires t in s.tcb && Row(s, t) in s.lists
  {
    InsertThread(SetTimer(Off(s, t), t, false), t)
  }

  /** The region of rt_thread_suspend. */
  function Stopped(s: System, t: Tid, timed: bool): System
    requires t in s.tcb && Row(s, t) in s.lists
  {
    SetTimer(RemoveThread(SetStat(s, t, Suspended), t), t, timed)
  }

  /** The place rt_ipc_list_suspend finds in priority mode. */
  function Place(q: seq<Tid>, tcb: map<Tid, Tcb>, p: nat): (k: nat)
    ensures k <= |q|
    ensures forall j :: 0 <= j < k ==> q[j] !in tcb || tcb[q[j]].prio <= p
    ensures k < |q| ==> q[k] in tcb && p < tcb[q[k]].prio
  {
    if q == [] || (q[0] in tcb && p < tcb[q[0]].prio) then 0 else 1 + Place(q[1..], tcb, p)
  }

  function Blocked(s: System, t: Tid, w: nat, timed: bool): System
    requires t in s.tcb && Row(s, t) in s.lists && WaitList(w) in s.lists
  {
    var r := Stopped(s, t, timed);
    var q := r.lists[WaitList(w)];
    Onto(r, t, WaitList(w), if w in s.byPriority then Place(q, r.tcb, s.tcb[t].prio) else |q|)
  }

  function Exited(s: System, t: Tid, bury: bool): System
    requires t in s.tcb && Row(s, t) in s.lists && Defunct in s.lists
  {
    var r := SetTimer(SetStat(RemoveThread(s, t), t, Closed), t, false);
    if bury then Onto(r, t, Defunct, 0) else r
  }

  function Yielded(s: System, t: Tid): System
    requires t in s.tcb && Row(s, t) in s.lists
  {
    if |s.lists[Row(s, t)]| > 1 then Onto(Off(s, t), t, Row(s, t), |Off(s, t).lists[Row(s, t)]|) else s
  }

  function Prioritized(s: System, t: Tid, p: nat): System
    requires t in s.tcb && Row(s, t) in s.lists && ReadyRow(p) in s.lists
  {
    if s.tcb[t].stat == Ready then InsertThread(SetPrio(RemoveThread(s, t), t, p), t) else SetPrio(s, t, p)
  }

  /** What the first test of a call finds. */
  function Begun(s: System, call: Call): Local
    requires call.t in s.tcb
  {
    var stat := s.tcb[call.t].stat;
    match call
    case Resume(t) => if stat == Suspended then Resuming(t) else Idle
    case Startup(t) => Starting(t)
    case Suspend(t) => if stat == Ready then Suspending(t) else Idle
    case Delete(t, bury) => if stat == Init then Removed(t, bury) else Removing(t, bury)
  }

  function Gone(s: System, c: Caller): System
    requires Shaped(s) && c in s.local
  {
    match s.local[c]
    case Idle => s
    case Resuming(t) => SetLocal(SetTimer(Off(s, t), t, false), c, Inserting(t))
    case Inserting(t) => SetLocal(InsertThread(s, t), c, Idle)
    case Starting(t) => SetLocal(SetPrio(s, t, s.first[t]), c, Numbered(t))
    case Numbered(t) => SetLocal(SetStat(s, t, Suspended), c, Started(t))
    case Started(t) => SetLocal(s, c, Begun(s, Resume(t)))
    case Suspending(t) => SetLocal(Stopped(s, t, false), c, Idle)
    case Removing(t, bury) => SetLocal(RemoveThread(s, t), c, Removed(t, bury))
    case Removed(t, bury) => SetLocal(SetTimer(s, t, false), c, Detached(t, bury))
    case Detached(t, bury) => SetLocal(SetStat(s, t, Closed), c, if bury then Closing(t) else Idle)
    case Closing(t) => SetLocal(Onto(s, t, Defunct, 0), c, Idle)
  }

  /** A thread that takes a step of its own is on its ready queue. */
  predicate Running(s: System, t: Tid) {
    t in s.tcb && s.tcb[t].stat == Ready && s.tcb[t].link == On(Row(s, t))
  }

  predicate Enabled(s: System, e: Step) {
    match e
    case Begin(c, call) =>
      c in s.local && s.local[c] == Idle && call.t in s.tcb && (call.Startup? ==> s.tcb[call.t].stat == Init)
    case Go(c) => c in s.local && s.local[c] != Idle
    case Block(t, w, _) => Running(s, t) && WaitList(w) in s.lists
    case Sleep(t) => Running(s, t)
    case Exit(t, _) => Running(s, t)
    case Yield(t) => Running(s, t)
    case Wake(w) => WaitList(w) in s.lists && s.lists[WaitList(w)] != []
    case Timeout(t) => t in s.tcb && s.tcb[t].timerOn
    case SetPriority(t, p) => t in s.tcb && p < s.max
    case Reap => Defunct in s.lists && s.lists[Defunct] != []
  }

  function Apply(s: System, e: Step): System
    requires Shaped(s) && Enabled(s, e)
  {
    match e
    case Begin(c, call) => SetLocal(s, c, Begun(s, call))
    case Go(c) => Gone(s, c)
    case Block(t, w, timed) => Blocked(s, t, w, timed)
    case Sleep(t) => Stopped(s, t, true)
    case Exit(t, bury) => Exited(s, t, bury)
    case Yield(t) => Yielded(s, t)
    case Wake(w) => Woke(s, s.lists[WaitList(w)][0])
    case Timeout(t) => Woke(s, t)
    case SetPriority(t, p) => Prioritized(s, t, p)
    case Reap => Off(s, s.lists[Defunct][0])
  }

  // ---------------------------------------------------------------- the invariant

  /** Every list head, thread and priority that is named exists. */
  predicate Shaped(s: System) {
    && (forall p: nat :: p < s.max ==> ReadyRow(p) in s.lists) && Defunct in s.lists
    && (forall l, t :: l in s.lists && t in s.lists[l] ==> t in s.tcb)
    && s.first.Keys == s.tcb.Keys
    && (forall t :: t in s.tcb ==> s.tcb[t].prio < s.max && s.first[t] < s.max
                                   && (s.tcb[t].link.On? ==> s.tcb[t].link.l in s.lists))
    && (forall c :: c in s.local && s.local[c] != Idle ==> s.local[c].t in s.tcb)
  }

  /** Every node hangs on the list it says, once, and on no other. */
  ghost predicate Hung(s: System) {
    && (forall l :: l in s.lists ==> Distinct(s.lists[l]))
    && (forall l, t :: l in s.lists && t in s.tcb ==> (t in s.lists[l] <==> s.tcb[t].link == On(l)))
  }

  /** A bit is set exactly for each priority with a thread on its queue. */
  ghost predicate MarksExact(s: System) {
    forall p: nat :: p in s.marked <==> ReadyRow(p) in s.lists && s.lists[ReadyRow(p)] != []
  }

  /** A call has taken the thread off its list and will put it somewhere, or close it. */
  predicate Owes(l: Local, t: Tid) {
    (l.Inserting? || l.Removed? || l.Detached?) && l.t == t
  }

  ghost predicate Owed(s: System, t: Tid) {
    exists c :: c in s.local && Owes(s.local[c], t)
  }

  /** A thread is where its state says: READY on the queue of its priority, unless a call has it in hand;
      waiting threads are suspended, buried ones closed, and only suspended threads have a running timer. */
  ghost predicate Placed(s: System, t: Tid)
    requires t in s.tcb
  {
    var b := s.tcb[t];
    && (b.link.On? && b.link.l.ReadyRow? ==> b.stat == Ready && b.link.l.p == b.prio)
    && (b.link.On? && b.link.l.WaitList? ==> b.stat == Suspended)
    && (b.link == On(Defunct) ==> b.stat == Closed)
    && (b.timerOn ==> b.stat == Suspended)
    && (b.stat == Ready ==> b.link == On(ReadyRow(b.prio)) || Owed(s, t))
  }

  ghost predicate Good(s: System) {
    Shaped(s) && Hung(s) && MarksExact(s) && forall t :: t in s.tcb ==> Placed(s, t)
  }

  /** What a step finds when nothing has gone wrong: all that separates a sound step from one after which the
      lists, the marks or the states are broken. Only calls that have been interrupted can fail it. */
  predicate Sound(s: System, e: Step)
    requires Shaped(s) && Enabled(s, e)
  {
    e.Go? ==>
      var l := s.local[e.c];
      var b := s.tcb[l.t];
      match l
      case Resuming(t) => b.link != On(Row(s, t)) || |s.lists[Row(s, t)]| > 1
      case Inserting(_) => b.link == Alone && !b.timerOn
      case Starting(t) => b.link.On? && b.link.l.ReadyRow? ==> b.prio == s.first[t]
      case Numbered(_) => b.link.On? ==> b.link.l.WaitList?
      case Detached(_, _) => (b.link == Alone || b.link == On(Defunct)) && !b.timerOn
      case Closing(_) => b.link == Alone && b.stat == Closed
      case _ => true
  }

  // ---------------------------------------------------------------- one thread aside

  ghost predicate GoodBut(s: System, t: Tid) {
    Shaped(s) && Hung(s) && MarksExact(s) && t in s.tcb && forall u :: u in s.tcb && u != t ==> Placed(s, u)
  }

  /** s' differs from s in thread t at most, as far as threads go. */
  ghost predicate Only(s: System, s': System, t: Tid) {
    && s'.tcb.Keys == s.tcb.Keys && (forall u :: u in s.tcb && u != t ==> s'.tcb[u] == s.tcb[u])
    && s'.first == s.first && s'.max == s.max && s'.lists.Keys == s.lists.Keys && s'.byPriority == s.byPriority
  }

  lemma Aside(s: System, t: Tid)
    requires t in s.tcb
    ensures Good(s) <==> GoodBut(s, t) && Placed(s, t)
  {
  }

  lemma WithoutHung(a: seq<Tid>, t: Tid)
    requires Distinct(a) && t in a
    ensures Distinct(Without(a, t)) && |Without(a, t)| == |a| - 1
    ensures forall y :: y in Without(a, t) <==> y in a && y != t
  {
    WithoutMembers(a, t);
    ElemsSize(a);
    ElemsSize(Without(a, t));
    assert Elems(Without(a, t)) == Elems(a) - {t};
  }

  lemma OffShaped(s: System, t: Tid)
    requires Shaped(s) && t in s.tcb
    ensures Shaped(Off(s, t)) && Only(s, Off(s, t), t)
  {
    if s.tcb[t].link.On? {
      WithoutIn(s.lists[s.tcb[t].link.l], t);
    }
  }

  lemma {:induction false} WithoutIn(a: seq<Tid>, t: Tid)
    ensures forall y :: y in Without(a, t) ==> y in a
  {
    if a != [] && a[0] != t {
      WithoutIn(a[1..], t);
    }
  }

  lemma OffHung(s: System, t: Tid)
    requires Shaped(s) && Hung(s) && t in s.tcb
    ensures var r := Off(s, t);
            && Hung(r) && r.tcb[t] == s.tcb[t].(link := Alone)
            && (forall l :: l in s.lists && s.tcb[t].link != On(l) ==> r.lists[l] == s.lists[l])
            && (forall l :: l in s.lists && s.tcb[t].link == On(l) ==> |r.lists[l]| == |s.lists[l]| - 1)
            && forall l, y :: l in s.lists && y != t ==> (y in r.lists[l] <==> y in s.lists[l])
  {
    hide Distinct;
    if s.tcb[t].link.On? {
      WithoutHung(s.lists[s.tcb[t].link.l], t);
    }
  }

  lemma PutAtIn(q: seq<Tid>, k: nat, t: Tid)
    requires k <= |q|
    ensures forall y :: y in PutAt(q, k, t) ==> y in q || y == t
  {
    assert q == q[..k] + q[k..];
  }

  lemma OntoShaped(s: System, t: Tid, l: ListId, k: nat)
    requires Shaped(s) && t in s.tcb && l in s.lists && k <= |s.lists[l]|
    ensures Shaped(Onto(s, t, l, k)) && Only(s, Onto(s, t, l, k), t)
  {
    hide PutAt;
    PutAtIn(s.lists[l], k, t);
  }

  lemma OntoHung(s: System, t: Tid, l: ListId, k: nat)
    requires Shaped(s) && Hung(s) && t in s.tcb && l in s.lists && k <= |s.lists[l]| && s.tcb[t].link == Alone
    ensures Hung(Onto(s, t, l, k))
  {
    hide Distinct, PutAt;
    PutAtMembers(s.lists[l], k, t);
  }

  lemma PutTwice(q: seq<Tid>, k: nat, t: Tid)
    requires k <= |q| && t in q
    ensures !Distinct(PutAt(q, k, t))
  {
    var i :| 0 <= i < |q| && q[i] == t;
    var p, j := PutAt(q, k, t), if i < k then i else i + 1;
    assert p[j] == t == p[k];
    if j < k {
      assert p[j] == p[k];
    } else {
      assert p[k] == p[j];
    }
  }

  lemma OntoTwice(s: System, t: Tid, l: ListId, k: nat)
    requires Shaped(s) && Hung(s) && t in s.tcb && l in s.lists && k <= |s.lists[l]| && s.tcb[t].link != Alone
    ensures !Hung(Onto(s, t, l, k))
  {
    hide Distinct, PutAt;
    var was, r := s.tcb[t].link.l, Onto(s, t, l, k);
    assert t in s.lists[was];
    if was == l {
      PutTwice(s.lists[l], k, t);
      assert r.lists[l] == PutAt(s.lists[l], k, t);
    } else {
      assert t in r.lists[was] && was in r.lists && t in r.tcb && r.tcb[t].link == On(l);
    }
  }

  /** Setting fields of t's control block moves no node. */
  lemma SetKeeps(s: System, r: System, t: Tid)
    requires GoodBut(s, t) && t in r.tcb && r == s.(tcb := s.tcb[t := r.tcb[t]])
    requires r.tcb[t].link == s.tcb[t].link && r.tcb[t].prio < s.max
    ensures GoodBut(r, t) && Only(s, r, t)
  {
    hide Distinct;
    PlacesKept(s, r, t);
  }

  /** Placed speaks of a thread's own block and of the calls that have it in hand. */
  lemma PlacesKept(s: System, r: System, t: Tid)
    requires t in s.tcb && (forall u :: u in s.tcb && u != t ==> Placed(s, u)) && r.local == s.local
    requires r.tcb.Keys == s.tcb.Keys && forall u :: u in s.tcb && u != t ==> r.tcb[u] == s.tcb[u]
    ensures forall u :: u in r.tcb && u != t ==> Placed(r, u)
  {
    forall u | u in r.tcb && u != t
      ensures Placed(r, u)
    {
      assert Placed(s, u);
      assert Owed(s, u) ==> Owed(r, u);
    }
  }

  /** The account of a call that has t in hand, or had or will have. */
  lemma LocalKeeps(s: System, c: Caller, l: Local, t: Tid)
    requires GoodBut(s, t) && c in s.local
    requires (s.local[c] == Idle || s.local[c].t == t) && (l == Idle || l.t == t)
    ensures GoodBut(SetLocal(s, c, l), t)
  {
    hide Distinct;
    var r := SetLocal(s, c, l);
    forall u | u in r.tcb && u != t
      ensures Placed(r, u)
    {
      assert Placed(s, u);
      if Owed(s, u) {
        var d :| d in s.local && Owes(s.local[d], u);
        assert d in r.local && Owes(r.local[d], u);
      }
    }
  }

  lemma MarksAfter(s: System, r: System, p: nat)
    requires MarksExact(s) && ReadyRow(p) in r.lists && r.lists.Keys == s.lists.Keys
    requires forall q: nat :: q != p && ReadyRow(q) in s.lists ==> r.lists[ReadyRow(q)] == s.lists[ReadyRow(q)]
    requires r.marked == if r.lists[ReadyRow(p)] == [] then s.marked - {p} else s.marked + {p}
    ensures MarksExact(r)
  {
    forall q: nat
      ensures q in r.marked <==> ReadyRow(q) in r.lists && r.lists[ReadyRow(q)] != []
    {
      assert q in s.marked <==> ReadyRow(q) in s.lists && s.lists[ReadyRow(q)] != [];
    }
  }

  /** rt_schedule_remove_thread leaves the node alone and the marks exact, wherever the node hung. */
  lemma RemoveKeeps(s: System, t: Tid)
    requires GoodBut(s, t)
    requires s.tcb[t].link.On? && s.tcb[t].link.l.ReadyRow? ==> s.tcb[t].link == On(Row(s, t))
    ensures var r := RemoveThread(s, t);
            && GoodBut(r, t) && Only(s, r, t) && r.tcb[t] == s.tcb[t].(link := Alone) && r.local == s.local
            && (forall l :: l in s.lists && s.tcb[t].link != On(l) ==> r.lists[l] == s.lists[l])
  {
    hide Distinct, Unhung, Placed, MarksExact, Hung, Shaped;
    ShapeOf(s, t);
    OffShaped(s, t);
    OffHung(s, t);
    var r, o, p := RemoveThread(s, t), Off(s, t), s.tcb[t].prio;
    PlacesKept(s, r, t);
    SameLists(o, r);
    StillMarked(s, t);
    MarksAfter(s, r, p);
  }

  lemma StillMarked(s: System, t: Tid)
    requires Shaped(s) && Hung(s) && MarksExact(s) && t in s.tcb
    ensures Off(s, t).lists[Row(s, t)] != [] ==> s.tcb[t].prio in s.marked
  {
    hide Distinct, Unhung;
    OffHung(s, t);
  }

  /** Unlinking without looking at the marks is sound unless it empties a ready queue. */
  lemma OffKeepsIff(s: System, t: Tid)
    requires GoodBut(s, t) && Placed(s, t)
    ensures var r := Off(s, t);
            && Shaped(r) && Hung(r) && Only(s, r, t) && r.tcb[t] == s.tcb[t].(link := Alone)
            && (MarksExact(r) <==> s.tcb[t].link != On(Row(s, t)) || |s.lists[Row(s, t)]| > 1)
            && (MarksExact(r) ==> GoodBut(r, t))
  {
    hide Distinct, Unhung;
    OffShaped(s, t);
    OffHung(s, t);
    var r, p := Off(s, t), s.tcb[t].prio;
    PlacesKept(s, r, t);
    forall q: nat | q != p || s.tcb[t].link != On(Row(s, t))
      ensures ReadyRow(q) in s.lists ==> r.lists[ReadyRow(q)] == s.lists[ReadyRow(q)]
    {
    }
    if s.tcb[t].link == On(Row(s, t)) {
      assert t in s.lists[Row(s, t)];
      assert p in s.marked && p in r.marked;
      assert |r.lists[ReadyRow(p)]| == |s.lists[Row(s, t)]| - 1;
    }
  }

  /** Hanging a node that is alone on a list other than a ready queue. */
  lemma OntoKeeps(s: System, t: Tid, l: ListId, k: nat)
    requires GoodBut(s, t) && s.tcb[t].link == Alone && l in s.lists && k <= |s.lists[l]| && !l.ReadyRow?
    ensures var r := Onto(s, t, l, k);
            GoodBut(r, t) && Only(s, r, t) && r.tcb[t] == s.tcb[t].(link := On(l)) && r.local == s.local
  {
    hide Distinct, PutAt;
    OntoShaped(s, t, l, k);
    OntoHung(s, t, l, k);
    var r := Onto(s, t, l, k);
    PlacesKept(s, r, t);
    forall q: nat
      ensures q in r.marked <==> ReadyRow(q) in r.lists && r.lists[ReadyRow(q)] != []
    {
      assert q in s.marked <==> ReadyRow(q) in s.lists && s.lists[ReadyRow(q)] != [];
    }
  }

  /** rt_schedule_insert_thread of a node that is alone. */
  lemma InsertKeeps(s: System, t: Tid)
    requires GoodBut(s, t) && s.tcb[t].link == Alone
    ensures var r := InsertThread(s, t);
            && GoodBut(r, t) && Only(s, r, t) && r.local == s.local
            && r.tcb[t] == s.tcb[t].(stat := Ready, link := On(Row(s, t)))
  {
    hide Distinct, Placed, MarksExact, Hung, Shaped;
    ShapeOf(s, t);
    var s1 := SetStat(s, t, Ready);
    SetKeeps(s, s1, t);
    var l, k := Row(s, t), |s.lists[Row(s, t)]|;
    OntoShaped(s1, t, l, k);
    OntoHung(s1, t, l, k);
    var r, o := InsertThread(s, t), Onto(s1, t, l, k);
    PlacesKept(s, r, t);
    SameLists(o, r);
    MarksAfter(s, r, s.tcb[t].prio);
  }

  lemma ShapeOf(s: System, t: Tid)
    requires Shaped(s) && t in s.tcb
    ensures s.tcb[t].prio < s.max && Row(s, t) in s.lists && s.first.Keys == s.tcb.Keys && s.first[t] < s.max
    ensures Defunct in s.lists && (s.tcb[t].link.On? ==> s.tcb[t].link.l in s.lists)
  {
  }

  lemma SameLists(s: System, r: System)
    requires r == s.(marked := r.marked)
    ensures Shaped(r) <==> Shaped(s)
    ensures Hung(r) <==> Hung(s)
  {
  }

  /** Of a node that hangs somewhere it makes a wreck. */
  lemma InsertTwice(s: System, t: Tid)
    requires GoodBut(s, t) && s.tcb[t].link != Alone
    ensures !Hung(InsertThread(s, t))
  {
    hide Distinct, PutAt;
    var s1 := SetStat(s, t, Ready);
    SetKeeps(s, s1, t);
    OntoTwice(s1, t, Row(s, t), |s.lists[Row(s, t)]|);
    var r, o := InsertThread(s, t), Onto(s1, t, Row(s, t), |s.lists[Row(s, t)]|);
    assert r.lists == o.lists && r.tcb == o.tcb;
  }

  // ---------------------------------------------------------------- every step

  /** Whether the step leaves all in order is decided by what it finds of its own thread. */
  ghost predicate Decides(s: System, e: Step)
    requires Shaped(s) && Enabled(s, e)
  {
    Good(Apply(s, e)) <==> Sound(s, e)
  }

  lemma InHand(s: System, c: Caller)
    requires Shaped(s) && c in s.local && s.local[c] != Idle
    ensures s.local[c].t in s.tcb
  {
  }

  lemma UnlinkDecides(s: System, c: Caller)
    requires Good(s) && Enabled(s, Go(c)) && s.local[c].Resuming?
    ensures Decides(s, Go(c))
  {
    hide Distinct, Hung, Unhung, Shaped;
    InHand(s, c);
    var t := s.local[c].t;
    Aside(s, t);
    ShapeOf(s, t);
    OffKeepsIff(s, t);
    var o := Off(s, t);
    var m := SetTimer(o, t, false);
    var r := SetLocal(m, c, Inserting(t));
    if MarksExact(o) {
      SetKeeps(o, m, t);
      LocalKeeps(m, c, Inserting(t), t);
      assert Owes(r.local[c], t);
      Aside(r, t);
    } else {
      assert r.lists == o.lists && r.marked == o.marked;
      assert !MarksExact(r);
    }
  }

  lemma InsertDecides(s: System, c: Caller)
    requires Good(s) && Enabled(s, Go(c)) && s.local[c].Inserting?
    ensures Decides(s, Go(c))
  {
    hide Distinct, MarksExact, Shaped;
    InHand(s, c);
    var t := s.local[c].t;
    Aside(s, t);
    ShapeOf(s, t);
    var m := InsertThread(s, t);
    var r := SetLocal(m, c, Idle);
    if s.tcb[t].link == Alone {
      InsertKeeps(s, t);
      LocalKeeps(m, c, Idle, t);
      Aside(r, t);
    } else {
      InsertTwice(s, t);
      assert r.lists == m.lists && r.tcb == m.tcb;
    }
  }

  lemma NumberDecides(s: System, c: Caller)
    requires Good(s) && Enabled(s, Go(c)) && s.local[c].Starting?
    ensures Decides(s, Go(c))
  {
    hide Distinct, MarksExact, Hung, Shaped;
    InHand(s, c);
    var t := s.local[c].t;
    Aside(s, t);
    ShapeOf(s, t);
    var m := SetPrio(s, t, s.first[t]);
    SetKeeps(s, m, t);
    LocalKeeps(m, c, Numbered(t), t);
    SameDebts(s, Gone(s, c), c, t);
    Aside(Gone(s, c), t);
  }

  lemma MarkDecides(s: System, c: Caller)
    requires Good(s) && Enabled(s, Go(c)) && s.local[c].Numbered?
    ensures Decides(s, Go(c))
  {
    hide Distinct, MarksExact, Hung, Shaped;
    InHand(s, c);
    var t := s.local[c].t;
    Aside(s, t);
    ShapeOf(s, t);
    var m := SetStat(s, t, Suspended);
    SetKeeps(s, m, t);
    LocalKeeps(m, c, Started(t), t);
    SameDebts(s, Gone(s, c), c, t);
    Aside(Gone(s, c), t);
  }

  lemma RetestDecides(s: System, c: Caller)
    requires Good(s) && Enabled(s, Go(c)) && s.local[c].Started?
    ensures Decides(s, Go(c))
  {
    hide Distinct, MarksExact, Hung, Shaped;
    InHand(s, c);
    var t := s.local[c].t;
    Aside(s, t);
    ShapeOf(s, t);
    LocalKeeps(s, c, Begun(s, Resume(t)), t);
    SameDebts(s, Gone(s, c), c, t);
    Aside(Gone(s, c), t);
  }

  /** A call that owes t nothing before and after leaves what others owe t. */
  lemma SameDebts(s: System, r: System, c: Caller, t: Tid)
    requires c in s.local && c in r.local && r.local == s.local[c := r.local[c]] && !Owes(s.local[c], t)
    ensures Owed(s, t) ==> Owed(r, t)
    ensures !Owes(r.local[c], t) ==> (Owed(r, t) ==> Owed(s, t))
  {
    if Owed(s, t) {
      var d :| d in s.local && Owes(s.local[d], t);
      assert d in r.local && Owes(r.local[d], t);
    }
    if Owed(r, t) && !Owes(r.local[c], t) {
      var d :| d in r.local && Owes(r.local[d], t);
      assert d in s.local && Owes(s.local[d], t);
    }
  }

  lemma SuspendDecides(s: System, c: Caller)
    requires Good(s) && Enabled(s, Go(c)) && s.local[c].Suspending?
    ensures Decides(s, Go(c))
  {
    hide Distinct, MarksExact, Hung, Shaped;
    InHand(s, c);
    var t := s.local[c].t;
    Aside(s, t);
    ShapeOf(s, t);
    var m := Stopped(s, t, false);
    SuspendedKeeps(s, t, false);
    LocalKeeps(m, c, Idle, t);
    var r := SetLocal(m, c, Idle);
    assert r == Gone(s, c);
    Aside(r, t);
  }

  lemma SuspendedKeeps(s: System, t: Tid, timed: bool)
    requires GoodBut(s, t) && Placed(s, t) && Row(s, t) in s.lists
    ensures var r := Stopped(s, t, timed);
            && GoodBut(r, t) && Only(s, r, t) && r.local == s.local
            && r.tcb[t] == s.tcb[t].(stat := Suspended, link := Alone, timerOn := timed)
  {
    hide Distinct, MarksExact, Hung;
    var s1 := SetStat(s, t, Suspended);
    SetKeeps(s, s1, t);
    RemoveKeeps(s1, t);
    SetKeeps(RemoveThread(s1, t), Stopped(s, t, timed), t);
  }

  lemma RemoveDecides(s: System, c: Caller)
    requires Good(s) && Enabled(s, Go(c)) && s.local[c].Removing?
    ensures Decides(s, Go(c))
  {
    hide Distinct, MarksExact, Hung, Shaped;
    InHand(s, c);
    var t := s.local[c].t;
    var r, l := Gone(s, c), Removed(t, s.local[c].bury);
    Aside(s, t);
    ShapeOf(s, t);
    RemoveKeeps(s, t);
    LocalKeeps(RemoveThread(s, t), c, l, t);
    assert Owes(r.local[c], t);
    Aside(r, t);
  }

  lemma DetachDecides(s: System, c: Caller)
    requires Good(s) && Enabled(s, Go(c)) && s.local[c].Removed?
    ensures Decides(s, Go(c))
  {
    hide Distinct, MarksExact, Hung, Shaped;
    InHand(s, c);
    var t := s.local[c].t;
    var r, m, l := Gone(s, c), SetTimer(s, t, false), Detached(t, s.local[c].bury);
    Aside(s, t);
    ShapeOf(s, t);
    SetKeeps(s, m, t);
    LocalKeeps(m, c, l, t);
    assert Owes(r.local[c], t);
    Aside(r, t);
  }

  lemma CloseDecides(s: System, c: Caller)
    requires Good(s) && Enabled(s, Go(c)) && s.local[c].Detached?
    ensures Decides(s, Go(c))
  {
    hide Distinct, MarksExact, Hung, Shaped;
    InHand(s, c);
    var t := s.local[c].t;
    var m := SetStat(s, t, Closed);
    Aside(s, t);
    ShapeOf(s, t);
    SetKeeps(s, m, t);
    LocalKeeps(m, c, if s.local[c].bury then Closing(t) else Idle, t);
    Aside(Gone(s, c), t);
  }

  lemma BuryDecides(s: System, c: Caller)
    requires Good(s) && Enabled(s, Go(c)) && s.local[c].Closing?
    ensures Decides(s, Go(c))
  {
    hide Distinct, MarksExact, Shaped;
    InHand(s, c);
    var t := s.local[c].t;
    Aside(s, t);
    ShapeOf(s, t);
    var m := Onto(s, t, Defunct, 0);
    var r := SetLocal(m, c, Idle);
    if s.tcb[t].link == Alone {
      OntoKeeps(s, t, Defunct, 0);
      LocalKeeps(m, c, Idle, t);
      Aside(r, t);
    } else {
      OntoTwice(s, t, Defunct, 0);
      assert r.lists == m.lists && r.tcb == m.tcb;
    }
  }

  lemma WokeKeeps(s: System, t: Tid)
    requires Good(s) && t in s.tcb && s.tcb[t].stat == Suspended && Row(s, t) in s.lists
    ensures var r := Woke(s, t);
            && Good(r) && Only(s, r, t) && r.local == s.local
              && r.tcb[t] == Tcb(Ready, On(Row(s, t)), s.tcb[t].prio, false)
  {
    hide Distinct, MarksExact, Hung, Shaped;
    Aside(s, t);
    ShapeOf(s, t);
    OffKeepsIff(s, t);
    var o := Off(s, t);
    SetKeeps(o, SetTimer(o, t, false), t);
    InsertKeeps(SetTimer(o, t, false), t);
    Aside(Woke(s, t), t);
  }

  lemma BlockedKeeps(s: System, t: Tid, w: nat, timed: bool)
    requires Good(s) && Enabled(s, Block(t, w, timed)) && Row(s, t) in s.lists
    ensures var r := Blocked(s, t, w, timed);
            && Good(r) && Only(s, r, t) && r.local == s.local
            && r.tcb[t] == Tcb(Suspended, On(WaitList(w)), s.tcb[t].prio, timed)
  {
    hide Distinct, MarksExact, Hung, Shaped, PutAt, Place, RemoveThread;
    Aside(s, t);
    SuspendedKeeps(s, t, timed);
    var m := Stopped(s, t, timed);
    var q := m.lists[WaitList(w)];
    OntoKeeps(m, t, WaitList(w), if w in s.byPriority then Place(q, m.tcb, s.tcb[t].prio) else |q|);
    Aside(Blocked(s, t, w, timed), t);
  }

  lemma SleptKeeps(s: System, t: Tid)
    requires Good(s) && Running(s, t) && Row(s, t) in s.lists
    ensures var r := Stopped(s, t, true);
            && Good(r) && Only(s, r, t) && r.local == s.local && r.tcb[t] == Tcb(Suspended, Alone, s.tcb[t].prio, true)
            && forall l :: l in s.lists && l != Row(s, t) ==> r.lists[l] == s.lists[l]
  {
    hide Distinct, MarksExact, Hung, Shaped;
    Aside(s, t);
    SuspendedKeeps(s, t, true);
    Aside(Stopped(s, t, true), t);
  }

  lemma ExitedKeeps(s: System, t: Tid, bury: bool)
    requires Good(s) && Running(s, t) && Row(s, t) in s.lists && Defunct in s.lists
    ensures var r := Exited(s, t, bury); Good(r) && Only(s, r, t) && r.local == s.local
    ensures Exited(s, t, bury).tcb[t] == Tcb(Closed, if bury then On(Defunct) else Alone, s.tcb[t].prio, false)
  {
    hide Distinct, MarksExact, Hung, Shaped;
    Aside(s, t);
    ShapeOf(s, t);
    RemoveKeeps(s, t);
    var r := RemoveThread(s, t);
    var m := SetStat(r, t, Closed);
    var n := SetTimer(m, t, false);
    SetKeeps(r, m, t);
    SetKeeps(m, n, t);
    if bury {
      OntoKeeps(n, t, Defunct, 0);
    }
    Aside(Exited(s, t, bury), t);
  }

  /** To the end of its own queue, by rt_list_remove and rt_list_insert_before alone. */
  lemma YieldedKeeps(s: System, t: Tid)
    requires Good(s) && Running(s, t) && Row(s, t) in s.lists
    ensures var r := Yielded(s, t); Good(r) && r.local == s.local && r.tcb == s.tcb
  {
    hide Distinct, MarksExact, Hung, Shaped, Placed, Off, Onto;
    if |s.lists[Row(s, t)]| > 1 {
      Aside(s, t);
      OffKeepsIff(s, t);
      OffHung(s, t);
      var o, r, l := Off(s, t), Yielded(s, t), Row(s, t);
      var k := |o.lists[l]|;
      OntoShaped(o, t, l, k);
      OntoHung(o, t, l, k);
      YieldedSame(s, t);
      PlacesKept(o, r, t);
      QueueFilled(s, o, r, t);
      MarksAfter(o, r, s.tcb[t].prio);
      assert Placed(s, t);
      StillPlaced(s, r, t);
      Aside(r, t);
    }
  }

  lemma YieldedSame(s: System, t: Tid)
    requires Running(s, t) && Row(s, t) in s.lists && |s.lists[Row(s, t)]| > 1
    ensures var o, r := Off(s, t), Yielded(s, t);
            && o.local == r.local == s.local && r.tcb == s.tcb && o.tcb == s.tcb[t := o.tcb[t]]
            && r.lists.Keys == o.lists.Keys == s.lists.Keys && r.max == o.max && r.first == o.first
            && forall l :: l in o.lists && l != Row(s, t) ==> r.lists[l] == o.lists[l]
  {
    hide PutAt, Without;
  }

  lemma StillPlaced(s: System, r: System, t: Tid)
    requires t in s.tcb && t in r.tcb && r.tcb[t] == s.tcb[t] && r.local == s.local && Placed(s, t)
    ensures Placed(r, t)
  {
    assert Owed(s, t) ==> Owed(r, t);
  }

  lemma QueueFilled(s: System, o: System, r: System, t: Tid)
    requires t in s.tcb && Row(s, t) in s.lists && o == Off(s, t) && Row(s, t) in o.lists && |o.lists[Row(s, t)]| > 0
    requires r == Onto(o, t, Row(s, t), |o.lists[Row(s, t)]|) && MarksExact(o)
    ensures r.lists[Row(s, t)] != [] && r.marked == o.marked + {s.tcb[t].prio}
  {
  }

  lemma PrioritizedKeeps(s: System, t: Tid, p: nat)
    requires Good(s) && t in s.tcb && p < s.max && Row(s, t) in s.lists && ReadyRow(p) in s.lists
    ensures var r := Prioritized(s, t, p); Good(r) && Only(s, r, t) && r.local == s.local && r.tcb[t].prio == p
    ensures s.tcb[t].stat != Ready ==> Prioritized(s, t, p).tcb[t] == s.tcb[t].(prio := p)
  {
    hide Distinct, MarksExact, Hung, Shaped;
    Aside(s, t);
    if s.tcb[t].stat == Ready {
      RemoveKeeps(s, t);
      var r := RemoveThread(s, t);
      SetKeeps(r, SetPrio(r, t, p), t);
      InsertKeeps(SetPrio(r, t, p), t);
    } else {
      SetKeeps(s, SetPrio(s, t, p), t);
      assert Owed(s, t) <==> Owed(SetPrio(s, t, p), t);
    }
    Aside(Prioritized(s, t, p), t);
  }

  lemma ReapKeeps(s: System)
    requires Good(s) && Enabled(s, Reap) && s.lists[Defunct][0] in s.tcb
    ensures var t := s.lists[Defunct][0]; var r := Off(s, t);
            Good(r) && Only(s, r, t) && r.local == s.local && r.tcb[t] == s.tcb[t].(link := Alone)
    ensures s.tcb[s.lists[Defunct][0]].link == On(Defunct) && s.tcb[s.lists[Defunct][0]].stat == Closed
  {
    var t := s.lists[Defunct][0];
    assert t in s.lists[Defunct];
    hide Distinct, MarksExact, Shaped;
    Aside(s, t);
    OffKeepsIff(s, t);
    Aside(Off(s, t), t);
  }

  /** The first waiter is suspended. */
  lemma HeadWaits(s: System, w: nat)
    requires Good(s) && WaitList(w) in s.lists && s.lists[WaitList(w)] != []
    ensures var t := s.lists[WaitList(w)][0];
            t in s.tcb && s.tcb[t].stat == Suspended && s.tcb[t].link == On(WaitList(w)) && Row(s, t) in s.lists
  {
    assert s.lists[WaitList(w)][0] in s.lists[WaitList(w)];
  }

  lemma BegunKeeps(s: System, c: Caller, call: Call)
    requires Good(s) && Enabled(s, Begin(c, call))
    ensures Good(SetLocal(s, c, Begun(s, call)))
  {
    hide Distinct, MarksExact, Hung, Shaped;
    var l := Begun(s, call);
    Aside(s, call.t);
    LocalKeeps(s, c, l, call.t);
    SameDebts(s, SetLocal(s, c, l), c, call.t);
    Aside(SetLocal(s, c, l), call.t);
  }

  lemma GoDecides(s: System, c: Caller)
    requires Good(s) && Enabled(s, Go(c))
    ensures Decides(s, Go(c))
  {
    hide Decides, Good;
    match s.local[c]
    case Resuming(_) => UnlinkDecides(s, c);
    case Inserting(_) => InsertDecides(s, c);
    case Starting(_) => NumberDecides(s, c);
    case Numbered(_) => MarkDecides(s, c);
    case Started(_) => RetestDecides(s, c);
    case Suspending(_) => SuspendDecides(s, c);
    case Removing(_, _) => RemoveDecides(s, c);
    case Removed(_, _) => DetachDecides(s, c);
    case Detached(_, _) => CloseDecides(s, c);
    case Closing(_) => BuryDecides(s, c);
  }

  /** From a state in order, a step leaves all in order exactly when it is sound. */
  lemma StepKeepsIff(s: System, e: Step)
    requires Good(s) && Enabled(s, e)
    ensures Good(Apply(s, e)) <==> Sound(s, e)
  {
    hide Distinct, Hung, MarksExact, Placed;
    match e
    case Begin(c, call) => BegunKeeps(s, c, call);
    case Go(c) => GoDecides(s, c);
    case Block(t, w, timed) => BlockedKeeps(s, t, w, timed);
    case Sleep(t) => SleptKeeps(s, t);
    case Exit(t, bury) => ExitedKeeps(s, t, bury);
    case Yield(t) => YieldedKeeps(s, t);
    case Wake(w) => HeadWaits(s, w); WokeKeeps(s, s.lists[WaitList(w)][0]);
    case Timeout(t) => TimerWaits(s, t); WokeKeeps(s, t);
    case SetPriority(t, p) => PrioritizedKeeps(s, t, p);
    case Reap => ReapKeeps(s);
  }

  /** The assertion of rt_thread_timeout holds. */
  lemma TimerWaits(s: System, t: Tid)
    requires Good(s) && t in s.tcb && s.tcb[t].timerOn
    ensures s.tcb[t].stat == Suspended
  {
    assert Placed(s, t);
  }

  ghost predicate IsRun(trace: seq<System>, steps: seq<Step>) {
    && |trace| == |steps| + 1
    && forall k :: 0 <= k < |steps| ==>
         Shaped(trace[k]) && Enabled(trace[k], steps[k]) && trace[k + 1] == Apply(trace[k], steps[k])
  }

  predicate SoundAt(s: System, e: Step) {
    Shaped(s) && Enabled(s, e) && Sound(s, e)
  }

  ghost predicate AllGood(trace: seq<System>) {
    forall k :: 0 <= k < |trace| ==> Good(trace[k])
  }

  predicate AllSound(trace: seq<System>, steps: seq<Step>)
    requires |trace| == |steps| + 1
  {
    forall k :: 0 <= k < |steps| ==> SoundAt(trace[k], steps[k])
  }

  lemma {:induction false} GoodSoFar(trace: seq<System>, steps: seq<Step>, k: nat)
    requires IsRun(trace, steps) && Good(trace[0]) && AllSound(trace, steps) && k <= |steps|
    ensures Good(trace[k])
  {
    hide Good, Sound;
    if k > 0 {
      GoodSoFar(trace, steps, k - 1);
      assert SoundAt(trace[k - 1], steps[k - 1]);
      StepKeepsIff(trace[k - 1], steps[k - 1]);
    }
  }

  /** Over any run: the lists, the marks and the states are in order after every step exactly when every step
      was sound. */
  lemma RunKeepsIff(trace: seq<System>, steps: seq<Step>)
    requires IsRun(trace, steps) && Good(trace[0])
    ensures AllGood(trace) <==> AllSound(trace, steps)
  {
    hide Good, Sound;
    if AllGood(trace) {
      forall k | 0 <= k < |steps|
        ensures SoundAt(trace[k], steps[k])
      {
        assert Good(trace[k]) && Good(trace[k + 1]);
        StepKeepsIff(trace[k], steps[k]);
      }
    }
    if AllSound(trace, steps) {
      forall k | 0 <= k < |trace|
        ensures Good(trace[k])
      {
        GoodSoFar(trace, steps, k);
      }
    }
  }
}
