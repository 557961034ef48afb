/** The scheduler and the thread life cycle of rt-thread/src/scheduler.c and rt-thread/src/thread.c,
    with the wait-list helpers of rt-thread/src/ipc.c. Every method is one call from start to end, with nothing
    in between; ThreadSteps takes the calls apart where the code lets go of the interrupt lock. */
module Scheduler {
  import opened RtDef
  import opened Sequences
  import opened ReadyBits
  import opened ThreadLists
  import RoundRobin

  const TICK_RANGE: nat := 0x1_0000_0000

  class Thread {
    const initPriority: nat
    const initTick: nat
    /** initialised by rt_thread_init, not created by rt_thread_create */
    const isStatic: bool
    /** cleanup is set */
    var hasCleanup: bool
    var stat: Stat
    var currentPriority: nat
    var number: nat
    var numberMask: nat
    var highMask: nat
    var remainingTick: nat
    var error: int
    /** where the tlist node hangs */
    var tlist: Link
    /** thread_timer is started */
    var timerOn: bool

    /** _rt_thread_init */
    constructor (priority: nat, tick: nat, isStatic: bool)
      ensures stat == Init && tlist == Alone && !timerOn && error == RT_EOK
      ensures initPriority == currentPriority == priority && initTick == remainingTick == tick
      ensures this.isStatic == isStatic && !hasCleanup && number == numberMask == highMask == 0
    {
      initPriority, currentPriority := priority, priority;
      number, numberMask, highMask := 0, 0, 0;
      initTick, remainingTick := tick, tick;
      this.isStatic, hasCleanup := isStatic, false;
      stat, tlist, timerOn, error := Init, Alone, false, RT_EOK;
    }

    /** Somebody has to clean up after the thread: the idle thread does. */
    predicate Reaped()
      reads this`hasCleanup
    {
      !isStatic || hasCleanup
    }
  }

  ghost predicate HasRows(max: PriorityMax, lists: Lists<Thread>) {
    && (forall p: nat :: ReadyRow(p) in lists <==> p < max)
    && Defunct in lists
  }

  /** rt_thread_priority_table */
  ghost function Rows(max: PriorityMax, lists: Lists<Thread>): (r: seq<seq<Thread>>)
    requires HasRows(max, lists)
    ensures |r| == max && forall p :: 0 <= p < max ==> r[p] == lists[ReadyRow(p)]
  {
    seq(max, p requires 0 <= p < max => lists[ReadyRow(p)])
  }

  /** rt_list_init on every head. */
  function EmptyLists(max: PriorityMax, waitLists: nat): (r: Lists<Thread>)
    ensures forall l :: l in r ==> r[l] == []
    ensures forall l :: l in r <==> (l.ReadyRow? && l.p < max) || (l.WaitList? && l.w < waitLists) || l.Defunct?
  {
    (map p: nat | p < max :: ReadyRow(p) := []) + (map w: nat | w < waitLists :: WaitList(w) := []) + map[Defunct := []]
  }

  class Scheduler {
    const max: PriorityMax
    var lists: Lists<Thread>
    var group: nat
    var readyTable: seq<nat>
    var current: Thread?
    var currentPriority: nat
    var lockNest: nat
    ghost var threads: set<Thread>

    // ---------------------------------------------------------------- the invariant

    ghost predicate RowsPresent()
      reads this`lists
    {
      HasRows(max, lists)
    }

    ghost function Table(): (r: seq<seq<Thread>>)
      reads this`lists
      requires RowsPresent()
    {
      Rows(max, lists)
    }

    /** A bit is set exactly for each priority with a thread on its queue. */
    ghost predicate MarksExact()
      reads this`lists, this`group, this`readyTable
    {
      RowsPresent() && Exact(max, Marks(group, readyTable), Table())
    }

    /** Every node hangs on the list it says, once, and on no other. */
    ghost predicate Linked()
      reads this`lists, this`threads, threads`tlist
    {
      && RowsPresent()
      && (forall l :: l in lists ==> Distinct(lists[l]) && forall t :: t in lists[l] ==> t in threads)
      && (forall t, l :: t in threads && l in lists ==> (t in lists[l] <==> t.tlist == On(l)))
      && (forall t :: t in threads && t.tlist.On? ==> t.tlist.l in lists)
    }

    /** The three numbers that locate a thread's bit match its priority. */
    ghost predicate MasksMatch(t: Thread)
      reads t`currentPriority, t`number, t`numberMask, t`highMask
    {
      && t.currentPriority < max
      && t.number == Number(max, t.currentPriority)
      && t.numberMask == NumberMask(max, t.currentPriority)
      && t.highMask == HighMask(max, t.currentPriority)
    }

    /** A thread that was never started has no bit to set or clear. */
    ghost predicate MasksUnset(t: Thread)
      reads t`currentPriority, t`number, t`numberMask, t`highMask
    {
      t.currentPriority < max && t.number == 0 && t.numberMask == 0 && t.highMask == 0
    }

    /** READY iff on the queue of the current priority; waiting, closed and unstarted threads are elsewhere. */
    ghost predicate InPlace(t: Thread)
      reads t`stat, t`tlist, t`currentPriority, t`number, t`numberMask, t`highMask, t`timerOn
    {
      && t.initPriority < max && t.currentPriority < max
      && (t.stat == Ready <==> t.tlist == On(ReadyRow(t.currentPriority)))
      && (t.tlist.On? && t.tlist.l.ReadyRow? ==> t.stat == Ready)
      && (t.tlist.On? && t.tlist.l.WaitList? ==> t.stat == Suspended)
      && (t.tlist == On(Defunct) ==> t.stat == Closed)
      && (MasksMatch(t) || (MasksUnset(t) && t.stat != Ready && t.stat != Suspended))
      && (t.timerOn ==> t.stat == Suspended)
    }

    ghost predicate AllInPlace()
      reads this`threads, threads`stat, threads`tlist, threads`currentPriority, threads`timerOn
      reads threads`number, threads`numberMask, threads`highMask
    {
      forall t :: t in threads ==> InPlace(t)
    }

    ghost predicate OthersInPlace(t: Thread)
      reads this`threads
      reads (threads - {t})`stat, (threads - {t})`tlist, (threads - {t})`currentPriority, (threads - {t})`timerOn
      reads (threads - {t})`number, (threads - {t})`numberMask, (threads - {t})`highMask
    {
      forall u :: u in threads - {t} ==> InPlace(u)
    }

    lemma SplitPlaces(t: Thread)
      requires AllInPlace() && t in threads
      ensures OthersInPlace(t) && InPlace(t)
    {
    }

    lemma JoinPlaces(t: Thread)
      requires OthersInPlace(t) && InPlace(t)
      ensures AllInPlace()
    {
    }

    ghost predicate Valid()
      reads this, threads
    {
      && Linked() && MarksExact()
      && AllInPlace()
      && (current != null ==> current in threads && current.stat != Init)
    }

    /** rt_system_scheduler_init, for a system with waitLists other list heads. */
    constructor (max: PriorityMax, waitLists: nat)
      ensures Valid() && threads == {} && this.max == max && current == null && lockNest == 0
      ensures forall l :: l in lists ==> lists[l] == []
      ensures forall w: nat :: WaitList(w) in lists <==> w < waitLists
    {
      hide Exact;
      this.max := max;
      lists := EmptyLists(max, waitLists);
      group, readyTable := 0, seq(32, i => 0);
      current, currentPriority, lockNest := null, max - 1, 0;
      threads := {};
      new;
      NothingMarked(max, Marks(group, readyTable), Table());
    }

    /** rt_thread_init makes a thread known to the system. */
    method Adopt(t: Thread)
      requires Valid() && t !in threads && t.initPriority == t.currentPriority < max
      requires t.stat == Init && t.tlist == Alone && !t.timerOn && t.number == t.numberMask == t.highMask == 0
      modifies this`threads
      ensures Valid() && threads == old(threads) + {t}
    {
      assert forall l :: l in lists ==> t !in lists[l];
      threads := threads + {t};
    }

    // ---------------------------------------------------------------- lists

    /** rt_list_remove on t's node. */
    method ListRemove(t: Thread)
      requires Linked() && t in threads
      modifies this`lists, t`tlist
      ensures Linked() && t.tlist == Alone && lists == Unhung(old(lists), old(t.tlist), t)
    {
      if t.tlist.On? {
        WithoutMembers(lists[t.tlist.l], t);
        lists := lists[t.tlist.l := Without(lists[t.tlist.l], t)];
      }
      t.tlist := Alone;
    }

    /** rt_list_insert_before / rt_list_insert_after, at place k of list l. */
    method ListInsert(l: ListId, k: nat, t: Thread)
      requires Linked() && t in threads && t.tlist == Alone && l in lists && k <= |lists[l]|
      modifies this`lists, t`tlist
      ensures Linked() && t.tlist == On(l) && lists == old(lists)[l := PutAt(old(lists)[l], k, t)]
    {
      PutAtMembers(lists[l], k, t);
      lists := lists[l := PutAt(lists[l], k, t)];
      t.tlist := On(l);
    }

    // ---------------------------------------------------------------- ready queues

    /** rt_schedule_insert_thread */
    method InsertThread(t: Thread)
      requires Linked() && MarksExact() && t in threads && t.tlist == Alone && MasksMatch(t)
      modifies this`lists, this`group, this`readyTable, t`tlist, t`stat
      ensures Linked() && MarksExact() && t.stat == Ready && t.tlist == On(ReadyRow(t.currentPriority))
      ensures var l := ReadyRow(t.currentPriority); lists == old(lists)[l := old(lists)[l] + [t]]
    {
      hide Exact, Distinct, Linked, SetMark, Fits;
      ghost var before, m, p := Table(), Marks(group, readyTable), t.currentPriority;
      var l := ReadyRow(t.currentPriority);
      t.stat := Ready;
      OnRow(p);
      ListInsert(l, |lists[l]|, t);
      assert PutAt(before[p], |before[p]|, t) == before[p] + [t];
      MarksFit(max, m, before);
      SetBits(t);
      SetMarkKeeps(max, m, before, Table(), p);
    }

    lemma OnRow(p: nat)
      requires Linked() && p < max
      ensures ReadyRow(p) in lists
    {
    }

    /** The bits of t's priority. */
    method SetBits(t: Thread)
      requires MasksMatch(t) && |readyTable| == 32
      modifies this`group, this`readyTable
      ensures |readyTable| == 32 && Marks(group, readyTable)
              == SetMark(max, old(Marks(group, readyTable)), t.currentPriority)
    {
      if max > 32 {
        NumberRange(max, t.currentPriority);
        readyTable := readyTable[t.number := Bits.Or(readyTable[t.number], t.highMask)];
      }
      group := Bits.Or(group, t.numberMask);
    }

    /** rt_schedule_remove_thread */
    method RemoveThread(t: Thread)
      requires Linked() && MarksExact() && t in threads
      requires MasksMatch(t) || (MasksUnset(t) && !(t.tlist.On? && t.tlist.l.ReadyRow?))
      requires t.tlist.On? && t.tlist.l.ReadyRow? ==> t.tlist.l.p == t.currentPriority
      modifies this`lists, this`group, this`readyTable, t`tlist
      ensures Linked() && MarksExact() && t.tlist == Alone
      ensures lists == Unhung(old(lists), old(t.tlist), t)
    {
      ghost var before, m, p := Table(), Marks(group, readyTable), t.currentPriority;
      MarksFit(max, m, before);
      ListRemove(t);
      hide Exact, Distinct, Linked;
      if lists[ReadyRow(t.currentPriority)] == [] {
        ClearBits(t);
        if t.numberMask == 0 {
          MasksPositive(max, p);
          assert Table() == before;
        } else {
          ClearMarkKeeps(max, m, before, Table(), p);
        }
      } else {
        StillFilled(max, m, before, Table(), p);
      }
    }

    /** The two &= of rt_schedule_remove_thread. */
    method ClearBits(t: Thread)
      requires (MasksMatch(t) || MasksUnset(t)) && |readyTable| == 32
      modifies this`group, this`readyTable
      ensures Marks(group, readyTable) ==
        if t.numberMask == 0 then old(Marks(group, readyTable))
          else ClearMark(max, old(Marks(group, readyTable)), t.currentPriority)
    {
      MasksPositive(max, t.currentPriority);
      Bits.AndNotNothing(group);
      if max > 32 {
        NumberRange(max, t.currentPriority);
        Bits.AndNotNothing(readyTable[t.number]);
        readyTable := readyTable[t.number := Bits.AndNot(readyTable[t.number], t.highMask)];
        if readyTable[t.number] == 0 {
          group := Bits.AndNot(group, t.numberMask);
        }
      } else {
        group := Bits.AndNot(group, t.numberMask);
      }
    }

    /** t is on the queue of the best priority any ready thread has, and first there. */
    ghost predicate IsTop(t: Thread)
      reads this, threads
      requires RowsPresent()
    {
      && t in threads && t.stat == Ready && t.currentPriority < max
      && lists[ReadyRow(t.currentPriority)] != [] && t == lists[ReadyRow(t.currentPriority)][0]
      && forall u :: u in threads && u.stat == Ready ==> t.currentPriority <= u.currentPriority
    }

    /** rt_schedule; the idle thread makes sure that somebody is ready. */
    method Schedule()
      requires Valid() && (lockNest == 0 ==> exists t :: t in threads && t.stat == Ready)
      modifies this`current, this`currentPriority
      ensures Valid()
      ensures if old(lockNest) == 0 then current != null && IsTop(current) else current == old(current)
      ensures current == old(current) ==> currentPriority == old(currentPriority)
      ensures current != null && current != old(current) ==> currentPriority == current.currentPriority
    {
      hide Linked, Exact;
      if lockNest == 0 {
        var to, highest := PickTop();
        if to != current {
          currentPriority := highest;
          current := to;
        }
      }
    }

    /** The head of the queue that the lowest mark names. */
    method PickTop() returns (to: Thread, highest: nat)
      requires Linked() && MarksExact() && AllInPlace() && exists t :: t in threads && t.stat == Ready
      ensures IsTop(to) && highest == to.currentPriority
    {
      hide Linked, Exact, Filled;
      ghost var r :| r in threads && r.stat == Ready;
      ReadyOnQueue(r);
      MarksFit(max, Marks(group, readyTable), Table());
      HighestIsSmallest(max, Marks(group, readyTable), Table());
      highest := Highest(max, Marks(group, readyTable));
      HeadIsTop(highest);
      to := lists[ReadyRow(highest)][0];
    }

    lemma ReadyOnQueue(t: Thread)
      requires Linked() && InPlace(t) && t in threads && t.stat == Ready
      ensures t in lists[ReadyRow(t.currentPriority)] && Filled(Table(), t.currentPriority)
    {
    }

    lemma HeadIsTop(p: nat)
      requires Linked() && AllInPlace() && p < max && Filled(Table(), p)
               && forall q :: 0 <= q < p ==> !Filled(Table(), q)
      ensures lists[ReadyRow(p)] != []
      ensures var t := lists[ReadyRow(p)][0]; IsTop(t) && t.currentPriority == p
    {
      var t := lists[ReadyRow(p)][0];
      assert t in lists[ReadyRow(p)];
      assert InPlace(t);
      forall u | u in threads && u.stat == Ready
        ensures p <= u.currentPriority
      {
        ReadyOnQueue(u);
      }
    }

    /** rt_enter_critical */
    method EnterCritical()
      requires Valid()
      modifies this`lockNest
      ensures Valid() && lockNest == old(lockNest) + 1
    {
      lockNest := lockNest + 1;
    }

    /** rt_exit_critical: leaving the outermost level schedules. */
    method ExitCritical()
      requires Valid() && exists t :: t in threads && t.stat == Ready
      modifies this`lockNest, this`current, this`currentPriority
      ensures Valid()
      ensures lockNest == if old(lockNest) > 0 then old(lockNest) - 1 else 0
      ensures lockNest == 0 && old(current) != null ==> current != null && IsTop(current)
      ensures lockNest > 0 || old(current) == null ==> current == old(current)
    {
      if lockNest > 1 {
        lockNest := lockNest - 1;
      } else {
        lockNest := 0;
        if current != null {
          Schedule();
        }
      }
    }

    // ---------------------------------------------------------------- thread states

    /** The first half of waking: off the wait list, if it is on one. */
    method Unwait(t: Thread)
      requires Linked() && MarksExact() && t in threads && !(t.tlist.On? && t.tlist.l.ReadyRow?)
      modifies this`lists, t`tlist
      ensures Linked() && MarksExact() && t.tlist == Alone && lists == Unhung(old(lists), old(t.tlist), t)
    {
      hide Exact, Distinct;
      ghost var before := Table();
      ListRemove(t);
      assert Table() == before;
    }

    /** rt_thread_resume: a suspended thread goes to the end of its queue, any other is refused. */
    method Resume(t: Thread) returns (err: int)
      requires Valid() && t in threads
      modifies this`lists, this`group, this`readyTable, t`tlist, t`stat, t`timerOn
      ensures Valid()
      ensures err == -RT_ERROR <==> old(t.stat) != Suspended
      ensures err == RT_EOK || err == -RT_ERROR
      ensures if old(t.stat) == Suspended
              then t.stat == Ready && lists == Woken(old(lists), old(t.tlist), t, t.currentPriority)
              else t.stat == old(t.stat) && lists == old(lists) && t.tlist == old(t.tlist)
                   && t.timerOn == old(t.timerOn)
    {
      hide Exact, Distinct, Linked, AllInPlace, OthersInPlace;
      SplitPlaces(t);
      if t.stat != Suspended {
        return -RT_ERROR;
      }
      Unwait(t);
      t.timerOn := false;
      InsertThread(t);
      JoinPlaces(t);
      err := RT_EOK;
    }

    /** rt_thread_startup */
    method Startup(t: Thread)
      requires Valid() && t in threads && t.stat == Init
      modifies this`lists, this`group, this`readyTable, this`current, this`currentPriority, t
      ensures Valid() && t.stat == Ready && t.currentPriority == t.initPriority
              && t.remainingTick == old(t.remainingTick)
      ensures lists == Woken(old(lists), Alone, t, t.initPriority)
      ensures if old(current) == null || lockNest > 0 then current == old(current)
              else current != null && IsTop(current)
    {
      hide Exact, Distinct, Linked, AllInPlace, OthersInPlace;
      SplitPlaces(t);
      SetPriority(t, t.initPriority);
      t.stat := Suspended;
      JoinPlaces(t);
      var err := Resume(t);
      if current != null {
        Schedule();
      }
    }

    /** The priority and the numbers computed from it. */
    method SetPriority(t: Thread, priority: nat)
      requires priority < max
      modifies t`currentPriority, t`number, t`numberMask, t`highMask
      ensures t.currentPriority == priority && MasksMatch(t)
    {
      t.currentPriority := priority;
      if max > 32 {
        t.number := priority / 8;
        t.numberMask := Bits.Shl1(t.number);
        t.highMask := Bits.Shl1(priority % 8);
      } else {
        t.number, t.highMask := 0, 0;
        t.numberMask := Bits.Shl1(priority);
      }
    }

    /** rt_thread_suspend: only a ready thread can be suspended. */
    method Suspend(t: Thread) returns (err: int)
      requires Valid() && t in threads
      modifies this`lists, this`group, this`readyTable, t`tlist, t`stat, t`timerOn
      ensures Valid()
      ensures err == if old(t.stat) == Ready then RT_EOK else -RT_ERROR
      ensures if old(t.stat) == Ready
              then t.stat == Suspended && t.tlist == Alone && !t.timerOn && lists == Unhung(old(lists), old(t.tlist), t)
              else t.stat == old(t.stat) && lists == old(lists) && t.tlist == old(t.tlist)
                   && t.timerOn == old(t.timerOn)
    {
      hide Exact, Distinct, Linked, AllInPlace, OthersInPlace;
      SplitPlaces(t);
      if t.stat != Ready {
        return -RT_ERROR;
      }
      t.stat := Suspended;
      RemoveThread(t);
      t.timerOn := false;
      JoinPlaces(t);
      err := RT_EOK;
    }

    /** rt_thread_control(RT_THREAD_CTRL_CHANGE_PRIORITY): a ready thread moves to the end of its new queue. */
    method ChangePriority(t: Thread, priority: nat)
      requires Valid() && t in threads && priority < max
      modifies this`lists, this`group, this`readyTable, t`tlist, t`stat, t`currentPriority, t`number, t`numberMask,
               t`highMask
      ensures Valid() && t.currentPriority == priority && t.stat == old(t.stat)
      ensures if t.stat == Ready then lists == Woken(old(lists), old(t.tlist), t, priority)
              && t.tlist == On(ReadyRow(priority))
              else lists == old(lists) && t.tlist == old(t.tlist)
    {
      hide Exact, Distinct, Linked, AllInPlace, OthersInPlace;
      SplitPlaces(t);
      if t.stat == Ready {
        RemoveThread(t);
        SetPriority(t, priority);
        InsertThread(t);
      } else {
        SetPriority(t, priority);
      }
      JoinPlaces(t);
    }

    /** The timer of a waiting thread expires: rt_thread_timeout. Its assertion that the thread is
        suspended holds because only suspended threads have a running timer. */
    method Timeout(t: Thread)
      requires Valid() && t in threads && t.timerOn
      modifies this`lists, this`group, this`readyTable, this`current, this`currentPriority, t`tlist, t`stat,
               t`timerOn, t`error
      ensures Valid() && old(t.stat) == Suspended && t.stat == Ready && t.error == -RT_ETIMEOUT && !t.timerOn
      ensures lists == Woken(old(lists), old(t.tlist), t, t.currentPriority)
      ensures if lockNest == 0 then current != null && IsTop(current) else current == old(current)
    {
      hide Exact, Distinct, Linked, AllInPlace, OthersInPlace;
      SplitPlaces(t);
      assert t.stat == Suspended;
      t.timerOn := false;
      t.error := -RT_ETIMEOUT;
      Unwait(t);
      InsertThread(t);
      JoinPlaces(t);
      Schedule();
    }

    /** rt_thread_sleep up to the switch: the caller is suspended and its timer started. */
    method Sleep()
      requires Valid() && current != null && current.stat == Ready
      requires exists t :: t in threads && t != current && t.stat == Ready
      modifies this`lists, this`group, this`readyTable, this`current, this`currentPriority
      modifies current`tlist, current`stat, current`timerOn
      ensures Valid() && var t: Thread := old(current);
              t.stat == Suspended && t.timerOn && t.tlist == Alone && lists == Unhung(old(lists), old(current.tlist), t)
      ensures current != null && (if lockNest == 0 then IsTop(current) else current == old(current))
    {
      hide Exact, Distinct, Linked, AllInPlace, OthersInPlace;
      var t := current;
      var err := Suspend(t);
      StartTimer(t);
      Schedule();
    }

    /** The end of rt_thread_sleep, once t runs again: a timeout is no error. */
    method EndSleep(t: Thread)
      requires Valid() && t in threads
      modifies t`error
      ensures Valid() && t.error != -RT_ETIMEOUT && (old(t.error) != -RT_ETIMEOUT ==> t.error == old(t.error))
    {
      hide Exact, Distinct;
      if t.error == -RT_ETIMEOUT {
        t.error := RT_EOK;
      }
    }

    /** Onto the front of the defunct list. */
    method Defer(t: Thread)
      requires Linked() && MarksExact() && t in threads && t.tlist == Alone
      modifies this`lists, t`tlist
      ensures Linked() && MarksExact() && t.tlist == On(Defunct)
              && lists == old(lists)[Defunct := [t] + old(lists)[Defunct]]
    {
      hide Exact, Distinct, Linked;
      ghost var before := Table();
      assert PutAt(lists[Defunct], 0, t) == [t] + lists[Defunct];
      ListInsert(Defunct, 0, t);
      assert Table() == before;
    }

    /** Off every list for good. */
    method Retire(t: Thread)
      requires Valid() && t in threads
      modifies this`lists, this`group, this`readyTable, t`tlist, t`stat, t`timerOn
      ensures Valid() && t.stat == Closed && !t.timerOn && t.tlist == Alone
      ensures lists == Unhung(old(lists), old(t.tlist), t)
    {
      hide Exact, Distinct, Linked, AllInPlace, OthersInPlace;
      SplitPlaces(t);
      if t.stat != Init {
        RemoveThread(t);
      }
      t.timerOn := false;
      t.stat := Closed;
      JoinPlaces(t);
    }

    /** The common part of rt_thread_exit, rt_thread_detach and rt_thread_delete: the thread leaves whatever
        list it is on, and is handed to the idle thread if somebody has to clean up. */
    method Close(t: Thread)
      requires Valid() && t in threads
      modifies this`lists, this`group, this`readyTable, t`tlist, t`stat, t`timerOn
      ensures Valid() && t.stat == Closed && !t.timerOn
      ensures var rest := Unhung(old(lists), old(t.tlist), t);
              lists == if t.Reaped() then rest[Defunct := [t] + rest[Defunct]] else rest
    {
      hide Exact, Distinct, Linked, AllInPlace, OthersInPlace;
      Retire(t);
      SplitPlaces(t);
      if t.Reaped() {
        Defer(t);
        JoinPlaces(t);
      }
    }

    /** rt_thread_delete, for created threads only: the idle thread always finishes them off. */
    method Delete(t: Thread)
      requires Valid() && t in threads && !t.isStatic
      modifies this`lists, this`group, this`readyTable, t`tlist, t`stat, t`timerOn
      ensures Valid() && t.stat == Closed && !t.timerOn
      ensures var rest := Unhung(old(lists), old(t.tlist), t); lists == rest[Defunct := [t] + rest[Defunct]]
    {
      Close(t);
    }

    /** rt_thread_detach, for static threads only. */
    method Detach(t: Thread)
      requires Valid() && t in threads && t.isStatic
      modifies this`lists, this`group, this`readyTable, t`tlist, t`stat, t`timerOn
      ensures Valid() && t.stat == Closed && !t.timerOn
      ensures var rest := Unhung(old(lists), old(t.tlist), t);
              lists == if t.hasCleanup then rest[Defunct := [t] + rest[Defunct]] else rest
    {
      Close(t);
    }

    /** rt_thread_exit */
    method Exit()
      requires Valid() && current != null
      requires exists t :: t in threads && t != current && t.stat == Ready
      modifies this`lists, this`group, this`readyTable, this`current, this`currentPriority
      modifies current`tlist, current`stat, current`timerOn
      ensures Valid() && old(current).stat == Closed
      ensures var t: Thread := old(current);
              var rest := Unhung(old(lists), old(current.tlist), t);
              lists == if t.Reaped() then rest[Defunct := [t] + rest[Defunct]] else rest
      ensures current != null && (if lockNest == 0 then IsTop(current) else current == old(current))
    {
      Close(current);
      Schedule();
    }

    /** From its place in its ready queue to the end of it. */
    method Requeue(t: Thread)
      requires Linked() && MarksExact() && t in threads && t.tlist == On(ReadyRow(t.currentPriority))
      modifies this`lists, t`tlist
      ensures Linked() && MarksExact() && t.tlist == old(t.tlist)
      ensures var l := t.tlist.l; lists == old(lists)[l := Without(old(lists)[l], t) + [t]]
    {
      var l := t.tlist.l;
      assert t in lists[l];
      hide Exact, Distinct, Linked;
      ghost var before := Table();
      ListRemove(t);
      assert PutAt(lists[l], |lists[l]|, t) == lists[l] + [t];
      ListInsert(l, |lists[l]|, t);
      StillFilled(max, Marks(group, readyTable), before, Table(), t.currentPriority);
    }

    /** rt_thread_yield: a ready thread that shares its priority goes to the end of the queue. */
    method Yield()
      requires Valid() && current != null
      modifies this`lists, this`current, this`currentPriority, current`tlist
      ensures Valid()
      ensures old(current).tlist == old(current.tlist)
      ensures var t: Thread := old(current);
              if t.stat == Ready && |old(lists)[t.tlist.l]| > 1
              then lists == old(lists)[t.tlist.l := Without(old(lists)[t.tlist.l], t) + [t]]
                   && current != null && (if lockNest == 0 then IsTop(current) else current == t)
              else lists == old(lists) && current == t
    {
      hide Exact, Distinct, Linked, AllInPlace, OthersInPlace;
      SplitPlaces(current);
      var t: Thread := current;
      if t.stat == Ready {
        ReadyOnQueue(t);
      }
      if t.stat == Ready && |lists[t.tlist.l]| != 1 {
        Requeue(t);
        JoinPlaces(t);
        Schedule();
      }
    }

    // ---------------------------------------------------------------- wait lists

    /** The place rt_ipc_list_suspend takes: last, or in priority mode before the first worse waiter. */
    method WaitPlace(w: nat, t: Thread, prio: bool) returns (k: nat)
      requires WaitList(w) in lists
      ensures var q := lists[WaitList(w)];
              k <= |q| && (if prio then (forall j :: 0 <= j < k ==> q[j].currentPriority <= t.currentPriority)
                                        && (k < |q| ==> t.currentPriority < q[k].currentPriority)
                           else k == |q|)
    {
      var q := lists[WaitList(w)];
      if !prio {
        return |q|;
      }
      k := 0;
      while k < |q| && !(t.currentPriority < q[k].currentPriority)
        invariant k <= |q| && forall j :: 0 <= j < k ==> q[j].currentPriority <= t.currentPriority
      {
        k := k + 1;
      }
    }

    /** rt_ipc_list_suspend */
    method SuspendOn(w: nat, t: Thread, prio: bool)
      requires Valid() && t in threads && t.stat == Ready && WaitList(w) in lists
      modifies this`lists, this`group, this`readyTable, t`tlist, t`stat, t`timerOn
      ensures Valid() && t.stat == Suspended && t.tlist == On(WaitList(w)) && !t.timerOn
      ensures exists k :: IsWaitPlace(old(lists)[WaitList(w)], t, prio, k) &&
                          lists == Unhung(old(lists), old(t.tlist), t)
                            [WaitList(w) := PutAt(old(lists)[WaitList(w)], k, t)]
    {
      hide Exact, Distinct, Linked, AllInPlace, OthersInPlace;
      SplitPlaces(t);
      var err := Suspend(t);
      var k := WaitPlace(w, t, prio);
      assert IsWaitPlace(lists[WaitList(w)], t, prio, k);
      ghost var before := Table();
      ListInsert(WaitList(w), k, t);
      assert Table() == before;
      JoinPlaces(t);
    }

    /** The blocking branch of the take and receive calls of ipc.c, up to the switch: the caller joins a wait
        list, and with a time to wait its timer is started. */
    method Wait(w: nat, prio: bool, timed: bool)
      requires Valid() && current != null && current.stat == Ready && WaitList(w) in lists
      requires exists t :: t in threads && t != current && t.stat == Ready
      modifies this`lists, this`group, this`readyTable, this`current, this`currentPriority
      modifies current`tlist, current`stat, current`timerOn, current`error
      ensures Valid() && var t: Thread := old(current);
              && t.stat == Suspended && t.tlist == On(WaitList(w)) && (t.timerOn <==> timed) && t.error == RT_EOK
              && exists k :: IsWaitPlace(old(lists)[WaitList(w)], t, prio, k) &&
                   lists == Unhung(old(lists), old(current.tlist), t)
                     [WaitList(w) := PutAt(old(lists)[WaitList(w)], k, t)]
      ensures current != null && (if lockNest == 0 then IsTop(current) else current == old(current))
    {
      hide Exact, Distinct, Linked, AllInPlace, OthersInPlace;
      var t: Thread := current;
      Clear(t);
      SuspendOn(w, t, prio);
      if timed {
        StartTimer(t);
      }
      Schedule();
    }

    method Clear(t: Thread)
      requires Valid() && t in threads
      modifies t`error
      ensures Valid() && t.error == RT_EOK
    {
      hide Exact, Distinct;
      t.error := RT_EOK;
    }

    /** rt_timer_start on the timer of a suspended thread. */
    method StartTimer(t: Thread)
      requires Valid() && t in threads && t.stat == Suspended
      modifies t`timerOn
      ensures Valid() && t.timerOn
    {
      hide Exact, Distinct, Linked, AllInPlace, OthersInPlace;
      SplitPlaces(t);
      t.timerOn := true;
      JoinPlaces(t);
    }

    function Waiting(w: nat): seq<Thread>
      reads this`lists
    {
      if WaitList(w) in lists then lists[WaitList(w)] else []
    }

    ghost function Heads(w: nat): set<Thread>
      reads this`lists
    {
      if Waiting(w) != [] then {Waiting(w)[0]} else {}
    }

    /** rt_ipc_list_resume */
    method WakeFirst(w: nat)
      requires Valid() && WaitList(w) in lists && lists[WaitList(w)] != []
      modifies this`lists, this`group, this`readyTable
      modifies Heads(w)`tlist, Heads(w)`stat, Heads(w)`timerOn
      ensures Valid()
      ensures var q := old(lists)[WaitList(w)];
              q[0].stat == Ready && ReadyRow(q[0].currentPriority) in old(lists) &&
              lists == MoveHead(old(lists), w, q[0].currentPriority)
    {
      WaiterWaits(w);
      hide Exact, Distinct, Linked;
      var err := Resume(lists[WaitList(w)][0]);
    }

    lemma WaiterWaits(w: nat)
      requires Valid() && WaitList(w) in lists && lists[WaitList(w)] != []
      ensures var t := lists[WaitList(w)][0]; t in threads && t.stat == Suspended && t.tlist == On(WaitList(w))
    {
      assert lists[WaitList(w)][0] in lists[WaitList(w)];
    }

    method WakeWithError(w: nat)
      requires Valid() && WaitList(w) in lists && lists[WaitList(w)] != []
      modifies this`lists, this`group, this`readyTable
      modifies Heads(w)`tlist, Heads(w)`stat, Heads(w)`timerOn, Heads(w)`error
      ensures Valid()
      ensures var q := old(lists)[WaitList(w)];
              q[0].stat == Ready && q[0].error == -RT_ERROR && ReadyRow(q[0].currentPriority) in old(lists) &&
              lists == MoveHead(old(lists), w, q[0].currentPriority)
    {
      hide Exact, Distinct, Linked, AllInPlace;
      WaiterWaits(w);
      var t := lists[WaitList(w)][0];
      t.error := -RT_ERROR;
      WakeFirst(w);
    }

    /** rt_ipc_list_resume_all: every waiter is ready with an error, each behind those before it. */
    method WakeAll(w: nat)
      requires Valid() && WaitList(w) in lists
      modifies this`lists, this`group, this`readyTable
      modifies Waiting(w)`tlist, Waiting(w)`stat, Waiting(w)`timerOn, Waiting(w)`error
      ensures Valid()
      ensures lists.Keys == old(lists).Keys && lists[WaitList(w)] == []
      ensures forall t :: t in old(lists)[WaitList(w)] ==> t.stat == Ready && t.error == -RT_ERROR
      ensures forall p :: 0 <= p < max ==>
                lists[ReadyRow(p)] == old(lists)[ReadyRow(p)] + OfPriority(old(lists)[WaitList(w)], p)
    {
      hide Exact, Distinct, Linked, AllInPlace, OfPriority, MasksMatch, MasksUnset;
      ghost var q := lists[WaitList(w)];
      ghost var n := 0;
      NoneOfPriority();
      while lists[WaitList(w)] != []
        invariant WaitList(w) in lists && n <= |q| && Valid() && lists.Keys == old(lists).Keys
        invariant lists[WaitList(w)] == q[n..]
        invariant forall t :: t in q[..n] ==> t.stat == Ready && t.error == -RT_ERROR
        invariant forall p :: 0 <= p < max ==>
                    lists[ReadyRow(p)] == old(lists)[ReadyRow(p)] + OfPriority(q[..n], p)
        decreases |q| - n
      {
        WakeWithError(w);
        OfPriorityGrows(q, n);
        forall p | 0 <= p < max
          ensures lists[ReadyRow(p)] == old(lists)[ReadyRow(p)] + OfPriority(q[..n + 1], p)
        {
          var was, more := OfPriority(q[..n], p), if q[n].currentPriority == p then [q[n]] else [];
          assert lists[ReadyRow(p)] == (old(lists)[ReadyRow(p)] + was) + more == old(lists)[ReadyRow(p)] + (was + more);
        }
        n := n + 1;
      }
      assert q[..n] == q;
    }

    // ---------------------------------------------------------------- clock ticks

    /** The threads of a ready queue with their slices. */
    ghost function Slices(p: nat): (r: seq<RoundRobin.Slot<Thread>>)
      reads this`lists, (if ReadyRow(p) in lists then lists[ReadyRow(p)] else [])`remainingTick
      requires ReadyRow(p) in lists
    {
      SlicesOf(lists[ReadyRow(p)])
    }

    /** The time-slice part of rt_tick_increase, with the counter's 32-bit wrap. */
    method Tick()
      requires Valid() && current != null
      modifies this`lists, this`current, this`currentPriority, current`tlist, current`remainingTick
      ensures Valid() && lockNest == old(lockNest)
      ensures old(current).remainingTick == if old(current.remainingTick) == 1 then old(current).initTick
                                            else Down(old(current.remainingTick))
      ensures var t: Thread := old(current);
              t.tlist == old(t.tlist) &&
              if old(t.remainingTick) == 1 && t.stat == Ready && |old(lists)[t.tlist.l]| > 1
              then lists == old(lists)[t.tlist.l := Without(old(lists)[t.tlist.l], t) + [t]]
                   && current != null && (lockNest == 0 ==> IsTop(current))
              else current == t && lists == old(lists)
    {
      hide Exact, Distinct, Linked, AllInPlace;
      var t: Thread := current;
      t.remainingTick := Down(t.remainingTick);
      if t.remainingTick == 0 {
        t.remainingTick := t.initTick;
        Yield();
      }
    }

    /** A clock tick in round robin: the current thread is the first of the best queue. */
    method QuietTick(p: nat)
      requires Valid() && lockNest == 0 && current != null && IsTop(current) && current.currentPriority == p
      requires RoundRobin.Running(Slices(p))
      modifies this`lists, this`current, this`currentPriority, current`tlist, current`remainingTick
      ensures Valid() && lockNest == 0 && current != null && IsTop(current) && current.currentPriority == p
      ensures Slices(p) == RoundRobin.Tick(old(Slices(p)))
    {
      hide Exact, Linked, AllInPlace;
      ghost var q := lists[ReadyRow(p)];
      RowDistinct(p);
      SplitPlaces(current);
      Tick();
      assert lists[ReadyRow(p)] == q || lists[ReadyRow(p)] == q[1..] + [q[0]];
    }

    /** k clock ticks with no other event. */
    method QuietTicks(k: nat, p: nat)
      requires Valid() && lockNest == 0 && current != null && IsTop(current) && current.currentPriority == p
      requires RoundRobin.Running(Slices(p))
      modifies this`lists, this`current, this`currentPriority, threads`tlist, threads`remainingTick
      ensures Valid() && lockNest == 0 && current != null && IsTop(current) && current.currentPriority == p
      ensures Slices(p) == RoundRobin.Ticks(old(Slices(p)), k)
    {
      hide Exact, Linked, AllInPlace, RoundRobin.Ticks, RoundRobin.Tick, RoundRobin.Running;
      ghost var q := Slices(p);
      RoundRobin.NoTicks(q, current);
      var n := 0;
      while n < k
        invariant n <= k && Valid() && lockNest == 0 && current != null && IsTop(current)
                  && current.currentPriority == p
        invariant RoundRobin.Running(Slices(p)) && Slices(p) == RoundRobin.Ticks(q, n)
      {
        RoundRobin.OneMoreTick(q, n);
        QuietTick(p);
        n := n + 1;
      }
    }

    /** A full round: as many ticks as all the slices together put the queue and every slice back. */
    method QuietRound(k: nat, p: nat)
      requires Valid() && lockNest == 0 && current != null && IsTop(current) && current.currentPriority == p
      requires RoundRobin.Fresh(Slices(p)) && k == RoundRobin.Total(Slices(p))
      modifies this`lists, this`current, this`currentPriority, threads`tlist, threads`remainingTick
      ensures Valid() && lists[ReadyRow(p)] == old(lists)[ReadyRow(p)] && current == old(current)
      ensures forall t :: t in lists[ReadyRow(p)] ==> t.remainingTick == t.initTick == old(t.remainingTick)
    {
      hide Exact, Linked, AllInPlace;
      ghost var q := Slices(p);
      RowDistinct(p);
      assert RoundRobin.DistinctThreads(q);
      RoundRobin.RoundRobinIsExact(q);
      QuietTicks(k, p);
      SameSlices(Slices(p), lists[ReadyRow(p)], old(lists)[ReadyRow(p)]);
    }

    lemma SameSlices(s: seq<RoundRobin.Slot<Thread>>, q: seq<Thread>, was: seq<Thread>)
      requires |s| == |q| == |was| && forall i :: 0 <= i < |s| ==> s[i].t == q[i] == was[i]
      ensures q == was
    {
    }

    lemma RowDistinct(p: nat)
      requires Linked() && ReadyRow(p) in lists
      ensures Distinct(lists[ReadyRow(p)])
    {
    }
  }

  /** A 32-bit counter one down. */
  function Down(x: nat): nat {
    if x == 0 then TICK_RANGE - 1 else x - 1
  }

  ghost function SlicesOf(q: seq<Thread>): (r: seq<RoundRobin.Slot<Thread>>)
    reads q`remainingTick
    ensures |r| == |q|
    ensures forall i :: 0 <= i < |q| ==> r[i] == RoundRobin.Slot(q[i], q[i].remainingTick, q[i].initTick)
  {
    if q == [] then []
    else [RoundRobin.Slot(q[0], q[0].remainingTick, q[0].initTick)] + SlicesOf(q[1..])
  }

  lemma NoneOfPriority()
    ensures forall p :: OfPriority([], p) == []
  {
  }

  lemma OfPriorityGrows(q: seq<Thread>, n: nat)
    requires n < |q|
    ensures q[..n + 1] == q[..n] + [q[n]] && q[n..][1..] == q[n + 1..]
    ensures forall p ::
              OfPriority(q[..n + 1], p) == OfPriority(q[..n], p) + if q[n].currentPriority == p then [q[n]] else []
  {
    assert q[..n + 1][..n] == q[..n];
  }

  ghost predicate IsWaitPlace(q: seq<Thread>, t: Thread, prio: bool, k: nat)
    reads q, t
  {
    && k <= |q|
    && (if prio then (forall j :: 0 <= j < k ==> q[j].currentPriority <= t.currentPriority)
                     && (k < |q| ==> t.currentPriority < q[k].currentPriority)
        else k == |q|)
  }

  /** The threads of q with priority p, in order. */
  ghost function OfPriority(q: seq<Thread>, p: nat): seq<Thread>
    reads q`currentPriority
  {
    if q == [] then []
    else
      var init := q[..|q| - 1];
      var t := q[|q| - 1];
      OfPriority(init, p) + if t.currentPriority == p then [t] else []
  }

  lemma MarksFit<T>(max: PriorityMax, m: Marks, table: seq<seq<T>>)
    requires Exact(max, m, table)
    ensures |m.bytes| == 32 && Fits(m)
  {
  }

  lemma MasksPositive(max: PriorityMax, p: nat)
    ensures NumberMask(max, p) > 0
  {
  }

  lemma NumberRange(max: PriorityMax, p: nat)
    requires p < max && max > 32
    ensures Number(max, p) == p / 8 < 32
  {
  }

  /** Nothing to clear while the queue still has a thread. */
  lemma StillFilled<T>(max: PriorityMax, m: Marks, table: seq<seq<T>>, table': seq<seq<T>>, p: nat)
    requires Exact(max, m, table) && p < max && |table'| == max && table'[p] != [] && table[p] != []
    requires forall q :: 0 <= q < max && q != p ==> table'[q] == table[q]
    ensures Exact(max, m, table')
  {
    forall q | 0 <= q < Top(max)
      ensures Marked(max, m, q) == Filled(table', q)
    {
      assert Marked(max, m, q) == Filled(table, q);
    }
  }

  lemma NothingMarked<T>(max: PriorityMax, m: Marks, table: seq<seq<T>>)
    requires m.group == 0 && m.bytes == seq(32, i => 0) && |table| == max
    requires forall p :: 0 <= p < max ==> table[p] == []
    ensures Exact(max, m, table)
  {
    forall p | 0 <= p < Top(max)
      ensures !Marked(max, m, p)
    {
      Bits.BitOfZero(p);
      SplitPriority(p, p);
      Bits.BitOfZero(p % 8);
    }
    forall n | 0 <= n < 32
      ensures Summed(m, n)
    {
      Bits.BitOfZero(n);
    }
  }
}
