/** The mutex of rt-thread/src/ipc.c in priority mode, with priority inheritance, for threads that hold
    no other mutex and whose priority nobody else changes. Smaller numbers are better priorities. */
module Mutex {
  import opened RtDef
  import opened Sequences

  type Priority = p: nat | p < 256

  datatype Owner = Nobody | By(t: Tid)

  /** prio is every thread's current_priority, base the one it had before it came near the mutex. */
  datatype State = State(value: nat, owner: Owner, original: Priority, hold: nat, waiting: seq<Tid>,
                         prio: map<Tid, Priority>, base: map<Tid, Priority>)

  datatype Event = Take(t: Tid, block: bool) | Release(t: Tid) | Timeout(t: Tid)

  ghost predicate Queue(a: seq<Tid>, prio: map<Tid, Priority>) {
    && Distinct(a)
    && (forall i :: 0 <= i < |a| ==> a[i] in prio)
    && forall i, j :: 0 <= i < j < |a| ==> prio[a[i]] <= prio[a[j]]
  }

  /** Held or free, never both; waiters only while held; nobody waits for a worse-placed owner; and only
      the owner's priority may differ from its own, upwards. */
  ghost predicate Inv(s: State) {
    && s.prio.Keys == s.base.Keys
    && Queue(s.waiting, s.prio)
    && (s.owner == Nobody ==> s.value == 1 && s.hold == 0 && s.waiting == [] && s.original == 0xff)
    && (s.owner != Nobody ==> s.value == 0 && 0 < s.hold < 256 && Owned(s, s.owner.t))
    && forall t :: t in s.prio && s.owner != By(t) ==> s.prio[t] == s.base[t]
  }

  ghost predicate Owned(s: State, o: Tid)
    requires s.prio.Keys == s.base.Keys && Queue(s.waiting, s.prio)
  {
    && o in s.prio && o !in s.waiting
    && s.original == s.base[o]
    && s.prio[o] <= s.original
    && forall w :: w in s.waiting ==> w in s.prio && s.prio[o] <= s.prio[w]
  }

  /** A thread acts when it is not waiting; the count of nested takes fits its 8-bit field. */
  predicate Enabled(s: State, e: Event) {
    match e
    case Take(t, _) => t in s.prio && t !in s.waiting && (s.owner == By(t) ==> s.hold < 255)
                       && (s.owner != Nobody ==> s.owner.t in s.prio) && forall w :: w in s.waiting ==> w in s.prio
    case Release(t) => t in s.prio && t !in s.waiting && forall w :: w in s.waiting ==> w in s.prio
    case Timeout(t) => t in s.waiting
  }

  /** The place rt_ipc_list_suspend finds: before the first thread with a worse priority. */
  function Place(a: seq<Tid>, prio: map<Tid, Priority>, p: Priority): (k: nat)
    requires forall w :: w in a ==> w in prio
    ensures k <= |a|
    ensures forall j :: 0 <= j < k ==> prio[a[j]] <= p
    ensures k < |a| ==> p < prio[a[k]]
  {
    if a == [] || p < prio[a[0]] then 0 else 1 + Place(a[1..], prio, p)
  }

  function Wait(s: State, t: Tid): State
    requires Enabled(s, Take(t, true)) && s.owner != Nobody
  {
    var o := s.owner.t;
    var k := Place(s.waiting, s.prio, s.prio[t]);
    s.(prio := if s.prio[t] < s.prio[o] then s.prio[o := s.prio[t]] else s.prio,
       waiting := s.waiting[..k] + [t] + s.waiting[k..])
  }

  function LetGo(s: State, t: Tid): State
    requires Enabled(s, Release(t))
  {
    var prio := s.prio[t := s.original];
    if s.waiting != [] then
      var w := s.waiting[0];
      s.(prio := prio, owner := By(w), original := prio[w], hold := 1, waiting := s.waiting[1..])
    else
      s.(prio := prio, value := s.value + 1, owner := Nobody, original := 0xff, hold := 0)
  }

  function Apply(s: State, e: Event): State
    requires Enabled(s, e)
  {
    match e
    case Take(t, block) =>
      if s.owner == By(t) then s.(hold := s.hold + 1)
      else if s.value > 0 then s.(value := s.value - 1, owner := By(t), original := s.prio[t], hold := s.hold + 1)
      else if block && s.owner != Nobody then Wait(s, t)
      else s
    case Release(t) =>
      if s.owner != By(t) then s
      else if s.hold > 1 then s.(hold := s.hold - 1)
      else LetGo(s, t)
    case Timeout(t) => s.(waiting := Without(s.waiting, t))
  }

  ghost predicate IsRun(trace: seq<State>, events: seq<Event>) {
    && |trace| == |events| + 1
    && forall k :: 0 <= k < |events| ==> Enabled(trace[k], events[k]) && trace[k + 1] == Apply(trace[k], events[k])
  }

  // ---------------------------------------------------------------- the queue

  lemma PlaceBeforeWorse(a: seq<Tid>, prio: map<Tid, Priority>, t: Tid)
    requires Queue(a, prio) && t in prio && forall w :: w in a ==> w in prio
    ensures var k := Place(a, prio, prio[t]); forall j :: k <= j < |a| ==> prio[t] < prio[a[j]]
  {
  }

  /** t stands behind everybody at least as urgent and before everybody less urgent. */
  ghost predicate QueuedBehindEquals(a: seq<Tid>, b: seq<Tid>, prio: map<Tid, Priority>, t: Tid) {
    t in prio && (forall w :: w in a ==> w in prio)
    && exists k: nat :: k <= |a| && b == a[..k] + [t] + a[k..] && FitsAt(a, prio, prio[t], k)
  }

  ghost predicate FitsAt(a: seq<Tid>, prio: map<Tid, Priority>, p: Priority, k: nat)
    requires forall w :: w in a ==> w in prio
  {
    k <= |a| && (forall j :: 0 <= j < k ==> prio[a[j]] <= p) && forall j :: k <= j < |a| ==> p < prio[a[j]]
  }

  lemma PlaceFits(a: seq<Tid>, prio: map<Tid, Priority>, t: Tid)
    requires Queue(a, prio) && t in prio && forall w :: w in a ==> w in prio
    ensures var k := Place(a, prio, prio[t]); QueuedBehindEquals(a, a[..k] + [t] + a[k..], prio, t)
  {
    PlaceBeforeWorse(a, prio, t);
    var k := Place(a, prio, prio[t]);
    assert FitsAt(a, prio, prio[t], k);
  }

  lemma PlaceKeepsQueue(a: seq<Tid>, prio: map<Tid, Priority>, t: Tid)
    requires Queue(a, prio) && t in prio && t !in a && forall w :: w in a ==> w in prio
    ensures var k := Place(a, prio, prio[t]); Queue(a[..k] + [t] + a[k..], prio)
  {
    PlaceBeforeWorse(a, prio, t);
    var k := Place(a, prio, prio[t]);
    hide Place;
    var b := a[..k] + [t] + a[k..];
    forall i | 0 <= i < |b|
      ensures b[i] == if i < k then a[i] else if i == k then t else a[i - 1]
    {
    }
  }

  lemma TailQueue(a: seq<Tid>, prio: map<Tid, Priority>)
    requires Queue(a, prio) && a != []
    ensures Queue(a[1..], prio) && a[0] in prio && a == [a[0]] + a[1..]
    ensures forall y :: y in a[1..] ==> y in prio && prio[a[0]] <= prio[y] && y != a[0]
  {
    var rest := a[1..];
    assert forall i :: 0 <= i < |rest| ==> rest[i] == a[i + 1];
  }

  lemma ConsQueue(x: Tid, r: seq<Tid>, prio: map<Tid, Priority>)
    requires Queue(r, prio) && x in prio && forall y :: y in r ==> y in prio && prio[x] <= prio[y] && y != x
    ensures Queue([x] + r, prio)
  {
    var a := [x] + r;
    assert forall i :: 0 < i < |a| ==> a[i] == r[i - 1] && r[i - 1] in r;
  }

  lemma {:induction false} WithoutKeepsQueue(a: seq<Tid>, prio: map<Tid, Priority>, x: Tid)
    requires Queue(a, prio)
    ensures Queue(Without(a, x), prio)
    ensures forall y :: y in Without(a, x) <==> y in a && y != x
  {
    if a != [] {
      TailQueue(a, prio);
      if a[0] != x {
        WithoutKeepsQueue(a[1..], prio, x);
        ConsQueue(a[0], Without(a[1..], x), prio);
      }
    }
  }

  /** Raising the owner does not disturb the queue it is not in. */
  lemma QueueOfOthers(a: seq<Tid>, prio: map<Tid, Priority>, o: Tid, p: Priority)
    requires Queue(a, prio) && o !in a
    ensures Queue(a, prio[o := p])
  {
    assert forall i :: 0 <= i < |a| ==> a[i] in a;
  }

  // ---------------------------------------------------------------- steps

  lemma InsertMembers(a: seq<Tid>, k: nat, t: Tid)
    requires k <= |a|
    ensures forall x :: x in a[..k] + [t] + a[k..] <==> x in a || x == t
  {
    assert a == a[..k] + a[k..];
  }

  lemma WaitKeeps(s: State, t: Tid)
    requires Inv(s) && Enabled(s, Take(t, true)) && s.owner != Nobody && s.owner != By(t)
    ensures Inv(Wait(s, t))
  {
    hide Place, Queue;
    var s', o := Wait(s, t), s.owner.t;
    PlaceKeepsQueue(s.waiting, s.prio, t);
    InsertMembers(s.waiting, Place(s.waiting, s.prio, s.prio[t]), t);
    QueueOfOthers(s'.waiting, s.prio, o, s.prio[t]);
  }

  lemma QueueHead(a: seq<Tid>, prio: map<Tid, Priority>)
    requires Queue(a, prio) && a != []
    ensures Queue(a[1..], prio) && forall v :: v in a ==> v in prio && prio[a[0]] <= prio[v]
    ensures forall v :: v in a <==> v == a[0] || v in a[1..]
    ensures a[0] !in a[1..]
  {
    assert a == [a[0]] + a[1..];
    assert forall i :: 0 <= i < |a[1..]| ==> a[1..][i] == a[i + 1];
  }

  /** The last release gives the thread its own priority back, and the mutex to the best waiter. */
  lemma LetGoKeeps(s: State, t: Tid)
    requires Inv(s) && Enabled(s, Release(t)) && s.owner == By(t)
    ensures Inv(LetGo(s, t))
    ensures LetGo(s, t).prio[t] == s.base[t]
    ensures s.waiting != [] ==>
              var s' := LetGo(s, t);
              s'.owner == By(s.waiting[0]) && forall w :: w in s.waiting ==> s'.prio[s.waiting[0]] <= s'.prio[w]
  {
    hide Queue;
    QueueOfOthers(s.waiting, s.prio, t, s.original);
    if s.waiting != [] {
      QueueHead(s.waiting, s.prio[t := s.original]);
    }
  }

  lemma StepKeeps(s: State, e: Event)
    requires Inv(s) && Enabled(s, e)
    ensures Inv(Apply(s, e)) && Apply(s, e).base == s.base
  {
    match e
    case Take(t, block) =>
      if s.owner != By(t) && s.owner != Nobody && block {
        WaitKeeps(s, t);
      }
    case Release(t) =>
      if s.owner == By(t) && s.hold == 1 {
        LetGoKeeps(s, t);
      }
    case Timeout(t) =>
      WithoutKeepsQueue(s.waiting, s.prio, t);
  }

  function Start(base: map<Tid, Priority>): State {
    State(1, Nobody, 0xff, 0, [], base, base)
  }

  /** Over any run of takes, nested takes, releases and timeouts. When the mutex is free again every
      thread has exactly the priority it started with. */
  lemma {:induction false} RunKeeps(trace: seq<State>, events: seq<Event>, base: map<Tid, Priority>)
    requires IsRun(trace, events) && trace[0] == Start(base)
    ensures var s := trace[|events|];
            Inv(s) && s.base == base && (s.owner == Nobody ==> s.prio == base)
  {
    if events != [] {
      var m := |events| - 1;
      RunKeeps(trace[..m + 1], events[..m], base);
      StepKeeps(trace[m], events[m]);
    }
    var s := trace[|events|];
    assert Inv(s) && s.base == base;
  }

  /** How often t takes the mutex among the events. */
  function Takes(events: seq<Event>, t: Tid): nat {
    if events == [] then 0
    else
      var m := |events| - 1;
      Takes(events[..m], t) + if events[m].Take? && events[m].t == t then 1 else 0
  }

  function Releases(events: seq<Event>, t: Tid): nat {
    if events == [] then 0
    else
      var m := |events| - 1;
      Releases(events[..m], t) + if events[m].Release? && events[m].t == t then 1 else 0
  }

  /** Event k of the run makes t the owner, and t owns the mutex from then on. */
  ghost predicate OwnsSince(trace: seq<State>, events: seq<Event>, t: Tid, k: nat)
    requires |trace| == |events| + 1
  {
    k < |events| && trace[k].owner != By(t) && forall j :: k < j <= |events| ==> trace[j].owner == By(t)
  }

  /** A new owner holds the mutex once; each further take of the owner adds one to that and each release takes one
      off, and the owner goes exactly with the last one. */
  lemma StepHold(s: State, e: Event, t: Tid)
    requires Inv(s) && Enabled(s, e)
    ensures var s' := Apply(s, e);
            && (s.owner != By(t) && s'.owner == By(t) ==> s'.hold == 1)
            && (s.owner == By(t) && s'.owner == By(t) ==> s'.hold == s.hold + Takes([e], t) - Releases([e], t))
            && (s.owner == By(t) ==> (s'.owner != By(t) <==> e == Release(t) && s.hold == 1))
  {
    hide Queue, Place;
    assert [e][..0] == [];
    assert s.waiting != [] ==> s.waiting[0] in s.waiting;
  }

  lemma Counted(events: seq<Event>, k: nat, t: Tid)
    requires k < |events|
    ensures var m := |events| - 1; var e := [events[m]];
            && Takes(events[k..], t) == Takes(events[k..m], t) + Takes(e, t)
            && Releases(events[k..], t) == Releases(events[k..m], t) + Releases(e, t)
  {
    var m := |events| - 1;
    assert events[k..][..|events| - k - 1] == events[k..m];
    assert [events[m]][..0] == [];
  }

  /** Over any run: a thread that owns the mutex holds it as often as it has taken it and not released it since it
      became the owner, by its first take or because the owner before gave the mutex to it. */
  lemma {:induction false} HoldIsBalance(trace: seq<State>, events: seq<Event>, base: map<Tid, Priority>, t: Tid,
      k: nat)
    requires IsRun(trace, events) && trace[0] == Start(base) && OwnsSince(trace, events, t, k)
    ensures trace[|events|].hold == 1 + Takes(events[k + 1..], t) - Releases(events[k + 1..], t)
  {
    hide Inv, Apply, Enabled, Start;
    var m := |events| - 1;
    RunKeeps(trace[..m + 1], events[..m], base);
    StepHold(trace[m], events[m], t);
    if k < m {
      HoldIsBalance(trace[..m + 1], events[..m], base, t, k);
      assert events[..m][k + 1..] == events[k + 1..m];
      Counted(events, k + 1, t);
    } else {
      assert events[k + 1..] == [];
    }
  }

  /** Its ownership ends exactly with the release that balances the first take. */
  lemma OwnedUntilBalanced(trace: seq<State>, events: seq<Event>, e: Event, base: map<Tid, Priority>, t: Tid, k: nat)
    requires IsRun(trace, events) && trace[0] == Start(base) && OwnsSince(trace, events, t, k)
    requires Enabled(trace[|events|], e)
    ensures var all := events + [e];
            Apply(trace[|events|], e).owner != By(t) <==> Releases(all[k + 1..], t) == 1 + Takes(all[k + 1..], t)
  {
    HoldIsBalance(trace, events, base, t, k);
    RunKeeps(trace, events, base);
    StepHold(trace[|events|], e, t);
    var all := events + [e];
    assert all[k + 1..|events|] == events[k + 1..];
    Counted(all, k + 1, t);
    assert [e][..0] == [];
  }

  /** The owner runs exactly as high as the better of its own priority and the best waiter's. */
  ghost predicate BoostIsExact(s: State) {
    s.owner != Nobody ==>
      && s.owner.t in s.prio && s.owner.t in s.base
      && (s.prio[s.owner.t] == s.base[s.owner.t]
          || exists w :: w in s.waiting && w in s.prio && s.prio[w] == s.prio[s.owner.t])
  }

  /** Taking and releasing keep the boost exact. */
  lemma BoostStaysExact(s: State, e: Event)
    requires Inv(s) && Enabled(s, e) && BoostIsExact(s) && !e.Timeout?
    ensures BoostIsExact(Apply(s, e))
  {
    hide Queue, Place;
    if e.Release? && s.owner == By(e.t) && s.hold == 1 {
      LetGoKeeps(s, e.t);
    } else if e.Take? && s.owner != By(e.t) && s.owner != Nobody && e.block {
      var t, o, s' := e.t, s.owner.t, Wait(s, e.t);
      var k := Place(s.waiting, s.prio, s.prio[t]);
      InsertMembers(s.waiting, k, t);
      assert t in s'.waiting && t != o;
      if s.prio[t] < s.prio[o] {
        assert s'.prio[t] == s'.prio[o];
      }
      if s.prio[t] >= s.prio[o] && s.prio[o] != s.base[o] {
        var w :| w in s.waiting && w in s.prio && s.prio[w] == s.prio[o];
        assert w in s'.waiting;
      }
    }
  }

  /** Over any run of takes, nested takes and releases the boost is exact. */
  lemma {:induction false} RunBoostIsExact(trace: seq<State>, events: seq<Event>, base: map<Tid, Priority>)
    requires IsRun(trace, events) && trace[0] == Start(base)
    requires forall k :: 0 <= k < |events| ==> !events[k].Timeout?
    ensures BoostIsExact(trace[|events|])
  {
    if events != [] {
      var m := |events| - 1;
      RunBoostIsExact(trace[..m + 1], events[..m], base);
      RunKeeps(trace[..m + 1], events[..m], base);
      BoostStaysExact(trace[m], events[m]);
    }
  }

  /** The end of t's wait leaves a boost nobody accounts for, unless the owner was not boosted, t was not
      first in the queue, or the second in the queue is as urgent as t. */
  predicate KeepsBoost(s: State, t: Tid)
    requires Inv(s) && t in s.waiting
  {
    || s.prio[s.owner.t] == s.base[s.owner.t]
    || s.waiting[0] != t
    || (|s.waiting| > 1 && s.prio[s.waiting[1]] == s.prio[t])
  }

  /** A timeout does not lower the owner again: exactly when the boost stays exact. */
  lemma TimeoutKeepsBoostIff(s: State, t: Tid)
    requires Inv(s) && Enabled(s, Timeout(t)) && BoostIsExact(s)
    ensures BoostIsExact(Apply(s, Timeout(t))) <==> KeepsBoost(s, t)
  {
    hide Queue;
    var o, a := s.owner.t, s.waiting;
    WithoutKeepsQueue(a, s.prio, t);
    QueueHead(a, s.prio);
    if s.prio[o] != s.base[o] {
      assert s.prio[a[0]] == s.prio[o];
      if a[0] != t {
        assert a[0] in Without(a, t);
      } else if |a| > 1 {
        QueueHead(a[1..], s.prio);
        assert a[1..][0] == a[1] && a[1] in Without(a, t);
      }
    }
  }

  /** A thread of priority 5 waits for one of priority 10 and times out: the owner keeps running at 5. */
  lemma BoostLeftBehind()
    ensures var base: map<Tid, Priority> := map[0 := 10, 1 := 5];
            var held := Apply(Start(base), Take(0, true));
            var asked := Apply(held, Take(1, true));
            var s := Apply(asked, Timeout(1));
            s.owner == By(0) && s.waiting == [] && s.prio[0] == 5 && s.base[0] == 10 && !BoostIsExact(s)
  {
    var base: map<Tid, Priority> := map[0 := 10, 1 := 5];
    var held := Apply(Start(base), Take(0, true));
    assert Place(held.waiting, held.prio, 5) == 0;
    var asked := Apply(held, Take(1, true));
    assert asked.waiting == [1] && asked.prio == map[0 := 5, 1 := 5];
    assert Apply(asked, Timeout(1)).waiting == [];
  }

  /** struct rt_mutex, together with the priority fields of the threads that use it. */
  class MutexObject {
    var value: nat
    var owner: Owner
    var originalPriority: Priority
    var hold: nat
    var waiting: seq<Tid>               // parent.suspend_thread
    var prio: map<Tid, Priority>        // current_priority
    ghost var base: map<Tid, Priority>

    ghost function View(): State
      reads this
    {
      State(value, owner, originalPriority, hold, waiting, prio, base)
    }

    /** rt_mutex_init. */
    constructor (prio: map<Tid, Priority>)
      ensures View() == Start(prio)
    {
      value, owner, originalPriority, hold, waiting := 1, Nobody, 0xff, 0, [];
      this.prio, base := prio, prio;
    }

    /** rt_ipc_list_suspend in priority mode. */
    method Suspend(t: Tid)
      requires t in prio && forall w :: w in waiting ==> w in prio
      modifies this`waiting
      ensures var k := Place(old(waiting), prio, prio[t]);
              waiting == old(waiting)[..k] + [t] + old(waiting)[k..]
    {
      var n := 0;
      while n < |waiting|
        invariant n <= |waiting| && Place(waiting, prio, prio[t]) == n + Place(waiting[n..], prio, prio[t])
      {
        if prio[t] < prio[waiting[n]] {
          waiting := waiting[..n] + [t] + waiting[n..];
          return;
        }
        n := n + 1;
      }
      waiting := waiting + [t];
      assert waiting == old(waiting)[..n] + [t] + old(waiting)[n..];
    }

    /** The blocking branch of rt_mutex_take: raise the owner, then queue up. */
    method Block(t: Tid)
      requires Inv(View()) && Enabled(View(), Event.Take(t, true)) && owner != Nobody && owner != By(t)
      modifies this`prio, this`waiting
      ensures View() == Wait(old(View()), t)
    {
      hide Queue, Place;
      if prio[t] < prio[owner.t] {
        prio := prio[owner.t := prio[t]];
      }
      SamePlace(View(), old(View()), t);
      Suspend(t);
    }

    /** rt_mutex_take up to the point where the thread has the mutex, gives up, or is suspended. */
    method Take(t: Tid, block: bool) returns (err: int, suspended: bool)
      requires Inv(View()) && Enabled(View(), Event.Take(t, block))
      modifies this
      ensures View() == Apply(old(View()), Event.Take(t, block))
      ensures Inv(View())
      ensures suspended <==> t in waiting
      ensures err == RT_EOK && !suspended <==> owner == By(t)
      ensures err == -RT_ETIMEOUT <==> owner != By(t) && !block
      ensures old(owner) == By(t) ==> View() == old(View()).(hold := hold) && hold == old(hold) + 1
      ensures old(owner) == Nobody ==>
                owner == By(t) && hold == 1 && value == 0 && waiting == [] && originalPriority == prio[t]
      ensures old(owner) == Nobody || !block ==> prio == old(prio)
      ensures old(owner) != Nobody && old(owner) != By(t) ==>
                owner == old(owner) && hold == old(hold) && value == old(value)
                && originalPriority == old(originalPriority) && (!block ==> waiting == old(waiting))
      ensures suspended ==>
                && QueuedBehindEquals(old(waiting), waiting, old(prio), t) && owner != Nobody && owner.t in old(prio)
                && prio == old(prio)[owner.t := if old(prio)[t] < old(prio)[owner.t] then old(prio)[t]
                                                else old(prio)[owner.t]]
    {
      hide Queue, Place, QueuedBehindEquals;
      StepKeeps(View(), Event.Take(t, block));
      err, suspended := RT_EOK, false;
      if owner == By(t) {
        hold := hold + 1;
      } else if value > 0 {
        value := value - 1;
        owner := By(t);
        originalPriority := prio[t];
        hold := hold + 1;
      } else if !block {
        err := -RT_ETIMEOUT;
      } else {
        PlaceFits(waiting, prio, t);
        Block(t);
        InsertMembers(old(waiting), Place(old(waiting), old(prio), old(prio)[t]), t);
        suspended := true;
      }
    }

    /** The last release: the caller's priority goes back, and the mutex to the first waiter. */
    method LetLast(t: Tid)
      requires hold == 0 && owner == By(t) && Inv(View().(hold := 1))
      modifies this
      ensures View() == LetGo(old(View()).(hold := 1), t)
    {
      hide Queue;
      if originalPriority != prio[owner.t] {
        prio := prio[owner.t := originalPriority];
      }
      assert prio == old(prio)[t := old(originalPriority)];
      if waiting != [] {
        assert waiting[0] in waiting;
        owner := By(waiting[0]);
        originalPriority := prio[waiting[0]];
        hold := hold + 1;
        waiting := waiting[1..];
      } else {
        value := value + 1;
        owner := Nobody;
        originalPriority := 0xff;
      }
    }

    /** rt_mutex_release. */
    method Release(t: Tid) returns (err: int)
      requires Inv(View()) && Enabled(View(), Event.Release(t))
      modifies this
      ensures View() == Apply(old(View()), Event.Release(t))
      ensures Inv(View())
      ensures err == -RT_ERROR <==> old(owner) != By(t)
      ensures old(owner) != By(t) ==> View() == old(View())
      ensures old(owner) == By(t) && old(hold) > 1 ==> View() == old(View()).(hold := hold) && hold == old(hold) - 1
      ensures old(owner) == By(t) && old(hold) == 1 ==>
                && prio == old(prio)[t := base[t]]
                && if old(waiting) == [] then owner == Nobody && hold == 0 && value == 1 && waiting == []
                   else owner == By(old(waiting)[0]) && hold == 1 && value == 0 && waiting == old(waiting)[1..]
    {
      StepKeeps(View(), Event.Release(t));
      hide Queue;
      if owner != By(t) {
        return -RT_ERROR;
      }
      err := RT_EOK;
      hold := hold - 1;
      if hold == 0 {
        LetLast(t);
      }
    }
  }

  /** Raising the owner first does not change the place of the waiter. */
  lemma SamePlace(s: State, s0: State, t: Tid)
    requires Inv(s0) && s0.owner != Nobody && t in s0.prio && t != s0.owner.t && s.waiting == s0.waiting
    requires s.prio == s0.prio || s.prio == s0.prio[s0.owner.t := s0.prio[t]]
    ensures forall w :: w in s.waiting ==> w in s.prio && w in s0.prio
    ensures t in s.prio && Place(s.waiting, s.prio, s.prio[t]) == Place(s0.waiting, s0.prio, s0.prio[t])
  {
    PlaceAgrees(s.waiting, s.prio, s0.prio, s0.prio[t]);
  }

  lemma {:induction false} PlaceAgrees(a: seq<Tid>, prio: map<Tid, Priority>, prio': map<Tid, Priority>, p: Priority)
    requires forall w :: w in a ==> w in prio && w in prio' && prio[w] == prio'[w]
    ensures Place(a, prio, p) == Place(a, prio', p)
  {
    if a != [] {
      assert a[0] in a;
      PlaceAgrees(a[1..], prio, prio', p);
    }
  }
}
