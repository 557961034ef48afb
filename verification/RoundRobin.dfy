/** The time slices of the threads that share the best ready priority, as rt_tick_increase spends them. */
module RoundRobin {

  /** A ready thread, the ticks left of its slice, and its full slice. */
  datatype Slot<T> = Slot(t: T, left: nat, full: nat)

  ghost predicate Running<T>(q: seq<Slot<T>>) {
    forall i :: 0 <= i < |q| ==> 1 <= q[i].left && 1 <= q[i].full
  }

  ghost predicate Fresh<T>(q: seq<Slot<T>>) {
    forall i :: 0 <= i < |q| ==> 1 <= q[i].left == q[i].full
  }

  ghost predicate DistinctThreads<T>(q: seq<Slot<T>>) {
    forall i, j :: 0 <= i < j < |q| ==> q[i].t != q[j].t
  }

  /** One clock tick: the first thread pays; its slice used up, it goes last with a new one. */
  function Tick<T>(q: seq<Slot<T>>): (r: seq<Slot<T>>)
    requires Running(q)
    ensures Running(r)
  {
    if q == [] then q
    else if q[0].left == 1 then q[1..] + [q[0].(left := q[0].full)]
    else [q[0].(left := q[0].left - 1)] + q[1..]
  }

  function Ticks<T>(q: seq<Slot<T>>, k: nat): (r: seq<Slot<T>>)
    requires Running(q)
    ensures Running(r)
    decreases k
  {
    if k == 0 then q else Ticks(Tick(q), k - 1)
  }

  /** How many of the next k ticks t pays for. */
  ghost function Charged<T>(q: seq<Slot<T>>, k: nat, t: T): nat
    requires Running(q)
    decreases k
  {
    if k == 0 || q == [] then 0 else (if q[0].t == t then 1 else 0) + Charged(Tick(q), k - 1, t)
  }

  function Total<T>(q: seq<Slot<T>>): nat {
    if q == [] then 0 else q[0].left + Total(q[1..])
  }

  function Renewed<T>(q: seq<Slot<T>>): seq<Slot<T>> {
    if q == [] then [] else [q[0].(left := q[0].full)] + Renewed(q[1..])
  }

  /** What t still has of its slice. */
  ghost function Due<T>(q: seq<Slot<T>>, t: T): nat {
    if q == [] then 0 else (if q[0].t == t then q[0].left else 0) + Due(q[1..], t)
  }

  lemma {:induction false} TicksAdd<T>(q: seq<Slot<T>>, a: nat, b: nat, t: T)
    requires Running(q)
    ensures Ticks(q, a + b) == Ticks(Ticks(q, a), b)
    ensures Charged(q, a + b, t) == Charged(q, a, t) + Charged(Ticks(q, a), b, t)
    decreases a
  {
    if q == [] {
      NothingTicks<T>(a);
      NothingTicks<T>(a + b);
      NothingTicks<T>(b);
    } else if a > 0 {
      TicksAdd(Tick(q), a - 1, b, t);
    }
  }

  lemma {:induction false} OneMoreTick<T>(q: seq<Slot<T>>, k: nat)
    requires Running(q)
    ensures Ticks(q, k + 1) == Tick(Ticks(q, k))
    decreases k
  {
    if k > 0 {
      OneMoreTick(Tick(q), k - 1);
    } else {
      assert Ticks(q, 1) == Ticks(Tick(q), 0);
    }
  }

  lemma {:induction false} NothingTicks<T>(k: nat)
    ensures Ticks<T>([], k) == []
  {
    if k > 0 {
      NothingTicks<T>(k - 1);
    }
  }

  /** The first thread pays until its slice is used up, then goes last. */
  lemma {:induction false} TurnOf<T>(q: seq<Slot<T>>, t: T)
    requires Running(q) && q != []
    ensures Ticks(q, q[0].left) == q[1..] + [q[0].(left := q[0].full)]
    ensures Charged(q, q[0].left, t) == if q[0].t == t then q[0].left else 0
    decreases q[0].left
  {
    if q[0].left == 1 {
      assert Ticks(q, 1) == Ticks(Tick(q), 0);
      assert Charged(Tick(q), 0, t) == 0;
    } else {
      TurnOf(Tick(q), t);
    }
  }

  lemma NoTicks<T>(q: seq<Slot<T>>, t: T)
    requires Running(q)
    ensures Ticks(q, 0) == q && Charged(q, 0, t) == 0
  {
  }

  lemma RenewedFirst<T>(todo: seq<Slot<T>>, done: seq<Slot<T>>, first: Slot<T>)
    requires todo != [] && first == todo[0].(left := todo[0].full)
    ensures (done + [first]) + Renewed(todo[1..]) == done + Renewed(todo)
  {
  }

  /** The threads of todo pay in turn and line up behind done with new slices. */
  lemma {:induction false} RoundFrom<T>(todo: seq<Slot<T>>, done: seq<Slot<T>>, t: T)
    requires Running(todo) && Running(done)
    ensures Running(todo + done)
    ensures Ticks(todo + done, Total(todo)) == done + Renewed(todo)
    ensures Charged(todo + done, Total(todo), t) == Due(todo, t)
    decreases |todo|
  {
    hide Ticks, Charged;
    if todo == [] {
      assert todo + done == done && done + Renewed(todo) == done;
      NoTicks(done, t);
    } else {
      var q, first := todo + done, todo[0].(left := todo[0].full);
      var rest := todo[1..] + (done + [first]);
      TurnOf(q, t);
      assert q[1..] + [first] == rest;
      RoundFrom(todo[1..], done + [first], t);
      TicksAdd(q, todo[0].left, Total(todo[1..]), t);
      RenewedFirst(todo, done, first);
    }
  }

  lemma {:induction false} FreshRenewed<T>(q: seq<Slot<T>>)
    requires Fresh(q)
    ensures Renewed(q) == q
  {
    if q != [] {
      FreshRenewed(q[1..]);
    }
  }

  lemma {:induction false} DueIsSlice<T>(q: seq<Slot<T>>, t: T)
    requires DistinctThreads(q)
    ensures forall i :: 0 <= i < |q| && q[i].t == t ==> Due(q, t) == q[i].left
    ensures (forall i :: 0 <= i < |q| ==> q[i].t != t) ==> Due(q, t) == 0
  {
    if q != [] {
      var rest := q[1..];
      DueIsSlice(rest, t);
      assert forall i :: 0 < i < |q| ==> q[i] == rest[i - 1];
    }
  }

  /** Round robin is exact: after as many ticks as there are in all the slices together, the queue and
      the slices are as they were, and each thread has paid for exactly its own slice. */
  lemma RoundRobinIsExact<T>(q: seq<Slot<T>>)
    requires Fresh(q) && DistinctThreads(q)
    ensures Ticks(q, Total(q)) == q
    ensures forall i :: 0 <= i < |q| ==> Charged(q, Total(q), q[i].t) == q[i].full
  {
    FreshRenewed(q);
    assert q + [] == q;
    forall i | 0 <= i < |q|
      ensures Ticks(q, Total(q)) == q && Charged(q, Total(q), q[i].t) == q[i].full
    {
      RoundFrom(q, [], q[i].t);
      DueIsSlice(q, q[i].t);
    }
  }

  /** From any point of their slices, after what is left of them all the queue is in its old order with
      every slice new. */
  lemma RoundEnds<T>(q: seq<Slot<T>>)
    requires Running(q)
    ensures Ticks(q, Total(q)) == Renewed(q)
  {
    if q != [] {
      RoundFrom(q, [], q[0].t);
      assert q + [] == q && [] + Renewed(q) == Renewed(q);
    }
  }
}
