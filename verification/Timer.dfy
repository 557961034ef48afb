/** The timers of rt-thread/src/timer.c. The code only ever compares 32-bit ticks by subtraction and a
    half-range test; the ghost fields now and due hold the true, unbounded time and deadlines. */
module Timer {
  import opened Sequences
  import opened SkipRows

  const TICKS: int := 0x1_0000_0000
  const HALF: int := 0x7fff_ffff      // RT_TICK_MAX / 2
  const SKIP_MASK: nat := 3           // RT_TIMER_SKIP_LIST_MASK

  /** Subtraction of rt_tick_t values. */
  function Sub(a: int, b: int): int {
    (a - b) % TICKS
  }

  predicate After(a: int, b: int) {
    Sub(a, b) != 0 && Sub(a, b) < HALF
  }

  /** The wrapped comparison of two deadlines less than 2^32 apart is right iff they lie in a window
      of half the range: at most 0x7ffffffe one way and 0x80000001 the other. */
  lemma AfterIsExactIff(a: int, b: int)
    requires -TICKS < a - b < TICKS
    ensures (After(a % TICKS, b % TICKS) <==> b < a) <==> -0x8000_0001 <= a - b < HALF
  {
    SubOfRests(a, b);
    assert Sub(a, b) == if a - b >= 0 then a - b else a - b + TICKS;
  }

  /** So is the expiry test. */
  lemma ExpiredIsExactIff(now: int, d: int)
    requires -TICKS < now - d < TICKS
    ensures (Sub(now % TICKS, d % TICKS) < HALF <==> d <= now) <==> -0x8000_0001 <= now - d < HALF
  {
    SubOfRests(now, d);
    assert Sub(now, d) == if now - d >= 0 then now - d else now - d + TICKS;
  }

  lemma SubOfRests(a: int, b: int)
    ensures Sub(a % TICKS, b % TICKS) == Sub(a, b)
  {
    var q, r := a / TICKS, b / TICKS;
    assert a == q * TICKS + a % TICKS && b == r * TICKS + b % TICKS;
    RestOfShift(a % TICKS - b % TICKS, q - r);
  }

  lemma {:induction false} RestOfShift(x: int, k: int)
    ensures (x + k * TICKS) % TICKS == x % TICKS
    decreases if k < 0 then -k else k
  {
    if k > 0 {
      RestOfShift(x, k - 1);
      assert x + k * TICKS == x + (k - 1) * TICKS + TICKS;
    } else if k < 0 {
      RestOfShift(x, k + 1);
      assert x + k * TICKS == x + (k + 1) * TICKS - TICKS;
    }
  }

  lemma TickSum(now: int, n: int)
    ensures (now % TICKS + n) % TICKS == (now + n) % TICKS
  {
    RestOfShift(now % TICKS + n, now / TICKS);
  }

  lemma RestIs(x: int, q: int, r: int, p: nat)
    requires 0 <= r < p && x == q * p + r
    ensures x % p == r
  {
    var k := q - x / p;
    assert x == p * (x / p) + x % p;
    assert k * p == x % p - r;
    if k >= 1 {
      assert k * p == p + (k - 1) * p;
    }
  }

  // ---------------------------------------------------------------- timers and what timeout functions do to them

  datatype TimerData = TimerData(timeoutTick: int, initTick: nat, periodic: bool, active: bool)

  /** What a timeout function does to timers. */
  datatype Action = DoStart(t: Id) | DoStop(t: Id)

  ghost predicate Touches(acts: seq<Action>, x: Id) {
    exists k :: 0 <= k < |acts| && acts[k].t == x
  }

  /** Whether the last action on x starts it. */
  predicate EndsStarted(acts: seq<Action>, x: Id) {
    acts != [] && if acts[|acts| - 1].t == x then acts[|acts| - 1].DoStart? else EndsStarted(acts[..|acts| - 1], x)
  }

  lemma StartedIsTouched(acts: seq<Action>, x: Id)
    requires EndsStarted(acts, x)
    ensures Touches(acts, x)
  {
    if acts[|acts| - 1].t != x {
      StartedIsTouched(acts[..|acts| - 1], x);
    }
  }

  function Targets(acts: seq<Action>): set<Id> {
    set a | a in acts :: a.t
  }

  lemma TargetsAreTouched(acts: seq<Action>)
    ensures forall x :: x in Targets(acts) <==> Touches(acts, x)
  {
  }

  lemma OneMore(done: seq<Action>, a: Action)
    ensures forall x :: Touches(done + [a], x) <==> Touches(done, x) || x == a.t
    ensures forall x :: EndsStarted(done + [a], x) <==> if a.t == x then a.DoStart? else EndsStarted(done, x)
  {
    var all := done + [a];
    assert all[..|all| - 1] == done;
    forall x
      ensures Touches(all, x) <==> Touches(done, x) || x == a.t
    {
      assert all[|done|] == a;
      if Touches(done, x) {
        var k :| 0 <= k < |done| && done[k].t == x;
        assert all[k].t == x;
      }
    }
  }

  function IndexOf(a: seq<Id>, x: Id): (k: nat)
    requires x in a
    ensures k < |a| && a[k] == x
  {
    if a[0] == x then 0 else 1 + IndexOf(a[1..], x)
  }

  /** A skip list cares about the deadlines of listed timers only. */
  lemma DueOfListed(rows: seq<seq<Id>>, due: map<Id, int>, due': map<Id, int>, t: Id)
    requires SkipList(rows, due) && t !in Bottom(rows)
    requires due.Keys <= due'.Keys && forall x :: x in due && x != t ==> due'[x] == due[x]
    ensures SkipList(rows, due')
  {
    forall l | 0 <= l < |rows|
      ensures Row(rows[l], due')
    {
      assert Row(rows[l], due);
      if t in rows[l] {
        DownToBottom(rows, due, l, t);
      }
      assert forall i :: 0 <= i < |rows[l]| ==> rows[l][i] in rows[l];
    }
  }

  // ---------------------------------------------------------------- how timers stand

  /** The bottom row, the deadlines and the data of all timers. */
  datatype Standing = Standing(row: seq<Id>, due: map<Id, int>, timers: map<Id, TimerData>)

  /** Exactly the listed timers have their flag set. */
  ghost predicate InAgreement(s: Standing) {
    forall x :: x in s.timers ==> (s.timers[x].active <==> x in s.row)
  }

  /** A listed periodic timer has its flag set. */
  ghost predicate Armed(s: Standing) {
    forall x :: x in s.row && x in s.timers && s.timers[x].periodic ==> s.timers[x].active
  }

  /** x is listed and flagged as a start at time n leaves it. */
  ghost predicate Running(s: Standing, n: int, x: Id) {
    && x in s.timers && x in s.due && x in s.row
    && s.timers[x].active && s.due[x] == n + s.timers[x].initTick && s.timers[x].timeoutTick == s.due[x] % TICKS
  }

  /** Every timer outside touched stands as before: listed or not, due when it was, its data the same. */
  ghost predicate Unmoved(a: Standing, b: Standing, touched: set<Id>) {
    && a.timers.Keys == b.timers.Keys && a.due.Keys == b.due.Keys
    && (forall x :: x in a.timers && x !in touched ==> b.timers[x] == a.timers[x])
    && (forall x :: x in a.due && x !in touched ==> b.due[x] == a.due[x])
    && (forall x :: x !in touched ==> (x in b.row <==> x in a.row))
  }

  /** Nothing but t is due at another time or has other data. */
  ghost predicate OnlyOne(a: Standing, b: Standing, t: Id) {
    && a.timers.Keys == b.timers.Keys && a.due.Keys == b.due.Keys
    && (forall x :: x in a.timers && x != t ==> b.timers[x] == a.timers[x])
    && (forall x :: x in a.due && x != t ==> b.due[x] == a.due[x])
  }

  lemma SameElems(a: seq<Id>, b: seq<Id>, t: Id)
    requires Elems(b) == Elems(a) + {t} || Elems(b) == Elems(a) - {t}
    ensures forall x :: x != t ==> (x in b <==> x in a)
  {
    assert forall x :: x in b <==> x in Elems(b);
    assert forall x :: x in a <==> x in Elems(a);
  }

  ghost function DueIn(row: seq<Id>, due: map<Id, int>, n: int): set<Id> {
    set x | x in row && x in due && due[x] <= n
  }

  /** From a to b, at time n: only the timers in touched were acted on; no timer became due, and the due ones
      come in the same turn. */
  ghost predicate Worked(a: Standing, b: Standing, touched: set<Id>, n: int) {
    && Unmoved(a, b, touched)
    && DueIn(b.row, b.due, n) <= DueIn(a.row, a.due, n)
    && (forall x :: x in DueIn(b.row, b.due, n) ==> x in a.due && b.due[x] == a.due[x])
    && SameTurns(a.row, b.row, DueIn(b.row, b.due, n))
  }

  lemma WorkedMoves(a: Standing, b: Standing, touched: set<Id>, n: int)
    requires Worked(a, b, touched, n)
    ensures Unmoved(a, b, touched)
  {
  }

  lemma WorkedNot(a: Standing, n: int)
    ensures Worked(a, a, {}, n)
  {
    TurnsSame(a.row, DueIn(a.row, a.due, n));
  }

  lemma WorkedOn(a: Standing, b: Standing, c: Standing, s: set<Id>, t: set<Id>, n: int)
    requires Worked(a, b, s, n) && Worked(b, c, t, n)
    ensures Worked(a, c, s + t, n)
  {
    TurnsChain(a.row, b.row, c.row, DueIn(b.row, b.due, n), DueIn(c.row, c.due, n));
  }

  lemma WorkedStart(a: Standing, b: Standing, t: Id, p: nat, n: int)
    requires p <= |Remove(a.row, t)| && b.row == Insert(Remove(a.row, t), p, t)
    requires Elems(b.row) == Elems(a.row) + {t} && OnlyOne(a, b, t)
    requires t in b.due && n < b.due[t]
    ensures Worked(a, b, {t}, n)
  {
    hide Insert, Remove, SameTurns;
    SameElems(a.row, b.row, t);
    TurnsInserted(a.row, t, p, DueIn(b.row, b.due, n));
  }

  lemma WorkedStop(a: Standing, b: Standing, t: Id, n: int)
    requires b.row == Remove(a.row, t) && Elems(b.row) == Elems(a.row) - {t} && OnlyOne(a, b, t)
    requires b.due == a.due
    ensures Worked(a, b, {t}, n)
  {
    hide Remove, SameTurns;
    SameElems(a.row, b.row, t);
    assert t in b.row <==> t in Elems(b.row);
    TurnsRemoved(a.row, t, DueIn(b.row, b.due, n));
  }

  lemma WorkedFlag(a: Standing, b: Standing, t: Id, n: int)
    requires b.row == a.row && OnlyOne(a, b, t) && b.due == a.due
    ensures Worked(a, b, {t}, n)
  {
    TurnsSame(a.row, DueIn(b.row, b.due, n));
  }

  lemma StillDue(a: Standing, b: Standing, touched: set<Id>, n: int)
    requires Unmoved(a, b, touched)
    ensures forall x :: x in DueIn(a.row, a.due, n) && x !in touched ==> x in DueIn(b.row, b.due, n)
  {
  }

  // ---------------------------------------------------------------- one timer fires

  /** Where timer t stands while its own timeout function runs, after the actions acts; was says whether it had its
      flag set when it fired. */
  ghost predicate AmidSelf(s: Standing, t: Id, acts: seq<Action>, was: bool) {
    && t in s.timers
    && (t in s.row <==> EndsStarted(acts, t))
    && (s.timers[t].active <==> EndsStarted(acts, t) || (was && !Touches(acts, t)))
  }

  /** And where all timers stand then, if they were in agreement before. */
  ghost predicate Amid(s: Standing, t: Id, acts: seq<Action>) {
    AmidSelf(s, t, acts, true) && forall x :: x in s.timers && x != t ==> (s.timers[x].active <==> x in s.row)
  }

  /** Action a is taken at time n: rt_timer_stop does nothing to a timer without its flag. */
  ghost predicate Obeyed(b: Standing, c: Standing, n: int, a: Action) {
    && a.t in b.timers && Unmoved(b, c, {a.t})
    && if a.DoStart? then Running(c, n, a.t)
       else if b.timers[a.t].active then !c.timers[a.t].active && a.t !in c.row
       else c.timers == b.timers && c.row == b.row
  }

  lemma ObeyedKeeps(b: Standing, c: Standing, n: int, t: Id, done: seq<Action>, a: Action, was: bool)
    requires Obeyed(b, c, n, a)
    ensures AmidSelf(b, t, done, was) ==> AmidSelf(c, t, done + [a], was)
    ensures Amid(b, t, done) ==> Amid(c, t, done + [a])
    ensures ActedOn(c, n, a.t, done + [a])
  {
    hide Touches, EndsStarted;
    OneMore(done, a);
  }

  lemma ObeyedArmed(b: Standing, c: Standing, n: int, a: Action)
    requires Obeyed(b, c, n, a) && Armed(b)
    ensures Armed(c)
  {
  }

  /** How a timer x that actions acts were taken on stands then: started at time n or without its flag. */
  ghost predicate ActedOn(s: Standing, n: int, x: Id, acts: seq<Action>) {
    if EndsStarted(acts, x) then Running(s, n, x) else x in s.timers && !s.timers[x].active
  }

  ghost predicate AllActed(s: Standing, n: int, acts: seq<Action>) {
    forall x :: Touches(acts, x) ==> ActedOn(s, n, x, acts)
  }

  lemma ActedNone(b: Standing, n: int)
    ensures AllActed(b, n, [])
  {
  }

  lemma ActedMore(b: Standing, c: Standing, n: int, done: seq<Action>, a: Action)
    requires AllActed(b, n, done) && Unmoved(b, c, {a.t}) && ActedOn(c, n, a.t, done + [a])
    ensures AllActed(c, n, done + [a])
  {
    hide Touches, EndsStarted;
    OneMore(done, a);
  }

  /** From a to b t's timeout function has taken the actions done, at time n. */
  ghost predicate Called(a: Standing, b: Standing, n: int, t: Id, done: seq<Action>, was: bool) {
    && Worked(a, b, Targets(done), n) && AllActed(b, n, done)
    && (Amid(a, t, []) ==> Amid(b, t, done))
    && (AmidSelf(a, t, [], was) ==> AmidSelf(b, t, done, was))
    && (Armed(a) ==> Armed(b))
  }

  lemma CalledNot(a: Standing, n: int, t: Id, was: bool)
    ensures Called(a, a, n, t, [], was)
  {
    WorkedNot(a, n);
    assert Targets([]) == {};
  }

  lemma CalledOn(a: Standing, b: Standing, c: Standing, n: int, t: Id, done: seq<Action>, e: Action, was: bool)
    requires Called(a, b, n, t, done, was) && Worked(b, c, {e.t}, n) && Obeyed(b, c, n, e)
    ensures Called(a, c, n, t, done + [e], was)
  {
    hide Worked, AllActed, Amid, AmidSelf, Armed, Obeyed, ActedOn, Unmoved;
    WorkedOn(a, b, c, Targets(done), {e.t}, n);
    assert Targets(done + [e]) == Targets(done) + {e.t};
    ObeyedKeeps(b, c, n, t, done, e, was);
    WorkedMoves(b, c, {e.t}, n);
    ActedMore(b, c, n, done, e);
    if Armed(b) {
      ObeyedArmed(b, c, n, e);
    }
  }

  /** From b to c, at time n: t is started again if it is periodic and has its flag, and else loses the flag. */
  ghost predicate Renewed(b: Standing, c: Standing, n: int, t: Id) {
    && t in b.timers && t in c.timers && c.timers[t].periodic == b.timers[t].periodic
    && if b.timers[t].periodic && b.timers[t].active then Running(c, n, t)
       else !c.timers[t].active && (t in c.row <==> t in b.row)
  }

  /** How timer x stands when it has fired at time n and its timeout function has taken the actions acts: a periodic
      timer is started again unless it was stopped; any other one is over, but for a start of its own. */
  ghost predicate Settled(s: Standing, n: int, x: Id, acts: seq<Action>) {
    && x in s.timers
    && if s.timers[x].periodic && (!Touches(acts, x) || EndsStarted(acts, x)) then Running(s, n, x)
       else !s.timers[x].active && (x in s.row <==> EndsStarted(acts, x))
  }

  lemma RenewSettles(b: Standing, c: Standing, n: int, t: Id, acts: seq<Action>, was: bool)
    requires AmidSelf(b, t, acts, was) && Renewed(b, c, n, t) && (was || !b.timers[t].periodic)
    ensures Settled(c, n, t, acts)
  {
    hide Touches, EndsStarted;
  }

  lemma RenewArmed(b: Standing, c: Standing, n: int, t: Id)
    requires Renewed(b, c, n, t) && Unmoved(b, c, {t}) && Armed(b)
    requires forall x :: x in c.timers ==> x in b.timers && c.timers[x].periodic == b.timers[x].periodic
    ensures Armed(c)
  {
  }

  lemma RenewAgrees(b: Standing, c: Standing, n: int, t: Id, acts: seq<Action>)
    requires Amid(b, t, acts) && Renewed(b, c, n, t) && Unmoved(b, c, {t})
    ensures InAgreement(c) <==> b.timers[t].periodic || !EndsStarted(acts, t)
  {
    hide Touches, EndsStarted;
  }

  /** Timer x after t has fired: t itself is settled, and what its timeout function acted on is as that wanted. */
  ghost predicate LeftBy(s: Standing, n: int, t: Id, x: Id, acts: seq<Action>) {
    if x == t then Settled(s, n, t, acts) else Touches(acts, x) ==> ActedOn(s, n, x, acts)
  }

  /** Renewing t itself does not concern the timers its timeout function acted on. */
  lemma AllLeftBy(b: Standing, c: Standing, n: int, t: Id, acts: seq<Action>)
    requires AllActed(b, n, acts) && Unmoved(b, c, {t}) && Settled(c, n, t, acts)
    ensures forall x :: LeftBy(c, n, t, x, acts)
  {
    hide Touches, EndsStarted, Settled;
  }

  /** One round at time n: t fires, and its timeout function takes the actions acts. */
  ghost predicate Fires(b: Standing, c: Standing, n: int, t: Id, acts: seq<Action>) {
    && t in b.timers && t in c.timers && t in b.row
    && Worked(b, c, Targets(acts) + {t}, n) && t !in DueIn(c.row, c.due, n)
    && (InAgreement(b) ==> (InAgreement(c) <==> b.timers[t].periodic || !EndsStarted(acts, t)))
    && (Armed(b) ==> Armed(c) && forall x :: LeftBy(c, n, t, x, acts))
  }

  // ---------------------------------------------------------------- one check

  /** The timers that fired and those their timeout functions acted on. */
  function TouchedBy(fired: seq<Id>, callbacks: map<Id, seq<Action>>): set<Id> {
    if fired == [] then {}
    else
      var t := fired[|fired| - 1];
      TouchedBy(fired[..|fired| - 1], callbacks) + (if t in callbacks then Targets(callbacks[t]) + {t} else {t})
  }

  /** After fired[i] timer x neither fires nor is acted on by a timeout function. */
  ghost predicate LeftAlone(fired: seq<Id>, callbacks: map<Id, seq<Action>>, i: nat, x: Id)
    requires i < |fired|
  {
    forall j :: i < j < |fired| ==> x != fired[j] && (fired[j] in callbacks ==> x !in Targets(callbacks[fired[j]]))
  }

  /** Each timer stands as the last firing left it that was its own or acted on it. */
  ghost predicate AllSettled(s: Standing, n: int, fired: seq<Id>, callbacks: map<Id, seq<Action>>) {
    forall i, x :: 0 <= i < |fired| && LeftAlone(fired, callbacks, i, x) ==>
      fired[i] in callbacks && LeftBy(s, n, fired[i], x, callbacks[fired[i]])
  }

  /** What the firings at time n make of the timers that stood as in a. */
  ghost predicate Outcome(a: Standing, b: Standing, n: int, fired: seq<Id>, callbacks: map<Id, seq<Action>>) {
    && Unmoved(a, b, TouchedBy(fired, callbacks))
    && (Armed(a) ==> Armed(b) && AllSettled(b, n, fired, callbacks))
  }

  lemma OutcomeOfNone(a: Standing, n: int, callbacks: map<Id, seq<Action>>)
    ensures Outcome(a, a, n, [], callbacks)
  {
  }

  lemma UnmovedChain(a: Standing, b: Standing, c: Standing, s: set<Id>, t: set<Id>)
    requires Unmoved(a, b, s) && Unmoved(b, c, t)
    ensures Unmoved(a, c, s + t)
  {
  }

  lemma TouchedByOne(fired: seq<Id>, callbacks: map<Id, seq<Action>>, t: Id)
    requires t in callbacks
    ensures TouchedBy(fired + [t], callbacks) == TouchedBy(fired, callbacks) + (Targets(callbacks[t]) + {t})
  {
    hide Targets;
    assert (fired + [t])[..|fired|] == fired;
  }

  lemma OutcomeOn(a: Standing, b: Standing, c: Standing, n: int, fired: seq<Id>, callbacks: map<Id, seq<Action>>, t: Id)
    requires Outcome(a, b, n, fired, callbacks) && t !in fired && t in callbacks
    requires Unmoved(b, c, Targets(callbacks[t]) + {t})
    requires Armed(b) ==> Armed(c) && forall x :: LeftBy(c, n, t, x, callbacks[t])
    ensures Outcome(a, c, n, fired + [t], callbacks)
  {
    hide Armed, Targets, LeftBy, Unmoved, TouchedBy, AllSettled;
    UnmovedChain(a, b, c, TouchedBy(fired, callbacks), Targets(callbacks[t]) + {t});
    TouchedByOne(fired, callbacks, t);
    if Armed(a) {
      AllSettledOn(b, c, n, fired, callbacks, t);
    }
  }

  lemma AllSettledOn(b: Standing, c: Standing, n: int, fired: seq<Id>, callbacks: map<Id, seq<Action>>, t: Id)
    requires AllSettled(b, n, fired, callbacks) && t !in fired && t in callbacks
    requires Unmoved(b, c, Targets(callbacks[t]) + {t}) && forall x :: LeftBy(c, n, t, x, callbacks[t])
    ensures AllSettled(c, n, fired + [t], callbacks)
  {
    hide Targets, LeftBy, Unmoved, LeftAlone;
    var all := fired + [t];
    forall i, x | 0 <= i < |all| && LeftAlone(all, callbacks, i, x)
      ensures all[i] in callbacks && LeftBy(c, n, all[i], x, callbacks[all[i]])
    {
      if i < |fired| {
        LeftAloneBefore(fired, callbacks, t, i, x);
        LeftByStays(b, c, n, fired[i], x, callbacks[fired[i]], Targets(callbacks[t]) + {t});
      }
    }
  }

  lemma LeftAloneBefore(fired: seq<Id>, callbacks: map<Id, seq<Action>>, t: Id, i: nat, x: Id)
    requires i < |fired| && t in callbacks && LeftAlone(fired + [t], callbacks, i, x)
    ensures LeftAlone(fired, callbacks, i, x) && x !in Targets(callbacks[t]) + {t}
  {
    hide Targets;
    var all := fired + [t];
    assert all[|fired|] == t;
    assert forall j :: i < j < |fired| ==> all[j] == fired[j];
  }

  lemma LeftByStays(b: Standing, c: Standing, n: int, t: Id, x: Id, acts: seq<Action>, touched: set<Id>)
    requires LeftBy(b, n, t, x, acts) && Unmoved(b, c, touched) && x !in touched
    ensures LeftBy(c, n, t, x, acts)
  {
    hide Touches, EndsStarted;
  }

  /** The rounds of one check at time n so far. */
  ghost predicate Progress(a: Standing, b: Standing, n: int, fired: seq<Id>, callbacks: map<Id, seq<Action>>) {
    && FiredSoFar(a.due, DueIn(a.row, a.due, n), a.row, DueIn(b.row, b.due, n), b.row, fired, callbacks)
    && Outcome(a, b, n, fired, callbacks)
    && (forall x :: x in DueIn(b.row, b.due, n) ==> x in a.due && b.due[x] == a.due[x])
    && (InAgreement(a) && NoneRestarted(fired, a.timers, callbacks) ==> InAgreement(b))
    && (forall x :: x in b.timers ==> x in a.timers && b.timers[x].periodic == a.timers[x].periodic)
  }

  lemma ProgressOfNone(a: Standing, n: int, callbacks: map<Id, seq<Action>>)
    ensures Progress(a, a, n, [], callbacks)
  {
    hide FiredSoFar, InAgreement, Outcome;
    NoneFired(a.due, DueIn(a.row, a.due, n), a.row, callbacks);
    OutcomeOfNone(a, n, callbacks);
  }

  lemma ProgressOn(a: Standing, b: Standing, c: Standing, n: int, fired: seq<Id>, callbacks: map<Id, seq<Action>>,
                   t: Id)
    requires Progress(a, b, n, fired, callbacks) && t in callbacks && Fires(b, c, n, t, callbacks[t])
    requires b.row != [] && b.row[0] == t && Distinct(b.row) && t in b.due && b.due[t] <= n
    requires forall x :: x in DueIn(b.row, b.due, n) ==> b.due[t] <= b.due[x]
    requires forall x :: x in c.timers ==> x in b.timers && c.timers[x].periodic == b.timers[x].periodic
    ensures Progress(a, c, n, fired + [t], callbacks)
  {
    hide FiredInOrder, InAgreement, Outcome, Armed, Settled, SameTurns, InTurn, NoneRestarted, Touches, EndsStarted,
         Distinct, Unmoved, Targets;
    var atStart, before, after := DueIn(a.row, a.due, n), DueIn(b.row, b.due, n), DueIn(c.row, c.due, n);
    FiredApart(a.due, atStart, before, fired, callbacks);
    assert t in before;
    StillDue(b, c, Targets(callbacks[t]) + {t}, n);
    TargetsAreTouched(callbacks[t]);
    OneFired(a.due, atStart, a.row, before, b.row, after, c.row, fired, callbacks);
    OutcomeOn(a, b, c, n, fired, callbacks, t);
    RestartedOne(fired, a.timers, callbacks, t);
  }

  lemma ProgressEnds(a: Standing, b: Standing, n: int, fired: seq<Id>, callbacks: map<Id, seq<Action>>)
    requires Progress(a, b, n, fired, callbacks) && DueIn(b.row, b.due, n) == {}
    ensures FiredInOrder(a.due, DueIn(a.row, a.due, n), {}, fired, callbacks) && Sublist(fired, a.row)
    ensures InAgreement(a) && NoneRestarted(fired, a.timers, callbacks) ==> InAgreement(b)
    ensures Outcome(a, b, n, fired, callbacks)
  {
    hide InAgreement, NoneRestarted, Outcome;
    AllFired(a.due, DueIn(a.row, a.due, n), a.row, b.row, fired, callbacks);
  }

  // ---------------------------------------------------------------- any number of ticks

  ghost predicate Untouched(x: Id, callbacks: map<Id, seq<Action>>) {
    forall y :: y in callbacks ==> x !in Targets(callbacks[y])
  }

  /** When a timer that is due at time d fires. */
  predicate FiresAt(data: TimerData, d: int, m: int) {
    if data.periodic then data.initTick > 0 && d <= m && (m - d) % data.initTick == 0 else m == d
  }

  /** fired lists what fired at each tick after the time start, where the timers stood as in a. */
  ghost predicate FiredOnTime(a: Standing, start: int, fired: seq<seq<Id>>, callbacks: map<Id, seq<Action>>) {
    forall x, k :: x in a.row && x in a.timers && x in a.due && Untouched(x, callbacks) && 0 <= k < |fired| ==>
      (x in fired[k] <==> FiresAt(a.timers[x], a.due[x], start + k + 1))
  }

  /** The untouched timers stand at time n as they have to: a periodic one is listed for the next time it has to fire,
      a one-shot one is listed until it is due. */
  ghost predicate OnTime(a: Standing, b: Standing, n: int, callbacks: map<Id, seq<Action>>) {
    forall x :: x in a.row && x in a.timers && x in a.due && Untouched(x, callbacks) ==>
      x in b.timers && x in b.due && Next(a.timers[x], a.due[x], b.timers[x], b.due[x], x in b.row, n)
  }

  predicate Next(was: TimerData, d: int, data: TimerData, due: int, listed: bool, n: int) {
    && data.periodic == was.periodic && data.initTick == was.initTick
    && if was.periodic then was.initTick > 0 && listed && n < due && IsNext(d, was.initTick, n, due)
       else listed <==> n < d && (listed ==> due == d)
  }

  predicate IsNext(d: int, p: nat, n: int, due: int)
    requires p > 0
  {
    && n < due && d <= due && (due - d) % p == 0 && (due == d || due - p <= n)
  }

  lemma NextIsExact(d: int, p: nat, n: int, due: int)
    requires p > 0 && IsNext(d, p, n, due)
    ensures d <= n + 1 && (n + 1 - d) % p == 0 <==> due == n + 1
    ensures due != n + 1 ==> IsNext(d, p, n + 1, due)
    ensures due == n + 1 ==> IsNext(d, p, n + 1, n + 1 + p)
  {
    var q := (due - d) / p;
    assert due - d == q * p;
    if due == n + 1 {
      assert due + p - d == (q + 1) * p + 0;
      RestIs(due + p - d, q + 1, 0, p);
    } else if due != d {
      assert n + 1 - d == (q - 1) * p + (n + 1 - (due - p));
      RestIs(n + 1 - d, q - 1, n + 1 - (due - p), p);
    }
  }

  lemma {:induction false} TouchedByOf(fired: seq<Id>, callbacks: map<Id, seq<Action>>, x: Id)
    requires x !in fired && Untouched(x, callbacks)
    ensures x !in TouchedBy(fired, callbacks)
  {
    hide Targets;
    if fired != [] {
      var m := |fired| - 1;
      assert fired[m] in fired && forall y :: y in fired[..m] ==> y in fired;
      TouchedByOf(fired[..m], callbacks, x);
    }
  }

  /** Of the untouched timers, those listed and due fire. */
  lemma UntouchedFires(b: Standing, n: int, fired: seq<Id>, callbacks: map<Id, seq<Action>>, x: Id)
    requires FiredInOrder(b.due, DueIn(b.row, b.due, n), {}, fired, callbacks) && Untouched(x, callbacks) && x in b.due
    ensures x in fired <==> x in b.row && b.due[x] <= n
  {
    hide Touches, Targets;
    if x in b.row && b.due[x] <= n && x !in fired {
      assert x in DueIn(b.row, b.due, n);
      var y :| y in fired && y in callbacks && Touches(callbacks[y], x);
      TargetsAreTouched(callbacks[y]);
      assert false;
    }
  }

  lemma FiredOnce(due: map<Id, int>, atStart: set<Id>, fired: seq<Id>, callbacks: map<Id, seq<Action>>)
    requires FiredInOrder(due, atStart, {}, fired, callbacks)
    ensures forall i, j :: 0 <= i < j < |fired| ==> fired[i] != fired[j]
  {
  }

  /** One tick, from time n to the next, for one untouched timer. */
  lemma NextOn(was: TimerData, d: int, b: Standing, c: Standing, n: int, fired: seq<Id>,
               callbacks: map<Id, seq<Action>>, x: Id)
    requires x in b.timers && x in b.due && Next(was, d, b.timers[x], b.due[x], x in b.row, n)
    requires FiredInOrder(b.due, DueIn(b.row, b.due, n + 1), {}, fired, callbacks) && Untouched(x, callbacks)
    requires Outcome(b, c, n + 1, fired, callbacks) && Armed(b) && SameData(b, c)
    ensures x in fired <==> FiresAt(was, d, n + 1)
    ensures x in c.timers && x in c.due && Next(was, d, c.timers[x], c.due[x], x in c.row, n + 1)
  {
    hide FiredInOrder, DueIn, Targets, EndsStarted, Touches, Armed, IsNext;
    UntouchedFires(b, n + 1, fired, callbacks, x);
    if was.periodic {
      NextIsExact(d, was.initTick, n, b.due[x]);
    }
    if x in fired {
      var i :| 0 <= i < |fired| && fired[i] == x;
      FiredOnce(b.due, DueIn(b.row, b.due, n + 1), fired, callbacks);
      assert LeftAlone(fired, callbacks, i, x);
      assert LeftBy(c, n + 1, x, x, callbacks[x]);
      TargetsAreTouched(callbacks[x]);
      if EndsStarted(callbacks[x], x) {
        StartedIsTouched(callbacks[x], x);
      }
    } else {
      TouchedByOf(fired, callbacks, x);
    }
  }

  ghost predicate SameData(b: Standing, c: Standing) {
    && c.timers.Keys == b.timers.Keys && c.due.Keys == b.due.Keys
    && forall x :: x in c.timers ==>
         c.timers[x].periodic == b.timers[x].periodic && c.timers[x].initTick == b.timers[x].initTick
  }

  lemma OnTimeAtFirst(a: Standing, n: int, callbacks: map<Id, seq<Action>>)
    requires forall x :: x in a.row && x in a.due ==> n < a.due[x]
    requires forall x :: x in a.timers && a.timers[x].periodic ==> a.timers[x].initTick > 0
    ensures FiredOnTime(a, n, [], callbacks) && OnTime(a, a, n, callbacks)
  {
    hide Untouched;
  }

  lemma OnTimeOn(a: Standing, b: Standing, c: Standing, start: int, fired: seq<seq<Id>>, more: seq<Id>,
                 callbacks: map<Id, seq<Action>>)
    requires FiredOnTime(a, start, fired, callbacks) && OnTime(a, b, start + |fired|, callbacks)
    requires FiredInOrder(b.due, DueIn(b.row, b.due, start + |fired| + 1), {}, more, callbacks)
    requires Outcome(b, c, start + |fired| + 1, more, callbacks) && Armed(b) && SameData(b, c)
    ensures FiredOnTime(a, start, fired + [more], callbacks) && OnTime(a, c, start + |fired| + 1, callbacks)
  {
    hide FiredInOrder, DueIn, Outcome, Armed, SameData, Next, FiresAt, Untouched;
    var n := start + |fired|;
    forall x | x in a.row && x in a.timers && x in a.due && Untouched(x, callbacks)
      ensures x in more <==> FiresAt(a.timers[x], a.due[x], n + 1)
      ensures x in c.timers && x in c.due && Next(a.timers[x], a.due[x], c.timers[x], c.due[x], x in c.row, n + 1)
    {
      NextOn(a.timers[x], a.due[x], b, c, n, more, callbacks, x);
    }
  }

  // ---------------------------------------------------------------- the timer list

  class TimerSystem {
    const levels: nat              // RT_TIMER_SKIP_LIST_LEVEL
    ghost const lag: int           // how late a listed deadline may be looked at
    ghost const span: int          // how far ahead a deadline may lie
    var tick: int                  // rt_tick
    var rows: seq<seq<Id>>         // rt_timer_list, top row first
    var timers: map<Id, TimerData>
    var randomNr: nat
    ghost var now: int
    ghost var due: map<Id, int>

    ghost predicate Clock()
      reads this
    {
      && 0 <= lag < HALF && 0 <= span < HALF && span + lag <= 0x8000_0001
      && tick == now % TICKS
    }

    ghost predicate Pending(x: Id)
      reads this
    {
      && x in timers && x in due
      && timers[x].timeoutTick == due[x] % TICKS
      && now - lag <= due[x] <= now + span
    }

    /** Where the deadline of a timer about to be linked may lie: ahead, or as late as the check may be when the
        window leaves room for that. */
    ghost predicate Reachable(t: Id)
      reads this
    {
      && t in timers && t in due && timers[t].timeoutTick == due[t] % TICKS
      && now - lag <= due[t] <= now + span && (now <= due[t] || span + lag < HALF)
    }

    /** The rows form a skip list by true deadline, and every listed deadline is inside the window. */
    ghost predicate Valid()
      reads this
    {
      && Clock()
      && |rows| == levels > 0
      && due.Keys == timers.Keys
      && SkipList(rows, due)
      && forall x :: x in Bottom(rows) ==> Pending(x)
    }

    ghost predicate Consistent()
      reads this
      requires |rows| > 0
    {
      InAgreement(Stand())
    }

    ghost function DueNow(): set<Id>
      reads this
      requires |rows| > 0
    {
      DueBy(now)
    }

    ghost function DueBy(n: int): set<Id>
      reads this
      requires |rows| > 0
    {
      DueIn(Bottom(rows), due, n)
    }

    constructor (n: nat, ghost lag: int, ghost span: int, created: map<Id, TimerData>)
      requires n > 0 && 0 <= lag < HALF && 0 <= span < HALF && span + lag <= 0x8000_0001
      requires forall x :: x in created ==> !created[x].active
      ensures Valid() && Consistent() && timers == created && Bottom(rows) == [] && levels == n
      ensures this.lag == lag && this.span == span
    {
      levels := n;
      this.lag := lag;
      this.span := span;
      tick, now := 0, 0;
      rows := seq(n, _ => []);
      timers := created;
      randomNr := 0;
      due := map x | x in created :: 0;
    }

    /** One row of the search: from position p on, past everything that expires no later than t. */
    method SearchRow(l: nat, from: nat, t: Id) returns (p: nat)
      requires Clock() && Reachable(t)
      requires l < |rows| && Row(rows[l], due) && (forall x :: x in rows[l] ==> Pending(x))
      requires from <= |rows[l]| && forall j :: 0 <= j < from ==> due[rows[l][j]] <= due[t]
      ensures IsSplit(rows[l], due, due[t], p)
    {
      p := from;
      while p < |rows[l]|
        invariant from <= p <= |rows[l]|
        invariant forall j :: 0 <= j < p ==> due[rows[l][j]] <= due[t]
      {
        var c := rows[l][p];
        assert Pending(c);
        AfterIsExactIff(due[c], due[t]);
        if Sub(timers[c].timeoutTick, timers[t].timeoutTick) == 0 {
          SubOfRests(due[c], due[t]);
        } else if Sub(timers[c].timeoutTick, timers[t].timeoutTick) < HALF {
          break;
        }
        p := p + 1;
      }
    }

    /** The search of rt_timer_start: each row is entered below the place found in the row above. */
    method SearchAll(t: Id) returns (at: seq<nat>)
      requires Valid() && t !in Bottom(rows) && Reachable(t)
      ensures AreSplits(rows, due, due[t], at)
    {
      at := [];
      var from: nat := 0;
      for l := 0 to levels
        invariant |at| == l
        invariant forall k :: 0 <= k < l ==> Row(rows[k], due) && IsSplit(rows[k], due, due[t], at[k])
        invariant l < levels ==> from <= |rows[l]| && Row(rows[l], due)
                                 && forall j :: 0 <= j < from ==> due[rows[l][j]] <= due[t]
      {
        forall x | x in rows[l]
          ensures Pending(x)
        {
          DownToBottom(rows, due, l, x);
        }
        var p := SearchRow(l, from, t);
        at := at + [p];
        if l != levels - 1 {
          assert Row(rows[l + 1], due) && Sublist(rows[l + 1 - 1], rows[l + 1]);
          FilterMembers(rows[l + 1], Elems(rows[l]));
          if p == 0 {
            from := 0;
          } else {
            assert rows[l][p - 1] in rows[l];
            from := IndexOf(rows[l + 1], rows[l][p - 1]) + 1;
          }
        }
      }
    }

    /** Link t into the bottom row, and into further rows upwards while the counter's bits allow. */
    method Link(t: Id, at: seq<nat>)
      requires Valid() && t in due && t !in Bottom(rows) && AreSplits(rows, due, due[t], at)
      modifies this`rows, this`randomNr
      ensures SkipList(rows, due) && |rows| == levels
      ensures Bottom(rows) == Insert(old(Bottom(rows)), at[levels - 1], t)
    {
      hide Row, IsSplit, Sublist, Insert, SkipRows.SkipList;
      ghost var r := rows;
      randomNr := (randomNr + 1) % TICKS;
      var bits := randomNr;
      rows := rows[levels - 1 := Insert(rows[levels - 1], at[levels - 1], t)];
      assert rows == InsertFrom(r, at, t, levels - 1);
      var lvl := 2;
      while lvl <= levels
        invariant 2 <= lvl <= levels + 1
        invariant rows == InsertFrom(r, at, t, levels - lvl + 1)
      {
        if bits % (SKIP_MASK + 1) != 0 {
          break;
        }
        rows := rows[levels - lvl := Insert(rows[levels - lvl], at[levels - lvl], t)];
        assert rows == InsertFrom(r, at, t, levels - lvl);
        bits := bits / 4;
        lvl := lvl + 1;
      }
      InsertFromKeeps(r, due, at, t, levels - lvl + 1);
    }

    /** _rt_timer_remove. */
    method Unlist(t: Id)
      requires Valid()
      modifies this`rows
      ensures Valid() && rows == RemoveAll(old(rows), t) && Bottom(rows) == Remove(old(Bottom(rows)), t)
      ensures Elems(Bottom(rows)) == Elems(old(Bottom(rows))) - {t}
    {
      RemoveAllKeeps(rows, due, t);
      rows := seq(|rows|, l requires 0 <= l < |rows| reads this => Remove(rows[l], t));
      assert rows == RemoveAll(old(rows), t);
      assert forall x :: x in Bottom(rows) <==> x in Elems(Bottom(rows));
      assert forall x :: x in old(Bottom(rows)) <==> x in Elems(old(Bottom(rows)));
    }

    /** The first region of rt_timer_start: off the list, flag cleared. */
    method Unstart(t: Id)
      requires Valid() && t in timers
      modifies this`rows, this`timers
      ensures Valid() && t !in Bottom(rows) && rows == RemoveAll(old(rows), t)
      ensures Bottom(rows) == Remove(old(Bottom(rows)), t) && Elems(Bottom(rows)) == Elems(old(Bottom(rows))) - {t}
      ensures timers == old(timers)[t := old(timers)[t].(active := false)]
    {
      hide SkipRows.SkipList, RemoveAll;
      Unlist(t);
      assert t !in Bottom(rows) by {
        assert t !in Elems(Bottom(rows));
      }
      Deactivate(t);
    }

    /** Between the two regions: the tick is read and timeout_tick written. */
    method SetDeadline(t: Id)
      requires Valid() && t in timers && t !in Bottom(rows)
      modifies this`timers, this`due
      ensures Valid() && due == old(due)[t := now + old(timers)[t].initTick] && timers[t].timeoutTick == due[t] % TICKS
      ensures timers == old(timers)[t := old(timers)[t].(timeoutTick := (tick + old(timers)[t].initTick) % TICKS)]
    {
      hide SkipRows.SkipList;
      timers := timers[t := timers[t].(timeoutTick := (tick + timers[t].initTick) % TICKS)];
      ghost var due0 := due;
      due := due[t := now + timers[t].initTick];
      DueOfListed(rows, due0, due, t);
      TickSum(now, timers[t].initTick);
    }

    /** The second region, however many ticks, firings and calls on other timers have come before it: the bottom
        row gets t exactly where a stable insertion by true deadline puts it, p entries behind the head. */
    method LinkIn(t: Id) returns (ghost p: nat)
      requires Valid() && t !in Bottom(rows) && Reachable(t)
      modifies this`rows, this`timers, this`randomNr
      ensures Valid() && p <= |old(Bottom(rows))|
      ensures Listed(old(Bottom(rows)), due) && IsSplit(old(Bottom(rows)), due, due[t], p)
      ensures Bottom(rows) == Insert(old(Bottom(rows)), p, t) && Elems(Bottom(rows)) == Elems(old(Bottom(rows))) + {t}
      ensures timers == old(timers)[t := old(timers)[t].(active := true)]
    {
      hide SkipRows.SkipList, Sublist, Insert, Remove;
      var at := SearchAll(t);
      p := at[levels - 1];
      assert Row(rows[levels - 1], due) && IsSplit(rows[levels - 1], due, due[t], p);
      ghost var bottom := Bottom(rows);
      Link(t, at);
      InsertElems(bottom, p, t);
      assert forall x :: x in Bottom(rows) <==> x in Elems(Bottom(rows));
      assert forall x :: x in bottom <==> x in Elems(bottom);
      timers := timers[t := timers[t].(active := true)];
    }

    /** rt_timer_start with nothing in between, as from a timeout function or with interrupts off: whatever the
        tick counter, the bottom row gets t exactly where a stable insertion by true deadline puts it. */
    method Start(t: Id) returns (ghost p: nat)
      requires Valid() && t in timers && timers[t].initTick <= span
      modifies this`rows, this`timers, this`due, this`randomNr
      ensures Valid()
      ensures due == old(due)[t := now + old(timers)[t].initTick]
      ensures timers == old(timers)[t := old(timers)[t].(timeoutTick := (tick + old(timers)[t].initTick) % TICKS,
                                                         active := true)]
      ensures p <= |Remove(old(Bottom(rows)), t)| && Listed(Remove(old(Bottom(rows)), t), due)
      ensures IsSplit(Remove(old(Bottom(rows)), t), due, due[t], p)
      ensures Bottom(rows) == Insert(Remove(old(Bottom(rows)), t), p, t)
      ensures Elems(Bottom(rows)) == Elems(old(Bottom(rows))) + {t}
    {
      hide SkipRows.SkipList, Insert, Remove, IsSplit, RemoveAll;
      Unstart(t);
      SetDeadline(t);
      p := LinkIn(t);
    }

    /** rt_timer_stop. */
    method Stop(t: Id) returns (ok: bool)
      requires Valid() && t in timers
      modifies this`rows, this`timers
      ensures Valid() && ok == old(timers)[t].active
      ensures !ok ==> rows == old(rows) && timers == old(timers)
      ensures ok ==>
                rows == RemoveAll(old(rows), t) && Bottom(rows) == Remove(old(Bottom(rows)), t)
                && Elems(Bottom(rows)) == Elems(old(Bottom(rows))) - {t}
                && timers == old(timers)[t := old(timers)[t].(active := false)]
    {
      if !timers[t].active {
        return false;
      }
      Unlist(t);
      timers := timers[t := timers[t].(active := false)];
      ok := true;
    }

    /** Timeout functions act on existing timers, start none that is due at once, and a periodic timer
        has a period. */
    ghost predicate WellBehaved(callbacks: map<Id, seq<Action>>)
      reads this
    {
      && callbacks.Keys == timers.Keys
      && (forall x :: x in timers ==>
           ActionsFit(callbacks[x]) && (timers[x].periodic ==> 1 <= timers[x].initTick <= span))
    }

    ghost predicate ActionsFit(acts: seq<Action>)
      reads this
    {
      forall k :: 0 <= k < |acts| ==>
        acts[k].t in timers && (acts[k].DoStart? ==> 1 <= timers[acts[k].t].initTick <= span)
    }

    /** Settings that neither starting, stopping nor firing changes. */
    ghost predicate SameSettings(before: map<Id, TimerData>)
      reads this
    {
      && timers.Keys == before.Keys
      && forall x :: x in timers ==>
           timers[x].initTick == before[x].initTick && timers[x].periodic == before[x].periodic
    }

    ghost function Stand(): Standing
      reads this
      requires |rows| > 0
    {
      Standing(Bottom(rows), due, timers)
    }

    /** The timeout function of t: its actions one by one. No timer becomes due, and those not acted on stay as
        they are. */
    method RunCallback(t: Id, acts: seq<Action>)
      requires Valid() && t in timers && ActionsFit(acts)
      modifies this`rows, this`timers, this`due, this`randomNr
      ensures Valid() && SameSettings(old(timers))
      ensures Called(old(Stand()), Stand(), now, t, acts, old(timers)[t].active)
    {
      hide SkipRows.SkipList, Pending, Sub, Called, Worked, Obeyed;
      ghost var first, was := Stand(), timers[t].active;
      CalledNot(first, now, t, was);
      assert acts[..0] == [];
      for k := 0 to |acts|
        invariant Valid() && SameSettings(old(timers)) && Called(first, Stand(), now, t, acts[..k], was)
      {
        ghost var mid := Stand();
        Act(acts[k]);
        CalledOn(first, mid, Stand(), now, t, acts[..k], acts[k], was);
        assert acts[..k] + [acts[k]] == acts[..k + 1];
      }
      assert acts[..|acts|] == acts;
    }

    method Act(a: Action)
      requires Valid() && a.t in timers && (a.DoStart? ==> 1 <= timers[a.t].initTick <= span)
      modifies this`rows, this`timers, this`due, this`randomNr
      ensures Valid() && SameSettings(old(timers))
      ensures Worked(old(Stand()), Stand(), {a.t}, now) && Obeyed(old(Stand()), Stand(), now, a)
    {
      hide SkipRows.SkipList, Insert, RemoveAll, Remove, IsSplit, Worked, Pending, Sub, Unmoved, DueIn, Row, Listed;
      ghost var first := Stand();
      if a.DoStart? {
        ghost var p := Start(a.t);
        WorkedStart(first, Stand(), a.t, p, now);
        assert a.t in Elems(Bottom(rows));
      } else {
        var ok := Stop(a.t);
        if ok {
          WorkedStop(first, Stand(), a.t, now);
          assert a.t !in Elems(Bottom(rows));
        } else {
          WorkedFlag(first, Stand(), a.t, now);
        }
      }
      WorkedMoves(first, Stand(), {a.t}, now);
    }

    /** One round of the loop of rt_timer_check: the first timer is due and fires. Listing and the
        ACTIVATED flag agree afterwards iff the timer is periodic or did not start itself again. */
    method Fire(t: Id, acts: seq<Action>)
      requires Valid() && Bottom(rows) != [] && Bottom(rows)[0] == t && t in timers && due[t] <= now
      requires ActionsFit(acts) && (timers[t].periodic ==> 1 <= timers[t].initTick <= span)
      modifies this`rows, this`timers, this`due, this`randomNr
      ensures Valid() && SameSettings(old(timers))
      ensures Fires(old(Stand()), Stand(), now, t, acts)
      ensures DueNow() <= old(DueNow()) - {t} && forall x :: x in DueNow() ==> due[x] == old(due)[x]
      ensures forall x :: x in old(DueNow()) && x != t && !Touches(acts, x) ==> x in DueNow()
      ensures SameTurns(old(Bottom(rows)), Bottom(rows), DueNow())
      ensures old(Consistent()) ==> (Consistent() <==> timers[t].periodic || !EndsStarted(acts, t))
      ensures old(timers)[t].active || !timers[t].periodic ==> Settled(Stand(), now, t, acts)
      ensures Armed(old(Stand())) ==> Armed(Stand()) && Settled(Stand(), now, t, acts)
      ensures Armed(old(Stand())) ==> forall x :: LeftBy(Stand(), now, t, x, acts)
    {
      hide SkipRows.SkipList, Pending, Sub, SameTurns, Unmoved, Amid, AmidSelf, Armed, Settled, EndsStarted, Touches,
           InAgreement, AllActed, LeftBy, Renewed;
      ghost var first, was := Stand(), timers[t].active;
      Withdraw(t);
      ghost var a := Stand();
      RunCallback(t, acts);
      ghost var b := Stand();
      WorkedOn(first, a, b, {t}, Targets(acts), now);
      assert AmidSelf(b, t, acts, was);
      Renew(t);
      WorkedOn(first, b, Stand(), {t} + Targets(acts), {t}, now);
      WorkedMoves(b, Stand(), {t}, now);
      if was || !timers[t].periodic {
        RenewSettles(b, Stand(), now, t, acts, was);
      }
      if InAgreement(first) {
        RenewAgrees(b, Stand(), now, t, acts);
      }
      if Armed(first) {
        AllLeftBy(b, Stand(), now, t, acts);
      }
      assert {t} + Targets(acts) + {t} == Targets(acts) + {t};
      StillDue(first, Stand(), Targets(acts) + {t}, now);
      TargetsAreTouched(acts);
    }

    /** A due timer is taken off the list before its timeout function runs. */
    method Withdraw(t: Id)
      requires Valid() && t in Bottom(rows) && t in timers
      modifies this`rows
      ensures Valid() && DueNow() == old(DueNow()) - {t} && Worked(old(Stand()), Stand(), {t}, now)
      ensures old(Consistent()) ==> Amid(Stand(), t, []) && AmidSelf(Stand(), t, [], true)
      ensures AmidSelf(Stand(), t, [], timers[t].active)
      ensures Armed(old(Stand())) ==> Armed(Stand()) && (timers[t].periodic ==> timers[t].active)
    {
      hide SkipRows.SkipList, RemoveAll, Remove, Pending, Sub, SameTurns;
      ghost var first := Bottom(rows);
      assert forall x :: x in first <==> x in Elems(first);
      Unlist(t);
      assert forall x :: x in Bottom(rows) <==> x in Elems(Bottom(rows));
      TurnsRemoved(first, t, DueNow());
    }

    /** A periodic timer still active is started again; any other is flagged inactive. */
    method Renew(t: Id)
      requires Valid() && t in timers && (timers[t].periodic ==> 1 <= timers[t].initTick <= span)
      modifies this`rows, this`timers, this`due, this`randomNr
      ensures Valid() && SameSettings(old(timers))
      ensures Worked(old(Stand()), Stand(), {t}, now)
      ensures Renewed(old(Stand()), Stand(), now, t)
      ensures Armed(old(Stand())) ==> Armed(Stand())
    {
      hide SkipRows.SkipList, RemoveAll, Remove, Insert, IsSplit, Pending, Sub, Worked, Unmoved, DueIn, Armed;
      ghost var first := Stand();
      if timers[t].periodic && timers[t].active {
        Deactivate(t);
        ghost var p := Start(t);
        WorkedStart(first, Stand(), t, p, now);
        assert t in Elems(Bottom(rows));
      } else {
        Deactivate(t);
        WorkedFlag(first, Stand(), t, now);
      }
      WorkedMoves(first, Stand(), {t}, now);
      if Armed(first) {
        RenewArmed(first, Stand(), now, t);
      }
    }

    method Deactivate(t: Id)
      requires Valid() && t in timers
      modifies this`timers
      ensures Valid() && timers == old(timers)[t := old(timers)[t].(active := false)]
    {
      hide SkipRows.SkipList;
      timers := timers[t := timers[t].(active := false)];
    }

    /** rt_timer_check: it ends with nothing due, having fired timers once each, in deadline order,
        missing a due timer only when some timeout function started or stopped it. */
    method Check(callbacks: map<Id, seq<Action>>) returns (fired: seq<Id>)
      requires Valid() && WellBehaved(callbacks)
      modifies this`rows, this`timers, this`due, this`randomNr
      ensures Valid() && SameSettings(old(timers)) && DueNow() == {}
      ensures FiredInOrder(old(due), old(DueNow()), {}, fired, callbacks) && Sublist(fired, old(Bottom(rows)))
      ensures old(Consistent()) && NoneRestarted(fired, old(timers), callbacks) ==> Consistent()
      ensures Outcome(old(Stand()), Stand(), now, fired, callbacks)
    {
      hide SkipRows.SkipList, FiredInOrder, Sub, NoneRestarted, EndsStarted, Touches, SameTurns, Sublist, Distinct,
           Outcome, Unmoved, Settled, Armed, InAgreement, Progress, Fires;
      fired := [];
      ghost var first := Stand();
      ProgressOfNone(first, now, callbacks);
      while Bottom(rows) != []
        invariant Valid() && SameSettings(old(timers)) && Progress(first, Stand(), now, fired, callbacks)
        decreases DueNow()
      {
        var t := Bottom(rows)[0];
        assert Pending(t);
        ExpiredIsExactIff(now, due[t]);
        FirstIsEarliest();
        if Sub(tick, timers[t].timeoutTick) >= HALF {
          break;
        }
        ghost var mid := Stand();
        Fire(t, callbacks[t]);
        ProgressOn(first, mid, Stand(), now, fired, callbacks, t);
        fired := fired + [t];
      }
      assert DueNow() == {};
      ProgressEnds(first, Stand(), now, fired, callbacks);
    }

    lemma FirstIsEarliest()
      requires Valid() && Bottom(rows) != []
      ensures Bottom(rows)[0] in due && forall x :: x in Bottom(rows) ==> x in due && due[Bottom(rows)[0]] <= due[x]
      ensures due[Bottom(rows)[0]] > now ==> DueNow() == {}
      ensures Distinct(Bottom(rows))
    {
      assert Row(rows[levels - 1], due);
    }

    /** rt_tick_increase as far as timers go: with every deadline still ahead, one more tick and one
        check later every deadline is ahead again, however often the 32-bit tick has wrapped. */
    method Tick(callbacks: map<Id, seq<Action>>) returns (fired: seq<Id>)
      requires Valid() && WellBehaved(callbacks) && lag >= 1
      requires forall x :: x in Bottom(rows) ==> Pending(x) && now <= due[x]
      modifies this`tick, this`now, this`rows, this`timers, this`due, this`randomNr
      ensures Valid() && SameSettings(old(timers)) && now == old(now) + 1
      ensures forall x :: x in Bottom(rows) ==> Pending(x) && now < due[x]
      ensures FiredInOrder(old(due), old(DueBy(now + 1)), {}, fired, callbacks) && Sublist(fired, old(Bottom(rows)))
      ensures old(Consistent()) && NoneRestarted(fired, old(timers), callbacks) ==> Consistent()
      ensures Outcome(old(Stand()), Stand(), now, fired, callbacks)
    {
      hide SkipRows.SkipList, FiredInOrder, NoneRestarted, Touches, Outcome, InAgreement;
      Advance();
      fired := Check(callbacks);
      forall x | x in Bottom(rows)
        ensures Pending(x) && now < due[x]
      {
        assert x !in DueNow();
      }
    }

    /** Any number of ticks: a periodic timer that no timeout function touches fires when it is due and from then on
        every init_tick ticks, a one-shot timer when it is due and never again. */
    method Ticks(n: nat, callbacks: map<Id, seq<Action>>) returns (fired: seq<seq<Id>>)
      requires Valid() && WellBehaved(callbacks) && lag >= 1 && Armed(Stand())
      requires forall x :: x in Bottom(rows) ==> Pending(x) && now < due[x]
      modifies this`tick, this`now, this`rows, this`timers, this`due, this`randomNr
      ensures Valid() && SameSettings(old(timers)) && now == old(now) + n && |fired| == n
      ensures FiredOnTime(old(Stand()), old(now), fired, callbacks)
    {
      hide SkipRows.SkipList, FiredInOrder, NoneRestarted, InAgreement, FiredOnTime, OnTime, Sublist;
      ghost var first, start := Stand(), now;
      fired := [];
      OnTimeAtFirst(first, start, callbacks);
      for k := 0 to n
        invariant Valid() && SameSettings(old(timers)) && WellBehaved(callbacks) && Armed(Stand())
        invariant now == start + k && |fired| == k
        invariant forall x :: x in Bottom(rows) ==> Pending(x) && now < due[x]
        invariant FiredOnTime(first, start, fired, callbacks) && OnTime(first, Stand(), now, callbacks)
      {
        ghost var mid := Stand();
        var now_ := Tick(callbacks);
        OnTimeOn(first, mid, Stand(), start, fired, now_, callbacks);
        fired := fired + [now_];
      }
    }

    /** ++ rt_tick. */
    method Advance()
      requires Valid() && forall x :: x in Bottom(rows) ==> Pending(x) && now < due[x] + lag
      modifies this`tick, this`now
      ensures Valid() && now == old(now) + 1
    {
      TickSum(now, 1);
      tick := (tick + 1) % TICKS;
      now := now + 1;
    }

    /** A one-shot timer of one tick whose timeout function starts it again: when it has fired it is listed,
        due in one tick, and flagged inactive, so that rt_timer_stop refuses to stop it. */
    static method OneShotRestarted() returns (sys: TimerSystem, stopped: bool)
      ensures sys.Valid() && 0 in sys.timers && !sys.timers[0].periodic
      ensures 0 in Bottom(sys.rows) && !sys.timers[0].active && !sys.Consistent() && !stopped
    {
      hide SkipRows.SkipList, Insert, Remove, RemoveAll, IsSplit, SameTurns, Touches;
      sys := new TimerSystem(1, 1, 1, map[0 := TimerData(0, 1, false, false)]);
      ghost var p := sys.Start(0);
      assert Elems(Bottom(sys.rows)) == {0};
      assert 0 in Elems(Bottom(sys.rows));
      assert Bottom(sys.rows)[0] in Elems(Bottom(sys.rows));
      sys.Advance();
      assert forall x :: x in Bottom(sys.rows) ==> x in Elems(Bottom(sys.rows));
      sys.Fire(0, [DoStart(0)]);
      stopped := sys.Stop(0);
    }
  }

  // ---------------------------------------------------------------- the order of firing

  /** No fired one-shot timer was started again by its own timeout function. */
  ghost predicate NoneRestarted(fired: seq<Id>, before: map<Id, TimerData>, callbacks: map<Id, seq<Action>>) {
    forall x :: x in fired ==>
      x in before && x in callbacks && (before[x].periodic || !EndsStarted(callbacks[x], x))
  }

  lemma RestartedOne(fired: seq<Id>, before: map<Id, TimerData>, callbacks: map<Id, seq<Action>>, t: Id)
    requires t in before && t in callbacks
    ensures NoneRestarted(fired + [t], before, callbacks)
       <==> NoneRestarted(fired, before, callbacks) && (before[t].periodic || !EndsStarted(callbacks[t], t))
  {
    hide EndsStarted;
    var all := fired + [t];
    assert forall x :: x in all <==> x in fired || x == t;
    assert t in all;
  }

  /** The due timers come in the same turn in both rows. */
  ghost predicate SameTurns(a: seq<Id>, b: seq<Id>, due: set<Id>) {
    Filter(b, due) == Filter(a, due)
  }

  lemma TurnsChain(a: seq<Id>, b: seq<Id>, c: seq<Id>, d: set<Id>, e: set<Id>)
    requires SameTurns(a, b, d) && SameTurns(b, c, e) && e <= d
    ensures SameTurns(a, c, e)
  {
    FilterFilter(a, d, e);
    FilterFilter(b, d, e);
    assert d * e == e;
  }

  lemma TurnsSame(a: seq<Id>, due: set<Id>)
    ensures SameTurns(a, a, due)
  {
  }

  lemma TurnsRemoved(a: seq<Id>, t: Id, due: set<Id>)
    requires t !in due
    ensures SameTurns(a, Remove(a, t), due)
  {
    RemoveIsFilter(a, t);
    FilterFilter(a, Elems(a) - {t}, due);
    FilterAgree(a, (Elems(a) - {t}) * due, due);
  }

  lemma TurnsInserted(a: seq<Id>, t: Id, p: nat, due: set<Id>)
    requires t !in due && p <= |Remove(a, t)|
    ensures SameTurns(a, Insert(Remove(a, t), p, t), due)
  {
    var r := Remove(a, t);
    TurnsRemoved(a, t, due);
    FilterInsert(r, p, t, due);
    FilterConcat(r[..p], r[p..], due);
    assert r == r[..p] + r[p..];
  }

  /** fired, then what is due of the row now, in the order of the row at the start. */
  ghost predicate InTurn(start: seq<Id>, fired: seq<Id>, row: seq<Id>, due: set<Id>) {
    Filter(start, Elems(fired) + due) == fired + Filter(row, due)
  }

  lemma TurnTaken(start: seq<Id>, fired: seq<Id>, row: seq<Id>, due: set<Id>, row': seq<Id>, due': set<Id>)
    requires InTurn(start, fired, row, due) && row != [] && Distinct(row) && row[0] in due
    requires SameTurns(row, row', due') && due' <= due - {row[0]} && Elems(fired) !! due
    ensures InTurn(start, fired + [row[0]], row', due')
  {
    hide Filter;
    var h, rest, e := row[0], row[1..], Elems(fired);
    var all := Elems(fired + [h]) + due';
    assert row == [h] + rest;
    FilterCons(h, rest, due);
    FilterCons(h, rest, due');
    assert Elems(fired + [h]) == e + {h};
    FilterFilter(start, e + due, all);
    assert (e + due) * all == all;
    var tail := Filter(rest, due);
    FilterConcat(fired, [h] + tail, all);
    FilterCons(h, tail, all);
    FilterWhole(fired, all);
    FilterFilter(rest, due, all);
    DistinctCons(h, rest);
    FilterAgree(rest, due * all, due');
    assert fired + ([h] + tail) == fired + Filter(row, due);
    assert fired + ([h] + Filter(rest, due')) == fired + [h] + Filter(rest, due');
  }

  lemma TurnOf(dues: map<Id, int>, atStart: set<Id>, callbacks: map<Id, seq<Action>>, start: seq<Id>, fired: seq<Id>,
               row: seq<Id>, due: set<Id>, row': seq<Id>, due': set<Id>)
    requires FiredInOrder(dues, atStart, due, fired, callbacks)
    requires InTurn(start, fired, row, due) && row != [] && Distinct(row) && row[0] in due
    requires SameTurns(row, row', due') && due' <= due - {row[0]}
    ensures InTurn(start, fired + [row[0]], row', due')
  {
    FiredApart(dues, atStart, due, fired, callbacks);
    TurnTaken(start, fired, row, due, row', due');
  }

  /** fired so far: what FiredInOrder says, and in the turn of the row at the start. */
  ghost predicate FiredSoFar(dues: map<Id, int>, atStart: set<Id>, start: seq<Id>, due: set<Id>, row: seq<Id>,
                             fired: seq<Id>, callbacks: map<Id, seq<Action>>)
  {
    FiredInOrder(dues, atStart, due, fired, callbacks) && InTurn(start, fired, row, due)
  }

  lemma NoneFired(dues: map<Id, int>, atStart: set<Id>, start: seq<Id>, callbacks: map<Id, seq<Action>>)
    requires atStart <= dues.Keys
    ensures FiredSoFar(dues, atStart, start, atStart, start, [], callbacks)
  {
    FiredNone(dues, atStart, callbacks);
    TurnsStart(start, atStart);
  }

  lemma OneFired(dues: map<Id, int>, atStart: set<Id>, start: seq<Id>, due: set<Id>, row: seq<Id>, due': set<Id>,
                 row': seq<Id>, fired: seq<Id>, callbacks: map<Id, seq<Action>>)
    requires FiredSoFar(dues, atStart, start, due, row, fired, callbacks)
    requires row != [] && Distinct(row) && row[0] in due && row[0] in callbacks && due <= dues.Keys
    requires forall x :: x in due ==> dues[row[0]] <= dues[x]
    requires SameTurns(row, row', due') && due' <= due - {row[0]}
    requires forall x :: x in due && x != row[0] && !Touches(callbacks[row[0]], x) ==> x in due'
    ensures FiredSoFar(dues, atStart, start, due', row', fired + [row[0]], callbacks)
  {
    hide FiredInOrder, InTurn, Touches, Distinct;
    FiredOne(dues, atStart, due, due', fired, callbacks, row[0]);
    TurnOf(dues, atStart, callbacks, start, fired, row, due, row', due');
  }

  lemma AllFired(dues: map<Id, int>, atStart: set<Id>, start: seq<Id>, row: seq<Id>, fired: seq<Id>,
                 callbacks: map<Id, seq<Action>>)
    requires FiredSoFar(dues, atStart, start, {}, row, fired, callbacks)
    ensures FiredInOrder(dues, atStart, {}, fired, callbacks) && Sublist(fired, start)
  {
    hide FiredInOrder;
    TurnsEnd(start, fired, row, {});
  }

  lemma TurnsStart(row: seq<Id>, due: set<Id>)
    ensures InTurn(row, [], row, due)
  {
    assert Elems<Id>([]) + due == due;
    assert [] + Filter(row, due) == Filter(row, due);
  }

  lemma TurnsEnd(start: seq<Id>, fired: seq<Id>, row: seq<Id>, due: set<Id>)
    requires InTurn(start, fired, row, due) && due == {}
    ensures Sublist(fired, start)
  {
    FilterNone(row);
    assert Elems(fired) + due == Elems(fired) && fired + [] == fired;
  }

  lemma {:induction false} FilterNone(a: seq<Id>)
    ensures Filter(a, {}) == []
  {
    if a != [] {
      FilterNone(a[1..]);
    }
  }

  lemma FiredApart(due: map<Id, int>, atStart: set<Id>, pending: set<Id>, fired: seq<Id>,
      callbacks: map<Id, seq<Action>>)
    requires FiredInOrder(due, atStart, pending, fired, callbacks)
    ensures Elems(fired) !! pending
  {
  }

  lemma {:induction false} FilterWhole(a: seq<Id>, s: set<Id>)
    requires forall x :: x in a ==> x in s
    ensures Filter(a, s) == a
  {
    if a != [] {
      assert a[0] in a;
      FilterWhole(a[1..], s);
    }
  }

  /** fired lists timers that were due, once each, by deadline; of those due at the start, the set
      pending still is, and every other one was fired or acted on by a timeout function. */
  ghost predicate FiredInOrder(due: map<Id, int>, atStart: set<Id>, pending: set<Id>, fired: seq<Id>,
                               callbacks: map<Id, seq<Action>>)
  {
    && pending <= atStart <= due.Keys
    && Distinct(fired)
    && (forall x :: x in fired ==> x in atStart && x !in pending && x in callbacks)
    && Listed(fired, due) && Sorted(fired, due)
    && (forall i, x :: 0 <= i < |fired| && x in pending ==> due[fired[i]] <= due[x])
    && forall x :: x in atStart ==> x in pending || x in fired || exists y :: y in fired && Touches(callbacks[y], x)
  }

  lemma FiredNone(due: map<Id, int>, atStart: set<Id>, callbacks: map<Id, seq<Action>>)
    requires atStart <= due.Keys
    ensures FiredInOrder(due, atStart, atStart, [], callbacks)
  {
  }

  lemma FiredOne(due: map<Id, int>, atStart: set<Id>, pending: set<Id>, pending': set<Id>, fired: seq<Id>,
                 callbacks: map<Id, seq<Action>>, t: Id)
    requires FiredInOrder(due, atStart, pending, fired, callbacks) && t in callbacks
    requires t in pending && forall x :: x in pending ==> due[t] <= due[x]
    requires pending' <= pending - {t}
    requires forall x :: x in pending && x != t && !Touches(callbacks[t], x) ==> x in pending'
    ensures FiredInOrder(due, atStart, pending', fired + [t], callbacks)
  {
    hide Touches;
    var all := fired + [t];
    assert forall x :: x in all <==> x in fired || x == t;
    assert t in all;
    forall x | x in atStart
      ensures x in pending' || x in all || exists y :: y in all && Touches(callbacks[y], x)
    {
      if x !in pending && x !in fired {
        var y :| y in fired && Touches(callbacks[y], x);
        assert y in all;
      }
    }
  }
}
