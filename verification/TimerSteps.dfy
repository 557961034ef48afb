/** rt_timer_start and rt_timer_stop of rt-thread/src/timer.c at the grain of the interrupt lock. A step is one
    interrupt-disabled region or one thing a call does outside of any; what a call has still to do is its Local
    value. Ticks, firings with their timeout functions, and whole calls made with interrupts off are steps too.
    Any caller may take any step it has come to, in any order. Time and deadlines are true, unbounded ones. */
module TimerSteps {
  import opened Sequences
  import opened SkipRows
  import opened Timer

  type Caller = nat

  datatype Local =
    | Idle
    | Unlinked(t: Id)    // rt_timer_start: off the list, flag cleared; the tick is still to be read
    | Dated(t: Id)       // the tick is read and timeout_tick written; the search and the links come next
    | Stopping(t: Id)    // rt_timer_stop has found the flag set
    | Stopped(t: Id)     // off the list; the flag is still to be cleared

  /** What a timeout function or a call with interrupts off does: a whole rt_timer_start or rt_timer_stop. */
  datatype Act = On(t: Id, top: nat) | Halt(t: Id)

  /** top: the highest row the random counter lets the timer into. */
  datatype Step =
    | Start(c: Caller, t: Id)
    | Stop(c: Caller, t: Id)
    | Go(c: Caller, top: nat)
    | Fire(acts: seq<Act>, top: nat)
    | Do(act: Act)
    | Tick

  datatype State = State(now: int, rows: seq<seq<Id>>, due: map<Id, int>, init: map<Id, nat>, periodic: set<Id>,
                         active: set<Id>, local: map<Caller, Local>)

  // ---------------------------------------------------------------- the search

  /** Where the loop over one row stops that starts behind its first entries. */
  function PlaceIn(row: seq<Id>, due: map<Id, int>, d: int, from: nat): (p: nat)
    ensures p <= |row|
    decreases |row| - from
  {
    if from >= |row| then |row|
    else if row[from] in due && After(due[row[from]] % TICKS, d % TICKS) then from
    else PlaceIn(row, due, d, from + 1)
  }

  /** How far into the lower row the entry before place p leads. */
  function Below(upper: seq<Id>, lower: seq<Id>, p: nat): nat
    requires p <= |upper|
  {
    if p > 0 && upper[p - 1] in lower then IndexOf(lower, upper[p - 1]) + 1 else 0
  }

  /** The loop over the rows, from row l on. */
  function Places(rows: seq<seq<Id>>, due: map<Id, int>, d: int, l: nat, from: nat): (at: seq<nat>)
    requires l <= |rows|
    ensures |at| == |rows| - l && forall k :: 0 <= k < |at| ==> at[k] <= |rows[l + k]|
    decreases |rows| - l
  {
    if l == |rows| then []
    else
      var p := PlaceIn(rows[l], due, d, from);
      [p] + Places(rows, due, d, l + 1, if l + 1 < |rows| then Below(rows[l], rows[l + 1], p) else 0)
  }

  // ---------------------------------------------------------------- the steps

  /** The first region of rt_timer_start. */
  function Off(s: State, t: Id): State {
    s.(rows := RemoveAll(s.rows, t), active := s.active - {t})
  }

  /** timeout_tick is written. */
  function Date(s: State, t: Id): State
    requires t in s.init
  {
    s.(due := s.due[t := s.now + s.init[t]])
  }

  /** The second region of rt_timer_start. */
  function Link(s: State, t: Id, top: nat): State
    requires t in s.due
  {
    s.(rows := InsertFrom(s.rows, Places(s.rows, s.due, s.due[t], 0, 0), t, top), active := s.active + {t})
  }

  function Begun(s: State, t: Id, top: nat): State
    requires t in s.init
  {
    Link(Date(Off(s, t), t), t, top)
  }

  function Acted(s: State, act: Act): State
    requires act.t in s.init
  {
    match act
    case On(t, top) => Begun(s, t, top)
    case Halt(t) => if t in s.active then Off(s, t) else s
  }

  predicate ActsOn(init: map<Id, nat>, acts: seq<Act>) {
    forall k :: 0 <= k < |acts| ==> acts[k].t in init
  }

  function AllActed(s: State, acts: seq<Act>): (r: State)
    requires ActsOn(s.init, acts)
    ensures r.init == s.init
    decreases |acts|
  {
    if acts == [] then s else AllActed(Acted(s, acts[0]), acts[1..])
  }

  /** One round of rt_timer_check: the first timer fires. */
  function Fired(s: State, acts: seq<Act>, top: nat): State
    requires |s.rows| > 0 && Bottom(s.rows) != [] && Bottom(s.rows)[0] in s.init
    requires ActsOn(s.init, acts)
  {
    var h := Bottom(s.rows)[0];
    var r := AllActed(s.(rows := RemoveAll(s.rows, h)), acts);
    if h in s.periodic && h in r.active then Begun(r.(active := r.active - {h}), h, top)
    else r.(active := r.active - {h})
  }

  function SetLocal(s: State, c: Caller, l: Local): State {
    s.(local := s.local[c := l])
  }

  predicate Enabled(s: State, e: Step) {
    match e
    case Start(c, t) => c in s.local && s.local[c] == Idle && t in s.init
    case Stop(c, t) => c in s.local && s.local[c] == Idle && t in s.init
    case Go(c, top) => c in s.local && s.local[c] != Idle && top < |s.rows|
    case Fire(acts, top) =>
      && |s.rows| > 0 && Bottom(s.rows) != [] && Bottom(s.rows)[0] in s.due && s.due[Bottom(s.rows)[0]] <= s.now
      && top < |s.rows| && Bottom(s.rows)[0] in s.init && ActsOk(s, acts)
    case Do(act) => ActOk(s, act)
    case Tick => true
  }

  predicate ActsOk(s: State, acts: seq<Act>) {
    ActsOn(s.init, acts) && forall k :: 0 <= k < |acts| ==> ActOk(s, acts[k])
  }

  predicate ActOk(s: State, act: Act) {
    act.t in s.init && (act.On? ==> act.top < |s.rows|)
  }

  function Gone(s: State, c: Caller, top: nat): State
    requires Shaped(s) && Enabled(s, Go(c, top))
  {
    match s.local[c]
    case Unlinked(t) => SetLocal(Date(s, t), c, Dated(t))
    case Dated(t) => SetLocal(Link(s, t, top), c, Idle)
    case Stopping(t) => SetLocal(s.(rows := RemoveAll(s.rows, t)), c, Stopped(t))
    case Stopped(t) => SetLocal(s.(active := s.active - {t}), c, Idle)
  }

  function Apply(s: State, e: Step): State
    requires Shaped(s) && Enabled(s, e)
  {
    match e
    case Start(c, t) => SetLocal(Off(s, t), c, Unlinked(t))
    case Stop(c, t) => if t in s.active then SetLocal(s, c, Stopping(t)) else s
    case Go(c, top) => Gone(s, c, top)
    case Fire(acts, top) => Fired(s, acts, top)
    case Do(act) => Acted(s, act)
    case Tick => s.(now := s.now + 1)
  }

  // ---------------------------------------------------------------- the invariant

  predicate Shaped(s: State) {
    |s.rows| > 0 && s.due.Keys == s.init.Keys
      && forall c :: c in s.local && s.local[c] != Idle ==> s.local[c].t in s.init
  }

  predicate Holds(l: Local, t: Id) {
    l != Idle && l.t == t
  }

  ghost predicate Held(s: State, t: Id) {
    exists c :: c in s.local && Holds(s.local[c], t)
  }

  /** Deadlines lie at most span ahead, and listed ones at most lag behind: how late the check may be. */
  ghost predicate InWindow(s: State, lag: nat, span: nat)
    requires |s.rows| > 0
  {
    && (forall x :: x in s.init ==> s.init[x] <= span)
    && (forall x :: x in s.due ==> s.due[x] <= s.now + span)
    && forall x :: x in Bottom(s.rows) ==> x in s.due && s.now - lag <= s.due[x]
  }

  /** The rows form a skip list sorted by true deadline, every listed deadline is inside the window. */
  ghost predicate Ordered(s: State, lag: nat, span: nat) {
    Shaped(s) && SkipList(s.rows, s.due) && InWindow(s, lag, span)
  }

  /** Flag and list agree, but for timers that a call has in hand. */
  ghost predicate Agrees(s: State, t: Id)
    requires |s.rows| > 0
  {
    Held(s, t) || (t in s.active <==> t in Bottom(s.rows))
  }

  ghost predicate Good(s: State, lag: nat, span: nat) {
    Ordered(s, lag, span) && forall x :: x in s.init ==> Agrees(s, x)
  }

  predicate Window(lag: nat, span: nat) {
    span + lag < HALF
  }

  // ---------------------------------------------------------------- one row

  ghost predicate Inside(row: seq<Id>, due: map<Id, int>, now: int, d: int, lag: int, late: int, span: int) {
    Row(row, due) && (forall x :: x in row ==> now - lag <= due[x] <= now + span) && now - late <= d <= now + span
  }

  /** Whatever is in the row, the loop stops at the place of a stable insertion by true deadline. */
  ghost predicate SearchIsRight(lag: int, late: int, span: int) {
    forall row, due, now: int, d :: Inside(row, due, now, d, lag, late, span) ==>
      IsSplit(row, due, d, PlaceIn(row, due, d, 0))
  }

  lemma {:induction false} PlaceIsSplit(row: seq<Id>, due: map<Id, int>, d: int, from: nat)
    requires Row(row, due) && from <= |row| && (forall j :: 0 <= j < from ==> due[row[j]] <= d)
    requires forall j :: 0 <= j < |row| ==> -0x8000_0001 <= due[row[j]] - d < HALF
    ensures IsSplit(row, due, d, PlaceIn(row, due, d, from))
    decreases |row| - from
  {
    if from < |row| {
      AfterIsExactIff(due[row[from]], d);
      if due[row[from]] <= d {
        PlaceIsSplit(row, due, d, from + 1);
      }
    }
  }

  /** With listed deadlines at most lag late, new ones at most late behind when they are linked, and all at most
      span ahead, the search of one row is right for every row exactly when span + late stays below
      RT_TICK_MAX / 2 and span + lag does not exceed 2^31 + 1. */
  lemma SearchIsRightIff(lag: int, late: int, span: int)
    requires 0 <= lag < HALF && 0 <= late < HALF && 0 < span < HALF
    ensures SearchIsRight(lag, late, span) <==> span + late < HALF && span + lag <= 0x8000_0001
  {
    if span + late < HALF && span + lag <= 0x8000_0001 {
      forall row, due, now: int, d | Inside(row, due, now, d, lag, late, span)
        ensures IsSplit(row, due, d, PlaceIn(row, due, d, 0))
      {
        assert forall j :: 0 <= j < |row| ==> row[j] in row;
        PlaceIsSplit(row, due, d, 0);
      }
    } else if span + late >= HALF {
      var row, due, d := [0], map[0 := span], -late;
      AfterIsExactIff(span, -late);
      assert Inside(row, due, 0, d, lag, late, span) && PlaceIn(row, due, d, 0) == 1;
      assert !IsSplit(row, due, d, 1);
    } else {
      var row, due, d := [0], map[0 := -lag], span;
      AfterIsExactIff(-lag, span);
      assert Inside(row, due, 0, d, lag, late, span) && PlaceIn(row, due, d, 0) == 0;
      assert !IsSplit(row, due, d, 0);
    }
  }

  // ---------------------------------------------------------------- all rows

  lemma {:induction false} RowInBottom(rows: seq<seq<Id>>, due: map<Id, int>, l: nat)
    requires SkipList(rows, due) && l < |rows|
    ensures forall x :: x in rows[l] ==> x in Bottom(rows)
  {
    forall x | x in rows[l]
      ensures x in Bottom(rows)
    {
      DownToBottom(rows, due, l, x);
    }
  }

  /** The place found above is not behind the split below. */
  lemma BelowIsBefore(upper: seq<Id>, lower: seq<Id>, due: map<Id, int>, d: int, p: nat)
    requires Row(upper, due) && Row(lower, due) && IsSplit(upper, due, d, p)
    ensures Below(upper, lower, p) <= |lower| && forall j :: 0 <= j < Below(upper, lower, p) ==> due[lower[j]] <= d
  {
    if p > 0 && upper[p - 1] in lower {
      var k := IndexOf(lower, upper[p - 1]);
      assert due[lower[k]] <= d;
    }
  }

  ghost predicate SplitAt(row: seq<Id>, due: map<Id, int>, d: int, p: nat) {
    Row(row, due) && IsSplit(row, due, d, p)
  }

  ghost predicate SplitsFrom(rows: seq<seq<Id>>, due: map<Id, int>, d: int, l: nat, at: seq<nat>) {
    l + |at| == |rows| && forall k :: 0 <= k < |at| ==> SplitAt(rows[l + k], due, d, at[k])
  }

  /** Row l may be searched from entry from on. */
  ghost predicate MayStart(rows: seq<seq<Id>>, due: map<Id, int>, d: int, l: nat, from: nat) {
    l < |rows| ==> from <= |rows[l]| && Row(rows[l], due) && forall j :: 0 <= j < from ==> due[rows[l][j]] <= d
  }

  ghost predicate InReach(rows: seq<seq<Id>>, due: map<Id, int>, d: int)
    requires |rows| > 0
  {
    forall x :: x in Bottom(rows) ==> x in due && -0x8000_0001 <= due[x] - d < HALF
  }

  lemma OneRow(rows: seq<seq<Id>>, due: map<Id, int>, d: int, l: nat, from: nat)
    requires SkipList(rows, due) && InReach(rows, due, d) && l < |rows| && MayStart(rows, due, d, l, from)
    ensures var p := PlaceIn(rows[l], due, d, from);
            && SplitAt(rows[l], due, d, p)
            && MayStart(rows, due, d, l + 1, if l + 1 < |rows| then Below(rows[l], rows[l + 1], p) else 0)
  {
    hide IsSplit, SkipRows.Sorted, Distinct;
    RowInBottom(rows, due, l);
    assert forall j :: 0 <= j < |rows[l]| ==> rows[l][j] in rows[l];
    PlaceIsSplit(rows[l], due, d, from);
    if l + 1 < |rows| {
      FirstRow(rows, due);
      BelowIsBefore(rows[l], rows[l + 1], due, d, PlaceIn(rows[l], due, d, from));
    }
  }

  lemma {:induction false} PlacesAreSplits(rows: seq<seq<Id>>, due: map<Id, int>, d: int, l: nat, from: nat)
    requires SkipList(rows, due) && InReach(rows, due, d) && l <= |rows| && MayStart(rows, due, d, l, from)
    ensures SplitsFrom(rows, due, d, l, Places(rows, due, d, l, from))
    decreases |rows| - l
  {
    hide SkipRows.SkipList, InReach, MayStart, SplitAt, Below;
    if l < |rows| {
      OneRow(rows, due, d, l, from);
      var p := PlaceIn(rows[l], due, d, from);
      var next := if l + 1 < |rows| then Below(rows[l], rows[l + 1], p) else 0;
      PlacesAreSplits(rows, due, d, l + 1, next);
      SplitsCons(rows, due, d, l, p, Places(rows, due, d, l + 1, next));
    }
  }

  lemma SplitsCons(rows: seq<seq<Id>>, due: map<Id, int>, d: int, l: nat, p: nat, at: seq<nat>)
    requires l < |rows| && SplitAt(rows[l], due, d, p) && SplitsFrom(rows, due, d, l + 1, at)
    ensures SplitsFrom(rows, due, d, l, [p] + at)
  {
    hide SplitAt;
    var all := [p] + at;
    forall k | 0 <= k < |all|
      ensures SplitAt(rows[l + k], due, d, all[k])
    {
      if k > 0 {
        assert all[k] == at[k - 1] && SplitAt(rows[l + 1 + (k - 1)], due, d, at[k - 1]);
      }
    }
  }

  lemma AllPlaced(rows: seq<seq<Id>>, due: map<Id, int>, d: int)
    requires SkipList(rows, due) && InReach(rows, due, d)
    ensures AreSplits(rows, due, d, Places(rows, due, d, 0, 0))
  {
    hide SkipRows.SkipList, InReach;
    var at := Places(rows, due, d, 0, 0);
    FirstRow(rows, due);
    PlacesAreSplits(rows, due, d, 0, 0);
    forall l | 0 <= l < |rows|
      ensures Row(rows[l], due) && IsSplit(rows[l], due, d, at[l])
    {
      assert SplitAt(rows[0 + l], due, d, at[l]);
    }
  }

  lemma OffKeeps(s: State, t: Id, lag: nat, span: nat)
    requires Ordered(s, lag, span)
    ensures var r := s.(rows := RemoveAll(s.rows, t));
            && Ordered(r, lag, span) && |r.rows| == |s.rows|
            && forall x :: x in Bottom(r.rows) <==> x in Bottom(s.rows) && x != t
  {
    hide SkipRows.SkipList;
    RemoveAllKeeps(s.rows, s.due, t);
    var r := s.(rows := RemoveAll(s.rows, t));
    assert forall x :: x in Bottom(r.rows) <==> x in Elems(Bottom(r.rows));
    assert forall x :: x in Bottom(s.rows) <==> x in Elems(Bottom(s.rows));
  }

  lemma LinkKeeps(s: State, t: Id, top: nat, lag: nat, span: nat)
    requires Ordered(s, lag, span) && Window(lag, span) && t in s.init && top < |s.rows|
    requires t !in Bottom(s.rows) && s.now - lag <= s.due[t]
    ensures var r := Link(s, t, top);
            && Ordered(r, lag, span) && |r.rows| == |s.rows|
            && forall x :: x in Bottom(r.rows) <==> x in Bottom(s.rows) || x == t
  {
    hide SkipRows.SkipList, InsertFrom, Places, IsSplit;
    var d := s.due[t];
    var at := Places(s.rows, s.due, d, 0, 0);
    AllPlaced(s.rows, s.due, d);
    InsertFromKeeps(s.rows, s.due, at, t, top);
    InsertElems(Bottom(s.rows), at[|s.rows| - 1], t);
    var r := Link(s, t, top);
    LinkLength(s, t, top);
    assert forall x :: x in Bottom(r.rows) <==> x in Elems(Bottom(r.rows));
    assert forall x :: x in Bottom(s.rows) <==> x in Elems(Bottom(s.rows));
  }

  lemma FirstRow(rows: seq<seq<Id>>, due: map<Id, int>)
    requires SkipList(rows, due)
    ensures |rows| > 0 && forall k :: 0 <= k < |rows| ==> Row(rows[k], due)
  {
  }

  lemma LinkLength(s: State, t: Id, top: nat)
    requires t in s.due
    ensures |Link(s, t, top).rows| == |s.rows|
  {
  }

  /** A timer that is listed already, or due more than lag ago, is not linked in order. */
  lemma LinkBreaks(s: State, t: Id, top: nat, lag: nat, span: nat)
    requires Ordered(s, lag, span) && t in s.init && top < |s.rows| && (t in Bottom(s.rows) || s.due[t] < s.now - lag)
    ensures !Ordered(Link(s, t, top), lag, span)
  {
    hide SkipRows.SkipList, Places;
    var n := |s.rows|;
    var r, p := Link(s, t, top), Places(s.rows, s.due, s.due[t], 0, 0)[n - 1];
    assert Bottom(r.rows) == Insert(Bottom(s.rows), p, t);
    InsertTwice(Bottom(s.rows), p, t);
    if SkipRows.SkipList(r.rows, r.due) {
      FirstRow(r.rows, r.due);
    }
  }

  lemma InsertTwice(b: seq<Id>, p: nat, t: Id)
    requires p <= |b|
    ensures t in Insert(b, p, t) && (t in b ==> !Distinct(Insert(b, p, t)))
  {
    var r := Insert(b, p, t);
    assert r[p] == t;
    if t in b {
      var i :| 0 <= i < |b| && b[i] == t;
      if i < p {
        assert r[i] == r[p];
      } else {
        assert r[p] == r[i + 1];
      }
    }
  }

  // ---------------------------------------------------------------- writing a deadline

  /** Deadline d suits the neighbours of t, wherever t is in the row. */
  predicate Suits(b: seq<Id>, due: map<Id, int>, t: Id, d: int) {
    forall i: nat :: i < |b| && b[i] == t ==>
      (i > 0 && b[i - 1] in due ==> due[b[i - 1]] <= d) && (i + 1 < |b| && b[i + 1] in due ==> d <= due[b[i + 1]])
  }

  lemma DateSortedIff(b: seq<Id>, due: map<Id, int>, t: Id, d: int)
    requires Row(b, due)
    ensures Row(b, due[t := d]) <==> Suits(b, due, t, d)
  {
    var r := due[t := d];
    if Suits(b, due, t, d) {
      forall j, k | 0 <= j < k < |b|
        ensures r[b[j]] <= r[b[k]]
      {
        if b[j] == t {
          assert due[b[j + 1]] <= due[b[k]];
        } else if b[k] == t {
          assert due[b[j]] <= due[b[k - 1]];
        }
      }
    }
    if Row(b, r) {
      forall i: nat | i < |b| && b[i] == t
        ensures (i > 0 && b[i - 1] in due ==> due[b[i - 1]] <= d)
                && (i + 1 < |b| && b[i + 1] in due ==> d <= due[b[i + 1]])
      {
        assert i > 0 ==> r[b[i - 1]] <= r[b[i]] && b[i - 1] != t;
        assert i + 1 < |b| ==> r[b[i]] <= r[b[i + 1]] && b[i + 1] != t;
      }
    }
  }

  /** Rows above a sorted one are sorted. */
  lemma {:induction false} RowsFollow(rows: seq<seq<Id>>, due: map<Id, int>, due': map<Id, int>, l: nat)
    requires SkipList(rows, due) && Row(Bottom(rows), due') && l < |rows|
    ensures Row(rows[l], due')
    decreases |rows| - l
  {
    hide Row, Sublist, Filter;
    if l + 1 < |rows| {
      RowsFollow(rows, due, due', l + 1);
      assert Sublist(rows[l + 1 - 1], rows[l + 1]);
      SublistRow(rows[l], rows[l + 1], due');
    }
  }

  lemma SublistRow(a: seq<Id>, b: seq<Id>, due: map<Id, int>)
    requires Sublist(a, b) && Row(b, due)
    ensures Row(a, due)
  {
    FilterSorted(b, Elems(a), due);
  }

  lemma DateKeepsIff(s: State, t: Id, lag: nat, span: nat)
    requires Ordered(s, lag, span) && t in s.init
    ensures Ordered(Date(s, t), lag, span) <==> Suits(Bottom(s.rows), s.due, t, s.now + s.init[t])
  {
    hide Row, Sublist;
    var r := Date(s, t);
    FirstRow(s.rows, s.due);
    DateSortedIff(Bottom(s.rows), s.due, t, s.now + s.init[t]);
    if Row(Bottom(s.rows), r.due) {
      forall l | 0 <= l < |s.rows|
        ensures Row(s.rows[l], r.due)
      {
        RowsFollow(s.rows, s.due, r.due, l);
      }
    } else {
      assert !SkipList(r.rows, r.due) by {
        if SkipList(r.rows, r.due) {
          FirstRow(r.rows, r.due);
        }
      }
    }
  }

  lemma Unlisted(b: seq<Id>, due: map<Id, int>, t: Id, d: int)
    requires t !in b
    ensures Suits(b, due, t, d)
  {
  }

  // ---------------------------------------------------------------- flags

  /** In order, and flag and list agree but perhaps for t. */
  ghost predicate GoodBut(s: State, t: Id, lag: nat, span: nat) {
    Ordered(s, lag, span) && forall x :: x in s.init && x != t ==> Agrees(s, x)
  }

  /** A whole rt_timer_start with nothing in between. */
  lemma BegunKeeps(s: State, t: Id, top: nat, lag: nat, span: nat)
    requires Ordered(s, lag, span) && Window(lag, span) && t in s.init && top < |s.rows|
    ensures var r := Begun(s, t, top);
            && Ordered(r, lag, span) && |r.rows| == |s.rows| && r.init == s.init && r.now == s.now
            && r.local == s.local && r.periodic == s.periodic && r.active == s.active + {t}
            && forall x :: x in Bottom(r.rows) <==> x in Bottom(s.rows) || x == t
  {
    hide SkipRows.SkipList, RemoveAll, InsertFrom, Suits;
    OffKeeps(s, t, lag, span);
    var a := Off(s, t);
    OffOrdered(s, t, lag, span);
    Unlisted(Bottom(a.rows), a.due, t, a.now + a.init[t]);
    DateKeepsIff(a, t, lag, span);
    LinkKeeps(Date(a, t), t, top, lag, span);
  }

  lemma OffOrdered(s: State, t: Id, lag: nat, span: nat)
    requires Ordered(s.(rows := RemoveAll(s.rows, t)), lag, span)
    ensures Ordered(Off(s, t), lag, span)
  {
  }

  lemma ActedKeeps(s: State, act: Act, h: Id, lag: nat, span: nat)
    requires GoodBut(s, h, lag, span) && Window(lag, span) && ActOk(s, act)
    ensures var r := Acted(s, act);
            && GoodBut(r, h, lag, span) && |r.rows| == |s.rows| && r.init == s.init && r.now == s.now
            && r.local == s.local && r.periodic == s.periodic
    ensures Agrees(s, h) ==> Agrees(Acted(s, act), h)
  {
    hide Ordered, Begun, RemoveAll;
    var t, r := act.t, Acted(s, act);
    LengthOf(s, lag, span);
    if act.On? {
      BegunKeeps(s, t, act.top, lag, span);
    } else if t in s.active {
      OffKeeps(s, t, lag, span);
      OffOrdered(s, t, lag, span);
    }
    LengthOf(r, lag, span);
    forall x | x in r.init && Agrees(s, x)
      ensures Agrees(r, x)
    {
      assert Held(s, x) ==> Held(r, x);
    }
  }

  lemma LengthOf(s: State, lag: nat, span: nat)
    requires Ordered(s, lag, span)
    ensures |s.rows| > 0 && s.due.Keys == s.init.Keys && Shaped(s)
  {
  }

  lemma {:induction false} AllActedKeep(s: State, acts: seq<Act>, h: Id, lag: nat, span: nat)
    requires GoodBut(s, h, lag, span) && Window(lag, span) && ActsOk(s, acts)
    ensures var r := AllActed(s, acts);
            && GoodBut(r, h, lag, span) && |r.rows| == |s.rows| && r.init == s.init && r.now == s.now
            && r.local == s.local && r.periodic == s.periodic
    decreases |acts|
  {
    hide GoodBut, Acted;
    if acts != [] {
      ActedKeeps(s, acts[0], h, lag, span);
      AllActedKeep(Acted(s, acts[0]), acts[1..], h, lag, span);
    }
  }

  // ---------------------------------------------------------------- every step

  predicate HeldByOther(s: State, c: Caller, t: Id) {
    exists d :: d in s.local && d != c && Holds(s.local[d], t)
  }

  predicate HeldBySome(s: State, t: Id) {
    exists d :: d in s.local && Holds(s.local[d], t)
  }

  /** What a step finds when nothing has gone wrong: all that separates a sound step from one after which the list
      is out of order, or flag and list of a timer that no call has in hand disagree. */
  predicate Sound(s: State, e: Step, lag: nat)
    requires Shaped(s) && Enabled(s, e)
  {
    match e
    case Go(c, _) =>
      var t := s.local[c].t;
      (match s.local[c]
       case Unlinked(_) => Suits(Bottom(s.rows), s.due, t, s.now + s.init[t])
       case Dated(_) => t !in Bottom(s.rows) && s.now - lag <= s.due[t]
       case Stopped(_) => t !in Bottom(s.rows) || HeldByOther(s, c, t)
       case _ => true)
    case Fire(acts, _) =>
      var h := Bottom(s.rows)[0];
      var r := AllActed(s.(rows := RemoveAll(s.rows, h)), acts);
      (h in s.periodic && h in r.active) || |r.rows| == 0 || h !in Bottom(r.rows) || HeldBySome(s, h)
    case Tick => forall x :: x in Bottom(s.rows) && x in s.due ==> s.now + 1 - lag <= s.due[x]
    case _ => true
  }

  ghost predicate Decides(s: State, e: Step, lag: nat, span: nat)
    requires Shaped(s) && Enabled(s, e)
  {
    Good(Apply(s, e), lag, span) <==> Sound(s, e, lag)
  }

  /** Only caller c and timer t are concerned. */
  lemma OthersAgree(s: State, r: State, c: Caller, t: Id)
    requires |s.rows| > 0 && |r.rows| > 0 && c in s.local
             && r.local == s.local[c := if c in r.local then r.local[c] else Idle]
    requires (s.local[c] == Idle || s.local[c].t == t) && r.init == s.init
    requires forall x :: x != t ==> (x in r.active <==> x in s.active) && (x in Bottom(r.rows) <==> x in Bottom(s.rows))
    ensures forall x :: x in s.init && x != t && Agrees(s, x) ==> Agrees(r, x)
  {
    forall x | x in s.init && x != t && Agrees(s, x)
      ensures Agrees(r, x)
    {
      if Held(s, x) {
        var d :| d in s.local && Holds(s.local[d], x);
        assert d != c && d in r.local && Holds(r.local[d], x);
      }
    }
  }

  lemma StartDecides(s: State, c: Caller, t: Id, lag: nat, span: nat)
    requires Good(s, lag, span) && Enabled(s, Start(c, t))
    ensures Decides(s, Start(c, t), lag, span)
  {
    hide Ordered, RemoveAll;
    LengthOf(s, lag, span);
    OffKeeps(s, t, lag, span);
    OffOrdered(s, t, lag, span);
    var r := SetLocal(Off(s, t), c, Unlinked(t));
    LocalOrdered(Off(s, t), c, Unlinked(t), lag, span);
    OthersAgree(s, r, c, t);
    assert Holds(r.local[c], t);
  }

  lemma LocalOrdered(s: State, c: Caller, l: Local, lag: nat, span: nat)
    requires |s.rows| > 0 && s.due.Keys == s.init.Keys && (l == Idle || l.t in s.init) && Shaped(s)
    ensures Ordered(SetLocal(s, c, l), lag, span) <==> Ordered(s, lag, span)
  {
  }

  lemma DateDecides(s: State, c: Caller, top: nat, lag: nat, span: nat)
    requires Good(s, lag, span) && Enabled(s, Go(c, top)) && s.local[c].Unlinked?
    ensures Decides(s, Go(c, top), lag, span)
  {
    hide Ordered, Suits;
    LengthOf(s, lag, span);
    var t := s.local[c].t;
    DateKeepsIff(s, t, lag, span);
    var r := SetLocal(Date(s, t), c, Dated(t));
    LocalOrdered(Date(s, t), c, Dated(t), lag, span);
    OthersAgree(s, r, c, t);
    assert Holds(r.local[c], t);
  }

  lemma LinkDecides(s: State, c: Caller, top: nat, lag: nat, span: nat)
    requires Good(s, lag, span) && Window(lag, span) && Enabled(s, Go(c, top)) && s.local[c].Dated?
    ensures Decides(s, Go(c, top), lag, span)
  {
    hide Ordered, Link;
    LengthOf(s, lag, span);
    var t := s.local[c].t;
    LinkFields(s, t, top);
    var m := Link(s, t, top);
    LocalOrdered(m, c, Idle, lag, span);
    if t !in Bottom(s.rows) && s.now - lag <= s.due[t] {
      LinkKeeps(s, t, top, lag, span);
      OthersAgree(s, SetLocal(m, c, Idle), c, t);
    } else {
      LinkBreaks(s, t, top, lag, span);
    }
  }

  lemma LinkFields(s: State, t: Id, top: nat)
    requires Shaped(s) && t in s.init
    ensures var r := Link(s, t, top);
            && r.init == s.init && r.due == s.due && r.now == s.now && r.local == s.local && r.periodic == s.periodic
            && |r.rows| == |s.rows| && r.active == s.active + {t} && Shaped(r)
  {
  }

  lemma StopDecides(s: State, e: Step, lag: nat, span: nat)
    requires Good(s, lag, span) && Enabled(s, e) && (e.Stop? || (e.Go? && s.local[e.c].Stopping?))
    ensures Decides(s, e, lag, span)
  {
    hide Ordered, RemoveAll;
    LengthOf(s, lag, span);
    var c := e.c;
    if e.Stop? {
      LocalOrdered(s, c, Stopping(e.t), lag, span);
      if e.t in s.active {
        OthersAgree(s, SetLocal(s, c, Stopping(e.t)), c, e.t);
        assert Holds(SetLocal(s, c, Stopping(e.t)).local[c], e.t);
      }
    } else {
      var t := s.local[c].t;
      OffKeeps(s, t, lag, span);
      var m := s.(rows := RemoveAll(s.rows, t));
      LocalOrdered(m, c, Stopped(t), lag, span);
      OthersAgree(s, SetLocal(m, c, Stopped(t)), c, t);
      assert Holds(SetLocal(m, c, Stopped(t)).local[c], t);
    }
  }

  lemma FlagDecides(s: State, c: Caller, top: nat, lag: nat, span: nat)
    requires Good(s, lag, span) && Enabled(s, Go(c, top)) && s.local[c].Stopped?
    ensures Decides(s, Go(c, top), lag, span)
  {
    hide Ordered;
    LengthOf(s, lag, span);
    var t := s.local[c].t;
    var m := s.(active := s.active - {t});
    FlagOrdered(s, m, lag, span);
    LocalOrdered(m, c, Idle, lag, span);
    var r := SetLocal(m, c, Idle);
    OthersAgree(s, r, c, t);
    assert Held(r, t) <==> HeldByOther(s, c, t) by {
      if Held(r, t) {
        var d :| d in r.local && Holds(r.local[d], t);
        assert d in s.local && d != c && Holds(s.local[d], t);
      }
      if HeldByOther(s, c, t) {
        var d :| d in s.local && d != c && Holds(s.local[d], t);
        assert d in r.local && Holds(r.local[d], t);
      }
    }
  }

  lemma FlagOrdered(s: State, r: State, lag: nat, span: nat)
    requires r == s.(active := r.active)
    ensures Ordered(r, lag, span) <==> Ordered(s, lag, span)
  {
  }

  lemma DoDecides(s: State, act: Act, lag: nat, span: nat)
    requires Good(s, lag, span) && Window(lag, span) && Enabled(s, Do(act))
    ensures Decides(s, Do(act), lag, span)
  {
    hide Ordered, Acted;
    ActedKeeps(s, act, act.t, lag, span);
  }

  lemma TickDecides(s: State, lag: nat, span: nat)
    requires Good(s, lag, span)
    ensures Decides(s, Tick, lag, span)
  {
    hide SkipRows.SkipList;
    var r := s.(now := s.now + 1);
    forall x | x in s.init && Agrees(s, x)
      ensures Agrees(r, x)
    {
      assert Held(s, x) ==> Held(r, x);
    }
  }

  lemma FireDecides(s: State, acts: seq<Act>, top: nat, lag: nat, span: nat)
    requires Good(s, lag, span) && Window(lag, span) && Enabled(s, Fire(acts, top))
    ensures Decides(s, Fire(acts, top), lag, span)
  {
    hide Ordered, RemoveAll, AllActed, Begun, Acted;
    LengthOf(s, lag, span);
    var h := Bottom(s.rows)[0];
    OffKeeps(s, h, lag, span);
    var a := s.(rows := RemoveAll(s.rows, h));
    RowsAgree(s, a, h);
    AllActedKeep(a, acts, h, lag, span);
    var m := AllActed(a, acts);
    LengthOf(m, lag, span);
    var b := m.(active := m.active - {h});
    FlagOrdered(m, b, lag, span);
    RowsAgree(m, b, h);
    HeldSame(s, b, h);
    if h in s.periodic && h in m.active {
      BegunKeeps(b, h, top, lag, span);
      RowsAgree(b, Begun(b, h, top), h);
      HeldSame(b, Begun(b, h, top), h);
    }
  }

  lemma HeldSame(s: State, r: State, t: Id)
    requires r.local == s.local
    ensures Held(r, t) <==> HeldBySome(s, t)
  {
  }

  lemma RowsAgree(s: State, r: State, t: Id)
    requires |s.rows| > 0 && |r.rows| > 0 && r.local == s.local && r.init == s.init
    requires forall x :: x != t ==> (x in r.active <==> x in s.active) && (x in Bottom(r.rows) <==> x in Bottom(s.rows))
    ensures forall x :: x in s.init && x != t && Agrees(s, x) ==> Agrees(r, x)
  {
    forall x | x in s.init && x != t && Agrees(s, x)
      ensures Agrees(r, x)
    {
      assert Held(s, x) ==> Held(r, x);
    }
  }

  /** From a state in order, a step leaves all in order exactly when it is sound. */
  lemma StepKeepsIff(s: State, e: Step, lag: nat, span: nat)
    requires Good(s, lag, span) && Window(lag, span) && Enabled(s, e)
    ensures Shaped(s) && (Good(Apply(s, e), lag, span) <==> Sound(s, e, lag))
  {
    hide Good, Ordered;
    GoodLength(s, lag, span);
    match e
    case Start(c, t) => StartDecides(s, c, t, lag, span);
    case Stop(c, t) => StopDecides(s, e, lag, span);
    case Fire(acts, top) => FireDecides(s, acts, top, lag, span);
    case Do(act) => DoDecides(s, act, lag, span);
    case Tick => TickDecides(s, lag, span);
    case Go(c, top) =>
      match s.local[c]
      case Unlinked(_) => DateDecides(s, c, top, lag, span);
      case Dated(_) => LinkDecides(s, c, top, lag, span);
      case Stopping(_) => StopDecides(s, e, lag, span);
      case Stopped(_) => FlagDecides(s, c, top, lag, span);
  }

  lemma GoodLength(s: State, lag: nat, span: nat)
    requires Good(s, lag, span)
    ensures Shaped(s)
  {
  }

  // ---------------------------------------------------------------- runs

  ghost predicate IsRun(trace: seq<State>, steps: seq<Step>) {
    && |trace| == |steps| + 1
    && forall k :: 0 <= k < |steps| ==>
         Shaped(trace[k]) && Enabled(trace[k], steps[k]) && trace[k + 1] == Apply(trace[k], steps[k])
  }

  predicate SoundAt(s: State, e: Step, lag: nat) {
    Shaped(s) && Enabled(s, e) && Sound(s, e, lag)
  }

  ghost predicate AllGood(trace: seq<State>, lag: nat, span: nat) {
    forall k :: 0 <= k < |trace| ==> Good(trace[k], lag, span)
  }

  predicate AllSound(trace: seq<State>, steps: seq<Step>, lag: nat)
    requires |trace| == |steps| + 1
  {
    forall k :: 0 <= k < |steps| ==> SoundAt(trace[k], steps[k], lag)
  }

  lemma {:induction false} GoodSoFar(trace: seq<State>, steps: seq<Step>, lag: nat, span: nat, k: nat)
    requires IsRun(trace, steps) && Window(lag, span) && Good(trace[0], lag, span) && AllSound(trace, steps, lag)
    requires k <= |steps|
    ensures Good(trace[k], lag, span)
  {
    hide Good, Sound;
    if k > 0 {
      GoodSoFar(trace, steps, lag, span, k - 1);
      assert SoundAt(trace[k - 1], steps[k - 1], lag);
      StepKeepsIff(trace[k - 1], steps[k - 1], lag, span);
    }
  }

  /** Over any run: the list is sorted by true deadline and flags and list agree after every step exactly when
      every step was sound. */
  lemma RunKeepsIff(trace: seq<State>, steps: seq<Step>, lag: nat, span: nat)
    requires IsRun(trace, steps) && Window(lag, span) && Good(trace[0], lag, span)
    ensures AllGood(trace, lag, span) <==> AllSound(trace, steps, lag)
  {
    hide Good, Sound;
    if AllGood(trace, lag, span) {
      forall k | 0 <= k < |steps|
        ensures SoundAt(trace[k], steps[k], lag)
      {
        assert Good(trace[k], lag, span) && Good(trace[k + 1], lag, span);
        StepKeepsIff(trace[k], steps[k], lag, span);
      }
    }
    if AllSound(trace, steps, lag) {
      forall k | 0 <= k < |trace|
        ensures Good(trace[k], lag, span)
      {
        GoodSoFar(trace, steps, lag, span, k);
      }
    }
  }

  // ---------------------------------------------------------------- calls in hand

  /** What a call counts on when it takes its next step. */
  predicate HandOk(s: State, c: Caller, lag: nat)
    requires Shaped(s) && c in s.local
  {
    match s.local[c]
    case Unlinked(t) => t !in Bottom(s.rows)
    case Dated(t) => t !in Bottom(s.rows) && s.now - lag <= s.due[t]
    case Stopped(t) => t !in Bottom(s.rows)
    case _ => true
  }

  ghost predicate HandsOk(s: State, lag: nat) {
    && Shaped(s)
    && (forall c :: c in s.local ==> HandOk(s, c, lag))
    && forall c, d :: c in s.local && d in s.local && c != d && s.local[c] != Idle && s.local[d] != Idle ==>
         s.local[c].t != s.local[d].t
  }

  predicate Starts(acts: seq<Act>, t: Id) {
    exists k :: 0 <= k < |acts| && acts[k].On? && acts[k].t == t
  }

  /** Another call on the timer, a timeout function that starts it while it is off the list, or a tick that makes
      a deadline more than lag old before its timer is linked. */
  predicate Meddles(s: State, e: Step, l: Local, lag: nat)
    requires Shaped(s) && Enabled(s, e)
  {
    match e
    case Start(_, t) => Holds(l, t)
    case Stop(_, t) => Holds(l, t)
    case Go(_, _) => false
    case Fire(acts, _) => l != Idle && !l.Stopping? && Starts(acts, l.t)
    case Do(act) => l != Idle && !l.Stopping? && act.On? && act.t == l.t
    case Tick => l.Dated? && l.t in s.due && s.due[l.t] < s.now + 1 - lag
  }

  /** Nobody meddles, the check is not late by more than lag, and no one-shot timer starts itself again. */
  predicate Tame(s: State, e: Step, lag: nat)
    requires Shaped(s) && Enabled(s, e)
  {
    && (e.Tick? || e.Fire? ==> Sound(s, e, lag))
    && forall c :: c in s.local ==> !Meddles(s, e, s.local[c], lag)
  }

  lemma TameIsSound(s: State, e: Step, lag: nat, span: nat)
    requires Good(s, lag, span) && HandsOk(s, lag) && Enabled(s, e) && Tame(s, e, lag)
    ensures Sound(s, e, lag)
  {
    hide SkipRows.SkipList, Suits;
    if e.Go? {
      assert HandOk(s, e.c, lag);
      var t := s.local[e.c].t;
      if s.local[e.c].Unlinked? {
        Unlisted(Bottom(s.rows), s.due, t, s.now + s.init[t]);
      }
    }
  }

  /** A whole call on another timer neither lists t nor dates it. */
  lemma ActedLeaves(s: State, act: Act, t: Id)
    requires Shaped(s) && ActOk(s, act) && !(act.On? && act.t == t) && t !in Bottom(s.rows) && t in s.due
    ensures var r := Acted(s, act);
            && |r.rows| == |s.rows| && r.init == s.init && r.now == s.now && r.local == s.local
            && t !in Bottom(r.rows) && t in r.due && r.due[t] == s.due[t] && Shaped(r)
  {
    RemovedLeaves(s.rows, act.t, t);
    if act.On? {
      var a := Date(Off(s, act.t), act.t);
      LinkedLeaves(a, act.t, act.top, t);
    }
  }

  lemma RemovedLeaves(rows: seq<seq<Id>>, u: Id, t: Id)
    requires |rows| > 0 && t !in Bottom(rows)
    ensures |RemoveAll(rows, u)| == |rows| && t !in Bottom(RemoveAll(rows, u))
  {
    RemoveIsFilter(Bottom(rows), u);
    assert Bottom(RemoveAll(rows, u)) == Remove(Bottom(rows), u);
    var r := Remove(Bottom(rows), u);
    assert forall x :: x in r <==> x in Elems(r);
  }

  lemma LinkedLeaves(s: State, u: Id, top: nat, t: Id)
    requires |s.rows| > 0 && u in s.due && top < |s.rows| && t !in Bottom(s.rows) && u != t
    ensures t !in Bottom(Link(s, u, top).rows) && |Link(s, u, top).rows| == |s.rows|
  {
    hide Places;
    var at := Places(s.rows, s.due, s.due[u], 0, 0);
    var b, p := Bottom(s.rows), at[|s.rows| - 1];
    assert b == b[..p] + b[p..];
    assert Bottom(Link(s, u, top).rows) == Insert(b, p, u);
  }

  lemma {:induction false} AllActedLeave(s: State, acts: seq<Act>, t: Id)
    requires Shaped(s) && ActsOk(s, acts) && !Starts(acts, t) && t !in Bottom(s.rows) && t in s.due
    ensures var r := AllActed(s, acts);
            && |r.rows| == |s.rows| && r.init == s.init && r.now == s.now && r.local == s.local
            && t !in Bottom(r.rows) && t in r.due && r.due[t] == s.due[t] && Shaped(r)
    decreases |acts|
  {
    hide Acted, Shaped;
    if acts != [] {
      assert acts[0].On? && acts[0].t == t ==> Starts(acts, t);
      ActedLeaves(s, acts[0], t);
      forall k | 0 <= k < |acts[1..]|
        ensures ActOk(s, acts[1..][k]) && !(acts[1..][k].On? && acts[1..][k].t == t)
      {
        assert acts[1..][k] == acts[k + 1];
      }
      AllActedLeave(Acted(s, acts[0]), acts[1..], t);
    }
  }

  lemma FiredLeaves(s: State, acts: seq<Act>, top: nat, t: Id)
    requires Shaped(s) && Enabled(s, Fire(acts, top)) && !Starts(acts, t) && t !in Bottom(s.rows) && t in s.due
    ensures var r := Fired(s, acts, top);
            && |r.rows| == |s.rows| && r.init == s.init && r.now == s.now && r.local == s.local
            && t !in Bottom(r.rows) && t in r.due && r.due[t] == s.due[t]
  {
    hide AllActed, RemoveAll;
    var h := Bottom(s.rows)[0];
    var a := s.(rows := RemoveAll(s.rows, h));
    RemovedLeaves(s.rows, h, t);
    AllActedLeave(a, acts, t);
    var m := AllActed(a, acts);
    var b := m.(active := m.active - {h});
    if h in s.periodic && h in m.active {
      RemovedLeaves(b.rows, h, t);
      LinkedLeaves(Date(Off(b, h), h), h, top, t);
    }
  }

  /** A step that nobody who holds t takes, and that does not start t, leaves t unlisted with its deadline. */
  ghost predicate Leaves(s: State, r: State, t: Id) {
    && |r.rows| == |s.rows| > 0 && r.init == s.init && t !in Bottom(r.rows) && t in r.due && t in s.due
      && r.due[t] == s.due[t]
  }

  predicate Foreign(s: State, e: Step, t: Id)
    requires Shaped(s) && Enabled(s, e)
  {
    match e
    case Start(_, u) => u != t
    case Stop(_, u) => u != t
    case Go(c, _) => s.local[c].t != t
    case Fire(acts, _) => !Starts(acts, t)
    case Do(act) => !(act.On? && act.t == t)
    case Tick => true
  }

  lemma ForeignLeaves(s: State, e: Step, t: Id)
    requires Shaped(s) && Enabled(s, e) && Foreign(s, e, t) && t !in Bottom(s.rows) && t in s.due
    ensures Leaves(s, Apply(s, e), t) && Shaped(Apply(s, e)) && Apply(s, e).now == s.now + if e.Tick? then 1 else 0
  {
    hide RemoveAll, AllActed, Acted, Fired, Link;
    match e
    case Start(_, u) => RemovedLeaves(s.rows, u, t);
    case Stop(_, _) =>
    case Go(c, top) =>
      var u := s.local[c].t;
      RemovedLeaves(s.rows, u, t);
      LinkFields(s, u, top);
      LinkedLeaves(s, u, if top < |s.rows| then top else 0, t);
    case Fire(acts, top) => FiredLeaves(s, acts, top, t); FiredShaped(s, acts, top);
    case Do(act) => ActedLeaves(s, act, t);
    case Tick =>
  }

  lemma FiredShaped(s: State, acts: seq<Act>, top: nat)
    requires Shaped(s) && Enabled(s, Fire(acts, top))
    ensures Shaped(Fired(s, acts, top))
  {
    hide RemoveAll, AllActed;
    var h := Bottom(s.rows)[0];
    var a := s.(rows := RemoveAll(s.rows, h));
    assert |RemoveAll(s.rows, h)| == |s.rows| by { RemovedLength(s.rows, h); }
    AllActedShaped(a, acts);
    var m := AllActed(a, acts);
    RemovedLength(m.rows, h);
    if h in s.periodic && h in m.active {
      LinkFields(Date(Off(m.(active := m.active - {h}), h), h), h, top);
    }
  }

  lemma RemovedLength(rows: seq<seq<Id>>, u: Id)
    ensures |RemoveAll(rows, u)| == |rows|
  {
  }

  lemma {:induction false} AllActedShaped(s: State, acts: seq<Act>)
    requires Shaped(s) && ActsOk(s, acts)
    ensures Shaped(AllActed(s, acts)) && |AllActed(s, acts).rows| == |s.rows| && AllActed(s, acts).local == s.local
    decreases |acts|
  {
    hide RemoveAll;
    if acts != [] {
      var act := acts[0];
      RemovedLength(s.rows, act.t);
      if act.On? {
        LinkFields(Date(Off(s, act.t), act.t), act.t, act.top);
      }
      AllActedShaped(Acted(s, act), acts[1..]);
    }
  }

  /** No call but the step's own finds its timer changed. */
  lemma OthersInHand(s: State, e: Step, d: Caller, lag: nat)
    requires HandsOk(s, lag) && Enabled(s, e) && d in s.local && !Meddles(s, e, s.local[d], lag)
    requires !(e.Go? && e.c == d) && !(e.Start? && e.c == d) && !(e.Stop? && e.c == d)
    ensures Shaped(Apply(s, e)) && d in Apply(s, e).local && Apply(s, e).local[d] == s.local[d]
    ensures HandOk(Apply(s, e), d, lag)
  {
    hide Apply;
    assert HandOk(s, d, lag);
    StepShaped(s, e);
    LocalsKept(s, e, d);
    if s.local[d] != Idle && !s.local[d].Stopping? {
      var t := s.local[d].t;
      ForeignLeaves(s, e, t);
    }
  }

  lemma StepShaped(s: State, e: Step)
    requires Shaped(s) && Enabled(s, e)
    ensures Shaped(Apply(s, e))
  {
    hide RemoveAll, AllActed, Fired, Link;
    match e
    case Start(_, u) => RemovedLength(s.rows, u);
    case Stop(_, _) =>
    case Go(c, top) =>
      RemovedLength(s.rows, s.local[c].t);
      LinkFields(s, s.local[c].t, top);
    case Fire(acts, top) => FiredShaped(s, acts, top);
    case Do(act) =>
      RemovedLength(s.rows, act.t);
      if act.On? {
        LinkFields(Date(Off(s, act.t), act.t), act.t, act.top);
      }
    case Tick =>
  }

  lemma LocalsKept(s: State, e: Step, d: Caller)
    requires Shaped(s) && Enabled(s, e) && d in s.local
    requires !(e.Go? && e.c == d) && !(e.Start? && e.c == d) && !(e.Stop? && e.c == d)
    ensures d in Apply(s, e).local && Apply(s, e).local[d] == s.local[d]
  {
    hide RemoveAll, AllActed, InsertFrom;
    if e.Fire? {
      RemovedLength(s.rows, Bottom(s.rows)[0]);
      AllActedShaped(s.(rows := RemoveAll(s.rows, Bottom(s.rows)[0])), e.acts);
    }
  }

  /** The caller's own step leaves its timer as the next step needs it. */
  lemma OwnHand(s: State, e: Step, c: Caller, lag: nat, span: nat)
    requires Good(s, lag, span) && HandsOk(s, lag) && Enabled(s, e) && Tame(s, e, lag)
    requires (e.Go? && e.c == c) || (e.Start? && e.c == c) || (e.Stop? && e.c == c)
    ensures Shaped(Apply(s, e)) && c in Apply(s, e).local && HandOk(Apply(s, e), c, lag)
    ensures Apply(s, e).local == s.local[c := Apply(s, e).local[c]]
    ensures Apply(s, e).local[c] != Idle ==> Apply(s, e).local[c].t == if e.Go? then s.local[c].t else e.t
  {
    hide RemoveAll, Link, SkipRows.SkipList;
    StepShaped(s, e);
    assert HandOk(s, c, lag);
    var t := if e.Go? then s.local[c].t else e.t;
    if e.Start? || (e.Go? && s.local[c].Stopping?) {
      OffKeeps(s, t, lag, span);
    }
    LinkFields(s, t, if e.Go? then e.top else 0);
  }

  /** As long as no step meddles with a timer in the hands of a call, every step is sound. */
  lemma TameKeeps(s: State, e: Step, lag: nat, span: nat)
    requires Good(s, lag, span) && Window(lag, span) && HandsOk(s, lag) && Enabled(s, e) && Tame(s, e, lag)
    ensures Sound(s, e, lag) && Good(Apply(s, e), lag, span) && HandsOk(Apply(s, e), lag)
  {
    hide Good, Sound, HandOk, Apply;
    TameIsSound(s, e, lag, span);
    StepKeepsIff(s, e, lag, span);
    StepShaped(s, e);
    var r := Apply(s, e);
    forall d | d in s.local && !(e.Go? && e.c == d) && !(e.Start? && e.c == d) && !(e.Stop? && e.c == d)
      ensures d in r.local && r.local[d] == s.local[d] && HandOk(r, d, lag)
    {
      OthersInHand(s, e, d, lag);
    }
    SameCallers(s, e);
    if e.Go? || e.Start? || e.Stop? {
      OwnHand(s, e, e.c, lag, span);
      if !e.Go? {
        forall d | d in s.local
          ensures !Holds(s.local[d], e.t)
        {
          assert !Meddles(s, e, s.local[d], lag);
        }
      }
    }
  }

  lemma SameCallers(s: State, e: Step)
    requires Shaped(s) && Enabled(s, e)
    ensures Apply(s, e).local.Keys == s.local.Keys
  {
    hide RemoveAll, AllActed, InsertFrom;
    if e.Fire? {
      RemovedLength(s.rows, Bottom(s.rows)[0]);
      AllActedShaped(s.(rows := RemoveAll(s.rows, Bottom(s.rows)[0])), e.acts);
    }
  }

  predicate TameAt(s: State, e: Step, lag: nat) {
    Shaped(s) && Enabled(s, e) && Tame(s, e, lag)
  }

  /** Over any run in which nobody meddles with a timer in the hands of a call: the list is sorted by true deadline
      and flags and list agree after every step, however the calls interleave and the tick wraps. */
  lemma {:induction false} RunKeeps(trace: seq<State>, steps: seq<Step>, lag: nat, span: nat, k: nat)
    requires IsRun(trace, steps) && Window(lag, span) && Good(trace[0], lag, span) && HandsOk(trace[0], lag)
    requires (forall i :: 0 <= i < |steps| ==> TameAt(trace[i], steps[i], lag)) && k <= |steps|
    ensures Good(trace[k], lag, span) && HandsOk(trace[k], lag)
  {
    hide Good, HandsOk, Tame;
    if k > 0 {
      RunKeeps(trace, steps, lag, span, k - 1);
      assert TameAt(trace[k - 1], steps[k - 1], lag);
      TameKeeps(trace[k - 1], steps[k - 1], lag, span);
    }
  }

  // ---------------------------------------------------------------- one start, and how it fails

  function Ticks(steps: seq<Step>): nat {
    if steps == [] then 0
    else Ticks(steps[..|steps| - 1]) + if steps[|steps| - 1].Tick? then 1 else 0
  }

  predicate ForeignAt(s: State, e: Step, t: Id) {
    Shaped(s) && Enabled(s, e) && Foreign(s, e, t)
  }

  lemma {:induction false} Elapsed(trace: seq<State>, steps: seq<Step>, t: Id)
    requires IsRun(trace, steps) && Shaped(trace[0]) && t in trace[0].due && t !in Bottom(trace[0].rows)
    requires forall k :: 0 <= k < |steps| ==> ForeignAt(trace[k], steps[k], t)
    ensures var r := trace[|steps|];
            && Leaves(trace[0], r, t) && Shaped(r) && r.now == trace[0].now + Ticks(steps)
  {
    hide Apply, Foreign, Shaped;
    if steps != [] {
      var m := |steps| - 1;
      assert forall k :: 0 <= k < m ==> ForeignAt(trace[..m + 1][k], steps[..m][k], t);
      Elapsed(trace[..m + 1], steps[..m], t);
      assert ForeignAt(trace[m], steps[m], t);
      ForeignLeaves(trace[m], steps[m], t);
    } else {
      Elsewise(trace[0]);
    }
  }

  lemma Elsewise(s: State)
    requires Shaped(s)
    ensures |s.rows| > 0
  {
  }

  /** A call of rt_timer_start that has just read the tick, with any steps in between that do not start, stop or
      date the timer: its second region links the timer in order exactly when at most init_tick + lag ticks have
      gone by. */
  lemma LinkInTimeIff(trace: seq<State>, steps: seq<Step>, c: Caller, t: Id, top: nat, lag: nat, span: nat)
    requires IsRun(trace, steps) && AllGood(trace, lag, span) && Window(lag, span)
    requires c in trace[0].local && trace[0].local[c] == Dated(t) && t !in Bottom(trace[0].rows)
    requires t in trace[0].due && trace[0].due[t] == trace[0].now + trace[0].init[t]
    requires forall k :: 0 <= k < |steps| ==> ForeignAt(trace[k], steps[k], t)
    requires c in trace[|steps|].local && trace[|steps|].local[c] == Dated(t) && top < |trace[|steps|].rows|
    ensures Shaped(trace[|steps|])
    ensures Good(Apply(trace[|steps|], Go(c, top)), lag, span) <==> Ticks(steps) <= trace[0].init[t] + lag
  {
    hide Apply, Good;
    GoodLength(trace[0], lag, span);
    Elapsed(trace, steps, t);
    var r := trace[|steps|];
    assert Good(r, lag, span);
    StepKeepsIff(r, Go(c, top), lag, span);
  }

  /** One row, two timers, caller 0. */
  function Two(now: int, row: seq<Id>, d0: int, d1: int, init: nat, active: set<Id>, l: Local): State {
    State(now, [row], map[0 := d0, 1 := d1], map[0 := 0, 1 := init], {}, active, map[0 := l])
  }

  predicate Leads(s: State, e: Step, r: State) {
    Shaped(s) && Enabled(s, e) && Apply(s, e) == r
  }

  predicate Goes(states: seq<State>, steps: seq<Step>) {
    |states| == |steps| + 1 && forall k :: 0 <= k < |steps| ==> Leads(states[k], steps[k], states[k + 1])
  }

  /** A timeout function starts the timer that a thread is starting: the timer is linked twice. */
  lemma StartedTwice() returns (states: seq<State>)
    ensures Goes(states, [Start(0, 0), Go(0, 0), Do(On(0, 0)), Go(0, 0)])
    ensures states[0] == Two(0, [], 0, 0, 0, {}, Idle) && Good(states[0], 1, 10) && Window(1, 10)
    ensures states[4] == Two(0, [0, 0], 0, 0, 0, {0}, Idle) && !Good(states[4], 1, 10)
  {
    hide Good, Leads, Two;
    LoneGood();
    LoneStart();
    LoneDate();
    LoneOn();
    LoneLink();
    states := [Two(0, [], 0, 0, 0, {}, Idle), Two(0, [], 0, 0, 0, {}, Unlinked(0)), Two(0, [], 0, 0, 0, {}, Dated(0)),
               Two(0, [0], 0, 0, 0, {0}, Dated(0)), Two(0, [0, 0], 0, 0, 0, {0}, Idle)];
    TwiceIsBad();
  }

  lemma OneRowLink(s: State, row: seq<Id>, t: Id)
    requires s.rows == [row] && t in s.due
    ensures Link(s, t, 0).rows == [Insert(row, PlaceIn(row, s.due, s.due[t], 0), t)]
  {
    var at := Places(s.rows, s.due, s.due[t], 0, 0);
    assert at == [PlaceIn(row, s.due, s.due[t], 0)];
  }

  lemma OneRowOff(row: seq<Id>, t: Id)
    ensures RemoveAll([row], t) == [Remove(row, t)]
  {
  }

  lemma LoneGood()
    ensures Good(Two(0, [], 0, 0, 0, {}, Idle), 1, 10)
  {
  }

  lemma LoneStart()
    ensures Leads(Two(0, [], 0, 0, 0, {}, Idle), Start(0, 0), Two(0, [], 0, 0, 0, {}, Unlinked(0)))
  {
  }

  lemma LoneDate()
    ensures Leads(Two(0, [], 0, 0, 0, {}, Unlinked(0)), Go(0, 0), Two(0, [], 0, 0, 0, {}, Dated(0)))
  {
  }

  lemma LoneOn()
    ensures Leads(Two(0, [], 0, 0, 0, {}, Dated(0)), Do(On(0, 0)), Two(0, [0], 0, 0, 0, {0}, Dated(0)))
  {
    var s := Two(0, [], 0, 0, 0, {}, Dated(0));
    OneRowOff([], 0);
    OneRowLink(Date(Off(s, 0), 0), [], 0);
    assert s.due[0 := 0] == s.due;
    assert Insert([], 0, 0) == [0];
    var r := Begun(s, 0, 0);
    assert r.active == {0} && r.rows == [[0]] && r.due == s.due;
  }

  lemma LoneLink()
    ensures Leads(Two(0, [0], 0, 0, 0, {0}, Dated(0)), Go(0, 0), Two(0, [0, 0], 0, 0, 0, {0}, Idle))
  {
    var s := Two(0, [0], 0, 0, 0, {0}, Dated(0));
    assert !After(0, 0);
    assert PlaceIn([0], s.due, 0, 0) == 1;
    OneRowLink(s, [0], 0);
    assert Insert([0], 1, 0) == [0, 0];
  }

  lemma TwiceIsBad()
    ensures !Good(Two(0, [0, 0], 0, 0, 0, {0}, Idle), 1, 10)
  {
    var b: seq<Id> := [0, 0];
    assert b[0] == b[1];
    assert !Distinct(b);
  }

  /** A timeout function starts the timer between the region of rt_timer_stop and its write of the flag: the
      timer is listed, and flagged inactive. */
  lemma StopUndone() returns (states: seq<State>)
    ensures Goes(states, [Stop(0, 0), Go(0, 0), Do(On(0, 0)), Go(0, 0)])
    ensures states[0] == Two(0, [0], 0, 0, 0, {0}, Idle) && Good(states[0], 1, 10)
    ensures states[4] == Two(0, [0], 0, 0, 0, {}, Idle) && !Good(states[4], 1, 10)
  {
    hide Good, Leads, Two;
    ListedGood();
    StopSteps();
    StopOn();
    FlagIsBad();
    states := [Two(0, [0], 0, 0, 0, {0}, Idle), Two(0, [0], 0, 0, 0, {0}, Stopping(0)),
      Two(0, [], 0, 0, 0, {0}, Stopped(0)),
               Two(0, [0], 0, 0, 0, {0}, Stopped(0)), Two(0, [0], 0, 0, 0, {}, Idle)];
  }

  lemma ListedGood()
    ensures Good(Two(0, [0], 0, 0, 0, {0}, Idle), 1, 10)
  {
  }

  lemma StopSteps()
    ensures Leads(Two(0, [0], 0, 0, 0, {0}, Idle), Stop(0, 0), Two(0, [0], 0, 0, 0, {0}, Stopping(0)))
    ensures Leads(Two(0, [0], 0, 0, 0, {0}, Stopping(0)), Go(0, 0), Two(0, [], 0, 0, 0, {0}, Stopped(0)))
  {
    OneRowOff([0], 0);
    assert Remove([0], 0) == [];
  }

  lemma StopOn()
    ensures Leads(Two(0, [], 0, 0, 0, {0}, Stopped(0)), Do(On(0, 0)), Two(0, [0], 0, 0, 0, {0}, Stopped(0)))
    ensures Leads(Two(0, [0], 0, 0, 0, {0}, Stopped(0)), Go(0, 0), Two(0, [0], 0, 0, 0, {}, Idle))
  {
    var s := Two(0, [], 0, 0, 0, {0}, Stopped(0));
    OneRowOff([], 0);
    OneRowLink(Date(Off(s, 0), 0), [], 0);
    assert Insert([], 0, 0) == [0];
    var r := Begun(s, 0, 0);
    assert r.active == {0} && r.rows == [[0]] && r.due == s.due[0 := 0] == s.due;
  }

  lemma FlagIsBad()
    ensures !Good(Two(0, [0], 0, 0, 0, {}, Idle), 1, 10)
  {
    var s := Two(0, [0], 0, 0, 0, {}, Idle);
    assert Bottom(s.rows)[0] == 0 && 0 in Bottom(s.rows);
    assert !Held(s, 0);
  }

  const FAR: nat := 0x7fff_fffe

  /** A timer of no ticks delayed by one tick while another is started as far ahead as may be: with lag 1 the
      window is 2^31 - 1 wide, one too many, and the late timer is linked behind the one that is due last. */
  lemma LinkedTooLate() returns (states: seq<State>)
    ensures Goes(states, [Start(0, 0), Go(0, 0), Tick, Do(On(1, 0)), Go(0, 0)])
    ensures states[0] == Two(0, [], 0, 0, FAR, {}, Idle) && Good(states[0], 1, FAR) && FAR + 1 == HALF
    ensures states[5] == Two(1, [1, 0], 0, FAR + 1, FAR, {0, 1}, Idle) && !Good(states[5], 1, FAR)
  {
    hide Good, Leads, Two;
    FarGood();
    FarSteps();
    FarOn();
    FarLink();
    states := [Two(0, [], 0, 0, FAR, {}, Idle), Two(0, [], 0, 0, FAR, {}, Unlinked(0)),
      Two(0, [], 0, 0, FAR, {}, Dated(0)),
               Two(1, [], 0, 0, FAR, {}, Dated(0)), Two(1, [1], 0, FAR + 1, FAR, {1}, Dated(0)),
               Two(1, [1, 0], 0, FAR + 1, FAR, {0, 1}, Idle)];
    FarIsBad();
  }

  lemma FarGood()
    ensures Good(Two(0, [], 0, 0, FAR, {}, Idle), 1, FAR)
  {
  }

  lemma FarSteps()
    ensures Leads(Two(0, [], 0, 0, FAR, {}, Idle), Start(0, 0), Two(0, [], 0, 0, FAR, {}, Unlinked(0)))
    ensures Leads(Two(0, [], 0, 0, FAR, {}, Unlinked(0)), Go(0, 0), Two(0, [], 0, 0, FAR, {}, Dated(0)))
    ensures Leads(Two(0, [], 0, 0, FAR, {}, Dated(0)), Tick, Two(1, [], 0, 0, FAR, {}, Dated(0)))
  {
  }

  lemma FarOn()
    ensures Leads(Two(1, [], 0, 0, FAR, {}, Dated(0)), Do(On(1, 0)), Two(1, [1], 0, FAR + 1, FAR, {1}, Dated(0)))
  {
    var s := Two(1, [], 0, 0, FAR, {}, Dated(0));
    OneRowOff([], 1);
    OneRowLink(Date(Off(s, 1), 1), [], 1);
    assert s.due[1 := FAR + 1] == map[0 := 0, 1 := FAR + 1];
    assert Insert([], 0, 1) == [1];
    var r := Begun(s, 1, 0);
    assert r.active == {1} && r.rows == [[1]] && r.due == map[0 := 0, 1 := FAR + 1];
  }

  lemma FarLink()
    ensures Leads(Two(1, [1], 0, FAR + 1, FAR, {1}, Dated(0)), Go(0, 0), Two(1, [1, 0], 0, FAR + 1, FAR, {0, 1}, Idle))
  {
    var s := Two(1, [1], 0, FAR + 1, FAR, {1}, Dated(0));
    assert !After((FAR + 1) % TICKS, 0);
    assert PlaceIn([1], s.due, 0, 0) == 1;
    OneRowLink(s, [1], 0);
    assert Insert([1], 1, 0) == [1, 0];
  }

  lemma FarIsBad()
    ensures !Good(Two(1, [1, 0], 0, FAR + 1, FAR, {0, 1}, Idle), 1, FAR)
  {
    var s := Two(1, [1, 0], 0, FAR + 1, FAR, {0, 1}, Idle);
    var b: seq<Id> := [1, 0];
    assert s.due[b[0]] > s.due[b[1]];
    if SkipList(s.rows, s.due) {
      FirstRow(s.rows, s.due);
    }
  }
}
