/** Message queues of rt-thread/src/ipc.c as a step system. A step is one interrupt-disabled region, or
    one memcpy between two regions; what a thread keeps on its stack between its steps (the node msg)
    is its Local value. Any thread may take any step it has come to, in any order. */
module MqModel {
  import opened RtDef
  import opened Sequences

  type Node = nat
  type bytes = seq<bv8>

  datatype Local =
    | Idle
    | Sending(node: Node, buf: bytes, urgent: bool)   // taken from the free list, not yet filled
    | Filled(node: Node, buf: bytes, urgent: bool)    // message copied in, not yet linked
    | Waiting(size: nat)                              // on the suspend list
    | Woken(size: nat)                                // resumed by a sender, not run yet
    | Taking(node: Node, size: nat, msg: bytes)       // unlinked, not yet copied out; msg: what was sent
    | CopiedOut(node: Node, got: bytes, msg: bytes)   // copied to the caller, node not yet given back

  /** A message as it was sent; id counts the messages linked before it. */
  datatype Message = Message(id: nat, buf: bytes, urgent: bool)

  /** pending holds the message of each queued node. Of the history: linked holds the messages in the order
      they were linked, taken in the order they were unlinked by receivers, dropped those discarded by
      resets; linkedBefore and takenBefore are the lengths of the first two at the last reset. */
  datatype Mq = Mq(
    msgSize: nat, maxMsgs: nat,
    free: seq<Node>, queue: seq<Node>, slot: map<Node, bytes>,
    local: map<Tid, Local>, waiting: seq<Tid>,
    pending: seq<Message>, linked: seq<Message>, taken: seq<Message>, dropped: seq<Message>,
    linkedBefore: nat, takenBefore: nat)

  datatype Event =
    | Reserve(t: Tid, buf: bytes, urgent: bool)
    | Fill(t: Tid)
    | Link(t: Tid)
    | TryTake(t: Tid, size: nat, block: bool, at: nat)   // at: where the suspend list takes the thread in
    | CopyOut(t: Tid)
    | GiveBack(t: Tid)
    | Timeout(t: Tid)
    | Reset

  predicate Holds(l: Local) {
    l.Sending? || l.Filled? || l.Taking? || l.CopiedOut?
  }

  /** The nodes in flight: off both lists, known to one thread only. */
  ghost function InFlight(s: Mq): set<Node> {
    set t | t in s.local && Holds(s.local[t]) :: s.local[t].node
  }

  ghost function WokenThreads(s: Mq): set<Tid> {
    set t | t in s.local && s.local[t].Woken?
  }

  /** memcpy of buf over the start of a slot. */
  function Overwrite(slot: bytes, buf: bytes): bytes
    requires |buf| <= |slot|
  {
    buf + slot[|buf|..]
  }

  /** Free list, queue and nodes in flight partition the pool, and no node is in flight twice. */
  ghost predicate Partition(s: Mq) {
    && Distinct(s.free) && Distinct(s.queue)
    && Elems(s.free) !! Elems(s.queue)
    && (forall t :: t in s.local && Holds(s.local[t]) ==> s.local[t].node !in s.free && s.local[t].node !in s.queue)
    && (forall t, u :: t in s.local && u in s.local && t != u && Holds(s.local[t]) && Holds(s.local[u])
          ==> s.local[t].node != s.local[u].node)
    && Elems(s.free) + Elems(s.queue) + InFlight(s) == UpTo(s.maxMsgs)
  }

  ghost predicate SlotsFit(s: Mq) {
    && s.slot.Keys == UpTo(s.maxMsgs)
    && forall n :: n in s.slot ==> |s.slot[n]| == s.msgSize
  }

  ghost predicate Carries(slot: bytes, msg: bytes) {
    |msg| <= |slot| && slot[..|msg|] == msg
  }

  ghost predicate LocalFits(s: Mq, l: Local) {
    match l
    case Sending(n, buf, _) => |buf| <= s.msgSize
    case Filled(n, buf, _) => n in s.slot && Carries(s.slot[n], buf)
    case Taking(n, _, msg) => n in s.slot && Carries(s.slot[n], msg)
    case CopiedOut(_, got, msg) => Agree(got, msg)
    case _ => true
  }

  /** What a receiver holds is the message, up to the shorter of the two lengths. */
  ghost predicate Agree(got: bytes, msg: bytes) {
    var n := if |got| < |msg| then |got| else |msg|;
    got[..n] == msg[..n]
  }

  /** Every queued node and every node in flight carries the bytes its sender copied. */
  ghost predicate Contents(s: Mq) {
    QueueFits(s) && LocalsFit(s)
  }

  ghost predicate QueueFits(s: Mq) {
    && |s.pending| == |s.queue|
    && (forall i :: 0 <= i < |s.queue| ==> s.queue[i] in s.slot && Carries(s.slot[s.queue[i]], s.pending[i].buf))
  }

  ghost predicate LocalsFit(s: Mq) {
    forall t :: t in s.local ==> LocalFits(s, s.local[t])
  }

  /** No message is lost or made up; the queue is in delivery order; and since the last reset regular
      messages leave in the order they were linked. */
  ghost predicate Conserved(s: Mq) {
    Accounted(s) && PendingLinked(s) && Ordered(s.pending) && InTurn(s)
  }

  ghost predicate Accounted(s: Mq) {
    multiset(s.linked) == multiset(s.taken) + multiset(s.pending) + multiset(s.dropped)
  }

  ghost predicate InTurn(s: Mq) {
    && s.linkedBefore <= |s.linked| && s.takenBefore <= |s.taken|
    && Regular(s.linked[s.linkedBefore..]) == Regular(s.taken[s.takenBefore..]) + Regular(s.pending)
  }

  ghost predicate Numbered(linked: seq<Message>) {
    forall k :: 0 <= k < |linked| ==> linked[k].id == k
  }

  /** What is queued has been linked since the last reset. */
  ghost predicate PendingLinked(s: Mq) {
    Numbered(s.linked) && s.linkedBefore <= |s.linked| && forall m :: m in s.pending ==> LinkedSince(s, m)
  }

  predicate LinkedSince(s: Mq, m: Message) {
    s.linkedBefore <= m.id < |s.linked| && s.linked[m.id] == m
  }

  /** Urgent messages come before regular ones, the newest urgent and the oldest regular one first. */
  predicate Before(m: Message, n: Message) {
    if m.urgent then !n.urgent || n.id < m.id else !n.urgent && m.id < n.id
  }

  predicate Goes(a: seq<Message>, i: nat, j: nat)
    requires i < |a| && j < |a|
  {
    Before(a[i], a[j])
  }

  ghost predicate Ordered(a: seq<Message>) {
    forall i, j :: 0 <= i < j < |a| ==> Goes(a, i, j)
  }

  function Regular(a: seq<Message>): seq<Message> {
    if a == [] then [] else (if a[0].urgent then [] else [a[0]]) + Regular(a[1..])
  }

  /** The suspend list is exactly the waiting threads, and nobody waits for a message already there:
      if threads wait, every queued message has a receiver already woken for it. */
  ghost predicate Wakeups(s: Mq) {
    && WaitingListed(s)
    && (s.waiting != [] ==> |s.queue| <= |WokenThreads(s)|)
  }

  ghost predicate WaitingListed(s: Mq) {
    && Distinct(s.waiting)
    && forall t :: t in s.waiting <==> t in s.local && s.local[t].Waiting?
  }

  ghost predicate Inv(s: Mq) {
    Partition(s) && SlotsFit(s) && Contents(s) && Conserved(s) && Wakeups(s)
  }

  predicate Enabled(s: Mq, e: Event) {
    match e
    case Reserve(t, buf, _) => t in s.local && s.local[t].Idle? && 0 < |buf|
    case Fill(t) => t in s.local && s.local[t].Sending?
                    && s.local[t].node in s.slot && |s.local[t].buf| <= |s.slot[s.local[t].node]|
    case Link(t) => t in s.local && s.local[t].Filled?
    case TryTake(t, _, _, at) => t in s.local && (s.local[t].Idle? || s.local[t].Woken?) && at <= |s.waiting|
                                 && |s.pending| == |s.queue|
    case CopyOut(t) => t in s.local && s.local[t].Taking? && s.local[t].node in s.slot
                       && s.msgSize <= |s.slot[s.local[t].node]|
    case GiveBack(t) => t in s.local && s.local[t].CopiedOut?
    case Timeout(t) => t in s.waiting && t in s.local
    case Reset => true
  }

  function Reversed<T>(a: seq<T>): seq<T> {
    if a == [] then [] else Reversed(a[1..]) + [a[0]]
  }

  /** Resuming the first waiting thread, if there is one. */
  function Wake(s: Mq): Mq {
    if s.waiting == [] || s.waiting[0] !in s.local || !s.local[s.waiting[0]].Waiting? then s
    else
      var w := s.waiting[0];
      s.(waiting := s.waiting[1..], local := s.local[w := Woken(s.local[w].size)])
  }

  function LinkNode(s: Mq, t: Tid): Mq
    requires Enabled(s, Link(t))
  {
    var l := s.local[t];
    var m := Message(|s.linked|, l.buf, l.urgent);
    var s1 := if l.urgent then s.(queue := [l.node] + s.queue, pending := [m] + s.pending)
              else s.(queue := s.queue + [l.node], pending := s.pending + [m]);
    s1.(linked := s.linked + [m], local := s.local[t := Idle])
  }

  function Apply(s: Mq, e: Event): Mq
    requires Enabled(s, e)
  {
    match e
    case Reserve(t, buf, urgent) =>
      if |buf| > s.msgSize || s.free == [] then s
      else s.(free := s.free[1..], local := s.local[t := Sending(s.free[0], buf, urgent)])
    case Fill(t) =>
      var l := s.local[t];
      s.(slot := s.slot[l.node := Overwrite(s.slot[l.node], l.buf)],
        local := s.local[t := Filled(l.node, l.buf, l.urgent)])
    case Link(t) =>
      Wake(LinkNode(s, t))
    case TryTake(t, size, block, at) =>
      if s.queue != [] then
        s.(queue := s.queue[1..], pending := s.pending[1..], taken := s.taken + [s.pending[0]],
           local := s.local[t := Taking(s.queue[0], size, s.pending[0].buf)])
      else if block then
        s.(waiting := s.waiting[..at] + [t] + s.waiting[at..], local := s.local[t := Waiting(size)])
      else s.(local := s.local[t := Idle])
    case CopyOut(t) =>
      var l := s.local[t];
      s.(local := s.local[t := CopiedOut(l.node, s.slot[l.node][..if l.size > s.msgSize then s.msgSize else l.size],
        l.msg)])
    case GiveBack(t) =>
      s.(free := [s.local[t].node] + s.free, local := s.local[t := Idle])
    case Timeout(t) =>
      s.(waiting := Without(s.waiting, t), local := s.local[t := Idle])
    case Reset => AfterReset(s)
  }

  function AfterReset(s: Mq): Mq {
    s.(free := Reversed(s.queue) + s.free, queue := [], dropped := s.dropped + s.pending, pending := [],
       waiting := [], local := map t | t in s.local :: if s.local[t].Waiting? then Idle else s.local[t],
       linkedBefore := |s.linked|, takenBefore := |s.taken|)
  }

  /** What a pass through the first region of rt_mq_recv leaves its thread with: the first message, or none. */
  ghost predicate Received(s: Mq, s': Mq, t: Tid, size: nat, msg: int) {
    if s.queue == [] then msg == -1
    else
      s.pending != [] && t in s'.local && msg == s.queue[0]
      && s'.local[t] == Taking(s.queue[0], size, s.pending[0].buf)
  }

  /** n - 1 down to 0. */
  function Down(n: nat): (d: seq<Node>)
    ensures |d| == n && forall k :: 0 <= k < n ==> d[k] == n - 1 - k
  {
    if n == 0 then [] else [n - 1] + Down(n - 1)
  }

  /** The queue as rt_mq_init leaves it: the free list runs from the last node to the first. */
  function Init(msgSize: nat, maxMsgs: nat, threads: set<Tid>, slot: map<Node, bytes>): Mq {
    Mq(msgSize, maxMsgs, Down(maxMsgs), [], slot,
       map t | t in threads :: Idle, [], [], [], [], [], 0, 0)
  }

  ghost predicate IsRun(trace: seq<Mq>, events: seq<Event>) {
    && |trace| == |events| + 1
    && forall k :: 0 <= k < |events| ==> Enabled(trace[k], events[k]) && trace[k + 1] == Apply(trace[k], events[k])
  }

  // ---------------------------------------------------------------- small facts

  lemma {:induction false} ReversedMembers<T>(a: seq<T>)
    requires Distinct(a)
    ensures Distinct(Reversed(a)) && forall y :: y in Reversed(a) <==> y in a
  {
    if a != [] {
      assert a == [a[0]] + a[1..];
      DistinctCons(a[0], a[1..]);
      ReversedMembers(a[1..]);
      DistinctSnoc(Reversed(a[1..]), a[0]);
    }
  }

  lemma DistinctConcat<T>(a: seq<T>, b: seq<T>)
    requires Distinct(a) && Distinct(b) && Elems(a) !! Elems(b)
    ensures Distinct(a + b)
  {
    forall i, j | 0 <= i < j < |a + b|
      ensures (a + b)[i] != (a + b)[j]
    {
      if i < |a| <= j {
        assert a[i] in Elems(a) && b[j - |a|] in Elems(b);
      }
    }
  }

  // ---------------------------------------------------------------- every step keeps the invariant

  lemma InitKeeps(msgSize: nat, maxMsgs: nat, threads: set<Tid>, slot: map<Node, bytes>)
    requires slot.Keys == UpTo(maxMsgs) && forall n :: n in slot ==> |slot[n]| == msgSize
    ensures Inv(Init(msgSize, maxMsgs, threads, slot))
  {
    var s := Init(msgSize, maxMsgs, threads, slot);
    forall k | k in UpTo(maxMsgs)
      ensures k in s.free
    {
      assert s.free[maxMsgs - 1 - k] == k;
    }
  }

  function Held(l: Local): set<Node> {
    if Holds(l) then {l.node} else {}
  }

  /** One thread's step moves nodes between the two lists and its own hands only. */
  lemma PartitionStep(s: Mq, s': Mq, t: Tid)
    requires Partition(s) && t in s.local && t in s'.local && s'.local == s.local[t := s'.local[t]]
    requires s'.maxMsgs == s.maxMsgs && Distinct(s'.free) && Distinct(s'.queue)
    requires Elems(s'.free) !! Elems(s'.queue) !! Held(s'.local[t])
    requires Elems(s'.free) + Elems(s'.queue) + Held(s'.local[t]) == Elems(s.free) + Elems(s.queue) + Held(s.local[t])
    ensures Partition(s')
  {
    var mine := Elems(s.free) + Elems(s.queue) + Held(s.local[t]);
    var others := set u | u in s.local && u != t && Holds(s.local[u]) :: s.local[u].node;
    assert InFlight(s) == others + Held(s.local[t]) by { FlightOf(s, t); }
    assert InFlight(s') == others + Held(s'.local[t]) by {
      FlightOf(s', t);
      assert forall u :: u in s.local && u != t ==> s'.local[u] == s.local[u];
    }
    forall u | u in s'.local && u != t && Holds(s'.local[u])
      ensures s'.local[u].node !in Elems(s'.free) + Elems(s'.queue) + Held(s'.local[t])
    {
      assert s.local[u].node !in mine;
    }
  }

  lemma FlightOf(s: Mq, t: Tid)
    requires t in s.local
    ensures InFlight(s) == (set u | u in s.local && u != t && Holds(s.local[u]) :: s.local[u].node) + Held(s.local[t])
  {
    var others := set u | u in s.local && u != t && Holds(s.local[u]) :: s.local[u].node;
    forall n | n in InFlight(s)
      ensures n in others + Held(s.local[t])
    {
      var u :| u in s.local && Holds(s.local[u]) && s.local[u].node == n;
    }
  }

  lemma WokenOf(s: Mq, s': Mq, t: Tid)
    requires t in s.local && t in s'.local && s'.local == s.local[t := s'.local[t]]
    ensures WokenThreads(s') == if s'.local[t].Woken? then WokenThreads(s) + {t} else WokenThreads(s) - {t}
    ensures !s.local[t].Woken? && !s'.local[t].Woken? ==> WokenThreads(s') == WokenThreads(s)
  {
  }

  lemma Uncons<T>(a: seq<T>)
    requires a != [] && Distinct(a)
    ensures Distinct(a[1..]) && a[0] !in a[1..] && Elems(a) == Elems(a[1..]) + {a[0]} && a[0] !in Elems(a[1..])
  {
    assert a == [a[0]] + a[1..];
    DistinctCons(a[0], a[1..]);
  }

  lemma PartsApart(s: Mq, t: Tid)
    requires Partition(s) && t in s.local
    ensures Distinct(s.free) && Distinct(s.queue)
    ensures Elems(s.free) !! Elems(s.queue) !! Held(s.local[t])
    ensures forall n :: n in s.queue <==> n in Elems(s.queue)
    ensures forall n :: n in s.free <==> n in Elems(s.free)
  {
  }

  /** Threads other than t hold what they held, and still find the same bytes in it. */
  lemma LocalsStep(s: Mq, s': Mq, t: Tid)
    requires LocalsFit(s) && t in s.local && t in s'.local && s'.local == s.local[t := s'.local[t]]
    requires s'.slot == s.slot && s'.msgSize == s.msgSize && LocalFits(s', s'.local[t])
    ensures LocalsFit(s')
  {
    forall u | u in s'.local
      ensures LocalFits(s', s'.local[u])
    {
      assert u != t ==> LocalFits(s, s.local[u]);
    }
  }

  /** The suspend list when t neither starts nor stops waiting. */
  lemma WaitingStep(s: Mq, s': Mq, t: Tid)
    requires WaitingListed(s) && t in s.local && t in s'.local && s'.local == s.local[t := s'.local[t]]
    requires s'.waiting == s.waiting && (s.local[t].Waiting? <==> s'.local[t].Waiting?)
    ensures WaitingListed(s')
  {
  }

  lemma ReserveKeeps(s: Mq, t: Tid, buf: bytes, urgent: bool)
    requires Inv(s) && Enabled(s, Reserve(t, buf, urgent))
    ensures Inv(Apply(s, Reserve(t, buf, urgent)))
  {
    hide Partition, Distinct, Elems, LocalsFit, QueueFits, SlotsFit, WaitingListed, Conserved, WokenThreads;
    if |buf| <= s.msgSize && s.free != [] {
      var s' := Apply(s, Reserve(t, buf, urgent));
      PartsApart(s, t);
      Uncons(s.free);
      PartitionStep(s, s', t);
      WokenOf(s, s', t);
      LocalsStep(s, s', t);
      WaitingStep(s, s', t);
      SameHistory(s, s');
      SameQueue(s, s');
    }
  }

  lemma FillKeeps(s: Mq, t: Tid)
    requires Inv(s) && Enabled(s, Fill(t))
    ensures Inv(Apply(s, Fill(t)))
  {
    hide Partition, LocalsFit, QueueFits, SlotsFit, WaitingListed, Conserved, WokenThreads, LocalFits;
    var s' := Apply(s, Fill(t));
    PartsApart(s, t);
    PartitionStep(s, s', t);
    WokenOf(s, s', t);
    WaitingStep(s, s', t);
    FillSlots(s, t);
    FillQueue(s, t);
    FillLocals(s, t);
    SameHistory(s, s');
  }

  lemma FillSlots(s: Mq, t: Tid)
    requires SlotsFit(s) && Enabled(s, Fill(t))
    ensures SlotsFit(Apply(s, Fill(t)))
  {
  }

  lemma FillQueue(s: Mq, t: Tid)
    requires Partition(s) && QueueFits(s) && Enabled(s, Fill(t))
    ensures QueueFits(Apply(s, Fill(t)))
  {
    assert forall i :: 0 <= i < |s.queue| ==> s.queue[i] != s.local[t].node;
  }

  lemma FillLocals(s: Mq, t: Tid)
    requires Partition(s) && LocalsFit(s) && Enabled(s, Fill(t))
    ensures LocalsFit(Apply(s, Fill(t)))
  {
    var s', n := Apply(s, Fill(t)), s.local[t].node;
    assert Carries(s'.slot[n], s.local[t].buf);
    forall u | u in s'.local && u != t
      ensures LocalFits(s', s'.local[u])
    {
      assert LocalFits(s, s.local[u]);
      assert Holds(s.local[u]) ==> s.local[u].node != n;
    }
  }

  lemma LinkPartition(s: Mq, t: Tid)
    requires Partition(s) && Enabled(s, Link(t))
    ensures Partition(LinkNode(s, t))
  {
    var s', l := LinkNode(s, t), s.local[t];
    PartsApart(s, t);
    assert l.node !in s.queue;
    DistinctCons(l.node, s.queue);
    DistinctSnoc(s.queue, l.node);
    assert Elems(s'.queue) == Elems(s.queue) + {l.node};
    hide Partition, Distinct;
    PartitionStep(s, s', t);
  }

  lemma LinkContents(s: Mq, t: Tid)
    requires Contents(s) && Enabled(s, Link(t))
    ensures Contents(LinkNode(s, t))
  {
    var s', l := LinkNode(s, t), s.local[t];
    assert LocalFits(s, l);
    LocalsStep(s, s', t);
    hide LocalsFit, Carries;
    forall i | 0 <= i < |s'.queue|
      ensures s'.queue[i] in s'.slot && Carries(s'.slot[s'.queue[i]], s'.pending[i].buf)
    {
      if l.urgent && i > 0 {
        assert s'.queue[i] == s.queue[i - 1] && s'.pending[i] == s.pending[i - 1];
      }
    }
  }

  lemma LinkConserves(s: Mq, t: Tid)
    requires Conserved(s) && Enabled(s, Link(t))
    ensures Conserved(LinkNode(s, t))
  {
    hide Accounted, PendingLinked, Ordered, InTurn;
    LinkAccounted(s, t);
    LinkOrdered(s, t);
    LinkInTurn(s, t);
  }

  lemma LinkAccounted(s: Mq, t: Tid)
    requires Accounted(s) && Enabled(s, Link(t))
    ensures Accounted(LinkNode(s, t))
  {
    var s', l := LinkNode(s, t), s.local[t];
    assert multiset(s'.pending) == multiset(s.pending) + multiset{Message(|s.linked|, l.buf, l.urgent)};
  }

  lemma LinkOrdered(s: Mq, t: Tid)
    requires PendingLinked(s) && Ordered(s.pending) && Enabled(s, Link(t))
    ensures PendingLinked(LinkNode(s, t)) && Ordered(LinkNode(s, t).pending)
  {
    var m := Message(|s.linked|, s.local[t].buf, s.local[t].urgent);
    forall p | p in s.pending
      ensures if m.urgent then Before(m, p) else Before(p, m)
    {
      assert LinkedSince(s, p);
    }
    OrderedEnds(s.pending, m);
    forall p | p in LinkNode(s, t).pending
      ensures LinkedSince(LinkNode(s, t), p)
    {
      assert p == m || LinkedSince(s, p);
    }
  }

  lemma LinkInTurn(s: Mq, t: Tid)
    requires InTurn(s) && Enabled(s, Link(t))
    ensures InTurn(LinkNode(s, t))
  {
    hide Regular;
    var m := Message(|s.linked|, s.local[t].buf, s.local[t].urgent);
    assert LinkNode(s, t).linked[s.linkedBefore..] == s.linked[s.linkedBefore..] + [m];
    RegularConcat(s.linked[s.linkedBefore..], [m]);
    RegularConcat([m], s.pending);
    RegularConcat(s.pending, [m]);
    RegularOne(m);
  }

  lemma {:induction false} RegularConcat(a: seq<Message>, b: seq<Message>)
    ensures Regular(a + b) == Regular(a) + Regular(b)
  {
    if a == [] {
      assert a + b == b;
    } else {
      assert (a + b)[1..] == a[1..] + b;
      RegularConcat(a[1..], b);
    }
  }

  lemma RegularOne(m: Message)
    ensures Regular([m]) == if m.urgent then [] else [m]
  {
    assert [m][1..] == [];
  }

  /** A message that goes before all others in front, or one that goes behind them at the end. */
  lemma OrderedEnds(a: seq<Message>, m: Message)
    requires Ordered(a)
    ensures (forall p :: p in a ==> Before(m, p)) ==> Ordered([m] + a)
    ensures (forall p :: p in a ==> Before(p, m)) ==> Ordered(a + [m])
  {
    if forall p :: p in a ==> Before(m, p) {
      var b := [m] + a;
      forall i, j | 0 <= i < j < |b|
        ensures Goes(b, i, j)
      {
        if i > 0 {
          assert Goes(a, i - 1, j - 1);
        }
      }
    }
    if forall p :: p in a ==> Before(p, m) {
      var b := a + [m];
      forall i, j | 0 <= i < j < |b|
        ensures Goes(b, i, j)
      {
        if j < |a| {
          assert Goes(a, i, j);
        }
      }
    }
  }

  lemma LinkKeeps(s: Mq, t: Tid)
    requires Inv(s) && Enabled(s, Link(t))
    ensures Inv(Apply(s, Link(t)))
  {
    hide Partition, Contents, Conserved, SlotsFit, WaitingListed, WokenThreads, Wake;
    var s' := LinkNode(s, t);
    LinkPartition(s, t);
    LinkContents(s, t);
    LinkConserves(s, t);
    SameSlots(s, s');
    WokenOf(s, s', t);
    WaitingStep(s, s', t);
    WakeKeeps(s');
  }

  lemma WakeWaiting(s: Mq)
    requires WaitingListed(s) && s.waiting != []
    ensures WaitingListed(Wake(s)) && s.waiting[0] in s.local && s.local[s.waiting[0]].Waiting?
  {
    assert s.waiting[0] in s.waiting;
    Uncons(s.waiting);
    assert s.waiting == [s.waiting[0]] + s.waiting[1..];
  }

  lemma WakeKeeps(s: Mq)
    requires Partition(s) && SlotsFit(s) && Contents(s) && Conserved(s) && WaitingListed(s)
    requires s.waiting != [] ==> |s.queue| <= |WokenThreads(s)| + 1
    ensures Inv(Wake(s))
  {
    hide Partition, LocalsFit, QueueFits, SlotsFit, WaitingListed, Conserved, WokenThreads, Distinct;
    if s.waiting != [] {
      var s', w := Wake(s), s.waiting[0];
      WakeWaiting(s);
      PartsApart(s, w);
      WokenOf(s, s', w);
      NotWoken(s, w);
      PartitionStep(s, s', w);
      LocalsStep(s, s', w);
      SameHistory(s, s');
      SameQueue(s, s');
    }
  }

  lemma NotWoken(s: Mq, t: Tid)
    requires t in s.local && !s.local[t].Woken?
    ensures t !in WokenThreads(s)
  {
  }

  /** Steps that leave queue and slots alone. */
  lemma SameQueue(s: Mq, s': Mq)
    requires s'.queue == s.queue && s'.pending == s.pending && s'.slot == s.slot && s'.maxMsgs == s.maxMsgs
    requires s'.msgSize == s.msgSize
    ensures (SlotsFit(s) ==> SlotsFit(s')) && (QueueFits(s) ==> QueueFits(s'))
  {
  }

  lemma SameHistory(s: Mq, s': Mq)
    requires Conserved(s) && s'.linked == s.linked && s'.taken == s.taken && s'.pending == s.pending
    requires s'.dropped == s.dropped && s'.linkedBefore == s.linkedBefore && s'.takenBefore == s.takenBefore
    ensures Conserved(s')
  {
  }

  lemma TryTakeKeeps(s: Mq, t: Tid, size: nat, block: bool, at: nat)
    requires Inv(s) && Enabled(s, TryTake(t, size, block, at))
    ensures Inv(Apply(s, TryTake(t, size, block, at)))
  {
    if s.queue != [] {
      TakeKeeps(s, t, size, block, at);
    } else if block {
      SuspendKeeps(s, t, size, at);
    } else {
      NoMessageKeeps(s, t, size, at);
    }
  }

  lemma NoMessageKeeps(s: Mq, t: Tid, size: nat, at: nat)
    requires Inv(s) && Enabled(s, TryTake(t, size, false, at)) && s.queue == []
    ensures Inv(Apply(s, TryTake(t, size, false, at)))
  {
    hide Partition, LocalsFit, QueueFits, SlotsFit, WaitingListed, Conserved, WokenThreads;
    var s' := Apply(s, TryTake(t, size, false, at));
    PartsApart(s, t);
    WokenOf(s, s', t);
    PartitionStep(s, s', t);
    LocalsStep(s, s', t);
    WaitingStep(s, s', t);
    SameSlots(s, s');
    SameQueue(s, s');
    SameHistory(s, s');
  }

  lemma TakeQueue(s: Mq, t: Tid, size: nat, block: bool, at: nat)
    requires QueueFits(s) && Enabled(s, TryTake(t, size, block, at)) && s.queue != []
    ensures var s' := Apply(s, TryTake(t, size, block, at)); QueueFits(s') && LocalFits(s', s'.local[t])
  {
    var s' := Apply(s, TryTake(t, size, block, at));
    assert forall i :: 0 <= i < |s'.queue| ==> s'.queue[i] == s.queue[i + 1] && s'.pending[i] == s.pending[i + 1];
  }

  lemma TakeHistory(s: Mq, t: Tid, size: nat, block: bool, at: nat)
    requires Conserved(s) && Enabled(s, TryTake(t, size, block, at)) && s.queue != []
    ensures Conserved(Apply(s, TryTake(t, size, block, at)))
  {
    hide Accounted, PendingLinked, Ordered, InTurn;
    TakeAccounted(s, t, size, block, at);
    TakeOrdered(s, t, size, block, at);
    TakeInTurn(s, t, size, block, at);
  }

  lemma TakeAccounted(s: Mq, t: Tid, size: nat, block: bool, at: nat)
    requires Accounted(s) && Enabled(s, TryTake(t, size, block, at)) && s.queue != []
    ensures Accounted(Apply(s, TryTake(t, size, block, at)))
  {
    assert s.pending == [s.pending[0]] + s.pending[1..];
  }

  lemma TakeOrdered(s: Mq, t: Tid, size: nat, block: bool, at: nat)
    requires PendingLinked(s) && Ordered(s.pending) && Enabled(s, TryTake(t, size, block, at)) && s.queue != []
    ensures var s' := Apply(s, TryTake(t, size, block, at)); PendingLinked(s') && Ordered(s'.pending)
  {
    var s' := Apply(s, TryTake(t, size, block, at));
    forall i, j | 0 <= i < j < |s'.pending|
      ensures Goes(s'.pending, i, j)
    {
      assert Goes(s.pending, i + 1, j + 1);
    }
    forall p | p in s'.pending
      ensures LinkedSince(s', p)
    {
      assert LinkedSince(s, p);
    }
  }

  lemma TakeInTurn(s: Mq, t: Tid, size: nat, block: bool, at: nat)
    requires InTurn(s) && Enabled(s, TryTake(t, size, block, at)) && s.queue != []
    ensures InTurn(Apply(s, TryTake(t, size, block, at)))
  {
    hide Regular;
    var m := s.pending[0];
    assert s.pending == [m] + s.pending[1..];
    assert (s.taken + [m])[s.takenBefore..] == s.taken[s.takenBefore..] + [m];
    RegularConcat(s.taken[s.takenBefore..], [m]);
    RegularConcat([m], s.pending[1..]);
  }

  lemma TakePartition(s: Mq, t: Tid, size: nat, block: bool, at: nat)
    requires Partition(s) && Enabled(s, TryTake(t, size, block, at)) && s.queue != []
    ensures Partition(Apply(s, TryTake(t, size, block, at)))
  {
    hide Partition, Distinct;
    PartsApart(s, t);
    Uncons(s.queue);
    PartitionStep(s, Apply(s, TryTake(t, size, block, at)), t);
  }

  lemma TakeKeeps(s: Mq, t: Tid, size: nat, block: bool, at: nat)
    requires Inv(s) && Enabled(s, TryTake(t, size, block, at)) && s.queue != []
    ensures Inv(Apply(s, TryTake(t, size, block, at)))
  {
    hide Partition, LocalsFit, QueueFits, SlotsFit, WaitingListed, Conserved, WokenThreads, LocalFits;
    var s' := Apply(s, TryTake(t, size, block, at));
    TakeQueue(s, t, size, block, at);
    TakeHistory(s, t, size, block, at);
    TakePartition(s, t, size, block, at);
    WokenOf(s, s', t);
    LocalsStep(s, s', t);
    WaitingStep(s, s', t);
    SameSlots(s, s');
    assert |WokenThreads(s')| >= |WokenThreads(s)| - 1;
  }

  lemma SameSlots(s: Mq, s': Mq)
    requires SlotsFit(s) && s'.slot == s.slot && s'.maxMsgs == s.maxMsgs && s'.msgSize == s.msgSize
    ensures SlotsFit(s')
  {
  }

  lemma SuspendKeeps(s: Mq, t: Tid, size: nat, at: nat)
    requires Inv(s) && Enabled(s, TryTake(t, size, true, at)) && s.queue == []
    ensures Inv(Apply(s, TryTake(t, size, true, at)))
  {
    hide Partition, LocalsFit, QueueFits, SlotsFit, WaitingListed, Conserved, WokenThreads;
    var s' := Apply(s, TryTake(t, size, true, at));
    SuspendListed(s, t, size, at);
    PartsApart(s, t);
    PartitionStep(s, s', t);
    LocalsStep(s, s', t);
    SameSlots(s, s');
    SameQueue(s, s');
    SameHistory(s, s');
  }

  lemma SuspendListed(s: Mq, t: Tid, size: nat, at: nat)
    requires WaitingListed(s) && Enabled(s, TryTake(t, size, true, at)) && s.queue == []
    ensures WaitingListed(Apply(s, TryTake(t, size, true, at)))
  {
    var s' := Apply(s, TryTake(t, size, true, at));
    DistinctMid(s.waiting, at, t);
    assert forall u :: u in s'.waiting <==> u in Elems(s'.waiting);
    assert forall u :: u in s.waiting <==> u in Elems(s.waiting);
  }

  lemma CopyOutKeeps(s: Mq, t: Tid)
    requires Inv(s) && Enabled(s, CopyOut(t))
    ensures Inv(Apply(s, CopyOut(t)))
  {
    hide Partition, LocalsFit, QueueFits, SlotsFit, WaitingListed, Conserved, WokenThreads, LocalFits;
    var s' := Apply(s, CopyOut(t));
    CopyOutAgrees(s, t);
    PartsApart(s, t);
    WokenOf(s, s', t);
    PartitionStep(s, s', t);
    LocalsStep(s, s', t);
    WaitingStep(s, s', t);
    SameSlots(s, s');
    SameQueue(s, s');
    SameHistory(s, s');
  }

  lemma CopyOutAgrees(s: Mq, t: Tid)
    requires LocalsFit(s) && Enabled(s, CopyOut(t))
    ensures var s' := Apply(s, CopyOut(t)); LocalFits(s', s'.local[t])
  {
    var s', l := Apply(s, CopyOut(t)), s.local[t];
    assert LocalFits(s, l);
    var got := s'.local[t].got;
    var n := if |got| < |l.msg| then |got| else |l.msg|;
    assert got[..n] == s.slot[l.node][..n] == s.slot[l.node][..|l.msg|][..n];
  }

  lemma GiveBackPartition(s: Mq, t: Tid)
    requires Partition(s) && Enabled(s, GiveBack(t))
    ensures Partition(Apply(s, GiveBack(t)))
  {
    var s', n := Apply(s, GiveBack(t)), s.local[t].node;
    hide Partition, Distinct;
    PartsApart(s, t);
    assert n in Held(s.local[t]);
    DistinctCons(n, s.free);
    assert Elems(s'.free) == Elems(s.free) + {n};
    PartitionStep(s, s', t);
  }

  lemma GiveBackKeeps(s: Mq, t: Tid)
    requires Inv(s) && Enabled(s, GiveBack(t))
    ensures Inv(Apply(s, GiveBack(t)))
  {
    hide Partition, LocalsFit, QueueFits, SlotsFit, WaitingListed, Conserved, WokenThreads;
    var s' := Apply(s, GiveBack(t));
    GiveBackPartition(s, t);
    WokenOf(s, s', t);
    NotWoken(s, t);
    LocalsStep(s, s', t);
    WaitingStep(s, s', t);
    SameHistory(s, s');
    SameQueue(s, s');
  }

  lemma TimeoutWaiting(s: Mq, t: Tid)
    requires WaitingListed(s) && Enabled(s, Timeout(t))
    ensures WaitingListed(Apply(s, Timeout(t))) && s.waiting != [] && s.local[t].Waiting?
  {
    WithoutMembers(s.waiting, t);
  }

  lemma TimeoutKeeps(s: Mq, t: Tid)
    requires Inv(s) && Enabled(s, Timeout(t))
    ensures Inv(Apply(s, Timeout(t)))
  {
    hide Partition, LocalsFit, QueueFits, SlotsFit, WaitingListed, Conserved, WokenThreads, Without;
    var s' := Apply(s, Timeout(t));
    TimeoutWaiting(s, t);
    PartsApart(s, t);
    WokenOf(s, s', t);
    NotWoken(s, t);
    PartitionStep(s, s', t);
    LocalsStep(s, s', t);
    SameHistory(s, s');
    SameQueue(s, s');
  }

  lemma ResetPartition(s: Mq)
    requires Partition(s)
    ensures Partition(Apply(s, Reset))
  {
    var s', back := Apply(s, Reset), Reversed(s.queue);
    ReversedMembers(s.queue);
    assert Elems(back) == Elems(s.queue);
    DistinctConcat(back, s.free);
    assert Elems(s'.free) == Elems(back) + Elems(s.free);
    assert Elems(s'.queue) == {};
    assert forall n :: n in s'.free <==> n in Elems(s'.free);
    assert forall t :: t in s.local && Holds(s.local[t]) ==> s'.local[t] == s.local[t];
    assert forall t :: t in s'.local && Holds(s'.local[t]) ==> s'.local[t] == s.local[t];
    assert InFlight(s') == InFlight(s);
  }

  lemma ResetKeeps(s: Mq)
    requires Inv(s)
    ensures Inv(Apply(s, Reset))
  {
    hide Partition, LocalsFit, SlotsFit, Conserved, WaitingListed;
    var s' := Apply(s, Reset);
    ResetPartition(s);
    ResetLocals(s);
    ResetHistory(s);
    ResetWaiting(s);
    SameSlots(s, s');
  }

  lemma ResetLocals(s: Mq)
    requires LocalsFit(s)
    ensures LocalsFit(Apply(s, Reset))
  {
    var s' := Apply(s, Reset);
    forall u | u in s'.local
      ensures LocalFits(s', s'.local[u])
    {
      assert LocalFits(s, s.local[u]);
    }
  }

  lemma ResetHistory(s: Mq)
    requires Conserved(s)
    ensures Conserved(Apply(s, Reset))
  {
  }

  lemma ResetWaiting(s: Mq)
    requires WaitingListed(s)
    ensures WaitingListed(Apply(s, Reset))
  {
  }

  lemma StepKeeps(s: Mq, e: Event)
    requires Inv(s) && Enabled(s, e)
    ensures Inv(Apply(s, e))
  {
    match e
    case Reserve(t, buf, urgent) => ReserveKeeps(s, t, buf, urgent);
    case Fill(t) => FillKeeps(s, t);
    case Link(t) => LinkKeeps(s, t);
    case TryTake(t, size, block, at) => TryTakeKeeps(s, t, size, block, at);
    case CopyOut(t) => CopyOutKeeps(s, t);
    case GiveBack(t) => GiveBackKeeps(s, t);
    case Timeout(t) => TimeoutKeeps(s, t);
    case Reset => ResetKeeps(s);
  }

  /** Every interleaving of the steps of any threads, from rt_mq_init on. */
  lemma {:induction false} RunKeeps(trace: seq<Mq>, events: seq<Event>, msgSize: nat, maxMsgs: nat,
                                    threads: set<Tid>, slot: map<Node, bytes>)
    requires IsRun(trace, events) && trace[0] == Init(msgSize, maxMsgs, threads, slot)
    requires slot.Keys == UpTo(maxMsgs) && forall n :: n in slot ==> |slot[n]| == msgSize
    ensures Inv(trace[|events|])
  {
    if events == [] {
      InitKeeps(msgSize, maxMsgs, threads, slot);
    } else {
      var m := |events| - 1;
      RunKeeps(trace[..m + 1], events[..m], msgSize, maxMsgs, threads, slot);
      StepKeeps(trace[m], events[m]);
    }
  }

  // ---------------------------------------------------------------- what receivers see

  lemma {:induction false} NumberedOnce(a: seq<Message>, m: Message)
    requires Numbered(a)
    ensures multiset(a)[m] <= 1 && (multiset(a)[m] == 1 ==> m.id < |a| && a[m.id] == m)
  {
    if a != [] {
      var init, last := a[..|a| - 1], a[|a| - 1];
      assert a == init + [last];
      NumberedOnce(init, m);
    }
  }

  lemma CountTwice<T>(a: seq<T>, i: nat, j: nat)
    requires i < j < |a| && a[i] == a[j]
    ensures multiset(a)[a[i]] >= 2
  {
    assert a == a[..j] + [a[j]] + a[j + 1..];
    assert a[i] in a[..j];
  }

  /** Every message linked is delivered at most once, and not while it is queued or after it was discarded. */
  lemma DeliveredOnce(s: Mq)
    requires Inv(s)
    ensures Distinct(s.taken) && forall m :: m in s.taken ==> m in s.linked && m !in s.pending && m !in s.dropped
  {
    hide Partition, SlotsFit, Contents, Wakeups;
    forall i, j | 0 <= i < j < |s.taken|
      ensures s.taken[i] != s.taken[j]
    {
      NumberedOnce(s.linked, s.taken[i]);
      if s.taken[i] == s.taken[j] {
        CountTwice(s.taken, i, j);
      }
    }
    forall m | m in s.taken
      ensures m in s.linked && m !in s.pending && m !in s.dropped
    {
      NumberedOnce(s.linked, m);
      assert m in multiset(s.taken);
      assert m in multiset(s.linked);
    }
  }

  ghost predicate Rising(a: seq<Message>) {
    forall i, j :: 0 <= i < j < |a| ==> Earlier(a, i, j)
  }

  predicate Earlier(a: seq<Message>, i: nat, j: nat)
    requires i < |a| && j < |a|
  {
    a[i].id < a[j].id
  }

  lemma RisingTail(a: seq<Message>)
    requires Rising(a) && a != []
    ensures Rising(a[1..]) && forall m :: m in a[1..] ==> a[0].id < m.id
  {
    var rest := a[1..];
    forall i, j | 0 <= i < j < |rest|
      ensures Earlier(rest, i, j)
    {
      assert Earlier(a, i + 1, j + 1);
    }
    forall i | 0 <= i < |rest|
      ensures a[0].id < rest[i].id
    {
      assert Earlier(a, 0, i + 1);
    }
  }

  lemma RisingCons(x: Message, r: seq<Message>)
    requires Rising(r) && forall m :: m in r ==> x.id < m.id
    ensures Rising([x] + r)
  {
    var a := [x] + r;
    forall i, j | 0 <= i < j < |a|
      ensures Earlier(a, i, j)
    {
      if i > 0 {
        assert Earlier(r, i - 1, j - 1);
      } else {
        assert a[j] == r[j - 1] && r[j - 1] in r;
      }
    }
  }

  /** Leaving out messages keeps the others in order. */
  lemma {:induction false} RegularRises(a: seq<Message>)
    requires Rising(a)
    ensures Rising(Regular(a)) && forall m :: m in Regular(a) ==> m in a
  {
    hide Rising;
    if a == [] {
      NothingRises();
    } else {
      RisingTail(a);
      RegularRises(a[1..]);
      assert Regular(a) == if a[0].urgent then Regular(a[1..]) else [a[0]] + Regular(a[1..]);
      if !a[0].urgent {
        RisingCons(a[0], Regular(a[1..]));
      }
    }
  }

  lemma NothingRises()
    ensures Rising([])
  {
  }

  /** Regular messages delivered since the last reset were linked in the order they are delivered in. */
  lemma RegularInOrder(s: Mq, i: nat, j: nat)
    requires Inv(s) && s.takenBefore <= i < j < |s.taken| && !s.taken[i].urgent && !s.taken[j].urgent
    ensures s.taken[i].id < s.taken[j].id
  {
    hide Partition, SlotsFit, Contents, Wakeups, Regular, Accounted, Ordered;
    var linked, taken := s.linked[s.linkedBefore..], s.taken[s.takenBefore..];
    forall k, l | 0 <= k < l < |linked|
      ensures Earlier(linked, k, l)
    {
      assert linked[k] == s.linked[k + s.linkedBefore] && linked[l] == s.linked[l + s.linkedBefore];
    }
    RegularRises(linked);
    var p, q := i - s.takenBefore, j - s.takenBefore;
    var a, b, c := taken[..p], taken[p + 1..q], taken[q + 1..];
    assert taken == a + [taken[p]] + b + [taken[q]] + c;
    RegularConcat(a + [taken[p]] + b + [taken[q]], c);
    RegularConcat(a + [taken[p]] + b, [taken[q]]);
    RegularConcat(a + [taken[p]], b);
    RegularConcat(a, [taken[p]]);
    RegularOne(taken[p]);
    RegularOne(taken[q]);
    var r, x, y := Regular(linked), |Regular(a)|, |Regular(a)| + 1 + |Regular(b)|;
    assert r[x] == taken[p] && r[y] == taken[q];
    assert Earlier(r, x, y);
  }

  /** A receiver gets an urgent message whenever one is queued, the newest first; else the oldest. */
  lemma UrgentFirst(s: Mq, k: nat)
    requires Inv(s) && 0 < k < |s.pending|
    ensures s.pending[k].urgent ==> s.pending[0].urgent && s.pending[k].id < s.pending[0].id
    ensures !s.pending[0].urgent ==> !s.pending[k].urgent && s.pending[0].id < s.pending[k].id
  {
    assert Goes(s.pending, 0, k);
  }
}
