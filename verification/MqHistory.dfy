/** Message queues, continued: what a receiver gets, traced back through the steps of a run to the call that sent it;
    who is woken; and what a reset leaves. */
module MqHistory {
  import opened RtDef
  import opened Sequences
  import opened MqModel

  /** The last Reserve of t had this message. */
  ghost predicate ReservedBy(events: seq<Event>, t: Tid, buf: bytes, urgent: bool) {
    exists k: nat :: k < |events| && events[k] == Reserve(t, buf, urgent) && NoReserve(events, t, k + 1)
  }

  ghost predicate NoReserve(events: seq<Event>, t: Tid, k: nat) {
    forall j :: k <= j < |events| ==> !(events[j].Reserve? && events[j].t == t)
  }

  /** Event j of the run linked message m, whose bytes and kind are those its sender passed to Reserve. */
  ghost predicate LinkedAt(trace: seq<Mq>, events: seq<Event>, m: Message, j: nat) {
    && |trace| == |events| + 1 && j < |events| && events[j].Link?
    && |trace[j].linked| == m.id && ReservedBy(events[..j], events[j].t, m.buf, m.urgent)
  }

  ghost predicate Linked(trace: seq<Mq>, events: seq<Event>, m: Message) {
    exists j: nat :: LinkedAt(trace, events, m, j)
  }

  /** Event k of the run is the last pass of t that took a message, for a buffer of the given size. */
  ghost predicate TookAt(trace: seq<Mq>, events: seq<Event>, t: Tid, size: nat, msg: bytes, k: nat) {
    && |trace| == |events| + 1 && k < |events|
    && events[k].TryTake? && events[k].t == t && events[k].size == size
    && trace[k].pending != [] && trace[k].pending[0].buf == msg
    && forall j :: k < j < |events| ==> !(events[j].TryTake? && events[j].t == t)
  }

  ghost predicate Took(trace: seq<Mq>, events: seq<Event>, t: Tid, size: nat, msg: bytes) {
    exists k: nat :: TookAt(trace, events, t, size, msg, k)
  }

  // ---------------------------------------------------------------- one step later

  lemma ReservedMore(events: seq<Event>, e: Event, t: Tid, buf: bytes, urgent: bool)
    requires ReservedBy(events, t, buf, urgent) && !(e.Reserve? && e.t == t)
    ensures ReservedBy(events + [e], t, buf, urgent)
  {
    var k: nat :| k < |events| && events[k] == Reserve(t, buf, urgent) && NoReserve(events, t, k + 1);
    assert (events + [e])[k] == Reserve(t, buf, urgent) && NoReserve(events + [e], t, k + 1);
  }

  lemma ReservedNow(events: seq<Event>, t: Tid, buf: bytes, urgent: bool)
    ensures ReservedBy(events + [Reserve(t, buf, urgent)], t, buf, urgent)
  {
    var all := events + [Reserve(t, buf, urgent)];
    assert all[|events|] == Reserve(t, buf, urgent) && NoReserve(all, t, |events| + 1);
  }

  lemma LinkedMore(trace: seq<Mq>, events: seq<Event>, s: Mq, e: Event, m: Message)
    requires Linked(trace, events, m)
    ensures Linked(trace + [s], events + [e], m)
  {
    var j: nat :| LinkedAt(trace, events, m, j);
    assert (events + [e])[..j] == events[..j];
    assert LinkedAt(trace + [s], events + [e], m, j);
  }

  lemma TookMore(trace: seq<Mq>, events: seq<Event>, s: Mq, e: Event, t: Tid, size: nat, msg: bytes)
    requires Took(trace, events, t, size, msg) && !(e.TryTake? && e.t == t)
    ensures Took(trace + [s], events + [e], t, size, msg)
  {
    var k: nat :| TookAt(trace, events, t, size, msg, k);
    assert TookAt(trace + [s], events + [e], t, size, msg, k);
  }

  /** What one step makes of a thread that is about to send or to receive, and of the messages linked. */
  lemma StepOf(s: Mq, e: Event, t: Tid)
    requires Enabled(s, e) && t in Apply(s, e).local
    ensures t in s.local
    ensures var l, l' := s.local[t], Apply(s, e).local[t];
            && (l'.Sending? || l'.Filled? ==>
                  e == Reserve(t, l'.buf, l'.urgent)
                  || ((l.Sending? || l.Filled?) && l'.buf == l.buf && l'.urgent == l.urgent
                    && !(e.Reserve? && e.t == t)))
            && (l'.Taking? ==>
                  (e.TryTake? && e.t == t && e.size == l'.size && s.pending != [] && s.pending[0].buf == l'.msg)
                  || (l == l' && !(e.TryTake? && e.t == t)))
  {
  }

  lemma LinkedOf(s: Mq, e: Event)
    requires Enabled(s, e)
    ensures var linked := Apply(s, e).linked;
            if e.Link? then
              var l := s.local[e.t];
              (l.Sending? || l.Filled?) && linked == s.linked + [Message(|s.linked|, l.buf, l.urgent)]
            else linked == s.linked
  {
  }

  // ---------------------------------------------------------------- over a run

  /** A thread about to send carries what its last Reserve was given. */
  lemma {:induction false} SendsItsReserve(trace: seq<Mq>, events: seq<Event>, t: Tid)
    requires IsRun(trace, events) && forall u :: u in trace[0].local ==> trace[0].local[u].Idle?
    requires t in trace[|events|].local && (trace[|events|].local[t].Sending? || trace[|events|].local[t].Filled?)
    ensures ReservedBy(events, t, trace[|events|].local[t].buf, trace[|events|].local[t].urgent)
  {
    hide Enabled, Apply, ReservedBy;
    if events != [] {
      var m := |events| - 1;
      var e, l := events[m], trace[m + 1].local[t];
      StepOf(trace[m], e, t);
      assert events == events[..m] + [e];
      if e == Reserve(t, l.buf, l.urgent) {
        ReservedNow(events[..m], t, l.buf, l.urgent);
      } else {
        SendsItsReserve(trace[..m + 1], events[..m], t);
        ReservedMore(events[..m], e, t, l.buf, l.urgent);
      }
    }
  }

  /** Every message ever linked was linked by one Link, with the bytes and the kind its sender had passed. */
  lemma {:induction false} LinkedAsReserved(trace: seq<Mq>, events: seq<Event>, m: Message)
    requires IsRun(trace, events) && forall u :: u in trace[0].local ==> trace[0].local[u].Idle?
    requires trace[0].linked == [] && m in trace[|events|].linked
    ensures Linked(trace, events, m)
  {
    hide Enabled, Apply, Linked, ReservedBy;
    if events != [] {
      var n := |events| - 1;
      var e := events[n];
      LinkedOf(trace[n], e);
      assert events == events[..n] + [e] && trace == trace[..n + 1] + [trace[n + 1]];
      if m in trace[n].linked {
        LinkedAsReserved(trace[..n + 1], events[..n], m);
        LinkedMore(trace[..n + 1], events[..n], trace[n + 1], e, m);
      } else {
        LocalOf(trace[n], e);
        SendsItsReserve(trace[..n + 1], events[..n], e.t);
        LinkedNow(trace, events, m, n);
      }
    }
  }

  lemma LocalOf(s: Mq, e: Event)
    requires Enabled(s, e) && e.Link?
    ensures e.t in s.local && s.local[e.t].Filled?
  {
  }

  lemma LinkedNow(trace: seq<Mq>, events: seq<Event>, m: Message, n: nat)
    requires LinkedAt(trace, events, m, n)
    ensures Linked(trace, events, m)
  {
  }

  /** A thread that has taken a message carries the one that was first in the queue then. */
  lemma {:induction false} TakesTheFirst(trace: seq<Mq>, events: seq<Event>, t: Tid)
    requires IsRun(trace, events) && forall u :: u in trace[0].local ==> trace[0].local[u].Idle?
    requires t in trace[|events|].local && trace[|events|].local[t].Taking?
    ensures Took(trace, events, t, trace[|events|].local[t].size, trace[|events|].local[t].msg)
  {
    hide Enabled, Apply, Took;
    if events != [] {
      var m := |events| - 1;
      var e, l := events[m], trace[m + 1].local[t];
      StepOf(trace[m], e, t);
      assert events == events[..m] + [e] && trace == trace[..m + 1] + [trace[m + 1]];
      if e.TryTake? && e.t == t {
        TookNow(trace, events, t, l.size, l.msg, m);
      } else {
        TakesTheFirst(trace[..m + 1], events[..m], t);
        TookMore(trace[..m + 1], events[..m], trace[m + 1], e, t, l.size, l.msg);
      }
    }
  }

  lemma TookNow(trace: seq<Mq>, events: seq<Event>, t: Tid, size: nat, msg: bytes, k: nat)
    requires TookAt(trace, events, t, size, msg, k)
    ensures Took(trace, events, t, size, msg)
  {
  }

  /** From the buffer passed to the sender's first region to the bytes in the receiver's buffer, whatever happened in
      between: t's last successful pass k found message m first in the queue, event j linked that message, and the
      bytes delivered are those its sender had passed, as many as both lengths allow. */
  lemma DeliveredAsSent(trace: seq<Mq>, events: seq<Event>, msgSize: nat, maxMsgs: nat, threads: set<Tid>,
                        slot: map<Node, bytes>, t: Tid) returns (m: Message, k: nat, j: nat)
    requires IsRun(trace, events) && trace[0] == Init(msgSize, maxMsgs, threads, slot)
    requires slot.Keys == UpTo(maxMsgs) && forall n :: n in slot ==> |slot[n]| == msgSize
    requires Enabled(trace[|events|], CopyOut(t))
    ensures k < |events| && events[k].TryTake? && events[k].t == t
            && (forall i :: k < i < |events| ==> !(events[i].TryTake? && events[i].t == t))
            && trace[k].pending != [] && trace[k].pending[0] == m
    ensures j < k && events[j].Link? && |trace[j].linked| == m.id
            && ReservedBy(events[..j], events[j].t, m.buf, m.urgent)
    ensures var l := Apply(trace[|events|], CopyOut(t)).local[t];
            && l.CopiedOut? && Agree(l.got, m.buf)
            && |l.got| == if events[k].size < msgSize then events[k].size else msgSize
  {
    hide Apply, Inv, Linked, ReservedBy, Agree;
    var n := |events|;
    TakingAt(trace[n], t);
    TakesTheFirst(trace, events, t);
    var l := trace[n].local[t];
    k :| TookAt(trace, events, t, l.size, l.msg, k);
    m := trace[k].pending[0];
    RunKeeps(trace[..k + 1], events[..k], msgSize, maxMsgs, threads, slot);
    QueuedIsLinked(trace[k], m);
    LinkedAsReserved(trace[..k + 1], events[..k], m);
    j := LinkOf(trace[..k + 1], events[..k], m);
    assert events[..k][..j] == events[..j];
    RunKeeps(trace, events, msgSize, maxMsgs, threads, slot);
    SameSize(trace, events);
    CopyOutGives(trace[n], t);
  }

  lemma LinkOf(trace: seq<Mq>, events: seq<Event>, m: Message) returns (j: nat)
    requires Linked(trace, events, m)
    ensures LinkedAt(trace, events, m, j)
  {
    j :| LinkedAt(trace, events, m, j);
  }

  lemma TakingAt(s: Mq, t: Tid)
    requires Enabled(s, CopyOut(t))
    ensures t in s.local && s.local[t].Taking?
  {
  }

  lemma QueuedIsLinked(s: Mq, m: Message)
    requires Inv(s) && m in s.pending
    ensures m in s.linked
  {
    assert LinkedSince(s, m);
  }

  lemma {:induction false} SameSize(trace: seq<Mq>, events: seq<Event>)
    requires IsRun(trace, events)
    ensures trace[|events|].msgSize == trace[0].msgSize
  {
    if events != [] {
      var m := |events| - 1;
      SameSize(trace[..m + 1], events[..m]);
      StepSize(trace[m], events[m]);
    }
  }

  lemma StepSize(s: Mq, e: Event)
    requires Enabled(s, e)
    ensures Apply(s, e).msgSize == s.msgSize
  {
  }

  lemma CopyOutGives(s: Mq, t: Tid)
    requires Inv(s) && Enabled(s, CopyOut(t))
    ensures var l := Apply(s, CopyOut(t)).local[t];
            && l.CopiedOut? && Agree(l.got, s.local[t].msg)
            && |l.got| == if s.local[t].size < s.msgSize then s.local[t].size else s.msgSize
  {
    CopyOutAgrees(s, t);
  }

  // ---------------------------------------------------------------- single steps

  /** A linked message is queued, in front if it is urgent and else at the end; the thread that waits first is woken
      for it, and no other; and nothing is discarded. */
  lemma LinkQueuesAndWakes(s: Mq, t: Tid)
    requires Inv(s) && Enabled(s, Link(t))
    ensures var (s', l) := (Apply(s, Link(t)), s.local[t]);
            var m := Message(|s.linked|, l.buf, l.urgent);
            && s'.pending == (if l.urgent then [m] + s.pending else s.pending + [m])
            && s'.queue == (if l.urgent then [l.node] + s.queue else s.queue + [l.node])
            && s'.dropped == s.dropped && s'.free == s.free && s'.local.Keys == s.local.Keys && s'.local[t].Idle?
            && (s.waiting == [] ==> s'.waiting == [])
            && (s.waiting != [] ==> s.waiting == [s.waiting[0]] + s'.waiting && s.waiting[0] in s.local
                                    && s.local[s.waiting[0]].Waiting? && s'.local[s.waiting[0]].Woken?)
            && forall u :: u in s.local && u != t && (s.waiting == [] || u != s.waiting[0]) ==>
                 s'.local[u] == s.local[u]
  {
    hide Partition, SlotsFit, Contents, Conserved;
    assert s.waiting != [] ==> s.waiting[0] in s.waiting;
  }

  /** Messages are discarded by a reset only. */
  lemma DropsNothing(s: Mq, e: Event)
    requires Enabled(s, e) && !e.Reset?
    ensures Apply(s, e).dropped == s.dropped
  {
  }

  lemma {:induction false} ReversedLength<T>(a: seq<T>)
    ensures |Reversed(a)| == |a|
  {
    if a != [] {
      ReversedLength(a[1..]);
    }
  }

  /** A reset leaves no message and nobody waiting; all queued nodes are free again, and threads on their way through
      their own regions go on with the nodes they have. */
  lemma ResetEmpties(s: Mq)
    requires Inv(s)
    ensures var s' := Apply(s, Reset);
            && s'.queue == [] && s'.pending == [] && s'.waiting == []
            && |s'.free| == |s.free| + |s.queue| && Elems(s'.free) == Elems(s.free) + Elems(s.queue)
            && s'.local.Keys == s.local.Keys
            && forall t :: t in s.local ==> s'.local[t] == if t in s.waiting then Idle else s.local[t]
  {
    hide SlotsFit, Contents, Conserved;
    var back := Reversed(s.queue);
    ReversedMembers(s.queue);
    ReversedLength(s.queue);
    assert Elems(back) == Elems(s.queue);
    assert Elems(back + s.free) == Elems(back) + Elems(s.free);
  }
}
