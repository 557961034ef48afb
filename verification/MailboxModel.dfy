/** Mailboxes of rt-thread/src/ipc.c as a step system: one step is one pass of a thread through the
    interrupt-disabled part of rt_mb_send_wait or rt_mb_recv. A thread resumed by the other side runs
    later, may find its slot taken by then, and waits again. */
module MailboxModel {
  import opened RtDef
  import opened Sequences

  datatype Local = Idle | WaitSend | WokenSend | WaitRecv | WokenRecv

  /** mails is the content, oldest first; accepted and delivered are the mails taken in and handed out
      since the last reset. */
  datatype Box = Box(size: nat, mails: seq<word>, local: map<Tid, Local>, senders: seq<Tid>, receivers: seq<Tid>,
                     accepted: seq<word>, delivered: seq<word>)

  datatype Event =
    | TrySend(t: Tid, value: word, block: bool, at: nat)
    | TryRecv(t: Tid, block: bool, at: nat)
    | Timeout(t: Tid)
    | Reset

  function Being(local: map<Tid, Local>, l: Local): set<Tid> {
    set t | t in local && local[t] == l
  }

  /** list holds exactly the threads in state l. */
  ghost predicate Lists(list: seq<Tid>, local: map<Tid, Local>, l: Local) {
    Distinct(list) && forall t :: t in list <==> t in local && local[t] == l
  }

  /** What has been accepted comes out once each, in order; and nobody sleeps over a chance of its own:
      with receivers waiting every mail has a receiver already woken, with senders waiting every free
      slot has a sender already woken. */
  ghost predicate Inv(s: Box) {
    && |s.mails| <= s.size
    && s.accepted == s.delivered + s.mails
    && Lists(s.senders, s.local, WaitSend) && Lists(s.receivers, s.local, WaitRecv)
    && (s.receivers != [] ==> |s.mails| <= |Being(s.local, WokenRecv)|)
    && (s.senders != [] ==> s.size - |s.mails| <= |Being(s.local, WokenSend)|)
  }

  predicate Enabled(s: Box, e: Event) {
    match e
    case TrySend(t, _, _, at) => t in s.local && (s.local[t].Idle? || s.local[t].WokenSend?) && at <= |s.senders|
    case TryRecv(t, _, at) => t in s.local && (s.local[t].Idle? || s.local[t].WokenRecv?) && at <= |s.receivers|
    case Timeout(t) => t in s.local && (s.local[t].WaitSend? || s.local[t].WaitRecv?)
    case Reset => true
  }

  function WakeReceiver(s: Box): Box {
    if s.receivers == [] then s
    else s.(receivers := s.receivers[1..], local := s.local[s.receivers[0] := WokenRecv])
  }

  function WakeSender(s: Box): Box {
    if s.senders == [] then s
    else s.(senders := s.senders[1..], local := s.local[s.senders[0] := WokenSend])
  }

  function Put(s: Box, t: Tid, value: word): Box {
    s.(mails := s.mails + [value], accepted := s.accepted + [value], local := s.local[t := Idle])
  }

  function Get(s: Box, t: Tid): Box
    requires s.mails != []
  {
    s.(mails := s.mails[1..], delivered := s.delivered + [s.mails[0]], local := s.local[t := Idle])
  }

  function Apply(s: Box, e: Event): Box
    requires Enabled(s, e)
  {
    match e
    case TrySend(t, value, block, at) =>
      if |s.mails| < s.size then WakeReceiver(Put(s, t, value))
      else if block then s.(senders := s.senders[..at] + [t] + s.senders[at..], local := s.local[t := WaitSend])
      else s.(local := s.local[t := Idle])
    case TryRecv(t, block, at) =>
      if s.mails != [] then WakeSender(Get(s, t))
      else if block then s.(receivers := s.receivers[..at] + [t] + s.receivers[at..], local := s.local[t := WaitRecv])
      else s.(local := s.local[t := Idle])
    case Timeout(t) =>
      s.(senders := Without(s.senders, t), receivers := Without(s.receivers, t), local := s.local[t := Idle])
    case Reset =>
      s.(mails := [], accepted := [], delivered := [], senders := [], receivers := [],
         local := map t | t in s.local :: if s.local[t].WaitSend? || s.local[t].WaitRecv? then Idle else s.local[t])
  }

  ghost predicate IsRun(trace: seq<Box>, events: seq<Event>) {
    && |trace| == |events| + 1
    && forall k :: 0 <= k < |events| ==> Enabled(trace[k], events[k]) && trace[k + 1] == Apply(trace[k], events[k])
  }

  // ---------------------------------------------------------------- steps

  lemma BeingAfter(local: map<Tid, Local>, t: Tid, to: Local, l: Local)
    requires t in local
    ensures Being(local[t := to], l) == if to == l then Being(local, l) + {t} else Being(local, l) - {t}
    ensures local[t] != l && to != l ==> Being(local[t := to], l) == Being(local, l)
    ensures local[t] != l && to == l ==> |Being(local[t := to], l)| == |Being(local, l)| + 1
    ensures |Being(local[t := to], l)| >= |Being(local, l)| - 1
  {
  }

  lemma ListsStay(list: seq<Tid>, local: map<Tid, Local>, t: Tid, to: Local, l: Local)
    requires Lists(list, local, l) && t in local && local[t] != l && to != l
    ensures Lists(list, local[t := to], l)
  {
  }

  lemma ListsHead(list: seq<Tid>, local: map<Tid, Local>, to: Local, l: Local)
    requires Lists(list, local, l) && list != [] && to != l
    ensures list[0] in local && local[list[0]] == l && Lists(list[1..], local[list[0] := to], l)
  {
    assert list[0] in list;
    assert list == [list[0]] + list[1..];
  }

  lemma ListsInsert(list: seq<Tid>, local: map<Tid, Local>, t: Tid, at: nat, l: Local)
    requires Lists(list, local, l) && t in local && local[t] != l && at <= |list|
    ensures Lists(list[..at] + [t] + list[at..], local[t := l], l)
  {
    var b := list[..at] + [t] + list[at..];
    assert list == list[..at] + list[at..];
    assert forall i :: 0 <= i < |b| ==> b[i] == if i < at then list[i] else if i == at then t else list[i - 1];
  }

  lemma ListsWithout(list: seq<Tid>, local: map<Tid, Local>, t: Tid, l: Local)
    requires Lists(list, local, l) && t in local && l != Idle
    ensures Lists(Without(list, t), local[t := Idle], l)
  {
    WithoutMembers(list, t);
  }

  /** A delivered mail, and then a woken receiver: r threads were woken and not yet served before. */
  lemma WakeReceiverKeeps(p: Box)
    requires |p.mails| <= p.size && p.accepted == p.delivered + p.mails
    requires Lists(p.senders, p.local, WaitSend) && Lists(p.receivers, p.local, WaitRecv)
    requires p.receivers != [] ==> |p.mails| <= |Being(p.local, WokenRecv)| + 1
    requires p.senders != [] ==> p.size - |p.mails| <= |Being(p.local, WokenSend)|
    ensures Inv(WakeReceiver(p))
  {
    hide Lists, Being;
    if p.receivers != [] {
      var w := p.receivers[0];
      ListsHead(p.receivers, p.local, WokenRecv, WaitRecv);
      ListsStay(p.senders, p.local, w, WokenRecv, WaitSend);
      BeingAfter(p.local, w, WokenRecv, WokenRecv);
      BeingAfter(p.local, w, WokenRecv, WokenSend);
    }
  }

  lemma WakeSenderKeeps(p: Box)
    requires |p.mails| <= p.size && p.accepted == p.delivered + p.mails
    requires Lists(p.senders, p.local, WaitSend) && Lists(p.receivers, p.local, WaitRecv)
    requires p.receivers != [] ==> |p.mails| <= |Being(p.local, WokenRecv)|
    requires p.senders != [] ==> p.size - |p.mails| <= |Being(p.local, WokenSend)| + 1
    ensures Inv(WakeSender(p))
  {
    hide Lists, Being;
    if p.senders != [] {
      var w := p.senders[0];
      ListsHead(p.senders, p.local, WokenSend, WaitSend);
      ListsStay(p.receivers, p.local, w, WokenSend, WaitRecv);
      BeingAfter(p.local, w, WokenSend, WokenRecv);
      BeingAfter(p.local, w, WokenSend, WokenSend);
    }
  }

  lemma SendKeeps(s: Box, t: Tid, value: word, block: bool, at: nat)
    requires Inv(s) && Enabled(s, TrySend(t, value, block, at))
    ensures Inv(Apply(s, TrySend(t, value, block, at)))
  {
    hide Lists, Being;
    if |s.mails| < s.size {
      BeingAfter(s.local, t, Idle, WokenSend);
      BeingAfter(s.local, t, Idle, WokenRecv);
      ListsStay(s.senders, s.local, t, Idle, WaitSend);
      ListsStay(s.receivers, s.local, t, Idle, WaitRecv);
      WakeReceiverKeeps(Put(s, t, value));
    } else {
      var to := if block then WaitSend else Idle;
      if block {
        ListsInsert(s.senders, s.local, t, at, WaitSend);
      } else {
        ListsStay(s.senders, s.local, t, Idle, WaitSend);
      }
      ListsStay(s.receivers, s.local, t, to, WaitRecv);
      BeingAfter(s.local, t, to, WokenRecv);
    }
  }

  lemma RecvKeeps(s: Box, t: Tid, block: bool, at: nat)
    requires Inv(s) && Enabled(s, TryRecv(t, block, at))
    ensures Inv(Apply(s, TryRecv(t, block, at)))
  {
    hide Lists, Being;
    if s.mails != [] {
      var p := Get(s, t);
      assert s.delivered + s.mails == p.delivered + p.mails;
      BeingAfter(s.local, t, Idle, WokenSend);
      BeingAfter(s.local, t, Idle, WokenRecv);
      ListsStay(s.senders, s.local, t, Idle, WaitSend);
      ListsStay(s.receivers, s.local, t, Idle, WaitRecv);
      WakeSenderKeeps(p);
    } else {
      var to := if block then WaitRecv else Idle;
      if block {
        ListsInsert(s.receivers, s.local, t, at, WaitRecv);
      } else {
        ListsStay(s.receivers, s.local, t, Idle, WaitRecv);
      }
      ListsStay(s.senders, s.local, t, to, WaitSend);
      BeingAfter(s.local, t, to, WokenSend);
    }
  }

  lemma TimeoutKeeps(s: Box, t: Tid)
    requires Inv(s) && Enabled(s, Timeout(t))
    ensures Inv(Apply(s, Timeout(t)))
  {
    ListsWithout(s.senders, s.local, t, WaitSend);
    ListsWithout(s.receivers, s.local, t, WaitRecv);
    hide Lists, Being;
    BeingAfter(s.local, t, Idle, WokenSend);
    BeingAfter(s.local, t, Idle, WokenRecv);
  }

  lemma StepKeeps(s: Box, e: Event)
    requires Inv(s) && Enabled(s, e)
    ensures Inv(Apply(s, e))
  {
    match e
    case TrySend(t, value, block, at) => SendKeeps(s, t, value, block, at);
    case TryRecv(t, block, at) => RecvKeeps(s, t, block, at);
    case Timeout(t) => TimeoutKeeps(s, t);
    case Reset =>
  }

  /** Any interleaving of blocking and non-blocking senders and receivers. */
  lemma {:induction false} RunKeeps(trace: seq<Box>, events: seq<Event>, size: nat, threads: set<Tid>)
    requires IsRun(trace, events)
    requires trace[0] == Box(size, [], map t | t in threads :: Idle, [], [], [], [])
    ensures Inv(trace[|events|])
  {
    if events != [] {
      var m := |events| - 1;
      RunKeeps(trace[..m + 1], events[..m], size, threads);
      StepKeeps(trace[m], events[m]);
    }
  }

  // ---------------------------------------------------------------- what comes out is what went in

  /** The values of the sends that found room since the last reset, in order. */
  function Sent(trace: seq<Box>, events: seq<Event>): seq<word>
    requires |trace| == |events| + 1
  {
    if events == [] then []
    else
      var m := |events| - 1;
      var before := Sent(trace[..m + 1], events[..m]);
      match events[m]
      case TrySend(_, value, _, _) => if |trace[m].mails| < trace[m].size then before + [value] else before
      case Reset => []
      case _ => before
  }

  /** The mails that receivers found since the last reset, in order. */
  function Got(trace: seq<Box>, events: seq<Event>): seq<word>
    requires |trace| == |events| + 1
  {
    if events == [] then []
    else
      var m := |events| - 1;
      var before := Got(trace[..m + 1], events[..m]);
      match events[m]
      case TryRecv(_, _, _) => if trace[m].mails != [] then before + [trace[m].mails[0]] else before
      case Reset => []
      case _ => before
  }

  /** Over any run the mails received since the last reset and those still in the box are, in this order, exactly
      the values sent since. */
  lemma {:induction false} FirstInFirstOut(trace: seq<Box>, events: seq<Event>, size: nat, threads: set<Tid>)
    requires IsRun(trace, events)
    requires trace[0] == Box(size, [], map t | t in threads :: Idle, [], [], [], [])
    ensures Sent(trace, events) == Got(trace, events) + trace[|events|].mails
  {
    hide Apply, Enabled;
    if events != [] {
      var m := |events| - 1;
      FirstInFirstOut(trace[..m + 1], events[..m], size, threads);
      MailsAfter(trace[m], events[m]);
    }
  }

  lemma MailsAfter(s: Box, e: Event)
    requires Enabled(s, e)
    ensures var mails := Apply(s, e).mails;
            match e
            case TrySend(_, value, _, _) => mails == if |s.mails| < s.size then s.mails + [value] else s.mails
            case TryRecv(_, _, _) => if s.mails == [] then mails == [] else s.mails == [s.mails[0]] + mails
            case Timeout(_) => mails == s.mails
            case Reset => mails == []
  {
  }

  /** A send that finds room wakes the receiver that waits first, and nobody else. */
  lemma SendWakesFirst(s: Box, t: Tid, value: word, block: bool, at: nat)
    requires Inv(s) && Enabled(s, TrySend(t, value, block, at)) && |s.mails| < s.size
    ensures var s' := Apply(s, TrySend(t, value, block, at));
            && s'.senders == s.senders && s'.local.Keys == s.local.Keys
            && (s.receivers == [] ==> s'.receivers == [])
            && (s.receivers != [] ==> s.receivers == [s.receivers[0]] + s'.receivers && s.receivers[0] in s.local
                                      && s.local[s.receivers[0]].WaitRecv? && s'.local[s.receivers[0]].WokenRecv?)
            && forall u :: u in s.local && u != t && (s.receivers == [] || u != s.receivers[0]) ==>
                 s'.local[u] == s.local[u]
  {
    assert s.receivers != [] ==> s.receivers[0] in s.receivers;
  }

  /** A receive that finds a mail wakes the sender that waits first, and nobody else. */
  lemma RecvWakesFirst(s: Box, t: Tid, block: bool, at: nat)
    requires Inv(s) && Enabled(s, TryRecv(t, block, at)) && s.mails != []
    ensures var s' := Apply(s, TryRecv(t, block, at));
            && s'.receivers == s.receivers && s'.local.Keys == s.local.Keys
            && (s.senders == [] ==> s'.senders == [])
            && (s.senders != [] ==> s.senders == [s.senders[0]] + s'.senders && s.senders[0] in s.local
                                    && s.local[s.senders[0]].WaitSend? && s'.local[s.senders[0]].WokenSend?)
            && forall u :: u in s.local && u != t && (s.senders == [] || u != s.senders[0]) ==>
                 s'.local[u] == s.local[u]
  {
    assert s.senders != [] ==> s.senders[0] in s.senders;
  }

  /** After a reset the box is empty and nobody waits; threads that were not waiting are as before. */
  lemma ResetEmpties(s: Box)
    requires Inv(s)
    ensures var s' := Apply(s, Reset);
            && s'.mails == [] && s'.senders == [] && s'.receivers == [] && s'.size == s.size
            && s'.local.Keys == s.local.Keys
            && forall t :: t in s.local ==>
                 s'.local[t] == if t in s.senders || t in s.receivers then Idle else s.local[t]
  {
  }
}
