/** The message queue object of rt-thread/src/ipc.c: nodes linked through their next fields, with head,
    tail and free pointers. Every method is one step of module MqModel, on the links themselves. */
module MessageQueue {
  import opened RtDef
  import opened Sequences
  import opened MqModel
  import opened Numbers

  const NULL: int := -1

  /** Following next from head visits exactly q, then NULL. */
  ghost predicate Chain(next: seq<int>, head: int, q: seq<Node>)
    decreases |q|
  {
    if q == [] then head == NULL
    else head == q[0] && q[0] < |next| && Chain(next, next[q[0]], q[1..])
  }

  /** A chain does not feel writes to nodes it does not contain. */
  lemma {:induction false} ChainFrame(next: seq<int>, next': seq<int>, head: int, q: seq<Node>, n: Node)
    requires Chain(next, head, q) && n !in q && |next'| == |next|
    requires forall k :: 0 <= k < |next| && k != n ==> next'[k] == next[k]
    ensures Chain(next', head, q)
    decreases |q|
  {
    if q != [] {
      assert q[0] in q;
      ChainFrame(next, next', next[q[0]], q[1..], n);
    }
  }

  lemma ChainCons(next: seq<int>, next': seq<int>, head: int, q: seq<Node>, n: Node)
    requires Chain(next, head, q) && n !in q && n < |next| == |next'| && next' == next[n := head]
    ensures Chain(next', n, [n] + q)
  {
    ChainFrame(next, next', head, q, n);
    assert ([n] + q)[1..] == q;
  }

  /** Appending n, whose next field is NULL, behind the last node. */
  lemma {:induction false} ChainSnoc(next: seq<int>, next': seq<int>, head: int, q: seq<Node>, n: Node)
    requires Chain(next, head, q) && n !in q && n < |next| == |next'| && next'[n] == NULL && Distinct(q)
    requires forall k :: 0 <= k < |next| && (q == [] || k != q[|q| - 1]) ==> next'[k] == next[k]
    requires q != [] && q[|q| - 1] < |next| ==> next'[q[|q| - 1]] == n
    ensures Chain(next', if q == [] then n else head, q + [n])
    decreases |q|
  {
    if q == [] {
      assert [n][1..] == [];
    } else {
      assert q == [q[0]] + q[1..];
      DistinctCons(q[0], q[1..]);
      assert (q + [n])[1..] == q[1..] + [n];
      if |q| > 1 {
        assert q[1..][|q| - 2] == q[|q| - 1];
        ChainSnoc(next, next', next[q[0]], q[1..], n);
      }
    }
  }

  lemma EmptyChain(next: seq<int>)
    ensures Chain(next, NULL, [])
  {
  }

  lemma HeadIsNull(next: seq<int>, head: int, q: seq<Node>)
    requires Chain(next, head, q)
    ensures head == NULL <==> q == []
    ensures q != [] ==> head == q[0] && 0 <= head < |next| && Chain(next, next[head], q[1..])
  {
  }

  lemma {:induction false} ChainInside(next: seq<int>, head: int, q: seq<Node>)
    requires Chain(next, head, q)
    ensures forall i :: 0 <= i < |q| ==> q[i] < |next|
    decreases |q|
  {
    if q != [] {
      ChainInside(next, next[q[0]], q[1..]);
      assert forall i :: 0 < i < |q| ==> q[i] == q[1..][i - 1];
    }
  }

  const LINK: nat := 4   // sizeof(struct rt_mq_message)

  /** The message bytes of node k. */
  function SlotAt(pool: bytes, msgSize: nat, k: nat): bytes {
    var from := k * (msgSize + LINK) + LINK;
    if from + msgSize <= |pool| then pool[from..from + msgSize] else []
  }

  ghost function PoolSlots(pool: bytes, msgSize: nat, count: nat): map<Node, bytes> {
    map k | k in UpTo(count) :: SlotAt(pool, msgSize, k)
  }

  /** All the nodes lie in the pool. */
  lemma PoolFits(pool: bytes, msgSize: nat, count: nat)
    requires count == |pool| / (msgSize + LINK)
    ensures count * (msgSize + LINK) <= |pool| < count * (msgSize + LINK) + msgSize + LINK
    ensures var slot := PoolSlots(pool, msgSize, count);
            slot.Keys == UpTo(count) && forall k :: 0 <= k < count ==>
                        slot[k] == SlotAt(pool, msgSize, k) && |slot[k]| == msgSize
  {
    var width := msgSize + LINK;
    assert |pool| == count * width + |pool| % width;
    forall k | 0 <= k < count
      ensures |SlotAt(pool, msgSize, k)| == msgSize
    {
      MulKeepsOrder(k + 1, count, width);
      assert (k + 1) * width == k * width + width;
    }
  }

  class MessageQueue {
    const msgSize: nat
    const maxMsgs: nat
    const next: array<int>          // the link field of every node
    const slots: array<bytes>       // the bytes behind every link field
    var head: int                   // msg_queue_head
    var tail: int                   // msg_queue_tail
    var freeHead: int               // msg_queue_free
    var entry: nat
    var waiting: seq<Tid>           // parent.suspend_thread
    ghost var s: Mq

    ghost predicate Links()
      reads this, next
    {
      && Chain(next[..], head, s.queue) && Chain(next[..], freeHead, s.free)
      && tail == (if s.queue == [] then NULL else s.queue[|s.queue| - 1])
      && entry == |s.queue|
      && forall t :: t in s.local && s.local[t].Filled? && !s.local[t].urgent ==>
           s.local[t].node < next.Length && next[s.local[t].node] == NULL
    }

    ghost predicate Bytes(slot: map<Node, bytes>)
      reads slots
    {
      slot.Keys == UpTo(slots.Length) && forall n :: n in slot ==> slots[n] == slot[n]
    }

    /** The links and counters say what the model says. */
    ghost predicate Linked()
      reads this, next, slots
    {
      && s.msgSize == msgSize && s.maxMsgs == maxMsgs == next.Length == slots.Length
      && waiting == s.waiting
      && Links() && Bytes(s.slot)
    }

    ghost predicate Valid()
      reads this, next, slots
    {
      Inv(s) && Linked()
    }

    /** rt_mq_init over a pool of bytes: each node is a link of 4 bytes and as many bytes of message as fit
        the aligned size. */
    constructor (size: word, pool: bytes, threads: set<Tid>)
      requires Align(size) + LINK < 0x1_0000_0000
      ensures Valid() && fresh(next) && fresh(slots)
      ensures msgSize % 4 == 0 && (size <= 0xFFFF_FFFC ==> size <= msgSize < size + 4)
      ensures maxMsgs * (msgSize + LINK) <= |pool| < maxMsgs * (msgSize + LINK) + msgSize + LINK
      ensures s == Init(msgSize, maxMsgs, threads, PoolSlots(pool, msgSize, maxMsgs))
    {
      hide MqModel.Inv, Chain, PoolSlots, SlotAt, Align, Distinct, Elems, Links, Bytes, Down;
      AlignIsRoundUpIff(size);
      var each := Align(size);
      var count := |pool| / (each + LINK);
      msgSize, maxMsgs := each, count;
      PoolFits(pool, each, count);
      next := new int[count](_ => NULL);
      slots := new bytes[count](i requires 0 <= i < count => SlotAt(pool, each, i));
      head, tail, freeHead := NULL, NULL, NULL;
      entry, waiting := 0, [];
      s := Init(each, count, threads, PoolSlots(pool, each, count));
      new;
      LinkFree();
      InitKeeps(msgSize, maxMsgs, threads, PoolSlots(pool, each, count));
      InitLinked(s, threads, PoolSlots(pool, each, count));
    }

    lemma InitLinked(start: Mq, threads: set<Tid>, slot: map<Node, bytes>)
      requires start == Init(msgSize, maxMsgs, threads, slot) && s == start && Inv(start)
      requires maxMsgs == next.Length == slots.Length && waiting == []
      requires head == NULL && tail == NULL && entry == 0 && Chain(next[..], freeHead, Down(maxMsgs))
      requires slot.Keys == UpTo(maxMsgs) && forall k :: 0 <= k < maxMsgs ==> slots[k] == slot[k]
      ensures Valid()
    {
      hide MqModel.Inv, Chain;
      EmptyChain(next[..]);
    }

    /** The initialisation loop of rt_mq_init. */
    method LinkFree()
      requires freeHead == NULL && next.Length == maxMsgs
      modifies this`freeHead, next
      ensures Chain(next[..], freeHead, Down(maxMsgs))
    {
      var temp := 0;
      EmptyChain(next[..]);
      while temp < maxMsgs
        invariant 0 <= temp <= maxMsgs && Chain(next[..], freeHead, Down(temp))
      {
        ghost var was := next[..];
        next[temp] := freeHead;
        ChainCons(was, next[..], freeHead, Down(temp), temp);
        freeHead := temp;
        temp := temp + 1;
      }
    }

    /** First region of rt_mq_send and rt_mq_urgent: take a free node. */
    method Reserve(t: Tid, buf: bytes, urgent: bool) returns (err: int, msg: int)
      requires Valid() && Enabled(s, Event.Reserve(t, buf, urgent))
      modifies this
      ensures s == Apply(old(s), Event.Reserve(t, buf, urgent))
      ensures Valid()
      ensures err == if |buf| > msgSize then -RT_ERROR else if old(s).free == [] then -RT_EFULL else 0
      ensures err == 0 ==> msg >= 0 && s.local[t] == Sending(msg, buf, urgent)
    {
      hide MqModel.Inv;
      ReserveKeeps(s, t, buf, urgent);
      if |buf| > msgSize {
        return -RT_ERROR, NULL;
      }
      msg := freeHead;
      if msg == NULL {
        return -RT_EFULL, NULL;
      }
      err := 0;
      freeHead := next[msg];
      s := Apply(s, Event.Reserve(t, buf, urgent));
    }

    /** Between the regions: fill the node. rt_mq_send also clears its link here. */
    method Fill(ghost t: Tid, msg: nat, buf: bytes, urgent: bool)
      requires Valid() && Enabled(s, Event.Fill(t)) && s.local[t] == Sending(msg, buf, urgent)
      modifies this`s, next, slots
      ensures s == Apply(old(s), Event.Fill(t))
      ensures Valid()
    {
      hide MqModel.Inv, Chain, Overwrite;
      FillKeeps(s, t);
      InPool(s, t);
      FillNode(t, msg, buf, urgent);
      s := Apply(s, Event.Fill(t));
      FillLinks(old(s), t);
    }

    lemma FillLinks(s0: Mq, t: Tid)
      requires Enabled(s0, Event.Fill(t)) && s == Apply(s0, Event.Fill(t)) && next.Length == s.maxMsgs
      requires Chain(next[..], head, s0.queue) && Chain(next[..], freeHead, s0.free)
      requires tail == (if s0.queue == [] then NULL else s0.queue[|s0.queue| - 1]) && entry == |s0.queue|
      requires s0.local[t].node < next.Length && (!s0.local[t].urgent ==> next[s0.local[t].node] == NULL)
      requires forall u :: u in s0.local && u != t && s0.local[u].Filled? && !s0.local[u].urgent ==>
                 s0.local[u].node < next.Length && next[s0.local[u].node] == NULL
      requires s0.slot.Keys == UpTo(slots.Length) && s0.local[t].node < slots.Length
      requires forall n :: n in s0.slot ==>
                 slots[n] == if n == s0.local[t].node then Overwrite(s0.slot[n], s0.local[t].buf) else s0.slot[n]
      ensures Links() && Bytes(s.slot)
    {
    }

    method FillNode(ghost t: Tid, msg: nat, buf: bytes, urgent: bool)
      requires Linked() && msg < next.Length && msg !in s.queue && msg !in s.free && msg in s.slot
               && |buf| <= |s.slot[msg]|
      requires forall u :: u in s.local && u != t && Holds(s.local[u]) ==> s.local[u].node != msg
      modifies next, slots
      ensures Chain(next[..], head, s.queue) && Chain(next[..], freeHead, s.free)
      ensures !urgent ==> next[msg] == NULL
      ensures forall u :: u in s.local && u != t && s.local[u].Filled? && !s.local[u].urgent ==>
                s.local[u].node < next.Length && next[s.local[u].node] == NULL
      ensures forall n :: n in s.slot ==> slots[n] == if n == msg then Overwrite(s.slot[n], buf) else s.slot[n]
    {
      hide Chain, Overwrite;
      ghost var was := next[..];
      if !urgent {
        next[msg] := NULL;
      }
      ChainFrame(was, next[..], head, s.queue, msg);
      ChainFrame(was, next[..], freeHead, s.free, msg);
      slots[msg] := Overwrite(slots[msg], buf);
    }

    /** Second region of rt_mq_send. */
    method LinkTail(ghost t: Tid, msg: nat)
      requires Valid() && Enabled(s, Event.Link(t)) && s.local[t].node == msg && !s.local[t].urgent
      modifies this`head, this`tail, this`entry, this`waiting, this`s, next
      ensures s == Apply(old(s), Event.Link(t))
      ensures Valid()
    {
      hide MqModel.Inv, Chain, Bytes;
      LinkKeeps(s, t);
      InPool(s, t);
      LastApart(s);
      Append(msg, s.queue, s.free);
      s := LinkNode(s, t);
      Resume();
    }

    method Append(msg: nat, ghost q: seq<Node>, ghost f: seq<Node>)
      requires Chain(next[..], head, q) && Chain(next[..], freeHead, f) && Distinct(q)
      requires tail == if q == [] then NULL else q[|q| - 1]
      requires msg < next.Length && msg !in q && msg !in f && next[msg] == NULL && (q != [] ==> q[|q| - 1] !in f)
      modifies this`head, this`tail, this`entry, next
      ensures Chain(next[..], head, q + [msg]) && Chain(next[..], freeHead, f) && tail == msg && entry == old(entry) + 1
      ensures forall k :: 0 <= k < next.Length && (q == [] || k != q[|q| - 1]) ==> next[k] == old(next[k])
    {
      hide Chain;
      ghost var was := next[..];
      ChainInside(was, head, q);
      HeadIsNull(was, head, q);
      if tail != NULL {
        next[tail] := msg;
        ChainFrame(was, next[..], freeHead, f, tail);
      }
      ChainSnoc(was, next[..], head, q, msg);
      tail := msg;
      if head == NULL {
        head := msg;
      }
      entry := entry + 1;
    }

    /** Second region of rt_mq_urgent. */
    method LinkHead(ghost t: Tid, msg: nat)
      requires Valid() && Enabled(s, Event.Link(t)) && s.local[t].node == msg && s.local[t].urgent
      modifies this`head, this`tail, this`entry, this`waiting, this`s, next
      ensures s == Apply(old(s), Event.Link(t))
      ensures Valid()
    {
      hide MqModel.Inv, Chain, Bytes;
      LinkKeeps(s, t);
      InPool(s, t);
      Prepend(msg, s.queue, s.free);
      s := LinkNode(s, t);
      LastApart(old(s));
      Resume();
    }

    method Prepend(msg: nat, ghost q: seq<Node>, ghost f: seq<Node>)
      requires Chain(next[..], head, q) && Chain(next[..], freeHead, f)
      requires tail == if q == [] then NULL else q[|q| - 1]
      requires msg < next.Length && msg !in q && msg !in f
      modifies this`head, this`tail, this`entry, next
      ensures Chain(next[..], head, [msg] + q) && Chain(next[..], freeHead, f) && entry == old(entry) + 1
      ensures tail == ([msg] + q)[|q|]
      ensures forall k :: 0 <= k < next.Length && k != msg ==> next[k] == old(next[k])
    {
      hide Chain;
      ghost var was := next[..];
      next[msg] := head;
      ChainCons(was, next[..], head, q, msg);
      ChainFrame(was, next[..], freeHead, f, msg);
      head := msg;
      if tail == NULL {
        tail := msg;
      }
      entry := entry + 1;
    }

    /** rt_ipc_list_resume when a thread is waiting. */
    method Resume()
      requires Linked() && forall t :: t in s.waiting ==> t in s.local && s.local[t].Waiting?
      modifies this`waiting, this`s
      ensures Linked() && s == Wake(old(s))
    {
      if waiting != [] {
        assert waiting[0] in s.waiting;
        waiting := waiting[1..];
        s := Wake(s);
      }
    }

    /** A pass of rt_mq_recv through its first region: take the head, or wait, or give up. */
    method TryTake(t: Tid, size: nat, block: bool, at: nat) returns (msg: int)
      requires Valid() && Enabled(s, Event.TryTake(t, size, block, at))
      modifies this`head, this`tail, this`entry, this`waiting, this`s
      ensures s == Apply(old(s), Event.TryTake(t, size, block, at))
      ensures Valid()
      ensures Received(old(s), s, t, size, msg)
    {
      hide MqModel.Inv, Chain, Bytes, Apply;
      TryTakeKeeps(s, t, size, block, at);
      TryTakeMap(s, t, size, block, at);
      LastApart(s);
      if entry == 0 {
        if block {
          waiting := waiting[..at] + [t] + waiting[at..];
        }
        msg := NULL;
      } else {
        msg := Unlink(s.queue, s.free);
      }
      s := Apply(s, Event.TryTake(t, size, block, at));
    }

    lemma TryTakeMap(s0: Mq, t: Tid, size: nat, block: bool, at: nat)
      requires Enabled(s0, Event.TryTake(t, size, block, at))
      ensures var s' := Apply(s0, Event.TryTake(t, size, block, at));
              && s'.slot == s0.slot && s'.free == s0.free && s'.msgSize == s0.msgSize && s'.maxMsgs == s0.maxMsgs
              && s'.queue == (if s0.queue == [] then [] else s0.queue[1..])
              && s'.waiting == (if s0.queue == [] && block then s0.waiting[..at] + [t] + s0.waiting[at..]
                else s0.waiting)
              && (s0.queue != [] ==> t in s'.local && s'.local[t] == Taking(s0.queue[0], size, s0.pending[0].buf))
              && forall u :: u in s'.local && s'.local[u].Filled? ==> u in s0.local && s'.local[u] == s0.local[u]
    {
    }

    /** Take the head off the queue. */
    method Unlink(ghost q: seq<Node>, ghost f: seq<Node>) returns (msg: nat)
      requires Chain(next[..], head, q) && Distinct(q) && q != [] && tail == q[|q| - 1] && entry == |q|
      modifies this`head, this`tail, this`entry
      ensures msg == q[0] && Chain(next[..], head, q[1..]) && entry == |q| - 1
      ensures tail == if |q| == 1 then NULL else q[|q| - 1]
    {
      hide Chain;
      HeadIsNull(next[..], head, q);
      msg := head;
      head := next[msg];
      if tail == msg {
        LastIsFirst(q);
        tail := NULL;
      }
      entry := entry - 1;
    }

    /** The memcpy out of the node. */
    method CopyOut(ghost t: Tid, msg: nat, size: nat) returns (buffer: bytes)
      requires Valid() && Enabled(s, Event.CopyOut(t)) && s.local[t].node == msg && s.local[t].size == size
      modifies this`s
      ensures s == Apply(old(s), Event.CopyOut(t))
      ensures Valid()
      ensures Agree(buffer, old(s).local[t].msg) && |buffer| == if size > msgSize then msgSize else size
    {
      hide MqModel.Inv, Chain;
      CopyOutKeeps(s, t);
      HeldFits(s, t);
      buffer := slots[msg][..if size > msgSize then msgSize else size];
      s := Apply(s, Event.CopyOut(t));
      HeldFits(s, t);
    }

    /** Last region of rt_mq_recv: the node goes back to the free list. */
    method GiveBack(ghost t: Tid, msg: nat)
      requires Valid() && Enabled(s, Event.GiveBack(t)) && s.local[t].node == msg
      modifies this`freeHead, this`s, next
      ensures s == Apply(old(s), Event.GiveBack(t))
      ensures Valid()
    {
      hide MqModel.Inv, Chain, Bytes;
      GiveBackKeeps(s, t);
      InPool(s, t);
      Release(msg, s.queue, s.free);
      s := Apply(s, Event.GiveBack(t));
    }

    method Release(msg: nat, ghost q: seq<Node>, ghost f: seq<Node>)
      requires Chain(next[..], head, q) && Chain(next[..], freeHead, f)
      requires msg < next.Length && msg !in q && msg !in f
      modifies this`freeHead, next
      ensures Chain(next[..], head, q) && Chain(next[..], freeHead, [msg] + f)
      ensures forall k :: 0 <= k < next.Length && k != msg ==> next[k] == old(next[k])
    {
      hide Chain;
      ghost var was := next[..];
      next[msg] := freeHead;
      ChainCons(was, next[..], freeHead, f, msg);
      ChainFrame(was, next[..], head, q, msg);
      freeHead := msg;
    }

    /** The timer of a waiting thread expires: off the suspend list. */
    method Timeout(t: Tid)
      requires Valid() && Enabled(s, Event.Timeout(t))
      modifies this`waiting, this`s
      ensures s == Apply(old(s), Event.Timeout(t))
      ensures Valid()
    {
      hide MqModel.Inv, Chain;
      TimeoutKeeps(s, t);
      waiting := Without(waiting, t);
      s := Apply(s, Event.Timeout(t));
    }

    /** rt_mq_control with RT_IPC_CMD_RESET: wake everybody with an error, then move every queued node
        to the free list. */
    method Reset()
      requires Valid()
      modifies this`head, this`tail, this`freeHead, this`entry, this`waiting, this`s, next
      ensures s == AfterReset(old(s))
      ensures Valid()
    {
      hide MqModel.Inv, Chain, Bytes;
      ResetKeeps(s);
      QueueApart(s);
      waiting := [];
      MoveAll(s.queue, s.free, s);
      entry := 0;
      s := AfterReset(s);
    }

    method MoveAll(ghost q0: seq<Node>, ghost f0: seq<Node>, ghost s0: Mq)
      requires Chain(next[..], head, q0) && Chain(next[..], freeHead, f0) && Distinct(q0) && Elems(q0) !! Elems(f0)
      requires tail == if q0 == [] then NULL else q0[|q0| - 1]
      requires forall t :: t in s0.local && s0.local[t].Filled? && !s0.local[t].urgent ==>
                 s0.local[t].node !in q0 && s0.local[t].node < next.Length && next[s0.local[t].node] == NULL
      modifies this`head, this`tail, this`freeHead, next
      ensures head == NULL && tail == NULL && Chain(next[..], head, []) && Chain(next[..], freeHead, Reversed(q0) + f0)
      ensures forall t :: t in s0.local && s0.local[t].Filled? && !s0.local[t].urgent ==>
                s0.local[t].node < next.Length && next[s0.local[t].node] == NULL
    {
      hide Chain;
      ghost var q: seq<Node>, f: seq<Node> := q0, f0;
      HeadIsNull(next[..], head, q);
      while head != NULL
        invariant Chain(next[..], head, q) && Chain(next[..], freeHead, f) && Distinct(q) && Elems(q) !! Elems(f)
        invariant tail == if q == [] then NULL else q[|q| - 1]
        invariant head == NULL <==> q == []
        invariant Reversed(q) + f == Reversed(q0) + f0
        invariant forall t :: t in s0.local && s0.local[t].Filled? && !s0.local[t].urgent ==>
                    s0.local[t].node !in q && s0.local[t].node < next.Length && next[s0.local[t].node] == NULL
        decreases |q|
      {
        HeadIsNull(next[..], head, q);
        Uncons(q);
        var msg := head;
        head := next[msg];
        if tail == msg {
          LastIsFirst(q);
          tail := NULL;
        }
        assert msg !in f by { assert q[0] in Elems(q); assert msg in f ==> msg in Elems(f); }
        Release(msg, q[1..], f);
        assert Elems([msg] + f) == Elems(f) + {msg};
        assert Reversed(q) + f == Reversed(q[1..]) + ([q[0]] + f);
        q, f := q[1..], [msg] + f;
        HeadIsNull(next[..], head, q);
      }
      assert Reversed(q) + f == f;
    }
  }

  lemma LastIsFirst(q: seq<Node>)
    requires q != [] && Distinct(q) && q[|q| - 1] == q[0]
    ensures |q| == 1
  {
  }

  lemma QueueApart(s: Mq)
    requires Inv(s)
    ensures Distinct(s.queue) && Elems(s.queue) !! Elems(s.free)
    ensures forall t :: t in s.local && Holds(s.local[t]) ==> s.local[t].node !in s.queue
  {
  }

  /** What a thread holds while receiving agrees with what was sent. */
  lemma HeldFits(s: Mq, t: Tid)
    requires Inv(s) && t in s.local
    ensures s.local[t].Taking? ==> s.local[t].node < s.maxMsgs && s.local[t].node in s.slot
                                   && |s.slot[s.local[t].node]| == s.msgSize
    ensures s.local[t].CopiedOut? ==> Agree(s.local[t].got, s.local[t].msg)
  {
    assert LocalFits(s, s.local[t]);
  }

  lemma LastApart(s: Mq)
    requires Inv(s)
    ensures s.queue != [] ==> s.queue[|s.queue| - 1] !in s.free
    ensures s.queue != [] ==>
              forall t :: t in s.local && Holds(s.local[t]) ==> s.local[t].node != s.queue[|s.queue| - 1]
    ensures Distinct(s.queue)
    ensures forall t :: t in s.waiting ==> t in s.local && s.local[t].Waiting?
  {
    if s.queue != [] {
      assert s.queue[|s.queue| - 1] in Elems(s.queue);
    }
  }

  /** The node a thread holds is on neither list, inside the pool, and nobody else's. */
  lemma InPool(s: Mq, t: Tid)
    requires Inv(s) && t in s.local && Holds(s.local[t])
    ensures s.local[t].node < s.maxMsgs && s.local[t].node !in s.queue && s.local[t].node !in s.free
    ensures forall u :: u in s.local && u != t && Holds(s.local[u]) ==> s.local[u].node != s.local[t].node
  {
    assert s.local[t].node in InFlight(s);
  }
}
