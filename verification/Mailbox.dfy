/** The mailbox object of rt-thread/src/ipc.c: a ring buffer with offsets, refining MailboxModel. */
module Mailbox {
  import opened RtDef
  import opened Sequences
  import opened MailboxModel

  /** An offset that has run at most once past the end of the ring. */
  function Wrap(k: nat, size: nat): nat {
    if k >= size then k - size else k
  }

  ghost predicate HoldsAt(pool: seq<word>, out: nat, mails: seq<word>, k: nat)
    requires k < |mails|
  {
    Wrap(out + k, |pool|) < |pool| && pool[Wrap(out + k, |pool|)] == mails[k]
  }

  /** From offset out on, round the end, the pool holds mails. */
  ghost predicate Holds(pool: seq<word>, out: nat, mails: seq<word>) {
    forall k :: 0 <= k < |mails| ==> HoldsAt(pool, out, mails, k)
  }

  lemma HoldsAfterPut(pool: seq<word>, out: nat, mails: seq<word>, value: word)
    requires Holds(pool, out, mails) && |mails| < |pool| && out < |pool|
    ensures Holds(pool[Wrap(out + |mails|, |pool|) := value], out, mails + [value])
  {
    var pool', all := pool[Wrap(out + |mails|, |pool|) := value], mails + [value];
    forall k | 0 <= k < |all|
      ensures HoldsAt(pool', out, all, k)
    {
      assert k < |mails| ==> HoldsAt(pool, out, mails, k);
    }
  }

  lemma HoldsAfterGet(pool: seq<word>, out: nat, mails: seq<word>)
    requires Holds(pool, out, mails) && mails != [] && out < |pool| && |mails| <= |pool|
    ensures pool[out] == mails[0] && Holds(pool, Wrap(out + 1, |pool|), mails[1..])
  {
    assert HoldsAt(pool, out, mails, 0);
    var out', rest := Wrap(out + 1, |pool|), mails[1..];
    forall k | 0 <= k < |rest|
      ensures HoldsAt(pool, out', rest, k)
    {
      assert HoldsAt(pool, out, mails, k + 1);
    }
  }

  lemma WrapIsRest(k: nat, size: nat)
    requires 0 < size && k < 2 * size
    ensures Wrap(k, size) == k % size
  {
    if k >= size {
      assert k == size + (k - size);
    }
  }

  class Mailbox {
    const size: nat
    const msgPool: array<word>
    var entry: nat
    var inOffset: nat
    var outOffset: nat
    var senders: seq<Tid>        // suspend_sender_thread
    var receivers: seq<Tid>      // parent.suspend_thread
    ghost var s: Box

    ghost predicate Ring()
      reads this, msgPool
    {
      && s.size == size == msgPool.Length
      && entry == |s.mails| && senders == s.senders && receivers == s.receivers
      && (size > 0 ==> outOffset < size && inOffset == Wrap(outOffset + entry, size))
      && Holds(msgPool[..], outOffset, s.mails)
    }

    ghost predicate Valid()
      reads this, msgPool
    {
      Inv(s) && Ring()
    }

    /** The offsets are a ring's: in_offset is out_offset plus the number of mails, modulo the size. */
    lemma InOffsetIsModulo()
      requires Valid() && size > 0
      ensures inOffset == (outOffset + entry) % size
    {
      InvBounds(s);
      WrapIsRest(outOffset + entry, size);
    }

    constructor (size: nat, threads: set<Tid>)
      ensures Valid() && fresh(msgPool)
      ensures s == Box(size, [], map t | t in threads :: Idle, [], [], [], [])
    {
      this.size := size;
      msgPool := new word[size];
      entry, inOffset, outOffset, senders, receivers := 0, 0, 0, [], [];
      s := Box(size, [], map t | t in threads :: Idle, [], [], [], []);
    }

    /** One pass of rt_mb_send_wait: deliver, or wait at place at of the senders' list, or give up. */
    method TrySend(t: Tid, value: word, block: bool, at: nat) returns (err: int)
      requires Valid() && Enabled(s, Event.TrySend(t, value, block, at))
      modifies this, msgPool
      ensures s == Apply(old(s), Event.TrySend(t, value, block, at))
      ensures Valid()
      ensures err == -RT_EFULL <==> |old(s).mails| == size && !block
      ensures |old(s).mails| < size ==>
                s.mails == old(s).mails + [value] && senders == old(senders)
                && receivers == if old(receivers) == [] then [] else old(receivers)[1..]
      ensures |old(s).mails| == size ==>
                s.mails == old(s).mails && receivers == old(receivers)
                && senders == if block then old(senders)[..at] + [t] + old(senders)[at..] else old(senders)
    {
      hide Inv, Holds;
      SendKeeps(s, t, value, block, at);
      InvBounds(s);
      err := RT_EOK;
      if entry == size {
        if block {
          senders := senders[..at] + [t] + senders[at..];
        } else {
          err := -RT_EFULL;
        }
        s := Apply(s, Event.TrySend(t, value, block, at));
        return;
      }
      HoldsAfterPut(msgPool[..], outOffset, s.mails, value);
      ghost var was := msgPool[..];
      msgPool[inOffset] := value;
      assert msgPool[..] == was[inOffset := value];
      inOffset := inOffset + 1;
      if inOffset >= size {
        inOffset := 0;
      }
      entry := entry + 1;
      s := Put(s, t, value);
      if receivers != [] {
        receivers := receivers[1..];
        s := WakeReceiver(s);
      }
    }

    /** One pass of rt_mb_recv: the oldest mail, or wait at place at of the receivers' list, or give up. */
    method TryRecv(t: Tid, block: bool, at: nat) returns (err: int, value: word)
      requires Valid() && Enabled(s, Event.TryRecv(t, block, at))
      modifies this
      ensures s == Apply(old(s), Event.TryRecv(t, block, at))
      ensures Valid()
      ensures err == -RT_ETIMEOUT <==> old(s).mails == [] && !block
      ensures old(s).mails != [] ==>
                value == old(s).mails[0] && s.mails == old(s).mails[1..] && receivers == old(receivers)
                && senders == if old(senders) == [] then [] else old(senders)[1..]
      ensures old(s).mails == [] ==>
                s.mails == [] && senders == old(senders)
                && receivers == if block then old(receivers)[..at] + [t] + old(receivers)[at..] else old(receivers)
    {
      hide Inv, Holds;
      RecvKeeps(s, t, block, at);
      InvBounds(s);
      err, value := RT_EOK, 0;
      if entry == 0 {
        if block {
          receivers := receivers[..at] + [t] + receivers[at..];
        } else {
          err := -RT_ETIMEOUT;
        }
        s := Apply(s, Event.TryRecv(t, block, at));
        return;
      }
      HoldsAfterGet(msgPool[..], outOffset, s.mails);
      value := msgPool[outOffset];
      outOffset := outOffset + 1;
      if outOffset >= size {
        outOffset := 0;
      }
      entry := entry - 1;
      s := Get(s, t);
      if senders != [] {
        senders := senders[1..];
        s := WakeSender(s);
      }
    }

    /** The timer of a waiting thread expires. */
    method Timeout(t: Tid)
      requires Valid() && Enabled(s, Event.Timeout(t))
      modifies this`senders, this`receivers, this`s
      ensures s == Apply(old(s), Event.Timeout(t))
      ensures Valid()
    {
      hide Inv, Holds;
      TimeoutKeeps(s, t);
      senders, receivers := Without(senders, t), Without(receivers, t);
      s := Apply(s, Event.Timeout(t));
    }

    /** rt_mb_control with RT_IPC_CMD_RESET. */
    method Reset()
      requires Valid()
      modifies this
      ensures s == Apply(old(s), Event.Reset)
      ensures Valid()
    {
      hide Inv;
      MailboxModel.StepKeeps(s, Event.Reset);
      senders, receivers := [], [];
      entry, inOffset, outOffset := 0, 0, 0;
      s := Apply(s, Event.Reset);
    }
  }

  lemma InvBounds(s: Box)
    requires Inv(s)
    ensures |s.mails| <= s.size
  {
  }
}
