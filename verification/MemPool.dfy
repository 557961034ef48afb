/** The fixed-block memory pool of rt-thread/src/mempool.c. Addresses count 4-byte words from the start of
    the pool; each block is a link word and its payload. */
module MemPool {
  import opened RtDef
  import opened Sequences
  import opened MemPoolModel

  const NULL: int := -1
  /** what the link word of a block in use points to: the pool itself */
  const POOL: int := -2

  /** Address of block b's link word. */
  function Head(b: nat, stride: nat): nat {
    b * stride
  }

  lemma HeadsApart(b: nat, c: nat, stride: nat)
    requires b < c
    ensures Head(b, stride) + stride <= Head(c, stride)
  {
    var d: nat := c - b - 1;
    assert (b + 1) * stride == b * stride + stride;
    assert c * stride == (b + 1 + d) * stride == (b + 1) * stride + d * stride;
  }

  function First(free: seq<nat>, stride: nat): int {
    if free == [] then NULL else Head(free[0], stride)
  }

  /** From list on, the link words run through the free blocks in order. */
  ghost predicate Chain(free: seq<nat>, list: int, words: seq<int>, stride: nat) {
    && list == First(free, stride)
    && (free != [] ==> Head(free[0], stride) < |words| && Chain(free[1..], words[Head(free[0], stride)], words, stride))
  }

  /** Only the link words of its own blocks matter to the chain. */
  lemma {:induction false} ChainFrame(free: seq<nat>, list: int, words: seq<int>, words': seq<int>, stride: nat)
    requires Chain(free, list, words, stride) && |words'| == |words|
    requires forall b :: b in free && Head(b, stride) < |words| ==> words'[Head(b, stride)] == words[Head(b, stride)]
    ensures Chain(free, list, words', stride)
  {
    if free != [] {
      assert free[0] in free;
      ChainFrame(free[1..], words[Head(free[0], stride)], words, words', stride);
    }
  }

  lemma CountFits(len: nat, width: nat)
    requires width > 0
    ensures Head(len / width, width) <= len && (len >= width ==> len / width > 0)
  {
    var q := len / width;
    assert len == q * width + len % width;
  }

  ghost predicate LinkedTo(b: nat, count: nat, words: seq<int>, width: nat) {
    Head(b, width) < |words| && words[Head(b, width)] == if b + 1 < count then Head(b + 1, width) else NULL
  }

  lemma {:induction false} Threaded(lo: nat, count: nat, words: seq<int>, width: nat)
    requires lo <= count && forall b: nat :: lo <= b < count ==> LinkedTo(b, count, words, width)
    ensures Chain(UpFrom(lo, count), First(UpFrom(lo, count), width), words, width)
    decreases count - lo
  {
    if lo < count {
      assert LinkedTo(lo, count, words, width);
      Threaded(lo + 1, count, words, width);
      assert UpFrom(lo, count)[1..] == UpFrom(lo + 1, count);
    }
  }

  lemma FirstHead(width: nat)
    ensures Head(0, width) == 0
  {
  }

  class MemPool {
    const mem: array<int>
    const stride: nat
    const total: nat
    /** block_list */
    var list: int
    var freeCount: nat
    /** suspend_thread, from its head, and suspend_thread_count */
    var waiting: seq<Tid>
    var waitCount: nat
    ghost var free: seq<nat>
    /** threads resumed by rt_mp_free that have not run since */
    ghost var woken: set<Tid>

    ghost function View(): Pool
      reads this
    {
      Pool(total, free, waiting, waitCount, woken)
    }

    /** The free list threads the free blocks and counts them; every other block leads back to the pool. */
    ghost predicate Linked()
      reads this, mem
    {
      && 1 < stride && mem.Length >= Head(total, stride)
      && Distinct(free) && (forall b :: b in free ==> b < total)
      && Chain(free, list, mem[..], stride) && freeCount == |free|
      && (forall b: nat :: b < total && b !in free ==> Head(b, stride) < mem.Length && mem[Head(b, stride)] == POOL)
    }

    ghost predicate Valid()
      reads this, mem
    {
      Linked() && Inv(View())
    }

    /** rt_mp_init over a pool that holds at least one block. */
    constructor (mem: array<int>, blockWords: nat)
      requires blockWords > 0 && mem.Length >= blockWords + 1
      modifies mem
      ensures Valid() && this.mem == mem && stride == blockWords + 1 && total == mem.Length / stride
      ensures View() == Start(total)
    {
      hide Head, Chain;
      var width := blockWords + 1;
      var count := mem.Length / width;
      CountFits(mem.Length, width);
      FirstHead(width);
      InitLinks(mem, count, width);
      Threaded(0, count, mem[..], width);
      this.mem := mem;
      stride, total := width, count;
      list, freeCount := 0, count;
      waiting, waitCount := [], 0;
      free, woken := UpFrom(0, count), {};
      StartKeeps(count);
    }

    /** The loop of rt_mp_init, and the end of the list. */
    static method InitLinks(mem: array<int>, count: nat, width: nat)
      requires 0 < count && width > 0 && Head(count, width) <= mem.Length
      modifies mem
      ensures forall b: nat :: b < count ==> LinkedTo(b, count, mem[..], width)
    {
      hide Head;
      var offset := 0;
      while offset < count
        invariant offset <= count
        invariant forall b: nat :: b < offset ==>
                    Head(b, width) < mem.Length && mem[Head(b, width)] == Head(b + 1, width)
      {
        HeadsApart(offset, count, width);
        OthersApart(offset, width);
        mem[Head(offset, width)] := Head(offset + 1, width);
        offset := offset + 1;
      }
      HeadsApart(offset - 1, count, width);
      OthersApart(offset - 1, width);
      mem[Head(offset - 1, width)] := NULL;
    }

    /** A block of the pool, and nothing but link words and payloads between. */
    lemma InPool(b: nat)
      requires Linked() && b < total
      ensures Head(b, stride) + stride <= mem.Length
    {
      HeadsApart(b, total, stride);
    }

    /** No link word but that of block b was written, and no payload. */
    twostate predicate OnlyLink(b: nat)
      reads mem
    {
      forall x :: 0 <= x < mem.Length && x != Head(b, stride) ==> mem[x] == old(mem[x])
    }

    /** One pass through the loop of rt_mp_alloc: the first free block, if any; else the thread is suspended
        in front of the others that wait, or turned down. */
    method Alloc(t: Tid, wait: bool) returns (block: int)
      requires Valid() && Enabled(View(), Event.Alloc(t, wait))
      modifies this, mem
      ensures View() == Apply(old(View()), Event.Alloc(t, wait)) && Valid()
      ensures block == NULL <==> old(free) == []
      ensures block == NULL ==> mem[..] == old(mem[..])
      ensures block == NULL ==> free == [] && waiting == if wait then [t] + old(waiting) else old(waiting)
      ensures block != NULL ==> block == Head(old(free)[0], stride) + 1 && OnlyLink(old(free)[0])
                                && free == old(free)[1..] && waiting == old(waiting)
    {
      hide Head, Inv;
      AllocKeeps(View(), t, wait);
      woken := woken - {t};
      if freeCount == 0 {
        if wait {
          waiting := [t] + waiting;
          waitCount := waitCount + 1;
        }
        assert mem[..] == old(mem[..]);
        return NULL;
      }
      block := Unlink();
    }

    /** The end of rt_mp_alloc: the first block leaves the free list. */
    method Unlink() returns (block: int)
      requires Linked() && free != []
      modifies this`list, this`freeCount, this`free, mem
      ensures Linked() && free == old(free)[1..]
      ensures block == Head(old(free)[0], stride) + 1 && OnlyLink(old(free)[0])
    {
      hide Head;
      ghost var b, rest, words := free[0], free[1..], mem[..];
      assert b in free && free == [b] + rest && b !in rest && Distinct(rest);
      assert forall c :: c in rest ==> c in free;
      InPool(b);
      var ptr := list;
      freeCount := freeCount - 1;
      list := mem[ptr];
      mem[ptr] := POOL;
      free := rest;
      OthersApart(b, stride);
      ChainFrame(rest, list, words, mem[..], stride);
      return ptr + 1;
    }

    /** A wait ends by timeout; the count stays. */
    method Timeout(t: Tid)
      requires Valid() && t in waiting
      modifies this`waiting
      ensures View() == Apply(old(View()), Event.Timeout(t)) && Valid()
    {
      TimeoutKeeps(View(), t);
      waiting := Without(waiting, t);
    }

    /** rt_mp_free of a block in use. It resumes the first waiter when the count says there is one, which is
        only sound while somebody does wait. */
    method Free(block: int, ghost b: nat) returns (resumed: int)
      requires Valid() && Enabled(View(), Event.Free(b)) && block == Head(b, stride) + 1
      modifies this, mem
      ensures View() == Apply(old(View()), Event.Free(b)) && Valid() && OnlyLink(b)
      ensures resumed == if old(waiting) == [] then NULL else old(waiting)[0]
      ensures free == [b] + old(free) && waiting == if old(waiting) == [] then [] else old(waiting)[1..]
    {
      hide Head, Inv;
      FreeKeeps(View(), b);
      WaitersCounted(View());
      Link(block, b);
      resumed := NULL;
      if waitCount > 0 {
        resumed := waiting[0];
        woken := woken + {waiting[0]};
        waiting := waiting[1..];
        waitCount := waitCount - 1;
      }
    }

    /** The first half of rt_mp_free: the block goes first in the free list. */
    method Link(block: int, ghost b: nat)
      requires Linked() && b < total && b !in free && block == Head(b, stride) + 1
      modifies this`list, this`freeCount, this`free, mem
      ensures Linked() && free == [b] + old(free) && OnlyLink(b)
    {
      hide Head;
      ghost var words, was := mem[..], free;
      var ptr := block - 1;
      assert mem[ptr] == POOL;
      freeCount := freeCount + 1;
      mem[ptr] := list;
      OthersApart(b, stride);
      ChainFrame(free, list, words, mem[..], stride);
      list := ptr;
      free := [b] + free;
      assert free[1..] == was;
    }
  }

  lemma OthersApart(b: nat, stride: nat)
    requires stride > 0
    ensures forall c: nat :: c != b ==> Head(c, stride) != Head(b, stride)
  {
    forall c: nat | c != b
      ensures Head(c, stride) != Head(b, stride)
    {
      if c < b {
        HeadsApart(c, b, stride);
      } else {
        HeadsApart(b, c, stride);
      }
    }
  }
}
