/** The memory heap of rt-thread/src/memheap.c in one array of 4-byte words: headers and payloads side by
    side, addresses and sizes counted in words from the start of the pool. The list header inside
    struct rt_memheap takes the six words behind the pool. Ghost maps mirror the header fields. */
module MemHeap {
  import opened MemHeapModel
  import opened Rings
  import opened Sequences
  import opened Numbers
  import opened RtDef
  import opened MemHeapLaws

  class MemHeap {
    const poolSize: nat
    const mem: array<int>
    var available: int
    var maxUsed: int
    ghost var blocks: seq<Block>
    ghost var order: seq<int>
    /** where headers in use begin, and what their fields say */
    ghost var heads: set<int>
    ghost var next: map<int, int>
    ghost var prev: map<int, int>
    ghost var nextFree: map<int, int>
    ghost var prevFree: map<int, int>
    ghost var used: map<int, bool>

    /** magic, pool_ptr, next, prev, next_free and prev_free of the header at p. */
    ghost predicate HeadWords(p: int)
      reads this`next, this`prev, this`nextFree, this`prevFree, this`used, mem
    {
      && 0 <= p && p + HEADER <= mem.Length
      && p in used && p in next && p in prev && p in nextFree && p in prevFree
      && mem[p] == Magic(used[p]) && mem[p + 1] == POOL
      && mem[p + 2] == next[p] && mem[p + 3] == prev[p] && mem[p + 4] == nextFree[p] && mem[p + 5] == prevFree[p]
    }

    ghost predicate Words()
      reads this`heads, this`next, this`prev, this`nextFree, this`prevFree, this`used, mem
    {
      && mem.Length == poolSize + HEADER && Spaced(heads, mem.Length)
      && forall p :: p in heads ==> HeadWords(p)
    }

    /** Blocks and list entries are headers in use. */
    ghost predicate Anchored()
      reads this`heads, this`blocks, this`order
    {
      && HeadsOf(blocks, poolSize) <= heads
      && forall a :: a in order ==> a in heads
    }

    /** Only words of the given headers were written. */
    twostate predicate OnlyHeads(of: set<int>)
      reads mem
    {
      OnlyIn(old(mem[..]), mem[..], of)
    }

    /** The block list is a ring of headers in address order that tiles the pool up to the used tailer. */
    ghost predicate Chained()
      reads this`blocks, this`next, this`prev, this`used
    {
      Chain(blocks, next, prev, used, poolSize)
    }

    /** The free list is a ring through the list header. */
    ghost predicate Threaded()
      reads this`order, this`nextFree, this`prevFree
    {
      Ring([poolSize] + order, nextFree, prevFree)
    }

    /** The free list holds exactly the free blocks. */
    ghost predicate Agree()
      reads this`blocks, this`order
    {
      forall a :: a in order <==> IsFree(blocks, a)
    }

    ghost predicate Valid()
      reads this, mem
    {
      && Words() && heads == HeadsOf(blocks, poolSize)
      && Chained() && Threaded() && Agree() && NoTwoFree(blocks)
      && available == FreeWords(blocks) && poolSize - available <= maxUsed
    }

    /** rt_memheap_init: one free block and the tailer. */
    constructor (mem: array<int>, poolSize: nat)
      requires poolSize >= 2 * HEADER && mem.Length == poolSize + HEADER
      modifies mem
      ensures Valid() && this.mem == mem && this.poolSize == poolSize
              && Used(blocks) == {Block(poolSize - HEADER, 0, true)}
      ensures available == poolSize - 2 * HEADER && maxUsed == 2 * HEADER
    {
      hide Ring, Tiling, NoTwoFree, Used, FreeWords, Starts, IsFree, Flags, Closed, HeadsOf;
      this.mem := mem;
      this.poolSize := poolSize;
      available := poolSize - 2 * HEADER;
      maxUsed := 2 * HEADER;
      var tail := poolSize - HEADER;
      next := map[0 := tail, tail := 0, poolSize := NULL];
      prev := map[0 := tail, tail := 0, poolSize := NULL];
      used := map[0 := false, tail := true, poolSize := false];
      nextFree := map[0 := poolSize, poolSize := 0, tail := NULL];
      prevFree := map[0 := poolSize, poolSize := 0, tail := NULL];
      heads := {0, tail, poolSize};
      blocks := [Block(0, poolSize - 2 * HEADER, false), Block(tail, 0, true)];
      order := [0];
      PutHeader(mem, poolSize, RT_MEMHEAP_MAGIC, NULL, NULL, 0, 0);
      PutHeader(mem, 0, RT_MEMHEAP_MAGIC, tail, tail, poolSize, poolSize);
      PutHeader(mem, tail, RT_MEMHEAP_MAGIC + 1, 0, 0, NULL, NULL);
      new;
      FirstBlocks(poolSize);
      FirstRings(poolSize, next, prev, nextFree, prevFree, used);
    }

    static method PutHeader(mem: array<int>, p: nat, magic: int, next: int, prev: int, nextFree: int, prevFree: int)
      requires p + HEADER <= mem.Length
      modifies mem
      ensures mem[p] == magic && mem[p + 1] == POOL && mem[p + 2] == next && mem[p + 3] == prev
      ensures mem[p + 4] == nextFree && mem[p + 5] == prevFree
      ensures forall x :: 0 <= x < mem.Length && !(p <= x < p + HEADER) ==> mem[x] == old(mem[x])
    {
      mem[p] := magic;
      mem[p + 1] := POOL;
      mem[p + 2] := next;
      mem[p + 3] := prev;
      mem[p + 4] := nextFree;
      mem[p + 5] := prevFree;
    }

    // ---------------------------------------------------------------- header words

    /** What the words of a header in use are. */
    lemma At(p: int)
      requires Words() && p in heads
      ensures HeadWords(p) && (IsUsed(mem[p]) <==> used[p])
    {
    }

    method SetNext(p: int, v: int)
      requires Words() && p in heads
      modifies mem, this`next
      ensures Words() && next == old(next)[p := v] && OnlyHeads({p})
    {
      mem[p + 2] := v;
      next := next[p := v];
      OwnWord(p, p + 2);
    }

    method SetPrev(p: int, v: int)
      requires Words() && p in heads
      modifies mem, this`prev
      ensures Words() && prev == old(prev)[p := v] && OnlyHeads({p})
    {
      mem[p + 3] := v;
      prev := prev[p := v];
      OwnWord(p, p + 3);
    }

    method SetNextFree(p: int, v: int)
      requires Words() && p in heads
      modifies mem, this`nextFree
      ensures Words() && nextFree == old(nextFree)[p := v] && OnlyHeads({p})
    {
      mem[p + 4] := v;
      nextFree := nextFree[p := v];
      OwnWord(p, p + 4);
    }

    method SetPrevFree(p: int, v: int)
      requires Words() && p in heads
      modifies mem, this`prevFree
      ensures Words() && prevFree == old(prevFree)[p := v] && OnlyHeads({p})
    {
      mem[p + 5] := v;
      prevFree := prevFree[p := v];
      OwnWord(p, p + 5);
    }

    method SetMagic(p: int, flag: bool)
      requires Words() && p in heads
      modifies mem, this`used
      ensures Words() && used == old(used)[p := flag] && OnlyHeads({p})
    {
      mem[p] := if flag then mem[p] - mem[p] % 2 + 1 else mem[p] - mem[p] % 2;
      used := used[p := flag];
      OwnWord(p, p);
    }

    lemma OwnWord(p: int, x: int)
      requires p <= x < p + HEADER
      ensures Covered({p}, x)
    {
      assert p in {p};
    }

    ghost predicate ClearOf(q: int)
      reads this`heads, mem
    {
      0 <= q && q + HEADER <= mem.Length && forall a :: a in heads ==> a + HEADER <= q || q + HEADER <= a
    }

    /** The first two words of a new header, clear of all headers in use. */
    method NewHead(q: int)
      requires Words() && ClearOf(q)
      modifies mem, this`heads, this`next, this`prev, this`nextFree, this`prevFree, this`used
      ensures Words() && heads == old(heads) + {q} && q !in old(heads) && OnlyHeads({q})
      ensures next == old(next)[q := next[q]] && prev == old(prev)[q := prev[q]] && used == old(used)[q := false]
      ensures nextFree == old(nextFree)[q := nextFree[q]] && prevFree == old(prevFree)[q := prevFree[q]]
    {
      mem[q] := RT_MEMHEAP_MAGIC;
      mem[q + 1] := POOL;
      OwnWord(q, q);
      OwnWord(q, q + 1);
      Register(q);
    }

    /** From here on the words at q are a header; its links still say what lay there. */
    ghost method Register(q: int)
      requires Words() && ClearOf(q) && mem[q] == RT_MEMHEAP_MAGIC && mem[q + 1] == POOL
      modifies this`heads, this`next, this`prev, this`nextFree, this`prevFree, this`used
      ensures Words() && heads == old(heads) + {q} && q !in old(heads)
      ensures next == old(next)[q := next[q]] && prev == old(prev)[q := prev[q]] && used == old(used)[q := false]
      ensures nextFree == old(nextFree)[q := nextFree[q]] && prevFree == old(prevFree)[q := prevFree[q]]
    {
      hide Spaced;
      SpacedWith(heads, q, mem.Length);
      heads := heads + {q};
      next, prev, used := next[q := mem[q + 2]], prev[q := mem[q + 3]], used[q := false];
      nextFree, prevFree := nextFree[q := mem[q + 4]], prevFree[q := mem[q + 5]];
    }

    // ---------------------------------------------------------------- the two lists

    /** Links of the block list around block i. */
    lemma AtBlock(i: nat)
      requires Chained() && i < |blocks|
      ensures blocks[i].start in next && blocks[i].start in prev && blocks[i].start in used
      ensures i + 1 < |blocks| ==> next[blocks[i].start] == blocks[i + 1].start == After(blocks[i])
      ensures i > 0 ==> prev[blocks[i].start] == blocks[i - 1].start
      ensures i == 0 ==> prev[blocks[i].start] == blocks[|blocks| - 1].start
      ensures used[blocks[i].start] == blocks[i].used && 0 <= blocks[i].start && After(blocks[i]) <= poolSize
      ensures i + 1 < |blocks| ==> blocks[i + 1].start in prev
    {
      LinksAt(Starts(blocks), i, next, prev);
      StartOf(blocks, i, 0, poolSize);
    }

    /** The header words of a new block at q, linked behind the one at p. */
    method LinkNew(p: int, q: int)
      requires Words() && p in heads && next[p] in heads && ClearOf(q)
      modifies mem, this`heads, this`next, this`prev, this`nextFree, this`prevFree, this`used
      ensures Words() && heads == old(heads) + {q} && OnlyHeads(heads) && used == old(used)[q := false]
      ensures next == old(next)[q := old(next)[p]][p := q] && prev == old(prev)[q := p][old(next)[p] := q]
      ensures forall a :: a in old(heads) ==> a in old(nextFree) && a in old(prevFree) && a in nextFree && a in prevFree
      ensures forall a :: a in old(heads) ==> nextFree[a] == old(nextFree)[a] && prevFree[a] == old(prevFree)[a]
    {
      hide Words, Spaced, Covered, ClearOf, HeadWords;
      NextWord(p);
      FreeLinks();
      NewHead(q);
      SetPrev(q, p);
      NextWord(p);
      SetNext(q, mem[p + 2]);
      NextWord(p);
      SetPrev(mem[p + 2], q);
      SetNext(p, q);
      CoveredMore({q}, heads);
      CoveredMore({p}, heads);
      CoveredMore({old(next)[p]}, heads);
    }

    lemma NextWord(p: int)
      requires Words() && p in heads
      ensures 0 <= p && p + HEADER <= mem.Length && p in next && mem[p + 2] == next[p]
    {
    }

    lemma FreeLinks()
      requires Words()
      ensures forall a :: a in heads ==> a in nextFree && a in prevFree
    {
    }

    /** A new header n words into a block's payload, behind the block in the block list. */
    method CarveBlock(p: int, n: nat, ghost i: nat) returns (q: int)
      requires Words() && heads == HeadsOf(blocks, poolSize) && Chained() && Threaded() && Anchored()
      requires i + 1 < |blocks| && blocks[i].start == p && n + HEADER <= blocks[i].size
      modifies mem, this`heads, this`next, this`prev, this`nextFree, this`prevFree, this`used, this`blocks
      ensures Words() && heads == HeadsOf(blocks, poolSize) == old(heads) + {q} && Chained() && Threaded() && Anchored()
      ensures blocks == Carve(old(blocks), i, n) && q == p + HEADER + n && OnlyHeads(heads)
    {
      hide Chain, Ring, Words, HeadsOf, Spaced, OnlyHeads, Carve;
      CarveChain(blocks, i, n, next, prev, used, poolSize);
      ChainTiles();
      CarveHeads(blocks, i, n, poolSize);
      InHeads(blocks, i, poolSize);
      InHeads(blocks, i + 1, poolSize);
      AtBlock(i);
      MemorySize();
      q := p + HEADER + n;
      LinkNew(p, q);
      blocks := Carve(blocks, i, n);
      RingKept(order, poolSize, old(heads), old(nextFree), old(prevFree), nextFree, prevFree);
    }

    /** The header behind block i leaves the block list, and its space goes to block i. */
    method JoinNext(p: int, ghost i: nat)
      requires Words() && heads == HeadsOf(blocks, poolSize) && Chained() && i + 2 < |blocks| && blocks[i].start == p
      modifies mem, this`next, this`prev, this`blocks
      ensures Words() && Chained() && blocks == Join(old(blocks), i) && OnlyHeads(heads)
      ensures heads - {old(blocks)[i + 1].start} == HeadsOf(blocks, poolSize)
    {
      hide Chain, Words, HeadsOf, Spaced, Covered;
      JoinChain(blocks, i, next, prev, used, poolSize);
      ChainTiles();
      JoinHeads(blocks, i, poolSize);
      InHeads(blocks, i, poolSize);
      InHeads(blocks, i + 1, poolSize);
      InHeads(blocks, i + 2, poolSize);
      AtBlock(i + 1);
      At(p);
      var x := mem[p + 2];
      At(x);
      SetPrev(mem[x + 2], mem[x + 3]);
      At(x);
      SetNext(mem[x + 3], mem[x + 2]);
      blocks := Join(blocks, i);
      CoveredMore({p}, heads);
      CoveredMore({old(next)[x]}, heads);
    }

    method SetUsed(p: int, flag: bool, ghost i: nat)
      requires Words() && heads == HeadsOf(blocks, poolSize) && Chained() && i + 1 < |blocks| && blocks[i].start == p
      modifies mem, this`used, this`blocks
      ensures Words() && heads == HeadsOf(blocks, poolSize) && Chained() && blocks == Mark(old(blocks), i, flag)
              && OnlyHeads(heads)
    {
      hide Chain, Words, HeadsOf, Spaced;
      MarkChain(blocks, i, flag, next, prev, used, poolSize);
      MarkHeads(blocks, i, flag, poolSize);
      InHeads(blocks, i, poolSize);
      SetMagic(p, flag);
      blocks := Mark(blocks, i, flag);
      CoveredMore({p}, heads);
    }

    /** A header that is in neither list is no header any more. */
    ghost method Forget(x: int)
      requires Words()
      modifies this`heads
      ensures Words() && heads == old(heads) - {x}
    {
      heads := heads - {x};
    }

    lemma MemorySize()
      requires Words()
      ensures mem.Length == poolSize + HEADER
    {
    }

    /** Out of the free list. */
    method Unlist(x: int, ghost k: nat)
      requires Words() && Threaded() && poolSize in heads && (forall a :: a in order ==> a in heads) && k < |order|
               && order[k] == x
      modifies mem, this`nextFree, this`prevFree, this`order
      ensures Words() && Threaded() && order == Cut(old(order), k) == Without(old(order), x) && OnlyHeads(heads)
      ensures forall a :: a in order <==> a in old(order) && a != x
    {
      hide Words, Spaced, Ring, Covered, Cut;
      CutIsWithout(order, k, poolSize, nextFree, prevFree);
      UnlistRing(order, k, poolSize, nextFree, prevFree);
      At(x);
      ghost var after, before := nextFree[x], prevFree[x];
      SetPrevFree(mem[x + 4], mem[x + 5]);
      At(x);
      SetNextFree(mem[x + 5], mem[x + 4]);
      order := Cut(order, k);
      CoveredMore({after}, heads);
      CoveredMore({before}, heads);
    }

    /** To the front of the free list. */
    method Push(x: int)
      requires Words() && Threaded() && poolSize in heads && (forall a :: a in order ==> a in heads)
      requires x in heads && x !in order && x != poolSize
      modifies mem, this`nextFree, this`prevFree, this`order
      ensures Words() && Threaded() && order == [x] + old(order) && OnlyHeads(heads)
    {
      hide Words, Spaced, Ring, Covered;
      ghost var r := [poolSize] + order;
      HeadOfFree();
      LinksAt(r, 0, nextFree, prevFree);
      InsertKeepsRing(r, 0, x, nextFree, prevFree, nextFree[x := Succ(r, 0)][r[0] := x],
        prevFree[x := r[0]][Succ(r, 0) := x]);
      At(poolSize);
      SetNextFree(x, mem[poolSize + 4]);
      SetPrevFree(x, poolSize);
      At(poolSize);
      SetPrevFree(mem[poolSize + 4], x);
      SetNextFree(poolSize, x);
      order := [x] + order;
      assert [poolSize] + order == PutAfter(r, 0, x);
      CoveredMore({x}, heads);
      CoveredMore({poolSize}, heads);
      CoveredMore({Succ(r, 0)}, heads);
    }

    // ---------------------------------------------------------------- rt_memheap_alloc

    /** What the k-th entry of the free list is. */
    lemma AtFree(k: nat)
      requires heads == HeadsOf(blocks, poolSize) && Chained() && Threaded() && Agree() && k < |order|
      ensures exists i :: 0 <= i && i + 1 < |blocks| && blocks[i].start == order[k] && !blocks[i].used
      ensures order[k] in nextFree && nextFree[order[k]] == if k + 1 < |order| then order[k + 1] else poolSize
      ensures forall i :: 0 <= i < |blocks| && blocks[i].start == order[k] ==>
                !blocks[i].used && order[k] in next && next[order[k]] == After(blocks[i])
      ensures order[k] in heads && 0 <= order[k] < poolSize
    {
      hide Ring, Chain, HeadsOf;
      ChainTiles();
      var a := order[k];
      assert IsFree(blocks, a);
      var i :| 0 <= i < |blocks| && blocks[i].start == a && !blocks[i].used;
      AtBlock(i);
      InHeads(blocks, i, poolSize);
      StartsDistinct(blocks, 0, poolSize);
      var r := [poolSize] + order;
      LinksAt(r, k + 1, nextFree, prevFree);
    }

    /** Free blocks lie in the pool, so their entries are headers and none is the list header. */
    lemma Anchors()
      requires heads == HeadsOf(blocks, poolSize) && Chained() && forall a :: a in order ==> IsFree(blocks, a)
      ensures Anchored() && poolSize in heads && poolSize !in order
    {
      forall a | a in order
        ensures a in heads && a != poolSize
      {
        var i :| 0 <= i < |blocks| && blocks[i].start == a && !blocks[i].used;
        AtBlock(i);
        InHeads(blocks, i, poolSize);
      }
    }

    /** The search of rt_memheap_alloc: the first entry of the free list with n words. */
    method Find(n: nat) returns (p: int, freeSize: int, ghost k: nat)
      requires Valid() && n > 0
      ensures k <= |order| && p == (if k < |order| then order[k] else poolSize)
      ensures forall j :: 0 <= j < k ==> !Holds(blocks, order[j], n)
      ensures freeSize >= n <==> k < |order|
      ensures k < |order| ==> forall i :: 0 <= i < |blocks| && blocks[i].start == p ==> blocks[i].size == freeSize
    {
      hide Chain, Ring, Words, HeadsOf, NoTwoFree, IsFree, FreeWords;
      Anchors();
      HeadOfFree();
      At(poolSize);
      k, freeSize := 0, 0;
      p := mem[poolSize + 4];
      while p != poolSize && freeSize < n
        invariant k <= |order| && p == (if k < |order| then order[k] else poolSize)
        invariant forall j :: 0 <= j < k ==> !Holds(blocks, order[j], n)
        invariant freeSize >= n ==>
                    k < |order| && forall i :: 0 <= i < |blocks| && blocks[i].start == p ==> blocks[i].size == freeSize
        decreases |order| - k, n - freeSize
      {
        AtFree(k);
        At(p);
        freeSize := mem[p + 2] - p - HEADER;
        if freeSize < n {
          p := mem[p + 4];
          k := k + 1;
        }
      }
      if k < |order| {
        AtFree(k);
      }
    }

    lemma HeadOfFree()
      requires Threaded()
      ensures poolSize in nextFree && nextFree[poolSize] == if |order| > 0 then order[0] else poolSize
    {
      LinksAt([poolSize] + order, 0, nextFree, prevFree);
    }

    /** next_free and prev_free of a block that is not on the list. */
    method ClearLinks(p: int)
      requires Words() && Threaded() && p in heads && p !in order && p != poolSize
      modifies mem, this`nextFree, this`prevFree
      ensures Words() && Threaded() && OnlyHeads(heads)
    {
      hide Words, Spaced, Ring;
      ghost var r := [poolSize] + order;
      RingFrame(r, nextFree, prevFree, nextFree[p := NULL], prevFree[p := NULL]);
      SetNextFree(p, NULL);
      SetPrevFree(p, NULL);
      CoveredMore({p}, heads);
    }

    /** Out of the free list, with next_free and prev_free cleared. */
    method TakeOff(p: int, ghost k: nat)
      requires Words() && Threaded() && poolSize in heads && (forall a :: a in order ==> a in heads) && k < |order|
               && order[k] == p
      requires poolSize !in order
      modifies mem, this`nextFree, this`prevFree, this`order
      ensures Words() && Threaded() && order == Cut(old(order), k) == Without(old(order), p) && OnlyHeads(heads)
      ensures forall a :: a in order <==> a in old(order) && a != p
    {
      hide Words, Ring, Covered;
      Unlist(p, k);
      ClearLinks(p);
    }

    /** The found block is longer than needed by a header and some: the rest stays free. */
    method TakePart(p: int, n: nat, ghost i: nat, ghost k: nat)
      requires Valid() && k < |order| && order[k] == p && i + 1 < |blocks| && blocks[i].start == p && !blocks[i].used
      requires n + HEADER <= blocks[i].size
      modifies this, mem
      ensures Valid() && Allocated(old(blocks), blocks, Block(p, n, true))
              && blocks == Mark(Carve(old(blocks), i, n), i, true)
      ensures order == [p + HEADER + n] + Without(old(order), p) && OnlyHeads(old(heads) + heads)
      ensures maxUsed == Max(old(maxUsed), poolSize - available)
    {
      hide Chain, Ring, NoTwoFree, IsFree, FreeWords, Carve, Mark, Words, HeadsOf, Covered, Chained, Threaded, Tiling,
           Closed, OnlyIn;
      ghost var was := blocks;
      ChainTiles();
      Anchors();
      SplitOk(blocks, i, n, poolSize);
      CarveShape(blocks, i, n);
      InHeads(blocks, i, poolSize);
      AtBlock(i);
      var q := CarveBlock(p, n, i);
      ghost var m1, all := mem[..], heads;
      TakeOff(p, k);
      OnlyInThen(old(mem[..]), m1, mem[..], all, all, all);
      ghost var m2 := mem[..];
      AtBlock(i + 1);
      Push(q);
      OnlyInThen(old(mem[..]), m2, mem[..], all, all, all);
      ghost var m3 := mem[..];
      available := available - n - HEADER;
      if poolSize - available > maxUsed {
        maxUsed := poolSize - available;
      }
      SetUsed(p, true, i);
      OnlyInThen(old(mem[..]), m3, mem[..], all, all, old(heads) + heads);
    }

    lemma ChainTiles()
      requires Chained()
      ensures Tiling(blocks, 0, poolSize) && Closed(blocks)
      ensures forall i :: 0 <= i < |blocks| ==> blocks[i].start >= 0
    {
      forall i | 0 <= i < |blocks|
        ensures blocks[i].start >= 0
      {
        StartOf(blocks, i, 0, poolSize);
      }
    }

    /** The found block is used whole. */
    method TakeWhole(p: int, size: nat, ghost i: nat, ghost k: nat)
      requires Valid() && k < |order| && order[k] == p && i + 1 < |blocks| && blocks[i] == Block(p, size, false)
      modifies this, mem
      ensures Valid() && Allocated(old(blocks), blocks, Block(p, size, true)) && blocks == Mark(old(blocks), i, true)
      ensures order == Without(old(order), p) && OnlyHeads(old(heads) + heads)
      ensures maxUsed == Max(old(maxUsed), poolSize - available)
    {
      hide Chain, Ring, NoTwoFree, IsFree, FreeWords, Mark, Words, HeadsOf, Covered, Chained, Threaded, Tiling, Closed;
      ChainTiles();
      Anchors();
      WholeOk(blocks, i, poolSize);
      InHeads(blocks, i, poolSize);
      AtBlock(i);
      available := available - size;
      if poolSize - available > maxUsed {
        maxUsed := poolSize - available;
      }
      TakeOff(p, k);
      SetUsed(p, true, i);
      CoveredMore(heads, old(heads) + heads);
    }

    /** The found block is split or used whole. */
    method TakeFound(p: int, n: nat, freeSize: nat, ghost i: nat, ghost k: nat)
      requires Valid() && n > 0 && k < |order| && order[k] == p && i + 1 < |blocks|
      requires blocks[i] == Block(p, freeSize, false) && freeSize >= n && FirstFit(blocks, order, n, k)
      requires SharedFrom(blocks, p, n, Share(n, freeSize))
      modifies this, mem
      ensures Valid() && OnlyHeads(old(heads) + heads)
      ensures Served(old(blocks), old(order), blocks, n, p + HEADER)
      ensures ListedAfter(old(blocks), old(order), n, p + HEADER, order)
      ensures maxUsed == Max(old(maxUsed), poolSize - available)
    {
      hide Chain, Ring, NoTwoFree, IsFree, FreeWords, Carve, Mark, Words, HeadsOf, Used, Covered, Chained, Threaded,
           Tiling, Closed, ListedAfter, Served, SharedFrom, OnlyIn, Allocated;
      if freeSize >= n + HEADER + MINIALLOC {
        TakePart(p, n, i, k);
        ServedBy(old(blocks), old(order), blocks, n, k, n);
      } else {
        TakeWhole(p, freeSize, i, k);
        ServedBy(old(blocks), old(order), blocks, n, k, freeSize);
      }
      ListedBy(old(blocks), i, old(order), n, order);
    }

    /** Neither list nor the account has changed. */
    twostate predicate Unchanged()
      reads this
    {
      blocks == old(blocks) && order == old(order) && available == old(available) && maxUsed == old(maxUsed)
    }

    /** The locked region of rt_memheap_alloc: the first free block long enough, in the order of the free list. */
    method Take(n: nat) returns (ptr: int)
      requires Valid() && n > 0
      modifies this, mem
      ensures Valid() && Kept(old(mem[..]), mem[..], old(Used(blocks)))
      ensures ptr == NULL <==> NoneFits(old(blocks), old(order), n)
      ensures ptr == NULL ==> Unchanged()
      ensures ptr != NULL ==> Served(old(blocks), old(order), blocks, n, ptr)
      ensures ptr != NULL ==> ListedAfter(old(blocks), old(order), n, ptr, order)
      ensures maxUsed == Max(old(maxUsed), poolSize - available)
    {
      hide Chain, Ring, NoTwoFree, IsFree, FreeWords, Carve, Mark, Words, HeadsOf, Used, Kept, Covered, Chained,
           Threaded, Tiling, Closed, ListedAfter, Served;
      var p, freeSize, k := Find(n);
      if freeSize >= n {
        AtFree(k);
        ChainTiles();
        ghost var i :| 0 <= i && i + 1 < |blocks| && blocks[i].start == order[k] && !blocks[i].used;
        assert blocks[i].size == freeSize && FirstFit(blocks, order, n, k);
        assert SharedFrom(blocks, order[k], n, Share(n, freeSize));
        TakeFound(p, n, freeSize, i, k);
        ChainTiles();
        HeadsWritten(old(blocks));
        PayloadsKept(old(mem[..]), mem[..], old(blocks), blocks, poolSize);
        ServedMore(old(blocks), old(order), blocks, n, p + HEADER);
        AllocatedKeeps(old(mem[..]), mem[..], old(blocks), blocks);
        return p + HEADER;
      }
      NothingWritten(old(Used(blocks)));
      return NULL;
    }

    /** rt_memheap_alloc, which compares with available_size before it takes the lock: seen is what it read, and
        other calls may have changed the heap since. */
    method AllocSeen(bytes: word, seen: nat) returns (ptr: int)
      requires Valid()
      modifies this, mem
      ensures Valid() && Kept(old(mem[..]), mem[..], old(Used(blocks)))
      ensures ptr == NULL <==> Refused(old(blocks), old(order), seen, Rounded(bytes))
      ensures ptr == NULL ==> Unchanged()
      ensures ptr != NULL ==> Served(old(blocks), old(order), blocks, Rounded(bytes), ptr)
      ensures ptr != NULL ==> ListedAfter(old(blocks), old(order), Rounded(bytes), ptr, order)
      ensures maxUsed == Max(old(maxUsed), poolSize - available)
    {
      hide Chain, Ring, NoTwoFree, IsFree, FreeWords, Words, HeadsOf, Used, Kept, Served;
      var n := Rounded(bytes);
      if n < seen {
        ptr := Take(n);
      } else {
        NothingWritten(old(Used(blocks)));
        ptr := NULL;
      }
    }

    /** The same with nothing in between. */
    method Alloc(bytes: word) returns (ptr: int)
      requires Valid()
      modifies this, mem
      ensures Valid() && Kept(old(mem[..]), mem[..], old(Used(blocks)))
      ensures ptr == NULL <==> Refused(old(blocks), old(order), old(available), Rounded(bytes))
      ensures ptr == NULL ==> Unchanged()
      ensures ptr != NULL ==> Served(old(blocks), old(order), blocks, Rounded(bytes), ptr)
      ensures ptr != NULL ==> ListedAfter(old(blocks), old(order), Rounded(bytes), ptr, order)
      ensures maxUsed == Max(old(maxUsed), poolSize - available)
    {
      ptr := AllocSeen(bytes, available);
    }

    // ---------------------------------------------------------------- payloads

    twostate lemma HeadsWritten(was: seq<Block>)
      requires OnlyHeads(HeadsOf(was, poolSize) + HeadsOf(blocks, poolSize))
      ensures OnlyIn(old(mem[..]), mem[..], HeadsOf(was, poolSize) + HeadsOf(blocks, poolSize))
    {
    }

    twostate lemma NothingWritten(bs: set<Block>)
      requires forall x :: 0 <= x < mem.Length ==> mem[x] == old(mem[x])
      ensures Kept(old(mem[..]), mem[..], bs)
    {
    }

    // ---------------------------------------------------------------- rt_memheap_free

    /** Half way through freeing: block j, at h, is free and joined to the left; its right side is open, and
        it is on the free list only if listed. */
    ghost predicate Freeing(j: nat, h: int, listed: bool)
      reads this, mem
    {
      && Words() && heads == HeadsOf(blocks, poolSize)
      && Chained() && Threaded() && j + 1 < |blocks| && blocks[j].start == h && !blocks[j].used && SettledBut(blocks, j)
      && available == FreeWords(blocks) && poolSize - available <= maxUsed
      && forall a :: a in order <==> IsFree(blocks, a) && (a == h ==> listed)
    }

    /** The mark, the count, and the left neighbour. */
    method FreeLeft(p: int, ghost i: nat) returns (h: int, insert: bool, ghost j: nat)
      requires Valid() && i + 1 < |blocks| && blocks[i].start == p && blocks[i].used
      modifies this, mem
      ensures Freeing(j, h, !insert) && Used(blocks) == Used(old(blocks)) - {old(blocks)[i]} && maxUsed == old(maxUsed)
      ensures heads <= old(heads) && OnlyHeads(old(heads))
      ensures order == old(order) && (insert <==> !LeftFree(old(blocks), i)) && (insert ==> h == p)
      ensures blocks[j + 1] == old(blocks)[i + 1]
    {
      hide Chain, Ring, NoTwoFree, IsFree, FreeWords, Mark, Join, SettledBut, Words, HeadsOf, Covered, Chained,
           Threaded, Tiling, Closed, OnlyIn;
      ghost var was := blocks;
      ChainTiles();
      FreeOk(blocks, i, poolSize);
      AtBlock(i);
      InHeads(blocks, i, poolSize);
      MarkShape(blocks, i, false);
      SetUsed(p, false, i);
      ghost var m1 := mem[..];
      At(p);
      available := available + (mem[p + 2] - p - HEADER);
      h, insert, j := p, true, i;
      LeftNeighbour(i, was);
      At(mem[p + 3]);
      if !IsUsed(mem[mem[p + 3]]) {
        available := available + HEADER;
        MarkJoinSettles(was, i);
        JoinOk(blocks, i - 1, poolSize);
        h := mem[p + 3];
        JoinNext(h, i - 1);
        OnlyInThen(old(mem[..]), m1, mem[..], heads, heads, heads);
        Forget(p);
        insert, j := false, i - 1;
        JoinAt(Mark(was, i, false), j);
      }
    }

    /** The left neighbour in the ring: the tailer, which is used, for the first block. */
    lemma LeftNeighbour(i: nat, was: seq<Block>)
      requires Chained() && i + 1 < |blocks| && i < |was| == |blocks|
               && forall k :: 0 <= k < |was| && k != i ==> was[k] == blocks[k]
      ensures blocks[i].start in prev && prev[blocks[i].start] in used
      ensures !used[prev[blocks[i].start]] <==> i > 0 && !was[i - 1].used
      ensures i > 0 ==> prev[blocks[i].start] == blocks[i - 1].start
      ensures prev[blocks[i].start] in HeadsOf(blocks, poolSize)
    {
      AtBlock(i);
      AtBlock(if i > 0 then i - 1 else |blocks| - 1);
      InHeads(blocks, if i > 0 then i - 1 else |blocks| - 1, poolSize);
    }

    /** The right neighbour. */
    method FreeRight(h: int, ghost j: nat, ghost listed: bool)
      requires Freeing(j, h, listed)
      modifies this, mem
      ensures Words() && heads == HeadsOf(blocks, poolSize) && heads <= old(heads) && h in heads
              && OnlyHeads(old(heads))
      ensures Chained() && Threaded() && NoTwoFree(blocks) && available == FreeWords(blocks)
              && poolSize - available <= maxUsed
      ensures (forall a :: a in order <==> IsFree(blocks, a) && (a == h ==> listed)) && IsFree(blocks, h)
              && 0 <= h < poolSize
      ensures Used(blocks) == Used(old(blocks)) && maxUsed == old(maxUsed)
      ensures order == Without(old(order), old(blocks)[j + 1].start)
    {
      hide Chain, Ring, NoTwoFree, IsFree, FreeWords, Join, SettledBut, Words, HeadsOf, Covered, Chained, Threaded,
           Tiling, Closed;
      ghost var was := blocks;
      ChainTiles();
      Anchors();
      AtBlock(j);
      AtBlock(j + 1);
      InHeads(blocks, j, poolSize);
      InHeads(blocks, j + 1, poolSize);
      FreeIs(blocks, j);
      At(h);
      At(mem[h + 2]);
      if !IsUsed(mem[mem[h + 2]]) {
        available := available + HEADER;
        TailIsUsed(j);
        JoinOk(blocks, j, poolSize);
        JoinSettles(blocks, j);
        var x := mem[h + 2];
        JoinNext(h, j);
        FreeIs(blocks, j);
        assert x in order;
        ghost var k :| 0 <= k < |order| && order[k] == x;
        Unlist(x, k);
        Forget(x);
      } else {
        RightUsed(blocks, j);
        UsedIsNotFree(blocks, j + 1, poolSize);
        WithoutAbsent(order, blocks[j + 1].start);
      }
    }

    /** What rt_memheap_free asserts of the block and the one behind it. */
    lemma Headers(i: nat)
      requires Words() && heads == HeadsOf(blocks, poolSize) && Chained() && i + 1 < |blocks| && blocks[i].used
      ensures var p := blocks[i].start;
              && 0 <= p && p + 2 < mem.Length && mem[p] == Magic(true) && mem[p + 1] == POOL
              && 0 <= mem[p + 2] < mem.Length && (mem[mem[p + 2]] == Magic(true) || mem[mem[p + 2]] == Magic(false))
    {
      AtBlock(i);
      AtBlock(i + 1);
      InHeads(blocks, i, poolSize);
      InHeads(blocks, i + 1, poolSize);
      At(blocks[i].start);
      At(blocks[i + 1].start);
    }

    /** rt_memheap_free of a block in use. */
    method Free(ptr: int)
      requires Valid()
      requires ptr == NULL ||
                 exists i :: 0 <= i && i + 1 < |blocks| && blocks[i].start == ptr - HEADER && blocks[i].used
      modifies this, mem
      ensures Valid() && maxUsed == old(maxUsed)
      ensures Used(blocks) == Others(old(blocks), ptr) && Kept(old(mem[..]), mem[..], Used(blocks))
      ensures ptr == NULL ==> available == old(available) && order == old(order)
      ensures ptr != NULL ==> GivenBack(old(blocks), ptr, old(available), available, old(order), order)
    {
      hide Chain, Ring, NoTwoFree, IsFree, FreeWords, SettledBut, Words, HeadsOf, Used, Kept, Covered, Chained,
           Threaded, Tiling, Closed, OnlyIn, GivenBack;
      ChainTiles();
      if ptr == NULL {
        NothingWritten(Used(blocks));
        NoneAt(blocks, ptr);
        return;
      }
      var p := ptr - HEADER;
      ghost var i :| 0 <= i && i + 1 < |blocks| && blocks[i].start == p && blocks[i].used;
      Headers(i);
      assert mem[p] == Magic(true) && mem[p + 1] == POOL;
      assert mem[mem[p + 2]] == Magic(true) || mem[mem[p + 2]] == Magic(false);
      OneAt(blocks, i, poolSize);
      var h, insert, j := FreeLeft(p, i);
      ghost var m1, mid := mem[..], heads;
      FreeRight(h, j, !insert);
      OnlyInThen(old(mem[..]), m1, mem[..], old(heads), mid, old(heads));
      ghost var m2 := mem[..];
      if insert {
        Anchors();
        Push(h);
        OnlyInThen(old(mem[..]), m2, mem[..], old(heads), heads, old(heads));
      }
      ChainTiles();
      FewerHeads(old(heads), heads);
      HeadsWritten(old(blocks));
      PayloadsKept(old(mem[..]), mem[..], old(blocks), blocks, poolSize);
      FewerKept(old(mem[..]), mem[..], Used(old(blocks)), Used(blocks));
      FreeGivesBack(old(blocks), i, blocks, ptr, old(order), order, poolSize);
    }

    // ---------------------------------------------------------------- rt_memheap_realloc

    /** The free block behind block i leaves both lists, and its space goes to block i. */
    method Swallow(p: int, x: int, ghost i: nat, ghost k: nat)
      requires Words() && heads == HeadsOf(blocks, poolSize) && Chained() && Threaded() && Anchored()
      requires i + 2 < |blocks| && blocks[i].start == p && blocks[i + 1].start == x && k < |order| && order[k] == x
      modifies mem, this`heads, this`next, this`prev, this`nextFree, this`prevFree, this`blocks, this`order
      ensures Words() && heads == HeadsOf(blocks, poolSize) == old(heads) - {x} && Chained() && Threaded() && Anchored()
      ensures blocks == Join(old(blocks), i) && OnlyHeads(old(heads))
              && order == Without(old(order), x) && forall a :: a in order <==> a in old(order) && a != x
    {
      hide Chain, Ring, Words, HeadsOf, Join, Covered;
      InHeads(blocks, i, poolSize);
      Unlist(x, k);
      JoinNext(p, i);
      Forget(x);
    }

    /** The free block behind block i goes, and a new header cuts block i to n words; it is not listed yet. */
    method Respace(p: int, x: int, n: nat, ghost i: nat, ghost k: nat) returns (q: int)
      requires Words() && heads == HeadsOf(blocks, poolSize) && Chained() && Threaded() && Anchored()
      requires i + 2 < |blocks| && blocks[i].start == p && blocks[i + 1].start == x && k < |order| && order[k] == x
      requires n + HEADER <= blocks[i].size + HEADER + blocks[i + 1].size
      modifies mem, this`heads, this`next, this`prev, this`nextFree, this`prevFree, this`used, this`blocks, this`order
      ensures Words() && heads == HeadsOf(blocks, poolSize) && Chained() && Threaded() && Anchored()
              && OnlyHeads(old(heads) + heads)
      ensures blocks == Carve(Join(old(blocks), i), i, n) && q == p + HEADER + n
      ensures i + 1 < |blocks| && blocks[i] == old(blocks)[i].(size := n) && blocks[i + 1].start == q
      ensures order == Without(old(order), x) && forall a :: a in order <==> a in old(order) && a != x
    {
      hide Chain, Ring, Words, HeadsOf, Join, Carve, Covered, Chained, Threaded, OnlyIn;
      ghost var was := blocks;
      JoinSize(was, i);
      Swallow(p, x, i, k);
      ghost var m1 := mem[..];
      q := CarveBlock(p, n, i);
      CarveShape(Join(was, i), i, n);
      OnlyInThen(old(mem[..]), m1, mem[..], old(heads), heads, old(heads) + heads);
    }

    /** Growth into the free block behind, whose rest becomes a new free block. */
    method GrowInto(p: int, n: nat, ghost i: nat)
      requires Valid() && i + 2 < |blocks| && blocks[i].start == p && blocks[i].used && !blocks[i + 1].used
      requires blocks[i].size < n && n + MINIALLOC < blocks[i].size + blocks[i + 1].size
      modifies this, mem
      ensures Valid() && Used(blocks) == Used(old(blocks)) - {old(blocks)[i]} + {Block(p, n, true)}
      ensures i < |blocks| && blocks[i] == Block(p, n, true) && OnlyHeads(old(heads) + heads)
      ensures order == [p + HEADER + n] + Without(old(order), old(blocks)[i + 1].start)
      ensures maxUsed == Max(old(maxUsed), poolSize - available)
    {
      hide Chain, Ring, NoTwoFree, IsFree, FreeWords, SettledBut, Join, Carve, Used, Words, HeadsOf, Covered, Chained,
           Threaded, Tiling, Closed, OnlyIn;
      ghost var was := blocks;
      ChainTiles();
      Anchors();
      GrowOk(blocks, i, n, poolSize);
      StartOf(blocks, i, 0, poolSize);
      AtBlock(i);
      AtBlock(i + 1);
      InHeads(blocks, i, poolSize);
      InHeads(blocks, i + 1, poolSize);
      At(p);
      var o := mem[p + 2] - p - HEADER;
      available := available - (n - o);
      if poolSize - available > maxUsed {
        maxUsed := poolSize - available;
      }
      var x := mem[p + 2];
      assert x in order;
      ghost var k :| 0 <= k < |order| && order[k] == x;
      var q := Respace(p, x, n, i, k);
      ghost var m1, all := mem[..], old(heads) + heads;
      AtBlock(i + 1);
      InHeads(blocks, i + 1, poolSize);
      Push(q);
      OnlyInThen(old(mem[..]), m1, mem[..], all, heads, all);
    }

    method Grow(p: int, n: nat, ghost i: nat)
      requires Valid() && i + 2 < |blocks| && blocks[i].start == p && blocks[i].used && !blocks[i + 1].used
      requires blocks[i].size < n && n + MINIALLOC < blocks[i].size + blocks[i + 1].size
      modifies this, mem
      ensures Valid() && Used(blocks) == Used(old(blocks)) - {old(blocks)[i]} + {Block(p, n, true)}
      ensures Kept(old(mem[..]), mem[..], Used(old(blocks)) - {old(blocks)[i]})
              && SameFrom(old(mem[..]), mem[..], p + HEADER, old(blocks)[i].size)
      ensures available == old(available) - (n - old(blocks)[i].size)
      ensures order == [p + HEADER + n] + Without(old(order), old(blocks)[i + 1].start)
      ensures maxUsed == Max(old(maxUsed), poolSize - available)
    {
      hide Chain, Ring, NoTwoFree, IsFree, FreeWords, Used, Words, HeadsOf, Kept, Chained, Threaded, Tiling, Closed;
      ghost var was := blocks;
      ChainTiles();
      GrowInto(p, n, i);
      ChainTiles();
      HeadsWritten(was);
      PayloadsKept(old(mem[..]), mem[..], was, blocks, poolSize);
      PartKept(old(mem[..]), mem[..], was, blocks, i, i, was[i].size, poolSize);
      ReplacedKept(old(mem[..]), mem[..], Used(was), was[i], Block(p, n, true));
      GrownWords(was, i, n, blocks, poolSize);
    }

    /** The tail of a block in use becomes free, together with the free block behind it if there is one. */
    method CutTail(p: int, n: nat, ghost i: nat)
      requires Valid() && i + 1 < |blocks| && blocks[i].start == p && blocks[i].used && n + HEADER <= blocks[i].size
      modifies this, mem
      ensures Valid() && Used(blocks) == Used(old(blocks)) - {old(blocks)[i]} + {Block(p, n, true)}
      ensures i < |blocks| && blocks[i] == Block(p, n, true) && OnlyHeads(old(heads) + heads)
      ensures order == [p + HEADER + n] + Without(old(order), old(blocks)[i + 1].start)
      ensures maxUsed == old(maxUsed)
    {
      hide Chain, Ring, NoTwoFree, IsFree, FreeWords, SettledBut, Join, Carve, Used, Words, HeadsOf, Covered, Chained,
           Threaded, Tiling, Closed, OnlyIn;
      ChainTiles();
      Anchors();
      CutOk(blocks, i, n, poolSize);
      var q := CarveBlock(p, n, i);
      ghost var m1, all := mem[..], heads;
      CutRight(q, i + 1);
      OnlyInThen(old(mem[..]), m1, mem[..], all, all, all);
      ghost var m2 := mem[..];
      InHeads(blocks, i + 1, poolSize);
      Anchors2(q);
      Push(q);
      AtNext(i + 1);
      available := available + (mem[q + 2] - q - HEADER);
      OnlyInThen(old(mem[..]), m2, mem[..], all, heads, old(heads) + heads);
    }

    method Shrink(p: int, n: nat, ghost i: nat)
      requires Valid() && i + 1 < |blocks| && blocks[i].start == p && blocks[i].used && n + HEADER <= blocks[i].size
      modifies this, mem
      ensures Valid() && Used(blocks) == Used(old(blocks)) - {old(blocks)[i]} + {Block(p, n, true)}
      ensures Kept(old(mem[..]), mem[..], Used(old(blocks)) - {old(blocks)[i]})
              && SameFrom(old(mem[..]), mem[..], p + HEADER, n)
      ensures available == old(available) + (old(blocks)[i].size - n) - HeaderIf(old(blocks)[i + 1].used)
      ensures order == [p + HEADER + n] + Without(old(order), old(blocks)[i + 1].start)
      ensures maxUsed == old(maxUsed)
    {
      hide Chain, Ring, NoTwoFree, IsFree, FreeWords, Used, Words, HeadsOf, Kept;
      ghost var was := blocks;
      ChainTiles();
      CutTail(p, n, i);
      ChainTiles();
      HeadsWritten(was);
      ShrinkKept(old(mem[..]), mem[..], was, blocks, i, n, poolSize);
      CutWords(was, i, n, blocks, poolSize);
    }

    lemma Anchors2(q: int)
      requires heads == HeadsOf(blocks, poolSize) && Chained()
               && forall a :: a in order <==> IsFree(blocks, a) && a != q
      ensures Anchored() && poolSize in heads && poolSize !in order
    {
      Anchors();
    }

    /** The cut-off block, not yet listed nor counted, takes over the free block behind it. */
    method CutRight(q: int, ghost j: nat)
      requires Words() && heads == HeadsOf(blocks, poolSize)
      requires Chained() && Threaded() && j + 1 < |blocks| && blocks[j].start == q && !blocks[j].used
               && SettledBut(blocks, j)
      requires available == FreeWords(blocks) - blocks[j].size && poolSize - maxUsed <= available
      requires forall a :: a in order <==> IsFree(blocks, a) && a != q
      modifies this, mem
      ensures Words() && heads == HeadsOf(blocks, poolSize) && heads <= old(heads) && OnlyHeads(old(heads))
      ensures Chained() && Threaded() && j + 1 < |blocks| && blocks[j].start == q && !blocks[j].used
              && NoTwoFree(blocks)
      ensures available == FreeWords(blocks) - blocks[j].size && blocks[j].size >= old(blocks)[j].size
      ensures poolSize - maxUsed <= available + blocks[j].size && forall k :: 0 <= k < j ==> blocks[k] == old(blocks)[k]
      ensures forall a :: a in order <==> IsFree(blocks, a) && a != q
      ensures Used(blocks) == Used(old(blocks)) && maxUsed == old(maxUsed) && IsFree(blocks, q) && 0 <= q < poolSize
      ensures order == Without(old(order), old(blocks)[j + 1].start)
    {
      hide Chain, Ring, NoTwoFree, IsFree, FreeWords, SettledBut, Join, Used, Words, HeadsOf, Covered, Chained,
           Threaded, Tiling, Closed;
      ghost var cut := blocks;
      ChainTiles();
      Anchors2(q);
      AtBlock(j);
      AtBlock(j + 1);
      InHeads(blocks, j, poolSize);
      InHeads(blocks, j + 1, poolSize);
      FreeIs(blocks, j);
      At(q);
      At(mem[q + 2]);
      if !IsUsed(mem[mem[q + 2]]) {
        var x := mem[q + 2];
        TailIsUsed(j);
        available := available - (mem[x + 2] - x - HEADER);
        JoinOk(blocks, j, poolSize);
        JoinSettles(blocks, j);
        JoinNext(q, j);
        assert x in order;
        ghost var k :| 0 <= k < |order| && order[k] == x;
        Unlist(x, k);
        Forget(x);
        JoinSize(cut, j);
        FreeIs(blocks, j);
      } else {
        RightUsed(blocks, j);
        UsedIsNotFree(blocks, j + 1, poolSize);
        WithoutAbsent(order, blocks[j + 1].start);
      }
    }

    /** Allocate elsewhere, copy, free. */
    method Move(ptr: int, n: nat, ghost i: nat) returns (r: int)
      requires Valid() && i + 1 < |blocks| && blocks[i].start + HEADER == ptr && blocks[i].used && blocks[i].size <= n
      requires 4 * n < WORD_RANGE && Rounded(4 * n) == n
      modifies this, mem
      ensures Valid() && r != ptr
      ensures r == NULL <==> Refused(old(blocks), old(order), old(available), n)
      ensures r == NULL ==> Unchanged() && Kept(old(mem[..]), mem[..], Used(old(blocks)))
      ensures r != NULL ==> Peaked(old(blocks), old(order), n, r, old(maxUsed), maxUsed, poolSize)
      ensures r != NULL ==> Exchanged(old(blocks), blocks, ptr, r, n)
                            && Kept(old(mem[..]), mem[..], Used(old(blocks)) - {old(blocks)[i]})
                              && CopiedTo(old(mem[..]), mem[..], r, ptr, old(blocks)[i].size)
    {
      hide Chain, Ring, NoTwoFree, IsFree, FreeWords, SettledBut, Rounded, Served, Exchanged, Used, Kept, Words,
           HeadsOf, Chained, Threaded, Tiling, Closed;
      ghost var was := blocks;
      ChainTiles();
      MemorySize();
      AtBlock(i);
      InHeads(blocks, i, poolSize);
      At(ptr - HEADER);
      var oldSize := mem[ptr - HEADER + 2] - (ptr - HEADER) - HEADER;
      r := Alloc(4 * n);
      if r != NULL {
        ChainTiles();
        MidMove(was, old(order), blocks, n, r, i, poolSize);
        ghost var c := ServedBlock(was, old(order), blocks, n, r, i, poolSize);
        ghost var mid := blocks;
        ghost var m1 := mem[..];
        CopyWords(r, ptr, oldSize, c, was[i]);
        ghost var m2 := mem[..];
        Free(ptr);
        MovedWords(old(mem[..]), m1, m2, mem[..], was, mid, c, i, Used(blocks), poolSize);
      }
    }

    /** A word of a payload is written; no header feels it. */
    method WritePayload(x: int, v: int)
      requires Words() && 0 <= x < mem.Length && !Covered(heads, x)
      modifies mem
      ensures Words() && mem[..] == old(mem[..])[x := v]
    {
      forall p | p in heads
        ensures x < p || p + HEADER <= x
      {
      }
      mem[x] := v;
    }

    /** rt_memcpy of the payload of b to the start of the payload of c. */
    method CopyWords(to: int, from: int, count: nat, ghost c: Block, ghost b: Block)
      requires Words() && heads == HeadsOf(blocks, poolSize) && Tiling(blocks, 0, poolSize) && c in blocks
               && b in blocks
      requires c.start != b.start && to == c.start + HEADER && from == b.start + HEADER && count == b.size <= c.size
      modifies mem
      ensures Words() && CopiedOver(old(mem[..]), mem[..], to, from, count)
    {
      hide Words, HeadsOf, Covered, Tiling, CopiedOver;
      PayloadInside(blocks, b, poolSize);
      PayloadInside(blocks, c, poolSize);
      PayloadsApart(blocks, b, c, poolSize);
      MemorySize();
      var k := 0;
      CopiedNone(mem[..], to, from);
      while k < count
        invariant k <= count && Words() && CopiedOver(old(mem[..]), mem[..], to, from, k)
      {
        ghost var m1 := mem[..];
        WritePayload(to + k, mem[from + k]);
        CopiedOneMore(old(mem[..]), m1, mem[..], to, from, k);
        k := k + 1;
      }
    }

    /** rt_memheap_realloc. */
    method Realloc(ptr: int, bytes: word) returns (r: int)
      requires Valid()
      requires ptr == NULL ||
                 exists i :: 0 <= i && i + 1 < |blocks| && blocks[i].start == ptr - HEADER && blocks[i].used
      modifies this, mem
      ensures Valid()
      ensures bytes == 0 ==> r == NULL && Used(blocks) == Others(old(blocks), ptr) && maxUsed == old(maxUsed)
      ensures bytes > 0 && r == NULL ==> Unchanged() && Kept(old(mem[..]), mem[..], Used(old(blocks)))
      ensures r != NULL && (ptr == NULL || r == ptr) ==> maxUsed == Max(old(maxUsed), poolSize - available)
      ensures r != NULL && ptr != NULL && r != ptr ==>
                Peaked(old(blocks), old(order), Rounded(bytes), r, old(maxUsed), maxUsed, poolSize)
      ensures r != NULL ==> Exchanged(old(blocks), blocks, ptr, r, Rounded(bytes))
      ensures Kept(old(mem[..]), mem[..], Others(old(blocks), ptr))
      ensures bytes > 0 ==> forall b :: b in Used(old(blocks)) && b.start + HEADER == ptr ==>
                (exists i :: 0 <= i < |old(blocks)| && old(blocks)[i] == b
                   && Placed(old(blocks), old(order), old(available), i, Rounded(bytes), ptr, r)
                   && (r == ptr ==> ResizedHere(old(blocks), i, Rounded(bytes), blocks, old(available), available,
                     old(order), order)))
                && (r != NULL ==> CopiedTo(old(mem[..]), mem[..], r, ptr,
                  if b.size < Rounded(bytes) then b.size else Rounded(bytes)))
    {
      hide Chain, Ring, NoTwoFree, IsFree, FreeWords, SettledBut, Rounded, Served, Exchanged, Words, HeadsOf, Used,
           Kept, CopiedTo, OnlyHeads, Others;
      ghost var was := blocks;
      ChainTiles();
      if bytes == 0 {
        Free(ptr);
        return NULL;
      }
      var n := Rounded(bytes);
      RoundedTwice(bytes);
      if ptr == NULL {
        NoneAt(was, ptr);
        r := Alloc(4 * n);
        if r != NULL {
          ServedGrants(was, old(order), blocks, n, r, NULL);
        }
        return;
      }
      ghost var i :| 0 <= i && i + 1 < |blocks| && blocks[i].start == ptr - HEADER && blocks[i].used;
      OneAt(blocks, i, poolSize);
      OnlyOne(blocks, i, poolSize);
      r := Resize(ptr, n, i);
    }

    /** rt_memheap_realloc of the i-th block to n words. */
    method Resize(ptr: int, n: nat, ghost i: nat) returns (r: int)
      requires Valid() && i + 1 < |blocks| && blocks[i].start + HEADER == ptr && blocks[i].used
      requires n >= MINIALLOC && 4 * n < WORD_RANGE && Rounded(4 * n) == n
      modifies this, mem
      ensures Valid()
      ensures Placed(old(blocks), old(order), old(available), i, n, ptr, r)
      ensures r == ptr ==> ResizedHere(old(blocks), i, n, blocks, old(available), available, old(order), order)
      ensures r == NULL ==> Unchanged() && Kept(old(mem[..]), mem[..], Used(old(blocks)))
      ensures r == ptr ==> maxUsed == Max(old(maxUsed), poolSize - available)
      ensures r != NULL && r != ptr ==> Peaked(old(blocks), old(order), n, r, old(maxUsed), maxUsed, poolSize)
      ensures Kept(old(mem[..]), mem[..], Used(old(blocks)) - {old(blocks)[i]})
      ensures r != NULL ==> Exchanged(old(blocks), blocks, ptr, r, n)
      ensures r != NULL ==> CopiedTo(old(mem[..]), mem[..], r, ptr,
              if old(blocks)[i].size < n then old(blocks)[i].size else n)
    {
      hide Chain, Ring, NoTwoFree, IsFree, FreeWords, SettledBut, Rounded, Served, Exchanged, Words, HeadsOf, Used,
           Kept, CopiedTo, OnlyHeads, ResizedHere;
      ghost var was := blocks;
      ChainTiles();
      var p := ptr - HEADER;
      AtBlock(i);
      AtBlock(i + 1);
      InHeads(blocks, i, poolSize);
      InHeads(blocks, i + 1, poolSize);
      TailIsUsed(i);
      MemorySize();
      OneAt(was, i, poolSize);
      At(p);
      var o := mem[p + 2] - p - HEADER;
      if n > o {
        var x := mem[p + 2];
        At(x);
        assert x > p;
        if !IsUsed(mem[x]) {
          var f := mem[x + 2] - x - HEADER;
          AtNext(i + 1);
          if f + o > n + MINIALLOC {
            Grow(p, n, i);
            InPlace(was, blocks, i, n, n, poolSize);
            GrownHere(was, i, n, blocks, old(available), available, old(order), order);
            SameIsCopied(old(mem[..]), mem[..], ptr, was[i].size);
            return ptr;
          }
        }
        r := Move(ptr, n, i);
        if r == NULL {
          KeptFewer(old(mem[..]), mem[..], Used(was), was[i]);
        }
        return;
      }
      if n + HEADER + MINIALLOC >= o {
        InPlace(was, blocks, i, n, o, poolSize);
        KeptHere(was, i, n, available, order);
        NothingWritten(Used(was) - {was[i]});
        SameIsCopied(old(mem[..]), mem[..], ptr, n);
        return ptr;
      }
      Shrink(p, n, i);
      InPlace(was, blocks, i, n, n, poolSize);
      CutHere(was, i, n, blocks, old(available), available, old(order), order);
      SameIsCopied(old(mem[..]), mem[..], ptr, n);
      return ptr;
    }

    lemma AtNext(i: nat)
      requires Words() && heads == HeadsOf(blocks, poolSize) && Chained() && i + 1 < |blocks|
      ensures 0 <= blocks[i].start && blocks[i].start + 2 < mem.Length && mem[blocks[i].start + 2] == After(blocks[i])
    {
      AtBlock(i);
      InHeads(blocks, i, poolSize);
      At(blocks[i].start);
    }

    lemma TailIsUsed(i: nat)
      requires Chained() && i + 1 < |blocks|
      ensures !blocks[i + 1].used ==> i + 2 < |blocks|
    {
    }
  }
}
