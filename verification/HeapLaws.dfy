/** What the heap operations of module HeapModel keep, and what they do to the handed-out regions. */
module HeapLaws {
  import opened HeapModel
  import opened Numbers

  // ---------------------------------------------------------------- words

  lemma {:induction false} WordsConcat(a: seq<Block>, b: seq<Block>, end: nat)
    ensures UsedWords(a + b, end) == UsedWords(a, StartOf(b, end)) + UsedWords(b, end)
  {
    if a == [] {
      assert a + b == b;
    } else {
      assert (a + b)[1..] == a[1..] + b;
      WordsConcat(a[1..], b, end);
    }
  }

  /** used_mem and the free extents always add up to the offset of heap_end. */
  lemma {:induction false} UsedPlusFree(bs: seq<Block>, end: nat)
    ensures UsedWords(bs, end) + FreeWords(bs, end) == end - StartOf(bs, end)
  {
    if bs != [] {
      UsedPlusFree(bs[1..], end);
    }
  }

  // ---------------------------------------------------------------- addresses

  lemma {:induction false} Ascending(bs: seq<Block>, end: nat, i: nat, j: nat)
    requires Tiling(bs, end) && i < j < |bs|
    ensures NextAt(bs, end, i) <= bs[j].at && bs[i].at + HDR <= bs[j].at
    decreases j - i
  {
    if i + 1 < j {
      Ascending(bs, end, i + 1, j);
    }
  }

  lemma {:induction false} BelowEnd(bs: seq<Block>, end: nat, i: nat)
    requires Tiling(bs, end) && i < |bs|
    ensures bs[i].at + HDR <= NextAt(bs, end, i) <= end
  {
    assert NextAt(bs, end, |bs| - 1) == end;
    if i + 1 < |bs| {
      Ascending(bs, end, i, |bs| - 1);
    }
  }

  lemma SameAddress(bs: seq<Block>, end: nat, i: nat, j: nat)
    requires Tiling(bs, end) && i < |bs| && j < |bs| && bs[i].at == bs[j].at
    ensures i == j
  {
    if i < j {
      Ascending(bs, end, i, j);
    } else if j < i {
      Ascending(bs, end, j, i);
    }
  }

  lemma IndexFound(bs: seq<Block>, end: nat, i: nat)
    requires Tiling(bs, end) && i < |bs|
    ensures IndexFrom(bs, bs[i].at, 0) == i
  {
    var k := IndexFrom(bs, bs[i].at, 0);
    if k < i {
      Ascending(bs, end, k, i);
    } else if i < k {
      assert false;
    }
  }

  /** The payload of a used block meets neither a header nor another payload, nor heap_end. */
  lemma PayloadsApart(bs: seq<Block>, end: nat, i: nat, j: nat)
    requires Tiling(bs, end) && i < |bs| && j < |bs| && i != j
    ensures NextAt(bs, end, i) <= bs[j].at || NextAt(bs, end, j) <= bs[i].at
    ensures NextAt(bs, end, i) <= end
  {
    BelowEnd(bs, end, i);
    if i < j {
      Ascending(bs, end, i, j);
    } else {
      Ascending(bs, end, j, i);
    }
  }

  // ---------------------------------------------------------------- one replacement at a time

  /** Replacing block i by one block at the same address. */
  lemma Retag(bs: seq<Block>, end: nat, i: nat, used: bool)
    requires Tiling(bs, end) && i < |bs|
    ensures var t := bs[..i] + [Block(bs[i].at, used)] + bs[i + 1..];
            && Tiling(t, end)
            && UsedWords(t, end) == UsedWords(bs, end)
                 + (if used then NextAt(bs, end, i) - bs[i].at else 0)
                 - (if bs[i].used then NextAt(bs, end, i) - bs[i].at else 0)
  {
    var pre, post := bs[..i], bs[i + 1..];
    var t := pre + [Block(bs[i].at, used)] + post;
    assert bs == pre + [bs[i]] + post;
    WordsConcat(pre + [bs[i]], post, end);
    WordsConcat(pre, [bs[i]], StartOf(post, end));
    WordsConcat(pre + [Block(bs[i].at, used)], post, end);
    WordsConcat(pre, [Block(bs[i].at, used)], StartOf(post, end));
    assert StartOf(post, end) == NextAt(bs, end, i);
    forall k | 0 <= k < |t|
      ensures t[k].at == bs[k].at && NextAt(t, end, k) == NextAt(bs, end, k)
    {
    }
  }

  lemma SplitShape(bs: seq<Block>, end: nat, i: nat, n: nat)
    requires Tiling(bs, end) && i < |bs| && Payload(bs, end, i) >= n + HDR
    ensures var t := Split(bs, i, n);
            && |t| == |bs| + 1
            && Tiling(t, end)
            && NextAt(t, end, i) == bs[i].at + HDR + n == t[i + 1].at
            && NextAt(t, end, i + 1) == NextAt(bs, end, i)
            && (forall k :: 0 <= k < i ==> t[k] == bs[k])
            && (forall k :: i < k < |bs| ==> t[k + 1] == bs[k])
            && (forall k {:trigger NextAt(t, end, k)} {:trigger NextAt(bs, end, k)} ::
                  0 <= k < i ==> NextAt(t, end, k) == NextAt(bs, end, k))
            && (forall k {:trigger NextAt(bs, end, k)} ::
                  i < k < |bs| ==> NextAt(t, end, k + 1) == NextAt(bs, end, k))
  {
    var t := Split(bs, i, n);
    assert forall k :: 0 <= k < i ==> t[k] == bs[k];
    assert forall k :: i < k < |bs| ==> t[k + 1] == bs[k];
    forall k | 0 <= k < |t|
      ensures t[k].at + HDR <= NextAt(t, end, k)
    {
      if k > i + 1 {
        assert t[k] == bs[k - 1] && NextAt(t, end, k) == NextAt(bs, end, k - 1);
      } else if k < i {
        assert NextAt(t, end, k) == NextAt(bs, end, k);
      }
    }
  }

  lemma SplitWords(bs: seq<Block>, end: nat, i: nat, n: nat)
    requires i < |bs|
    ensures UsedWords(Split(bs, i, n), end) == UsedWords(bs, end) + HDR + n
              - (if bs[i].used then NextAt(bs, end, i) - bs[i].at else 0)
  {
    var pre, post := bs[..i], bs[i + 1..];
    var mid := [Block(bs[i].at, true), Block(bs[i].at + HDR + n, false)];
    assert bs == pre + [bs[i]] + post;
    assert Split(bs, i, n) == pre + mid + post;
    WordsConcat(pre + [bs[i]], post, end);
    WordsConcat(pre, [bs[i]], StartOf(post, end));
    WordsConcat(pre + mid, post, end);
    WordsConcat(pre, mid, StartOf(post, end));
    assert mid[1..] == [mid[1]];
    assert mid[1..][1..] == [];
    assert UsedWords(mid[1..], StartOf(post, end)) == 0;
  }

  /** Dropping the header of a free block behind a free block, as plug_holes does. */
  lemma DropShape(bs: seq<Block>, end: nat, k: nat)
    requires Tiling(bs, end) && 0 < k < |bs| && !bs[k - 1].used && !bs[k].used
    ensures var t := Drop(bs, k);
            && |t| == |bs| - 1
            && Tiling(t, end)
            && NextAt(t, end, k - 1) == NextAt(bs, end, k)
            && (forall j :: 0 <= j < k ==> t[j] == bs[j])
            && (forall j :: k < j < |bs| ==> t[j - 1] == bs[j])
            && (forall j {:trigger NextAt(t, end, j)} {:trigger NextAt(bs, end, j)} ::
                  0 <= j < k - 1 ==> NextAt(t, end, j) == NextAt(bs, end, j))
            && (forall j {:trigger NextAt(bs, end, j)} ::
                  k < j < |bs| ==> NextAt(t, end, j - 1) == NextAt(bs, end, j))
  {
    var t := Drop(bs, k);
    assert forall j :: 0 <= j < k ==> t[j] == bs[j];
    assert forall j :: k < j < |bs| ==> t[j - 1] == bs[j];
    forall j | 0 <= j < |t|
      ensures t[j].at + HDR <= NextAt(t, end, j)
    {
      if j >= k {
        assert t[j] == bs[j + 1] && NextAt(t, end, j) == NextAt(bs, end, j + 1);
      } else if j == k - 1 {
        assert NextAt(t, end, j) == NextAt(bs, end, k) && bs[j].at + HDR <= NextAt(bs, end, j);
      } else {
        assert NextAt(t, end, j) == NextAt(bs, end, j);
      }
    }
  }

  lemma SplitPairs(bs: seq<Block>, i: nat, n: nat, j: nat)
    requires i < |bs| && 0 < j <= |bs| && FreePair(Split(bs, i, n), j)
    ensures (j < i && FreePair(bs, j)) || (j == i + 2 && !bs[i + 1].used) || (j > i + 2 && FreePair(bs, j - 1))
  {
    var t := Split(bs, i, n);
    assert j < i ==> t[j] == bs[j];
    assert j > i + 1 ==> t[j] == bs[j - 1];
    if j > i + 2 {
      assert t[j - 1] == bs[j - 2];
    }
  }

  lemma RetagPairs(bs: seq<Block>, i: nat, used: bool, j: nat)
    requires i < |bs| && 0 < j < |bs| && FreePair(bs[..i] + [Block(bs[i].at, used)] + bs[i + 1..], j)
    ensures ((j == i || j == i + 1) && !used) || FreePair(bs, j)
  {
  }

  lemma DropPairs(bs: seq<Block>, k: nat, j: nat)
    requires 0 < k < |bs| && 0 < j < |bs| - 1 && !bs[k].used && FreePair(Drop(bs, k), j)
    ensures (j < k && FreePair(bs, j)) || (j >= k && FreePair(bs, j + 1))
  {
    var t := Drop(bs, k);
    assert t[j] == if j < k then bs[j] else bs[j + 1];
    assert t[j - 1] == if j - 1 < k then bs[j - 1] else bs[j];
  }

  lemma DropWords(bs: seq<Block>, end: nat, k: nat)
    requires 0 < k < |bs| && !bs[k - 1].used && !bs[k].used
    ensures UsedWords(Drop(bs, k), end) == UsedWords(bs, end)
  {
    var pre, post := bs[..k - 1], bs[k + 1..];
    var mid := [bs[k - 1], bs[k]];
    assert bs == pre + mid + post;
    assert Drop(bs, k) == pre + [bs[k - 1]] + post;
    WordsConcat(pre + mid, post, end);
    WordsConcat(pre, mid, StartOf(post, end));
    WordsConcat(pre + [bs[k - 1]], post, end);
    WordsConcat(pre, [bs[k - 1]], StartOf(post, end));
    assert mid[1..] == [bs[k]];
    assert mid[1..][1..] == [];
    assert UsedWords(mid[1..], StartOf(post, end)) == 0;
  }

  // ---------------------------------------------------------------- handed-out regions

  lemma {:induction false} LiveConcat(a: seq<Block>, b: seq<Block>, end: nat)
    ensures Live(a + b, end) == Live(a, StartOf(b, end)) + Live(b, end)
  {
    if a == [] {
      assert a + b == b;
    } else {
      assert (a + b)[1..] == a[1..] + b;
      LiveConcat(a[1..], b, end);
    }
  }

  lemma {:induction false} LiveIsUsed(bs: seq<Block>, end: nat, r: (nat, nat))
    ensures r in Live(bs, end) <==> exists i :: 0 <= i < |bs| && bs[i].used && r == Region(bs, end, i)
  {
    if bs != [] {
      LiveIsUsed(bs[1..], end, r);
      if r in Live(bs[1..], end) {
        var i :| 0 <= i < |bs[1..]| && bs[1..][i].used && r == Region(bs[1..], end, i);
        assert bs[i + 1].used && r == Region(bs, end, i + 1);
      }
      if i :| 0 <= i < |bs| && bs[i].used && r == Region(bs, end, i) {
        if i > 0 {
          assert bs[1..][i - 1].used && r == Region(bs[1..], end, i - 1);
        }
      }
    }
  }

  lemma OthersElsewhere(bs: seq<Block>, end: nat, i: nat)
    requires Tiling(bs, end) && i < |bs|
    ensures forall r :: r in Live(bs[..i], bs[i].at) + Live(bs[i + 1..], end) ==> r.0 != bs[i].at + HDR
  {
    hide Live;
    var pre, post := bs[..i], bs[i + 1..];
    forall r | r in Live(pre, bs[i].at) + Live(post, end)
      ensures r.0 != bs[i].at + HDR
    {
      LiveIsUsed(pre, bs[i].at, r);
      LiveIsUsed(post, end, r);
      if k :| 0 <= k < |pre| && pre[k].used && r == Region(pre, bs[i].at, k) {
        Ascending(bs, end, k, i);
      } else {
        var k :| 0 <= k < |post| && post[k].used && r == Region(post, end, k);
        Ascending(bs, end, i, i + 1 + k);
      }
    }
  }

  lemma LiveParts(bs: seq<Block>, end: nat, i: nat, mid: seq<Block>)
    requires Tiling(bs, end) && i < |bs| && mid != [] && mid[0].at == bs[i].at
    ensures var pre, post := bs[..i], bs[i + 1..];
            && Live(pre + mid + post, end)
               == Live(pre, bs[i].at) + Live(mid, NextAt(bs, end, i)) + Live(post, end)
            && Live(bs, end)
               == Live(pre, bs[i].at) + (if bs[i].used then {Region(bs, end, i)} else {}) + Live(post, end)
            && forall r :: r in Live(pre, bs[i].at) + Live(post, end) ==> r.0 != bs[i].at + HDR
  {
    var pre, post := bs[..i], bs[i + 1..];
    LiveConcat(pre + mid, post, end);
    LiveConcat(pre, mid, StartOf(post, end));
    assert bs == pre + [bs[i]] + post;
    LiveConcat(pre + [bs[i]], post, end);
    LiveConcat(pre, [bs[i]], StartOf(post, end));
    assert [bs[i]][1..] == [];
    assert Live([bs[i]], StartOf(post, end)) == if bs[i].used then {Region(bs, end, i)} else {};
    OthersElsewhere(bs, end, i);
  }

  lemma SplitLive(bs: seq<Block>, end: nat, i: nat, n: nat)
    requires Tiling(bs, end) && i < |bs|
    ensures Live(Split(bs, i, n), end)
         == Live(bs, end) - (if bs[i].used then {Region(bs, end, i)} else {}) + {(bs[i].at + HDR, bs[i].at + HDR + n)}
  {
    var mid := [Block(bs[i].at, true), Block(bs[i].at + HDR + n, false)];
    LiveParts(bs, end, i, mid);
    assert mid[1..] == [mid[1]];
    assert mid[1..][1..] == [];
    assert Live(mid[1..], NextAt(bs, end, i)) == {};
  }

  lemma RetagLive(bs: seq<Block>, end: nat, i: nat, used: bool)
    requires Tiling(bs, end) && i < |bs|
    ensures Live(bs[..i] + [Block(bs[i].at, used)] + bs[i + 1..], end)
         == Live(bs, end) - (if bs[i].used then {Region(bs, end, i)} else {})
              + (if used then {Region(bs, end, i)} else {})
  {
    var mid := [Block(bs[i].at, used)];
    LiveParts(bs, end, i, mid);
    assert mid[1..] == [];
  }

  lemma DropLive(bs: seq<Block>, end: nat, k: nat)
    requires 0 < k < |bs| && !bs[k - 1].used && !bs[k].used
    ensures Live(Drop(bs, k), end) == Live(bs, end)
  {
    var pre, post := bs[..k - 1], bs[k + 1..];
    var mid := [bs[k - 1], bs[k]];
    assert bs == pre + mid + post;
    assert Drop(bs, k) == pre + [bs[k - 1]] + post;
    LiveConcat(pre + mid, post, end);
    LiveConcat(pre, mid, StartOf(post, end));
    LiveConcat(pre + [bs[k - 1]], post, end);
    LiveConcat(pre, [bs[k - 1]], StartOf(post, end));
    assert mid[1..] == [bs[k]];
    assert mid[1..][1..] == [];
    assert Live(mid[1..], StartOf(post, end)) == {};
  }

  // ---------------------------------------------------------------- invariants

  lemma InitKeeps(end: nat)
    requires HDR <= end
    ensures Inv(Init(end)) && LowestHint(Init(end)) && Live(Init(end).blocks, end) == {}
  {
    var bs := Init(end).blocks;
    assert bs[1..] == [];
    assert bs[0].at == 0 && !bs[0].used;
  }

  /** A free block reaches from a to b. */
  ghost predicate IsFreeBlock(bs: seq<Block>, end: nat, a: nat, b: nat) {
    exists j :: 0 <= j < |bs| && bs[j].at == a && !bs[j].used && NextAt(bs, end, j) == b
  }

  /** Taking free block i whole, or splitting it. */
  ghost predicate Taken(h: Heap, i: nat, n: nat, t: seq<Block>)
    requires i < |h.blocks|
  {
    && Tiling(t, h.end) && NoTwoFree(t)
    && i < |t| && t[i] == Block(h.blocks[i].at, true)
    && UsedWords(t, h.end) == h.used + NextAt(t, h.end, i) - t[i].at
    && NextAt(t, h.end, i) >= t[i].at + HDR + n
    && (NextAt(t, h.end, i) == NextAt(h.blocks, h.end, i)
        || IsFreeBlock(t, h.end, NextAt(t, h.end, i), NextAt(h.blocks, h.end, i)))
    && Live(t, h.end) == Live(h.blocks, h.end) + {Region(t, h.end, i)}
    && (forall j :: 0 <= j < |h.blocks| && j != i && !h.blocks[j].used ==> IsFreeAt(t, h.blocks[j].at))
    && (forall j :: 0 <= j < i ==> t[j] == h.blocks[j])
  }

  lemma TakeSplit(h: Heap, i: nat, n: nat)
    requires Inv(h) && i < |h.blocks| && !h.blocks[i].used && Payload(h.blocks, h.end, i) >= n + HDR
    ensures Taken(h, i, n, Split(h.blocks, i, n))
  {
    var bs, t := h.blocks, Split(h.blocks, i, n);
    SplitShape(bs, h.end, i, n);
    SplitWords(bs, h.end, i, n);
    SplitLive(bs, h.end, i, n);
    SplitNoTwoFree(bs, i, n);
    assert t[i + 1] == Block(bs[i].at + HDR + n, false) && NextAt(t, h.end, i + 1) == NextAt(bs, h.end, i);
    forall j | 0 <= j < |bs| && j != i && !bs[j].used
      ensures IsFreeAt(t, bs[j].at)
    {
      StillFree(bs, i, n, j);
    }
  }

  lemma StillFree(bs: seq<Block>, i: nat, n: nat, j: nat)
    requires i < |bs| && j < |bs| && i != j && !bs[j].used
    ensures IsFreeAt(Split(bs, i, n), bs[j].at)
  {
    assert Split(bs, i, n)[if j < i then j else j + 1] == bs[j];
  }

  lemma SplitNoTwoFree(bs: seq<Block>, i: nat, n: nat)
    requires i < |bs| && !bs[i].used && NoTwoFree(bs)
    ensures NoTwoFree(Split(bs, i, n))
  {
    forall j | 0 < j < |bs| + 1
      ensures !FreePair(Split(bs, i, n), j)
    {
      if FreePair(Split(bs, i, n), j) {
        SplitPairs(bs, i, n, j);
        assert j == i + 2 ==> FreePair(bs, i + 1);
      }
    }
  }

  lemma TakeWhole(h: Heap, i: nat, n: nat)
    requires Inv(h) && i < |h.blocks| && !h.blocks[i].used && Payload(h.blocks, h.end, i) >= n
    ensures Taken(h, i, n, h.blocks[..i] + [Block(h.blocks[i].at, true)] + h.blocks[i + 1..])
  {
    var bs, t := h.blocks, h.blocks[..i] + [Block(h.blocks[i].at, true)] + h.blocks[i + 1..];
    Retag(bs, h.end, i, true);
    RetagLive(bs, h.end, i, true);
    assert NextAt(t, h.end, i) == NextAt(bs, h.end, i);
    forall j | 0 < j < |t|
      ensures !FreePair(t, j)
    {
      if FreePair(t, j) {
        RetagPairs(bs, i, true, j);
      }
    }
    forall j | 0 <= j < |bs| && j != i && !bs[j].used
      ensures IsFreeAt(t, bs[j].at)
    {
      assert t[j] == bs[j];
    }
  }

  lemma TakeKeeps(h: Heap, i: nat, n: nat)
    requires Inv(h) && i < |h.blocks| && !h.blocks[i].used && Payload(h.blocks, h.end, i) >= n
    ensures Taken(h, i, n, Take(h.blocks, h.end, i, n))
    ensures var p, e := h.blocks[i].at + HDR, NextAt(h.blocks, h.end, i);
            NextAt(Take(h.blocks, h.end, i, n), h.end, i) == if e - p >= n + HDR + MIN_SIZE then p + n else e
  {
    hide Live, UsedWords, IsFreeAt, IsFreeBlock;
    if Payload(h.blocks, h.end, i) >= n + HDR + MIN_SIZE {
      TakeSplit(h, i, n);
      SplitShape(h.blocks, h.end, i, n);
    } else {
      TakeWhole(h, i, n);
    }
  }

  lemma LowestFreeIsFree(bs: seq<Block>, end: nat, i: nat)
    requires i <= |bs|
    ensures LowestFree(bs, end, i) == end || IsFreeAt(bs, LowestFree(bs, end, i))
  {
    var k := FirstFree(bs, i);
    if k < |bs| {
      assert bs[k].at == LowestFree(bs, end, i);
    }
  }

  lemma MallocKeeps(h: Heap, n: nat)
    requires Inv(h)
    ensures Inv(Malloc(h, n).0)
  {
    var i := FirstFit(h.blocks, h.end, IndexFrom(h.blocks, h.lfree, 0), n);
    if i < |h.blocks| {
      TakeKeeps(h, i, n);
      var t := Take(h.blocks, h.end, i, n);
      LowestFreeIsFree(t, h.end, i);
    }
  }

  /** From h to h' the words from p up to q are handed out. They are the first ones of the payload of a free block;
      that is n words when the rest is enough for a block of its own, which it becomes, and else the whole payload. */
  ghost predicate Handed(h: Heap, h': Heap, n: nat, p: nat, q: nat) {
    && (p, q) !in Live(h.blocks, h.end)
    && Live(h'.blocks, h.end) == Live(h.blocks, h.end) + {(p, q)}
    && h'.used == h.used + (q - p) + HDR
    && p >= HDR
    && exists e :: IsFreeBlock(h.blocks, h.end, p - HDR, e) && CutTo(h', n, p, q, e)
  }

  ghost predicate CutTo(h': Heap, n: nat, p: nat, q: nat, e: nat) {
    && p + n <= q <= e
    && q == (if e - p >= n + HDR + MIN_SIZE then p + n else e)
    && (q < e ==> IsFreeBlock(h'.blocks, h'.end, q, e))
  }

  /** The region a successful rt_malloc hands out ends at q. */
  lemma MallocRegion(h: Heap, n: nat) returns (q: nat)
    requires Inv(h) && Malloc(h, n).1.Some?
    ensures Handed(h, Malloc(h, n).0, n, Malloc(h, n).1.value, q)
  {
    hide LowestFree, IsFreeAt, UsedWords, NoTwoFree, Live;
    var i := FirstFit(h.blocks, h.end, IndexFrom(h.blocks, h.lfree, 0), n);
    TakeKeeps(h, i, n);
    var t, h' := Take(h.blocks, h.end, i, n), Malloc(h, n).0;
    var e := NextAt(h.blocks, h.end, i);
    LiveParts(h.blocks, h.end, i, [h.blocks[i]]);
    assert Region(t, h.end, i).0 == h.blocks[i].at + HDR;
    q := NextAt(t, h.end, i);
    assert IsFreeBlock(h.blocks, h.end, h.blocks[i].at, e);
    assert CutTo(h', n, h.blocks[i].at + HDR, q, e);
  }

  /** rt_malloc adds exactly one region, which fits the request as closely as the free block allows, or changes
      nothing at all. */
  lemma MallocAddsRegion(h: Heap, n: nat)
    requires Inv(h)
    ensures var (h', r) := Malloc(h, n);
            match r
            case None => h' == h
            case Some(p) => exists q: nat :: Handed(h, h', n, p, q)
  {
    if Malloc(h, n).1.Some? {
      var q := MallocRegion(h, n);
    }
  }

  lemma PlugForwardKeeps(h: Heap, i: nat)
    requires i < |h.blocks| && !h.blocks[i].used && InvBut(h, i, i + 1)
    ensures var h' := PlugForward(h, i);
            && InvBut(h', i, i) && i < |h'.blocks| && h'.blocks[i] == h.blocks[i]
            && Live(h'.blocks, h.end) == Live(h.blocks, h.end)
  {
    hide UsedWords, IsFreeAt, Live, Drop, Tiling;
    var bs := h.blocks;
    if i + 1 < |bs| && !bs[i + 1].used {
      DropShape(bs, h.end, i + 1);
      DropWords(bs, h.end, i + 1);
      DropLive(bs, h.end, i + 1);
      DropFree(h, i + 1);
      DropKeepsPairs(h, i);
    }
  }

  lemma DropKeepsPairs(h: Heap, i: nat)
    requires i + 1 < |h.blocks| && !h.blocks[i + 1].used && InvBut(h, i, i + 1)
    ensures var t := Drop(h.blocks, i + 1); forall j :: 0 < j < |t| && j != i ==> !FreePair(t, j)
  {
    hide FreePair, Tiling, UsedWords, IsFreeAt;
    var t := Drop(h.blocks, i + 1);
    forall j | 0 < j < |t| && j != i
      ensures !FreePair(t, j)
    {
      if FreePair(t, j) {
        DropPairs(h.blocks, i + 1, j);
      }
    }
  }

  /** The hint follows when the block it names is joined to its predecessor. */
  lemma DropFree(h: Heap, k: nat)
    requires 0 < k < |h.blocks| && !h.blocks[k - 1].used && !h.blocks[k].used
    requires h.lfree == h.end || IsFreeAt(h.blocks, h.lfree)
    ensures var l := if h.lfree == h.blocks[k].at then h.blocks[k - 1].at else h.lfree;
            l == h.end || IsFreeAt(Drop(h.blocks, k), l)
  {
    var t := Drop(h.blocks, k);
    assert t[k - 1] == h.blocks[k - 1];
    if h.lfree != h.blocks[k].at && h.lfree != h.end {
      var j :| 0 <= j < |h.blocks| && h.blocks[j].at == h.lfree && !h.blocks[j].used;
      assert t[if j < k then j else j - 1] == h.blocks[j];
    }
  }

  lemma PlugBackwardKeeps(h: Heap, i: nat)
    requires i < |h.blocks| && !h.blocks[i].used && InvBut(h, i, i)
    ensures var h' := PlugBackward(h, i);
            Inv(h') && Live(h'.blocks, h.end) == Live(h.blocks, h.end)
  {
    var bs := h.blocks;
    if i > 0 && !bs[i - 1].used {
      DropShape(bs, h.end, i);
      DropWords(bs, h.end, i);
      DropLive(bs, h.end, i);
      DropFree(h, i);
      var t := Drop(bs, i);
      forall j | 0 < j < |t|
        ensures !FreePair(t, j)
      {
        if FreePair(t, j) {
          DropPairs(bs, i, j);
        }
      }
    }
  }

  lemma ReleaseKeeps(h: Heap, i: nat)
    requires Inv(h) && i < |h.blocks| && h.blocks[i].used
    ensures var h' := Release(h, i);
            && InvBut(h', i, i + 1) && !h'.blocks[i].used
            && Live(h'.blocks, h.end) == Live(h.blocks, h.end) - {Region(h.blocks, h.end, i)}
  {
    Retag(h.blocks, h.end, i, false);
    RetagLive(h.blocks, h.end, i, false);
    BelowEnd(h.blocks, h.end, i);
    var t := Release(h, i).blocks;
    assert forall j :: 0 <= j < |t| && j != i ==> t[j] == h.blocks[j];
    assert t[i] == Block(h.blocks[i].at, false);
    forall j | 0 < j < |t| && !(i <= j <= i + 1)
      ensures !FreePair(t, j)
    {
      if FreePair(t, j) {
        RetagPairs(h.blocks, i, false, j);
      }
    }
    if h.lfree <= h.blocks[i].at {
      var j :| 0 <= j < |h.blocks| && h.blocks[j].at == h.lfree && !h.blocks[j].used;
      assert t[j] == h.blocks[j];
    }
  }

  /** rt_free takes back exactly the region it is given, whatever merging follows. */
  lemma FreeKeeps(h: Heap, i: nat)
    requires Inv(h) && i < |h.blocks| && h.blocks[i].used
    ensures Inv(Free(h, i)) && Free(h, i).end == h.end
    ensures Live(Free(h, i).blocks, h.end) == Live(h.blocks, h.end) - {Region(h.blocks, h.end, i)}
    ensures Free(h, i).used == h.used - (NextAt(h.blocks, h.end, i) - h.blocks[i].at)
  {
    ReleaseKeeps(h, i);
    PlugForwardKeeps(Release(h, i), i);
    PlugBackwardKeeps(PlugForward(Release(h, i), i), i);
  }

  lemma ShrinkSplitKeeps(h: Heap, i: nat, n: nat)
    requires Inv(h) && i < |h.blocks| && h.blocks[i].used && Payload(h.blocks, h.end, i) >= n + HDR
    ensures var h' := h.(blocks := Split(h.blocks, i, n), used := h.used - (Payload(h.blocks, h.end, i) - n));
            InvBut(h', i + 1, i + 2) && !h'.blocks[i + 1].used
  {
    SplitShape(h.blocks, h.end, i, n);
    SplitWords(h.blocks, h.end, i, n);
    var t := Split(h.blocks, i, n);
    forall j | 0 < j < |t| && !(i + 1 <= j <= i + 2)
      ensures !FreePair(t, j)
    {
      if FreePair(t, j) {
        SplitPairs(h.blocks, i, n, j);
      }
    }
    if h.lfree != h.end {
      var j :| 0 <= j < |h.blocks| && h.blocks[j].at == h.lfree && !h.blocks[j].used;
      StillFree(h.blocks, i, n, j);
    }
  }

  /** Shrinking in place leaves every other region alone and keeps the first n words of its own. */
  lemma ShrinkKeeps(h: Heap, i: nat, n: nat)
    requires Inv(h) && i < |h.blocks| && h.blocks[i].used && Payload(h.blocks, h.end, i) >= n + HDR
    ensures Inv(Shrink(h, i, n))
    ensures var p := h.blocks[i].at + HDR;
            Live(Shrink(h, i, n).blocks, h.end)
              == Live(h.blocks, h.end) - {Region(h.blocks, h.end, i)} + {(p, p + n)}
  {
    hide Live, UsedWords, FreePair, IsFreeAt, Tiling;
    ShrinkSplitKeeps(h, i, n);
    SplitLive(h.blocks, h.end, i, n);
    var h1 := h.(blocks := Split(h.blocks, i, n), used := h.used - (Payload(h.blocks, h.end, i) - n));
    PlugForwardKeeps(h1, i + 1);
    PlugBackwardKeeps(PlugForward(h1, i + 1), i + 1);
  }

  // ---------------------------------------------------------------- the hint, and first fit

  /** Given a hint that names a free block or the end, being the lowest is a matter of addresses. */
  lemma HintIsLowest(h: Heap)
    requires Tiling(h.blocks, h.end) && (h.lfree == h.end || IsFreeAt(h.blocks, h.lfree))
    ensures LowestHint(h) <==> HintBelowFree(h)
  {
    var bs := h.blocks;
    var k := FirstFree(bs, 0);
    assert LowestFree(bs, h.end, 0) == if k < |bs| then bs[k].at else h.end;
    forall j | 0 <= j < |bs| && !bs[j].used
      ensures k < |bs| && bs[k].at <= bs[j].at < h.end
    {
      BelowEnd(bs, h.end, j);
      if k < j {
        Ascending(bs, h.end, k, j);
      }
    }
  }

  lemma HintStart(h: Heap)
    requires Inv(h) && LowestHint(h)
    ensures IndexFrom(h.blocks, h.lfree, 0) == FirstFree(h.blocks, 0)
  {
    var k := FirstFree(h.blocks, 0);
    if k < |h.blocks| {
      IndexFound(h.blocks, h.end, k);
    } else {
      var j := IndexFrom(h.blocks, h.end, 0);
      if j < |h.blocks| {
        BelowEnd(h.blocks, h.end, j);
      }
    }
  }

  /** Free and large enough. */
  predicate Suits(bs: seq<Block>, end: nat, i: nat, n: nat)
    requires i < |bs|
  {
    !bs[i].used && Payload(bs, end, i) >= n
  }

  /** The loop's strict bound loses one block: the last one, when it has exactly the size wanted. */
  lemma FitsOrLast(bs: seq<Block>, end: nat, i: nat, n: nat)
    requires Tiling(bs, end) && i < |bs|
    ensures Fits(bs, end, i, n) <==> Suits(bs, end, i, n) && !(i == |bs| - 1 && Payload(bs, end, i) == n)
  {
    if i + 1 < |bs| {
      BelowEnd(bs, end, i + 1);
    }
  }

  /** With the hint at the lowest free block rt_malloc is exact first fit: it takes the lowest block
      that suits, and fails iff none does but a last block of exactly the requested size. */
  lemma MallocIsFirstFit(h: Heap, n: nat)
    requires Inv(h) && LowestHint(h)
    ensures var bs := h.blocks;
            match Malloc(h, n).1
            case Some(p) =>
              exists i :: 0 <= i < |bs| && p == bs[i].at + HDR && Suits(bs, h.end, i, n)
                          && forall j :: 0 <= j < i ==> !Suits(bs, h.end, j, n)
            case None =>
              forall i :: 0 <= i < |bs| && Suits(bs, h.end, i, n) ==> i == |bs| - 1 && Payload(bs, h.end, i) == n
    ensures Malloc(h, n).1 != None ==>
              exists i :: 0 <= i < |h.blocks| && Suits(h.blocks, h.end, i, n)
                          && !(i == |h.blocks| - 1 && Payload(h.blocks, h.end, i) == n)
  {
    var bs := h.blocks;
    HintStart(h);
    var k := FirstFree(bs, 0);
    var i := FirstFit(bs, h.end, k, n);
    forall j | 0 <= j < i
      ensures !Fits(bs, h.end, j, n) && (j < |bs| - 1 ==> !Suits(bs, h.end, j, n))
    {
      FitsOrLast(bs, h.end, j, n);
    }
    if i < |bs| {
      FitsOrLast(bs, h.end, i, n);
      TakeKeeps(h, i, n);
      assert Malloc(h, n).1 == Some(bs[i].at + HDR);
    } else {
      forall j | 0 <= j < |bs| && Suits(bs, h.end, j, n)
        ensures j == |bs| - 1 && Payload(bs, h.end, j) == n
      {
        FitsOrLast(bs, h.end, j, n);
      }
    }
  }

  lemma MallocKeepsLowest(h: Heap, n: nat)
    requires Inv(h) && LowestHint(h)
    ensures LowestHint(Malloc(h, n).0)
  {
    HintStart(h);
    var i := FirstFit(h.blocks, h.end, FirstFree(h.blocks, 0), n);
    if i < |h.blocks| {
      TakeKeeps(h, i, n);
      MallocKeeps(h, n);
      var t := Take(h.blocks, h.end, i, n);
      HintIsLowest(h);
      if t[i].at == h.lfree {
        SameAddress(h.blocks, h.end, i, FirstFree(h.blocks, 0));
        assert forall j :: 0 <= j < i ==> t[j].used;
        FirstFreeSkips(t, 0, i);
      } else {
        HintIsLowest(Malloc(h, n).0);
        forall j | 0 <= j < |t| && !t[j].used
          ensures h.lfree <= t[j].at
        {
          if j > i {
            Ascending(t, h.end, i, j);
          } else {
            assert t[j] == h.blocks[j];
          }
        }
      }
    }
  }

  lemma {:induction false} FirstFreeSkips(bs: seq<Block>, i: nat, k: nat)
    requires i <= k <= |bs| && forall j :: i <= j < k ==> bs[j].used
    ensures FirstFree(bs, i) == FirstFree(bs, k)
    decreases k - i
  {
    if i < k {
      FirstFreeSkips(bs, i + 1, k);
    }
  }

  /** plug_holes leaves no free block below the hint. */
  lemma PlugKeepsBelow(h: Heap, i: nat)
    requires i < |h.blocks| && !h.blocks[i].used && InvBut(h, i, i + 1) && HintBelowFree(h)
    ensures HintBelowFree(PlugForward(h, i)) && HintBelowFree(PlugBackward(PlugForward(h, i), i))
  {
    PlugForwardKeeps(h, i);
    if i + 1 < |h.blocks| && !h.blocks[i + 1].used {
      DropKeepsBelow(h, i + 1);
    }
    var h2 := PlugForward(h, i);
    if i > 0 && !h2.blocks[i - 1].used {
      DropKeepsBelow(h2, i);
    }
  }

  lemma DropKeepsBelow(h: Heap, k: nat)
    requires 0 < k < |h.blocks| && FreePair(h.blocks, k) && Tiling(h.blocks, h.end) && HintBelowFree(h)
    ensures var l := if h.lfree == h.blocks[k].at then h.blocks[k - 1].at else h.lfree;
            HintBelowFree(h.(lfree := l, blocks := Drop(h.blocks, k)))
  {
    Ascending(h.blocks, h.end, k - 1, k);
    var t := Drop(h.blocks, k);
    forall j | 0 <= j < |t|
      ensures t[j] == h.blocks[if j < k then j else j + 1]
    {
    }
  }

  lemma ReleaseKeepsBelow(h: Heap, i: nat)
    requires HintBelowFree(h) && i < |h.blocks|
    ensures HintBelowFree(Release(h, i))
  {
    var t := Release(h, i).blocks;
    assert forall j :: 0 <= j < |t| && j != i ==> t[j] == h.blocks[j];
  }

  lemma FreeKeepsLowest(h: Heap, i: nat)
    requires Inv(h) && LowestHint(h) && i < |h.blocks| && h.blocks[i].used
    ensures LowestHint(Free(h, i))
  {
    HintIsLowest(h);
    ReleaseKeepsBelow(h, i);
    ReleaseKeeps(h, i);
    PlugKeepsBelow(Release(h, i), i);
    FreeKeeps(h, i);
    HintIsLowest(Free(h, i));
  }

  /** A shrinking rt_realloc leaves the hint on the lowest free block iff the hint was below the
      shrunk block or the block behind it was free: the code never lowers the hint to the remainder. */
  lemma ShrinkKeepsLowestIff(h: Heap, i: nat, n: nat)
    requires Inv(h) && LowestHint(h) && i < |h.blocks| && h.blocks[i].used && Payload(h.blocks, h.end, i) >= n + HDR
    ensures LowestHint(Shrink(h, i, n))
       <==> h.lfree < h.blocks[i].at || (i + 1 < |h.blocks| && !h.blocks[i + 1].used)
  {
    HintIsLowest(h);
    SplitShape(h.blocks, h.end, i, n);
    ShrinkKeeps(h, i, n);
    ShrinkSplitKeeps(h, i, n);
    var s := Shrink(h, i, n);
    HintIsLowest(s);
    var h1 := h.(blocks := Split(h.blocks, i, n), used := h.used - (Payload(h.blocks, h.end, i) - n));
    PlugForwardKeeps(h1, i + 1);
    var h2 := PlugForward(h1, i + 1);
    assert h2.blocks[i] == h1.blocks[i];
    assert s == h2;
    if i + 1 < |h.blocks| && !h.blocks[i + 1].used {
      assert h1.blocks[i + 2] == h.blocks[i + 1];
      ShrinkBeforeFree(h, i, n);
    } else {
      assert i + 2 < |h1.blocks| ==> h1.blocks[i + 2] == h.blocks[i + 1];
      assert s == h1 && !s.blocks[i + 1].used;
      if h.lfree < h.blocks[i].at {
        forall j | 0 <= j < |s.blocks| && !s.blocks[j].used
          ensures s.lfree <= s.blocks[j].at
        {
          if j > i {
            Ascending(s.blocks, h.end, i, j);
          } else {
            assert s.blocks[j] == h.blocks[j];
          }
        }
      } else {
        ShrinkAboveHint(h, i, n);
      }
    }
  }

  /** A fresh heap of n usable words turns down a request for n words. */
  lemma WholeHeapTurnedDown(n: nat)
    ensures var h := Init(n + HDR); Payload(h.blocks, h.end, 0) == n && Malloc(h, n) == (h, None)
  {
    var h := Init(n + HDR);
    assert IndexFrom(h.blocks, h.lfree, 0) == 0;
    assert !Fits(h.blocks, h.end, 0, n);
  }

  lemma TakenTwice()
    ensures Malloc(Init(40), 20).0 == Heap([Block(0, true), Block(23, false)], 40, 23, 23, 23)
    ensures Malloc(Heap([Block(0, true), Block(23, false)], 40, 23, 23, 23), 5).0
         == Heap([Block(0, true), Block(23, true), Block(31, false)], 40, 31, 31, 31)
  {
    assert Take([Block(0, false)], 40, 0, 20) == [Block(0, true), Block(23, false)];
    assert FirstFree([Block(0, true), Block(23, false)], 0) == 1;
    var bs := [Block(0, true), Block(23, false)];
    assert IndexFrom(bs, 23, 0) == 1 && FirstFit(bs, 40, 1, 5) == 1;
    var t := Take(bs, 40, 1, 5);
    assert t == [Block(0, true), Block(23, true), Block(31, false)];
    assert FirstFree(t, 1) == 2;
  }

  /** A block of 20 words shrunk to 4, with a block of 5 behind it: the 13 words freed lie below the hint. */
  lemma HintLost()
    ensures var h := Malloc(Malloc(Init(40), 20).0, 5).0;
            Legal(h, DoShrink(3, 4)) && !LowestHint(Step(h, DoShrink(3, 4)))
  {
    hide Malloc, Init;
    TakenTwice();
    ShrunkTooLow();
  }

  lemma ShrunkTooLow()
    ensures var h := Heap([Block(0, true), Block(23, true), Block(31, false)], 40, 31, 31, 31);
            Legal(h, DoShrink(3, 4)) && !LowestHint(Step(h, DoShrink(3, 4)))
  {
    var bs := [Block(0, true), Block(23, true), Block(31, false)];
    var h := Heap(bs, 40, 31, 31, 31);
    assert IndexFrom(bs, 0, 0) == 0 && bs[0].used;
    var r := Split(bs, 0, 4);
    assert r == [Block(0, true), Block(7, false), Block(23, true), Block(31, false)];
    assert FirstFree(r, 0) == 1;
  }

  lemma ShrinkBeforeFree(h: Heap, i: nat, n: nat)
    requires Inv(h) && LowestHint(h) && i + 1 < |h.blocks| && h.blocks[i].used && !h.blocks[i + 1].used
    requires Payload(h.blocks, h.end, i) >= n + HDR
    ensures LowestHint(Shrink(h, i, n))
  {
    HintIsLowest(h);
    SplitShape(h.blocks, h.end, i, n);
    ShrinkKeeps(h, i, n);
    HintIsLowest(Shrink(h, i, n));
    var t := Split(h.blocks, i, n);
    assert t[i + 1 + 1] == h.blocks[i + 1];
    var d := Drop(t, i + 2);
    assert d[i] == t[i] && d[i + 1] == t[i + 1];
    assert Shrink(h, i, n).blocks == d;
    assert Shrink(h, i, n).lfree == if h.lfree == h.blocks[i + 1].at then t[i + 1].at else h.lfree;
    BelowEnd(h.blocks, h.end, i + 1);
    assert h.lfree <= h.blocks[i + 1].at < h.end;
    if h.lfree < h.blocks[i + 1].at {
      var k :| 0 <= k < |h.blocks| && h.blocks[k].at == h.lfree && !h.blocks[k].used;
      if i < k {
        Ascending(h.blocks, h.end, i, k);
        assert false;
      } else {
        Ascending(h.blocks, h.end, k, i);
      }
      assert h.lfree < h.blocks[i].at;
    }
    forall j | 0 <= j < |d| && !d[j].used
      ensures Shrink(h, i, n).lfree <= d[j].at
    {
      if j < i {
        assert d[j] == h.blocks[j];
        assert h.lfree <= h.blocks[j].at;
      } else if j > i + 1 {
        assert d[j] == t[j + 1] == h.blocks[j];
        assert h.lfree <= h.blocks[j].at;
      } else {
        assert j == i + 1;
      }
    }
  }

  lemma ShrinkAboveHint(h: Heap, i: nat, n: nat)
    requires Inv(h) && i < |h.blocks| && h.blocks[i].used && h.blocks[i].at <= h.lfree
    requires Payload(h.blocks, h.end, i) >= n + HDR
    ensures Split(h.blocks, i, n)[i + 1].at < h.lfree
  {
    BelowEnd(h.blocks, h.end, i);
    SplitShape(h.blocks, h.end, i, n);
    if h.lfree != h.end {
      var k :| 0 <= k < |h.blocks| && h.blocks[k].at == h.lfree && !h.blocks[k].used;
      if k < i {
        Ascending(h.blocks, h.end, k, i);
      } else {
        Ascending(h.blocks, h.end, i, k);
      }
    }
  }

  // ---------------------------------------------------------------- one block list for each set of regions

  /** A block list is laid out from 0 to end, without two free neighbours. */
  ghost predicate Canonical(bs: seq<Block>, end: nat) {
    Tiling(bs, end) && NoTwoFree(bs)
  }

  /** A used block of one list is a block of any other list with the same regions. */
  lemma UsedInBoth(a: seq<Block>, b: seq<Block>, end: nat, i: nat) returns (k: nat)
    requires Tiling(b, end) && Live(a, end) == Live(b, end) && i < |a| && a[i].used
    ensures k < |b| && b[k] == a[i] && NextAt(b, end, k) == NextAt(a, end, i)
  {
    UsedIsLive(a, end, i);
    k := LiveBlock(b, end, Region(a, end, i));
  }

  lemma SameEnd(a: seq<Block>, b: seq<Block>, end: nat, k: nat)
    requires Canonical(a, end) && Canonical(b, end) && Live(a, end) == Live(b, end)
    requires k < |a| && k < |b| && a[k].at == b[k].at && !a[k].used && !b[k].used
    ensures NextAt(a, end, k) >= NextAt(b, end, k)
  {
    hide Live;
    if NextAt(a, end, k) < NextAt(b, end, k) {
      BelowEnd(b, end, k);
      assert k + 1 < |a|;
      assert !FreePair(a, k + 1);
      var j := UsedInBoth(a, b, end, k + 1);
      if j <= k {
        Ascending(a, end, k, k + 1);
        if j < k {
          Ascending(b, end, j, k);
        }
      } else if j > k + 1 {
        Ascending(b, end, k + 1, j);
      }
      assert false;
    }
  }

  lemma SameBlock(a: seq<Block>, b: seq<Block>, end: nat, k: nat)
    requires Canonical(a, end) && Canonical(b, end) && Live(a, end) == Live(b, end)
    requires k < |a| && k < |b| && a[k].at == b[k].at
    ensures a[k] == b[k] && NextAt(a, end, k) == NextAt(b, end, k)
  {
    hide Live;
    if a[k].used {
      var j := UsedInBoth(a, b, end, k);
      SameAddress(b, end, j, k);
    } else if b[k].used {
      var j := UsedInBoth(b, a, end, k);
      SameAddress(a, end, j, k);
    } else {
      SameEnd(a, b, end, k);
      SameEnd(b, a, end, k);
    }
  }

  lemma {:induction false} SamePrefix(a: seq<Block>, b: seq<Block>, end: nat, k: nat)
    requires Canonical(a, end) && Canonical(b, end) && Live(a, end) == Live(b, end)
    requires k < |a|
    ensures k < |b| && a[..k + 1] == b[..k + 1] && NextAt(a, end, k) == NextAt(b, end, k)
  {
    hide Live;
    if k > 0 {
      SamePrefix(a, b, end, k - 1);
      BelowEnd(a, end, k);
      assert k < |b|;
    }
    SameBlock(a, b, end, k);
    assert a[..k + 1] == a[..k] + [a[k]] && b[..k + 1] == b[..k] + [b[k]];
  }

  /** The regions handed out determine the whole block list, and used_mem with it. */
  lemma LiveDeterminesBlocks(h: Heap, h': Heap)
    requires Inv(h) && Inv(h') && h.end == h'.end && Live(h.blocks, h.end) == Live(h'.blocks, h.end)
    ensures h.blocks == h'.blocks && h.used == h'.used
  {
    var a, b, end := h.blocks, h'.blocks, h.end;
    SamePrefix(a, b, end, |a| - 1);
    SamePrefix(b, a, end, |b| - 1);
    assert a[..|a|] == a && b[..|b|] == b;
  }

  /** rt_free of what rt_malloc has just returned restores the block list and used_mem, splitting and merging
      included. */
  lemma MallocThenFree(h: Heap, n: nat, k: nat)
    requires Inv(h) && Malloc(h, n).1.Some?
    requires k < |Malloc(h, n).0.blocks| && Malloc(h, n).0.blocks[k] == Block(Malloc(h, n).1.value - HDR, true)
    ensures var h' := Free(Malloc(h, n).0, k); h'.blocks == h.blocks && h'.used == h.used
  {
    hide Live, Malloc, Free, Inv;
    var (h1, p) := (Malloc(h, n).0, Malloc(h, n).1.value);
    var q := MallocRegion(h, n);
    MallocKeeps(h, n);
    MallocEnd(h, n);
    TilingOf(h1);
    var j := LiveBlock(h1.blocks, h1.end, (p, q));
    SameAddress(h1.blocks, h1.end, j, k);
    FreeKeeps(h1, k);
    assert Live(h.blocks, h.end) + {(p, q)} - {(p, q)} == Live(h.blocks, h.end);
    LiveDeterminesBlocks(Free(h1, k), h);
  }

  lemma MallocEnd(h: Heap, n: nat)
    ensures Malloc(h, n).0.end == h.end
  {
  }

  lemma TilingOf(h: Heap)
    requires Inv(h)
    ensures Tiling(h.blocks, h.end)
  {
  }

  /** The order in which two blocks are given back does not matter; i' and j' are their indices when the other one
      has gone. */
  lemma FreesCommute(h: Heap, i: nat, j: nat, i': nat, j': nat)
    requires Inv(h) && i < |h.blocks| && j < |h.blocks| && i != j && h.blocks[i].used && h.blocks[j].used
    requires j' < |Free(h, i).blocks| && Free(h, i).blocks[j'] == h.blocks[j]
    requires i' < |Free(h, j).blocks| && Free(h, j).blocks[i'] == h.blocks[i]
    ensures var (a, b) := (Free(Free(h, i), j'), Free(Free(h, j), i')); a.blocks == b.blocks && a.used == b.used
  {
    hide Live, Free, Inv;
    TilingOf(h);
    var r, s := Region(h.blocks, h.end, i), Region(h.blocks, h.end, j);
    if r.0 == s.0 {
      SameAddress(h.blocks, h.end, i, j);
    }
    FreeOfOther(h, i, j, j');
    FreeOfOther(h, j, i, i');
    assert Live(h.blocks, h.end) - {r} - {s} == Live(h.blocks, h.end) - {s} - {r};
    LiveDeterminesBlocks(Free(Free(h, i), j'), Free(Free(h, j), i'));
  }

  lemma FreeOfOther(h: Heap, i: nat, j: nat, k: nat)
    requires Inv(h) && i < |h.blocks| && j < |h.blocks| && h.blocks[i].used && h.blocks[j].used
    requires h.blocks[i].at != h.blocks[j].at
    requires k < |Free(h, i).blocks| && Free(h, i).blocks[k] == h.blocks[j]
    ensures var h' := Free(Free(h, i), k);
            && Inv(h') && h'.end == h.end
            && Live(h'.blocks, h.end)
               == Live(h.blocks, h.end) - {Region(h.blocks, h.end, i)} - {Region(h.blocks, h.end, j)}
  {
    hide Live, Free, Inv;
    FreeKeeps(h, i);
    var h1 := Free(h, i);
    TilingOf(h1);
    UsedIsLive(h.blocks, h.end, j);
    var l := LiveBlock(h1.blocks, h1.end, Region(h.blocks, h.end, j));
    SameAddress(h1.blocks, h1.end, l, k);
    FreeKeeps(h1, k);
  }

  // ---------------------------------------------------------------- realloc

  /** A region that stays live through a step belongs to a block at the same address. */
  lemma LiveBlock(bs: seq<Block>, end: nat, r: (nat, nat)) returns (k: nat)
    requires Tiling(bs, end) && r in Live(bs, end)
    ensures k < |bs| && bs[k].used && Region(bs, end, k) == r && IndexFrom(bs, r.0 - HDR, 0) == k
  {
    LiveIsUsed(bs, end, r);
    k :| 0 <= k < |bs| && bs[k].used && r == Region(bs, end, k);
    IndexFound(bs, end, k);
  }

  lemma UsedIsLive(bs: seq<Block>, end: nat, i: nat)
    requires i < |bs| && bs[i].used
    ensures Region(bs, end, i) in Live(bs, end)
  {
    LiveIsUsed(bs, end, Region(bs, end, i));
  }

  ghost predicate Exchanged(h: Heap, i: nat, n: nat, h': Heap, r: Option<nat>)
    requires i < |h.blocks|
  {
    var (size, at) := (Payload(h.blocks, h.end, i), h.blocks[i].at + HDR);
    var stays := size == n || n + HDR + MIN_SIZE < size;
    && Inv(h') && h'.end == h.end
    && match r
       case None => h' == h && !stays
       case Some(p) =>
         exists q: nat :: p + n <= q < p + Max(n, MIN_SIZE) + HDR + MIN_SIZE
           && (stays ==> p == at && q == p + n) && h'.used == h.used + (q - p) - size
           && Live(h'.blocks, h.end) == Live(h.blocks, h.end) - {Region(h.blocks, h.end, i)} + {(p, q)}
  }

  /** rt_realloc exchanges the old region for one of at least n words and not much more, in place when it has n words
      or can be cut to them, or fails and changes nothing. */
  lemma ReallocExchanges(h: Heap, i: nat, n: nat)
    requires Inv(h) && i < |h.blocks| && h.blocks[i].used && n > 0
    ensures Exchanged(h, i, n, Realloc(h, i, n).0, Realloc(h, i, n).1)
  {
    var (bs, end) := (h.blocks, h.end);
    var size := Payload(bs, end, i);
    var p := bs[i].at + HDR;
    UsedIsLive(bs, end, i);
    if size == n {
      assert Region(bs, end, i) == (p, p + n);
      assert Live(bs, end) == Live(bs, end) - {Region(bs, end, i)} + {(p, p + n)};
    } else if n + HDR + MIN_SIZE < size {
      ShrinkKeeps(h, i, n);
    } else {
      ReallocByMove(h, i, n);
    }
  }

  /** When rt_realloc moves: the fresh region ends at q, and k is the old block's index by then. */
  lemma MoveTarget(h: Heap, i: nat, n: nat) returns (q: nat, k: nat)
    requires Inv(h) && i < |h.blocks| && h.blocks[i].used && Malloc(h, n).1.Some?
    ensures var (h1, p, mine) := (Malloc(h, n).0, Malloc(h, n).1.value, Region(h.blocks, h.end, i));
            && Inv(h1) && h1.end == h.end && p + n <= q < p + n + HDR + MIN_SIZE && h1.used == h.used + (q - p) + HDR
            && (p, q) !in Live(h.blocks, h.end) && mine in Live(h.blocks, h.end)
            && Live(h1.blocks, h1.end) == Live(h.blocks, h.end) + {(p, q)}
            && k < |h1.blocks| && h1.blocks[k].used && Region(h1.blocks, h1.end, k) == mine
            && IndexFrom(h1.blocks, h.blocks[i].at, 0) == k
  {
    q := MallocRegion(h, n);
    MallocKeeps(h, n);
    UsedIsLive(h.blocks, h.end, i);
    k := LiveBlock(Malloc(h, n).0.blocks, h.end, Region(h.blocks, h.end, i));
  }

  lemma SwapOut(live: set<(nat, nat)>, r: (nat, nat), s: (nat, nat))
    requires r in live && s !in live
    ensures live + {s} - {r} == live - {r} + {s}
  {
  }

  lemma ReallocByMove(h: Heap, i: nat, n: nat)
    requires Inv(h) && i < |h.blocks| && h.blocks[i].used && n > 0
    requires Payload(h.blocks, h.end, i) != n && !(n + HDR + MIN_SIZE < Payload(h.blocks, h.end, i))
    ensures Exchanged(h, i, n, Realloc(h, i, n).0, Realloc(h, i, n).1)
  {
    hide Live, Malloc, Free, UsedWords, Handed, Tiling, NoTwoFree, IsFreeAt, IndexFrom;
    var n' := if n < MIN_SIZE then MIN_SIZE else n;
    if Malloc(h, n').1.Some? {
      var p := Malloc(h, n').1.value;
      var q, k := MoveTarget(h, i, n');
      var h1 := Malloc(h, n').0;
      FreeKeeps(h1, k);
      SwapOut(Live(h.blocks, h.end), Region(h.blocks, h.end, i), (p, q));
      assert Realloc(h, i, n) == (Free(h1, k), Some(p));
      assert p + n <= q < p + n' + HDR + MIN_SIZE;
    } else {
      MallocAddsRegion(h, n');
    }
  }

  // ---------------------------------------------------------------- runs

  /** What one step keeps; lowest says whether the hint is to stay on the lowest free block. */
  ghost predicate Kept(h: Heap, h': Heap, lowest: bool) {
    && Inv(h') && h'.end == h.end
    && h'.peak == Max(h.peak, h'.used)
    && (LowestHint(h) && lowest ==> LowestHint(h'))
  }

  lemma StepKeeps(h: Heap, op: Op)
    requires Inv(h) && Legal(h, op)
    ensures Kept(h, Step(h, op), !op.DoShrink?)
  {
    hide Inv, LowestHint, Malloc, Free, Shrink;
    match op
    case DoMalloc(n) =>
      MallocStep(h, n);
    case DoFree(p) =>
      var i := OpBlock(h, p);
      FreeStep(h, i);
    case DoShrink(p, n) =>
      var i := OpBlock(h, p);
      ShrinkStep(h, i, n);
  }

  lemma MallocStep(h: Heap, n: nat)
    requires Inv(h)
    ensures Kept(h, Malloc(h, n).0, true)
  {
    MallocKeeps(h, n);
    if LowestHint(h) {
      MallocKeepsLowest(h, n);
    }
  }

  /** The block whose payload starts at p. */
  lemma OpBlock(h: Heap, p: nat) returns (i: nat)
    requires Inv(h) && HDR <= p && IsUsedAt(h.blocks, p - HDR)
    ensures i < |h.blocks| && h.blocks[i] == Block(p - HDR, true) && i == IndexFrom(h.blocks, p - HDR, 0)
  {
    i :| 0 <= i < |h.blocks| && h.blocks[i].at == p - HDR && h.blocks[i].used;
    IndexFound(h.blocks, h.end, i);
  }

  lemma ShrinkStep(h: Heap, i: nat, n: nat)
    requires Inv(h) && i < |h.blocks| && h.blocks[i].used && n + HDR + MIN_SIZE < Payload(h.blocks, h.end, i)
    ensures Kept(h, Shrink(h, i, n), false)
  {
    ShrinkKeeps(h, i, n);
  }

  lemma FreeStep(h: Heap, i: nat)
    requires Inv(h) && i < |h.blocks| && h.blocks[i].used
    ensures Kept(h, Free(h, i), true)
  {
    BelowEnd(h.blocks, h.end, i);
    FreeKeeps(h, i);
    if LowestHint(h) {
      FreeKeepsLowest(h, i);
    }
  }

  /** Over every run from rt_system_heap_init the heap stays well formed, max_mem is exactly the
      largest used_mem there has been, and without a shrinking realloc the hint stays lowest. */
  lemma {:induction false} RunKeeps(trace: seq<Heap>, ops: seq<Op>, end: nat)
    requires IsRun(trace, ops) && HDR <= end && trace[0] == Init(end)
    ensures var h := trace[|ops|];
            && Inv(h) && h.end == end
            && h.peak == HighWater(trace)
            && ((forall k :: 0 <= k < |ops| ==> !ops[k].DoShrink?) ==> LowestHint(h))
  {
    InitKeeps(end);
    if ops != [] {
      var m := |ops| - 1;
      assert trace[..m + 1][..m + 1] == trace[..m + 1];
      RunKeeps(trace[..m + 1], ops[..m], end);
      assert Legal(trace[m], ops[m]) && trace[m + 1] == Step(trace[m], ops[m]);
      StepKeeps(trace[m], ops[m]);
      assert trace[..|trace| - 1] == trace[..m + 1];
    }
  }
}
