/** The block structure of the small-memory heap (rt-thread/src/mem.c), without its memory.

    Addresses and sizes are counted in words of 4 bytes (RT_ALIGN_SIZE). Class SmallMem keeps this
    structure inside one array of words, headers included, and is proved to follow it step by step. */
module HeapModel {
  import opened Numbers

  const HDR: nat := 3        // SIZEOF_STRUCT_MEM: 12 bytes
  const MIN_SIZE: nat := 3   // MIN_SIZE_ALIGNED: 12 bytes

  datatype Block = Block(at: nat, used: bool)

  /** end is the address of heap_end, lfree the hint where a search starts, used and peak the
      statistics used_mem and max_mem. */
  datatype Heap = Heap(blocks: seq<Block>, end: nat, lfree: nat, used: int, peak: int)

  datatype Option<+T> = None | Some(value: T)

  /** The address at which a run of blocks starts when it is followed by address end. */
  function StartOf(bs: seq<Block>, end: nat): nat {
    if bs == [] then end else bs[0].at
  }

  function NextAt(bs: seq<Block>, end: nat, i: nat): nat
    requires i < |bs|
  {
    if i + 1 < |bs| then bs[i + 1].at else end
  }

  function Payload(bs: seq<Block>, end: nat, i: nat): int
    requires i < |bs|
  {
    NextAt(bs, end, i) - bs[i].at - HDR
  }

  /** Blocks follow one another without gap, each with room for its header. */
  ghost predicate Tiling(bs: seq<Block>, end: nat) {
    && |bs| > 0
    && bs[0].at == 0
    && forall i {:trigger NextAt(bs, end, i)} :: 0 <= i < |bs| ==> bs[i].at + HDR <= NextAt(bs, end, i)
  }

  predicate FreePair(bs: seq<Block>, i: nat)
    requires 0 < i < |bs|
  {
    !bs[i - 1].used && !bs[i].used
  }

  ghost predicate NoTwoFree(bs: seq<Block>) {
    forall i :: 0 < i < |bs| ==> !FreePair(bs, i)
  }

  /** Words taken by used blocks, headers included. */
  function UsedWords(bs: seq<Block>, end: nat): int {
    if bs == [] then 0
    else (if bs[0].used then NextAt(bs, end, 0) - bs[0].at else 0) + UsedWords(bs[1..], end)
  }

  function FreeWords(bs: seq<Block>, end: nat): int {
    if bs == [] then 0
    else (if bs[0].used then 0 else NextAt(bs, end, 0) - bs[0].at) + FreeWords(bs[1..], end)
  }

  function Region(bs: seq<Block>, end: nat, i: nat): (nat, nat)
    requires i < |bs|
  {
    (bs[i].at + HDR, NextAt(bs, end, i))
  }

  /** The regions handed out: [first payload word, end of payload) of every used block. */
  function Live(bs: seq<Block>, end: nat): set<(nat, nat)> {
    if bs == [] then {}
    else (if bs[0].used then {Region(bs, end, 0)} else {}) + Live(bs[1..], end)
  }

  /** Index of the first free block from index i on. */
  function FirstFree(bs: seq<Block>, i: nat): (k: nat)
    requires i <= |bs|
    ensures i <= k <= |bs|
    ensures forall j :: i <= j < k ==> bs[j].used
    ensures k < |bs| ==> !bs[k].used
    decreases |bs| - i
  {
    if i == |bs| || !bs[i].used then i else FirstFree(bs, i + 1)
  }

  /** Its address, or end. */
  function LowestFree(bs: seq<Block>, end: nat, i: nat): nat
    requires i <= |bs|
  {
    StartOf(bs[FirstFree(bs, i)..], end)
  }

  /** Index of the first block at or after address a. */
  function IndexFrom(bs: seq<Block>, a: nat, i: nat): (k: nat)
    requires i <= |bs|
    ensures i <= k <= |bs|
    ensures forall j :: i <= j < k ==> bs[j].at < a
    ensures k < |bs| ==> a <= bs[k].at
    decreases |bs| - i
  {
    if i == |bs| || a <= bs[i].at then i else IndexFrom(bs, a, i + 1)
  }

  ghost predicate IsFreeAt(bs: seq<Block>, a: nat) {
    exists i :: 0 <= i < |bs| && bs[i].at == a && !bs[i].used
  }

  ghost predicate IsUsedAt(bs: seq<Block>, a: nat) {
    exists i :: 0 <= i < |bs| && bs[i].at == a && bs[i].used
  }

  /** The invariant while two neighbouring free blocks may remain at the pairs (j - 1, j), lo <= j <= hi. */
  ghost predicate InvBut(h: Heap, lo: int, hi: int) {
    && Tiling(h.blocks, h.end)
    && (forall j :: 0 < j < |h.blocks| && !(lo <= j <= hi) ==> !FreePair(h.blocks, j))
    && (h.lfree == h.end || IsFreeAt(h.blocks, h.lfree))
    && h.used == UsedWords(h.blocks, h.end)
    && h.used <= h.peak
  }

  /** What every operation keeps. */
  ghost predicate Inv(h: Heap) {
    && Tiling(h.blocks, h.end)
    && NoTwoFree(h.blocks)
    && (h.lfree == h.end || IsFreeAt(h.blocks, h.lfree))
    && h.used == UsedWords(h.blocks, h.end)
    && h.used <= h.peak
  }

  /** What init, malloc and free keep, and realloc not always. */
  ghost predicate LowestHint(h: Heap) {
    h.lfree == LowestFree(h.blocks, h.end, 0)
  }

  /** The same said by addresses. */
  ghost predicate HintBelowFree(h: Heap) {
    forall j :: 0 <= j < |h.blocks| && !h.blocks[j].used ==> h.lfree <= h.blocks[j].at
  }

  // ---------------------------------------------------------------- operations

  function Init(end: nat): Heap
    requires HDR <= end
  {
    Heap([Block(0, false)], end, 0, 0, 0)
  }

  /** The test of the search loop: free, large enough, and strictly below the loop's bound. */
  predicate Fits(bs: seq<Block>, end: nat, i: nat, n: nat)
    requires i < |bs|
  {
    !bs[i].used && Payload(bs, end, i) >= n && bs[i].at + n + HDR < end
  }

  function FirstFit(bs: seq<Block>, end: nat, from: nat, n: nat): (r: nat)
    requires from <= |bs|
    ensures from <= r <= |bs|
    ensures forall i :: from <= i < r ==> !Fits(bs, end, i, n)
    ensures r < |bs| ==> Fits(bs, end, r, n)
    decreases |bs| - from
  {
    if from == |bs| || Fits(bs, end, from, n) then from else FirstFit(bs, end, from + 1, n)
  }

  /** Block i keeps n words of payload, the rest becomes a free block behind it. */
  function Split(bs: seq<Block>, i: nat, n: nat): seq<Block>
    requires i < |bs|
  {
    bs[..i] + [Block(bs[i].at, true), Block(bs[i].at + HDR + n, false)] + bs[i + 1..]
  }

  function Take(bs: seq<Block>, end: nat, i: nat, n: nat): seq<Block>
    requires i < |bs|
  {
    if Payload(bs, end, i) >= n + HDR + MIN_SIZE then Split(bs, i, n)
    else bs[..i] + [Block(bs[i].at, true)] + bs[i + 1..]
  }

  /** rt_malloc for n words; the result is the address of the payload. */
  function Malloc(h: Heap, n: nat): (Heap, Option<nat>) {
    var i := FirstFit(h.blocks, h.end, IndexFrom(h.blocks, h.lfree, 0), n);
    if i == |h.blocks| then (h, None)
    else
      var bs := Take(h.blocks, h.end, i, n);
      var used := h.used + NextAt(bs, h.end, i) - bs[i].at;
      var lfree := if bs[i].at == h.lfree then LowestFree(bs, h.end, i) else h.lfree;
      (Heap(bs, h.end, lfree, used, Max(h.peak, used)), Some(bs[i].at + HDR))
  }

  function Drop<T>(s: seq<T>, i: nat): seq<T>
    requires i < |s|
  {
    s[..i] + s[i + 1..]
  }

  /** plug_holes: block i is free; join it with a free successor, then with a free predecessor. */
  function PlugForward(h: Heap, i: nat): Heap
    requires i < |h.blocks|
  {
    if i + 1 < |h.blocks| && !h.blocks[i + 1].used then
      h.(lfree := if h.lfree == h.blocks[i + 1].at then h.blocks[i].at else h.lfree,
         blocks := Drop(h.blocks, i + 1))
    else h
  }

  function PlugBackward(h: Heap, i: nat): Heap
    requires i < |h.blocks|
  {
    if i > 0 && !h.blocks[i - 1].used then
      h.(lfree := if h.lfree == h.blocks[i].at then h.blocks[i - 1].at else h.lfree,
         blocks := Drop(h.blocks, i))
    else h
  }

  /** rt_free of the used block with index i, up to plug_holes. */
  function Release(h: Heap, i: nat): Heap
    requires i < |h.blocks|
  {
    h.(blocks := h.blocks[..i] + [Block(h.blocks[i].at, false)] + h.blocks[i + 1..],
       lfree := if h.blocks[i].at < h.lfree then h.blocks[i].at else h.lfree,
       used := h.used - (NextAt(h.blocks, h.end, i) - h.blocks[i].at))
  }

  function Free(h: Heap, i: nat): Heap
    requires i < |h.blocks|
  {
    PlugBackward(PlugForward(Release(h, i), i), i)
  }

  /** The shrinking branch of rt_realloc, n words kept. */
  function Shrink(h: Heap, i: nat, n: nat): Heap
    requires i < |h.blocks|
  {
    var h1 := h.(blocks := Split(h.blocks, i, n), used := h.used - (Payload(h.blocks, h.end, i) - n));
    PlugBackward(PlugForward(h1, i + 1), i + 1)
  }

  /** rt_realloc of the used block with index i to n > 0 words: unchanged, shrunk, or moved. */
  function Realloc(h: Heap, i: nat, n: nat): (Heap, Option<nat>)
    requires i < |h.blocks|
  {
    var size := Payload(h.blocks, h.end, i);
    var p := h.blocks[i].at + HDR;
    if size == n then (h, Some(p))
    else if n + HDR + MIN_SIZE < size then (Shrink(h, i, n), Some(p))
    else
      var (h1, r) := Malloc(h, if n < MIN_SIZE then MIN_SIZE else n);
      match r
      case None => (h1, None)
      case Some(q) =>
        var k := IndexFrom(h1.blocks, h.blocks[i].at, 0);
        if k < |h1.blocks| then (Free(h1, k), Some(q)) else (h1, Some(q))
  }

  // ---------------------------------------------------------------- runs

  /** The steps an allocator run is made of; a moving realloc is a DoMalloc followed by a DoFree. */
  datatype Op = DoMalloc(n: nat) | DoFree(p: nat) | DoShrink(p: nat, n: nat)

  /** Callers give back or resize only what they were handed, and a resize leaves room for a header. */
  ghost predicate Legal(h: Heap, op: Op) {
    match op
    case DoMalloc(_) => true
    case DoFree(p) => HDR <= p && IsUsedAt(h.blocks, p - HDR)
    case DoShrink(p, n) =>
      && HDR <= p && IsUsedAt(h.blocks, p - HDR)
      && var i := IndexFrom(h.blocks, p - HDR, 0);
         i < |h.blocks| && n + HDR + MIN_SIZE < Payload(h.blocks, h.end, i)
  }

  ghost function Step(h: Heap, op: Op): Heap
    requires Legal(h, op)
  {
    match op
    case DoMalloc(n) => Malloc(h, n).0
    case DoFree(p) =>
      var i := IndexFrom(h.blocks, p - HDR, 0);
      if i < |h.blocks| then Free(h, i) else h
    case DoShrink(p, n) => Shrink(h, IndexFrom(h.blocks, p - HDR, 0), n)
  }

  /** trace is the sequence of states of the run ops. */
  ghost predicate IsRun(trace: seq<Heap>, ops: seq<Op>) {
    && |trace| == |ops| + 1
    && forall k :: 0 <= k < |ops| ==> Legal(trace[k], ops[k]) && trace[k + 1] == Step(trace[k], ops[k])
  }

  /** The largest value of used in a trace. */
  ghost function HighWater(trace: seq<Heap>): int
    requires |trace| > 0
  {
    var last := trace[|trace| - 1].used;
    if |trace| == 1 then last else Max(HighWater(trace[..|trace| - 1]), last)
  }
}
