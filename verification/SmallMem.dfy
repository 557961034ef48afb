/** The small-memory heap of rt-thread/src/mem.c: block headers and payloads share one array of
    32-bit words, and every link is a byte offset stored in that array. Each operation is proved to
    do to the ghost model h exactly what module HeapModel says, and to leave handed-out words alone. */
module SmallMem {
  import opened RtDef
  import opened HeapModel
  import opened Numbers
  import opened HeapLaws

  const HEAP_MAGIC: nat := 0x1ea0
  const SIZEOF_MEM: nat := 12
  const MIN_BYTES: nat := 12

  /** First word of a header: magic in the low half, used in the high half. */
  function Tag(used: bool): word {
    HEAP_MAGIC + if used then 0x1_0000 else 0
  }

  function WithMagic(w: word): (r: word) {
    w / 0x1_0000 * 0x1_0000 + HEAP_MAGIC
  }

  function WithUsed(w: word, used: bool): (r: word) {
    w % 0x1_0000 + if used then 0x1_0000 else 0
  }

  predicate IsUsed(w: word) {
    w / 0x1_0000 != 0
  }

  /** The size rt_malloc searches for. */
  function Wanted(request: word): nat {
    if Align(request) < MIN_BYTES then MIN_BYTES else Align(request)
  }

  // ---------------------------------------------------------------- the model inside the array

  function PrevAt(bs: seq<Block>, i: nat): nat
    requires i < |bs|
  {
    if i == 0 then 0 else bs[i - 1].at
  }

  ghost predicate Header(m: seq<word>, bs: seq<Block>, end: nat, i: nat)
    requires i < |bs|
  {
    && bs[i].at + 2 < |m|
    && m[bs[i].at] == Tag(bs[i].used)
    && m[bs[i].at + 1] == 4 * NextAt(bs, end, i)
    && m[bs[i].at + 2] == 4 * PrevAt(bs, i)
  }

  /** m holds the headers of bs, and heap_end at address end; heap_end's prev is not kept by the code. */
  ghost predicate Stored(m: seq<word>, bs: seq<Block>, end: nat) {
    && |m| == end + HDR
    && (forall i :: 0 <= i < |bs| ==> Header(m, bs, end, i))
    && m[end] == Tag(true) && m[end + 1] == 4 * end
  }

  /** Words that no header of bs covers. */
  ghost predicate OutsideHeaders(bs: seq<Block>, end: nat, r: (nat, nat)) {
    && r.1 <= end
    && forall j :: 0 <= j < |bs| ==> r.1 <= bs[j].at || bs[j].at + HDR <= r.0
  }

  /** A handed-out region meets no header: metadata never lies inside a live payload. */
  lemma LiveOutsideHeaders(bs: seq<Block>, end: nat, r: (nat, nat))
    requires Tiling(bs, end) && r in Live(bs, end)
    ensures OutsideHeaders(bs, end, r)
  {
    var k := LiveBlock(bs, end, r);
    BelowEnd(bs, end, k);
    forall j | 0 <= j < |bs|
      ensures r.1 <= bs[j].at || bs[j].at + HDR <= r.0
    {
      if j != k {
        PayloadsApart(bs, end, j, k);
        BelowEnd(bs, end, j);
      }
    }
  }

  /** Two handed-out regions do not overlap. */
  lemma LiveApart(bs: seq<Block>, end: nat, r: (nat, nat), s: (nat, nat))
    requires Tiling(bs, end) && r in Live(bs, end) && s in Live(bs, end) && r != s
    ensures r.1 <= s.0 || s.1 <= r.0
  {
    var k := LiveBlock(bs, end, r);
    var l := LiveBlock(bs, end, s);
    PayloadsApart(bs, end, k, l);
  }

  /** The words written when block i is split: the new header, the link of block i, and the back link
      of the block behind, unless that is heap_end. */
  ghost predicate SplitWritten(m: seq<word>, m': seq<word>, bs: seq<Block>, end: nat, i: nat, n: nat)
    requires i < |bs|
  {
    var p := bs[i].at;
    var p2 := p + HDR + n;
    var next := NextAt(bs, end, i);
    && |m'| == |m| == end + HDR && p2 + 2 < next <= end
    && m'[p + 1] == 4 * p2
    && m'[p2] == Tag(false) && m'[p2 + 1] == 4 * next && m'[p2 + 2] == 4 * p
    && (next != end ==> m'[next + 2] == 4 * p2)
    && forall a :: 0 <= a < |m| && a != p + 1 && !(p2 <= a <= p2 + 2) && (next == end || a != next + 2)
         ==> m'[a] == m[a]
  }

  lemma SplitStoredOther(m: seq<word>, m': seq<word>, bs: seq<Block>, end: nat, i: nat, n: nat, j: nat)
    requires Stored(m, bs, end) && Tiling(bs, end) && i < |bs| && Payload(bs, end, i) >= n + HDR
    requires SplitWritten(m, m', bs, end, i, n) && j < |bs| && j != i
    ensures bs[j].at + 2 < |m|
    ensures m'[bs[j].at] == m[bs[j].at] && m'[bs[j].at + 1] == m[bs[j].at + 1]
    ensures m'[bs[j].at + 2] == if j == i + 1 then 4 * (bs[i].at + HDR + n) else m[bs[j].at + 2]
  {
    assert Header(m, bs, end, j);
    BelowEnd(bs, end, j);
    if j < i {
      Ascending(bs, end, j, i);
    } else {
      Ascending(bs, end, i, j);
      if i + 1 < j {
        Ascending(bs, end, i + 1, j);
      }
    }
  }

  lemma SplitAtEnd(m: seq<word>, m': seq<word>, bs: seq<Block>, end: nat, i: nat, n: nat)
    requires Stored(m, bs, end) && Tiling(bs, end) && i < |bs| && Payload(bs, end, i) >= n + HDR
    requires SplitWritten(m, m', bs, end, i, n)
    ensures |m'| == |m| && m'[end] == m[end] && m'[end + 1] == m[end + 1]
  {
    assert Header(m, bs, end, i);
    BelowEnd(bs, end, i);
    if i + 1 < |bs| {
      BelowEnd(bs, end, i + 1);
    }
  }

  lemma SplitHeaderFar(m: seq<word>, m': seq<word>, bs: seq<Block>, end: nat, i: nat, n: nat, j: nat)
    requires Stored(m, bs, end) && Tiling(bs, end) && i < |bs| && Payload(bs, end, i) >= n + HDR
    requires SplitWritten(m, m', bs, end, i, n) && j < |bs| && j != i
    ensures |Split(bs, i, n)| == |bs| + 1 && Header(m', Split(bs, i, n), end, if j < i then j else j + 1)
  {
    hide Tiling, SplitWritten, Payload;
    var t := Split(bs, i, n);
    SplitShape(bs, end, i, n);
    SplitStoredOther(m, m', bs, end, i, n, j);
    SplitAtEnd(m, m', bs, end, i, n);
    assert Header(m, bs, end, j);
    if j < i {
      assert NextAt(t, end, j) == NextAt(bs, end, j) && PrevAt(t, j) == PrevAt(bs, j);
    } else {
      assert t[j + 1] == bs[j] && NextAt(t, end, j + 1) == NextAt(bs, end, j);
      assert j > i + 1 ==> t[j] == bs[j - 1];
    }
  }

  lemma SplitHeaderNear(m: seq<word>, m': seq<word>, bs: seq<Block>, end: nat, i: nat, n: nat)
    requires Stored(m, bs, end) && Tiling(bs, end) && i < |bs| && Payload(bs, end, i) >= n + HDR
    requires SplitWritten(m, m', bs, end, i, n) && bs[i].used
    ensures |Split(bs, i, n)| == |bs| + 1
    ensures Header(m', Split(bs, i, n), end, i) && Header(m', Split(bs, i, n), end, i + 1)
  {
    var t := Split(bs, i, n);
    SplitShape(bs, end, i, n);
    hide Tiling;
    assert Header(m, bs, end, i);
    BelowEnd(bs, end, i);
    assert PrevAt(t, i) == PrevAt(bs, i);
  }

  lemma SplitStored(m: seq<word>, m': seq<word>, bs: seq<Block>, end: nat, i: nat, n: nat)
    requires Stored(m, bs, end) && Tiling(bs, end) && i < |bs| && Payload(bs, end, i) >= n + HDR
    requires SplitWritten(m, m', bs, end, i, n) && bs[i].used
    ensures Stored(m', Split(bs, i, n), end)
  {
    hide Header, Split, Payload;
    var t := Split(bs, i, n);
    SplitAtEnd(m, m', bs, end, i, n);
    SplitHeaderNear(m, m', bs, end, i, n);
    forall j | 0 <= j < |t|
      ensures Header(m', t, end, j)
    {
      if j < i {
        SplitHeaderFar(m, m', bs, end, i, n, j);
      } else if j > i + 1 {
        SplitHeaderFar(m, m', bs, end, i, n, j - 1);
      }
    }
  }

  /** The words written when block k is joined to the free block before it. */
  ghost predicate DropWritten(m: seq<word>, m': seq<word>, bs: seq<Block>, end: nat, k: nat)
    requires 0 < k < |bs|
  {
    var p, next := bs[k - 1].at, NextAt(bs, end, k);
    && |m'| == |m| == end + HDR && next <= end && p + 1 < end
    && m'[p + 1] == 4 * next && m'[next + 2] == 4 * p
    && forall a :: 0 <= a < |m| && a != p + 1 && a != next + 2 ==> m'[a] == m[a]
  }

  lemma DropHeader(m: seq<word>, m': seq<word>, bs: seq<Block>, end: nat, k: nat, j: nat)
    requires Stored(m, bs, end) && Tiling(bs, end) && 0 < k < |bs| && FreePair(bs, k)
    requires DropWritten(m, m', bs, end, k) && j + 1 < |bs|
    ensures |Drop(bs, k)| == |bs| - 1 && Header(m', Drop(bs, k), end, j)
  {
    var t := Drop(bs, k);
    DropShape(bs, end, k);
    BelowEnd(bs, end, k);
    Ascending(bs, end, k - 1, k);
    if k + 1 < |bs| {
      BelowEnd(bs, end, k + 1);
    }
    var l := if j < k then j else j + 1;
    assert Header(m, bs, end, l) && t[j] == bs[l];
    BelowEnd(bs, end, l);
    if l < k - 1 {
      Ascending(bs, end, l, k - 1);
    } else if l > k {
      Ascending(bs, end, k, l);
      assert NextAt(t, end, j) == NextAt(bs, end, l);
      if l > k + 1 {
        Ascending(bs, end, k + 1, l);
        assert t[j - 1] == bs[l - 1];
      }
    }
  }

  lemma DropStored(m: seq<word>, m': seq<word>, bs: seq<Block>, end: nat, k: nat)
    requires Stored(m, bs, end) && Tiling(bs, end) && 0 < k < |bs| && FreePair(bs, k)
    requires DropWritten(m, m', bs, end, k)
    ensures Stored(m', Drop(bs, k), end)
  {
    hide Header, Drop, FreePair;
    var t := Drop(bs, k);
    BelowEnd(bs, end, k);
    BelowEnd(bs, end, k - 1);
    if k + 1 < |bs| {
      BelowEnd(bs, end, k + 1);
    }
    DropHeader(m, m', bs, end, k, 0);
    assert m'[end] == m[end] && m'[end + 1] == m[end + 1];
    forall j | 0 <= j < |t|
      ensures Header(m', t, end, j)
    {
      DropHeader(m, m', bs, end, k, j);
    }
  }

  /** The words written when block i changes between used and free. */
  lemma RetagStored(m: seq<word>, m': seq<word>, bs: seq<Block>, end: nat, i: nat, used: bool)
    requires Stored(m, bs, end) && Tiling(bs, end) && i < |bs|
    requires |m'| == |m| && bs[i].at < |m| && m'[bs[i].at] == Tag(used)
    requires forall a :: 0 <= a < |m| && a != bs[i].at ==> m'[a] == m[a]
    ensures Stored(m', bs[..i] + [Block(bs[i].at, used)] + bs[i + 1..], end)
  {
    var t := bs[..i] + [Block(bs[i].at, used)] + bs[i + 1..];
    assert forall j :: 0 <= j < |t| ==> t[j].at == bs[j].at && (j != i ==> t[j] == bs[j]);
    BelowEnd(bs, end, i);
    forall j | 0 <= j < |t|
      ensures Header(m', t, end, j)
    {
      assert Header(m, bs, end, j) && NextAt(t, end, j) == NextAt(bs, end, j);
      if j < i {
        Ascending(bs, end, j, i);
      } else if i < j {
        Ascending(bs, end, i, j);
      }
    }
  }

  /** What the words of the i-th header say, and where they are. */
  lemma HeaderWords(m: seq<word>, bs: seq<Block>, end: nat, i: nat)
    requires Stored(m, bs, end) && Tiling(bs, end) && i < |bs|
    ensures bs[i].at + HDR <= NextAt(bs, end, i) <= end && |m| == end + HDR
    ensures m[bs[i].at] == Tag(bs[i].used) && m[bs[i].at + 1] == 4 * NextAt(bs, end, i)
    ensures m[bs[i].at + 2] == 4 * PrevAt(bs, i)
    ensures NextAt(bs, end, i) == end || NextAt(bs, end, i) + HDR <= end
    ensures m[end] == Tag(true)
  {
    assert Header(m, bs, end, i);
    BelowEnd(bs, end, i);
    if i + 1 < |bs| {
      BelowEnd(bs, end, i + 1);
    }
  }

  // ---------------------------------------------------------------- words that stay

  /** m' has the same words as m in region r. */
  ghost predicate SameOn(m: seq<word>, m': seq<word>, r: (nat, nat)) {
    |m'| == |m| && forall a :: r.0 <= a < r.1 && a < |m| ==> m'[a] == m[a]
  }

  ghost predicate SameOnAll(m: seq<word>, m': seq<word>, live: set<(nat, nat)>) {
    forall r :: r in live ==> SameOn(m, m', r)
  }

  /** Splitting block i writes into no region but its own, and there only behind the n words kept. */
  lemma SplitFrame(m: seq<word>, m': seq<word>, bs: seq<Block>, end: nat, i: nat, n: nat)
    requires Tiling(bs, end) && i < |bs| && Payload(bs, end, i) >= n + HDR && SplitWritten(m, m', bs, end, i, n)
    ensures SameOnAll(m, m', Live(bs, end) - {Region(bs, end, i)})
    ensures SameOn(m, m', (bs[i].at + HDR, bs[i].at + HDR + n))
  {
    BelowEnd(bs, end, i);
    forall r | r in Live(bs, end) - {Region(bs, end, i)}
      ensures SameOn(m, m', r)
    {
      LiveOutsideHeaders(bs, end, r);
      var k := LiveBlock(bs, end, r);
      PayloadsApart(bs, end, i, k);
      if i + 1 < |bs| {
        assert r.1 <= bs[i + 1].at || bs[i + 1].at + HDR <= r.0;
      }
    }
  }

  /** Splitting a free block, then tagging its first part used. */
  lemma SplitFree(m: seq<word>, mid: seq<word>, m': seq<word>, bs: seq<Block>, end: nat, i: nat, n: nat)
    requires Stored(m, bs, end) && Tiling(bs, end) && i < |bs| && Payload(bs, end, i) >= n + HDR
    requires SplitWritten(m, mid, bs, end, i, n)
    requires |m'| == |m| && bs[i].at < |m| && m' == mid[bs[i].at := Tag(true)]
    ensures Stored(m', Split(bs, i, n), end)
  {
    var u := bs[..i] + [Block(bs[i].at, true)] + bs[i + 1..];
    var m1 := m[bs[i].at := Tag(true)];
    RetagStored(m, m1, bs, end, i, true);
    Retag(bs, end, i, true);
    assert u[i].at == bs[i].at && NextAt(u, end, i) == NextAt(bs, end, i);
    BelowEnd(bs, end, i);
    assert SplitWritten(m1, m', u, end, i, n);
    SplitStored(m1, m', u, end, i, n);
    assert Split(u, i, n) == Split(bs, i, n);
  }

  lemma SplitFreeFrame(m: seq<word>, mid: seq<word>, m': seq<word>, bs: seq<Block>, end: nat, i: nat, n: nat)
    requires Tiling(bs, end) && i < |bs| && !bs[i].used && Payload(bs, end, i) >= n + HDR
    requires SplitWritten(m, mid, bs, end, i, n)
    requires |m'| == |m| && bs[i].at < |m| && m' == mid[bs[i].at := Tag(true)]
    ensures SameOnAll(m, m', Live(bs, end))
  {
    SplitFrame(m, mid, bs, end, i, n);
    LiveParts(bs, end, i, [bs[i]]);
    forall r | r in Live(bs, end)
      ensures SameOn(m, m', r)
    {
      assert r in Live(bs, end) - {Region(bs, end, i)};
      LiveOutsideHeaders(bs, end, r);
      assert r.1 <= bs[i].at || bs[i].at + HDR <= r.0;
    }
  }

  /** The n words from p on in m are the n words from q on in m'. */
  ghost predicate Copied(m: seq<word>, p: nat, m': seq<word>, q: nat, n: int) {
    0 <= n && p + n <= |m| && q + n <= |m'| && m'[q..q + n] == m[p..p + n]
  }

  /** Writing inside one handed-out region disturbs neither headers nor other regions. */
  lemma WrittenInside(m: seq<word>, m': seq<word>, h: Heap, r: (nat, nat))
    requires Inv(h) && Stored(m, h.blocks, h.end) && r in Live(h.blocks, h.end)
    requires |m'| == |m| && forall a :: 0 <= a < |m| && !(r.0 <= a < r.1) ==> m'[a] == m[a]
    ensures Stored(m', h.blocks, h.end)
    ensures SameOnAll(m, m', Live(h.blocks, h.end) - {r})
  {
    LiveOutsideHeaders(h.blocks, h.end, r);
    forall j | 0 <= j < |h.blocks|
      ensures Header(m', h.blocks, h.end, j)
    {
      assert Header(m, h.blocks, h.end, j);
    }
    forall s | s in Live(h.blocks, h.end) - {r}
      ensures SameOn(m, m', s)
    {
      LiveApart(h.blocks, h.end, r, s);
    }
  }

  lemma SameOnAllRefl(m: seq<word>, live: set<(nat, nat)>)
    ensures SameOnAll(m, m, live)
  {
  }

  lemma DropFrame(m: seq<word>, m': seq<word>, bs: seq<Block>, end: nat, k: nat)
    requires Tiling(bs, end) && 0 < k < |bs| && DropWritten(m, m', bs, end, k)
    ensures SameOnAll(m, m', Live(bs, end))
  {
    forall r | r in Live(bs, end)
      ensures SameOn(m, m', r)
    {
      LiveOutsideHeaders(bs, end, r);
      assert r.1 <= bs[k - 1].at || bs[k - 1].at + HDR <= r.0;
      if k + 1 < |bs| {
        assert r.1 <= bs[k + 1].at || bs[k + 1].at + HDR <= r.0;
      }
    }
  }

  lemma RetagFrame(m: seq<word>, m': seq<word>, bs: seq<Block>, end: nat, i: nat)
    requires Tiling(bs, end) && i < |bs| && |m| == |m'| == end + HDR
    requires forall a :: 0 <= a < |m| && a != bs[i].at ==> m'[a] == m[a]
    ensures SameOnAll(m, m', Live(bs, end))
  {
    forall r | r in Live(bs, end)
      ensures SameOn(m, m', r)
    {
      LiveOutsideHeaders(bs, end, r);
      assert r.1 <= bs[i].at || bs[i].at + HDR <= r.0;
    }
  }

  // ---------------------------------------------------------------- the allocator

  /** The request in words, as rt_malloc adjusts it. */
  function Words(request: word): nat {
    if Align(request) < MIN_BYTES then MIN_SIZE else Align(request) / 4
  }

  lemma WordsOfMultiple(request: word, n: nat)
    requires request == 4 * n && n > 0
    ensures Align(request) == request && Words(request) == if n < MIN_SIZE then MIN_SIZE else n
  {
  }

  function InBytes(r: Option<nat>): Option<nat> {
    match r
    case None => None
    case Some(p) => Some(4 * p)
  }

  /** mem_size_aligned, or None when the two headers do not fit. */
  function Geometry(begin: word, finish: word): Option<nat> {
    var b, e := Align(begin), finish / 4 * 4;
    if e > 2 * SIZEOF_MEM && e - 2 * SIZEOF_MEM >= b then Some(e - b - 2 * SIZEOF_MEM) else None
  }

  lemma NothingFits(bs: seq<Block>, end: nat, from: nat, n: nat)
    requires Tiling(bs, end) && from <= |bs| && StartOf(bs[from..], end) + n + HDR >= end
    ensures FirstFit(bs, end, from, n) == |bs|
  {
    var i := FirstFit(bs, end, from, n);
    if from < i < |bs| {
      Ascending(bs, end, from, i);
    }
  }

  lemma TooLarge(h: Heap, n: nat)
    requires Inv(h) && h.end < n + HDR
    ensures HeapModel.Malloc(h, n) == (h, None)
  {
    NothingFits(h.blocks, h.end, IndexFrom(h.blocks, h.lfree, 0), n);
  }

  /** Where the search starts. */
  lemma HintIndex(h: Heap)
    requires Inv(h)
    ensures StartOf(h.blocks[IndexFrom(h.blocks, h.lfree, 0)..], h.end) == h.lfree
  {
    var k := IndexFrom(h.blocks, h.lfree, 0);
    if h.lfree != h.end {
      var j :| 0 <= j < |h.blocks| && h.blocks[j].at == h.lfree && !h.blocks[j].used;
      IndexFound(h.blocks, h.end, j);
    } else if k < |h.blocks| {
      BelowEnd(h.blocks, h.end, k);
    }
  }

  /** The byte offset of rt_malloc's search after k passes, as the next words of the headers lead it. */
  function OffsetAfter(m: seq<word>, start: nat, k: nat): nat {
    if k == 0 then start
    else var off := OffsetAfter(m, start, k - 1); if off / 4 + 1 < |m| then m[off / 4 + 1] else off
  }

  /** The search at offset off passes its unsigned bound, finds no block to take there, and goes on. */
  predicate GoesOn(m: seq<word>, memSize: nat, want: nat, off: nat) {
    && off < (memSize - want) % 0x1_0000_0000
    && off / 4 + 1 < |m|
    && (IsUsed(m[off / 4]) || (m[off / 4 + 1] - (off + SIZEOF_MEM)) % 0x1_0000_0000 < want)
  }

  /** Index of the block the search has come to after k passes from block i on, or of none. */
  function Reached(bs: seq<Block>, i: nat, k: nat): (j: nat)
    ensures j <= |bs|
  {
    if i + k < |bs| then i + k else |bs|
  }

  /** What the search reads at block i. */
  lemma BlockRead(m: seq<word>, bs: seq<Block>, end: nat, off: nat, i: nat)
    requires Tiling(bs, end) && Stored(m, bs, end) && i <= |bs| && off == 4 * StartOf(bs[i..], end)
    ensures off / 4 + 1 < |m|
    ensures i < |bs| ==>
              && off == 4 * bs[i].at && m[off / 4 + 1] == 4 * StartOf(bs[i + 1..], end)
              && (IsUsed(m[off / 4]) <==> bs[i].used)
              && m[off / 4 + 1] - (off + SIZEOF_MEM) == 4 * Payload(bs, end, i) >= 0
    ensures i == |bs| ==> off == 4 * end == m[off / 4 + 1] && IsUsed(m[off / 4])
  {
    if i < |bs| {
      assert Header(m, bs, end, i);
      BelowEnd(bs, end, i);
    }
  }

  /** The search meets block after block, and stays at heap_end, whose next is itself. */
  lemma {:induction false} OffsetIsBlock(m: seq<word>, h: Heap, k: nat)
    requires Inv(h) && Stored(m, h.blocks, h.end)
    ensures var j := Reached(h.blocks, IndexFrom(h.blocks, h.lfree, 0), k);
            OffsetAfter(m, 4 * h.lfree, k) == 4 * StartOf(h.blocks[j..], h.end)
  {
    hide NoTwoFree, UsedWords, Stored, Tiling;
    if k == 0 {
      HintIndex(h);
    } else {
      OffsetIsBlock(m, h, k - 1);
      var j := Reached(h.blocks, IndexFrom(h.blocks, h.lfree, 0), k - 1);
      BlockRead(m, h.blocks, h.end, OffsetAfter(m, 4 * h.lfree, k - 1), j);
    }
  }

  lemma PayloadFits(bs: seq<Block>, end: nat, i: nat)
    requires Tiling(bs, end) && i < |bs|
    ensures 0 <= Payload(bs, end, i) <= end - HDR
  {
    BelowEnd(bs, end, i);
  }

  /** On a heap of less than 12 usable bytes no block fits, and the wrapped bound stops at no offset. */
  lemma ShortHeapGoesOn(m: seq<word>, h: Heap, memSize: nat, want: nat, k: nat)
    requires Inv(h) && Stored(m, h.blocks, h.end) && memSize + SIZEOF_MEM == 4 * h.end && memSize < MIN_BYTES == want
    ensures GoesOn(m, memSize, want, OffsetAfter(m, 4 * h.lfree, k))
  {
    hide NoTwoFree, UsedWords, Stored, Tiling, OffsetAfter, IsUsed, Payload;
    OffsetIsBlock(m, h, k);
    var j := Reached(h.blocks, IndexFrom(h.blocks, h.lfree, 0), k);
    BlockRead(m, h.blocks, h.end, OffsetAfter(m, 4 * h.lfree, k), j);
    assert (memSize - want) % 0x1_0000_0000 == memSize - want + 0x1_0000_0000;
    if j < |h.blocks| {
      PayloadFits(h.blocks, h.end, j);
      assert h.blocks[j].at <= h.end by { BelowEnd(h.blocks, h.end, j); }
    }
  }

  /** rt_malloc's search, on any heap the allocator can be in: every pass goes on to another one exactly when
      the heap has less than 12 usable bytes. */
  lemma SearchHasNoEndIff(m: seq<word>, h: Heap, memSize: nat, request: word)
    requires Inv(h) && Stored(m, h.blocks, h.end) && memSize + SIZEOF_MEM == 4 * h.end
    requires memSize + 2 * SIZEOF_MEM < 0x1_0000_0000 && 0 < request && Align(request) <= memSize
    ensures (forall k: nat :: GoesOn(m, memSize, Wanted(request), OffsetAfter(m, 4 * h.lfree, k)))
            <==> memSize < MIN_BYTES
    ensures forall k: nat :: OffsetAfter(m, 4 * h.lfree, k) / 4 + 1 < |m|
  {
    hide Inv, Stored, OffsetAfter;
    var want := Wanted(request);
    if memSize < MIN_BYTES {
      forall k: nat
        ensures GoesOn(m, memSize, want, OffsetAfter(m, 4 * h.lfree, k))
      {
        ShortHeapGoesOn(m, h, memSize, want, k);
      }
    } else {
      var k := |h.blocks| - IndexFrom(h.blocks, h.lfree, 0);
      OffsetIsBlock(m, h, k);
      assert (memSize - want) % 0x1_0000_0000 == memSize - want;
      assert !GoesOn(m, memSize, want, OffsetAfter(m, 4 * h.lfree, k));
    }
    forall k: nat
      ensures OffsetAfter(m, 4 * h.lfree, k) / 4 + 1 < |m|
    {
      StaysInside(m, h, k);
    }
  }

  lemma StaysInside(m: seq<word>, h: Heap, k: nat)
    requires Inv(h) && Stored(m, h.blocks, h.end)
    ensures OffsetAfter(m, 4 * h.lfree, k) / 4 + 1 < |m|
  {
    OffsetIsBlock(m, h, k);
    BlockRead(m, h.blocks, h.end, OffsetAfter(m, 4 * h.lfree, k),
      Reached(h.blocks, IndexFrom(h.blocks, h.lfree, 0), k));
  }

  lemma FreshTag(w: word, used: bool)
    ensures WithUsed(WithMagic(w), used) == Tag(used)
  {
  }

  lemma InitStored(m: seq<word>, end: nat)
    requires HDR <= end && |m| == end + HDR && m[0] == Tag(false) && m[1] == 4 * end && m[2] == 0
    requires m[end] == Tag(true) && m[end + 1] == 4 * end
    ensures Stored(m, Init(end).blocks, end)
  {
    hide Tag;
    assert Header(m, Init(end).blocks, end, 0);
  }

  /** What rt_realloc did to the model h0 and the words m0 for block i: the model's step, the kept part
      of the payload at the new place, every other region as it was. */
  ghost predicate Resized(h0: Heap, m0: seq<word>, i: nat, n: nat, h: Heap, m: seq<word>)
    requires i < |h0.blocks|
  {
    var size := Payload(h0.blocks, h0.end, i);
    && h == HeapModel.Realloc(h0, i, n).0
    && SameOnAll(m0, m, Live(h0.blocks, h0.end) - {Region(h0.blocks, h0.end, i)})
    && match HeapModel.Realloc(h0, i, n).1
       case None => h == h0 && m == m0
       case Some(q) => Copied(m0, h0.blocks[i].at + HDR, m, q, if size < n then size else n)
  }

  lemma ResizedHeap(h0: Heap, m0: seq<word>, i: nat, n: nat, h: Heap, m: seq<word>)
    requires i < |h0.blocks| && Resized(h0, m0, i, n, h, m)
    ensures h == HeapModel.Realloc(h0, i, n).0
  {
    hide HeapModel.Realloc, SameOnAll;
  }

  lemma NoneFits(h: Heap, n: nat)
    requires FirstFit(h.blocks, h.end, IndexFrom(h.blocks, h.lfree, 0), n) == |h.blocks|
    ensures HeapModel.Malloc(h, n) == (h, None)
  {
  }

  lemma NotResized(h0: Heap, m0: seq<word>, i: nat, n: nat, h: Heap, m: seq<word>)
    requires i < |h0.blocks| && Resized(h0, m0, i, n, h, m)
    ensures InBytes(HeapModel.Realloc(h0, i, n).1) == None ==> h == h0 && m == m0
  {
    hide HeapModel.Realloc, SameOnAll;
  }

  lemma AlignTwice(request: word)
    ensures Align(Align(request)) == Align(request) && Align(request) % 4 == 0
    ensures Words(Align(request)) == Words(request)
  {
    hide Align;
    AlignIsRoundUpIff(request);
    AlignedAlready(Align(request));
  }

  lemma AlignedAlready(size: word)
    requires size % 4 == 0
    ensures Align(size) == size
  {
    assert (size + 3) % 0x1_0000_0000 == size + 3;
  }

  lemma TakenModel(h: Heap, i: nat, n: nat)
    requires Inv(h) && i < |h.blocks|
    requires Fits(h.blocks, h.end, i, n) && i == FirstFit(h.blocks, h.end, IndexFrom(h.blocks, h.lfree, 0), n)
    ensures var t := Take(h.blocks, h.end, i, n);
            && i < |t| && Tiling(t, h.end) && t[i].at == h.blocks[i].at
            && var used := h.used + NextAt(t, h.end, i) - t[i].at;
               HeapModel.Malloc(h, n).0
                 == Heap(t, h.end, if t[i].at == h.lfree then LowestFree(t, h.end, i)
                   else h.lfree, used, Max(h.peak, used))
    ensures Inv(HeapModel.Malloc(h, n).0) && HeapModel.Malloc(h, n).1 == Some(h.blocks[i].at + HDR)
  {
    TakeKeeps(h, i, n);
    MallocKeeps(h, n);
  }

  lemma CopiedThenFreed(m: seq<word>, m2: seq<word>, m3: seq<word>, h: Heap, h3: Heap,
                        mine: (nat, nat), dst: (nat, nat), count: nat)
    requires Live(h3.blocks, h3.end) == Live(h.blocks, h.end) - {mine}
    requires SameOnAll(m, m2, Live(h.blocks, h.end) - {dst}) && SameOnAll(m2, m3, Live(h3.blocks, h3.end))
    requires dst in Live(h.blocks, h.end) && dst != mine
    requires Copied(m, mine.0, m2, dst.0, count) && dst.0 + count <= dst.1
    ensures Copied(m, mine.0, m3, dst.0, count)
    ensures SameOnAll(m, m3, Live(h.blocks, h.end) - {dst} - {mine})
  {
    assert SameOn(m2, m3, dst);
    assert m3[dst.0..dst.0 + count] == m2[dst.0..dst.0 + count];
    forall r | r in Live(h.blocks, h.end) - {dst} - {mine}
      ensures SameOn(m, m3, r)
    {
      assert SameOn(m, m2, r) && SameOn(m2, m3, r);
    }
  }

  /** Words across a moving rt_realloc: m1 after rt_malloc, m3 after the copy and rt_free. */
  lemma MovedWords(m: seq<word>, m1: seq<word>, m3: seq<word>, h: Heap, mine: (nat, nat), dst: (nat, nat), count: nat)
    requires mine in Live(h.blocks, h.end) && dst !in Live(h.blocks, h.end) && |m| == |m1|
    requires SameOnAll(m, m1, Live(h.blocks, h.end))
    requires SameOnAll(m1, m3, Live(h.blocks, h.end) + {dst} - {dst} - {mine})
    requires Copied(m1, mine.0, m3, dst.0, count) && mine.0 + count <= mine.1
    ensures SameOnAll(m, m3, Live(h.blocks, h.end) - {mine})
    ensures Copied(m, mine.0, m3, dst.0, count)
  {
    assert SameOn(m, m1, mine);
    assert m1[mine.0..mine.0 + count] == m[mine.0..mine.0 + count];
    forall r | r in Live(h.blocks, h.end) - {mine}
      ensures SameOn(m, m3, r)
    {
      assert SameOn(m, m1, r) && SameOn(m1, m3, r);
    }
  }

  lemma SameSize(h: Heap, m: seq<word>, i: nat)
    requires i < |h.blocks| && 0 <= Payload(h.blocks, h.end, i) && NextAt(h.blocks, h.end, i) <= |m|
    ensures Resized(h, m, i, Payload(h.blocks, h.end, i), h, m)
    ensures HeapModel.Realloc(h, i, Payload(h.blocks, h.end, i)).1 == Some(h.blocks[i].at + HDR)
  {
  }

  lemma ShrunkIsResized(h: Heap, m: seq<word>, i: nat, n: nat, h': Heap, m': seq<word>)
    requires i < |h.blocks| && n + HDR + MIN_SIZE < Payload(h.blocks, h.end, i) && h' == Shrink(h, i, n)
    requires SameOnAll(m, m', Live(h.blocks, h.end) - {Region(h.blocks, h.end, i)})
    requires Copied(m, h.blocks[i].at + HDR, m', h.blocks[i].at + HDR, n)
    ensures Resized(h, m, i, n, h', m')
    ensures HeapModel.Realloc(h, i, n).1 == Some(h.blocks[i].at + HDR)
  {
    hide Shrink, SameOnAll, Copied, Live;
  }

  /** What the moving branch did, n' being the adjusted request. */
  ghost predicate Moved(h: Heap, m: seq<word>, i: nat, n: nat, n': nat, k: nat, h': Heap, m': seq<word>)
    requires i < |h.blocks|
  {
    var (h1, r) := HeapModel.Malloc(h, n');
    && n' == (if n < MIN_SIZE then MIN_SIZE else n)
    && match r
       case None => h' == h && m' == m
       case Some(q) =>
         && k < |h1.blocks| && k == IndexFrom(h1.blocks, h.blocks[i].at, 0)
         && h' == HeapModel.Free(h1, k)
         && SameOnAll(m, m', Live(h.blocks, h.end) - {Region(h.blocks, h.end, i)})
         && Copied(m, h.blocks[i].at + HDR, m', q,
                   if Payload(h.blocks, h.end, i) < n then Payload(h.blocks, h.end, i) else n)
  }

  lemma MovedIsResized(h: Heap, m: seq<word>, i: nat, n: nat, n': nat, k: nat, h': Heap, m': seq<word>)
    requires i < |h.blocks| && 0 < n && Moved(h, m, i, n, n', k, h', m')
    requires Payload(h.blocks, h.end, i) != n && !(n + HDR + MIN_SIZE < Payload(h.blocks, h.end, i))
    ensures Resized(h, m, i, n, h', m')
    ensures HeapModel.Realloc(h, i, n).1 == HeapModel.Malloc(h, n').1
  {
    hide Live, Copied, HeapModel.Free, Take, LowestFree;
  }

  lemma FailedMalloc(h: Heap, n: nat)
    ensures HeapModel.Malloc(h, n).1 == None ==> HeapModel.Malloc(h, n).0 == h
  {
  }

  lemma FreshRegion(h1: Heap, h: Heap, dst: (nat, nat), mine: (nat, nat))
    requires Inv(h1) && Live(h1.blocks, h1.end) == Live(h.blocks, h.end) + {dst}
    requires mine in Live(h.blocks, h.end) && dst !in Live(h.blocks, h.end)
    ensures dst in Live(h1.blocks, h1.end) && dst != mine && dst.1 <= h1.end
  {
    LiveOutsideHeaders(h1.blocks, h1.end, dst);
  }

  lemma UsedHeader(m: seq<word>, h: Heap, i: nat)
    requires Inv(h) && Stored(m, h.blocks, h.end) && i < |h.blocks|
    ensures h.blocks[i].at + HDR <= NextAt(h.blocks, h.end, i) <= h.end && |m| == h.end + HDR
    ensures m[h.blocks[i].at + 1] == 4 * NextAt(h.blocks, h.end, i)
  {
    HeaderWords(m, h.blocks, h.end, i);
  }

  /** Words across a shrinking rt_realloc: mid after the split, m' after plug_holes. */
  lemma ShrunkWords(m: seq<word>, mid: seq<word>, m': seq<word>, h: Heap, i: nat, n: nat)
    requires Inv(h) && i < |h.blocks| && Payload(h.blocks, h.end, i) >= n + HDR && |m| == h.end + HDR
    requires SameOnAll(m, mid, Live(h.blocks, h.end) - {Region(h.blocks, h.end, i)})
    requires SameOn(m, mid, (h.blocks[i].at + HDR, h.blocks[i].at + HDR + n))
    requires SameOnAll(mid, m', Live(Split(h.blocks, i, n), h.end)) && h.blocks[i].used
    ensures SameOnAll(m, m', Live(h.blocks, h.end) - {Region(h.blocks, h.end, i)})
    ensures Copied(m, h.blocks[i].at + HDR, m', h.blocks[i].at + HDR, n)
  {
    var kept := (h.blocks[i].at + HDR, h.blocks[i].at + HDR + n);
    BelowEnd(h.blocks, h.end, i);
    SplitLive(h.blocks, h.end, i, n);
    assert SameOn(mid, m', kept);
    forall r | r in Live(h.blocks, h.end) - {Region(h.blocks, h.end, i)}
      ensures SameOn(m, m', r)
    {
      assert SameOn(m, mid, r) && SameOn(mid, m', r);
    }
  }

  lemma CopyFacts(m: seq<word>, h: Heap, k: nat, dst: (nat, nat))
    requires Inv(h) && Stored(m, h.blocks, h.end) && k < |h.blocks| && h.blocks[k].used
    requires dst in Live(h.blocks, h.end) && dst != Region(h.blocks, h.end, k)
    ensures var mine := Region(h.blocks, h.end, k);
            && |m| == h.end + HDR && dst.1 <= h.end && mine.1 <= h.end
            && (dst.1 <= mine.0 || mine.1 <= dst.0)
            && Live(HeapModel.Free(h, k).blocks, HeapModel.Free(h, k).end) == Live(h.blocks, h.end) - {mine}
            && Inv(HeapModel.Free(h, k))
  {
    UsedIsLive(h.blocks, h.end, k);
    LiveApart(h.blocks, h.end, dst, Region(h.blocks, h.end, k));
    LiveOutsideHeaders(h.blocks, h.end, dst);
    BelowEnd(h.blocks, h.end, k);
    FreeKeeps(h, k);
  }

  class Allocator {
    const mem: array<word>     // heap_ptr[..], addressed in bytes by the code, four to a word
    const memSize: nat         // mem_size_aligned
    var lfree: nat             // byte offset of the hint
    var usedMem: int
    var maxMem: int
    ghost var h: Heap

    ghost predicate Laid()
      reads this, mem
    {
      && memSize + SIZEOF_MEM == 4 * h.end
      && 4 * mem.Length < 0x1_0000_0000
      && Stored(mem[..], h.blocks, h.end)
    }

    ghost predicate InMemory()
      reads this, mem
    {
      && Laid()
      && lfree == 4 * h.lfree && usedMem == 4 * h.used && maxMem == 4 * h.peak
    }

    ghost predicate Valid()
      reads this, mem
    {
      InMemory() && Inv(h)
    }

    /** rt_system_heap_init, once the two addresses leave room for two headers. */
    constructor (begin: word, finish: word)
      requires Geometry(begin, finish).Some?
      ensures Valid() && fresh(mem)
      ensures memSize == Geometry(begin, finish).value && h == Init((memSize + SIZEOF_MEM) / 4)
    {
      hide Inv, LowestHint, Stored, WithUsed, WithMagic, Tag;
      var size := finish / 4 * 4 - Align(begin) - 2 * SIZEOF_MEM;
      memSize := size;
      mem := new word[size / 4 + 6](_ => 0);
      lfree, usedMem, maxMem := 0, 0, 0;
      h := Init((size + SIZEOF_MEM) / 4);
      new;
      FreshTag(mem[0], false);
      mem[0] := WithUsed(WithMagic(mem[0]), false);
      mem[1] := memSize + SIZEOF_MEM;
      mem[2] := 0;
      var end := mem[1] / 4;
      FreshTag(mem[end], true);
      mem[end] := WithUsed(WithMagic(mem[end]), true);
      mem[end + 1] := memSize + SIZEOF_MEM;
      mem[end + 2] := memSize + SIZEOF_MEM;
      InitKeeps(h.end);
      InitStored(mem[..], h.end);
    }

    /** rt_system_heap_init: no heap between addresses without room for two headers. */
    static method SystemHeapInit(begin: word, finish: word) returns (heap: Allocator?)
      ensures heap == null <==> Geometry(begin, finish) == None
      ensures heap != null ==>
                && heap.Valid() && fresh(heap) && fresh(heap.mem)
                && Align(begin) + heap.memSize + 2 * SIZEOF_MEM <= finish < Align(begin) + heap.memSize
                  + 2 * SIZEOF_MEM + 4
                && Live(heap.h.blocks, heap.h.end) == {} && LowestHint(heap.h)
    {
      if Geometry(begin, finish) == None {
        return null;
      }
      heap := new Allocator(begin, finish);
      InitKeeps(heap.h.end);
      assert heap.h.blocks[1..] == [];
    }

    /** plug_holes for the free block at byte offset off, the i-th. */
    method PlugHoles(off: nat, ghost i: nat)
      requires InMemory() && i < |h.blocks| && InvBut(h, i, i + 1)
      requires !h.blocks[i].used && off == 4 * h.blocks[i].at
      modifies this`lfree, this`h, mem
      ensures InMemory() && h == PlugBackward(PlugForward(old(h), i), i)
      ensures SameOnAll(old(mem[..]), mem[..], Live(old(h).blocks, old(h).end))
    {
      PlugForwardOf(off, i);
      PlugForwardKeeps(old(h), i);
      PlugBackwardOf(off, i);
    }

    /** Link the block at off with the one at next, both ways. */
    method JoinWords(off: word, next: word, ghost p: nat, ghost n: nat)
      requires off == 4 * p && next == 4 * n && p + 2 < mem.Length && n + 2 < mem.Length && p != n + 1
      modifies mem
      ensures mem[p + 1] == next && mem[n + 2] == off
      ensures forall a :: 0 <= a < mem.Length && a != p + 1 && a != n + 2 ==> mem[a] == old(mem[a])
    {
      mem[off / 4 + 1] := next;
      mem[next / 4 + 2] := off;
    }

    method PlugForwardOf(off: nat, ghost i: nat)
      requires InMemory() && i < |h.blocks| && InvBut(h, i, i + 1)
      requires !h.blocks[i].used && off == 4 * h.blocks[i].at
      modifies this`lfree, this`h, mem
      ensures InMemory() && h == PlugForward(old(h), i)
      ensures SameOnAll(old(mem[..]), mem[..], Live(old(h).blocks, old(h).end))
    {
      hide Stored, Tiling, IsFreeAt, UsedWords, Live, SameOnAll;
      ghost var was, bs, end := mem[..], h.blocks, h.end;
      HeaderWords(was, bs, end, i);
      if i + 1 < |bs| {
        HeaderWords(was, bs, end, i + 1);
      }
      var nmem := mem[off / 4 + 1];
      if off != nmem && !IsUsed(mem[nmem / 4]) && nmem != memSize + SIZEOF_MEM {
        if lfree == nmem {
          lfree := off;
        }
        JoinWords(off, mem[nmem / 4 + 1], bs[i].at, NextAt(bs, end, i + 1));
        h := PlugForward(h, i);
        assert FreePair(bs, i + 1);
        assert DropWritten(was, mem[..], bs, end, i + 1);
        DropStored(was, mem[..], bs, end, i + 1);
        DropFrame(was, mem[..], bs, end, i + 1);
      } else {
        SameOnAllRefl(was, Live(bs, end));
      }
    }

    method PlugBackwardOf(off: nat, ghost i: nat)
      requires InMemory() && i < |h.blocks| && InvBut(h, i, i)
      requires !h.blocks[i].used && off == 4 * h.blocks[i].at
      modifies this`lfree, this`h, mem
      ensures InMemory() && h == PlugBackward(old(h), i)
      ensures SameOnAll(old(mem[..]), mem[..], Live(old(h).blocks, old(h).end))
    {
      assert h.blocks[0].at == 0;
      hide Stored, Tiling, IsFreeAt, UsedWords, Live, SameOnAll;
      ghost var was, bs, end := mem[..], h.blocks, h.end;
      HeaderWords(was, bs, end, i);
      if i > 0 {
        HeaderWords(was, bs, end, i - 1);
      }
      var pmem := mem[off / 4 + 2];
      if pmem != off && !IsUsed(mem[pmem / 4]) {
        if lfree == off {
          lfree := pmem;
        }
        JoinWords(pmem, mem[off / 4 + 1], bs[i - 1].at, NextAt(bs, end, i));
        h := PlugBackward(h, i);
        assert FreePair(bs, i);
        assert DropWritten(was, mem[..], bs, end, i);
        DropStored(was, mem[..], bs, end, i);
        DropFrame(was, mem[..], bs, end, i);
      } else {
        SameOnAllRefl(was, Live(bs, end));
      }
    }

    /** rt_malloc. The only requirement is that the loop bound mem_size_aligned - size does not wrap. */
    method Malloc(request: word) returns (r: Option<nat>)
      requires Valid()
      requires request == 0 || MIN_BYTES <= memSize || memSize < Align(request)
      modifies this`lfree, this`usedMem, this`maxMem, this`h, mem
      ensures Valid()
      ensures request == 0 ==> r == None && h == old(h)
      ensures request > 0 ==> h == HeapModel.Malloc(old(h), Words(request)).0
                              && r == InBytes(HeapModel.Malloc(old(h), Words(request)).1)
      ensures SameOnAll(old(mem[..]), mem[..], Live(old(h).blocks, old(h).end))
      ensures r == None ==> h == old(h) && mem[..] == old(mem[..])
      ensures r.Some? ==> r.value % 4 == 0 && exists q: nat :: Handed(old(h), h, Words(request), r.value / 4, q)
    {
      hide Stored, Inv, SameOnAll, LowestFree, Take, Handed, HeapModel.Malloc, Tiling, Live, FirstFit;
      SameOnAllRefl(mem[..], Live(h.blocks, h.end));
      if request == 0 {
        return None;
      }
      var size := Align(request);
      ghost var n := Words(request);
      if size > memSize {
        TooLarge(h, n);
        return None;
      }
      if size < MIN_BYTES {
        size := MIN_BYTES;
      }
      var found, ptr, i := Search(size, n);
      if !found {
        NoneFits(h, n);
        return None;
      }
      TakenModel(h, i, n);
      ghost var q := MallocRegion(h, n);
      TakeAt(ptr, size, i, n);
      assert Handed(old(h), h, n, (ptr + SIZEOF_MEM) / 4, q);
      return Some(ptr + SIZEOF_MEM);
    }

    /** The search loop of rt_malloc: from the hint up to the bound. */
    method Search(size: nat, ghost n: nat) returns (found: bool, ptr: nat, ghost i: nat)
      requires Valid() && size == 4 * n && size <= memSize
      ensures i == FirstFit(h.blocks, h.end, IndexFrom(h.blocks, h.lfree, 0), n)
      ensures found <==> i < |h.blocks|
      ensures found ==> ptr == 4 * h.blocks[i].at
    {
      hide Stored, Tiling, NoTwoFree, UsedWords, Payload, IsUsed;
      HintIndex(h);
      i := IndexFrom(h.blocks, h.lfree, 0);
      ptr := lfree;
      while ptr < memSize - size
        invariant i <= |h.blocks| && ptr == 4 * StartOf(h.blocks[i..], h.end)
        invariant FirstFit(h.blocks, h.end, i, n) == FirstFit(h.blocks, h.end, IndexFrom(h.blocks, h.lfree, 0), n)
        decreases |h.blocks| - i
      {
        BlockRead(mem[..], h.blocks, h.end, ptr, i);
        var next := mem[ptr / 4 + 1];
        if !IsUsed(mem[ptr / 4]) && next - (ptr + SIZEOF_MEM) >= size {
          return true, ptr, i;
        }
        ptr := next;
        i := i + 1;
      }
      NothingFits(h.blocks, h.end, i, n);
      return false, ptr, |h.blocks|;
    }

    /** The body of the search loop, once block i at offset ptr fits. */
    method TakeAt(ptr: nat, size: nat, ghost i: nat, ghost n: nat)
      requires Valid() && i < |h.blocks| && ptr == 4 * h.blocks[i].at && size == 4 * n
      requires Fits(h.blocks, h.end, i, n) && i == FirstFit(h.blocks, h.end, IndexFrom(h.blocks, h.lfree, 0), n)
      modifies this`lfree, this`usedMem, this`maxMem, this`h, mem
      ensures Valid() && h == HeapModel.Malloc(old(h), n).0
      ensures HeapModel.Malloc(old(h), n).1 == Some(ptr / 4 + HDR)
      ensures SameOnAll(old(mem[..]), mem[..], Live(old(h).blocks, old(h).end))
    {
      hide Stored, Inv, Take, SameOnAll, LowestFree, HeapModel.Malloc, FirstFit, Tiling;
      ghost var t := Take(h.blocks, h.end, i, n);
      TakenModel(h, i, n);
      CarveOut(ptr, size, i, n);
      if maxMem < usedMem {
        maxMem := usedMem;
      }
      if ptr == lfree {
        AdvanceHint(t, i);
      }
      h := HeapModel.Malloc(h, n).0;
    }

    /** Mark the block used, splitting off what it does not need. */
    method CarveOut(ptr: nat, size: nat, ghost i: nat, ghost n: nat)
      requires Valid() && i < |h.blocks| && ptr == 4 * h.blocks[i].at && size == 4 * n
      requires !h.blocks[i].used && Payload(h.blocks, h.end, i) >= n
      modifies this`usedMem, mem
      ensures Stored(mem[..], Take(h.blocks, h.end, i, n), h.end)
      ensures i < |Take(h.blocks, h.end, i, n)|
      ensures usedMem == old(usedMem) + 4 * NextAt(Take(h.blocks, h.end, i, n), h.end, i) - ptr
      ensures SameOnAll(old(mem[..]), mem[..], Live(h.blocks, h.end))
    {
      assert Header(mem[..], h.blocks, h.end, i);
      BelowEnd(h.blocks, h.end, i);
      if mem[ptr / 4 + 1] - (ptr + SIZEOF_MEM) >= size + SIZEOF_MEM + MIN_BYTES {
        CarveSplit(ptr, size, i, n);
      } else {
        CarveWhole(ptr, i);
        Retag(h.blocks, h.end, i, true);
        assert NextAt(Take(h.blocks, h.end, i, n), h.end, i) == NextAt(h.blocks, h.end, i);
      }
    }

    method CarveWhole(ptr: nat, ghost i: nat)
      requires Valid() && i < |h.blocks| && ptr == 4 * h.blocks[i].at
      modifies this`usedMem, mem
      ensures Stored(mem[..], h.blocks[..i] + [Block(h.blocks[i].at, true)] + h.blocks[i + 1..], h.end)
      ensures usedMem == old(usedMem) + 4 * NextAt(h.blocks, h.end, i) - ptr
      ensures SameOnAll(old(mem[..]), mem[..], Live(h.blocks, h.end))
    {
      ghost var was := mem[..];
      assert Header(was, h.blocks, h.end, i);
      mem[ptr / 4] := WithUsed(mem[ptr / 4], true);
      usedMem := usedMem + mem[ptr / 4 + 1] - ptr;
      mem[ptr / 4] := WithMagic(mem[ptr / 4]);
      RetagStored(was, mem[..], h.blocks, h.end, i, true);
      RetagFrame(was, mem[..], h.blocks, h.end, i);
    }

    method CarveSplit(ptr: nat, size: nat, ghost i: nat, ghost n: nat)
      requires Valid() && i < |h.blocks| && ptr == 4 * h.blocks[i].at && size == 4 * n
      requires !h.blocks[i].used && Payload(h.blocks, h.end, i) >= n + HDR
      modifies this`usedMem, mem
      ensures Stored(mem[..], Split(h.blocks, i, n), h.end)
      ensures NextAt(Split(h.blocks, i, n), h.end, i) == h.blocks[i].at + HDR + n
      ensures usedMem == old(usedMem) + size + SIZEOF_MEM
      ensures SameOnAll(old(mem[..]), mem[..], Live(h.blocks, h.end))
    {
      ghost var was, bs, end := mem[..], h.blocks, h.end;
      assert Header(was, bs, end, i);
      WriteSplit(ptr, ptr + SIZEOF_MEM + size, i, n);
      ghost var mid := mem[..];
      mem[ptr / 4] := WithUsed(mem[ptr / 4], true);
      usedMem := usedMem + size + SIZEOF_MEM;
      mem[ptr / 4] := WithMagic(mem[ptr / 4]);
      SplitFree(was, mid, mem[..], bs, end, i, n);
      SplitFreeFrame(was, mid, mem[..], bs, end, i, n);
      SplitShape(bs, end, i, n);
    }

    /** Create the header of the remainder at ptr2 and link it behind the block at ptr. */
    method WriteSplit(ptr: nat, ptr2: nat, ghost i: nat, ghost n: nat)
      requires Laid() && Tiling(h.blocks, h.end) && i < |h.blocks|
      requires ptr == 4 * h.blocks[i].at && ptr2 == 4 * (h.blocks[i].at + HDR + n)
      requires Payload(h.blocks, h.end, i) >= n + HDR
      modifies mem
      ensures SplitWritten(old(mem[..]), mem[..], h.blocks, h.end, i, n)
    {
      ghost var next := NextAt(h.blocks, h.end, i);
      assert Header(mem[..], h.blocks, h.end, i);
      BelowEnd(h.blocks, h.end, i);
      if i + 1 < |h.blocks| {
        BelowEnd(h.blocks, h.end, i + 1);
      }
      WriteLinks(ptr, ptr2, next);
    }

    method WriteLinks(ptr: nat, ptr2: nat, ghost next: nat)
      requires ptr % 4 == 0 && ptr2 % 4 == 0 && ptr + SIZEOF_MEM <= ptr2 && ptr2 + SIZEOF_MEM <= 4 * next
      requires 4 * next <= memSize + SIZEOF_MEM && memSize % 4 == 0
      requires 4 * next == memSize + SIZEOF_MEM || 4 * next + SIZEOF_MEM <= memSize + SIZEOF_MEM
      requires 4 * mem.Length == memSize + 2 * SIZEOF_MEM < 0x1_0000_0000
      requires mem[ptr / 4 + 1] == 4 * next
      modifies mem
      ensures mem[ptr2 / 4] == Tag(false) && mem[ptr2 / 4 + 1] == 4 * next && mem[ptr2 / 4 + 2] == ptr
      ensures mem[ptr / 4 + 1] == ptr2
      ensures 4 * next != memSize + SIZEOF_MEM ==> mem[next + 2] == ptr2
      ensures forall a :: 0 <= a < mem.Length && a != ptr / 4 + 1 && !(ptr2 / 4 <= a <= ptr2 / 4 + 2)
                          && (4 * next == memSize + SIZEOF_MEM || a != next + 2)
                          ==> mem[a] == old(mem[a])
    {
      mem[ptr2 / 4] := WithUsed(WithMagic(mem[ptr2 / 4]), false);
      mem[ptr2 / 4 + 1] := mem[ptr / 4 + 1];
      mem[ptr2 / 4 + 2] := ptr;
      mem[ptr / 4 + 1] := ptr2;
      var behind := mem[ptr2 / 4 + 1];
      if behind != memSize + SIZEOF_MEM {
        mem[behind / 4 + 2] := ptr2;
      }
    }

    /** The inner loop of rt_malloc: move the hint to the next free block. */
    method AdvanceHint(ghost t: seq<Block>, ghost i: nat)
      requires i < |t| && Tiling(t, h.end) && Stored(mem[..], t, h.end)
      requires lfree == 4 * t[i].at && memSize + SIZEOF_MEM == 4 * h.end
      modifies this`lfree
      ensures lfree == 4 * LowestFree(t, h.end, i)
    {
      ghost var k := i;
      BelowEnd(t, h.end, i);
      while IsUsed(mem[lfree / 4]) && lfree != memSize + SIZEOF_MEM
        invariant i <= k <= |t| && lfree == 4 * StartOf(t[k..], h.end) && lfree / 4 < mem.Length
        invariant FirstFree(t, k) == FirstFree(t, i)
        decreases |t| - k
      {
        assert k < |t|;
        assert Header(mem[..], t, h.end, k);
        BelowEnd(t, h.end, k);
        lfree := mem[lfree / 4 + 1];
        k := k + 1;
      }
      if k < |t| {
        assert Header(mem[..], t, h.end, k);
        BelowEnd(t, h.end, k);
      }
    }

    /** rt_free of a payload handed out before. */
    method Free(rmem: Option<nat>, ghost i: nat)
      requires Valid()
      requires rmem.Some? ==> i < |h.blocks| && h.blocks[i].used && rmem.value == 4 * (h.blocks[i].at + HDR)
      modifies this`lfree, this`usedMem, this`h, mem
      ensures Valid()
      ensures rmem == None ==> h == old(h) && mem[..] == old(mem[..])
      ensures rmem.Some? ==> h == HeapModel.Free(old(h), i)
      ensures SameOnAll(old(mem[..]), mem[..], Live(h.blocks, h.end))
      ensures rmem.Some? ==> Live(h.blocks, h.end) == Live(old(h).blocks, old(h).end)
                                                      - {Region(old(h).blocks, old(h).end, i)}
    {
      if rmem == None {
        return;
      }
      var off := rmem.value - SIZEOF_MEM;
      ReleaseKeeps(h, i);
      FreeKeeps(h, i);
      Unmark(off, i);
      PlugHoles(off, i);
    }

    /** Mark the block free, lower the hint, take its bytes off the account. */
    method Unmark(off: nat, ghost i: nat)
      requires Valid() && i < |h.blocks| && h.blocks[i].used && off == 4 * h.blocks[i].at
      modifies this`lfree, this`usedMem, this`h, mem
      ensures InMemory() && h == Release(old(h), i)
      ensures SameOnAll(old(mem[..]), mem[..], Live(old(h).blocks, old(h).end))
    {
      ghost var was, bs, end := mem[..], h.blocks, h.end;
      assert Header(was, bs, end, i);
      mem[off / 4] := WithMagic(WithUsed(mem[off / 4], false));
      if off < lfree {
        lfree := off;
      }
      usedMem := usedMem - (mem[off / 4 + 1] - off);
      h := Release(h, i);
      RetagStored(was, mem[..], bs, end, i, false);
      RetagFrame(was, mem[..], bs, end, i);
    }

    /** rt_realloc. A pointer inside the heap must have been handed out; i is its block. */
    method Realloc(rmem: Option<nat>, request: word, ghost i: nat) returns (r: Option<nat>)
      requires Valid()
      requires MIN_BYTES <= memSize || memSize < Align(request) || Align(request) == 0
      requires rmem.Some? && rmem.value < memSize + SIZEOF_MEM ==>
                 i < |h.blocks| && h.blocks[i].used && rmem.value == 4 * (h.blocks[i].at + HDR)
      requires rmem.Some? && rmem.value >= memSize + SIZEOF_MEM ==> Align(request) != 0
      modifies this`lfree, this`usedMem, this`maxMem, this`h, mem
      ensures Valid()
      ensures Align(request) > memSize ==> r == None && h == old(h)
      ensures Align(request) == 0 ==> r == None && h == if rmem.Some? then HeapModel.Free(old(h), i) else old(h)
      ensures 0 < Align(request) <= memSize && rmem == None ==>
                h == HeapModel.Malloc(old(h), Words(request)).0
                && r == InBytes(HeapModel.Malloc(old(h), Words(request)).1)
      ensures 0 < Align(request) <= memSize && rmem.Some? && rmem.value >= memSize + SIZEOF_MEM ==>
                r == rmem && h == old(h)
      ensures 0 < Align(request) <= memSize && rmem.Some? && rmem.value < memSize + SIZEOF_MEM ==>
                i < |old(h).blocks|
                && r == InBytes(HeapModel.Realloc(old(h), i, Align(request) / 4).1)
                && Resized(old(h), old(mem[..]), i, Align(request) / 4, h, mem[..])
                && Exchanged(old(h), i, Align(request) / 4, h, HeapModel.Realloc(old(h), i, Align(request) / 4).1)
      ensures Align(request) != 0 && r == None ==> h == old(h) && mem[..] == old(mem[..])
      ensures rmem == None ==> SameOnAll(old(mem[..]), mem[..], Live(old(h).blocks, old(h).end))
      ensures Align(request) == 0 && rmem.Some? ==> SameOnAll(old(mem[..]), mem[..], Live(h.blocks, h.end))
    {
      hide Stored, Inv, HeapModel.Malloc, HeapModel.Free, HeapModel.Realloc, Live, Copied, Resized, Align, Words,
           SameOnAll, InBytes, Exchanged, Handed;
      AlignTwice(request);
      SameOnAllRefl(mem[..], Live(h.blocks, h.end));
      var newsize := Align(request);
      if newsize > memSize {
        return None;
      } else if newsize == 0 {
        Free(rmem, i);
        return None;
      }
      if rmem == None {
        r := Malloc(newsize);
        return;
      }
      if rmem.value >= memSize + SIZEOF_MEM {
        return rmem;
      }
      ReallocExchanges(h, i, newsize / 4);
      r := Resize(rmem.value, newsize, i, newsize / 4);
      ResizedHeap(old(h), old(mem[..]), i, newsize / 4, h, mem[..]);
      NotResized(old(h), old(mem[..]), i, newsize / 4, h, mem[..]);
    }

    /** rt_realloc of a live payload to newsize bytes, 4 n of them. */
    method Resize(rmem: nat, newsize: word, ghost i: nat, ghost n: nat) returns (r: Option<nat>)
      requires Valid() && MIN_BYTES <= memSize && 0 < newsize <= memSize && newsize == 4 * n
      requires i < |h.blocks| && h.blocks[i].used && rmem == 4 * (h.blocks[i].at + HDR)
      modifies this`lfree, this`usedMem, this`maxMem, this`h, mem
      ensures Valid()
      ensures r == InBytes(HeapModel.Realloc(old(h), i, n).1)
      ensures Resized(old(h), old(mem[..]), i, n, h, mem[..])
    {
      hide Stored, Inv, HeapModel.Malloc, HeapModel.Free, HeapModel.Realloc, SameOnAll, Shrink, Live, Copied, Resized,
           Moved;
      var ptr := rmem - SIZEOF_MEM;
      UsedHeader(mem[..], h, i);
      var size := mem[ptr / 4 + 1] - ptr - SIZEOF_MEM;
      if size == newsize {
        SameSize(h, mem[..], i);
        return Some(rmem);
      }
      if newsize + SIZEOF_MEM + MIN_BYTES < size {
        ShrinkAt(ptr, size, newsize, i, n);
        ShrunkIsResized(old(h), old(mem[..]), i, n, h, mem[..]);
        return Some(rmem);
      }
      ghost var k;
      r, k := Move(rmem, size, newsize, i, n);
      MovedIsResized(old(h), old(mem[..]), i, n, Words(newsize), k, h, mem[..]);
    }

    method ShrinkAt(ptr: nat, size: nat, newsize: nat, ghost i: nat, ghost n: nat)
      requires Valid() && i < |h.blocks| && h.blocks[i].used && ptr == 4 * h.blocks[i].at
      requires newsize == 4 * n && size == 4 * Payload(h.blocks, h.end, i) && newsize + SIZEOF_MEM + MIN_BYTES < size
      modifies this`lfree, this`usedMem, this`h, mem
      ensures Valid() && h == HeapModel.Shrink(old(h), i, n)
      ensures SameOnAll(old(mem[..]), mem[..], Live(old(h).blocks, old(h).end) - {Region(old(h).blocks, old(h).end, i)})
      ensures Copied(old(mem[..]), old(h).blocks[i].at + HDR, mem[..], old(h).blocks[i].at + HDR, n)
    {
      hide Stored, Inv, InvBut, PlugForward, PlugBackward, Live, SameOnAll, SameOn;
      ghost var h0, was := h, mem[..];
      UsedHeader(was, h, i);
      ShrinkSplitKeeps(h, i, n);
      ShrinkKeeps(h, i, n);
      SplitOff(ptr, size, newsize, i, n);
      ghost var mid := mem[..];
      PlugHoles(ptr + SIZEOF_MEM + newsize, i + 1);
      ShrunkWords(was, mid, mem[..], h0, i, n);
    }

    method SplitOff(ptr: nat, size: nat, newsize: nat, ghost i: nat, ghost n: nat)
      requires Valid() && i < |h.blocks| && h.blocks[i].used && ptr == 4 * h.blocks[i].at
      requires newsize == 4 * n && size == 4 * Payload(h.blocks, h.end, i) && newsize + SIZEOF_MEM <= size
      modifies this`usedMem, this`h, mem
      ensures InMemory()
      ensures h == old(h).(blocks := Split(old(h).blocks, i, n),
                           used := old(h).used - (Payload(old(h).blocks, old(h).end, i) - n))
      ensures i + 1 < |h.blocks| && h.blocks[i + 1].at == old(h).blocks[i].at + HDR + n
      ensures SameOnAll(old(mem[..]), mem[..], Live(old(h).blocks, old(h).end) - {Region(old(h).blocks, old(h).end, i)})
      ensures SameOn(old(mem[..]), mem[..], (old(h).blocks[i].at + HDR, old(h).blocks[i].at + HDR + n))
    {
      SplitShape(h.blocks, h.end, i, n);
      usedMem := usedMem - (size - newsize);
      WriteSplit2(ptr, ptr + SIZEOF_MEM + newsize, i, n);
      h := h.(blocks := Split(h.blocks, i, n), used := h.used - (Payload(h.blocks, h.end, i) - n));
    }

    /** The split of rt_realloc: the block is used already. */
    method WriteSplit2(ptr: nat, ptr2: nat, ghost i: nat, ghost n: nat)
      requires Laid() && Tiling(h.blocks, h.end) && i < |h.blocks| && h.blocks[i].used
      requires ptr == 4 * h.blocks[i].at && ptr2 == 4 * (h.blocks[i].at + HDR + n)
      requires Payload(h.blocks, h.end, i) >= n + HDR
      modifies mem
      ensures Stored(mem[..], Split(h.blocks, i, n), h.end)
      ensures SameOnAll(old(mem[..]), mem[..], Live(h.blocks, h.end) - {Region(h.blocks, h.end, i)})
      ensures SameOn(old(mem[..]), mem[..], (h.blocks[i].at + HDR, h.blocks[i].at + HDR + n))
    {
      WriteSplit(ptr, ptr2, i, n);
      SplitStored(old(mem[..]), mem[..], h.blocks, h.end, i, n);
      SplitFrame(old(mem[..]), mem[..], h.blocks, h.end, i, n);
    }

    /** Allocate anew, copy, free the old block. */
    method Move(rmem: nat, size: nat, newsize: word, ghost i: nat, ghost n: nat) returns (r: Option<nat>, ghost k: nat)
      requires Valid() && MIN_BYTES <= memSize && 0 < newsize <= memSize && newsize == 4 * n
      requires i < |h.blocks| && h.blocks[i].used && rmem == 4 * (h.blocks[i].at + HDR)
      requires size == 4 * Payload(h.blocks, h.end, i)
      modifies this`lfree, this`usedMem, this`maxMem, this`h, mem
      ensures Valid()
      ensures r == InBytes(HeapModel.Malloc(old(h), Words(newsize)).1)
      ensures Moved(old(h), old(mem[..]), i, n, Words(newsize), k, h, mem[..])
    {
      hide Stored, Inv, HeapModel.Malloc, HeapModel.Free, SameOnAll, Copied, Align, Words, Live, Tiling, Handed,
           IndexFrom, IsFreeAt;
      ghost var h0, was := h, mem[..];
      FailedMalloc(h0, Words(newsize));
      WordsOfMultiple(newsize, n);
      r := Malloc(newsize);
      k := 0;
      if r.Some? {
        ghost var m1, q := mem[..], 0;
        q, k := MoveTarget(h0, i, Words(newsize));
        ghost var mine, dst := Region(h0.blocks, h0.end, i), (r.value / 4, q);
        var count := (if size < newsize then size else newsize) / 4;
        FreshRegion(h, h0, dst, mine);
        CopyAndFree(r.value, rmem, count, dst, k);
        MovedWords(was, m1, mem[..], h0, mine, dst, count);
      }
    }

    /** Copy into the fresh region dst, then free the k-th block, whose payload starts at rmem. */
    method CopyAndFree(to: nat, rmem: nat, count: nat, ghost dst: (nat, nat), ghost k: nat)
      requires Valid() && k < |h.blocks| && h.blocks[k].used && rmem == 4 * (h.blocks[k].at + HDR)
      requires dst in Live(h.blocks, h.end) && dst != Region(h.blocks, h.end, k) && to == 4 * dst.0
      requires dst.0 + count <= dst.1 && rmem / 4 + count <= NextAt(h.blocks, h.end, k)
      modifies this`lfree, this`usedMem, this`h, mem
      ensures Valid() && h == HeapModel.Free(old(h), k)
      ensures Copied(old(mem[..]), rmem / 4, mem[..], dst.0, count)
      ensures SameOnAll(old(mem[..]), mem[..],
                        Live(old(h).blocks, old(h).end) - {dst} - {Region(old(h).blocks, old(h).end, k)})
    {
      hide Stored, Inv, HeapModel.Free, Live, SameOnAll, Copied;
      ghost var h1, m1, mine := h, mem[..], Region(h.blocks, h.end, k);
      CopyFacts(m1, h1, k, dst);
      CopyWords(to / 4, rmem / 4, count, dst);
      ghost var m2 := mem[..];
      WrittenInside(m1, m2, h, dst);
      Free(Some(rmem), k);
      CopiedThenFreed(m1, m2, mem[..], h1, h, mine, dst, count);
    }

    /** rt_memcpy of count words between regions that do not overlap, into region dst. */
    method CopyWords(dst: nat, src: nat, count: nat, ghost region: (nat, nat))
      requires region.0 == dst && dst + count <= region.1 <= mem.Length && src + count <= mem.Length
      requires dst + count <= src || src + count <= dst
      modifies mem
      ensures Copied(old(mem[..]), src, mem[..], dst, count)
      ensures forall a :: 0 <= a < mem.Length && !(region.0 <= a < region.1) ==> mem[a] == old(mem[a])
    {
      for k := 0 to count
        invariant mem[dst..dst + k] == old(mem[src..src + k])
        invariant forall a :: 0 <= a < mem.Length && !(dst <= a < dst + k) ==> mem[a] == old(mem[a])
      {
        mem[dst + k] := mem[src + k];
      }
    }
  }
}
