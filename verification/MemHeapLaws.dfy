/** What the steps of rt-thread/src/memheap.c do to the block ring, the header words and the payloads. */
module MemHeapLaws {
  import opened MemHeapModel
  import opened Rings
  import opened Sequences
  import opened Numbers
  import opened RtDef

  const NULL: int := -1
  /** what pool_ptr holds: the heap itself */
  const POOL: int := -2
  const RT_MEMHEAP_MAGIC: int := 0x1ea0_1ea0
  const WORD_RANGE: nat := 0x1_0000_0000

  /** The request in words: RT_ALIGN in 32 bits, and RT_MEMHEAP_MINIALLOC at least. */
  function Rounded(bytes: word): (n: nat)
    ensures n >= MINIALLOC
    ensures bytes <= WORD_RANGE - 4 ==> bytes <= 4 * n && (4 * n < bytes + 4 || n == MINIALLOC)
  {
    var aligned := Align(bytes) / 4;
    if aligned < MINIALLOC then MINIALLOC else aligned
  }

  ghost predicate Flags(blocks: seq<Block>, used: map<int, bool>) {
    forall i :: 0 <= i < |blocks| ==> blocks[i].start in used && used[blocks[i].start] == blocks[i].used
  }

  ghost predicate Chain(blocks: seq<Block>, next: map<int, int>, prev: map<int, int>, used: map<int, bool>, hi: int) {
    && Closed(blocks) && Tiling(blocks, 0, hi)
    && Ring(Starts(blocks), next, prev)
    && Flags(blocks, used)
  }

  lemma StartsAfterCarve(blocks: seq<Block>, i: nat, n: nat)
    requires i < |blocks| && n + HEADER <= blocks[i].size
    ensures Starts(Carve(blocks, i, n)) == PutAfter(Starts(blocks), i, blocks[i].start + HEADER + n)
  {
    var a, b := Starts(Carve(blocks, i, n)), PutAfter(Starts(blocks), i, blocks[i].start + HEADER + n);
    assert |a| == |b|;
    assert forall k :: 0 <= k < |a| ==> a[k] == b[k];
  }

  lemma StartsOfParts(a: seq<Block>, b: Block, c: seq<Block>)
    ensures Starts(a + [b] + c) == Starts(a) + [b.start] + Starts(c)
  {
    hide Starts;
    var all := a + [b] + c;
    forall k | 0 <= k < |all|
      ensures Starts(all)[k] == (Starts(a) + [b.start] + Starts(c))[k]
    {
      assert Starts(all)[k] == all[k].start;
    }
  }

  lemma StartsOfSlice(blocks: seq<Block>, i: nat, j: nat)
    requires i <= j <= |blocks|
    ensures Starts(blocks[i..j]) == Starts(blocks)[i..j]
  {
  }

  lemma JoinParts(blocks: seq<Block>, i: nat)
    requires i + 1 < |blocks|
    ensures |Join(blocks, i)| == |blocks| - 1 && Join(blocks, i)[i].start == blocks[i].start
    ensures Join(blocks, i) == blocks[0..i] + [Join(blocks, i)[i]] + blocks[i + 2..|blocks|]
  {
    assert blocks[..i] == blocks[0..i] && blocks[i + 2..] == blocks[i + 2..|blocks|];
  }

  lemma StartsAfterJoin(blocks: seq<Block>, i: nat)
    requires i + 1 < |blocks|
    ensures Starts(Join(blocks, i)) == Cut(Starts(blocks), i + 1)
  {
    hide Starts, Join, Cut;
    JoinParts(blocks, i);
    StartsOfParts(blocks[0..i], Join(blocks, i)[i], blocks[i + 2..|blocks|]);
    StartsOfSlice(blocks, 0, i);
    StartsOfSlice(blocks, i + 2, |blocks|);
    CutTwo(Starts(blocks), i);
  }

  lemma CutTwo(s: seq<int>, i: nat)
    requires i + 1 < |s|
    ensures s[0..i] + [s[i]] + s[i + 2..|s|] == Cut(s, i + 1)
  {
  }

  lemma StartsAfterMark(blocks: seq<Block>, i: nat, flag: bool)
    requires i < |blocks|
    ensures Starts(Mark(blocks, i, flag)) == Starts(blocks)
  {
    var a, b := Starts(Mark(blocks, i, flag)), Starts(blocks);
    assert |a| == |b|;
    assert forall k :: 0 <= k < |a| ==> a[k] == b[k];
  }

  lemma CarveElems(blocks: seq<Block>, i: nat, n: nat)
    requires i < |blocks| && n + HEADER <= blocks[i].size
    ensures var r := Carve(blocks, i, n);
            && |r| == |blocks| + 1 && r[i] == blocks[i].(size := n)
            && r[i + 1] == Block(blocks[i].start + HEADER + n, blocks[i].size - n - HEADER, false)
            && (forall k :: 0 <= k < i ==> r[k] == blocks[k]) && (forall k :: i + 1 < k < |r| ==> r[k] == blocks[k - 1])
  {
  }

  lemma FlagsAfterCarve(blocks: seq<Block>, i: nat, n: nat, used: map<int, bool>, q: int)
    requires Flags(blocks, used) && i + 1 < |blocks| && n + HEADER <= blocks[i].size
             && q == blocks[i].start + HEADER + n
    requires q !in Starts(blocks) && Closed(blocks)
    ensures Flags(Carve(blocks, i, n), used[q := false]) && Closed(Carve(blocks, i, n))
  {
    hide Starts, Carve;
    CarveElems(blocks, i, n);
    var r, s := Carve(blocks, i, n), Starts(blocks);
    forall k | 0 <= k < |r|
      ensures r[k].start in used[q := false] && used[q := false][r[k].start] == r[k].used
    {
      if k != i + 1 {
        var k' := if k <= i then k else k - 1;
        assert s[k'] == blocks[k'].start == r[k].start;
      }
    }
  }

  lemma FlagsAfterJoin(blocks: seq<Block>, i: nat, used: map<int, bool>)
    requires Flags(blocks, used) && i + 2 < |blocks| && Closed(blocks)
    ensures Flags(Join(blocks, i), used) && Closed(Join(blocks, i))
  {
    var r := Join(blocks, i);
    forall k | 0 <= k < |r|
      ensures r[k].start in used && used[r[k].start] == r[k].used
    {
      var k' := if k <= i then k else k + 1;
      assert blocks[k'].start == r[k].start;
    }
  }

  lemma CarveChain(blocks: seq<Block>, i: nat, n: nat, next: map<int, int>, prev: map<int, int>, used: map<int, bool>,
      hi: int)
    requires Chain(blocks, next, prev, used, hi) && i + 1 < |blocks| && n + HEADER <= blocks[i].size
    ensures blocks[i].start in next
    ensures var p := blocks[i].start;
            var q := p + HEADER + n;
            Chain(Carve(blocks, i, n), next[q := next[p]][p := q], prev[q := p][next[p] := q], used[q := false], hi)
  {
    hide Ring, Tiling, Closed, Flags, Starts, Carve, PutAfter;
    var r, p := Starts(blocks), blocks[i].start;
    var q := p + HEADER + n;
    CarveTiles(blocks, i, n, 0, hi);
    NewStart(blocks, i, n, 0, hi);
    LinksAt(r, i, next, prev);
    InsertKeepsRing(r, i, q, next, prev, next[q := Succ(r, i)][r[i] := q], prev[q := r[i]][Succ(r, i) := q]);
    StartsAfterCarve(blocks, i, n);
    FlagsAfterCarve(blocks, i, n, used, q);
  }

  lemma JoinChain(blocks: seq<Block>, i: nat, next: map<int, int>, prev: map<int, int>, used: map<int, bool>, hi: int)
    requires Chain(blocks, next, prev, used, hi) && i + 2 < |blocks|
    ensures blocks[i].start in next && next[blocks[i].start] == blocks[i + 1].start
    ensures var x := blocks[i + 1].start;
            x in next && x in prev && next[x] != x
              && Chain(Join(blocks, i), next[prev[x] := next[x]], prev[next[x] := prev[x]], used, hi)
  {
    hide Ring, Tiling, Closed, Flags, Starts, Join, Cut;
    var r := Starts(blocks);
    JoinTiles(blocks, i, 0, hi);
    StartsDistinct(blocks, 0, hi);
    LinksAt(r, i, next, prev);
    LinksAt(r, i + 1, next, prev);
    RemoveKeepsRing(r, i + 1, next, prev, next[Pred(r, i + 1) := Succ(r, i + 1)],
      prev[Succ(r, i + 1) := Pred(r, i + 1)]);
    StartsAfterJoin(blocks, i);
    FlagsAfterJoin(blocks, i, used);
  }

  lemma MarkChain(blocks: seq<Block>, i: nat, flag: bool, next: map<int, int>, prev: map<int, int>,
      used: map<int, bool>, hi: int)
    requires Chain(blocks, next, prev, used, hi) && i + 1 < |blocks|
    ensures Chain(Mark(blocks, i, flag), next, prev, used[blocks[i].start := flag], hi)
  {
    hide Ring, Tiling, Starts;
    MarkTiles(blocks, i, flag, 0, hi);
    StartsDistinct(blocks, 0, hi);
    StartsAfterMark(blocks, i, flag);
  }

  /** The magic word with its RT_MEMHEAP_USED bit. */
  function Magic(used: bool): int {
    if used then RT_MEMHEAP_MAGIC + 1 else RT_MEMHEAP_MAGIC
  }

  function IsUsed(magic: int): bool {
    magic % 2 == 1
  }

  /** No two headers overlap, and all lie inside the memory. */
  ghost predicate Spaced(heads: set<int>, size: nat) {
    && (forall a :: a in heads ==> 0 <= a && a + HEADER <= size)
    && forall a, b :: a in heads && b in heads && a < b ==> a + HEADER <= b
  }

  lemma SpacedWith(heads: set<int>, q: int, size: nat)
    requires Spaced(heads, size) && 0 <= q && q + HEADER <= size
             && forall a :: a in heads ==> a + HEADER <= q || q + HEADER <= a
    ensures Spaced(heads + {q}, size) && q !in heads
  {
  }

  ghost predicate Covered(heads: set<int>, x: int) {
    exists p :: p in heads && p <= x < p + HEADER
  }

  lemma CoveredMore(a: set<int>, b: set<int>)
    requires a <= b
    ensures forall x :: Covered(a, x) ==> Covered(b, x)
  {
    forall x | Covered(a, x)
      ensures Covered(b, x)
    {
      var p :| p in a && p <= x < p + HEADER;
      assert p in b;
    }
  }

  ghost function HeadsOf(blocks: seq<Block>, list: int): set<int> {
    (set p | p in Starts(blocks)) + {list}
  }

  lemma InHeads(blocks: seq<Block>, i: nat, list: int)
    requires i < |blocks|
    ensures blocks[i].start in HeadsOf(blocks, list) && list in HeadsOf(blocks, list)
  {
    assert Starts(blocks)[i] in Starts(blocks);
  }

  lemma CarvedStarts(blocks: seq<Block>, i: nat, n: nat, list: int)
    requires i < |blocks| && n + HEADER <= blocks[i].size
    ensures HeadsOf(Carve(blocks, i, n), list) == HeadsOf(blocks, list) + {blocks[i].start + HEADER + n}
  {
    hide Carve, Starts;
    var q := blocks[i].start + HEADER + n;
    StartsAfterCarve(blocks, i, n);
    assert forall x :: x in PutAfter(Starts(blocks), i, q) <==> x in Starts(blocks) || x == q;
  }

  /** A header cut out of a payload meets no other header. */
  lemma CarveClear(blocks: seq<Block>, i: nat, n: nat, k: nat, hi: int)
    requires Tiling(blocks, 0, hi) && i + 1 < |blocks| && n + HEADER <= blocks[i].size && k < |blocks|
    ensures var a, q := blocks[k].start, blocks[i].start + HEADER + n; a + HEADER <= q || q + HEADER <= a
  {
    hide Tiling;
    if k < i {
      BlocksApart(blocks, k, i, 0, hi);
    } else if k > i {
      BlocksApart(blocks, i, k, 0, hi);
    }
  }

  lemma CarveHeads(blocks: seq<Block>, i: nat, n: nat, hi: int)
    requires Tiling(blocks, 0, hi) && Closed(blocks) && i + 1 < |blocks| && n + HEADER <= blocks[i].size
    ensures var q := blocks[i].start + HEADER + n;
            && HeadsOf(Carve(blocks, i, n), hi) == HeadsOf(blocks, hi) + {q} && 0 <= q && q + HEADER <= hi
            && forall a :: a in HeadsOf(blocks, hi) ==> a + HEADER <= q || q + HEADER <= a
  {
    hide Tiling, Carve;
    var q := blocks[i].start + HEADER + n;
    CarvedStarts(blocks, i, n, hi);
    StartOf(blocks, i, 0, hi);
    forall a | a in HeadsOf(blocks, hi)
      ensures a + HEADER <= q || q + HEADER <= a
    {
      if a != hi {
        var k :| 0 <= k < |blocks| && Starts(blocks)[k] == a;
        CarveClear(blocks, i, n, k, hi);
      }
    }
  }

  lemma JoinHeads(blocks: seq<Block>, i: nat, hi: int)
    requires Tiling(blocks, 0, hi) && i + 2 < |blocks|
    ensures HeadsOf(Join(blocks, i), hi) == HeadsOf(blocks, hi) - {blocks[i + 1].start}
  {
    StartsAfterJoin(blocks, i);
    StartsDistinct(blocks, 0, hi);
    StartOf(blocks, i + 1, 0, hi);
    CutDistinct(Starts(blocks), i + 1);
  }

  lemma MarkHeads(blocks: seq<Block>, i: nat, flag: bool, hi: int)
    requires i < |blocks|
    ensures HeadsOf(Mark(blocks, i, flag), hi) == HeadsOf(blocks, hi)
  {
    StartsAfterMark(blocks, i, flag);
  }

  lemma RingKept(order: seq<int>, list: int, heads: set<int>, next: map<int, int>, prev: map<int, int>,
      next': map<int, int>, prev': map<int, int>)
    requires Ring([list] + order, next, prev) && list in heads && forall a :: a in order ==> a in heads
    requires forall a :: a in heads && a in next && a in prev ==>
               a in next' && a in prev' && next'[a] == next[a] && prev'[a] == prev[a]
    ensures Ring([list] + order, next', prev')
  {
    var r := [list] + order;
    forall x | x in r && x in next && x in prev
      ensures x in next' && x in prev' && next'[x] == next[x] && prev'[x] == prev[x]
    {
      assert x == list || x in order;
      assert x in heads;
    }
    RingFrame(r, next, prev, next', prev');
  }

  lemma RingDistinct(r: seq<int>, next: map<int, int>, prev: map<int, int>)
    requires Ring(r, next, prev)
    ensures Distinct(r)
  {
  }

  /** Taking entry k out of the list ring. */
  lemma CutIsWithout(order: seq<int>, k: nat, list: int, next: map<int, int>, prev: map<int, int>)
    requires Ring([list] + order, next, prev) && k < |order|
    ensures Cut(order, k) == Without(order, order[k])
  {
    RingDistinct([list] + order, next, prev);
    OrderDistinct(order, list);
    WithoutAt(order, k, order[k]);
  }

  lemma UnlistRing(order: seq<int>, k: nat, list: int, next: map<int, int>, prev: map<int, int>)
    requires Ring([list] + order, next, prev) && k < |order|
    ensures order[k] in next && order[k] in prev
    ensures var x := order[k];
            var after, before := next[x], prev[x];
            && after != x && (after == list || after in order) && (before == list || before in order)
            && Ring([list] + Cut(order, k), next[before := after], prev[after := before])
            && forall a :: a in Cut(order, k) <==> a in order && a != x
  {
    var r := [list] + order;
    RingDistinct(r, next, prev);
    OrderDistinct(order, list);
    CutDistinct(order, k);
    LinksAt(r, k + 1, next, prev);
    RemoveKeepsRing(r, k + 1, next, prev, next[Pred(r, k + 1) := Succ(r, k + 1)],
      prev[Succ(r, k + 1) := Pred(r, k + 1)]);
    assert [list] + Cut(order, k) == Cut(r, k + 1);
    assert Succ(r, k + 1) in r && Pred(r, k + 1) in r && r[k + 1] == order[k];
  }

  lemma OrderDistinct(order: seq<int>, list: int)
    requires Distinct([list] + order)
    ensures Distinct(order)
  {
    var r := [list] + order;
    assert forall j :: 0 <= j < |order| ==> order[j] == r[j + 1];
  }

  lemma FirstBlocks(poolSize: nat)
    requires poolSize >= 2 * HEADER
    ensures var tail := poolSize - HEADER;
            var blocks := [Block(0, poolSize - 2 * HEADER, false), Block(tail, 0, true)];
            && Tiling(blocks, 0, poolSize) && Closed(blocks) && NoTwoFree(blocks) && Starts(blocks) == [0, tail]
            && FreeWords(blocks) == poolSize - 2 * HEADER && HeadsOf(blocks, poolSize) == {0, tail, poolSize}
            && Used(blocks) == {Block(tail, 0, true)} && forall a :: IsFree(blocks, a) <==> a == 0
  {
    var tail := poolSize - HEADER;
    var blocks := [Block(0, poolSize - 2 * HEADER, false), Block(tail, 0, true)];
    var last := blocks[1..];
    assert last == [blocks[1]] && last[1..] == [];
    assert Tiling(last, tail, poolSize);
    assert FreeWords(last) == Words(last[0]) + FreeWords(last[1..]) == FreeWords([]);
    assert Starts(blocks) == [0, tail];
    assert blocks[0].start == 0 && !blocks[0].used;
  }

  lemma FirstRings(poolSize: nat, next: map<int, int>, prev: map<int, int>, nextFree: map<int, int>,
      prevFree: map<int, int>, used: map<int, bool>)
    requires poolSize >= 2 * HEADER
    requires var tail := poolSize - HEADER;
             && next == map[0 := tail, tail := 0, poolSize := NULL] && prev == next
             && nextFree == map[0 := poolSize, poolSize := 0, tail := NULL] && prevFree == nextFree
             && used == map[0 := false, tail := true, poolSize := false]
    ensures var tail := poolSize - HEADER;
            Chain([Block(0, poolSize - 2 * HEADER, false), Block(tail, 0, true)], next, prev, used, poolSize)
            && Ring([poolSize] + [0], nextFree, prevFree)
  {
    var tail := poolSize - HEADER;
    FirstBlocks(poolSize);
    assert LinkAt([0, tail], 0, next, prev) && LinkAt([0, tail], 1, next, prev);
    assert [poolSize] + [0] == [poolSize, 0];
    assert LinkAt([poolSize, 0], 0, nextFree, prevFree) && LinkAt([poolSize, 0], 1, nextFree, prevFree);
  }

  ghost predicate SameFrom(m: seq<int>, m': seq<int>, from: int, n: nat) {
    |m| == |m'| && forall x :: from <= x < from + n && 0 <= x < |m| ==> m'[x] == m[x]
  }

  /** The payloads of these blocks are what they were, word by word. */
  ghost predicate Kept(m: seq<int>, m': seq<int>, bs: set<Block>) {
    forall b :: b in bs ==> SameFrom(m, m', b.start + HEADER, b.size)
  }

  /** n words from to on are what they were from from on. */
  ghost predicate CopiedTo(m: seq<int>, m': seq<int>, to: int, from: int, n: nat) {
    && |m| == |m'| && 0 <= from && from + n <= |m| && 0 <= to && to + n <= |m|
    && m'[to..to + n] == m[from..from + n]
  }

  /** And no other word has changed. */
  ghost predicate CopiedOver(m: seq<int>, m': seq<int>, to: int, from: int, n: nat) {
    CopiedTo(m, m', to, from, n) && forall x :: 0 <= x < |m| && !(to <= x < to + n) ==> m'[x] == m[x]
  }

  lemma CopiedNone(m: seq<int>, to: int, from: int)
    requires 0 <= to <= |m| && 0 <= from <= |m|
    ensures CopiedOver(m, m, to, from, 0)
  {
  }

  lemma CopiedOneMore(m: seq<int>, m1: seq<int>, m2: seq<int>, to: int, from: int, k: nat)
    requires |m| == |m1| && CopiedOver(m, m1, to, from, k) && 0 <= to && 0 <= from && to + k < |m| && from + k < |m|
    requires from + k < to || to + k < from
    requires m2 == m1[to + k := m1[from + k]]
    ensures CopiedOver(m, m2, to, from, k + 1)
  {
    assert m2[to..to + (k + 1)] == m1[to..to + k] + [m[from + k]];
    assert m[from..from + (k + 1)] == m[from..from + k] + [m[from + k]];
  }

  ghost predicate OnlyIn(m: seq<int>, m': seq<int>, heads: set<int>) {
    |m| == |m'| && forall x :: 0 <= x < |m| && !Covered(heads, x) ==> m'[x] == m[x]
  }

  lemma OnlyInThen(m: seq<int>, m1: seq<int>, m2: seq<int>, a: set<int>, b: set<int>, c: set<int>)
    requires OnlyIn(m, m1, a) && OnlyIn(m1, m2, b) && a <= c && b <= c
    ensures OnlyIn(m, m2, c)
  {
    CoveredMore(a, c);
    CoveredMore(b, c);
    hide Covered;
  }

  /** Writing headers only leaves the payload of every block that stays in use alone. */
  lemma PayloadsKept(m: seq<int>, m': seq<int>, was: seq<Block>, now: seq<Block>, hi: int)
    requires Tiling(was, 0, hi) && Tiling(now, 0, hi) && OnlyIn(m, m', HeadsOf(was, hi) + HeadsOf(now, hi))
    ensures Kept(m, m', Used(was) * Used(now))
  {
    forall b | b in Used(was) * Used(now)
      ensures SameFrom(m, m', b.start + HEADER, b.size)
    {
      var i :| 0 <= i < |was| && was[i] == b;
      var j :| 0 <= j < |now| && now[j] == b;
      PartKept(m, m', was, now, i, j, b.size, hi);
    }
  }

  /** So does it leave the first n words of a block that is resized in place. */
  lemma PartKept(m: seq<int>, m': seq<int>, was: seq<Block>, now: seq<Block>, i: nat, j: nat, n: nat, hi: int)
    requires Tiling(was, 0, hi) && Tiling(now, 0, hi) && i < |was| && j < |now| && was[i].start == now[j].start
    requires OnlyIn(m, m', HeadsOf(was, hi) + HeadsOf(now, hi)) && n <= was[i].size && n <= now[j].size
    ensures SameFrom(m, m', was[i].start + HEADER, n)
  {
    PayloadClear(was, i, hi);
    PayloadClear(now, j, hi);
    hide HeadsOf, Tiling;
    forall x | was[i].start + HEADER <= x < was[i].start + HEADER + n && 0 <= x < |m|
      ensures m'[x] == m[x]
    {
      CoveredBoth(HeadsOf(was, hi), HeadsOf(now, hi), x);
    }
  }

  lemma CoveredBoth(a: set<int>, b: set<int>, x: int)
    ensures Covered(a + b, x) <==> Covered(a, x) || Covered(b, x)
  {
    CoveredMore(a, a + b);
    CoveredMore(b, a + b);
  }

  lemma ShrinkKept(m: seq<int>, m': seq<int>, was: seq<Block>, now: seq<Block>, i: nat, n: nat, hi: int)
    requires Tiling(was, 0, hi) && Tiling(now, 0, hi) && i < |was| && i < |now| && n <= was[i].size
    requires OnlyIn(m, m', HeadsOf(was, hi) + HeadsOf(now, hi)) && now[i] == Block(was[i].start, n, true)
    requires Used(now) == Used(was) - {was[i]} + {Block(was[i].start, n, true)}
    ensures Kept(m, m', Used(was) - {was[i]}) && SameFrom(m, m', was[i].start + HEADER, n)
  {
    PayloadsKept(m, m', was, now, hi);
    PartKept(m, m', was, now, i, i, n, hi);
    ReplacedKept(m, m', Used(was), was[i], Block(was[i].start, n, true));
  }

  lemma FewerKept(m: seq<int>, m': seq<int>, a: set<Block>, b: set<Block>)
    requires b <= a && Kept(m, m', a * b)
    ensures Kept(m, m', b)
  {
    assert a * b == b;
  }

  lemma KeptFewer(m: seq<int>, m': seq<int>, a: set<Block>, b: Block)
    requires Kept(m, m', a)
    ensures Kept(m, m', a - {b})
  {
  }

  lemma ReplacedKept(m: seq<int>, m': seq<int>, a: set<Block>, b: Block, c: Block)
    requires Kept(m, m', a * (a - {b} + {c}))
    ensures Kept(m, m', a - {b})
  {
    assert a - {b} <= a * (a - {b} + {c});
  }

  lemma SameIsCopied(m: seq<int>, m': seq<int>, at: int, n: nat)
    requires SameFrom(m, m', at, n) && 0 <= at && at + n <= |m|
    ensures CopiedTo(m, m', at, at, n)
  {
  }

  lemma FewerHeads(a: set<int>, b: set<int>)
    requires b <= a
    ensures a + b == a
  {
  }

  /** A payload lies clear of every header. */
  lemma PayloadClear(blocks: seq<Block>, i: nat, hi: int)
    requires Tiling(blocks, 0, hi) && i < |blocks|
    ensures forall x :: blocks[i].start + HEADER <= x < After(blocks[i]) ==> !Covered(HeadsOf(blocks, hi), x)
  {
    StartOf(blocks, i, 0, hi);
    forall p | p in HeadsOf(blocks, hi)
      ensures p + HEADER <= blocks[i].start + HEADER || After(blocks[i]) <= p
    {
      if p != hi {
        var k :| 0 <= k < |blocks| && Starts(blocks)[k] == p;
        if k < i {
          BlocksApart(blocks, k, i, 0, hi);
        } else if k > i {
          BlocksApart(blocks, i, k, 0, hi);
        }
      }
    }
  }

  lemma PayloadInside(blocks: seq<Block>, b: Block, hi: int)
    requires Tiling(blocks, 0, hi) && b in blocks
    ensures 0 <= b.start && After(b) <= hi
    ensures forall x :: b.start + HEADER <= x < After(b) ==> !Covered(HeadsOf(blocks, hi), x)
  {
    var i :| 0 <= i < |blocks| && blocks[i] == b;
    StartOf(blocks, i, 0, hi);
    PayloadClear(blocks, i, hi);
  }

  lemma PayloadsApart(blocks: seq<Block>, b: Block, c: Block, hi: int)
    requires Tiling(blocks, 0, hi) && b in blocks && c in blocks && b.start != c.start
    ensures After(b) <= c.start || After(c) <= b.start
  {
    var i :| 0 <= i < |blocks| && blocks[i] == b;
    var j :| 0 <= j < |blocks| && blocks[j] == c;
    if i < j {
      BlocksApart(blocks, i, j, 0, hi);
    } else if j < i {
      BlocksApart(blocks, j, i, 0, hi);
    }
  }

  lemma NoneAt(blocks: seq<Block>, ptr: int)
    requires ptr == NULL && forall i :: 0 <= i < |blocks| ==> blocks[i].start >= 0
    ensures Used(blocks) == Others(blocks, ptr) && forall b :: b in Used(blocks) ==> b.start + HEADER != ptr
  {
  }

  /** The block a served request hands out, and where it stands to one that was in use. */
  lemma ServedBlock(blocks: seq<Block>, order: seq<int>, blocks': seq<Block>, n: nat, r: int, i: nat, hi: int)
      returns (c: Block)
    requires Tiling(blocks, 0, hi) && i < |blocks| && blocks[i].used && Served(blocks, order, blocks', n, r)
    ensures c.start + HEADER == r && c.size >= n && c.used && Used(blocks') == Used(blocks) + {c}
            && c.start != blocks[i].start
    ensures c in blocks' && blocks[i] in blocks' && c !in Used(blocks)
  {
    var k: nat, granted: nat :| FirstFit(blocks, order, n, k) && r == order[k] + HEADER
      && Granted(n, granted) && SharedFrom(blocks, order[k], n, granted)
      && Allocated(blocks, blocks', Block(order[k], granted, true));
    c := Block(order[k], granted, true);
    OnlyOne(blocks, i, hi);
    var j :| 0 <= j < |blocks| && blocks[j].start == order[k] && !blocks[j].used;
    OnlyOne(blocks, j, hi);
    assert c in Used(blocks') && blocks[i] in Used(blocks');
  }

  lemma CopyChain(m: seq<int>, m1: seq<int>, m2: seq<int>, m3: seq<int>, to: int, from: int, n: nat)
    requires SameFrom(m, m1, from, n) && CopiedTo(m1, m2, to, from, n) && SameFrom(m2, m3, to, n)
    ensures CopiedTo(m, m3, to, from, n)
  {
    assert m1[from..from + n] == m[from..from + n];
    assert m3[to..to + n] == m2[to..to + n];
  }

  lemma KeepChain(m: seq<int>, m1: seq<int>, m2: seq<int>, m3: seq<int>, at: int, n: nat, to: int, from: int,
      count: nat)
    requires SameFrom(m, m1, at, n) && CopiedOver(m1, m2, to, from, count) && SameFrom(m2, m3, at, n)
    requires at + n <= to || to + count <= at
    ensures SameFrom(m, m3, at, n)
  {
  }

  /** The words across a move: m1 after the new block was taken, m2 after the copy, m3 after the old one was freed. */
  lemma MovedWords(m: seq<int>, m1: seq<int>, m2: seq<int>, m3: seq<int>, was: seq<Block>, mid: seq<Block>, c: Block,
      i: nat,
                   left: set<Block>, hi: int)
    requires i < |was| && was[i].used && Tiling(was, 0, hi) && Tiling(mid, 0, hi) && hi + HEADER == |m|
    requires c in mid && c.used && c.start != was[i].start && was[i].size <= c.size && Used(mid) == Used(was) + {c}
             && c !in Used(was)
    requires Kept(m, m1, Used(was)) && CopiedOver(m1, m2, c.start + HEADER, was[i].start + HEADER, was[i].size)
    requires left == Others(mid, was[i].start + HEADER) && Kept(m2, m3, left)
    ensures Kept(m, m3, Used(was) - {was[i]}) && CopiedTo(m, m3, c.start + HEADER, was[i].start + HEADER, was[i].size)
  {
    hide Tiling, SameFrom, CopiedTo, CopiedOver;
    var to, from, n := c.start + HEADER, was[i].start + HEADER, was[i].size;
    OnlyOne(was, i, hi);
    OneAt(was, i, hi);
    assert c in left && was[i] in Used(was);
    forall b | b in Used(was) - {was[i]}
      ensures SameFrom(m, m3, b.start + HEADER, b.size)
    {
      assert b in Used(mid) && b in mid && b != c && b in left;
      OtherStart(mid, b, c, hi);
      PayloadsApart(mid, b, c, hi);
      KeepChain(m, m1, m2, m3, b.start + HEADER, b.size, to, from, n);
    }
    PartOf(m2, m3, to, c.size, n);
    Copied(m1, m2, to, from, n);
    CopyChain(m, m1, m2, m3, to, from, n);
  }

  lemma PartOf(m: seq<int>, m': seq<int>, at: int, n: nat, k: nat)
    requires SameFrom(m, m', at, n) && k <= n
    ensures SameFrom(m, m', at, k)
  {
  }

  lemma Copied(m: seq<int>, m': seq<int>, to: int, from: int, n: nat)
    requires CopiedOver(m, m', to, from, n)
    ensures CopiedTo(m, m', to, from, n)
  {
  }

  lemma OtherStart(blocks: seq<Block>, b: Block, c: Block, hi: int)
    requires Tiling(blocks, 0, hi) && b in blocks && c in blocks && b != c
    ensures b.start != c.start
  {
    var i :| 0 <= i < |blocks| && blocks[i] == b;
    OnlyOne(blocks, i, hi);
  }

  lemma AllocatedKeeps(m: seq<int>, m': seq<int>, blocks: seq<Block>, blocks': seq<Block>)
    requires Used(blocks) <= Used(blocks') && Kept(m, m', Used(blocks) * Used(blocks'))
    ensures Kept(m, m', Used(blocks))
  {
    assert Used(blocks) * Used(blocks') == Used(blocks);
  }

  lemma ServedMore(blocks: seq<Block>, order: seq<int>, blocks': seq<Block>, n: nat, r: int)
    requires Served(blocks, order, blocks', n, r)
    ensures Used(blocks) <= Used(blocks')
  {
  }

  lemma RoundedTwice(bytes: word)
    ensures 4 * Rounded(bytes) < WORD_RANGE && Rounded(4 * Rounded(bytes)) == Rounded(bytes)
  {
  }

  lemma JoinSize(blocks: seq<Block>, i: nat)
    requires i + 1 < |blocks|
    ensures |Join(blocks, i)| == |blocks| - 1 && forall k :: 0 <= k < i ==> Join(blocks, i)[k] == blocks[k]
    ensures Join(blocks, i)[i] == blocks[i].(size := blocks[i].size + HEADER + blocks[i + 1].size)
  {
  }

  /** What a served request means for a client that gives up nothing. */
  lemma ServedGrants(blocks: seq<Block>, order: seq<int>, blocks': seq<Block>, n: nat, r: int, ptr: int)
    requires Served(blocks, order, blocks', n, r) && forall b :: b in blocks ==> b.start + HEADER != ptr
    ensures Exchanged(blocks, blocks', ptr, r, n)
  {
    var k: nat, granted: nat :| FirstFit(blocks, order, n, k) && r == order[k] + HEADER
      && Granted(n, granted) && SharedFrom(blocks, order[k], n, granted)
      && Allocated(blocks, blocks', Block(order[k], granted, true));
    assert Used(blocks) == Others(blocks, ptr);
    assert Block(order[k], granted, true) in Used(blocks');
  }

  /** The blocks in use but for the one whose payload is at ptr. */
  ghost function Others(blocks: seq<Block>, ptr: int): set<Block> {
    set b | b in Used(blocks) && b.start + HEADER != ptr
  }

  /** The block at ptr, if any, is no longer in use, one of n words at r is, with no more on top than would be too
      little for a block of its own, and no other changed. */
  ghost predicate Exchanged(blocks: seq<Block>, blocks': seq<Block>, ptr: int, r: int, n: nat) {
    exists c :: c in Used(blocks') && c.start + HEADER == r && n <= c.size <= n + HEADER + MINIALLOC
                && Used(blocks') == Others(blocks, ptr) + {c}
  }

  lemma InPlace(blocks: seq<Block>, blocks': seq<Block>, i: nat, n: nat, granted: nat, hi: int)
    requires Tiling(blocks, 0, hi) && i < |blocks| && blocks[i].used && n <= granted <= n + HEADER + MINIALLOC
    requires Used(blocks') == Used(blocks) - {blocks[i]} + {Block(blocks[i].start, granted, true)}
    ensures Exchanged(blocks, blocks', blocks[i].start + HEADER, blocks[i].start + HEADER, n)
  {
    OnlyOne(blocks, i, hi);
    var p := blocks[i].start;
    assert Used(blocks) - {blocks[i]} == Others(blocks, p + HEADER);
    assert Block(p, granted, true) in Used(blocks');
  }

  /** Between the two halves of a move. */
  lemma MidMove(blocks: seq<Block>, order: seq<int>, blocks': seq<Block>, n: nat, r: int, i: nat, hi: int)
    requires Tiling(blocks, 0, hi) && Closed(blocks) && i + 1 < |blocks| && blocks[i].used
    requires Tiling(blocks', 0, hi) && Closed(blocks') && Served(blocks, order, blocks', n, r)
    ensures exists k :: 0 <= k && k + 1 < |blocks'| && blocks'[k].start == blocks[i].start && blocks'[k].used
    ensures forall last :: Used(last) == Others(blocks', blocks[i].start + HEADER)
              ==> Exchanged(blocks, last, blocks[i].start + HEADER, r, n)
  {
    hide SharedFrom, NoTwoFree, Closed, Tiling;
    var k: nat, granted: nat :| FirstFit(blocks, order, n, k) && r == order[k] + HEADER
      && Granted(n, granted) && SharedFrom(blocks, order[k], n, granted)
      && Allocated(blocks, blocks', Block(order[k], granted, true));
    var c := Block(r - HEADER, granted, true);
    assert c == Block(order[k], granted, true) && IsFree(blocks, c.start);
    MoveOut(blocks, blocks', c, i, hi);
    var ptr := blocks[i].start + HEADER;
    assert (set b | b in Used(blocks') && b.start != blocks[i].start) == Others(blocks', ptr);
    assert (set b | b in Used(blocks) && b.start != blocks[i].start) == Others(blocks, ptr);
    forall last | Used(last) == Others(blocks', ptr)
      ensures Exchanged(blocks, last, ptr, r, n)
    {
      assert c in Used(last);
    }
  }

  /** Words granted for a request of n: the remainder is too short to stand alone. */
  predicate Granted(n: nat, granted: nat) {
    n <= granted < n + HEADER + MINIALLOC
  }

  /** What a request for n words gets of a free block of the given size: n words when the rest can stand alone. */
  function Share(n: nat, size: nat): nat {
    if size >= n + HEADER + MINIALLOC then n else size
  }

  ghost predicate SharedFrom(blocks: seq<Block>, a: int, n: nat, granted: nat) {
    exists i: nat :: i + 1 < |blocks| && blocks[i].start == a && !blocks[i].used && granted == Share(n, blocks[i].size)
  }

  /** The first free block long enough, in list order, is in use now; the other blocks in use are the same. */
  ghost predicate Served(blocks: seq<Block>, order: seq<int>, blocks': seq<Block>, n: nat, ptr: int) {
    exists k: nat, granted: nat :: FirstFit(blocks, order, n, k) && ptr == order[k] + HEADER
      && Granted(n, granted) && SharedFrom(blocks, order[k], n, granted)
      && Allocated(blocks, blocks', Block(order[k], granted, true))
  }

  /** The high-water mark after a move: both copies were in use at once. */
  ghost predicate Peaked(blocks: seq<Block>, order: seq<int>, n: nat, r: int, before: int, peak: int, size: int) {
    exists mid :: Served(blocks, order, mid, n, r) && peak == Max(before, size - FreeWords(mid))
  }

  /** Block i can grow to n words into the free block behind it. */
  predicate Room(blocks: seq<Block>, i: nat, n: nat) {
    i + 2 < |blocks| && !blocks[i + 1].used && blocks[i].size + blocks[i + 1].size > n + MINIALLOC
  }

  /** Where block i, whose payload is at ptr, goes when resized to n words. */
  ghost predicate Placed(blocks: seq<Block>, order: seq<int>, available: nat, i: nat, n: nat, ptr: int, r: int)
    requires i < |blocks|
  {
    && (r == ptr <==> n <= blocks[i].size || Room(blocks, i, n))
    && (r == NULL <==> blocks[i].size < n && !Room(blocks, i, n) && Refused(blocks, order, available, n))
  }

  /** The size that block i has when it has been resized to n words where it is: it grows to n words, is cut to n
      words, or stays whole when the tail would be too short for a block. */
  function FinalSize(size: nat, n: nat): nat {
    if n <= size <= n + HEADER + MINIALLOC then size else n
  }

  /** The free words then: growth takes what it adds, a cut gives back what it takes off, less a header unless the
      tail goes to a free block behind it. */
  function FinalFree(blocks: seq<Block>, i: nat, n: nat, free: int): int
    requires i + 1 < |blocks|
  {
    var size := blocks[i].size;
    free + (size - FinalSize(size, n)) - HeaderIf(FinalSize(size, n) < size && blocks[i + 1].used)
  }

  /** The free list then: what was cut off goes first, and the block behind it goes off. */
  function FinalOrder(blocks: seq<Block>, i: nat, n: nat, order: seq<int>): seq<int>
    requires i + 1 < |blocks|
  {
    if FinalSize(blocks[i].size, n) == blocks[i].size then order
    else [blocks[i].start + HEADER + n] + Without(order, blocks[i + 1].start)
  }

  ghost predicate ResizedHere(blocks: seq<Block>, i: nat, n: nat, blocks': seq<Block>, free: int, free': int,
                              order: seq<int>, order': seq<int>) {
    && i + 1 < |blocks|
    && Used(blocks') == Used(blocks) - {blocks[i]} + {Block(blocks[i].start, FinalSize(blocks[i].size, n), true)}
    && free' == FinalFree(blocks, i, n, free) && order' == FinalOrder(blocks, i, n, order)
  }

  lemma GrownHere(blocks: seq<Block>, i: nat, n: nat, blocks': seq<Block>, free: int, free': int, order: seq<int>,
                  order': seq<int>)
    requires i + 1 < |blocks| && blocks[i].size < n && free' == free - (n - blocks[i].size)
    requires Used(blocks') == Used(blocks) - {blocks[i]} + {Block(blocks[i].start, n, true)}
    requires order' == [blocks[i].start + HEADER + n] + Without(order, blocks[i + 1].start)
    ensures ResizedHere(blocks, i, n, blocks', free, free', order, order')
  {
  }

  lemma CutHere(blocks: seq<Block>, i: nat, n: nat, blocks': seq<Block>, free: int, free': int, order: seq<int>,
                order': seq<int>)
    requires i + 1 < |blocks| && n + HEADER + MINIALLOC < blocks[i].size
    requires free' == free + (blocks[i].size - n) - HeaderIf(blocks[i + 1].used)
    requires Used(blocks') == Used(blocks) - {blocks[i]} + {Block(blocks[i].start, n, true)}
    requires order' == [blocks[i].start + HEADER + n] + Without(order, blocks[i + 1].start)
    ensures ResizedHere(blocks, i, n, blocks', free, free', order, order')
  {
  }

  lemma KeptHere(blocks: seq<Block>, i: nat, n: nat, free: int, order: seq<int>)
    requires i + 1 < |blocks| && blocks[i].used && n <= blocks[i].size <= n + HEADER + MINIALLOC
    ensures ResizedHere(blocks, i, n, blocks, free, free, order, order)
  {
    assert blocks[i] in Used(blocks);
  }

  /** Freeing the block at ptr gives back its words, and a header for each free neighbour it is joined to. It goes
      first on the free list unless it is joined to the left, and its right neighbour goes off the list. */
  ghost predicate GivenBack(blocks: seq<Block>, ptr: int, free: int, free': int, order: seq<int>, order': seq<int>) {
    exists i: nat :: i + 1 < |blocks| && blocks[i].used && blocks[i].start + HEADER == ptr
                     && free' == free + Return(blocks, i)
                     && order' == OrderAfterFree(blocks, i, order)
  }

  function OrderAfterFree(blocks: seq<Block>, i: nat, order: seq<int>): seq<int>
    requires i + 1 < |blocks|
  {
    var others := Without(order, blocks[i + 1].start);
    if LeftFree(blocks, i) then others else [blocks[i].start] + others
  }

  predicate LeftFree(blocks: seq<Block>, i: nat)
    requires i < |blocks|
  {
    i > 0 && !blocks[i - 1].used
  }

  function Return(blocks: seq<Block>, i: nat): nat
    requires i + 1 < |blocks|
  {
    blocks[i].size + HeaderIf(LeftFree(blocks, i)) + HeaderIf(!blocks[i + 1].used)
  }

  lemma FreeGivesBack(blocks: seq<Block>, i: nat, blocks': seq<Block>, ptr: int, order: seq<int>, order': seq<int>,
                      hi: int)
    requires Canonical(blocks, hi) && Canonical(blocks', hi) && i + 1 < |blocks| && blocks[i].used
    requires blocks[i].start + HEADER == ptr && Used(blocks') == Used(blocks) - {blocks[i]}
    requires order' == OrderAfterFree(blocks, i, order)
    ensures GivenBack(blocks, ptr, FreeWords(blocks), FreeWords(blocks'), order, order')
  {
    FreedWords(blocks, i, blocks', hi);
  }

  /** rt_memheap_alloc takes the words it grants out of available_size, and a header when it leaves a rest. */
  lemma AllocCosts(blocks: seq<Block>, order: seq<int>, blocks': seq<Block>, n: nat, ptr: int, hi: int)
    requires Canonical(blocks, hi) && Canonical(blocks', hi) && Served(blocks, order, blocks', n, ptr)
    ensures exists i: nat :: i + 1 < |blocks| && blocks[i].start + HEADER == ptr && !blocks[i].used
                             && FreeWords(blocks') == FreeWords(blocks) - Share(n, blocks[i].size)
                                                      - HeaderIf(blocks[i].size >= n + HEADER + MINIALLOC)
  {
    hide FreeWords, Used;
    var k: nat, granted: nat :| FirstFit(blocks, order, n, k) && ptr == order[k] + HEADER
      && Granted(n, granted) && SharedFrom(blocks, order[k], n, granted)
      && Allocated(blocks, blocks', Block(order[k], granted, true));
    var i: nat :| i + 1 < |blocks| && blocks[i].start == order[k] && !blocks[i].used
      && granted == Share(n, blocks[i].size);
    ServedWords(blocks, i, n, granted, blocks', hi);
  }

  /** The free list after the free block at ptr has served n words: its rest, if any, goes first. */
  ghost predicate ListedAfter(blocks: seq<Block>, order: seq<int>, n: nat, ptr: int, order': seq<int>) {
    exists i: nat :: i + 1 < |blocks| && blocks[i].start + HEADER == ptr && !blocks[i].used
                     && order' == OrderAfterTake(blocks[i].size, n, ptr, order)
  }

  function OrderAfterTake(size: nat, n: nat, ptr: int, order: seq<int>): seq<int> {
    var others := Without(order, ptr - HEADER);
    if size >= n + HEADER + MINIALLOC then [ptr + n] + others else others
  }

  lemma ListedBy(blocks: seq<Block>, i: nat, order: seq<int>, n: nat, order': seq<int>)
    requires i + 1 < |blocks| && !blocks[i].used
    requires order' == OrderAfterTake(blocks[i].size, n, blocks[i].start + HEADER, order)
    ensures ListedAfter(blocks, order, n, blocks[i].start + HEADER, order')
  {
  }

  lemma ServedBy(blocks: seq<Block>, order: seq<int>, blocks': seq<Block>, n: nat, k: nat, granted: nat)
    requires FirstFit(blocks, order, n, k) && Granted(n, granted) && SharedFrom(blocks, order[k], n, granted)
             && Allocated(blocks, blocks', Block(order[k], granted, true))
    ensures Served(blocks, order, blocks', n, order[k] + HEADER)
  {
  }

  lemma MarkShape(blocks: seq<Block>, i: nat, used: bool)
    requires i < |blocks|
    ensures var r := Mark(blocks, i, used); |r| == |blocks| && r[i] == blocks[i].(used := used)
    ensures forall k :: 0 <= k < |blocks| && k != i ==> Mark(blocks, i, used)[k] == blocks[k]
  {
  }

  lemma FreeIs(blocks: seq<Block>, j: nat)
    requires j < |blocks| && !blocks[j].used
    ensures IsFree(blocks, blocks[j].start)
  {
  }

  lemma UsedIsNotFree(blocks: seq<Block>, j: nat, hi: int)
    requires Tiling(blocks, 0, hi) && j < |blocks| && blocks[j].used
    ensures !IsFree(blocks, blocks[j].start)
  {
    StartsDistinct(blocks, 0, hi);
  }

  lemma OneAt(blocks: seq<Block>, i: nat, hi: int)
    requires Tiling(blocks, 0, hi) && i < |blocks| && blocks[i].used
    ensures Used(blocks) - {blocks[i]} == Others(blocks, blocks[i].start + HEADER) && blocks[i] in Used(blocks)
    ensures forall b :: b in Used(blocks) && b.start == blocks[i].start ==> b == blocks[i]
  {
    StartsDistinct(blocks, 0, hi);
  }

  lemma CarveShape(blocks: seq<Block>, i: nat, n: nat)
    requires i < |blocks| && n + HEADER <= blocks[i].size
    ensures var r := Carve(blocks, i, n); |r| == |blocks| + 1 && r[i] == blocks[i].(size := n)
    ensures Carve(blocks, i, n)[i + 1].start == blocks[i].start + HEADER + n
  {
  }

  lemma NewStart(blocks: seq<Block>, i: nat, n: nat, lo: int, hi: int)
    requires Tiling(blocks, lo, hi) && i < |blocks| && n + HEADER <= blocks[i].size
    ensures blocks[i].start + HEADER + n !in Starts(blocks)
  {
    var q := blocks[i].start + HEADER + n;
    forall k | 0 <= k < |blocks|
      ensures blocks[k].start != q
    {
      if k < i {
        BlocksApart(blocks, k, i, lo, hi);
      } else if k > i {
        BlocksApart(blocks, i, k, lo, hi);
      }
    }
  }
}
