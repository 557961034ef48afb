/** The blocks of a memory heap of rt-thread/src/memheap.c in address order, counted in 4-byte words. */
module MemHeapModel {

  /** RT_MEMHEAP_SIZE and RT_MEMHEAP_MINIALLOC */
  const HEADER: nat := 6
  const MINIALLOC: nat := 3

  datatype Block = Block(start: int, size: nat, used: bool)

  function After(b: Block): int {
    b.start + HEADER + b.size
  }

  /** Header and payload of each block, one behind the other from lo to hi. */
  ghost predicate Tiling(blocks: seq<Block>, lo: int, hi: int) {
    if blocks == [] then lo == hi
    else blocks[0].start == lo && Tiling(blocks[1..], After(blocks[0]), hi)
  }

  function EndOf(blocks: seq<Block>, lo: int): int {
    if blocks == [] then lo else EndOf(blocks[1..], After(blocks[0]))
  }

  function Words(b: Block): nat {
    if b.used then 0 else b.size
  }

  function FreeWords(blocks: seq<Block>): nat {
    if blocks == [] then 0 else Words(blocks[0]) + FreeWords(blocks[1..])
  }

  function Starts(blocks: seq<Block>): (r: seq<int>)
    ensures |r| == |blocks| && forall i :: 0 <= i < |r| ==> r[i] == blocks[i].start
  {
    if blocks == [] then [] else [blocks[0].start] + Starts(blocks[1..])
  }

  /** Neighbours i and i + 1 are not both free. */
  ghost predicate Settled(blocks: seq<Block>, i: nat) {
    i + 1 < |blocks| ==> blocks[i].used || blocks[i + 1].used
  }

  ghost predicate NoTwoFree(blocks: seq<Block>) {
    forall i: nat :: Settled(blocks, i)
  }

  /** The used block of size 0 that closes the pool. */
  ghost predicate Closed(blocks: seq<Block>) {
    |blocks| >= 2 && blocks[|blocks| - 1].used && blocks[|blocks| - 1].size == 0
  }

  ghost predicate IsFree(blocks: seq<Block>, a: int) {
    exists i :: 0 <= i < |blocks| && blocks[i].start == a && !blocks[i].used
  }

  function Replace(blocks: seq<Block>, i: nat, j: nat, mid: seq<Block>): seq<Block>
    requires i <= j <= |blocks|
  {
    blocks[..i] + mid + blocks[j..]
  }

  lemma {:induction false} TilingConcat(a: seq<Block>, b: seq<Block>, lo: int, hi: int)
    ensures Tiling(a + b, lo, hi) <==> Tiling(a, lo, EndOf(a, lo)) && Tiling(b, EndOf(a, lo), hi)
  {
    if a == [] {
      assert a + b == b;
    } else {
      assert (a + b)[1..] == a[1..] + b;
      TilingConcat(a[1..], b, After(a[0]), hi);
    }
  }

  lemma {:induction false} FreeWordsConcat(a: seq<Block>, b: seq<Block>)
    ensures FreeWords(a + b) == FreeWords(a) + FreeWords(b)
  {
    if a == [] {
      assert a + b == b;
    } else {
      assert (a + b)[1..] == a[1..] + b;
      FreeWordsConcat(a[1..], b);
    }
  }

  /** Two stretches of blocks that fill the same space can stand for one another. */
  lemma Replaced(blocks: seq<Block>, i: nat, j: nat, mid: seq<Block>, lo: int, hi: int)
    requires Tiling(blocks, lo, hi) && i <= j <= |blocks|
    requires var at := EndOf(blocks[..i], lo);
             Tiling(mid, at, EndOf(blocks[i..j], at)) && EndOf(mid, at) == EndOf(blocks[i..j], at)
    ensures Tiling(Replace(blocks, i, j, mid), lo, hi)
    ensures FreeWords(Replace(blocks, i, j, mid)) == FreeWords(blocks) - FreeWords(blocks[i..j]) + FreeWords(mid)
  {
    var a, old_, b := blocks[..i], blocks[i..j], blocks[j..];
    assert blocks == a + (old_ + b) && Replace(blocks, i, j, mid) == a + (mid + b);
    TilingConcat(a, old_ + b, lo, hi);
    TilingConcat(a, mid + b, lo, hi);
    TilingConcat(old_, b, EndOf(a, lo), hi);
    TilingConcat(mid, b, EndOf(a, lo), hi);
    FreeWordsConcat(a, old_ + b);
    FreeWordsConcat(a, mid + b);
    FreeWordsConcat(old_, b);
    FreeWordsConcat(mid, b);
  }

  lemma {:induction false} StartOf(blocks: seq<Block>, i: nat, lo: int, hi: int)
    requires Tiling(blocks, lo, hi) && i < |blocks|
    ensures blocks[i].start == EndOf(blocks[..i], lo) && lo <= blocks[i].start && After(blocks[i]) <= hi
    ensures After(blocks[i]) == if i + 1 < |blocks| then blocks[i + 1].start else hi
  {
    TilingRoom(blocks, lo, hi);
    if i > 0 {
      StartOf(blocks[1..], i - 1, After(blocks[0]), hi);
      assert blocks[..i][1..] == blocks[1..][..i - 1];
    } else {
      TilingRoom(blocks[1..], After(blocks[0]), hi);
    }
  }

  lemma {:induction false} TilingRoom(blocks: seq<Block>, lo: int, hi: int)
    requires Tiling(blocks, lo, hi)
    ensures lo <= hi
  {
    if blocks != [] {
      TilingRoom(blocks[1..], After(blocks[0]), hi);
    }
  }

  /** Blocks do not overlap: each ends at or before the start of any later one. */
  lemma {:induction false} BlocksApart(blocks: seq<Block>, i: nat, j: nat, lo: int, hi: int)
    requires Tiling(blocks, lo, hi) && i < j < |blocks|
    ensures After(blocks[i]) <= blocks[j].start
    decreases j - i
  {
    StartOf(blocks, i, lo, hi);
    if i + 1 < j {
      BlocksApart(blocks, i + 1, j, lo, hi);
    }
  }

  lemma StartsDistinct(blocks: seq<Block>, lo: int, hi: int)
    requires Tiling(blocks, lo, hi)
    ensures forall i, j :: 0 <= i < j < |blocks| ==> blocks[i].start < blocks[j].start
  {
    forall i, j | 0 <= i < j < |blocks|
      ensures blocks[i].start < blocks[j].start
    {
      BlocksApart(blocks, i, j, lo, hi);
    }
  }

  // ---------------------------------------------------------------- carve and join

  /** Block i keeps n words; a free block takes the rest. */
  function Carve(blocks: seq<Block>, i: nat, n: nat): seq<Block>
    requires i < |blocks| && n + HEADER <= blocks[i].size
  {
    var b := blocks[i];
    Replace(blocks, i, i + 1, [b.(size := n), Block(b.start + HEADER + n, b.size - n - HEADER, false)])
  }

  /** Block i takes over its successor. */
  function Join(blocks: seq<Block>, i: nat): seq<Block>
    requires i + 1 < |blocks|
  {
    Replace(blocks, i, i + 2, [blocks[i].(size := blocks[i].size + HEADER + blocks[i + 1].size)])
  }

  function Mark(blocks: seq<Block>, i: nat, used: bool): seq<Block>
    requires i < |blocks|
  {
    blocks[i := blocks[i].(used := used)]
  }

  lemma CarveTiles(blocks: seq<Block>, i: nat, n: nat, lo: int, hi: int)
    requires Tiling(blocks, lo, hi) && i < |blocks| && n + HEADER <= blocks[i].size
    ensures Tiling(Carve(blocks, i, n), lo, hi)
    ensures var b := blocks[i];
            FreeWords(Carve(blocks, i, n)) == FreeWords(blocks) - Words(b) + (if b.used then 0 else n)
              + (b.size - n - HEADER)
  {
    var b := blocks[i];
    StartOf(blocks, i, lo, hi);
    var one, two := [b], [b.(size := n), Block(b.start + HEADER + n, b.size - n - HEADER, false)];
    assert blocks[i..i + 1] == one && two[1..][1..] == [] && one[1..] == [];
    assert EndOf(one, b.start) == EndOf([], After(b));
    assert EndOf(two, b.start) == EndOf(two[1..], After(two[0])) == EndOf([], After(b));
    assert FreeWords(two) == Words(two[0]) + FreeWords(two[1..]);
    Replaced(blocks, i, i + 1, two, lo, hi);
  }

  lemma JoinTiles(blocks: seq<Block>, i: nat, lo: int, hi: int)
    requires Tiling(blocks, lo, hi) && i + 1 < |blocks|
    ensures Tiling(Join(blocks, i), lo, hi)
    ensures FreeWords(Join(blocks, i)) == FreeWords(blocks) - Words(blocks[i]) - Words(blocks[i + 1])
            + Words(Join(blocks, i)[i])
  {
    var b, c := blocks[i], blocks[i + 1];
    StartOf(blocks, i, lo, hi);
    var two, one := [b, c], [b.(size := b.size + HEADER + c.size)];
    assert blocks[i..i + 2] == two && two[1..] == [c] && two[1..][1..] == [] && one[1..] == [];
    assert EndOf(one, b.start) == EndOf([], After(c));
    assert EndOf(two, b.start) == EndOf([c], After(b)) == EndOf([], After(c));
    assert FreeWords(two) == Words(b) + FreeWords([c]);
    Replaced(blocks, i, i + 2, one, lo, hi);
  }

  lemma MarkTiles(blocks: seq<Block>, i: nat, used: bool, lo: int, hi: int)
    requires Tiling(blocks, lo, hi) && i < |blocks|
    ensures Tiling(Mark(blocks, i, used), lo, hi)
    ensures FreeWords(Mark(blocks, i, used)) == FreeWords(blocks) - Words(blocks[i])
            + (if used then 0 else blocks[i].size)
  {
    var b := blocks[i];
    StartOf(blocks, i, lo, hi);
    var one := [b.(used := used)];
    assert blocks[i..i + 1] == [b] && [b][1..] == [] && one[1..] == [];
    assert EndOf([b], b.start) == EndOf([], After(b)) == EndOf(one, b.start);
    Replaced(blocks, i, i + 1, one, lo, hi);
    assert Replace(blocks, i, i + 1, one) == Mark(blocks, i, used);
  }

  // ---------------------------------------------------------------- which blocks are free, which neighbours

  lemma FreeAfterCarve(blocks: seq<Block>, i: nat, n: nat)
    requires i < |blocks| && n + HEADER <= blocks[i].size
    ensures forall a :: IsFree(Carve(blocks, i, n), a) <==> IsFree(blocks, a) || a == blocks[i].start + HEADER + n
  {
    var r := Carve(blocks, i, n);
    forall a
      ensures IsFree(r, a) <==> IsFree(blocks, a) || a == blocks[i].start + HEADER + n
    {
      if IsFree(blocks, a) {
        var k :| 0 <= k < |blocks| && blocks[k].start == a && !blocks[k].used;
        var k' := if k <= i then k else k + 1;
        assert r[k'].start == a && !r[k'].used;
      }
      if IsFree(r, a) {
        var k :| 0 <= k < |r| && r[k].start == a && !r[k].used;
        if k != i + 1 {
          var k' := if k <= i then k else k - 1;
          assert blocks[k'].start == a && !blocks[k'].used;
        }
      }
      assert r[i + 1].start == blocks[i].start + HEADER + n && !r[i + 1].used;
    }
  }

  lemma FreeAfterJoin(blocks: seq<Block>, i: nat, lo: int, hi: int)
    requires Tiling(blocks, lo, hi) && i + 1 < |blocks|
    ensures forall a :: IsFree(Join(blocks, i), a) <==> IsFree(blocks, a) && a != blocks[i + 1].start
  {
    hide Tiling;
    StartsDistinct(blocks, lo, hi);
    var r := Join(blocks, i);
    forall a
      ensures IsFree(r, a) <==> IsFree(blocks, a) && a != blocks[i + 1].start
    {
      if IsFree(r, a) {
        var k :| 0 <= k < |r| && r[k].start == a && !r[k].used;
        var k' := if k <= i then k else k + 1;
        assert blocks[k'].start == a && !blocks[k'].used;
      }
      if IsFree(blocks, a) && a != blocks[i + 1].start {
        var k :| 0 <= k < |blocks| && blocks[k].start == a && !blocks[k].used;
        var k' := if k <= i then k else k - 1;
        assert r[k'].start == a && !r[k'].used;
      }
    }
  }

  lemma FreeAfterMark(blocks: seq<Block>, i: nat, used: bool, lo: int, hi: int)
    requires Tiling(blocks, lo, hi) && i < |blocks|
    ensures forall a :: IsFree(Mark(blocks, i, used), a) <==> if a == blocks[i].start then !used else IsFree(blocks, a)
  {
    StartsDistinct(blocks, lo, hi);
    var r := Mark(blocks, i, used);
    forall a
      ensures IsFree(r, a) <==> if a == blocks[i].start then !used else IsFree(blocks, a)
    {
      assert r[i].start == blocks[i].start && r[i].used == used;
      if IsFree(r, a) {
        var k :| 0 <= k < |r| && r[k].start == a && !r[k].used;
        assert blocks[k].start == a;
      }
      if IsFree(blocks, a) && a != blocks[i].start {
        var k :| 0 <= k < |blocks| && blocks[k].start == a && !blocks[k].used;
        assert r[k].start == a && !r[k].used;
      }
    }
  }

  ghost predicate SettledBut(blocks: seq<Block>, j: nat) {
    forall i: nat :: i != j ==> Settled(blocks, i)
  }

  /** Freeing a block behind a used one leaves only its right side open. */
  lemma MarkSettles(blocks: seq<Block>, i: nat)
    requires NoTwoFree(blocks) && i < |blocks| && (i > 0 ==> blocks[i - 1].used)
    ensures SettledBut(Mark(blocks, i, false), i)
  {
    forall k: nat | k != i
      ensures Settled(Mark(blocks, i, false), k)
    {
      assert Settled(blocks, k);
    }
  }

  /** So does freeing a block and joining it to the free one before it. */
  lemma MarkJoinSettles(blocks: seq<Block>, i: nat)
    requires NoTwoFree(blocks) && 0 < i < |blocks| && !blocks[i - 1].used
    ensures SettledBut(Join(Mark(blocks, i, false), i - 1), i - 1)
  {
    var j: nat := i - 1;
    var r := Join(Mark(blocks, i, false), j);
    forall k: nat | k != j
      ensures Settled(r, k)
    {
      assert Settled(blocks, if k < i - 1 then k else k + 1);
    }
  }

  /** Joining the free right neighbour closes it. */
  lemma JoinSettles(blocks: seq<Block>, j: nat)
    requires SettledBut(blocks, j) && j + 1 < |blocks| && !blocks[j + 1].used
    ensures NoTwoFree(Join(blocks, j))
  {
    forall k: nat
      ensures Settled(Join(blocks, j), k)
    {
      assert Settled(blocks, j + 1);
      assert Settled(blocks, if k < j then k else k + 1);
    }
  }

  lemma SettledAll(blocks: seq<Block>, j: nat)
    requires SettledBut(blocks, j) && Settled(blocks, j)
    ensures NoTwoFree(blocks)
  {
    forall k: nat
      ensures Settled(blocks, k)
    {
    }
  }

  /** Cutting a free tail off a used block leaves only the tail's right side open. */
  lemma CarveSettles(blocks: seq<Block>, i: nat, n: nat)
    requires NoTwoFree(blocks) && i < |blocks| && n + HEADER <= blocks[i].size
    ensures SettledBut(Mark(Carve(blocks, i, n), i, true), i + 1)
  {
    var r := Mark(Carve(blocks, i, n), i, true);
    forall k: nat | k != i + 1
      ensures Settled(r, k)
    {
      assert Settled(blocks, if k < i then k else if k > i + 1 then k - 1 else i);
    }
  }

  // ---------------------------------------------------------------- the blocks in use

  ghost function Used(blocks: seq<Block>): set<Block> {
    set b | b in blocks && b.used
  }

  lemma UsedReplaced(blocks: seq<Block>, i: nat, j: nat, mid: seq<Block>, lo: int, hi: int)
    requires Tiling(blocks, lo, hi) && i <= j <= |blocks|
    ensures Used(Replace(blocks, i, j, mid)) == Used(blocks) - Used(blocks[i..j]) + Used(mid)
  {
    StartsDistinct(blocks, lo, hi);
    var r := Replace(blocks, i, j, mid);
    assert blocks == blocks[..i] + blocks[i..j] + blocks[j..];
    forall b | b in blocks[..i] + blocks[j..]
      ensures b !in blocks[i..j]
    {
    }
  }

  lemma UsedMark(blocks: seq<Block>, i: nat, used: bool, lo: int, hi: int)
    requires Tiling(blocks, lo, hi) && i < |blocks|
    ensures Used(Mark(blocks, i, used)) == Used(blocks) - {blocks[i]} + if used then {blocks[i].(used := true)} else {}
  {
    UsedReplaced(blocks, i, i + 1, [blocks[i].(used := used)], lo, hi);
    assert blocks[i..i + 1] == [blocks[i]];
    assert Replace(blocks, i, i + 1, [blocks[i].(used := used)]) == Mark(blocks, i, used);
  }

  lemma UsedCarve(blocks: seq<Block>, i: nat, n: nat, lo: int, hi: int)
    requires Tiling(blocks, lo, hi) && i < |blocks| && n + HEADER <= blocks[i].size
    ensures Used(Carve(blocks, i, n)) == Used(blocks) - {blocks[i]}
            + if blocks[i].used then {blocks[i].(size := n)} else {}
  {
    var b := blocks[i];
    UsedReplaced(blocks, i, i + 1, [b.(size := n), Block(b.start + HEADER + n, b.size - n - HEADER, false)], lo, hi);
    assert blocks[i..i + 1] == [b];
  }

  lemma UsedJoin(blocks: seq<Block>, i: nat, lo: int, hi: int)
    requires Tiling(blocks, lo, hi) && i + 1 < |blocks| && !blocks[i + 1].used
    ensures var b := Join(blocks, i)[i];
            Used(Join(blocks, i)) == Used(blocks) - {blocks[i]} + if blocks[i].used then {b} else {}
  {
    UsedReplaced(blocks, i, i + 2, [Join(blocks, i)[i]], lo, hi);
    assert blocks[i..i + 2] == [blocks[i], blocks[i + 1]];
  }

  /** A free block of at least n words at a. */
  ghost predicate Holds(blocks: seq<Block>, a: int, n: nat) {
    exists i :: 0 <= i < |blocks| && blocks[i].start == a && !blocks[i].used && blocks[i].size >= n
  }

  /** What r is after p's free block was cut, with q the free rest. */
  ghost predicate Allocated(blocks: seq<Block>, r: seq<Block>, b: Block) {
    && NoTwoFree(r) && b.used && Used(r) == Used(blocks) + {b}
  }

  /** Cutting n words off a free block and using them. */
  lemma SplitOk(blocks: seq<Block>, i: nat, n: nat, hi: int)
    requires Tiling(blocks, 0, hi) && NoTwoFree(blocks) && i + 1 < |blocks| && !blocks[i].used
             && n + HEADER <= blocks[i].size
    ensures var p, r := blocks[i].start, Mark(Carve(blocks, i, n), i, true);
            && Allocated(blocks, r, Block(p, n, true))
            && FreeWords(r) == FreeWords(blocks) - n - HEADER
            && !IsFree(blocks, p + HEADER + n)
            && forall a :: IsFree(r, a) <==> a != p && (IsFree(blocks, a) || a == p + HEADER + n)
  {
    var p, c := blocks[i].start, Carve(blocks, i, n);
    var r := Mark(c, i, true);
    CarveTiles(blocks, i, n, 0, hi);
    MarkTiles(c, i, true, 0, hi);
    FreeAfterCarve(blocks, i, n);
    FreeAfterMark(c, i, true, 0, hi);
    CarveSettles(blocks, i, n);
    assert Settled(blocks, i) && Settled(r, i + 1);
    SettledAll(r, i + 1);
    UsedCarve(blocks, i, n, 0, hi);
    UsedMark(c, i, true, 0, hi);
    NotAStart(blocks, i, n, hi);
  }

  lemma NotAStart(blocks: seq<Block>, i: nat, n: nat, hi: int)
    requires Tiling(blocks, 0, hi) && i < |blocks| && n + HEADER <= blocks[i].size
    ensures forall k :: 0 <= k < |blocks| ==> blocks[k].start != blocks[i].start + HEADER + n
  {
    forall k | 0 <= k < |blocks|
      ensures blocks[k].start != blocks[i].start + HEADER + n
    {
      if k < i {
        BlocksApart(blocks, k, i, 0, hi);
      } else if k > i {
        BlocksApart(blocks, i, k, 0, hi);
      }
    }
  }

  /** Using a free block whole. */
  lemma WholeOk(blocks: seq<Block>, i: nat, hi: int)
    requires Tiling(blocks, 0, hi) && NoTwoFree(blocks) && i + 1 < |blocks| && !blocks[i].used
    ensures var b, r := blocks[i], Mark(blocks, i, true);
            && Allocated(blocks, r, b.(used := true))
            && FreeWords(r) == FreeWords(blocks) - b.size
            && forall a :: IsFree(r, a) <==> a != b.start && IsFree(blocks, a)
  {
    var r := Mark(blocks, i, true);
    MarkTiles(blocks, i, true, 0, hi);
    FreeAfterMark(blocks, i, true, 0, hi);
    UsedMark(blocks, i, true, 0, hi);
    forall k: nat
      ensures Settled(r, k)
    {
      assert Settled(blocks, k);
    }
  }

  /** The k-th entry of the free list is the first with a block of n words. */
  ghost predicate FirstFit(blocks: seq<Block>, order: seq<int>, n: nat, k: nat) {
    k < |order| && Holds(blocks, order[k], n) && forall j :: 0 <= j < k ==> !Holds(blocks, order[j], n)
  }

  /** Marking a used block free. */
  lemma FreeOk(blocks: seq<Block>, i: nat, hi: int)
    requires Tiling(blocks, 0, hi) && NoTwoFree(blocks) && i + 1 < |blocks| && blocks[i].used
    ensures var b, r := blocks[i], Mark(blocks, i, false);
            && Tiling(r, 0, hi) && Used(r) == Used(blocks) - {b} && FreeWords(r) == FreeWords(blocks) + b.size
            && (forall a :: IsFree(r, a) <==> a == b.start || IsFree(blocks, a))
            && ((i > 0 ==> blocks[i - 1].used) ==> SettledBut(r, i))
            && !IsFree(blocks, b.start)
  {
    MarkTiles(blocks, i, false, 0, hi);
    FreeAfterMark(blocks, i, false, 0, hi);
    UsedMark(blocks, i, false, 0, hi);
    StartsDistinct(blocks, 0, hi);
    if i > 0 ==> blocks[i - 1].used {
      MarkSettles(blocks, i);
    }
  }

  /** Joining two free blocks. */
  lemma JoinOk(blocks: seq<Block>, j: nat, hi: int)
    requires Tiling(blocks, 0, hi) && j + 1 < |blocks| && !blocks[j].used && !blocks[j + 1].used
    ensures var r := Join(blocks, j);
            && Used(r) == Used(blocks) && FreeWords(r) == FreeWords(blocks) + HEADER
            && (forall a :: IsFree(r, a) <==> IsFree(blocks, a) && a != blocks[j + 1].start)
            && |r| == |blocks| - 1 && r[j].start == blocks[j].start && !r[j].used
              && blocks[j].start != blocks[j + 1].start
            && IsFree(blocks, blocks[j + 1].start)
  {
    JoinTiles(blocks, j, 0, hi);
    FreeAfterJoin(blocks, j, 0, hi);
    UsedJoin(blocks, j, 0, hi);
    StartsDistinct(blocks, 0, hi);
  }

  /** Cutting a free tail off a block in use. */
  lemma CutOk(blocks: seq<Block>, i: nat, n: nat, hi: int)
    requires Tiling(blocks, 0, hi) && NoTwoFree(blocks) && i + 1 < |blocks| && blocks[i].used
             && n + HEADER <= blocks[i].size
    ensures var b, r, q := blocks[i], Carve(blocks, i, n), blocks[i].start + HEADER + n;
            && Tiling(r, 0, hi) && SettledBut(r, i + 1) && Used(r) == Used(blocks) - {b} + {b.(size := n)}
            && FreeWords(r) == FreeWords(blocks) + b.size - n - HEADER
            && (forall a :: IsFree(r, a) <==> IsFree(blocks, a) || a == q) && !IsFree(blocks, q)
            && |r| == |blocks| + 1 && r[i] == b.(size := n) && r[i + 1] == Block(q, b.size - n - HEADER, false)
            && forall k :: i + 1 < k < |r| ==> r[k] == blocks[k - 1]
  {
    CarveTiles(blocks, i, n, 0, hi);
    FreeAfterCarve(blocks, i, n);
    CarveSettles(blocks, i, n);
    assert Mark(Carve(blocks, i, n), i, true) == Carve(blocks, i, n);
    UsedCarve(blocks, i, n, 0, hi);
    NotAStart(blocks, i, n, hi);
  }

  /** A block in use takes over the free one behind it. */
  lemma SwallowOk(blocks: seq<Block>, i: nat, hi: int)
    requires Tiling(blocks, 0, hi) && NoTwoFree(blocks) && i + 2 < |blocks| && blocks[i].used && !blocks[i + 1].used
    ensures var b, c, r := blocks[i], blocks[i + 1], Join(blocks, i);
            && Tiling(r, 0, hi) && NoTwoFree(r) && |r| == |blocks| - 1 && r[i] == b.(size := b.size + HEADER + c.size)
            && Used(r) == Used(blocks) - {b} + {r[i]} && FreeWords(r) == FreeWords(blocks) - c.size
            && (forall a :: IsFree(r, a) <==> IsFree(blocks, a) && a != c.start) && IsFree(blocks, c.start)
            && r[i + 1].used
  {
    JoinTiles(blocks, i, 0, hi);
    FreeAfterJoin(blocks, i, 0, hi);
    UsedJoin(blocks, i, 0, hi);
    assert Settled(blocks, i + 1);
    JoinSettles(blocks, i);
  }

  /** A block in use grows into the free one behind it; what is left of that one is a free block again. */
  lemma GrowOk(blocks: seq<Block>, i: nat, n: nat, hi: int)
    requires Tiling(blocks, 0, hi) && NoTwoFree(blocks) && i + 2 < |blocks| && blocks[i].used && !blocks[i + 1].used
    requires blocks[i].size < n <= blocks[i].size + blocks[i + 1].size
    ensures var b, r, q, x := blocks[i], Carve(Join(blocks, i), i, n), blocks[i].start + HEADER + n,
            blocks[i + 1].start;
            && NoTwoFree(r) && Used(r) == Used(blocks) - {b} + {Block(b.start, n, true)}
            && FreeWords(r) == FreeWords(blocks) - (n - b.size)
            && (forall a :: IsFree(r, a) <==> (IsFree(blocks, a) && a != x) || a == q)
            && !(IsFree(blocks, q) && q != x) && IsFree(blocks, x)
    ensures |Join(blocks, i)| == |blocks| - 1 && Join(blocks, i)[i].start == blocks[i].start
    ensures n + HEADER <= Join(blocks, i)[i].size
  {
    hide Tiling, NoTwoFree, IsFree, FreeWords, Carve, SettledBut;
    var j := Join(blocks, i);
    SwallowOk(blocks, i, hi);
    CutOk(j, i, n, hi);
    var r := Carve(j, i, n);
    assert r[i + 2] == j[i + 1];
    SettledAll(r, i + 1);
    OnlyOne(blocks, i, hi);
    assert j[i] !in Used(blocks);
  }

  lemma OnlyOne(blocks: seq<Block>, i: nat, hi: int)
    requires Tiling(blocks, 0, hi) && i < |blocks|
    ensures forall b :: b in blocks && b.start == blocks[i].start ==> b == blocks[i]
  {
    StartsDistinct(blocks, 0, hi);
  }

  /** After a move: the old block is still in use, and freeing it leaves the new one in its stead. */
  lemma MoveOut(blocks: seq<Block>, blocks': seq<Block>, c: Block, i: nat, hi: int)
    requires Tiling(blocks, 0, hi) && Closed(blocks) && i + 1 < |blocks| && blocks[i].used
    requires Tiling(blocks', 0, hi) && Closed(blocks') && Used(blocks') == Used(blocks) + {c} && IsFree(blocks, c.start)
    ensures c.start != blocks[i].start
    ensures exists k :: 0 <= k && k + 1 < |blocks'| && blocks'[k].start == blocks[i].start && blocks'[k].used
    ensures (set b | b in Used(blocks') && b.start != blocks[i].start)
            == (set b | b in Used(blocks) && b.start != blocks[i].start) + {c}
  {
    OnlyOne(blocks, i, hi);
    assert blocks[i] in Used(blocks');
    var k :| 0 <= k < |blocks'| && blocks'[k] == blocks[i];
    StartOf(blocks, |blocks| - 1, 0, hi);
    StartOf(blocks', |blocks'| - 1, 0, hi);
    BlocksApart(blocks, i, |blocks| - 1, 0, hi);
  }

  // ---------------------------------------------------------------- one block list for each set of blocks in use

  ghost predicate Canonical(blocks: seq<Block>, hi: int) {
    Tiling(blocks, 0, hi) && NoTwoFree(blocks)
  }

  lemma SameEnd(a: seq<Block>, b: seq<Block>, k: nat, hi: int)
    requires Canonical(a, hi) && Canonical(b, hi) && Used(a) == Used(b)
    requires k < |a| && k < |b| && a[k].start == b[k].start && !a[k].used && !b[k].used
    ensures After(a[k]) >= After(b[k])
  {
    hide Tiling;
    if After(a[k]) < After(b[k]) {
      StartOf(a, k, 0, hi);
      StartOf(b, k, 0, hi);
      assert Settled(a, k) && k + 1 < |a|;
      assert a[k + 1] in Used(b);
      var j :| 0 <= j < |b| && b[j] == a[k + 1];
      if j < k {
        BlocksApart(b, j, k, 0, hi);
      } else if j > k {
        BlocksApart(b, k, j, 0, hi);
      }
      assert false;
    }
  }

  lemma SameBlock(a: seq<Block>, b: seq<Block>, k: nat, hi: int)
    requires Canonical(a, hi) && Canonical(b, hi) && Used(a) == Used(b)
    requires k < |a| && k < |b| && a[k].start == b[k].start
    ensures a[k] == b[k]
  {
    hide Tiling;
    if a[k].used {
      assert a[k] in Used(b);
      OnlyOne(b, k, hi);
    } else if b[k].used {
      assert b[k] in Used(a);
      OnlyOne(a, k, hi);
    } else {
      SameEnd(a, b, k, hi);
      SameEnd(b, a, k, hi);
    }
  }

  lemma {:induction false} SamePrefix(a: seq<Block>, b: seq<Block>, k: nat, hi: int)
    requires Canonical(a, hi) && Canonical(b, hi) && Used(a) == Used(b) && k < |a|
    ensures k < |b| && a[..k + 1] == b[..k + 1]
  {
    hide Tiling;
    if k > 0 {
      SamePrefix(a, b, k - 1, hi);
      assert a[k - 1] == a[..k][k - 1] == b[..k][k - 1] == b[k - 1];
      StartOf(a, k - 1, 0, hi);
      StartOf(b, k - 1, 0, hi);
      StartOf(a, k, 0, hi);
    } else {
      FirstStarts(a, b, hi);
    }
    SameBlock(a, b, k, hi);
    assert a[..k + 1] == a[..k] + [a[k]] && b[..k + 1] == b[..k] + [b[k]];
  }

  lemma FirstStarts(a: seq<Block>, b: seq<Block>, hi: int)
    requires Tiling(a, 0, hi) && Tiling(b, 0, hi) && a != []
    ensures b != [] && a[0].start == b[0].start
  {
    TilingRoom(a[1..], After(a[0]), hi);
  }

  /** The blocks in use determine the whole block list, and available_size with it. */
  lemma UsedDeterminesBlocks(a: seq<Block>, b: seq<Block>, hi: int)
    requires Canonical(a, hi) && Canonical(b, hi) && Used(a) == Used(b)
    ensures a == b
  {
    hide Tiling;
    if a != [] {
      SamePrefix(a, b, |a| - 1, hi);
      assert a[..|a|] == a;
    }
    if b != [] {
      SamePrefix(b, a, |b| - 1, hi);
      assert b[..|b|] == b;
    }
  }

  /** The words that a free neighbour's header adds, or that a header of its own costs. */
  function HeaderIf(b: bool): nat {
    if b then HEADER else 0
  }

  /** Freeing block i gives back its payload, and a header for each free neighbour. */
  lemma FreedWords(blocks: seq<Block>, i: nat, blocks': seq<Block>, hi: int)
    requires Canonical(blocks, hi) && i + 1 < |blocks| && blocks[i].used
    requires Canonical(blocks', hi) && Used(blocks') == Used(blocks) - {blocks[i]}
    ensures FreeWords(blocks') == FreeWords(blocks) + blocks[i].size + HeaderIf(i > 0 && !blocks[i - 1].used)
                                  + HeaderIf(!blocks[i + 1].used)
  {
    hide Tiling, FreeWords, Used, IsFree, SettledBut, NoTwoFree, Join;
    var r := Mark(blocks, i, false);
    FreeOk(blocks, i, hi);
    var left := i > 0 && !blocks[i - 1].used;
    var l, j := r, i;
    if left {
      JoinOk(r, i - 1, hi);
      JoinTiles(r, i - 1, 0, hi);
      MarkJoinSettles(blocks, i);
      l, j := Join(r, i - 1), i - 1;
      JoinAt(r, i - 1);
    }
    assert SettledBut(l, j) && l[j + 1] == blocks[i + 1] && j + 1 < |l|;
    if blocks[i + 1].used {
      RightUsed(l, j);
      UsedDeterminesBlocks(blocks', l, hi);
    } else {
      JoinOk(l, j, hi);
      JoinTiles(l, j, 0, hi);
      JoinSettles(l, j);
      UsedDeterminesBlocks(blocks', Join(l, j), hi);
    }
  }

  lemma JoinAt(blocks: seq<Block>, j: nat)
    requires j + 2 < |blocks|
    ensures |Join(blocks, j)| == |blocks| - 1 && Join(blocks, j)[j + 1] == blocks[j + 2]
  {
  }

  lemma RightUsed(blocks: seq<Block>, j: nat)
    requires SettledBut(blocks, j) && j + 1 < |blocks| && blocks[j + 1].used
    ensures NoTwoFree(blocks)
  {
    SettledAll(blocks, j);
  }

  /** Cutting block i to n words gives back the tail; it costs a header unless a free block stands behind it. */
  lemma CutWords(blocks: seq<Block>, i: nat, n: nat, blocks': seq<Block>, hi: int)
    requires Canonical(blocks, hi) && i + 1 < |blocks| && blocks[i].used && n + HEADER <= blocks[i].size
    requires Canonical(blocks', hi) && Used(blocks') == Used(blocks) - {blocks[i]} + {Block(blocks[i].start, n, true)}
    ensures FreeWords(blocks') == FreeWords(blocks) + (blocks[i].size - n) - HeaderIf(blocks[i + 1].used)
  {
    hide Tiling, FreeWords, Used, IsFree, SettledBut, NoTwoFree, Join, Carve;
    CutOk(blocks, i, n, hi);
    var r := Carve(blocks, i, n);
    assert r[i + 2] == blocks[i + 1];
    if blocks[i + 1].used {
      RightUsed(r, i + 1);
      UsedDeterminesBlocks(blocks', r, hi);
    } else {
      JoinOk(r, i + 1, hi);
      JoinTiles(r, i + 1, 0, hi);
      JoinSettles(r, i + 1);
      UsedDeterminesBlocks(blocks', Join(r, i + 1), hi);
    }
  }

  /** Growing block i to n words takes exactly the words it grows by. */
  lemma GrownWords(blocks: seq<Block>, i: nat, n: nat, blocks': seq<Block>, hi: int)
    requires Canonical(blocks, hi) && i + 2 < |blocks| && blocks[i].used && !blocks[i + 1].used
    requires blocks[i].size < n <= blocks[i].size + blocks[i + 1].size
    requires Canonical(blocks', hi) && Used(blocks') == Used(blocks) - {blocks[i]} + {Block(blocks[i].start, n, true)}
    ensures FreeWords(blocks') == FreeWords(blocks) - (n - blocks[i].size)
  {
    hide FreeWords, Used, IsFree, SettledBut, Join, Carve, Tiling;
    GrowOk(blocks, i, n, hi);
    JoinTiles(blocks, i, 0, hi);
    CarveTiles(Join(blocks, i), i, n, 0, hi);
    UsedDeterminesBlocks(blocks', Carve(Join(blocks, i), i, n), hi);
  }

  /** Serving n words out of free block i takes those words and, when the rest stands alone, a header. */
  lemma ServedWords(blocks: seq<Block>, i: nat, n: nat, granted: nat, blocks': seq<Block>, hi: int)
    requires Canonical(blocks, hi) && i + 1 < |blocks| && !blocks[i].used && granted <= blocks[i].size
    requires granted != blocks[i].size ==> granted == n && n + HEADER <= blocks[i].size
    requires Canonical(blocks', hi) && Used(blocks') == Used(blocks) + {Block(blocks[i].start, granted, true)}
    ensures FreeWords(blocks') == FreeWords(blocks) - granted - HeaderIf(granted != blocks[i].size)
  {
    hide FreeWords, Used, IsFree, SettledBut, Tiling;
    if granted == blocks[i].size {
      WholeOk(blocks, i, hi);
      MarkTiles(blocks, i, true, 0, hi);
      UsedDeterminesBlocks(blocks', Mark(blocks, i, true), hi);
    } else {
      SplitOk(blocks, i, n, hi);
      CarveTiles(blocks, i, n, 0, hi);
      MarkTiles(Carve(blocks, i, n), i, true, 0, hi);
      UsedDeterminesBlocks(blocks', Mark(Carve(blocks, i, n), i, true), hi);
    }
  }

  // ---------------------------------------------------------------- the pool as a whole

  function UsedWords(blocks: seq<Block>): nat {
    if blocks == [] then 0 else (if blocks[0].used then blocks[0].size else 0) + UsedWords(blocks[1..])
  }

  /** Free words, words in use and headers make up the whole pool. */
  lemma {:induction false} PoolIsSpent(blocks: seq<Block>, lo: int, hi: int)
    requires Tiling(blocks, lo, hi)
    ensures FreeWords(blocks) + UsedWords(blocks) + HEADER * |blocks| == hi - lo
  {
    if blocks != [] {
      PoolIsSpent(blocks[1..], After(blocks[0]), hi);
    }
  }

  lemma {:induction false} HeldWords(blocks: seq<Block>, i: nat)
    requires i < |blocks| && !blocks[i].used
    ensures blocks[i].size <= FreeWords(blocks)
  {
    if i > 0 {
      HeldWords(blocks[1..], i - 1);
    }
  }

  /** When rt_memheap_alloc returns NULL: no free block is long enough, or fewer than n + 1 words are free. */
  ghost predicate Refused(blocks: seq<Block>, order: seq<int>, available: nat, n: nat) {
    n >= available || NoneFits(blocks, order, n)
  }

  ghost predicate NoneFits(blocks: seq<Block>, order: seq<int>, n: nat) {
    forall k :: 0 <= k < |order| ==> !Holds(blocks, order[k], n)
  }

  /** The comparison is with `<`: a request that some free block could serve is turned down exactly when it
      is for all the free words there are. */
  lemma TurnedDownIff(blocks: seq<Block>, order: seq<int>, n: nat)
    requires exists k :: 0 <= k < |order| && Holds(blocks, order[k], n)
    ensures Refused(blocks, order, FreeWords(blocks), n) <==> n == FreeWords(blocks)
  {
    var k :| 0 <= k < |order| && Holds(blocks, order[k], n);
    var a := order[k];
    var i :| 0 <= i < |blocks| && blocks[i].start == a && !blocks[i].used && blocks[i].size >= n;
    HeldWords(blocks, i);
  }

  /** The smallest case: a pool of one free block refuses a request for just that block. */
  lemma WholePoolTurnedDown(n: nat)
    requires n > 0
    ensures var blocks := [Block(0, n, false), Block(n + HEADER, 0, true)];
            Tiling(blocks, 0, n + 2 * HEADER) && Closed(blocks) && Holds(blocks, 0, n)
            && Refused(blocks, [0], FreeWords(blocks), n)
  {
    var blocks := [Block(0, n, false), Block(n + HEADER, 0, true)];
    assert blocks[1..] == [Block(n + HEADER, 0, true)] && blocks[1..][1..] == [];
    assert FreeWords(blocks[1..]) == Words(blocks[1..][0]) + FreeWords([]);
    assert blocks[0].start == 0 && !blocks[0].used;
  }
}
