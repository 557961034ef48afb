/** The ready marks of rt-thread/src/scheduler.c: one bit per priority, in one word for up to 32
    priorities and in a table of bytes under a summary word for up to 256. */
module ReadyBits {
  import opened Bits

  /** rt_thread_ready_priority_group and rt_thread_ready_table */
  datatype Marks = Marks(group: nat, bytes: seq<nat>)

  type PriorityMax = max: nat | 0 < max <= 256 witness 32

  ghost predicate Fits(m: Marks) {
    m.group < Shl1(32) && |m.bytes| == 32 && forall n :: 0 <= n < 32 ==> m.bytes[n] < Shl1(8)
  }

  function Top(max: PriorityMax): nat {
    if max <= 32 then 32 else 256
  }

  ghost predicate Marked(max: PriorityMax, m: Marks, p: nat)
    requires |m.bytes| == 32 && p < Top(max)
  {
    if max <= 32 then HasBit(m.group, p) else HasBit(m.bytes[p / 8], p % 8)
  }

  ghost predicate Summed(m: Marks, n: nat)
    requires |m.bytes| == 32 && n < 32
  {
    HasBit(m.group, n) == (m.bytes[n] != 0)
  }

  ghost predicate Filled<T>(table: seq<seq<T>>, p: nat) {
    p < |table| && table[p] != []
  }

  /** A bit is set exactly for the priorities whose queue is not empty. */
  ghost predicate Exact<T>(max: PriorityMax, m: Marks, table: seq<seq<T>>) {
    && Fits(m) && |table| == max
    && (forall p :: 0 <= p < Top(max) ==> Marked(max, m, p) == Filled(table, p))
    && (max > 32 ==> forall n :: 0 <= n < 32 ==> Summed(m, n))
  }

  function Number(max: PriorityMax, p: nat): nat {
    if max <= 32 then 0 else p / 8
  }

  function NumberMask(max: PriorityMax, p: nat): nat {
    if max <= 32 then Shl1(p) else Shl1(p / 8)
  }

  function HighMask(max: PriorityMax, p: nat): nat {
    if max <= 32 then 0 else Shl1(p % 8)
  }

  /** What rt_schedule_insert_thread does to the marks. */
  function SetMark(max: PriorityMax, m: Marks, p: nat): Marks
    requires p < max && |m.bytes| == 32
  {
    if max <= 32 then Marks(Or(m.group, NumberMask(max, p)), m.bytes)
    else Marks(Or(m.group, NumberMask(max, p)), m.bytes[p / 8 := Or(m.bytes[p / 8], HighMask(max, p))])
  }

  /** What rt_schedule_remove_thread does to the marks once a queue is empty. */
  function ClearMark(max: PriorityMax, m: Marks, p: nat): Marks
    requires p < max && |m.bytes| == 32
  {
    if max <= 32 then Marks(AndNot(m.group, NumberMask(max, p)), m.bytes)
    else
      var b := AndNot(m.bytes[p / 8], HighMask(max, p));
      Marks(if b == 0 then AndNot(m.group, NumberMask(max, p)) else m.group, m.bytes[p / 8 := b])
  }

  /** The priority rt_schedule computes from the marks. */
  function Highest(max: PriorityMax, m: Marks): int
    requires Fits(m)
  {
    if max <= 32 then Ffs(m.group) - 1
    else
      var number := Ffs(m.group) - 1;
      assert m.group > 0 ==> number == Lowest(m.group);
      if 0 <= number < 32 then
        ByteFits(m, number);
        number * 8 + Ffs(m.bytes[number]) - 1
      else -1
  }

  lemma ByteFits(m: Marks, n: nat)
    requires Fits(m) && n < 32
    ensures m.bytes[n] < Shl1(32)
  {
    ShlMonotone(8, 32);
  }

  lemma Shl1Below(p: nat, n: nat)
    requires p < n
    ensures Shl1(p) < Shl1(n)
  {
    ShlMonotone(p + 1, n);
  }

  lemma SetBitCounts(v: nat, k: nat)
    requires HasBit(v, k)
    ensures v != 0
  {
    BitOfZero(k);
  }

  lemma LowestBelow(v: nat, n: nat)
    requires 0 < v < Shl1(n)
    ensures Lowest(v) < n
  {
    if Lowest(v) >= n {
      BitsBelow(v, n, Lowest(v));
    }
  }

  ghost predicate OrSets(v: nat, w: nat, p: nat, n: nat) {
    w < Shl1(n) && w != 0 && forall k :: 0 <= k < n ==> HasBit(w, k) == (HasBit(v, k) || k == p)
  }

  lemma OrSetsBit(v: nat, p: nat, n: nat)
    requires v < Shl1(n) && p < n
    ensures OrSets(v, Or(v, Shl1(p)), p, n)
  {
    Shl1Below(p, n);
    OrBelow(v, Shl1(p), n);
    var w := Or(v, Shl1(p));
    forall k | 0 <= k < n
      ensures HasBit(w, k) == (HasBit(v, k) || k == p)
    {
      BitOfOr(v, Shl1(p), k);
      BitOfShl1(p, k);
    }
    assert HasBit(w, p);
    SetBitCounts(w, p);
  }

  ghost predicate AndNotClears(v: nat, w: nat, p: nat, n: nat) {
    w < Shl1(n) && forall k :: 0 <= k < n ==> HasBit(w, k) == (HasBit(v, k) && k != p)
  }

  lemma AndNotClearsBit(v: nat, p: nat, n: nat)
    requires v < Shl1(n) && p < n
    ensures AndNotClears(v, AndNot(v, Shl1(p)), p, n)
  {
    AndNotBelow(v, Shl1(p));
    forall k | 0 <= k < n
      ensures HasBit(AndNot(v, Shl1(p)), k) == (HasBit(v, k) && k != p)
    {
      BitOfAndNot(v, Shl1(p), k);
      BitOfShl1(p, k);
    }
  }

  lemma SplitPriority(p: nat, q: nat)
    requires p < 256 && q < 256
    ensures p / 8 < 32 && p % 8 < 8 && (p == q <==> p / 8 == q / 8 && p % 8 == q % 8)
  {
  }

  /** Putting a thread on a queue keeps the marks exact. */
  lemma SetMarkKeeps<T>(max: PriorityMax, m: Marks, table: seq<seq<T>>, table': seq<seq<T>>, p: nat)
    requires Exact(max, m, table) && p < max && |table'| == max && table'[p] != []
    requires forall q :: 0 <= q < max && q != p ==> table'[q] == table[q]
    ensures Exact(max, SetMark(max, m, p), table')
  {
    hide HasBit, Or, Shl1;
    var m' := SetMark(max, m, p);
    if max <= 32 {
      OrSetsBit(m.group, p, 32);
      forall q | 0 <= q < Top(max)
        ensures Marked(max, m', q) == Filled(table', q)
      {
        assert Marked(max, m, q) == Filled(table, q);
      }
    } else {
      SplitPriority(p, p);
      OrSetsBit(m.group, p / 8, 32);
      OrSetsBit(m.bytes[p / 8], p % 8, 8);
      forall q | 0 <= q < Top(max)
        ensures Marked(max, m', q) == Filled(table', q)
      {
        SplitPriority(p, q);
        assert Marked(max, m, q) == Filled(table, q);
      }
      forall n | 0 <= n < 32
        ensures Summed(m', n)
      {
        assert Summed(m, n);
      }
    }
  }

  /** Clearing the mark of a queue that is now empty keeps the marks exact. */
  lemma ClearMarkKeeps<T>(max: PriorityMax, m: Marks, table: seq<seq<T>>, table': seq<seq<T>>, p: nat)
    requires Exact(max, m, table) && p < max && |table'| == max && table'[p] == []
    requires forall q :: 0 <= q < max && q != p ==> table'[q] == table[q]
    ensures Exact(max, ClearMark(max, m, p), table')
  {
    hide HasBit, AndNot, Shl1;
    var m' := ClearMark(max, m, p);
    if max <= 32 {
      AndNotClearsBit(m.group, p, 32);
      forall q | 0 <= q < Top(max)
        ensures Marked(max, m', q) == Filled(table', q)
      {
        assert Marked(max, m, q) == Filled(table, q);
      }
    } else {
      SplitPriority(p, p);
      AndNotClearsBit(m.group, p / 8, 32);
      AndNotClearsBit(m.bytes[p / 8], p % 8, 8);
      forall q | 0 <= q < Top(max)
        ensures Marked(max, m', q) == Filled(table', q)
      {
        SplitPriority(p, q);
        assert Marked(max, m, q) == Filled(table, q);
      }
      forall n | 0 <= n < 32
        ensures Summed(m', n)
      {
        assert Summed(m, n);
        if n == p / 8 {
          ByteEmptied(m, n, p % 8);
        }
      }
    }
  }

  lemma ByteEmptied(m: Marks, n: nat, k: nat)
    requires Fits(m) && n < 32 && k < 8 && Summed(m, n)
    ensures AndNot(m.bytes[n], Shl1(k)) != 0 ==> HasBit(m.group, n)
  {
    AndNotBelow(m.bytes[n], Shl1(k));
  }

  /** The lowest mark is the smallest priority whose queue is not empty. */
  lemma HighestIsSmallest<T>(max: PriorityMax, m: Marks, table: seq<seq<T>>)
    requires Exact(max, m, table) && exists p :: 0 <= p < max && Filled(table, p)
    ensures var h := Highest(max, m);
            0 <= h < max && Filled(table, h) && forall q :: 0 <= q < h ==> !Filled(table, q)
  {
    hide HasBit, Shl1, Ffs;
    var p :| 0 <= p < max && Filled(table, p);
    assert Marked(max, m, p);
    if max <= 32 {
      SetBitCounts(m.group, p);
      LowestFlat(max, m, table);
    } else {
      SplitPriority(p, p);
      SetBitCounts(m.bytes[p / 8], p % 8);
      assert Summed(m, p / 8);
      LowestByTwo(max, m, table, p);
    }
  }

  lemma LowestFlat<T>(max: PriorityMax, m: Marks, table: seq<seq<T>>)
    requires Exact(max, m, table) && max <= 32 && m.group != 0
    ensures var h := Highest(max, m);
            0 <= h < max && Filled(table, h) && forall q :: 0 <= q < h ==> !Filled(table, q)
  {
    hide HasBit, Shl1;
    var h := Lowest(m.group);
    LowestBelow(m.group, 32);
    assert Ffs(m.group) == h + 1;
    assert Marked(max, m, h);
    forall q | 0 <= q < h
      ensures !Filled(table, q)
    {
      assert !Marked(max, m, q);
    }
  }

  lemma LowestByTwo<T>(max: PriorityMax, m: Marks, table: seq<seq<T>>, p: nat)
    requires Exact(max, m, table) && max > 32 && p < max && HasBit(m.group, p / 8)
    ensures var h := Highest(max, m);
            0 <= h < max && Filled(table, h) && forall q :: 0 <= q < h ==> !Filled(table, q)
  {
    hide HasBit, Shl1, Lowest, Ffs;
    SetBitCounts(m.group, p / 8);
    var n := Lowest(m.group);
    LowestBelow(m.group, 32);
    ByteFits(m, n);
    assert Summed(m, n) && m.bytes[n] != 0;
    var j := Lowest(m.bytes[n]);
    LowestBelow(m.bytes[n], 8);
    var h := n * 8 + j;
    assert h / 8 == n && h % 8 == j;
    assert Ffs(m.group) == n + 1 && Ffs(m.bytes[n]) == j + 1;
    assert Marked(max, m, h);
    forall q | 0 <= q < h
      ensures !Filled(table, q)
    {
      SplitPriority(q, q);
      assert q / 8 < n || (q / 8 == n && q % 8 < j);
      if q / 8 < n {
        assert Summed(m, q / 8);
        BitOfZero(q % 8);
      }
      assert q < Top(max) && !Marked(max, m, q);
    }
  }
}
