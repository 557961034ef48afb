/** Bit patterns of unsigned words as natural numbers, and the lowest-set-bit search of
    rt-thread/src/kservice.c. Every operator is defined bit by bit. */
module Bits {

  function HasBit(v: nat, k: nat): bool {
    if k == 0 then v % 2 == 1 else HasBit(v / 2, k - 1)
  }

  function Or(a: nat, b: nat): nat {
    if a == 0 && b == 0 then 0
    else (if a % 2 == 1 || b % 2 == 1 then 1 else 0) + 2 * Or(a / 2, b / 2)
  }

  function And(a: nat, b: nat): nat {
    if a == 0 || b == 0 then 0
    else (if a % 2 == 1 && b % 2 == 1 then 1 else 0) + 2 * And(a / 2, b / 2)
  }

  /** a & ~b */
  function AndNot(a: nat, b: nat): nat {
    if a == 0 then 0
    else (if a % 2 == 1 && b % 2 == 0 then 1 else 0) + 2 * AndNot(a / 2, b / 2)
  }

  /** 1 << k */
  function Shl1(k: nat): (r: nat)
    ensures r > 0
  {
    if k == 0 then 1 else 2 * Shl1(k - 1)
  }

  lemma {:induction false} BitOfOr(a: nat, b: nat, k: nat)
    ensures HasBit(Or(a, b), k) == (HasBit(a, k) || HasBit(b, k))
    decreases k
  {
    if a == 0 && b == 0 {
      BitOfZero(k);
    } else if k > 0 {
      BitOfOr(a / 2, b / 2, k - 1);
    }
  }

  lemma {:induction false} BitOfAndNot(a: nat, b: nat, k: nat)
    ensures HasBit(AndNot(a, b), k) == (HasBit(a, k) && !HasBit(b, k))
    decreases k
  {
    if a == 0 {
      BitOfZero(k);
    } else if k > 0 {
      BitOfAndNot(a / 2, b / 2, k - 1);
    }
  }

  lemma {:induction false} BitOfZero(k: nat)
    ensures !HasBit(0, k)
  {
    if k > 0 {
      BitOfZero(k - 1);
    }
  }

  lemma {:induction false} BitOfShl1(p: nat, k: nat)
    ensures HasBit(Shl1(p), k) == (k == p)
  {
    if p == 0 {
      if k > 0 {
        BitOfZero(k - 1);
      }
    } else if k > 0 {
      BitOfShl1(p - 1, k - 1);
    }
  }

  lemma {:induction false} ShlMonotone(a: nat, b: nat)
    requires a <= b
    ensures Shl1(a) <= Shl1(b)
    decreases b
  {
    if a < b {
      ShlMonotone(a, b - 1);
    }
  }

  lemma {:induction false} OrBelow(a: nat, b: nat, n: nat)
    requires a < Shl1(n) && b < Shl1(n)
    ensures Or(a, b) < Shl1(n)
  {
    if n > 0 {
      OrBelow(a / 2, b / 2, n - 1);
    }
  }

  lemma {:induction false} AndNotBelow(a: nat, b: nat)
    ensures AndNot(a, b) <= a
  {
    if a > 0 {
      AndNotBelow(a / 2, b / 2);
    }
  }

  lemma {:induction false} AndNotNothing(a: nat)
    ensures AndNot(a, 0) == a
  {
    if a > 0 {
      AndNotNothing(a / 2);
    }
  }

  lemma {:induction false} BitsBelow(v: nat, n: nat, k: nat)
    requires v < Shl1(n) && n <= k
    ensures !HasBit(v, k)
    decreases n
  {
    if n == 0 {
      BitOfZero(k);
    } else {
      BitsBelow(v / 2, n - 1, k - 1);
    }
  }

  /** Index of the lowest set bit. */
  function Lowest(v: nat): (k: nat)
    requires v > 0
    ensures HasBit(v, k) && forall j :: 0 <= j < k ==> !HasBit(v, j)
  {
    if v % 2 == 1 then 0
    else
      var r := Lowest(v / 2);
      assert forall j :: 0 < j < r + 1 ==> HasBit(v, j) == HasBit(v / 2, j - 1);
      r + 1
  }

  lemma LowestIsUnique(v: nat, k: nat)
    requires v > 0 && HasBit(v, k) && forall j :: 0 <= j < k ==> !HasBit(v, j)
    ensures Lowest(v) == k
  {
    var l := Lowest(v);
    assert HasBit(v, l);
  }

  // ---------------------------------------------------------------- __rt_ffs

  /** __lowest_bit_bitmap, 16 entries to a row: all rows agree but for their first entry. */
  const ROW_FIRST: seq<nat> := [0, 4, 5, 4, 6, 4, 5, 4, 7, 4, 5, 4, 6, 4, 5, 4]
  const ROW_REST: seq<nat> := [0, 0, 1, 0, 2, 0, 1, 0, 3, 0, 1, 0, 2, 0, 1, 0]

  function FirstInRow(h: nat): nat
    requires h < 16
  {
    ROW_FIRST[h]
  }

  function InRow(l: nat): nat
    requires l < 16
  {
    ROW_REST[l]
  }

  function LowestBitBitmap(n: nat): nat
    requires n < 256
  {
    if n % 16 == 0 then FirstInRow(n / 16) else InRow(n % 16)
  }

  lemma TableOfEven(h: nat)
    requires 0 < h < 8
    ensures InRow(2 * h) == 1 + Lowest(h)
  {
    assert h == 4 ==> Lowest(h) == 1 + Lowest(2);
  }

  lemma TableOfOdd(n: nat)
    requires n < 16 && n % 2 == 1
    ensures InRow(n) == 0
  {
  }

  lemma TableOfNibble(n: nat)
    requires 0 < n < 16
    ensures InRow(n) == Lowest(n)
  {
    if n % 2 == 0 {
      hide InRow;
      TableOfEven(n / 2);
    } else {
      TableOfOdd(n);
    }
  }

  lemma TableOfRowStart(h: nat)
    requires 0 < h < 16
    ensures FirstInRow(h) == 4 + InRow(h)
  {
  }

  lemma RowStart(h: nat)
    requires h > 0
    ensures 16 * h > 0 && Lowest(16 * h) == 4 + Lowest(h)
  {
    LowestShifted(h, 4);
    ShlFour(h);
  }

  lemma ShlFour(h: nat)
    ensures Shl(h, 4) == 16 * h && Shl1(4) == 16
  {
    assert Shl(h, 4) == 2 * Shl(h, 3) && Shl(h, 3) == 2 * Shl(h, 2) && Shl(h, 2) == 2 * Shl(h, 1)
        && Shl(h, 1) == 2 * Shl(h, 0);
  }

  /** Every entry of the table but the first is the lowest set bit of its index. */
  lemma TableIsLowest(n: nat)
    requires 0 < n < 256
    ensures LowestBitBitmap(n) == Lowest(n)
  {
    hide Lowest, FirstInRow, InRow;
    var h, l := n / 16, n % 16;
    assert n == 16 * h + l;
    if l == 0 {
      TableOfNibble(h);
      TableOfRowStart(h);
      RowStart(h);
    } else {
      TableOfNibble(l);
      ShlFour(h);
      LowestOfSum(h, 4, l);
    }
  }

  lemma {:induction false} LowestOfSum(h: nat, k: nat, l: nat)
    requires 0 < l < Shl1(k)
    ensures Lowest(Shl(h, k) + l) == Lowest(l)
  {
    if k > 0 && l % 2 == 0 {
      var s := Shl(h, k - 1);
      assert (2 * s + l) / 2 == s + l / 2 && (2 * s + l) % 2 == 0;
      LowestOfSum(h, k - 1, l / 2);
    } else if k > 0 {
      assert (2 * Shl(h, k - 1) + l) % 2 == 1;
    }
  }

  function Shl(v: nat, k: nat): nat {
    if k == 0 then v else 2 * Shl(v, k - 1)
  }

  function Shr(v: nat, k: nat): nat {
    if k == 0 then v else Shr(v / 2, k - 1)
  }

  lemma {:induction false} LowestShifted(v: nat, k: nat)
    requires v > 0
    ensures Shl(v, k) > 0 && Lowest(Shl(v, k)) == k + Lowest(v)
  {
    if k > 0 {
      LowestShifted(v, k - 1);
    }
  }

  lemma {:induction false} BitOfAnd(a: nat, b: nat, k: nat)
    ensures HasBit(And(a, b), k) == (HasBit(a, k) && HasBit(b, k))
    decreases k
  {
    if a == 0 || b == 0 {
      BitOfZero(k);
    } else if k > 0 {
      BitOfAnd(a / 2, b / 2, k - 1);
    }
  }

  lemma {:induction false} BitOfShl(v: nat, s: nat, k: nat)
    ensures HasBit(Shl(v, s), k) == (k >= s && HasBit(v, k - s))
  {
    if s > 0 && k > 0 {
      BitOfShl(v, s - 1, k - 1);
    }
  }

  lemma {:induction false} BitOfShr(v: nat, s: nat, k: nat)
    ensures HasBit(Shr(v, s), k) == HasBit(v, k + s)
    decreases s
  {
    if s > 0 {
      BitOfShr(v / 2, s - 1, k);
      assert HasBit(v, k + s) == HasBit(v / 2, k + s - 1);
    }
  }

  /** A word of n ones has exactly its first n bits set. */
  lemma {:induction false} BitOfOnes(n: nat, k: nat)
    ensures HasBit(Shl1(n) - 1, k) == (k < n)
    decreases n
  {
    if n == 0 {
      BitOfZero(k);
    } else if k > 0 {
      BitOfOnes(n - 1, k - 1);
      assert (Shl1(n) - 1) / 2 == Shl1(n - 1) - 1;
    }
  }

  lemma BitOfByteMask(k: nat)
    ensures HasBit(255, k) == (k < 8)
  {
    BitOfOnes(8, k);
    assert Shl1(8) == 256;
  }

  lemma {:induction false} ShrBelow(v: nat, n: nat, s: nat)
    requires v < Shl1(n + s)
    ensures Shr(v, s) < Shl1(n)
    decreases s
  {
    if s > 0 {
      ShrBelow(v / 2, n, s - 1);
    }
  }

  lemma {:induction false} AndAtMost(a: nat, b: nat)
    ensures And(a, b) <= b
  {
    if a > 0 && b > 0 {
      AndAtMost(a / 2, b / 2);
    }
  }

  lemma {:induction false} ShlBelow(v: nat, n: nat, s: nat)
    requires v < Shl1(n)
    ensures Shl(v, s) < Shl1(n + s)
  {
    if s > 0 {
      ShlBelow(v, n, s - 1);
    }
  }

  /** (value & (0xff << k)) >> k */
  function Byte(value: nat, k: nat): nat {
    Shr(And(value, Shl(255, k)), k)
  }

  lemma ByteRange(value: nat, k: nat)
    ensures Byte(value, k) < 256
  {
    AndAtMost(value, Shl(255, k));
    assert Shl1(8) == 256;
    ShlBelow(255, 8, k);
    ShrBelow(And(value, Shl(255, k)), 8, k);
  }

  lemma BitOfByte(value: nat, k: nat, j: nat)
    ensures HasBit(Byte(value, k), j) == (j < 8 && HasBit(value, j + k))
  {
    BitOfShr(And(value, Shl(255, k)), k, j);
    BitOfAnd(value, Shl(255, k), j + k);
    BitOfShl(255, k, j + k);
    BitOfByteMask(j);
  }

  lemma BitOfMasked(value: nat, k: nat, j: nat)
    ensures HasBit(And(value, Shl(255, k)), j) == (k <= j < k + 8 && HasBit(value, j))
  {
    BitOfAnd(value, Shl(255, k), j);
    BitOfShl(255, k, j);
    if j >= k {
      BitOfByteMask(j - k);
    }
  }

  ghost predicate ClearBelow(value: nat, k: nat) {
    forall j :: 0 <= j < k ==> !HasBit(value, j)
  }

  /** A masked byte of zero means those eight bits are clear. */
  lemma ByteClear(value: nat, k: nat)
    requires ClearBelow(value, k) && And(value, Shl(255, k)) == 0
    ensures ClearBelow(value, k + 8)
  {
    forall j | 0 <= j < k + 8
      ensures !HasBit(value, j)
    {
      BitOfMasked(value, k, j);
      BitOfZero(j);
    }
  }

  /** The lowest set bit of the first byte that is not zero is the lowest set bit of the word. */
  lemma ByteHasLowest(value: nat, k: nat)
    requires ClearBelow(value, k) && And(value, Shl(255, k)) != 0
    ensures value > 0 && 0 < Byte(value, k) < 256
    ensures Lowest(value) == k + LowestBitBitmap(Byte(value, k))
  {
    hide And, Shl, LowestBitBitmap;
    ByteRange(value, k);
    LowestOfMasked(value, k);
    var l := Lowest(And(value, Shl(255, k)));
    LowestOfByte(value, k, l);
    TableIsLowest(Byte(value, k));
  }

  lemma LowestOfMasked(value: nat, k: nat)
    requires ClearBelow(value, k) && And(value, Shl(255, k)) != 0
    ensures var l := Lowest(And(value, Shl(255, k))); k <= l < k + 8 && value > 0 && Lowest(value) == l
  {
    hide And, Shl;
    var l := Lowest(And(value, Shl(255, k)));
    BitOfMasked(value, k, l);
    BitOfZero(l);
    forall j | 0 <= j < l
      ensures !HasBit(value, j)
    {
      BitOfMasked(value, k, j);
    }
    LowestIsUnique(value, l);
  }

  lemma LowestOfByte(value: nat, k: nat, l: nat)
    requires value > 0 && Lowest(value) == l && k <= l < k + 8
    ensures Byte(value, k) > 0 && Lowest(Byte(value, k)) == l - k
  {
    hide Byte;
    BitOfByte(value, k, l - k);
    BitOfZero(l - k);
    forall j | 0 <= j < l - k
      ensures !HasBit(Byte(value, k), j)
    {
      BitOfByte(value, k, j);
    }
    LowestIsUnique(Byte(value, k), l - k);
  }

  /** Index of the first bit set, counted from one; zero for a word without a bit. */
  function Ffs(value: nat): (r: nat)
    requires value < Shl1(32)
    ensures (r == 0) == (value == 0)
    ensures value > 0 ==> r == Lowest(value) + 1
  {
    if value == 0 then 0
    else if And(value, Shl(255, 0)) != 0 then
      ByteHasLowest(value, 0);
      LowestBitBitmap(Byte(value, 0)) + 1
    else
      ByteClear(value, 0);
      if And(value, Shl(255, 8)) != 0 then
        ByteHasLowest(value, 8);
        LowestBitBitmap(Byte(value, 8)) + 9
      else
        ByteClear(value, 8);
        if And(value, Shl(255, 16)) != 0 then
          ByteHasLowest(value, 16);
          LowestBitBitmap(Byte(value, 16)) + 17
        else
          ByteClear(value, 16);
          TopByte(value);
          ByteHasLowest(value, 24);
          LowestBitBitmap(Byte(value, 24)) + 25
  }

  lemma TopByte(value: nat)
    requires 0 < value < Shl1(32) && ClearBelow(value, 24)
    ensures And(value, Shl(255, 24)) != 0
  {
    var l := Lowest(value);
    if l >= 32 {
      BitsBelow(value, 32, l);
    }
    BitOfMasked(value, 24, l);
    BitOfZero(l);
  }
}
