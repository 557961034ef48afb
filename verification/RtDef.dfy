/** What rt-thread/include/rtdef.h gives to all of the kernel: a machine word, error codes, RT_ALIGN; and thread
    numbers, which stand for pointers to control blocks. */
module RtDef {

  type word = x: int | 0 <= x < 0x1_0000_0000

  type Tid = nat

  const RT_EOK: int := 0
  const RT_ERROR: int := 1
  const RT_ETIMEOUT: int := 2
  const RT_EFULL: int := 3

  /** RT_ALIGN(size, 4) in 32-bit arithmetic. */
  function Align(size: word): (r: word) {
    (size + 3) % 0x1_0000_0000 / 4 * 4
  }

  /** The macro rounds up to the next multiple of 4 iff the sum does not overflow. */
  lemma AlignIsRoundUpIff(size: word)
    ensures Align(size) % 4 == 0
    ensures size <= Align(size) < size + 4 <==> size <= 0xFFFF_FFFC
  {
    if size > 0xFFFF_FFFC {
      assert (size + 3) % 0x1_0000_0000 == size + 3 - 0x1_0000_0000;
    } else {
      assert (size + 3) % 0x1_0000_0000 == size + 3;
    }
  }
}
