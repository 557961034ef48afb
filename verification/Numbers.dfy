/** Facts about numbers that several allocators need. */
module Numbers {

  function Max(a: int, b: int): int {
    if a < b then b else a
  }

  lemma MulKeepsOrder(x: nat, y: nat, m: nat)
    ensures x <= y ==> x * m <= y * m
  {
    if x <= y {
      assert y * m == x * m + (y - x) * m;
    }
  }
}
