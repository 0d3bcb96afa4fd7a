// Arithmetic that several models share.
module Arithmetic {

  const U64_MAX: nat := 0xFFFF_FFFF_FFFF_FFFF
  const U128_MAX: nat := 0xFFFF_FFFF_FFFF_FFFF_FFFF_FFFF_FFFF_FFFF

  function Min(a: nat, b: nat): nat { if a < b then a else b }

  lemma MulMonotone(j: int, k: int, factor: int)
    requires j <= k && factor >= 0
    ensures j * factor <= k * factor
  {
    assert k * factor - j * factor == (k - j) * factor;
    assert (k - j) * factor >= 0;
  }
}
