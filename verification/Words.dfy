/** The 64-bit integers the modelled code computes with. */
module Words {
  const MAX_INT64 := 0x7FFF_FFFF_FFFF_FFFF
  const MAX_UINT64 := 0xFFFF_FFFF_FFFF_FFFF

  /** What a signed 64-bit result wraps around to. */
  function Wrap64(n: int): int {
    (n + 0x8000_0000_0000_0000) % 0x1_0000_0000_0000_0000 - 0x8000_0000_0000_0000
  }

  lemma InRange(n: int)
    requires -MAX_INT64 - 1 <= n <= MAX_INT64
    ensures Wrap64(n) == n
  {
  }

  lemma WrapAdd(a: int, b: int)
    ensures Wrap64(Wrap64(a) + b) == Wrap64(a + b)
  {
  }

  function Min(a: nat, b: nat): nat {
    if a < b then a else b
  }
}
