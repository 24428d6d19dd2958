/** Octets, and the ranges of the words made of them. */
module ByteValues {
  type byte = x: int | 0 <= x < 256

  const WORD32 := 0x1_0000_0000
  const WORD64 := 0x1_0000_0000_0000_0000

  function Pow256(n: nat): (p: nat)
    ensures p > 0
  {
    if n == 0 then 1 else 256 * Pow256(n - 1)
  }
}
