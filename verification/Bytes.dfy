/** Bytes, powers of two and the bits of a number. */
module Bytes {

  type Byte = x: int | 0 <= x < 256

  function Pow2(n: nat): (r: nat)
    ensures r > 0
  {
    if n == 0 then 1 else 2 * Pow2(n - 1)
  }

  /** Bit `k` of `v`, counted from the lowest. */
  function BitAt(v: nat, k: nat): (bit: int)
    ensures 0 <= bit <= 1
  {
    if k == 0 then v % 2 else BitAt(v / 2, k - 1)
  }
}
