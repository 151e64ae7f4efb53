/** Powers of two and Python's `int.bit_length`. */
module Bits {
  import opened Arithmetic
  import opened Bytes

  function BitLength(x: nat): (n: nat) {
    if x == 0 then 0 else 1 + BitLength(x / 2)
  }

  function Pow2(n: nat): (p: int)
    ensures p >= 1
  {
    if n == 0 then 1 else 2 * Pow2(n - 1)
  }

  lemma {:induction false} BitLengthBounds(x: nat)
    ensures x < Pow2(BitLength(x))
    ensures x > 0 ==> BitLength(x) >= 1 && Pow2(BitLength(x) - 1) <= x
  {
    if x > 0 { BitLengthBounds(x / 2); }
  }

  lemma {:induction false} Pow2Add(a: nat, b: nat)
    ensures Pow2(a + b) == Pow2(a) * Pow2(b)
  {
    if a > 0 { Pow2Add(a - 1, b); }
  }

  lemma {:induction false} Pow2Eight(k: nat)
    ensures Pow2(8 * k) == Pow256(k)
  {
    if k > 0 {
      Pow2Eight(k - 1);
      Pow2Add(8, 8 * k - 8);
      assert Pow2(8) == 256;
    }
  }

  lemma {:induction false} Pow2Mono(a: nat, b: nat)
    requires a <= b
    ensures Pow2(a) <= Pow2(b)
    decreases b
  {
    if a < b { Pow2Mono(a, b - 1); }
  }
}
