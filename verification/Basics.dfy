/** Small vocabulary shared by the other modules. */
module Basics {

  datatype Option<+T> = None | Some(value: T) {
    function Or(other: T): T {
      if Some? then value else other
    }
  }

  const U8_MAX := 0xFF
  const TWO_32 := 0x1_0000_0000
  const TWO_64 := 0x1_0000_0000_0000_0000

  const U256_LIMIT := 0x1_0000_0000_0000_0000_0000_0000_0000_0000_0000_0000_0000_0000_0000_0000_0000_0000

  type U256 = n: nat | n < U256_LIMIT

  function Min(a: int, b: int): int {
    if a <= b then a else b
  }

  function Max(a: int, b: int): int {
    if a >= b then a else b
  }

  /** `a.saturating_add(b)` on 64-bit words. */
  function SatAdd64(a: nat, b: nat): nat {
    Min(a + b, TWO_64 - 1)
  }

  predicate Distinct<T(==)>(s: seq<T>) {
    forall i, j :: 0 <= i < j < |s| ==> s[i] != s[j]
  }

  /** Number of bits needed to write `n`; zero needs none. */
  function BitLen(n: nat): nat {
    if n == 0 then 0 else 1 + BitLen(n / 2)
  }

  lemma {:induction false} BitLenMonotone(a: nat, b: nat)
    requires a <= b
    ensures BitLen(a) <= BitLen(b)
  {
    if a > 0 {
      BitLenMonotone(a / 2, b / 2);
    }
  }

  function Pow2(n: nat): nat {
    if n == 0 then 1 else 2 * Pow2(n - 1)
  }

  /** `bits` is the number of binary digits of `n`: none for zero, else `n` lies between powers of two. */
  predicate HasBits(n: nat, bits: nat) {
    if n == 0 then bits == 0 else bits > 0 && Pow2(bits - 1) <= n < Pow2(bits)
  }

  lemma {:induction false} BitLenIs(n: nat, bits: nat)
    requires HasBits(n, bits)
    ensures BitLen(n) == bits
  {
    if n > 1 {
      assert bits > 1;
      BitLenIs(n / 2, bits - 1);
    } else if n == 1 && bits > 1 {
      Pow2Grows(1, bits - 1);
    }
  }

  lemma {:induction false} Pow2Grows(a: nat, b: nat)
    requires a <= b
    ensures Pow2(a) <= Pow2(b)
  {
    if a < b {
      Pow2Grows(a, b - 1);
    }
  }
}
