/** Powers of two, integer logarithms and the 32-bit integers the disk format is made of. */
module Arith {

  const MAX_INT32: int := 0x7FFF_FFFF
  const MIN_INT32: int := -0x8000_0000

  type int32 = x: int | -0x8000_0000 <= x < 0x8000_0000
  type uint32 = x: int | 0 <= x < 0x1_0000_0000

  /** Two's complement truncation to 32 bits: the Go conversion `int32(x)`. */
  function WrapInt32(x: int): (r: int32)
    ensures (x - r) % 0x1_0000_0000 == 0
  {
    var m := x % 0x1_0000_0000;
    if m < 0x8000_0000 then m else m - 0x1_0000_0000
  }

  /** Two's complement truncation to 32 bits: the Go conversion `uint32(x)`. */
  function WrapUint32(x: int): uint32 {
    x % 0x1_0000_0000
  }

  lemma WrapInt32Id(x: int)
    requires -0x8000_0000 <= x < 0x8000_0000
    ensures WrapInt32(x) == x
  {
  }

  /** A signed value survives being stored as unsigned and read back. */
  lemma WrapRoundTrip(x: int32)
    ensures WrapInt32(WrapUint32(x)) == x
  {
  }

  function Max(a: int, b: int): int {
    if a > b then a else b
  }

  function Pow2(n: nat): (r: nat)
    ensures r >= 1
  {
    if n == 0 then 1 else 2 * Pow2(n - 1)
  }

  /** floor(log2(n)). */
  function Log2(n: nat): (r: nat)
    requires n > 0
    decreases n
  {
    if n == 1 then 0 else 1 + Log2(n / 2)
  }

  /** Exactly one bit set. */
  predicate IsPow2(n: nat)
    decreases n
  {
    n == 1 || (n > 1 && n % 2 == 0 && IsPow2(n / 2))
  }

  lemma {:induction false} Log2Bounds(n: nat, l: nat)
    requires n > 0
    requires Pow2(l) <= n < Pow2(l + 1)
    ensures Log2(n) == l
    decreases l
  {
    if l == 0 {
    } else {
      Log2Bounds(n / 2, l - 1);
    }
  }

  lemma {:induction false} Pow2IsPow2(k: nat)
    ensures IsPow2(Pow2(k))
    ensures Log2(Pow2(k)) == k
  {
    if k > 0 {
      Pow2IsPow2(k - 1);
      assert Pow2(k) / 2 == Pow2(k - 1) && Pow2(k) % 2 == 0;
    }
  }

  lemma {:induction false} IsPow2Witness(n: nat)
    requires IsPow2(n)
    ensures n == Pow2(Log2(n))
    decreases n
  {
    if n > 1 { IsPow2Witness(n / 2); }
  }

  lemma {:induction false} Pow2Mono(a: nat, b: nat)
    requires a <= b
    ensures Pow2(a) <= Pow2(b)
    ensures a < b ==> 2 * Pow2(a) <= Pow2(b)
    decreases b
  {
    if a < b { Pow2Mono(a, b - 1); }
  }

  lemma {:induction false} Pow2Add(a: nat, b: nat)
    ensures Pow2(a + b) == Pow2(a) * Pow2(b)
    decreases a
  {
    if a > 0 {
      Pow2Add(a - 1, b);
      assert Pow2(a + b) == 2 * Pow2(a - 1 + b);
    }
  }

  lemma Pow2Injective(a: nat, b: nat)
    requires Pow2(a) == Pow2(b)
    ensures a == b
  {
    Pow2IsPow2(a);
    Pow2IsPow2(b);
  }

  lemma Pow2Bound30()
    ensures Pow2(29) == 0x2000_0000
    ensures Pow2(30) == 0x4000_0000
    ensures Pow2(31) == 0x8000_0000
  {
    assert Pow2(10) == 1024;
    Pow2Add(10, 10);
    Pow2Add(9, 20);
    assert Pow2(29) == Pow2(9) * Pow2(20);
  }
}
