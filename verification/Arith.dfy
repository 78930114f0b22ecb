/** The few facts about products and quotients that the other modules call by name. */
module Arith {

  const TWO32: int := 0x1_0000_0000
  const TWO64: int := 0x1_0000_0000_0000_0000

  /** Reduction to the unsigned 32-bit and 64-bit types. */
  function U32(x: int): (r: int)
    ensures 0 <= r < TWO32
    ensures 0 <= x < TWO32 ==> r == x
  {
    x % TWO32
  }

  function U64(x: int): (r: int)
    ensures 0 <= r < TWO64
    ensures 0 <= x < TWO64 ==> r == x
  {
    x % TWO64
  }

  lemma MulAtLeast(a: int, d: int)
    requires a >= 1 && d >= 0
    ensures a * d >= d
  {
  }

  lemma MulMonotone(a: int, b: int, d: int)
    requires a <= b && d >= 0
    ensures a * d <= b * d
  {
    if a < b {
      MulAtLeast(b - a, d);
      assert (b - a) * d == b * d - a * d;
    }
  }

  /** Quotient and remainder are the only pair that recompose x. */
  lemma DivModUnique(x: int, d: int, q: int, r: int)
    requires 0 <= r < d && x == q * d + r
    ensures x / d == q && x % d == r
  {
    var k := x / d - q;
    assert k * d == (x / d) * d - q * d;
    assert k * d == r - x % d;
    if k > 0 {
      MulAtLeast(k, d);
    } else if k < 0 {
      assert (-k) * d == -(k * d);
      MulAtLeast(-k, d);
    }
  }

  lemma TenfoldDivMod(n: nat, h: int, r: nat)
    requires n == 10 * h + r
    ensures n / 10 == h + r / 10 && n % 10 == r % 10
  {
  }

  function Pow2(k: nat): (p: nat)
    ensures p >= 1
  {
    if k == 0 then 1 else 2 * Pow2(k - 1)
  }

  lemma {:induction false} Pow2Sum(a: nat, b: nat)
    ensures Pow2(a + b) == Pow2(a) * Pow2(b)
  {
    if b > 0 {
      Pow2Sum(a, b - 1);
      assert 2 * (Pow2(a) * Pow2(b - 1)) == Pow2(a) * (2 * Pow2(b - 1));
    }
  }

  lemma {:induction false} Pow2Monotone(a: nat, b: nat)
    requires a <= b
    ensures Pow2(a) <= Pow2(b)
  {
    if a < b {
      Pow2Monotone(a, b - 1);
    }
  }

  /** The powers of two whose values the proofs compute with. */
  lemma PowersOfTwo()
    ensures Pow2(0) == 1 && Pow2(4) == 16 && Pow2(8) == 0x100 && Pow2(16) == 0x1_0000
    ensures Pow2(19) == 0x8_0000 && Pow2(23) == 0x80_0000 && Pow2(26) == 0x400_0000
    ensures Pow2(32) == 0x1_0000_0000 && Pow2(48) == 0x1_0000_0000_0000
    ensures Pow2(51) == 0x8_0000_0000_0000 && Pow2(55) == 0x80_0000_0000_0000
    ensures Pow2(58) == 0x400_0000_0000_0000 && Pow2(64) == 0x1_0000_0000_0000_0000
  {
    assert Pow2(3) == 8;
    assert Pow2(4) == 16;
    Pow2Sum(4, 4);
    Pow2Sum(8, 8);
    Pow2Sum(16, 3);
    Pow2Sum(19, 4);
    Pow2Sum(23, 3);
    Pow2Sum(16, 16);
    Pow2Sum(32, 16);
    Pow2Sum(32, 19);
    Pow2Sum(32, 23);
    Pow2Sum(32, 26);
    Pow2Sum(32, 32);
  }

  /** x << s, written without a product of two variables. */
  function Shl(x: int, s: nat): int {
    if s == 0 then x else 2 * Shl(x, s - 1)
  }

  lemma {:induction false} ShlSum(a: int, b: int, s: nat)
    ensures Shl(a + b, s) == Shl(a, s) + Shl(b, s)
  {
    if s > 0 {
      ShlSum(a, b, s - 1);
    }
  }

  lemma {:induction false} ShlTen(a: int, s: nat)
    ensures Shl(10 * a, s) == 10 * Shl(a, s)
  {
    if s > 0 {
      ShlTen(a, s - 1);
    }
  }

  lemma {:induction false} ShlMonotone(a: int, b: int, s: nat)
    requires a <= b
    ensures Shl(a, s) <= Shl(b, s)
  {
    if s > 0 {
      ShlMonotone(a, b, s - 1);
    }
  }

  lemma {:induction false} ShlOfOne(s: nat)
    ensures Shl(0, s) == 0 && Shl(1, s) == Pow2(s)
  {
    if s > 0 {
      ShlOfOne(s - 1);
    }
  }

  lemma {:induction false} ShlIsProduct(x: int, s: nat)
    ensures Shl(x, s) == x * Pow2(s)
  {
    if s > 0 {
      ShlIsProduct(x, s - 1);
      assert 2 * (x * Pow2(s - 1)) == x * (2 * Pow2(s - 1));
    }
  }
}
