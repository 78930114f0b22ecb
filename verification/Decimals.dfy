/** Decimal text: the reference every printing routine of the bundled fmt library is proved against. */
module Decimals {
  import opened Arith

  function DigitChar(d: nat): char
    requires d < 10
  {
    '0' + d as char
  }

  predicate IsDigit(c: char) {
    '0' <= c <= '9'
  }

  function DigitValue(c: char): nat
    requires IsDigit(c)
  {
    c as int - '0' as int
  }

  ghost predicate AllDigits(s: string) {
    forall i :: 0 <= i < |s| ==> IsDigit(s[i])
  }

  /** The decimal text of n, without leading zeros. */
  function Format(n: nat): string {
    if n < 10 then [DigitChar(n)] else Format(n / 10) + [DigitChar(n % 10)]
  }

  /** The number a text of digits denotes. */
  function Parse(s: string): nat
    requires AllDigits(s)
  {
    if s == "" then 0 else 10 * Parse(s[..|s| - 1]) + DigitValue(s[|s| - 1])
  }

  function Pow10(k: nat): (p: nat)
    ensures p >= 1
  {
    if k == 0 then 1 else 10 * Pow10(k - 1)
  }

  /** The w low decimal digits of n, with leading zeros. */
  function Fixed(n: nat, w: nat): (s: string)
    ensures |s| == w
  {
    if w == 0 then "" else Fixed(n / 10, w - 1) + [DigitChar(n % 10)]
  }

  lemma {:induction false} ParseFormat(n: nat)
    ensures AllDigits(Format(n)) && |Format(n)| >= 1
    ensures Parse(Format(n)) == n
  {
    if n < 10 {
      assert Format(n)[..0] == "";
    } else {
      ParseFormat(n / 10);
      assert Format(n)[..|Format(n)| - 1] == Format(n / 10);
    }
  }

  lemma FormatInjective(a: nat, b: nat)
    requires Format(a) == Format(b)
    ensures a == b
  {
    ParseFormat(a);
    ParseFormat(b);
  }

  lemma {:induction false} FormatHasNoLeadingZero(n: nat)
    requires n > 0
    ensures |Format(n)| >= 1 && Format(n)[0] != '0'
  {
    if n >= 10 {
      FormatHasNoLeadingZero(n / 10);
    }
  }

  /** The length of Format(n) is the number of decimal digits of n. */
  lemma {:induction false} FormatLength(n: nat)
    ensures |Format(n)| >= 1
    ensures n < Pow10(|Format(n)|)
    ensures n > 0 ==> Pow10(|Format(n)| - 1) <= n
  {
    if n >= 10 {
      FormatLength(n / 10);
    }
  }

  lemma {:induction false} Pow10Monotone(a: nat, b: nat)
    requires a <= b
    ensures Pow10(a) <= Pow10(b)
  {
    if a < b {
      Pow10Monotone(a, b - 1);
    }
  }

  /** The digit count is determined by the decade that n lies in. */
  lemma DecadeIsLength(n: nat, k: nat)
    requires n < Pow10(k + 1)
    requires k > 0 ==> Pow10(k) <= n
    ensures |Format(n)| == k + 1
  {
    FormatLength(n);
    var len := |Format(n)|;
    if len > k + 1 {
      Pow10Monotone(k + 1, len - 1);
    } else if len < k + 1 {
      Pow10Monotone(len, k);
    }
  }

  lemma {:induction false} FormatIsFixed(n: nat)
    ensures |Format(n)| >= 1
    ensures Format(n) == Fixed(n, |Format(n)|)
  {
    if n < 10 {
      assert Fixed(n, 1) == Fixed(n / 10, 0) + [DigitChar(n % 10)];
    } else {
      FormatIsFixed(n / 10);
    }
  }

  /** x followed by m zeros, written without a product of two variables. */
  function Times10(x: int, m: nat): int {
    if m == 0 then x else 10 * Times10(x, m - 1)
  }

  lemma {:induction false} Times10Sum(a: int, b: int, m: nat)
    ensures Times10(a + b, m) == Times10(a, m) + Times10(b, m)
  {
    if m > 0 {
      Times10Sum(a, b, m - 1);
    }
  }

  lemma {:induction false} Times10Scale(k: int, x: int, m: nat)
    ensures Times10(k * x, m) == k * Times10(x, m)
  {
    if m > 0 {
      Times10Scale(k, x, m - 1);
      assert 10 * (k * Times10(x, m - 1)) == k * (10 * Times10(x, m - 1));
    }
  }

  lemma {:induction false} Times10Monotone(a: int, b: int, m: nat)
    requires a <= b
    ensures Times10(a, m) <= Times10(b, m)
  {
    if m > 0 {
      Times10Monotone(a, b, m - 1);
    }
  }

  lemma Times10IsProduct(x: int, m: nat)
    ensures Times10(x, m) == x * Pow10(m)
  {
    Times10OfOne(m);
    Times10Scale(x, 1, m);
  }

  lemma {:induction false} Times10OfOne(m: nat)
    ensures Times10(1, m) == Pow10(m)
  {
    if m > 0 {
      Times10OfOne(m - 1);
    }
  }

  /** Fixed-width digits split into a high and a low part. */
  lemma {:induction false} FixedSplit(n: nat, hi: nat, lo: nat, a: nat, b: nat)
    requires lo < Pow10(b) && n == Times10(hi, b) + lo
    ensures Fixed(n, a + b) == Fixed(hi, a) + Fixed(lo, b)
  {
    if b > 0 {
      TenfoldDivMod(n, Times10(hi, b - 1), lo);
      FixedSplit(n / 10, hi, lo / 10, a, b - 1);
    }
  }

  /** Every number has such a split. */
  lemma {:induction false} HighAndLow(n: nat, b: nat) returns (hi: nat, lo: nat)
    ensures lo < Pow10(b) && n == Times10(hi, b) + lo
  {
    if b == 0 {
      hi, lo := n, 0;
    } else {
      hi, lo := HighAndLow(n / 10, b - 1);
      lo := 10 * lo + n % 10;
    }
  }
}
