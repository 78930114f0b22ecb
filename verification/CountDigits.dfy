/**
 Counting decimal digits: the bit-length trick with its correction table, the portable loop,
 and the length of the decimal text agree on every 64-bit number.
 */
module CountDigits {
  import opened Arith
  import opened Decimals
  import DigitTables

  const ZERO_OR_POWERS_OF_10_64: seq<int> :=
    [0, 10, 100, 1000, 10000, 100000, 1000000, 10000000, 100000000, 1000000000,
     10000000000, 100000000000, 1000000000000, 10000000000000, 100000000000000,
     1000000000000000, 10000000000000000, 100000000000000000, 1000000000000000000,
     10000000000000000000]

  /** n | 1 */
  function OrOne(n: nat): nat {
    if n % 2 == 0 then n + 1 else n
  }

  /** The number of bits of n, which is the word size minus the count of leading zeros. */
  function BitLength(n: nat): nat {
    if n == 0 then 0 else 1 + BitLength(n / 2)
  }

  lemma {:induction false} BitLengthBounds(n: nat)
    requires n > 0
    ensures BitLength(n) >= 1
    ensures Pow2(BitLength(n) - 1) <= n < Pow2(BitLength(n))
  {
    if n > 1 {
      BitLengthBounds(n / 2);
    }
  }

  /** The candidate digit count of a number of b bits. */
  function TableIndex(b: nat): nat {
    b * 1233 / 4096
  }

  /** The last bit length of each table index. */
  const LAST: seq<nat> := [3, 6, 9, 13, 16, 19, 23, 26, 29, 33, 36, 39, 43, 46, 49, 53, 56, 59, 63, 64]

  /** Each decade contains the power of two at the last bit length of its table index. */
  ghost predicate DecadeOf(t: nat) {
    t < 20 && Pow10(t) <= Pow2(LAST[t]) <= Pow10(t + 1)
  }

  lemma PowersOfTwoUpTo33()
    ensures Pow2(3) == 0x8
    ensures Pow2(6) == 0x40
    ensures Pow2(9) == 0x200
    ensures Pow2(13) == 0x2000
    ensures Pow2(16) == 0x10000
    ensures Pow2(19) == 0x80000
    ensures Pow2(23) == 0x800000
    ensures Pow2(26) == 0x4000000
    ensures Pow2(29) == 0x20000000
    ensures Pow2(33) == 0x200000000
  {
    assert Pow2(3) == 8;
    PowerStep(3, 3);
    PowerStep(6, 3);
    PowerStep(9, 4);
    PowerStep(13, 3);
    PowerStep(16, 3);
    PowerStep(19, 4);
    PowerStep(23, 3);
    PowerStep(26, 3);
    PowerStep(29, 4);
  }

  lemma PowersOfTwoUpTo64()
    ensures Pow2(36) == 0x1000000000
    ensures Pow2(39) == 0x8000000000
    ensures Pow2(43) == 0x80000000000
    ensures Pow2(46) == 0x400000000000
    ensures Pow2(49) == 0x2000000000000
    ensures Pow2(53) == 0x20000000000000
    ensures Pow2(56) == 0x100000000000000
    ensures Pow2(59) == 0x800000000000000
    ensures Pow2(63) == 0x8000000000000000
    ensures Pow2(64) == 0x10000000000000000
  {
    PowersOfTwoUpTo33();
    PowerStep(33, 3);
    PowerStep(36, 3);
    PowerStep(39, 4);
    PowerStep(43, 3);
    PowerStep(46, 3);
    PowerStep(49, 4);
    PowerStep(53, 3);
    PowerStep(56, 3);
    PowerStep(59, 4);
    PowerStep(63, 1);
  }

  lemma PowerStep(a: nat, d: nat)
    requires 1 <= d <= 4
    ensures Pow2(a + d) == [2, 4, 8, 16][d - 1] * Pow2(a)
  {
    Pow2Sum(a, d);
    assert Pow2(1) == 2 && Pow2(2) == 4 && Pow2(3) == 8 && Pow2(4) == 16;
  }

  lemma PowersOfTenTable()
    ensures |ZERO_OR_POWERS_OF_10_64| == 20 && Pow10(0) == 1 && Pow10(20) == 100000000000000000000
    ensures forall t :: 1 <= t <= 19 ==> ZERO_OR_POWERS_OF_10_64[t] == Pow10(t)
  {
    forall t | 1 <= t <= 19
      ensures ZERO_OR_POWERS_OF_10_64[t] == Pow10(t)
    {
      PowerOfTenEntry(t);
    }
    PowerOfTenEntry(19);
  }

  lemma {:induction false} PowerOfTenEntry(t: nat)
    requires 1 <= t <= 19
    ensures ZERO_OR_POWERS_OF_10_64[t] == Pow10(t)
  {
    if t > 1 {
      PowerOfTenEntry(t - 1);
    }
  }

  lemma DecadeHolds(t: nat)
    requires t < 20
    ensures DecadeOf(t)
  {
    PowersOfTenTable();
    if t < 10 {
      PowersOfTwoUpTo33();
    } else {
      PowersOfTwoUpTo64();
    }
    if t > 0 {
      assert Pow10(t) == ZERO_OR_POWERS_OF_10_64[t];
    }
    if t < 19 {
      assert Pow10(t + 1) == ZERO_OR_POWERS_OF_10_64[t + 1];
    }
  }

  lemma LastOf(b: nat)
    requires 1 <= b <= 64
    ensures TableIndex(b) <= 19 && b <= LAST[TableIndex(b)]
    ensures TableIndex(b) > 0 ==> LAST[TableIndex(b) - 1] < b
  {
  }

  lemma UpperDecade(b: nat, t: nat)
    requires t < 20 && DecadeOf(t) && b <= LAST[t]
    ensures Pow2(b) <= Pow10(t + 1)
  {
    Pow2Monotone(b, LAST[t]);
  }

  lemma LowerDecade(b: nat, t: nat)
    requires t < 20 && DecadeOf(t) && LAST[t] < b
    ensures Pow10(t) <= Pow2(b - 1)
  {
    Pow2Monotone(LAST[t], b - 1);
  }

  /** The candidate is the digit count or one less, for every bit length of a word. */
  lemma CandidateDecade(b: nat)
    requires 1 <= b <= 64
    ensures TableIndex(b) <= 19
    ensures Pow2(b) <= Pow10(TableIndex(b) + 1)
    ensures TableIndex(b) > 0 ==> Pow10(TableIndex(b) - 1) <= Pow2(b - 1)
  {
    LastOf(b);
    var t := TableIndex(b);
    DecadeHolds(t);
    UpperDecade(b, t);
    if t > 0 {
      DecadeHolds(t - 1);
      LowerDecade(b, t - 1);
    }
  }

  /** A number below a power of two has at most that many bits. */
  lemma {:induction false} BitLengthAtMost(n: nat, k: nat)
    requires n < Pow2(k)
    ensures BitLength(n) <= k
  {
    if n > 0 {
      BitLengthAtMost(n / 2, k - 1);
    }
  }

  /** The table index is in range and the one comparison decides between its two candidates. */
  lemma CandidateDigits(n: nat)
    requires n < TWO64
    ensures TableIndex(BitLength(OrOne(n))) <= 19
    ensures var t := TableIndex(BitLength(OrOne(n)));
      |Format(n)| == if n < ZERO_OR_POWERS_OF_10_64[t] then t else t + 1
    ensures n < TWO32 ==> TableIndex(BitLength(OrOne(n))) <= 9
  {
    PowersOfTenTable();
    if n > 0 {
      OrOneBits(n);
      PowersOfTwo();
      BitLengthAtMost(n, 64);
      if n < TWO32 {
        BitLengthAtMost(n, 32);
      }
      BitLengthBounds(n);
      var b := BitLength(n);
      CandidateDecade(b);
      DigitsFromCandidate(n, TableIndex(b));
    } else {
      assert BitLength(OrOne(0)) == 1 && TableIndex(1) == 0;
    }
  }

  lemma DigitsFromCandidate(n: nat, t: nat)
    requires n < Pow10(t + 1)
    requires n > 0 && (t > 0 ==> Pow10(t - 1) <= n)
    ensures |Format(n)| == if t > 0 && n < Pow10(t) then t else t + 1
  {
    if t > 0 && n < Pow10(t) {
      DecadeIsLength(n, t - 1);
    } else {
      DecadeIsLength(n, t);
    }
  }

  /** Setting the low bit does not change the number of bits. */
  lemma OrOneBits(n: nat)
    requires n > 0
    ensures BitLength(OrOne(n)) == BitLength(n)
  {
    assert OrOne(n) / 2 == n / 2;
  }

  /** count_digits for 64-bit numbers. */
  function CountDigits64(n: nat): int
    requires n < TWO64
  {
    CandidateDigits(n);
    var t := TableIndex(BitLength(OrOne(n)));
    t - (if n < ZERO_OR_POWERS_OF_10_64[t] then 1 else 0) + 1
  }

  /** count_digits for 32-bit numbers, with its own shorter table. */
  function CountDigits32(n: nat): int
    requires n < TWO32
  {
    CandidateDigits(n);
    var t := TableIndex(BitLength(OrOne(n)));
    t - (if n < DigitTables.ZERO_OR_POWERS_OF_10_32[t] then 1 else 0) + 1
  }

  /** The portable loop, which divides by ten thousand. */
  method CountDigitsLoop(n: nat) returns (count: nat)
    requires n < TWO64
    ensures count == |Format(n)|
  {
    var m := n;
    count := 1;
    while true
      invariant |Format(n)| == |Format(m)| + count - 1
      decreases m
    {
      ShortFormats(m);
      if m < 10 { return; }
      if m < 100 { return count + 1; }
      if m < 1000 { return count + 2; }
      if m < 10000 { return count + 3; }
      DropFourDigits(m);
      m := m / 10000;
      count := count + 4;
    }
  }

  lemma ShortFormats(m: nat)
    ensures m < 10 ==> |Format(m)| == 1
    ensures 10 <= m < 100 ==> |Format(m)| == 2
    ensures 100 <= m < 1000 ==> |Format(m)| == 3
    ensures 1000 <= m < 10000 ==> |Format(m)| == 4
  {
    assert m >= 10 ==> |Format(m)| == |Format(m / 10)| + 1;
    assert m >= 100 ==> |Format(m / 10)| == |Format(m / 10 / 10)| + 1;
    assert m >= 1000 ==> |Format(m / 10 / 10)| == |Format(m / 10 / 10 / 10)| + 1;
  }

  lemma DropFourDigits(m: nat)
    requires m >= 10000
    ensures |Format(m)| == |Format(m / 10000)| + 4
  {
    assert m / 10 / 10 / 10 / 10 == m / 10000;
    assert |Format(m)| == |Format(m / 10)| + 1;
    assert |Format(m / 10)| == |Format(m / 10 / 10)| + 1;
    assert |Format(m / 10 / 10)| == |Format(m / 10 / 10 / 10)| + 1;
  }

  /** The fast forms and the loop compute the same count, the length of the decimal text. */
  lemma FastFormsAreExact(n: nat)
    requires n < TWO64
    ensures CountDigits64(n) == |Format(n)|
    ensures n < TWO32 ==> CountDigits32(n) == |Format(n)|
  {
    CandidateDigits(n);
    PowersOfTenTable();
    SmallTable();
  }

  lemma SmallTable()
    ensures |DigitTables.ZERO_OR_POWERS_OF_10_32| == 10
    ensures forall t :: 0 <= t <= 9 ==> DigitTables.ZERO_OR_POWERS_OF_10_32[t] == ZERO_OR_POWERS_OF_10_64[t]
  {
  }
}
