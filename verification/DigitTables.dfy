/**
 The two-digit table and the power table of the bundled fmt library.
 */
module DigitTables {
  import opened Arith
  import opened Decimals

  const ROW0: string := "0001020304050607080910111213141516171819"
  const ROW1: string := "2021222324252627282930313233343536373839"
  const ROW2: string := "4041424344454647484950515253545556575859"
  const ROW3: string := "6061626364656667686970717273747576777879"
  const ROW4: string := "8081828384858687888990919293949596979899"

  const DIGITS: string := ROW0 + ROW1 + ROW2 + ROW3 + ROW4

  const ZERO_OR_POWERS_OF_10_32: seq<int> :=
    [0, 10, 100, 1000, 10000, 100000, 1000000, 10000000, 100000000, 1000000000]

  /** What a pair of characters must be to stand for the two digits of n. */
  ghost predicate IsPair(row: string, at: nat, n: nat) {
    at + 1 < |row| && n < 100 && row[at] == DigitChar(n / 10) && row[at + 1] == DigitChar(n % 10)
  }

  lemma Row0(i: nat)
    requires i < 20
    ensures |ROW0| == 40 && IsPair(ROW0, 2 * i, i)
  {
    if i < 10 {
    } else {
    }
  }

  lemma Row1(i: nat)
    requires i < 20
    ensures |ROW1| == 40 && IsPair(ROW1, 2 * i, 20 + i)
  {
    if i < 10 {
    } else {
    }
  }

  lemma Row2(i: nat)
    requires i < 20
    ensures |ROW2| == 40 && IsPair(ROW2, 2 * i, 40 + i)
  {
    if i < 10 {
    } else {
    }
  }

  lemma Row3(i: nat)
    requires i < 20
    ensures |ROW3| == 40 && IsPair(ROW3, 2 * i, 60 + i)
  {
    if i < 10 {
    } else {
    }
  }

  lemma Row4(i: nat)
    requires i < 20
    ensures |ROW4| == 40 && IsPair(ROW4, 2 * i, 80 + i)
  {
    if i < 10 {
    } else {
    }
  }

  /** The table holds at index 2n the two digits of n, for every n below one hundred. */
  lemma PairTable(n: nat)
    requires n < 100
    ensures |DIGITS| == 200 && IsPair(DIGITS, 2 * n, n)
    ensures DIGITS[2 * n..2 * n + 2] == Fixed(n, 2)
  {
    PairRow(n / 20, n % 20);
    PairOf(DIGITS, n);
  }

  lemma PairOf(table: string, n: nat)
    requires n < 100 && IsPair(table, 40 * (n / 20) + 2 * (n % 20), 20 * (n / 20) + n % 20)
    ensures IsPair(table, 2 * n, n) && table[2 * n..2 * n + 2] == Fixed(n, 2)
  {
    PairSlice(table, 2 * n, n);
  }

  lemma PairSlice(table: string, at: nat, n: nat)
    requires IsPair(table, at, n)
    ensures table[at..at + 2] == Fixed(n, 2)
  {
    assert Fixed(n, 2) == Fixed(n / 10, 1) + [DigitChar(n % 10)];
    assert Fixed(n / 10, 1) == Fixed(n / 100, 0) + [DigitChar(n / 10 % 10)];
  }

  lemma PairRow(row: nat, i: nat)
    requires row < 5 && i < 20
    ensures |DIGITS| == 200 && IsPair(DIGITS, 40 * row + 2 * i, 20 * row + i)
  {
    Row0(i);
    Row1(i);
    Row2(i);
    Row3(i);
    Row4(i);
    RowOfConcatenation(ROW0, ROW1, ROW2, ROW3, ROW4, row, i);
  }

  lemma RowOfConcatenation(r0: string, r1: string, r2: string, r3: string, r4: string, row: nat, i: nat)
    requires row < 5 && i < 20
    requires |r0| == |r1| == |r2| == |r3| == |r4| == 40
    requires IsPair(r0, 2 * i, i) && IsPair(r1, 2 * i, 20 + i) && IsPair(r2, 2 * i, 40 + i)
    requires IsPair(r3, 2 * i, 60 + i) && IsPair(r4, 2 * i, 80 + i)
    ensures |r0 + r1 + r2 + r3 + r4| == 200
    ensures IsPair(r0 + r1 + r2 + r3 + r4, 40 * row + 2 * i, 20 * row + i)
  {
    var a, b, c := r0 + r1, r0 + r1 + r2, r0 + r1 + r2 + r3;
    if row == 0 {
      PairInLeft(r0, r1, 2 * i, i);
    } else if row == 1 {
      PairInRight(r0, r1, 2 * i, 20 + i);
    }
    if row < 2 {
      PairInLeft(a, r2, 40 * row + 2 * i, 20 * row + i);
    } else if row == 2 {
      PairInRight(a, r2, 2 * i, 40 + i);
    }
    if row < 3 {
      PairInLeft(b, r3, 40 * row + 2 * i, 20 * row + i);
    } else if row == 3 {
      PairInRight(b, r3, 2 * i, 60 + i);
    }
    if row < 4 {
      PairInLeft(c, r4, 40 * row + 2 * i, 20 * row + i);
    } else {
      PairInRight(c, r4, 2 * i, 80 + i);
    }
  }

  lemma PairInLeft(a: string, b: string, at: nat, n: nat)
    requires IsPair(a, at, n)
    ensures IsPair(a + b, at, n)
  {
  }

  lemma PairInRight(a: string, b: string, at: nat, n: nat)
    requires IsPair(b, at, n)
    ensures IsPair(a + b, |a| + at, n)
  {
  }

  /** Reads a pair of characters out of the table. */
  method ReadPair(n: nat) returns (hi: char, lo: char)
    requires n < 100
    ensures hi == DigitChar(n / 10) && lo == DigitChar(n % 10)
    ensures [hi, lo] == Fixed(n, 2)
  {
    PairTable(n);
    hi, lo := ReadAt(DIGITS, n * 2, n);
  }

  method ReadAt(table: string, index: nat, ghost n: nat) returns (hi: char, lo: char)
    requires IsPair(table, index, n)
    ensures hi == DigitChar(n / 10) && lo == DigitChar(n % 10)
    ensures [hi, lo] == Fixed(n, 2)
  {
    hi, lo := table[index], table[index + 1];
    PairSlice(table, index, n);
  }
}
