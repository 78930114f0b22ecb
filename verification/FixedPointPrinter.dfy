/**
 The fixed-point integer printer of the bundled fmt library: `Lg` chooses the decade of a
 32-bit number, and `DecimalFormatter.On` prints that many digits from one 4.32 fixed-point
 number, two digits for each multiplication by one hundred.
 */
module FixedPointPrinter {
  import opened Arith
  import opened Decimals
  import opened DigitTables
  import opened Texts

  /** The decade that the chain of comparisons selects. */
  function Decade(n: nat): nat {
    if n < 100 then if n < 10 then 0 else 1
    else if n < 1000000 then
      if n < 10000 then if n < 1000 then 2 else 3
      else if n < 100000 then 4 else 5
    else if n < 100000000 then if n < 10000000 then 6 else 7
    else if n < 1000000000 then 8 else 9
  }

  ghost predicate InDecade(u: nat, n: nat) {
    u < Pow10(n + 1) && (n > 0 ==> Pow10(n) <= u)
  }

  lemma DecadeIsFloorLog10(n: nat)
    requires n < TWO32
    ensures Decade(n) <= 9 && InDecade(n, Decade(n))
    ensures |Format(n)| == Decade(n) + 1
  {
    PowersOfTen();
    DecadeIsLength(n as nat, Decade(n));
  }

  lemma PowersOfTen()
    ensures Pow10(0) == 1 && Pow10(1) == 10 && Pow10(2) == 100 && Pow10(3) == 1000
    ensures Pow10(4) == 10000 && Pow10(5) == 100000 && Pow10(6) == 1000000
    ensures Pow10(7) == 10000000 && Pow10(8) == 100000000 && Pow10(9) == 1000000000
    ensures Pow10(10) == 10000000000
  {
    assert Pow10(2) == 100;
    assert Pow10(4) == 10000;
    assert Pow10(6) == 1000000;
    assert Pow10(8) == 100000000;
  }

  /** The binary digits by which the reciprocal is scaled beyond its 32 fractional bits. */
  function ExtraBits(n: nat): nat {
    n / 5 * n * 53 / 16
  }

  /** The fixed-point value before and after the multiplication, in unbounded arithmetic. */
  function Reciprocal(n: nat): int
    requires 1 <= n <= 8
  {
    Pow2(32 + ExtraBits(n)) / ZERO_OR_POWERS_OF_10_32[n] + 1 - n / 9
  }

  function Scaled(n: nat, u: int): int
    requires 1 <= n <= 8
  {
    Reciprocal(n) * u / Pow2(ExtraBits(n)) + n / 5 * 4
  }

  /** t, read with 32 fractional bits, lies in [r / 10^m, (r + 1) / 10^m). */
  ghost predicate Approximates(t: int, r: int, m: nat) {
    TWO32 * r <= Times10(t, m) < TWO32 * (r + 1)
  }

  /** The scaled value is close enough to u / 10^n, and nothing on the way leaves 64 bits. */
  ghost predicate GoodApproximation(n: nat, u: int)
    requires 1 <= n <= 8
  {
    && Pow2(32 + ExtraBits(n)) < TWO64
    && 0 < Reciprocal(n) < TWO64
    && 0 <= Reciprocal(n) * u < TWO64
    && 0 <= Scaled(n, u) < TWO64
    && TWO32 * u <= Scaled(n, u) * Pow10(n) < TWO32 * (u + 1)
  }

  lemma ScaledApproximates(n: nat, u: int)
    requires 1 <= n <= 8 && 0 <= u < TWO32 && u < Pow10(n + 2)
    ensures GoodApproximation(n, u)
  {
    match n
    case 1 => Approximation1(u);
    case 2 => Approximation2(u);
    case 3 => Approximation3(u);
    case 4 => Approximation4(u);
    case 5 => Approximation5(u);
    case 6 => Approximation6(u);
    case 7 => Approximation7(u);
    case 8 => Approximation8(u);
  }

  lemma NoExtraBits(n: nat)
    requires n < 5
    ensures ExtraBits(n) == 0 && Pow2(ExtraBits(n)) == 1 && Pow2(32 + ExtraBits(n)) == TWO32
  {
    PowersOfTwo();
    var a := ExtraBits(n);
    assert a == 0;
  }

  lemma Approximation1(u: int)
    requires 0 <= u < TWO32 && u < Pow10(3)
    ensures GoodApproximation(1, u)
  {
    NoExtraBits(1);
    PowersOfTen();
    assert Reciprocal(1) == 429496730;
    assert Scaled(1, u) == 429496730 * u;
  }

  lemma Approximation2(u: int)
    requires 0 <= u < TWO32 && u < Pow10(4)
    ensures GoodApproximation(2, u)
  {
    NoExtraBits(2);
    PowersOfTen();
    assert Reciprocal(2) == 42949673;
    assert Scaled(2, u) == 42949673 * u;
  }

  lemma Approximation3(u: int)
    requires 0 <= u < TWO32 && u < Pow10(5)
    ensures GoodApproximation(3, u)
  {
    NoExtraBits(3);
    PowersOfTen();
    assert Reciprocal(3) == 4294968;
    assert Scaled(3, u) == 4294968 * u;
  }

  lemma Approximation4(u: int)
    requires 0 <= u < TWO32 && u < Pow10(6)
    ensures GoodApproximation(4, u)
  {
    NoExtraBits(4);
    PowersOfTen();
    assert Reciprocal(4) == 429497;
    assert Scaled(4, u) == 429497 * u;
  }

  lemma Approximation5(u: int)
    requires 0 <= u < TWO32 && u < Pow10(7)
    ensures GoodApproximation(5, u)
  {
    PowersOfTwo();
    PowersOfTen();
    assert ExtraBits(5) == 16 && Reciprocal(5) == 2814749768;
    assert Scaled(5, u) == 2814749768 * u / 0x10000 + 4;
  }

  lemma Approximation6(u: int)
    requires 0 <= u < TWO32 && u < Pow10(8)
    ensures GoodApproximation(6, u)
  {
    PowersOfTwo();
    PowersOfTen();
    assert ExtraBits(6) == 19 && Reciprocal(6) == 2251799814;
    assert Scaled(6, u) == 2251799814 * u / 0x80000 + 4;
  }

  lemma Approximation7(u: int)
    requires 0 <= u < TWO32 && u < Pow10(9)
    ensures GoodApproximation(7, u)
  {
    PowersOfTwo();
    PowersOfTen();
    assert ExtraBits(7) == 23 && Reciprocal(7) == 3602879702;
    assert Scaled(7, u) == 3602879702 * u / 0x800000 + 4;
  }

  lemma Approximation8(u: int)
    requires 0 <= u < TWO32 && u < Pow10(10)
    ensures GoodApproximation(8, u)
  {
    PowersOfTwo();
    PowersOfTen();
    assert ExtraBits(8) == 26 && Reciprocal(8) == 2882303762;
    assert Scaled(8, u) == 2882303762 * u / 0x4000000 + 4;
  }

  /** The integer part is exact, and the fractional part approximates what is left of r. */
  lemma ExtractDigits(t: nat, q: nat, r: nat, m: nat)
    requires r < Pow10(m) && Approximates(t, Times10(q, m) + r, m)
    ensures t / TWO32 == q && Approximates(U32(t), r, m)
  {
    var f := t - TWO32 * q;
    Times10Sum(f, TWO32 * q, m);
    Times10Scale(TWO32, q, m);
    Times10OfOne(m);
    if f < 0 {
      Times10Monotone(f, -1, m);
      Times10Scale(-1, 1, m);
    }
    if f >= TWO32 {
      Times10Monotone(TWO32, f, m);
      Times10Scale(TWO32, 1, m);
    }
  }

  /** The digits printed so far, done, and the fixed-point fraction f that holds the rest. */
  ghost predicate LoopState(f: int, done: string, r: nat, u: nat, width: nat) {
    && |done| <= width
    && r < Pow10(width - |done|)
    && Approximates(f, r, width - |done|)
    && done + Fixed(r, width - |done|) == Fixed(u, width)
  }

  lemma FirstPair(t: nat, u: nat, n: nat) returns (q: nat, r: nat)
    requires n >= 1 && u < Pow10(n + 1) && Approximates(t, u, n - 1)
    ensures q < 100 && t / TWO32 == q && LoopState(U32(t), Fixed(q, 2), r, u, n + 1)
  {
    q, r := SplitPair(u, n + 1);
    ExtractDigits(t, q, r, n - 1);
  }

  /** Every further pair: multiplying by one hundred moves two digits into the integer part. */
  lemma NextPair(f: nat, done: string, r: nat, u: nat, width: nat) returns (q: nat, rest: nat)
    requires LoopState(f, done, r, u, width) && |done| + 2 <= width
    ensures q < 100 && 100 * f / TWO32 == q
    ensures LoopState(U32(100 * f), done + Fixed(q, 2), rest, u, width)
  {
    var m := width - |done|;
    q, rest := SplitPair(r, m);
    Times10Scale(100, f, m - 2);
    assert Times10(f, m) == 10 * Times10(f, m - 1);
    ExtractDigits(100 * f, q, rest, m - 2);
    assert done + (Fixed(q, 2) + Fixed(rest, m - 2)) == done + Fixed(q, 2) + Fixed(rest, m - 2);
  }

  lemma SplitPair(r: nat, m: nat) returns (q: nat, rest: nat)
    requires m >= 2 && r < Pow10(m)
    ensures q < 100 && rest < Pow10(m - 2) && r == Times10(q, m - 2) + rest
    ensures Fixed(r, m) == Fixed(q, 2) + Fixed(rest, m - 2)
  {
    q, rest := HighAndLow(r, m - 2);
    if q >= 100 {
      Times10Monotone(100, q, m - 2);
      Times10Scale(100, 1, m - 2);
      Times10OfOne(m - 2);
    }
    FixedSplit(r, q, rest, 2, m - 2);
  }

  /** The last digit of an odd number of digits. */
  lemma LastDigit(f: nat, done: string, r: nat, u: nat, width: nat)
    requires LoopState(f, done, r, u, width) && |done| + 1 == width
    ensures r < 10 && 10 * f / TWO32 == r
    ensures done + [DigitChar(r)] == Fixed(u, width)
  {
    assert Pow10(1) == 10 && Times10(f, 1) == 10 * f;
    assert Fixed(r, 1) == Fixed(r / 10, 0) + [DigitChar(r % 10)];
  }

  class DecimalFormatter {
    const buffer: array<char>
    var pos: nat

    constructor (buffer: array<char>)
      ensures this.buffer == buffer && pos == 0
    {
      this.buffer, pos := buffer, 0;
    }

    method WritePair(n: nat, index: nat)
      requires index < 100 && pos + n + 2 <= buffer.Length
      modifies buffer
      ensures buffer[..] == Overwrite(old(buffer[..]), pos + n, Fixed(index, 2))
    {
      buffer[pos + n], buffer[pos + n + 1] := ReadPair(index);
    }

    method WriteDigit(n: nat, d: nat)
      requires d < 10 && pos + n < buffer.Length
      modifies buffer
      ensures buffer[..] == Overwrite(old(buffer[..]), pos + n, [DigitChar(d)])
    {
      buffer[pos + n] := '0' + d as char;
    }

    /** The 4.32 fixed-point quotient of u by 10^(n - 1); no step leaves 64 bits. */
    static method FixedPoint(n: nat, u: nat) returns (t: nat)
      requires 2 <= n <= 9 && u < TWO32 && InDecade(u, n)
      ensures Approximates(t, u, n - 1)
    {
      var k := n - 1;
      ScaledApproximates(k, u);
      Times10IsProduct(Scaled(k, u), k);
      t := Multiplier(k);
      t := U64(t * u);
      t := U64(t / Pow2(ExtraBits(k)) + k / 5 * 4);
    }

    /** The rounded-up reciprocal of 10^k in fixed point. */
    static method Multiplier(k: nat) returns (t: nat)
      requires 1 <= k <= 8
      ensures t == Reciprocal(k)
    {
      ScaledApproximates(k, 0);
      var power: nat := U64(Pow2(32 + ExtraBits(k)));
      t := U64(power / ZERO_OR_POWERS_OF_10_32[k] + 1 - k / 9);
    }

    /** Prints a number of n + 1 digits, n being the template argument. */
    method On(n: nat, u: nat) returns (end: nat)
      requires n <= 9 && u < TWO32 && InDecade(u, n)
      requires pos + n + 1 <= buffer.Length
      modifies this`pos, buffer
      ensures |Format(u)| == n + 1
      ensures end == pos == old(pos) + n + 1
      ensures buffer[..] == Overwrite(old(buffer[..]), old(pos), Format(u))
    {
      DecadeIsLength(u, n);
      FormatIsFixed(u);
      if n == 0 {
        WriteDigit(0, u);
      } else if n == 1 {
        WritePair(0, u);
      } else {
        PrintPairs(n, u);
      }
      pos := pos + n + 1;
      return pos;
    }

    /** The branch of On for three and more digits. */
    method PrintPairs(n: nat, u: nat)
      requires 2 <= n <= 9 && u < TWO32 && InDecade(u, n)
      requires pos + n + 1 <= buffer.Length
      modifies buffer
      ensures buffer[..] == Overwrite(old(buffer[..]), pos, Fixed(u, n + 1))
    {
      ghost var before := buffer[..];
      ghost var done, r, pairs;
      var t: nat, i := 0, 2;
      t, done, r := PrintFirst(n, u);
      pairs := 1;
      while i < n
        invariant 2 <= i == 2 * pairs <= n + 1 && |done| == i
        invariant LoopState(U32(t), done, r, u, n + 1)
        invariant buffer[..] == Overwrite(before, pos, done)
      {
        t, done, r := PrintPair(i, t, before, done, r, u, n + 1);
        i, pairs := i + 2, pairs + 1;
      }
      PrintLast(n, t, before, done, r, u);
    }

    /** The multiplication, and the two digits that it brings out. */
    method PrintFirst(n: nat, u: nat) returns (t: nat, ghost done: string, ghost r: nat)
      requires 2 <= n <= 9 && u < TWO32 && InDecade(u, n)
      requires pos + n + 1 <= buffer.Length
      modifies buffer
      ensures |done| == 2 && LoopState(U32(t), done, r, u, n + 1)
      ensures buffer[..] == Overwrite(old(buffer[..]), pos, done)
    {
      t := FixedPoint(n, u);
      ghost var q, rest := FirstPair(t, u, n);
      WritePair(0, t / 0x1_0000_0000);
      done, r := Fixed(q, 2), rest;
    }

    /** One round of the loop. */
    method PrintPair(i: nat, t0: nat, ghost before: string, ghost done0: string, ghost r0: nat, ghost u: nat, ghost width: nat)
      returns (t: nat, ghost done: string, ghost r: nat)
      requires |done0| == i && i + 2 <= width && LoopState(U32(t0), done0, r0, u, width)
      requires pos + width <= buffer.Length == |before| && buffer[..] == Overwrite(before, pos, done0)
      modifies buffer
      ensures |done| == i + 2 && LoopState(U32(t), done, r, u, width)
      ensures buffer[..] == Overwrite(before, pos, done)
    {
      ghost var q, rest := NextPair(U32(t0), done0, r0, u, width);
      t := U64(100 * U32(t0));
      WritePair(i, t / 0x1_0000_0000);
      OverwriteTwice(before, pos, done0, Fixed(q, 2));
      done, r := done0 + Fixed(q, 2), rest;
    }

    /** The single digit that is left when the number of digits is odd. */
    method PrintLast(n: nat, t: int, ghost before: string, ghost done: string, ghost r: nat, ghost u: nat)
      requires |done| == (if n % 2 == 0 then n else n + 1)
      requires LoopState(U32(t), done, r, u, n + 1)
      requires pos + n + 1 <= buffer.Length == |before| && buffer[..] == Overwrite(before, pos, done)
      modifies buffer
      ensures buffer[..] == Overwrite(before, pos, Fixed(u, n + 1))
    {
      if n % 2 == 0 {
        LastDigit(U32(t), done, r, u, n + 1);
        WriteDigit(n, U64(10 * U32(t)) / 0x1_0000_0000);
        OverwriteTwice(before, pos, done, [DigitChar(r)]);
      } else {
        assert done == done + Fixed(r, n + 1 - |done|);
      }
    }
  }

  /** Prints any 32-bit number as its decimal text, the text format_decimal also produces. */
  method Lg(n: nat, h: DecimalFormatter) returns (end: nat)
    requires n < TWO32
    requires h.pos + |Format(n)| <= h.buffer.Length
    modifies h`pos, h.buffer
    ensures end == h.pos == old(h.pos) + |Format(n)|
    ensures h.buffer[..] == Overwrite(old(h.buffer[..]), old(h.pos), Format(n))
  {
    DecadeIsFloorLog10(n);
    end := h.On(Decade(n), n);
  }
}
