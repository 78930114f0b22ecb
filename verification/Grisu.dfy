/**
 The digit generation and the rounding of Grisu2 in the bundled fmt library. A number
 upper = hi * 2^s + lo is printed digit by digit until the rest is within delta.
 */
module Grisu {
  import opened Arith
  import opened Decimals
  import opened DigitTables

  const POWERS_OF_10_32: seq<int> :=
    [1, 10, 100, 1000, 10000, 100000, 1000000, 10000000, 100000000, 1000000000]

  lemma PowerTable(k: nat)
    requires k <= 9
    ensures |POWERS_OF_10_32| == 10 && POWERS_OF_10_32[k] == Pow10(k)
  {
    assert Pow10(4) == 10000;
    assert Pow10(8) == 100000000;
  }

  /** What the digits v stand for when e more decades and s more bits follow. */
  function Weight(v: int, s: nat, e: nat): int {
    Times10(Shl(v, s), e)
  }

  lemma WeightSum(a: int, b: int, s: nat, e: nat)
    ensures Weight(a + b, s, e) == Weight(a, s, e) + Weight(b, s, e)
  {
    ShlSum(a, b, s);
    Times10Sum(Shl(a, s), Shl(b, s), e);
  }

  lemma WeightMonotone(a: int, b: int, s: nat, e: nat)
    requires a <= b
    ensures Weight(a, s, e) <= Weight(b, s, e)
  {
    ShlMonotone(a, b, s);
    Times10Monotone(Shl(a, s), Shl(b, s), e);
  }

  function Distance(a: int, b: int): nat {
    if a <= b then b - a else a - b
  }

  /** No digits of the same length in the interval lie closer to total - diff than v does. */
  ghost predicate Closest(v: int, total: int, delta: int, diff: int, s: nat, e: nat) {
    forall v2 :: total - delta <= Weight(v2, s, e) <= total ==>
      Distance(total - diff, Weight(v, s, e)) <= Distance(total - diff, Weight(v2, s, e))
  }

  /** The first size characters are digits, without a leading zero, and denote v. */
  ghost predicate Denotes(text: string, v: int) {
    AllDigits(text) && |text| >= 1 && text[0] != '0' && Parse(text) == v
  }

  lemma ParseAppend(s: string, d: nat)
    requires AllDigits(s) && d < 10
    ensures AllDigits(s + [DigitChar(d)])
    ensures Parse(s + [DigitChar(d)]) == 10 * Parse(s) + d
  {
    var t := s + [DigitChar(d)];
    assert t[..|t| - 1] == s;
  }

  /** The last digit weighs enough to make up for the whole of delta. */
  ghost predicate CoversDelta(text: string, delta: int, remainder: int, s: nat, e: nat)
    requires |text| >= 1 && IsDigit(text[|text| - 1])
  {
    var weight := Weight(DigitValue(text[|text| - 1]), s, e);
    weight + remainder >= delta && (|text| == 1 ==> weight + remainder > delta)
  }

  /** The unsigned condition under which the last digit is lowered once more. */
  predicate LowerAgain(delta: int, remainder: int, unit: int, diff: int) {
    && remainder < diff
    && U64(delta - remainder) >= unit
    && (U64(remainder + unit) < diff || U64(diff - remainder) > U64(U64(remainder + unit) - diff))
  }

  /**
   `grisu2_round`. The ghost parameters say what the digits mean: they denote v, and with the
   remainder they make up total.
   */
  method Round(buf: array<char>, size0: nat, maxDigits: int, delta: int, remainder0: int, unit: int, diff: int,
               exp0: int, ghost v: int, ghost s: nat, ghost e: nat, ghost total: int)
    returns (ok: bool, size: nat, exp: int, ghost full: string)
    requires 1 <= size0 <= buf.Length && Denotes(buf[..size0], v)
    requires 0 <= diff <= delta < TWO64 && 0 <= remainder0 < unit < TWO64 && unit == Weight(1, s, e)
    requires Weight(v, s, e) + remainder0 == total
    requires remainder0 < diff ==> CoversDelta(buf[..size0], delta, remainder0, s, e)
    modifies buf
    ensures |full| == size0 && AllDigits(full) && full[0] != '0' && full[..size0 - 1] == old(buf[..size0 - 1])
    ensures remainder0 <= delta ==>
      && total - delta <= Weight(Parse(full), s, e) <= total
      && Closest(Parse(full), total, delta, diff, s, e)
    ensures remainder0 > delta ==> full == old(buf[..size0])
    ensures size == (if size0 > maxDigits then size0 - 1 else size0) && buf[..size] == full[..size]
    ensures exp == (if size0 > maxDigits then exp0 + 1 else exp0)
    ensures ok <==> (size0 > maxDigits ==> full[size0 - 1] < '5')
    ensures buf[size0..] == old(buf[size0..])
  {
    size, exp := size0, exp0;
    var remainder := remainder0;
    ghost var w := v;
    while LowerAgain(delta, remainder, unit, diff)
      invariant Denotes(buf[..size0], w)
      invariant 0 <= remainder && (remainder0 <= delta ==> remainder <= delta)
      invariant remainder0 > delta ==> remainder == remainder0 && buf[..size0] == old(buf[..size0])
      invariant Weight(w, s, e) + remainder == total
      invariant remainder < diff ==> CoversDelta(buf[..size0], delta, remainder, s, e)
      invariant remainder >= unit ==> remainder - unit < diff && Distance(diff, remainder) <= diff - (remainder - unit)
      invariant buf[..size0 - 1] == old(buf[..size0 - 1]) && buf[size0..] == old(buf[size0..])
      decreases if remainder < diff then diff - remainder else 0
    {
      LowerLastDigit(buf[..size0], w, delta, remainder, s, e);
      WeightSum(w - 1, 1, s, e);
      WeightSum(DigitValue(buf[size - 1]) - 1, 1, s, e);
      buf[size - 1] := buf[size - 1] - 1 as char;
      remainder := U64(remainder + unit);
      w := w - 1;
    }
    full := buf[..size0];
    if remainder0 <= delta {
      ExitIsClosest(w, remainder, total, delta, diff, unit, s, e);
    }
    ok := true;
    if size > maxDigits {
      size, exp := size - 1, exp + 1;
      if buf[size] >= '5' {
        ok := false;
      }
    }
  }

  lemma LowerLastDigit(text: string, v: int, delta: int, remainder: int, s: nat, e: nat)
    requires Denotes(text, v)
    requires CoversDelta(text, delta, remainder, s, e) && delta >= remainder + Weight(1, s, e) > remainder
    ensures DigitValue(text[|text| - 1]) >= if |text| == 1 then 2 else 1
    ensures var n := |text| - 1; Denotes(text[n := text[n] - 1 as char], v - 1)
  {
    var n := |text| - 1;
    var d := DigitValue(text[n]);
    if d == 0 {
      WeightSum(0, 0, s, e);
    }
    var t := text[n := text[n] - 1 as char];
    assert t[..n] == text[..n];
    assert Parse(t) == 10 * Parse(t[..n]) + (d - 1);
  }

  lemma ExitIsClosest(w: int, remainder: int, total: int, delta: int, diff: int, unit: int, s: nat, e: nat)
    requires 0 <= diff <= delta < TWO64 && 0 <= remainder <= delta && 0 < unit < TWO64 && unit == Weight(1, s, e)
    requires Weight(w, s, e) + remainder == total
    requires remainder >= unit ==> remainder - unit < diff && Distance(diff, remainder) <= diff - (remainder - unit)
    requires !LowerAgain(delta, remainder, unit, diff)
    ensures Closest(w, total, delta, diff, s, e)
  {
    forall v2 | total - delta <= Weight(v2, s, e) <= total
      ensures Distance(total - diff, Weight(w, s, e)) <= Distance(total - diff, Weight(v2, s, e))
    {
      if v2 < w {
        WeightMonotone(v2, w - 1, s, e);
        WeightSum(w - 1, 1, s, e);
      } else if v2 > w {
        WeightMonotone(w + 1, v2, s, e);
        WeightSum(w, 1, s, e);
      }
    }
  }

  /** What the generator returns; the power table has ten entries, and a lookup may miss it. */
  datatype Outcome = TableOverrun | Generated(ok: bool, size: nat, exp: int)

  /**
   The generator looks past the power table: neither the parts above the point nor any of the
   nine first digits below it brings the rest within delta, and all of them are wanted.
   */
  ghost predicate OverrunsTable(lo: int, delta: int, s: nat, hiDigits: nat, maxDigits: int) {
    && lo > delta && hiDigits + 9 <= maxDigits
    && forall j :: 1 <= j <= 9 ==> Times10(delta, j) <= Times10(lo, j) % Pow2(s)
  }

  /** v at decimal exponent e lies in the interval, and nothing of its length lies closer to its centre. */
  ghost predicate Prints(v: int, e: int, upper: int, delta: int, diff: int, s: nat) {
    if e >= 0 then
      upper - delta <= Weight(v, s, e) <= upper && Closest(v, upper, delta, diff, s, e)
    else
      && Times10(upper - delta, -e) <= Weight(v, s, 0) <= Times10(upper, -e)
      && Closest(v, Times10(upper, -e), Times10(delta, -e), Times10(diff, -e), s, 0)
  }

  /** v at decimal exponent e is upper with its further digits cut off. */
  ghost predicate Truncates(v: int, e: int, upper: int, s: nat) {
    if e >= 0 then Weight(v, s, e) <= upper < Weight(v + 1, s, e)
    else Weight(v, s, 0) <= Times10(upper, -e) < Weight(v + 1, s, 0)
  }

  /** One digit of the part above the point moves from the rest to the printed digits. */
  lemma HighDigit(v: int, hi: nat, e: nat, s: nat, lo: int, upper: int) returns (d: nat, rest: nat)
    requires hi < Pow10(e + 1) && Weight(v, s, e + 1) + Shl(hi, s) + lo == upper
    ensures d < 10 && rest < Pow10(e) && hi == Times10(d, e) + rest
    ensures d == hi / Pow10(e) && rest == hi % Pow10(e)
    ensures Pow10(e) <= hi ==> d >= 1
    ensures Weight(10 * v + d, s, e) + Shl(rest, s) + lo == upper
    ensures Weight(d, s, e) + Shl(rest, s) == Shl(hi, s)
  {
    d, rest := HighAndLow(hi, e);
    Times10IsProduct(d, e);
    DivModUnique(hi, Pow10(e), d, rest);
    if d >= 10 {
      Times10Monotone(10, d, e);
      Times10Scale(10, 1, e);
      Times10OfOne(e);
    }
    if d == 0 {
      Times10Sum(0, 0, e);
    }
    ShlSum(Times10(d, e), rest, s);
    ShlTimes10(d, s, e);
    WeightSum(10 * v, d, s, e);
    ShlTen(v, s);
    Times10Scale(10, Shl(v, s), e);
  }

  lemma {:induction false} ShlTimes10(x: int, s: nat, e: nat)
    ensures Shl(Times10(x, e), s) == Weight(x, s, e)
  {
    if e > 0 {
      ShlTimes10(x, s, e - 1);
      ShlTen(Times10(x, e - 1), s);
    }
  }

  /** The unit of the digits above the point, as the code shifts it, and the bounds it respects. */
  lemma HighUnit(hi0: nat, rest: nat, lo: nat, e: nat, e0: nat, s: nat)
    requires e < e0 && Pow10(e0 - 1) <= hi0 && rest < Pow10(e) && lo < Pow2(s)
    ensures Shl(Pow10(e), s) == Weight(1, s, e) > Shl(rest, s) + lo
    ensures Shl(Pow10(e), s) <= Shl(hi0, s) && Shl(rest, s) >= 0
  {
    Times10OfOne(e);
    ShlTimes10(1, s, e);
    Pow10Monotone(e, e0 - 1);
    ShlMonotone(Pow10(e), hi0, s);
    ShlSum(rest, 1, s);
    ShlMonotone(rest + 1, Pow10(e), s);
    ShlOfOne(s);
    ShlMonotone(0, rest, s);
  }

  /** One digit of the part below the point, and the sizes of everything the loop multiplies. */
  lemma LowDigit(v: int, lo: nat, delta: nat, s: nat, total: int) returns (d: nat, rest: nat)
    requires s <= 60 && delta <= lo < Pow2(s) && Weight(v, s, 0) + lo == total
    ensures d < 10 && rest < Pow2(s) <= TWO64 / 16
    ensures d == 10 * lo / Pow2(s) && rest == 10 * lo % Pow2(s)
    ensures 10 * delta <= 10 * lo == Weight(d, s, 0) + rest
    ensures Weight(10 * v + d, s, 0) + rest == 10 * total
  {
    d, rest := QuotientOf(10 * lo, Pow2(s));
    ShlIsProduct(d, s);
    DivModUnique(10 * lo, Pow2(s), d, rest);
    if d >= 10 {
      ShlMonotone(10, d, s);
      ShlTen(1, s);
      ShlOfOne(s);
    }
    Pow2Monotone(s, 60);
    PowersOfTwo();
    Pow2Sum(4, 60);
    WeightSum(10 * v, d, s, 0);
    ShlTen(v, s);
  }

  lemma QuotientOf(x: nat, m: nat) returns (q: nat, r: nat)
    requires m >= 1
    ensures r < m && x == q * m + r
  {
    q, r := 0, x;
    while r >= m
      invariant x == q * m + r
    {
      assert (q + 1) * m == q * m + m;
      q, r := q + 1, r - m;
    }
  }

  /** The fraction after one more digit, in closed form. */
  lemma FractionStep(lo: nat, j: nat, s: nat)
    ensures 10 * (Times10(lo, j) % Pow2(s)) % Pow2(s) == Times10(lo, j + 1) % Pow2(s)
  {
    Times10Nonnegative(lo, j);
    TenfoldRemainder(Times10(lo, j), Pow2(s));
  }

  lemma TenfoldRemainder(x: nat, m: nat)
    requires m >= 1
    ensures 10 * (x % m) % m == 10 * x % m
  {
    var q, r := QuotientOf(x, m);
    DivModUnique(x, m, q, r);
    var q2, r2 := QuotientOf(10 * r, m);
    DivModUnique(10 * r, m, q2, r2);
    SumOfProducts(q, q2, m);
    DivModUnique(10 * x, m, 10 * q + q2, r2);
  }

  lemma SumOfProducts(q: nat, q2: nat, m: nat)
    ensures (10 * q + q2) * m == 10 * (q * m) + q2 * m
  {
  }

  /** What the caller of the generator guarantees: 64-bit operands and a true digit count. */
  ghost predicate Operands(hi: nat, lo: nat, s: nat, hiDigits: nat, delta: int, diff: int) {
    && 1 <= s <= 60 && lo < Pow2(s) && Shl(hi, s) + lo < TWO64
    && 1 <= hiDigits <= 10 && Pow10(hiDigits - 1) <= hi < Pow10(hiDigits)
    && 0 <= diff <= delta < Shl(hi, s) + lo
  }

  /** What the generator promises about the digits full, at exponent e before any cut. */
  ghost predicate Correct(r: Outcome, now: string, full: string, e: int, upper: int, s: nat,
                          delta: int, diff: int, maxDigits: int)
  {
    && r.Generated? && |full| >= 1 && AllDigits(full) && full[0] != '0'
    && (Prints(Parse(full), e, upper, delta, diff, s) || Truncates(Parse(full), e, upper, s))
    && if |full| <= maxDigits
       then r.ok && r.exp == e && r.size == |full| <= |now| && now[..r.size] == full
            && Prints(Parse(full), e, upper, delta, diff, s)
       else r.exp == e + 1 && r.size == |full| - 1 <= |now| && now[..r.size] == full[..r.size]
            && (r.ok <==> full[r.size] < '5')
  }

  /** The common end of both loops: rounding, with every operand scaled alike. */
  method Finish(buf: array<char>, size0: nat, maxDigits: int, delta: int, remainder: int, unit: int, diff: int, exp: int,
                ghost v: int, ghost s: nat, ghost upper: int, ghost delta0: int, ghost diff0: int)
    returns (r: Outcome, ghost full: string)
    requires 1 <= size0 <= buf.Length && Denotes(buf[..size0], v)
    requires 0 <= diff <= delta < TWO64 && 0 <= remainder < unit < TWO64
    requires unit == Weight(1, s, Above(exp))
    requires Weight(v, s, Above(exp)) + remainder == Times10(upper, Above(-exp))
    requires delta == Times10(delta0, Above(-exp)) && diff == Times10(diff0, Above(-exp))
    requires remainder < diff ==> CoversDelta(buf[..size0], delta, remainder, s, Above(exp))
    requires remainder <= delta || size0 > maxDigits
    modifies buf
    ensures Correct(r, buf[..], full, exp, upper, s, delta0, diff0, maxDigits)
  {
    ghost var e, total := Above(exp), Times10(upper, Above(-exp));
    var ok, size', exp';
    ok, size', exp', full := Round(buf, size0, maxDigits, delta, remainder, unit, diff, exp, v, s, e, total);
    r := Generated(ok, size', exp');
    if remainder <= delta {
      Times10Sum(upper - delta0, delta0, Above(-exp));
      assert Prints(Parse(full), exp, upper, delta0, diff0, s);
    } else {
      WeightSum(v, 1, s, e);
      assert Truncates(Parse(full), exp, upper, s);
    }
  }

  function Above(e: int): nat {
    if e > 0 then e else 0
  }

  /** The loop invariant of both phases: v has been printed, and the rest still exceeds delta. */
  ghost predicate Printed(text: string, v: int, hi: nat, e: int, hiDigits: nat, maxDigits: int) {
    && hiDigits >= 1 && |text| == hiDigits - e
    && if |text| == 0 then v == 0 && hi >= Pow10(hiDigits - 1) else Denotes(text, v) && |text| <= maxDigits
  }

  lemma PrintDigit(text: string, v: int, hi: nat, e: int, hiDigits: nat, maxDigits: int, d: nat)
    requires Printed(text, v, hi, e, hiDigits, maxDigits) && d < 10 && (|text| == 0 ==> d >= 1)
    ensures Denotes(text + [DigitChar(d)], 10 * v + d)
  {
    if |text| == 0 {
      assert text + [DigitChar(d)] == [DigitChar(d)];
      assert [DigitChar(d)][..0] == "";
    } else {
      ParseAppend(text, d);
    }
  }

  /** The first loop. It returns an outcome, or the digits of hi when none of them was the last. */
  method HighDigits(buf: array<char>, hi0: nat, lo: nat, hiDigits: nat, delta: int, s: nat, diff: int, maxDigits: int)
    returns (done: bool, r: Outcome, ghost v: int, ghost full: string, ghost e: int)
    requires Operands(hi0, lo, s, hiDigits, delta, diff)
    requires buf.Length >= 1 && buf.Length > maxDigits
    modifies buf
    ensures done ==> lo <= delta || hiDigits > maxDigits
    ensures done ==> Correct(r, buf[..], full, e, Shl(hi0, s) + lo, s, delta, diff, maxDigits)
    ensures !done ==> lo > delta && hiDigits <= maxDigits && Denotes(buf[..hiDigits], v)
    ensures !done ==> Weight(v, s, 0) + lo == Shl(hi0, s) + lo
  {
    var hi: nat, exp: nat, size: nat := hi0, hiDigits, 0;
    v, full, e := 0, "", 0;
    ghost var upper := Shl(hi0, s) + lo;
    FirstWeight(s, exp);
    while exp > 0
      invariant exp <= hiDigits && hi < Pow10(exp) && size == hiDigits - exp
      invariant size <= buf.Length && Printed(buf[..size], v, hi, exp, hiDigits, maxDigits)
      invariant Weight(v, s, exp) + Shl(hi, s) + lo == upper
      invariant Shl(hi, s) + lo > delta
    {
      size, hi, v := HighRound(buf, size, hi, exp, v, hi0, hiDigits, s, lo, delta, maxDigits);
      exp := exp - 1;
      var remainder := U64(U64(Shl(hi, s)) + lo);
      if remainder <= delta || size > maxDigits {
        r, full := FinishHigh(buf, size, maxDigits, delta, remainder, s, diff, exp, v, upper);
        return true, r, v, full, exp;
      }
    }
    ShlOfOne(s);
    done, r := false, TableOverrun;
  }

  /** The digit of one round, and what is left. */
  method HighRound(buf: array<char>, size0: nat, hi0: nat, exp: nat, ghost v0: int, ghost upperHi: nat, ghost hiDigits: nat,
                   ghost s: nat, ghost lo: nat, ghost delta: int, ghost maxDigits: int)
    returns (size: nat, hi: nat, ghost v: int)
    requires 1 <= exp <= hiDigits && hi0 < Pow10(exp) && size0 < buf.Length
    requires Printed(buf[..size0], v0, hi0, exp, hiDigits, maxDigits)
    requires Pow10(hiDigits - 1) <= upperHi && lo < Pow2(s) && Shl(upperHi, s) + lo < TWO64
    requires Weight(v0, s, exp) + Shl(hi0, s) + lo == Shl(upperHi, s) + lo && Shl(hi0, s) + lo > delta
    modifies buf
    ensures size == size0 + 1 && hi < Pow10(exp - 1) && Denotes(buf[..size], v)
    ensures var remainder := Shl(hi, s) + lo;
      && lo <= remainder < Shl(Pow10(exp - 1), s) == Weight(1, s, exp - 1) < TWO64
      && Weight(v, s, exp - 1) + remainder == Shl(upperHi, s) + lo
      && CoversDelta(buf[..size], delta, remainder, s, exp - 1)
  {
    ghost var d := HighStep(buf[..size0], v0, upperHi, hi0, exp, hiDigits, s, lo, delta, maxDigits);
    size := AppendDigit(buf, size0, hi0 / Pow10(exp - 1));
    hi := hi0 % Pow10(exp - 1);
    v := 10 * v0 + d;
  }

  /** The end of the first loop, with its lookup of the unit of the last digit. */
  method FinishHigh(buf: array<char>, size: nat, maxDigits: int, delta: int, remainder: int, s: nat, diff: int, exp: nat,
                    ghost v: int, ghost upper: int)
    returns (r: Outcome, ghost full: string)
    requires exp < 10 && 1 <= size <= buf.Length && Denotes(buf[..size], v)
    requires 0 <= diff <= delta < TWO64 && 0 <= remainder < Shl(Pow10(exp), s) == Weight(1, s, exp) < TWO64
    requires Weight(v, s, exp) + remainder == upper
    requires CoversDelta(buf[..size], delta, remainder, s, exp)
    requires remainder <= delta || size > maxDigits
    modifies buf
    ensures Correct(r, buf[..], full, exp, upper, s, delta, diff, maxDigits)
  {
    PowerTable(exp);
    r, full := Finish(buf, size, maxDigits, delta, remainder, U64(Shl(POWERS_OF_10_32[exp], s)), diff, exp,
                      v, s, upper, delta, diff);
  }

  /** Everything that one round of the first loop establishes. */
  lemma HighStep(text: string, v: int, hi0: nat, hi: nat, exp: nat, hiDigits: nat, s: nat, lo: nat, delta: int,
                 maxDigits: int) returns (d: nat)
    requires 1 <= exp <= hiDigits && hi < Pow10(exp) && Printed(text, v, hi, exp, hiDigits, maxDigits)
    requires Pow10(hiDigits - 1) <= hi0 && lo < Pow2(s) && Shl(hi0, s) + lo < TWO64
    requires Weight(v, s, exp) + Shl(hi, s) + lo == Shl(hi0, s) + lo && Shl(hi, s) + lo > delta
    ensures d == hi / Pow10(exp - 1) < 10 && (|text| == 0 ==> d >= 1)
    ensures 0 <= hi % Pow10(exp - 1) < Pow10(exp - 1)
    ensures Denotes(text + [DigitChar(d)], 10 * v + d)
    ensures var remainder := Shl(hi % Pow10(exp - 1), s) + lo;
      && lo <= remainder < Shl(Pow10(exp - 1), s) == Weight(1, s, exp - 1) < TWO64
      && Weight(10 * v + d, s, exp - 1) + remainder == Shl(hi0, s) + lo
      && CoversDelta(text + [DigitChar(d)], delta, remainder, s, exp - 1)
  {
    var rest;
    d, rest := HighDigit(v, hi, exp - 1, s, lo, Shl(hi0, s) + lo);
    PrintDigit(text, v, hi, exp, hiDigits, maxDigits, d);
    HighUnit(hi0, rest, lo, exp - 1, hiDigits, s);
  }

  /** Leading zeros are not printed. */
  method AppendDigit(buf: array<char>, size: nat, digit: nat) returns (size': nat)
    requires digit < 10 && (digit != 0 || size != 0) && size < buf.Length
    modifies buf
    ensures size' == size + 1 && buf[..size'] == old(buf[..size]) + [DigitChar(digit)]
  {
    size' := size;
    if digit != 0 || size != 0 {
      buf[size'] := '0' + digit as char;
      size' := size' + 1;
    }
  }

  lemma FirstWeight(s: nat, e: nat)
    ensures Weight(0, s, e) == 0
  {
    WeightSum(0, 0, s, e);
  }

  /** The state at the head of the second loop, when j digits below the point have been printed. */
  ghost predicate LowState(text: string, v: int, lo: int, delta: int, j: nat, lo0: nat, delta0: nat, diff: nat, s: nat,
                           upper: int, hiDigits: nat, maxDigits: int)
  {
    && Denotes(text, v) && |text| == hiDigits + j <= maxDigits
    && Weight(v, s, 0) + lo == Times10(upper, j)
    && 0 <= delta == Times10(delta0, j) <= lo < Pow2(s)
    && lo == Times10(lo0, j) % Pow2(s)
    && 0 <= Times10(diff, j) <= delta
  }

  /** Everything that one round of the second loop establishes. */
  lemma LowStep(text: string, v: int, lo: nat, delta: nat, j: nat, lo0: nat, delta0: nat, diff: nat, s: nat,
                upper: int, hiDigits: nat, maxDigits: int) returns (d: nat)
    requires 1 <= hiDigits && 1 <= s <= 60
    requires LowState(text, v, lo, delta, j, lo0, delta0, diff, s, upper, hiDigits, maxDigits)
    ensures d == 10 * lo / Pow2(s) < 10 && 10 * lo < TWO64 && 10 * delta < TWO64
    ensures Denotes(text + [DigitChar(d)], 10 * v + d)
    ensures 0 <= Times10(diff, j + 1) <= 10 * delta == Times10(delta0, j + 1)
    ensures var rest := 10 * lo % Pow2(s);
      && 0 <= rest < Pow2(s) == Weight(1, s, 0) < TWO64
      && Weight(10 * v + d, s, 0) + rest == Times10(upper, j + 1)
      && rest == Times10(lo0, j + 1) % Pow2(s)
      && CoversDelta(text + [DigitChar(d)], 10 * delta, rest, s, 0)
      && (10 * delta <= rest && |text| < maxDigits ==>
          LowState(text + [DigitChar(d)], 10 * v + d, rest, 10 * delta, j + 1, lo0, delta0, diff, s, upper, hiDigits, maxDigits))
  {
    var rest;
    d, rest := LowDigit(v, lo, delta, s, Times10(upper, j));
    ParseAppend(text, d);
    ShlOfOne(s);
    Times10Nonnegative(lo0, j);
    FractionStep(lo0, j, s);
  }

  lemma LowStart(text: string, v: int, lo0: nat, delta0: nat, diff: nat, s: nat, upper: int, hiDigits: nat, maxDigits: int)
    requires Denotes(text, v) && |text| == hiDigits <= maxDigits && Weight(v, s, 0) + lo0 == upper
    requires diff <= delta0 < lo0 < Pow2(s)
    ensures LowState(text, v, lo0, delta0, 0, lo0, delta0, diff, s, upper, hiDigits, maxDigits)
  {
    DivModUnique(lo0, Pow2(s), 0, lo0);
  }

  lemma Times10Nonnegative(x: nat, j: nat)
    ensures Times10(x, j) >= 0
  {
    Times10Monotone(0, x, j);
    Times10Sum(0, 0, j);
  }

  /** The second loop, for a number whose part above the point did not bring it within delta. */
  method LowDigits(buf: array<char>, lo0: nat, hiDigits: nat, delta0: int, s: nat, diff: int, maxDigits: int,
                   ghost v0: int, ghost upper: int)
    returns (r: Outcome, ghost full: string, ghost e: int)
    requires 1 <= hiDigits <= maxDigits < buf.Length && 1 <= s <= 60 && lo0 < Pow2(s)
    requires 0 <= diff <= delta0 < lo0 && Denotes(buf[..hiDigits], v0) && Weight(v0, s, 0) + lo0 == upper
    modifies buf
    ensures r.TableOverrun? <==> OverrunsTable(lo0, delta0, s, hiDigits, maxDigits)
    ensures r.Generated? ==> Correct(r, buf[..], full, e, upper, s, delta0, diff, maxDigits)
  {
    var lo: nat, delta: nat, exp, size: nat := lo0, delta0, 0, hiDigits;
    ghost var v, j := v0, 0;
    LowStart(buf[..size], v, lo, delta, diff, s, upper, hiDigits, maxDigits);
    while true
      invariant exp + j == 0 && size == hiDigits + j <= maxDigits
      invariant LowState(buf[..size], v, lo, delta, j, lo0, delta0, diff, s, upper, hiDigits, maxDigits)
      invariant forall i :: 1 <= i <= j ==> Times10(delta0, i) <= Times10(lo0, i) % Pow2(s)
      decreases maxDigits - size
    {
      ghost var d := LowStep(buf[..size], v, lo, delta, j, lo0, delta0, diff, s, upper, hiDigits, maxDigits);
      lo := U64(lo * 10);
      delta := U64(delta * 10);
      size := AppendDigit(buf, size, lo / Pow2(s));
      lo := lo % Pow2(s);
      exp, v, j := exp - 1, 10 * v + d, j + 1;
      if lo < delta || size > maxDigits {
        r, full := FinishLow(buf, size, maxDigits, delta, lo, s, exp, v, upper, delta0, diff, j);
        return r, full, exp;
      }
    }
  }

  /** The end of the second loop, with its lookup of the power that scales diff. */
  method FinishLow(buf: array<char>, size: nat, maxDigits: int, delta: int, lo: int, s: nat, exp: int,
                   ghost v: int, ghost upper: int, ghost delta0: int, diff: int, ghost j: nat)
    returns (r: Outcome, ghost full: string)
    requires exp + j == 0 && j >= 1 && 1 <= size <= buf.Length && Denotes(buf[..size], v)
    requires delta == Times10(delta0, j) < TWO64 && 0 <= Times10(diff, j) <= delta
    requires 0 <= lo < Pow2(s) == Weight(1, s, 0) < TWO64
    requires Weight(v, s, 0) + lo == Times10(upper, j)
    requires CoversDelta(buf[..size], delta, lo, s, 0)
    requires lo < delta || size > maxDigits
    modifies buf
    ensures r.TableOverrun? <==> j > 9
    ensures r.Generated? ==> Correct(r, buf[..], full, exp, upper, s, delta0, diff, maxDigits)
  {
    if -exp > 9 {
      return TableOverrun, "";
    }
    PowerTable(j);
    Times10IsProduct(diff, j);
    r, full := Finish(buf, size, maxDigits, delta, lo, Pow2(s), U64(diff * POWERS_OF_10_32[-exp]), exp,
                      v, s, upper, delta0, diff);
  }

  /**
   `grisu2_gen_digits`, started with no digits. It fails to find its power of ten exactly under
   OverrunsTable; otherwise the digits are those of a number in [upper - delta, upper], the
   closest of their length to upper - diff, or the leading maxDigits of them are returned.
   */
  method GenDigits(buf: array<char>, hi: nat, lo: nat, hiDigits: nat, delta: int, s: nat, diff: int, maxDigits: int)
    returns (r: Outcome, ghost full: string, ghost e: int)
    requires Operands(hi, lo, s, hiDigits, delta, diff)
    requires buf.Length >= 1 && buf.Length > maxDigits
    modifies buf
    ensures r.TableOverrun? <==> OverrunsTable(lo, delta, s, hiDigits, maxDigits)
    ensures r.Generated? ==> Correct(r, buf[..], full, e, Shl(hi, s) + lo, s, delta, diff, maxDigits)
  {
    var done;
    ghost var v;
    done, r, v, full, e := HighDigits(buf, hi, lo, hiDigits, delta, s, diff, maxDigits);
    if !done {
      r, full, e := LowDigits(buf, lo, hiDigits, delta, s, diff, maxDigits, v, Shl(hi, s) + lo);
    }
  }

  /**
   The lookup does miss the table, for a third printed with 17 digits: these are the operands that
   scaling its boundaries by the cached power 10^4 gives.
   */
  lemma TableOverrunExample()
    ensures Operands(3333, 0x2_aaaa_aaaa_ab7a, 51, 4, 1248, 624)
    ensures OverrunsTable(0x2_aaaa_aaaa_ab7a, 1248, 51, 4, 17)
  {
    PowersOfTwo();
    ShlIsProduct(3333, 51);
    assert Pow10(3) == 1000 && Pow10(4) == 10000;
    forall j | 1 <= j <= 9
      ensures Times10(1248, j) <= Times10(0x2_aaaa_aaaa_ab7a, j) % Pow2(51)
    {
      Times10IsProduct(1248, j);
      Times10IsProduct(0x2_aaaa_aaaa_ab7a, j);
      PowerTable(j);
      ExampleFraction(j, Pow10(j));
    }
  }

  lemma ExampleFraction(j: nat, p: int)
    requires 1 <= j <= 9 && |POWERS_OF_10_32| == 10 && p == POWERS_OF_10_32[j]
    ensures 1248 * p <= 0x2_aaaa_aaaa_ab7a * p % 0x8_0000_0000_0000
  {
    match j
    case 1 =>
    case 2 =>
    case 3 =>
    case 4 =>
    case 5 =>
    case 6 =>
    case 7 =>
    case 8 =>
    case 9 =>
  }

  /** How the caller comes by them: upper and lower boundary and the value itself, times 10^4. */
  lemma ExampleIsScaled()
    ensures var power := Fp(0x9c40_0000_0000_0000, -50);
      var upper := FpMultiply(Fp(0xaaaa_aaaa_aaaa_ac00, -65), power).f - 1;
      && upper == 3333 * 0x8_0000_0000_0000 + 0x2_aaaa_aaaa_ab7a
      && upper - (FpMultiply(Fp(0xaaaa_aaaa_aaaa_a400, -65), power).f + 1) == 1248
      && upper - FpMultiply(Fp(0xaaaa_aaaa_aaaa_a800, -65), power).f == 624
  {
    FpMultiplyRounds(Fp(0xaaaa_aaaa_aaaa_ac00, -65), Fp(0x9c40_0000_0000_0000, -50));
    FpMultiplyRounds(Fp(0xaaaa_aaaa_aaaa_a400, -65), Fp(0x9c40_0000_0000_0000, -50));
    FpMultiplyRounds(Fp(0xaaaa_aaaa_aaaa_a800, -65), Fp(0x9c40_0000_0000_0000, -50));
  }

  /** A handmade floating-point number f * 2^e. */
  datatype Fp = Fp(f: nat, e: int)

  /** The product of two significands, from four products of their halves. */
  function FpMultiply(x: Fp, y: Fp): Fp {
    var a, b := x.f / TWO32, U32(x.f);
    var c, d := y.f / TWO32, U32(y.f);
    var ac, bc, ad, bd := U64(a * c), U64(b * c), U64(a * d), U64(b * d);
    var mid := U64(bd / TWO32 + U32(ad) + U32(bc) + 0x8000_0000);
    Fp(U64(ac + ad / TWO32 + bc / TWO32 + mid / TWO32), x.e + y.e + 64)
  }

  /** The product is x.f * y.f / 2^64 rounded to nearest, halves up, and no step wraps around. */
  lemma FpMultiplyRounds(x: Fp, y: Fp)
    requires x.f < TWO64 && y.f < TWO64
    ensures FpMultiply(x, y).f == (x.f * y.f + 0x8000_0000_0000_0000) / TWO64 && FpMultiply(x, y).e == x.e + y.e + 64
  {
    var a, b := x.f / TWO32, x.f % TWO32;
    var c, d := y.f / TWO32, y.f % TWO32;
    HalfProduct(a, c);
    HalfProduct(b, c);
    HalfProduct(a, d);
    HalfProduct(b, d);
    assert x.f * y.f == TWO32 * TWO32 * (a * c) + TWO32 * (a * d + b * c) + b * d by {
      Expand(a, b, c, d);
    }
    SumOfParts(a * c, a * d, b * c, b * d);
  }

  lemma HalfProduct(a: nat, b: nat)
    requires a < TWO32 && b < TWO32
    ensures 0 <= a * b <= (TWO32 - 1) * (TWO32 - 1)
  {
    MulMonotone(a, TWO32 - 1, b);
    MulMonotone(0, a, b);
  }

  lemma Expand(a: int, b: int, c: int, d: int)
    ensures (TWO32 * a + b) * (TWO32 * c + d) == TWO32 * TWO32 * (a * c) + TWO32 * (a * d + b * c) + b * d
  {
    var p := TWO32 * c + d;
    assert (TWO32 * a + b) * p == TWO32 * (a * p) + b * p;
    assert a * p == TWO32 * (a * c) + a * d;
    assert b * p == TWO32 * (b * c) + b * d;
  }

  lemma SumOfParts(ac: nat, ad: nat, bc: nat, bd: nat)
    requires ac <= (TWO32 - 1) * (TWO32 - 1) && ad <= (TWO32 - 1) * (TWO32 - 1)
    requires bc <= (TWO32 - 1) * (TWO32 - 1) && bd <= (TWO32 - 1) * (TWO32 - 1)
    ensures var mid := bd / TWO32 + ad % TWO32 + bc % TWO32 + 0x8000_0000;
      && mid < TWO64
      && ac + ad / TWO32 + bc / TWO32 + mid / TWO32 < TWO64
      && ac + ad / TWO32 + bc / TWO32 + mid / TWO32
         == (TWO32 * TWO32 * ac + TWO32 * (ad + bc) + bd + 0x8000_0000_0000_0000) / TWO64
  {
  }
}
