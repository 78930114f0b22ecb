/**
 `format_decimal` of the bundled fmt library, which writes a number backwards, two digits at a
 time, and asks a functor after each digit whether a thousands separator goes in front of it.
 */
module DecimalWriter {
  import opened Arith
  import opened Decimals
  import opened DigitTables
  import opened Texts
  import Sequences

  /** The reference: a separator before every full group of three digits from the right. */
  function Grouped(s: string, sep: string): string {
    if |s| <= 3 then s else Grouped(s[..|s| - 3], sep) + sep + s[|s| - 3..]
  }

  /** What the functor writes after the digit that it numbers k. */
  function SepAfter(k: nat, sep: string): string {
    if k % 3 == 0 then sep else ""
  }

  /** The text that appears when k digits to the right of s have been written already. */
  function Separated(s: string, k: nat, sep: string): string {
    if |s| <= 1 then s
    else Separated(s[..|s| - 1], k + 1, sep) + SepAfter(k + 1, sep) + [s[|s| - 1]]
  }

  lemma {:induction false} SeparatedIsGrouped(s: string, k: nat, sep: string)
    requires k % 3 == 0
    ensures Separated(s, k, sep) == Grouped(s, sep)
  {
    if |s| > 3 {
      var n := |s|;
      SeparatedIsGrouped(s[..n - 3], k + 3, sep);
      assert s[..n - 1][..n - 2] == s[..n - 2];
      assert s[..n - 2][..n - 3] == s[..n - 3];
      assert Separated(s[..n - 2], k + 2, sep) == Separated(s[..n - 3], k + 3, sep) + sep + [s[n - 3]];
      assert Separated(s[..n - 1], k + 1, sep) == Separated(s[..n - 2], k + 2, sep) + "" + [s[n - 2]];
      assert s[n - 3..] == [s[n - 3]] + [s[n - 2]] + [s[n - 1]];
    } else {
      FewDigits(s, k, sep);
    }
  }

  lemma FewDigits(s: string, k: nat, sep: string)
    requires k % 3 == 0 && |s| <= 3
    ensures Separated(s, k, sep) == s
  {
    if |s| >= 2 {
      assert s == s[..|s| - 1] + [s[|s| - 1]];
      assert Separated(s, k, sep) == Separated(s[..|s| - 1], k + 1, sep) + "" + [s[|s| - 1]];
    }
    if |s| == 3 {
      assert s[..2] == s[..2][..1] + [s[..2][1]];
      assert Separated(s[..2], k + 1, sep) == Separated(s[..2][..1], k + 2, sep) + "" + [s[..2][1]];
    }
  }

  lemma {:induction false} GroupedLength(s: string, sep: string)
    requires |s| >= 1
    ensures |Grouped(s, sep)| == |s| + |sep| * ((|s| - 1) / 3)
  {
    if |s| > 3 {
      GroupedLength(s[..|s| - 3], sep);
      assert (|s| - 1) / 3 == (|s| - 3 - 1) / 3 + 1;
      assert |sep| * ((|s| - 3 - 1) / 3 + 1) == |sep| * ((|s| - 3 - 1) / 3) + |sep|;
    }
  }

  /** Counted from the right, the i-th digit has one separator to its right for every three digits there. */
  lemma {:induction false} GroupedDigits(s: string, sep: string, i: nat, right: nat, g: string)
    requires i < |s| && right == i + |sep| * (i / 3) && g == Grouped(s, sep)
    ensures right < |g| && g[|g| - 1 - right] == s[|s| - 1 - i]
  {
    if |s| > 3 {
      var n := |s| - 3;
      if i >= 3 {
        assert i / 3 == (i - 3) / 3 + 1;
        assert |sep| * ((i - 3) / 3 + 1) == |sep| * ((i - 3) / 3) + |sep|;
        GroupedDigits(s[..n], sep, i - 3, right - 3 - |sep|, Grouped(s[..n], sep));
      } else {
        assert g[|g| - 3..] == s[n..];
      }
    }
  }

  /** And in front of every full group of three, unless it is the first, there is a separator. */
  lemma {:induction false} GroupedSeparators(s: string, sep: string, j: nat, seps: nat, g: string, k: nat)
    requires 0 < 3 * j < |s| && seps == |sep| * j && g == Grouped(s, sep) && k < |sep|
    ensures var at := |g| - 3 * j - seps + k; 0 <= at < |g| && g[at] == sep[k]
  {
    var n := |s| - 3;
    var front := Grouped(s[..n], sep);
    OneLess(|sep|, j);
    if j > 1 {
      GroupedSeparators(s[..n], sep, j - 1, seps - |sep|, front, k);
    }
    InFront(front, sep, s[n..], g, |g| - 3 * j - seps + k);
  }

  lemma OneLess(n: nat, j: nat)
    requires j > 0
    ensures n * j == n * (j - 1) + n
  {
  }

  lemma InFront(front: string, sep: string, tail: string, g: string, at: int)
    requires g == front + sep + tail && 0 <= at < |front| + |sep|
    ensures g[at] == if at < |front| then front[at] else sep[at - |front|]
  {
  }

  /** Removing the separators gives the digits back. */
  lemma {:induction false} StripGrouped(s: string, sep: char)
    requires sep !in s
    ensures Strip(Grouped(s, [sep]), sep) == s
  {
    if |s| > 3 {
      var head, tail := s[..|s| - 3], s[|s| - 3..];
      var front := Grouped(head, [sep]);
      StripGrouped(head, sep);
      StripSum(front + [sep], tail, sep);
      StripSum(front, [sep], sep);
      StripNothing(tail, sep);
      assert Strip([sep], sep) == "" by {
        assert [sep][..0] == "";
      }
    } else {
      StripNothing(s, sep);
    }
  }

  /** The functor: a separator and the number of digits written so far. */
  class AddThousandsSep {
    const sep: string
    var digitIndex: nat

    constructor (sep: string)
      ensures this.sep == sep && digitIndex == 0
    {
      this.sep, digitIndex := sep, 0;
    }

    method Apply(buffer: array<char>, p: nat) returns (q: nat)
      requires |SepAfter(digitIndex + 1, sep)| <= p <= buffer.Length
      modifies this`digitIndex, buffer
      ensures digitIndex == old(digitIndex) + 1
      ensures q == p - |SepAfter(digitIndex, sep)|
      ensures buffer[..] == Overwrite(old(buffer[..]), q, SepAfter(digitIndex, sep))
    {
      digitIndex := digitIndex + 1;
      q := p;
      if digitIndex % 3 != 0 {
        assert Overwrite(buffer[..], q, "") == buffer[..];
        return;
      }
      q := q - |sep|;
      ghost var before := buffer[..];
      forall i | 0 <= i < |sep| {
        buffer[q + i] := sep[i];
      }
    }
  }

  method PutChar(buffer: array<char>, p: nat, c: char) returns (q: nat)
    requires 1 <= p <= buffer.Length
    modifies buffer
    ensures q == p - 1
    ensures buffer[..] == Overwrite(old(buffer[..]), q, [c])
  {
    q := p - 1;
    buffer[q] := c;
  }

  /** Writes one digit, then lets the functor write its separator in front. */
  method PutDigit(buffer: array<char>, p: nat, c: char, ts: AddThousandsSep) returns (q: nat)
    requires |SepAfter(ts.digitIndex + 1, ts.sep)| + 1 <= p <= buffer.Length
    modifies buffer, ts`digitIndex
    ensures ts.digitIndex == old(ts.digitIndex) + 1
    ensures q == p - |SepAfter(ts.digitIndex, ts.sep) + [c]|
    ensures buffer[..] == Overwrite(old(buffer[..]), q, SepAfter(ts.digitIndex, ts.sep) + [c])
  {
    ghost var before := buffer[..];
    q := PutChar(buffer, p, c);
    OverwriteBefore(before, q, [c], SepAfter(ts.digitIndex + 1, ts.sep));
    q := ts.Apply(buffer, q);
  }

  /** The text of two digits, each followed to its left by what the functor writes. */
  function PairText(n: nat, k: nat, sep: string): string
    requires n < 100
  {
    SepAfter(k + 2, sep) + [DigitChar(n / 10)] + (SepAfter(k + 1, sep) + [DigitChar(n % 10)])
  }

  /** The body of the loop of `format_decimal`, without its division. */
  method PutPair(buffer: array<char>, p: nat, n: nat, ts: AddThousandsSep) returns (q: nat)
    requires n < 100 && |PairText(n, ts.digitIndex, ts.sep)| <= p <= buffer.Length
    modifies buffer, ts`digitIndex
    ensures ts.digitIndex == old(ts.digitIndex) + 2
    ensures q == p - |PairText(n, old(ts.digitIndex), ts.sep)|
    ensures buffer[..] == Overwrite(old(buffer[..]), q, PairText(n, old(ts.digitIndex), ts.sep))
  {
    var hi, lo := ReadPair(n);
    ghost var before, k := buffer[..], ts.digitIndex;
    ghost var high, low := SepAfter(k + 2, ts.sep) + [hi], SepAfter(k + 1, ts.sep) + [lo];
    q := PutDigit(buffer, p, lo, ts);
    OverwriteBefore(before, q, low, high);
    q := PutDigit(buffer, q, hi, ts);
    assert PairText(n, k, ts.sep) == high + low;
  }

  /** In front of what has been written already. */
  method PutPairBefore(buffer: array<char>, p: nat, n: nat, ts: AddThousandsSep,
                       ghost before: string, ghost text: string, ghost pair: string) returns (q: nat)
    requires n < 100 && pair == PairText(n, ts.digitIndex, ts.sep) && |pair| <= p
    requires p + |text| <= |before| == buffer.Length && buffer[..] == Overwrite(before, p, text)
    modifies buffer, ts`digitIndex
    ensures ts.digitIndex == old(ts.digitIndex) + 2 && q == p - |pair|
    ensures buffer[..] == Overwrite(before, q, pair + text)
  {
    OverwriteBefore(before, p, text, pair);
    q := PutPair(buffer, p, n, ts);
  }

  method FormatDecimal(buffer: array<char>, at: nat, value: nat, numDigits: nat, ts: AddThousandsSep)
    returns (end: nat)
    requires value < TWO64 && ts.digitIndex == 0
    requires |Separated(Format(value), 0, ts.sep)| <= numDigits && at + numDigits <= buffer.Length
    modifies buffer, ts`digitIndex
    ensures end == at + numDigits
    ensures var text := Separated(Format(value), 0, ts.sep);
      buffer[..] == Overwrite(old(buffer[..]), end - |text|, text)
  {
    end := at + numDigits;
    var p, v := end, value;
    ghost var before, rest, text := buffer[..], Separated(Format(value), 0, ts.sep), "";
    ghost var whole, k, sep := rest, 0, ts.sep;
    assert before == Overwrite(before, end, "");
    while v >= 100
      invariant k == ts.digitIndex && sep == ts.sep
      invariant LoopState(v, k, sep, rest, text, whole) && |rest| <= p && p + |text| == end <= |before|
      invariant buffer[..] == Overwrite(before, p, text)
    {
      var low, high := v % 100, v / 100;
      ghost var pair, rest' := TwoDigitsOf(v, low, high, k, sep, rest, text, whole);
      p := PutPairBefore(buffer, p, low, ts, before, text, pair);
      v, k, rest, text := high, k + 2, rest', pair + text;
    }
    p := PutLastBefore(buffer, p, v, ts, before, text, rest);
    assert buffer[..] == Overwrite(before, p, whole);
  }

  /** What is still to be written, and what has been. */
  ghost predicate LoopState(v: nat, k: nat, sep: string, rest: string, text: string, whole: string) {
    rest == Separated(Format(v), k, sep) && whole == rest + text
  }

  method PutLastBefore(buffer: array<char>, p: nat, v: nat, ts: AddThousandsSep,
                       ghost before: string, ghost text: string, ghost rest: string) returns (q: nat)
    requires v < 100 && rest == Separated(Format(v), ts.digitIndex, ts.sep) && |rest| <= p
    requires p + |text| <= |before| == buffer.Length && buffer[..] == Overwrite(before, p, text)
    modifies buffer, ts`digitIndex
    ensures q == p - |rest| && buffer[..] == Overwrite(before, q, rest + text)
  {
    OverwriteBefore(before, p, text, rest);
    q := PutLast(buffer, p, v, ts);
  }

  /** The one or two digits that are left after the loop. */
  method PutLast(buffer: array<char>, p: nat, v: nat, ts: AddThousandsSep) returns (q: nat)
    requires v < 100 && |Separated(Format(v), ts.digitIndex, ts.sep)| <= p <= buffer.Length
    modifies buffer, ts`digitIndex
    ensures q == p - |Separated(Format(v), old(ts.digitIndex), ts.sep)|
    ensures buffer[..] == Overwrite(old(buffer[..]), q, Separated(Format(v), old(ts.digitIndex), ts.sep))
  {
    if v < 10 {
      OneDigit(v, ts.digitIndex, ts.sep);
      q := PutChar(buffer, p, '0' + v as char);
    } else {
      LastTwoDigits(v, ts.digitIndex, ts.sep);
      var hi, lo := ReadPair(v);
      ghost var before, low := buffer[..], SepAfter(ts.digitIndex + 1, ts.sep) + [lo];
      q := PutDigit(buffer, p, lo, ts);
      OverwriteBefore(before, q, low, [hi]);
      q := PutChar(buffer, q, hi);
    }
  }

  lemma OneDigit(v: nat, k: nat, sep: string)
    requires v < 10
    ensures Separated(Format(v), k, sep) == [DigitChar(v)]
  {
  }

  lemma TwoDigits(v: nat, k: nat, sep: string)
    requires v >= 100
    ensures Separated(Format(v), k, sep) == Separated(Format(v / 100), k + 2, sep) + PairText(v % 100, k, sep)
  {
    assert v / 10 / 10 == v / 100 && v / 10 % 10 == v % 100 / 10;
    LastDigitSeparated(v, k, sep);
    LastDigitSeparated(v / 10, k + 1, sep);
    Reassociate(Separated(Format(v / 100), k + 2, sep), SepAfter(k + 2, sep), [DigitChar(v / 10 % 10)],
                SepAfter(k + 1, sep), [DigitChar(v % 10)]);
  }

  lemma TwoDigitsOf(v: nat, low: nat, high: nat, k: nat, sep: string, rest: string, text: string, whole: string)
    returns (pair: string, rest': string)
    requires v >= 100 && low == v % 100 && high == v / 100
    requires LoopState(v, k, sep, rest, text, whole)
    ensures high < v && low < 100
    ensures pair == PairText(low, k, sep) && LoopState(high, k + 2, sep, rest', pair + text, whole)
    ensures |rest| == |rest'| + |pair|
  {
    TwoDigits(v, k, sep);
    pair, rest' := PairText(low, k, sep), Separated(Format(high), k + 2, sep);
    Sequences.Assoc(rest', pair, text);
  }

  lemma Reassociate(a: string, b: string, c: string, d: string, e: string)
    ensures a + b + c + d + e == a + (b + c + (d + e))
  {
  }

  lemma LastDigitSeparated(v: nat, k: nat, sep: string)
    requires v >= 10
    ensures Separated(Format(v), k, sep) ==
      Separated(Format(v / 10), k + 1, sep) + SepAfter(k + 1, sep) + [DigitChar(v % 10)]
  {
    ParseFormat(v / 10);
    var s := Format(v);
    assert s[..|s| - 1] == Format(v / 10);
  }

  lemma LastTwoDigits(v: nat, k: nat, sep: string)
    requires 10 <= v < 100
    ensures Separated(Format(v), k, sep) == [DigitChar(v / 10)] + (SepAfter(k + 1, sep) + [DigitChar(v % 10)])
  {
    LastDigitSeparated(v, k, sep);
  }

  /** The size that `on_num` computes for a one-character separator. */
  function OnNumSize(numDigits: nat): int
    requires numDigits >= 1
  {
    numDigits + 1 * ((numDigits - 1) / 3)
  }

  /**
   `on_num`: format_decimal is given the computed size and a local buffer of
   max_size + max_size / 3 characters. The number fills exactly that many characters.
   */
  method OnNum(value: nat, wide: bool, sep: char) returns (text: string)
    requires value < if wide then TWO64 else TWO32
    ensures text == Grouped(Format(value), [sep])
    ensures |text| == OnNumSize(|Format(value)|)
  {
    var size := |Format(value)| + 1 * ((|Format(value)| - 1) / 3);
    SeparatedIsGrouped(Format(value), 0, [sep]);
    GroupedLength(Format(value), [sep]);
    DigitsFit(value, wide);
    var maxSize := if wide then 20 else 10;
    var buffer := new char[maxSize + maxSize / 3];
    var ts := new AddThousandsSep([sep]);
    var end := FormatDecimal(buffer, 0, value, size, ts);
    text := buffer[..end];
  }

  lemma DigitsFit(value: nat, wide: bool)
    requires value < if wide then TWO64 else TWO32
    ensures 1 <= |Format(value)| <= if wide then 20 else 10
  {
    FormatLength(value);
    var k := if wide then 20 else 10;
    assert Pow10(5) == 100000;
    assert Pow10(10) == 10000000000;
    assert Pow10(15) == 1000000000000000;
    assert Pow10(20) == 100000000000000000000;
    if |Format(value)| > k {
      Pow10Monotone(k, |Format(value)| - 1);
    }
  }

  /** Reading the grouped text back, separators removed, gives the number. */
  lemma GroupedRoundTrip(value: nat, sep: char)
    requires !IsDigit(sep)
    ensures AllDigits(Strip(Grouped(Format(value), [sep]), sep))
    ensures Parse(Strip(Grouped(Format(value), [sep]), sep)) == value
  {
    ParseFormat(value);
    StripGrouped(Format(value), sep);
  }
}
