/** The difference between two broken-down times, as spdlog computes it where tm has no offset field. */
module GmtOffset {

  /** The fields of a tm that count: years since 1900, days since the first of January, and the time of day. */
  datatype Tm = Tm(year: int, yday: int, hour: int, min: int, sec: int)

  /** C++ division of integers rounds toward zero. */
  function Quotient(a: int, b: int): int
    requires b > 0
  {
    if a >= 0 then a / b else -(-a / b)
  }

  /** An arithmetic shift by two rounds down. */
  function ShiftBy2(a: int): int {
    a / 4
  }

  function CalculateGmtOffset(local: Tm, gmt: Tm): int {
    var localYear, gmtYear := local.year + (1900 - 1), gmt.year + (1900 - 1);
    var days := local.yday - gmt.yday
      + (ShiftBy2(localYear) - ShiftBy2(gmtYear))
      - (Quotient(localYear, 100) - Quotient(gmtYear, 100))
      + (ShiftBy2(Quotient(localYear, 100)) - ShiftBy2(Quotient(gmtYear, 100)))
      + (localYear - gmtYear) * 365;
    var hours := 24 * days + (local.hour - gmt.hour);
    var mins := 60 * hours + (local.min - gmt.min);
    60 * mins + (local.sec - gmt.sec)
  }

  // ----- the Gregorian calendar -----

  /** Section 3.2.1 of ISO 8601:2004. */
  predicate IsLeap(year: int) {
    year % 4 == 0 && (year % 100 != 0 || year % 400 == 0)
  }

  function YearLength(year: int): int {
    if IsLeap(year) then 366 else 365
  }

  /** The days from the beginning of year 1 to that of a year, year by year. */
  function YearStart(year: int): int
    decreases if year >= 1 then year else 2 - year
  {
    if year == 1 then 0
    else if year > 1 then YearStart(year - 1) + YearLength(year - 1)
    else YearStart(year + 1) - YearLength(year)
  }

  /** Seconds since the beginning of year 1. */
  function Instant(t: Tm): int {
    60 * (60 * (24 * (YearStart(t.year + 1900) + t.yday) + t.hour) + t.min) + t.sec
  }

  lemma LeapDayStep(n: int)
    ensures var y := n + 1;
      y / 4 - y / 100 + y / 400 == n / 4 - n / 100 + n / 400 + if IsLeap(y) then 1 else 0
  {
    Step(n, 4);
    Step(n, 100);
    Step(n, 400);
    assert (n + 1) % 400 == 0 ==> (n + 1) % 100 == 0;
    assert (n + 1) % 100 == 0 ==> (n + 1) % 4 == 0;
  }

  lemma Step(n: int, k: int)
    requires k == 4 || k == 100 || k == 400
    ensures (n + 1) / k == n / k + if (n + 1) % k == 0 then 1 else 0
  {
  }

  lemma {:induction false} YearStartIs(year: int)
    ensures var n := year - 1; YearStart(year) == 365 * n + n / 4 - n / 100 + n / 400
    decreases if year >= 1 then year else 2 - year
  {
    if year > 1 {
      YearStartIs(year - 1);
      LeapDayStep(year - 2);
    } else if year < 1 {
      YearStartIs(year + 1);
      LeapDayStep(year - 1);
    }
  }

  /** The years before which rounding toward zero has lost a day: in three centuries of four, counting back from year 0. */
  predicate Slips(year: int) {
    var m := 1 - year;
    m > 0 && m % 100 != 0 && (m / 100) % 4 != 0
  }

  /** The two rounding rules agree on the century terms, except that a day is lost where they slip. */
  lemma Centuries(n: int)
    ensures ShiftBy2(Quotient(n, 100)) - Quotient(n, 100) == n / 400 - n / 100 - if Slips(n + 1) then 1 else 0
  {
    if n >= 0 {
      FourHundred(n);
    } else {
      var m := -n;
      FourHundred(m);
      NegativeQuotient(m, 100);
      NegativeQuotient(m, 400);
      NegativeQuotient(m / 100, 4);
      assert m % 400 == 0 <==> m % 100 == 0 && (m / 100) % 4 == 0;
    }
  }

  lemma FourHundred(m: nat)
    ensures m / 100 / 4 == m / 400
    ensures m % 400 == 100 * (m / 100 % 4) + m % 100
  {
  }

  lemma NegativeQuotient(m: nat, k: int)
    requires k == 4 || k == 100 || k == 400
    ensures (0 - m) / k == 0 - m / k - if m % k == 0 then 0 else 1
  {
  }

  /** So the offset is the difference of the instants, less a day where only one of the years slips. */
  lemma OffsetIs(local: Tm, gmt: Tm)
    ensures CalculateGmtOffset(local, gmt) == Instant(local) - Instant(gmt)
      - (if Slips(local.year + 1900) then DAY else 0) + (if Slips(gmt.year + 1900) then DAY else 0)
  {
    YearStartIs(local.year + 1900);
    YearStartIs(gmt.year + 1900);
    Centuries(local.year + 1899);
    Centuries(gmt.year + 1899);
  }

  const DAY := 24 * 60 * 60

  /** It is exact if and only if both years slip or neither does. */
  lemma OffsetIsExact(local: Tm, gmt: Tm)
    ensures CalculateGmtOffset(local, gmt) == Instant(local) - Instant(gmt)
      <==> (Slips(local.year + 1900) <==> Slips(gmt.year + 1900))
  {
    OffsetIs(local, gmt);
  }

  /** In particular it is exact for all years from -99 on. */
  lemma OffsetIsExactSince(local: Tm, gmt: Tm)
    requires local.year + 1900 >= -99 && gmt.year + 1900 >= -99
    ensures CalculateGmtOffset(local, gmt) == Instant(local) - Instant(gmt)
  {
    OffsetIs(local, gmt);
  }

  /** And it is a day short from each year of the century before to any year since. */
  lemma ADayShort(local: Tm, gmt: Tm)
    requires -199 < local.year + 1900 < -99 && gmt.year + 1900 >= -99
    ensures CalculateGmtOffset(local, gmt) == Instant(local) - Instant(gmt) - DAY
  {
    OffsetIs(local, gmt);
  }
}
