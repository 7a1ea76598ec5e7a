/** Calendar dates as the dashboard uses them: `YYYY-MM-DD` strings parsed to
    midnight UTC, day counts since 1970-01-01, the `YYYY-MM` month keys and
    JavaScript's month arithmetic (`new Date(y, m + i, 1)` rolls over years). */
module Calendar {
  import opened Base
  import opened Text
  import opened StringOrder

  const MsPerDay: int := 24 * 60 * 60 * 1000

  datatype CivilDate = CivilDate(year: int, month: int, day: int)

  predicate IsLeap(y: int) {
    y % 4 == 0 && (y % 100 != 0 || y % 400 == 0)
  }

  function DaysInMonth(y: int, m: int): (n: int)
    ensures 28 <= n <= 31
  {
    if m == 2 then (if IsLeap(y) then 29 else 28)
    else if m == 4 || m == 6 || m == 9 || m == 11 then 30
    else 31
  }

  predicate ValidDate(d: CivilDate) {
    1 <= d.month <= 12 && 1 <= d.day <= DaysInMonth(d.year, d.month)
  }

  /** A calendar date that exists (a successfully parsed date string). */
  type Date = d: CivilDate | ValidDate(d) witness CivilDate(1970, 1, 1)

  /** 1970-01-01, what `new Date(null)` denotes. */
  const Epoch: Date := CivilDate(1970, 1, 1)

  /** Days from 0001-01-01 to January 1st of year `y` (proleptic Gregorian). */
  function DaysBeforeYear(y: int): int {
    365 * (y - 1) + (y - 1) / 4 - (y - 1) / 100 + (y - 1) / 400
  }

  /** Days of year `y` before the first of month `m`. */
  function DaysBeforeMonth(y: int, m: int): int {
    var table :=
      if m <= 1 then 0 else if m == 2 then 31 else if m == 3 then 59
      else if m == 4 then 90 else if m == 5 then 120 else if m == 6 then 151
      else if m == 7 then 181 else if m == 8 then 212 else if m == 9 then 243
      else if m == 10 then 273 else if m == 11 then 304 else 334;
    table + (if m > 2 && IsLeap(y) then 1 else 0)
  }

  /** Days since 1970-01-01 (negative before it). */
  function DayNumber(d: Date): int {
    DaysBeforeYear(d.year) + DaysBeforeMonth(d.year, d.month) + d.day - 1 - DaysBeforeYear(1970)
  }

  /** Months since year 0, January (`year * 12 + getMonth()`). */
  function MonthIndex(d: Date): int {
    d.year * 12 + d.month - 1
  }

  /** The first day of the month with index `k`. */
  function FirstOfMonth(k: int): (d: Date)
    ensures MonthIndex(d) == k && d.day == 1
  {
    CivilDate(k / 12, k % 12 + 1, 1)
  }

  lemma YearStep(y: int)
    ensures DaysBeforeYear(y + 1) == DaysBeforeYear(y) + (if IsLeap(y) then 366 else 365)
  {
    DivStep4(y);
    DivStep100(y);
    DivStep400(y);
  }

  /** Stepping from `y - 1` to `y` raises the quotient by one exactly at a multiple. */
  lemma DivStep4(y: int)
    ensures y / 4 - (y - 1) / 4 == (if y % 4 == 0 then 1 else 0)
  {
  }

  lemma DivStep100(y: int)
    ensures y / 100 - (y - 1) / 100 == (if y % 100 == 0 then 1 else 0)
  {
  }

  lemma DivStep400(y: int)
    ensures y / 400 - (y - 1) / 400 == (if y % 400 == 0 then 1 else 0)
  {
  }

  /** Consecutive month starts lie a month's length apart, across year ends too. */
  lemma NextMonthStart(k: int)
    ensures DayNumber(FirstOfMonth(k + 1))
         == DayNumber(FirstOfMonth(k)) + DaysInMonth(k / 12, k % 12 + 1)
  {
    if k % 12 == 11 {
      assert (k + 1) / 12 == k / 12 + 1 && (k + 1) % 12 == 0;
      YearStep(k / 12);
    } else {
      assert (k + 1) / 12 == k / 12 && (k + 1) % 12 == k % 12 + 1;
    }
  }

  lemma {:induction false} MonthStartsIncrease(k1: int, k2: int)
    requires k1 < k2
    ensures DayNumber(FirstOfMonth(k1)) < DayNumber(FirstOfMonth(k2))
    decreases k2 - k1
  {
    NextMonthStart(k1);
    if k1 + 1 < k2 {
      MonthStartsIncrease(k1 + 1, k2);
    }
  }

  lemma StartsNotDecrease(k1: int, k2: int)
    requires k1 <= k2
    ensures DayNumber(FirstOfMonth(k1)) <= DayNumber(FirstOfMonth(k2))
  {
    if k1 < k2 {
      MonthStartsIncrease(k1, k2);
    }
  }

  /** A date lies `day - 1` days after the first of its month. */
  lemma DayInMonth(d: Date)
    ensures DayNumber(d) == DayNumber(FirstOfMonth(MonthIndex(d))) + d.day - 1
  {
    var k := MonthIndex(d);
    assert k / 12 == d.year && k % 12 + 1 == d.month;
  }

  /** Every day of a month comes before the first of the next month. */
  lemma NextStartAfter(d: Date)
    ensures DayNumber(d) < DayNumber(FirstOfMonth(MonthIndex(d) + 1))
  {
    var k := MonthIndex(d);
    DayInMonth(d);
    NextMonthStart(k);
    assert k / 12 == d.year && k % 12 + 1 == d.month;
  }

  /** A date in an earlier month is an earlier day. */
  lemma EarlierMonthEarlierDay(a: Date, b: Date)
    requires MonthIndex(a) < MonthIndex(b)
    ensures DayNumber(a) < DayNumber(b)
  {
    NextStartAfter(a);
    DayInMonth(b);
    StartsNotDecrease(MonthIndex(a) + 1, MonthIndex(b));
  }

  /** Day numbers identify dates: the day-number order is the calendar order. */
  lemma DayNumberOrder(a: Date, b: Date)
    ensures DayNumber(a) < DayNumber(b) <==>
      MonthIndex(a) < MonthIndex(b) || (MonthIndex(a) == MonthIndex(b) && a.day < b.day)
    ensures DayNumber(a) == DayNumber(b) <==> a == b
  {
    if MonthIndex(a) < MonthIndex(b) {
      EarlierMonthEarlierDay(a, b);
    } else if MonthIndex(b) < MonthIndex(a) {
      EarlierMonthEarlierDay(b, a);
    } else {
      DayInMonth(a);
      DayInMonth(b);
      assert a.year == b.year && a.month == b.month by {
        var k := MonthIndex(a);
        assert k / 12 == a.year && k % 12 + 1 == a.month;
        assert k / 12 == b.year && k % 12 + 1 == b.month;
      }
    }
  }

  /** The current instant: today's date and the milliseconds elapsed since its midnight. */
  datatype Instant = Instant(date: Date, msOfDay: int)
  type Now = t: Instant | 0 <= t.msOfDay < MsPerDay witness Instant(Epoch, 0)

  /** Milliseconds since the epoch (`Date.prototype.getTime`). */
  function NowMs(now: Now): int {
    DayNumber(now.date) * MsPerDay + now.msOfDay
  }

  function DateMs(d: Date): int {
    DayNumber(d) * MsPerDay
  }

  /** `Math.floor((now - date) / 86400000)`. */
  function DaysSince(now: Now, d: Date): (n: int)
    ensures n == DayNumber(now.date) - DayNumber(d)
  {
    var n := (NowMs(now) - DateMs(d)) / MsPerDay;
    assert NowMs(now) - DateMs(d) == (DayNumber(now.date) - DayNumber(d)) * MsPerDay + now.msOfDay;
    n
  }

  /** `date > now`: the date is after today (a date's midnight is never after the
      current moment of the same day). */
  predicate IsAfter(d: Date, now: Now) {
    DateMs(d) > NowMs(now)
  }

  lemma IsAfterIffLaterDay(d: Date, now: Now)
    ensures IsAfter(d, now) <==> DayNumber(d) > DayNumber(now.date)
  {
  }

  /** The date `new Date(y, m - 1 + offset, 1)` lands in, as (year, month). */
  function ShiftMonth(y: int, m: int, offset: int): (r: (int, int))
    requires 1 <= m <= 12
    ensures 1 <= r.1 <= 12
    ensures r.0 * 12 + r.1 == y * 12 + m + offset
  {
    var k := y * 12 + m - 1 + offset;
    (k / 12, k % 12 + 1)
  }

  /** The `YYYY-MM` key of a month: `${year}-${String(month).padStart(2, '0')}`. */
  function MonthKey(y: int, m: nat): string {
    IntToString(y) + "-" + Digits(m, 2)
  }

  /** `toISOString().split('T')[0]` of a date's midnight: `YYYY-MM-DD`. */
  function IsoDate(d: Date): (r: string)
    ensures 'T' !in r
  {
    var r := MonthKey(d.year, d.month) + "-" + Digits(d.day, 2);
    assert forall i :: 0 <= i < |r| ==> IsDigit(r[i]) || r[i] == '-' by {
      var y := IntToString(d.year);
      assert forall i :: 0 <= i < |y| ==> IsDigit(y[i]) || y[i] == '-';
    }
    r
  }

  /** For four-digit years, the string order of month keys is the chronological
      order of the months, so a default `.sort()` sorts them by time. */
  lemma MonthKeyOrder(y: int, m: int, y': int, m': int)
    requires 1000 <= y <= 9999 && 1000 <= y' <= 9999
    requires 1 <= m <= 12 && 1 <= m' <= 12
    ensures LexLess(MonthKey(y, m), MonthKey(y', m')) <==> y * 12 + m < y' * 12 + m'
    ensures MonthKey(y, m) == MonthKey(y', m') <==> y == y' && m == m'
  {
    assert Pow10(2) == 100 && Pow10(3) == 1000 && Pow10(4) == 10000;
    NatToStringIsDigits(y, 4);
    NatToStringIsDigits(y', 4);
    var a, a' := Digits(y, 4), Digits(y', 4);
    var b, b' := Digits(m, 2), Digits(m', 2);
    assert MonthKey(y, m) == a + ("-" + b);
    assert MonthKey(y', m') == a' + ("-" + b');
    LexConcat(a, "-" + b, a', "-" + b');
    LexConcat("-", b, "-", b');
    LexIrreflexive("-");
    DigitsOrder(y, y', 4);
    DigitsOrder(m, m', 2);
    DigitsInjective(y, y', 4);
    DigitsInjective(m, m', 2);
    if MonthKey(y, m) == MonthKey(y', m') {
      assert a == (a + ("-" + b))[..4];
      assert a' == (a' + ("-" + b'))[..4];
      assert b == (a + ("-" + b))[5..];
      assert b' == (a' + ("-" + b'))[5..];
    }
  }

  /** The key of the month with index `k` (months since year 0, January). */
  function MonthKeyOf(k: int): string {
    MonthKey(k / 12, k % 12 + 1)
  }

  /** Between years 1000 and 9999, month keys sort as their months do. */
  lemma MonthKeyOfOrder(k1: int, k2: int)
    requires 12000 <= k1 < 120000 && 12000 <= k2 < 120000
    ensures LexLess(MonthKeyOf(k1), MonthKeyOf(k2)) <==> k1 < k2
    ensures MonthKeyOf(k1) == MonthKeyOf(k2) <==> k1 == k2
  {
    MonthKeyOrder(k1 / 12, k1 % 12 + 1, k2 / 12, k2 % 12 + 1);
  }

  /** Same calendar month as a date (`getMonth()` and `getFullYear()` agree). */
  predicate InMonth(d: Date, y: int, m: int) {
    d.year == y && d.month == m
  }
}
