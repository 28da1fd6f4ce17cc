/// The proleptic Gregorian calendar as JavaScript's `Date` and the date-fns
/// helpers used by the pickers see it: month lengths, weekdays (Sunday = 0),
/// month arithmetic with year rollover, instants within a day, and the
/// `yyyy-MM-dd` format together with a parser for the full-date production of
/// section 5.6 of RFC 3339.
module Dates {
  import opened Base

  /** A month as `Date.getMonth()` returns it: 0 is January, 11 is December. */
  type MonthIndex = m: int | 0 <= m < 12

  /** Section 5.7 / Appendix C of RFC 3339: the Gregorian leap-year rule. */
  predicate IsLeapYear(y: int) {
    y % 4 == 0 && (y % 100 != 0 || y % 400 == 0)
  }

  function YearLength(y: int): int {
    if IsLeapYear(y) then 366 else 365
  }

  /** The number of days in month m of year y, which is what
      `new Date(y, m + 1, 0).getDate()` yields. */
  function DaysInMonth(y: int, m: MonthIndex): (n: int)
    ensures 28 <= n <= 31
    ensures n == 29 <==> m == 1 && IsLeapYear(y)
    ensures n < 30 <==> m == 1
  {
    if m == 1 then (if IsLeapYear(y) then 29 else 28)
    else if m == 3 || m == 5 || m == 8 || m == 10 then 30
    else 31
  }

  /** Days of year y that lie before the first of month m. */
  function DaysBeforeMonth(y: int, m: MonthIndex): int {
    [0, 31, 59, 90, 120, 151, 181, 212, 243, 273, 304, 334][m]
      + (if m >= 2 && IsLeapYear(y) then 1 else 0)
  }

  /** Days from 0001-01-01 to January 1st of year y (negative before year 1). */
  function DaysBeforeYear(y: int): int {
    365 * (y - 1) + (y - 1) / 4 - (y - 1) / 100 + (y - 1) / 400
  }

  /** The day number of y-m-d, counting 0001-01-01 as day 0. */
  function DayNumber(y: int, m: MonthIndex, d: int): int {
    DaysBeforeYear(y) + DaysBeforeMonth(y, m) + (d - 1)
  }

  /** `Date.getDay()`: 0 is Sunday, 6 is Saturday (0001-01-01 was a Monday). */
  function Weekday(y: int, m: MonthIndex, d: int): (w: int)
    ensures 0 <= w < 7
  {
    (DayNumber(y, m, d) + 1) % 7
  }

  /** `new Date(y, m, 1).getDay()`. */
  function FirstWeekday(y: int, m: MonthIndex): (w: int)
    ensures 0 <= w < 7
  {
    Weekday(y, m, 1)
  }

  /** The twelve months of a year add up to the year's length. */
  lemma MonthLengthsSumToYear(y: int)
    ensures DaysBeforeMonth(y, 11) + DaysInMonth(y, 11) == YearLength(y)
    ensures forall m: MonthIndex :: m < 11 ==> DaysBeforeMonth(y, m + 1) == DaysBeforeMonth(y, m) + DaysInMonth(y, m)
  {
  }

  lemma FloorStep4(y: int)
    ensures y / 4 - (y - 1) / 4 == if y % 4 == 0 then 1 else 0
  {
  }

  lemma FloorStep100(y: int)
    ensures y / 100 - (y - 1) / 100 == if y % 100 == 0 then 1 else 0
  {
  }

  lemma FloorStep400(y: int)
    ensures y / 400 - (y - 1) / 400 == if y % 400 == 0 then 1 else 0
  {
  }

  /** Consecutive New Year's days are one year length apart. */
  lemma DaysBeforeNextYear(y: int)
    ensures DaysBeforeYear(y + 1) == DaysBeforeYear(y) + YearLength(y)
  {
    FloorStep4(y);
    FloorStep100(y);
    FloorStep400(y);
    assert y % 400 == 0 ==> y % 100 == 0;
    assert y % 100 == 0 ==> y % 4 == 0;
  }

  /** A year and a month; the months since year 0 order them. */
  datatype YearMonth = YearMonth(year: int, month: MonthIndex)

  function MonthCount(ym: YearMonth): int {
    ym.year * 12 + ym.month
  }

  /** The month k months after ym (before it for negative k), as both
      `new Date(y, m + k)` and date-fns `addMonths` normalise it. */
  function ShiftMonths(ym: YearMonth, k: int): (r: YearMonth)
    ensures MonthCount(r) == MonthCount(ym) + k
  {
    var t := MonthCount(ym) + k;
    YearMonth(t / 12, t % 12)
  }

  lemma MonthCountInjective(a: YearMonth, b: YearMonth)
    requires MonthCount(a) == MonthCount(b)
    ensures a == b
  {
  }

  /** One month forward rolls December over into January of the next year;
      one month back rolls January back into December of the previous year. */
  lemma StepOneMonth(ym: YearMonth)
    ensures ShiftMonths(ym, 1) == if ym.month == 11 then YearMonth(ym.year + 1, 0) else YearMonth(ym.year, ym.month + 1)
    ensures ShiftMonths(ym, -1) == if ym.month == 0 then YearMonth(ym.year - 1, 11) else YearMonth(ym.year, ym.month - 1)
  {
    var next := if ym.month == 11 then YearMonth(ym.year + 1, 0) else YearMonth(ym.year, ym.month + 1);
    var prev := if ym.month == 0 then YearMonth(ym.year - 1, 11) else YearMonth(ym.year, ym.month - 1);
    MonthCountInjective(ShiftMonths(ym, 1), next);
    MonthCountInjective(ShiftMonths(ym, -1), prev);
  }

  /** Stepping back and then forward (or forward and then back) is the identity. */
  lemma ShiftMonthsInverse(ym: YearMonth, k: int)
    ensures ShiftMonths(ShiftMonths(ym, k), -k) == ym
    ensures ShiftMonths(ShiftMonths(ym, -k), k) == ym
  {
    MonthCountInjective(ShiftMonths(ShiftMonths(ym, k), -k), ym);
    MonthCountInjective(ShiftMonths(ShiftMonths(ym, -k), k), ym);
  }

  /** The first of the following month falls exactly `DaysInMonth` days later. */
  lemma FirstOfNextMonthDayNumber(ym: YearMonth)
    ensures var n := ShiftMonths(ym, 1);
      DayNumber(n.year, n.month, 1) == DayNumber(ym.year, ym.month, 1) + DaysInMonth(ym.year, ym.month)
  {
    StepOneMonth(ym);
    MonthLengthsSumToYear(ym.year);
    if ym.month == 11 {
      DaysBeforeNextYear(ym.year);
      assert DayNumber(ym.year + 1, 0, 1) == DaysBeforeYear(ym.year) + YearLength(ym.year);
    } else {
      assert DaysBeforeMonth(ym.year, ym.month + 1) == DaysBeforeMonth(ym.year, ym.month) + DaysInMonth(ym.year, ym.month);
    }
  }

  /** So the grids of consecutive months continue each other's weekdays. */
  lemma FirstOfNextMonth(ym: YearMonth)
    ensures var n := ShiftMonths(ym, 1);
      FirstWeekday(n.year, n.month) == (FirstWeekday(ym.year, ym.month) + DaysInMonth(ym.year, ym.month)) % 7
  {
    var n := ShiftMonths(ym, 1);
    FirstOfNextMonthDayNumber(ym);
    var a := DayNumber(ym.year, ym.month, 1) + 1;
    var k := DaysInMonth(ym.year, ym.month);
    assert DayNumber(n.year, n.month, 1) + 1 == a + k;
    ModShift(a, k);
  }

  lemma ModShift(a: int, k: int)
    ensures (a + k) % 7 == (a % 7 + k) % 7
  {
    var q := a / 7;
    assert a + k == 7 * q + (a % 7 + k);
  }

  /** Day d of a month falls on weekday (first weekday + d - 1) mod 7: it sits
      in column (blanks + d - 1) mod 7 of a grid headed Su..Sa. */
  lemma WeekdayOfDay(y: int, m: MonthIndex, d: int)
    ensures Weekday(y, m, d) == (FirstWeekday(y, m) + d - 1) % 7
  {
    var a := DayNumber(y, m, 1) + 1;
    assert DayNumber(y, m, d) + 1 == a + (d - 1);
    ModShift(a, d - 1);
  }

  /** Anchors: 1 January 1970 was a Thursday, 1 January 2024 a Monday. */
  lemma KnownWeekdays()
    ensures FirstWeekday(1970, 0) == 4
    ensures FirstWeekday(2024, 0) == 1
  {
  }

  /** The English month names, as the pickers print them (`MMMM`). */
  const MonthNames: seq<string> := ["January", "February", "March", "April", "May", "June",
    "July", "August", "September", "October", "November", "December"]

  /** The calendar date of a JavaScript `Date`, with its month starting at 0. */
  datatype CivilDate = CivilDate(year: int, month: MonthIndex, day: int)

  predicate IsValidDate(d: CivilDate) {
    1 <= d.day <= DaysInMonth(d.year, d.month)
  }

  /** A calendar date that exists. */
  type Date = d: CivilDate | IsValidDate(d) witness CivilDate(1970, 0, 1)

  function MonthOf(d: Date): YearMonth {
    YearMonth(d.year, d.month)
  }

  /** date-fns `addMonths(d, k)`: the same day k months later, clamped to the
      last day of a shorter target month. */
  function AddMonths(d: Date, k: int): (r: Date)
    ensures MonthOf(r) == ShiftMonths(MonthOf(d), k)
    ensures r.day <= d.day
    ensures r.day == d.day || r.day == DaysInMonth(r.year, r.month)
  {
    var t := ShiftMonths(MonthOf(d), k);
    var last := DaysInMonth(t.year, t.month);
    CivilDate(t.year, t.month, if d.day <= last then d.day else last)
  }

  type MsOfDay = x: int | 0 <= x < 86400000

  /** A JavaScript `Date` in local time: a calendar date and the milliseconds since its midnight. */
  datatype Instant = Instant(date: Date, ms: MsOfDay)

  /** `a < b` on two `Date` objects: comparison of their time values. */
  predicate Before(a: Instant, b: Instant) {
    if a.date.year != b.date.year then a.date.year < b.date.year
    else if a.date.month != b.date.month then a.date.month < b.date.month
    else if a.date.day != b.date.day then a.date.day < b.date.day
    else a.ms < b.ms
  }

  /** Midnight of a calendar date (date-fns `startOfDay`, and `new Date(y, m, d)`). */
  function Midnight(d: Date): Instant {
    Instant(d, 0)
  }

  /** The year as date-fns prints it for the `y` tokens: the year of the era,
      so year 0 reads as 1 and year -1 as 2 (the era itself is not printed). */
  function EraYear(y: int): (e: nat)
    ensures e >= 1
    ensures y >= 1 ==> e == y
  {
    if y > 0 then y else 1 - y
  }

  /** date-fns `format(d, 'yyyy-MM-dd')`. */
  function FormatYmd(d: Date): string {
    PadStart(Decimal(EraYear(d.year)), 4) + "-" + PadStart(Decimal(d.month + 1), 2) + "-" + PadStart(Decimal(d.day), 2)
  }

  /** The full-date production of section 5.6 of RFC 3339
      (4DIGIT "-" 2DIGIT "-" 2DIGIT, with a month 01-12 and a day of that month);
      None for anything else. */
  function ParseFullDate(s: string): (r: Option<Date>)
    ensures r.Some? ==> |s| == 10 && s[4] == '-' && s[7] == '-'
    ensures r.Some? ==> 0 <= r.value.year <= 9999
  {
    if |s| == 10 && s[4] == '-' && s[7] == '-' && AllDigits(s[..4]) && AllDigits(s[5..7]) && AllDigits(s[8..]) then
      var y, mo, dd := Value(s[..4]), Value(s[5..7]), Value(s[8..]);
      if 1 <= mo <= 12 && 1 <= dd <= DaysInMonth(y, mo - 1) then
        assert Value(s[..4]) < 10000 by { ValueBound(s[..4]); }
        Some(CivilDate(y, mo - 1, dd))
      else None
    else None
  }

  lemma {:induction false} ValueBound(s: string)
    requires AllDigits(s)
    ensures Value(s) < Pow10(|s|)
    decreases |s|
  {
    if s != [] {
      ValueBound(s[..|s| - 1]);
    }
  }

  /** For years 1 to 9999 `FormatYmd` writes an RFC 3339 full-date that reads back as the same date. */
  lemma FormatYmdRoundTrip(d: Date)
    requires 1 <= d.year <= 9999
    ensures ParseFullDate(FormatYmd(d)) == Some(d)
  {
    assert EraYear(d.year) == d.year;
    PaddedParse(d);
  }

  /** The zero-padded year, month and day of a date, joined by hyphens, parse back to it. */
  lemma PaddedParse(d: Date)
    requires 1 <= d.year <= 9999
    ensures ParseFullDate(PadStart(Decimal(d.year), 4) + "-" + PadStart(Decimal(d.month + 1), 2) + "-"
                          + PadStart(Decimal(d.day), 2)) == Some(d)
  {
    assert Pow10(2) == 100 && Pow10(4) == 10000;
    PaddedDecimal(d.year, 4);
    PaddedDecimal(d.month + 1, 2);
    PaddedDecimal(d.day, 2);
    ParseParts(PadStart(Decimal(d.year), 4), PadStart(Decimal(d.month + 1), 2), PadStart(Decimal(d.day), 2));
  }

  lemma ParseParts(ys: string, ms: string, ds: string)
    requires |ys| == 4 && |ms| == 2 && |ds| == 2
    requires AllDigits(ys) && AllDigits(ms) && AllDigits(ds)
    requires 1 <= Value(ms) <= 12 && 1 <= Value(ds) <= DaysInMonth(Value(ys), Value(ms) - 1)
    ensures ParseFullDate(ys + "-" + ms + "-" + ds) == Some(CivilDate(Value(ys), Value(ms) - 1, Value(ds)))
  {
    SplitYmd(ys, ms, ds);
  }

  lemma SplitYmd(ys: string, ms: string, ds: string)
    requires |ys| == 4 && |ms| == 2 && |ds| == 2
    ensures var s := ys + "-" + ms + "-" + ds;
      |s| == 10 && s[4] == '-' && s[7] == '-' && s[..4] == ys && s[5..7] == ms && s[8..] == ds
  {
    var s := ys + "-" + ms + "-" + ds;
    assert s[..4] == ys;
    assert s[5..7] == ms;
    assert s[8..] == ds;
  }

  /** The year of the era hides the era: years 0 and 1 print alike. */
  lemma EraCollision()
    ensures FormatYmd(CivilDate(0, 0, 1)) == FormatYmd(CivilDate(1, 0, 1))
  {
  }
}
