/// The date dropdown of the search bar: a month grid with leading blanks,
/// month stepping, optional earliest and latest dates, a "Today" shortcut,
/// and a long-date label for the chosen value.
module DatePicker {
  import opened Base
  import opened Dates

  /** One cell of the grid: a blank before the 1st, or the button of a day. */
  datatype DayCell = Blank | DayButton(day: int, date: Date, selected: bool, isToday: bool, disabled: bool)

  /** `isDateDisabled`: earlier than the minimum, or later than the maximum. */
  predicate IsDateDisabled(d: Instant, minDate: Option<Instant>, maxDate: Option<Instant>)
    ensures IsDateDisabled(d, minDate, maxDate) ==> minDate.Some? || maxDate.Some?
    ensures minDate == Some(d) && maxDate.None? ==> !IsDateDisabled(d, minDate, maxDate)
    ensures maxDate == Some(d) && minDate.None? ==> !IsDateDisabled(d, minDate, maxDate)
  {
    (minDate.Some? && Before(d, minDate.value)) || (maxDate.Some? && Before(maxDate.value, d))
  }

  /** Between the bounds (inclusive) nothing is disabled; without bounds nothing ever is. */
  lemma EnabledWithinBounds(d: Instant, minDate: Option<Instant>, maxDate: Option<Instant>)
    requires minDate.Some? ==> !Before(d, minDate.value)
    requires maxDate.Some? ==> !Before(maxDate.value, d)
    ensures !IsDateDisabled(d, minDate, maxDate)
    ensures !IsDateDisabled(d, None, None)
  {
  }

  /** The button of day `day` of month `ym`. */
  function DayCellFor(ym: YearMonth, day: int, value: Option<Instant>, now: Instant,
                      minDate: Option<Instant>, maxDate: Option<Instant>): DayCell
    requires 1 <= day <= DaysInMonth(ym.year, ym.month)
  {
    var date: Date := CivilDate(ym.year, ym.month, day);
    DayButton(day, date, value.Some? && value.value.date == date, date == now.date,
              IsDateDisabled(Midnight(date), minDate, maxDate))
  }

  function Blanks(n: nat): (r: seq<DayCell>)
    ensures |r| == n && forall i :: 0 <= i < n ==> r[i] == Blank
  {
    if n == 0 then [] else Blanks(n - 1) + [Blank]
  }

  /** The buttons of days 1..count. */
  function DayCells(ym: YearMonth, count: nat, value: Option<Instant>, now: Instant,
                    minDate: Option<Instant>, maxDate: Option<Instant>): (r: seq<DayCell>)
    requires count <= DaysInMonth(ym.year, ym.month)
    ensures |r| == count
    ensures forall i :: 0 <= i < count ==> r[i] == DayCellFor(ym, i + 1, value, now, minDate, maxDate)
  {
    if count == 0 then []
    else DayCells(ym, count - 1, value, now, minDate, maxDate) + [DayCellFor(ym, count, value, now, minDate, maxDate)]
  }

  /** The grid under the Su..Sa header: `firstDayOfMonth` blanks, then the buttons
      of days 1..`daysInMonth` in order. */
  function MonthGrid(ym: YearMonth, value: Option<Instant>, now: Instant,
                     minDate: Option<Instant>, maxDate: Option<Instant>): (cells: seq<DayCell>)
    ensures var first, n := FirstWeekday(ym.year, ym.month), DaysInMonth(ym.year, ym.month);
      |cells| == first + n
      && (forall i :: 0 <= i < first ==> cells[i] == Blank)
      && (forall i :: first <= i < |cells| ==>
            cells[i].DayButton? && cells[i].day == i - first + 1
            && cells[i].date == CivilDate(ym.year, ym.month, i - first + 1))
  {
    var first, n := FirstWeekday(ym.year, ym.month), DaysInMonth(ym.year, ym.month);
    var r := Blanks(first) + DayCells(ym, n, value, now, minDate, maxDate);
    assert forall i :: first <= i < |r| ==> r[i] == DayCells(ym, n, value, now, minDate, maxDate)[i - first];
    r
  }

  /** Each day sits in its weekday's column. */
  lemma GridColumnIsWeekday(ym: YearMonth, value: Option<Instant>, now: Instant,
                            minDate: Option<Instant>, maxDate: Option<Instant>, i: nat)
    requires i < |MonthGrid(ym, value, now, minDate, maxDate)|
    requires MonthGrid(ym, value, now, minDate, maxDate)[i].DayButton?
    ensures var c := MonthGrid(ym, value, now, minDate, maxDate)[i];
      i % 7 == Weekday(c.date.year, c.date.month, c.date.day)
  {
    var first := FirstWeekday(ym.year, ym.month);
    var c := MonthGrid(ym, value, now, minDate, maxDate)[i];
    WeekdayOfDay(ym.year, ym.month, c.day);
    assert i == first + c.day - 1;
  }

  /** At most one day of a grid is marked as the chosen one. */
  lemma AtMostOneSelected(ym: YearMonth, value: Option<Instant>, now: Instant,
                          minDate: Option<Instant>, maxDate: Option<Instant>, i: nat, j: nat)
    requires i < j < |MonthGrid(ym, value, now, minDate, maxDate)|
    ensures var g := MonthGrid(ym, value, now, minDate, maxDate);
      !(g[i].DayButton? && g[j].DayButton? && g[i].selected && g[j].selected)
  {
    var first := FirstWeekday(ym.year, ym.month);
    var g := MonthGrid(ym, value, now, minDate, maxDate);
    if g[i].DayButton? && g[j].DayButton? {
      var ds := DayCells(ym, DaysInMonth(ym.year, ym.month), value, now, minDate, maxDate);
      assert g[i] == ds[i - first] && g[j] == ds[j - first];
    }
  }

  /** With the minimum set to the current instant (as SearchBar does), today's own
      cell is disabled unless it is exactly midnight, while the "Today" button stays
      enabled and then reports midnight of today, a date the grid calls disabled. */
  lemma TodayCellDisabledWhenMinIsNow(now: Instant)
    requires now.ms > 0
    ensures var ym := MonthOf(now.date);
      DayCellFor(ym, now.date.day, None, now, Some(now), None).disabled
    ensures !IsDateDisabled(now, Some(now), None)
    ensures IsDateDisabled(Midnight(now.date), Some(now), None)
  {
    assert CivilDate(now.date.year, now.date.month, now.date.day) == now.date;
  }

  /** The long date of the `PPP` pattern of the English locale: "April 29th, 2023". */
  function LongDate(d: Date): (text: string)
    ensures |MonthNames[d.month]| < |text| && text[..|MonthNames[d.month]|] == MonthNames[d.month]
    ensures ',' in text
  {
    MonthNames[d.month] + " " + Ordinal(d.day) + ", " + Decimal(EraYear(d.year))
  }

  /** The label reads back: the month's name, a space, the ordinal of the day,
      a comma and a space, then the year of the era in decimal digits. */
  lemma LongDateParts(d: Date)
    ensures var text, m, o := LongDate(d), MonthNames[d.month], Ordinal(d.day);
      |text| > |m| + |o| + 3
      && text[..|m| + 1] == m + " "
      && text[|m| + 1..|m| + 1 + |o|] == o
      && text[|m| + 1 + |o|..|m| + |o| + 3] == ", "
      && AllDigits(text[|m| + |o| + 3..])
      && Value(text[|m| + |o| + 3..]) == EraYear(d.year)
  {
    var m, o, y := MonthNames[d.month], Ordinal(d.day), Decimal(EraYear(d.year));
    var text := LongDate(d);
    assert text == m + " " + o + ", " + y;
    assert text[..|m| + 1] == m + " ";
    assert text[|m| + 1..|m| + 1 + |o|] == o;
    assert text[|m| + |o| + 3..] == y;
    ValueOfDecimal(EraYear(d.year));
  }

  /** Two dates with the same label agree on month, day and year of the era, so
      dates of the common era (year 1 onwards) are told apart by their labels. */
  lemma LongDateInjective(a: Date, b: Date)
    requires LongDate(a) == LongDate(b)
    ensures a.month == b.month && a.day == b.day && EraYear(a.year) == EraYear(b.year)
    ensures a.year >= 1 && b.year >= 1 ==> a == b
  {
    var ma, oa, ya := MonthNames[a.month], Ordinal(a.day), Decimal(EraYear(a.year));
    var mb, ob, yb := MonthNames[b.month], Ordinal(b.day), Decimal(EraYear(b.year));
    LongDateSeparators(a);
    LongDateSeparators(b);
    MonthNameFacts(a.month);
    MonthNameFacts(b.month);
    OrdinalHasNoComma(a.day);
    OrdinalHasNoComma(b.day);
    SplitAtSeparator(ma, oa + [','] + ([' '] + ya), mb, ob + [','] + ([' '] + yb), ' ');
    SplitAtSeparator(oa, [' '] + ya, ob, [' '] + yb, ',');
    assert ya == ([' '] + ya)[1..] == ([' '] + yb)[1..] == yb;
    MonthNamesDistinct(a.month, b.month);
    assert Decimal(a.day) == oa[..|oa| - 2] == ob[..|ob| - 2] == Decimal(b.day);
    ValueOfDecimal(a.day);
    ValueOfDecimal(b.day);
    ValueOfDecimal(EraYear(a.year));
    ValueOfDecimal(EraYear(b.year));
  }

  lemma LongDateSeparators(d: Date)
    ensures LongDate(d) == MonthNames[d.month] + [' '] + (Ordinal(d.day) + [','] + ([' '] + Decimal(EraYear(d.year))))
  {
  }

  /** Cutting two strings at the first occurrence of a separator neither prefix
      contains gives equal prefixes and equal rests. */
  lemma SplitAtSeparator(x1: string, y1: string, x2: string, y2: string, c: char)
    requires c !in x1 && c !in x2
    requires x1 + [c] + y1 == x2 + [c] + y2
    ensures x1 == x2 && y1 == y2
  {
    var s := x1 + [c] + y1;
    FirstIndexAfter(x1, y1, c);
    FirstIndexAfter(x2, y2, c);
    assert x1 == s[..|x1|] == x2;
    assert y1 == s[|x1| + 1..] == y2;
  }

  /** The position of the first c in s, or |s| when there is none. */
  function FirstIndex(s: string, c: char): nat {
    if s == [] || s[0] == c then 0 else 1 + FirstIndex(s[1..], c)
  }

  lemma {:induction false} FirstIndexAfter(x: string, y: string, c: char)
    requires c !in x
    ensures FirstIndex(x + [c] + y, c) == |x|
    decreases |x|
  {
    if x != [] {
      assert (x + [c] + y)[1..] == x[1..] + [c] + y;
      FirstIndexAfter(x[1..], y, c);
    }
  }

  lemma MonthNameFacts(k: MonthIndex)
    ensures ' ' !in MonthNames[k]
  {
  }

  lemma MonthNamesDistinct(i: MonthIndex, j: MonthIndex)
    requires MonthNames[i] == MonthNames[j]
    ensures i == j
  {
  }

  lemma OrdinalHasNoComma(n: nat)
    ensures ',' !in Ordinal(n)
  {
    var s := Ordinal(n);
    forall i | 0 <= i < |s|
      ensures s[i] != ','
    {
      if i < |s| - 2 {
        assert s[i] == Decimal(n)[i];
      } else {
        assert s[i] == OrdinalSuffix(n)[i - (|s| - 2)];
      }
    }
  }

  /** The English ordinal: the number followed by its suffix. */
  function Ordinal(n: nat): (s: string)
    ensures |s| > 2 && s[..|s| - 2] == Decimal(n) && s[|s| - 2..] == OrdinalSuffix(n)
  {
    var s := Decimal(n) + OrdinalSuffix(n);
    assert s[..|s| - 2] == Decimal(n) && s[|s| - 2..] == OrdinalSuffix(n);
    s
  }

  /** "st", "nd" and "rd" after a last digit 1, 2 or 3, except in 11, 12 and 13
      (of every hundred); "th" otherwise. */
  function OrdinalSuffix(n: nat): (suffix: string)
    ensures |suffix| == 2
    ensures suffix == "st" <==> n % 10 == 1 && n % 100 != 11
    ensures suffix == "nd" <==> n % 10 == 2 && n % 100 != 12
    ensures suffix == "rd" <==> n % 10 == 3 && n % 100 != 13
  {
    var rem100 := n % 100;
    if rem100 > 20 || rem100 < 10 then
      (if rem100 % 10 == 1 then "st" else if rem100 % 10 == 2 then "nd" else if rem100 % 10 == 3 then "rd" else "th")
    else "th"
  }

  lemma OrdinalExamples()
    ensures OrdinalSuffix(1) == "st" && OrdinalSuffix(2) == "nd" && OrdinalSuffix(3) == "rd"
    ensures OrdinalSuffix(4) == "th" && OrdinalSuffix(11) == "th" && OrdinalSuffix(12) == "th"
    ensures OrdinalSuffix(13) == "th" && OrdinalSuffix(21) == "st" && OrdinalSuffix(22) == "nd"
    ensures OrdinalSuffix(23) == "rd" && OrdinalSuffix(31) == "st"
  {
  }

  /** The button label (`getDisplayValue`). */
  function DisplayValue(value: Option<Instant>): (text: string)
    ensures value.Some? ==> ',' in text
    ensures text == "Select date" <==> value.None?
  {
    match value
    case None => "Select date"
    case Some(i) => LongDate(i.date)
  }

  /** The label is the placeholder exactly when there is no value. */
  lemma DisplayValueIsPlaceholderIffNoValue(value: Option<Instant>)
    ensures DisplayValue(value) == "Select date" <==> value.None?
  {
    if value.Some? {
      var d := value.value.date;
      var a := MonthNames[d.month] + " " + Ordinal(d.day);
      var s := LongDate(d);
      assert s == a + ", " + Decimal(EraYear(d.year));
      assert s[|a|] == ',';
      assert forall k :: 0 <= k < |"Select date"| ==> "Select date"[k] != ',';
    }
  }

  /** The shown month after a step of k months. */
  function StepMonth(current: Instant, k: int): (r: Instant)
    ensures MonthOf(r.date) == ShiftMonths(MonthOf(current.date), k)
    ensures r.ms == current.ms
  {
    Instant(AddMonths(current.date, k), current.ms)
  }

  /** Next after Prev (and Prev after Next) shows the same month again. */
  lemma PrevNextSameMonth(current: Instant)
    ensures MonthOf(StepMonth(StepMonth(current, -1), 1).date) == MonthOf(current.date)
    ensures MonthOf(StepMonth(StepMonth(current, 1), -1).date) == MonthOf(current.date)
  {
    ShiftMonthsInverse(MonthOf(current.date), 1);
  }

  /** The day is clamped on the way, so only the month is restored: 31 March 2024
      goes back to 29 February and forward to 29 March. */
  lemma PrevNextMayMoveTheDay()
    ensures StepMonth(StepMonth(Instant(CivilDate(2024, 2, 31), 0), -1), 1) == Instant(CivilDate(2024, 2, 29), 0)
  {
    var a := StepMonth(Instant(CivilDate(2024, 2, 31), 0), -1);
    assert a.date == CivilDate(2024, 1, 29);
  }

  /** The Prev (Next) button is disabled when a minimum (maximum) exists whose month
      index equals the shown month's; the years are not compared. Both buttons use
      this one test, with the minimum as the bound of Prev and the maximum as that
      of Next. */
  predicate BoundMonthDisabled(current: Instant, bound: Option<Instant>)
    ensures bound.Some? && MonthOf(current.date) == MonthOf(bound.value.date) ==> BoundMonthDisabled(current, bound)
    ensures BoundMonthDisabled(current, bound) ==> bound.Some?
  {
    bound.Some? && current.date.month == bound.value.date.month
  }

  /** A minimum in March 2024 disables Prev in March 2025, and leaves it enabled in
      February 2024, a month that lies wholly before the minimum. */
  lemma PrevDisabledComparesMonthOnly()
    ensures BoundMonthDisabled(Instant(CivilDate(2025, 2, 1), 0), Some(Instant(CivilDate(2024, 2, 10), 0)))
    ensures !BoundMonthDisabled(Instant(CivilDate(2024, 1, 1), 0), Some(Instant(CivilDate(2024, 2, 10), 0)))
  {
  }

  /** The picker's state; `reported` are the dates passed to `onChange` so far. */
  class DatePickerState {
    const value: Option<Instant>
    const minDate: Option<Instant>
    const maxDate: Option<Instant>
    const notifies: bool
    var currentDate: Instant
    var isOpen: bool
    var reported: seq<Instant>

    /** `useState(value || new Date())`, closed; `now` is the clock at mount. */
    constructor(value: Option<Instant>, minDate: Option<Instant>, maxDate: Option<Instant>,
                notifies: bool, now: Instant)
      ensures this.value == value && this.minDate == minDate && this.maxDate == maxDate
      ensures this.notifies == notifies
      ensures currentDate == value.GetOr(now) && !isOpen && reported == []
    {
      this.value := value;
      this.minDate := minDate;
      this.maxDate := maxDate;
      this.notifies := notifies;
      currentDate := value.GetOr(now);
      isOpen := false;
      reported := [];
    }

    /** `daysInMonth` of the shown month. */
    function DaysInShownMonth(): (n: int)
      reads this
      ensures 28 <= n <= 31
    {
      DaysInMonth(currentDate.date.year, currentDate.date.month)
    }

    /** `firstDayOfMonth` of the shown month. */
    function FirstDayOfShownMonth(): (w: int)
      reads this
      ensures 0 <= w < 7
    {
      FirstWeekday(currentDate.date.year, currentDate.date.month)
    }

    /** The grid as rendered at instant `now`. */
    function Grid(now: Instant): seq<DayCell>
      reads this
    {
      MonthGrid(MonthOf(currentDate.date), value, now, minDate, maxDate)
    }

    method ToggleOpen()
      modifies this`isOpen
      ensures isOpen == !old(isOpen)
    {
      isOpen := !isOpen;
    }

    /** A click outside, or the Apply button: the dropdown closes. */
    method Close()
      modifies this`isOpen
      ensures !isOpen
    {
      isOpen := false;
    }

    /** `handlePrevMonth`: `subMonths(prev, 1)`. */
    method HandlePrevMonth()
      modifies this`currentDate
      ensures currentDate == StepMonth(old(currentDate), -1)
    {
      currentDate := StepMonth(currentDate, -1);
    }

    /** `handleNextMonth`: `addMonths(prev, 1)`. */
    method HandleNextMonth()
      modifies this`currentDate
      ensures currentDate == StepMonth(old(currentDate), 1)
    {
      currentDate := StepMonth(currentDate, 1);
    }

    /** A click on the Prev arrow, which does nothing while the arrow is disabled. */
    method ClickPrev()
      requires isOpen
      modifies this`currentDate
      ensures currentDate == if BoundMonthDisabled(old(currentDate), minDate) then old(currentDate)
                             else StepMonth(old(currentDate), -1)
    {
      if !BoundMonthDisabled(currentDate, minDate) {
        HandlePrevMonth();
      }
    }

    /** A click on the Next arrow. */
    method ClickNext()
      requires isOpen
      modifies this`currentDate
      ensures currentDate == if BoundMonthDisabled(old(currentDate), maxDate) then old(currentDate)
                             else StepMonth(old(currentDate), 1)
    {
      if !BoundMonthDisabled(currentDate, maxDate) {
        HandleNextMonth();
      }
    }

    /** `handleDateSelect`: report the date, close. */
    method HandleDateSelect(date: Instant)
      modifies this`reported, this`isOpen
      ensures reported == old(reported) + (if notifies then [date] else [])
      ensures !isOpen
    {
      if notifies {
        reported := reported + [date];
      }
      isOpen := false;
    }

    /** A click on the button of day `day`: midnight of that day is reported unless
        the day is disabled, in which case nothing happens. */
    method ClickDay(day: int)
      requires isOpen && 1 <= day <= DaysInShownMonth()
      modifies this`reported, this`isOpen
      ensures var date := Midnight(CivilDate(currentDate.date.year, currentDate.date.month, day));
        if IsDateDisabled(date, minDate, maxDate) then reported == old(reported) && isOpen
        else reported == old(reported) + (if notifies then [date] else []) && !isOpen
    {
      var date := Midnight(CivilDate(currentDate.date.year, currentDate.date.month, day));
      if !IsDateDisabled(date, minDate, maxDate) {
        HandleDateSelect(date);
      }
    }

    /** `handleTodayClick`: midnight of today is reported and shown, and the dropdown closes. */
    method HandleTodayClick(now: Instant)
      modifies this`reported, this`currentDate, this`isOpen
      ensures reported == old(reported) + (if notifies then [Midnight(now.date)] else [])
      ensures currentDate == Midnight(now.date) && !isOpen
    {
      var today := Midnight(now.date);
      if notifies {
        reported := reported + [today];
      }
      currentDate := today;
      isOpen := false;
    }

    /** A click on "Today", disabled when the current instant itself is disabled. */
    method ClickToday(now: Instant)
      requires isOpen
      modifies this`reported, this`currentDate, this`isOpen
      ensures IsDateDisabled(now, minDate, maxDate) ==>
        reported == old(reported) && currentDate == old(currentDate) && isOpen
      ensures !IsDateDisabled(now, minDate, maxDate) ==>
        reported == old(reported) + (if notifies then [Midnight(now.date)] else [])
        && currentDate == Midnight(now.date) && !isOpen
    {
      if !IsDateDisabled(now, minDate, maxDate) {
        HandleTodayClick(now);
      }
    }
  }
}
