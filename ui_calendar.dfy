/// The generic calendar widget: a month shown from its first day, stepped one
/// month at a time, rendered as leading empty cells and one button per day.
module UiCalendar {
  import opened Base
  import opened Dates

  /** One cell of the rendered grid. */
  datatype CalendarCell = Empty | DayCell(day: int, date: Date, isToday: bool, isSelected: bool)

  /** The button of day `day` of month `ym`, rendered at instant `now`. Dates are
      compared by `toDateString`, that is by calendar day. */
  function CellFor(ym: YearMonth, day: int, selected: Option<Instant>, now: Instant): (c: CalendarCell)
    requires 1 <= day <= DaysInMonth(ym.year, ym.month)
    ensures c.DayCell? && c.day == day && c.date == CivilDate(ym.year, ym.month, day)
    ensures c.isToday <==> now.date == c.date
    ensures c.isSelected <==> selected.Some? && selected.value.date == c.date
  {
    var date: Date := CivilDate(ym.year, ym.month, day);
    DayCell(day, date, date == now.date, selected.Some? && selected.value.date == date)
  }

  /** Only the cell of the selected day is marked: two marked cells are the same day. */
  lemma AtMostOneSelected(ym: YearMonth, selected: Option<Instant>, now: Instant, d1: int, d2: int)
    requires 1 <= d1 <= DaysInMonth(ym.year, ym.month) && 1 <= d2 <= DaysInMonth(ym.year, ym.month)
    requires CellFor(ym, d1, selected, now).isSelected && CellFor(ym, d2, selected, now).isSelected
    ensures d1 == d2
  {
    assert CellFor(ym, d1, selected, now).date == CellFor(ym, d2, selected, now).date;
  }

  /** Without a selection no cell is marked. */
  lemma NothingSelectedWithoutSelection(ym: YearMonth, now: Instant, d: int)
    requires 1 <= d <= DaysInMonth(ym.year, ym.month)
    ensures !CellFor(ym, d, None, now).isSelected
  {
  }

  /** Midnight on the first of month `ym`: `new Date(year, month)`. */
  function FirstOfMonth(ym: YearMonth): (r: Instant)
    ensures MonthOf(r.date) == ym && r.date.day == 1 && r.ms == 0
  {
    Midnight(CivilDate(ym.year, ym.month, 1))
  }

  /** Stepping back and then forward lands on the first of the month one started in,
      and so does stepping forward and then back. */
  lemma PreviousNextInverse(current: Instant)
    ensures var ym := MonthOf(current.date);
      FirstOfMonth(ShiftMonths(MonthOf(FirstOfMonth(ShiftMonths(ym, -1)).date), 1)) == FirstOfMonth(ym)
      && FirstOfMonth(ShiftMonths(MonthOf(FirstOfMonth(ShiftMonths(ym, 1)).date), -1)) == FirstOfMonth(ym)
  {
    ShiftMonthsInverse(MonthOf(current.date), 1);
  }

  /** The widget's state; `selections` are the dates passed to `onSelect` so far. */
  class CalendarState {
    const selected: Option<Instant>
    const notifies: bool
    var currentDate: Instant
    var selections: seq<Instant>

    /** `useState(new Date())`; `now` is the clock at mount. */
    constructor(selected: Option<Instant>, notifies: bool, now: Instant)
      ensures this.selected == selected && this.notifies == notifies
      ensures currentDate == now && selections == []
    {
      this.selected := selected;
      this.notifies := notifies;
      currentDate := now;
      selections := [];
    }

    function ShownMonth(): YearMonth
      reads this
    {
      MonthOf(currentDate.date)
    }

    /** `previousMonth`: midnight on the first of the month before. */
    method PreviousMonth()
      modifies this`currentDate
      ensures ShownMonth() == ShiftMonths(old(ShownMonth()), -1)
      ensures currentDate == FirstOfMonth(ShownMonth())
    {
      currentDate := FirstOfMonth(ShiftMonths(ShownMonth(), -1));
    }

    /** `nextMonth`: midnight on the first of the month after. */
    method NextMonth()
      modifies this`currentDate
      ensures ShownMonth() == ShiftMonths(old(ShownMonth()), 1)
      ensures currentDate == FirstOfMonth(ShownMonth())
    {
      currentDate := FirstOfMonth(ShiftMonths(ShownMonth(), 1));
    }

    /** `renderCalendarDays` at instant `now`: one empty cell per weekday before the
        1st, then the buttons of days 1 .. the month's length, in order. */
    method RenderCalendarDays(now: Instant) returns (days: seq<CalendarCell>)
      ensures var ym := ShownMonth();
        var startDay, totalDays := FirstWeekday(ym.year, ym.month), DaysInMonth(ym.year, ym.month);
        |days| == startDay + totalDays
        && (forall i :: 0 <= i < startDay ==> days[i] == Empty)
        && (forall i :: startDay <= i < |days| ==> days[i] == CellFor(ym, i - startDay + 1, selected, now))
    {
      var ym := MonthOf(currentDate.date);
      var totalDays := DaysInMonth(ym.year, ym.month);
      var startDay := FirstWeekday(ym.year, ym.month);
      days := [];
      var i := 0;
      while i < startDay
        invariant 0 <= i <= startDay
        invariant |days| == i
        invariant forall k :: 0 <= k < i ==> days[k] == Empty
      {
        days := days + [Empty];
        i := i + 1;
      }
      var day := 1;
      while day <= totalDays
        invariant 1 <= day <= totalDays + 1
        invariant |days| == startDay + day - 1
        invariant forall k :: 0 <= k < startDay ==> days[k] == Empty
        invariant forall k :: startDay <= k < |days| ==> days[k] == CellFor(ym, k - startDay + 1, selected, now)
      {
        days := days + [CellFor(ym, day, selected, now)];
        day := day + 1;
      }
    }

    /** A click on the button of day `day`: midnight of that day goes to `onSelect`. */
    method ClickDay(day: int)
      requires 1 <= day <= DaysInMonth(currentDate.date.year, currentDate.date.month)
      modifies this`selections
      ensures selections == old(selections)
        + (if notifies then [Midnight(CivilDate(currentDate.date.year, currentDate.date.month, day))] else [])
    {
      if notifies {
        selections := selections + [Midnight(CivilDate(currentDate.date.year, currentDate.date.month, day))];
      }
    }
  }

  /** The day cells of a rendered grid are numbered 1, 2, 3, .. and each one sits
      under its weekday in the Su..Sa header. */
  lemma RenderedColumns(ym: YearMonth, selected: Option<Instant>, now: Instant, days: seq<CalendarCell>, i: int)
    requires var startDay := FirstWeekday(ym.year, ym.month);
      |days| == startDay + DaysInMonth(ym.year, ym.month)
      && forall k :: startDay <= k < |days| ==> days[k] == CellFor(ym, k - startDay + 1, selected, now)
    requires FirstWeekday(ym.year, ym.month) <= i < |days|
    ensures days[i].DayCell?
    ensures i % 7 == Weekday(ym.year, ym.month, days[i].day)
    ensures i + 1 < |days| ==> days[i + 1].DayCell? && days[i + 1].day == days[i].day + 1
  {
    WeekdayOfDay(ym.year, ym.month, days[i].day);
  }
}
