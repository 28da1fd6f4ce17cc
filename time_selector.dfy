/// The time dropdown of the search bar: twelve specific hours from 09:00 to
/// 20:00 and three named periods, a label for the current value, and the
/// selection it reports to its owner when an option is clicked.
module TimeSelector {
  import opened Base

  datatype TimeRange = TimeRange(start: string, end: string)

  /** What the dropdown reports: a specific hour or a period. */
  datatype TimeSelection = Specific(time: string) | Period(range: TimeRange)

  /** The `value` property as the component receives it. SearchBar hands it a
      selection or nothing; the search page hands it the raw `time` query
      string, which the component then reads as if it were a selection. */
  datatype TimeProp = Absent | Selected(selection: TimeSelection) | Text(text: string)

  datatype SelectionType = SpecificType | PeriodType

  datatype TimePeriod = TimePeriod(name: string, range: TimeRange)

  const TimePeriods: seq<TimePeriod> := [
    TimePeriod("Morning", TimeRange("09:00", "12:00")),
    TimePeriod("Afternoon", TimeRange("12:00", "16:00")),
    TimePeriod("Evening", TimeRange("16:00", "22:00"))
  ]

  /** `${hour.toString().padStart(2, '0')}:00`. */
  function HourLabel(hour: nat): string {
    PadStart(Decimal(hour), 2) + ":00"
  }

  /** `Array.from({ length: count }, (_, i) => label of hour from + i)`. */
  function HourLabels(from: nat, count: nat): (r: seq<string>)
    ensures |r| == count
    ensures forall i :: 0 <= i < count ==> r[i] == HourLabel(from + i)
    decreases count
  {
    if count == 0 then []
    else
      var rest := HourLabels(from + 1, count - 1);
      assert forall i :: 1 <= i < count ==> ([HourLabel(from)] + rest)[i] == rest[i - 1];
      [HourLabel(from)] + rest
  }

  const SpecificTimes: seq<string> := HourLabels(9, 12)

  /** Minutes since midnight of a 24-hour "HH:MM" string; None for anything else. */
  function ClockMinutes(t: string): (r: Option<int>)
    ensures r.Some? ==> 0 <= r.value < 24 * 60
  {
    if |t| == 5 && t[2] == ':' && AllDigits(t[..2]) && AllDigits(t[3..])
       && Value(t[..2]) < 24 && Value(t[3..]) < 60
    then Some(Value(t[..2]) * 60 + Value(t[3..]))
    else None
  }

  /** The option an hour label reads back as: that hour, on the minute. */
  lemma HourLabelMinutes(hour: nat)
    requires hour < 24
    ensures |HourLabel(hour)| == 5
    ensures ClockMinutes(HourLabel(hour)) == Some(hour * 60)
  {
    assert Pow10(2) == 100;
    PaddedDecimal(hour, 2);
    var t := HourLabel(hour);
    assert t[..2] == PadStart(Decimal(hour), 2);
    assert t[3..] == "00";
    assert Value("00") == 0;
  }

  /** The specific times are the whole hours 09:00 .. 20:00, in increasing order. */
  lemma SpecificTimesAreHours()
    ensures |SpecificTimes| == 12
    ensures forall i :: 0 <= i < 12 ==> ClockMinutes(SpecificTimes[i]) == Some((i + 9) * 60)
  {
    forall i | 0 <= i < 12
      ensures ClockMinutes(SpecificTimes[i]) == Some((i + 9) * 60)
    {
      HourLabelMinutes(i + 9);
    }
  }

  /** So no hour is offered twice. */
  lemma SpecificTimesDistinct()
    ensures forall i, j :: 0 <= i < j < |SpecificTimes| ==> SpecificTimes[i] != SpecificTimes[j]
  {
    SpecificTimesAreHours();
    forall i, j | 0 <= i < j < |SpecificTimes|
      ensures SpecificTimes[i] != SpecificTimes[j]
    {
      assert ClockMinutes(SpecificTimes[i]) != ClockMinutes(SpecificTimes[j]);
    }
  }

  /** "HH:MM" written with four digit characters. */
  lemma ClockOfDigits(h1: char, h0: char, m1: char, m0: char)
    requires IsDigit(h1) && IsDigit(h0) && IsDigit(m1) && IsDigit(m0)
    requires DigitValue(h1) * 10 + DigitValue(h0) < 24 && DigitValue(m1) * 10 + DigitValue(m0) < 60
    ensures ClockMinutes([h1, h0, ':', m1, m0])
      == Some((DigitValue(h1) * 10 + DigitValue(h0)) * 60 + DigitValue(m1) * 10 + DigitValue(m0))
  {
    var t := [h1, h0, ':', m1, m0];
    assert t[..2] == [h1, h0] && [h1, h0][..1] == [h1] && [h1][..0] == [];
    assert t[3..] == [m1, m0] && [m1, m0][..1] == [m1] && [m1][..0] == [];
    assert Value([h1]) == DigitValue(h1);
    assert Value([h1, h0]) == DigitValue(h1) * 10 + DigitValue(h0);
    assert Value([m1]) == DigitValue(m1);
    assert Value([m1, m0]) == DigitValue(m1) * 10 + DigitValue(m0);
  }

  /** The periods are 09:00-12:00, 12:00-16:00 and 16:00-22:00: each one non-empty,
      each starting where the previous ends. */
  lemma PeriodsAreContiguous()
    ensures forall k :: 0 <= k < |TimePeriods| ==>
      ClockMinutes(TimePeriods[k].range.start).Some? && ClockMinutes(TimePeriods[k].range.end).Some?
      && ClockMinutes(TimePeriods[k].range.start).value < ClockMinutes(TimePeriods[k].range.end).value
    ensures forall k :: 0 < k < |TimePeriods| ==> TimePeriods[k].range.start == TimePeriods[k - 1].range.end
    ensures ClockMinutes(TimePeriods[0].range.start) == Some(9 * 60)
    ensures ClockMinutes(TimePeriods[2].range.end) == Some(22 * 60)
  {
    assert ClockMinutes("09:00") == Some(540) by { ClockOfDigits('0', '9', '0', '0'); }
    assert ClockMinutes("12:00") == Some(720) by { ClockOfDigits('1', '2', '0', '0'); }
    assert ClockMinutes("16:00") == Some(960) by { ClockOfDigits('1', '6', '0', '0'); }
    assert ClockMinutes("22:00") == Some(1320) by { ClockOfDigits('2', '2', '0', '0'); }
  }

  /** `TIME_PERIODS.find(p => same start and same end)?.label`. */
  function PeriodLabel(r: TimeRange): (found: Option<string>)
    ensures found.Some? <==> exists k :: 0 <= k < |TimePeriods| && TimePeriods[k].range == r
    ensures found.Some? ==> exists k :: 0 <= k < |TimePeriods| && TimePeriods[k] == TimePeriod(found.value, r)
  {
    if r == TimePeriods[0].range then Some(TimePeriods[0].name)
    else if r == TimePeriods[1].range then Some(TimePeriods[1].name)
    else if r == TimePeriods[2].range then Some(TimePeriods[2].name)
    else None
  }

  /** The text on the dropdown's button (`getDisplayValue`). A string value is
      read as if it were a selection: "" is falsy and shows the placeholder, but
      any other string has neither `type` nor `value`, so it is taken for a
      period and reading `.start` of `undefined` throws while rendering. */
  function DisplayValue(value: TimeProp): (r: Result<string>)
    ensures r.Err? <==> value.Text? && value.text != ""
    ensures value.Absent? || value == Text("") ==> r == Ok("Select time")
    ensures value.Selected? && value.selection.Specific? ==> r == Ok(value.selection.time)
  {
    match value
    case Absent => Ok("Select time")
    case Text(s) => if s == "" then Ok("Select time") else Err("TypeError")
    case Selected(Specific(t)) => Ok(t)
    case Selected(Period(r)) =>
      match PeriodLabel(r)
      case Some(name) => Ok(name + " (" + r.start + " - " + r.end + ")")
      case None => Ok("Select time")
  }

  /** A period picked from the list is shown with its name and its bounds. */
  lemma DisplayOfListedPeriod(k: nat)
    requires k < |TimePeriods|
    ensures DisplayValue(Selected(Period(TimePeriods[k].range)))
      == Ok(TimePeriods[k].name + " (" + TimePeriods[k].range.start + " - " + TimePeriods[k].range.end + ")")
  {
  }

  /** A period that is not one of the three listed ones is not named. */
  lemma DisplayOfUnlistedPeriod(r: TimeRange)
    requires forall k :: 0 <= k < |TimePeriods| ==> TimePeriods[k].range != r
    ensures DisplayValue(Selected(Period(r))) == Ok("Select time")
  {
  }

  /** On the search page the dropdown is given a string. Nothing reads it as a
      selection: no button is lit and the dropdown opens on the specific hours. */
  lemma TextValueSelectsNothing(s: string)
    ensures forall t :: !SpecificHighlighted(Text(s), t)
    ensures forall p :: !PeriodHighlighted(Text(s), p)
    ensures InitialType(Text(s)) == SpecificType
  {
  }

  /** The empty string shows the placeholder; any other string makes the button's
      label throw, so the component cannot be drawn. */
  lemma TextValueCrashes(s: string)
    ensures DisplayValue(Text(s)) == (if s == "" then Ok("Select time") else Err("TypeError"))
    ensures DisplayValue(Text("10:00")).Err?
  {
  }

  /** `value?.type || 'specific'`: the tab the dropdown opens on. */
  function InitialType(value: TimeProp): (t: SelectionType)
    ensures t == PeriodType <==> value.Selected? && value.selection.Period?
  {
    match value
    case Selected(Period(_)) => PeriodType
    case _ => SpecificType
  }

  /** A specific-time button is highlighted when the value is that very time. */
  predicate SpecificHighlighted(value: TimeProp, time: string)
    ensures SpecificHighlighted(value, time) ==> DisplayValue(value) == Ok(time)
    ensures SpecificHighlighted(value, time) ==> InitialType(value) == SpecificType
  {
    value.Selected? && value.selection.Specific? && value.selection.time == time
  }

  /** A period button is highlighted when the value is a period with the same start;
      its end is not compared. */
  predicate PeriodHighlighted(value: TimeProp, p: TimePeriod)
    ensures PeriodHighlighted(value, p) ==> InitialType(value) == PeriodType
    ensures PeriodHighlighted(value, p) && p in TimePeriods ==>
      DisplayValue(value) == Ok("Select time") || DisplayValue(value) == Ok(p.name + " (" + p.range.start + " - " + p.range.end + ")")
  {
    value.Selected? && value.selection.Period? && value.selection.range.start == p.range.start
  }

  /** At most one period button is lit, since the three starts differ. */
  lemma AtMostOnePeriodHighlighted(value: TimeProp, j: nat, k: nat)
    requires j < k < |TimePeriods|
    ensures !(PeriodHighlighted(value, TimePeriods[j]) && PeriodHighlighted(value, TimePeriods[k]))
  {
  }

  /** Only the start is compared: 09:00-10:00 lights "Morning" although the
      button's own label does not name it. */
  lemma HighlightComparesStartOnly()
    ensures PeriodHighlighted(Selected(Period(TimeRange("09:00", "10:00"))), TimePeriods[0])
    ensures DisplayValue(Selected(Period(TimeRange("09:00", "10:00")))) == Ok("Select time")
  {
  }

  /** The dropdown's own state. `value` and whether an `onChange` was supplied are
      fixed by the owner; the selections it reported so far are `reported`. */
  class TimeSelectorState {
    const value: TimeProp
    const notifies: bool
    var isOpen: bool
    var selectionType: SelectionType
    var reported: seq<TimeSelection>

    constructor(value: TimeProp, notifies: bool)
      ensures this.value == value && this.notifies == notifies
      ensures !isOpen && selectionType == InitialType(value) && reported == []
    {
      this.value := value;
      this.notifies := notifies;
      isOpen := false;
      selectionType := InitialType(value);
      reported := [];
    }

    /** The button that opens and closes the dropdown. */
    method ToggleOpen()
      modifies this`isOpen
      ensures isOpen == !old(isOpen)
    {
      isOpen := !isOpen;
    }

    /** A click outside the component closes it. */
    method ClickOutside()
      modifies this`isOpen
      ensures !isOpen
    {
      isOpen := false;
    }

    /** The "Specific Time" / "Time Period" tabs inside the open dropdown. */
    method ChooseType(t: SelectionType)
      requires isOpen
      modifies this`selectionType
      ensures selectionType == t
    {
      selectionType := t;
    }

    /** `handleSpecificTimeSelect` for the i-th hour button. */
    method ClickSpecificTime(i: nat)
      requires isOpen && selectionType == SpecificType && i < |SpecificTimes|
      modifies this`isOpen, this`reported
      ensures !isOpen
      ensures reported == old(reported) + (if notifies then [Specific(SpecificTimes[i])] else [])
    {
      if notifies {
        reported := reported + [Specific(SpecificTimes[i])];
      }
      isOpen := false;
    }

    /** `handlePeriodSelect` for the k-th period button. */
    method ClickPeriod(k: nat)
      requires isOpen && selectionType == PeriodType && k < |TimePeriods|
      modifies this`isOpen, this`reported
      ensures !isOpen
      ensures reported == old(reported) + (if notifies then [Period(TimePeriods[k].range)] else [])
    {
      if notifies {
        reported := reported + [Period(TimePeriods[k].range)];
      }
      isOpen := false;
    }
  }

  /** The selections the dropdown can report: one of the listed hours or periods. */
  predicate Offered(sel: TimeSelection) {
    if sel.Specific? then sel.time in SpecificTimes else PeriodLabel(sel.range).Some?
  }
}
