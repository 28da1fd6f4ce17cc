/// The search bar component: it keeps a location, a date and a time selection,
/// and on "Search" hands its owner three strings; on "Clear Filters" it empties
/// itself and hands over three empty strings. The search page imports it but
/// renders its own pickers instead; the home page uses the hero search.
module SearchBar {
  import opened Base
  import opened Dates
  import opened UrlEncoding
  import opened TimeSelector

  /** The three strings of an `onSearch(location, date, timeSlot)` call. */
  datatype SearchArgs = SearchArgs(location: string, date: string, timeSlot: string)

  /** The date argument: `format(date, 'yyyy-MM-dd')`, or "" without a date. */
  function DateArgument(date: Option<Instant>): (arg: string)
    ensures arg == "" <==> date.None?
    ensures date.Some? && 1 <= date.value.date.year <= 9999 ==> ParseFullDate(arg) == Some(date.value.date)
  {
    match date
    case None => ""
    case Some(i) =>
      assert 1 <= i.date.year <= 9999 ==> ParseFullDate(FormatYmd(i.date)) == Some(i.date) by {
        if 1 <= i.date.year <= 9999 {
          FormatYmdRoundTrip(i.date);
        }
      }
      FormatYmd(i.date)
  }

  /** The time argument: the hour of a specific time, "start-end" of a period,
      "" without a selection. */
  function TimeArgument(sel: Option<TimeSelection>): (arg: string)
    ensures arg == "" <==> sel.None? || sel == Some(Specific(""))
    ensures sel.Some? && sel.value.Period? ==> |arg| > |sel.value.range.start| && arg[|sel.value.range.start|] == '-'
  {
    match sel
    case None => ""
    case Some(Specific(t)) => t
    case Some(Period(r)) => r.start + "-" + r.end
  }

  /** A picked date is sent as an RFC 3339 full-date that reads back as the same
      day (for the years 1 to 9999), and no character of it needs escaping in a URL. */
  lemma DateArgumentReadsBack(i: Instant)
    requires 1 <= i.date.year <= 9999
    ensures DateArgument(Some(i)) != ""
    ensures ParseFullDate(DateArgument(Some(i))) == Some(i.date)
    ensures Encode(DateArgument(Some(i))) == DateArgument(Some(i))
  {
    FormatYmdRoundTrip(i.date);
    FormatYmdUnreserved(i.date);
  }

  lemma FormatYmdUnreserved(d: Date)
    ensures Encode(FormatYmd(d)) == FormatYmd(d)
  {
    var ys := PadStart(Decimal(EraYear(d.year)), 4);
    var ms := PadStart(Decimal(d.month + 1), 2);
    var ds := PadStart(Decimal(d.day), 2);
    PadStartDigits(Decimal(EraYear(d.year)), 4);
    PadStartDigits(Decimal(d.month + 1), 2);
    PadStartDigits(Decimal(d.day), 2);
    YmdUnreserved(ys, ms, ds);
    assert FormatYmd(d) == ys + "-" + ms + "-" + ds;
    EncodeUnreserved(FormatYmd(d));
  }

  lemma YmdUnreserved(ys: string, ms: string, ds: string)
    requires AllDigits(ys) && AllDigits(ms) && AllDigits(ds)
    ensures AllUnreserved(ys + "-" + ms + "-" + ds)
  {
    DigitsUnreserved(ys);
    DigitsUnreserved(ms);
    DigitsUnreserved(ds);
    UnreservedConcat(ys, "-");
    UnreservedConcat(ys + "-", ms);
    UnreservedConcat(ys + "-" + ms, "-");
    UnreservedConcat(ys + "-" + ms + "-", ds);
  }

  predicate AllUnreserved(s: string) {
    forall i :: 0 <= i < |s| ==> UnreservedChar(s[i])
  }

  lemma DigitsUnreserved(s: string)
    requires AllDigits(s)
    ensures AllUnreserved(s)
  {
    forall i | 0 <= i < |s|
      ensures UnreservedChar(s[i])
    {
      assert IsDigit(s[i]);
    }
  }

  lemma UnreservedConcat(a: string, b: string)
    requires AllUnreserved(a) && (b == "-" || AllUnreserved(b))
    ensures AllUnreserved(a + b)
  {
    forall i | 0 <= i < |a + b|
      ensures UnreservedChar((a + b)[i])
    {
      if i >= |a| {
        assert (a + b)[i] == b[i - |a|];
      }
    }
  }

  /** Every hour and period the time dropdown offers yields a non-empty argument,
      so a chosen time is never dropped on the way to the search page. */
  lemma OfferedTimeArgumentNonEmpty(sel: TimeSelection)
    requires Offered(sel)
    ensures TimeArgument(Some(sel)) != ""
  {
    if sel.Specific? {
      OfferedHourLength(sel.time);
    }
  }

  lemma OfferedHourLength(t: string)
    requires t in SpecificTimes
    ensures |t| == 5
  {
    var i :| 0 <= i < |SpecificTimes| && SpecificTimes[i] == t;
    HourLabelMinutes(i + 9);
  }

  /** Different offered selections give different arguments: the string sent
      determines which option was picked. */
  lemma TimeArgumentInjective(a: TimeSelection, b: TimeSelection)
    requires Offered(a) && Offered(b)
    requires TimeArgument(Some(a)) == TimeArgument(Some(b))
    ensures a == b
  {
    if a.Specific? {
      OfferedHourLength(a.time);
    }
    if b.Specific? {
      OfferedHourLength(b.time);
    }
    if a.Period? && b.Period? {
      var x, y := TimeArgument(Some(a)), TimeArgument(Some(b));
      assert x[..5] == a.range.start && x[6..] == a.range.end;
      assert y[..5] == b.range.start && y[6..] == b.range.end;
    }
  }

  /** The bar's state; `searches` are the `onSearch` calls made so far. */
  class SearchBarState {
    var location: string
    var date: Option<Instant>
    var timeSelection: Option<TimeSelection>
    var searches: seq<SearchArgs>

    /** `useState(initialLocation || "")` and two empty pickers. */
    constructor(initialLocation: Option<string>)
      ensures location == initialLocation.GetOr("")
      ensures date.None? && timeSelection.None? && searches == []
    {
      location := initialLocation.GetOr("");
      date := None;
      timeSelection := None;
      searches := [];
    }

    /** The location picker's `onChange`. */
    method ChangeLocation(value: string)
      modifies this`location
      ensures location == value
    {
      location := value;
    }

    /** The date picker's `onChange`. */
    method ChangeDate(value: Instant)
      modifies this`date
      ensures date == Some(value)
    {
      date := Some(value);
    }

    /** The time dropdown's `onChange`. */
    method ChangeTime(value: TimeSelection)
      modifies this`timeSelection
      ensures timeSelection == Some(value)
    {
      timeSelection := Some(value);
    }

    /** The "Search" button: the pickers are left as they are. */
    method HandleSearch()
      modifies this`searches
      ensures searches == old(searches) + [SearchArgs(location, DateArgument(date), TimeArgument(timeSelection))]
    {
      searches := searches + [SearchArgs(location, DateArgument(date), TimeArgument(timeSelection))];
    }

    /** The "Clear Filters" button. */
    method ClearFilters()
      modifies this`location, this`date, this`timeSelection, this`searches
      ensures location == "" && date.None? && timeSelection.None?
      ensures searches == old(searches) + [SearchArgs("", "", "")]
    {
      location := "";
      date := None;
      timeSelection := None;
      searches := searches + [SearchArgs("", "", "")];
    }
  }
}
