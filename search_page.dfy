/// The search results page (`/search`): the filter engine that narrows the
/// fetched clubs, the navigation that writes a new search into the URL, the
/// handlers of the pickers above the results, and the page's own state.
module SearchPage {
  import opened Base
  import opened Types
  import opened UrlEncoding
  import opened TimeSelector
  import opened SearchBar

  /** The sidebar's filters: facility ids, a minimum rating, a range in km and a location. */
  datatype Filters = Filters(facilities: seq<string>, rating: real, maxRange: nat, location: string)

  /** The filters the page starts with. */
  const DefaultFilters: Filters := Filters([], 0.0, 0, "")

  /** Facility ids of the sidebar to the facility names stored in the database. */
  const FacilityNameMap: map<string, string> := map[
    "changing_rooms" := "Changing Rooms",
    "parking" := "Parking",
    "restaurant" := "Restaurant",
    "equipment_rental" := "Equipment Rental",
    "padel_shop" := "Padel Shop",
    "bike_storage" := "Bike Storage",
    "wheelchair_access" := "Wheelchair Access",
    "charging_points" := "Charging Points"
  ]

  // ------------------------------------------------------------ the predicates

  /** `courts.reduce((max, court) => court.rating > max.rating ? court : max, seed)`. */
  function HighestRated(seed: Court, courts: seq<Court>): (best: Court)
    ensures best == seed || best in courts
    ensures RatingOrZero(best) >= RatingOrZero(seed)
    ensures forall c :: c in courts ==> RatingOrZero(c) <= RatingOrZero(best)
    decreases |courts|
  {
    if courts == [] then seed
    else HighestRated(if RatingOrZero(courts[0]) > RatingOrZero(seed) then courts[0] else seed, courts[1..])
  }

  /** The rating check: with a positive threshold, the best court seeded with the
      first court must reach it. A club without courts does not pass. */
  predicate RatingOk(club: Club, f: Filters)
    ensures f.rating <= 0.0 ==> RatingOk(club, f)
    ensures RatingOk(club, f) && f.rating > 0.0 ==>
      exists i :: 0 <= i < |CourtsOf(club)| && RatingOrZero(CourtsOf(club)[i]) >= f.rating
  {
    var cs := CourtsOf(club);
    f.rating <= 0.0 || (cs != [] && RatingOrZero(HighestRated(cs[0], cs)) >= f.rating)
  }

  /** `filters.facilities.every(id => courtFacilities.has(facilityNameMap[id]))` for one court;
      an id outside the map looks up `undefined`, which no court has. */
  predicate CourtHasAll(c: Court, ids: seq<string>) {
    forall i :: 0 <= i < |ids| ==> ids[i] in FacilityNameMap && FacilityNameMap[ids[i]] in FacilityNames(c)
  }

  /** The facility check: some court offers every selected facility. */
  predicate FacilitiesOk(club: Club, f: Filters)
    ensures |f.facilities| == 0 ==> FacilitiesOk(club, f)
    ensures FacilitiesOk(club, f) ==> forall k :: 0 <= k < |f.facilities| ==> f.facilities[k] in FacilityNameMap
  {
    var cs := CourtsOf(club);
    |f.facilities| == 0 || exists i :: 0 <= i < |cs| && CourtHasAll(cs[i], f.facilities)
  }

  /** The distance check; a missing or zero distance is falsy and skips it. */
  predicate DistanceOk(club: Club, f: Filters)
    ensures club.distance.None? ==> DistanceOk(club, f)
    ensures club.distance.Some? && club.distance.value <= f.maxRange as real ==> DistanceOk(club, f)
  {
    !(f.location != "" && f.maxRange > 0 && club.distance.Some? && club.distance.value != 0.0
      && club.distance.value > f.maxRange as real)
  }

  /** A club is shown when it passes all three checks. */
  predicate Passes(club: Club, f: Filters) {
    RatingOk(club, f) && FacilitiesOk(club, f) && DistanceOk(club, f)
  }

  /** `applyFilters`, with a club that has no courts dropped by a rating filter. */
  function ApplyFilters(clubs: seq<Club>, f: Filters): (r: seq<Club>)
    ensures |r| <= |clubs|
    ensures forall c :: c in r <==> c in clubs && Passes(c, f)
    ensures (forall i :: 0 <= i < |clubs| ==> Passes(clubs[i], f)) ==> r == clubs
  {
    var r := Filter(clubs, (c: Club) => Passes(c, f));
    assert (forall i :: 0 <= i < |clubs| ==> Passes(clubs[i], f)) ==> r == clubs by {
      if forall i :: 0 <= i < |clubs| ==> Passes(clubs[i], f) {
        FilterKeepsAll(clubs, (c: Club) => Passes(c, f));
      }
    }
    r
  }

  // ------------------------------------------------------ applyFilters as written

  datatype Verdict = Keep | Drop | Fail

  /** What the filter callback does with one club in the code as written: with a
      rating threshold, a club whose court list is empty (or missing) makes the
      reduce return `undefined`, and reading `.rating` of it throws; a missing
      court list also throws in the facility check. */
  function VerdictAsWritten(club: Club, f: Filters): (v: Verdict)
    ensures v != Fail ==> (v == Keep <==> Passes(club, f))
    ensures v == Fail ==> CourtsOf(club) == []
    ensures v == Fail <==> (f.rating > 0.0 && CourtsOf(club) == [])
                           || (f.rating <= 0.0 && |f.facilities| > 0 && club.courts.None?)
  {
    if f.rating > 0.0 && CourtsOf(club) == [] then Fail
    else if !RatingOk(club, f) then Drop
    else if |f.facilities| > 0 && club.courts.None? then Fail
    else if !FacilitiesOk(club, f) then Drop
    else if !DistanceOk(club, f) then Drop
    else Keep
  }

  /** `clubs.filter(...)` as written: the first club that throws aborts the whole call. */
  function ApplyFiltersAsWritten(clubs: seq<Club>, f: Filters): (r: Result<seq<Club>>)
    ensures r.Err? <==> exists i :: 0 <= i < |clubs| && VerdictAsWritten(clubs[i], f) == Fail
    ensures r.Ok? ==> r.value == ApplyFilters(clubs, f)
  {
    if clubs == [] then Ok([])
    else
      var v := VerdictAsWritten(clubs[0], f);
      if v == Fail then Err("TypeError")
      else match ApplyFiltersAsWritten(clubs[1..], f)
        case Err(e) => Err(e)
        case Ok(rest) =>
          assert forall i :: 0 <= i < |clubs| - 1 ==> clubs[1..][i] == clubs[i + 1];
          Ok(if v == Keep then [clubs[0]] + rest else rest)
  }

  /** A rating filter over a club that has no courts throws instead of dropping the club. */
  lemma RatingFilterThrowsOnClubWithoutCourts()
    ensures ApplyFiltersAsWritten([Club("c1", "Empty club", "Utrecht", None, Some([]), None)],
                                  Filters([], 1.0, 0, "")).Err?
    ensures ApplyFilters([Club("c1", "Empty club", "Utrecht", None, Some([]), None)],
                         Filters([], 1.0, 0, "")) == []
  {
    var club := Club("c1", "Empty club", "Utrecht", None, Some([]), None);
    assert VerdictAsWritten([club][0], Filters([], 1.0, 0, "")) == Fail;
  }

  // ---------------------------------------------------------------- properties

  /** The default filters show every club, in the code as written too. */
  lemma DefaultFiltersKeepAll(clubs: seq<Club>)
    ensures ApplyFilters(clubs, DefaultFilters) == clubs
    ensures ApplyFiltersAsWritten(clubs, DefaultFilters) == Ok(clubs)
  {
    FilterKeepsAll(clubs, (c: Club) => Passes(c, DefaultFilters));
  }

  /** The result keeps the clubs that pass, every copy of them, in their original order. */
  lemma ApplyFiltersIsStable(clubs: seq<Club>, f: Filters)
    ensures IsSubsequence(ApplyFilters(clubs, f), clubs)
    ensures forall c :: c in ApplyFilters(clubs, f) <==> c in clubs && Passes(c, f)
    ensures forall c :: multiset(ApplyFilters(clubs, f))[c] == if Passes(c, f) then multiset(clubs)[c] else 0
  {
    FilterIsSubsequence(clubs, (c: Club) => Passes(c, f));
    forall c
      ensures multiset(ApplyFilters(clubs, f))[c] == if Passes(c, f) then multiset(clubs)[c] else 0
    {
      FilterMultiplicity(clubs, (c: Club) => Passes(c, f), c);
    }
  }

  /** With a positive threshold, the reduce finds a court reaching it exactly when one exists. */
  lemma RatingOkMeansSomeCourt(club: Club, f: Filters)
    requires f.rating > 0.0
    ensures RatingOk(club, f) <==>
      exists i :: 0 <= i < |CourtsOf(club)| && RatingOrZero(CourtsOf(club)[i]) >= f.rating
  {
    var cs := CourtsOf(club);
    if cs != [] {
      var best := HighestRated(cs[0], cs);
      if RatingOk(club, f) {
        var i :| 0 <= i < |cs| && cs[i] == best;
      }
      if exists i :: 0 <= i < |cs| && RatingOrZero(cs[i]) >= f.rating {
        var i :| 0 <= i < |cs| && RatingOrZero(cs[i]) >= f.rating;
        assert cs[i] in cs;
      }
    }
  }

  /** Raising the threshold can only remove clubs. */
  lemma RatingOkMonotone(club: Club, f: Filters, lower: real)
    requires 0.0 < lower <= f.rating && RatingOk(club, f)
    ensures RatingOk(club, f.(rating := lower))
  {
  }

  /** A selected id outside the eight known ones matches no court, so every club
      that reaches the facility check is removed. */
  lemma UnknownFacilityExcludes(club: Club, f: Filters, k: nat)
    requires k < |f.facilities| && f.facilities[k] !in FacilityNameMap
    ensures !FacilitiesOk(club, f)
    ensures !Passes(club, f) && VerdictAsWritten(club, f) != Keep
  {
  }

  /** A court with no facility list has none of the selected facilities. */
  lemma CourtWithoutFacilitiesHasNone(c: Court, ids: seq<string>)
    requires c.courtFacilities.None? && |ids| > 0
    ensures !CourtHasAll(c, ids)
  {
    assert FacilityNames(c) == {};
    assert !(ids[0] in FacilityNameMap && FacilityNameMap[ids[0]] in FacilityNames(c));
  }

  /** Only the set of selected ids matters: order and repeats do not. */
  lemma FacilitiesOkDependsOnSetOnly(club: Club, f: Filters, ids: seq<string>)
    requires forall x :: x in ids <==> x in f.facilities
    ensures FacilitiesOk(club, f) == FacilitiesOk(club, f.(facilities := ids))
  {
    var cs := CourtsOf(club);
    if |f.facilities| > 0 {
      assert f.facilities[0] in ids;
    }
    if |ids| > 0 {
      assert ids[0] in f.facilities;
    }
    forall i | 0 <= i < |cs|
      ensures CourtHasAll(cs[i], f.facilities) == CourtHasAll(cs[i], ids)
    {
      if CourtHasAll(cs[i], f.facilities) {
        forall j | 0 <= j < |ids|
          ensures ids[j] in FacilityNameMap && FacilityNameMap[ids[j]] in FacilityNames(cs[i])
        {
          assert ids[j] in ids;
          var k :| 0 <= k < |f.facilities| && f.facilities[k] == ids[j];
        }
      }
      if CourtHasAll(cs[i], ids) {
        forall j | 0 <= j < |f.facilities|
          ensures f.facilities[j] in FacilityNameMap && FacilityNameMap[f.facilities[j]] in FacilityNames(cs[i])
        {
          assert f.facilities[j] in f.facilities;
          var k :| 0 <= k < |ids| && ids[k] == f.facilities[j];
        }
      }
    }
  }

  /** Asking for more facilities can only remove clubs. */
  lemma FacilitiesOkMonotone(club: Club, f: Filters, fewer: seq<string>)
    requires forall x :: x in fewer ==> x in f.facilities
    requires FacilitiesOk(club, f)
    ensures FacilitiesOk(club, f.(facilities := fewer))
  {
    var cs := CourtsOf(club);
    if |fewer| > 0 {
      assert fewer[0] in f.facilities;
      var i :| 0 <= i < |cs| && CourtHasAll(cs[i], f.facilities);
      forall j | 0 <= j < |fewer|
        ensures fewer[j] in FacilityNameMap && FacilityNameMap[fewer[j]] in FacilityNames(cs[i])
      {
        assert fewer[j] in fewer;
        var k :| 0 <= k < |f.facilities| && f.facilities[k] == fewer[j];
      }
    }
  }

  /** A club whose distance is unknown (or zero) is never removed by the range. */
  lemma DistanceOkWithoutDistance(club: Club, f: Filters)
    requires club.distance.None? || club.distance == Some(0.0)
    ensures DistanceOk(club, f)
  {
  }

  /** Without a location or without a range the distance check is off. */
  lemma DistanceOkWithoutRange(club: Club, f: Filters)
    requires f.location == "" || f.maxRange == 0
    ensures DistanceOk(club, f)
  {
  }

  /** Two clubs, a 4-star threshold and parking: only the club with a 4.5 court that has parking stays. */
  lemma TwoClubExample()
    ensures ApplyFiltersAsWritten([ClubA(), ClubB()], Filters(["parking"], 4.0, 0, "")) == Ok([ClubA()])
  {
    var f := Filters(["parking"], 4.0, 0, "");
    var a := ClubA().courts.value[0];
    assert "Parking" in FacilityNames(a) by {
      assert a.courtFacilities.value[0].name == "Parking";
    }
    assert CourtHasAll(CourtsOf(ClubA())[0], f.facilities);
    assert VerdictAsWritten(ClubA(), f) == Keep;
    var b := ClubB().courts.value[0];
    assert HighestRated(b, [b]) == b;
    assert VerdictAsWritten(ClubB(), f) == Drop;
    var clubs := [ClubA(), ClubB()];
    assert clubs[1..] == [ClubB()] && [ClubB()][1..] == [];
    assert ApplyFiltersAsWritten([], f) == Ok([]);
    assert VerdictAsWritten([ClubB()][0], f) == Drop;
    assert ApplyFiltersAsWritten([ClubB()], f) == Ok([]);
    assert VerdictAsWritten(clubs[0], f) == Keep;
    assert [clubs[0]] + [] == [ClubA()];
  }

  function ClubA(): Club {
    Club("a", "Padel Noord", "Amsterdam", None,
      Some([Court("a1", "Court 1", "indoor", Some(30.0), Some(4.5), Some([Facility("f1", "a1", "Parking")]))]), None)
  }

  function ClubB(): Club {
    Club("b", "Padel Zuid", "Amsterdam", None,
      Some([Court("b1", "Court 1", "outdoor", Some(25.0), Some(3.5), Some([Facility("f2", "b1", "Parking")]))]), None)
  }

  // ------------------------------------------------------------ handleSearch

  function NonEmptyParam(name: string, value: string): seq<Param> {
    if value == "" then [] else [(name, value)]
  }

  /** The pairs a search writes: each non-empty argument, in the order location, date, timeSlot. */
  function SearchParams(args: SearchArgs): seq<Param> {
    NonEmptyParam("location", args.location) + NonEmptyParam("date", args.date) + NonEmptyParam("timeSlot", args.timeSlot)
  }

  function SearchUrl(args: SearchArgs): string {
    "/search?" + Serialize(SearchParams(args))
  }

  /** `handleSearch(location, date, timeSlot)`: the URL `router.push` is given. */
  method HandleSearch(args: SearchArgs) returns (url: string)
    ensures url == SearchUrl(args)
  {
    var params: seq<Param> := [];
    if args.location != "" {
      params := SetParam(params, "location", args.location);
    }
    assert params == NonEmptyParam("location", args.location);
    if args.date != "" {
      assert forall i :: 0 <= i < |params| ==> params[i].0 != "date";
      params := SetParam(params, "date", args.date);
    }
    assert params == NonEmptyParam("location", args.location) + NonEmptyParam("date", args.date);
    if args.timeSlot != "" {
      assert forall i :: 0 <= i < |params| ==> params[i].0 != "timeSlot";
      params := SetParam(params, "timeSlot", args.timeSlot);
    }
    assert params == SearchParams(args);
    url := "/search?" + Serialize(params);
  }

  /** `searchParams.get(name) || ''`. */
  function QueryValue(q: seq<Param>, name: string): string {
    Get(q, name).GetOr("")
  }

  /** The query string of the URL parses back to exactly the pairs written. */
  lemma SearchUrlParses(args: SearchArgs)
    ensures |SearchUrl(args)| >= 8 && SearchUrl(args)[..8] == "/search?"
    ensures ParseQuery(SearchUrl(args)[8..]) == Some(SearchParams(args))
  {
    assert SearchUrl(args)[8..] == Serialize(SearchParams(args));
    ParseSerialize(SearchParams(args));
  }

  /** The next page reads each argument back under its own key, and nothing under "time". */
  lemma SearchUrlReadsBack(args: SearchArgs)
    ensures QueryValue(SearchParams(args), "location") == args.location
    ensures QueryValue(SearchParams(args), "date") == args.date
    ensures QueryValue(SearchParams(args), "timeSlot") == args.timeSlot
    ensures Get(SearchParams(args), "time") == None
  {
    var l, d, t := NonEmptyParam("location", args.location), NonEmptyParam("date", args.date),
      NonEmptyParam("timeSlot", args.timeSlot);
    forall name
      ensures Get(SearchParams(args), name)
        == if Get(l, name).Some? then Get(l, name) else if Get(d, name).Some? then Get(d, name) else Get(t, name)
    {
      GetAppend(l + d, t, name);
      GetAppend(l, d, name);
    }
  }

  /** Only non-empty values are written, at most one pair per key. */
  lemma SearchParamsShape(args: SearchArgs)
    ensures |SearchParams(args)| <= 3
    ensures forall i :: 0 <= i < |SearchParams(args)| ==> SearchParams(args)[i].1 != ""
    ensures forall i, j :: 0 <= i < j < |SearchParams(args)| ==> SearchParams(args)[i].0 != SearchParams(args)[j].0
    ensures (args.location != "" && args.date != "" && args.timeSlot != "") ==>
      SearchParams(args) == [("location", args.location), ("date", args.date), ("timeSlot", args.timeSlot)]
  {
  }

  /** The "Clear Filters" button of the page navigates to `/search?` with no parameters. */
  lemma ClearNavigatesToBareSearch()
    ensures SearchUrl(SearchArgs("", "", "")) == "/search?"
  {
  }

  // -------------------------------------------------- the pickers above the results

  /** `String(selection)` of a selection object. */
  const ObjectText: string := "[object Object]"

  /** The location picker's (and the current-location button's) handler as written:
      it forwards the `time` key, which no search writes. */
  function LocationChangeAsWritten(q: seq<Param>, value: string): (a: SearchArgs)
    ensures a.location == value && a.date == QueryValue(q, "date")
    ensures Get(q, "time").None? ==> a.timeSlot == ""
  {
    SearchArgs(value, QueryValue(q, "date"), QueryValue(q, "time"))
  }

  /** The date picker's handler as written; `iso` is `value.toISOString()`. */
  function DateChangeAsWritten(q: seq<Param>, iso: string): (a: SearchArgs)
    ensures a.date == iso && a.location == QueryValue(q, "location")
    ensures Get(q, "time").None? ==> a.timeSlot == ""
  {
    SearchArgs(QueryValue(q, "location"), iso, QueryValue(q, "time"))
  }

  /** The time dropdown's handler as written: the selection object itself is the
      time slot, and `params.set` turns it into its string form. */
  function TimeChangeAsWritten(q: seq<Param>, sel: TimeSelection): (a: SearchArgs)
    ensures a.location == QueryValue(q, "location") && a.date == QueryValue(q, "date")
    ensures a.timeSlot == "[object Object]"
  {
    SearchArgs(QueryValue(q, "location"), QueryValue(q, "date"), ObjectText)
  }

  /** Re-searching by location or date after any search drops the time slot. */
  lemma TimeSlotLostAsWritten(args: SearchArgs, value: string, iso: string)
    ensures LocationChangeAsWritten(SearchParams(args), value) == SearchArgs(value, args.date, "")
    ensures DateChangeAsWritten(SearchParams(args), iso) == SearchArgs(args.location, iso, "")
  {
    SearchUrlReadsBack(args);
  }

  /** Choosing a time writes the text "[object Object]", which is none of the offered times. */
  lemma TimeChangeAsWrittenSendsObjectText(args: SearchArgs, sel: TimeSelection, other: TimeSelection)
    requires Offered(other)
    ensures QueryValue(SearchParams(TimeChangeAsWritten(SearchParams(args), sel)), "timeSlot") == "[object Object]"
    ensures TimeArgument(Some(other)) != ObjectText
  {
    var a := TimeChangeAsWritten(SearchParams(args), sel);
    assert a.timeSlot == ObjectText;
    SearchUrlReadsBack(a);
    ObjectTextIsNoOfferedTime(other);
  }

  lemma ObjectTextIsNoOfferedTime(other: TimeSelection)
    requires Offered(other)
    ensures TimeArgument(Some(other)) != ObjectText
  {
    assert |ObjectText| == 15;
    if other.Specific? {
      OfferedHourLength(other.time);
    } else {
      var k :| 0 <= k < |TimePeriods| && TimePeriods[k].range == other.range;
      assert |TimeArgument(Some(other))| == 11 by {
        assert k == 0 || k == 1 || k == 2;
      }
    }
  }

  /** The location handler reading the key searches write. */
  function LocationChange(q: seq<Param>, value: string): (a: SearchArgs)
    ensures a.location == value
    ensures a.date == QueryValue(q, "date") && a.timeSlot == QueryValue(q, "timeSlot")
  {
    SearchArgs(value, QueryValue(q, "date"), QueryValue(q, "timeSlot"))
  }

  /** The date handler reading the key searches write. */
  function DateChange(q: seq<Param>, iso: string): (a: SearchArgs)
    ensures a.date == iso
    ensures a.location == QueryValue(q, "location") && a.timeSlot == QueryValue(q, "timeSlot")
  {
    SearchArgs(QueryValue(q, "location"), iso, QueryValue(q, "timeSlot"))
  }

  /** The time handler sending the selection as SearchBar does. */
  function TimeChange(q: seq<Param>, sel: TimeSelection): (a: SearchArgs)
    ensures Offered(sel) ==> a.timeSlot != ""
    ensures a.location == QueryValue(q, "location") && a.date == QueryValue(q, "date")
  {
    var a := SearchArgs(QueryValue(q, "location"), QueryValue(q, "date"), TimeArgument(Some(sel)));
    assert Offered(sel) ==> a.timeSlot != "" by {
      if Offered(sel) {
        OfferedTimeArgumentNonEmpty(sel);
      }
    }
    a
  }

  /** Each picker replaces its own part of the current search and keeps the other two. */
  lemma PickersKeepTheRestOfTheSearch(args: SearchArgs, value: string, iso: string, sel: TimeSelection)
    ensures LocationChange(SearchParams(args), value) == args.(location := value)
    ensures DateChange(SearchParams(args), iso) == args.(date := iso)
    ensures TimeChange(SearchParams(args), sel) == args.(timeSlot := TimeArgument(Some(sel)))
  {
    SearchUrlReadsBack(args);
  }

  /** A time picked from the dropdown survives into the next URL. */
  lemma PickedTimeReachesUrl(args: SearchArgs, sel: TimeSelection)
    requires Offered(sel)
    ensures Get(SearchParams(TimeChange(SearchParams(args), sel)), "timeSlot") == Some(TimeArgument(Some(sel)))
  {
    OfferedTimeArgumentNonEmpty(sel);
    SearchUrlReadsBack(TimeChange(SearchParams(args), sel));
  }

  // ------------------------------------------------- the time dropdown's value

  /** The dropdown's `value` as written: the raw `time` query string. */
  function TimeValueAsWritten(q: seq<Param>): TimeProp {
    Text(QueryValue(q, "time"))
  }

  /** A URL carrying a time under `time` makes the dropdown's label throw, so the
      page cannot be drawn; without one the dropdown shows its placeholder. */
  lemma TimeQueryCrashesAsWritten(q: seq<Param>)
    ensures DisplayValue(TimeValueAsWritten(q)).Err? <==> QueryValue(q, "time") != ""
    ensures DisplayValue(TimeValueAsWritten([("time", "10:00")])).Err?
  {
    TextValueCrashes(QueryValue(q, "time"));
    assert QueryValue([("time", "10:00")], "time") == "10:00";
  }

  /** The dropdown's `value` read back from the stored time slot: the offered hour
      or period that wrote it, and no value for any other text. */
  function TimeValueOf(text: string): (v: TimeProp)
    ensures !v.Text?
    ensures v.Selected? ==> Offered(v.selection) && TimeArgument(Some(v.selection)) == text
  {
    if text in SpecificTimes then Selected(Specific(text))
    else if |text| == 11 && text[5] == '-' && PeriodLabel(TimeRange(text[..5], text[6..])).Some? then
      assert text[..5] + "-" + text[6..] == text by {
        assert text == text[..5] + [text[5]] + text[6..];
      }
      Selected(Period(TimeRange(text[..5], text[6..])))
    else Absent
  }

  /** Every offered selection reads back from its own time argument. */
  lemma TimeValueOfArgument(sel: TimeSelection)
    requires Offered(sel)
    ensures TimeValueOf(TimeArgument(Some(sel))) == Selected(sel)
  {
    var text := TimeArgument(Some(sel));
    if sel.Period? {
      var k :| 0 <= k < |TimePeriods| && TimePeriods[k].range == sel.range;
      assert |sel.range.start| == 5 && |sel.range.end| == 5 by {
        assert k == 0 || k == 1 || k == 2;
      }
      assert text[..5] == sel.range.start && text[6..] == sel.range.end;
      if text in SpecificTimes {
        OfferedHourLength(text);
      }
    }
  }

  /** With the value read back from `timeSlot`, the dropdown can always be drawn,
      and after a search it shows the time that was picked. */
  lemma TimeValueOfDisplays(q: seq<Param>, args: SearchArgs, sel: TimeSelection)
    requires Offered(sel)
    ensures DisplayValue(TimeValueOf(QueryValue(q, "timeSlot"))).Ok?
    ensures TimeValueOf(QueryValue(SearchParams(TimeChange(SearchParams(args), sel)), "timeSlot")) == Selected(sel)
  {
    PickedTimeReachesUrl(args, sel);
    TimeValueOfArgument(sel);
  }

  // ------------------------------------------------------------ the page state

  /** The page's `clubs`, `loading`, `filters` and `filteredClubs` state, observed
      once the effects a change triggers have run. */
  class SearchPageState {
    var clubs: seq<Club>
    var loading: bool
    var filters: Filters
    var filteredClubs: seq<Club>

    /** Whenever the filter effect can complete on the current clubs and filters,
        the shown clubs are exactly the fetched clubs that pass them. When it throws,
        the clubs shown before stay in place. */
    predicate Valid()
      reads this
    {
      ApplyFiltersAsWritten(clubs, filters).Ok? ==> filteredClubs == ApplyFilters(clubs, filters)
    }

    /** The initial `useState` values. */
    constructor()
      ensures Valid()
      ensures clubs == [] && loading && filters == DefaultFilters && filteredClubs == []
    {
      clubs := [];
      loading := true;
      filters := DefaultFilters;
      filteredClubs := [];
    }

    /** The fetch effect starts (on mount and whenever the query string changes). */
    method StartFetch()
      modifies this`loading
      ensures loading
    {
      loading := true;
    }

    /** The filter effect (`updateFilteredClubs`), run whenever clubs or filters
        change. It sets `loading`, filters, stores the result and clears `loading`;
        when the filter throws, the last two steps never happen, so the page keeps
        showing "Loading clubs..." over the clubs filtered before. */
    method RefreshFiltered()
      modifies this`loading, this`filteredClubs
      ensures Valid()
      ensures loading <==> ApplyFiltersAsWritten(clubs, filters).Err?
      ensures ApplyFiltersAsWritten(clubs, filters).Ok? ==> filteredClubs == ApplyFilters(clubs, filters)
      ensures ApplyFiltersAsWritten(clubs, filters).Err? ==> filteredClubs == old(filteredClubs)
    {
      loading := true;
      var filtered := ApplyFiltersAsWritten(clubs, filters);
      if filtered.Ok? {
        filteredClubs := filtered.value;
        loading := false;
      }
    }

    /** The first render's two effects on the fresh page: the fetch starts, then the
        filter effect runs on the empty list and clears `loading` before any data
        has arrived. */
    method Mount()
      requires clubs == []
      modifies this`loading, this`filteredClubs
      ensures Valid() && !loading
      ensures filteredClubs == []
    {
      StartFetch();
      RefreshFiltered();
    }

    /** The fetch completes: `data` is the returned clubs, or None when the query
        reports an error or throws (the clubs are then kept). The `finally` clears
        `loading` either way; new clubs then re-run the filter effect, which may set
        it again for good. */
    method FetchDone(data: Option<seq<Club>>)
      requires Valid()
      modifies this`clubs, this`loading, this`filteredClubs
      ensures Valid()
      ensures clubs == data.GetOr(old(clubs))
      ensures data.None? ==> !loading && filteredClubs == old(filteredClubs)
      ensures data.Some? ==> (loading <==> ApplyFiltersAsWritten(clubs, filters).Err?)
      ensures data.Some? && ApplyFiltersAsWritten(clubs, filters).Ok? ==>
                filteredClubs == ApplyFilters(clubs, filters)
      ensures data.Some? && ApplyFiltersAsWritten(clubs, filters).Err? ==>
                filteredClubs == old(filteredClubs)
    {
      loading := false;
      if data.Some? {
        clubs := data.value;
        RefreshFiltered();
      }
    }

    /** `handleFiltersChange`: new filters, then the filter effect. */
    method HandleFiltersChange(f: Filters)
      modifies this`filters, this`loading, this`filteredClubs
      ensures Valid()
      ensures filters == f
      ensures loading <==> ApplyFiltersAsWritten(clubs, f).Err?
      ensures ApplyFiltersAsWritten(clubs, f).Ok? ==> filteredClubs == ApplyFilters(clubs, f)
      ensures ApplyFiltersAsWritten(clubs, f).Err? ==> filteredClubs == old(filteredClubs)
    {
      filters := f;
      RefreshFiltered();
    }
  }

  /** A fetched club without courts, then a minimum rating of 1: the filter effect
      throws, the page stays on "Loading clubs..." until the clubs or filters change, and the club the
      corrected filter would drop is still the one held as filtered. */
  method StuckLoadingExample() returns (loading: bool, shown: seq<Club>)
    ensures loading
    ensures shown == [Club("c1", "Empty club", "Utrecht", None, Some([]), None)]
    ensures ApplyFilters(shown, Filters([], 1.0, 0, "")) == []
  {
    var club := Club("c1", "Empty club", "Utrecht", None, Some([]), None);
    var page := new SearchPageState();
    page.Mount();
    page.FetchDone(Some([club]));
    DefaultFiltersKeepAll([club]);
    page.HandleFiltersChange(Filters([], 1.0, 0, ""));
    RatingFilterThrowsOnClubWithoutCourts();
    loading, shown := page.loading, page.filteredClubs;
  }
}
