/// The filter sidebar of the search page. It keeps no filter state of its own:
/// every control computes a new filters record from the page's current one and
/// hands it back to the page.
module FilterSidebar {
  import opened Base
  import opened Types
  import opened SearchPage

  /** The ratings offered as buttons. */
  const RatingOptions: seq<real> := [1.0, 2.0, 3.0, 4.0, 4.5]

  /** The facility buttons: an id and the text on the button. */
  const FacilityOptions: seq<(string, string)> := [
    ("changing_rooms", "Changing Rooms"),
    ("parking", "Parking"),
    ("restaurant", "Restaurant"),
    ("equipment_rental", "Equipment Rental"),
    ("padel_shop", "Padel Shop"),
    ("bike_storage", "Bike Storage"),
    ("wheelchair_access", "Wheelchair Access"),
    ("charging_points", "Charging Points")
  ]

  /** A selected facility is removed (every copy of it); any other is appended. */
  function ToggleFacility(fs: seq<string>, x: string): (r: seq<string>)
    ensures x in fs ==> x !in r && forall y :: y != x ==> (y in r <==> y in fs)
    ensures x !in fs ==> r == fs + [x]
  {
    if x in fs then Filter(fs, (y: string) => y != x) else fs + [x]
  }

  /** `handleFacilityChange`. */
  function HandleFacilityChange(f: Filters, facility: string): (r: Filters)
    ensures r.rating == f.rating && r.maxRange == f.maxRange && r.location == f.location
    ensures r.facilities == ToggleFacility(f.facilities, facility)
  {
    f.(facilities := ToggleFacility(f.facilities, facility))
  }

  /** `handleRatingChange`. */
  function HandleRatingChange(f: Filters, value: real): (r: Filters)
    ensures r.facilities == f.facilities && r.maxRange == f.maxRange && r.location == f.location
    ensures r.rating == value
  {
    f.(rating := value)
  }

  /** `handleRangeChange`: the slider has one thumb, whose value is the new range. */
  function HandleRangeChange(f: Filters, values: seq<nat>): (r: Filters)
    requires |values| >= 1
    ensures r.facilities == f.facilities && r.rating == f.rating && r.location == f.location
    ensures r.maxRange == values[0]
  {
    f.(maxRange := values[0])
  }

  /** `handleLocationChange`. */
  function HandleLocationChange(f: Filters, location: string): (r: Filters)
    ensures r.facilities == f.facilities && r.rating == f.rating && r.maxRange == f.maxRange
    ensures r.location == location
  {
    f.(location := location)
  }

  /** "Clear all". */
  function ClearFilters(): (r: Filters)
    ensures r == DefaultFilters
  {
    Filters([], 0.0, 0, "")
  }

  /** The label under the range slider. */
  function RangeLabel(maxRange: nat): (r: string)
    ensures r == "Any" <==> maxRange == 0
    ensures maxRange > 0 ==> |r| >= 3 && r[|r| - 2..] == "km" && AllDigits(r[..|r| - 2])
                             && Value(r[..|r| - 2]) == maxRange
  {
    if maxRange == 0 then "Any"
    else
      var r := Decimal(maxRange) + "km";
      assert r[|r| - 2..] == "km" && r[..|r| - 2] == Decimal(maxRange);
      assert r[|r| - 1] == 'm';
      ValueOfDecimal(maxRange);
      r
  }

  predicate RatingHighlighted(f: Filters, rating: real) {
    f.rating == rating
  }

  predicate FacilityHighlighted(f: Filters, id: string) {
    id in f.facilities
  }

  // ---------------------------------------------------------------- properties

  /** Removal keeps the other facilities, with their multiplicities and in order. */
  lemma ToggleRemovesEveryCopy(fs: seq<string>, x: string)
    requires x in fs
    ensures IsSubsequence(ToggleFacility(fs, x), fs)
    ensures multiset(ToggleFacility(fs, x)) == multiset(fs)[x := 0]
  {
    var p := (y: string) => y != x;
    FilterIsSubsequence(fs, p);
    forall y
      ensures multiset(ToggleFacility(fs, x))[y] == multiset(fs)[x := 0][y]
    {
      FilterMultiplicity(fs, p, y);
    }
  }

  /** A list without repeats stays without repeats. */
  lemma ToggleKeepsNoDuplicates(fs: seq<string>, x: string)
    requires NoDuplicates(fs)
    ensures NoDuplicates(ToggleFacility(fs, x))
  {
    var r := ToggleFacility(fs, x);
    if x in fs {
      ToggleRemovesEveryCopy(fs, x);
      forall i, j | 0 <= i < j < |r|
        ensures r[i] != r[j]
      {
        if r[i] == r[j] {
          assert multiset(r)[r[i]] >= 2 by {
            assert r == r[..i] + [r[i]] + r[i + 1..j] + [r[j]] + r[j + 1..];
          }
          CountAtMostOne(fs, r[i]);
        }
      }
    } else {
      forall i, j | 0 <= i < j < |r|
        ensures r[i] != r[j]
      {
        if j == |fs| {
          assert r[j] == x && r[i] == fs[i];
        }
      }
    }
  }

  /** In a list without repeats every element occurs at most once. */
  lemma {:induction false} CountAtMostOne(fs: seq<string>, y: string)
    requires NoDuplicates(fs)
    ensures multiset(fs)[y] <= 1
  {
    if fs != [] {
      assert NoDuplicates(fs[1..]) by {
        forall i, j | 0 <= i < j < |fs[1..]|
          ensures fs[1..][i] != fs[1..][j]
        {
          assert fs[1..][i] == fs[i + 1] && fs[1..][j] == fs[j + 1];
        }
      }
      CountAtMostOne(fs[1..], y);
      assert fs == [fs[0]] + fs[1..];
      if fs[0] == y {
        assert y !in fs[1..] by {
          forall k | 0 <= k < |fs[1..]|
            ensures fs[1..][k] != y
          {
            assert fs[1..][k] == fs[k + 1];
          }
        }
      }
    }
  }

  /** Selecting a facility and deselecting it again restores the list. */
  lemma ToggleTwiceRestoresAbsent(fs: seq<string>, x: string)
    requires x !in fs
    ensures ToggleFacility(ToggleFacility(fs, x), x) == fs
  {
    var p := (y: string) => y != x;
    FilterKeepsAll(fs, p);
    FilterAppendDropped(fs, x, p);
  }

  lemma {:induction false} FilterAppendDropped(xs: seq<string>, x: string, p: string -> bool)
    requires !p(x)
    ensures Filter(xs + [x], p) == Filter(xs, p)
  {
    if xs == [] {
      assert [x][1..] == [];
    } else {
      assert (xs + [x])[1..] == xs[1..] + [x];
      FilterAppendDropped(xs[1..], x, p);
    }
  }

  /** Deselecting a selected facility and selecting it again keeps the same facilities
      but moves that one to the end, so the list itself can change. */
  lemma ToggleTwiceMovesPresentToEnd()
    ensures ToggleFacility(ToggleFacility(["parking", "restaurant"], "parking"), "parking")
      == ["restaurant", "parking"]
  {
    var fs := ["parking", "restaurant"];
    assert "parking" in fs;
    var p := (y: string) => y != "parking";
    assert Filter(fs, p) == ["restaurant"] by {
      assert fs[1..] == ["restaurant"] && ["restaurant"][1..] == [];
    }
  }

  /** A facility button's highlight flips on its own click; the other buttons keep theirs. */
  lemma FacilityHighlightFlips(f: Filters, id: string, other: string)
    ensures FacilityHighlighted(HandleFacilityChange(f, id), id) == !FacilityHighlighted(f, id)
    ensures other != id ==> FacilityHighlighted(HandleFacilityChange(f, id), other) == FacilityHighlighted(f, other)
  {
  }

  /** After a rating button is clicked, exactly that button is highlighted. */
  lemma RatingHighlightIsExclusive(f: Filters, k: nat, j: nat)
    requires k < |RatingOptions| && j < |RatingOptions|
    ensures RatingHighlighted(HandleRatingChange(f, RatingOptions[k]), RatingOptions[j]) <==> j == k
  {
  }

  /** The sidebar's eight facility ids are exactly the page's map keys, and each
      button shows the name the page matches against. */
  lemma FacilityOptionsMatchMap()
    ensures forall k :: 0 <= k < |FacilityOptions| ==>
      FacilityOptions[k].0 in FacilityNameMap && FacilityNameMap[FacilityOptions[k].0] == FacilityOptions[k].1
    ensures forall id :: id in FacilityNameMap ==> exists k :: 0 <= k < |FacilityOptions| && FacilityOptions[k].0 == id
  {
    forall id | id in FacilityNameMap
      ensures exists k :: 0 <= k < |FacilityOptions| && FacilityOptions[k].0 == id
    {
      if id == "changing_rooms" { assert FacilityOptions[0].0 == id; }
      else if id == "parking" { assert FacilityOptions[1].0 == id; }
      else if id == "restaurant" { assert FacilityOptions[2].0 == id; }
      else if id == "equipment_rental" { assert FacilityOptions[3].0 == id; }
      else if id == "padel_shop" { assert FacilityOptions[4].0 == id; }
      else if id == "bike_storage" { assert FacilityOptions[5].0 == id; }
      else if id == "wheelchair_access" { assert FacilityOptions[6].0 == id; }
      else { assert FacilityOptions[7].0 == id; }
    }
  }

  /** The single-field handlers touch different fields, so their order does not matter,
      and a second call to the same handler overrides the first. */
  lemma HandlersCommute(f: Filters, rating: real, values: seq<nat>, location: string, other: real)
    requires |values| >= 1
    ensures HandleRatingChange(HandleLocationChange(f, location), rating)
         == HandleLocationChange(HandleRatingChange(f, rating), location)
    ensures HandleRangeChange(HandleRatingChange(f, rating), values)
         == HandleRatingChange(HandleRangeChange(f, values), rating)
    ensures HandleLocationChange(HandleRangeChange(f, values), location)
         == HandleRangeChange(HandleLocationChange(f, location), values)
    ensures HandleRatingChange(HandleRatingChange(f, other), rating) == HandleRatingChange(f, rating)
  {
  }

  /** "Clear all" shows every club again. */
  lemma ClearShowsAll(clubs: seq<Club>)
    ensures ApplyFilters(clubs, ClearFilters()) == clubs
  {
    DefaultFiltersKeepAll(clubs);
  }

  /** Ids picked through the buttons never trigger the unknown-facility exclusion. */
  lemma ButtonIdsAreKnown(f: Filters, k: nat)
    requires k < |FacilityOptions|
    requires forall i :: 0 <= i < |f.facilities| ==> f.facilities[i] in FacilityNameMap
    ensures forall i :: 0 <= i < |HandleFacilityChange(f, FacilityOptions[k].0).facilities| ==>
      HandleFacilityChange(f, FacilityOptions[k].0).facilities[i] in FacilityNameMap
  {
    FacilityOptionsMatchMap();
    var r := HandleFacilityChange(f, FacilityOptions[k].0).facilities;
    forall i | 0 <= i < |r|
      ensures r[i] in FacilityNameMap
    {
      assert r[i] in r;
    }
  }
}
