/// The home page's hero search card: a location text, a date from the calendar
/// widget and one of three time slots, handed on only when all three are set.
module SearchHero {
  import opened Base
  import opened Dates

  /** The record passed to `onSearch`. */
  datatype HeroSearch = HeroSearch(location: string, date: Instant, timeSlot: string)

  /** The values of the three items of the time-slot select. */
  const SlotValues: seq<string> := ["morning", "afternoon", "evening"]

  /** The values the time slot can hold: empty, or one of the items. */
  predicate KnownSlot(s: string) {
    s == "" || s in SlotValues
  }

  class SearchHeroState {
    var date: Option<Instant>
    var location: string
    var timeSlot: string
    var searches: seq<HeroSearch>

    /** The time slot only ever holds a known value, and every search handed on
        so far had a location and one of the three slots. */
    predicate Valid()
      reads this
    {
      KnownSlot(timeSlot)
      && forall i :: 0 <= i < |searches| ==> searches[i].location != "" && searches[i].timeSlot in SlotValues
    }

    /** All three fields are set: the condition of `handleSearch`. */
    predicate Complete()
      reads this
    {
      date.Some? && location != "" && timeSlot != ""
    }

    /** The Search button's `disabled`: some field is missing. */
    predicate SearchDisabled()
      reads this
    {
      date.None? || location == "" || timeSlot == ""
    }

    constructor()
      ensures Valid()
      ensures date.None? && location == "" && timeSlot == "" && searches == []
    {
      date := None;
      location := "";
      timeSlot := "";
      searches := [];
    }

    /** The location input's `onChange`. */
    method SetLocation(text: string)
      requires Valid()
      modifies this`location
      ensures Valid() && location == text
    {
      location := text;
    }

    /** The calendar's `onSelect`. */
    method SelectDate(d: Instant)
      requires Valid()
      modifies this`date
      ensures Valid() && date == Some(d)
    {
      date := Some(d);
    }

    /** The select's `onValueChange` with item k. */
    method SelectTimeSlot(k: nat)
      requires Valid() && k < |SlotValues|
      modifies this`timeSlot
      ensures Valid() && timeSlot == SlotValues[k]
    {
      timeSlot := SlotValues[k];
    }

    /** `handleSearch`: the three values, as they are, when all are set. */
    method HandleSearch()
      requires Valid()
      modifies this`searches
      ensures Valid()
      ensures Complete() ==> searches == old(searches) + [HeroSearch(location, date.value, timeSlot)]
      ensures !Complete() ==> searches == old(searches)
    {
      if date.Some? && location != "" && timeSlot != "" {
        searches := searches + [HeroSearch(location, date.value, timeSlot)];
      }
    }

    /** A click on the Search button, which does nothing while it is disabled. */
    method ClickSearch()
      requires Valid()
      modifies this`searches
      ensures Valid()
      ensures searches == old(searches) + (if SearchDisabled() then [] else [HeroSearch(location, date.value, timeSlot)])
    {
      if !SearchDisabled() {
        HandleSearch();
      }
    }
  }

  /** The button is disabled exactly when `handleSearch` would do nothing. */
  lemma DisabledIffIncomplete(s: SearchHeroState)
    ensures s.SearchDisabled() <==> !s.Complete()
  {
  }
}
