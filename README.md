# baantjeboeken: the court search, in Dafny

baantjeboeken is a Next.js web application for finding and booking padel
courts. This project models the part of it that decides what a player sees
and what gets sent on:

- the search page (`/search`) and its filters (minimum rating, facilities, range);
- the query string a search writes and the next page reads back;
- the search bar component (the search page imports it but draws its own pickers), and the date picker and time dropdown that both use;
- the club cards of the result grid;
- the court tabs of a club page;
- the booking panel of a court page, with its calendar widget;
- the hero search of the home page;
- the route guard that sends anonymous users to the sign-in page.

Pure parts are datatypes and functions, with lemmas about them. Components
whose state changes on clicks are classes. Their methods name what they
modify and state the whole new state.

Modules, one per source file, plus shared ones:

| module | models |
|---|---|
| `Base` | Option/Result, decimal digits, zero-padding, filtering and subsequences |
| `Dates` | the proleptic Gregorian calendar: month lengths, weekdays, month arithmetic, `yyyy-MM-dd` |
| `UrlEncoding` | `URLSearchParams`: UTF-8, the form-urlencoded writer and reader, `get` and `set` |
| `Types` | the club, court and facility records the database query returns |
| `SearchPage` | `src/app/search/page.tsx` |
| `FilterSidebar` | `src/components/search/FilterSidebar.tsx` |
| `SearchBar` | `src/components/search/SearchBar.tsx` |
| `TimeSelector` | `src/components/search/TimeSelector.tsx` |
| `DatePicker` | `src/components/search/DatePicker.tsx` |
| `UiCalendar` | `src/components/ui/calendar.tsx` |
| `SearchHero` | `src/components/home/SearchHero.tsx` |
| `ClubGrid` | `src/components/search/ClubGrid.tsx` |
| `CourtList` | `src/components/clubs/CourtList.tsx` |
| `AvailabilityCalendar` | `src/components/courts/AvailabilityCalendar.tsx` |
| `Middleware` | `src/middleware.ts` |

How the model represents the program:

- A JavaScript `Date` is an `Instant`: a valid calendar day plus the milliseconds since local midnight.
  - Months are numbered 0..11, as `getMonth()` returns them.
  - "Now" is always a parameter.
- The callbacks a component is given (`onChange`, `onSelect`, `onSearch`, `onFiltersChange`) become a sequence of reported values.
  The owner can then read off what was handed to it.
- Database reads and writes are oracles:
  - the fetched clubs are an input of `SearchPageState.FetchDone`;
  - whether the booking insert failed is an input of `AvailabilityState.HandleBooking`.
- The session is a boolean.

Two details of the code that are easy to misread:

- `applyFilters` (`src/app/search/page.tsx:114-152`) filters by rating, facilities and distance only.
  It has no price filter, and neither does the model.
- The comment at `src/components/search/DatePicker.tsx:62` gives "April 29, 2023" as the label.
  The code formats with date-fns `'PPP'`, which prints an ordinal day ("April 29th, 2023").
  `DatePicker.Ordinal` models what the code prints.

## Model

| member | source | states |
|---|---|---|
| SearchPage.HighestRated | src/app/search/page.tsx:118-120 | the reduce returns the seed or one of the courts, and its rating is at least the seed's and every court's |
| SearchPage.RatingOkMeansSomeCourt | src/app/search/page.tsx:117-125 | with a positive threshold a club passes the rating check exactly when one of its courts reaches the threshold |
| SearchPage.RatingOkMonotone | src/app/search/page.tsx:117-125 | a club that passes a threshold also passes every lower positive threshold |
| SearchPage.UnknownFacilityExcludes | src/app/search/page.tsx:128-141 | a selected facility id outside the eight-entry map matches no court, so the club is removed |
| SearchPage.CourtWithoutFacilitiesHasNone | src/app/search/page.tsx:131 | a court without a facility list has no selected facility |
| SearchPage.FacilitiesOkDependsOnSetOnly | src/app/search/page.tsx:128-141 | the facility check depends only on the set of selected ids, not their order or repeats |
| SearchPage.FacilitiesOkMonotone | src/app/search/page.tsx:128-141 | deselecting facilities never removes a club that passed |
| SearchPage.DistanceOkWithoutDistance | src/app/search/page.tsx:144-148 | a club with no distance (or distance 0) is never removed by the range |
| SearchPage.DistanceOkWithoutRange | src/app/search/page.tsx:144-148 | without a location or with range 0 the range check lets every club through |
| SearchPage.RatingOk | src/app/search/page.tsx:117-125 | no threshold lets every club through; a club passing a positive threshold has a court reaching it |
| SearchPage.FacilitiesOk | src/app/search/page.tsx:128-141 | no selected facility lets every club through; a passing club's selected ids are all map keys |
| SearchPage.DistanceOk | src/app/search/page.tsx:144-148 | a club without a distance, or within the range, passes |
| SearchPage.ApplyFilters | src/app/search/page.tsx:114-152 | the kept clubs are exactly the input clubs that pass all three checks, no more of them; all passing gives the input back |
| SearchPage.ApplyFiltersIsStable | src/app/search/page.tsx:114-152 | the result is a subsequence of the clubs, holds exactly the clubs that pass, and keeps each passing club's multiplicity |
| SearchPage.DefaultFiltersKeepAll | src/app/search/page.tsx:47-52 | the initial filters keep every club, in the corrected and the as-written filter |
| SearchPage.VerdictAsWritten | src/app/search/page.tsx:115-151 | the code as written throws exactly for a rating filter over a club without courts, or a facility filter over a club with no court list; otherwise it keeps exactly the clubs that pass |
| SearchPage.ApplyFiltersAsWritten | src/app/search/page.tsx:114-152 | the whole filter throws iff some club throws; otherwise it equals the corrected filter |
| SearchPage.RatingFilterThrowsOnClubWithoutCourts | src/app/search/page.tsx:117-124 | a 1-star filter over a club with an empty court list throws as written, while the corrected filter drops the club |
| SearchPage.TwoClubExample | src/app/search/page.tsx:114-152 | a 4-star parking filter over a 4.5 and a 3.5 club keeps only the 4.5 club |
| SearchPage.HandleSearch | src/app/search/page.tsx:165-172 | the pushed URL is `/search?` followed by the non-empty arguments, serialized in the order location, date, timeSlot |
| SearchPage.SearchUrlParses | src/app/search/page.tsx:165-172 | the query string of the pushed URL parses back to exactly the pairs written |
| SearchPage.SearchUrlReadsBack | src/app/search/page.tsx:165-172 | the next page reads each argument back under its own key, and nothing under `time` |
| SearchPage.SearchParamsShape | src/app/search/page.tsx:166-169 | at most three pairs, each with a non-empty value, no key twice; with all three arguments set, exactly the three pairs |
| SearchPage.ClearNavigatesToBareSearch | src/app/search/page.tsx:257 | "Clear Filters" navigates to `/search?` with no parameters |
| SearchPage.LocationChangeAsWritten | src/app/search/page.tsx:226-229 | the new location, the stored date, and "" for the time whenever the URL has no `time` key |
| SearchPage.DateChangeAsWritten | src/app/search/page.tsx:245-248 | the picked date, the stored location, and "" for the time whenever the URL has no `time` key |
| SearchPage.TimeChangeAsWritten | src/app/search/page.tsx:249-252 | the stored location and date, and the text `[object Object]` as the time |
| SearchPage.LocationChange | src/app/search/page.tsx:226-229 | the new location, with the stored date and time slot |
| SearchPage.DateChange | src/app/search/page.tsx:245-248 | the picked date, with the stored location and time slot |
| SearchPage.TimeChange | src/app/search/page.tsx:249-252 | the stored location and date, with a non-empty time for every offered selection |
| SearchPage.TimeSlotLostAsWritten | src/app/search/page.tsx:201 | as written, re-searching by location or date after any search drops its time slot |
| SearchPage.TimeChangeAsWrittenSendsObjectText | src/app/search/page.tsx:249-252 | as written, choosing a time writes `[object Object]`, which no offered time produces |
| SearchPage.PickersKeepTheRestOfTheSearch | src/app/search/page.tsx:226-252 | the corrected pickers each replace their own argument and keep the other two |
| SearchPage.PickedTimeReachesUrl | src/app/search/page.tsx:249-252 | with the corrected time handler, a picked time arrives in the next URL under `timeSlot` |
| SearchPage.TimeQueryCrashesAsWritten | src/app/search/page.tsx:249-250 | as written, the time dropdown throws exactly when the URL carries a non-empty `time` (e.g. `?time=10:00`) |
| SearchPage.TimeValueOf | src/app/search/page.tsx:249-250 | the corrected dropdown value: never a raw string; a selection only when it is offered and writes the stored text |
| SearchPage.TimeValueOfArgument | src/app/search/page.tsx:249-252 | every offered selection reads back from the text it writes |
| SearchPage.TimeValueOfDisplays | src/app/search/page.tsx:249-252 | with the corrected value the dropdown can always be drawn, and after a search it holds the picked time |
| SearchPage.SearchPageState.constructor | src/app/search/page.tsx:44-53 | no clubs, loading, the default filters, nothing shown |
| SearchPage.SearchPageState.StartFetch | src/app/search/page.tsx:59 | the fetch switches loading on |
| SearchPage.SearchPageState.RefreshFiltered | src/app/search/page.tsx:154-163 | the filter effect as written: when the filter completes, the shown clubs become the fetched clubs that pass and loading ends; when it throws, loading stays on and the shown clubs are the previous ones |
| SearchPage.SearchPageState.Mount | src/app/search/page.tsx:56-163 | on the fresh page both effects run, nothing is shown and loading is already off before data arrives |
| SearchPage.SearchPageState.FetchDone | src/app/search/page.tsx:94-108 | fetched clubs replace the list and re-run the filter effect, which ends loading exactly when the filter completes; an error keeps the old list and the shown clubs and ends loading |
| SearchPage.SearchPageState.HandleFiltersChange | src/app/search/page.tsx:174-176 | new filters, then the filter effect: the shown clubs are the clubs passing them when the filter completes, and loading stays on over the previous ones when it throws |
| SearchPage.StuckLoadingExample | src/app/search/page.tsx:154-163 | a fetched club without courts and a rating filter of 1 leave the page loading, still holding the club the corrected filter drops |
| FilterSidebar.ToggleFacility | src/components/search/FilterSidebar.tsx:32-34 | a present facility is removed (every copy), an absent one appended |
| FilterSidebar.ToggleRemovesEveryCopy | src/components/search/FilterSidebar.tsx:33 | removal keeps every other facility with its multiplicity, in order |
| FilterSidebar.ToggleKeepsNoDuplicates | src/components/search/FilterSidebar.tsx:32-34 | a list without repeats stays without repeats |
| FilterSidebar.ToggleTwiceRestoresAbsent | src/components/search/FilterSidebar.tsx:32-34 | selecting and then deselecting a facility restores the list |
| FilterSidebar.ToggleTwiceMovesPresentToEnd | src/components/search/FilterSidebar.tsx:32-34 | deselecting and reselecting a selected facility moves it to the end |
| FilterSidebar.HandleFacilityChange | src/components/search/FilterSidebar.tsx:31-40 | only the facilities change, toggled |
| FilterSidebar.HandleRatingChange | src/components/search/FilterSidebar.tsx:42-47 | only the rating changes |
| FilterSidebar.HandleRangeChange | src/components/search/FilterSidebar.tsx:49-54 | only the range changes, to the slider's first value |
| FilterSidebar.HandleLocationChange | src/components/search/FilterSidebar.tsx:56-61 | only the location changes |
| FilterSidebar.ClearFilters | src/components/search/FilterSidebar.tsx:96-103 | "Clear all" gives the page's initial filters |
| FilterSidebar.ClearShowsAll | src/components/search/FilterSidebar.tsx:96-103 | after "Clear all" every club is shown |
| FilterSidebar.HandlersCommute | src/components/search/FilterSidebar.tsx:42-61 | rating, range and location handlers commute, and a later call of one overrides an earlier one |
| FilterSidebar.RangeLabel | src/components/search/FilterSidebar.tsx:131 | `Any` exactly for range 0, otherwise the number followed by `km` |
| FilterSidebar.RatingHighlightIsExclusive | src/components/search/FilterSidebar.tsx:142-147 | after a rating button is clicked exactly that button is highlighted |
| FilterSidebar.FacilityHighlightFlips | src/components/search/FilterSidebar.tsx:171-176 | a facility button's highlight flips on its click, and the others keep theirs |
| FilterSidebar.FacilityOptionsMatchMap | src/components/search/FilterSidebar.tsx:162-171 | the eight button ids are exactly the page's map keys, and each label is the name the page matches |
| FilterSidebar.ButtonIdsAreKnown | src/components/search/FilterSidebar.tsx:162-176 | facilities picked through the buttons never trigger the unknown-facility exclusion |
| SearchBar.DateArgument | src/components/search/SearchBar.tsx:27 | "" exactly without a date; a date of years 1-9999 is sent as a full-date that parses back to it |
| SearchBar.TimeArgument | src/components/search/SearchBar.tsx:28-32 | "" exactly without a selection (or for an empty specific time); a period is sent with `-` right after its start |
| SearchBar.DateArgumentReadsBack | src/components/search/SearchBar.tsx:27 | a picked date is sent as a full-date that parses back to the same day (years 1-9999) and needs no escaping |
| SearchBar.OfferedTimeArgumentNonEmpty | src/components/search/SearchBar.tsx:28-32 | every offered hour or period gives a non-empty time argument |
| SearchBar.TimeArgumentInjective | src/components/search/SearchBar.tsx:28-32 | different offered selections give different time arguments |
| SearchBar.SearchBarState.constructor | src/components/search/SearchBar.tsx:19-21 | no date, no time, the initial location or "" |
| SearchBar.SearchBarState.ChangeLocation | src/components/search/SearchBar.tsx:47-51 | only the location changes |
| SearchBar.SearchBarState.ChangeDate | src/components/search/SearchBar.tsx:56-60 | only the date changes |
| SearchBar.SearchBarState.ChangeTime | src/components/search/SearchBar.tsx:65-68 | only the time selection changes |
| SearchBar.SearchBarState.HandleSearch | src/components/search/SearchBar.tsx:24-34 | one search is reported with the location, the date argument and the time argument; the pickers are kept |
| SearchBar.SearchBarState.ClearFilters | src/components/search/SearchBar.tsx:36-41 | the three pickers are emptied and an empty search is reported |
| TimeSelector.HourLabels | src/components/search/TimeSelector.tsx:29-32 | the i-th label is hour from+i, zero-padded, on the minute |
| TimeSelector.SpecificTimesAreHours | src/components/search/TimeSelector.tsx:29-32 | twelve options, the whole hours 09:00 to 20:00 in increasing order |
| TimeSelector.SpecificTimesDistinct | src/components/search/TimeSelector.tsx:29-32 | no hour is offered twice |
| TimeSelector.PeriodsAreContiguous | src/components/search/TimeSelector.tsx:23-27 | each period is non-empty, each starts where the previous one ends |
| TimeSelector.PeriodLabel | src/components/search/TimeSelector.tsx:59-62 | the name of the listed period with the same start and end; none when there is no such period |
| TimeSelector.DisplayOfListedPeriod | src/components/search/TimeSelector.tsx:52-64 | a listed period is shown as its name with its bounds |
| TimeSelector.DisplayOfUnlistedPeriod | src/components/search/TimeSelector.tsx:59-63 | an unlisted period shows the placeholder |
| TimeSelector.DisplayValue | src/components/search/TimeSelector.tsx:52-64 | `getDisplayValue`: the placeholder without a value or for ""; a specific time shows itself; a TypeError exactly for a non-empty string value |
| TimeSelector.TextValueCrashes | src/components/search/TimeSelector.tsx:52-61 | "" shows the placeholder, any other string value throws (e.g. "10:00") |
| TimeSelector.TextValueSelectsNothing | src/components/search/TimeSelector.tsx:36-38 | a string value lights no button and opens the specific-hours tab |
| TimeSelector.SpecificHighlighted | src/components/search/TimeSelector.tsx:110-111 | a lit hour button is the time the label shows, and the dropdown opens on the hours tab |
| TimeSelector.PeriodHighlighted | src/components/search/TimeSelector.tsx:126-128 | a lit period button means a period value: the dropdown opens on the periods tab, and the label is that period's or the placeholder |
| TimeSelector.InitialType | src/components/search/TimeSelector.tsx:36-38 | the dropdown opens on the value's type, `specific` without a value |
| TimeSelector.AtMostOnePeriodHighlighted | src/components/search/TimeSelector.tsx:126-131 | at most one period button is lit |
| TimeSelector.HighlightComparesStartOnly | src/components/search/TimeSelector.tsx:126-131 | 09:00-10:00 lights "Morning": the end is not compared |
| TimeSelector.TimeSelectorState.constructor | src/components/search/TimeSelector.tsx:35-38 | closed, on the initial type, nothing reported |
| TimeSelector.TimeSelectorState.ToggleOpen | src/components/search/TimeSelector.tsx:68-69 | the open flag flips |
| TimeSelector.TimeSelectorState.ClickOutside | src/components/search/TimeSelector.tsx:40 | the dropdown closes |
| TimeSelector.TimeSelectorState.ChooseType | src/components/search/TimeSelector.tsx:88-98 | only the shown tab changes |
| TimeSelector.TimeSelectorState.ClickSpecificTime | src/components/search/TimeSelector.tsx:42-45 | the i-th hour is reported (when there is a listener) and the dropdown closes |
| TimeSelector.TimeSelectorState.ClickPeriod | src/components/search/TimeSelector.tsx:47-50 | the k-th period's range is reported and the dropdown closes |
| DatePicker.IsDateDisabled | src/components/search/DatePicker.tsx:54-58 | only a bound can disable a date, and a date equal to its only bound is enabled |
| DatePicker.EnabledWithinBounds | src/components/search/DatePicker.tsx:54-58 | a date between the bounds (inclusive) is enabled, and every date is enabled without bounds |
| DatePicker.MonthGrid | src/components/search/DatePicker.tsx:109-137 | first-weekday blanks, then one button per day of the month, numbered 1.., with its date |
| DatePicker.GridColumnIsWeekday | src/components/search/DatePicker.tsx:101-137 | every day's button sits in the column of its weekday |
| DatePicker.AtMostOneSelected | src/components/search/DatePicker.tsx:118 | at most one button of a grid is marked selected |
| DatePicker.TodayCellDisabledWhenMinIsNow | src/components/search/DatePicker.tsx:54-58 | with the minimum at the current instant, today's cell is disabled after midnight, while Today stays enabled and reports a disabled date |
| DatePicker.Ordinal | src/components/search/DatePicker.tsx:62 | the day number followed by its English ordinal suffix |
| DatePicker.OrdinalSuffix | src/components/search/DatePicker.tsx:62 | `st`, `nd`, `rd` exactly for last digits 1, 2, 3 except 11, 12, 13; `th` otherwise |
| DatePicker.LongDate | src/components/search/DatePicker.tsx:62 | the label starts with the month's name and contains a comma |
| DatePicker.LongDateParts | src/components/search/DatePicker.tsx:62 | the label is the month's name, a space, the day's ordinal, a comma and a space, then digits whose value is the year of the era |
| DatePicker.LongDateInjective | src/components/search/DatePicker.tsx:62 | equal labels mean equal month, day and era year, so dates from year 1 on have distinct labels |
| DatePicker.DisplayValue | src/components/search/DatePicker.tsx:60-63 | `getDisplayValue`: `Select date` exactly without a value, otherwise a long date |
| DatePicker.DisplayValueIsPlaceholderIffNoValue | src/components/search/DatePicker.tsx:60-63 | the text is `Select date` exactly when there is no value |
| DatePicker.StepMonth | src/components/search/DatePicker.tsx:34-40 | moves to the month k away and keeps the time of day |
| DatePicker.PrevNextSameMonth | src/components/search/DatePicker.tsx:34-40 | previous then next (or next then previous) returns to the same month |
| DatePicker.PrevNextMayMoveTheDay | src/components/search/DatePicker.tsx:34-40 | March 31st, back and forth, becomes March 29th in 2024 |
| DatePicker.BoundMonthDisabled | src/components/search/DatePicker.tsx:84-94 | the Prev (Next) button is disabled whenever the shown month is the minimum's (maximum's) month, and only when that bound exists; the same test serves both buttons |
| DatePicker.PrevDisabledComparesMonthOnly | src/components/search/DatePicker.tsx:84 | the previous button compares only the month index, not the year |
| DatePicker.DatePickerState.constructor | src/components/search/DatePicker.tsx:18-19 | shows the value's month, or the current one, and is closed |
| DatePicker.DatePickerState.DaysInShownMonth | src/components/search/DatePicker.tsx:23-27 | between 28 and 31 |
| DatePicker.DatePickerState.FirstDayOfShownMonth | src/components/search/DatePicker.tsx:28-32 | between 0 (Sunday) and 6 |
| DatePicker.DatePickerState.ToggleOpen | src/components/search/DatePicker.tsx:67-68 | the open flag flips |
| DatePicker.DatePickerState.Close | src/components/search/DatePicker.tsx:149-150 | the dropdown closes |
| DatePicker.DatePickerState.HandlePrevMonth | src/components/search/DatePicker.tsx:34-36 | one month back |
| DatePicker.DatePickerState.HandleNextMonth | src/components/search/DatePicker.tsx:38-40 | one month ahead |
| DatePicker.DatePickerState.ClickPrev | src/components/search/DatePicker.tsx:81-84 | one month back unless the button is disabled |
| DatePicker.DatePickerState.ClickNext | src/components/search/DatePicker.tsx:91-94 | one month ahead unless the button is disabled |
| DatePicker.DatePickerState.HandleDateSelect | src/components/search/DatePicker.tsx:42-45 | the date is reported and the dropdown closes |
| DatePicker.DatePickerState.ClickDay | src/components/search/DatePicker.tsx:120-126 | a disabled day does nothing; otherwise its midnight is reported and the dropdown closes |
| DatePicker.DatePickerState.HandleTodayClick | src/components/search/DatePicker.tsx:47-52 | midnight of today is reported and shown, and the dropdown closes |
| DatePicker.DatePickerState.ClickToday | src/components/search/DatePicker.tsx:142-145 | does nothing when the current instant is disabled, else as `handleTodayClick` |
| UiCalendar.CellFor | src/components/ui/calendar.tsx:59-79 | the cell of a day carries its date, is today exactly on today's date, and selected exactly on the selected date |
| UiCalendar.AtMostOneSelected | src/components/ui/calendar.tsx:62 | two selected cells of a month are the same day |
| UiCalendar.NothingSelectedWithoutSelection | src/components/ui/calendar.tsx:62 | without a selection no cell is selected |
| UiCalendar.FirstOfMonth | src/components/ui/calendar.tsx:40-46 | `new Date(year, month)` is midnight of the 1st of that month |
| UiCalendar.PreviousNextInverse | src/components/ui/calendar.tsx:40-46 | previous then next returns to the same month on the 1st |
| UiCalendar.CalendarState.constructor | src/components/ui/calendar.tsx:23 | shows the current month, nothing reported |
| UiCalendar.CalendarState.PreviousMonth | src/components/ui/calendar.tsx:40-42 | the 1st of the previous month, with year rollover |
| UiCalendar.CalendarState.NextMonth | src/components/ui/calendar.tsx:44-46 | the 1st of the next month, with year rollover |
| UiCalendar.CalendarState.RenderCalendarDays | src/components/ui/calendar.tsx:48-83 | first-weekday empty cells, then the cells of days 1 to the month's length, in order |
| UiCalendar.CalendarState.ClickDay | src/components/ui/calendar.tsx:67 | midnight of the day is reported to `onSelect` |
| UiCalendar.RenderedColumns | src/components/ui/calendar.tsx:48-83 | the rendered days are numbered consecutively, each under its weekday |
| SearchHero.SearchHeroState.constructor | src/components/home/SearchHero.tsx:28-30 | no date, empty location and slot, no search |
| SearchHero.SearchHeroState.SetLocation | src/components/home/SearchHero.tsx:57-60 | only the location changes |
| SearchHero.SearchHeroState.SelectDate | src/components/home/SearchHero.tsx:80-85 | only the date changes |
| SearchHero.SearchHeroState.SelectTimeSlot | src/components/home/SearchHero.tsx:89-97 | the slot becomes one of morning, afternoon, evening |
| SearchHero.SearchHeroState.HandleSearch | src/components/home/SearchHero.tsx:32-36 | with all three fields set one search is handed on, otherwise nothing; every search has a location and a known slot |
| SearchHero.SearchHeroState.ClickSearch | src/components/home/SearchHero.tsx:100-103 | the button hands on a search exactly when it is enabled |
| SearchHero.DisabledIffIncomplete | src/components/home/SearchHero.tsx:33 | the button is disabled exactly when `handleSearch` would do nothing |
| ClubGrid.RatedCourts | src/components/search/ClubGrid.tsx:26-29 | the courts with a positive rating, in order |
| ClubGrid.FoldBest | src/components/search/ClubGrid.tsx:33 | the seedless reduce picks a court of maximum rating, later than every court it ties with |
| ClubGrid.BestCourt | src/components/search/ClubGrid.tsx:25-35 | none exactly when no court has a positive rating; otherwise a court of the club with a positive, maximum rating |
| ClubGrid.TieGoesToLaterCourt | src/components/search/ClubGrid.tsx:33 | of two equally rated courts the later one is shown |
| ClubGrid.FromPrice | src/components/search/ClubGrid.tsx:74 | 0 without a court list, Infinity for an empty one, else the lowest price (a missing price counting 0) |
| ClubGrid.MinOf | src/components/search/ClubGrid.tsx:74 | `Math.min`: Infinity of nothing, otherwise a lower bound that is attained |
| ClubGrid.CourtCount | src/components/search/ClubGrid.tsx:71 | the number of courts, 0 without a list |
| ClubGrid.CourtCountText | src/components/search/ClubGrid.tsx:71 | the count followed by `court` exactly when it is 1, else `courts` |
| ClubGrid.ReplaceFirst | src/components/search/ClubGrid.tsx:92 | `String.replace`: the first occurrence replaced, unchanged without one |
| ClubGrid.ShortName | src/components/search/ClubGrid.tsx:92 | the shown name is the court's name, or that name less one "club - " |
| ClubGrid.ShortNameStripsClubPrefix | src/components/search/ClubGrid.tsx:92 | a court named "club - rest" is shown as "rest" |
| ClubGrid.ShortNameKeepsOtherNames | src/components/search/ClubGrid.tsx:92 | a court name without "club - " is shown unchanged |
| ClubGrid.ShortNameReplacesInside | src/components/search/ClubGrid.tsx:92 | the prefix is also removed from the middle of a name |
| ClubGrid.CardFor | src/components/search/ClubGrid.tsx:39-98 | a card links to `/clubs/<id>`, shows the club's name and city, its court count text and from-price, and a best-court block (with that court's rating) exactly when there is a best court |
| ClubGrid.Render | src/components/search/ClubGrid.tsx:16-23 | "No clubs found" exactly for a missing or empty list; otherwise one card per club, in order |
| CourtList.Distinct | src/components/clubs/CourtList.tsx:13 | `Array.from(new Set(..))`: no repeats, the same members, in order of first appearance |
| CourtList.CourtTypesAreTheTypes | src/components/clubs/CourtList.tsx:13 | every court's type has one tab, every tab is a court's type, in order of first appearance |
| CourtList.CourtsOfType | src/components/clubs/CourtList.tsx:28-29 | exactly the courts of that type |
| CourtList.GroupsPartition | src/components/clubs/CourtList.tsx:25-33 | each court is listed under its own type with its multiplicity and nowhere else, in order |
| CourtList.ExactlyOneTab | src/components/clubs/CourtList.tsx:25-33 | of the rendered tabs exactly one lists a given court |
| CourtList.DefaultTab | src/components/clubs/CourtList.tsx:17 | the first court's type, and none without courts |
| AvailabilityCalendar.TimeSlotsAreHours | src/components/courts/AvailabilityCalendar.tsx:14-18 | thirteen slots, the whole hours 09:00 to 21:00 |
| AvailabilityCalendar.TimeSlotsDistinct | src/components/courts/AvailabilityCalendar.tsx:14-18 | no slot is listed twice |
| AvailabilityCalendar.AvailabilityState.constructor | src/components/courts/AvailabilityCalendar.tsx:21-23 | today selected, no time, not loading, so no booking yet possible |
| AvailabilityCalendar.AvailabilityState.SelectDate | src/components/courts/AvailabilityCalendar.tsx:55 | the date becomes the picked one |
| AvailabilityCalendar.AvailabilityState.ClickSlot | src/components/courts/AvailabilityCalendar.tsx:74 | the time becomes the clicked slot |
| AvailabilityCalendar.OnlyClickedSlotHighlighted | src/components/courts/AvailabilityCalendar.tsx:63-74 | after a click exactly the clicked slot is highlighted |
| AvailabilityCalendar.ClickedSlotIsReady | src/components/courts/AvailabilityCalendar.tsx:25-26 | with a date and a clicked slot the state passes `handleBooking`'s guard |
| AvailabilityCalendar.AvailabilityState.BeginBooking | src/components/courts/AvailabilityCalendar.tsx:25-38 | without a date or time nothing happens; otherwise loading starts and exactly one row is inserted |
| AvailabilityCalendar.AvailabilityState.EndBooking | src/components/courts/AvailabilityCalendar.tsx:40-47 | the success or failure alert is shown and loading ends |
| AvailabilityCalendar.AvailabilityState.HandleBooking | src/components/courts/AvailabilityCalendar.tsx:25-48 | one row (court, yyyy-MM-dd date, slot, placeholder user) and one matching alert, or nothing without a date and time |
| Middleware.Decide | src/middleware.ts:39-49 | `/courts` exactly for a session on `/login` or `/`, `/login` exactly without a session under `/courts`, otherwise pass |
| Middleware.Matched | src/middleware.ts:52-54 | matched paths are `/`, `/login` and paths under `/courts`; a matched `/courts…` path is `/courts` or lies below `/courts/` |
| Middleware.Route | src/middleware.ts:52-54 | unmatched paths pass; matched paths get the middleware's decision |
| Middleware.RulesExclusive | src/middleware.ts:40-47 | the two redirect rules never both apply |
| Middleware.NoRedirectLoop | src/middleware.ts:39-49 | a redirect's target passes under the same session |
| Middleware.GuardedPaths | src/middleware.ts:45-54 | every matched path under `/courts` sends an anonymous user to sign in |
| Middleware.MatcherNarrowsTheRule | src/middleware.ts:45-54 | `/courtside` is caught by the rule but never reaches the middleware |
| Dates.DaysInMonth | src/components/search/DatePicker.tsx:23-27 | 28 to 31 days, 29 exactly for February of a leap year |
| Dates.FirstWeekday | src/components/search/DatePicker.tsx:28-32 | a weekday 0 (Sunday) to 6 |
| Dates.KnownWeekdays | src/components/search/DatePicker.tsx:28-32 | 1970-01-01 is a Thursday and 2024-01-01 a Monday |
| Dates.WeekdayOfDay | src/components/search/DatePicker.tsx:109-117 | the weekday of day d is the month's first weekday plus d-1, modulo 7 |
| Dates.ShiftMonthsInverse | src/components/search/DatePicker.tsx:34-40 | moving k months and back returns to the same month |
| Dates.StepOneMonth | src/components/ui/calendar.tsx:40-46 | one month on from December is January of the next year, and back |
| Dates.AddMonths | src/components/search/DatePicker.tsx:34-40 | date-fns `addMonths`: the month k away, the day clamped to its length |
| Dates.FormatYmdRoundTrip | src/components/search/SearchBar.tsx:27 | `yyyy-MM-dd` of a date in years 1-9999 parses back to it |
| Dates.EraCollision | src/components/search/SearchBar.tsx:27 | year 0 and year 1 format alike, as the era year |
| UrlEncoding.Encode | src/app/search/page.tsx:166-171 | a written name or value never contains `&` or `=` |
| UrlEncoding.OverlongRefused | src/app/search/page.tsx:61 | the overlong form `%C0%80` of U+0000 does not decode |
| UrlEncoding.DecodeOfEncode | src/app/search/page.tsx:166-171 | a written name or value reads back as the same string |
| UrlEncoding.Serialize | src/app/search/page.tsx:171 | the query string is empty exactly when there are no pairs |
| UrlEncoding.ParseQuery | src/app/search/page.tsx:61 | the empty query has no pairs, and no query has more pairs than `&`-separated pieces |
| UrlEncoding.ParseSerialize | src/app/search/page.tsx:166-171 | a written query string parses back to exactly its pairs, in order |
| UrlEncoding.Get | src/app/search/page.tsx:61 | the value of the first pair of that name; none exactly when no pair has it |
| UrlEncoding.SetParam | src/app/search/page.tsx:167-169 | after `set` the name reads back as the new value |

## Left out

- The Supabase calls are not modelled: the clubs query (`src/app/search/page.tsx:56-112`) and the bookings insert (`src/components/courts/AvailabilityCalendar.tsx:29-38`). Their answers are inputs to the model.
  - The `ilike` city match is not modelled.
  - What the database returns for a given query is not modelled.
- Session lookup and cookie handling in `src/middleware.ts:5-37` are external: the session is a boolean.
- Geolocation and the Google geocoding request (`page.tsx:178-217`, `FilterSidebar.tsx:63-94`) are network I/O.
  Their one effect, calling the location handler with a city or an address, is modelled by the handlers.
- LocationPicker, MapView, the distance helper and the map provider are not part of this model. `club.distance` is an input.
- The two clear buttons are modelled. "clubs found", "Show Map" and loading texts, and badges, images and class names are presentation only.
- `toISOString()` in the page's date handler (`page.tsx:247`) depends on the time zone. It is a parameter `iso`.
  - Parsing `new Date("yyyy-MM-dd")` as UTC on the next page is not modelled.
- A JavaScript `Date` carries a time zone and maps years 0-99 to 1900-1999. The model's dates are local calendar days with no such mapping.
  - `isToday` and `toDateString` are modelled as equality of calendar days.
- `rating.toFixed(1)` on the card's badge is floating-point formatting and is not modelled.
- NaN ratings and prices are not modelled: numbers are reals.
- React's scheduling is not modelled: the model runs each effect at the point its dependencies change, in the order the page declares them, and a state update is visible at once. A filter effect that throws stops at the throw, as in the code; the unhandled promise rejection it leaves is not modelled.
  - The asynchronous fetch's interleaving with filter changes is not modelled.
- `useClickOutside` is modelled only as the close it causes.
- No control of the booking panel calls `handleBooking` (`AvailabilityCalendar.tsx:25`): the slot buttons only select a time (line 74).
  The booking members state what the handler does when called; nothing in the page triggers it.
- AvailabilityState.BeginBooking: requires that no booking is under way. The source does not prevent a second click during the insert, but overlapping inserts are concurrency.
- HandleRangeChange: requires at least one slider value. The slider always has one thumb. `value[0]` of an empty array would be `undefined`.
- The UTF-8 decoder refuses malformed input: stray or missing continuation bytes, overlong forms, surrogates and values past U+10FFFF.
  The browser instead replaces bad bytes with U+FFFD; that is not modelled. It matters only for hand-edited URLs.
- The home page's own `handleSearch` (`src/app/page.tsx`) and `CourtFilters` are not part of this model.
  So are seed scripts, API routes and the sign-in form.
- The header texts of the two calendars ("MMMM yyyy", month name and year) are not modelled, apart from the month names used by the long date.
- `disabled={{ before: startOfToday() }}` at `AvailabilityCalendar.tsx:56` has no effect: the calendar component ignores the prop (`calendar.tsx:15-22`). So the model lets any date be chosen.

## Findings

| source | as written | input that shows it | evidently intended | confidence | as-written member | corrected member |
|---|---|---|---|---|---|---|
| src/app/search/page.tsx:117-124 | a positive rating filter reduces the court list seeded with `club.courts[0]`, then reads `.rating` of the result; the filter effect then never clears `loading` (SearchPage.StuckLoadingExample) | a club with `courts: []` and rating filter 1 | a club without courts is dropped | not executed | SearchPage.RatingFilterThrowsOnClubWithoutCourts | SearchPage.ApplyFilters |
| src/app/search/page.tsx:201 | the location, current-location and date handlers forward `searchParams.get('time')`, but searches write the key `timeSlot` (line 169) | search with timeSlot `10:00`, then change the location | the time slot is kept | not executed | SearchPage.TimeSlotLostAsWritten | SearchPage.PickersKeepTheRestOfTheSearch |
| src/components/search/TimeSelector.tsx:59-61 | `getDisplayValue` reads a string value as a period and takes `.start` of `undefined`; the search page passes the raw `time` query string as the value (`src/app/search/page.tsx:250`) | open `/search?time=10:00` | the dropdown shows the stored time | not executed | SearchPage.TimeQueryCrashesAsWritten | SearchPage.TimeValueOfDisplays |
| src/app/search/page.tsx:251 | the time dropdown's selection object is passed as the time slot and written as `[object Object]` | choose 10:00 in the page's time dropdown | the time text `10:00` is written | not executed | SearchPage.TimeChangeAsWrittenSendsObjectText | SearchPage.PickedTimeReachesUrl |
