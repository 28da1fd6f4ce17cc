/// The booking panel of a court page: a date from the calendar widget, one of
/// thirteen hourly slots, and the booking handler, which inserts one row into
/// the bookings table and reports the outcome. No control of the panel calls
/// the handler (the slot buttons only select a time), so the model states what
/// it would do if called. The insert is an oracle: the caller says whether the
/// database answered with an error.
module AvailabilityCalendar {
  import opened Base
  import opened Dates
  import opened TimeSelector

  /** `timeSlots`. */
  const TimeSlots: seq<string> := [
    "09:00", "10:00", "11:00", "12:00", "13:00",
    "14:00", "15:00", "16:00", "17:00", "18:00",
    "19:00", "20:00", "21:00"
  ]

  /** The slots are the whole hours 09:00 .. 21:00, one hour apart, so they are
      strictly increasing and pairwise different. */
  lemma TimeSlotsAreHours()
    ensures |TimeSlots| == 13
    ensures forall i :: 0 <= i < 13 ==> ClockMinutes(TimeSlots[i]) == Some((i + 9) * 60)
  {
    forall i | 0 <= i < 13
      ensures ClockMinutes(TimeSlots[i]) == Some((i + 9) * 60)
    {
      SlotMinutes(i);
    }
  }

  lemma SlotMinutes(i: nat)
    requires i < 13
    ensures ClockMinutes(TimeSlots[i]) == Some((i + 9) * 60)
  {
    var h := i + 9;
    var h1, h0 := DigitChar(h / 10), DigitChar(h % 10);
    assert TimeSlots[i] == [h1, h0, ':', '0', '0'] by {
      if i == 0 {} else if i == 1 {} else if i == 2 {} else if i == 3 {} else if i == 4 {}
      else if i == 5 {} else if i == 6 {} else if i == 7 {} else if i == 8 {} else if i == 9 {}
      else if i == 10 {} else if i == 11 {} else {}
    }
    ClockOfDigits(h1, h0, '0', '0');
  }

  lemma TimeSlotsDistinct()
    ensures forall i, j :: 0 <= i < j < |TimeSlots| ==> TimeSlots[i] != TimeSlots[j]
  {
    TimeSlotsAreHours();
    forall i, j | 0 <= i < j < |TimeSlots|
      ensures TimeSlots[i] != TimeSlots[j]
    {
      assert ClockMinutes(TimeSlots[i]) != ClockMinutes(TimeSlots[j]);
    }
  }

  /** The row inserted into `bookings`. */
  datatype BookingRow = BookingRow(courtId: string, date: string, timeSlot: string, userId: string)

  /** The placeholder user every booking is made for. */
  const PlaceholderUser := "user123"

  const SuccessAlert := "Booking successful!"
  const FailureAlert := "Failed to book court"

  class AvailabilityState {
    const courtId: string
    var selectedDate: Option<Instant>
    var selectedTime: Option<string>
    var loading: bool
    /** The rows inserted so far and the alerts shown so far. */
    var inserts: seq<BookingRow>
    var alerts: seq<string>

    /** While an attempt is under way one insert has no alert yet; otherwise each
        insert has had its alert. */
    predicate Valid()
      reads this
    {
      |inserts| == |alerts| + (if loading then 1 else 0)
    }

    /** A booking can be attempted: a date and a time are chosen. */
    predicate Ready()
      reads this
    {
      selectedDate.Some? && selectedTime.Some? && selectedTime.value != ""
    }

    /** The row an attempt inserts. */
    function Row(): BookingRow
      reads this
      requires Ready()
    {
      BookingRow(courtId, FormatYmd(selectedDate.value.date), selectedTime.value, PlaceholderUser)
    }

    /** Today selected, no time, nothing under way. */
    constructor(courtId: string, now: Instant)
      ensures this.courtId == courtId && Valid()
      ensures selectedDate == Some(now) && selectedTime.None? && !loading
      ensures inserts == [] && alerts == []
      ensures !Ready()
    {
      this.courtId := courtId;
      selectedDate := Some(now);
      selectedTime := None;
      loading := false;
      inserts := [];
      alerts := [];
    }

    /** The calendar's `onSelect`. */
    method SelectDate(d: Instant)
      modifies this`selectedDate
      ensures selectedDate == Some(d)
    {
      selectedDate := Some(d);
    }

    /** A click on slot button k. */
    method ClickSlot(k: nat)
      requires k < |TimeSlots|
      modifies this`selectedTime
      ensures selectedTime == Some(TimeSlots[k])
    {
      selectedTime := Some(TimeSlots[k]);
    }

    /** Slot button k is highlighted. */
    predicate SlotHighlighted(k: nat)
      reads this
      requires k < |TimeSlots|
    {
      selectedTime == Some(TimeSlots[k])
    }

    /** The first half of `handleBooking`: without a date or a time nothing happens;
        otherwise loading is switched on and exactly one row is inserted. */
    method BeginBooking() returns (started: bool)
      requires Valid() && !loading
      modifies this`loading, this`inserts
      ensures Valid()
      ensures started == old(Ready())
      ensures !started ==> !loading && inserts == old(inserts)
      ensures started ==> loading && inserts == old(inserts) + [Row()]
    {
      if selectedDate.None? || selectedTime.None? || selectedTime.value == "" {
        return false;
      }
      loading := true;
      inserts := inserts + [Row()];
      return true;
    }

    /** The second half: the insert's answer (`failed` when it carried an error)
        decides the alert, and loading is switched off either way. */
    method EndBooking(failed: bool)
      requires Valid() && loading
      modifies this`loading, this`alerts
      ensures Valid() && !loading
      ensures alerts == old(alerts) + [if failed then FailureAlert else SuccessAlert]
    {
      alerts := alerts + [if failed then FailureAlert else SuccessAlert];
      loading := false;
    }

    /** `handleBooking` as a whole, with the insert's answer supplied. */
    method HandleBooking(failed: bool)
      requires Valid() && !loading
      modifies this`loading, this`inserts, this`alerts
      ensures Valid() && !loading
      ensures !old(Ready()) ==> inserts == old(inserts) && alerts == old(alerts)
      ensures old(Ready()) ==>
        inserts == old(inserts) + [BookingRow(courtId, FormatYmd(old(selectedDate).value.date),
                                              old(selectedTime).value, PlaceholderUser)]
        && alerts == old(alerts) + [if failed then FailureAlert else SuccessAlert]
    {
      var started := BeginBooking();
      if started {
        EndBooking(failed);
      }
    }
  }

  /** After slot k is clicked exactly that slot's button is highlighted. */
  lemma OnlyClickedSlotHighlighted(s: AvailabilityState, k: nat, j: nat)
    requires k < |TimeSlots| && j < |TimeSlots|
    requires s.selectedTime == Some(TimeSlots[k])
    ensures s.SlotHighlighted(j) <==> j == k
  {
    if j != k {
      TimeSlotsDistinct();
      if j < k {
        assert TimeSlots[j] != TimeSlots[k];
      } else {
        assert TimeSlots[k] != TimeSlots[j];
      }
    }
  }

  /** A clicked slot passes the booking handler's guard (the mount state already has a date). */
  lemma ClickedSlotIsReady(s: AvailabilityState, k: nat)
    requires k < |TimeSlots| && s.selectedDate.Some? && s.selectedTime == Some(TimeSlots[k])
    ensures s.Ready()
  {
    TimeSlotsAreHours();
    assert ClockMinutes(TimeSlots[k]).Some?;
  }
}
