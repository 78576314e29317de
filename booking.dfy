/** The lesson-booking dialog: the fixed time slots, the conversion of a
    12-hour slot to a 24-hour clock, the request the booking mutation sends,
    the displayed price, and the reset on close and on success. A selected
    calendar day is an opaque `Day`; setting its hours is the function
    parameter `setHours`, since local time zones lie outside this model. */
module Booking {
  import opened Wrappers
  import opened Schema
  import Seqs
  import Text

  type Day = int

  const TimeSlots: seq<string> := ["9:00 AM", "10:30 AM", "2:00 PM", "3:30 PM", "5:00 PM", "7:00 PM"]

  datatype LessonTypeOption = LessonTypeOption(value: string, caption: string, price: int)

  const LessonTypes: seq<LessonTypeOption> := [
    LessonTypeOption("private", "Private Lesson (1-on-1)", 45),
    LessonTypeOption("group", "Group Lesson (2-6 students)", 25),
    LessonTypeOption("intensive", "Intensive Session", 70)
  ]

  const FallbackPrice: int := 45
  const PlaceholderTeacher: string := "teacher-id"
  const SelectDateAndTime: string := "Please select date and time"
  /** What `toISOString` throws for a date whose hours were set to NaN. */
  const InvalidTimeValue: string := "Invalid time value"

  // ----------------------------------------------------------- time slots

  /** A 24-hour wall-clock time. */
  datatype Clock = Clock(hour: int, minute: int)

  /** The 12-hour adjustment: PM adds 12 except at 12, 12 AM is 0, and any
      other hour, or a missing or unknown period, is left alone. */
  function Hour24(hour: int, period: Option<string>): (h: int)
    ensures period == Some("PM") && hour != 12 ==> h == hour + 12
    ensures period == Some("AM") && hour == 12 ==> h == 0
    ensures period != Some("PM") && period != Some("AM") ==> h == hour
    ensures (period == Some("PM") && hour == 12) || (period == Some("AM") && hour != 12) ==> h == hour
  {
    var h := if period == Some("PM") && hour != 12 then hour + 12 else hour;
    if period == Some("AM") && h == 12 then 0 else h
  }

  /** The 12-hour face of a 24-hour hour. */
  function To12Hour(h: int): (r: (int, string))
    requires 0 <= h < 24
    ensures 1 <= r.0 <= 12 && (r.1 == "AM" || r.1 == "PM")
  {
    if h == 0 then (12, "AM")
    else if h < 12 then (h, "AM")
    else if h == 12 then (12, "PM")
    else (h - 12, "PM")
  }

  /** On the hours 1..12 with AM or PM the conversion is a bijection onto 0..23. */
  lemma Hour24Bijective(h: int, hour: int, period: string)
    ensures 0 <= h < 24 ==> Hour24(To12Hour(h).0, Some(To12Hour(h).1)) == h
    ensures 1 <= hour <= 12 && (period == "AM" || period == "PM") ==>
              0 <= Hour24(hour, Some(period)) < 24 &&
              To12Hour(Hour24(hour, Some(period))) == (hour, period)
  {
  }

  /** `[time, period] = slot.split(" ")`, `[hours, minutes] = time.split(":")`,
      then `parseInt(hours)` and `parseInt(minutes || "0")`. A part that does
      not parse makes the date invalid. */
  function SlotClock(slot: string): (c: Option<Clock>)
    ensures c.Some? ==> Text.ParseInt(Text.Split(Text.Split(slot, ' ')[0], ':')[0]).Some?
  {
    var parts := Text.Split(slot, ' ');
    ClockOf(Text.Split(parts[0], ':'), if |parts| > 1 then Some(parts[1]) else None)
  }

  /** The clock for the pieces `[hours, minutes]` of a slot and its period. */
  function ClockOf(hm: seq<string>, period: Option<string>): (c: Option<Clock>)
    requires |hm| >= 1
    ensures c.Some? <==> Text.ParseInt(hm[0]).Some? &&
                         Text.ParseInt(if |hm| > 1 && hm[1] != "" then hm[1] else "0").Some?
  {
    var minutes := if |hm| > 1 && hm[1] != "" then hm[1] else "0";
    match Text.ParseInt(hm[0])
    case None => None
    case Some(hour) =>
      match Text.ParseInt(minutes)
      case None => None
      case Some(minute) => Some(Clock(Hour24(hour, period), minute))
  }

  /** The two splits of a slot written `H:MM P`. */
  lemma SlotPieces(h: string, m: string, p: string)
    requires Text.AllDigits(h) && Text.AllDigits(m) && ' ' !in p
    ensures Text.Split(h + ":" + m + " " + p, ' ') == [h + ":" + m, p]
    ensures Text.Split(h + ":" + m, ':') == [h, m]
  {
    var time := h + [':'] + m;
    assert ' ' !in time by {
      forall i | 0 <= i < |time| ensures time[i] != ' ' {
        if i < |h| { assert time[i] == h[i]; }
        else if i > |h| { assert time[i] == m[i - |h| - 1]; }
      }
    }
    assert ':' !in h && ':' !in m;
    assert h + ":" + m + " " + p == time + [' '] + p;
    Text.SplitPair(time, p, ' ');
    Text.SplitPair(h, m, ':');
  }

  /** A slot written `H:MM P` with digits and a one-word period. */
  lemma SlotClockOf(h: string, m: string, p: string)
    requires h != [] && Text.AllDigits(h) && m != [] && Text.AllDigits(m) && ' ' !in p
    ensures SlotClock(h + ":" + m + " " + p) ==
            Some(Clock(Hour24(Text.DigitsValue(h), Some(p)), Text.DigitsValue(m)))
  {
    SlotPieces(h, m, p);
    Text.ParseIntOfDigits(h, []);
    Text.ParseIntOfDigits(m, []);
    assert h + [] == h && m + [] == m;
    var hm := [h, m];
    var c := ClockOf(hm, Some(p));
    assert c.Some? && c.value == Clock(Hour24(Text.DigitsValue(h), Some(p)), Text.DigitsValue(m));
  }

  lemma NineAM() ensures SlotClock(TimeSlots[0]) == Some(Clock(9, 0)) {
    assert Text.DigitsValue("9") == 9 by { assert "9"[..0] == ""; }
    assert TimeSlots[0] == "9" + ":" + "00" + " " + "AM";
    assert Text.DigitsValue("00") == 0 by { assert "00"[..1] == "0"; }
    SlotClockOf("9", "00", "AM");
  }

  lemma TenThirtyAM() ensures SlotClock(TimeSlots[1]) == Some(Clock(10, 30)) {
    assert TimeSlots[1] == "10" + ":" + "30" + " " + "AM";
    assert Text.DigitsValue("10") == 10 by { assert "10"[..1] == "1"; }
    assert Text.DigitsValue("30") == 30 by { assert "30"[..1] == "3"; }
    SlotClockOf("10", "30", "AM");
  }

  lemma TwoPM() ensures SlotClock(TimeSlots[2]) == Some(Clock(14, 0)) {
    assert Text.DigitsValue("2") == 2 by { assert "2"[..0] == ""; }
    assert TimeSlots[2] == "2" + ":" + "00" + " " + "PM";
    assert Text.DigitsValue("00") == 0 by { assert "00"[..1] == "0"; }
    SlotClockOf("2", "00", "PM");
  }

  lemma ThreeThirtyPM() ensures SlotClock(TimeSlots[3]) == Some(Clock(15, 30)) {
    assert Text.DigitsValue("3") == 3 by { assert "3"[..0] == ""; }
    assert TimeSlots[3] == "3" + ":" + "30" + " " + "PM";
    assert Text.DigitsValue("30") == 30 by { assert "30"[..1] == "3"; }
    SlotClockOf("3", "30", "PM");
  }

  lemma FivePM() ensures SlotClock(TimeSlots[4]) == Some(Clock(17, 0)) {
    assert Text.DigitsValue("5") == 5 by { assert "5"[..0] == ""; }
    assert TimeSlots[4] == "5" + ":" + "00" + " " + "PM";
    assert Text.DigitsValue("00") == 0 by { assert "00"[..1] == "0"; }
    SlotClockOf("5", "00", "PM");
  }

  lemma SevenPM() ensures SlotClock(TimeSlots[5]) == Some(Clock(19, 0)) {
    assert Text.DigitsValue("7") == 7 by { assert "7"[..0] == ""; }
    assert TimeSlots[5] == "7" + ":" + "00" + " " + "PM";
    assert Text.DigitsValue("00") == 0 by { assert "00"[..1] == "0"; }
    SlotClockOf("7", "00", "PM");
  }

  /** Starting times on the quarter hours the calendar offers. */
  predicate ValidSlotClock(c: Option<Clock>) {
    c.Some? && 0 <= c.value.hour <= 23 && (c.value.minute == 0 || c.value.minute == 30)
  }

  /** Every offered slot converts to a valid hour and a minute of 0 or 30. */
  lemma TimeSlotsValid(i: int)
    requires 0 <= i < |TimeSlots|
    ensures ValidSlotClock(SlotClock(TimeSlots[i]))
  {
    if i == 0 { NineAM(); }
    else if i == 1 { TenThirtyAM(); }
    else if i == 2 { TwoPM(); }
    else if i == 3 { ThreeThirtyPM(); }
    else if i == 4 { FivePM(); }
    else { SevenPM(); }
  }

  // --------------------------------------------------------------- request

  /** The values of the booking form. */
  datatype LessonForm = LessonForm(title: string, description: string, lessonType: string,
                                   focusArea: string, duration: int, price: int, notes: string)

  /** The form's default values; the price field is in cents. */
  const DefaultForm: LessonForm := LessonForm("", "", "private", "General Grammar", 60, 4500, "")

  /** `mutationFn` up to the request: the guard on date and time, the clock of
      the slot, the placeholder teacher, and no status. The time goes out as
      the ISO string of the instant `setHours` gives. */
  function BookingRequest(data: LessonForm, selectedDate: Option<Day>, selectedTime: string,
                          setHours: (Day, int, int) -> Timestamp): (r: Result<LessonBody, string>)
    ensures (selectedDate.None? || selectedTime == "") ==> r == Failure(SelectDateAndTime)
    ensures r.Success? <==> selectedDate.Some? && selectedTime != "" && SlotClock(selectedTime).Some?
    ensures r.Success? ==>
              var c := SlotClock(selectedTime).value;
              && r.value.teacherId == Some(PlaceholderTeacher)
              && r.value.scheduledAt == Some(DateString(setHours(selectedDate.value, c.hour, c.minute)))
              && r.value.studentId.None? && r.value.status.None?
              && r.value.title == Some(data.title) && r.value.lessonType == Some(data.lessonType)
              && r.value.price == Some(data.price)
              && r.value.description == Some(data.description) && r.value.focusArea == Some(data.focusArea)
              && r.value.duration == Some(data.duration) && r.value.notes == Some(data.notes)
  {
    if selectedDate.None? || selectedTime == "" then Failure(SelectDateAndTime)
    else
      match SlotClock(selectedTime)
      case None => Failure(InvalidTimeValue)
      case Some(c) =>
        Success(LessonBody(None, Some(PlaceholderTeacher), Some(data.title), Some(data.description),
                           Some(data.lessonType), Some(data.focusArea),
                           Some(DateString(setHours(selectedDate.value, c.hour, c.minute))), Some(data.duration),
                           None, Some(data.notes), Some(data.price)))
  }

  /** A booked slot from the list always yields a request. */
  lemma OfferedSlotBooks(data: LessonForm, day: Day, i: int, setHours: (Day, int, int) -> Timestamp)
    requires 0 <= i < |TimeSlots|
    ensures BookingRequest(data, Some(day), TimeSlots[i], setHours).Success?
  {
    TimeSlotsValid(i);
  }

  // ------------------------------------------------------------------ price

  /** `lessonTypes.find(t => t.value === type)?.price || 45`. */
  function PriceFor(lessonType: string): (price: int)
    ensures lessonType == "private" ==> price == 45
    ensures lessonType == "group" ==> price == 25
    ensures lessonType == "intensive" ==> price == 70
    ensures (forall i :: 0 <= i < |LessonTypes| ==> LessonTypes[i].value != lessonType) ==> price == FallbackPrice
  {
    match Seqs.Find(LessonTypes, (t: LessonTypeOption) => t.value == lessonType)
    case None => FallbackPrice
    case Some(t) => if t.price != 0 then t.price else FallbackPrice
  }

  /** Every listed type shows its own price. */
  lemma ListedPrices(i: int)
    requires 0 <= i < |LessonTypes|
    ensures PriceFor(LessonTypes[i].value) == LessonTypes[i].price
  {
  }

  /** The confirm button's `disabled`. */
  function ConfirmDisabled(isPending: bool, selectedDate: Option<Day>, selectedTime: string): (d: bool)
    ensures !d <==> !isPending && selectedDate.Some? && selectedTime != ""
  {
    isPending || selectedDate.None? || selectedTime == ""
  }

  /** A confirm that is enabled never meets the date-and-time guard. */
  lemma EnabledPassesGuard(data: LessonForm, selectedDate: Option<Day>, selectedTime: string,
                           setHours: (Day, int, int) -> Timestamp)
    requires !ConfirmDisabled(false, selectedDate, selectedTime)
    ensures BookingRequest(data, selectedDate, selectedTime, setHours) != Failure(SelectDateAndTime)
  {
  }

  // ----------------------------------------------------------------- dialog

  /** The dialog's state. `closeRequests` counts the calls to `onClose`. */
  class BookingDialog {
    var selectedDate: Option<Day>
    var selectedTime: string
    var form: LessonForm
    var closeRequests: nat

    predicate Cleared()
      reads this
    {
      selectedDate.None? && selectedTime == "" && form == DefaultForm
    }

    constructor ()
      ensures Cleared() && closeRequests == 0
    {
      selectedDate := None;
      selectedTime := "";
      form := DefaultForm;
      closeRequests := 0;
    }

    method SelectDate(day: Option<Day>)
      modifies this
      ensures selectedDate == day
      ensures selectedTime == old(selectedTime) && form == old(form) && closeRequests == old(closeRequests)
    {
      selectedDate := day;
    }

    method SelectTime(slot: string)
      modifies this
      ensures selectedTime == slot
      ensures selectedDate == old(selectedDate) && form == old(form) && closeRequests == old(closeRequests)
    {
      selectedTime := slot;
    }

    method EditForm(values: LessonForm)
      modifies this
      ensures form == values
      ensures selectedDate == old(selectedDate) && selectedTime == old(selectedTime)
      ensures closeRequests == old(closeRequests)
    {
      form := values;
    }

    /** The booking mutation's request, step by step: the guard, the two
        splits, the hour adjusted in place, and the body with the placeholder
        teacher. The dialog itself is left as it was. */
    method Confirm(setHours: (Day, int, int) -> Timestamp) returns (r: Result<LessonBody, string>)
      ensures r == BookingRequest(form, selectedDate, selectedTime, setHours)
    {
      if selectedDate.None? || selectedTime == "" {
        return Failure(SelectDateAndTime);
      }
      var parts := Text.Split(selectedTime, ' ');
      var period := if |parts| > 1 then Some(parts[1]) else None;
      var hm := Text.Split(parts[0], ':');
      var hours := Text.ParseInt(hm[0]);
      var minutes := Text.ParseInt(if |hm| > 1 && hm[1] != "" then hm[1] else "0");
      assert SlotClock(selectedTime) == ClockOf(hm, period);
      if hours.None? || minutes.None? {
        assert SlotClock(selectedTime).None?;
        return Failure(InvalidTimeValue);
      }
      var hour := hours.value;
      if period == Some("PM") && hour != 12 {
        hour := hour + 12;
      }
      if period == Some("AM") && hour == 12 {
        hour := 0;
      }
      assert hour == Hour24(hours.value, period);
      assert SlotClock(selectedTime) == Some(Clock(hour, minutes.value));
      var scheduledAt := setHours(selectedDate.value, hour, minutes.value);
      r := Success(LessonBody(None, Some(PlaceholderTeacher), Some(form.title), Some(form.description),
                              Some(form.lessonType), Some(form.focusArea),
                              Some(DateString(scheduledAt)), Some(form.duration), None,
                              Some(form.notes), Some(form.price)));
    }

    /** The price shown for the lesson type now chosen. */
    function Price(): (p: int)
      reads this
      ensures p > 0
    {
      PriceFor(form.lessonType)
    }

    /** `handleClose`: tell the parent, reset the form to its defaults, and
        clear the date and the time. */
    method HandleClose()
      modifies this
      ensures Cleared() && closeRequests == old(closeRequests) + 1
    {
      closeRequests := closeRequests + 1;
      form := DefaultForm;
      selectedDate := None;
      selectedTime := "";
    }

    /** The mutation's `onSuccess` does what closing does. */
    method BookingSucceeded()
      modifies this
      ensures Cleared() && closeRequests == old(closeRequests) + 1
    {
      closeRequests := closeRequests + 1;
      form := DefaultForm;
      selectedDate := None;
      selectedTime := "";
    }

    /** After either reset the confirm button stays disabled until a date and a time are chosen again. */
    lemma ClearedDisablesConfirm(isPending: bool)
      requires Cleared()
      ensures ConfirmDisabled(isPending, selectedDate, selectedTime)
    {
    }
  }
}
