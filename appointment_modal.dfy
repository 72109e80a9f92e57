/**
 * The create/edit dialog of the scheduler (`src/components/scheduler/appointment-modal.tsx`).
 *
 * The dialog keeps a copy of the appointment being edited, `formData`. The copy's start and
 * end are JavaScript `Date` objects, which can become an Invalid Date when a time or date
 * field does not parse; here such an instant is `None`. The text inputs, the time inputs
 * ("HH:MM") and the date input ("yyyy-MM-dd") each replace `formData` with an updated copy.
 */
module AppointmentModal {
  import opened Common
  import opened Text
  import opened Calendar
  import opened Appointments

  /** A `Date` held by the form: `None` is an Invalid Date (time value NaN). */
  type Instant = Option<Time>

  /** `formData`: an appointment whose start and end may be invalid. */
  datatype Form = Form(
    id: string,
    title: string,
    patientName: string,
    start: Instant,
    end: Instant,
    notes: string,
    color: string)

  /** The inputs wired to `handleChange`, by their `name` attribute. */
  datatype TextField = Title | PatientName | Color | Notes

  /** The form holding an existing appointment unchanged. */
  function FormOf(a: Appointment): Form
  {
    Form(a.id, a.title, a.patientName, Some(a.start), Some(a.end), a.notes, a.color)
  }

  /** What `onSave` hands on, when both instants are valid dates. */
  function ToAppointment(f: Form): Option<Appointment>
  {
    if f.start.Some? && f.end.Some? then
      Some(Appointment(f.id, f.title, f.patientName, f.start.value, f.end.value, f.notes, f.color))
    else None
  }

  /** The `useState` initial value: both instants are the clock reading `now`. */
  function InitialForm(now: Time): Form
  {
    Form("", "", "", Some(now), Some(now), "", DefaultColor)
  }

  /**
   * The reset effect: the appointment being edited, or a blank form for today from 09:00
   * to 10:00 (`setHours(9, 0, 0, 0)` and `setHours(10, 0, 0, 0)` on two readings of the clock,
   * both taken as `now`).
   */
  function Reset(appointment: Option<Appointment>, now: Time): Form
  {
    match appointment
    case Some(a) => FormOf(a)
    case None => Form("", "", "", Some(SetHours(now, 9, 0, 0, 0)), Some(SetHours(now, 10, 0, 0, 0)), "", DefaultColor)
  }

  /**
   * With an appointment the form holds exactly that appointment; without one it is blank,
   * in the default colour, from 09:00:00.000 to 10:00:00.000 of the day of `now`.
   */
  lemma ResetForm(appointment: Option<Appointment>, now: Time)
    ensures var f := Reset(appointment, now);
      appointment.Some? ==> ToAppointment(f) == appointment
    ensures var f := Reset(appointment, now);
      appointment.None? ==>
        f.id == "" && f.title == "" && f.patientName == "" && f.notes == "" && f.color == "#3b82f6" &&
        f.start.Some? && f.end.Some? &&
        SameDay(f.start.value, now) && Hours(f.start.value) == 9 && Minutes(f.start.value) == 0 &&
        Seconds(f.start.value) == 0 && Milliseconds(f.start.value) == 0 &&
        SameDay(f.end.value, now) && Hours(f.end.value) == 10 && Minutes(f.end.value) == 0 &&
        Seconds(f.end.value) == 0 && Milliseconds(f.end.value) == 0
  {
    MakeTimeFields(DayNumber(now), 9, 0, 0, 0);
    MakeTimeFields(DayNumber(now), 10, 0, 0, 0);
  }

  /** `handleChange`: `{ ...prev, [name]: value }` for one of the text inputs. */
  function WithText(f: Form, field: TextField, value: string): (r: Form)
    ensures r.id == f.id && r.start == f.start && r.end == f.end
    ensures r.title == (if field == Title then value else f.title)
    ensures r.patientName == (if field == PatientName then value else f.patientName)
    ensures r.color == (if field == Color then value else f.color)
    ensures r.notes == (if field == Notes then value else f.notes)
  {
    match field
    case Title => f.(title := value)
    case PatientName => f.(patientName := value)
    case Color => f.(color := value)
    case Notes => f.(notes := value)
  }

  // ---------------------------------------------------------------------------------------
  // Time inputs

  /** `formatTimeForInput` on hour and minute: both padded to two digits, joined by ":". */
  function TimeText(hours: nat, minutes: nat): string
  {
    PadStart(NatToString(hours), 2) + ":" + PadStart(NatToString(minutes), 2)
  }

  /** `formatTimeForInput(date)`. */
  function FormatTimeForInput(t: Time): string
  {
    TimeText(Hours(t), Minutes(t))
  }

  /** `value.split(":").map(Number)`, destructured as `[hours, minutes]`. */
  function ParseTimeValue(value: string): (Option<int>, Option<int>)
  {
    var pieces := Split(value, ':');
    (JsNumberOpt(PieceAt(pieces, 0)), JsNumberOpt(PieceAt(pieces, 1)))
  }

  /** The formatted time is "HH:MM": two digits, a colon, two digits. */
  lemma TimeTextShape(hours: nat, minutes: nat)
    requires hours < 100 && minutes < 100
    ensures var s := TimeText(hours, minutes);
      |s| == 5 && s[2] == ':' && AllDigits(s[..2]) && AllDigits(s[3..])
  {
    PaddedNumber(hours, 2);
    PaddedNumber(minutes, 2);
    JoinedPair(PadStart(NatToString(hours), 2), PadStart(NatToString(minutes), 2), ':');
  }

  lemma JoinedPair(a: string, b: string, sep: char)
    requires |a| == 2 && |b| == 2
    ensures var s := a + [sep] + b; |s| == 5 && s[2] == sep && s[..2] == a && s[3..] == b
  {
    var s := a + [sep] + b;
    assert s[..2] == a;
    assert s[3..] == b;
  }

  /** Splitting a formatted time on ":" and reading both parts with `Number` gives it back. */
  lemma TimeTextRoundTrip(hours: nat, minutes: nat)
    ensures ParseTimeValue(TimeText(hours, minutes)) == (Some(hours as int), Some(minutes as int))
  {
    PaddedNumber(hours, 2);
    PaddedNumber(minutes, 2);
    SplitDigits2(PadStart(NatToString(hours), 2), PadStart(NatToString(minutes), 2), ':');
  }

  /**
   * `newDate.setHours(hours, minutes)` on a copy: two arguments keep the seconds and
   * milliseconds; a NaN argument or an Invalid Date gives an Invalid Date.
   */
  function SetHoursMinutes(d: Instant, hours: Option<int>, minutes: Option<int>): Instant
  {
    if d.Some? && hours.Some? && minutes.Some? then
      Some(SetHours(d.value, hours.value, minutes.value, Seconds(d.value), Milliseconds(d.value)))
    else None
  }

  /** `handleTimeChange`: the input named "startTime" sets `start`, any other one sets `end`. */
  function TimeChanged(f: Form, name: string, value: string): Form
  {
    var (hours, minutes) := ParseTimeValue(value);
    if name == "startTime" then f.(start := SetHoursMinutes(f.start, hours, minutes))
    else f.(end := SetHoursMinutes(f.end, hours, minutes))
  }

  /**
   * A time change touches one instant only: `start` for "startTime", `end` otherwise. That
   * instant stays valid exactly when it was and both parts parse; with an in-range hour and
   * minute it keeps its day, seconds and milliseconds and takes the new hour and minute.
   */
  lemma TimeChangeEffect(f: Form, name: string, value: string)
    ensures var r := TimeChanged(f, name, value);
      if name == "startTime" then r.(start := f.start) == f else r.(end := f.end) == f
    ensures var r := TimeChanged(f, name, value);
      var (before, after) := if name == "startTime" then (f.start, r.start) else (f.end, r.end);
      var (hours, minutes) := ParseTimeValue(value);
      (after.Some? <==> before.Some? && hours.Some? && minutes.Some?) &&
      (after.Some? && 0 <= hours.value < 24 && 0 <= minutes.value < 60 ==>
        SameDay(after.value, before.value) &&
        Hours(after.value) == hours.value && Minutes(after.value) == minutes.value &&
        Seconds(after.value) == Seconds(before.value) &&
        Milliseconds(after.value) == Milliseconds(before.value))
  {
    var (hours, minutes) := ParseTimeValue(value);
    var before := if name == "startTime" then f.start else f.end;
    if before.Some? && hours.Some? && minutes.Some? && 0 <= hours.value < 24 && 0 <= minutes.value < 60 {
      var t := before.value;
      MakeTimeFields(DayNumber(t), hours.value, minutes.value, Seconds(t), Milliseconds(t));
    }
  }

  /** Typing back the time the input shows changes nothing. */
  lemma TimeInputRoundTrip(f: Form, name: string)
    requires if name == "startTime" then f.start.Some? else f.end.Some?
    ensures var t := if name == "startTime" then f.start.value else f.end.value;
      TimeChanged(f, name, FormatTimeForInput(t)) == f
  {
    var t := if name == "startTime" then f.start.value else f.end.value;
    TimeTextRoundTrip(Hours(t), Minutes(t));
    TimeFields(t);
  }

  // ---------------------------------------------------------------------------------------
  // Date input

  /** date-fns "yyyy": the year of the era (year 0 is 1 BC), padded to four digits. */
  function YearText(year: int): string
  {
    PadStart(NatToString(if year > 0 then year else 1 - year), 4)
  }

  /** `format(date, "yyyy-MM-dd")` on year, 1-based month and day. */
  function DateText(year: int, month: nat, day: nat): string
  {
    YearText(year) + "-" + PadStart(NatToString(month), 2) + "-" + PadStart(NatToString(day), 2)
  }

  /** `formatDateForInput(date)`. */
  function FormatDateForInput(t: Time): string
  {
    CivilOfValid(t);
    DateText(FullYear(t), Month0(t) + 1, Date(t))
  }

  /** `value.split("-").map(Number)`, destructured as `[year, month, day]`. */
  function ParseDateValue(value: string): (Option<int>, Option<int>, Option<int>)
  {
    var pieces := Split(value, '-');
    (JsNumberOpt(PieceAt(pieces, 0)), JsNumberOpt(PieceAt(pieces, 1)), JsNumberOpt(PieceAt(pieces, 2)))
  }

  /**
   * Splitting a formatted date on "-" and reading the parts with `Number` gives back the
   * year of the era, the month and the day: the year itself from year 1 on, `1 - year`
   * before it.
   */
  lemma DateTextRoundTrip(year: int, month: nat, day: nat)
    ensures ParseDateValue(DateText(year, month, day)) ==
      (Some(if year > 0 then year else 1 - year), Some(month as int), Some(day as int))
  {
    var era: nat := if year > 0 then year else 1 - year;
    PaddedNumber(era, 4);
    PaddedNumber(month, 2);
    PaddedNumber(day, 2);
    SplitDigits3(YearText(year), PadStart(NatToString(month), 2), PadStart(NatToString(day), 2), '-');
  }

  /**
   * `newDate.setFullYear(year, month - 1, day)` on a copy: an Invalid Date starts from time
   * value 0 (midnight of 1970-01-01); a NaN argument gives an Invalid Date.
   */
  function SetCalendarDate(d: Instant, year: Option<int>, month: Option<int>, day: Option<int>): Instant
  {
    if year.Some? && month.Some? && day.Some? then
      Some(SetFullYear(if d.Some? then d.value else 0, year.value, month.value - 1, day.value))
    else None
  }

  /** `handleDateChange`: the same calendar date is set on `start` and on `end`. */
  function DateChanged(f: Form, value: string): Form
  {
    var (year, month, day) := ParseDateValue(value);
    DateSet(f, year, month, day)
  }

  /** Both instants of the form set to the same (possibly NaN) year, month and day. */
  function DateSet(f: Form, year: Option<int>, month: Option<int>, day: Option<int>): Form
  {
    f.(start := SetCalendarDate(f.start, year, month, day), end := SetCalendarDate(f.end, year, month, day))
  }

  /**
   * A date change touches only `start` and `end`. Both become valid exactly when all three
   * parts parse; for a real calendar date both then fall on it and keep their time of day
   * (an Invalid Date is given midnight).
   */
  lemma DateChangeEffect(f: Form, value: string)
    ensures var r := DateChanged(f, value);
      r.(start := f.start, end := f.end) == f
    ensures var r := DateChanged(f, value);
      var (year, month, day) := ParseDateValue(value);
      (r.start.Some? <==> year.Some? && month.Some? && day.Some?) &&
      (r.end.Some? <==> year.Some? && month.Some? && day.Some?)
    ensures var r := DateChanged(f, value);
      var (year, month, day) := ParseDateValue(value);
      r.start.Some? && ValidCivil(Civil(year.value, month.value, day.value)) ==>
        OnDate(r.start.value, year.value, month.value, day.value) &&
        OnDate(r.end.value, year.value, month.value, day.value) &&
        TimeInDay(r.start.value) == (if f.start.Some? then TimeInDay(f.start.value) else 0) &&
        TimeInDay(r.end.value) == (if f.end.Some? then TimeInDay(f.end.value) else 0)
  {
    var (year, month, day) := ParseDateValue(value);
    SetCalendarDateEffect(f.start, year, month, day);
    SetCalendarDateEffect(f.end, year, month, day);
  }

  lemma SetCalendarDateEffect(d: Instant, year: Option<int>, month: Option<int>, day: Option<int>)
    ensures var r := SetCalendarDate(d, year, month, day);
      (r.Some? <==> year.Some? && month.Some? && day.Some?) &&
      (r.Some? && ValidCivil(Civil(year.value, month.value, day.value)) ==>
        OnDate(r.value, year.value, month.value, day.value) &&
        TimeInDay(r.value) == (if d.Some? then TimeInDay(d.value) else 0))
  {
    if year.Some? && month.Some? && day.Some? && ValidCivil(Civil(year.value, month.value, day.value)) {
      var base := if d.Some? then d.value else 0;
      var u := SetFullYear(base, year.value, month.value - 1, day.value);
      assert SetCalendarDate(d, year, month, day) == Some(u);
      SetOnDate(u, base, year.value, month.value, day.value);
    }
  }

  lemma SetOnDate(u: Time, t: Time, year: int, month: int, day: int)
    requires ValidCivil(Civil(year, month, day)) && u == SetFullYear(t, year, month - 1, day)
    ensures OnDate(u, year, month, day) && TimeInDay(u) == TimeInDay(t)
  {
    SetFullYearFields(t, year, month, day);
  }

  /** `t` falls on the given year, 1-based month and day. */
  predicate OnDate(t: Time, year: int, month: int, day: int)
  {
    FullYear(t) == year && Month0(t) == month - 1 && Date(t) == day
  }

  /**
   * From year 1 on, submitting the date the input shows keeps `start` as it is and moves
   * `end` to the same calendar date, at its own time of day.
   */
  lemma DateInputRoundTrip(f: Form)
    requires f.start.Some? && FullYear(f.start.value) >= 1
    ensures var r := DateChanged(f, FormatDateForInput(f.start.value));
      r.start == f.start && r.end.Some? &&
      (f.end.Some? ==> SameDay(r.end.value, f.start.value) && TimeInDay(r.end.value) == TimeInDay(f.end.value))
  {
    var t := f.start.value;
    DateInputParts(t);
    MakeDayOfTime(t);
    OwnDateChange(f, FullYear(t), Month0(t), Date(t));
  }

  /** Setting the date `start` already has keeps `start` and moves `end` onto that day. */
  lemma OwnDateChange(f: Form, year: int, month0: int, day: int)
    requires f.start.Some? && MakeDay(year, month0, day) == DayNumber(f.start.value)
    ensures var r := DateSet(f, Some(year), Some(month0 + 1), Some(day));
      r.start == f.start && r.end.Some? &&
      (f.end.Some? ==> SameDay(r.end.value, f.start.value) && TimeInDay(r.end.value) == TimeInDay(f.end.value))
  {
    var t := f.start.value;
    SetFullYearOn(t, year, month0, day, DayNumber(t));
    assert t == DayNumber(t) * MsPerDay + TimeInDay(t);
    if f.end.Some? {
      SetFullYearOn(f.end.value, year, month0, day, DayNumber(t));
    }
  }

  /** The date input shows `t`'s year, 1-based month and date, from year 1 on. */
  lemma DateInputParts(t: Time)
    requires FullYear(t) >= 1
    ensures ParseDateValue(FormatDateForInput(t)) == (Some(FullYear(t)), Some(Month0(t) + 1), Some(Date(t)))
  {
    CivilOfValid(t);
    DateTextRoundTrip(FullYear(t), Month0(t) + 1, Date(t));
  }

  // ---------------------------------------------------------------------------------------
  // Rendering the inputs

  /** The outcome of rendering the date input: its text, or the `RangeError` that `format` throws. */
  datatype Rendered = Shown(text: string) | RangeError

  /**
   * The value of a time input: `formatTimeForInput(date)`; on an Invalid Date `getHours()`
   * is NaN, whose text "NaN" is already longer than the padding, giving "NaN:NaN".
   */
  function TimeInputValue(d: Instant): string
  {
    if d.Some? then FormatTimeForInput(d.value) else "NaN:NaN"
  }

  /** The value of the date input: `format(date, "yyyy-MM-dd")`, which throws on an Invalid Date. */
  function DateInputValue(d: Instant): Rendered
  {
    if d.Some? then Shown(FormatDateForInput(d.value)) else RangeError
  }

  /**
   * The date input renders exactly when its instant is valid. A valid instant shows a time
   * that reads back as its hour and minute; an Invalid Date shows "NaN:NaN", which reads
   * back as two NaNs, so typing it keeps the instant invalid.
   */
  lemma InputValues(d: Instant)
    ensures DateInputValue(d).RangeError? <==> d.None?
    ensures d.Some? ==> ParseTimeValue(TimeInputValue(d)) == (Some(Hours(d.value)), Some(Minutes(d.value)))
    ensures d.None? ==> TimeInputValue(d) == "NaN:NaN" && ParseTimeValue(TimeInputValue(d)) == (None, None)
  {
    if d.Some? {
      TimeTextRoundTrip(Hours(d.value), Minutes(d.value));
    } else {
      var nan := "NaN";
      assert "NaN:NaN" == nan + [':'] + nan;
      SplitCons(nan, nan, ':');
      assert Split(nan, ':') == [nan];
      assert !IsJsWhitespace('N');
      assert TrimEnd(TrimStart(nan)) == nan;
      assert !IsDigit(nan[0]);
    }
  }

  /**
   * Clearing the date input makes both instants Invalid Dates (`"".split("-")` has no month
   * or day part), after which rendering the date input throws.
   */
  lemma ClearedDateThrows(f: Form)
    ensures DateChanged(f, "").start.None? && DateChanged(f, "").end.None?
    ensures DateInputValue(DateChanged(f, "").start) == RangeError
  {
    assert Split("", '-') == [""];
  }

  // ---------------------------------------------------------------------------------------

  /** The dialog's state: its `appointment` prop and `formData`. */
  class AppointmentModalState {
    var appointment: Option<Appointment>
    var formData: Form

    /** Mounting, before the effect runs: `useState` with the clock reading `now`. */
    constructor(appointment: Option<Appointment>, now: Time)
      ensures this.appointment == appointment && formData == InitialForm(now)
    {
      this.appointment := appointment;
      formData := InitialForm(now);
    }

    /** The reset effect, run after mounting and whenever `appointment` or `isOpen` change. */
    method ResetEffect(appointment: Option<Appointment>, now: Time)
      modifies this
      ensures this.appointment == appointment && formData == Reset(appointment, now)
    {
      this.appointment := appointment;
      if appointment.Some? {
        formData := FormOf(appointment.value);
      } else {
        var start := SetHours(now, 9, 0, 0, 0);
        var end := SetHours(now, 10, 0, 0, 0);
        formData := Form("", "", "", Some(start), Some(end), "", DefaultColor);
      }
    }

    method HandleChange(field: TextField, value: string)
      modifies this
      ensures formData == WithText(old(formData), field, value) && appointment == old(appointment)
    {
      formData := WithText(formData, field, value);
    }

    method HandleTimeChange(name: string, value: string)
      modifies this
      ensures formData == TimeChanged(old(formData), name, value) && appointment == old(appointment)
    {
      var (hours, minutes) := ParseTimeValue(value);
      if name == "startTime" {
        formData := formData.(start := SetHoursMinutes(formData.start, hours, minutes));
      } else {
        formData := formData.(end := SetHoursMinutes(formData.end, hours, minutes));
      }
    }

    method HandleDateChange(value: string)
      modifies this
      ensures formData == DateChanged(old(formData), value) && appointment == old(appointment)
    {
      var (year, month, day) := ParseDateValue(value);
      var newStart := SetCalendarDate(formData.start, year, month, day);
      var newEnd := SetCalendarDate(formData.end, year, month, day);
      formData := formData.(start := newStart, end := newEnd);
    }

    /** `handleSubmit`: what is passed to `onSave` is the form as it stands. */
    method HandleSubmit() returns (saved: Form)
      ensures saved == formData
    {
      saved := formData;
    }

    /** `handleDelete`: the id passed to `onDelete`, only for an appointment with a non-empty id. */
    method HandleDelete() returns (deleted: Option<string>)
      ensures deleted.Some? <==> appointment.Some? && appointment.value.id != ""
      ensures deleted.Some? ==> deleted.value == appointment.value.id
    {
      if appointment.Some? && appointment.value.id != "" {
        deleted := Some(appointment.value.id);
      } else {
        deleted := None;
      }
    }
  }
}
