/**
 * The month grid (`monthly-view.tsx`): six weeks of day cells starting on the Monday on or
 * before the 1st, the appointments listed in each cell, the current-month flag and the
 * blank appointment a click on a cell proposes.
 */
module MonthlyView {
  import opened Common
  import opened Calendar
  import opened Appointments

  /** `addDays(monthStart, -monthStart.getDay() + (monthStart.getDay() === 0 ? -6 : 1))`. */
  function GridStart(date: Time): Time
  {
    MondayOnOrBefore(StartOfMonth(date))
  }

  function MondayOnOrBefore(monthStart: Time): Time
  {
    var day := Weekday(monthStart);
    AddDays(monthStart, -day + (if day == 0 then -6 else 1))
  }

  /** `eachDayOfInterval({ start: startDate, end: addDays(startDate, 41) })`. */
  function GridDays(date: Time): seq<Time>
  {
    Tabulate((i: nat) => AddDays(GridStart(date), i), 42)
  }

  /**
   * The grid starts at midnight of a Monday, no more than six days before the 1st of the
   * month: the 1st itself when it is a Monday, six days back when it is a Sunday.
   */
  lemma GridStartMonday(date: Time)
    ensures Weekday(GridStart(date)) == 1 && TimeInDay(GridStart(date)) == 0
    ensures var back := DayNumber(StartOfMonth(date)) - DayNumber(GridStart(date));
      0 <= back <= 6 && (back == 6 <==> Weekday(StartOfMonth(date)) == 0)
  {
    StartOfMonthMidnight(date);
    MondayOnOrBeforeMidnight(StartOfMonth(date));
  }

  lemma MondayOnOrBeforeMidnight(m: Time)
    requires TimeInDay(m) == 0
    ensures var g := MondayOnOrBefore(m);
      Weekday(g) == 1 && TimeInDay(g) == 0 &&
      0 <= DayNumber(m) - DayNumber(g) <= 6 && (DayNumber(m) - DayNumber(g) == 6 <==> Weekday(m) == 0)
  {
    var day := Weekday(m);
    var shift := -day + (if day == 0 then -6 else 1);
    AddDaysFields(m, shift);
    MondayShift(DayNumber(m), shift);
  }

  lemma MondayShift(z: int, shift: int)
    requires var day := (z + 4) % 7; shift == -day + (if day == 0 then -6 else 1)
    ensures (z + shift + 4) % 7 == 1
  {
    var day := (z + 4) % 7;
    DivMod(z + shift + 4, 7, (z + 4) / 7 - (if day == 0 then 1 else 0), 1);
  }

  /** The grid is 42 consecutive midnights. */
  lemma GridDaysConsecutive(date: Time)
    ensures |GridDays(date)| == 42
    ensures forall i :: 0 <= i < 42 ==>
      DayNumber(GridDays(date)[i]) == DayNumber(GridStart(date)) + i && TimeInDay(GridDays(date)[i]) == 0
  {
    var start := GridStart(date);
    GridStartMonday(date);
    TabulateAt((i: nat) => AddDays(start, i), 42);
    forall i | 0 <= i < 42
      ensures DayNumber(GridDays(date)[i]) == DayNumber(start) + i && TimeInDay(GridDays(date)[i]) == 0
    {
      AddDaysFields(start, i);
    }
  }

  /**
   * A cell is flagged as the current month exactly in the run of cells from the 1st to the
   * last day of the month.
   */
  lemma CurrentMonthCells(date: Time, i: nat)
    requires i < 42
    ensures var back := DayNumber(StartOfMonth(date)) - DayNumber(GridStart(date));
      0 <= Month0(date) < 12 &&
      (IsCurrentMonth(GridDays(date)[i], date) <==>
        back <= i < back + MonthLength(FullYear(date), Month0(date) + 1))
  {
    GridDaysConsecutive(date);
    MonthDays(date, GridDays(date)[i]);
  }

  /** Every day of the month has its cell, flagged as the current month, in the grid. */
  lemma MonthInGrid(date: Time, u: Time) returns (i: nat)
    requires SameMonth(u, date)
    ensures i < 42 && SameDay(GridDays(date)[i], u) && IsCurrentMonth(GridDays(date)[i], date)
  {
    var back, days := MonthCellIndex(date, u);
    i := back + days;
    GridDaysConsecutive(date);
    CurrentMonthCells(date, i);
  }

  lemma MonthCellIndex(date: Time, u: Time) returns (back: int, days: int)
    requires SameMonth(u, date)
    ensures back == DayNumber(StartOfMonth(date)) - DayNumber(GridStart(date))
    ensures days == DayNumber(u) - DayNumber(StartOfMonth(date))
    ensures 0 <= back <= 6 && 0 <= days < 31
  {
    MonthDays(date, u);
    GridStartMonday(date);
    back := DayNumber(StartOfMonth(date)) - DayNumber(GridStart(date));
    days := DayNumber(u) - DayNumber(StartOfMonth(date));
  }

  /** `isSameMonth(day, date)`. */
  predicate IsCurrentMonth(day: Time, date: Time)
  {
    SameMonth(day, date)
  }

  /** `getAppointmentsForDay`. */
  function AppointmentsForDay(appointments: seq<Appointment>, day: Time): seq<Appointment>
  {
    Filter(appointments, (a: Appointment) => SameDay(a.start, day))
  }

  /** A cell lists exactly the appointments starting that day, each as often as in the input. */
  lemma AppointmentsForDayCount(appointments: seq<Appointment>, day: Time, a: Appointment)
    ensures multiset(AppointmentsForDay(appointments, day))[a] ==
      if SameDay(a.start, day) then multiset(appointments)[a] else 0
  {
    FilterCount(appointments, (a: Appointment) => SameDay(a.start, day), a);
  }

  /** Cells list appointments in input order: listing a concatenation lists each part in turn. */
  lemma AppointmentsForDayOrder(xs: seq<Appointment>, ys: seq<Appointment>, day: Time)
    ensures AppointmentsForDay(xs + ys, day) == AppointmentsForDay(xs, day) + AppointmentsForDay(ys, day)
  {
    FilterAppend(xs, ys, (a: Appointment) => SameDay(a.start, day));
  }

  /**
   * `handleDayClick(day)`: the blank appointment proposed for `day`, and the value `day`
   * holds afterwards (`setHours` changes it in place). `setHours(h, 0, 0)` keeps the
   * milliseconds.
   */
  function DayClick(day: Time): (Appointment, Time)
  {
    var start := SetHours(day, 9, 0, 0, Milliseconds(day));
    var end := SetHours(start, 10, 0, 0, Milliseconds(start));
    (Appointment("", "", "", start, end, "", DefaultColor), end)
  }

  /**
   * Clicking a cell proposes an appointment without id, title, patient or notes, in the
   * default colour, from 09:00 to 10:00 of that day; the cell's day object is left at 10:00.
   */
  lemma DayClickBlank(day: Time)
    requires TimeInDay(day) == 0
    ensures var (a, after) := DayClick(day);
      a.id == "" && a.title == "" && a.patientName == "" && a.notes == "" && a.color == "#3b82f6" &&
      SameDay(a.start, day) && SameDay(a.end, day) &&
      Hours(a.start) == 9 && Minutes(a.start) == 0 && Seconds(a.start) == 0 && Milliseconds(a.start) == 0 &&
      Hours(a.end) == 10 && Minutes(a.end) == 0 && Seconds(a.end) == 0 && Milliseconds(a.end) == 0 &&
      a.end - a.start == MsPerHour && after == a.end
  {
    var z := DayNumber(day);
    assert Milliseconds(day) == 0;
    MakeTimeFields(z, 9, 0, 0, 0);
    MakeTimeFields(z, 10, 0, 0, 0);
  }
}
