/**
 * The scheduler component (`appointment-scheduler.tsx`): the list of appointments, the
 * current date and view, and the modal state, with the handlers that change them and the
 * filter that picks what the active view shows.
 */
module Scheduler {
  import opened Common
  import opened Text
  import opened Calendar
  import opened Appointments
  import opened WeeklyLayout

  // ---------------------------------------------------------------------------------------
  // Filters

  /** Whether the active view shows an appointment starting at `start`. */
  predicate InView(view: ViewType, date: Time, start: Time)
  {
    match view
    case Daily => SameDay(start, date)
    case Weekly => StartOfWeek(date) <= start && start <= EndOfWeek(date)
    case Monthly => SameMonth(start, date) || (StartOfMonth(date) <= start && start <= EndOfMonth(date))
  }

  /** `filteredAppointments`. */
  function Filtered(appointments: seq<Appointment>, date: Time, view: ViewType): seq<Appointment>
  {
    Filter(appointments, (a: Appointment) => InView(view, date, a.start))
  }

  /** Membership and multiplicity: the filter keeps exactly the shown appointments, each as often as before. */
  lemma FilteredCount(appointments: seq<Appointment>, date: Time, view: ViewType, a: Appointment)
    ensures multiset(Filtered(appointments, date, view))[a] ==
      if InView(view, date, a.start) then multiset(appointments)[a] else 0
    ensures a in Filtered(appointments, date, view) <==> a in appointments && InView(view, date, a.start)
  {
    FilterCount(appointments, (a: Appointment) => InView(view, date, a.start), a);
    FilterMembers(appointments, (a: Appointment) => InView(view, date, a.start), a);
  }

  /**
   * The day view shows the appointments starting on the current calendar day: same year,
   * month and day of the month, which is the window from the current day's midnight to the
   * next one.
   */
  lemma DailyFilter(date: Time, start: Time)
    ensures InView(Daily, date, start) <==>
      FullYear(start) == FullYear(date) && Month0(start) == Month0(date) && Date(start) == Date(date)
    ensures InView(Daily, date, start) <==> StartOfDay(date) <= start < StartOfDay(date) + MsPerDay
  {
    SameDayFields(start, date);
    DayRange(start, DayNumber(date), DayNumber(date) + 1);
  }

  /**
   * The week view's window, both ends inclusive, holds exactly the appointments whose week
   * (Monday to Sunday) is the current date's week, which are those starting on one of the
   * seven day columns of the week grid.
   */
  lemma WeeklyFilter(date: Time, start: Time)
    ensures InView(Weekly, date, start) <==> StartOfWeek(start) == StartOfWeek(date)
    ensures InView(Weekly, date, start) <==>
      exists i :: 0 <= i < 7 && DayNumber(start) == DayNumber(AddDays(StartOfWeek(date), i))
  {
    InWeekWindow(date, start);
    WeekWindow(date);
    WeekColumns(date, start);
  }

  lemma WeekColumns(date: Time, start: Time)
    ensures StartOfWeek(date) <= start <= EndOfWeek(date) <==>
      exists i :: 0 <= i < 7 && DayNumber(start) == DayNumber(AddDays(StartOfWeek(date), i))
  {
    var weekStart := StartOfWeek(date);
    WeekWindow(date);
    var monday := DayNumber(weekStart);
    DayNumberOf(monday, 0);
    DayRange(start, monday, monday + 7);
    if monday <= DayNumber(start) < monday + 7 {
      var i := DayNumber(start) - monday;
      AddDaysFields(weekStart, i);
    }
    forall i | 0 <= i < 7 && DayNumber(start) == DayNumber(AddDays(weekStart, i))
      ensures monday <= DayNumber(start) < monday + 7
    {
      AddDaysFields(weekStart, i);
    }
  }

  /** The month view's extra window test adds nothing: it shows the current calendar month. */
  lemma MonthlyFilter(date: Time, start: Time)
    ensures InView(Monthly, date, start) <==> SameMonth(start, date)
  {
    InMonthWindow(date, start);
  }

  // ---------------------------------------------------------------------------------------
  // Navigation

  /** `handlePrevious`'s update of the current date. */
  function Previous(view: ViewType, date: Time): Time
  {
    match view
    case Daily => AddDays(date, -1)
    case Weekly => AddDays(date, -7)
    case Monthly => NewDate(FullYear(date), Month0(date) - 1, 1)
  }

  /** `handleNext`'s update of the current date. */
  function Next(view: ViewType, date: Time): Time
  {
    match view
    case Daily => AddDays(date, 1)
    case Weekly => AddDays(date, 7)
    case Monthly => NewDate(FullYear(date), Month0(date) + 1, 1)
  }

  /** In the day and week views, going forward and back (either way round) returns to the same instant. */
  lemma NextPrevious(view: ViewType, date: Time)
    requires view != Monthly
    ensures Previous(view, Next(view, date)) == date
    ensures Next(view, Previous(view, date)) == date
    ensures DayNumber(Next(view, date)) == DayNumber(date) + (if view == Daily then 1 else 7)
    ensures TimeInDay(Next(view, date)) == TimeInDay(date)
  {
    AddDaysFields(date, if view == Daily then 1 else 7);
  }

  /**
   * The month view moves from a date in 0-based month `m0` of year `y` to midnight of the
   * 1st of the following month, rolling December over into January of the next year. The
   * constructor reads a year from 0 to 99 as 1900 + y, so from those years it lands in the
   * twentieth century.
   */
  lemma NextMonthFirst(y: int, m0: int)
    requires 0 <= m0 < 12
    ensures var r := NewDate(y, m0 + 1, 1);
      var year := if 0 <= y <= 99 then 1900 + y else y;
      Date(r) == 1 && TimeInDay(r) == 0 &&
      (if m0 == 11 then FullYear(r) == year + 1 && Month0(r) == 0
       else FullYear(r) == year && Month0(r) == m0 + 1)
  {
    var year := ConstructorYear(y);
    NewDateNextMonth(y, m0);
    if m0 == 11 {
      FirstOfMonth(year + 1, 1);
    } else {
      FirstOfMonth(year, m0 + 2);
    }
  }

  /**
   * The month view moves back to midnight of the 1st of the preceding month, with the same
   * reading of years 0 to 99.
   */
  lemma PreviousMonthFirst(y: int, m0: int)
    requires 0 <= m0 < 12
    ensures var r := NewDate(y, m0 - 1, 1);
      var year := if 0 <= y <= 99 then 1900 + y else y;
      Date(r) == 1 && TimeInDay(r) == 0 &&
      (if m0 == 0 then FullYear(r) == year - 1 && Month0(r) == 11
       else FullYear(r) == year && Month0(r) == m0 - 1)
  {
    var year := ConstructorYear(y);
    NewDatePreviousMonth(y, m0);
    if m0 == 0 {
      FirstOfMonth(year - 1, 12);
    } else {
      FirstOfMonth(year, m0);
    }
  }

  /** `handleNext` in the month view, on the current date. */
  lemma MonthlyNext(date: Time)
    ensures var r := Next(Monthly, date);
      var year := if 0 <= FullYear(date) <= 99 then 1900 + FullYear(date) else FullYear(date);
      Date(r) == 1 && TimeInDay(r) == 0 &&
      (if Month0(date) == 11 then FullYear(r) == year + 1 && Month0(r) == 0
       else FullYear(r) == year && Month0(r) == Month0(date) + 1)
  {
    Month0Range(date);
    NextMonthFirst(FullYear(date), Month0(date));
  }

  /** `handlePrevious` in the month view, on the current date. */
  lemma MonthlyPrevious(date: Time)
    ensures var r := Previous(Monthly, date);
      var year := if 0 <= FullYear(date) <= 99 then 1900 + FullYear(date) else FullYear(date);
      Date(r) == 1 && TimeInDay(r) == 0 &&
      (if Month0(date) == 0 then FullYear(r) == year - 1 && Month0(r) == 11
       else FullYear(r) == year && Month0(r) == Month0(date) - 1)
  {
    Month0Range(date);
    PreviousMonthFirst(FullYear(date), Month0(date));
  }

  /**
   * "next" from the last month of year 99 lands on 1 January 2000, not of year 100, since the
   * constructor reads year 99 as 1999.
   */
  lemma MonthlyNextTwoDigitYear(date: Time)
    requires FullYear(date) == 99 && Month0(date) == 11
    ensures var r := Next(Monthly, date);
      FullYear(r) == 2000 && Month0(r) == 0 && Date(r) == 1
  {
    MonthlyNext(date);
  }

  /**
   * In the month view, forward then back lands on midnight of the 1st of the original month,
   * of the year the constructor reads: a date in years 0 to 99 comes back 1900 years later,
   * and December of year -1 goes to January of year 0 and then back to December 1899.
   */
  lemma MonthlyNextPreviousYear(date: Time)
    ensures 0 <= Month0(date) < 12
    ensures var y, m0 := FullYear(date), Month0(date);
      var year := if 0 <= y <= 99 then 1900 + y else if y == -1 && m0 == 11 then 1899 else y;
      Previous(Monthly, Next(Monthly, date)) == DaysFromCivil(year, m0 + 1, 1) * MsPerDay
  {
    var y, m0 := FullYear(date), Month0(date);
    var ry, rm0 := NextFields(date);
    var r := MonthlyStep(date, 1);
    var p := MonthlyStep(r, -1);
    PreviousOfFirst(ry, rm0, y, m0);
  }

  /** The year and month "next" lands on, as the constructor reads them. */
  lemma NextFields(date: Time) returns (ry: int, rm0: int)
    ensures 0 <= Month0(date) < 12
    ensures FullYear(Next(Monthly, date)) == ry && Month0(Next(Monthly, date)) == rm0
    ensures var year := ConstructorYear(FullYear(date));
      (ry, rm0) == if Month0(date) == 11 then (year + 1, 0) else (year, Month0(date) + 1)
  {
    Month0Range(date);
    MonthlyNext(date);
    var year := ConstructorYear(FullYear(date));
    ry, rm0 := if Month0(date) == 11 then year + 1 else year, if Month0(date) == 11 then 0 else Month0(date) + 1;
  }

  /** The month view's step by `delta` months, as `new Date(getFullYear(), getMonth() + delta, 1)`. */
  lemma MonthlyStep(date: Time, delta: int) returns (r: Time)
    requires delta == 1 || delta == -1
    ensures r == NewDate(FullYear(date), Month0(date) + delta, 1)
    ensures r == if delta == 1 then Next(Monthly, date) else Previous(Monthly, date)
  {
    r := NewDate(FullYear(date), Month0(date) + delta, 1);
  }

  lemma PreviousOfFirst(ry: int, rm0: int, y: int, m0: int)
    requires 0 <= m0 < 12
    requires var year := ConstructorYear(y);
      (ry, rm0) == if m0 == 11 then (year + 1, 0) else (year, m0 + 1)
    ensures var year := if 0 <= y <= 99 then 1900 + y else if y == -1 && m0 == 11 then 1899 else y;
      NewDate(ry, rm0 - 1, 1) == DaysFromCivil(year, m0 + 1, 1) * MsPerDay
  {
    NextPreviousYear(y, m0);
    NewDatePreviousMonth(ry, rm0);
  }

  /** The year arithmetic of going forward a month and back, both through the constructor. */
  lemma NextPreviousYear(y: int, m0: int)
    ensures var year := ConstructorYear(y);
      (if m0 == 11 then ConstructorYear(year + 1) - 1 else ConstructorYear(year)) ==
      (if 0 <= y <= 99 then 1900 + y else if y == -1 && m0 == 11 then 1899 else y)
  {
  }

  /**
   * Outside years 0 to 99 (and December of year -1), forward then back in the month view
   * lands on the start of the original month.
   */
  lemma MonthlyNextPrevious(date: Time)
    ensures var y := FullYear(date);
      !(0 <= y <= 99) && !(y == -1 && Month0(date) == 11) ==>
      Previous(Monthly, Next(Monthly, date)) == StartOfMonth(date)
  {
    MonthlyNextPreviousYear(date);
    StartOfMonthDay(date);
  }

  // ---------------------------------------------------------------------------------------
  // List updates

  /** `handleSaveAppointment`'s update of the list; `now` is `Date.now()`. */
  function Saved(appointments: seq<Appointment>, a: Appointment, now: nat): seq<Appointment>
  {
    if a.id != [] then Map(appointments, (x: Appointment) => if x.id == a.id then a else x)
    else appointments + [a.(id := NatToString(now))]
  }

  /**
   * Saving under an existing id replaces every appointment with that id and nothing else;
   * when no appointment has the id the list is unchanged.
   */
  lemma SaveUpdates(appointments: seq<Appointment>, a: Appointment, now: nat)
    requires a.id != []
    ensures |Saved(appointments, a, now)| == |appointments|
    ensures forall i :: 0 <= i < |appointments| ==>
      Saved(appointments, a, now)[i] == if appointments[i].id == a.id then a else appointments[i]
    ensures (forall i :: 0 <= i < |appointments| ==> appointments[i].id != a.id) ==>
      Saved(appointments, a, now) == appointments
  {
  }

  /**
   * Saving without an id appends one copy of the appointment under the clock's decimal
   * digits, a non-empty id that reads back as the clock value. Nothing makes that id
   * distinct from the ids already in the list.
   */
  lemma SaveAppends(appointments: seq<Appointment>, a: Appointment, now: nat)
    requires a.id == []
    ensures var r := Saved(appointments, a, now);
      |r| == |appointments| + 1 && r[..|appointments|] == appointments &&
      Last(r).(id := a.id) == a &&
      Last(r).id == NatToString(now) && Last(r).id != [] && JsNumber(Last(r).id) == Some(now)
  {
    var r := Saved(appointments, a, now);
    assert r[..|appointments|] == appointments;
    JsNumberDigits(NatToString(now));
  }

  /** `handleDeleteAppointment`'s update of the list. */
  function Deleted(appointments: seq<Appointment>, id: string): seq<Appointment>
  {
    Filter(appointments, (x: Appointment) => x.id != id)
  }

  /**
   * Deleting leaves no appointment with the id and keeps every other appointment, as often
   * as before and in the same order.
   */
  lemma DeleteRemoves(appointments: seq<Appointment>, id: string, x: Appointment)
    ensures x in Deleted(appointments, id) ==> x.id != id
    ensures multiset(Deleted(appointments, id))[x] == if x.id != id then multiset(appointments)[x] else 0
  {
    FilterCount(appointments, (x: Appointment) => x.id != id, x);
    FilterMembers(appointments, (x: Appointment) => x.id != id, x);
  }

  /** Deleting the appointments of one list after another is deleting them from the concatenation. */
  lemma DeleteOrder(xs: seq<Appointment>, ys: seq<Appointment>, id: string)
    ensures Deleted(xs + ys, id) == Deleted(xs, id) + Deleted(ys, id)
  {
    FilterAppend(xs, ys, (x: Appointment) => x.id != id);
  }

  /** `handleMoveAppointment`'s update of the list. */
  function Moved(appointments: seq<Appointment>, id: string, newStart: Time, newEnd: Time): seq<Appointment>
  {
    Map(appointments, (x: Appointment) => if x.id == id then x.(start := newStart, end := newEnd) else x)
  }

  /** A move changes only `start` and `end`, and only of the appointments with the id. */
  lemma MoveOnlyTimes(appointments: seq<Appointment>, id: string, newStart: Time, newEnd: Time)
    ensures var r := Moved(appointments, id, newStart, newEnd);
      |r| == |appointments| &&
      forall i :: 0 <= i < |r| ==>
        r[i].(start := appointments[i].start, end := appointments[i].end) == appointments[i] &&
        (appointments[i].id != id ==> r[i] == appointments[i]) &&
        (appointments[i].id == id ==> r[i].start == newStart && r[i].end == newEnd)
  {
  }

  // ---------------------------------------------------------------------------------------
  // Component state

  class AppointmentScheduler {
    var currentDate: Time
    var view: ViewType
    var appointments: seq<Appointment>
    var isModalOpen: bool
    var selectedAppointment: Option<Appointment>

    /** The initial state: today, the day view, the given appointments, the modal closed. */
    constructor(now: Time, initial: seq<Appointment>)
      ensures currentDate == now && view == Daily && appointments == initial
      ensures !isModalOpen && selectedAppointment == None
    {
      currentDate := now;
      view := Daily;
      appointments := initial;
      isModalOpen := false;
      selectedAppointment := None;
    }

    /** What the active view is given. */
    function FilteredAppointments(): seq<Appointment>
      reads this
    {
      Filtered(appointments, currentDate, view)
    }

    /** The tabs: `setView`. */
    method SetView(v: ViewType)
      modifies this
      ensures view == v
      ensures currentDate == old(currentDate) && appointments == old(appointments)
      ensures isModalOpen == old(isModalOpen) && selectedAppointment == old(selectedAppointment)
    {
      view := v;
    }

    method HandlePrevious()
      modifies this
      ensures currentDate == Previous(view, old(currentDate))
      ensures view == old(view) && appointments == old(appointments)
      ensures isModalOpen == old(isModalOpen) && selectedAppointment == old(selectedAppointment)
    {
      currentDate := Previous(view, currentDate);
    }

    method HandleNext()
      modifies this
      ensures currentDate == Next(view, old(currentDate))
      ensures view == old(view) && appointments == old(appointments)
      ensures isModalOpen == old(isModalOpen) && selectedAppointment == old(selectedAppointment)
    {
      currentDate := Next(view, currentDate);
    }

    /** `handleToday`: `now` is the clock's reading. */
    method HandleToday(now: Time)
      modifies this
      ensures currentDate == now
      ensures view == old(view) && appointments == old(appointments)
      ensures isModalOpen == old(isModalOpen) && selectedAppointment == old(selectedAppointment)
    {
      currentDate := now;
    }

    /** `handleOpenModal(appointment = null)`. */
    method HandleOpenModal(appointment: Option<Appointment>)
      modifies this
      ensures isModalOpen && selectedAppointment == appointment
      ensures currentDate == old(currentDate) && view == old(view) && appointments == old(appointments)
    {
      selectedAppointment := appointment;
      isModalOpen := true;
    }

    /** The modal's `onClose`. */
    method CloseModal()
      modifies this
      ensures !isModalOpen
      ensures currentDate == old(currentDate) && view == old(view) && appointments == old(appointments)
      ensures selectedAppointment == old(selectedAppointment)
    {
      isModalOpen := false;
    }

    method HandleSaveAppointment(a: Appointment, now: nat)
      modifies this
      ensures appointments == Saved(old(appointments), a, now) && !isModalOpen
      ensures currentDate == old(currentDate) && view == old(view)
      ensures selectedAppointment == old(selectedAppointment)
    {
      appointments := Saved(appointments, a, now);
      isModalOpen := false;
    }

    method HandleDeleteAppointment(id: string)
      modifies this
      ensures appointments == Deleted(old(appointments), id) && !isModalOpen
      ensures currentDate == old(currentDate) && view == old(view)
      ensures selectedAppointment == old(selectedAppointment)
    {
      appointments := Deleted(appointments, id);
      isModalOpen := false;
    }

    /** `handleMoveAppointment`: the modal is left as it was. */
    method HandleMoveAppointment(move: Move)
      modifies this
      ensures appointments == Moved(old(appointments), move.appointment.id, move.newStart, move.newEnd)
      ensures currentDate == old(currentDate) && view == old(view)
      ensures isModalOpen == old(isModalOpen) && selectedAppointment == old(selectedAppointment)
    {
      appointments := Moved(appointments, move.appointment.id, move.newStart, move.newEnd);
    }
  }
}
