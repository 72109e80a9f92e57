/**
 * The week grid (`weekly-view.tsx`) around the column layout: the drag state, the
 * `"d-h-m"` drop targets and the move a drop reports, and the box each positioned
 * appointment is drawn in.
 */
module WeeklyView {
  import opened Common
  import opened Text
  import opened Calendar
  import opened Appointments
  import opened WeeklyLayout

  // ---------------------------------------------------------------------------------------
  // Drop targets

  /** The id of the quarter-hour cell at `hour:minute` of day column `dayIndex`. */
  function SlotId(dayIndex: nat, hour: nat, minute: nat): string
  {
    NatToString(dayIndex) + "-" + NatToString(hour) + "-" + NatToString(minute)
  }

  /** The cells the grid renders: seven days, hours 8 to 19, four quarters each. */
  predicate IsWeekSlot(dayIndex: int, hour: int, minute: int)
  {
    0 <= dayIndex < 7 && 8 <= hour < 20 && (minute == 0 || minute == 15 || minute == 30 || minute == 45)
  }

  /** `const [dayIndex, hourStr, minuteStr] = id.split("-")`, each through `parseInt`. */
  function ParseSlot(id: string): Option<(int, int, int)>
  {
    var pieces := Split(id, '-');
    var day := ParseIntOpt(PieceAt(pieces, 0));
    var hour := ParseIntOpt(PieceAt(pieces, 1));
    var minute := ParseIntOpt(PieceAt(pieces, 2));
    if day.None? || hour.None? || minute.None? then None
    else Some((day.value, hour.value, minute.value))
  }

  /** Every generated id parses back to its own day, hour and minute. */
  lemma SlotIdRoundTrip(dayIndex: nat, hour: nat, minute: nat)
    ensures ParseSlot(SlotId(dayIndex, hour, minute)) == Some((dayIndex, hour, minute))
  {
    var pieces := [NatToString(dayIndex), NatToString(hour), NatToString(minute)];
    assert Join(pieces, '-') == SlotId(dayIndex, hour, minute) by {
      assert pieces[1..][1..] == [NatToString(minute)];
      assert Join(pieces[1..], '-') == NatToString(hour) + "-" + NatToString(minute);
    }
    forall i | 0 <= i < 3
      ensures '-' !in pieces[i]
    {
      DigitsExclude(pieces[i], '-');
    }
    SplitJoin(pieces, '-');
    ParseIntNatToStringOpt(dayIndex);
    ParseIntNatToStringOpt(hour);
    ParseIntNatToStringOpt(minute);
  }

  /** Different cells have different ids. */
  lemma SlotIdInjective(d1: nat, h1: nat, m1: nat, d2: nat, h2: nat, m2: nat)
    requires SlotId(d1, h1, m1) == SlotId(d2, h2, m2)
    ensures d1 == d2 && h1 == h2 && m1 == m2
  {
    SlotIdRoundTrip(d1, h1, m1);
    SlotIdRoundTrip(d2, h2, m2);
  }

  /** `newStart = new Date(weekStart); newStart.setDate(newStart.getDate() + day); newStart.setHours(hour, minute, 0, 0)`. */
  function DropStart(weekStart: Time, dayIndex: int, hour: int, minute: int): Time
  {
    SetHours(SetDate(weekStart, Date(weekStart) + dayIndex), hour, minute, 0, 0)
  }

  /**
   * `handleDragEnd` after clearing the drag state: the move reported for dragging the
   * appointment with id `active` onto the target `over` of the week containing `date`, or
   * `None` when nothing is reported.
   */
  function WeeklyDrop(active: string, over: Option<string>, date: Time, appointments: seq<Appointment>): Option<Move>
  {
    if over.None? then None
    else
      match FindById(appointments, active)
      case None => None
      case Some(a) =>
        match ParseSlot(over.value)
        case None => None
        case Some(slot) => Some(Reschedule(a, DropStart(StartOfWeek(date), slot.0, slot.1, slot.2)))
  }

  /**
   * A move is reported exactly when there is a target, an appointment with the dragged id
   * and a target id whose three parts parse; it moves that appointment and keeps its
   * duration to the millisecond.
   */
  lemma WeeklyDropOutcome(active: string, over: Option<string>, date: Time, appointments: seq<Appointment>)
    ensures WeeklyDrop(active, over, date, appointments).Some? <==>
      over.Some? && (exists i :: 0 <= i < |appointments| && appointments[i].id == active) &&
      ParseSlot(over.value).Some?
    ensures var r := WeeklyDrop(active, over, date, appointments);
      r.Some? ==>
        r.value.appointment in appointments && r.value.appointment.id == active &&
        r.value.newEnd - r.value.newStart == r.value.appointment.end - r.value.appointment.start
  {
  }

  /**
   * Dropping on cell (`dayIndex`, `hour`, `minute`) starts the appointment on day
   * `dayIndex` of the week, counted from its Monday, at `hour:minute:00.000`; that is the
   * day column the layout then shows it in.
   */
  lemma DropAtSlot(active: string, date: Time, appointments: seq<Appointment>, dayIndex: nat, hour: nat, minute: nat)
    requires FindById(appointments, active).Some?
    requires hour < 24 && minute < 60
    ensures var r := WeeklyDrop(active, Some(SlotId(dayIndex, hour, minute)), date, appointments);
      r.Some? &&
      DayNumber(r.value.newStart) == DayNumber(StartOfWeek(date)) + dayIndex &&
      Weekday(StartOfWeek(date)) == 1 &&
      Hours(r.value.newStart) == hour && Minutes(r.value.newStart) == minute &&
      Seconds(r.value.newStart) == 0 && Milliseconds(r.value.newStart) == 0 &&
      OnDay(StartOfWeek(date), dayIndex)(r.value.appointment.(start := r.value.newStart))
  {
    var weekStart := StartOfWeek(date);
    SlotIdRoundTrip(dayIndex, hour, minute);
    DropStartFields(weekStart, dayIndex, hour, minute);
    AddDaysFields(weekStart, dayIndex);
    WeekWindow(date);
  }

  /** The droppables the week grid registers as written: its cells are plain `div`s with an `id`. */
  const WeekGridDroppables: set<string> := {}

  /** The droppables of a week grid whose every cell registers its id with `useDroppable`. */
  function WeekSlotDroppables(): set<string>
  {
    set d: nat, h: nat, m: nat | d < 7 && 8 <= h < 20 && m < 60 && m % 15 == 0 :: SlotId(d, h, m)
  }

  lemma QuarterMinutes(m: nat)
    requires m < 60 && m % 15 == 0
    ensures m == 0 || m == 15 || m == 30 || m == 45
  {
  }

  /** As written, no drop on the week grid reports a move, wherever the mouse is. */
  lemma DropIgnoredAsWritten(active: string, hovered: Option<string>, date: Time, appointments: seq<Appointment>)
    ensures OverTarget(WeekGridDroppables, hovered).None?
    ensures WeeklyDrop(active, OverTarget(WeekGridDroppables, hovered), date, appointments).None?
  {
  }

  /**
   * With every cell registered, releasing an existing appointment over cell (`dayIndex`,
   * `hour`, `minute`) reports that cell, and the move starts it on that day of the week at
   * `hour:minute:00.000`.
   */
  lemma DropOnRegisteredSlot(active: string, date: Time, appointments: seq<Appointment>,
                             dayIndex: nat, hour: nat, minute: nat)
    requires IsWeekSlot(dayIndex, hour, minute) && FindById(appointments, active).Some?
    ensures var over := OverTarget(WeekSlotDroppables(), Some(SlotId(dayIndex, hour, minute)));
      var r := WeeklyDrop(active, over, date, appointments);
      over == Some(SlotId(dayIndex, hour, minute)) && r.Some? &&
      DayNumber(r.value.newStart) == DayNumber(StartOfWeek(date)) + dayIndex &&
      Hours(r.value.newStart) == hour && Minutes(r.value.newStart) == minute
  {
    var id := SlotId(dayIndex, hour, minute);
    assert id in WeekSlotDroppables() by {
      assert dayIndex < 7 && 8 <= hour < 20 && minute < 60 && minute % 15 == 0;
    }
    assert OverTarget(WeekSlotDroppables(), Some(id)) == Some(id);
    DropAtSlot(active, date, appointments, dayIndex, hour, minute);
  }

  /** With every cell registered, only a cell of the grid is ever reported as the target. */
  lemma RegisteredWeekTargets(hovered: Option<string>)
    requires OverTarget(WeekSlotDroppables(), hovered).Some?
    ensures exists d: nat, h: nat, m: nat :: IsWeekSlot(d, h, m) && hovered == Some(SlotId(d, h, m))
  {
    var d: nat, h: nat, m: nat :| d < 7 && 8 <= h < 20 && m < 60 && m % 15 == 0 && hovered.value == SlotId(d, h, m);
    QuarterMinutes(m);
    assert IsWeekSlot(d, h, m);
  }

  lemma DropStartFields(weekStart: Time, dayIndex: int, hour: int, minute: int)
    requires 0 <= hour < 24 && 0 <= minute < 60
    ensures var t := DropStart(weekStart, dayIndex, hour, minute);
      DayNumber(t) == DayNumber(weekStart) + dayIndex &&
      Hours(t) == hour && Minutes(t) == minute && Seconds(t) == 0 && Milliseconds(t) == 0
  {
    DropStartDay(weekStart, dayIndex, hour, minute);
    SlotTimeFields(DropStart(weekStart, dayIndex, hour, minute), DayNumber(weekStart) + dayIndex, hour, minute);
  }

  lemma SlotTimeFields(t: Time, day: int, hour: int, minute: int)
    requires t == MakeTime(day, hour, minute, 0, 0)
    requires 0 <= hour < 24 && 0 <= minute < 60
    ensures DayNumber(t) == day && Hours(t) == hour && Minutes(t) == minute && Seconds(t) == 0 && Milliseconds(t) == 0
  {
    MakeTimeFields(day, hour, minute, 0, 0);
  }

  lemma DropStartDay(weekStart: Time, dayIndex: int, hour: int, minute: int)
    ensures DropStart(weekStart, dayIndex, hour, minute) == MakeTime(DayNumber(weekStart) + dayIndex, hour, minute, 0, 0)
  {
    SetDateShift(weekStart, dayIndex);
    AddDaysFields(weekStart, dayIndex);
  }

  // ---------------------------------------------------------------------------------------
  // Drawing

  /** The style of an appointment block: `top` and `height` in pixels, `left` and `width` in percent. */
  datatype Box = Box(top: real, height: real, left: real, width: real)

  /** `top: startPosition + 48`, `height: Math.max(20, duration)`, `width: 100 / columnCount`, `left: column * width`. */
  function BoxOf(p: Positioned): Box
    requires p.columnCount > 0
  {
    var width := 100.0 / p.columnCount as real;
    Box(p.startPosition + 48.0, if 20.0 < p.duration then p.duration else 20.0, p.column as real * width, width)
  }

  /** Minutes from 8:00 to the time of day of `t`. */
  function MinutesFromEight(t: Time): int
  {
    (Hours(t) - 8) * 60 + Minutes(t)
  }

  /** The header offsets cancel: a block's top is 80 pixels per hour from 8:00. */
  lemma BoxTop(a: Appointment, column: int, count: int)
    requires count > 0
    ensures BoxOf(PositionOf(a, column, count)).top == MinutesFromEight(a.start) as real * 80.0 / 60.0
  {
  }

  /** A block is at least 20 pixels high, and exactly as high as its duration when that is more. */
  lemma BoxHeight(p: Positioned)
    requires p.columnCount > 0
    ensures BoxOf(p).height >= 20.0 && BoxOf(p).height >= p.duration
    ensures BoxOf(p).height == 20.0 || BoxOf(p).height == p.duration
  {
  }

  /** A block in column `column` of `columnCount` lies inside the day column. */
  lemma BoxInsideDay(p: Positioned)
    requires 0 <= p.column < p.columnCount
    ensures BoxOf(p).width == 100.0 / p.columnCount as real
    ensures 0.0 <= BoxOf(p).left && BoxOf(p).left + BoxOf(p).width <= 100.0
  {
    var w := 100.0 / p.columnCount as real;
    ScaleBelow(p.column as real + 1.0, p.columnCount as real, w);
  }

  /** Blocks of one group in different columns do not overlap horizontally. */
  lemma BoxesSideBySide(p: Positioned, q: Positioned)
    requires p.columnCount == q.columnCount > 0
    requires 0 <= p.column < q.column
    ensures BoxOf(p).left + BoxOf(p).width <= BoxOf(q).left
  {
    var w := 100.0 / p.columnCount as real;
    assert BoxOf(p).width == w && BoxOf(p).left == p.column as real * w;
    assert BoxOf(q).left == q.column as real * w;
    assert p.column as real * w + w == (p.column as real + 1.0) * w;
    ScaleBelow(p.column as real + 1.0, q.column as real, w);
  }

  lemma ScaleBelow(x: real, y: real, w: real)
    requires x <= y && 0.0 <= w
    ensures x * w <= y * w
  {
  }

  /** The positioned appointments drawn in the grid: all but the one being dragged. */
  function Visible(positioned: seq<Positioned>, activeId: Option<string>): seq<Positioned>
  {
    Filter(positioned, (p: Positioned) => activeId != Some(p.appointment.id))
  }

  /** An appointment is drawn exactly when it is laid out and not being dragged. */
  lemma VisibleMembers(positioned: seq<Positioned>, activeId: Option<string>, p: Positioned)
    ensures p in Visible(positioned, activeId) <==> p in positioned && activeId != Some(p.appointment.id)
  {
    FilterMembers(positioned, (p: Positioned) => activeId != Some(p.appointment.id), p);
  }

  // ---------------------------------------------------------------------------------------
  // Drag state

  /** The week view's component state: the id of the appointment being dragged. */
  class WeeklyViewState {
    var activeId: Option<string>

    constructor()
      ensures activeId == None
    {
      activeId := None;
    }

    /** `handleDragStart`. */
    method HandleDragStart(id: string)
      modifies this
      ensures activeId == Some(id)
    {
      activeId := Some(id);
    }

    /** `handleDragEnd`: the drag state is always cleared, then the drop is evaluated. */
    method HandleDragEnd(active: string, over: Option<string>, date: Time, appointments: seq<Appointment>)
      returns (move: Option<Move>)
      modifies this
      ensures activeId == None
      ensures move == WeeklyDrop(active, over, date, appointments)
    {
      activeId := None;
      if over.None? {
        return None;
      }
      var appointment := FindById(appointments, active);
      if appointment.None? {
        return None;
      }
      var slot := ParseSlot(over.value);
      if slot.None? {
        return None;
      }
      var (day, hour, minute) := slot.value;
      var newStart := DropStart(StartOfWeek(date), day, hour, minute);
      move := Some(Reschedule(appointment.value, newStart));
    }

    /** The blocks drawn for one day of the layout. */
    function DrawnDay(positioned: seq<Positioned>): seq<Positioned>
      reads this
    {
      Visible(positioned, activeId)
    }
  }
}
