/**
 * The day grid (`daily-view.tsx`): its `"h:m"` drop targets, the move a drop reports, the
 * drag state and the block drawn for each appointment.
 */
module DailyView {
  import opened Common
  import opened Text
  import opened Calendar
  import opened Appointments
  import opened WeeklyLayout
  import opened WeeklyView

  // ---------------------------------------------------------------------------------------
  // Drop targets

  /** The id of the quarter-hour cell at `hour:minute`: `${hour}:${minute}`. */
  function DaySlotId(hour: nat, minute: nat): string
  {
    NatToString(hour) + ":" + NatToString(minute)
  }

  /** The cell rendered in position `k`: hours 8 to 19, each split at minutes 0, 15, 30, 45. */
  function DaySlot(k: nat): (nat, nat)
  {
    (8 + k / 4, 15 * (k % 4))
  }

  /** `hours.map((hour) => [0, 15, 30, 45].map((minute) => id))`, in render order. */
  function DaySlotIds(): seq<string>
  {
    Tabulate((k: nat) => DaySlotId(DaySlot(k).0, DaySlot(k).1), 48)
  }

  /** `const [hourStr, minuteStr] = id.split(":")`, each through `parseInt`. */
  function ParseDaySlot(id: string): Option<(int, int)>
  {
    var pieces := Split(id, ':');
    var hour := ParseIntOpt(PieceAt(pieces, 0));
    var minute := ParseIntOpt(PieceAt(pieces, 1));
    if hour.None? || minute.None? then None else Some((hour.value, minute.value))
  }

  /** Every generated id parses back to its own hour and minute. */
  lemma DaySlotIdRoundTrip(hour: nat, minute: nat)
    ensures ParseDaySlot(DaySlotId(hour, minute)) == Some((hour, minute))
  {
    var pieces := [NatToString(hour), NatToString(minute)];
    assert Join(pieces, ':') == DaySlotId(hour, minute) by {
      assert pieces[1..] == [NatToString(minute)];
    }
    forall i | 0 <= i < 2
      ensures ':' !in pieces[i]
    {
      DigitsExclude(pieces[i], ':');
    }
    SplitJoin(pieces, ':');
    ParseIntNatToStringOpt(hour);
    ParseIntNatToStringOpt(minute);
  }

  /** The grid has 48 drop targets and no two of them share an id. */
  lemma DaySlotIdsDistinct()
    ensures |DaySlotIds()| == 48
    ensures forall i, j :: 0 <= i < j < 48 ==> DaySlotIds()[i] != DaySlotIds()[j]
  {
    var ids := DaySlotIds();
    TabulateAt((k: nat) => DaySlotId(DaySlot(k).0, DaySlot(k).1), 48);
    forall i, j | 0 <= i < j < 48
      ensures ids[i] != ids[j]
    {
      SlotIdsDiffer(i, j);
    }
  }

  lemma SlotIdsDiffer(i: nat, j: nat)
    requires i < j < 48
    ensures DaySlotId(DaySlot(i).0, DaySlot(i).1) != DaySlotId(DaySlot(j).0, DaySlot(j).1)
  {
    DaySlotIdRoundTrip(DaySlot(i).0, DaySlot(i).1);
    DaySlotIdRoundTrip(DaySlot(j).0, DaySlot(j).1);
    SlotIndex(i);
    SlotIndex(j);
  }

  /**
   * An id `h:m` is one of the grid's drop targets exactly when the hour is from 8 to 19
   * and the minute is 0, 15, 30 or 45.
   */
  lemma DaySlotIdsMembers(hour: nat, minute: nat)
    ensures DaySlotId(hour, minute) in DaySlotIds() <==>
      8 <= hour < 20 && (minute == 0 || minute == 15 || minute == 30 || minute == 45)
  {
    if DaySlotId(hour, minute) in DaySlotIds() {
      DaySlotIdsOnGrid(hour, minute);
    }
    if 8 <= hour < 20 && (minute == 0 || minute == 15 || minute == 30 || minute == 45) {
      GridInDaySlotIds(hour, minute);
    }
  }

  lemma DaySlotIdsOnGrid(hour: nat, minute: nat)
    requires DaySlotId(hour, minute) in DaySlotIds()
    ensures 8 <= hour < 20 && (minute == 0 || minute == 15 || minute == 30 || minute == 45)
  {
    var k := TabulateIndex((k: nat) => DaySlotId(DaySlot(k).0, DaySlot(k).1), 48, DaySlotId(hour, minute));
    SlotOfId(k, hour, minute);
  }

  lemma GridInDaySlotIds(hour: nat, minute: nat)
    requires 8 <= hour < 20 && (minute == 0 || minute == 15 || minute == 30 || minute == 45)
    ensures DaySlotId(hour, minute) in DaySlotIds()
  {
    var k := 4 * (hour - 8) + minute / 15;
    SlotOfCell(hour, minute);
    TabulateMember((k: nat) => DaySlotId(DaySlot(k).0, DaySlot(k).1), 48, k);
  }

  lemma SlotOfCell(hour: nat, minute: nat)
    requires 8 <= hour < 20 && (minute == 0 || minute == 15 || minute == 30 || minute == 45)
    ensures var k := 4 * (hour - 8) + minute / 15; k < 48 && DaySlot(k) == (hour, minute)
  {
    var k := 4 * (hour - 8) + minute / 15;
    DivMod(k, 4, hour - 8, minute / 15);
  }

  lemma SlotOfId(k: nat, hour: nat, minute: nat)
    requires k < 48 && DaySlotId(DaySlot(k).0, DaySlot(k).1) == DaySlotId(hour, minute)
    ensures 8 <= hour < 20 && (minute == 0 || minute == 15 || minute == 30 || minute == 45)
  {
    DaySlotIdRoundTrip(hour, minute);
    DaySlotIdRoundTrip(DaySlot(k).0, DaySlot(k).1);
    SlotIndex(k);
  }

  /** Position `k` and its cell determine each other. */
  lemma SlotIndex(k: nat)
    requires k < 48
    ensures 8 <= DaySlot(k).0 < 20 && DaySlot(k).1 in {0, 15, 30, 45}
    ensures k == 4 * (DaySlot(k).0 - 8) + DaySlot(k).1 / 15
  {
  }

  /**
   * `handleDragEnd` after clearing the drag state: the move reported for dragging the
   * appointment with id `active` onto the target `over` of the day `date`.
   */
  function DailyDrop(active: string, over: Option<string>, date: Time, appointments: seq<Appointment>): Option<Move>
  {
    if over.None? then None
    else
      match FindById(appointments, active)
      case None => None
      case Some(a) =>
        match ParseDaySlot(over.value)
        case None => None
        case Some(slot) => Some(Reschedule(a, SetHours(date, slot.0, slot.1, 0, 0)))
  }

  /**
   * A move is reported exactly when there is a target, an appointment with the dragged id
   * and a target id whose two parts parse; it keeps the appointment's duration.
   */
  lemma DailyDropOutcome(active: string, over: Option<string>, date: Time, appointments: seq<Appointment>)
    ensures DailyDrop(active, over, date, appointments).Some? <==>
      over.Some? && (exists i :: 0 <= i < |appointments| && appointments[i].id == active) &&
      ParseDaySlot(over.value).Some?
    ensures var r := DailyDrop(active, over, date, appointments);
      r.Some? ==>
        r.value.appointment in appointments && r.value.appointment.id == active &&
        r.value.newEnd - r.value.newStart == r.value.appointment.end - r.value.appointment.start
  {
  }

  /** Dropping on cell `hour:minute` starts the appointment that day at `hour:minute:00.000`. */
  lemma DailyDropAtSlot(active: string, date: Time, appointments: seq<Appointment>, hour: nat, minute: nat)
    requires FindById(appointments, active).Some?
    requires hour < 24 && minute < 60
    ensures var r := DailyDrop(active, Some(DaySlotId(hour, minute)), date, appointments);
      r.Some? && SameDay(r.value.newStart, date) &&
      Hours(r.value.newStart) == hour && Minutes(r.value.newStart) == minute &&
      Seconds(r.value.newStart) == 0 && Milliseconds(r.value.newStart) == 0
  {
    DaySlotIdRoundTrip(hour, minute);
    SlotTimeFields(SetHours(date, hour, minute, 0, 0), DayNumber(date), hour, minute);
  }

  /** The droppables the day grid registers as written: its cells are plain `div`s with an `id`. */
  const DayGridDroppables: set<string> := {}

  /** The droppables of a day grid whose every cell registers its id with `useDroppable`. */
  function DaySlotDroppables(): set<string>
  {
    set id | id in DaySlotIds()
  }

  /** As written, no drop on the day grid reports a move, wherever the mouse is. */
  lemma DayDropIgnoredAsWritten(active: string, hovered: Option<string>, date: Time, appointments: seq<Appointment>)
    ensures OverTarget(DayGridDroppables, hovered).None?
    ensures DailyDrop(active, OverTarget(DayGridDroppables, hovered), date, appointments).None?
  {
  }

  /**
   * With every cell registered, releasing an existing appointment over cell `hour:minute`
   * reports that cell, and the move starts it that day at `hour:minute:00.000`; only a cell
   * of the grid is ever reported.
   */
  lemma DayDropOnRegisteredSlot(active: string, date: Time, appointments: seq<Appointment>,
                                hour: nat, minute: nat, hovered: Option<string>)
    requires 8 <= hour < 20 && (minute == 0 || minute == 15 || minute == 30 || minute == 45)
    requires FindById(appointments, active).Some?
    ensures var over := OverTarget(DaySlotDroppables(), Some(DaySlotId(hour, minute)));
      var r := DailyDrop(active, over, date, appointments);
      over == Some(DaySlotId(hour, minute)) && r.Some? && SameDay(r.value.newStart, date) &&
      Hours(r.value.newStart) == hour && Minutes(r.value.newStart) == minute
    ensures OverTarget(DaySlotDroppables(), hovered).Some? ==> hovered.value in DaySlotIds()
  {
    GridInDaySlotIds(hour, minute);
    DailyDropAtSlot(active, date, appointments, hour, minute);
  }

  // ---------------------------------------------------------------------------------------
  // Drawing

  /** `top: (startHour - 8) * 80 + (startMinute / 60) * 80` and `height: duration`, full width. */
  datatype DayBlock = DayBlock(top: real, height: real)

  function DayBlockOf(a: Appointment): DayBlock
  {
    DayBlock(((Hours(a.start) - 8) * 80) as real + (Minutes(a.start) as real / 60.0) * 80.0, Duration(a))
  }

  /**
   * The day grid places a block at the same height as the week grid does, and its height
   * is the duration itself, with no minimum.
   */
  lemma DayBlockMatchesWeek(a: Appointment, column: int, count: int)
    requires count > 0
    ensures DayBlockOf(a).top == MinutesFromEight(a.start) as real * 80.0 / 60.0
    ensures DayBlockOf(a).top == BoxOf(PositionOf(a, column, count)).top
    ensures DayBlockOf(a).height == PositionOf(a, column, count).duration
  {
    BoxTop(a, column, count);
  }

  // ---------------------------------------------------------------------------------------
  // Drag state

  /** The day view's component state: the id of the appointment being dragged. */
  class DailyViewState {
    var activeId: Option<string>

    constructor()
      ensures activeId == None
    {
      activeId := None;
    }

    /** `handleDragStart`. */
    method HandleDragStart(id: string)
      modifies this
      ensures activeId == Some(id)
    {
      activeId := Some(id);
    }

    /** `handleDragEnd`: the drag state is always cleared, then the drop is evaluated. */
    method HandleDragEnd(active: string, over: Option<string>, date: Time, appointments: seq<Appointment>)
      returns (move: Option<Move>)
      modifies this
      ensures activeId == None
      ensures move == DailyDrop(active, over, date, appointments)
    {
      activeId := None;
      if over.None? {
        return None;
      }
      var appointment := FindById(appointments, active);
      if appointment.None? {
        return None;
      }
      var slot := ParseDaySlot(over.value);
      if slot.None? {
        return None;
      }
      var (hour, minute) := slot.value;
      move := Some(Reschedule(appointment.value, SetHours(date, hour, minute, 0, 0)));
    }
  }
}
