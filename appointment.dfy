/**
 * The scheduler's record type (`src/lib/types.ts`): an appointment with a string id,
 * display fields and a start and end instant, plus the three calendar views.
 */
module Appointments {
  import opened Common
  import opened Calendar

  datatype Appointment = Appointment(
    id: string,
    title: string,
    patientName: string,
    start: Time,
    end: Time,
    notes: string,
    color: string)

  datatype ViewType = Daily | Weekly | Monthly

  /** The colour every new appointment is given. */
  const DefaultColor: string := "#3b82f6"

  /** What a drop reports: `onMoveAppointment(appointment, newStart, newEnd)`. */
  datatype Move = Move(appointment: Appointment, newStart: Time, newEnd: Time)

  /** `appointments.find((app) => app.id === id)`. */
  function FindById(appointments: seq<Appointment>, id: string): (r: Option<Appointment>)
    ensures r.None? <==> forall i :: 0 <= i < |appointments| ==> appointments[i].id != id
    ensures r.Some? ==> r.value in appointments && r.value.id == id
    ensures r.Some? ==>
      exists i :: 0 <= i < |appointments| && appointments[i] == r.value &&
        forall j :: 0 <= j < i ==> appointments[j].id != id
  {
    Find(appointments, (a: Appointment) => a.id == id)
  }

  /** The move to `newStart` that keeps the duration: `new Date(newStart.getTime() + durationMs)`. */
  function Reschedule(a: Appointment, newStart: Time): Move
  {
    Move(a, newStart, newStart + (a.end - a.start))
  }

  /**
   * The `over` that dnd-kit reports for a drop while the mouse is above the element with
   * id `hovered`: that id when the element registered itself with `useDroppable`, and
   * nothing otherwise.
   */
  function OverTarget(droppables: set<string>, hovered: Option<string>): Option<string>
  {
    if hovered.Some? && hovered.value in droppables then hovered else None
  }
}
