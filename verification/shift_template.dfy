/** A reusable shift definition: a time window at a location for a role. */
module ShiftTemplates {
  import opened Common
  import opened Calendar
  import opened Decimal
  import TimesheetEntries

  datatype ShiftTemplate = ShiftTemplate(
    location: Id,
    role: Id,
    name: string,
    startTime: Time,
    endTime: Time,
    breakMinutes: int,
    description: Option<string>,
    maxAssignments: int,
    isActive: bool)

  /** `new ShiftTemplate(name, location, role, startTime, endTime)` with the field defaults:
      no break, one assignment, active. */
  function NewTemplate(name: string, location: Id, role: Id, startTime: Time, endTime: Time): (t: ShiftTemplate)
    ensures t.name == name && t.location == location && t.role == role
    ensures t.startTime == startTime && t.endTime == endTime
    ensures t.breakMinutes == 0 && t.maxAssignments == 1 && t.isActive
    ensures t.description.None?
  {
    ShiftTemplate(location, role, name, startTime, endTime, 0, None, 1, true)
  }

  /** The `@PositiveOrZero` constraint on `breakMinutes`. */
  predicate ValidTemplate(t: ShiftTemplate) {
    t.breakMinutes >= 0
  }

  /** `getDurationMinutes()`: `Duration.between(startTime, endTime).toMinutes() - breakMinutes`. */
  function DurationMinutes(t: ShiftTemplate): int {
    t.endTime - t.startTime - t.breakMinutes
  }

  /** The duration is the entry-level worked span, and is negative for a template whose end time
      is earlier than its start time (a night shift is not wrapped past midnight). */
  lemma DurationMatchesWorkedMinutes(t: ShiftTemplate)
    ensures DurationMinutes(t) == TimesheetEntries.WorkedMinutes(t.startTime, t.endTime, t.breakMinutes)
    ensures t.endTime < t.startTime && ValidTemplate(t) ==> DurationMinutes(t) < 0
  {
  }

  /** The 20:00-04:00 night shift with a 30-minute break lasts -990 minutes. */
  lemma NightShiftDuration(t: ShiftTemplate)
    requires t.startTime == 1200 && t.endTime == 240 && t.breakMinutes == 30
    ensures DurationMinutes(t) == -990
    ensures MinutesToHours(DurationMinutes(t)) == -1650
  {
  }
}
