/** One line of a timesheet: a worked span on a date, with hours derived from its times. */
module TimesheetEntries {
  import opened Common
  import opened Calendar
  import opened Decimal

  datatype EntryType = Shift | Overtime | ManualAdjustment | BreakDeduction

  /** `startTime`, `endTime`, `breakMinutes` and `hours` are nullable fields of the entity;
      `hours` is only ever written by `CalculateHours`. */
  datatype Entry = Entry(
    timesheet: Id,
    assignment: Option<Id>,
    workDate: Date,
    startTime: Option<Time>,
    endTime: Option<Time>,
    breakMinutes: Option<int>,
    hours: Option<Hundredths>,
    entryType: EntryType,
    description: Option<string>)

  /** `Duration.between(start, end).toMinutes() - breakMinutes`: a plain difference of times of
      day, so an end before the start gives a negative span (there is no wrap past midnight). */
  function WorkedMinutes(start: Time, end: Time, breakMinutes: int): int {
    end - start - breakMinutes
  }

  /** The hours an entry with these times ought to carry. */
  function ExpectedHours(start: Time, end: Time, breakMinutes: Option<int>): (h: Hundredths)
    ensures -1 <= 3 * h - 5 * (end - start - breakMinutes.GetOr(0)) <= 1
  {
    MinutesToHours(WorkedMinutes(start, end, breakMinutes.GetOr(0)))
  }

  /** `calculateHours()`: with both times present, hours become the worked minutes over 60,
      rounded half-up to hundredths, counting a null break as 0; otherwise nothing changes. */
  function CalculateHours(e: Entry): (r: Entry)
    ensures r.(hours := e.hours) == e
    ensures e.startTime.None? || e.endTime.None? ==> r == e
    ensures e.startTime.Some? && e.endTime.Some? ==>
              r.hours.Some? &&
              -1 <= 3 * r.hours.value
                    - 5 * (e.endTime.value - e.startTime.value - e.breakMinutes.GetOr(0)) <= 1
  {
    if e.startTime.Some? && e.endTime.Some? then
      e.(hours := Some(ExpectedHours(e.startTime.value, e.endTime.value, e.breakMinutes)))
    else
      e
  }

  /** Stored hours agree with the stored start, end and break. */
  predicate HoursConsistent(e: Entry) {
    e.startTime.Some? && e.endTime.Some? ==>
      e.hours == Some(ExpectedHours(e.startTime.value, e.endTime.value, e.breakMinutes))
  }

  /** The `@PrePersist`/`@PreUpdate` hook `onSave()`: recompute from the final fields. */
  function OnSave(e: Entry): Entry {
    CalculateHours(e)
  }

  /** After a save the stored hours match the stored times, and saving again changes nothing. */
  lemma SaveMakesConsistent(e: Entry)
    ensures HoursConsistent(OnSave(e))
    ensures OnSave(OnSave(e)) == OnSave(e)
    ensures HoursConsistent(e) <==> OnSave(e) == e
  {
  }

  /** The four-argument constructor: break 0, type SHIFT, hours computed at once. */
  function NewEntry(timesheet: Id, workDate: Date, start: Time, end: Time): (r: Entry)
    ensures r.hours.Some? && HoursConsistent(r)
  {
    CalculateHours(Entry(timesheet, None, workDate, Some(start), Some(end), Some(0), None, Shift, None))
  }

  /** Setting the break after construction does not recompute: the hours still reflect a zero
      break, and differ from what a save computes whenever the break is non-zero. */
  lemma SetBreakLeavesHoursStale(timesheet: Id, workDate: Date, start: Time, end: Time, b: int)
    ensures var e := NewEntry(timesheet, workDate, start, end).(breakMinutes := Some(b));
            && e.hours == Some(MinutesToHours(end - start))
            && (b != 0 <==> e.hours != OnSave(e).hours)
  {
  }

  /** 09:00-17:00 with a 30-minute break is 7.50 hours. */
  lemma DayShiftExample()
    ensures ExpectedHours(540, 1020, Some(30)) == 750
  {
  }

  /** 20:00-04:00 with a 30-minute break is not wrapped past midnight: -16.50 hours. */
  lemma NightShiftIsNegative()
    ensures ExpectedHours(1200, 240, Some(30)) == -1650
  {
  }
}
