/** Timesheet generation from assignments, manual entries, and the DRAFT -> SUBMITTED ->
    APPROVED lifecycle. */
module TimesheetService {
  import opened Common
  import opened Calendar
  import opened Decimal
  import opened TimesheetEntries
  import opened Timesheets
  import opened ShiftTemplates
  import opened Assignments
  import opened Store
  import AssignmentRepository
  import TimesheetRepository

  /** `createEntryFromAssignment` followed by the save's recomputation: the entry is dated on the
      shift, takes the template's times and break, links the assignment, is of type SHIFT and
      is described as "Shift: " and the template name; its hours are the template's duration
      in hundredths of an hour. */
  function EntryFromAssignment(s: Store, timesheet: Id, a: Id): (e: Entry)
    requires Resolvable(s, a)
    ensures var inst := s.instances[s.assignments[a].shiftInstance];
            var tpl := s.templates[inst.template];
            && e.timesheet == timesheet && e.assignment == Some(a) && e.workDate == inst.shiftDate
            && e.startTime == Some(tpl.startTime) && e.endTime == Some(tpl.endTime)
            && e.breakMinutes == Some(tpl.breakMinutes) && e.entryType == Shift
            && e.description == Some("Shift: " + tpl.name)
            && e.hours == Some(MinutesToHours(DurationMinutes(tpl)))
    ensures HoursConsistent(e)
  {
    var inst := s.instances[s.assignments[a].shiftInstance];
    var tpl := s.templates[inst.template];
    DurationMatchesWorkedMinutes(tpl);
    SaveMakesConsistent(NewEntry(timesheet, inst.shiftDate, tpl.startTime, tpl.endTime)
                          .(assignment := Some(a), breakMinutes := Some(tpl.breakMinutes),
                            entryType := Shift, description := Some("Shift: " + tpl.name)));
    OnSave(NewEntry(timesheet, inst.shiftDate, tpl.startTime, tpl.endTime)
             .(assignment := Some(a), breakMinutes := Some(tpl.breakMinutes),
               entryType := Shift, description := Some("Shift: " + tpl.name)))
  }

  /** The user's assignments dated in the period whose status is ACTIVE or COMPLETED; CANCELLED,
      SWAP_REQUESTED and SWAPPED ones are skipped. */
  function WorkedAssignments(s: Store, user: Id, periodStart: Date, periodEnd: Date): (r: set<Id>)
    ensures forall a :: a in r <==> && a in s.assignments && s.assignments[a].user == user
                                    && s.assignments[a].shiftInstance in s.instances
                                    && InPeriod(s.instances[s.assignments[a].shiftInstance].shiftDate, periodStart, periodEnd)
                                    && IsWorked(s.assignments[a].status)
  {
    set a | a in AssignmentRepository.FindByUserIdAndDateRange(s, user, periodStart, periodEnd)
            && IsWorked(s.assignments[a].status)
  }

  /** No two entries of the list link the same assignment. */
  predicate DistinctLinks(entries: seq<Entry>) {
    forall i, j :: 0 <= i < j < |entries| ==> entries[i].assignment != entries[j].assignment
  }

  /** The assignment resolves to a shift instance and a template. */
  predicate Resolvable(s: Store, a: Id) {
    a in s.assignments && s.assignments[a].shiftInstance in s.instances
    && s.instances[s.assignments[a].shiftInstance].template in s.templates
  }

  /** `entries` holds exactly one generated entry for each assignment of `done`, in some order,
      and nothing else. */
  predicate EntriesFor(s: Store, timesheet: Id, done: set<Id>, entries: seq<Entry>)
    requires forall a :: a in done ==> Resolvable(s, a)
  {
    && (forall i :: 0 <= i < |entries| ==>
          entries[i].assignment.Some? && entries[i].assignment.value in done
          && entries[i] == EntryFromAssignment(s, timesheet, entries[i].assignment.value))
    && (forall a :: a in done ==> exists i :: 0 <= i < |entries| && entries[i].assignment == Some(a))
    && DistinctLinks(entries)
  }

  /** The first of a non-empty list of generated entries links an assignment of `done`. */
  lemma EntriesForFirst(s: Store, timesheet: Id, done: set<Id>, entries: seq<Entry>)
    requires forall a :: a in done ==> Resolvable(s, a)
    requires EntriesFor(s, timesheet, done, entries)
    ensures |entries| > 0 ==> entries[0].assignment.Some? && entries[0].assignment.value in done
  {
  }

  /** Generated entries always carry hours. */
  lemma EntriesForPriced(s: Store, timesheet: Id, done: set<Id>, entries: seq<Entry>)
    requires forall a :: a in done ==> Resolvable(s, a)
    requires EntriesFor(s, timesheet, done, entries)
    ensures Priced(entries)
  {
  }

  /** Appending the entry of one more assignment extends the correspondence. */
  lemma EntriesForStep(s: Store, timesheet: Id, done: set<Id>, entries: seq<Entry>, a: Id)
    requires forall b :: b in done ==> Resolvable(s, b)
    requires Resolvable(s, a) && a !in done
    requires EntriesFor(s, timesheet, done, entries)
    ensures EntriesFor(s, timesheet, done + {a}, entries + [EntryFromAssignment(s, timesheet, a)])
  {
    var entries' := entries + [EntryFromAssignment(s, timesheet, a)];
    assert entries'[|entries|].assignment == Some(a);
    forall b | b in done
      ensures exists i :: 0 <= i < |entries'| && entries'[i].assignment == Some(b)
    {
      var i :| 0 <= i < |entries| && entries[i].assignment == Some(b);
      assert entries'[i] == entries[i];
    }
  }

  /** `entries` holds exactly one generated entry per worked assignment of the period. */
  predicate GeneratedFrom(s: Store, timesheet: Id, user: Id, periodStart: Date, periodEnd: Date,
                          entries: seq<Entry>)
    requires TemplatesResolved(s)
  {
    EntriesFor(s, timesheet, WorkedAssignments(s, user, periodStart, periodEnd), entries)
  }

  /** A timesheet already exists for exactly this user and period. */
  predicate TimesheetExists(s: Store, user: Id, periodStart: Date, periodEnd: Date) {
    exists t :: t in s.timesheets && s.timesheets[t].user == user
                && s.timesheets[t].periodStart == periodStart && s.timesheets[t].periodEnd == periodEnd
  }

  /** The existence test is exactly a non-empty answer from the exact-period lookup. */
  lemma TimesheetExistsIffFound(s: Store, user: Id, periodStart: Date, periodEnd: Date)
    ensures TimesheetExists(s, user, periodStart, periodEnd)
            <==> TimesheetRepository.FindByUserIdAndPeriod(s, user, periodStart, periodEnd) != {}
  {
    if TimesheetExists(s, user, periodStart, periodEnd) {
      var t :| t in s.timesheets && s.timesheets[t].user == user
               && s.timesheets[t].periodStart == periodStart && s.timesheets[t].periodEnd == periodEnd;
      assert t in TimesheetRepository.FindByUserIdAndPeriod(s, user, periodStart, periodEnd);
    }
  }

  /** `generateTimesheet`: NotFound for an unknown user (before any timesheet is looked at),
      InvalidArgument for an inverted period (a single day is fine), Conflict when a timesheet
      for exactly this user and period exists. Otherwise a DRAFT timesheet is added whose entry
      list holds one SHIFT entry per worked assignment of the period, every generated entry is
      also appended to the entry table, and the totals are those of the entry list. The
      assignments are visited in whatever order the query yields them. */
  method GenerateTimesheet(s: Store, user: Id, periodStart: Date, periodEnd: Date, now: Timestamp,
                           newId: Id) returns (r: Result<Store>)
    requires TemplatesResolved(s) && newId !in s.timesheets
    ensures user !in s.users ==> r == Err(NotFound)
    ensures user in s.users && periodStart > periodEnd ==> r == Err(InvalidArgument)
    ensures (user in s.users && periodStart <= periodEnd && TimesheetExists(s, user, periodStart, periodEnd))
            ==> r == Err(Conflict)
    ensures r.Ok? <==> user in s.users && periodStart <= periodEnd && !TimesheetExists(s, user, periodStart, periodEnd)
    ensures r.Ok? ==> newId in r.value.timesheets
    ensures r.Ok? ==> var t := r.value.timesheets[newId];
              && r.value == s.(timesheets := r.value.timesheets, entryLog := r.value.entryLog)
              && Replaces(s.timesheets, r.value.timesheets, newId, t)
              && t.user == user && t.periodStart == periodStart && t.periodEnd == periodEnd
              && t.status == TimesheetStatus.Draft && t.generatedAt == now
              && t.approvedAt.None? && t.approvedBy.None?
              && GeneratedFrom(s, newId, user, periodStart, periodEnd, t.entries)
              && Priced(t.entries) && CalculateTotals(t) == t
              && r.value.entryLog == s.entryLog + t.entries
    ensures r.Ok? && UniqueTimesheetPeriods(s) ==> UniqueTimesheetPeriods(r.value)
    ensures r.Ok? && NoRejectedTimesheet(s) ==> NoRejectedTimesheet(r.value)
    ensures r.Ok? && TimesheetsPriced(s) ==> TimesheetsPriced(r.value)
  {
    if user !in s.users {
      return Err(NotFound);
    }
    if periodStart > periodEnd {
      return Err(InvalidArgument);
    }
    TimesheetExistsIffFound(s, user, periodStart, periodEnd);
    if TimesheetRepository.FindByUserIdAndPeriod(s, user, periodStart, periodEnd) != {} {
      return Err(Conflict);
    }
    var entries := BuildEntries(s, newId, user, periodStart, periodEnd);
    var filled := NewTimesheet(user, periodStart, periodEnd, now).(entries := entries);
    var timesheet := CalculateTotals(filled);
    CalculateTotalsIdempotent(filled);
    r := Ok(s.(timesheets := s.timesheets[newId := timesheet], entryLog := s.entryLog + entries));
  }

  /** The generation loop: visits the period's assignments in an arbitrary order and builds one
      entry for each worked one. */
  method BuildEntries(s: Store, timesheet: Id, user: Id, periodStart: Date, periodEnd: Date)
    returns (entries: seq<Entry>)
    requires TemplatesResolved(s)
    ensures GeneratedFrom(s, timesheet, user, periodStart, periodEnd, entries)
    ensures Priced(entries)
  {
    var candidates := AssignmentRepository.FindByUserIdAndDateRange(s, user, periodStart, periodEnd);
    var worked := WorkedAssignments(s, user, periodStart, periodEnd);
    assert forall a :: a in worked ==> Resolvable(s, a);
    assert forall a :: a in candidates ==> (a in worked <==> IsWorked(s.assignments[a].status));
    var remaining := candidates;
    entries := [];
    while remaining != {}
      invariant remaining <= candidates
      invariant EntriesFor(s, timesheet, worked - remaining, entries)
      decreases |remaining|
    {
      var a :| a in remaining;
      VisitOne(worked, remaining, a);
      if IsWorked(s.assignments[a].status) {
        EntriesForStep(s, timesheet, worked - remaining, entries, a);
        entries := entries + [EntryFromAssignment(s, timesheet, a)];
      }
      remaining := remaining - {a};
    }
    assert worked - remaining == worked;
    EntriesForPriced(s, timesheet, worked, entries);
  }

  /** Visiting `a` adds it to the done part of `worked` exactly when it is worked. */
  lemma VisitOne<T>(worked: set<T>, remaining: set<T>, a: T)
    requires a in remaining
    ensures a in worked ==> worked - (remaining - {a}) == (worked - remaining) + {a}
    ensures a !in worked ==> worked - (remaining - {a}) == worked - remaining
  {
  }

  /** No element occurs twice. */
  predicate Distinct<T(==)>(a: seq<T>) {
    forall i, j :: 0 <= i < j < |a| ==> a[i] != a[j]
  }

  /** The list without its element at `j`. */
  lemma RemoveAt<T>(b: seq<T>, j: int) returns (b': seq<T>)
    requires 0 <= j < |b|
    ensures b' == b[..j] + b[j + 1..] && |b'| == |b| - 1
    ensures multiset(b) == multiset(b') + multiset{b[j]}
    ensures forall y :: y in b' ==> y in b
    ensures forall y :: y in b && y != b[j] ==> y in b'
    ensures Distinct(b) ==> Distinct(b') && b[j] !in b'
  {
    b' := b[..j] + b[j + 1..];
    assert b == b[..j] + [b[j]] + b[j + 1..];
    forall y | y in b && y != b[j]
      ensures y in b'
    {
      var m :| 0 <= m < |b| && b[m] == y;
      if m < j { assert b'[m] == y; } else { assert b'[m - 1] == y; }
    }
    if Distinct(b) {
      forall p, q | 0 <= p < q < |b'|
        ensures b'[p] != b'[q]
      {
        var p' := if p < j then p else p + 1;
        var q' := if q < j then q else q + 1;
        assert b'[p] == b[p'] && b'[q] == b[q'] && p' < q';
      }
    }
  }

  /** Two lists without repetitions and with the same elements are reorderings of each other. */
  lemma {:induction false} DistinctSameElements<T>(a: seq<T>, b: seq<T>)
    requires Distinct(a) && Distinct(b)
    requires forall x :: x in a <==> x in b
    ensures multiset(a) == multiset(b)
    decreases |a|
  {
    if |a| == 0 {
      forall x
        ensures x !in multiset(b)
      {
        assert x !in a;
      }
      assert multiset(b) == multiset{};
    } else {
      var x := a[|a| - 1];
      var a' := RemoveAt(a, |a| - 1);
      assert x in b;
      var j :| 0 <= j < |b| && b[j] == x;
      var b' := RemoveAt(b, j);
      assert forall y :: y in a' <==> y in b';
      DistinctSameElements(a', b');
    }
  }

  /** The totals of a generated timesheet do not depend on the order in which the assignments
      were visited: any two generated entry lists for one period sum to the same hours. */
  lemma GenerationOrderIrrelevant(s: Store, timesheet: Id, user: Id, periodStart: Date, periodEnd: Date,
                                  e1: seq<Entry>, e2: seq<Entry>)
    requires TemplatesResolved(s)
    requires GeneratedFrom(s, timesheet, user, periodStart, periodEnd, e1)
    requires GeneratedFrom(s, timesheet, user, periodStart, periodEnd, e2)
    ensures Priced(e1) && Priced(e2) && SumHours(e1) == SumHours(e2)
  {
    var worked := WorkedAssignments(s, user, periodStart, periodEnd);
    EntriesForPriced(s, timesheet, worked, e1);
    EntriesForPriced(s, timesheet, worked, e2);
    EntriesForIncluded(s, timesheet, worked, e1, e2);
    EntriesForIncluded(s, timesheet, worked, e2, e1);
    EntriesForDistinct(s, timesheet, worked, e1);
    EntriesForDistinct(s, timesheet, worked, e2);
    DistinctSameElements(e1, e2);
    SumHoursPermutation(e1, e2);
  }

  /** Every entry of one generated list for a set of assignments is in any other such list. */
  lemma EntriesForIncluded(s: Store, timesheet: Id, done: set<Id>, e1: seq<Entry>, e2: seq<Entry>)
    requires forall a :: a in done ==> Resolvable(s, a)
    requires EntriesFor(s, timesheet, done, e1) && EntriesFor(s, timesheet, done, e2)
    ensures forall x :: x in e1 ==> x in e2
  {
    forall x | x in e1
      ensures x in e2
    {
      var i :| 0 <= i < |e1| && e1[i] == x;
      var a := x.assignment.value;
      var j :| 0 <= j < |e2| && e2[j].assignment == Some(a);
      assert e2[j] == EntryFromAssignment(s, timesheet, a) == x;
    }
  }

  /** Generated entries link distinct assignments, so they are distinct. */
  lemma EntriesForDistinct(s: Store, timesheet: Id, done: set<Id>, entries: seq<Entry>)
    requires forall a :: a in done ==> Resolvable(s, a)
    requires EntriesFor(s, timesheet, done, entries)
    ensures Distinct(entries)
  {
  }

  /** `generateWeeklyTimesheet`: the period `[weekStart, weekStart + 6]`, taken as given: the
      start is not moved back to a Monday. The period is never inverted, so the only failures
      are an unknown user and an existing timesheet for the period. */
  method GenerateWeeklyTimesheet(s: Store, user: Id, weekStart: Date, now: Timestamp, newId: Id)
    returns (r: Result<Store>)
    requires TemplatesResolved(s) && newId !in s.timesheets
    ensures r.Err? ==> r.error == NotFound || r.error == Conflict
    ensures r.Ok? <==> user in s.users && !TimesheetExists(s, user, weekStart, weekStart + 6)
    ensures r.Ok? ==> newId in r.value.timesheets
    ensures r.Ok? ==> var t := r.value.timesheets[newId];
              && t.periodStart == weekStart && t.periodEnd == weekStart + 6
              && DaysBetween(t.periodStart, t.periodEnd) == 6
              && GeneratedFrom(s, newId, user, weekStart, weekStart + 6, t.entries)
  {
    r := GenerateTimesheet(s, user, weekStart, weekStart + 6, now, newId);
  }

  /** `addManualEntry`: NotFound for an unknown timesheet, InvalidState unless it is DRAFT.
      Otherwise a MANUAL_ADJUSTMENT entry with the given date, times, break and description is
      saved to the entry table, and the totals are recomputed over the timesheet's entry list,
      which the new entry is not added to. */
  function AddManualEntry(s: Store, timesheetId: Id, workDate: Date, startTime: Time, endTime: Time,
                          breakMinutes: int, description: Option<string>): (r: Result<(Store, Entry)>)
    requires TimesheetsPriced(s)
    ensures timesheetId !in s.timesheets ==> r == Err(NotFound)
    ensures timesheetId in s.timesheets && s.timesheets[timesheetId].status != TimesheetStatus.Draft
            ==> r == Err(InvalidState)
    ensures r.Ok? <==> timesheetId in s.timesheets && s.timesheets[timesheetId].status == TimesheetStatus.Draft
    ensures r.Ok? ==> var (s', e) := r.value;
              && e.timesheet == timesheetId && e.assignment.None? && e.workDate == workDate
              && e.startTime == Some(startTime) && e.endTime == Some(endTime)
              && e.breakMinutes == Some(breakMinutes) && e.entryType == ManualAdjustment
              && e.description == description
              && e.hours == Some(ExpectedHours(startTime, endTime, Some(breakMinutes)))
              && s' == s.(timesheets := s'.timesheets, entryLog := s.entryLog + [e])
              && Replaces(s.timesheets, s'.timesheets, timesheetId,
                          CalculateTotals(s.timesheets[timesheetId]))
              && s'.timesheets[timesheetId].entries == s.timesheets[timesheetId].entries
    ensures r.Ok? ==> TimesheetsPriced(r.value.0) && NoRejectedTimesheet(r.value.0) == NoRejectedTimesheet(s)
    ensures r.Ok? && UniqueTimesheetPeriods(s) ==> UniqueTimesheetPeriods(r.value.0)
  {
    if timesheetId !in s.timesheets then Err(NotFound)
    else
      var timesheet := s.timesheets[timesheetId];
      if timesheet.status != TimesheetStatus.Draft then Err(InvalidState)
      else
        var entry := OnSave(NewEntry(timesheetId, workDate, startTime, endTime)
                              .(breakMinutes := Some(breakMinutes), description := description,
                                entryType := ManualAdjustment));
        Ok((s.(timesheets := s.timesheets[timesheetId := CalculateTotals(timesheet)],
               entryLog := s.entryLog + [entry]), entry))
  }

  /** On a timesheet whose totals are up to date, adding a manual entry leaves every timesheet
      exactly as it was: the totals this call computes leave the new entry's hours out, falling
      short of the sum over the list with the entry added by exactly its hours. */
  lemma ManualEntryNotInTotals(s: Store, timesheetId: Id, workDate: Date, startTime: Time, endTime: Time,
                               breakMinutes: int, description: Option<string>)
    requires TimesheetsPriced(s)
    requires AddManualEntry(s, timesheetId, workDate, startTime, endTime, breakMinutes, description).Ok?
    ensures var (s', e) := AddManualEntry(s, timesheetId, workDate, startTime, endTime, breakMinutes, description).value;
            var t := s.timesheets[timesheetId];
            && (CalculateTotals(t) == t ==> s'.timesheets == s.timesheets)
            && Priced(t.entries + [e])
            && SumHours(t.entries + [e]) == s'.timesheets[timesheetId].totalHours + e.hours.value
  {
    var (s', e) := AddManualEntry(s, timesheetId, workDate, startTime, endTime, breakMinutes, description).value;
    var t := s.timesheets[timesheetId];
    if CalculateTotals(t) == t {
      assert s.timesheets[timesheetId := t] == s.timesheets;
    }
    SumHoursSingleton(e);
    SumHoursAppend(t.entries, [e]);
  }

  /** `submitTimesheet`: NotFound for an unknown timesheet, InvalidState unless DRAFT;
      otherwise only the status changes, to SUBMITTED. */
  function SubmitTimesheet(s: Store, timesheetId: Id): (r: Result<Store>)
    ensures timesheetId !in s.timesheets ==> r == Err(NotFound)
    ensures timesheetId in s.timesheets && s.timesheets[timesheetId].status != TimesheetStatus.Draft
            ==> r == Err(InvalidState)
    ensures r.Ok? <==> timesheetId in s.timesheets && s.timesheets[timesheetId].status == TimesheetStatus.Draft
    ensures r.Ok? ==> r.value == s.(timesheets := r.value.timesheets)
                      && Replaces(s.timesheets, r.value.timesheets, timesheetId,
                                  s.timesheets[timesheetId].(status := Submitted))
    ensures r.Ok? && NoRejectedTimesheet(s) ==> NoRejectedTimesheet(r.value)
  {
    if timesheetId !in s.timesheets then Err(NotFound)
    else if s.timesheets[timesheetId].status != TimesheetStatus.Draft then Err(InvalidState)
    else Ok(s.(timesheets := s.timesheets[timesheetId := s.timesheets[timesheetId].(status := Submitted)]))
  }

  /** `approveTimesheet`: NotFound for an unknown timesheet, InvalidState unless SUBMITTED (a
      DRAFT cannot skip submission); otherwise APPROVED with approver and time recorded. */
  function ApproveTimesheet(s: Store, timesheetId: Id, approver: Id, now: Timestamp): (r: Result<Store>)
    ensures timesheetId !in s.timesheets ==> r == Err(NotFound)
    ensures timesheetId in s.timesheets && s.timesheets[timesheetId].status != Submitted
            ==> r == Err(InvalidState)
    ensures r.Ok? <==> timesheetId in s.timesheets && s.timesheets[timesheetId].status == Submitted
    ensures r.Ok? ==> r.value == s.(timesheets := r.value.timesheets)
                      && Replaces(s.timesheets, r.value.timesheets, timesheetId,
                                  s.timesheets[timesheetId].(status := TimesheetStatus.Approved,
                                                             approvedBy := Some(approver), approvedAt := Some(now)))
    ensures r.Ok? && NoRejectedTimesheet(s) ==> NoRejectedTimesheet(r.value)
  {
    if timesheetId !in s.timesheets then Err(NotFound)
    else if s.timesheets[timesheetId].status != Submitted then Err(InvalidState)
    else Ok(s.(timesheets := s.timesheets[timesheetId := s.timesheets[timesheetId].(
               status := TimesheetStatus.Approved, approvedBy := Some(approver), approvedAt := Some(now))]))
  }

  /** The lifecycle runs DRAFT -> SUBMITTED -> APPROVED in that order only: a draft is approved
      after a submit, a draft cannot be approved directly, and neither step can be repeated. */
  lemma Lifecycle(s: Store, timesheetId: Id, approver: Id, now: Timestamp)
    requires timesheetId in s.timesheets && s.timesheets[timesheetId].status == TimesheetStatus.Draft
    ensures ApproveTimesheet(s, timesheetId, approver, now) == Err(InvalidState)
    ensures var s1 := SubmitTimesheet(s, timesheetId).value;
            && SubmitTimesheet(s1, timesheetId) == Err(InvalidState)
            && ApproveTimesheet(s1, timesheetId, approver, now).Ok?
            && var s2 := ApproveTimesheet(s1, timesheetId, approver, now).value;
               && s2.timesheets[timesheetId].status == TimesheetStatus.Approved
               && s2.timesheets[timesheetId].approvedBy == Some(approver)
               && SubmitTimesheet(s2, timesheetId) == Err(InvalidState)
               && ApproveTimesheet(s2, timesheetId, approver, now) == Err(InvalidState)
  {
  }

  /** A period with no worked assignment generates no entries and all-zero totals. */
  lemma NoWorkedAssignmentsGivesZero(s: Store, timesheet: Id, user: Id, periodStart: Date, periodEnd: Date,
                                     now: Timestamp, entries: seq<Entry>)
    requires TemplatesResolved(s) && WorkedAssignments(s, user, periodStart, periodEnd) == {}
    requires GeneratedFrom(s, timesheet, user, periodStart, periodEnd, entries)
    ensures entries == []
    ensures var t := CalculateTotals(NewTimesheet(user, periodStart, periodEnd, now).(entries := entries));
            t.totalHours == 0 && t.regularHours == 0 && t.overtimeHours == 0
  {
    EntriesForFirst(s, timesheet, WorkedAssignments(s, user, periodStart, periodEnd), entries);
  }

  /** Generating 2024-06-10 to 2024-06-14 (epoch days 19884 to 19888) with one worked assignment
      to a 09:00-17:00 template with a 30-minute break gives one SHIFT entry of 7.50 hours, and
      totals of 7.50 regular and no overtime. */
  lemma DayShiftTimesheetScenario(s: Store, timesheet: Id, user: Id, a: Id, now: Timestamp, entries: seq<Entry>)
    requires TemplatesResolved(s) && WorkedAssignments(s, user, 19884, 19888) == {a}
    requires var tpl := s.templates[s.instances[s.assignments[a].shiftInstance].template];
             tpl.startTime == 540 && tpl.endTime == 1020 && tpl.breakMinutes == 30
    requires GeneratedFrom(s, timesheet, user, 19884, 19888, entries)
    ensures |entries| == 1 && entries[0].entryType == Shift && entries[0].hours == Some(750)
    ensures var t := CalculateTotals(NewTimesheet(user, 19884, 19888, now).(entries := entries));
            t.totalHours == 750 && t.regularHours == 750 && t.overtimeHours == 0
  {
    var i :| 0 <= i < |entries| && entries[i].assignment == Some(a);
    assert entries[0].assignment == Some(a) && entries[|entries| - 1].assignment == Some(a);
    assert 0 == i && |entries| - 1 == i;
    DayShiftExample();
    assert entries == [entries[0]];
    SumHoursSingleton(entries[0]);
  }
}
