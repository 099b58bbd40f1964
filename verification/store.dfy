/** The persisted state the services read and write: one table per entity, keyed by id. */
module Store {
  import opened Common
  import opened Calendar
  import opened TimesheetEntries
  import opened Timesheets
  import opened LeaveRequests
  import opened ShiftTemplates
  import opened ShiftInstances
  import opened Assignments

  /** A user, reduced to the names of the roles it holds. */
  datatype User = User(roleNames: set<string>)

  /** `entryLog` is the timesheet-entry table in save order; a timesheet's own `entries` field is
      the in-memory list its totals are computed from, which need not hold every saved entry. */
  datatype Store = Store(
    users: map<Id, User>,
    locations: set<Id>,
    roles: set<Id>,
    templates: map<Id, ShiftTemplate>,
    instances: map<Id, ShiftInstance>,
    assignments: map<Id, Assignment>,
    leave: map<Id, LeaveRequest>,
    timesheets: map<Id, Timesheet>,
    entryLog: seq<Entry>)

  /** Every shift instance refers to an existing template (the `template_id` foreign key). */
  predicate TemplatesResolved(s: Store) {
    forall i :: i in s.instances ==> s.instances[i].template in s.templates
  }

  /** Every timesheet's entry list carries hours. */
  predicate TimesheetsPriced(s: Store) {
    forall t :: t in s.timesheets ==> Priced(s.timesheets[t].entries)
  }

  /** At most one shift instance per (template, date). */
  predicate UniqueInstances(s: Store) {
    forall i, j :: i in s.instances && j in s.instances && i != j ==>
      s.instances[i].template != s.instances[j].template
      || s.instances[i].shiftDate != s.instances[j].shiftDate
  }

  /** At most one ACTIVE assignment per (user, instance). */
  predicate OneActivePerUserAndShift(s: Store) {
    forall a, b ::
      (a in s.assignments && b in s.assignments && a != b
       && s.assignments[a].status == AssignmentStatus.Active
       && s.assignments[b].status == AssignmentStatus.Active) ==>
      s.assignments[a].user != s.assignments[b].user
      || s.assignments[a].shiftInstance != s.assignments[b].shiftInstance
  }

  /** No two live (PENDING or APPROVED) leave requests of one user overlap. */
  predicate NoLiveOverlap(s: Store) {
    forall i, j ::
      (i in s.leave && j in s.leave && i != j && s.leave[i].user == s.leave[j].user
       && IsLive(s.leave[i].status) && IsLive(s.leave[j].status)) ==>
      !Overlaps(s.leave[i].startDate, s.leave[i].endDate, s.leave[j].startDate, s.leave[j].endDate)
  }

  /** At most one timesheet per (user, periodStart, periodEnd). */
  predicate UniqueTimesheetPeriods(s: Store) {
    forall i, j :: i in s.timesheets && j in s.timesheets && i != j ==>
      s.timesheets[i].user != s.timesheets[j].user
      || s.timesheets[i].periodStart != s.timesheets[j].periodStart
      || s.timesheets[i].periodEnd != s.timesheets[j].periodEnd
  }

  /** No timesheet is REJECTED. */
  predicate NoRejectedTimesheet(s: Store) {
    forall t :: t in s.timesheets ==> s.timesheets[t].status != TimesheetStatus.Rejected
  }

  /** The state of a fresh database. */
  function EmptyStore(): (s: Store)
    ensures TemplatesResolved(s) && TimesheetsPriced(s) && UniqueInstances(s)
    ensures OneActivePerUserAndShift(s) && NoLiveOverlap(s)
    ensures UniqueTimesheetPeriods(s) && NoRejectedTimesheet(s)
  {
    Store(map[], {}, {}, map[], map[], map[], map[], map[], [])
  }

  /** The date of an assignment's shift, when its instance exists (the join of the queries). */
  predicate AssignedOn(s: Store, a: Id, d: Date) {
    a in s.assignments && s.assignments[a].shiftInstance in s.instances
    && s.instances[s.assignments[a].shiftInstance].shiftDate == d
  }
}
