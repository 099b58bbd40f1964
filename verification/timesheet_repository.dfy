/** The timesheet queries, over the timesheet table. */
module TimesheetRepository {
  import opened Common
  import opened Calendar
  import opened Timesheets
  import opened Store

  /** `findByUserId`: every timesheet of the user, whatever its status. */
  function FindByUserId(s: Store, user: Id): (r: set<Id>)
    ensures r <= s.timesheets.Keys
    ensures forall t :: t in r <==> t in s.timesheets && s.timesheets[t].user == user
  {
    set t | t in s.timesheets && s.timesheets[t].user == user
  }

  /** `findByStatus`: every timesheet in the status, of any user. */
  function FindByStatus(s: Store, status: TimesheetStatus): (r: set<Id>)
    ensures r <= s.timesheets.Keys
    ensures forall t :: t in r <==> t in s.timesheets && s.timesheets[t].status == status
  {
    set t | t in s.timesheets && s.timesheets[t].status == status
  }

  /** `findByUserIdAndPeriodStartAndPeriodEnd`: the timesheets matching all three fields. The
      repository returns an `Optional`; the set is empty or, under the uniqueness invariant,
      a single timesheet. */
  function FindByUserIdAndPeriod(s: Store, user: Id, periodStart: Date, periodEnd: Date): (r: set<Id>)
    ensures r <= FindByUserId(s, user)
    ensures forall t :: t in r <==> t in FindByUserId(s, user) && s.timesheets[t].periodStart == periodStart
                                    && s.timesheets[t].periodEnd == periodEnd
  {
    set t | t in s.timesheets && s.timesheets[t].user == user
            && s.timesheets[t].periodStart == periodStart && s.timesheets[t].periodEnd == periodEnd
  }

  /** With one timesheet per (user, start, end), the exact-period lookup finds at most one. */
  lemma AtMostOneTimesheetPerPeriod(s: Store, user: Id, periodStart: Date, periodEnd: Date)
    requires UniqueTimesheetPeriods(s)
    ensures |FindByUserIdAndPeriod(s, user, periodStart, periodEnd)| <= 1
  {
    var r := FindByUserIdAndPeriod(s, user, periodStart, periodEnd);
    if r != {} {
      var a :| a in r;
      assert r == {a};
    }
  }

  /** `findByPeriodRange`: timesheets of any user whose whole period lies in `[start, end]`. */
  function FindByPeriodRange(s: Store, start: Date, end: Date): (r: set<Id>)
    ensures r <= s.timesheets.Keys
    ensures forall t :: t in r <==> t in s.timesheets && start <= s.timesheets[t].periodStart
                                    && s.timesheets[t].periodEnd <= end
  {
    set t | t in s.timesheets && s.timesheets[t].periodStart >= start && s.timesheets[t].periodEnd <= end
  }

  /** `findByUserIdAndPeriodRange`: the same containment test, restricted to one user. */
  function FindByUserIdAndPeriodRange(s: Store, user: Id, start: Date, end: Date): (r: set<Id>)
    ensures r == FindByUserId(s, user) * FindByPeriodRange(s, start, end)
  {
    set t | t in s.timesheets && s.timesheets[t].user == user
            && s.timesheets[t].periodStart >= start && s.timesheets[t].periodEnd <= end
  }

  /** For a non-empty period, the range queries select a timesheet exactly when every day of its
      period lies in `[start, end]`. */
  lemma PeriodRangeIsContainment(s: Store, start: Date, end: Date, t: Id)
    requires t in s.timesheets && s.timesheets[t].periodStart <= s.timesheets[t].periodEnd
    ensures t in FindByPeriodRange(s, start, end)
            <==> DaysIn(s.timesheets[t].periodStart, s.timesheets[t].periodEnd) <= DaysIn(start, end)
  {
    WithinIffSubset(s.timesheets[t].periodStart, s.timesheets[t].periodEnd, start, end);
  }

  /** The by-status lookups split the table: every timesheet is found under exactly one status,
      and the by-user lookups of two different users never share a timesheet. */
  lemma LookupsPartition(s: Store, st1: TimesheetStatus, st2: TimesheetStatus, u1: Id, u2: Id)
    ensures FindByStatus(s, Draft) + FindByStatus(s, Submitted) + FindByStatus(s, Approved)
            + FindByStatus(s, Rejected) == s.timesheets.Keys
    ensures st1 != st2 ==> FindByStatus(s, st1) * FindByStatus(s, st2) == {}
    ensures u1 != u2 ==> FindByUserId(s, u1) * FindByUserId(s, u2) == {}
  {
  }
}
