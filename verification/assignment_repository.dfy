/** The assignment queries, over the assignment table joined to shift instances for dates. */
module AssignmentRepository {
  import opened Common
  import opened Calendar
  import opened Assignments
  import opened Store

  /** `findByUserId`: every assignment of the user, whatever its status. */
  function FindByUserId(s: Store, user: Id): (r: set<Id>)
    ensures r <= s.assignments.Keys
    ensures forall a :: a in r <==> a in s.assignments && s.assignments[a].user == user
  {
    set a | a in s.assignments && s.assignments[a].user == user
  }

  /** `findByShiftInstanceId`: every assignment of the instance, whatever its status. */
  function FindByShiftInstanceId(s: Store, instance: Id): (r: set<Id>)
    ensures r <= s.assignments.Keys
    ensures forall a :: a in r <==> a in s.assignments && s.assignments[a].shiftInstance == instance
  {
    set a | a in s.assignments && s.assignments[a].shiftInstance == instance
  }

  /** `findByStatus`: every assignment in the status, of any user. */
  function FindByStatus(s: Store, status: AssignmentStatus): (r: set<Id>)
    ensures r <= s.assignments.Keys
    ensures forall a :: a in r <==> a in s.assignments && s.assignments[a].status == status
  {
    set a | a in s.assignments && s.assignments[a].status == status
  }

  /** `findByUserIdAndDate`: the user's assignments, any status, whose shift is on the date. */
  function FindByUserIdAndDate(s: Store, user: Id, date: Date): (r: set<Id>)
    ensures r <= FindByUserId(s, user)
    ensures forall a :: a in r ==> AssignedOn(s, a, date)
    ensures forall a :: a in r <==> a in s.assignments && s.assignments[a].user == user && AssignedOn(s, a, date)
  {
    set a | a in s.assignments && s.assignments[a].user == user && AssignedOn(s, a, date)
  }

  /** `findByUserIdAndDateRange`: the user's assignments, any status, whose shift date lies in
      `[start, end]`, both ends included. */
  function FindByUserIdAndDateRange(s: Store, user: Id, start: Date, end: Date): (r: set<Id>)
    ensures r <= FindByUserId(s, user)
    ensures forall a :: a in r ==> s.assignments[a].shiftInstance in s.instances
                                   && InPeriod(s.instances[s.assignments[a].shiftInstance].shiftDate, start, end)
    ensures forall a :: a in r <==> && a in s.assignments && s.assignments[a].user == user
                                    && s.assignments[a].shiftInstance in s.instances
                                    && InPeriod(s.instances[s.assignments[a].shiftInstance].shiftDate, start, end)
  {
    set a | a in s.assignments && s.assignments[a].user == user
            && s.assignments[a].shiftInstance in s.instances
            && InPeriod(s.instances[s.assignments[a].shiftInstance].shiftDate, start, end)
  }

  /** `findActiveAssignmentsInPeriod`: ACTIVE assignments of any user dated in `[start, end]`. */
  function FindActiveAssignmentsInPeriod(s: Store, start: Date, end: Date): (r: set<Id>)
    ensures r <= FindByStatus(s, Active)
    ensures forall a :: a in r <==> a in FindByStatus(s, Active) && s.assignments[a].shiftInstance in s.instances
                                    && InPeriod(s.instances[s.assignments[a].shiftInstance].shiftDate, start, end)
  {
    set a | a in s.assignments && s.assignments[a].status == Active
            && s.assignments[a].shiftInstance in s.instances
            && InPeriod(s.instances[s.assignments[a].shiftInstance].shiftDate, start, end)
  }

  /** The range query is the union of the single-date queries over the range: an assignment is in
      it exactly when it is on some date of `[start, end]`. */
  lemma DateRangeIsUnionOfDates(s: Store, user: Id, start: Date, end: Date, a: Id)
    ensures a in FindByUserIdAndDateRange(s, user, start, end)
            <==> exists d :: InPeriod(d, start, end) && a in FindByUserIdAndDate(s, user, d)
  {
    if a in FindByUserIdAndDateRange(s, user, start, end) {
      var d := s.instances[s.assignments[a].shiftInstance].shiftDate;
      assert a in FindByUserIdAndDate(s, user, d);
    }
  }

  /** One user's part of the active-in-period query is that user's range query cut to ACTIVE. */
  lemma ActiveInPeriodPerUser(s: Store, user: Id, start: Date, end: Date)
    ensures FindActiveAssignmentsInPeriod(s, start, end) * FindByUserId(s, user)
            == FindByUserIdAndDateRange(s, user, start, end) * FindByStatus(s, Active)
  {
  }

  /** The by-status lookups split the table, and the by-user and by-instance lookups for two
      different keys never share an assignment. */
  lemma LookupsPartition(s: Store, st1: AssignmentStatus, st2: AssignmentStatus, u1: Id, u2: Id, i1: Id, i2: Id)
    ensures FindByStatus(s, Active) + FindByStatus(s, Cancelled) + FindByStatus(s, Completed)
            + FindByStatus(s, SwapRequested) + FindByStatus(s, Swapped) == s.assignments.Keys
    ensures st1 != st2 ==> FindByStatus(s, st1) * FindByStatus(s, st2) == {}
    ensures u1 != u2 ==> FindByUserId(s, u1) * FindByUserId(s, u2) == {}
    ensures i1 != i2 ==> FindByShiftInstanceId(s, i1) * FindByShiftInstanceId(s, i2) == {}
  {
  }
}
