/** Read-only views over shifts, assignments and leave: week schedules, double bookings and
    per-date availability. */
module ScheduleService {
  import opened Common
  import opened Calendar
  import opened LeaveRequests
  import opened ShiftInstances
  import opened Assignments
  import opened Store
  import ShiftInstanceRepository
  import AssignmentRepository
  import LeaveRequestRepository
  import LeaveService

  /** All users' published week: the Monday-to-Sunday window and the ids in it. */
  datatype WeeklySchedule = WeeklySchedule(
    weekStart: Date,
    weekEnd: Date,
    shifts: set<Id>,
    assignments: set<Id>,
    approvedLeave: set<Id>)

  /** One user's week. */
  datatype UserWeeklySchedule = UserWeeklySchedule(
    user: Id,
    weekStart: Date,
    weekEnd: Date,
    assignments: set<Id>,
    leave: set<Id>)

  /** A date on which the user holds more than one assignment. */
  datatype ScheduleConflict = ScheduleConflict(user: Id, date: Date, conflictingAssignments: set<Id>)

  /** The assignment's shift lies within `[start, end]`. */
  predicate AssignedWithin(s: Store, a: Id, start: Date, end: Date) {
    a in s.assignments && s.assignments[a].shiftInstance in s.instances
    && InPeriod(s.instances[s.assignments[a].shiftInstance].shiftDate, start, end)
  }

  /** `getWeeklySchedule`: the Monday on or before the date through the Sunday after it; the
      PUBLISHED instances dated in that week, the ACTIVE assignments whose shift is in it, and
      the APPROVED leave of any user overlapping it. */
  function GetWeeklySchedule(s: Store, date: Date): (w: WeeklySchedule)
    ensures IsMonday(w.weekStart) && w.weekEnd == w.weekStart + 6
    ensures w.weekStart <= date <= w.weekEnd
    ensures forall i :: i in w.shifts <==> (i in s.instances && IsPublished(s.instances[i])
                                           && InPeriod(s.instances[i].shiftDate, w.weekStart, w.weekEnd))
    ensures forall a :: a in w.assignments <==> (AssignedWithin(s, a, w.weekStart, w.weekEnd)
                                                && s.assignments[a].status == AssignmentStatus.Active)
    ensures forall l :: l in w.approvedLeave <==> (l in s.leave && IsApproved(s.leave[l])
                                                  && Overlaps(s.leave[l].startDate, s.leave[l].endDate, w.weekStart, w.weekEnd))
  {
    var weekStart := WeekStart(date);
    var weekEnd := weekStart + 6;
    WeeklySchedule(weekStart, weekEnd,
                   ShiftInstanceRepository.FindPublishedShiftsInPeriod(s, weekStart, weekEnd),
                   AssignmentRepository.FindActiveAssignmentsInPeriod(s, weekStart, weekEnd),
                   LeaveRequestRepository.FindApprovedLeaveInPeriod(s, weekStart, weekEnd))
  }

  /** Every date of one Monday-to-Sunday week yields the same weekly schedule. */
  lemma WeeklyScheduleIsPerWeek(s: Store, date: Date, other: Date)
    requires GetWeeklySchedule(s, date).weekStart <= other <= GetWeeklySchedule(s, date).weekEnd
    ensures GetWeeklySchedule(s, other) == GetWeeklySchedule(s, date)
  {
    SameWeek(date, other);
  }

  /** `getUserWeeklySchedule`: NotFound for an unknown user; otherwise the same week window,
      the user's assignments of any status whose shift is in it, and the user's PENDING or
      APPROVED leave overlapping it. */
  function GetUserWeeklySchedule(s: Store, user: Id, date: Date): (r: Result<UserWeeklySchedule>)
    ensures r.Err? <==> user !in s.users
    ensures r.Err? ==> r.error == NotFound
    ensures r.Ok? ==> var u := r.value;
              && u.user == user
              && u.weekStart == GetWeeklySchedule(s, date).weekStart
              && u.weekEnd == GetWeeklySchedule(s, date).weekEnd
              && (forall a :: a in u.assignments <==> (AssignedWithin(s, a, u.weekStart, u.weekEnd)
                                                      && s.assignments[a].user == user))
              && (forall l :: l in u.leave <==> (l in s.leave && s.leave[l].user == user && IsLive(s.leave[l].status)
                                                && Overlaps(s.leave[l].startDate, s.leave[l].endDate, u.weekStart, u.weekEnd)))
  {
    if user !in s.users then Err(NotFound)
    else
      var weekStart := WeekStart(date);
      var weekEnd := weekStart + 6;
      Ok(UserWeeklySchedule(user, weekStart, weekEnd,
                            AssignmentRepository.FindByUserIdAndDateRange(s, user, weekStart, weekEnd),
                            LeaveRequestRepository.FindUserLeaveInPeriod(s, user, weekStart, weekEnd)))
  }

  /** The user's view and the all-users view of one week agree: the user's ACTIVE assignments
      and APPROVED leave are exactly the user's part of the weekly schedule. */
  lemma UserViewAgreesWithWeeklyView(s: Store, user: Id, date: Date)
    requires user in s.users
    ensures var u := GetUserWeeklySchedule(s, user, date).value;
            var w := GetWeeklySchedule(s, date);
            && u.assignments * AssignmentRepository.FindByStatus(s, AssignmentStatus.Active)
               == w.assignments * AssignmentRepository.FindByUserId(s, user)
            && u.leave * LeaveRequestRepository.FindByStatus(s, Approved)
               == w.approvedLeave * LeaveRequestRepository.FindByUserId(s, user)
  {
  }

  /** The user's assignments in `[start, end]` whose shift is on `date`: one group of the
      by-date grouping. */
  function Group(s: Store, user: Id, start: Date, end: Date, date: Date): set<Id> {
    set a | a in AssignmentRepository.FindByUserIdAndDateRange(s, user, start, end) && AssignedOn(s, a, date)
  }

  /** A set with two different members has more than one. */
  lemma TwoMembers<T>(xs: set<T>, a: T, b: T)
    requires a in xs && b in xs && a != b
    ensures |xs| > 1
  {
    var rest := xs - {a};
    assert b in rest;
    assert xs == rest + {a};
  }

  /** `getScheduleConflicts`: the user's assignments in `[start, end]` (any status, cancelled
      ones included) grouped by shift date, keeping the groups of more than one. Each reported
      conflict is for the user, on a date in range, holds only the user's assignments on that
      date and all of them; each date is reported at most once; and any two different
      assignments of the user on one date in range are reported together. */
  function GetScheduleConflicts(s: Store, user: Id, start: Date, end: Date): (r: set<ScheduleConflict>)
    ensures forall c :: c in r ==> c.user == user && InPeriod(c.date, start, end)
                                   && |c.conflictingAssignments| > 1
    ensures forall c, a :: c in r ==>
              (a in c.conflictingAssignments <==> a in s.assignments && s.assignments[a].user == user
                                                   && AssignedOn(s, a, c.date))
    ensures forall c1, c2 :: c1 in r && c2 in r && c1.date == c2.date ==> c1 == c2
    ensures forall a1, a2, d :: (a1 != a2 && InPeriod(d, start, end)
                                 && a1 in s.assignments && s.assignments[a1].user == user && AssignedOn(s, a1, d)
                                 && a2 in s.assignments && s.assignments[a2].user == user && AssignedOn(s, a2, d))
                                ==> ScheduleConflict(user, d, Group(s, user, start, end, d)) in r
                                    && a1 in Group(s, user, start, end, d) && a2 in Group(s, user, start, end, d)
  {
    var r := set d | start <= d <= end && |Group(s, user, start, end, d)| > 1
                 :: ScheduleConflict(user, d, Group(s, user, start, end, d));
    forall a1, a2, d | (a1 != a2 && InPeriod(d, start, end)
                        && a1 in s.assignments && s.assignments[a1].user == user && AssignedOn(s, a1, d)
                        && a2 in s.assignments && s.assignments[a2].user == user && AssignedOn(s, a2, d))
      ensures ScheduleConflict(user, d, Group(s, user, start, end, d)) in r
    {
      assert a1 in Group(s, user, start, end, d) && a2 in Group(s, user, start, end, d);
      TwoMembers(Group(s, user, start, end, d), a1, a2);
    }
    r
  }

  /** `isUserAvailableForShift`: false when the user holds an ACTIVE assignment on the date
      (other statuses do not count); otherwise false exactly when some APPROVED leave of the user
      covers the date (PENDING leave does not block). */
  function IsUserAvailableForShift(s: Store, user: Id, date: Date): (b: bool)
    ensures b <==> && !(exists a :: a in s.assignments && s.assignments[a].user == user
                                    && s.assignments[a].status == AssignmentStatus.Active && AssignedOn(s, a, date))
                   && !(exists l :: l in s.leave && s.leave[l].user == user && IsApproved(s.leave[l])
                                    && InPeriod(date, s.leave[l].startDate, s.leave[l].endDate))
  {
    var hasActiveAssignment := exists a :: a in AssignmentRepository.FindByUserIdAndDate(s, user, date)
                                           && s.assignments[a].status == AssignmentStatus.Active;
    if hasActiveAssignment then false
    else
      var leave := LeaveRequestRepository.FindUserLeaveInPeriod(s, user, date, date);
      forall l :: l in leave ==> !IsApproved(s.leave[l])
  }

  /** The leave half of availability is the approved-leave check on the single-day period. */
  lemma AvailabilityUsesApprovedLeave(s: Store, user: Id, date: Date)
    ensures IsUserAvailableForShift(s, user, date)
            <==> (forall a :: a in AssignmentRepository.FindByUserIdAndDate(s, user, date)
                              ==> s.assignments[a].status != AssignmentStatus.Active)
                 && !LeaveService.HasApprovedLeave(s, user, date, date)
  {
  }

  /** `getAvailableDates`: the dates of `[start, end]`, in ascending order, on which the user is
      available; an empty range gives no dates. */
  function AvailableDates(s: Store, user: Id, start: Date, end: Date): (r: seq<Date>)
    ensures forall i, j :: 0 <= i < j < |r| ==> r[i] < r[j]
    ensures forall d :: d in r <==> InPeriod(d, start, end) && IsUserAvailableForShift(s, user, d)
    decreases end - start
  {
    if start > end then []
    else
      var rest := AvailableDates(s, user, start + 1, end);
      assert forall d :: d in rest ==> d > start;
      assert forall k :: 0 <= k < |rest| ==> rest[k] in rest;
      if IsUserAvailableForShift(s, user, start) then [start] + rest else rest
  }

  /** The users holding a role named STAFF. */
  function Staff(s: Store): (r: set<Id>)
    ensures forall u :: u in r <==> u in s.users && "STAFF" in s.users[u].roleNames
  {
    set u | u in s.users && "STAFF" in s.users[u].roleNames
  }

  /** `getStaffAvailability`: one key per STAFF user, mapped to that user's available dates in
      `[start, end]`. Enumerating the dates up to the day after `end` is refused with
      InvalidArgument when that day is before `start`, which only happens once there is a
      staff member to enumerate them for; `start` one day after `end` is an empty range. */
  function GetStaffAvailability(s: Store, start: Date, end: Date): (r: Result<map<Id, seq<Date>>>)
    ensures r.Err? <==> Staff(s) != {} && start > end + 1
    ensures r.Err? ==> r.error == InvalidArgument
    ensures r.Ok? ==> r.value.Keys == Staff(s)
    ensures r.Ok? ==> forall u, d :: u in r.value ==>
              (d in r.value[u] <==> InPeriod(d, start, end) && IsUserAvailableForShift(s, u, d))
    ensures r.Ok? ==> forall u, i, j :: u in r.value && 0 <= i < j < |r.value[u]| ==> r.value[u][i] < r.value[u][j]
  {
    if Staff(s) != {} && start > end + 1 then Err(InvalidArgument)
    else Ok(map u | u in Staff(s) :: AvailableDates(s, u, start, end))
  }
}
