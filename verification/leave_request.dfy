/** A user's request to be off work over an inclusive range of days. */
module LeaveRequests {
  import opened Common
  import opened Calendar

  datatype LeaveType = Vacation | Sick | Personal | Emergency | Bereavement | Maternity | Paternity

  datatype LeaveStatus = Pending | Approved | Rejected | Cancelled

  datatype LeaveRequest = LeaveRequest(
    user: Id,
    startDate: Date,
    endDate: Date,
    leaveType: LeaveType,
    reason: string,
    status: LeaveStatus,
    requestedAt: Timestamp,
    reviewedAt: Option<Timestamp>,
    reviewedBy: Option<Id>,
    reviewNotes: Option<string>)

  /** `new LeaveRequest(user, startDate, endDate, leaveType, reason)`: PENDING, requested now,
      not yet reviewed. */
  function NewLeaveRequest(user: Id, startDate: Date, endDate: Date, leaveType: LeaveType,
                           reason: string, now: Timestamp): (r: LeaveRequest)
    ensures r.status == Pending && r.requestedAt == now
    ensures r.reviewedAt.None? && r.reviewedBy.None? && r.reviewNotes.None?
    ensures r.user == user && r.startDate == startDate && r.endDate == endDate
    ensures r.leaveType == leaveType && r.reason == reason
  {
    LeaveRequest(user, startDate, endDate, leaveType, reason, Pending, now, None, None, None)
  }

  predicate IsPending(r: LeaveRequest) {
    r.status == Pending
  }

  predicate IsApproved(r: LeaveRequest) {
    r.status == Approved
  }

  /** The statuses `status IN ('PENDING', 'APPROVED')` of the per-user leave query: the requests
      that still claim their days. */
  predicate IsLive(status: LeaveStatus) {
    status == Pending || status == Approved
  }

  /** `getDurationDays()`: `DAYS.between(startDate, endDate) + 1`. */
  function DurationDays(r: LeaveRequest): int {
    DaysBetween(r.startDate, r.endDate) + 1
  }

  /** The duration counts the days of the request, both ends included, so a single-day request
      lasts one day. */
  lemma DurationCountsDays(r: LeaveRequest)
    requires r.startDate <= r.endDate
    ensures DurationDays(r) == |DaysIn(r.startDate, r.endDate)|
    ensures r.startDate == r.endDate ==> DurationDays(r) == 1
  {
    DaysInCount(r.startDate, r.endDate);
  }

  /** Being pending and being approved exclude each other, and both are live. */
  lemma PendingApprovedLive(r: LeaveRequest)
    ensures !(IsPending(r) && IsApproved(r))
    ensures IsLive(r.status) <==> IsPending(r) || IsApproved(r)
  {
  }
}
