/** The leave lifecycle: submit, approve, reject and cancel, and the approved-leave check. */
module LeaveService {
  import opened Common
  import opened Calendar
  import opened LeaveRequests
  import opened Store
  import opened LeaveRequestRepository

  /** Some PENDING or APPROVED request of the user passes the overlap test against the period. */
  predicate ClashesWithLiveLeave(s: Store, user: Id, start: Date, end: Date) {
    exists id :: id in s.leave && s.leave[id].user == user && IsLive(s.leave[id].status)
                 && Overlaps(s.leave[id].startDate, s.leave[id].endDate, start, end)
  }

  /** The clash predicate is exactly a non-empty answer from the per-user overlap query. */
  lemma ClashIffUserLeaveFound(s: Store, user: Id, start: Date, end: Date)
    ensures ClashesWithLiveLeave(s, user, start, end) <==> FindUserLeaveInPeriod(s, user, start, end) != {}
  {
    if ClashesWithLiveLeave(s, user, start, end) {
      var id :| id in s.leave && s.leave[id].user == user && IsLive(s.leave[id].status)
                && Overlaps(s.leave[id].startDate, s.leave[id].endDate, start, end);
      assert id in FindUserLeaveInPeriod(s, user, start, end);
    }
  }

  /** `r` is `s` with one leave request replaced by `req`, every other table and request as before. */
  predicate ReplacesRequest(s: Store, r: Store, id: Id, req: LeaveRequest) {
    r == s.(leave := r.leave) && Replaces(s.leave, r.leave, id, req)
  }

  /** `submitLeaveRequest`: the user must exist (checked first, before any leave query), the
      period must not be inverted (a single day is fine), it must not start before today, and no
      live request of the user may overlap it; REJECTED and CANCELLED requests never block.
      Success adds one PENDING request and keeps live requests pairwise disjoint. */
  function SubmitLeaveRequest(s: Store, user: Id, startDate: Date, endDate: Date, leaveType: LeaveType,
                              reason: string, today: Date, now: Timestamp, newId: Id): (r: Result<Store>)
    requires newId !in s.leave
    ensures user !in s.users ==> r == Err(NotFound)
    ensures user in s.users && startDate > endDate ==> r == Err(InvalidArgument)
    ensures user in s.users && startDate <= endDate && startDate < today ==> r == Err(InvalidArgument)
    ensures user in s.users && today <= startDate <= endDate && ClashesWithLiveLeave(s, user, startDate, endDate)
            ==> r == Err(Conflict)
    ensures r.Ok? <==> user in s.users && today <= startDate <= endDate
                       && !ClashesWithLiveLeave(s, user, startDate, endDate)
    ensures r.Ok? ==> ReplacesRequest(s, r.value, newId,
                        NewLeaveRequest(user, startDate, endDate, leaveType, reason, now))
    ensures r.Ok? ==> r.value.leave[newId].status == Pending && r.value.leave[newId].reviewedBy.None?
  {
    if user !in s.users then Err(NotFound)
    else if startDate > endDate then Err(InvalidArgument)
    else if startDate < today then Err(InvalidArgument)
    else
      ClashIffUserLeaveFound(s, user, startDate, endDate);
      if FindUserLeaveInPeriod(s, user, startDate, endDate) != {} then Err(Conflict)
    else Ok(s.(leave := s.leave[newId := NewLeaveRequest(user, startDate, endDate, leaveType, reason, now)]))
  }

  /** A successful submit keeps the live requests of every user pairwise non-overlapping. */
  lemma SubmitPreservesNoLiveOverlap(s: Store, user: Id, startDate: Date, endDate: Date,
                                     leaveType: LeaveType, reason: string, today: Date,
                                     now: Timestamp, newId: Id)
    requires newId !in s.leave && NoLiveOverlap(s)
    requires SubmitLeaveRequest(s, user, startDate, endDate, leaveType, reason, today, now, newId).Ok?
    ensures NoLiveOverlap(SubmitLeaveRequest(s, user, startDate, endDate, leaveType, reason, today, now, newId).value)
  {
    var r := SubmitLeaveRequest(s, user, startDate, endDate, leaveType, reason, today, now, newId).value;
    forall i, j | i in r.leave && j in r.leave && i != j && r.leave[i].user == r.leave[j].user
                  && IsLive(r.leave[i].status) && IsLive(r.leave[j].status)
      ensures !Overlaps(r.leave[i].startDate, r.leave[i].endDate, r.leave[j].startDate, r.leave[j].endDate)
    {
      if i == newId {
        assert !Overlaps(s.leave[j].startDate, s.leave[j].endDate, startDate, endDate);
      } else if j == newId {
        assert !Overlaps(s.leave[i].startDate, s.leave[i].endDate, startDate, endDate);
      }
    }
  }

  /** The review shared by approve and reject: only a PENDING request can be reviewed; the review
      records the decision, the reviewer, the time and the notes. */
  function Review(s: Store, requestId: Id, decision: LeaveStatus, reviewer: Id, notes: Option<string>,
                  now: Timestamp): Result<Store>
  {
    if requestId !in s.leave then Err(NotFound)
    else if s.leave[requestId].status != Pending then Err(InvalidState)
    else Ok(s.(leave := s.leave[requestId := s.leave[requestId].(status := decision,
               reviewedBy := Some(reviewer), reviewedAt := Some(now), reviewNotes := notes)]))
  }

  /** `r` holds the old request with a decision recorded on it, and nothing else changed. */
  predicate Reviewed(s: Store, r: Store, id: Id, decision: LeaveStatus, reviewer: Id,
                     notes: Option<string>, now: Timestamp)
    requires id in s.leave
  {
    var old_ := s.leave[id];
    ReplacesRequest(s, r, id, LeaveRequest(old_.user, old_.startDate, old_.endDate, old_.leaveType,
                                          old_.reason, decision, old_.requestedAt, Some(now),
                                          Some(reviewer), notes))
  }

  /** `approveLeaveRequest`: NotFound for an unknown request, InvalidState unless PENDING;
      otherwise APPROVED with reviewer, review time and notes recorded. */
  function ApproveLeaveRequest(s: Store, requestId: Id, approver: Id, notes: Option<string>,
                               now: Timestamp): (r: Result<Store>)
    ensures requestId !in s.leave ==> r == Err(NotFound)
    ensures requestId in s.leave && !IsPending(s.leave[requestId]) ==> r == Err(InvalidState)
    ensures r.Ok? <==> requestId in s.leave && IsPending(s.leave[requestId])
    ensures r.Ok? ==> Reviewed(s, r.value, requestId, Approved, approver, notes, now)
  {
    Review(s, requestId, Approved, approver, notes, now)
  }

  /** `rejectLeaveRequest`: as approve, ending in REJECTED. */
  function RejectLeaveRequest(s: Store, requestId: Id, reviewer: Id, notes: Option<string>,
                              now: Timestamp): (r: Result<Store>)
    ensures requestId !in s.leave ==> r == Err(NotFound)
    ensures requestId in s.leave && !IsPending(s.leave[requestId]) ==> r == Err(InvalidState)
    ensures r.Ok? <==> requestId in s.leave && IsPending(s.leave[requestId])
    ensures r.Ok? ==> Reviewed(s, r.value, requestId, Rejected, reviewer, notes, now)
  {
    Review(s, requestId, Rejected, reviewer, notes, now)
  }

  /** Approving a request a second time fails with InvalidState, whoever approves. */
  lemma ApproveTwiceFails(s: Store, requestId: Id, approver: Id, notes: Option<string>, now: Timestamp,
                          approver2: Id, notes2: Option<string>, now2: Timestamp)
    requires ApproveLeaveRequest(s, requestId, approver, notes, now).Ok?
    ensures ApproveLeaveRequest(ApproveLeaveRequest(s, requestId, approver, notes, now).value,
                                requestId, approver2, notes2, now2) == Err(InvalidState)
  {
  }

  /** `cancelLeaveRequest`: NotFound for an unknown request; ownership is checked before status,
      so another user's request fails with InvalidState even when PENDING; the owner can only
      cancel a PENDING request. Success sets CANCELLED and records no reviewer. */
  function CancelLeaveRequest(s: Store, requestId: Id, user: Id): (r: Result<Store>)
    ensures requestId !in s.leave ==> r == Err(NotFound)
    ensures requestId in s.leave && s.leave[requestId].user != user ==> r == Err(InvalidState)
    ensures requestId in s.leave && !IsPending(s.leave[requestId]) ==> r == Err(InvalidState)
    ensures r.Ok? <==> requestId in s.leave && s.leave[requestId].user == user
                       && IsPending(s.leave[requestId])
    ensures r.Ok? ==> ReplacesRequest(s, r.value, requestId,
                        s.leave[requestId].(status := LeaveStatus.Cancelled))
  {
    if requestId !in s.leave then Err(NotFound)
    else if s.leave[requestId].user != user then Err(InvalidState)
    else if s.leave[requestId].status != Pending then Err(InvalidState)
    else Ok(s.(leave := s.leave[requestId := s.leave[requestId].(status := LeaveStatus.Cancelled)]))
  }

  /** Reviews and cancellations never create an overlap: they only move PENDING requests to
      APPROVED (still live, same days) or out of the live set. */
  lemma TransitionsPreserveNoLiveOverlap(s: Store, requestId: Id, actor: Id, notes: Option<string>,
                                         now: Timestamp)
    requires NoLiveOverlap(s)
    ensures ApproveLeaveRequest(s, requestId, actor, notes, now).Ok? ==>
              NoLiveOverlap(ApproveLeaveRequest(s, requestId, actor, notes, now).value)
    ensures RejectLeaveRequest(s, requestId, actor, notes, now).Ok? ==>
              NoLiveOverlap(RejectLeaveRequest(s, requestId, actor, notes, now).value)
    ensures CancelLeaveRequest(s, requestId, actor).Ok? ==>
              NoLiveOverlap(CancelLeaveRequest(s, requestId, actor).value)
  {
    var approved := ApproveLeaveRequest(s, requestId, actor, notes, now);
    if approved.Ok? {
      SameDaysPreserveNoLiveOverlap(s, approved.value, requestId, approved.value.leave[requestId]);
    }
    var rejected := RejectLeaveRequest(s, requestId, actor, notes, now);
    if rejected.Ok? {
      SameDaysPreserveNoLiveOverlap(s, rejected.value, requestId, rejected.value.leave[requestId]);
    }
    var cancelled := CancelLeaveRequest(s, requestId, actor);
    if cancelled.Ok? {
      SameDaysPreserveNoLiveOverlap(s, cancelled.value, requestId, cancelled.value.leave[requestId]);
    }
  }

  /** Replacing a request by one of the same user and days that is live only if the old one was
      keeps the live requests of every user pairwise disjoint. */
  lemma SameDaysPreserveNoLiveOverlap(s: Store, r: Store, id: Id, req: LeaveRequest)
    requires NoLiveOverlap(s) && id in s.leave && ReplacesRequest(s, r, id, req)
    requires req.user == s.leave[id].user
    requires req.startDate == s.leave[id].startDate && req.endDate == s.leave[id].endDate
    requires IsLive(req.status) ==> IsLive(s.leave[id].status)
    ensures NoLiveOverlap(r)
  {
    forall i, j | i in r.leave && j in r.leave && i != j && r.leave[i].user == r.leave[j].user
                  && IsLive(r.leave[i].status) && IsLive(r.leave[j].status)
      ensures !Overlaps(r.leave[i].startDate, r.leave[i].endDate, r.leave[j].startDate, r.leave[j].endDate)
    {
      assert i in s.leave && j in s.leave;
      assert IsLive(s.leave[i].status) && IsLive(s.leave[j].status);
    }
  }

  /** `hasApprovedLeave`: some request of the user passing the overlap test is APPROVED; a PENDING
      one does not count. */
  function HasApprovedLeave(s: Store, user: Id, start: Date, end: Date): (b: bool)
    ensures b <==> exists id :: id in s.leave && s.leave[id].user == user && IsApproved(s.leave[id])
                                && Overlaps(s.leave[id].startDate, s.leave[id].endDate, start, end)
  {
    exists id :: id in FindUserLeaveInPeriod(s, user, start, end) && IsApproved(s.leave[id])
  }

  /** The check agrees with the global approved-in-period query restricted to the user, and
      removing a PENDING request never changes its answer. */
  lemma HasApprovedLeaveMatchesApprovedQuery(s: Store, user: Id, start: Date, end: Date, pending: Id)
    ensures HasApprovedLeave(s, user, start, end)
            <==> FindApprovedLeaveInPeriod(s, start, end) * FindByUserId(s, user) != {}
    ensures pending in s.leave && IsPending(s.leave[pending]) ==>
              HasApprovedLeave(s.(leave := s.leave - {pending}), user, start, end)
              == HasApprovedLeave(s, user, start, end)
  {
    if HasApprovedLeave(s, user, start, end) {
      var id :| id in s.leave && s.leave[id].user == user && IsApproved(s.leave[id])
                && Overlaps(s.leave[id].startDate, s.leave[id].endDate, start, end);
      assert id in FindApprovedLeaveInPeriod(s, start, end) * FindByUserId(s, user);
    }
    if pending in s.leave && IsPending(s.leave[pending]) {
      var s' := s.(leave := s.leave - {pending});
      if HasApprovedLeave(s, user, start, end) {
        var id :| id in s.leave && s.leave[id].user == user && IsApproved(s.leave[id])
                  && Overlaps(s.leave[id].startDate, s.leave[id].endDate, start, end);
        assert id in s'.leave && s'.leave[id] == s.leave[id];
      }
      if HasApprovedLeave(s', user, start, end) {
        var id :| id in s'.leave && s'.leave[id].user == user && IsApproved(s'.leave[id])
                  && Overlaps(s'.leave[id].startDate, s'.leave[id].endDate, start, end);
        assert id in s.leave && s.leave[id] == s'.leave[id];
      }
    }
  }

  /** Submitting 2024-06-10 to 2024-06-12 (epoch days 19884 to 19886) for a user with no live
      leave then, and afterwards 2024-06-11 to 2024-06-13: the first request is PENDING and the
      second clashes with it. */
  lemma OverlappingSecondRequestConflicts(s: Store, user: Id, today: Date, now: Timestamp, id1: Id, id2: Id,
                                          type1: LeaveType, type2: LeaveType, reason1: string, reason2: string)
    requires user in s.users && today <= 19884
    requires id1 !in s.leave && id2 !in s.leave && id1 != id2
    requires !ClashesWithLiveLeave(s, user, 19884, 19886)
    ensures var r := SubmitLeaveRequest(s, user, 19884, 19886, type1, reason1, today, now, id1);
            && r.Ok? && r.value.leave[id1].status == Pending
            && SubmitLeaveRequest(r.value, user, 19885, 19887, type2, reason2, today, now, id2) == Err(Conflict)
  {
    var s1 := SubmitLeaveRequest(s, user, 19884, 19886, type1, reason1, today, now, id1).value;
    assert s1.leave[id1].user == user && IsLive(s1.leave[id1].status)
           && Overlaps(s1.leave[id1].startDate, s1.leave[id1].endDate, 19885, 19887);
  }
}
