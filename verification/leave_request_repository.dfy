/** The leave-request queries the services call, over the leave table. */
module LeaveRequestRepository {
  import opened Common
  import opened Calendar
  import opened LeaveRequests
  import opened Store

  /** `findByUserId`: every request of the user, whatever its status. */
  function FindByUserId(s: Store, user: Id): (r: set<Id>)
    ensures r <= s.leave.Keys
    ensures forall id :: id in r <==> id in s.leave && s.leave[id].user == user
  {
    set id | id in s.leave && s.leave[id].user == user
  }

  /** `findByStatus`: every request in the status, of any user. */
  function FindByStatus(s: Store, status: LeaveStatus): (r: set<Id>)
    ensures r <= s.leave.Keys
    ensures forall id :: id in r <==> id in s.leave && s.leave[id].status == status
  {
    set id | id in s.leave && s.leave[id].status == status
  }

  /** `findByUserIdAndStatus`: the requests matching both the user and the status. */
  function FindByUserIdAndStatus(s: Store, user: Id, status: LeaveStatus): (r: set<Id>)
    ensures r == FindByUserId(s, user) * FindByStatus(s, status)
  {
    set id | id in s.leave && s.leave[id].user == user && s.leave[id].status == status
  }

  /** `findApprovedLeaveInPeriod`: APPROVED requests of any user passing the overlap test. */
  function FindApprovedLeaveInPeriod(s: Store, start: Date, end: Date): (r: set<Id>)
    ensures r <= FindByStatus(s, Approved)
    ensures forall id :: id in r <==> id in FindByStatus(s, Approved)
                                      && Overlaps(s.leave[id].startDate, s.leave[id].endDate, start, end)
  {
    set id | id in s.leave && s.leave[id].status == Approved
             && Overlaps(s.leave[id].startDate, s.leave[id].endDate, start, end)
  }

  /** `findUserLeaveInPeriod`: the user's PENDING or APPROVED requests passing the overlap test. */
  function FindUserLeaveInPeriod(s: Store, user: Id, start: Date, end: Date): (r: set<Id>)
    ensures r <= FindByUserId(s, user)
    ensures forall id :: id in r <==> id in FindByUserId(s, user) && IsLive(s.leave[id].status)
                                      && Overlaps(s.leave[id].startDate, s.leave[id].endDate, start, end)
  {
    set id | id in s.leave && s.leave[id].user == user && IsLive(s.leave[id].status)
             && Overlaps(s.leave[id].startDate, s.leave[id].endDate, start, end)
  }

  /** For a well-formed request and query period, the per-user query returns the request exactly
      when it is live and shares at least one day with the period; a request ending on the
      period's first day, or starting on its last, counts. */
  lemma UserLeaveInPeriodIsSharedDay(s: Store, user: Id, start: Date, end: Date, id: Id)
    requires start <= end && id in s.leave && s.leave[id].startDate <= s.leave[id].endDate
    ensures id in FindUserLeaveInPeriod(s, user, start, end)
            <==> s.leave[id].user == user && IsLive(s.leave[id].status)
                 && exists d :: InPeriod(d, s.leave[id].startDate, s.leave[id].endDate)
                                && InPeriod(d, start, end)
  {
    OverlapsIffSharedDay(s.leave[id].startDate, s.leave[id].endDate, start, end);
  }

  /** The two overlap queries agree: the user's approved requests among the per-user results are
      the user's requests among the approved-in-period results. */
  lemma ApprovedQueriesAgree(s: Store, user: Id, start: Date, end: Date)
    ensures FindUserLeaveInPeriod(s, user, start, end) * FindByStatus(s, Approved)
            == FindApprovedLeaveInPeriod(s, start, end) * FindByUserId(s, user)
  {
  }

  /** A non-empty set of requests has one requested no later than every other. */
  lemma {:induction false} EarliestExists(s: Store, ids: set<Id>)
    requires ids != {} && ids <= s.leave.Keys
    ensures exists e :: e in ids && forall o :: o in ids ==> s.leave[e].requestedAt <= s.leave[o].requestedAt
    decreases |ids|
  {
    var x :| x in ids;
    if ids != {x} {
      var rest := ids - {x};
      EarliestExists(s, rest);
      var y :| y in rest && forall o :: o in rest ==> s.leave[y].requestedAt <= s.leave[o].requestedAt;
      if s.leave[x].requestedAt <= s.leave[y].requestedAt {
        assert forall o :: o in ids ==> s.leave[x].requestedAt <= s.leave[o].requestedAt;
      } else {
        assert forall o :: o in ids ==> s.leave[y].requestedAt <= s.leave[o].requestedAt;
      }
    } else {
      assert forall o :: o in ids ==> o == x;
    }
  }

  /** `findPendingRequests`: every PENDING request once, in ascending `requestedAt` order. */
  method FindPendingRequests(s: Store) returns (r: seq<Id>)
    ensures forall id :: id in r <==> id in s.leave && s.leave[id].status == Pending
    ensures forall i, j :: 0 <= i < j < |r| ==> r[i] != r[j]
    ensures forall i, j :: 0 <= i < j < |r| ==> s.leave[r[i]].requestedAt <= s.leave[r[j]].requestedAt
  {
    var pending := FindByStatus(s, Pending);
    var remaining := pending;
    r := [];
    while remaining != {}
      invariant remaining <= pending
      invariant forall id :: id in r <==> id in pending && id !in remaining
      invariant forall i, j :: 0 <= i < j < |r| ==> r[i] != r[j]
      invariant forall i, j :: 0 <= i < j < |r| ==> s.leave[r[i]].requestedAt <= s.leave[r[j]].requestedAt
      invariant forall i, o :: 0 <= i < |r| && o in remaining ==> s.leave[r[i]].requestedAt <= s.leave[o].requestedAt
      decreases remaining
    {
      EarliestExists(s, remaining);
      var e :| e in remaining && forall o :: o in remaining ==> s.leave[e].requestedAt <= s.leave[o].requestedAt;
      r := r + [e];
      remaining := remaining - {e};
    }
  }

  /** The by-status lookups split the table: every request is found under exactly one status,
      and the by-user lookups of two different users never share a request. */
  lemma LookupsPartition(s: Store, st1: LeaveStatus, st2: LeaveStatus, u1: Id, u2: Id)
    ensures FindByStatus(s, Pending) + FindByStatus(s, Approved) + FindByStatus(s, Rejected)
            + FindByStatus(s, Cancelled) == s.leave.Keys
    ensures st1 != st2 ==> FindByStatus(s, st1) * FindByStatus(s, st2) == {}
    ensures u1 != u2 ==> FindByUserId(s, u1) * FindByUserId(s, u2) == {}
  {
  }
}
