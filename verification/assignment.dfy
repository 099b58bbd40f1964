/** The binding of one user to one shift instance. */
module Assignments {
  import opened Common

  datatype AssignmentStatus = Active | Cancelled | Completed | SwapRequested | Swapped

  datatype Assignment = Assignment(
    shiftInstance: Id,
    user: Id,
    status: AssignmentStatus,
    assignedAt: Timestamp,
    assignedBy: Id,
    updatedAt: Option<Timestamp>,
    notes: Option<string>)

  /** `new Assignment(shiftInstance, user, assignedBy)`: ACTIVE, assigned now, no notes. */
  function NewAssignment(shiftInstance: Id, user: Id, assignedBy: Id, now: Timestamp): (a: Assignment)
    ensures a.shiftInstance == shiftInstance && a.user == user && a.assignedBy == assignedBy
    ensures a.status == Active && a.assignedAt == now
    ensures a.notes.None? && a.updatedAt.None?
  {
    Assignment(shiftInstance, user, Active, now, assignedBy, None, None)
  }

  /** The statuses a timesheet turns into entries: ACTIVE and COMPLETED. */
  predicate IsWorked(status: AssignmentStatus) {
    status == Active || status == Completed
  }
}
