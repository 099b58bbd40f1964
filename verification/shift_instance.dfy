/** One dated occurrence of a shift template. */
module ShiftInstances {
  import opened Common
  import opened Calendar

  datatype ShiftStatus = Draft | Published | Cancelled

  datatype ShiftInstance = ShiftInstance(
    template: Id,
    shiftDate: Date,
    status: ShiftStatus,
    notes: Option<string>,
    publishedAt: Option<Timestamp>,
    publishedBy: Option<Id>)

  /** `new ShiftInstance(template, shiftDate)`: DRAFT and unpublished. */
  function NewInstance(template: Id, shiftDate: Date): (i: ShiftInstance)
    ensures i.template == template && i.shiftDate == shiftDate
    ensures i.status == Draft && i.publishedAt.None? && i.publishedBy.None? && i.notes.None?
  {
    ShiftInstance(template, shiftDate, Draft, None, None, None)
  }

  predicate IsPublished(i: ShiftInstance) {
    i.status == Published
  }

  /** Assignments may only be made while the instance is a draft. */
  predicate CanBeModified(i: ShiftInstance) {
    i.status == Draft
  }

  /** A new instance can be modified and is not published; a published one cannot be modified. */
  lemma StatusHelpers(i: ShiftInstance)
    ensures CanBeModified(NewInstance(i.template, i.shiftDate))
    ensures !IsPublished(NewInstance(i.template, i.shiftDate))
    ensures IsPublished(i) ==> !CanBeModified(i)
  {
  }
}
