/** Shift templates, their dated instances and the assignment of users to them. */
module ShiftService {
  import opened Common
  import opened Calendar
  import opened ShiftTemplates
  import opened ShiftInstances
  import opened Assignments
  import opened Store
  import ShiftInstanceRepository
  import AssignmentRepository

  /** `createShiftTemplate`: the location is looked up first, then the role; the saved template
      carries the constructor's fields and the given break, and a negative break is refused by
      the `@PositiveOrZero` constraint when the template is saved. The template starts active
      with room for one assignment, and its duration is the span less the break. */
  function CreateShiftTemplate(s: Store, name: string, location: Id, role: Id, startTime: Time,
                               endTime: Time, breakMinutes: int, newId: Id): (r: Result<Store>)
    requires newId !in s.templates
    ensures location !in s.locations ==> r == Err(NotFound)
    ensures location in s.locations && role !in s.roles ==> r == Err(NotFound)
    ensures location in s.locations && role in s.roles && breakMinutes < 0 ==> r == Err(InvalidArgument)
    ensures r.Ok? <==> location in s.locations && role in s.roles && breakMinutes >= 0
    ensures r.Ok? ==> r.value == s.(templates := r.value.templates)
                      && Replaces(s.templates, r.value.templates, newId,
                                  NewTemplate(name, location, role, startTime, endTime).(breakMinutes := breakMinutes))
    ensures r.Ok? ==> var t := r.value.templates[newId];
                      t.isActive && t.maxAssignments == 1 && ValidTemplate(t)
                      && DurationMinutes(t) == endTime - startTime - breakMinutes
  {
    if location !in s.locations then Err(NotFound)
    else if role !in s.roles then Err(NotFound)
    else if breakMinutes < 0 then Err(InvalidArgument)
    else Ok(s.(templates := s.templates[newId := NewTemplate(name, location, role, startTime, endTime)
                                                .(breakMinutes := breakMinutes)]))
  }

  /** Some instance of the template already exists on the date. */
  predicate InstanceExists(s: Store, template: Id, shiftDate: Date) {
    exists i :: i in s.instances && s.instances[i].template == template && s.instances[i].shiftDate == shiftDate
  }

  /** `createShiftInstance`: NotFound for an unknown template, Conflict when an instance of the
      template already exists on the date; otherwise one DRAFT instance is added. Whether the
      template is active is never consulted. Success keeps one instance per (template, date)
      and every instance's template resolvable. */
  function CreateShiftInstance(s: Store, template: Id, shiftDate: Date, newId: Id): (r: Result<Store>)
    requires newId !in s.instances
    ensures template !in s.templates ==> r == Err(NotFound)
    ensures template in s.templates && InstanceExists(s, template, shiftDate) ==> r == Err(Conflict)
    ensures r.Ok? <==> template in s.templates && !InstanceExists(s, template, shiftDate)
    ensures r.Ok? ==> r.value == s.(instances := r.value.instances)
                      && Replaces(s.instances, r.value.instances, newId, NewInstance(template, shiftDate))
    ensures r.Ok? && UniqueInstances(s) ==> UniqueInstances(r.value)
    ensures r.Ok? && TemplatesResolved(s) ==> TemplatesResolved(r.value)
  {
    if template !in s.templates then Err(NotFound)
    else
      InstanceExistsIffFound(s, template, shiftDate);
      if ShiftInstanceRepository.FindByTemplateIdAndShiftDate(s, template, shiftDate) != {} then Err(Conflict)
      else Ok(s.(instances := s.instances[newId := NewInstance(template, shiftDate)]))
  }

  /** The existence test is exactly a non-empty answer from the (template, date) lookup. */
  lemma InstanceExistsIffFound(s: Store, template: Id, shiftDate: Date)
    ensures InstanceExists(s, template, shiftDate)
            <==> ShiftInstanceRepository.FindByTemplateIdAndShiftDate(s, template, shiftDate) != {}
  {
    if InstanceExists(s, template, shiftDate) {
      var i :| i in s.instances && s.instances[i].template == template && s.instances[i].shiftDate == shiftDate;
      assert i in ShiftInstanceRepository.FindByTemplateIdAndShiftDate(s, template, shiftDate);
    }
  }

  /** Creating a second instance of a template on the same date fails. */
  lemma SecondInstanceConflicts(s: Store, template: Id, shiftDate: Date, id1: Id, id2: Id)
    requires id1 !in s.instances && id1 != id2 && id2 !in s.instances
    requires CreateShiftInstance(s, template, shiftDate, id1).Ok?
    ensures CreateShiftInstance(CreateShiftInstance(s, template, shiftDate, id1).value,
                                template, shiftDate, id2) == Err(Conflict)
  {
    var r := CreateShiftInstance(s, template, shiftDate, id1).value;
    assert r.instances[id1].template == template && r.instances[id1].shiftDate == shiftDate;
  }

  /** `publishShiftInstance`: NotFound for an unknown instance, InvalidState unless DRAFT;
      otherwise PUBLISHED with publisher and time recorded, template and date untouched. */
  function PublishShiftInstance(s: Store, instanceId: Id, publishedBy: Id, now: Timestamp): (r: Result<Store>)
    ensures instanceId !in s.instances ==> r == Err(NotFound)
    ensures instanceId in s.instances && !CanBeModified(s.instances[instanceId]) ==> r == Err(InvalidState)
    ensures r.Ok? <==> instanceId in s.instances && s.instances[instanceId].status == Draft
    ensures r.Ok? ==> var i := s.instances[instanceId];
                      r.value == s.(instances := r.value.instances)
                      && Replaces(s.instances, r.value.instances, instanceId,
                                  ShiftInstance(i.template, i.shiftDate, Published, i.notes, Some(now), Some(publishedBy)))
    ensures r.Ok? && UniqueInstances(s) ==> UniqueInstances(r.value)
    ensures r.Ok? && TemplatesResolved(s) ==> TemplatesResolved(r.value)
  {
    if instanceId !in s.instances then Err(NotFound)
    else if s.instances[instanceId].status != Draft then Err(InvalidState)
    else Ok(s.(instances := s.instances[instanceId := s.instances[instanceId].(
               status := Published, publishedBy := Some(publishedBy), publishedAt := Some(now))]))
  }

  /** The user holds an ACTIVE assignment on the instance. */
  predicate ActivelyAssigned(s: Store, instanceId: Id, user: Id) {
    exists a :: a in s.assignments && s.assignments[a].shiftInstance == instanceId
                && s.assignments[a].user == user && s.assignments[a].status == AssignmentStatus.Active
  }

  /** `assignUserToShift`: the instance is looked up first, then the user; the instance must be
      DRAFT (a PUBLISHED or CANCELLED one is refused), and the user must not already hold an
      ACTIVE assignment on it (a cancelled one does not block). Capacity, leave and
      availability are not consulted. Success adds one ACTIVE assignment and keeps at most one
      ACTIVE assignment per (user, instance). */
  function AssignUserToShift(s: Store, instanceId: Id, user: Id, assignedBy: Id, now: Timestamp,
                             newId: Id): (r: Result<Store>)
    requires newId !in s.assignments
    ensures instanceId !in s.instances ==> r == Err(NotFound)
    ensures instanceId in s.instances && user !in s.users ==> r == Err(NotFound)
    ensures instanceId in s.instances && user in s.users && !CanBeModified(s.instances[instanceId])
            ==> r == Err(InvalidState)
    ensures (instanceId in s.instances && user in s.users && CanBeModified(s.instances[instanceId])
             && ActivelyAssigned(s, instanceId, user)) ==> r == Err(Conflict)
    ensures r.Ok? <==> instanceId in s.instances && user in s.users
                       && s.instances[instanceId].status == Draft && !ActivelyAssigned(s, instanceId, user)
    ensures r.Ok? ==> r.value == s.(assignments := r.value.assignments)
                      && Replaces(s.assignments, r.value.assignments, newId,
                                  NewAssignment(instanceId, user, assignedBy, now))
    ensures r.Ok? && OneActivePerUserAndShift(s) ==> OneActivePerUserAndShift(r.value)
  {
    if instanceId !in s.instances then Err(NotFound)
    else if user !in s.users then Err(NotFound)
    else if !CanBeModified(s.instances[instanceId]) then Err(InvalidState)
    else
      ActivelyAssignedIffFound(s, instanceId, user);
      if exists a :: a in AssignmentRepository.FindByShiftInstanceId(s, instanceId)
                     && s.assignments[a].user == user && s.assignments[a].status == AssignmentStatus.Active
      then Err(Conflict)
      else Ok(s.(assignments := s.assignments[newId := NewAssignment(instanceId, user, assignedBy, now)]))
  }

  /** The duplicate test is a scan of the instance's assignments for an ACTIVE one of the user. */
  lemma ActivelyAssignedIffFound(s: Store, instanceId: Id, user: Id)
    ensures ActivelyAssigned(s, instanceId, user)
            <==> exists a :: a in AssignmentRepository.FindByShiftInstanceId(s, instanceId)
                             && s.assignments[a].user == user && s.assignments[a].status == AssignmentStatus.Active
  {
    if ActivelyAssigned(s, instanceId, user) {
      var a :| a in s.assignments && s.assignments[a].shiftInstance == instanceId
               && s.assignments[a].user == user && s.assignments[a].status == AssignmentStatus.Active;
      assert a in AssignmentRepository.FindByShiftInstanceId(s, instanceId);
    }
  }

  /** Capacity is not enforced: two different users can both be assigned to a draft instance
      whose template allows one assignment. */
  lemma MaxAssignmentsNotEnforced(s: Store, instanceId: Id, u1: Id, u2: Id, manager: Id, now: Timestamp, a1: Id, a2: Id)
    requires instanceId in s.instances && s.instances[instanceId].status == Draft
    requires s.instances[instanceId].template in s.templates
    requires s.templates[s.instances[instanceId].template].maxAssignments == 1
    requires u1 in s.users && u2 in s.users && u1 != u2
    requires !ActivelyAssigned(s, instanceId, u1) && !ActivelyAssigned(s, instanceId, u2)
    requires a1 !in s.assignments && a2 !in s.assignments && a1 != a2
    ensures AssignUserToShift(s, instanceId, u1, manager, now, a1).Ok?
    ensures var s1 := AssignUserToShift(s, instanceId, u1, manager, now, a1).value;
            && AssignUserToShift(s1, instanceId, u2, manager, now, a2).Ok?
            && var s2 := AssignUserToShift(s1, instanceId, u2, manager, now, a2).value;
               && s2.assignments[a1].status == AssignmentStatus.Active == s2.assignments[a2].status
               && a1 in AssignmentRepository.FindByShiftInstanceId(s2, instanceId)
               && a2 in AssignmentRepository.FindByShiftInstanceId(s2, instanceId)
  {
    var s1 := AssignUserToShift(s, instanceId, u1, manager, now, a1).value;
    forall a | a in s1.assignments && s1.assignments[a].shiftInstance == instanceId && s1.assignments[a].user == u2
      ensures s1.assignments[a].status != AssignmentStatus.Active
    {
      if a != a1 {
        assert s1.assignments[a] == s.assignments[a];
      }
    }
  }

  /** Once an instance is published nobody can be assigned to it. */
  lemma NoAssignmentAfterPublish(s: Store, instanceId: Id, publisher: Id, now: Timestamp, user: Id,
                                 manager: Id, now2: Timestamp, newId: Id)
    requires newId !in s.assignments && user in s.users
    requires PublishShiftInstance(s, instanceId, publisher, now).Ok?
    ensures AssignUserToShift(PublishShiftInstance(s, instanceId, publisher, now).value,
                              instanceId, user, manager, now2, newId) == Err(InvalidState)
  {
  }

  /** `cancelAssignment`: NotFound for an unknown assignment, InvalidState unless ACTIVE;
      otherwise CANCELLED with the reason as its notes and the update time recorded. */
  function CancelAssignment(s: Store, assignmentId: Id, reason: string, now: Timestamp): (r: Result<Store>)
    ensures assignmentId !in s.assignments ==> r == Err(NotFound)
    ensures assignmentId in s.assignments && s.assignments[assignmentId].status != AssignmentStatus.Active
            ==> r == Err(InvalidState)
    ensures r.Ok? <==> assignmentId in s.assignments && s.assignments[assignmentId].status == AssignmentStatus.Active
    ensures r.Ok? ==> var a := s.assignments[assignmentId];
                      r.value == s.(assignments := r.value.assignments)
                      && Replaces(s.assignments, r.value.assignments, assignmentId,
                                  Assignment(a.shiftInstance, a.user, AssignmentStatus.Cancelled, a.assignedAt,
                                             a.assignedBy, Some(now), Some(reason)))
    ensures r.Ok? && OneActivePerUserAndShift(s) ==> OneActivePerUserAndShift(r.value)
  {
    if assignmentId !in s.assignments then Err(NotFound)
    else if s.assignments[assignmentId].status != AssignmentStatus.Active then Err(InvalidState)
    else Ok(s.(assignments := s.assignments[assignmentId := s.assignments[assignmentId].(
               status := AssignmentStatus.Cancelled, notes := Some(reason), updatedAt := Some(now))]))
  }

  /** Under the one-ACTIVE-per-(user, instance) invariant, cancelling a user's assignment on a
      draft instance lets the same user be assigned to it again. */
  lemma ReassignAfterCancel(s: Store, assignmentId: Id, reason: string, now: Timestamp, manager: Id, newId: Id)
    requires OneActivePerUserAndShift(s) && newId !in s.assignments
    requires CancelAssignment(s, assignmentId, reason, now).Ok?
    requires s.assignments[assignmentId].shiftInstance in s.instances
    requires s.instances[s.assignments[assignmentId].shiftInstance].status == Draft
    requires s.assignments[assignmentId].user in s.users
    ensures AssignUserToShift(CancelAssignment(s, assignmentId, reason, now).value,
                              s.assignments[assignmentId].shiftInstance, s.assignments[assignmentId].user,
                              manager, now, newId).Ok?
  {
    var c := CancelAssignment(s, assignmentId, reason, now).value;
    var inst := s.assignments[assignmentId].shiftInstance;
    var user := s.assignments[assignmentId].user;
    forall a | a in c.assignments && c.assignments[a].shiftInstance == inst && c.assignments[a].user == user
      ensures c.assignments[a].status != AssignmentStatus.Active
    {
      if a != assignmentId {
        assert c.assignments[a] == s.assignments[a];
      }
    }
  }

  /** `updateShiftTemplate`: NotFound for an unknown template; otherwise only the name and the
      description are replaced. */
  function UpdateShiftTemplate(s: Store, templateId: Id, name: string, description: Option<string>): (r: Result<Store>)
    ensures templateId !in s.templates <==> r == Err(NotFound)
    ensures r.Ok? ==> var t := s.templates[templateId];
                      r.value == s.(templates := r.value.templates)
                      && Replaces(s.templates, r.value.templates, templateId,
                                  ShiftTemplate(t.location, t.role, name, t.startTime, t.endTime, t.breakMinutes,
                                                description, t.maxAssignments, t.isActive))
    ensures r.Ok? ==> DurationMinutes(r.value.templates[templateId]) == DurationMinutes(s.templates[templateId])
  {
    if templateId !in s.templates then Err(NotFound)
    else Ok(s.(templates := s.templates[templateId := s.templates[templateId].(name := name, description := description)]))
  }

  /** `deactivateShiftTemplate`: NotFound for an unknown template; otherwise only `isActive`
      changes, to false. */
  function DeactivateShiftTemplate(s: Store, templateId: Id): (r: Result<Store>)
    ensures templateId !in s.templates <==> r == Err(NotFound)
    ensures r.Ok? ==> r.value == s.(templates := r.value.templates)
                      && Replaces(s.templates, r.value.templates, templateId,
                                  s.templates[templateId].(isActive := false))
  {
    if templateId !in s.templates then Err(NotFound)
    else Ok(s.(templates := s.templates[templateId := s.templates[templateId].(isActive := false)]))
  }

  /** Deactivating twice gives the same store, and a deactivated template still accepts new
      instances exactly as before: `createShiftInstance` never reads `isActive`. */
  lemma DeactivateIdempotentAndIgnored(s: Store, templateId: Id, shiftDate: Date, newId: Id)
    requires templateId in s.templates && newId !in s.instances
    ensures DeactivateShiftTemplate(DeactivateShiftTemplate(s, templateId).value, templateId)
            == DeactivateShiftTemplate(s, templateId)
    ensures !DeactivateShiftTemplate(s, templateId).value.templates[templateId].isActive
    ensures CreateShiftInstance(DeactivateShiftTemplate(s, templateId).value, templateId, shiftDate, newId).Ok?
            == CreateShiftInstance(s, templateId, shiftDate, newId).Ok?
  {
    var d := DeactivateShiftTemplate(s, templateId).value;
    assert d.templates[templateId].(isActive := false) == d.templates[templateId];
    assert d.templates[templateId := d.templates[templateId]] == d.templates;
    assert InstanceExists(d, templateId, shiftDate) == InstanceExists(s, templateId, shiftDate);
  }

  /** Create an instance of a template on 2024-06-10 (epoch day 19884), assign one user, publish,
      then try to assign another user: creation gives a DRAFT instance, the first assignment
      and the publish succeed, and the second assignment is refused as InvalidState. */
  lemma PublishClosesAssignments(s: Store, template: Id, u: Id, v: Id, manager: Id, now: Timestamp,
                                 inst: Id, a1: Id, a2: Id)
    requires template in s.templates && !InstanceExists(s, template, 19884) && inst !in s.instances
    requires u in s.users && v in s.users && !ActivelyAssigned(s, inst, u)
    requires a1 !in s.assignments && a2 !in s.assignments && a1 != a2
    ensures var s1 := CreateShiftInstance(s, template, 19884, inst);
            && s1.Ok? && s1.value.instances[inst].status == Draft
            && var s2 := AssignUserToShift(s1.value, inst, u, manager, now, a1);
               && s2.Ok?
               && var s3 := PublishShiftInstance(s2.value, inst, manager, now);
                  && s3.Ok?
                  && AssignUserToShift(s3.value, inst, v, manager, now, a2) == Err(InvalidState)
  {
  }

  /** Leave is not consulted when assigning: replacing the whole leave table changes nothing
      about whether an assignment succeeds. */
  lemma AssignIgnoresLeave(s: Store, instanceId: Id, user: Id, manager: Id, now: Timestamp, newId: Id,
                           leave: map<Id, LeaveRequests.LeaveRequest>)
    requires newId !in s.assignments
    ensures AssignUserToShift(s.(leave := leave), instanceId, user, manager, now, newId).Ok?
            == AssignUserToShift(s, instanceId, user, manager, now, newId).Ok?
  {
  }
}
