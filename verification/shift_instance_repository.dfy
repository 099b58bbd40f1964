/** The shift-instance queries, over the instance table (joined to templates for locations). */
module ShiftInstanceRepository {
  import opened Common
  import opened Calendar
  import opened ShiftInstances
  import opened Store

  /** `findByShiftDate`: every instance dated on the day, whatever its status. */
  function FindByShiftDate(s: Store, date: Date): (r: set<Id>)
    ensures r <= s.instances.Keys
    ensures forall i :: i in r <==> i in s.instances && s.instances[i].shiftDate == date
  {
    set i | i in s.instances && s.instances[i].shiftDate == date
  }

  /** `findByTemplateId`: every instance of the template, on any date. */
  function FindByTemplateId(s: Store, template: Id): (r: set<Id>)
    ensures r <= s.instances.Keys
    ensures forall i :: i in r <==> i in s.instances && s.instances[i].template == template
  {
    set i | i in s.instances && s.instances[i].template == template
  }

  /** `findByStatus`: every instance in the status, on any date. */
  function FindByStatus(s: Store, status: ShiftStatus): (r: set<Id>)
    ensures r <= s.instances.Keys
    ensures forall i :: i in r <==> i in s.instances && s.instances[i].status == status
  {
    set i | i in s.instances && s.instances[i].status == status
  }

  /** `findByShiftDateBetween`: instances of any status dated in `[start, end]`. */
  function FindByShiftDateBetween(s: Store, start: Date, end: Date): (r: set<Id>)
    ensures r <= s.instances.Keys
    ensures forall d :: start <= d <= end ==> FindByShiftDate(s, d) <= r
    ensures forall i :: i in r <==> i in s.instances && InPeriod(s.instances[i].shiftDate, start, end)
  {
    set i | i in s.instances && InPeriod(s.instances[i].shiftDate, start, end)
  }

  /** `findByTemplateIdAndShiftDate`: the instance of a template on a date. */
  function FindByTemplateIdAndShiftDate(s: Store, template: Id, date: Date): (r: set<Id>)
    ensures r == FindByTemplateId(s, template) * FindByShiftDate(s, date)
  {
    set i | i in s.instances && s.instances[i].template == template && s.instances[i].shiftDate == date
  }

  /** With one instance per (template, date), the lookup finds at most one. */
  lemma AtMostOneInstancePerTemplateAndDate(s: Store, template: Id, date: Date)
    requires UniqueInstances(s)
    ensures |FindByTemplateIdAndShiftDate(s, template, date)| <= 1
  {
    var r := FindByTemplateIdAndShiftDate(s, template, date);
    if r != {} {
      var a :| a in r;
      assert r == {a};
    }
  }

  /** `findPublishedShiftsInPeriod`: PUBLISHED instances dated in `[start, end]`. */
  function FindPublishedShiftsInPeriod(s: Store, start: Date, end: Date): (r: set<Id>)
    ensures r == FindByShiftDateBetween(s, start, end) * FindByStatus(s, Published)
  {
    set i | i in s.instances && start <= s.instances[i].shiftDate && s.instances[i].shiftDate <= end
            && s.instances[i].status == Published
  }

  /** `findByLocationAndDate`: instances on the date whose template is at the location. */
  function FindByLocationAndDate(s: Store, location: Id, date: Date): (r: set<Id>)
    ensures r <= FindByShiftDate(s, date)
    ensures forall i :: i in r ==> s.instances[i].template in s.templates
                                   && s.templates[s.instances[i].template].location == location
    ensures forall i :: i in r <==> && i in s.instances && s.instances[i].shiftDate == date
                                    && s.instances[i].template in s.templates
                                    && s.templates[s.instances[i].template].location == location
  {
    set i | i in s.instances && s.instances[i].template in s.templates
            && s.templates[s.instances[i].template].location == location
            && s.instances[i].shiftDate == date
  }

  /** The by-location lookups split the by-date lookup: two locations never share an instance,
      and every instance of the date whose template is stored is found under its template's
      location. */
  lemma LocationsSplitDate(s: Store, l1: Id, l2: Id, date: Date)
    requires TemplatesResolved(s)
    ensures l1 != l2 ==> FindByLocationAndDate(s, l1, date) * FindByLocationAndDate(s, l2, date) == {}
    ensures forall i :: i in FindByShiftDate(s, date) ==>
              i in FindByLocationAndDate(s, s.templates[s.instances[i].template].location, date)
  {
  }

  /** A single-day range is the single-date query. */
  lemma SingleDayRange(s: Store, date: Date)
    ensures FindByShiftDateBetween(s, date, date) == FindByShiftDate(s, date)
  {
  }

  /** The by-status lookups split the table, and the by-date and by-template lookups for two
      different keys never share an instance. */
  lemma LookupsPartition(s: Store, st1: ShiftStatus, st2: ShiftStatus, d1: Date, d2: Date, t1: Id, t2: Id)
    ensures FindByStatus(s, Draft) + FindByStatus(s, Published) + FindByStatus(s, Cancelled) == s.instances.Keys
    ensures st1 != st2 ==> FindByStatus(s, st1) * FindByStatus(s, st2) == {}
    ensures d1 != d2 ==> FindByShiftDate(s, d1) * FindByShiftDate(s, d2) == {}
    ensures t1 != t2 ==> FindByTemplateId(s, t1) * FindByTemplateId(s, t2) == {}
  {
  }
}
