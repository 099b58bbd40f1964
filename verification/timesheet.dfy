/** A user's timesheet for one period: its entry list and the totals derived from it. */
module Timesheets {
  import opened Common
  import opened Calendar
  import opened Decimal
  import opened TimesheetEntries

  datatype TimesheetStatus = Draft | Submitted | Approved | Rejected

  /** `entries` is the in-memory entry list `calculateTotals` reads. */
  datatype Timesheet = Timesheet(
    user: Id,
    periodStart: Date,
    periodEnd: Date,
    totalHours: Hundredths,
    regularHours: Hundredths,
    overtimeHours: Hundredths,
    status: TimesheetStatus,
    generatedAt: Timestamp,
    approvedAt: Option<Timestamp>,
    approvedBy: Option<Id>,
    entries: seq<Entry>)

  /** The standard week of 40.00 hours; hours beyond it are overtime. */
  const StandardHours: Hundredths := 4000

  /** `new Timesheet(user, periodStart, periodEnd)`. */
  function NewTimesheet(user: Id, periodStart: Date, periodEnd: Date, now: Timestamp): (t: Timesheet)
    ensures t.status == Draft && t.entries == []
    ensures t.totalHours == 0 && t.regularHours == 0 && t.overtimeHours == 0
    ensures t.user == user && t.periodStart == periodStart && t.periodEnd == periodEnd
    ensures t.generatedAt == now && t.approvedAt.None? && t.approvedBy.None?
  {
    Timesheet(user, periodStart, periodEnd, 0, 0, 0, Draft, now, None, None, [])
  }

  /** Every entry carries hours (a null would make the `BigDecimal::add` reduction fail). */
  predicate Priced(entries: seq<Entry>) {
    forall i :: 0 <= i < |entries| ==> entries[i].hours.Some?
  }

  /** The `reduce(BigDecimal.ZERO, BigDecimal::add)` over the entries' hours, left to right. An
      entry without hours would make the source throw; `CalculateTotals` requires `Priced`, so
      the 0 read for a missing value never reaches a total. */
  function SumHours(entries: seq<Entry>): Hundredths {
    if |entries| == 0 then 0
    else SumHours(entries[..|entries| - 1]) + entries[|entries| - 1].hours.GetOr(0)
  }

  /** The sum splits over concatenation. */
  lemma {:induction false} SumHoursAppend(a: seq<Entry>, b: seq<Entry>)
    ensures SumHours(a + b) == SumHours(a) + SumHours(b)
    decreases |b|
  {
    if |b| == 0 {
      assert a + b == a;
    } else {
      var b' := b[..|b| - 1];
      assert (a + b)[..|a + b| - 1] == a + b';
      SumHoursAppend(a, b');
    }
  }

  /** A one-entry list sums to that entry's hours. */
  lemma SumHoursSingleton(x: Entry)
    requires x.hours.Some?
    ensures Priced([x]) && SumHours([x]) == x.hours.value
  {
    assert [x][..0] == [];
  }

  /** Taking one entry out of the list takes its hours out of the sum. */
  lemma SumHoursRemove(b: seq<Entry>, j: int)
    requires 0 <= j < |b|
    ensures SumHours(b) == SumHours(b[..j] + b[j + 1..]) + b[j].hours.GetOr(0)
  {
    var before, x, after := b[..j], b[j], b[j + 1..];
    assert SumHours(b) == SumHours(before + [x]) + SumHours(after) by {
      assert b == (before + [x]) + after;
      SumHoursAppend(before + [x], after);
    }
    assert SumHours(before + [x]) == SumHours(before) + x.hours.GetOr(0) by {
      assert (before + [x])[..|before|] == before;
    }
    SumHoursAppend(before, after);
  }

  /** The sum does not depend on the order of the entries: any reordering of the list gives the
      same total, so the order in which the repository returns rows is irrelevant to totals. */
  lemma {:induction false} SumHoursPermutation(a: seq<Entry>, b: seq<Entry>)
    requires multiset(a) == multiset(b)
    ensures SumHours(a) == SumHours(b)
    decreases |a|
  {
    if |a| == 0 {
      assert |b| == |multiset(b)| == 0;
    } else {
      var x := a[|a| - 1];
      var a' := a[..|a| - 1];
      assert multiset(a') == multiset(a) - multiset{x} by {
        assert a == a' + [x];
      }
      assert x in multiset(b);
      var j :| 0 <= j < |b| && b[j] == x;
      var b' := b[..j] + b[j + 1..];
      assert multiset(b') == multiset(b) - multiset{x} by {
        assert b == b[..j] + [x] + b[j + 1..];
      }
      SumHoursRemove(b, j);
      SumHoursPermutation(a', b');
    }
  }

  /** `calculateTotals()`: the total is the sum of the entries' hours; up to 40.00 it is all
      regular time, beyond that regular is capped at 40.00 and the rest is overtime. Only the
      three totals change. */
  function CalculateTotals(t: Timesheet): (r: Timesheet)
    requires Priced(t.entries)
    ensures r == t.(totalHours := r.totalHours, regularHours := r.regularHours,
                    overtimeHours := r.overtimeHours)
    ensures r.totalHours == SumHours(t.entries)
    ensures r.regularHours + r.overtimeHours == r.totalHours
    ensures r.regularHours <= StandardHours && r.overtimeHours >= 0
    ensures r.totalHours > StandardHours ==> r.regularHours == StandardHours
    ensures r.totalHours <= StandardHours ==> r.overtimeHours == 0
  {
    var total := SumHours(t.entries);
    if total > StandardHours then
      t.(totalHours := total, regularHours := StandardHours, overtimeHours := total - StandardHours)
    else
      t.(totalHours := total, regularHours := total, overtimeHours := 0)
  }

  /** Recomputing the totals of an unchanged entry list changes nothing. */
  lemma CalculateTotalsIdempotent(t: Timesheet)
    requires Priced(t.entries)
    ensures CalculateTotals(CalculateTotals(t)) == CalculateTotals(t)
  {
  }

  /** Totals depend on the entry list only: two timesheets with the same entries get the same
      totals whatever totals they held before. */
  lemma CalculateTotalsIgnoresOldTotals(t: Timesheet, u: Timesheet)
    requires Priced(t.entries) && u.entries == t.entries
    ensures CalculateTotals(u).totalHours == CalculateTotals(t).totalHours
    ensures CalculateTotals(u).regularHours == CalculateTotals(t).regularHours
    ensures CalculateTotals(u).overtimeHours == CalculateTotals(t).overtimeHours
  {
  }

  /** An entry known only by its hours, as built with the no-argument constructor (which keeps
      the field defaults: break 0, type SHIFT) and `setHours`. */
  function WithHours(h: Hundredths): Entry {
    Entry(0, None, 0, None, None, Some(0), Some(h), Shift, None)
  }

  /** 8.00 + 7.50 + 40.00 gives 55.50 in total: 40.00 regular and 15.50 overtime. */
  lemma TotalsExample(t: Timesheet)
    requires t.entries == [WithHours(800), WithHours(750), WithHours(4000)]
    ensures CalculateTotals(t).totalHours == 5550
    ensures CalculateTotals(t).regularHours == 4000
    ensures CalculateTotals(t).overtimeHours == 1550
  {
    var s := t.entries;
    SumHoursSingleton(WithHours(800));
    assert SumHours(s[..2]) == 1550 by {
      assert s[..2][..1] == [WithHours(800)];
    }
  }

  /** Exactly 40.00 hours is all regular; 40.01 puts one hundredth into overtime; no entries
      give all-zero totals. */
  lemma TotalsBoundary(t: Timesheet)
    ensures t.entries == [WithHours(4000)] ==>
              CalculateTotals(t).regularHours == 4000 && CalculateTotals(t).overtimeHours == 0
    ensures t.entries == [WithHours(4001)] ==>
              CalculateTotals(t).regularHours == 4000 && CalculateTotals(t).overtimeHours == 1
    ensures t.entries == [] ==>
              CalculateTotals(t).totalHours == 0 && CalculateTotals(t).regularHours == 0
              && CalculateTotals(t).overtimeHours == 0
  {
    if t.entries == [WithHours(4000)] || t.entries == [WithHours(4001)] {
      SumHoursSingleton(t.entries[0]);
      assert t.entries == [t.entries[0]];
    }
  }
}
