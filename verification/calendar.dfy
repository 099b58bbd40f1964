/** Dates, times of day and the two period tests every query relies on. */
module Calendar {

  /** A `LocalDate` as a count of days since 1970-01-01 (a Thursday). */
  type Date = int

  /** A `LocalTime` as minutes since midnight (the model keeps minute resolution). */
  type Time = m: int | 0 <= m < 1440

  /** `start <= d <= end`: the inclusive `BETWEEN` of the queries. */
  predicate InPeriod(d: Date, start: Date, end: Date) {
    start <= d <= end
  }

  /** The inclusive interval-overlap test of the leave queries:
      `lr.startDate <= :endDate AND lr.endDate >= :startDate`. */
  predicate Overlaps(aStart: Date, aEnd: Date, bStart: Date, bEnd: Date) {
    aStart <= bEnd && aEnd >= bStart
  }

  /** The overlap test is the shared-day test: two non-empty periods overlap exactly when
      some day lies in both, so periods touching on one day overlap. */
  lemma OverlapsIffSharedDay(aStart: Date, aEnd: Date, bStart: Date, bEnd: Date)
    requires aStart <= aEnd && bStart <= bEnd
    ensures Overlaps(aStart, aEnd, bStart, bEnd)
            <==> exists d :: InPeriod(d, aStart, aEnd) && InPeriod(d, bStart, bEnd)
  {
    if Overlaps(aStart, aEnd, bStart, bEnd) {
      var d := if aStart <= bStart then bStart else aStart;
      assert InPeriod(d, aStart, aEnd) && InPeriod(d, bStart, bEnd);
    }
  }

  /** The test is symmetric, so "A overlaps B" and "B overlaps A" are one fact. */
  lemma OverlapsSymmetric(aStart: Date, aEnd: Date, bStart: Date, bEnd: Date)
    ensures Overlaps(aStart, aEnd, bStart, bEnd) == Overlaps(bStart, bEnd, aStart, aEnd)
  {
  }

  /** ISO day of week, Monday = 1 ... Sunday = 7 (day 0 is a Thursday). */
  function DayOfWeek(d: Date): (r: int)
    ensures 1 <= r <= 7
  {
    (d + 3) % 7 + 1
  }

  predicate IsMonday(d: Date) {
    DayOfWeek(d) == 1
  }

  /** `date.with(TemporalAdjusters.previousOrSame(MONDAY))`. */
  function WeekStart(d: Date): (r: Date)
    ensures IsMonday(r)
    ensures r <= d <= r + 6
  {
    d - (d + 3) % 7
  }

  /** `weekStart.plusDays(6)`: the Sunday closing the week. */
  function WeekEnd(d: Date): (r: Date)
    ensures WeekStart(d) <= d <= r
    ensures r == WeekStart(d) + 6
    ensures DayOfWeek(r) == 7
  {
    WeekStart(d) + 6
  }

  /** The week containing `d` is unique: the only Monday at most six days before `d` is `WeekStart(d)`. */
  lemma WeekStartUnique(d: Date, m: Date)
    requires IsMonday(m) && m <= d <= m + 6
    ensures m == WeekStart(d)
  {
    var w := WeekStart(d);
    assert (m + 3) % 7 == 0 && (w + 3) % 7 == 0;
    var k := (m + 3) / 7;
    var j := (w + 3) / 7;
    assert m + 3 == 7 * k;
    assert w + 3 == 7 * j;
    assert -7 < 7 * k - 7 * j < 7;
    assert k == j;
  }

  /** Every day of a week reports the same week window. */
  lemma SameWeek(d: Date, e: Date)
    requires WeekStart(d) <= e <= WeekEnd(d)
    ensures WeekStart(e) == WeekStart(d)
  {
    WeekStartUnique(e, WeekStart(d));
  }

  /** `ChronoUnit.DAYS.between(a, b)`. */
  function DaysBetween(a: Date, b: Date): int {
    b - a
  }

  /** The days of the inclusive period `[a, b]`. */
  function DaysIn(a: Date, b: Date): set<Date> {
    set d: Date {:trigger InPeriod(d, a, b)} | a <= d <= b
  }

  /** A period `[a, b]` with `a <= b + 1` holds `b - a + 1` days. */
  lemma {:induction false} DaysInCount(a: Date, b: Date)
    requires a <= b + 1
    ensures |DaysIn(a, b)| == b - a + 1
    decreases b - a + 1
  {
    if a == b + 1 {
      assert DaysIn(a, b) == {};
    } else {
      DaysInCount(a, b - 1);
      assert DaysIn(a, b) == DaysIn(a, b - 1) + {b};
    }
  }

  /** Period containment (`periodStart >= :startDate AND periodEnd <= :endDate`) is containment
      of the day sets, for a non-empty period. */
  lemma WithinIffSubset(ps: Date, pe: Date, start: Date, end: Date)
    requires ps <= pe
    ensures (start <= ps && pe <= end) <==> DaysIn(ps, pe) <= DaysIn(start, end)
  {
    if DaysIn(ps, pe) <= DaysIn(start, end) {
      assert ps in DaysIn(ps, pe);
      assert pe in DaysIn(ps, pe);
    }
  }
}
