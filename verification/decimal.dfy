/** The one piece of `BigDecimal` arithmetic the core uses: dividing minutes by 60 to two
    decimal places with `RoundingMode.HALF_UP`. Hours are integer hundredths. */
module Decimal {

  /** A `BigDecimal` of scale 2, as a count of hundredths (7.50 is 750). */
  type Hundredths = int

  /** `num / den` rounded to an integer, halves rounded away from zero (`HALF_UP`). */
  function DivHalfUp(num: int, den: int): (q: int)
    requires den > 0
    ensures num >= 0 ==> q >= 0 && 2 * den * q - den <= 2 * num < 2 * den * q + den
    ensures num < 0 ==> q <= 0 && 2 * den * q - den < 2 * num <= 2 * den * q + den
  {
    if num >= 0 then HalfUpNonNegative(num, den) else 0 - (HalfUpNonNegative(-num, den) as int)
  }

  /** The non-negative half of `DivHalfUp`. */
  function HalfUpNonNegative(num: nat, den: int): (q: nat)
    requires den > 0
    ensures 2 * den * q - den <= 2 * num < 2 * den * q + den
  {
    var q := (2 * num + den) / (2 * den);
    assert 2 * den * q <= 2 * num + den < 2 * den * q + 2 * den by {
      DivBounds(2 * num + den, 2 * den);
    }
    q
  }

  lemma DivBounds(n: nat, d: int)
    requires d > 0
    ensures d * (n / d) <= n < d * (n / d) + d
  {
  }

  /** `BigDecimal.valueOf(minutes).divide(BigDecimal.valueOf(60), 2, HALF_UP)` in hundredths:
      the integer nearest to 100 * minutes / 60 = 5 * minutes / 3. A tie cannot occur, since the
      fractional part of 5m/3 is 0, 1/3 or 2/3. */
  function MinutesToHours(minutes: int): (h: Hundredths)
    ensures -1 <= 3 * h - 5 * minutes <= 1
    ensures minutes >= 0 <==> h >= 0
  {
    DivHalfUp(100 * minutes, 60)
  }

  /** The nearest-integer property pins the result down: no other count of hundredths lies
      within a third of a hundredth of the exact value. */
  lemma MinutesToHoursUnique(minutes: int, h: Hundredths)
    requires -1 <= 3 * h - 5 * minutes <= 1
    ensures h == MinutesToHours(minutes)
  {
  }

  /** `HALF_UP` is symmetric about zero, so negative durations give the mirrored hours. */
  lemma MinutesToHoursOdd(minutes: int)
    ensures MinutesToHours(-minutes) == -MinutesToHours(minutes)
  {
    MinutesToHoursUnique(-minutes, -MinutesToHours(minutes));
  }

  /** A longer span never converts to fewer hours. */
  lemma MinutesToHoursMonotone(m1: int, m2: int)
    requires m1 <= m2
    ensures MinutesToHours(m1) <= MinutesToHours(m2)
  {
  }

  /** Whole hours convert exactly: `60 * m` minutes are `m.00` hours. */
  lemma WholeHoursExact(m: int)
    ensures MinutesToHours(60 * m) == 100 * m
  {
    MinutesToHoursUnique(60 * m, 100 * m);
  }
}
