/**
 * Dates as the application handles them: a JavaScript `Date` is an instant on the
 * local wall clock, counted in milliseconds; a calendar day is the instant
 * divided by the length of a day. Daylight-saving time and time zones are not
 * modelled, so every day is exactly `MsPerDay` long.
 */
module Dates {

  /** Milliseconds since the epoch on the local wall clock. */
  type Instant = int

  const MsPerDay: int := 86_400_000

  /** The calendar day an instant falls on (floor division: the divisor is positive). */
  function DayOf(t: Instant): int
  {
    t / MsPerDay
  }

  /** `d.setHours(0, 0, 0, 0)`: the midnight that starts the day of `t`. */
  function StartOfDay(t: Instant): (r: Instant)
    ensures r <= t < r + MsPerDay
    ensures DayOf(r) == DayOf(t)
  {
    DayOf(t) * MsPerDay
  }

  /** Integer division truncating toward zero, as `Math.trunc(a / b)` does. */
  function TruncDiv(a: int, b: int): int
    requires b > 0
  {
    if a >= 0 then a / b else -((-a) / b)
  }

  /**
   * `differenceInDays(later, earlier)` of date-fns: the number of full days
   * between the two instants, negative when `later` is the earlier one.
   */
  function DifferenceInDays(later: Instant, earlier: Instant): (r: int)
    ensures later >= earlier ==> 0 <= r && r * MsPerDay <= later - earlier < r * MsPerDay + MsPerDay
    ensures later < earlier ==> r <= 0 && -r * MsPerDay <= earlier - later < -r * MsPerDay + MsPerDay
  {
    TruncDiv(later - earlier, MsPerDay)
  }

  /** A whole number of days divides out exactly. */
  lemma TruncDivWholeDays(k: int)
    ensures TruncDiv(k * MsPerDay, MsPerDay) == k
  {
    if k < 0 {
      assert -(k * MsPerDay) == (-k) * MsPerDay;
    }
  }

  /** Between two midnights the difference in days is the difference of calendar days. */
  lemma MidnightDifference(a: Instant, b: Instant)
    ensures DifferenceInDays(StartOfDay(a), StartOfDay(b)) == DayOf(a) - DayOf(b)
  {
    assert StartOfDay(a) - StartOfDay(b) == (DayOf(a) - DayOf(b)) * MsPerDay;
    TruncDivWholeDays(DayOf(a) - DayOf(b));
  }

  /** A later instant never falls on an earlier day. */
  lemma DayOfMonotone(a: Instant, b: Instant)
    requires a <= b
    ensures DayOf(a) <= DayOf(b)
  {
  }

  /** Moving an instant by whole days moves its calendar day by as many days. */
  lemma DayOfShift(t: Instant, k: int)
    ensures DayOf(t + k * MsPerDay) == DayOf(t) + k
  {
    var s := t + k * MsPerDay;
    var m := StartOfDay(t) + k * MsPerDay;
    assert m <= s < m + MsPerDay;
    assert m == (DayOf(t) + k) * MsPerDay;
    DayOfWithin(s, DayOf(t) + k);
  }

  /** An instant inside the day `d` lies on day `d`. */
  lemma DayOfWithin(t: Instant, d: int)
    requires d * MsPerDay <= t < d * MsPerDay + MsPerDay
    ensures DayOf(t) == d
  {
  }
}
