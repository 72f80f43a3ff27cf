/** `java.time.LocalDateTime` as it matters to the scheduler: a zone-less
    timestamp, modelled as whole minutes since an epoch that falls on a Monday
    at 00:00. Dafny's `/` and `%` are Euclidean, which for the positive divisors
    used here is floor division, so instants before the epoch get the right day. */
module TimeModel {

  type Time = int

  const MinutesPerDay: int := 1440
  const MinutesPerHour: int := 60
  const Saturday: int := 5
  const Sunday: int := 6

  /** Days since the epoch (`toLocalDate()`). */
  function DayOf(t: Time): int {
    t / MinutesPerDay
  }

  /** Minutes since midnight (`toLocalTime()`). */
  function MinuteOfDay(t: Time): int {
    t % MinutesPerDay
  }

  /** `getDayOfWeek()`, with 0 for Monday through 6 for Sunday. */
  function WeekdayOf(t: Time): int {
    DayOf(t) % 7
  }

  /** `getHour()`. */
  function HourOf(t: Time): int {
    MinuteOfDay(t) / MinutesPerHour
  }

  predicate IsWeekend(t: Time) {
    WeekdayOf(t) == Saturday || WeekdayOf(t) == Sunday
  }

  /** `t.with(LocalTime.of(..))`: the same date at minute `m` of the day. */
  function AtMinuteOfDay(t: Time, m: int): (r: Time)
    requires 0 <= m < MinutesPerDay
    ensures DayOf(r) == DayOf(t) && MinuteOfDay(r) == m
  {
    DayMinute(DayOf(t), m);
    DayOf(t) * MinutesPerDay + m
  }

  /** Splitting `d * 1440 + m` back into its day and its minute of the day. */
  lemma DayMinute(d: int, m: int)
    requires 0 <= m < MinutesPerDay
    ensures DayOf(d * MinutesPerDay + m) == d
    ensures MinuteOfDay(d * MinutesPerDay + m) == m
  {
    var t := d * MinutesPerDay + m;
    var q, r := t / MinutesPerDay, t % MinutesPerDay;
    assert t == q * MinutesPerDay + r && 0 <= r < MinutesPerDay;
    assert (q - d) * MinutesPerDay == m - r;
  }

  /** The single overlap predicate of the system: the half-open intervals
      `[s1, e1)` and `[s2, e2)` intersect. */
  predicate Overlaps(s1: Time, e1: Time, s2: Time, e2: Time) {
    s1 < e2 && e1 > s2
  }

  /** Overlap does not depend on which interval is named first, back-to-back
      intervals do not overlap, and a non-empty interval overlaps itself. */
  lemma OverlapFacts(s1: Time, e1: Time, s2: Time, e2: Time)
    ensures Overlaps(s1, e1, s2, e2) <==> Overlaps(s2, e2, s1, e1)
    ensures e1 == s2 ==> !Overlaps(s1, e1, s2, e2)
    ensures s1 < e1 ==> Overlaps(s1, e1, s1, e1)
  {
  }
}
