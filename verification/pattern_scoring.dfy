/** `adjustConfidenceBasedOnPatterns`: the confidence and the rationale of each
    candidate. Confidence is kept in integer tenths (0.5 is 5, 1.0 is 10):
    every step of the source adds or subtracts a multiple of 0.1. */
module PatternScoring {
  import opened TimeModel
  import opened SlotGeneration

  const BaseConfidence: int := 5
  const MaxConfidence: int := 10
  const OffHoursPenalty: int := 2
  const MidDayBonus: int := 1

  const BaseReason: string := "Available time slot with no conflicts"
  const DayNote: string := " (Matches preferred day pattern)"
  const TimeNote: string := " (Matches preferred time pattern)"

  /** `TimeSlotSuggestionDTO` as the engine fills it in. */
  datatype Suggestion = Suggestion(start: Time, end: Time, duration: int, confidence: int, reason: string)

  /** How many of `starts` have `key` equal to `k`: one entry of a frequency map
      built by `map.put(k, map.getOrDefault(k, 0) + 1)`. */
  function Frequency(starts: seq<Time>, key: Time -> int, k: int): (n: nat)
    ensures n <= |starts|
    ensures n > 0 <==> exists i :: 0 <= i < |starts| && key(starts[i]) == k
  {
    if starts == [] then 0
    else
      var rest := Frequency(starts[1..], key, k);
      assert forall i :: 1 <= i < |starts| ==> starts[i] == starts[1..][i - 1];
      (if key(starts[0]) == k then 1 else 0) + rest
  }

  /** Counting over two runs of bookings adds up: the order in which the source
      walks the bookings does not matter for the totals. */
  lemma {:induction false} FrequencyAppend(a: seq<Time>, b: seq<Time>, key: Time -> int, k: int)
    ensures Frequency(a + b, key, k) == Frequency(a, key, k) + Frequency(b, key, k)
  {
    if a == [] {
      assert a + b == b;
    } else {
      assert (a + b)[0] == a[0] && (a + b)[1..] == a[1..] + b;
      FrequencyAppend(a[1..], b, key, k);
    }
  }

  /** The confidence after the flat time-of-day bias: 0.3 before 10:00 and after
      18:59, 0.6 otherwise. */
  function TimeOfDayConfidence(hour: int): int {
    if hour < 10 || hour > 18 then BaseConfidence - OffHoursPenalty else BaseConfidence + MidDayBonus
  }

  function Min(a: int, b: int): int {
    if a <= b then a else b
  }

  function Max(a: int, b: int): int {
    if a >= b then a else b
  }

  /** The source's sequence: base, bias, `min(1.0, c + dayBonus + hourBonus)`,
      then the clamp to [0.0, 1.0]. The result is the biased value plus both
      bonuses, capped at 1.0; the lower clamp never applies. */
  function Confidence(hour: int, dayCount: nat, hourCount: nat): (c: int)
    ensures 3 <= c <= MaxConfidence
    ensures c == Min(MaxConfidence, TimeOfDayConfidence(hour) + dayCount + hourCount)
    ensures dayCount == 0 && hourCount == 0 ==> c == (if 10 <= hour <= 18 then 6 else 3)
  {
    var c := BaseConfidence;
    var c := if hour < 10 || hour > 18 then c - OffHoursPenalty else c + MidDayBonus;
    var c := Min(MaxConfidence, c + dayCount + hourCount);
    Max(0, Min(MaxConfidence, c))
  }

  /** More matching history never lowers the confidence. */
  lemma ConfidenceMonotone(hour: int, d1: nat, h1: nat, d2: nat, h2: nat)
    requires d1 <= d2 && h1 <= h2
    ensures Confidence(hour, d1, h1) <= Confidence(hour, d2, h2)
  {
  }

  /** For the same history, a mid-day start scores at least as high as an early
      or late one. */
  lemma MidDayAtLeastOffHours(midHour: int, offHour: int, dayCount: nat, hourCount: nat)
    requires 10 <= midHour <= 18
    requires offHour < 10 || offHour > 18
    ensures Confidence(midHour, dayCount, hourCount) >= Confidence(offHour, dayCount, hourCount)
  {
  }

  /** The rationale: the base phrase, then the day note when some booking shares
      the weekday, then the time note when some booking shares the hour. */
  function Reason(dayCount: nat, hourCount: nat): (r: string)
    ensures BaseReason <= r
    ensures |r| == |BaseReason| + (if dayCount > 0 then |DayNote| else 0)
                                + (if hourCount > 0 then |TimeNote| else 0)
  {
    var reason := BaseReason;
    var reason := if dayCount > 0 then reason + DayNote else reason;
    if hourCount > 0 then reason + TimeNote else reason
  }

  /** Reads back which notes a rationale carries. */
  function ReasonNotes(reason: string): (notes: (bool, bool)) {
    if reason == BaseReason + DayNote + TimeNote then (true, true)
    else if reason == BaseReason + DayNote then (true, false)
    else if reason == BaseReason + TimeNote then (false, true)
    else (false, false)
  }

  /** The rationale records exactly which bonuses were non-zero, day note first. */
  lemma ReasonRoundTrip(dayCount: nat, hourCount: nat)
    ensures ReasonNotes(Reason(dayCount, hourCount)) == (dayCount > 0, hourCount > 0)
  {
    assert |DayNote| == 32 && |TimeNote| == 33;
  }

  /** The scored suggestion for one candidate, with the day and hour tables built
      from the start times `windowStarts` of the bookings found in the window. */
  function Score(slot: Interval, duration: int, windowStarts: seq<Time>): (r: Suggestion)
    ensures r.start == slot.start && r.end == slot.end && r.duration == duration
    ensures 3 <= r.confidence <= MaxConfidence
    ensures r.confidence == Confidence(HourOf(slot.start),
                                       Frequency(windowStarts, WeekdayOf, WeekdayOf(slot.start)),
                                       Frequency(windowStarts, HourOf, HourOf(slot.start)))
    ensures var dayMatch := exists i :: 0 <= i < |windowStarts| && WeekdayOf(windowStarts[i]) == WeekdayOf(slot.start);
            var hourMatch := exists i :: 0 <= i < |windowStarts| && HourOf(windowStarts[i]) == HourOf(slot.start);
            ReasonNotes(r.reason) == (dayMatch, hourMatch)
    ensures BaseReason <= r.reason
    ensures r.reason == Reason(Frequency(windowStarts, WeekdayOf, WeekdayOf(slot.start)),
                               Frequency(windowStarts, HourOf, HourOf(slot.start)))
  {
    var dayCount := Frequency(windowStarts, WeekdayOf, WeekdayOf(slot.start));
    var hourCount := Frequency(windowStarts, HourOf, HourOf(slot.start));
    ReasonRoundTrip(dayCount, hourCount);
    Suggestion(slot.start, slot.end, duration, Confidence(HourOf(slot.start), dayCount, hourCount),
               Reason(dayCount, hourCount))
  }

  /** Every candidate scored, in candidate order. */
  function ScoreAll(slots: seq<Interval>, duration: int, windowStarts: seq<Time>): (r: seq<Suggestion>)
    ensures |r| == |slots|
    ensures forall i :: 0 <= i < |r| ==>
              r[i].start == slots[i].start && r[i].end == slots[i].end && r[i].duration == duration
              && 3 <= r[i].confidence <= MaxConfidence
    ensures forall i :: 0 <= i < |r| ==> r[i] == Score(slots[i], duration, windowStarts)
  {
    seq(|slots|, i requires 0 <= i < |slots| => Score(slots[i], duration, windowStarts))
  }

  /** Three earlier bookings at Tuesday 14:00 saturate a Tuesday 14:00
      candidate: 0.6 + 0.3 + 0.3 is capped at 1.0, and both notes are added.
      Day 22 is a Tuesday; days 1, 8 and 15 are the three Tuesdays before it. */
  lemma TuesdayAfternoonSaturates()
    ensures var t := 22 * MinutesPerDay + 14 * 60;
            var history := [1 * MinutesPerDay + 14 * 60, 8 * MinutesPerDay + 14 * 60, 15 * MinutesPerDay + 14 * 60];
            var s := Score(Interval(t, t + 60), 60, history);
            s.confidence == MaxConfidence && s.reason == BaseReason + DayNote + TimeNote
  {
    var history := [1 * MinutesPerDay + 14 * 60, 8 * MinutesPerDay + 14 * 60, 15 * MinutesPerDay + 14 * 60];
    var a, b, c := history[0], history[1], history[2];
    assert WeekdayOf(a) == 1 && WeekdayOf(b) == 1 && WeekdayOf(c) == 1;
    assert HourOf(a) == 14 && HourOf(b) == 14 && HourOf(c) == 14;
    assert history[1..] == [b, c] && history[1..][1..] == [c] && [c][1..] == [];
    assert Frequency(history, WeekdayOf, 1) == 3;
    assert Frequency(history, HourOf, 14) == 3;
  }
}
