/** `generateTimeSlots` and `isTimeSlotConflicting`: hour-aligned candidate
    lessons between 08:00 and 20:00 on weekdays, minus those that overlap an
    existing booking. */
module SlotGeneration {
  import opened TimeModel

  const TeachingStart: int := 480   // 08:00
  const TeachingEnd: int := 1200    // 20:00
  const SlotStep: int := 60         // candidates start on every hour

  /** An existing booking or a candidate lesson: the interval `[start, end)`. */
  datatype Interval = Interval(start: Time, end: Time)

  /** The conflict scan: `isTimeSlotConflicting` against each booking in turn,
      stopping at the first one that overlaps. */
  function HasConflict(start: Time, end: Time, busy: seq<Interval>): (r: bool)
    ensures r <==> exists i :: 0 <= i < |busy| && Overlaps(start, end, busy[i].start, busy[i].end)
  {
    if busy == [] then false
    else if Overlaps(start, end, busy[0].start, busy[0].end) then true
    else
      var r := HasConflict(start, end, busy[1..]);
      assert forall i :: 1 <= i < |busy| ==> busy[i] == busy[1..][i - 1];
      r
  }

  /** Start times strictly increase along the sequence. */
  predicate Increasing(cs: seq<Interval>) {
    forall i, j :: 0 <= i < j < |cs| ==> cs[i].start < cs[j].start
  }

  /** A start time the generator can produce for a window whose first day is
      `fromDay`: on a weekday not before `fromDay` whose 08:00 is still before
      `endDate`, on the hour from 08:00, early enough to end by 20:00. */
  predicate OnGrid(t: Time, fromDay: int, endDate: Time, duration: int) {
    var d := DayOf(t);
    var m := MinuteOfDay(t);
    && fromDay <= d
    && d * MinutesPerDay + TeachingStart < endDate
    && !IsWeekend(t)
    && TeachingStart <= m
    && (m - TeachingStart) % SlotStep == 0
    && m + duration <= TeachingEnd
  }

  /** The inner loop: one day's candidates from `slotStart` on, advancing an
      hour at a time while the candidate still ends by `dayEnd`. */
  function DaySlots(slotStart: Time, dayEnd: Time, duration: int, busy: seq<Interval>)
    : (r: seq<Interval>)
    requires duration > 0
    decreases dayEnd - slotStart
    ensures forall c :: c in r ==>
              && c.end == c.start + duration
              && slotStart <= c.start && c.end <= dayEnd
              && (c.start - slotStart) % SlotStep == 0
              && !HasConflict(c.start, c.end, busy)
    ensures Increasing(r)
  {
    if slotStart + duration > dayEnd then []
    else
      var rest := DaySlots(slotStart + SlotStep, dayEnd, duration, busy);
      StepBack(slotStart, rest);
      if HasConflict(slotStart, slotStart + duration, busy) then rest
      else
        IncreasingCons(Interval(slotStart, slotStart + duration), rest);
        [Interval(slotStart, slotStart + duration)] + rest
  }

  /** Starts on the grid from the next hour are on the grid from this one. */
  lemma StepBack(slotStart: Time, rest: seq<Interval>)
    requires forall c :: c in rest ==> (c.start - (slotStart + SlotStep)) % SlotStep == 0
    ensures forall c :: c in rest ==> (c.start - slotStart) % SlotStep == 0
  {
    forall c | c in rest ensures (c.start - slotStart) % SlotStep == 0 {
      assert c.start - slotStart == (c.start - (slotStart + SlotStep)) + SlotStep;
    }
  }

  /** An interval starting before every element of an increasing list keeps it
      increasing when put in front. */
  lemma IncreasingCons(x: Interval, rest: seq<Interval>)
    requires Increasing(rest)
    requires forall c :: c in rest ==> x.start < c.start
    ensures Increasing([x] + rest)
  {
    var r := [x] + rest;
    forall i, j | 0 <= i < j < |r| ensures r[i].start < r[j].start {
      assert r[j] == rest[j - 1];
      if i > 0 {
        assert r[i] == rest[i - 1];
      }
    }
  }

  /** Every hour-aligned, conflict-free start of the day is produced. */
  lemma {:induction false} DaySlotsComplete(
    slotStart: Time, dayEnd: Time, duration: int, busy: seq<Interval>, t: Time)
    requires duration > 0
    requires slotStart <= t && (t - slotStart) % SlotStep == 0 && t + duration <= dayEnd
    requires !HasConflict(t, t + duration, busy)
    ensures Interval(t, t + duration) in DaySlots(slotStart, dayEnd, duration, busy)
    decreases dayEnd - slotStart
  {
    if t != slotStart {
      assert t >= slotStart + SlotStep;
      DaySlotsComplete(slotStart + SlotStep, dayEnd, duration, busy, t);
    }
  }

  /** The candidates of the day whose 08:00 is `current`: none at weekends. */
  function DayCandidates(current: Time, duration: int, busy: seq<Interval>): (r: seq<Interval>)
    requires duration > 0
    requires MinuteOfDay(current) == TeachingStart
    ensures forall c :: c in r ==>
              && c.end == c.start + duration
              && DayOf(c.start) == DayOf(current)
              && OnGrid(c.start, DayOf(current), current + 1, duration)
              && !HasConflict(c.start, c.end, busy)
    ensures forall c :: c in r ==> current <= c.start < current + MinutesPerDay
    ensures Increasing(r)
  {
    var d := DayOf(current);
    if IsWeekend(current) then []
    else
      var r := DaySlots(current, AtMinuteOfDay(current, TeachingEnd), duration, busy);
      forall c | c in r
        ensures DayOf(c.start) == d && MinuteOfDay(c.start) == c.start - d * MinutesPerDay
      {
        DayMinute(d, c.start - d * MinutesPerDay);
      }
      r
  }

  /** The outer loop: day after day from `current` (08:00 of some day) while
      that 08:00 is strictly before `endDate`. */
  function DaysFrom(current: Time, endDate: Time, duration: int, busy: seq<Interval>)
    : (r: seq<Interval>)
    requires duration > 0
    requires MinuteOfDay(current) == TeachingStart
    decreases endDate - current
    ensures forall c :: c in r ==>
              && c.end == c.start + duration
              && OnGrid(c.start, DayOf(current), endDate, duration)
              && !HasConflict(c.start, c.end, busy)
    ensures forall c :: c in r ==> current <= c.start
    ensures Increasing(r)
  {
    if current >= endDate then []
    else
      var d := DayOf(current);
      var today := DayCandidates(current, duration, busy);
      var next := current + MinutesPerDay;
      NextMorning(current);
      var rest := DaysFrom(next, endDate, duration, busy);
      forall c | c in today
        ensures OnGrid(c.start, d, endDate, duration)
      {
        OnGridWiden(c.start, d, current + 1, d, endDate, duration);
      }
      forall c | c in rest
        ensures OnGrid(c.start, d, endDate, duration)
      {
        OnGridWiden(c.start, d + 1, endDate, d, endDate, duration);
      }
      IncreasingAppend(today, rest);
      today + rest
  }

  /** 08:00 of a day is that day's start plus 480 minutes, and one day later
      is 08:00 of the next day. */
  lemma NextMorning(current: Time)
    requires MinuteOfDay(current) == TeachingStart
    ensures current == DayOf(current) * MinutesPerDay + TeachingStart
    ensures DayOf(current + MinutesPerDay) == DayOf(current) + 1
    ensures MinuteOfDay(current + MinutesPerDay) == TeachingStart
  {
    DayMinute(DayOf(current) + 1, TeachingStart);
  }

  /** A grid start for a later first day and an earlier end is a grid start for
      an earlier first day and a later end. */
  lemma OnGridWiden(t: Time, d1: int, e1: Time, d2: int, e2: Time, duration: int)
    requires OnGrid(t, d1, e1, duration) && d2 <= d1 && e1 <= e2
    ensures OnGrid(t, d2, e2, duration)
  {
  }

  /** Two increasing runs, the first wholly earlier, make an increasing run. */
  lemma IncreasingAppend(a: seq<Interval>, b: seq<Interval>)
    requires Increasing(a) && Increasing(b)
    requires forall x, y :: x in a && y in b ==> x.start < y.start
    ensures Increasing(a + b)
  {
    var ab := a + b;
    forall i, j | 0 <= i < j < |ab|
      ensures ab[i].start < ab[j].start
    {
      if j >= |a| && i < |a| {
        assert ab[i] in a && ab[j] in b;
      } else if i >= |a| {
        assert ab[i] == b[i - |a|] && ab[j] == b[j - |a|];
      }
    }
  }

  /** Every on-grid, conflict-free start from `current`'s day on is produced. */
  lemma {:induction false} DaysFromComplete(
    current: Time, endDate: Time, duration: int, busy: seq<Interval>, t: Time)
    requires duration > 0
    requires MinuteOfDay(current) == TeachingStart
    requires OnGrid(t, DayOf(current), endDate, duration)
    requires !HasConflict(t, t + duration, busy)
    ensures Interval(t, t + duration) in DaysFrom(current, endDate, duration, busy)
    decreases endDate - current
  {
    var d := DayOf(current);
    NextMorning(current);
    var next := current + MinutesPerDay;
    DaysFromUnfold(current, endDate, duration, busy);
    if DayOf(t) == d {
      TodayComplete(current, duration, busy, t);
    } else {
      DaysFromComplete(next, endDate, duration, busy, t);
    }
  }

  /** One step of the outer loop: a day before `endDate` contributes its own
      candidates, followed by those of the days after it. */
  lemma DaysFromUnfold(current: Time, endDate: Time, duration: int, busy: seq<Interval>)
    requires duration > 0
    requires MinuteOfDay(current) == TeachingStart
    requires current < endDate
    ensures MinuteOfDay(current + MinutesPerDay) == TeachingStart
    ensures DaysFrom(current, endDate, duration, busy)
            == DayCandidates(current, duration, busy) + DaysFrom(current + MinutesPerDay, endDate, duration, busy)
  {
    NextMorning(current);
  }

  /** Every on-grid, conflict-free start on `current`'s own day is among that
      day's candidates. */
  lemma TodayComplete(current: Time, duration: int, busy: seq<Interval>, t: Time)
    requires duration > 0
    requires MinuteOfDay(current) == TeachingStart
    requires DayOf(t) == DayOf(current)
    requires OnGrid(t, DayOf(current), current + MinutesPerDay, duration)
    requires !HasConflict(t, t + duration, busy)
    ensures Interval(t, t + duration) in DayCandidates(current, duration, busy)
  {
    var d := DayOf(current);
    NextMorning(current);
    assert t == d * MinutesPerDay + MinuteOfDay(t);
    assert !IsWeekend(current);
    var dayEnd := AtMinuteOfDay(current, TeachingEnd);
    assert dayEnd == d * MinutesPerDay + TeachingEnd;
    DaySlotsComplete(current, dayEnd, duration, busy, t);
  }

  /** `generateTimeSlots(startDate, endDate, duration, existing)` before scoring:
      the walk starts at 08:00 of `startDate`'s date. */
  function Generate(startDate: Time, endDate: Time, duration: int, busy: seq<Interval>)
    : (r: seq<Interval>)
    requires duration > 0
    ensures forall c :: c in r ==>
              && c.end == c.start + duration
              && OnGrid(c.start, DayOf(startDate), endDate, duration)
              && !HasConflict(c.start, c.end, busy)
    ensures Increasing(r)
  {
    DaysFrom(AtMinuteOfDay(startDate, TeachingStart), endDate, duration, busy)
  }

  /** The candidates are exactly the on-grid, conflict-free intervals of the
      requested length (and `Generate` lists them in increasing start order). */
  lemma GenerateExactly(startDate: Time, endDate: Time, duration: int, busy: seq<Interval>, c: Interval)
    requires duration > 0
    ensures c in Generate(startDate, endDate, duration, busy) <==>
              && c.end == c.start + duration
              && OnGrid(c.start, DayOf(startDate), endDate, duration)
              && !HasConflict(c.start, c.end, busy)
  {
    if c.end == c.start + duration && OnGrid(c.start, DayOf(startDate), endDate, duration)
       && !HasConflict(c.start, c.end, busy) {
      DaysFromComplete(AtMinuteOfDay(startDate, TeachingStart), endDate, duration, busy, c.start);
    }
  }
}
