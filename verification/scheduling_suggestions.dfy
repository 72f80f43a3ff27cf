/** `ScheduleService.getSchedulingSuggestions`: validate the request, fetch the
    student's bookings that start inside the window, generate the free
    hour-aligned candidates, score them against those same bookings, rank them
    and keep the best twenty. */
module SchedulingSuggestions {
  import opened Wrappers
  import opened TimeModel
  import opened ScheduleEntity
  import opened ScheduleRepository
  import opened SlotGeneration
  import opened PatternScoring
  import opened Ranking
  import StudentEntity

  const MinDuration: int := 30
  const MaxDuration: int := 240

  datatype SuggestionError = InvalidDuration | StartAfterEnd | StartInPast | StudentNotFound

  /** The intervals of timed rows, in row order. */
  function Busy(rows: seq<Schedule>): (r: seq<Interval>)
    requires forall i :: 0 <= i < |rows| ==> rows[i].start.Some? && rows[i].end.Some?
    ensures |r| == |rows|
    ensures forall i :: 0 <= i < |r| ==> r[i] == Interval(rows[i].start.value, rows[i].end.value)
  {
    seq(|rows|, i requires 0 <= i < |rows| => Interval(rows[i].start.value, rows[i].end.value))
  }

  /** The start times of timed rows, in row order. */
  function Starts(rows: seq<Schedule>): (r: seq<Time>)
    requires forall i :: 0 <= i < |rows| ==> rows[i].start.Some? && rows[i].end.Some?
    ensures |r| == |rows|
    ensures forall i :: 0 <= i < |r| ==> r[i] == rows[i].start.value
  {
    seq(|rows|, i requires 0 <= i < |rows| => rows[i].start.value)
  }

  /** The request checks, in the source's order; `students` stands for the
      student lookup that follows them. */
  function CheckRequest(students: set<int>, studentId: int, startDate: Time, endDate: Time,
                        duration: int, now: Time): (r: Outcome<SuggestionError>)
    ensures r == Pass <==> MinDuration <= duration <= MaxDuration && startDate <= endDate
                           && now <= startDate && studentId in students
    ensures r == Fail(InvalidDuration) <==> duration < MinDuration || duration > MaxDuration
    ensures r == Fail(StartAfterEnd) <==>
              MinDuration <= duration <= MaxDuration && startDate > endDate
    ensures r == Fail(StartInPast) <==>
              MinDuration <= duration <= MaxDuration && startDate <= endDate && startDate < now
  {
    if duration < MinDuration || duration > MaxDuration then Fail(InvalidDuration)
    else if startDate > endDate then Fail(StartAfterEnd)
    else if startDate < now then Fail(StartInPast)
    else if studentId !in students then Fail(StudentNotFound)
    else Pass
  }

  /** A scored candidate keeps its candidate's interval. */
  lemma ScoredFromCandidates(candidates: seq<Interval>, duration: int, windowStarts: seq<Time>, s: Suggestion)
    requires s in ScoreAll(candidates, duration, windowStarts)
    ensures Interval(s.start, s.end) in candidates
  {
    var scored := ScoreAll(candidates, duration, windowStarts);
    var i :| 0 <= i < |scored| && scored[i] == s;
    assert Interval(s.start, s.end) == candidates[i];
  }

  /** Score the candidates against the window's start times, rank them by
      confidence and keep the first twenty. */
  function Rank(candidates: seq<Interval>, duration: int, windowStarts: seq<Time>): (r: seq<Suggestion>)
    ensures |r| <= MaxSuggestions && NonIncreasing(r)
    ensures forall s :: s in r ==>
              && Interval(s.start, s.end) in candidates
              && s.duration == duration && 3 <= s.confidence <= MaxConfidence
    ensures r <= SortByConfidence(ScoreAll(candidates, duration, windowStarts))
    ensures |r| == if |candidates| <= MaxSuggestions then |candidates| else MaxSuggestions
    ensures forall s :: s in r ==> s == Score(Interval(s.start, s.end), duration, windowStarts)
  {
    var ranked := SortByConfidence(ScoreAll(candidates, duration, windowStarts));
    SortedScores(candidates, duration, windowStarts);
    var top := Limit(ranked, MaxSuggestions);
    PrefixNonIncreasing(ranked, top);
    assert forall s :: s in top ==> s in ranked;
    top
  }

  /** Sorting the scored candidates keeps their number, and every element is
      the score of one of the candidates. */
  lemma SortedScores(candidates: seq<Interval>, duration: int, windowStarts: seq<Time>)
    ensures var ranked := SortByConfidence(ScoreAll(candidates, duration, windowStarts));
            && |ranked| == |candidates|
            && forall s :: s in ranked ==>
                 && Interval(s.start, s.end) in candidates
                 && s == Score(Interval(s.start, s.end), duration, windowStarts)
  {
    var scored := ScoreAll(candidates, duration, windowStarts);
    var ranked := SortByConfidence(scored);
    assert |ranked| == |multiset(ranked)| == |multiset(scored)| == |scored|;
    forall s | s in ranked
      ensures Interval(s.start, s.end) in candidates
      ensures s == Score(Interval(s.start, s.end), duration, windowStarts)
    {
      assert s in multiset(ranked);
      assert s in scored;
      ScoredFromCandidates(candidates, duration, windowStarts, s);
    }
  }

  /** The twenty kept are the best: a candidate whose suggestion is not in the
      answer lost to twenty others, each scoring at least as high. */
  lemma RankKeepsBest(candidates: seq<Interval>, duration: int, windowStarts: seq<Time>, c: Interval)
    requires c in candidates
    ensures var r := Rank(candidates, duration, windowStarts);
            var sc := Score(c, duration, windowStarts);
            sc in r || (|r| == MaxSuggestions && sc.confidence <= r[|r| - 1].confidence)
  {
    var scored := ScoreAll(candidates, duration, windowStarts);
    var ranked := SortByConfidence(scored);
    var r := Rank(candidates, duration, windowStarts);
    var sc := Score(c, duration, windowStarts);
    var i :| 0 <= i < |candidates| && candidates[i] == c;
    assert scored[i] == sc;
    assert sc in multiset(ranked);
    var k :| 0 <= k < |ranked| && ranked[k] == sc;
    if k < |r| {
      assert r[k] == ranked[k];
    } else {
      assert |ranked| == |multiset(ranked)| == |multiset(scored)| == |scored|;
      assert r[|r| - 1] == ranked[|r| - 1];
    }
  }

  /** An interval that clashes with none of the busy intervals built from
      `existing` overlaps none of those rows. */
  lemma FreeOfExisting(existing: seq<Schedule>, start: Time, end: Time)
    requires forall i :: 0 <= i < |existing| ==> existing[i].start.Some? && existing[i].end.Some?
    requires !HasConflict(start, end, Busy(existing))
    ensures forall w :: w in existing ==> !Overlaps(start, end, w.start.value, w.end.value)
  {
    var busy := Busy(existing);
    forall w | w in existing
      ensures !Overlaps(start, end, w.start.value, w.end.value)
    {
      var k :| 0 <= k < |existing| && existing[k] == w;
      assert busy[k] == Interval(w.start.value, w.end.value);
    }
  }

  /** The suggestions for `studentId` over `[startDate, endDate]` for a lesson of
      `duration` minutes, given every stored row and the current time `now`. */
  function GetSchedulingSuggestions(rows: seq<Schedule>, students: set<int>, studentId: int,
                                    startDate: Time, endDate: Time, duration: int, now: Time)
    : (r: Result<seq<Suggestion>, SuggestionError>)
    requires forall s :: s in rows ==> s.start.Some? && s.end.Some?
    ensures r.Failure? <==> CheckRequest(students, studentId, startDate, endDate, duration, now).Fail?
    ensures r.Failure? ==> r.error == CheckRequest(students, studentId, startDate, endDate, duration, now).error
    ensures r.Success? ==> |r.value| <= MaxSuggestions && NonIncreasing(r.value)
    ensures r.Success? ==> forall s :: s in r.value ==>
              && s.duration == duration && s.end == s.start + duration
              && 3 <= s.confidence <= MaxConfidence
              && OnGrid(s.start, DayOf(startDate), endDate, duration)
    ensures r.Success? ==> forall s, w ::
              (s in r.value && w in rows && BelongsTo(w, studentId) && startDate <= w.start.value <= endDate)
              ==> !Overlaps(s.start, s.end, w.start.value, w.end.value)
    ensures r.Success? ==>
              var existing := FindByStudentAndDateRange(rows, studentId, startDate, endDate);
              r.value == Rank(Generate(startDate, endDate, duration, Busy(existing)), duration, Starts(existing))
  {
    match CheckRequest(students, studentId, startDate, endDate, duration, now)
    case Fail(e) => Failure(e)
    case Pass =>
      var existing := FindByStudentAndDateRange(rows, studentId, startDate, endDate);
      var candidates := Generate(startDate, endDate, duration, Busy(existing));
      var top := Rank(candidates, duration, Starts(existing));
      forall s | s in top
        ensures forall w :: w in existing ==> !Overlaps(s.start, s.end, w.start.value, w.end.value)
      {
        FreeOfExisting(existing, s.start, s.end);
      }
      Success(top)
  }

  /** An interval that overlaps none of the rows `existing` clashes with none
      of the busy intervals built from them. */
  lemma NoOverlapNoConflict(existing: seq<Schedule>, start: Time, end: Time)
    requires forall i :: 0 <= i < |existing| ==> existing[i].start.Some? && existing[i].end.Some?
    requires forall w :: w in existing ==> !Overlaps(start, end, w.start.value, w.end.value)
    ensures !HasConflict(start, end, Busy(existing))
  {
    var busy := Busy(existing);
    forall i | 0 <= i < |busy|
      ensures !Overlaps(start, end, busy[i].start, busy[i].end)
    {
      assert existing[i] in existing;
    }
  }

  /** Nothing better is left out: every free on-grid lesson of the requested
      length is suggested, unless twenty suggestions were kept and the last of
      them scores at least as high as it would. */
  lemma SuggestionsKeepTheBest(rows: seq<Schedule>, students: set<int>, studentId: int,
                               startDate: Time, endDate: Time, duration: int, now: Time, t: Time)
    requires forall s :: s in rows ==> s.start.Some? && s.end.Some?
    requires GetSchedulingSuggestions(rows, students, studentId, startDate, endDate, duration, now).Success?
    requires OnGrid(t, DayOf(startDate), endDate, duration)
    requires forall w :: w in rows && BelongsTo(w, studentId) && startDate <= w.start.value <= endDate
                         ==> !Overlaps(t, t + duration, w.start.value, w.end.value)
    ensures var r := GetSchedulingSuggestions(rows, students, studentId, startDate, endDate, duration, now).value;
            var existing := FindByStudentAndDateRange(rows, studentId, startDate, endDate);
            var sc := Score(Interval(t, t + duration), duration, Starts(existing));
            sc in r || (|r| == MaxSuggestions && sc.confidence <= r[|r| - 1].confidence)
  {
    var existing := FindByStudentAndDateRange(rows, studentId, startDate, endDate);
    var c := Interval(t, t + duration);
    assert duration > 0 by {
      assert CheckRequest(students, studentId, startDate, endDate, duration, now) == Pass;
    }
    NoOverlapNoConflict(existing, t, t + duration);
    GenerateExactly(startDate, endDate, duration, Busy(existing), c);
    RankKeepsBest(Generate(startDate, endDate, duration, Busy(existing)), duration, Starts(existing), c);
  }

  /** Equal confidences in the answer appear in chronological order: the list is
      a prefix of a stable sort of chronologically ordered candidates. */
  lemma SuggestionTiesChronological(rows: seq<Schedule>, students: set<int>, studentId: int,
                                    startDate: Time, endDate: Time, duration: int, now: Time,
                                    i: int, j: int)
    requires forall s :: s in rows ==> s.start.Some? && s.end.Some?
    requires GetSchedulingSuggestions(rows, students, studentId, startDate, endDate, duration, now).Success?
    requires var r := GetSchedulingSuggestions(rows, students, studentId, startDate, endDate, duration, now).value;
             0 <= i < j < |r| && r[i].confidence == r[j].confidence
    ensures var r := GetSchedulingSuggestions(rows, students, studentId, startDate, endDate, duration, now).value;
            r[i].start < r[j].start
  {
    var existing := FindByStudentAndDateRange(rows, studentId, startDate, endDate);
    var candidates := Generate(startDate, endDate, duration, Busy(existing));
    assert GetSchedulingSuggestions(rows, students, studentId, startDate, endDate, duration, now).value
           == Rank(candidates, duration, Starts(existing));
    RankTiesChronological(candidates, duration, Starts(existing), i, j);
  }

  /** Ranking chronologically ordered candidates keeps equal confidences in
      chronological order. */
  lemma RankTiesChronological(candidates: seq<Interval>, duration: int, windowStarts: seq<Time>,
                              i: int, j: int)
    requires Increasing(candidates)
    requires var r := Rank(candidates, duration, windowStarts);
             0 <= i < j < |r| && r[i].confidence == r[j].confidence
    ensures var r := Rank(candidates, duration, windowStarts);
            r[i].start < r[j].start
  {
    var scored := ScoreAll(candidates, duration, windowStarts);
    var ranked := SortByConfidence(scored);
    var r := Rank(candidates, duration, windowStarts);
    assert r[i] == ranked[i] && r[j] == ranked[j];
    assert StartsIncreasing(scored);
    TiesStayChronological(scored, i, j);
  }

  // ---------------------------------------------------------------------------
  // Behaviour of the code where it departs from the tests' expectations.
  // Day 7 is a Monday; times are minutes since the epoch Monday.

  /** A window may start and end at the same instant: the request is accepted,
      and a weekday instant after 08:00 still yields that day's candidates. */
  lemma EqualStartAndEndAccepted(rows: seq<Schedule>, studentId: int)
    requires forall s :: s in rows ==> s.start.Some? && s.end.Some?
    ensures var t := 7 * MinutesPerDay + 9 * 60;
            GetSchedulingSuggestions(rows, {studentId}, studentId, t, t, 60, t).Success?
    ensures var t := 7 * MinutesPerDay + 9 * 60;
            Interval(7 * MinutesPerDay + 8 * 60, 7 * MinutesPerDay + 9 * 60) in Generate(t, t, 60, [])
  {
    var t := 7 * MinutesPerDay + 9 * 60;
    assert CheckRequest({studentId}, studentId, t, t, 60, t) == Pass;
    MondayEightInWindow();
  }

  /** Monday 08:00 to 09:00 is a candidate of the window that opens and closes
      at Monday 09:00. */
  lemma MondayEightInWindow()
    ensures var t := 7 * MinutesPerDay + 9 * 60;
            Interval(7 * MinutesPerDay + 8 * 60, 7 * MinutesPerDay + 9 * 60) in Generate(t, t, 60, [])
  {
    var t := 7 * MinutesPerDay + 9 * 60;
    var c := Interval(7 * MinutesPerDay + 8 * 60, 7 * MinutesPerDay + 9 * 60);
    DayMinute(7, 9 * 60);
    DayMinute(7, 8 * 60);
    assert OnGrid(c.start, DayOf(t), t, 60);
    GenerateExactly(t, t, 60, [], c);
  }

  /** Candidates start at 08:00 of the first day even when the window opens
      later that day: a window opening Monday 10:30 still offers Monday 08:00. */
  lemma CandidateBeforeWindowStart()
    ensures var startDate := 7 * MinutesPerDay + 10 * 60 + 30;
            var c := Interval(7 * MinutesPerDay + 8 * 60, 7 * MinutesPerDay + 9 * 60);
            c in Generate(startDate, startDate + MinutesPerDay, 60, []) && c.start < startDate
  {
    var startDate := 7 * MinutesPerDay + 10 * 60 + 30;
    var c := Interval(7 * MinutesPerDay + 8 * 60, 7 * MinutesPerDay + 9 * 60);
    GenerateExactly(startDate, startDate + MinutesPerDay, 60, [], c);
  }

  /** Candidates may end after the window: a window closing Monday 08:30 still
      offers Monday 19:00 to 20:00. */
  lemma CandidateAfterWindowEnd()
    ensures var endDate := 7 * MinutesPerDay + 8 * 60 + 30;
            var c := Interval(7 * MinutesPerDay + 19 * 60, 7 * MinutesPerDay + 20 * 60);
            c in Generate(7 * MinutesPerDay, endDate, 60, []) && c.end > endDate
  {
    var endDate := 7 * MinutesPerDay + 8 * 60 + 30;
    var c := Interval(7 * MinutesPerDay + 19 * 60, 7 * MinutesPerDay + 20 * 60);
    GenerateExactly(7 * MinutesPerDay, endDate, 60, [], c);
  }

  /** A lesson that starts before the window is not fetched, so a candidate
      clashing with it can still be suggested. The student has Monday 08:00 to
      09:00 and Monday 10:30 to 20:00; a window that opens and closes at Monday
      10:30 fetches only the second, leaves 08:00 and 09:00 as the only
      candidates, and suggests 08:00 to 09:00 on top of the first lesson. */
  lemma LessonBeforeWindowCanBeDoubleBooked(who: StudentEntity.Student, place: string)
    requires who.id.Some?
    ensures var monday := 7 * MinutesPerDay;
            var early := Schedule(Some(1), Some(who), Some(monday + 480), Some(monday + 540), Some(place), None);
            var late := Schedule(Some(2), Some(who), Some(monday + 630), Some(monday + 1200), Some(place), None);
            var r := GetSchedulingSuggestions([early, late], {who.id.value}, who.id.value,
                                              monday + 630, monday + 630, 60, monday + 630);
            && r.Success?
            && exists s :: s in r.value && s.start == monday + 480
                           && Overlaps(s.start, s.end, early.start.value, early.end.value)
  {
    var monday := 7 * MinutesPerDay;
    var t0 := monday + 630;
    var early := Schedule(Some(1), Some(who), Some(monday + 480), Some(monday + 540), Some(place), None);
    var late := Schedule(Some(2), Some(who), Some(t0), Some(monday + 1200), Some(place), None);
    var rows := [early, late];
    var sid := who.id.value;
    assert CheckRequest({sid}, sid, t0, t0, 60, t0) == Pass;
    var existing := FindByStudentAndDateRange(rows, sid, t0, t0);
    assert forall w :: w in existing ==> w == late;
    assert late in existing;
    var busy := Busy(existing);
    var cands := Generate(t0, t0, 60, busy);
    var c1 := Interval(monday + 480, monday + 540);
    DayMinute(7, 630);
    DayMinute(7, 480);
    NoOverlapNoConflict(existing, c1.start, c1.end);
    GenerateExactly(t0, t0, 60, busy, c1);
    forall c | c in cands
      ensures c.start == monday + 480 || c.start == monday + 540
    {
      GenerateExactly(t0, t0, 60, busy, c);
      var i :| 0 <= i < |existing| && existing[i] == late;
      assert busy[i] == Interval(t0, monday + 1200);
      OnlyMorningSlots(c.start);
    }
    AtMostTwoStarts(cands, monday + 480, monday + 540);
    RankKeepsBest(cands, 60, Starts(existing), c1);
    var sc := Score(c1, 60, Starts(existing));
    assert sc.start == monday + 480 && sc.end == monday + 540;
  }

  /** On Monday (day 7), the only hour-aligned one-hour lessons between 08:00
      and 20:00 that end by 10:30 start at 08:00 and 09:00. */
  lemma OnlyMorningSlots(t: Time)
    requires OnGrid(t, 7, 7 * MinutesPerDay + 630, 60)
    requires !Overlaps(t, t + 60, 7 * MinutesPerDay + 630, 7 * MinutesPerDay + 1200)
    ensures t == 7 * MinutesPerDay + 480 || t == 7 * MinutesPerDay + 540
  {
    var d, m := DayOf(t), MinuteOfDay(t);
    assert t == d * MinutesPerDay + m;
    assert d == 7;
    assert 480 <= m <= 570;
  }

  /** A list with strictly increasing starts drawn from two values has at most
      two elements. */
  lemma AtMostTwoStarts(cs: seq<Interval>, a: Time, b: Time)
    requires Increasing(cs)
    requires forall c :: c in cs ==> c.start == a || c.start == b
    ensures |cs| <= 2
  {
    if |cs| > 2 {
      FirstThreeAreMembers(cs);
    }
  }

  /** The first three elements of a long enough list belong to it. */
  lemma FirstThreeAreMembers(cs: seq<Interval>)
    requires |cs| > 2
    ensures cs[0] in cs && cs[1] in cs && cs[2] in cs
  {
  }

  /** A window from a Saturday that closes by Monday 08:00 yields no candidates. */
  lemma WeekendWindowIsEmpty(startDate: Time, endDate: Time, duration: int, busy: seq<Interval>)
    requires WeekdayOf(startDate) == Saturday
    requires endDate <= (DayOf(startDate) + 2) * MinutesPerDay + TeachingStart
    requires MinDuration <= duration <= MaxDuration
    ensures forall c :: c !in Generate(startDate, endDate, duration, busy)
  {
    forall c
      ensures c !in Generate(startDate, endDate, duration, busy)
    {
      GenerateExactly(startDate, endDate, duration, busy, c);
      var d := DayOf(c.start);
      if DayOf(startDate) <= d && d * MinutesPerDay + TeachingStart < endDate {
        assert d < DayOf(startDate) + 2;
        assert IsWeekend(c.start);
      }
    }
  }

  /** A free Tuesday with no history and a one-hour lesson: the hourly starts
      08:00 through 19:00 are offered, scored 0.3 before 10:00 and at 19:00 and
      0.6 from 10:00 to 18:00. Day 8 is a Tuesday. */
  lemma FreeTuesdayScenario(h: int)
    requires 8 <= h <= 19
    ensures var t := 8 * MinutesPerDay + h * 60;
            Interval(t, t + 60) in Generate(8 * MinutesPerDay, 8 * MinutesPerDay + 1439, 60, [])
    ensures var t := 8 * MinutesPerDay + h * 60;
            Score(Interval(t, t + 60), 60, []).confidence == (if 10 <= h <= 18 then 6 else 3)
  {
    FreeTuesdayOffered(h);
    FreeTuesdayScore(h);
  }

  /** Each hourly start from 08:00 to 19:00 of a free Tuesday is a candidate. */
  lemma FreeTuesdayOffered(h: int)
    requires 8 <= h <= 19
    ensures var t := 8 * MinutesPerDay + h * 60;
            Interval(t, t + 60) in Generate(8 * MinutesPerDay, 8 * MinutesPerDay + 1439, 60, [])
  {
    var t := 8 * MinutesPerDay + h * 60;
    DayMinute(8, h * 60);
    DayMinute(8, 0);
    assert h * 60 - TeachingStart == (h - 8) * 60;
    assert OnGrid(t, 8, 8 * MinutesPerDay + 1439, 60);
    GenerateExactly(8 * MinutesPerDay, 8 * MinutesPerDay + 1439, 60, [], Interval(t, t + 60));
  }

  /** With no history, the hour alone decides the score. */
  lemma FreeTuesdayScore(h: int)
    requires 8 <= h <= 19
    ensures var t := 8 * MinutesPerDay + h * 60;
            Score(Interval(t, t + 60), 60, []).confidence == (if 10 <= h <= 18 then 6 else 3)
  {
    var t := 8 * MinutesPerDay + h * 60;
    DayMinute(8, h * 60);
    assert HourOf(t) == h;
    assert Frequency([], WeekdayOf, WeekdayOf(t)) == 0;
    assert Frequency([], HourOf, h) == 0;
  }
}
