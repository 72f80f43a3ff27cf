/** The JPQL queries of `ScheduleRepository`, each a filter over the stored rows.
    A comparison with a NULL column is unknown in SQL and drops the row, so a
    row whose tested field is missing never matches. */
module ScheduleRepository {
  import opened Wrappers
  import opened TimeModel
  import opened StudentEntity
  import opened ScheduleEntity

  /** The rows a WHERE clause keeps, in store order. */
  function Where(rows: seq<Schedule>, p: Schedule -> bool): (r: seq<Schedule>)
    ensures |r| <= |rows|
    ensures forall s :: s in r <==> s in rows && p(s)
  {
    if rows == [] then []
    else
      assert rows == [rows[0]] + rows[1..];
      (if p(rows[0]) then [rows[0]] else []) + Where(rows[1..], p)
  }

  /** `s.student.id = :studentId`. */
  predicate BelongsTo(s: Schedule, studentId: int) {
    s.student.Some? && s.student.value.id == Some(studentId)
  }

  function StudentInRange(studentId: int, from: Time, to: Time): Schedule -> bool {
    (s: Schedule) => BelongsTo(s, studentId) && s.start.Some? && from <= s.start.value <= to
  }

  function UpcomingAt(now: Time): Schedule -> bool {
    (s: Schedule) => s.start.Some? && s.start.value > now
  }

  function OngoingAt(now: Time): Schedule -> bool {
    (s: Schedule) => Timed(s) && s.start.value <= now && s.end.value >= now
  }

  function CompletedAt(now: Time): Schedule -> bool {
    (s: Schedule) => s.end.Some? && s.end.value < now
  }

  function OverlapsWith(studentId: int, start: Time, end: Time): Schedule -> bool {
    (s: Schedule) => BelongsTo(s, studentId) && Timed(s) && Overlaps(s.start.value, s.end.value, start, end)
  }

  /** The three-way disjunction written in `isStudentAvailable`. */
  predicate AvailabilityClause(s: Schedule, start: Time, end: Time)
    requires Timed(s)
  {
    || (s.start.value <= start && s.end.value > start)
    || (s.start.value < end && s.end.value >= end)
    || (s.start.value >= start && s.end.value <= end)
  }

  function AvailabilityMatch(studentId: int, start: Time, end: Time): Schedule -> bool {
    (s: Schedule) => BelongsTo(s, studentId) && Timed(s) && AvailabilityClause(s, start, end)
  }

  function StartsBetween(from: Time, to: Time): Schedule -> bool {
    (s: Schedule) => s.start.Some? && from <= s.start.value <= to
  }

  function StudentStartsBetween(studentId: int, from: Time, to: Time): Schedule -> bool {
    (s: Schedule) => BelongsTo(s, studentId) && s.start.Some? && from <= s.start.value <= to
  }

  /** `findByStudentAndDateRange`: the student's rows whose START lies in the
      inclusive range; the end time plays no part. */
  function FindByStudentAndDateRange(rows: seq<Schedule>, studentId: int, from: Time, to: Time)
    : (r: seq<Schedule>)
    ensures forall s :: s in r <==> s in rows && BelongsTo(s, studentId) && s.start.Some?
                                    && from <= s.start.value <= to
  {
    Where(rows, StudentInRange(studentId, from, to))
  }

  /** `findUpcomingSchedules`: rows starting strictly after `now`. */
  function FindUpcomingSchedules(rows: seq<Schedule>, now: Time): (r: seq<Schedule>)
    ensures forall s :: s in r <==> s in rows && s.start.Some? && now < s.start.value
  {
    Where(rows, UpcomingAt(now))
  }

  /** `findOngoingSchedules`: rows with `start <= now <= end`. */
  function FindOngoingSchedules(rows: seq<Schedule>, now: Time): (r: seq<Schedule>)
    ensures forall s :: s in r <==> s in rows && Timed(s) && s.start.value <= now <= s.end.value
  {
    Where(rows, OngoingAt(now))
  }

  /** `findCompletedSchedules`: rows that ended strictly before `now`. */
  function FindCompletedSchedules(rows: seq<Schedule>, now: Time): (r: seq<Schedule>)
    ensures forall s :: s in r <==> s in rows && s.end.Some? && s.end.value < now
  {
    Where(rows, CompletedAt(now))
  }

  /** `findOverlappingSchedules`: the student's rows that overlap `[start, end)`. */
  function FindOverlappingSchedules(rows: seq<Schedule>, studentId: int, start: Time, end: Time)
    : (r: seq<Schedule>)
    ensures forall s :: s in r <==>
              s in rows && BelongsTo(s, studentId) && Timed(s)
              && Overlaps(start, end, s.start.value, s.end.value)
  {
    Where(rows, OverlapsWith(studentId, start, end))
  }

  /** `isStudentAvailable`: despite its name, true when some row of the student
      matches the clause, that is, when the student is NOT free. */
  function IsStudentAvailable(rows: seq<Schedule>, studentId: int, start: Time, end: Time)
    : (r: bool)
    ensures r <==> exists s :: s in rows && BelongsTo(s, studentId) && Timed(s)
                               && AvailabilityClause(s, start, end)
  {
    var hits := Where(rows, AvailabilityMatch(studentId, start, end));
    assert |hits| > 0 ==> hits[0] in hits;
    |hits| > 0
  }

  /** `findSchedulesInNextDays`: rows starting in `[now, futureDate]`. */
  function FindSchedulesInNextDays(rows: seq<Schedule>, now: Time, futureDate: Time)
    : (r: seq<Schedule>)
    ensures forall s :: s in r <==> s in rows && s.start.Some? && now <= s.start.value <= futureDate
  {
    Where(rows, StartsBetween(now, futureDate))
  }

  /** `findStudentSchedulesInNextDays`: the same window, restricted to one student. */
  function FindStudentSchedulesInNextDays(rows: seq<Schedule>, studentId: int, now: Time, futureDate: Time)
    : (r: seq<Schedule>)
    ensures forall s :: s in r <==>
              s in rows && BelongsTo(s, studentId) && s.start.Some? && now <= s.start.value <= futureDate
  {
    Where(rows, StudentStartsBetween(studentId, now, futureDate))
  }

  // ---------------------------------------------------------------------------
  // Facts about the queries

  /** For a well-formed lesson and a well-formed window, the three cases of
      `isStudentAvailable` together say exactly "the intervals overlap". */
  lemma AvailabilityClauseIsOverlap(s: Schedule, start: Time, end: Time)
    requires Timed(s) && s.start.value < s.end.value
    requires start < end
    ensures AvailabilityClause(s, start, end) <==> Overlaps(start, end, s.start.value, s.end.value)
  {
  }

  /** Without a well-formed window the two differ: for the reversed window
      [12, 10) the clause fires on the lesson [5, 11), which does not overlap it. */
  lemma AvailabilityDiffersOnReversedWindow(s: Schedule)
    requires s.start == Some(5) && s.end == Some(11)
    ensures AvailabilityClause(s, 12, 10) && !Overlaps(12, 10, 5, 11)
  {
  }

  /** Without a well-formed lesson the two differ: the empty lesson [2, 2)
      meets the third case for the window [2, 5) but overlaps nothing. */
  lemma AvailabilityDiffersOnEmptyLesson(s: Schedule)
    requires s.start == Some(2) && s.end == Some(2)
    ensures AvailabilityClause(s, 2, 5) && !Overlaps(2, 5, 2, 2)
  {
  }

  /** Over well-formed rows, `isStudentAvailable` answers true exactly when the
      overlap query finds a conflict. */
  lemma {:induction false} IsStudentAvailableMeansConflict(
    rows: seq<Schedule>, studentId: int, start: Time, end: Time)
    requires start < end
    requires forall s :: s in rows ==> Timed(s) && s.start.value < s.end.value
    ensures IsStudentAvailable(rows, studentId, start, end)
            <==> |FindOverlappingSchedules(rows, studentId, start, end)| > 0
  {
    var found := FindOverlappingSchedules(rows, studentId, start, end);
    if IsStudentAvailable(rows, studentId, start, end) {
      var s :| s in rows && BelongsTo(s, studentId) && Timed(s) && AvailabilityClause(s, start, end);
      AvailabilityClauseIsOverlap(s, start, end);
      assert s in found;
    }
    if |found| > 0 {
      var s := found[0];
      assert s in found;
      AvailabilityClauseIsOverlap(s, start, end);
    }
  }

  /** Three filters that split every row exactly one way split the row count. */
  lemma {:induction false} WhereSplitsCount(
    rows: seq<Schedule>, p: Schedule -> bool, q: Schedule -> bool, u: Schedule -> bool)
    requires forall s :: s in rows ==>
               (if p(s) then 1 else 0) + (if q(s) then 1 else 0) + (if u(s) then 1 else 0) == 1
    ensures |Where(rows, p)| + |Where(rows, q)| + |Where(rows, u)| == |rows|
  {
    if rows != [] {
      assert rows[0] in rows;
      assert forall s :: s in rows[1..] ==> s in rows;
      WhereSplitsCount(rows[1..], p, q, u);
    }
  }

  /** Upcoming, ongoing and completed partition the rows whose start does not
      follow their end, and each class is the one `getStatus` reports. */
  lemma StatusQueriesPartition(rows: seq<Schedule>, now: Time)
    requires forall s :: s in rows ==> Timed(s) && s.start.value <= s.end.value
    ensures |FindUpcomingSchedules(rows, now)| + |FindOngoingSchedules(rows, now)|
            + |FindCompletedSchedules(rows, now)| == |rows|
    ensures forall s :: s in rows ==>
              && (s in FindUpcomingSchedules(rows, now) <==> GetStatus(s, now) == Scheduled)
              && (s in FindOngoingSchedules(rows, now) <==> GetStatus(s, now) == InProgress)
              && (s in FindCompletedSchedules(rows, now) <==> GetStatus(s, now) == Completed)
  {
    WhereSplitsCount(rows, UpcomingAt(now), OngoingAt(now), CompletedAt(now));
  }

  /** The per-student window query is the global window query narrowed to the student. */
  lemma {:induction false} StudentNextDaysNarrowsNextDays(
    rows: seq<Schedule>, studentId: int, now: Time, futureDate: Time)
    ensures FindStudentSchedulesInNextDays(rows, studentId, now, futureDate)
            == Where(FindSchedulesInNextDays(rows, now, futureDate), s => BelongsTo(s, studentId))
  {
    if rows != [] {
      StudentNextDaysNarrowsNextDays(rows[1..], studentId, now, futureDate);
      var head := if StartsBetween(now, futureDate)(rows[0]) then [rows[0]] else [];
      var tail := FindSchedulesInNextDays(rows[1..], now, futureDate);
      assert FindSchedulesInNextDays(rows, now, futureDate) == head + tail;
      WhereAppend(head, tail, s => BelongsTo(s, studentId));
    }
  }

  /** Filtering distributes over concatenation. */
  lemma {:induction false} WhereAppend(a: seq<Schedule>, b: seq<Schedule>, p: Schedule -> bool)
    ensures Where(a + b, p) == Where(a, p) + Where(b, p)
  {
    if a == [] {
      assert a + b == b;
    } else {
      var ab := a + b;
      assert ab[0] == a[0] && ab[1..] == a[1..] + b;
      WhereAppend(a[1..], b, p);
      var h := if p(a[0]) then [a[0]] else [];
      assert Where(ab, p) == h + Where(ab[1..], p);
      assert Where(a, p) == h + Where(a[1..], p);
    }
  }

  /** The date-range query looks at the start only: a lesson that began one
      minute before the window and is still running is not returned. */
  lemma DateRangeIgnoresRunningLesson(s: Schedule, studentId: int, from: Time, to: Time)
    requires BelongsTo(s, studentId) && Timed(s)
    requires s.start.value == from - 1 && s.end.value == from + 59 && from <= to
    ensures s !in FindByStudentAndDateRange([s], studentId, from, to)
    ensures s in FindOverlappingSchedules([s], studentId, from, to + 1)
  {
  }

  /** Both bounds of the next-days window are inclusive. */
  lemma NextDaysBoundsInclusive(a: Schedule, b: Schedule, now: Time, futureDate: Time)
    requires a.start == Some(now) && b.start == Some(futureDate) && now <= futureDate
    ensures a in FindSchedulesInNextDays([a, b], now, futureDate)
    ensures b in FindSchedulesInNextDays([a, b], now, futureDate)
  {
  }
}
