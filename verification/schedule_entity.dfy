/** `Schedule`: one booked lesson of a student. Fields keep Java's nullability;
    a stored row always has them all (the columns are NOT NULL). */
module ScheduleEntity {
  import opened Wrappers
  import opened TimeModel
  import opened JavaStrings
  import opened StudentEntity

  datatype Schedule = Schedule(
    id: Option<int>,
    student: Option<Student>,
    start: Option<Time>,
    end: Option<Time>,
    location: Option<string>,
    notes: Option<string>)

  datatype ScheduleError =
    | StudentRequired
    | StartTimeRequired
    | EndTimeRequired
    | EndNotAfterStart
    | LocationRequired

  datatype Status = Scheduled | InProgress | Completed

  /** Both timestamps are set. */
  predicate Timed(s: Schedule) {
    s.start.Some? && s.end.Some?
  }

  /** Everything `validate()` demands, stated as one conjunction. */
  predicate WellFormed(s: Schedule) {
    && s.student.Some?
    && Timed(s)
    && s.start.value < s.end.value
    && s.location.Some? && !IsBlank(s.location.value)
  }

  /** `validate()`: the checks run in the order student, start, end, end after
      start, location, and the first one that fails names the error. */
  function Validate(s: Schedule): (r: Outcome<ScheduleError>)
    ensures r == Pass <==> WellFormed(s)
    ensures r == Fail(StudentRequired) <==> s.student.None?
    ensures r == Fail(StartTimeRequired) <==> s.student.Some? && s.start.None?
    ensures r == Fail(EndTimeRequired) <==> s.student.Some? && s.start.Some? && s.end.None?
    ensures r == Fail(EndNotAfterStart) <==>
              s.student.Some? && Timed(s) && s.end.value <= s.start.value
    ensures r == Fail(LocationRequired) <==>
              s.student.Some? && Timed(s) && s.start.value < s.end.value
              && (s.location.None? || IsBlank(s.location.value))
  {
    if s.student.None? then Fail(StudentRequired)
    else if s.start.None? then Fail(StartTimeRequired)
    else if s.end.None? then Fail(EndTimeRequired)
    else if s.end.value < s.start.value || s.end.value == s.start.value then Fail(EndNotAfterStart)
    else if s.location.None? || IsBlank(s.location.value) then Fail(LocationRequired)
    else Pass
  }

  /** `getDuration()` in minutes: the lesson length, positive for a valid lesson. */
  function GetDuration(s: Schedule): (r: int)
    requires Timed(s)
    ensures s.start.value + r == s.end.value
    ensures WellFormed(s) ==> r > 0
  {
    s.end.value - s.start.value
  }

  /** `getDurationInHours()`. */
  function GetDurationInHours(s: Schedule): (r: real)
    requires Timed(s)
    ensures r * 60.0 == GetDuration(s) as real
  {
    GetDuration(s) as real / 60.0
  }

  /** `getStatus()` at `now`: SCHEDULED strictly before the start, COMPLETED
      strictly after the end, IN_PROGRESS in between, both endpoints included.
      The end is read only once `now` has reached the start, so a lesson
      without an end is still SCHEDULED before its start; every other missing
      time is a NullPointerException in the source. */
  function GetStatus(s: Schedule, now: Time): (r: Status)
    requires s.start.Some? && (s.start.value <= now ==> s.end.Some?)
    ensures r == Scheduled <==> now < s.start.value
    ensures r == InProgress <==> s.start.value <= now && now <= s.end.value
    ensures r == Completed <==> s.start.value <= now && now > s.end.value
    ensures Timed(s) && s.start.value <= s.end.value ==> (r == Completed <==> now > s.end.value)
  {
    if now < s.start.value then Scheduled
    else if now > s.end.value then Completed
    else InProgress
  }

  /** A lesson whose end is not yet set is SCHEDULED before its start. */
  lemma OpenEndedLessonScheduled(s: Schedule, now: Time)
    requires s.start.Some? && s.end.None? && now < s.start.value
    ensures GetStatus(s, now) == Scheduled
  {
  }

  /** The times `isOverlapping` reads once the students are equal: this start
      and the other end always, then, only when this start is before the other
      end, this end and the other start. */
  predicate OverlapTimesRead(self: Schedule, other: Schedule) {
    && self.start.Some? && other.end.Some?
    && (self.start.value < other.end.value ==> self.end.Some? && other.start.Some?)
  }

  /** `isOverlapping(other)`: false for no other lesson or another student's;
      otherwise the half-open overlap of the two lessons, tested start against
      end first. `sameStudentObject` says the two lessons hold one and the
      same `Student` object, which `equals` accepts even without an id. A
      missing student on this lesson, or a missing time that the test reads,
      is a NullPointerException in the source and is excluded here. */
  function IsOverlapping(self: Schedule, other: Option<Schedule>, sameStudentObject: bool): (r: bool)
    requires self.student.Some?
    requires sameStudentObject ==> other.Some? && other.value.student == self.student
    requires other.Some? && other.value.student.Some?
             && StudentEquals(self.student.value, other.value.student.value, sameStudentObject)
             ==> OverlapTimesRead(self, other.value)
    ensures other.None? ==> !r
    ensures other.Some? && other.value.student.None? ==> !r
    ensures (other.Some? && other.value.student.Some?
             && !StudentEquals(self.student.value, other.value.student.value, sameStudentObject)) ==> !r
    ensures r <==> other.Some? && other.value.student.Some?
                   && StudentEquals(self.student.value, other.value.student.value, sameStudentObject)
                   && self.start.value < other.value.end.value
                   && other.value.start.value < self.end.value
    ensures Timed(self) && other.Some? && Timed(other.value) && other.value.student.Some?
            && StudentEquals(self.student.value, other.value.student.value, sameStudentObject)
            ==> (r <==> Overlaps(self.start.value, self.end.value, other.value.start.value, other.value.end.value))
  {
    if other.None? || other.value.student.None?
       || !StudentEquals(self.student.value, other.value.student.value, sameStudentObject) then false
    else if self.start.value < other.value.end.value then other.value.start.value < self.end.value
    else false
  }

  /** A lesson with no end that starts at or after the other lesson's end
      does not overlap it, and the test never reads the missing end. */
  lemma OpenEndedAfterDoesNotOverlap(who: Student, place: Option<string>)
    requires who.id.Some?
    ensures var a := Schedule(None, Some(who), Some(600), None, place, None);
            var b := Schedule(None, Some(who), Some(480), Some(540), place, None);
            OverlapTimesRead(a, b) && !IsOverlapping(a, Some(b), false)
  {
  }

  /** `isOverlapping` gives the same answer whichever lesson asks. */
  lemma IsOverlappingSymmetric(a: Schedule, b: Schedule, sameStudentObject: bool)
    requires a.student.Some? && b.student.Some?
    requires sameStudentObject ==> a.student == b.student
    requires Timed(a) && Timed(b)
    ensures IsOverlapping(a, Some(b), sameStudentObject) == IsOverlapping(b, Some(a), sameStudentObject)
  {
  }

  /** Two lessons of one student that meet end to start do not overlap. */
  lemma BackToBackDoNotOverlap(a: Schedule, b: Schedule, sameStudentObject: bool)
    requires a.student.Some? && b.student.Some?
    requires sameStudentObject ==> a.student == b.student
    requires Timed(a) && Timed(b) && a.end.value == b.start.value
    requires WellFormed(a) && WellFormed(b)
    ensures !IsOverlapping(a, Some(b), sameStudentObject) && !IsOverlapping(b, Some(a), sameStudentObject)
  {
  }

  /** Two lessons sharing one unsaved student object are compared by time:
      09:00 to 10:00 and 09:30 to 10:30 overlap. Held by two distinct unsaved
      objects, even with equal fields, the lessons belong to different
      students and never overlap. */
  lemma UnsavedStudentOverlap(who: Student, place: Option<string>)
    requires who.id.None?
    ensures var a := Schedule(None, Some(who), Some(540), Some(600), place, None);
            var b := Schedule(None, Some(who), Some(570), Some(630), place, None);
            IsOverlapping(a, Some(b), true) && !IsOverlapping(a, Some(b), false)
  {
  }

  /** `equals(o)` between two schedules; `sameReference` is `this == o`.
      Entities are equal by id; without ids, distinct objects are never equal. */
  function EntityEquals(a: Schedule, b: Schedule, sameReference: bool): (r: bool)
    requires sameReference ==> a == b
    ensures sameReference ==> r
    ensures !sameReference ==> (r <==> a.id.Some? && b.id.Some? && a.id.value == b.id.value)
    ensures !sameReference && (a.id.None? || b.id.None?) ==> !r
  {
    if sameReference then true
    else if a.id.Some? && b.id.Some? then a.id.value == b.id.value
    else if a.id.Some? || b.id.Some? then false
    else false
  }

  /** Equality ignores every field but the id, and is symmetric. */
  lemma EqualityIsById(a: Schedule, b: Schedule, c: Schedule)
    requires a.id.Some? && a.id == c.id
    ensures EntityEquals(a, b, false) == EntityEquals(c, b, false)
    ensures EntityEquals(a, b, false) == EntityEquals(b, a, false)
  {
  }
}
