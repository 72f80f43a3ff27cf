/** The create/update/reschedule/delete operations of `ScheduleService` over a
    store of schedule rows. Each operation runs in one transaction: when it
    throws, nothing it did is kept, so a failed operation returns the store it
    was given. The invariant the conflict checks protect is that no two rows of
    the same student overlap. */
module BookingStore {
  import opened Wrappers
  import opened TimeModel
  import opened ScheduleEntity
  import opened ScheduleRepository

  /** The `schedules` table and the next id its sequence will hand out. */
  datatype Store = Store(rows: seq<Schedule>, nextId: int)

  datatype BookingError =
    | ScheduleNotFound      // `getScheduleById` finds no row
    | StudentMissing        // the details carry no student (a null dereference)
    | StudentIdMissing      // the student has no id (`existsById(null)` refuses it)
    | StudentNotFound       // no student with that id
    | Conflict              // an overlapping booking of the same student
    | Invalid(error: ScheduleError)  // `Schedule.validate` failed

  datatype Reply<T> = Reply(store: Store, result: Result<T, BookingError>)

  /** A row as the table's NOT NULL columns force it to be. */
  predicate Stored(s: Schedule) {
    s.id.Some? && s.student.Some? && s.student.value.id.Some? && Timed(s) && s.location.Some?
  }

  /** The schema: complete rows, distinct ids, and a sequence ahead of them all. */
  predicate Valid(st: Store) {
    && (forall i :: 0 <= i < |st.rows| ==> Stored(st.rows[i]) && st.rows[i].id.value < st.nextId)
    && (forall i, j :: 0 <= i < j < |st.rows| ==> st.rows[i].id != st.rows[j].id)
  }

  /** Two stored rows of one student whose times overlap. */
  predicate Clash(a: Schedule, b: Schedule) {
    && Stored(a) && Stored(b)
    && a.student.value.id == b.student.value.id
    && Overlaps(a.start.value, a.end.value, b.start.value, b.end.value)
  }

  /** The invariant: no two rows of the same student overlap. */
  predicate NoDoubleBooking(rows: seq<Schedule>) {
    forall i, j :: 0 <= i < |rows| && 0 <= j < |rows| && i != j ==> !Clash(rows[i], rows[j])
  }

  /** The position of the row with id `id`, if any (`findById`). */
  function IndexOf(rows: seq<Schedule>, id: int): (r: Option<nat>)
    ensures r.Some? ==> r.value < |rows| && rows[r.value].id == Some(id)
    ensures r.None? <==> forall i :: 0 <= i < |rows| ==> rows[i].id != Some(id)
  {
    if rows == [] then None
    else if rows[0].id == Some(id) then Some(0)
    else
      match IndexOf(rows[1..], id)
      case None =>
        assert forall i :: 1 <= i < |rows| ==> rows[i] == rows[1..][i - 1];
        None
      case Some(k) => Some(k + 1)
  }

  /** `getScheduleById`. */
  function GetScheduleById(st: Store, id: int): (r: Result<Schedule, BookingError>)
    ensures r.Success? ==> r.value in st.rows && r.value.id == Some(id)
    ensures r.Failure? ==> r.error == ScheduleNotFound && forall s :: s in st.rows ==> s.id != Some(id)
  {
    match IndexOf(st.rows, id)
    case None => Failure(ScheduleNotFound)
    case Some(k) => Success(st.rows[k])
  }

  /** The rows without the one whose id is `id` (`removeIf(s -> s.getId().equals(id))`). */
  function NotId(id: int): Schedule -> bool {
    (s: Schedule) => s.id != Some(id)
  }

  /** The bookings that block `[start, end)` for `studentId`, leaving out the row
      `exclude` names. A NULL time parameter makes every comparison in the
      query unknown, so it matches nothing. */
  function Conflicts(rows: seq<Schedule>, studentId: int, start: Option<Time>, end: Option<Time>,
                     exclude: Option<int>): (r: seq<Schedule>)
    ensures forall s :: s in r <==>
              && start.Some? && end.Some? && s in rows
              && BelongsTo(s, studentId) && Timed(s)
              && Overlaps(start.value, end.value, s.start.value, s.end.value)
              && (exclude.Some? ==> s.id != Some(exclude.value))
  {
    if start.None? || end.None? then []
    else
      var hits := FindOverlappingSchedules(rows, studentId, start.value, end.value);
      if exclude.Some? then Where(hits, NotId(exclude.value)) else hits
  }

  // ---------------------------------------------------------------------------
  // Preservation of the invariant by the three ways a row can change.

  /** Appending a stored row that clashes with no existing row keeps the invariant. */
  lemma AppendKeepsNoDoubleBooking(rows: seq<Schedule>, n: Schedule)
    requires forall x :: x in rows ==> !Clash(x, n)
    ensures NoDoubleBooking(rows) ==> NoDoubleBooking(rows + [n])
  {
    var rows' := rows + [n];
    if NoDoubleBooking(rows) {
      forall i, j | 0 <= i < |rows'| && 0 <= j < |rows'| && i != j
        ensures !Clash(rows'[i], rows'[j])
      {
        if i == |rows| {
          assert rows'[j] in rows;
        } else if j == |rows| {
          assert rows'[i] in rows;
        } else {
          assert rows'[i] == rows[i] && rows'[j] == rows[j];
        }
      }
    }
  }

  /** Replacing row `k` by a row that clashes with no other row keeps the invariant. */
  lemma ReplaceKeepsNoDoubleBooking(rows: seq<Schedule>, k: nat, u: Schedule)
    requires k < |rows|
    requires forall i :: 0 <= i < |rows| && i != k ==> !Clash(rows[i], u)
    ensures NoDoubleBooking(rows) ==> NoDoubleBooking(rows[k := u])
  {
    var rows' := rows[k := u];
    if NoDoubleBooking(rows) {
      forall i, j | 0 <= i < |rows'| && 0 <= j < |rows'| && i != j
        ensures !Clash(rows'[i], rows'[j])
      {
        if i == k {
          assert !Clash(rows[j], u);
        } else if j == k {
          assert !Clash(rows[i], u);
        }
      }
    }
  }

  /** Removing row `k` keeps the invariant. */
  lemma RemoveKeepsNoDoubleBooking(rows: seq<Schedule>, k: nat)
    requires k < |rows|
    ensures NoDoubleBooking(rows) ==> NoDoubleBooking(rows[..k] + rows[k + 1..])
  {
    var rows' := rows[..k] + rows[k + 1..];
    if NoDoubleBooking(rows) {
      forall i, j | 0 <= i < |rows'| && 0 <= j < |rows'| && i != j
        ensures !Clash(rows'[i], rows'[j])
      {
        var i' := if i < k then i else i + 1;
        var j' := if j < k then j else j + 1;
        assert rows'[i] == rows[i'] && rows'[j] == rows[j'];
      }
    }
  }

  /** A row with no conflict and a stored owner clashes with none of the rows
      the conflict query saw. */
  lemma NoConflictNoClash(rows: seq<Schedule>, u: Schedule, exclude: Option<int>, x: Schedule)
    requires Stored(u)
    requires Conflicts(rows, u.student.value.id.value, u.start, u.end, exclude) == []
    requires x in rows && (exclude.Some? ==> x.id != Some(exclude.value))
    ensures !Clash(x, u)
  {
    var hits := Conflicts(rows, u.student.value.id.value, u.start, u.end, exclude);
    assert x !in hits;
  }

  // ---------------------------------------------------------------------------
  // The operations.

  /** `createSchedule`: validate, check the student exists, refuse an overlap,
      then insert with the next id. `students` holds the ids of stored students. */
  function CreateSchedule(st: Store, sched: Schedule, students: set<int>): (r: Reply<Schedule>)
    requires Valid(st)
    ensures Valid(r.store)
    ensures NoDoubleBooking(st.rows) ==> NoDoubleBooking(r.store.rows)
    ensures r.result.Failure? ==> r.store == st
    ensures r.result == Failure(Invalid(StudentRequired)) <==> sched.student.None?
    ensures r.result.Failure? && r.result.error.Invalid? <==> Validate(sched).Fail?
    ensures r.result == Failure(StudentIdMissing) <==> WellFormed(sched) && sched.student.value.id.None?
    ensures r.result == Failure(StudentNotFound) <==>
              WellFormed(sched) && sched.student.value.id.Some? && sched.student.value.id.value !in students
    ensures r.result == Failure(Conflict) <==>
              && WellFormed(sched) && sched.student.value.id.Some? && sched.student.value.id.value in students
              && exists x :: x in st.rows && BelongsTo(x, sched.student.value.id.value)
                             && Overlaps(sched.start.value, sched.end.value, x.start.value, x.end.value)
    ensures r.result.Success? ==>
              && r.result.value == sched.(id := Some(st.nextId))
              && r.store == Store(st.rows + [r.result.value], st.nextId + 1)
    ensures r.result.Success? <==>
              && WellFormed(sched) && sched.student.value.id.Some?
              && sched.student.value.id.value in students
              && !exists x :: x in st.rows && BelongsTo(x, sched.student.value.id.value)
                              && Overlaps(sched.start.value, sched.end.value, x.start.value, x.end.value)
    ensures r.result.Failure? && r.result.error.Invalid? ==> Validate(sched) == Fail(r.result.error.error)
  {
    match Validate(sched)
    case Fail(e) => Reply(st, Failure(Invalid(e)))
    case Pass =>
      if sched.student.value.id.None? then Reply(st, Failure(StudentIdMissing))
      else
        var sid := sched.student.value.id.value;
        if sid !in students then Reply(st, Failure(StudentNotFound))
        else
          var hits := Conflicts(st.rows, sid, sched.start, sched.end, None);
          if hits != [] then
            assert hits[0] in hits;
            Reply(st, Failure(Conflict))
          else
            var saved := sched.(id := Some(st.nextId));
            InsertKeepsInvariant(st, saved);
            Reply(Store(st.rows + [saved], st.nextId + 1), Success(saved))
  }

  /** Inserting a complete row under the next id, when the conflict query
      found nothing, keeps the schema and the invariant. */
  lemma InsertKeepsInvariant(st: Store, saved: Schedule)
    requires Valid(st) && Stored(saved) && saved.id == Some(st.nextId)
    requires Conflicts(st.rows, saved.student.value.id.value, saved.start, saved.end, None) == []
    ensures Valid(Store(st.rows + [saved], st.nextId + 1))
    ensures NoDoubleBooking(st.rows) ==> NoDoubleBooking(st.rows + [saved])
  {
    forall x | x in st.rows ensures !Clash(x, saved) {
      NoConflictNoClash(st.rows, saved, None, x);
    }
    AppendKeepsNoDoubleBooking(st.rows, saved);
    var rows' := st.rows + [saved];
    assert forall i :: 0 <= i < |st.rows| ==> rows'[i] == st.rows[i];
  }

  /** The row `updateSchedule` writes: the existing row's id with every other
      field taken from the details. */
  function Updated(existing: Schedule, details: Schedule): (r: Schedule)
    ensures r.id == existing.id
    ensures r.(id := details.id) == details
  {
    existing.(student := details.student, start := details.start, end := details.end,
              location := details.location, notes := details.notes)
  }

  /** The checks `updateSchedule` makes before it validates: the row exists,
      the details name a stored student, and no other row of that student
      overlaps the new times. */
  predicate UpdateChecksPass(st: Store, id: int, details: Schedule, students: set<int>)
    requires Valid(st)
  {
    && IndexOf(st.rows, id).Some? && details.student.Some? && details.student.value.id.Some?
    && details.student.value.id.value in students
    && !exists x :: x in st.rows && x.id != Some(id) && BelongsTo(x, details.student.value.id.value)
                    && details.start.Some? && details.end.Some?
                    && Overlaps(details.start.value, details.end.value, x.start.value, x.end.value)
  }

  /** `updateSchedule`: find the row, check the new student, refuse an overlap
      with any other row, copy the details over, then validate. The conflict
      check runs before validation, so an invalid time range can still be
      reported as a conflict. */
  function UpdateSchedule(st: Store, id: int, details: Schedule, students: set<int>): (r: Reply<Schedule>)
    requires Valid(st)
    ensures Valid(r.store)
    ensures NoDoubleBooking(st.rows) ==> NoDoubleBooking(r.store.rows)
    ensures r.result.Failure? ==> r.store == st
    ensures r.result == Failure(ScheduleNotFound) <==> IndexOf(st.rows, id).None?
    ensures r.result == Failure(StudentMissing) <==> IndexOf(st.rows, id).Some? && details.student.None?
    ensures r.result == Failure(StudentIdMissing) <==>
              IndexOf(st.rows, id).Some? && details.student.Some? && details.student.value.id.None?
    ensures r.result == Failure(StudentNotFound) <==>
              && IndexOf(st.rows, id).Some? && details.student.Some? && details.student.value.id.Some?
              && details.student.value.id.value !in students
    ensures r.result == Failure(Conflict) <==>
              && IndexOf(st.rows, id).Some? && details.student.Some? && details.student.value.id.Some?
              && details.student.value.id.value in students
              && !UpdateChecksPass(st, id, details, students)
    ensures r.result.Success? ==>
              && IndexOf(st.rows, id).Some?
              && var k := IndexOf(st.rows, id).value;
              && r.result.value == Updated(st.rows[k], details)
              && WellFormed(r.result.value)
              && r.store == st.(rows := st.rows[k := r.result.value])
    ensures r.result.Success? <==>
              && UpdateChecksPass(st, id, details, students)
              && Validate(Updated(st.rows[IndexOf(st.rows, id).value], details)) == Pass
    ensures r.result.Failure? && r.result.error.Invalid? <==>
              && UpdateChecksPass(st, id, details, students)
              && Validate(Updated(st.rows[IndexOf(st.rows, id).value], details)).Fail?
    ensures r.result.Failure? && r.result.error.Invalid? ==>
              && IndexOf(st.rows, id).Some?
              && Validate(Updated(st.rows[IndexOf(st.rows, id).value], details)) == Fail(r.result.error.error)
  {
    match IndexOf(st.rows, id)
    case None => Reply(st, Failure(ScheduleNotFound))
    case Some(k) =>
      if details.student.None? then Reply(st, Failure(StudentMissing))
      else if details.student.value.id.None? then Reply(st, Failure(StudentIdMissing))
      else
        var sid := details.student.value.id.value;
        if sid !in students then Reply(st, Failure(StudentNotFound))
        else
          var hits := Conflicts(st.rows, sid, details.start, details.end, Some(id));
          if hits != [] then
            assert hits[0] in hits;
            assert !UpdateChecksPass(st, id, details, students);
            Reply(st, Failure(Conflict))
          else
            assert UpdateChecksPass(st, id, details, students);
            var u := Updated(st.rows[k], details);
            match Validate(u)
            case Fail(e) => Reply(st, Failure(Invalid(e)))
            case Pass =>
              CommitKeepsStore(st, k, u);
              Reply(st.(rows := st.rows[k := u]), Success(u))
  }

  /** Saving a valid row over row `k` under that row's id, once the conflict
      query excluding that id came back empty, keeps the schema and the
      invariant. */
  lemma CommitKeepsStore(st: Store, k: nat, u: Schedule)
    requires Valid(st) && k < |st.rows|
    requires WellFormed(u) && u.student.value.id.Some? && u.id == st.rows[k].id
    requires Conflicts(st.rows, u.student.value.id.value, u.start, u.end, u.id) == []
    ensures Valid(st.(rows := st.rows[k := u]))
    ensures NoDoubleBooking(st.rows) ==> NoDoubleBooking(st.rows[k := u])
  {
    ReplaceKeepsValid(st, k, u);
    forall i | 0 <= i < |st.rows| && i != k ensures !Clash(st.rows[i], u) {
      NoConflictNoClash(st.rows, u, u.id, st.rows[i]);
    }
    ReplaceKeepsNoDoubleBooking(st.rows, k, u);
  }

  /** Replacing a row by a stored row with the same id keeps the schema. */
  lemma ReplaceKeepsValid(st: Store, k: nat, u: Schedule)
    requires Valid(st) && k < |st.rows|
    requires Stored(u) || (WellFormed(u) && u.student.value.id.Some? && u.id.Some?)
    requires u.id == st.rows[k].id
    ensures Valid(st.(rows := st.rows[k := u]))
  {
  }

  /** The row `rescheduleSchedule` writes: the same row at the new times. */
  function Moved(row: Schedule, newStart: Time, newEnd: Time): (r: Schedule)
    ensures r.start == Some(newStart) && r.end == Some(newEnd)
    ensures r.(start := row.start, end := row.end) == row
  {
    row.(start := Some(newStart), end := Some(newEnd))
  }

  /** The checks `rescheduleSchedule` makes before it validates: the row exists
      and no other row of its student overlaps the new times. */
  predicate RescheduleChecksPass(st: Store, id: int, newStart: Time, newEnd: Time)
    requires Valid(st)
  {
    && IndexOf(st.rows, id).Some?
    && var owner := st.rows[IndexOf(st.rows, id).value].student.value.id.value;
    !exists x :: x in st.rows && x.id != Some(id) && BelongsTo(x, owner)
                 && Overlaps(newStart, newEnd, x.start.value, x.end.value)
  }

  /** `rescheduleSchedule`: find the row, refuse an overlap with any other row
      of its student at the new times, move it, then validate. */
  function RescheduleSchedule(st: Store, id: int, newStart: Time, newEnd: Time): (r: Reply<Schedule>)
    requires Valid(st)
    ensures Valid(r.store)
    ensures NoDoubleBooking(st.rows) ==> NoDoubleBooking(r.store.rows)
    ensures r.result.Failure? ==> r.store == st
    ensures r.result == Failure(ScheduleNotFound) <==> IndexOf(st.rows, id).None?
    ensures r.result == Failure(Conflict) <==>
              IndexOf(st.rows, id).Some? && !RescheduleChecksPass(st, id, newStart, newEnd)
    ensures r.result.Failure? && r.result.error.Invalid? ==>
              (r.result.error == Invalid(EndNotAfterStart) && newEnd <= newStart)
              || r.result.error == Invalid(LocationRequired)
    ensures r.result.Success? ==>
              && IndexOf(st.rows, id).Some?
              && var k := IndexOf(st.rows, id).value;
              && newStart < newEnd
              && r.result.value == st.rows[k].(start := Some(newStart), end := Some(newEnd))
              && r.store == st.(rows := st.rows[k := r.result.value])
    ensures r.result.Success? <==>
              && RescheduleChecksPass(st, id, newStart, newEnd)
              && Validate(Moved(st.rows[IndexOf(st.rows, id).value], newStart, newEnd)) == Pass
    ensures r.result.Failure? && r.result.error.Invalid? <==>
              && RescheduleChecksPass(st, id, newStart, newEnd)
              && Validate(Moved(st.rows[IndexOf(st.rows, id).value], newStart, newEnd)).Fail?
    ensures r.result.Failure? && r.result.error.Invalid? ==>
              && IndexOf(st.rows, id).Some?
              && Validate(Moved(st.rows[IndexOf(st.rows, id).value], newStart, newEnd))
                 == Fail(r.result.error.error)
  {
    match IndexOf(st.rows, id)
    case None => Reply(st, Failure(ScheduleNotFound))
    case Some(k) =>
      var row := st.rows[k];
      var hits := Conflicts(st.rows, row.student.value.id.value, Some(newStart), Some(newEnd), Some(id));
      if hits != [] then
        assert hits[0] in hits;
        assert !RescheduleChecksPass(st, id, newStart, newEnd);
        Reply(st, Failure(Conflict))
      else
        assert RescheduleChecksPass(st, id, newStart, newEnd);
        var u := Moved(row, newStart, newEnd);
        match Validate(u)
        case Fail(e) => Reply(st, Failure(Invalid(e)))
        case Pass =>
          CommitKeepsStore(st, k, u);
          Reply(st.(rows := st.rows[k := u]), Success(u))
  }

  /** `deleteSchedule`: find the row and remove it. */
  function DeleteSchedule(st: Store, id: int): (r: Reply<()>)
    requires Valid(st)
    ensures Valid(r.store)
    ensures NoDoubleBooking(st.rows) ==> NoDoubleBooking(r.store.rows)
    ensures r.result.Failure? <==> forall s :: s in st.rows ==> s.id != Some(id)
    ensures r.result.Failure? ==> r.store == st && r.result.error == ScheduleNotFound
    ensures r.result.Success? ==>
              && |r.store.rows| == |st.rows| - 1
              && (forall s :: s in r.store.rows <==> s in st.rows && s.id != Some(id))
    ensures r.store.nextId == st.nextId
    ensures r.result.Success? ==>
              && IndexOf(st.rows, id).Some?
              && var k := IndexOf(st.rows, id).value;
              && r.store == st.(rows := st.rows[..k] + st.rows[k + 1..])
  {
    match IndexOf(st.rows, id)
    case None => Reply(st, Failure(ScheduleNotFound))
    case Some(k) =>
      var rows' := st.rows[..k] + st.rows[k + 1..];
      RemoveKeepsNoDoubleBooking(st.rows, k);
      RemoveKeepsValid(st, k);
      RemoveDropsOnlyThatId(st.rows, k);
      Reply(st.(rows := rows'), Success(()))
  }

  /** Removing row `k` keeps the schema. */
  lemma RemoveKeepsValid(st: Store, k: nat)
    requires Valid(st) && k < |st.rows|
    ensures Valid(st.(rows := st.rows[..k] + st.rows[k + 1..]))
  {
    var rows' := st.rows[..k] + st.rows[k + 1..];
    forall i | 0 <= i < |rows'| ensures rows'[i] == st.rows[if i < k then i else i + 1] {
    }
  }

  /** Removing row `k` drops exactly the rows carrying its id. */
  lemma RemoveDropsOnlyThatId(rows: seq<Schedule>, k: nat)
    requires k < |rows|
    requires forall i, j :: 0 <= i < j < |rows| ==> rows[i].id != rows[j].id
    ensures forall s :: s in rows[..k] + rows[k + 1..] <==> s in rows && s.id != rows[k].id
  {
    var rows' := rows[..k] + rows[k + 1..];
    forall s | s in rows' ensures s in rows && s.id != rows[k].id {
      var i :| 0 <= i < |rows'| && rows'[i] == s;
      if i < k { assert rows'[i] == rows[i]; } else { assert rows'[i] == rows[i + 1]; }
    }
    forall s | s in rows && s.id != rows[k].id ensures s in rows' {
      var i :| 0 <= i < |rows| && rows[i] == s;
      if i < k { assert rows'[i] == s; } else { assert rows'[i - 1] == s; }
    }
  }

  /** The invariant in the entity's own terms: no row `isOverlapping` another. */
  lemma NoDoubleBookingIsNoEntityOverlap(rows: seq<Schedule>)
    requires forall i :: 0 <= i < |rows| ==> Stored(rows[i])
    ensures NoDoubleBooking(rows) <==>
              forall i, j, same: bool ::
                (0 <= i < |rows| && 0 <= j < |rows| && i != j && Stored(rows[i]) && Stored(rows[j])
                 && (same ==> rows[i].student == rows[j].student))
                ==> !IsOverlapping(rows[i], Some(rows[j]), same)
  {
    if NoDoubleBooking(rows) {
      forall i, j, same: bool |
        && 0 <= i < |rows| && 0 <= j < |rows| && i != j && Stored(rows[i]) && Stored(rows[j])
        && (same ==> rows[i].student == rows[j].student)
        ensures !IsOverlapping(rows[i], Some(rows[j]), same)
      {
        assert !Clash(rows[i], rows[j]);
      }
    } else {
      var i, j :| 0 <= i < |rows| && 0 <= j < |rows| && i != j && Clash(rows[i], rows[j]);
      assert IsOverlapping(rows[i], Some(rows[j]), false);
    }
  }
}
