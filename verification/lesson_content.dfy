/** `LessonContent`: a piece of material assigned to a student, with a
    completion flag. `completed` is a nullable `Boolean`. */
module LessonContentEntity {
  import opened Wrappers
  import opened JavaStrings
  import opened TimeModel
  import StudentEntity

  datatype LessonContent = LessonContent(
    student: Option<StudentEntity.Student>,
    title: Option<string>,
    description: Option<string>,
    contentType: Option<string>,
    difficultyLevel: Option<int>,
    estimatedDuration: Option<int>,   // minutes
    notes: Option<string>,
    completed: Option<bool>,
    completionDate: Option<Time>)

  datatype ContentError =
    | StudentRequired
    | TitleRequired
    | ContentTypeRequired
    | InvalidContentType
    | DifficultyOutOfRange
    | DurationTooShort

  /** The names of the `ContentType` constants. */
  const ContentTypes: seq<string> := ["EXERCISE", "SONG", "THEORY", "TECHNIQUE", "REPERTOIRE", "ASSIGNMENT"]

  const MinDifficulty: int := 1
  const MaxDifficulty: int := 10
  const MinDuration: int := 1

  /** `isValidContentType`: exactly one of the constant names. */
  function IsValidContentType(t: string): (r: bool)
    ensures r <==> exists i :: 0 <= i < |ContentTypes| && ContentTypes[i] == t
  {
    t in ContentTypes
  }

  predicate HasTitle(c: LessonContent) {
    c.title.Some? && !IsBlank(c.title.value)
  }

  predicate HasValidType(c: LessonContent) {
    c.contentType.Some? && IsValidContentType(c.contentType.value)
  }

  predicate DifficultyOk(c: LessonContent) {
    c.difficultyLevel.Some? && MinDifficulty <= c.difficultyLevel.value <= MaxDifficulty
  }

  predicate DurationOk(c: LessonContent) {
    c.estimatedDuration.Some? && c.estimatedDuration.value >= MinDuration
  }

  /** Everything `validate()` demands, as one conjunction. */
  predicate WellFormed(c: LessonContent) {
    c.student.Some? && HasTitle(c) && HasValidType(c) && DifficultyOk(c) && DurationOk(c)
  }

  /** `validate()`: the first failing check, in source order, names the error. */
  function Validate(c: LessonContent): (r: Outcome<ContentError>)
    ensures r == Pass <==> WellFormed(c)
    ensures r == Fail(StudentRequired) <==> c.student.None?
    ensures r == Fail(TitleRequired) <==> c.student.Some? && !HasTitle(c)
    ensures r == Fail(ContentTypeRequired) <==>
              c.student.Some? && HasTitle(c) && (c.contentType.None? || IsBlank(c.contentType.value))
    ensures r == Fail(InvalidContentType) <==>
              && c.student.Some? && HasTitle(c)
              && c.contentType.Some? && !IsBlank(c.contentType.value) && !IsValidContentType(c.contentType.value)
    ensures r == Fail(DifficultyOutOfRange) <==>
              c.student.Some? && HasTitle(c) && HasValidType(c) && !DifficultyOk(c)
    ensures r == Fail(DurationTooShort) <==>
              c.student.Some? && HasTitle(c) && HasValidType(c) && DifficultyOk(c) && !DurationOk(c)
  {
    ValidTypeNotBlank(c.contentType);
    if c.student.None? then Fail(StudentRequired)
    else if c.title.None? || IsBlank(c.title.value) then Fail(TitleRequired)
    else if c.contentType.None? || IsBlank(c.contentType.value) then Fail(ContentTypeRequired)
    else if !IsValidContentType(c.contentType.value) then Fail(InvalidContentType)
    else if c.difficultyLevel.None? || c.difficultyLevel.value < MinDifficulty
            || c.difficultyLevel.value > MaxDifficulty then Fail(DifficultyOutOfRange)
    else if c.estimatedDuration.None? || c.estimatedDuration.value < MinDuration then Fail(DurationTooShort)
    else Pass
  }

  /** Every content type name is non-blank: each starts with a capital letter. */
  lemma ValidTypeNotBlank(t: Option<string>)
    ensures t.Some? && IsValidContentType(t.value) ==> !IsBlank(t.value)
  {
    if t.Some? && IsValidContentType(t.value) {
      assert 'A' <= t.value[0] <= 'T';
      KeptCharNotBlank(t.value, 0);
    }
  }

  /** `markAsCompleted`: completed, dated `now`. */
  function MarkAsCompleted(c: LessonContent, now: Time): (r: LessonContent)
    ensures IsCompleted(r) && r.completionDate == Some(now)
    ensures r.(completed := c.completed, completionDate := c.completionDate) == c
  {
    c.(completed := Some(true), completionDate := Some(now))
  }

  /** `markAsIncomplete`: not completed, no date. */
  function MarkAsIncomplete(c: LessonContent): (r: LessonContent)
    ensures !IsCompleted(r) && r.completionDate.None?
    ensures r.(completed := c.completed, completionDate := c.completionDate) == c
  {
    c.(completed := Some(false), completionDate := None)
  }

  /** `isCompleted`: only an explicit `true` counts; `null` does not. */
  function IsCompleted(c: LessonContent): (r: bool)
    ensures r <==> c.completed == Some(true)
  {
    match c.completed
    case Some(b) => b
    case None => false
  }

  /** Marking is idempotent, the later mark wins, and neither touches validity. */
  lemma MarkingFacts(c: LessonContent, t1: Time, t2: Time)
    ensures MarkAsIncomplete(MarkAsIncomplete(c)) == MarkAsIncomplete(c)
    ensures MarkAsCompleted(MarkAsCompleted(c, t1), t2) == MarkAsCompleted(c, t2)
    ensures MarkAsIncomplete(MarkAsCompleted(c, t1)) == MarkAsIncomplete(c)
    ensures Validate(MarkAsCompleted(c, t1)) == Validate(c)
    ensures Validate(MarkAsIncomplete(c)) == Validate(c)
  {
  }

  /** `getDifficultyDescription`. */
  function DifficultyDescription(level: Option<int>): (r: string)
    ensures level.None? <==> r == "Unknown"
    ensures r == "Beginner" <==> level.Some? && level.value <= 2
    ensures r == "Elementary" <==> level.Some? && 3 <= level.value <= 4
    ensures r == "Intermediate" <==> level.Some? && 5 <= level.value <= 6
    ensures r == "Advanced" <==> level.Some? && 7 <= level.value <= 8
    ensures r == "Expert" <==> level.Some? && level.value >= 9
  {
    if level.None? then "Unknown"
    else if level.value <= 2 then "Beginner"
    else if level.value <= 4 then "Elementary"
    else if level.value <= 6 then "Intermediate"
    else if level.value <= 8 then "Advanced"
    else "Expert"
  }

  /** Each band of the valid range holds exactly two levels; levels outside the
      valid range still fall into the end bands. */
  lemma DifficultyBandsOfValidLevels(level: int)
    requires MinDifficulty <= level <= MaxDifficulty
    ensures DifficultyDescription(Some(level)) == ["Beginner", "Elementary", "Intermediate", "Advanced", "Expert"][(level - 1) / 2]
  {
  }
}
