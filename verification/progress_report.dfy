/** `ProgressReport`: a teacher's periodic assessment of a student. Scores are
    Java `Double`s, modelled as exact reals; a missing score is `None`. */
module ProgressReportEntity {
  import opened Wrappers
  import opened JavaStrings
  import StudentEntity

  datatype ProgressReport = ProgressReport(
    student: Option<StudentEntity.Student>,
    reportType: Option<string>,
    reportPeriod: Option<string>,
    overallProgress: Option<real>,
    technicalSkills: Option<real>,
    theoryKnowledge: Option<real>,
    repertoireSkills: Option<real>,
    practiceHabits: Option<real>)

  datatype ReportError =
    | StudentRequired
    | ReportTypeRequired
    | InvalidReportType
    | ReportPeriodRequired
    | OverallProgressOutOfRange
    | TechnicalSkillsOutOfRange
    | TheoryKnowledgeOutOfRange
    | RepertoireSkillsOutOfRange
    | PracticeHabitsOutOfRange

  /** The names of the `ReportType` constants. */
  const ReportTypes: seq<string> := ["WEEKLY", "MONTHLY", "QUARTERLY", "SEMESTER", "YEARLY", "ASSESSMENT"]

  /** `isValidReportType`: exactly one of the constant names, case and spaces included. */
  function IsValidReportType(t: string): (r: bool)
    ensures r <==> exists i :: 0 <= i < |ReportTypes| && ReportTypes[i] == t
  {
    t in ReportTypes
  }

  predicate InPercentRange(x: real) {
    0.0 <= x <= 100.0
  }

  /** An optional score passes when it is missing or a percentage. */
  predicate OptionalScoreOk(x: Option<real>) {
    x.None? || InPercentRange(x.value)
  }

  /** The student and report type checks pass. */
  predicate TypeOk(p: ProgressReport) {
    p.student.Some? && p.reportType.Some? && IsValidReportType(p.reportType.value)
  }

  predicate PeriodOk(p: ProgressReport) {
    p.reportPeriod.Some? && !IsBlank(p.reportPeriod.value)
  }

  predicate OverallOk(p: ProgressReport) {
    p.overallProgress.Some? && InPercentRange(p.overallProgress.value)
  }

  /** Everything `validate()` demands, as one conjunction. */
  predicate WellFormed(p: ProgressReport) {
    && p.student.Some?
    && p.reportType.Some? && IsValidReportType(p.reportType.value)
    && p.reportPeriod.Some? && !IsBlank(p.reportPeriod.value)
    && p.overallProgress.Some? && InPercentRange(p.overallProgress.value)
    && OptionalScoreOk(p.technicalSkills) && OptionalScoreOk(p.theoryKnowledge)
    && OptionalScoreOk(p.repertoireSkills) && OptionalScoreOk(p.practiceHabits)
  }

  /** `validate()`: the first failing check, in source order, names the error. */
  function Validate(p: ProgressReport): (r: Outcome<ReportError>)
    ensures r == Pass <==> WellFormed(p)
    ensures r == Fail(StudentRequired) <==> p.student.None?
    ensures r == Fail(ReportTypeRequired) <==>
              p.student.Some? && (p.reportType.None? || IsBlank(p.reportType.value))
    ensures r == Fail(InvalidReportType) <==>
              && p.student.Some? && p.reportType.Some? && !IsBlank(p.reportType.value)
              && !IsValidReportType(p.reportType.value)
    ensures r == Fail(ReportPeriodRequired) <==> TypeOk(p) && !PeriodOk(p)
    ensures r == Fail(OverallProgressOutOfRange) <==> TypeOk(p) && PeriodOk(p) && !OverallOk(p)
    ensures r == Fail(TechnicalSkillsOutOfRange) <==>
              TypeOk(p) && PeriodOk(p) && OverallOk(p) && !OptionalScoreOk(p.technicalSkills)
    ensures r == Fail(TheoryKnowledgeOutOfRange) <==>
              && TypeOk(p) && PeriodOk(p) && OverallOk(p) && OptionalScoreOk(p.technicalSkills)
              && !OptionalScoreOk(p.theoryKnowledge)
    ensures r == Fail(RepertoireSkillsOutOfRange) <==>
              && TypeOk(p) && PeriodOk(p) && OverallOk(p) && OptionalScoreOk(p.technicalSkills)
              && OptionalScoreOk(p.theoryKnowledge) && !OptionalScoreOk(p.repertoireSkills)
    ensures r == Fail(PracticeHabitsOutOfRange) <==>
              && TypeOk(p) && PeriodOk(p) && OverallOk(p) && OptionalScoreOk(p.technicalSkills)
              && OptionalScoreOk(p.theoryKnowledge) && OptionalScoreOk(p.repertoireSkills)
              && !OptionalScoreOk(p.practiceHabits)
  {
    ValidTypeNotBlank(p.reportType);
    if p.student.None? then Fail(StudentRequired)
    else if p.reportType.None? || IsBlank(p.reportType.value) then Fail(ReportTypeRequired)
    else if !IsValidReportType(p.reportType.value) then Fail(InvalidReportType)
    else if p.reportPeriod.None? || IsBlank(p.reportPeriod.value) then Fail(ReportPeriodRequired)
    else if p.overallProgress.None? || !InPercentRange(p.overallProgress.value) then Fail(OverallProgressOutOfRange)
    else if !OptionalScoreOk(p.technicalSkills) then Fail(TechnicalSkillsOutOfRange)
    else if !OptionalScoreOk(p.theoryKnowledge) then Fail(TheoryKnowledgeOutOfRange)
    else if !OptionalScoreOk(p.repertoireSkills) then Fail(RepertoireSkillsOutOfRange)
    else if !OptionalScoreOk(p.practiceHabits) then Fail(PracticeHabitsOutOfRange)
    else Pass
  }

  /** Every report type name is non-blank: each starts with a capital letter. */
  lemma ValidTypeNotBlank(t: Option<string>)
    ensures t.Some? && IsValidReportType(t.value) ==> !IsBlank(t.value)
  {
    if t.Some? && IsValidReportType(t.value) {
      assert 'A' <= t.value[0] <= 'Y';
      KeptCharNotBlank(t.value, 0);
    }
  }

  /** The type name is matched before trimming: a padded or lower-case name is
      refused although it is not blank. */
  lemma ReportTypeIsExact()
    ensures !IsValidReportType("weekly") && !IsValidReportType("DAILY") && !IsValidReportType("invalid")
    ensures !IsValidReportType(" WEEKLY") && !IsBlank(" WEEKLY")
    ensures IsValidReportType("ASSESSMENT")
  {
    assert " WEEKLY"[1] == 'W';
    assert !Trimmable(" WEEKLY"[1]);
  }

  // ---------------------------------------------------------------------------
  // Grade and performance level.

  /** `getProgressGrade`. */
  function ProgressGrade(progress: Option<real>): (r: string)
    ensures progress.None? <==> r == "N/A"
    ensures r == "A+" <==> progress.Some? && 95.0 <= progress.value
    ensures r == "A" <==> progress.Some? && 90.0 <= progress.value < 95.0
    ensures r == "B+" <==> progress.Some? && 85.0 <= progress.value < 90.0
    ensures r == "B" <==> progress.Some? && 80.0 <= progress.value < 85.0
    ensures r == "C+" <==> progress.Some? && 75.0 <= progress.value < 80.0
    ensures r == "C" <==> progress.Some? && 70.0 <= progress.value < 75.0
    ensures r == "D" <==> progress.Some? && 60.0 <= progress.value < 70.0
    ensures r == "F" <==> progress.Some? && progress.value < 60.0
  {
    if progress.None? then "N/A"
    else
      var x := progress.value;
      if x >= 95.0 then "A+"
      else if x >= 90.0 then "A"
      else if x >= 85.0 then "B+"
      else if x >= 80.0 then "B"
      else if x >= 75.0 then "C+"
      else if x >= 70.0 then "C"
      else if x >= 60.0 then "D"
      else "F"
  }

  /** `getPerformanceLevel`. */
  function PerformanceLevel(progress: Option<real>): (r: string)
    ensures progress.None? <==> r == "N/A"
    ensures r == "Excellent" <==> progress.Some? && 90.0 <= progress.value
    ensures r == "Good" <==> progress.Some? && 80.0 <= progress.value < 90.0
    ensures r == "Satisfactory" <==> progress.Some? && 70.0 <= progress.value < 80.0
    ensures r == "Needs Improvement" <==> progress.Some? && 60.0 <= progress.value < 70.0
    ensures r == "Poor" <==> progress.Some? && progress.value < 60.0
  {
    if progress.None? then "N/A"
    else
      var x := progress.value;
      if x >= 90.0 then "Excellent"
      else if x >= 80.0 then "Good"
      else if x >= 70.0 then "Satisfactory"
      else if x >= 60.0 then "Needs Improvement"
      else "Poor"
  }

  /** The grades from worst to best; `N/A` ranks below them all. */
  function GradeRank(g: string): (r: int)
    ensures g == "N/A" ==> r == -1
    ensures 0 <= r ==> g in ["F", "D", "C", "C+", "B", "B+", "A", "A+"]
  {
    if g == "F" then 0 else if g == "D" then 1 else if g == "C" then 2
    else if g == "C+" then 3 else if g == "B" then 4 else if g == "B+" then 5
    else if g == "A" then 6 else if g == "A+" then 7 else -1
  }

  /** The level a grade belongs to. */
  function LevelOfGrade(g: string): string {
    if g == "A+" || g == "A" then "Excellent"
    else if g == "B+" || g == "B" then "Good"
    else if g == "C+" || g == "C" then "Satisfactory"
    else if g == "D" then "Needs Improvement"
    else if g == "F" then "Poor"
    else "N/A"
  }

  /** Grade and level always agree. */
  lemma GradeAgreesWithLevel(progress: Option<real>)
    ensures PerformanceLevel(progress) == LevelOfGrade(ProgressGrade(progress))
  {
  }

  /** A higher overall progress never earns a lower grade. */
  lemma GradeMonotone(x: real, y: real)
    requires x <= y
    ensures GradeRank(ProgressGrade(Some(x))) <= GradeRank(ProgressGrade(Some(y)))
  {
  }

  // ---------------------------------------------------------------------------
  // Average of the skill scores.

  /** The four skill scores that are present, in field order. */
  function PresentScores(p: ProgressReport): (r: seq<real>)
    ensures |r| <= 4
  {
    Present(p.technicalSkills) + Present(p.theoryKnowledge)
    + Present(p.repertoireSkills) + Present(p.practiceHabits)
  }

  /** A value is among the present scores exactly when one of the four skill
      fields holds it. */
  lemma PresentScoresExactly(p: ProgressReport, x: real)
    ensures x in PresentScores(p) <==>
              Some(x) in [p.technicalSkills, p.theoryKnowledge, p.repertoireSkills, p.practiceHabits]
  {
  }

  function Present(x: Option<real>): seq<real> {
    if x.Some? then [x.value] else []
  }

  function Sum(xs: seq<real>): real {
    if xs == [] then 0.0 else xs[0] + Sum(xs[1..])
  }

  /** The sum lies between the count times the least and the greatest element. */
  lemma {:induction false} SumBounds(xs: seq<real>, lo: real, hi: real)
    requires forall x :: x in xs ==> lo <= x <= hi
    ensures |xs| as real * lo <= Sum(xs) <= |xs| as real * hi
  {
    if xs != [] {
      assert xs[0] in xs;
      assert forall x :: x in xs[1..] ==> x in xs;
      SumBounds(xs[1..], lo, hi);
      var m := |xs[1..]| as real;
      assert |xs| as real == m + 1.0;
      assert (m + 1.0) * lo == m * lo + lo;
      assert (m + 1.0) * hi == m * hi + hi;
    }
  }

  /** `getAverageScore`: the mean of the present skill scores, 0 when none is. */
  function AverageScore(p: ProgressReport): (r: real)
    ensures PresentScores(p) == [] ==> r == 0.0
    ensures PresentScores(p) != [] ==> r * |PresentScores(p)| as real == Sum(PresentScores(p))
  {
    var xs := PresentScores(p);
    if xs == [] then 0.0 else Mean(xs)
  }

  /** The mean of a non-empty list: its sum over its length. */
  function Mean(xs: seq<real>): (r: real)
    requires xs != []
    ensures r * |xs| as real == Sum(xs)
  {
    DivMul(Sum(xs), |xs| as real);
    Sum(xs) / |xs| as real
  }

  /** Dividing by a non-zero number and multiplying back is the identity. */
  lemma DivMul(x: real, n: real)
    requires n != 0.0
    ensures (x / n) * n == x
  {
  }

  /** The average lies between the smallest and the largest present score. */
  lemma AverageWithinScores(p: ProgressReport, lo: real, hi: real)
    requires PresentScores(p) != []
    requires forall x :: x in PresentScores(p) ==> lo <= x <= hi
    ensures lo <= AverageScore(p) <= hi
  {
    MeanWithin(PresentScores(p), lo, hi);
  }

  /** The mean lies between any lower and upper bound of the elements. */
  lemma MeanWithin(xs: seq<real>, lo: real, hi: real)
    requires xs != []
    requires forall x :: x in xs ==> lo <= x <= hi
    ensures lo <= Mean(xs) <= hi
  {
    var n := |xs| as real;
    SumBounds(xs, lo, hi);
    var a := Mean(xs);
    assert n * lo <= a * n <= n * hi;
    ScaleBack(lo, a, n);
    ScaleBack(a, hi, n);
  }

  /** Multiplying by a positive number keeps the order both ways. */
  lemma ScaleBack(a: real, b: real, n: real)
    requires n > 0.0
    ensures a * n <= b * n ==> a <= b
  {
    if a > b {
      assert (a - b) * n > 0.0;
    }
  }

  /** Scores 90, 75, 80 and 88 average to 83.25; with none present the average is 0. */
  lemma AverageExample(p: ProgressReport)
    ensures AverageScore(p.(technicalSkills := Some(90.0), theoryKnowledge := Some(75.0),
                            repertoireSkills := Some(80.0), practiceHabits := Some(88.0))) == 83.25
    ensures AverageScore(p.(technicalSkills := None, theoryKnowledge := None,
                            repertoireSkills := None, practiceHabits := None)) == 0.0
  {
    var q := p.(technicalSkills := Some(90.0), theoryKnowledge := Some(75.0),
                repertoireSkills := Some(80.0), practiceHabits := Some(88.0));
    assert PresentScores(q) == [90.0, 75.0, 80.0, 88.0];
    assert Sum([88.0]) == 88.0;
    assert Sum([80.0, 88.0]) == 168.0;
    assert Sum([75.0, 80.0, 88.0]) == 243.0;
  }
}
