/** `Student`: the validator, the e-mail pattern and the pricing check. */
module StudentEntity {
  import opened Wrappers
  import opened JavaStrings
  import PricingEntity

  datatype Student = Student(
    id: Option<int>,
    name: Option<string>,
    age: Option<int>,
    grade: Option<string>,
    email: Option<string>,
    phone: Option<string>,
    notes: Option<string>,
    pricing: Option<PricingEntity.Pricing>)

  datatype StudentError = NameRequired | AgeOutOfRange | EmailInvalid

  const MinAge: int := 5
  const MaxAge: int := 100

  /** `a.equals(b)` for a non-null `b`; `sameReference` is `a == b` as
      references, which only one object can satisfy. */
  function StudentEquals(a: Student, b: Student, sameReference: bool): (r: bool)
    requires sameReference ==> a == b
    ensures sameReference ==> r
    ensures !sameReference ==> (r <==> a.id.Some? && b.id.Some? && a.id.value == b.id.value)
    ensures a.id.Some? && b.id.Some? ==> (r <==> a.id == b.id)
  {
    if sameReference then true
    else if a.id.Some? && b.id.Some? then a.id.value == b.id.value
    else false
  }

  /** A character of the class `[A-Za-z0-9+_.-]`. */
  predicate LocalPartChar(c: char) {
    ('A' <= c <= 'Z') || ('a' <= c <= 'z') || ('0' <= c <= '9')
    || c == '+' || c == '_' || c == '.' || c == '-'
  }

  /** A character Java's `.` does not match: a line terminator. */
  predicate LineTerminator(c: char) {
    c == '\n' || c == '\r' || c == '\U{0085}' || c == '\U{2028}' || c == '\U{2029}'
  }

  /** A full match of `^[A-Za-z0-9+_.-]+@(.+)$`, as the regular expression reads:
      some split into a non-empty local part, an '@' and a non-empty rest. */
  ghost predicate MatchesEmailPattern(s: string) {
    exists k :: 0 < k < |s| - 1 && s[k] == '@'
                && (forall i :: 0 <= i < k ==> LocalPartChar(s[i]))
                && (forall i :: k < i < |s| ==> !LineTerminator(s[i]))
  }

  /** Index of the first character of `s` at or after `from` that is not in the
      local-part class, or `|s|` when there is none. */
  function LocalPartEnd(s: string, from: nat): (k: nat)
    requires from <= |s|
    decreases |s| - from
    ensures from <= k <= |s|
    ensures forall i :: from <= i < k ==> LocalPartChar(s[i])
    ensures k < |s| ==> !LocalPartChar(s[k])
  {
    if from == |s| || !LocalPartChar(s[from]) then from else LocalPartEnd(s, from + 1)
  }

  /** `isValidEmail`: scans the local part, then expects '@' and a non-empty rest
      without line terminators. The first character outside the class must be the
      '@', because '@' is itself outside the class. */
  function IsValidEmail(s: string): (r: bool)
    ensures r <==> MatchesEmailPattern(s)
  {
    ScanFindsTheSplit(s);
    var k := LocalPartEnd(s, 0);
    0 < k < |s| - 1 && s[k] == '@' && forall i :: k < i < |s| ==> !LineTerminator(s[i])
  }

  /** Any split the pattern can use sits where the local-part scan stops. */
  lemma ScanFindsTheSplit(s: string)
    ensures var k := LocalPartEnd(s, 0);
            MatchesEmailPattern(s) <==>
              0 < k < |s| - 1 && s[k] == '@' && forall i :: k < i < |s| ==> !LineTerminator(s[i])
  {
    var k := LocalPartEnd(s, 0);
    if MatchesEmailPattern(s) {
      var k' :| 0 < k' < |s| - 1 && s[k'] == '@'
                 && (forall i :: 0 <= i < k' ==> LocalPartChar(s[i]))
                 && (forall i :: k' < i < |s| ==> !LineTerminator(s[i]));
      assert !LocalPartChar(s[k']);
      assert k == k';
    }
  }

  /** `validate()`: name, then age, then the optional e-mail. A blank e-mail
      counts as absent; a present one is matched untrimmed. The 2..100 bound on
      the name is only an annotation and is not checked here. */
  function Validate(s: Student): (r: Outcome<StudentError>)
    ensures r == Fail(NameRequired) <==> s.name.None? || IsBlank(s.name.value)
    ensures r == Fail(AgeOutOfRange) <==>
              s.name.Some? && !IsBlank(s.name.value)
              && (s.age.None? || s.age.value < MinAge || s.age.value > MaxAge)
    ensures r == Pass <==>
              && s.name.Some? && !IsBlank(s.name.value)
              && s.age.Some? && MinAge <= s.age.value <= MaxAge
              && (s.email.None? || IsBlank(s.email.value) || MatchesEmailPattern(s.email.value))
  {
    if s.name.None? || IsBlank(s.name.value) then Fail(NameRequired)
    else if s.age.None? || s.age.value < MinAge || s.age.value > MaxAge then Fail(AgeOutOfRange)
    else if s.email.Some? && !IsBlank(s.email.value) && !IsValidEmail(s.email.value) then Fail(EmailInvalid)
    else Pass
  }

  /** `hasValidPricing()`: a pricing with a positive rate is attached. */
  function HasValidPricing(s: Student): (r: bool)
    ensures r <==> s.pricing.Some? && PricingEntity.RateIsPositive(s.pricing.value)
    ensures r ==> PricingEntity.Validate(s.pricing.value) != Fail(PricingEntity.RateNotPositive)
  {
    s.pricing.Some? && s.pricing.value.hourlyRateCents.Some? && s.pricing.value.hourlyRateCents.value > 0
  }

  /** "invalid-email" has no '@' and is rejected; "a.b@c" is accepted. */
  lemma EmailExamples()
    ensures !IsValidEmail("invalid-email")
    ensures IsValidEmail("a.b@c")
    ensures !IsValidEmail("@c") && !IsValidEmail("a@")
  {
    var bad := "invalid-email";
    assert forall i :: 0 <= i < |bad| ==> bad[i] != '@';
    assert LocalPartEnd("a.b@c", 3) == 3;
    assert LocalPartEnd("@c", 0) == 0;
  }

  /** A one-character name passes although the annotation asks for at least two. */
  lemma ShortNameAccepted()
    ensures Validate(Student(None, Some("A"), Some(5), None, None, None, None, None)) == Pass
  {
    BlankIffAllTrimmable("A");
  }

  /** The age bounds are inclusive: 5 and 100 pass, -1 and 101 fail. */
  lemma AgeBoundaries(s: Student)
    requires s.name == Some("Ann") && s.email.None?
    ensures s.age == Some(5) || s.age == Some(100) ==> Validate(s) == Pass
    ensures s.age == Some(-1) || s.age == Some(101) ==> Validate(s) == Fail(AgeOutOfRange)
  {
    BlankIffAllTrimmable("Ann");
    assert "Ann"[0] > ' ';
    assert !IsBlank(s.name.value);
  }
}
