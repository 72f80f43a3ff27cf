/** `Pricing`: a teacher's hourly rate and lesson length. The rate is a
    `BigDecimal` column of scale 2, modelled exactly as a whole number of cents. */
module PricingEntity {
  import opened Wrappers

  datatype Pricing = Pricing(
    hourlyRateCents: Option<int>,
    lessonDuration: Option<int>,   // minutes
    paymentTerms: Option<string>)

  datatype PricingError = RateNotPositive | DurationNotPositive

  const DefaultLessonDuration: int := 60
  const DefaultPaymentTerms: string := "Per lesson"

  /** The no-argument constructor: a one-hour lesson paid per lesson, no rate yet. */
  function DefaultPricing(): (p: Pricing)
    ensures p.hourlyRateCents.None?
    ensures p.lessonDuration == Some(60) && p.paymentTerms == Some("Per lesson")
  {
    Pricing(None, Some(DefaultLessonDuration), Some(DefaultPaymentTerms))
  }

  predicate RateIsPositive(p: Pricing) {
    p.hourlyRateCents.Some? && p.hourlyRateCents.value > 0
  }

  predicate DurationIsPositive(p: Pricing) {
    p.lessonDuration.Some? && p.lessonDuration.value > 0
  }

  /** `validate()`: the rate is checked before the duration. */
  function Validate(p: Pricing): (r: Outcome<PricingError>)
    ensures r == Pass <==> RateIsPositive(p) && DurationIsPositive(p)
    ensures r == Fail(RateNotPositive) <==> !RateIsPositive(p)
    ensures r == Fail(DurationNotPositive) <==> RateIsPositive(p) && !DurationIsPositive(p)
  {
    if !RateIsPositive(p) then Fail(RateNotPositive)
    else if !DurationIsPositive(p) then Fail(DurationNotPositive)
    else Pass
  }

  /** `calculateLessonCost()`: `rate * duration / 60` rounded half-up to whole
      cents. The result `c` is the unique number of cents whose distance from the
      exact cost is below half a cent, a tie of exactly half a cent going up. */
  function CalculateLessonCost(p: Pricing): (r: Result<int, PricingError>)
    ensures r.Failure? <==> Validate(p).Fail?
    ensures r.Failure? ==> r.error == Validate(p).error
    ensures r.Success? ==>
              var exact := p.hourlyRateCents.value * p.lessonDuration.value;
              60 * r.value - 30 <= exact < 60 * r.value + 30
  {
    match Validate(p)
    case Fail(e) => Failure(e)
    case Pass => Success(HalfUpCents(p.hourlyRateCents.value, p.lessonDuration.value))
  }

  /** The cost in cents of `minutes` at `rateCents` per hour, rounded half-up. */
  function HalfUpCents(rateCents: int, minutes: int): int
    requires rateCents > 0 && minutes > 0
  {
    (rateCents * minutes + 30) / 60
  }

  /** A one-hour lesson costs exactly the hourly rate. */
  lemma OneHourCostsTheRate(rateCents: int)
    requires rateCents > 0
    ensures CalculateLessonCost(Pricing(Some(rateCents), Some(60), None)) == Success(rateCents)
  {
    assert (rateCents * 60 + 30) / 60 == rateCents;
  }

  /** For a fixed rate, a longer lesson never costs less. */
  lemma {:induction false} CostMonotoneInDuration(rateCents: int, d1: int, d2: int)
    requires rateCents > 0 && 0 < d1 <= d2
    ensures HalfUpCents(rateCents, d1) <= HalfUpCents(rateCents, d2)
  {
    assert rateCents * d1 <= rateCents * d2;
  }

  /** A rate of 12.34 for a 45-minute lesson costs 9.255, which rounds up to 9.26. */
  lemma HalfCentTieRoundsUp()
    ensures CalculateLessonCost(Pricing(Some(1234), Some(45), None)) == Success(926)
  {
  }
}
