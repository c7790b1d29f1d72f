/** The Monthly Income Scheme calculator: quarterly compounding for a fixed
    period of 5 years. It runs the injected validator first and fails with
    its violations instead of computing. */
module Mis {
  import opened Numerics
  import opened Validation
  import CompoundInterest

  /** The period is a read-only property fixed at 5 years. */
  datatype MisInput = MisInput(investedAmount: int, annualInterestRate: real)
  {
    const timePeriodInYears: int := 5
  }

  /** The result as the calculator fills it in; its MonthlyIncome property is
      never assigned. */
  datatype MisResult = MisResult(
    inputs: MisInput,
    totalGain: int,
    finalAmount: int)

  /** The double invested * (1 + rate / 100 / 4)^(4 * years), before the cast. */
  function Grown(invested: int, rate: real, years: int): real
    requires PowDefined(1.0 + rate / 100.0 / 4.0, 4 * years)
  {
    invested as real * IPow(1.0 + rate / 100.0 / 4.0, 4 * years)
  }

  function FinalAmount(input: MisInput): int
  {
    Trunc(Grown(input.investedAmount, input.annualInterestRate, input.timePeriodInYears))
  }

  /** Compute with the validator the calculator was constructed with. */
  function Compute(validator: MisInput -> seq<Violation>, input: MisInput): (outcome: Outcome<MisResult>)
    ensures outcome.Err? <==> validator(input) != []
    ensures outcome.Err? ==> outcome.failure == ValidationFailed(validator(input))
    ensures outcome.Ok? ==>
      && outcome.value.inputs == input
      && outcome.value.finalAmount == FinalAmount(input)
      && outcome.value.finalAmount == input.investedAmount + outcome.value.totalGain
  {
    var violations := validator(input);
    if violations != [] then
      Err(ValidationFailed(violations))
    else
      var finalAmount := FinalAmount(input);
      Ok(MisResult(input, finalAmount - input.investedAmount, finalAmount))
  }

  /** The final amount is the compound-interest total with four compoundings
      a year over the scheme's 5 years. */
  lemma IsQuarterlyCompound(input: MisInput)
    ensures CompoundInterest.Defined(input.annualInterestRate, 5, 4)
    ensures FinalAmount(input) == CompoundInterest.TotalAmount(input.investedAmount, input.annualInterestRate, 5, 4)
  {
    assert 4 as real == 4.0;
    assert 5 * 4 == 4 * 5;
  }

  // ---------------------------------------------------------------------------
  // Validator

  const InvestedMessage := "Invested amount must be between 10000 and 100000000."
  const RateMessage := "Annual interest rate must be between 1 and 100."
  const PeriodMessage := "Time period in years must be 5."

  predicate InvestedOk(input: MisInput) { InclusiveBetween(input.investedAmount as real, 10000.0, 100000000.0) }
  predicate RateOk(input: MisInput) { InclusiveBetween(input.annualInterestRate, 1.0, 100.0) }
  predicate PeriodOk(input: MisInput) { input.timePeriodInYears == 5 }

  /** The declared rules, in declaration order. */
  function Rules(input: MisInput): seq<Check>
  {
    [Check(InvestedOk(input), "InvestedAmount", InvestedMessage),
     Check(RateOk(input), "AnnualInterestRate", RateMessage),
     Check(PeriodOk(input), "TimePeriodInYears", PeriodMessage)]
  }

  /** Every failed rule, in rule order. */
  function Validate(input: MisInput): (vs: seq<Violation>)
    ensures vs == Failed(Rules(input))
    ensures vs == [] <==> InvestedOk(input) && RateOk(input) && PeriodOk(input)
    ensures Reports(vs, "InvestedAmount", InvestedMessage, !InvestedOk(input))
    ensures Reports(vs, "AnnualInterestRate", RateMessage, !RateOk(input))
    ensures Reports(vs, "TimePeriodInYears", PeriodMessage, !PeriodOk(input))
    ensures |vs| == Failures(InvestedOk(input)) + Failures(RateOk(input)) + Failures(PeriodOk(input))
  {
    FailedOfThree(Rules(input));
    Rule(InvestedOk(input), "InvestedAmount", InvestedMessage)
    + Rule(RateOk(input), "AnnualInterestRate", RateMessage)
    + Rule(PeriodOk(input), "TimePeriodInYears", PeriodMessage)
  }

  /** The period is fixed at 5, so its equality rule never fires. */
  lemma PeriodRuleNeverFires(input: MisInput)
    ensures Violation("TimePeriodInYears", PeriodMessage) !in Validate(input)
    ensures |Validate(input)| <= 2
  {
  }

  /** Accepted input gains at least 500: the factor is at least
      1 + 20 * rate / 400 >= 1.05 and the investment at least 10000. */
  lemma AcceptedInputGains(input: MisInput)
    requires Validate(input) == []
    ensures Compute(Validate, input).Ok?
    ensures Compute(Validate, input).value.totalGain >= 500
  {
    var p, rate := input.investedAmount, input.annualInterestRate;
    var x := rate / 100.0 / 4.0;
    assert (p + 500) as real <= p as real * 1.05;
    assert Grown(p, rate, 5) == p as real * Pow(1.0 + x, 20);
    assert 1.05 <= Pow(1.0 + x, 20) by {
      Bernoulli(x, 20);
    }
    MultiplyMonotone(p as real, 1.05, Pow(1.0 + x, 20));
    TruncAtLeast(Grown(p, rate, 5), p + 500);
  }
}
