/** The SIP (systematic investment plan) calculator: a fixed contribution at
    the start of every month, compounded monthly, and its input validator.
    The calculator itself does not call the validator. */
module Sip {
  import opened Numerics
  import opened Validation
  import opened Annuity

  datatype SipInput = SipInput(
    monthlyInvestment: int,
    expectedReturnRate: real,   // percent per year
    timePeriodInYears: int)

  /** The result as the calculator fills it in; its YearlyGrowth property is
      never assigned. */
  datatype SipResult = SipResult(
    inputs: SipInput,
    totalInvested: int,
    maturityAmount: int,
    totalGain: int)

  /** The annual percentage as a monthly fraction. */
  function MonthlyRate(rate: real): real
  {
    rate / 1200.0
  }

  /** Math.Pow(1 + monthly rate, months) is finite, or the zero-rate branch
      does not need it. */
  predicate Defined(rate: real, years: int)
  {
    MonthlyRate(rate) == 0.0 || PowDefined(1.0 + MonthlyRate(rate), years * 12)
  }

  /** What was paid in: the contribution times the number of months. */
  function TotalInvested(monthly: int, years: int): int
  {
    monthly * (years * 12)
  }

  /** The paid-in total at a zero rate, otherwise the annuity-due value cast to
      an integer. */
  function MaturityAmount(monthly: int, rate: real, years: int): int
    requires Defined(rate, years)
  {
    var r := MonthlyRate(rate);
    if r == 0.0 then TotalInvested(monthly, years)
    else Trunc(AnnuityDue(monthly as real, r, years * 12))
  }

  function Compute(input: SipInput): (r: SipResult)
    requires Defined(input.expectedReturnRate, input.timePeriodInYears)
    ensures r.inputs == input
    ensures r.totalInvested == input.monthlyInvestment * input.timePeriodInYears * 12
    ensures r.maturityAmount == MaturityAmount(input.monthlyInvestment, input.expectedReturnRate, input.timePeriodInYears)
    ensures r.maturityAmount == r.totalInvested + r.totalGain
  {
    var totalInvested := TotalInvested(input.monthlyInvestment, input.timePeriodInYears);
    var maturityAmount := MaturityAmount(input.monthlyInvestment, input.expectedReturnRate, input.timePeriodInYears);
    SipResult(input, totalInvested, maturityAmount, maturityAmount - totalInvested)
  }

  /** Both branches agree with the month-by-month balance: deposit the
      contribution, then grow the whole balance by one month's interest. */
  lemma MaturityIsMonthByMonthBalance(monthly: int, rate: real, years: nat)
    ensures Defined(rate, years)
    ensures MaturityAmount(monthly, rate, years) == Trunc(Accumulated(monthly as real, MonthlyRate(rate), years * 12))
  {
    var r := MonthlyRate(rate);
    if r == 0.0 {
      AccumulatedWithoutGrowth(monthly as real, years * 12);
      assert monthly as real * (years * 12) as real == (monthly * (years * 12)) as real;
      TruncOfInt(monthly * (years * 12));
    } else {
      AnnuityDueIsAccumulated(monthly as real, r, years * 12);
    }
  }

  /** A zero rate returns exactly what was paid in. */
  lemma ZeroRateGainsNothing(input: SipInput)
    requires input.expectedReturnRate == 0.0
    ensures Compute(input).maturityAmount == Compute(input).totalInvested
    ensures Compute(input).totalGain == 0
  {
  }

  /** A positive rate never returns less than was paid in. */
  lemma PositiveRateKeepsContributions(monthly: int, rate: real, years: nat)
    requires monthly >= 0 && rate > 0.0
    ensures MaturityAmount(monthly, rate, years) >= TotalInvested(monthly, years)
  {
    var r, n := MonthlyRate(rate), years * 12;
    AnnuityDueAtLeastContributions(monthly as real, r, n);
    assert monthly as real * n as real == (monthly * n) as real;
    TruncAtLeast(AnnuityDue(monthly as real, r, n), monthly * n);
  }

  /** A zero period invests nothing and matures to nothing. */
  lemma ZeroYears(monthly: int, rate: real)
    ensures Defined(rate, 0)
    ensures Compute(SipInput(monthly, rate, 0)) == SipResult(SipInput(monthly, rate, 0), 0, 0, 0)
  {
    if MonthlyRate(rate) != 0.0 {
      assert AnnuityDue(monthly as real, MonthlyRate(rate), 0) == 0.0;
    }
  }

  // ---------------------------------------------------------------------------
  // Validator

  const MonthlyMessage := "Monthly investment must be between 500 and 10000000."
  const RateMessage := "Expected return rate must be between 1 and 100."
  const YearsMessage := "Time period in years must be between 1 and 50."

  predicate MonthlyOk(input: SipInput) { InclusiveBetween(input.monthlyInvestment as real, 500.0, 10000000.0) }
  predicate RateOk(input: SipInput) { InclusiveBetween(input.expectedReturnRate, 1.0, 100.0) }
  predicate YearsOk(input: SipInput) { InclusiveBetween(input.timePeriodInYears as real, 1.0, 50.0) }

  /** The declared rules, in declaration order. */
  function Rules(input: SipInput): seq<Check>
  {
    [Check(MonthlyOk(input), "MonthlyInvestment", MonthlyMessage),
     Check(RateOk(input), "ExpectedReturnRate", RateMessage),
     Check(YearsOk(input), "TimePeriodInYears", YearsMessage)]
  }

  /** Every failed rule, in rule order. */
  function Validate(input: SipInput): (vs: seq<Violation>)
    ensures vs == Failed(Rules(input))
    ensures vs == [] <==> MonthlyOk(input) && RateOk(input) && YearsOk(input)
    ensures Reports(vs, "MonthlyInvestment", MonthlyMessage, !MonthlyOk(input))
    ensures Reports(vs, "ExpectedReturnRate", RateMessage, !RateOk(input))
    ensures Reports(vs, "TimePeriodInYears", YearsMessage, !YearsOk(input))
    ensures |vs| == Failures(MonthlyOk(input)) + Failures(RateOk(input)) + Failures(YearsOk(input))
  {
    FailedOfThree(Rules(input));
    Rule(MonthlyOk(input), "MonthlyInvestment", MonthlyMessage)
    + Rule(RateOk(input), "ExpectedReturnRate", RateMessage)
    + Rule(YearsOk(input), "TimePeriodInYears", YearsMessage)
  }

  /** Accepted input never reaches the zero-rate branch, and never loses
      money. */
  lemma AcceptedInputGrows(input: SipInput)
    requires Validate(input) == []
    ensures MonthlyRate(input.expectedReturnRate) != 0.0
    ensures Defined(input.expectedReturnRate, input.timePeriodInYears)
    ensures Compute(input).totalGain >= 0
  {
    PositiveRateKeepsContributions(input.monthlyInvestment, input.expectedReturnRate, input.timePeriodInYears);
  }

  /** 51 years is one year too many. */
  lemma FiftyOneYearsRejected(monthly: int, rate: real)
    ensures Violation("TimePeriodInYears", YearsMessage) in Validate(SipInput(monthly, rate, 51))
  {
  }
}
