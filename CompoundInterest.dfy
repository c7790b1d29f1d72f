/** The compound-interest calculator (f compoundings a year) and its input
    validator. The calculator itself does not call the validator. */
module CompoundInterest {
  import opened Numerics
  import opened Validation
  import SimpleInterest
  import Lumpsum

  datatype CompoundInterestInput = CompoundInterestInput(
    principalAmount: int,
    rateOfInterest: real,   // percent per year
    timePeriodInYears: int,
    compoundingFrequencyPerYear: int)

  datatype CompoundInterestResult = CompoundInterestResult(
    inputs: CompoundInterestInput,
    totalInterestEarned: int,
    totalAmount: int)

  /** Math.Pow(1 + rate / 100 / f, years * f) is finite. A frequency of 0
      makes the exponent 0, and Math.Pow of anything to the power 0 is 1, so
      that case is always finite. */
  predicate Defined(rate: real, years: int, f: int)
  {
    f == 0 || PowDefined(1.0 + rate / 100.0 / f as real, years * f)
  }

  /** The growth factor (1 + rate / 100 / f)^(years * f). */
  function Factor(rate: real, years: int, f: int): real
    requires Defined(rate, years, f)
  {
    if f == 0 then 1.0 else IPow(1.0 + rate / 100.0 / f as real, years * f)
  }

  /** The double principal * factor, before the cast. */
  function Grown(principal: int, rate: real, years: int, f: int): real
    requires Defined(rate, years, f)
  {
    principal as real * Factor(rate, years, f)
  }

  /** The total: the grown amount cast to an integer. */
  function TotalAmount(principal: int, rate: real, years: int, f: int): (total: int)
    requires Defined(rate, years, f)
    ensures years == 0 ==> total == principal
    ensures f == 0 ==> total == principal
  {
    Trunc(Grown(principal, rate, years, f))
  }

  function Compute(input: CompoundInterestInput): (r: CompoundInterestResult)
    requires Defined(input.rateOfInterest, input.timePeriodInYears, input.compoundingFrequencyPerYear)
    ensures r.inputs == input
    ensures r.totalAmount == TotalAmount(input.principalAmount, input.rateOfInterest,
                                         input.timePeriodInYears, input.compoundingFrequencyPerYear)
    ensures r.totalAmount == input.principalAmount + r.totalInterestEarned
  {
    var total := TotalAmount(input.principalAmount, input.rateOfInterest,
                             input.timePeriodInYears, input.compoundingFrequencyPerYear);
    CompoundInterestResult(input, total - input.principalAmount, total)
  }

  /** A zero period earns no interest, whatever the frequency. */
  lemma ZeroYears(principal: int, rate: real, f: int)
    requires Defined(rate, 0, f)
    ensures Compute(CompoundInterestInput(principal, rate, 0, f)).totalInterestEarned == 0
  {
  }

  /** Compounding at least once a year at a non-negative rate never earns less
      than simple interest on the same terms: by Bernoulli's inequality,
      (1 + x / f)^(years * f) >= 1 + x * years. */
  lemma AtLeastSimpleInterest(principal: int, rate: real, years: nat, f: int)
    requires principal >= 0 && rate >= 0.0 && f >= 1
    ensures TotalAmount(principal, rate, years, f) >= SimpleInterest.TotalAmount(principal, rate, years)
  {
    var x := rate / 100.0 / f as real;
    var simple := 1.0 + rate / 100.0 * years as real;
    assert Grown(principal, rate, years, f) == principal as real * Pow(1.0 + x, years * f);
    assert simple <= Pow(1.0 + x, years * f) by {
      Bernoulli(x, years * f);
      SpreadRate(rate / 100.0, f, years);
    }
    MultiplyMonotone(principal as real, simple, Pow(1.0 + x, years * f));
    TruncMonotone(SimpleInterest.Grown(principal, rate, years), Grown(principal, rate, years, f));
  }

  /** f periods a year at a rate of a / f each add up to a a year. */
  lemma SpreadRate(a: real, f: int, years: nat)
    requires f >= 1
    ensures (years * f) as real * (a / f as real) == a * years as real
  {
    assert (years * f) as real == years as real * f as real;
    assert f as real * (a / f as real) == a;
  }

  /** Compounding once a year is the lumpsum calculation. */
  lemma AnnualIsLumpsum(principal: int, rate: real, years: int)
    requires Defined(rate, years, 1)
    ensures Lumpsum.Defined(Lumpsum.LumpsumInput(principal, rate, years))
    ensures TotalAmount(principal, rate, years, 1) == Lumpsum.MaturityAmount(principal, rate, years)
  {
    assert rate / 100.0 / 1 as real == rate / 100.0;
    assert years * 1 == years;
  }

  // ---------------------------------------------------------------------------
  // Validator

  const PrincipalMessage := "Principal amount must be between 10000 and 100000000."
  const RateMessage := "Rate of interest must be between 1 and 100."
  const YearsMessage := "Time period in years must be between 1 and 100."
  const FrequencyMessage := "Compounding frequency must be between 1 and 365."

  predicate PrincipalOk(input: CompoundInterestInput) { InclusiveBetween(input.principalAmount as real, 10000.0, 100000000.0) }
  predicate RateOk(input: CompoundInterestInput) { InclusiveBetween(input.rateOfInterest, 1.0, 100.0) }
  predicate YearsOk(input: CompoundInterestInput) { InclusiveBetween(input.timePeriodInYears as real, 1.0, 100.0) }
  predicate FrequencyOk(input: CompoundInterestInput) { InclusiveBetween(input.compoundingFrequencyPerYear as real, 1.0, 365.0) }

  /** The declared rules, in declaration order. */
  function Rules(input: CompoundInterestInput): seq<Check>
  {
    [Check(PrincipalOk(input), "PrincipalAmount", PrincipalMessage),
     Check(RateOk(input), "RateOfInterest", RateMessage),
     Check(YearsOk(input), "TimePeriodInYears", YearsMessage),
     Check(FrequencyOk(input), "CompoundingFrequencyPerYear", FrequencyMessage)]
  }

  /** Every failed rule, in rule order. */
  function Validate(input: CompoundInterestInput): (vs: seq<Violation>)
    ensures vs == Failed(Rules(input))
    ensures vs == [] <==> PrincipalOk(input) && RateOk(input) && YearsOk(input) && FrequencyOk(input)
    ensures Reports(vs, "PrincipalAmount", PrincipalMessage, !PrincipalOk(input))
    ensures Reports(vs, "RateOfInterest", RateMessage, !RateOk(input))
    ensures Reports(vs, "TimePeriodInYears", YearsMessage, !YearsOk(input))
    ensures Reports(vs, "CompoundingFrequencyPerYear", FrequencyMessage, !FrequencyOk(input))
    ensures |vs| == Failures(PrincipalOk(input)) + Failures(RateOk(input)) + Failures(YearsOk(input)) + Failures(FrequencyOk(input))
  {
    FailedOfFour(Rules(input));
    Rule(PrincipalOk(input), "PrincipalAmount", PrincipalMessage)
    + Rule(RateOk(input), "RateOfInterest", RateMessage)
    + Rule(YearsOk(input), "TimePeriodInYears", YearsMessage)
    + Rule(FrequencyOk(input), "CompoundingFrequencyPerYear", FrequencyMessage)
  }

  /** Accepted input is computable and always earns interest. */
  lemma AcceptedInputEarnsInterest(input: CompoundInterestInput)
    requires Validate(input) == []
    ensures Defined(input.rateOfInterest, input.timePeriodInYears, input.compoundingFrequencyPerYear)
    ensures Compute(input).totalInterestEarned > 0
  {
    assert PrincipalOk(input) && RateOk(input) && YearsOk(input) && FrequencyOk(input);
    EarnsInterest(input.principalAmount, input.rateOfInterest, input.timePeriodInYears, input.compoundingFrequencyPerYear);
  }

  /** At least 10000 at a rate of at least 1% for at least a year, compounded
      at least once a year, is computable and earns interest: the factor is
      at least 1 + rate / 100 >= 1.01, which on 10000 or more is worth more
      than one unit. */
  lemma EarnsInterest(p: int, rate: real, years: int, f: int)
    requires p >= 10000 && rate >= 1.0 && years >= 1 && f >= 1
    ensures Defined(rate, years, f)
    ensures TotalAmount(p, rate, years, f) > p
  {
    assert years * f >= 0 by {
      MultiplyMonotone(years as real, 0.0, f as real);
      assert (years * f) as real == years as real * f as real;
    }
    var x := rate / 100.0 / f as real;
    assert Grown(p, rate, years, f) == p as real * Pow(1.0 + x, years * f);
    assert 1.01 <= Pow(1.0 + x, years * f) by {
      Bernoulli(x, years * f);
      SpreadRate(rate / 100.0, f, years);
      MultiplyMonotone(rate / 100.0, 1.0, years as real);
    }
    MultiplyMonotone(p as real, 1.01, Pow(1.0 + x, years * f));
    assert (p + 1) as real <= p as real * 1.01;
    TruncAtLeast(Grown(p, rate, years, f), p + 1);
  }

  /** A positive rate alone does not guarantee interest: 10000 at 0.001% for
      one year compounded once grows to 10000.1, which truncates back to the
      principal. The validator's minimum rate of 1% is what rules this out. */
  lemma TinyRateEarnsNothing()
    ensures Compute(CompoundInterestInput(10000, 0.001, 1, 1)).totalInterestEarned == 0
  {
    assert Pow(1.00001, 1) == 1.00001;
    assert Factor(0.001, 1, 1) == 1.00001;
    assert Grown(10000, 0.001, 1, 1) == 10000.1;
  }
}
