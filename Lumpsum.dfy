/** The lumpsum calculator (annual compounding of a one-time investment) and
    its input validator. The calculator itself does not call the validator. */
module Lumpsum {
  import opened Numerics
  import opened Validation

  datatype LumpsumInput = LumpsumInput(
    principalAmount: int,
    rateOfInterest: real,   // percent per year
    timePeriodInYears: int)

  datatype LumpsumResult = LumpsumResult(
    inputs: LumpsumInput,
    totalGain: int,
    maturityAmount: int)

  /** Math.Pow(1 + rate / 100, years) is finite. */
  predicate Defined(input: LumpsumInput)
  {
    PowDefined(1.0 + input.rateOfInterest / 100.0, input.timePeriodInYears)
  }

  /** The double principal * (1 + rate / 100)^years, before the cast. */
  function Grown(principal: int, rate: real, years: int): real
    requires PowDefined(1.0 + rate / 100.0, years)
  {
    principal as real * IPow(1.0 + rate / 100.0, years)
  }

  /** The maturity: the grown amount cast to an integer. */
  function MaturityAmount(principal: int, rate: real, years: int): (m: int)
    requires PowDefined(1.0 + rate / 100.0, years)
    ensures years == 0 ==> m == principal
  {
    Trunc(Grown(principal, rate, years))
  }

  function Compute(input: LumpsumInput): (r: LumpsumResult)
    requires Defined(input)
    ensures r.inputs == input
    ensures r.maturityAmount == MaturityAmount(input.principalAmount, input.rateOfInterest, input.timePeriodInYears)
    ensures r.maturityAmount == input.principalAmount + r.totalGain
  {
    var maturityAmount := MaturityAmount(input.principalAmount, input.rateOfInterest, input.timePeriodInYears);
    LumpsumResult(input, maturityAmount - input.principalAmount, maturityAmount)
  }

  /** A non-negative rate never loses money. */
  lemma GainNonNegative(principal: int, rate: real, years: nat)
    requires principal >= 0 && rate >= 0.0
    ensures MaturityAmount(principal, rate, years) >= principal
  {
    PowAtLeastOne(1.0 + rate / 100.0, years);
    MultiplyMonotone(principal as real, 1.0, Pow(1.0 + rate / 100.0, years));
    TruncAtLeast(Grown(principal, rate, years), principal);
  }

  /** With a non-negative rate, a longer period never lowers the maturity. */
  lemma MonotoneInYears(principal: int, rate: real, a: nat, b: nat)
    requires principal >= 0 && rate >= 0.0 && a <= b
    ensures MaturityAmount(principal, rate, a) <= MaturityAmount(principal, rate, b)
  {
    var base := 1.0 + rate / 100.0;
    assert Grown(principal, rate, a) <= Grown(principal, rate, b) by {
      PowMonotoneExponent(base, a, b);
      MultiplyMonotone(principal as real, Pow(base, a), Pow(base, b));
    }
    TruncMonotone(Grown(principal, rate, a), Grown(principal, rate, b));
  }

  /** A higher rate never lowers the maturity (rates not below -100%). */
  lemma MonotoneInRate(principal: int, r1: real, r2: real, years: nat)
    requires principal >= 0 && -100.0 <= r1 <= r2
    ensures MaturityAmount(principal, r1, years) <= MaturityAmount(principal, r2, years)
  {
    assert Grown(principal, r1, years) <= Grown(principal, r2, years) by {
      var x, y := 1.0 + r1 / 100.0, 1.0 + r2 / 100.0;
      assert 0.0 <= x <= y;
      PowMonotoneBase(x, y, years);
      MultiplyMonotone(principal as real, Pow(x, years), Pow(y, years));
    }
    TruncMonotone(Grown(principal, r1, years), Grown(principal, r2, years));
  }

  /** A larger principal never lowers the maturity (rates not below -100%). */
  lemma MonotoneInPrincipal(p1: int, p2: int, rate: real, years: nat)
    requires p1 <= p2 && -100.0 <= rate
    ensures MaturityAmount(p1, rate, years) <= MaturityAmount(p2, rate, years)
  {
    var base := 1.0 + rate / 100.0;
    assert Grown(p1, rate, years) <= Grown(p2, rate, years) by {
      assert 0.0 <= base;
      PowNonNegative(base, years);
      MultiplyMonotone(Pow(base, years), p1 as real, p2 as real);
      assert Grown(p1, rate, years) == Pow(base, years) * p1 as real;
      assert Grown(p2, rate, years) == Pow(base, years) * p2 as real;
    }
    TruncMonotone(Grown(p1, rate, years), Grown(p2, rate, years));
  }

  // ---------------------------------------------------------------------------
  // Validator

  const PrincipalMessage := "Principal amount must be between 10000 and 100000000."
  const RateMessage := "Rate of interest must be between 1 and 100."
  const YearsMessage := "Time period in years must be between 1 and 100."

  predicate PrincipalOk(input: LumpsumInput) { InclusiveBetween(input.principalAmount as real, 10000.0, 100000000.0) }
  predicate RateOk(input: LumpsumInput) { InclusiveBetween(input.rateOfInterest, 1.0, 100.0) }
  predicate YearsOk(input: LumpsumInput) { InclusiveBetween(input.timePeriodInYears as real, 1.0, 100.0) }

  /** The declared rules, in declaration order. */
  function Rules(input: LumpsumInput): seq<Check>
  {
    [Check(PrincipalOk(input), "PrincipalAmount", PrincipalMessage),
     Check(RateOk(input), "RateOfInterest", RateMessage),
     Check(YearsOk(input), "TimePeriodInYears", YearsMessage)]
  }

  /** Every failed rule, in rule order. */
  function Validate(input: LumpsumInput): (vs: seq<Violation>)
    ensures vs == Failed(Rules(input))
    ensures vs == [] <==> PrincipalOk(input) && RateOk(input) && YearsOk(input)
    ensures Reports(vs, "PrincipalAmount", PrincipalMessage, !PrincipalOk(input))
    ensures Reports(vs, "RateOfInterest", RateMessage, !RateOk(input))
    ensures Reports(vs, "TimePeriodInYears", YearsMessage, !YearsOk(input))
    ensures |vs| == Failures(PrincipalOk(input)) + Failures(RateOk(input)) + Failures(YearsOk(input))
  {
    FailedOfThree(Rules(input));
    Rule(PrincipalOk(input), "PrincipalAmount", PrincipalMessage)
    + Rule(RateOk(input), "RateOfInterest", RateMessage)
    + Rule(YearsOk(input), "TimePeriodInYears", YearsMessage)
  }

  /** Accepted input is computable and always ends above the principal. */
  lemma AcceptedInputGains(input: LumpsumInput)
    requires Validate(input) == []
    ensures Defined(input)
    ensures Compute(input).totalGain > 0
  {
    assert PrincipalOk(input) && RateOk(input) && YearsOk(input);
    Gains(input.principalAmount, input.rateOfInterest, input.timePeriodInYears);
  }

  /** At least 10000 at a rate of at least 1% for at least a year matures
      strictly above the principal. */
  lemma Gains(p: int, rate: real, n: int)
    requires p >= 10000 && rate >= 1.0 && n >= 1
    ensures PowDefined(1.0 + rate / 100.0, n)
    ensures MaturityAmount(p, rate, n) > p
  {
    var base, x := 1.0 + rate / 100.0, rate / 100.0;
    assert x * 1.0 <= x * n as real by {
      MultiplyMonotone(x, 1.0, n as real);
    }
    Bernoulli(x, n);
    assert IPow(base, n) == Pow(base, n);
    assert Grown(p, rate, n) == p as real * Pow(base, n);
    OnePercentMore(p, Grown(p, rate, n), Pow(base, n));
    TruncAtLeast(Grown(p, rate, n), p + 1);
  }

  /** At least 1% growth on at least 10000 is at least one unit more. */
  lemma OnePercentMore(p: int, grown: real, factor: real)
    requires p >= 10000 && factor >= 1.01 && grown == p as real * factor
    ensures grown >= (p + 1) as real
  {
    MultiplyMonotone(p as real, 1.01, factor);
  }
}
