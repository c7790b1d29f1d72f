/** The Senior Citizens' Savings Scheme calculator: a fixed 7.4% compounded
    once a year for a fixed 5 years. It runs the injected validator first and
    fails with its violations instead of computing. */
module Scss {
  import opened Numerics
  import opened Validation
  import Lumpsum

  /** Only the principal can be set; the rate and the tenure are read-only
      properties with fixed values. */
  datatype ScssInput = ScssInput(principalAmount: int)
  {
    const annualInterestRate: real := 7.4
    const tenureInYears: int := 5
  }

  datatype ScssResult = ScssResult(
    inputs: ScssInput,
    totalInterestEarned: int,
    maturityAmount: int)

  /** principal * (1 + rate / 100)^tenure, truncated: the lumpsum formula on
      the fixed rate and tenure. */
  function MaturityAmount(input: ScssInput): int
  {
    Lumpsum.MaturityAmount(input.principalAmount, input.annualInterestRate, input.tenureInYears)
  }

  /** Compute with the validator the calculator was constructed with. */
  function Compute(validator: ScssInput -> seq<Violation>, input: ScssInput): (outcome: Outcome<ScssResult>)
    ensures outcome.Err? <==> validator(input) != []
    ensures outcome.Err? ==> outcome.failure == ValidationFailed(validator(input))
    ensures outcome.Ok? ==>
      && outcome.value.inputs == input
      && outcome.value.maturityAmount == MaturityAmount(input)
      && outcome.value.maturityAmount == input.principalAmount + outcome.value.totalInterestEarned
  {
    var violations := validator(input);
    if violations != [] then
      Err(ValidationFailed(violations))
    else
      var maturityAmount := MaturityAmount(input);
      Ok(ScssResult(input, maturityAmount - input.principalAmount, maturityAmount))
  }

  // ---------------------------------------------------------------------------
  // Validator

  const PrincipalMessage := "Principal amount must be between 10000 and 100000000."
  const RateMessage := "Annual interest rate must be 7.4."
  const TenureMessage := "Tenure in years must be 5."

  predicate PrincipalOk(input: ScssInput) { InclusiveBetween(input.principalAmount as real, 10000.0, 100000000.0) }
  predicate RateOk(input: ScssInput) { input.annualInterestRate == 7.4 }
  predicate TenureOk(input: ScssInput) { input.tenureInYears == 5 }

  /** The declared rules, in declaration order. */
  function Rules(input: ScssInput): seq<Check>
  {
    [Check(PrincipalOk(input), "PrincipalAmount", PrincipalMessage),
     Check(RateOk(input), "AnnualInterestRate", RateMessage),
     Check(TenureOk(input), "TenureInYears", TenureMessage)]
  }

  /** Every failed rule, in rule order. */
  function Validate(input: ScssInput): (vs: seq<Violation>)
    ensures vs == Failed(Rules(input))
    ensures vs == [] <==> PrincipalOk(input) && RateOk(input) && TenureOk(input)
    ensures Reports(vs, "PrincipalAmount", PrincipalMessage, !PrincipalOk(input))
    ensures Reports(vs, "AnnualInterestRate", RateMessage, !RateOk(input))
    ensures Reports(vs, "TenureInYears", TenureMessage, !TenureOk(input))
    ensures |vs| == Failures(PrincipalOk(input)) + Failures(RateOk(input)) + Failures(TenureOk(input))
  {
    FailedOfThree(Rules(input));
    Rule(PrincipalOk(input), "PrincipalAmount", PrincipalMessage)
    + Rule(RateOk(input), "AnnualInterestRate", RateMessage)
    + Rule(TenureOk(input), "TenureInYears", TenureMessage)
  }

  /** With the rate and tenure fixed, only the principal rule can fail: the
      validator reports the principal message and nothing else, or nothing. */
  lemma OnlyPrincipalCanFail(input: ScssInput)
    ensures Validate(input) == Rule(PrincipalOk(input), "PrincipalAmount", PrincipalMessage)
    ensures Validate(input) == [] || Validate(input) == [Violation("PrincipalAmount", PrincipalMessage)]
  {
  }

  /** Every accepted principal earns a positive interest. */
  lemma AcceptedInputEarnsInterest(input: ScssInput)
    requires Validate(input) == []
    ensures Compute(Validate, input).Ok?
    ensures Compute(Validate, input).value.totalInterestEarned > 0
  {
    var lumpsum := Lumpsum.LumpsumInput(input.principalAmount, 7.4, 5);
    assert Lumpsum.Validate(lumpsum) == [];
    Lumpsum.AcceptedInputGains(lumpsum);
  }

  /** A larger principal never lowers the maturity. */
  lemma MaturityMonotoneInPrincipal(a: ScssInput, b: ScssInput)
    requires a.principalAmount <= b.principalAmount
    ensures MaturityAmount(a) <= MaturityAmount(b)
  {
    Lumpsum.MonotoneInPrincipal(a.principalAmount, b.principalAmount, 7.4, 5);
  }

  /** 10000 matures to 14289, with 4289 of interest. */
  lemma TenThousand()
    ensures Compute(Validate, ScssInput(10000)) == Ok(ScssResult(ScssInput(10000), 4289, 14289))
  {
    assert Pow(1.074, 5) == 1.428964391886624 by {
      assert Pow(1.074, 1) == 1.074;
      assert Pow(1.074, 2) == 1.153476;
      assert Pow(1.074, 3) == 1.238833224;
      assert Pow(1.074, 4) == 1.330506882576;
    }
    assert Lumpsum.Grown(10000, 7.4, 5) == 14289.64391886624;
  }
}
