/** The EMI (equated monthly instalment) calculator for an amortising loan,
    and its input validator. The calculator itself does not call the
    validator. */
module Emi {
  import opened Numerics
  import opened Validation
  import opened Annuity

  datatype EmiInput = EmiInput(
    principalAmount: int,
    annualInterestRate: real,   // percent per year
    loanTenureInYears: int)

  /** The result as the calculator fills it in; it has no YearlyGrowth. */
  datatype EmiResult = EmiResult(
    inputs: EmiInput,
    monthlyEmi: int,
    totalPayment: int,
    totalInterest: int)

  /** The annual percentage as a monthly fraction. */
  function MonthlyRate(rate: real): real
  {
    rate / 1200.0
  }

  function Installments(tenure: int): int
  {
    tenure * 12
  }

  /** The formula's denominator (1 + r)^n - 1 is not zero whenever the
      non-zero-rate branch is reached. */
  predicate Defined(rate: real, tenure: int)
  {
    var r, n := MonthlyRate(rate), Installments(tenure);
    n <= 0 || r == 0.0 || Pow(1.0 + r, n) != 1.0
  }

  /** The exact instalment, before any cast: the principal spread evenly at a
      zero rate, otherwise P * r * (1 + r)^n / ((1 + r)^n - 1). Either way it
      is the solution of the equation that balances the loan. */
  function ExactEmi(principal: int, r: real, n: nat): (e: real)
    requires n > 0 && (r == 0.0 || Pow(1.0 + r, n) != 1.0)
    ensures r == 0.0 ==> e * n as real == principal as real
    ensures r != 0.0 ==> e * (Pow(1.0 + r, n) - 1.0) == principal as real * r * Pow(1.0 + r, n)
  {
    if r == 0.0 then
      DivideThenMultiply(principal as real, n as real);
      principal as real / n as real
    else
      var g := Pow(1.0 + r, n);
      DivideThenMultiply(principal as real * r * g, g - 1.0);
      principal as real * r * g / (g - 1.0)
  }

  /** The instalment shown: the exact instalment cast to an integer. */
  function MonthlyEmi(principal: int, r: real, n: nat): int
    requires n > 0 && (r == 0.0 || Pow(1.0 + r, n) != 1.0)
  {
    Trunc(ExactEmi(principal, r, n))
  }

  /** The total repaid: the exact instalment times n, cast to an integer. */
  function TotalPayment(principal: int, r: real, n: nat): int
    requires n > 0 && (r == 0.0 || Pow(1.0 + r, n) != 1.0)
  {
    Trunc(ExactEmi(principal, r, n) * n as real)
  }

  function Compute(input: EmiInput): (result: EmiResult)
    requires Defined(input.annualInterestRate, input.loanTenureInYears)
    ensures result.inputs == input
    ensures Installments(input.loanTenureInYears) <= 0 ==> result == EmiResult(input, 0, 0, 0)
    ensures Installments(input.loanTenureInYears) > 0 ==>
      && result.monthlyEmi == MonthlyEmi(input.principalAmount, MonthlyRate(input.annualInterestRate), Installments(input.loanTenureInYears))
      && result.totalPayment == TotalPayment(input.principalAmount, MonthlyRate(input.annualInterestRate), Installments(input.loanTenureInYears))
      && result.totalInterest == result.totalPayment - input.principalAmount
  {
    var r, n := MonthlyRate(input.annualInterestRate), Installments(input.loanTenureInYears);
    if n <= 0 then
      EmiResult(input, 0, 0, 0)
    else
      var totalPayment := TotalPayment(input.principalAmount, r, n);
      EmiResult(input, MonthlyEmi(input.principalAmount, r, n), totalPayment, totalPayment - input.principalAmount)
  }

  /** Reference definition: the balance still owed after k instalments, each
      month accruing one month's interest and then paying the instalment. */
  function Outstanding(principal: real, r: real, emi: real, k: nat): real
  {
    if k == 0 then principal else Outstanding(principal, r, emi, k - 1) * (1.0 + r) - emi
  }

  lemma {:induction false} OutstandingClosedForm(principal: real, r: real, emi: real, k: nat)
    ensures Outstanding(principal, r, emi, k) == Pow(1.0 + r, k) * principal - emi * GrowthSum(r, k)
  {
    if k > 0 {
      OutstandingClosedForm(principal, r, emi, k - 1);
      var p, s := Pow(1.0 + r, k - 1), GrowthSum(r, k - 1);
      assert (p * principal - emi * s) * (1.0 + r) - emi
          == ((1.0 + r) * p) * principal - emi * (s * (1.0 + r) + 1.0);
    }
  }

  /** The instalments, grown to the end of the loan, are worth exactly the
      grown principal. */
  lemma EmiBalancesGrowth(principal: int, r: real, n: nat)
    requires n > 0 && (r == 0.0 || Pow(1.0 + r, n) != 1.0)
    ensures ExactEmi(principal, r, n) * GrowthSum(r, n) == principal as real * Pow(1.0 + r, n)
  {
    var e, g, s := ExactEmi(principal, r, n), Pow(1.0 + r, n), GrowthSum(r, n);
    if r == 0.0 {
      GrowthSumWithoutGrowth(n);
      PowOne(n);
    } else {
      GrowthSumClosedForm(r, n);
      CancelCommonFactor(e, g - 1.0, principal as real, r, g, s);
    }
  }

  /** Paying the instalment every month for the whole tenure clears the loan
      exactly. */
  lemma EmiRepaysLoan(principal: int, r: real, n: nat)
    requires n > 0 && (r == 0.0 || Pow(1.0 + r, n) != 1.0)
    ensures Outstanding(principal as real, r, ExactEmi(principal, r, n), n) == 0.0
  {
    OutstandingClosedForm(principal as real, r, ExactEmi(principal, r, n), n);
    EmiBalancesGrowth(principal, r, n);
  }

  /** With a non-negative principal and rate the instalment is not negative. */
  lemma EmiNonNegative(principal: int, r: real, n: nat)
    requires principal >= 0 && r >= 0.0 && n > 0 && (r == 0.0 || Pow(1.0 + r, n) != 1.0)
    ensures ExactEmi(principal, r, n) >= 0.0
  {
    var e := ExactEmi(principal, r, n);
    if r == 0.0 {
      SolutionNonNegative(e, n as real, principal as real);
    } else {
      var g := Pow(1.0 + r, n);
      PowAtLeastOne(1.0 + r, n);
      ProductNonNegative(principal as real, r, g);
      SolutionNonNegative(e, g - 1.0, principal as real * r * g);
    }
  }

  /** The total is cast from the exact instalment times n, not from the cast
      instalment, so it is never less than n cast instalments. */
  lemma TotalPaymentCoversInstallments(input: EmiInput)
    requires input.principalAmount >= 0 && input.annualInterestRate >= 0.0
    requires Defined(input.annualInterestRate, input.loanTenureInYears)
    ensures Compute(input).totalPayment >= Compute(input).monthlyEmi * Installments(input.loanTenureInYears)
  {
    var r, n := MonthlyRate(input.annualInterestRate), Installments(input.loanTenureInYears);
    if n > 0 {
      EmiNonNegative(input.principalAmount, r, n);
      TruncOfMultiple(ExactEmi(input.principalAmount, r, n), n);
    }
  }

  /** From e * s == p * g with 0 <= s <= n * g and g > 0: e * n >= p. */
  lemma RepaidAtLeastPrincipal(e: real, s: real, p: real, g: real, n: real)
    requires e >= 0.0 && g > 0.0 && 0.0 <= s <= n * g && e * s == p * g
    ensures e * n >= p
  {
    MultiplyMonotone(e, s, n * g);
    assert g * (e * n - p) >= 0.0;
    if e * n < p {
      MultiplyMonotone(g, e * n - p, 0.0);
    }
  }

  /** At a positive rate the exact instalments add up to at least the
      principal. */
  lemma InstallmentsCoverPrincipal(p: int, r: real, n: nat)
    requires p >= 0 && r > 0.0 && n > 0 && Pow(1.0 + r, n) != 1.0
    ensures ExactEmi(p, r, n) * n as real >= p as real
  {
    var e, g, s := ExactEmi(p, r, n), Pow(1.0 + r, n), GrowthSum(r, n);
    EmiBalancesGrowth(p, r, n);
    EmiNonNegative(p, r, n);
    GrowthSumAtMost(r, n);
    PowAtLeastOne(1.0 + r, n);
    RepaidAtLeastPrincipal(e, s, p as real, g, n as real);
  }

  /** With a non-negative rate the borrower never repays less than the
      principal, and at a zero rate repays exactly the principal. */
  lemma InterestNonNegative(input: EmiInput)
    requires input.principalAmount >= 0 && input.annualInterestRate >= 0.0
    requires Defined(input.annualInterestRate, input.loanTenureInYears)
    requires Installments(input.loanTenureInYears) > 0
    ensures Compute(input).totalInterest >= 0
    ensures input.annualInterestRate == 0.0 ==> Compute(input).totalInterest == 0
  {
    RepaysPrincipal(input.principalAmount, MonthlyRate(input.annualInterestRate), Installments(input.loanTenureInYears));
  }

  /** The same on the loan's terms: the cast total is at least the principal,
      and exactly the principal at a zero rate. */
  lemma RepaysPrincipal(p: int, r: real, n: nat)
    requires p >= 0 && r >= 0.0 && n > 0 && (r == 0.0 || Pow(1.0 + r, n) != 1.0)
    ensures TotalPayment(p, r, n) >= p
    ensures r == 0.0 ==> TotalPayment(p, r, n) == p
  {
    if r == 0.0 {
      assert ExactEmi(p, r, n) * n as real == p as real;
      TruncOfInt(p);
    } else {
      InstallmentsCoverPrincipal(p, r, n);
      TruncAtLeast(ExactEmi(p, r, n) * n as real, p);
    }
  }

  // ---------------------------------------------------------------------------
  // Validator

  const PrincipalMessage := "Loan amount must be between 10000 and 100000000."
  const RateMessage := "Annual interest rate must be between 0 and 100."
  const TenureMessage := "Loan tenure in years must be between 1 and 50."

  predicate PrincipalOk(input: EmiInput) { InclusiveBetween(input.principalAmount as real, 10000.0, 100000000.0) }
  predicate RateOk(input: EmiInput) { InclusiveBetween(input.annualInterestRate, 0.0, 100.0) }
  predicate TenureOk(input: EmiInput) { InclusiveBetween(input.loanTenureInYears as real, 1.0, 50.0) }

  /** The declared rules, in declaration order. */
  function Rules(input: EmiInput): seq<Check>
  {
    [Check(PrincipalOk(input), "PrincipalAmount", PrincipalMessage),
     Check(RateOk(input), "AnnualInterestRate", RateMessage),
     Check(TenureOk(input), "LoanTenureInYears", TenureMessage)]
  }

  /** Every failed rule, in rule order. */
  function Validate(input: EmiInput): (vs: seq<Violation>)
    ensures vs == Failed(Rules(input))
    ensures vs == [] <==> PrincipalOk(input) && RateOk(input) && TenureOk(input)
    ensures Reports(vs, "PrincipalAmount", PrincipalMessage, !PrincipalOk(input))
    ensures Reports(vs, "AnnualInterestRate", RateMessage, !RateOk(input))
    ensures Reports(vs, "LoanTenureInYears", TenureMessage, !TenureOk(input))
    ensures |vs| == Failures(PrincipalOk(input)) + Failures(RateOk(input)) + Failures(TenureOk(input))
  {
    FailedOfThree(Rules(input));
    Rule(PrincipalOk(input), "PrincipalAmount", PrincipalMessage)
    + Rule(RateOk(input), "AnnualInterestRate", RateMessage)
    + Rule(TenureOk(input), "LoanTenureInYears", TenureMessage)
  }

  /** Accepted input has at least 12 instalments, so the zero-instalment guard
      is never taken, and is always computable. */
  lemma AcceptedInputIsComputable(input: EmiInput)
    requires Validate(input) == []
    ensures Installments(input.loanTenureInYears) >= 12
    ensures Defined(input.annualInterestRate, input.loanTenureInYears)
    ensures Compute(input).totalInterest >= 0
  {
    var r, n := MonthlyRate(input.annualInterestRate), Installments(input.loanTenureInYears);
    if r != 0.0 {
      Bernoulli(r, n);
      assert n as real * r > 0.0;
    }
    InterestNonNegative(input);
  }

  /** A zero rate is accepted and repays exactly the principal. */
  lemma ZeroRateAccepted()
    ensures Validate(EmiInput(120000, 0.0, 1)) == []
    ensures Compute(EmiInput(120000, 0.0, 1)) == EmiResult(EmiInput(120000, 0.0, 1), 10000, 120000, 0)
  {
    InterestNonNegative(EmiInput(120000, 0.0, 1));
  }
}
