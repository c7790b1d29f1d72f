/** The step-up SIP calculator: a monthly contribution that is raised by a
    fixed percentage at the start of every year, compounded monthly. The
    totals are accumulated year by year in a loop; the year-end maturity for
    every year is filled into a fresh array. It does not validate its
    input. */
module StepUpSip {
  import opened Numerics
  import opened Validation
  import opened Annuity
  import Sip

  datatype StepUpSipInput = StepUpSipInput(
    monthlyInvestment: int,
    stepUpPercentage: real,     // percent per year
    expectedReturnRate: real,   // percent per year
    timePeriodInYears: int)

  /** The result as the calculator builds it, year-end maturities included. */
  datatype StepUpSipResult = StepUpSipResult(
    inputs: StepUpSipInput,
    totalInvested: int,
    maturityAmount: int,
    totalGain: int,
    yearlyGrowth: seq<int>)

  /** The annual percentage as a monthly fraction. */
  function MonthlyRate(rate: real): real
  {
    rate / 1200.0
  }

  /** The annual step-up percentage as a fraction. */
  function StepUpRate(percentage: real): real
  {
    percentage / 100.0
  }

  /** The per-year future value divides by the monthly rate, so a zero rate is
      only harmless when the loop never runs. */
  predicate Defined(rate: real, years: int)
  {
    years <= 0 || MonthlyRate(rate) != 0.0
  }

  /** The monthly contribution during the given year (counted from 0):
      raised by the step-up once per completed year. */
  function Contribution(monthly: int, s: real, year: nat): real
  {
    monthly as real * Pow(1.0 + s, year)
  }

  /** Twelve contributions of c made at the start of each month, valued at
      the end of that year. */
  function YearValue(c: real, r: real): real
    requires r != 0.0
  {
    c * ((Pow(1.0 + r, 12) - 1.0) / r) * (1.0 + r)
  }

  /** The contributions of one year, grown for the whole years that remain
      until the end of the plan. */
  function FutureValueOfYear(monthly: int, s: real, r: real, years: int, year: nat): real
    requires r != 0.0 && year < years
  {
    YearValue(Contribution(monthly, s, year), r) * Pow(1.0 + r, 12 * (years - 1 - year))
  }

  /** The loop's running maturity after its first k iterations. */
  function MaturitySum(monthly: int, s: real, r: real, years: int, k: nat): real
    requires k == 0 || (r != 0.0 && k <= years)
  {
    if k == 0 then 0.0
    else MaturitySum(monthly, s, r, years, k - 1) + FutureValueOfYear(monthly, s, r, years, k - 1)
  }

  /** The loop's running total invested after its first k iterations. */
  function InvestedSum(monthly: int, s: real, k: nat): real
  {
    if k == 0 then 0.0 else InvestedSum(monthly, s, k - 1) + 12.0 * Contribution(monthly, s, k - 1)
  }

  /** The number of times the loop runs. */
  function Iterations(years: int): nat
  {
    if years < 0 then 0 else years
  }

  /** The total invested over the given number of years, cast to an integer. */
  function TotalInvested(monthly: int, percentage: real, years: int): int
  {
    Trunc(InvestedSum(monthly, StepUpRate(percentage), Iterations(years)))
  }

  /** The maturity after the given number of years, cast to an integer. */
  function MaturityAmount(monthly: int, percentage: real, rate: real, years: int): int
    requires Defined(rate, years)
  {
    Trunc(MaturitySum(monthly, StepUpRate(percentage), MonthlyRate(rate), years, Iterations(years)))
  }

  /** The maturity at the end of each year 1 .. n, in order. */
  function YearlyGrowth(monthly: int, percentage: real, rate: real, n: nat): seq<int>
    requires Defined(rate, n)
  {
    seq(n, k requires 0 <= k < n => MaturityAmount(monthly, percentage, rate, k + 1))
  }

  /** The per-year loop: both totals accumulated as exact values over the
      given number of years, then each cast to an integer. */
  method ComputeTotalInvestedAndMaturityAmount(input: StepUpSipInput, years: int)
    returns (totalInvested: int, maturityAmount: int)
    requires Defined(input.expectedReturnRate, years)
    ensures totalInvested == TotalInvested(input.monthlyInvestment, input.stepUpPercentage, years)
    ensures maturityAmount == MaturityAmount(input.monthlyInvestment, input.stepUpPercentage, input.expectedReturnRate, years)
  {
    var monthly := input.monthlyInvestment;
    var r := MonthlyRate(input.expectedReturnRate);
    var s := StepUpRate(input.stepUpPercentage);
    var maturity := 0.0;
    var invested := 0.0;
    var year := 0;
    while year < years
      invariant 0 <= year && (year == 0 || year <= years)
      invariant maturity == MaturitySum(monthly, s, r, years, year)
      invariant invested == InvestedSum(monthly, s, year)
    {
      var monthlySipForYear := Contribution(monthly, s, year);
      var futureValueOfYearSip := YearValue(monthlySipForYear, r) * Pow(1.0 + r, 12 * (years - 1 - year));
      maturity := maturity + futureValueOfYearSip;
      invested := invested + 12.0 * monthlySipForYear;
      year := year + 1;
    }
    totalInvested, maturityAmount := Trunc(invested), Trunc(maturity);
  }

  /** Compute: the totals for the whole period, then the maturity for every
      period of 1 .. n years filled into a fresh array. A negative period is
      the array allocation's overflow. */
  method Compute(input: StepUpSipInput) returns (outcome: Outcome<StepUpSipResult>)
    requires Defined(input.expectedReturnRate, input.timePeriodInYears)
    ensures input.timePeriodInYears < 0 <==> outcome == Err(Overflow)
    ensures outcome.Ok? ==>
      var res := outcome.value;
      && res.inputs == input
      && res.totalInvested == TotalInvested(input.monthlyInvestment, input.stepUpPercentage, input.timePeriodInYears)
      && res.maturityAmount == MaturityAmount(input.monthlyInvestment, input.stepUpPercentage,
                                              input.expectedReturnRate, input.timePeriodInYears)
      && res.totalGain == res.maturityAmount - res.totalInvested
      && res.yearlyGrowth == YearlyGrowth(input.monthlyInvestment, input.stepUpPercentage,
                                          input.expectedReturnRate, input.timePeriodInYears)
  {
    var years := input.timePeriodInYears;
    var totalInvested, maturityAmount := ComputeTotalInvestedAndMaturityAmount(input, years);
    var totalGain := maturityAmount - totalInvested;
    if years < 0 {
      return Err(Overflow);
    }
    var growth := new int[years];
    var year := 1;
    while year <= years
      invariant 1 <= year <= years + 1
      invariant forall k :: 0 <= k < year - 1 ==>
        growth[k] == MaturityAmount(input.monthlyInvestment, input.stepUpPercentage, input.expectedReturnRate, k + 1)
    {
      var _, maturityForYear := ComputeTotalInvestedAndMaturityAmount(input, year);
      growth[year - 1] := maturityForYear;
      year := year + 1;
    }
    outcome := Ok(StepUpSipResult(input, totalInvested, maturityAmount, totalGain, growth[..]));
  }

  // ---------------------------------------------------------------------------
  // Month-by-month reference definition

  /** Reference definition of one year: starting from a balance, each month
      the year's contribution c is deposited and the whole balance then grows
      by one month's interest. */
  function MonthsOfYear(start: real, c: real, r: real, j: nat): real
  {
    if j == 0 then start else (MonthsOfYear(start, c, r, j - 1) + c) * (1.0 + r)
  }

  /** Reference definition of the plan: the balance at the end of year k,
      each year run month by month with that year's stepped-up
      contribution. */
  function StepUpBalance(monthly: int, s: real, r: real, k: nat): real
  {
    if k == 0 then 0.0
    else MonthsOfYear(StepUpBalance(monthly, s, r, k - 1), Contribution(monthly, s, k - 1), r, 12)
  }

  /** j months into a year: the grown start balance plus j months of
      contributions. */
  lemma {:induction false} MonthsOfYearClosedForm(start: real, c: real, r: real, j: nat)
    ensures MonthsOfYear(start, c, r, j) == Pow(1.0 + r, j) * start + Accumulated(c, r, j)
  {
    if j > 0 {
      MonthsOfYearClosedForm(start, c, r, j - 1);
      var p, a := Pow(1.0 + r, j - 1), Accumulated(c, r, j - 1);
      assert (p * start + a + c) * (1.0 + r) == ((1.0 + r) * p) * start + (a + c) * (1.0 + r);
    }
  }

  /** A whole year: the year-start balance grown twelve months plus that
      year's twelve contributions. */
  lemma YearStep(monthly: int, s: real, r: real, k: nat)
    requires k > 0
    ensures StepUpBalance(monthly, s, r, k)
         == Pow(1.0 + r, 12) * StepUpBalance(monthly, s, r, k - 1)
          + Accumulated(Contribution(monthly, s, k - 1), r, 12)
  {
    MonthsOfYearClosedForm(StepUpBalance(monthly, s, r, k - 1), Contribution(monthly, s, k - 1), r, 12);
  }

  /** Twelve more months of growth. */
  lemma PowYearStep(x: real, years: int, k: nat)
    requires 0 < k <= years
    ensures Pow(x, 12 * (years - (k - 1))) == Pow(x, 12 * (years - k)) * Pow(x, 12)
  {
    PowAdd(x, 12 * (years - k), 12);
    assert 12 * (years - k) + 12 == 12 * (years - (k - 1));
  }

  /** The closed-form value of a year's contributions is the month-by-month
      balance of those twelve months. */
  lemma YearValueIsAccumulated(c: real, r: real)
    requires r != 0.0
    ensures YearValue(c, r) == Accumulated(c, r, 12)
  {
    assert AnnuityDue(c, r, 12) == c * ((IPow(1.0 + r, 12) - 1.0) / r) * (1.0 + r);
    AnnuityDueIsAccumulated(c, r, 12);
  }

  /** The algebra of one step of the induction below, on plain values:
      m' = e * b with e = p * q, m = m' + v * p, v = a and B = q * b + a
      give m = p * B. */
  lemma GrownBalanceStep(m: real, m': real, e: real, b: real, p: real, q: real, v: real, a: real, bb: real)
    requires m' == e * b && e == p * q && m == m' + v * p && v == a && bb == q * b + a
    ensures m == p * bb
  {
    assert m == (p * q) * b + a * p;
  }

  /** After k of the loop's iterations, the running maturity is the balance at
      the end of year k, still to grow for the remaining years - k years. */
  lemma {:induction false} MaturitySumIsGrownBalance(monthly: int, s: real, r: real, years: int, k: nat)
    requires r != 0.0 && k <= years
    ensures MaturitySum(monthly, s, r, years, k)
         == Pow(1.0 + r, 12 * (years - k)) * StepUpBalance(monthly, s, r, k)
  {
    if k > 0 {
      var c := Contribution(monthly, s, k - 1);
      var p, q := Pow(1.0 + r, 12 * (years - k)), Pow(1.0 + r, 12);
      var e := Pow(1.0 + r, 12 * (years - (k - 1)));
      var b, a := StepUpBalance(monthly, s, r, k - 1), Accumulated(c, r, 12);
      assert FutureValueOfYear(monthly, s, r, years, k - 1) == YearValue(c, r) * p by {
        assert years - 1 - (k - 1) == years - k;
      }
      MaturitySumIsGrownBalance(monthly, s, r, years, k - 1);
      PowYearStep(1.0 + r, years, k);
      YearValueIsAccumulated(c, r);
      YearStep(monthly, s, r, k);
      GrownBalanceStep(MaturitySum(monthly, s, r, years, k), MaturitySum(monthly, s, r, years, k - 1), e, b, p, q,
                       YearValue(c, r), a, StepUpBalance(monthly, s, r, k));
    }
  }



  /** The calculator's maturity is the month-by-month balance after all the
      months of the plan, cast to an integer. */
  lemma MaturityIsMonthByMonthBalance(monthly: int, percentage: real, rate: real, years: nat)
    requires Defined(rate, years)
    ensures MaturityAmount(monthly, percentage, rate, years)
         == Trunc(StepUpBalance(monthly, StepUpRate(percentage), MonthlyRate(rate), years))
  {
    if years > 0 {
      MaturitySumIsGrownBalance(monthly, StepUpRate(percentage), MonthlyRate(rate), years, years);
    }
  }

  // ---------------------------------------------------------------------------
  // Properties

  /** Without a step-up the balance is a plain SIP balance. */
  lemma {:induction false} NoStepUpIsPlainBalance(monthly: int, r: real, k: nat)
    ensures StepUpBalance(monthly, 0.0, r, k) == Accumulated(monthly as real, r, 12 * k)
  {
    if k > 0 {
      NoStepUpIsPlainBalance(monthly, r, k - 1);
      YearStep(monthly, 0.0, r, k);
      PowOne(k - 1);
      assert Contribution(monthly, 0.0, k - 1) == monthly as real;
      AccumulatedSplit(monthly as real, r, 12 * (k - 1), 12);
      assert 12 * (k - 1) + 12 == 12 * k;
    }
  }

  /** Without a step-up twelve equal contributions are paid every year. */
  lemma {:induction false} NoStepUpInvestsEqually(monthly: int, k: nat)
    ensures InvestedSum(monthly, 0.0, k) == 12.0 * monthly as real * k as real
  {
    if k > 0 {
      NoStepUpInvestsEqually(monthly, k - 1);
      PowOne(k - 1);
    }
  }

  /** A zero step-up gives exactly the plain SIP calculator's totals, whenever
      the rate is not zero. */
  lemma ZeroStepUpMatchesSip(monthly: int, rate: real, years: nat)
    requires MonthlyRate(rate) != 0.0
    ensures Sip.Defined(rate, years)
    ensures TotalInvested(monthly, 0.0, years) == Sip.TotalInvested(monthly, years)
    ensures MaturityAmount(monthly, 0.0, rate, years) == Sip.MaturityAmount(monthly, rate, years)
  {
    NoStepUpInvestsEqually(monthly, years);
    assert 12.0 * monthly as real * years as real == (monthly * (years * 12)) as real;
    TruncOfInt(monthly * (years * 12));
    MaturityIsMonthByMonthBalance(monthly, 0.0, rate, years);
    NoStepUpIsPlainBalance(monthly, MonthlyRate(rate), years);
    Sip.MaturityIsMonthByMonthBalance(monthly, rate, years);
  }

  /** With a non-negative step-up every year's contribution is at least the
      first, so at least twelve first-year contributions a year are paid. */
  lemma {:induction false} StepUpInvestsAtLeastPlain(monthly: int, s: real, k: nat)
    requires monthly >= 0 && s >= 0.0
    ensures InvestedSum(monthly, s, k) >= 12.0 * monthly as real * k as real
  {
    if k > 0 {
      StepUpInvestsAtLeastPlain(monthly, s, k - 1);
      PowAtLeastOne(1.0 + s, k - 1);
      MultiplyMonotone(monthly as real, 1.0, Pow(1.0 + s, k - 1));
    }
  }

  /** The reported total invested is never below the contributions of a plan
      without step-up. */
  lemma TotalInvestedAtLeastPlain(monthly: int, percentage: real, years: nat)
    requires monthly >= 0 && percentage >= 0.0
    ensures TotalInvested(monthly, percentage, years) >= 12 * monthly * years
  {
    StepUpInvestsAtLeastPlain(monthly, StepUpRate(percentage), years);
    assert 12.0 * monthly as real * years as real == (12 * monthly * years) as real;
    assert 12 * monthly * years >= 0 by {
      MultiplyMonotone(monthly as real, 0.0, years as real);
    }
    TruncAtLeast(InvestedSum(monthly, StepUpRate(percentage), years), 12 * monthly * years);
  }

  /** With a non-negative contribution, a step-up of at least -100% and a
      non-negative rate, every year's contribution is not negative. */
  lemma ContributionNonNegative(monthly: int, s: real, y: nat)
    requires monthly >= 0 && s >= -1.0
    ensures Contribution(monthly, s, y) >= 0.0
  {
    PowNonNegative(1.0 + s, y);
    MultiplyMonotone(monthly as real, 0.0, Pow(1.0 + s, y));
  }

  /** Under those conditions one more year never lowers the balance, and the
      balance is never negative. */
  lemma {:induction false} BalanceGrowsByYear(monthly: int, s: real, r: real, k: nat)
    requires monthly >= 0 && s >= -1.0 && r >= 0.0
    ensures 0.0 <= StepUpBalance(monthly, s, r, k) <= StepUpBalance(monthly, s, r, k + 1)
  {
    if k > 0 {
      BalanceGrowsByYear(monthly, s, r, k - 1);
    }
    var c, b := Contribution(monthly, s, k), StepUpBalance(monthly, s, r, k);
    YearStep(monthly, s, r, k + 1);
    ContributionNonNegative(monthly, s, k);
    AccumulatedAtLeastContributions(c, r, 12);
    PowAtLeastOne(1.0 + r, 12);
    MultiplyMonotone(b, 1.0, Pow(1.0 + r, 12));
  }

  /** With a non-negative contribution, a step-up of at least -100% and a
      positive rate, the year-end maturities never decrease. */
  lemma YearlyGrowthNonDecreasing(monthly: int, percentage: real, rate: real, n: nat)
    requires monthly >= 0 && percentage >= -100.0 && rate > 0.0
    ensures Defined(rate, n)
    ensures |YearlyGrowth(monthly, percentage, rate, n)| == n
    ensures forall k :: 0 <= k < n - 1 ==>
      YearlyGrowth(monthly, percentage, rate, n)[k] <= YearlyGrowth(monthly, percentage, rate, n)[k + 1]
  {
    var s, r := StepUpRate(percentage), MonthlyRate(rate);
    forall k | 0 <= k < n - 1
      ensures YearlyGrowth(monthly, percentage, rate, n)[k] <= YearlyGrowth(monthly, percentage, rate, n)[k + 1]
    {
      MaturityIsMonthByMonthBalance(monthly, percentage, rate, k + 1);
      MaturityIsMonthByMonthBalance(monthly, percentage, rate, k + 2);
      BalanceGrowsByYear(monthly, s, r, k + 1);
      TruncMonotone(StepUpBalance(monthly, s, r, k + 1), StepUpBalance(monthly, s, r, k + 2));
    }
  }

  /** The last year-end maturity is the reported maturity. */
  lemma LastYearIsMaturity(monthly: int, percentage: real, rate: real, n: nat)
    requires n >= 1 && Defined(rate, n)
    ensures YearlyGrowth(monthly, percentage, rate, n)[n - 1] == MaturityAmount(monthly, percentage, rate, n)
  {
  }

  /** A zero period invests nothing, matures to nothing and reports no
      year-end maturities, whatever the rate. */
  lemma ZeroYears(monthly: int, percentage: real, rate: real)
    ensures Defined(rate, 0)
    ensures TotalInvested(monthly, percentage, 0) == 0
    ensures MaturityAmount(monthly, percentage, rate, 0) == 0
    ensures YearlyGrowth(monthly, percentage, rate, 0) == []
  {
  }
}
