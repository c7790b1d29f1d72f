/** The simple-interest calculator: the principal grows linearly with the
    years, the total is truncated to whole currency units, and a year-end
    total is reported for every year. It does not validate its input. */
module SimpleInterest {
  import opened Numerics
  import opened Validation

  datatype SimpleInterestInput = SimpleInterestInput(
    principalAmount: int,
    rateOfInterest: real,   // percent per year
    timePeriodInYears: int)

  datatype SimpleInterestResult = SimpleInterestResult(
    inputs: SimpleInterestInput,
    totalInterestEarned: int,
    totalAmount: int,
    yearlyGrowth: seq<int>)

  /** The exact total after the given number of years:
      principal * (1 + rate / 100 * years). */
  function Grown(principal: int, rate: real, years: int): real
  {
    principal as real * (1.0 + rate / 100.0 * years as real)
  }

  /** At a non-negative rate and period the exact total is at least the
      principal. */
  lemma GrownAtLeastPrincipal(principal: int, rate: real, years: int)
    requires principal >= 0 && rate >= 0.0 && years >= 0
    ensures principal as real <= Grown(principal, rate, years)
  {
    var growth := rate / 100.0 * years as real;
    MultiplyMonotone(rate / 100.0, 0.0, years as real);
    assert growth >= 0.0;
    MultiplyMonotone(principal as real, 1.0, 1.0 + growth);
  }

  /** The total after the given number of years, cast to an integer. */
  function TotalAmount(principal: int, rate: real, years: int): (total: int)
    ensures years == 0 ==> total == principal
  {
    Trunc(Grown(principal, rate, years))
  }

  /** At a non-negative principal, rate and period the cast total is at least
      the principal. */
  lemma TotalAtLeastPrincipal(principal: int, rate: real, years: int)
    requires principal >= 0 && rate >= 0.0 && years >= 0
    ensures principal <= TotalAmount(principal, rate, years)
  {
    GrownAtLeastPrincipal(principal, rate, years);
    TruncAtLeast(Grown(principal, rate, years), principal);
  }

  /** Year-end totals for years 1 .. n, in order. */
  function YearlyGrowth(principal: int, rate: real, n: nat): seq<int>
  {
    seq(n, k => TotalAmount(principal, rate, k + 1))
  }

  /** Compute: the total and interest, and the year-end totals filled into a
      fresh array one year at a time. A negative period is the array
      allocation's overflow. */
  method Compute(input: SimpleInterestInput) returns (outcome: Outcome<SimpleInterestResult>)
    ensures input.timePeriodInYears < 0 <==> outcome == Err(Overflow)
    ensures outcome.Ok? ==>
      var r := outcome.value;
      && r.inputs == input
      && r.totalAmount == TotalAmount(input.principalAmount, input.rateOfInterest, input.timePeriodInYears)
      && r.totalAmount == input.principalAmount + r.totalInterestEarned
      && r.yearlyGrowth == YearlyGrowth(input.principalAmount, input.rateOfInterest, input.timePeriodInYears)
  {
    var principal, rate, years := input.principalAmount, input.rateOfInterest, input.timePeriodInYears;
    var totalAmount := TotalAmount(principal, rate, years);
    var interestEarned := totalAmount - principal;
    if years < 0 {
      return Err(Overflow);
    }
    var growth := new int[years];
    var year := 1;
    while year <= years
      invariant 1 <= year <= years + 1
      invariant forall k :: 0 <= k < year - 1 ==> growth[k] == TotalAmount(principal, rate, k + 1)
    {
      growth[year - 1] := TotalAmount(principal, rate, year);
      year := year + 1;
    }
    outcome := Ok(SimpleInterestResult(input, interestEarned, totalAmount, growth[..]));
  }

  /** A longer period never lowers the total when principal and rate are
      non-negative. */
  lemma TotalAmountMonotoneInYears(principal: int, rate: real, a: int, b: int)
    requires principal >= 0 && rate >= 0.0 && a <= b
    ensures TotalAmount(principal, rate, a) <= TotalAmount(principal, rate, b)
  {
    assert Grown(principal, rate, a) <= Grown(principal, rate, b) by {
      MultiplyMonotone(rate / 100.0, a as real, b as real);
      MultiplyMonotone(principal as real, 1.0 + rate / 100.0 * a as real, 1.0 + rate / 100.0 * b as real);
    }
    TruncMonotone(Grown(principal, rate, a), Grown(principal, rate, b));
  }

  /** The year-end totals have one entry per year, the last one is the
      reported total, and with a non-negative principal and rate they never
      decrease. */
  lemma YearlyGrowthShape(principal: int, rate: real, n: nat)
    ensures |YearlyGrowth(principal, rate, n)| == n
    ensures n >= 1 ==> YearlyGrowth(principal, rate, n)[n - 1] == TotalAmount(principal, rate, n)
    ensures principal >= 0 && rate >= 0.0 ==>
      forall i, j :: 0 <= i <= j < n ==> YearlyGrowth(principal, rate, n)[i] <= YearlyGrowth(principal, rate, n)[j]
  {
    if principal >= 0 && rate >= 0.0 {
      forall i, j | 0 <= i <= j < n
        ensures YearlyGrowth(principal, rate, n)[i] <= YearlyGrowth(principal, rate, n)[j]
      {
        TotalAmountMonotoneInYears(principal, rate, i + 1, j + 1);
      }
    }
  }

  /** A zero period earns nothing and reports no year-end totals. */
  lemma ZeroYears(principal: int, rate: real)
    ensures TotalAmount(principal, rate, 0) - principal == 0
    ensures YearlyGrowth(principal, rate, 0) == []
  {
  }

  /** 10000 at 5% for 3 years: interest 1500, total 11500, year-end totals
      10500, 11000, 11500. */
  lemma ThreeYearsAtFivePercent()
    ensures TotalAmount(10000, 5.0, 3) == 11500
    ensures YearlyGrowth(10000, 5.0, 3) == [10500, 11000, 11500]
  {
    assert TotalAmount(10000, 5.0, 1) == 10500;
    assert TotalAmount(10000, 5.0, 2) == 11000;
  }
}
