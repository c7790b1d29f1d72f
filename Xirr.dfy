/** The XIRR calculator: a monthly investment from the start date until the
    maturity date, valued as an annuity due at the expected rate, and the
    annualised internal rate of return of the resulting cashflows found by
    Newton's method with a bisection fallback. It runs the injected validator
    first and fails with its violations instead of computing. The net present
    value and its derivative are parameters of the model. */
module Xirr {
  import opened Numerics
  import opened Validation
  import opened Annuity
  import opened Calendar

  const MinRate: real := -0.999999999
  const Tolerance: real := 0.0000000001
  const DerivativeTolerance: real := 0.000000000001
  const MaxNewtonIterations: nat := 50
  const MaxBisectionIterations: nat := 200
  const MaxBracketingIterations: nat := 60

  datatype XirrInput = XirrInput(
    investmentStartDate: DateTime,
    investmentMaturityDate: DateTime,
    monthlyInvestmentAmount: int,
    expectedAnnualReturnRate: real)   // percent per year

  /** One dated amount: an investment is negative, the maturity positive. */
  datatype Cashflow = Cashflow(date: Date, amount: real)

  /** What BuildCashflows hands back: the cashflows and the amounts derived
      from them. */
  datatype Calculation = Calculation(
    cashflows: seq<Cashflow>,
    initialPrincipal: real,
    totalGain: real,
    finalAmount: real)

  /** The result as the calculator builds it, year-end amounts included. */
  datatype XirrResult = XirrResult(
    inputs: XirrInput,
    initialPrincipal: real,
    totalGain: real,
    finalAmount: real,
    xirr: real,
    yearlyGrowth: seq<int>)

  /** The net present value of a cashflow list at a rate, relative to an
      origin date, and its derivative in the rate. */
  datatype Valuation = Valuation(
    npv: (seq<Cashflow>, Date, real) -> real,
    derivative: (seq<Cashflow>, Date, real) -> real)

  /** The annual percentage as a monthly fraction. */
  function MonthlyRate(rate: real): real
  {
    rate / 1200.0
  }

  // ---------------------------------------------------------------------------
  // Cashflows

  /** The investment dates: the start date and then one month later each
      time, while the date is still before maturity. */
  function MonthlyDates(date: ValidDate, maturity: ValidDate): (ds: seq<Date>)
    decreases MonthIndex(maturity) - MonthIndex(date) + 1
    ensures ds == [] <==> !Before(date, maturity)
  {
    if Before(date, maturity) then
      BeforeBoundsMonth(date, maturity);
      [date] + MonthlyDates(AddMonths(date, 1), maturity)
    else
      []
  }

  /** The dates start at the start date, are all valid and before maturity,
      each is one month after the one before it, and one more month would
      not be before maturity. */
  lemma {:induction false} MonthlyDatesShape(date: ValidDate, maturity: ValidDate)
    decreases MonthIndex(maturity) - MonthIndex(date) + 1
    ensures var ds := MonthlyDates(date, maturity);
      && (forall i :: 0 <= i < |ds| ==> Valid(ds[i]) && Before(ds[i], maturity))
      && (ds != [] ==> ds[0] == date && !Before(AddMonths(ds[|ds| - 1], 1), maturity))
      && (forall i, j :: 0 <= i && j == i + 1 && j < |ds| ==> ds[j] == AddMonths(ds[i], 1))
  {
    if Before(date, maturity) {
      BeforeBoundsMonth(date, maturity);
      var next: ValidDate := AddMonths(date, 1);
      MonthlyDatesShape(next, maturity);
      var ds, rest := MonthlyDates(date, maturity), MonthlyDates(next, maturity);
      assert ds == [date] + rest;
      forall i | 0 <= i < |ds|
        ensures Valid(ds[i]) && Before(ds[i], maturity)
      {
        if i > 0 {
          assert ds[i] == rest[i - 1];
        }
      }
      forall i, j | 0 <= i && j == i + 1 && j < |ds|
        ensures ds[j] == AddMonths(ds[i], 1)
      {
        if i > 0 {
          assert ds[i] == rest[i - 1] && ds[j] == rest[j - 1];
        }
      }
    }
  }

  /** One investment of the monthly amount on each date, then the final
      amount on the maturity date. */
  function CashflowList(dates: seq<Date>, monthly: int, maturity: Date, finalAmount: real): (flows: seq<Cashflow>)
    ensures |flows| == |dates| + 1
    ensures forall i :: 0 <= i < |dates| ==> flows[i] == Cashflow(dates[i], -(monthly as real))
    ensures flows[|dates|] == Cashflow(maturity, finalAmount)
  {
    Investments(dates, monthly) + [Cashflow(maturity, finalAmount)]
  }

  /** An investment of the monthly amount, as a negative cashflow, on each
      date in turn. */
  function Investments(dates: seq<Date>, monthly: int): (flows: seq<Cashflow>)
    ensures |flows| == |dates|
    ensures forall i :: 0 <= i < |dates| ==> flows[i] == Cashflow(dates[i], -(monthly as real))
  {
    if dates == [] then []
    else Investments(dates[..|dates| - 1], monthly) + [Cashflow(dates[|dates| - 1], -(monthly as real))]
  }

  /** The amount accumulated by a monthly investment over the given number of
      months: the plain sum at a zero rate, otherwise the annuity-due value
      m * ((1 + r)^n - 1) / r * (1 + r). */
  function FinalAmount(monthly: int, r: real, months: nat): real
  {
    if r == 0.0 then (monthly * months) as real
    else AnnuityDue(monthly as real, r, months)
  }

  /** The cashflows of an input: investments on every monthly date and the
      final amount at maturity. */
  function Cashflows(input: XirrInput): seq<Cashflow>
  {
    var start, maturity := input.investmentStartDate.date, input.investmentMaturityDate.date;
    var dates := MonthlyDates(start, maturity);
    CashflowList(dates, input.monthlyInvestmentAmount, maturity,
                 FinalAmount(input.monthlyInvestmentAmount, MonthlyRate(input.expectedAnnualReturnRate), |dates|))
  }

  /** Investing on one more date appends one investment. */
  lemma InvestmentsAppend(dates: seq<Date>, date: Date, monthly: int)
    ensures Investments(dates + [date], monthly) == Investments(dates, monthly) + [Cashflow(date, -(monthly as real))]
  {
    assert (dates + [date])[..|dates|] == dates;
  }

  /** Step through the months from start to maturity appending an investment
      for each, then value them and append the final amount. */
  method BuildCashflows(input: XirrInput, startDate: ValidDate, maturityDate: ValidDate) returns (c: Calculation)
    ensures var dates := MonthlyDates(startDate, maturityDate);
      && c.initialPrincipal == (input.monthlyInvestmentAmount * |dates|) as real
      && c.finalAmount == FinalAmount(input.monthlyInvestmentAmount, MonthlyRate(input.expectedAnnualReturnRate), |dates|)
      && c.totalGain == c.finalAmount - c.initialPrincipal
      && c.cashflows == CashflowList(dates, input.monthlyInvestmentAmount, maturityDate, c.finalAmount)
  {
    var monthly := input.monthlyInvestmentAmount;
    var cashflows: seq<Cashflow> := [];
    ghost var done: seq<Date> := [];
    var date: ValidDate := startDate;
    while Before(date, maturityDate)
      invariant done + MonthlyDates(date, maturityDate) == MonthlyDates(startDate, maturityDate)
      invariant cashflows == Investments(done, monthly)
      decreases MonthIndex(maturityDate) - MonthIndex(date) + 1
    {
      BeforeBoundsMonth(date, maturityDate);
      ghost var rest := MonthlyDates(AddMonths(date, 1), maturityDate);
      assert MonthlyDates(date, maturityDate) == [date] + rest;
      assert done + ([date] + rest) == (done + [date]) + rest;
      InvestmentsAppend(done, date, monthly);
      cashflows := cashflows + [Cashflow(date, -(monthly as real))];
      done := done + [date];
      date := AddMonths(date, 1);
    }
    assert done == MonthlyDates(startDate, maturityDate);
    var totalMonths := |cashflows|;
    var initialPrincipal := (monthly * totalMonths) as real;
    var monthlyRate := input.expectedAnnualReturnRate / (12.0 * 100.0);
    var finalAmount := FinalAmount(monthly, monthlyRate, totalMonths);
    var totalGain := finalAmount - initialPrincipal;
    cashflows := cashflows + [Cashflow(maturityDate, finalAmount)];
    c := Calculation(cashflows, initialPrincipal, totalGain, finalAmount);
  }

  /** Both branches of the final amount agree with the month-by-month
      balance. */
  lemma FinalAmountIsMonthByMonthBalance(monthly: int, r: real, months: nat)
    ensures FinalAmount(monthly, r, months) == Accumulated(monthly as real, r, months)
  {
    if r == 0.0 {
      AccumulatedWithoutGrowth(monthly as real, months);
    } else {
      AnnuityDueIsAccumulated(monthly as real, r, months);
    }
  }

  /** With no months there is nothing invested and nothing accumulated. */
  lemma NoMonthsNoAmount(monthly: int, r: real)
    ensures FinalAmount(monthly, r, 0) == 0.0
  {
    FinalAmountIsMonthByMonthBalance(monthly, r, 0);
  }

  /** With a non-negative investment and rate, a longer period never
      accumulates less. */
  lemma FinalAmountNonDecreasing(monthly: int, r: real, m: nat, n: nat)
    requires monthly >= 0 && r >= 0.0 && m <= n
    ensures FinalAmount(monthly, r, m) <= FinalAmount(monthly, r, n)
  {
    FinalAmountIsMonthByMonthBalance(monthly, r, m);
    FinalAmountIsMonthByMonthBalance(monthly, r, n);
    AccumulatedNonDecreasing(monthly as real, r, m, n);
  }

  /** Twelve more months grow the amount reached so far for a year and add one
      fresh year of investments: consecutive whole-year amounts differ by
      exactly that step. */
  lemma YearEndStep(monthly: int, r: real, m: nat)
    ensures FinalAmount(monthly, r, m + 12)
         == Pow(1.0 + r, 12) * FinalAmount(monthly, r, m) + FinalAmount(monthly, r, 12)
  {
    if r == 0.0 {
      PowOne(12);
    } else {
      AnnuityDueSplit(monthly as real, r, m, 12);
    }
  }

  // ---------------------------------------------------------------------------
  // Year-end amounts

  /** The amount at the end of each year of the plan, the last year possibly
      partial, each rounded half away from zero; none when there are no
      months. */
  function YearlyGrowth(monthly: int, rate: real, totalMonths: int): seq<int>
  {
    if totalMonths <= 0 then []
    else
      CeilMonthsToYears(totalMonths);
      seq(Ceil(totalMonths as real / 12.0),
          k requires 0 <= k => RoundHalfAway(FinalAmount(monthly, MonthlyRate(rate), Min((k + 1) * 12, totalMonths))))
  }

  /** Fill a fresh array with the rounded amount at the end of each year. */
  method BuildYearlyGrowth(monthlyInvestmentAmount: int, annualReturnRate: real, totalMonths: int)
    returns (growth: seq<int>)
    ensures growth == YearlyGrowth(monthlyInvestmentAmount, annualReturnRate, totalMonths)
  {
    if totalMonths <= 0 {
      return [];
    }
    var monthlyRate := annualReturnRate / (12.0 * 100.0);
    CeilMonthsToYears(totalMonths);
    var yearlyPoints := Ceil(totalMonths as real / 12.0);
    var yearlyGrowth := new int[yearlyPoints];
    var year := 1;
    while year <= yearlyPoints
      invariant 1 <= year <= yearlyPoints + 1
      invariant forall k :: 0 <= k < year - 1 ==>
        yearlyGrowth[k] == RoundHalfAway(FinalAmount(monthlyInvestmentAmount, monthlyRate, Min((k + 1) * 12, totalMonths)))
    {
      var months := Min(year * 12, totalMonths);
      var endOfYearAmount := FinalAmount(monthlyInvestmentAmount, monthlyRate, months);
      yearlyGrowth[year - 1] := RoundHalfAway(endOfYearAmount);
      year := year + 1;
    }
    growth := yearlyGrowth[..];
  }

  /** One entry per started year; every entry but the last covers whole
      years, the last is the rounded final amount, and with a non-negative
      investment and rate the entries never decrease. */
  lemma YearlyGrowthShape(monthly: int, rate: real, totalMonths: int)
    requires totalMonths > 0
    ensures |YearlyGrowth(monthly, rate, totalMonths)| == (totalMonths + 11) / 12
    ensures forall k :: 0 <= k < (totalMonths + 11) / 12 - 1 ==>
      YearlyGrowth(monthly, rate, totalMonths)[k] == RoundHalfAway(FinalAmount(monthly, MonthlyRate(rate), 12 * (k + 1)))
    ensures YearlyGrowth(monthly, rate, totalMonths)[(totalMonths + 11) / 12 - 1]
         == RoundHalfAway(FinalAmount(monthly, MonthlyRate(rate), totalMonths))
    ensures monthly >= 0 && rate >= 0.0 ==>
      forall k :: 0 <= k < (totalMonths + 11) / 12 - 1 ==>
        YearlyGrowth(monthly, rate, totalMonths)[k] <= YearlyGrowth(monthly, rate, totalMonths)[k + 1]
  {
    CeilMonthsToYears(totalMonths);
    var n := (totalMonths + 11) / 12;
    var g := YearlyGrowth(monthly, rate, totalMonths);
    var r := MonthlyRate(rate);
    assert Min(n * 12, totalMonths) == totalMonths;
    forall k | 0 <= k < n - 1
      ensures g[k] == RoundHalfAway(FinalAmount(monthly, r, 12 * (k + 1)))
    {
      assert Min((k + 1) * 12, totalMonths) == 12 * (k + 1);
    }
    if monthly >= 0 && rate >= 0.0 {
      forall k | 0 <= k < n - 1
        ensures g[k] <= g[k + 1]
      {
        var a, b := Min((k + 1) * 12, totalMonths), Min((k + 2) * 12, totalMonths);
        FinalAmountNonDecreasing(monthly, r, a, b);
        RoundHalfAwayMonotone(FinalAmount(monthly, r, a), FinalAmount(monthly, r, b));
      }
    }
  }

  // ---------------------------------------------------------------------------
  // Solving for the rate

  /** How Newton's iteration ended: a rate it accepts, or the last rate it
      reached before giving up. */
  datatype NewtonOutcome = Converged(rate: real) | GaveUp(rate: real)

  /** Newton's iteration from a rate, with at most the given number of steps
      left. It accepts a rate whose NPV is within tolerance, or a step that
      moves less than the tolerance; it gives up on a flat derivative, on a
      step to MinRate or below, or when the steps run out. */
  function NewtonRun(v: Valuation, cashflows: seq<Cashflow>, origin: Date, rate: real, remaining: nat): NewtonOutcome
    decreases remaining
  {
    if remaining == 0 then GaveUp(rate)
    else
      var npv := v.npv(cashflows, origin, rate);
      if Abs(npv) <= Tolerance then Converged(rate)
      else
        var derivative := v.derivative(cashflows, origin, rate);
        if Abs(derivative) <= DerivativeTolerance then GaveUp(rate)
        else
          var nextRate := rate - npv / derivative;
          if nextRate <= MinRate then GaveUp(rate)
          else if Abs(nextRate - rate) <= Tolerance then Converged(nextRate)
          else NewtonRun(v, cashflows, origin, nextRate, remaining - 1)
  }

  /** The upper end of the bracket: doubled (plus 0.1) while its NPV has the
      same sign as the NPV at the lower end, at most the given number of
      times. */
  function ExpandUpper(v: Valuation, cashflows: seq<Cashflow>, origin: Date, lowerValue: real, upper: real, remaining: nat): real
    decreases remaining
  {
    if remaining == 0 || !(lowerValue * v.npv(cashflows, origin, upper) > 0.0) then upper
    else ExpandUpper(v, cashflows, origin, lowerValue, upper * 2.0 + 0.1, remaining - 1)
  }

  /** A bisection bracket: its ends and the NPV at the lower end. */
  datatype Bracket = Bracket(lower: real, upper: real, lowerValue: real)

  function Midpoint(b: Bracket): real
  {
    (b.lower + b.upper) / 2.0
  }

  /** The bracket whose midpoint bisection returns: halved toward the sign
      change while the midpoint's NPV and the bracket's width are both above
      the tolerance, at most the given number of times. */
  function Bisect(v: Valuation, cashflows: seq<Cashflow>, origin: Date, b: Bracket, remaining: nat): Bracket
    decreases remaining
  {
    if remaining == 0 then b
    else
      var midpoint := Midpoint(b);
      var midpointValue := v.npv(cashflows, origin, midpoint);
      if Abs(midpointValue) <= Tolerance || Abs(b.upper - b.lower) <= Tolerance then b
      else if b.lowerValue * midpointValue < 0.0 then
        Bisect(v, cashflows, origin, Bracket(b.lower, midpoint, b.lowerValue), remaining - 1)
      else
        Bisect(v, cashflows, origin, Bracket(midpoint, b.upper, midpointValue), remaining - 1)
  }

  /** The clamped initial guess for Newton's iteration. */
  function InitialRate(initialGuess: real): (r: real)
    ensures -0.9 <= r <= 1.0
    ensures -0.9 <= initialGuess <= 1.0 ==> r == initialGuess
    ensures forall y :: -0.9 <= y <= 1.0 ==> Distance(r, initialGuess) <= Distance(y, initialGuess)
  {
    Clamp(initialGuess, -0.9, 1.0)
  }

  /** The rate Solve returns: Newton's accepted rate; failing that, the
      midpoint of the bisected bracket [MinRate, upper]; and when no sign
      change was bracketed, Newton's last rate. */
  function Solution(v: Valuation, cashflows: seq<Cashflow>, origin: Date, initialGuess: real): real
  {
    var guess := InitialRate(initialGuess);
    var newton := NewtonRun(v, cashflows, origin, guess, MaxNewtonIterations);
    if newton.Converged? then newton.rate
    else
      var lowerValue := v.npv(cashflows, origin, MinRate);
      var upper := ExpandUpper(v, cashflows, origin, lowerValue, MaxReal(guess, 0.1), MaxBracketingIterations);
      if lowerValue * v.npv(cashflows, origin, upper) > 0.0 then newton.rate
      else Midpoint(Bisect(v, cashflows, origin, Bracket(MinRate, upper, lowerValue), MaxBisectionIterations))
  }

  /** Newton's iteration from the clamped guess, at most MaxNewtonIterations
      steps. */
  method NewtonIterate(v: Valuation, cashflows: seq<Cashflow>, originDate: Date, guess: real) returns (outcome: NewtonOutcome)
    ensures outcome == NewtonRun(v, cashflows, originDate, guess, MaxNewtonIterations)
  {
    var newtonRate := guess;
    var iteration := 0;
    while iteration < MaxNewtonIterations
      invariant 0 <= iteration <= MaxNewtonIterations
      invariant NewtonRun(v, cashflows, originDate, newtonRate, MaxNewtonIterations - iteration)
             == NewtonRun(v, cashflows, originDate, guess, MaxNewtonIterations)
    {
      var npv := v.npv(cashflows, originDate, newtonRate);
      if Abs(npv) <= Tolerance {
        return Converged(newtonRate);
      }
      var derivative := v.derivative(cashflows, originDate, newtonRate);
      if Abs(derivative) <= DerivativeTolerance {
        break;
      }
      var nextRate := newtonRate - npv / derivative;
      if nextRate <= MinRate {
        break;
      }
      if Abs(nextRate - newtonRate) <= Tolerance {
        return Converged(nextRate);
      }
      newtonRate := nextRate;
      iteration := iteration + 1;
    }
    outcome := GaveUp(newtonRate);
  }

  /** Move the upper end out until the NPVs at the two ends no longer have the
      same sign, at most MaxBracketingIterations times; returns the upper end
      and its NPV. */
  method ExpandBracket(v: Valuation, cashflows: seq<Cashflow>, originDate: Date, lowerValue: real, start: real)
    returns (upperBound: real, upperValue: real)
    ensures upperBound == ExpandUpper(v, cashflows, originDate, lowerValue, start, MaxBracketingIterations)
    ensures upperValue == v.npv(cashflows, originDate, upperBound)
  {
    upperBound := start;
    upperValue := v.npv(cashflows, originDate, upperBound);
    var iteration := 0;
    while iteration < MaxBracketingIterations && lowerValue * upperValue > 0.0
      invariant 0 <= iteration <= MaxBracketingIterations
      invariant upperValue == v.npv(cashflows, originDate, upperBound)
      invariant ExpandUpper(v, cashflows, originDate, lowerValue, upperBound, MaxBracketingIterations - iteration)
             == ExpandUpper(v, cashflows, originDate, lowerValue, start, MaxBracketingIterations)
    {
      upperBound := upperBound * 2.0 + 0.1;
      upperValue := v.npv(cashflows, originDate, upperBound);
      iteration := iteration + 1;
    }
  }

  /** Halve the bracket toward the sign change, at most MaxBisectionIterations
      times, and return the midpoint where it stops. */
  method Bisection(v: Valuation, cashflows: seq<Cashflow>, originDate: Date, initial: Bracket) returns (rate: real)
    ensures rate == Midpoint(Bisect(v, cashflows, originDate, initial, MaxBisectionIterations))
  {
    var lowerBound, upperBound, lowerValue := initial.lower, initial.upper, initial.lowerValue;
    var iteration := 0;
    while iteration < MaxBisectionIterations
      invariant 0 <= iteration <= MaxBisectionIterations
      invariant Bisect(v, cashflows, originDate, Bracket(lowerBound, upperBound, lowerValue), MaxBisectionIterations - iteration)
             == Bisect(v, cashflows, originDate, initial, MaxBisectionIterations)
    {
      var midpoint := (lowerBound + upperBound) / 2.0;
      var midpointValue := v.npv(cashflows, originDate, midpoint);
      if Abs(midpointValue) <= Tolerance || Abs(upperBound - lowerBound) <= Tolerance {
        return midpoint;
      }
      if lowerValue * midpointValue < 0.0 {
        upperBound := midpoint;
      } else {
        lowerBound := midpoint;
        lowerValue := midpointValue;
      }
      iteration := iteration + 1;
    }
    rate := (lowerBound + upperBound) / 2.0;
  }

  /** Newton's iteration; if it does not converge, the bracket [MinRate, upper]
      and bisection; if no sign change is bracketed, Newton's last rate. */
  method Solve(v: Valuation, cashflows: seq<Cashflow>, originDate: Date, initialGuess: real) returns (rate: real)
    ensures rate == Solution(v, cashflows, originDate, initialGuess)
  {
    var guess := InitialRate(initialGuess);
    var newton := NewtonIterate(v, cashflows, originDate, guess);
    if newton.Converged? {
      return newton.rate;
    }
    var lowerBound := MinRate;
    var lowerValue := v.npv(cashflows, originDate, lowerBound);
    var upperBound, upperValue := ExpandBracket(v, cashflows, originDate, lowerValue, MaxReal(guess, 0.1));
    if lowerValue * upperValue > 0.0 {
      return newton.rate;
    }
    rate := Bisection(v, cashflows, originDate, Bracket(lowerBound, upperBound, lowerValue));
  }

  // ---------------------------------------------------------------------------
  // Properties of the solver

  /** Newton's iteration never reports a rate at or below MinRate when it
      starts above it. */
  lemma {:induction false} NewtonStaysAboveMinRate(v: Valuation, cashflows: seq<Cashflow>, origin: Date, rate: real, remaining: nat)
    requires rate > MinRate
    ensures NewtonRun(v, cashflows, origin, rate, remaining).rate > MinRate
    decreases remaining
  {
    if remaining > 0 {
      var npv := v.npv(cashflows, origin, rate);
      var derivative := v.derivative(cashflows, origin, rate);
      if Abs(npv) > Tolerance && Abs(derivative) > DerivativeTolerance {
        var nextRate := rate - npv / derivative;
        if nextRate > MinRate && Abs(nextRate - rate) > Tolerance {
          NewtonStaysAboveMinRate(v, cashflows, origin, nextRate, remaining - 1);
        }
      }
    }
  }

  /** Expanding never lowers the upper end when it starts non-negative. */
  lemma {:induction false} ExpandUpperGrows(v: Valuation, cashflows: seq<Cashflow>, origin: Date, lowerValue: real, upper: real, remaining: nat)
    requires upper >= 0.0
    ensures ExpandUpper(v, cashflows, origin, lowerValue, upper, remaining) >= upper
    decreases remaining
  {
    if remaining > 0 && lowerValue * v.npv(cashflows, origin, upper) > 0.0 {
      ExpandUpperGrows(v, cashflows, origin, lowerValue, upper * 2.0 + 0.1, remaining - 1);
    }
  }

  /** A value of the same sign as one end of a sign change has the opposite
      sign to the other end. */
  lemma SameSignKeepsChange(l: real, m: real, u: real)
    requires l * u < 0.0 && l * m >= 0.0 && m != 0.0
    ensures m * u < 0.0
  {
    if l > 0.0 {
      assert u < 0.0;
      assert m > 0.0;
    } else {
      assert u > 0.0;
      assert m < 0.0;
    }
  }

  /** Bisection stays inside its starting bracket, never collapses it, and
      keeps the NPV at the lower end. */
  lemma {:induction false} BisectStaysInside(v: Valuation, cashflows: seq<Cashflow>, origin: Date, b: Bracket, remaining: nat)
    requires b.lower < b.upper && b.lowerValue == v.npv(cashflows, origin, b.lower)
    ensures var f := Bisect(v, cashflows, origin, b, remaining);
      && b.lower <= f.lower < f.upper <= b.upper
      && f.lowerValue == v.npv(cashflows, origin, f.lower)
    decreases remaining
  {
    if remaining > 0 {
      var midpoint := Midpoint(b);
      var midpointValue := v.npv(cashflows, origin, midpoint);
      if Abs(midpointValue) > Tolerance && Abs(b.upper - b.lower) > Tolerance {
        var next := if b.lowerValue * midpointValue < 0.0
          then Bracket(b.lower, midpoint, b.lowerValue)
          else Bracket(midpoint, b.upper, midpointValue);
        assert Bisect(v, cashflows, origin, b, remaining) == Bisect(v, cashflows, origin, next, remaining - 1);
        BisectStaysInside(v, cashflows, origin, next, remaining - 1);
      }
    }
  }

  /** When the NPVs at the two ends have strictly opposite signs, they still
      do at the ends of the bracket bisection stops at. */
  lemma {:induction false} BisectKeepsSignChange(v: Valuation, cashflows: seq<Cashflow>, origin: Date, b: Bracket, remaining: nat)
    requires b.lowerValue * v.npv(cashflows, origin, b.upper) < 0.0
    ensures var f := Bisect(v, cashflows, origin, b, remaining);
      f.lowerValue * v.npv(cashflows, origin, f.upper) < 0.0
    decreases remaining
  {
    if remaining > 0 {
      var midpoint := Midpoint(b);
      var midpointValue := v.npv(cashflows, origin, midpoint);
      if Abs(midpointValue) > Tolerance && Abs(b.upper - b.lower) > Tolerance {
        var next := if b.lowerValue * midpointValue < 0.0
          then Bracket(b.lower, midpoint, b.lowerValue)
          else Bracket(midpoint, b.upper, midpointValue);
        assert Bisect(v, cashflows, origin, b, remaining) == Bisect(v, cashflows, origin, next, remaining - 1);
        if b.lowerValue * midpointValue >= 0.0 {
          SameSignKeepsChange(b.lowerValue, midpointValue, v.npv(cashflows, origin, b.upper));
        }
        BisectKeepsSignChange(v, cashflows, origin, next, remaining - 1);
      }
    }
  }

  /** A width halved n times. */
  function Halved(width: real, n: nat): real
    decreases n
  {
    if n == 0 then width else Halved(width / 2.0, n - 1)
  }

  /** Halving n times is dividing by 2^n. */
  lemma {:induction false} HalvedIsDividedByPow(width: real, n: nat)
    ensures Halved(width, n) * Pow(2.0, n) == width
    decreases n
  {
    if n > 0 {
      HalvedIsDividedByPow(width / 2.0, n - 1);
      var x, p, q := Halved(width, n), Pow(2.0, n - 1), Pow(2.0, n);
      assert x * p == width / 2.0;
      assert q == 2.0 * p;
      assert x * q == 2.0 * (x * p);
    }
  }

  /** Bisection stops early only on a midpoint whose NPV is within tolerance
      or a bracket no wider than the tolerance; otherwise it took every
      allowed step and each halved the width. */
  lemma {:induction false} BisectHalves(v: Valuation, cashflows: seq<Cashflow>, origin: Date, b: Bracket, remaining: nat)
    ensures var f := Bisect(v, cashflows, origin, b, remaining);
      || Abs(v.npv(cashflows, origin, Midpoint(f))) <= Tolerance
      || Abs(f.upper - f.lower) <= Tolerance
      || f.upper - f.lower == Halved(b.upper - b.lower, remaining)
    decreases remaining
  {
    if remaining > 0 {
      var midpoint := Midpoint(b);
      var midpointValue := v.npv(cashflows, origin, midpoint);
      if Abs(midpointValue) > Tolerance && Abs(b.upper - b.lower) > Tolerance {
        var next := if b.lowerValue * midpointValue < 0.0
          then Bracket(b.lower, midpoint, b.lowerValue)
          else Bracket(midpoint, b.upper, midpointValue);
        assert Bisect(v, cashflows, origin, b, remaining) == Bisect(v, cashflows, origin, next, remaining - 1);
        assert next.upper - next.lower == (b.upper - b.lower) / 2.0;
        BisectHalves(v, cashflows, origin, next, remaining - 1);
      }
    }
  }

  /** The same in closed form: unless bisection stopped on a tolerance, the
      starting width is the final width times 2^remaining. */
  lemma BisectWidth(v: Valuation, cashflows: seq<Cashflow>, origin: Date, b: Bracket, remaining: nat)
    ensures var f := Bisect(v, cashflows, origin, b, remaining);
      || Abs(v.npv(cashflows, origin, Midpoint(f))) <= Tolerance
      || Abs(f.upper - f.lower) <= Tolerance
      || (f.upper - f.lower) * Pow(2.0, remaining) == b.upper - b.lower
  {
    BisectHalves(v, cashflows, origin, b, remaining);
    HalvedIsDividedByPow(b.upper - b.lower, remaining);
  }

  /** The solver never returns a rate at or below MinRate. */
  lemma SolutionAboveMinRate(v: Valuation, cashflows: seq<Cashflow>, origin: Date, initialGuess: real)
    ensures Solution(v, cashflows, origin, initialGuess) > MinRate
  {
    var guess := InitialRate(initialGuess);
    NewtonStaysAboveMinRate(v, cashflows, origin, guess, MaxNewtonIterations);
    var newton := NewtonRun(v, cashflows, origin, guess, MaxNewtonIterations);
    if !newton.Converged? {
      var lowerValue := v.npv(cashflows, origin, MinRate);
      var upper := ExpandUpper(v, cashflows, origin, lowerValue, MaxReal(guess, 0.1), MaxBracketingIterations);
      if !(lowerValue * v.npv(cashflows, origin, upper) > 0.0) {
        ExpandUpperGrows(v, cashflows, origin, lowerValue, MaxReal(guess, 0.1), MaxBracketingIterations);
        var f := Bisect(v, cashflows, origin, Bracket(MinRate, upper, lowerValue), MaxBisectionIterations);
        BisectStaysInside(v, cashflows, origin, Bracket(MinRate, upper, lowerValue), MaxBisectionIterations);
        assert Solution(v, cashflows, origin, initialGuess) == Midpoint(f);
      }
    }
  }

  /** When the NPV at the clamped guess is already within tolerance, that
      guess is the answer. In particular an NPV that is zero at every rate
      gives back the clamped guess, not zero. */
  lemma RootAtGuess(v: Valuation, cashflows: seq<Cashflow>, origin: Date, initialGuess: real)
    requires Abs(v.npv(cashflows, origin, InitialRate(initialGuess))) <= Tolerance
    ensures Solution(v, cashflows, origin, initialGuess) == InitialRate(initialGuess)
  {
  }

  /** Once a sign change is bracketed, the answer is the midpoint of a bracket
      inside [MinRate, upper] that still holds the sign change when the
      starting one did strictly. */
  lemma BracketedSolution(v: Valuation, cashflows: seq<Cashflow>, origin: Date, initialGuess: real)
    requires !NewtonRun(v, cashflows, origin, InitialRate(initialGuess), MaxNewtonIterations).Converged?
    ensures var guess := InitialRate(initialGuess);
      var lowerValue := v.npv(cashflows, origin, MinRate);
      var upper := ExpandUpper(v, cashflows, origin, lowerValue, MaxReal(guess, 0.1), MaxBracketingIterations);
      lowerValue * v.npv(cashflows, origin, upper) <= 0.0 ==>
        var f := Bisect(v, cashflows, origin, Bracket(MinRate, upper, lowerValue), MaxBisectionIterations);
        && Solution(v, cashflows, origin, initialGuess) == Midpoint(f)
        && MinRate <= f.lower < Midpoint(f) < f.upper <= upper
        && (lowerValue * v.npv(cashflows, origin, upper) < 0.0 ==>
              f.lowerValue * v.npv(cashflows, origin, f.upper) < 0.0)
  {
    var guess := InitialRate(initialGuess);
    var lowerValue := v.npv(cashflows, origin, MinRate);
    var upper := ExpandUpper(v, cashflows, origin, lowerValue, MaxReal(guess, 0.1), MaxBracketingIterations);
    if lowerValue * v.npv(cashflows, origin, upper) <= 0.0 {
      ExpandUpperGrows(v, cashflows, origin, lowerValue, MaxReal(guess, 0.1), MaxBracketingIterations);
      BisectFromMinRate(v, cashflows, origin, upper);
      SolutionWhenBracketed(v, cashflows, origin, initialGuess, lowerValue, upper);
    }
  }

  /** Bisection of [MinRate, upper] ends strictly inside it, keeping a strict
      sign change. */
  lemma BisectFromMinRate(v: Valuation, cashflows: seq<Cashflow>, origin: Date, upper: real)
    requires MinRate < upper
    ensures var lowerValue := v.npv(cashflows, origin, MinRate);
      var f := Bisect(v, cashflows, origin, Bracket(MinRate, upper, lowerValue), MaxBisectionIterations);
      && MinRate <= f.lower < Midpoint(f) < f.upper <= upper
      && (lowerValue * v.npv(cashflows, origin, upper) < 0.0 ==>
            f.lowerValue * v.npv(cashflows, origin, f.upper) < 0.0)
  {
    var b := Bracket(MinRate, upper, v.npv(cashflows, origin, MinRate));
    BisectStaysInside(v, cashflows, origin, b, MaxBisectionIterations);
    if b.lowerValue * v.npv(cashflows, origin, upper) < 0.0 {
      BisectKeepsSignChange(v, cashflows, origin, b, MaxBisectionIterations);
    }
  }

  /** When Newton gives up and a sign change is bracketed, the solver returns
      the bisection midpoint. */
  lemma SolutionWhenBracketed(v: Valuation, cashflows: seq<Cashflow>, origin: Date, initialGuess: real,
                              lowerValue: real, upper: real)
    requires !NewtonRun(v, cashflows, origin, InitialRate(initialGuess), MaxNewtonIterations).Converged?
    requires lowerValue == v.npv(cashflows, origin, MinRate)
    requires upper == ExpandUpper(v, cashflows, origin, lowerValue, MaxReal(InitialRate(initialGuess), 0.1), MaxBracketingIterations)
    requires lowerValue * v.npv(cashflows, origin, upper) <= 0.0
    ensures Solution(v, cashflows, origin, initialGuess)
         == Midpoint(Bisect(v, cashflows, origin, Bracket(MinRate, upper, lowerValue), MaxBisectionIterations))
  {
  }

  // ---------------------------------------------------------------------------
  // The calculator

  /** Validate, build the cashflows from the date parts of the two dates,
      solve for the rate from the expected rate as a guess, and build the
      year-end amounts over the monthly investments. */
  method Compute(validator: XirrInput -> seq<Violation>, v: Valuation, input: XirrInput)
    returns (outcome: Outcome<XirrResult>)
    ensures outcome.Err? <==> validator(input) != []
    ensures outcome.Err? ==> outcome.failure == ValidationFailed(validator(input))
    ensures outcome.Ok? ==>
      var res := outcome.value;
      var start := input.investmentStartDate.date;
      var months := |MonthlyDates(start, input.investmentMaturityDate.date)|;
      && res.inputs == input
      && res.initialPrincipal == (input.monthlyInvestmentAmount * months) as real
      && res.finalAmount == FinalAmount(input.monthlyInvestmentAmount, MonthlyRate(input.expectedAnnualReturnRate), months)
      && res.totalGain == res.finalAmount - res.initialPrincipal
      && res.xirr == Solution(v, Cashflows(input), start, input.expectedAnnualReturnRate / 100.0)
      && res.yearlyGrowth == YearlyGrowth(input.monthlyInvestmentAmount, input.expectedAnnualReturnRate, months)
  {
    var violations := validator(input);
    if violations != [] {
      return Err(ValidationFailed(violations));
    }
    var startDate := input.investmentStartDate.date;
    var maturityDate := input.investmentMaturityDate.date;
    var calculation := BuildCashflows(input, startDate, maturityDate);
    ghost var dates := MonthlyDates(startDate, maturityDate);
    assert calculation.cashflows == Cashflows(input);
    var initialGuess := input.expectedAnnualReturnRate / 100.0;
    var xirr := Solve(v, calculation.cashflows, startDate, initialGuess);
    assert xirr == Solution(v, Cashflows(input), startDate, initialGuess);
    var totalMonths := |calculation.cashflows| - 1;
    assert totalMonths == |dates|;
    var yearlyGrowth := BuildYearlyGrowth(input.monthlyInvestmentAmount, input.expectedAnnualReturnRate, totalMonths);
    outcome := Ok(XirrResult(input, calculation.initialPrincipal, calculation.totalGain, calculation.finalAmount, xirr, yearlyGrowth));
  }

  /** A maturity not after the start gives no investments: the only cashflow
      is a zero final amount on the maturity date, and the principal, final
      amount and gain are all zero. */
  lemma NoMonthsWhenMaturityNotAfterStart(input: XirrInput)
    requires !Before(input.investmentStartDate.date, input.investmentMaturityDate.date)
    ensures MonthlyDates(input.investmentStartDate.date, input.investmentMaturityDate.date) == []
    ensures Cashflows(input) == [Cashflow(input.investmentMaturityDate.date, 0.0)]
    ensures YearlyGrowth(input.monthlyInvestmentAmount, input.expectedAnnualReturnRate, 0) == []
  {
    NoMonthsNoAmount(input.monthlyInvestmentAmount, MonthlyRate(input.expectedAnnualReturnRate));
  }

  // ---------------------------------------------------------------------------
  // Validator

  const StartRangeMessage := "Investment start date is out of allowed range."
  const StartOrderMessage := "Investment start date must be before investment end date."
  const EndOrderMessage := "Investment end date must be after investment start date."
  const EndRangeMessage := "Investment end date is out of allowed range."
  const MonthlyMessage := "Monthly investment amount must be between 500 and 10000000."
  const RateMessage := "Expected annual return rate must be between 0 and 100."

  predicate StartInRange(today: ValidDate, input: XirrInput)
  {
    NotAfter(AddYears(today, -100), input.investmentStartDate.date)
  }

  predicate StartBeforeEnd(input: XirrInput)
  {
    Before(input.investmentStartDate.date, input.investmentMaturityDate.date)
  }

  predicate EndInRange(today: ValidDate, input: XirrInput)
  {
    NotAfter(input.investmentMaturityDate.date, AddYears(today, 100))
  }

  predicate MonthlyOk(input: XirrInput) { InclusiveBetween(input.monthlyInvestmentAmount as real, 500.0, 10000000.0) }
  predicate RateOk(input: XirrInput) { InclusiveBetween(input.expectedAnnualReturnRate, 0.0, 100.0) }

  /** The declared rules on the start date: the allowed range, then the order. */
  function StartChecks(today: ValidDate, input: XirrInput): seq<Check>
  {
    [Check(StartInRange(today, input), "InvestmentStartDate", StartRangeMessage),
     Check(StartBeforeEnd(input), "InvestmentStartDate", StartOrderMessage)]
  }

  /** The declared rules on the maturity date: the order, then the allowed range. */
  function MaturityChecks(today: ValidDate, input: XirrInput): seq<Check>
  {
    [Check(StartBeforeEnd(input), "InvestmentMaturityDate", EndOrderMessage),
     Check(EndInRange(today, input), "InvestmentMaturityDate", EndRangeMessage)]
  }

  /** The declared rules on the amount and the rate. */
  function AmountChecks(input: XirrInput): seq<Check>
  {
    [Check(MonthlyOk(input), "MonthlyInvestmentAmount", MonthlyMessage),
     Check(RateOk(input), "ExpectedAnnualReturnRate", RateMessage)]
  }

  /** All declared rules, in declaration order. */
  function Rules(today: ValidDate, input: XirrInput): seq<Check>
  {
    StartChecks(today, input) + MaturityChecks(today, input) + AmountChecks(input)
  }

  /** The failed rules on the start date, in rule order. */
  function StartDateRules(today: ValidDate, input: XirrInput): (vs: seq<Violation>)
    ensures vs == Failed(StartChecks(today, input))
    ensures vs == [] <==> StartInRange(today, input) && StartBeforeEnd(input)
    ensures Reports(vs, "InvestmentStartDate", StartRangeMessage, !StartInRange(today, input))
    ensures Reports(vs, "InvestmentStartDate", StartOrderMessage, !StartBeforeEnd(input))
    ensures forall w :: w in vs ==> w.field == "InvestmentStartDate"
    ensures |vs| == Failures(StartInRange(today, input)) + Failures(StartBeforeEnd(input))
  {
    FailedOfTwo(StartChecks(today, input));
    Rule(StartInRange(today, input), "InvestmentStartDate", StartRangeMessage)
    + Rule(StartBeforeEnd(input), "InvestmentStartDate", StartOrderMessage)
  }

  /** The failed rules on the maturity date, in rule order. */
  function MaturityDateRules(today: ValidDate, input: XirrInput): (vs: seq<Violation>)
    ensures vs == Failed(MaturityChecks(today, input))
    ensures vs == [] <==> StartBeforeEnd(input) && EndInRange(today, input)
    ensures Reports(vs, "InvestmentMaturityDate", EndOrderMessage, !StartBeforeEnd(input))
    ensures Reports(vs, "InvestmentMaturityDate", EndRangeMessage, !EndInRange(today, input))
    ensures forall w :: w in vs ==> w.field == "InvestmentMaturityDate"
    ensures |vs| == Failures(StartBeforeEnd(input)) + Failures(EndInRange(today, input))
  {
    FailedOfTwo(MaturityChecks(today, input));
    Rule(StartBeforeEnd(input), "InvestmentMaturityDate", EndOrderMessage)
    + Rule(EndInRange(today, input), "InvestmentMaturityDate", EndRangeMessage)
  }

  /** The failed rules on both dates: the start date's, then the maturity
      date's. */
  function DateRules(today: ValidDate, input: XirrInput): (vs: seq<Violation>)
    ensures vs == Failed(StartChecks(today, input) + MaturityChecks(today, input))
    ensures vs == [] <==> StartInRange(today, input) && StartBeforeEnd(input) && EndInRange(today, input)
    ensures Reports(vs, "InvestmentStartDate", StartRangeMessage, !StartInRange(today, input))
    ensures Reports(vs, "InvestmentStartDate", StartOrderMessage, !StartBeforeEnd(input))
    ensures Reports(vs, "InvestmentMaturityDate", EndOrderMessage, !StartBeforeEnd(input))
    ensures Reports(vs, "InvestmentMaturityDate", EndRangeMessage, !EndInRange(today, input))
    ensures forall w :: w in vs ==> w.field == "InvestmentStartDate" || w.field == "InvestmentMaturityDate"
    ensures |vs| == Failures(StartInRange(today, input)) + 2 * Failures(StartBeforeEnd(input))
                    + Failures(EndInRange(today, input))
  {
    FailedAppend(StartChecks(today, input), MaturityChecks(today, input));
    StartDateRules(today, input) + MaturityDateRules(today, input)
  }

  /** The failed rules on the monthly amount and the rate, in rule order. */
  function AmountRules(input: XirrInput): (vs: seq<Violation>)
    ensures vs == Failed(AmountChecks(input))
    ensures vs == [] <==> MonthlyOk(input) && RateOk(input)
    ensures Reports(vs, "MonthlyInvestmentAmount", MonthlyMessage, !MonthlyOk(input))
    ensures Reports(vs, "ExpectedAnnualReturnRate", RateMessage, !RateOk(input))
    ensures forall w :: w in vs ==> w.field == "MonthlyInvestmentAmount" || w.field == "ExpectedAnnualReturnRate"
    ensures |vs| == Failures(MonthlyOk(input)) + Failures(RateOk(input))
  {
    FailedOfTwo(AmountChecks(input));
    Rule(MonthlyOk(input), "MonthlyInvestmentAmount", MonthlyMessage)
    + Rule(RateOk(input), "ExpectedAnnualReturnRate", RateMessage)
  }

  /** Running all declared rules reports the date violations, then the
      amount and rate violations. */
  lemma FailedRulesInOrder(today: ValidDate, input: XirrInput)
    ensures Failed(Rules(today, input))
         == DateRules(today, input) + AmountRules(input)
  {
    FailedAppend(StartChecks(today, input) + MaturityChecks(today, input), AmountChecks(input));
  }

  /** Every failed rule, in rule order; both date properties carry two rules
      and the ordering rule is stated once on each. "Today" is a parameter. */
  function Validate(today: ValidDate, input: XirrInput): (vs: seq<Violation>)
    ensures vs == Failed(Rules(today, input))
    ensures vs == [] <==> StartInRange(today, input) && StartBeforeEnd(input) && EndInRange(today, input)
                          && MonthlyOk(input) && RateOk(input)
    ensures Reports(vs, "InvestmentStartDate", StartRangeMessage, !StartInRange(today, input))
    ensures Reports(vs, "InvestmentStartDate", StartOrderMessage, !StartBeforeEnd(input))
    ensures Reports(vs, "InvestmentMaturityDate", EndOrderMessage, !StartBeforeEnd(input))
    ensures Reports(vs, "InvestmentMaturityDate", EndRangeMessage, !EndInRange(today, input))
    ensures Reports(vs, "MonthlyInvestmentAmount", MonthlyMessage, !MonthlyOk(input))
    ensures Reports(vs, "ExpectedAnnualReturnRate", RateMessage, !RateOk(input))
    ensures |vs| == Failures(StartInRange(today, input)) + 2 * Failures(StartBeforeEnd(input))
                    + Failures(EndInRange(today, input)) + Failures(MonthlyOk(input)) + Failures(RateOk(input))
  {
    FailedRulesInOrder(today, input);
    DateRules(today, input) + AmountRules(input)
  }

  /** Only the dates matter, not the time of day. */
  lemma TimeOfDayIgnored(today: ValidDate, input: XirrInput, startTime: nat, maturityTime: nat)
    ensures Validate(today, input)
         == Validate(today, input.(investmentStartDate := DateTime(input.investmentStartDate.date, startTime),
                                   investmentMaturityDate := DateTime(input.investmentMaturityDate.date, maturityTime)))
  {
    var moved := input.(investmentStartDate := DateTime(input.investmentStartDate.date, startTime),
                        investmentMaturityDate := DateTime(input.investmentMaturityDate.date, maturityTime));
    assert StartChecks(today, input) == StartChecks(today, moved);
    assert MaturityChecks(today, input) == MaturityChecks(today, moved);
    assert AmountChecks(input) == AmountChecks(moved);
  }

  /** Equal start and maturity dates break the ordering rule on both
      fields. */
  lemma SameDayReportsBoth(today: ValidDate, input: XirrInput)
    requires input.investmentStartDate.date == input.investmentMaturityDate.date
    ensures Violation("InvestmentStartDate", StartOrderMessage) in Validate(today, input)
    ensures Violation("InvestmentMaturityDate", EndOrderMessage) in Validate(today, input)
  {
  }

  /** A start date that is both too old and not before maturity carries both
      of its messages, and they come first. */
  lemma StartDateCarriesTwoMessages(today: ValidDate, input: XirrInput)
    requires !StartInRange(today, input) && !StartBeforeEnd(input)
    ensures |Validate(today, input)| >= 2
    ensures Validate(today, input)[..2]
         == [Violation("InvestmentStartDate", StartRangeMessage), Violation("InvestmentStartDate", StartOrderMessage)]
  {
    var start, rest := StartDateRules(today, input), MaturityDateRules(today, input) + AmountRules(input);
    assert Validate(today, input) == start + rest;
    assert (start + rest)[..2] == start;
  }

  /** For instance a start on 1 June 1900, five months after maturity, with
      today 1 January 2025. */
  lemma StartDateTooOldAndLate()
    ensures var input := XirrInput(DateTime(Date(1900, 6, 1), 0), DateTime(Date(1900, 1, 1), 0), 1000, 12.0);
      !StartInRange(Date(2025, 1, 1), input) && !StartBeforeEnd(input)
  {
    assert AddYears(Date(2025, 1, 1), -100) == Date(1925, 1, 1);
  }

  /** Accepted input has its start strictly before maturity, so at least one
      monthly investment is made and the principal is at least the minimum
      monthly amount. */
  lemma AcceptedInputInvests(today: ValidDate, input: XirrInput)
    requires Validate(today, input) == []
    ensures |MonthlyDates(input.investmentStartDate.date, input.investmentMaturityDate.date)| >= 1
    ensures (input.monthlyInvestmentAmount * |MonthlyDates(input.investmentStartDate.date, input.investmentMaturityDate.date)|) as real >= 500.0
  {
    var n := |MonthlyDates(input.investmentStartDate.date, input.investmentMaturityDate.date)|;
    MultiplyMonotone(input.monthlyInvestmentAmount as real, 1.0, n as real);
  }
}
