/** The SWP (systematic withdrawal plan) calculator: a corpus that grows
    monthly while a fixed amount is withdrawn at the start of every month,
    and its input validator. The calculator itself does not call the
    validator. */
module Swp {
  import opened Numerics
  import opened Validation
  import opened Annuity

  datatype SwpInput = SwpInput(
    totalInvestmentAmount: int,
    monthlyWithdrawalAmount: int,
    expectedAnnualReturnRate: real,   // percent per year
    timePeriodInYears: int)

  /** The result as the calculator fills it in; its YearlyGrowth property is
      never assigned. */
  datatype SwpResult = SwpResult(
    inputs: SwpInput,
    totalWithdrawal: int,
    totalMaturityAmount: int)

  /** The annual percentage as a monthly fraction. */
  function MonthlyRate(rate: real): real
  {
    rate / 1200.0
  }

  /** The growth factor Math.Pow(1 + monthly rate, months), computed before the
      zero-rate test, is finite. */
  predicate Defined(rate: real, years: int)
  {
    PowDefined(1.0 + MonthlyRate(rate), years * 12)
  }

  /** Everything withdrawn: the withdrawal times the number of months. */
  function TotalWithdrawal(withdrawal: int, years: int): int
  {
    withdrawal * (years * 12)
  }

  /** The double the calculator rounds: the corpus minus the withdrawals at a
      zero rate, otherwise the grown corpus minus the annuity-due value of the
      withdrawals. It is not clamped and may be negative. */
  function Remaining(invested: int, withdrawal: int, rate: real, years: int): real
    requires Defined(rate, years)
  {
    var r := MonthlyRate(rate);
    var g := IPow(1.0 + r, years * 12);
    if r == 0.0 then (invested - TotalWithdrawal(withdrawal, years)) as real
    else invested as real * g - withdrawal as real * ((g - 1.0) / r) * (1.0 + r)
  }

  function Compute(input: SwpInput): (r: SwpResult)
    requires Defined(input.expectedAnnualReturnRate, input.timePeriodInYears)
    ensures r.inputs == input
    ensures r.totalWithdrawal == input.monthlyWithdrawalAmount * input.timePeriodInYears * 12
    ensures r.totalMaturityAmount == RoundHalfAway(Remaining(input.totalInvestmentAmount, input.monthlyWithdrawalAmount,
                                                             input.expectedAnnualReturnRate, input.timePeriodInYears))
  {
    var remaining := Remaining(input.totalInvestmentAmount, input.monthlyWithdrawalAmount,
                               input.expectedAnnualReturnRate, input.timePeriodInYears);
    SwpResult(input, TotalWithdrawal(input.monthlyWithdrawalAmount, input.timePeriodInYears), RoundHalfAway(remaining))
  }

  /** Reference definition: each month the withdrawal is taken out first and
      what is left then grows by one month's interest. */
  function Corpus(invested: real, withdrawal: real, r: real, months: nat): real
  {
    if months == 0 then invested else (Corpus(invested, withdrawal, r, months - 1) - withdrawal) * (1.0 + r)
  }

  /** The corpus is the grown investment minus the grown withdrawals. */
  lemma {:induction false} CorpusClosedForm(invested: real, withdrawal: real, r: real, months: nat)
    ensures Corpus(invested, withdrawal, r, months)
         == Pow(1.0 + r, months) * invested - Accumulated(withdrawal, r, months)
  {
    if months > 0 {
      CorpusClosedForm(invested, withdrawal, r, months - 1);
      var p, a := Pow(1.0 + r, months - 1), Accumulated(withdrawal, r, months - 1);
      assert (p * invested - a - withdrawal) * (1.0 + r)
          == ((1.0 + r) * p) * invested - (a + withdrawal) * (1.0 + r);
    }
  }

  /** Both branches agree with the month-by-month corpus. */
  lemma RemainingIsMonthByMonthCorpus(invested: int, withdrawal: int, rate: real, years: nat)
    ensures Defined(rate, years)
    ensures Remaining(invested, withdrawal, rate, years)
         == Corpus(invested as real, withdrawal as real, MonthlyRate(rate), years * 12)
  {
    var r, n := MonthlyRate(rate), years * 12;
    if r == 0.0 {
      CorpusClosedForm(invested as real, withdrawal as real, r, n);
      PowOne(n);
      AccumulatedWithoutGrowth(withdrawal as real, n);
      assert (withdrawal * n) as real == withdrawal as real * n as real;
    } else {
      var w := withdrawal as real;
      assert AnnuityDue(w, r, n) == w * ((IPow(1.0 + r, n) - 1.0) / r) * (1.0 + r);
      AnnuityDueIsAccumulated(w, r, n);
      CorpusClosedForm(invested as real, w, r, n);
    }
  }

  /** With the rate not below -100% a month, withdrawing more never leaves
      more. */
  lemma {:induction false} CorpusAntitoneInWithdrawal(invested: real, w1: real, w2: real, r: real, months: nat)
    requires w1 <= w2 && r >= -1.0
    ensures Corpus(invested, w2, r, months) <= Corpus(invested, w1, r, months)
  {
    if months > 0 {
      CorpusAntitoneInWithdrawal(invested, w1, w2, r, months - 1);
      var c1, c2 := Corpus(invested, w1, r, months - 1), Corpus(invested, w2, r, months - 1);
      MultiplyMonotone(1.0 + r, c2 - w2, c1 - w1);
    }
  }

  /** For a fixed corpus, rate and period, the rounded maturity never grows
      with the withdrawal. */
  lemma NonIncreasingInWithdrawal(invested: int, w1: int, w2: int, rate: real, years: nat)
    requires w1 <= w2 && rate >= -1200.0
    ensures Defined(rate, years)
    ensures RoundHalfAway(Remaining(invested, w2, rate, years)) <= RoundHalfAway(Remaining(invested, w1, rate, years))
  {
    RemainingIsMonthByMonthCorpus(invested, w1, rate, years);
    RemainingIsMonthByMonthCorpus(invested, w2, rate, years);
    CorpusAntitoneInWithdrawal(invested as real, w1 as real, w2 as real, MonthlyRate(rate), years * 12);
    RoundHalfAwayMonotone(Remaining(invested, w2, rate, years), Remaining(invested, w1, rate, years));
  }

  /** At a zero rate the maturity is exactly the corpus minus the withdrawals,
      even when that is negative. */
  lemma ZeroRateIsExact(input: SwpInput)
    requires input.expectedAnnualReturnRate == 0.0
    ensures Compute(input).totalMaturityAmount == input.totalInvestmentAmount - Compute(input).totalWithdrawal
  {
    RoundHalfAwayOfInt(input.totalInvestmentAmount - TotalWithdrawal(input.monthlyWithdrawalAmount, input.timePeriodInYears));
  }

  /** With a positive withdrawal, a longer period withdraws strictly more; with
      a positive period, a larger withdrawal withdraws strictly more. */
  lemma TotalWithdrawalStrictlyIncreasing(w1: int, w2: int, y1: int, y2: int)
    ensures w1 > 0 && y1 < y2 ==> TotalWithdrawal(w1, y1) < TotalWithdrawal(w1, y2)
    ensures y1 > 0 && w1 < w2 ==> TotalWithdrawal(w1, y1) < TotalWithdrawal(w2, y1)
  {
    if w1 > 0 && y1 < y2 {
      assert TotalWithdrawal(w1, y2) - TotalWithdrawal(w1, y1) == 12 * w1 * (y2 - y1);
      assert w1 * (y2 - y1) > 0 by {
        MultiplyMonotone(w1 as real, 1.0, (y2 - y1) as real);
      }
    }
    if y1 > 0 && w1 < w2 {
      assert TotalWithdrawal(w2, y1) - TotalWithdrawal(w1, y1) == 12 * y1 * (w2 - w1);
      assert y1 * (w2 - w1) > 0 by {
        MultiplyMonotone(y1 as real, 1.0, (w2 - w1) as real);
      }
    }
  }

  // ---------------------------------------------------------------------------
  // Validator

  const InvestedMessage := "Invested amount must be between 10000 and 100000000."
  const WithdrawalMessage := "Monthly withdrawal amount must be between 500 and 10000000."
  const RateMessage := "Expected annual return rate must be between 0 and 100."
  const YearsMessage := "Time period in years must be between 1 and 50."

  predicate InvestedOk(input: SwpInput) { InclusiveBetween(input.totalInvestmentAmount as real, 10000.0, 100000000.0) }
  predicate WithdrawalOk(input: SwpInput) { InclusiveBetween(input.monthlyWithdrawalAmount as real, 500.0, 10000000.0) }
  predicate RateOk(input: SwpInput) { InclusiveBetween(input.expectedAnnualReturnRate, 0.0, 100.0) }
  predicate YearsOk(input: SwpInput) { InclusiveBetween(input.timePeriodInYears as real, 1.0, 50.0) }

  /** The declared rules, in declaration order. */
  function Rules(input: SwpInput): seq<Check>
  {
    [Check(InvestedOk(input), "TotalInvestmentAmount", InvestedMessage),
     Check(WithdrawalOk(input), "MonthlyWithdrawalAmount", WithdrawalMessage),
     Check(RateOk(input), "ExpectedAnnualReturnRate", RateMessage),
     Check(YearsOk(input), "TimePeriodInYears", YearsMessage)]
  }

  /** Every failed rule, in rule order. */
  function Validate(input: SwpInput): (vs: seq<Violation>)
    ensures vs == Failed(Rules(input))
    ensures vs == [] <==> InvestedOk(input) && WithdrawalOk(input) && RateOk(input) && YearsOk(input)
    ensures Reports(vs, "TotalInvestmentAmount", InvestedMessage, !InvestedOk(input))
    ensures Reports(vs, "MonthlyWithdrawalAmount", WithdrawalMessage, !WithdrawalOk(input))
    ensures Reports(vs, "ExpectedAnnualReturnRate", RateMessage, !RateOk(input))
    ensures Reports(vs, "TimePeriodInYears", YearsMessage, !YearsOk(input))
    ensures |vs| == Failures(InvestedOk(input)) + Failures(WithdrawalOk(input)) + Failures(RateOk(input)) + Failures(YearsOk(input))
  {
    FailedOfFour(Rules(input));
    Rule(InvestedOk(input), "TotalInvestmentAmount", InvestedMessage)
    + Rule(WithdrawalOk(input), "MonthlyWithdrawalAmount", WithdrawalMessage)
    + Rule(RateOk(input), "ExpectedAnnualReturnRate", RateMessage)
    + Rule(YearsOk(input), "TimePeriodInYears", YearsMessage)
  }

  /** Accepted input is always computable. */
  lemma AcceptedInputIsDefined(input: SwpInput)
    requires Validate(input) == []
    ensures Defined(input.expectedAnnualReturnRate, input.timePeriodInYears)
  {
  }

  /** A zero rate is accepted, and nothing ties the withdrawal to the corpus:
      10000 with 500 a month for 50 years at 0% is accepted and ends at
      -290000. */
  lemma DepletingZeroRateInputAccepted()
    ensures Validate(SwpInput(10000, 500, 0.0, 50)) == []
    ensures Compute(SwpInput(10000, 500, 0.0, 50)).totalMaturityAmount == -290000
  {
    ZeroRateIsExact(SwpInput(10000, 500, 0.0, 50));
  }
}
