# FinSkew calculators in Dafny

FinSkew is a browser-hosted suite of personal-finance calculators. Each calculator turns an input view model into a result view model with one closed-form formula: simple and compound interest, lumpsum, SCSS (Senior Citizens' Savings Scheme), MIS (Monthly Income Scheme), gratuity, SIP (systematic investment plan), step-up SIP, SWP (systematic withdrawal plan), EMI (equated monthly instalment) and XIRR. A FluentValidation validator per input model lists the out-of-range fields. The SCSS, MIS, gratuity and XIRR calculators run their validator before computing.

This project models those calculators and validators and proves what they promise. It is organised as follows:

- `Numerics` — the arithmetic of the C# code on exact reals:
  - `Math.Pow` with an integer exponent;
  - the truncating `(int)`/`(long)` cast;
  - `Math.Round` with `MidpointRounding.AwayFromZero`;
  - `Math.Ceiling` and `Math.Clamp`.
- `Validation` — the shape every validator shares:
  - every broken rule is reported as a (field, message) pair, in rule order;
  - a validating calculator fails with that list instead of computing.
- `Annuity` — the annuity-due future value `m * ((1 + r)^n - 1) / r * (1 + r)` that SIP, step-up SIP, SWP and XIRR share. It is proved equal to a month-by-month reference balance: deposit, then grow by one month's interest.
- One module per calculator, holding the calculator, its validator and their properties. `Cagr` holds only the validator.
- `Calendar` — the calendar arithmetic the XIRR calculator and its validator rely on:
  - dates and their order;
  - `AddMonths` and `AddYears` with the day clamped to the month's length.
- `Xirr` — the XIRR calculator's parts:
  - the cashflow loop, the final amount and the year-end array;
  - the rate solver, which runs a clamped guess, at most 50 Newton steps, at most 60 bracket expansions and at most 200 bisection steps.

The NPV and its derivative are parameters of the solver.

Conventions used throughout:

- Amounts are `int` and rates are `real`.
- Every C# `double` is an exact `real`.
- Wherever the source mutates an array or a list in a loop, the model is a `method` with that loop. It is proved equal to a function, and the lemmas are about that function. These methods are `SimpleInterest.Compute`, `StepUpSip.Compute`, `StepUpSip.ComputeTotalInvestedAndMaturityAmount`, `Xirr.BuildCashflows`, `Xirr.BuildYearlyGrowth` and the three solver loops.
- The calculators that validate take the validator as a function parameter.
- A result is an `Outcome`:
  - `Err(ValidationFailed(list))` exactly when the list is not empty;
  - `Err(Overflow)` where `new int[n]` would throw on a negative length.

## Model

| member | source | states |
|---|---|---|
| Validation.FailedAppend | src/FinSkew.Ui/Services/Validators/InputModels/CompoundInterestInputViewModelValidator.cs:7-21 | running one list of rules after another reports the first list's violations followed by the second's |
| Validation.FailedOne | src/FinSkew.Ui/Services/Validators/InputModels/CompoundInterestInputViewModelValidator.cs:7-9 | a single rule reports nothing when it holds and exactly its (field, message) when it fails |
| Validation.FailedOfTwo | src/FinSkew.Ui/Services/Validators/InputModels/GratuityInputViewModelValidator.cs:7-13 | two rules report the first rule's violation, then the second's |
| Validation.FailedOfThree | src/FinSkew.Ui/Services/Validators/InputModels/SipInputViewModelValidator.cs:7-17 | three rules report their violations in declaration order |
| Validation.FailedOfFour | src/FinSkew.Ui/Services/Validators/InputModels/CompoundInterestInputViewModelValidator.cs:7-21 | four rules report their violations in declaration order |
| Validation.FailedIsEmpty | src/FinSkew.Ui/Services/Validators/InputModels/CompoundInterestInputViewModelValidator.cs:7-21 | a validator reports nothing exactly when every declared rule holds |
| Validation.FailedReports | src/FinSkew.Ui/Services/Validators/InputModels/CompoundInterestInputViewModelValidator.cs:7-21 | a (field, message) pair is reported exactly when some declared rule with that field and message fails |
| Validation.FailedAtMostRules | src/FinSkew.Ui/Services/Validators/InputModels/CompoundInterestInputViewModelValidator.cs:7-21 | a validator never reports more violations than it declares rules |
| Numerics.Trunc | src/FinSkew.Ui/Services/Implementations/SimpleInterestCalculator.cs:32 | the `(int)` cast truncates toward zero: for x >= 0 the result is the largest integer not above x, for x < 0 the smallest not below it |
| Numerics.RoundHalfAway | src/FinSkew.Ui/Services/Implementations/SwpCalculator.cs:20 | `Math.Round(x, AwayFromZero)` is within one half of x, on the side of zero that x is on |
| Numerics.RoundHalfAwayTie | src/FinSkew.Ui/Services/Implementations/SwpCalculator.cs:20 | an exact half goes to the integer farther from zero, for positive and negative values alike |
| Numerics.RoundHalfAwaySymmetric | src/FinSkew.Ui/Services/Implementations/SwpCalculator.cs:20 | rounding -x gives minus the rounding of x |
| Numerics.RoundHalfAwayMonotone | src/FinSkew.Ui/Services/Implementations/SwpCalculator.cs:20 | rounding preserves order |
| Numerics.Clamp | src/FinSkew.Ui/Services/Implementations/XirrCalculator.cs:86 | `Math.Clamp` lands inside [lo, hi], leaves a value already inside unchanged, and moves a value outside to the nearest point of [lo, hi] (lo below, hi above) |
| Numerics.Ceil | src/FinSkew.Ui/Services/Implementations/XirrCalculator.cs:61 | `Math.Ceiling` is the least integer not below x |
| Numerics.CeilMonthsToYears | src/FinSkew.Ui/Services/Implementations/XirrCalculator.cs:61 | `Math.Ceiling(m / 12d)` for m > 0 months is (m + 11) / 12 |
| Numerics.IPow | src/FinSkew.Ui/Services/Implementations/LumpsumCalculator.cs:7 | `Math.Pow` with an integer exponent is repeated multiplication for a non-negative exponent and, for a negative one (negative years), the reciprocal of the matching positive power: their product is 1 |
| Numerics.Bernoulli | src/FinSkew.Ui/Services/Implementations/CompoundInterestCalculator.cs:11 | (1 + x)^n >= 1 + n x for x >= -1, the lower bound behind every "earns interest" property |
| Numerics.TruncQuotient | src/FinSkew.Ui/Services/Implementations/GratuityCalculator.cs:11 | the cast of a quotient of non-negative integers is integer division |
| Annuity.GrowthSumClosedForm | src/FinSkew.Ui/Services/Implementations/SipCalculator.cs:13-16 | r * (1 + (1+r) + ... + (1+r)^(n-1)) == (1+r)^n - 1 |
| Annuity.AccumulatedIsScaledGrowthSum | src/FinSkew.Ui/Services/Implementations/SipCalculator.cs:13-16 | the month-by-month balance is m (1+r) times the geometric series |
| Annuity.AnnuityDueIsAccumulated | src/FinSkew.Ui/Services/Implementations/SipCalculator.cs:13-16 | the closed form m ((1+r)^n - 1) / r (1+r) equals the month-by-month balance of n deposits |
| Annuity.AccumulatedWithoutGrowth | src/FinSkew.Ui/Services/Implementations/SipCalculator.cs:11-12 | at a zero rate the balance is the sum of the deposits |
| Annuity.AccumulatedNonDecreasing | src/FinSkew.Ui/Services/Implementations/XirrCalculator.cs:74-82 | with a non-negative deposit and rate, a longer period never accumulates less |
| Annuity.AccumulatedAtLeastContributions | src/FinSkew.Ui/Services/Implementations/SipCalculator.cs:13-16 | at a non-negative rate the balance is at least what was deposited |
| Annuity.AnnuityDueAtLeastContributions | src/FinSkew.Ui/Services/Implementations/SipCalculator.cs:13-16 | at a positive rate the closed form is at least what was deposited |
| Annuity.AccumulatedContinues | src/FinSkew.Ui/Services/Implementations/XirrCalculator.cs:64-69 | the balance after m + k months is the balance after m months carried on for k more |
| Annuity.AccumulatedFromSplits | src/FinSkew.Ui/Services/Implementations/XirrCalculator.cs:64-69 | an opening balance carried on for k months is that balance grown by (1+r)^k plus k fresh months of deposits |
| Annuity.AccumulatedSplit | src/FinSkew.Ui/Services/Implementations/XirrCalculator.cs:64-69 | m + k months of deposits are m months grown for k more plus k fresh months |
| Annuity.AnnuityDueSplit | src/FinSkew.Ui/Services/Implementations/XirrCalculator.cs:74-82 | at a non-zero rate the closed form over m + k months is the m-month value grown k months plus a fresh k-month value |
| Annuity.GrowthSumAtMost | src/FinSkew.Ui/Services/Implementations/EmiCalculator.cs:21-22 | at a non-negative rate the geometric series of n terms is between 0 and n (1+r)^n |
| SimpleInterest.GrownAtLeastPrincipal | src/FinSkew.Ui/Services/Implementations/SimpleInterestCalculator.cs:30-33 | at a non-negative principal, rate and period the exact total is at least the principal |
| SimpleInterest.TotalAmount | src/FinSkew.Ui/Services/Implementations/SimpleInterestCalculator.cs:30-33 | zero years gives back the principal |
| SimpleInterest.TotalAtLeastPrincipal | src/FinSkew.Ui/Services/Implementations/SimpleInterestCalculator.cs:30-33 | a non-negative principal, rate and period never total less than the principal after the cast |
| SimpleInterest.Compute | src/FinSkew.Ui/Services/Implementations/SimpleInterestCalculator.cs:5-28 | a negative period is the allocation error and nothing else is; otherwise the result carries the input, total == principal + interest, and the array holds the total for every year 1..n in order |
| SimpleInterest.TotalAmountMonotoneInYears | src/FinSkew.Ui/Services/Implementations/SimpleInterestCalculator.cs:32 | with a non-negative principal and rate a longer period never lowers the total |
| SimpleInterest.YearlyGrowthShape | src/FinSkew.Ui/Services/Implementations/SimpleInterestCalculator.cs:16-17 | one entry per year, the last equals the reported total, and the entries never decrease for a non-negative principal and rate |
| SimpleInterest.ZeroYears | src/FinSkew.Ui/Services/Implementations/SimpleInterestCalculator.cs:9-17 | a zero period earns no interest and reports no year-end totals |
| SimpleInterest.ThreeYearsAtFivePercent | src/FinSkew.Ui/Services/Implementations/SimpleInterestCalculator.cs:9-17 | 10000 at 5% for 3 years totals 11500, with year-end totals 10500, 11000, 11500 |
| CompoundInterest.TotalAmount | src/FinSkew.Ui/Services/Implementations/CompoundInterestCalculator.cs:11 | zero years, or a zero frequency (exponent 0), gives back the principal |
| CompoundInterest.Compute | src/FinSkew.Ui/Services/Implementations/CompoundInterestCalculator.cs:5-20 | the result carries the input, its total is the truncated grown principal, and total == principal + interest |
| CompoundInterest.ZeroYears | src/FinSkew.Ui/Services/Implementations/CompoundInterestCalculator.cs:11-12 | a zero period earns no interest, whatever the frequency |
| CompoundInterest.AtLeastSimpleInterest | src/FinSkew.Ui/Services/Implementations/CompoundInterestCalculator.cs:11 | with f >= 1 and a non-negative principal and rate the total is never below the simple-interest total on the same terms |
| CompoundInterest.AnnualIsLumpsum | src/FinSkew.Ui/Services/Implementations/CompoundInterestCalculator.cs:11 | compounding once a year gives exactly the lumpsum maturity |
| CompoundInterest.Validate | src/FinSkew.Ui/Services/Validators/InputModels/CompoundInterestInputViewModelValidator.cs:7-21 | accepted iff all four inclusive ranges hold; each failed rule reports its own message on its own field; the violations are exactly the failed rules filtered in declaration order, and their number is the number of failed rules |
| CompoundInterest.AcceptedInputEarnsInterest | src/FinSkew.Ui/Services/Implementations/CompoundInterestCalculator.cs:11-12 | accepted input is computable and earns a strictly positive interest, on unbounded integers |
| CompoundInterest.EarnsInterest | src/FinSkew.Ui/Services/Implementations/CompoundInterestCalculator.cs:11-12 | at least 10000 at 1% or more for a year or more, compounded at least yearly, is computable and ends strictly above the principal |
| CompoundInterest.TinyRateEarnsNothing | src/FinSkew.Ui/Services/Implementations/CompoundInterestCalculator.cs:11 | a positive rate alone is not enough: 10000 at 0.001% for a year earns 0 after truncation |
| Lumpsum.MaturityAmount | src/FinSkew.Ui/Services/Implementations/LumpsumCalculator.cs:7 | zero years gives back the principal |
| Lumpsum.Compute | src/FinSkew.Ui/Services/Implementations/LumpsumCalculator.cs:5-16 | the result carries the input, its maturity is the truncated grown principal, and maturity == principal + gain |
| Lumpsum.GainNonNegative | src/FinSkew.Ui/Services/Implementations/LumpsumCalculator.cs:7-8 | a non-negative rate never matures below the principal |
| Lumpsum.MonotoneInYears | src/FinSkew.Ui/Services/Implementations/LumpsumCalculator.cs:7 | with a non-negative rate a longer period never lowers the maturity |
| Lumpsum.MonotoneInRate | src/FinSkew.Ui/Services/Implementations/LumpsumCalculator.cs:7 | a higher rate never lowers the maturity |
| Lumpsum.MonotoneInPrincipal | src/FinSkew.Ui/Services/Implementations/LumpsumCalculator.cs:7 | a larger principal never lowers the maturity |
| Lumpsum.Validate | src/FinSkew.Ui/Services/Validators/InputModels/LumpsumInputViewModelValidator.cs:7-17 | accepted iff the three inclusive ranges hold, so a zero rate is rejected; each failure is reported with its message; the violations are exactly the failed rules filtered in declaration order, and their number is the number of failed rules |
| Lumpsum.AcceptedInputGains | src/FinSkew.Ui/Services/Implementations/LumpsumCalculator.cs:7-8 | accepted input is computable and gains strictly, on unbounded integers |
| Lumpsum.Gains | src/FinSkew.Ui/Services/Implementations/LumpsumCalculator.cs:7-8 | at least 10000 at 1% or more for a year or more matures strictly above the principal |
| Scss.Compute | src/FinSkew.Ui/Services/Implementations/ScssCalculator.cs:5-18 | fails with exactly the validator's list when it is not empty; otherwise the maturity is the lumpsum formula at the fixed 7.4% for 5 years and maturity == principal + interest |
| Scss.Validate | src/FinSkew.Ui/Services/Validators/InputModels/ScssInputViewModelValidator.cs:7-17 | accepted iff the principal range and both equalities hold; each failure reported with its message; the violations are exactly the failed rules filtered in declaration order, and their number is the number of failed rules |
| Scss.OnlyPrincipalCanFail | src/FinSkew.Ui/Services/Validators/InputModels/ScssInputViewModelValidator.cs:7-17 | with the read-only rate and tenure only the principal rule can fail |
| Scss.AcceptedInputEarnsInterest | src/FinSkew.Ui/Services/Implementations/ScssCalculator.cs:9-10 | every accepted principal produces a result with strictly positive interest |
| Scss.MaturityMonotoneInPrincipal | src/FinSkew.Ui/Services/Implementations/ScssCalculator.cs:9 | a larger principal never lowers the maturity |
| Scss.TenThousand | src/FinSkew.Ui/Services/Implementations/ScssCalculator.cs:9-10 | 10000 matures to 14289 with 4289 of interest |
| Mis.Compute | src/FinSkew.Ui/Services/Implementations/MisCalculator.cs:6-20 | fails with exactly the validator's list when it is not empty; otherwise the final amount is the truncated quarterly-compounded amount and final == invested + gain |
| Mis.IsQuarterlyCompound | src/FinSkew.Ui/Services/Implementations/MisCalculator.cs:10-11 | the final amount is the compound-interest total with frequency 4 over 5 years |
| Mis.Validate | src/FinSkew.Ui/Services/Validators/InputModels/MisInputViewModelValidator.cs:7-17 | accepted iff the two ranges and the period equality hold; each failure reported with its message; the violations are exactly the failed rules filtered in declaration order, and their number is the number of failed rules |
| Mis.PeriodRuleNeverFires | src/FinSkew.Ui/Services/Validators/InputModels/MisInputViewModelValidator.cs:15-17 | with the read-only period of 5 the period rule never reports |
| Mis.AcceptedInputGains | src/FinSkew.Ui/Services/Implementations/MisCalculator.cs:10-12 | every accepted input produces a result that gains at least 500, on unbounded integers |
| Gratuity.Compute | src/FinSkew.Ui/Services/Implementations/GratuityCalculator.cs:5-19 | fails with exactly the validator's list when it is not empty; otherwise it holds the gratuity and the salary drawn |
| Gratuity.GratuityIsIntegerQuotient | src/FinSkew.Ui/Services/Implementations/GratuityCalculator.cs:9-11 | below five years the gratuity is 0; from five years on it is 15 * salary * years / 26 in integer division |
| Gratuity.AtMostSalaryDrawn | src/FinSkew.Ui/Services/Implementations/GratuityCalculator.cs:9-16 | the gratuity is between 0 and the salary drawn over the same years |
| Gratuity.MonotoneInSalary | src/FinSkew.Ui/Services/Implementations/GratuityCalculator.cs:11 | once eligible, a higher salary never lowers the gratuity |
| Gratuity.MonotoneInYears | src/FinSkew.Ui/Services/Implementations/GratuityCalculator.cs:11 | once eligible, longer service never lowers the gratuity |
| Gratuity.Validate | src/FinSkew.Ui/Services/Validators/InputModels/GratuityInputViewModelValidator.cs:7-13 | accepted iff both inclusive ranges hold; each failure reported with its message; the violations are exactly the failed rules filtered in declaration order, and their number is the number of failed rules |
| Gratuity.AcceptedInputIsEligible | src/FinSkew.Ui/Services/Validators/InputModels/GratuityInputViewModelValidator.cs:11-13 | accepted input always takes the eligible branch and earns a positive gratuity |
| Gratuity.Examples | src/FinSkew.Ui/Services/Implementations/GratuityCalculator.cs:9-16 | 50000 for 5 years gives 144230; unvalidated, 4 years gives 0 with 2400000 drawn |
| Sip.Compute | src/FinSkew.Ui/Services/Implementations/SipCalculator.cs:5-26 | the result carries the input, total invested == monthly * years * 12, and maturity == invested + gain |
| Sip.MaturityIsMonthByMonthBalance | src/FinSkew.Ui/Services/Implementations/SipCalculator.cs:11-16 | both branches equal the truncated month-by-month balance of 12n deposits |
| Sip.ZeroRateGainsNothing | src/FinSkew.Ui/Services/Implementations/SipCalculator.cs:11-12 | a zero rate matures to exactly what was invested |
| Sip.PositiveRateKeepsContributions | src/FinSkew.Ui/Services/Implementations/SipCalculator.cs:13-16 | a positive rate never matures below what was invested |
| Sip.ZeroYears | src/FinSkew.Ui/Services/Implementations/SipCalculator.cs:8-17 | a zero period gives all amounts 0 |
| Sip.Validate | src/FinSkew.Ui/Services/Validators/InputModels/SipInputViewModelValidator.cs:7-17 | accepted iff the three inclusive ranges hold; each failure reported with its message; the violations are exactly the failed rules filtered in declaration order, and their number is the number of failed rules |
| Sip.AcceptedInputGrows | src/FinSkew.Ui/Services/Validators/InputModels/SipInputViewModelValidator.cs:11-13 | accepted input never reaches the zero-rate branch and never loses money, on unbounded integers |
| Sip.FiftyOneYearsRejected | src/FinSkew.Ui/Services/Validators/InputModels/SipInputViewModelValidator.cs:15-17 | 51 years is reported with the period message |
| StepUpSip.ComputeTotalInvestedAndMaturityAmount | src/FinSkew.Ui/Services/Implementations/StepUpSipCalculator.cs:34-57 | the loop's totals are the truncated sums over the years of 12 stepped-up deposits and of each year's future value |
| StepUpSip.Compute | src/FinSkew.Ui/Services/Implementations/StepUpSipCalculator.cs:5-32 | a negative period is the allocation error and nothing else is; otherwise gain == maturity - invested and the array holds the maturity recomputed for every period 1..n |
| StepUpSip.MonthsOfYearClosedForm | src/FinSkew.Ui/Services/Implementations/StepUpSipCalculator.cs:47-49 | j months of one year are the grown start balance plus j deposits |
| StepUpSip.YearStep | src/FinSkew.Ui/Services/Implementations/StepUpSipCalculator.cs:47-49 | a whole year grows the start balance by (1+r)^12 and adds that year's twelve deposits |
| StepUpSip.YearValueIsAccumulated | src/FinSkew.Ui/Services/Implementations/StepUpSipCalculator.cs:47-49 | one year's closed-form value is the month-by-month balance of its twelve deposits |
| StepUpSip.MaturitySumIsGrownBalance | src/FinSkew.Ui/Services/Implementations/StepUpSipCalculator.cs:44-54 | after k iterations the running maturity is the balance at the end of year k grown for the remaining years |
| StepUpSip.MaturityIsMonthByMonthBalance | src/FinSkew.Ui/Services/Implementations/StepUpSipCalculator.cs:44-56 | the maturity is the truncated month-by-month balance of the whole plan |
| StepUpSip.NoStepUpIsPlainBalance | src/FinSkew.Ui/Services/Implementations/StepUpSipCalculator.cs:46 | without a step-up the balance is the plain SIP balance of 12k deposits |
| StepUpSip.NoStepUpInvestsEqually | src/FinSkew.Ui/Services/Implementations/StepUpSipCalculator.cs:53 | without a step-up 12 * monthly is invested each year |
| StepUpSip.ZeroStepUpMatchesSip | src/FinSkew.Ui/Services/Implementations/StepUpSipCalculator.cs:44-56 | a zero step-up at a non-zero rate gives exactly the SIP calculator's totals |
| StepUpSip.StepUpInvestsAtLeastPlain | src/FinSkew.Ui/Services/Implementations/StepUpSipCalculator.cs:44-54 | a non-negative step-up invests at least 12 * monthly every year |
| StepUpSip.TotalInvestedAtLeastPlain | src/FinSkew.Ui/Services/Implementations/StepUpSipCalculator.cs:53-56 | a non-negative step-up reports at least 12 * monthly * years invested |
| StepUpSip.ContributionNonNegative | src/FinSkew.Ui/Services/Implementations/StepUpSipCalculator.cs:46 | a non-negative deposit with a step-up of at least -100% stays non-negative |
| StepUpSip.BalanceGrowsByYear | src/FinSkew.Ui/Services/Implementations/StepUpSipCalculator.cs:44-54 | at a non-negative rate the balance is non-negative and never falls from one year to the next |
| StepUpSip.YearlyGrowthNonDecreasing | src/FinSkew.Ui/Services/Implementations/StepUpSipCalculator.cs:16-20 | one year-end maturity per year, never decreasing at a positive rate |
| StepUpSip.LastYearIsMaturity | src/FinSkew.Ui/Services/Implementations/StepUpSipCalculator.cs:9-20 | the last year-end maturity is the reported maturity |
| StepUpSip.ZeroYears | src/FinSkew.Ui/Services/Implementations/StepUpSipCalculator.cs:9-20 | a zero period invests nothing, matures to nothing and has no year-end maturities |
| Swp.Compute | src/FinSkew.Ui/Services/Implementations/SwpCalculator.cs:5-22 | the result carries the input, total withdrawal == withdrawal * years * 12, and the maturity is the rounded remaining corpus |
| Swp.CorpusClosedForm | src/FinSkew.Ui/Services/Implementations/SwpCalculator.cs:13-14 | the month-by-month corpus is the grown investment minus the grown withdrawals |
| Swp.RemainingIsMonthByMonthCorpus | src/FinSkew.Ui/Services/Implementations/SwpCalculator.cs:10-14 | both branches equal the month-by-month corpus: withdraw, then grow |
| Swp.CorpusAntitoneInWithdrawal | src/FinSkew.Ui/Services/Implementations/SwpCalculator.cs:13-14 | withdrawing more never leaves more |
| Swp.NonIncreasingInWithdrawal | src/FinSkew.Ui/Services/Implementations/SwpCalculator.cs:13-20 | for a fixed corpus, rate and period the rounded maturity never grows with the withdrawal |
| Swp.ZeroRateIsExact | src/FinSkew.Ui/Services/Implementations/SwpCalculator.cs:11-20 | a zero rate matures to exactly the corpus minus the withdrawals, negative or not |
| Swp.TotalWithdrawalStrictlyIncreasing | src/FinSkew.Ui/Services/Implementations/SwpCalculator.cs:9 | total withdrawal strictly increases in years for a positive withdrawal and in the withdrawal for a positive period |
| Swp.Validate | src/FinSkew.Ui/Services/Validators/InputModels/SwpInputViewModelValidator.cs:7-21 | accepted iff the four inclusive ranges hold; each failure reported with its message; the violations are exactly the failed rules filtered in declaration order, and their number is the number of failed rules |
| Swp.AcceptedInputIsDefined | src/FinSkew.Ui/Services/Validators/InputModels/SwpInputViewModelValidator.cs:15-21 | accepted input is computable |
| Swp.DepletingZeroRateInputAccepted | src/FinSkew.Ui/Services/Validators/InputModels/SwpInputViewModelValidator.cs:7-17 | a zero rate is accepted and nothing ties withdrawals to the corpus: 10000 less 500 a month for 50 years ends at -290000 |
| Emi.ExactEmi | src/FinSkew.Ui/Services/Implementations/EmiCalculator.cs:19-22 | the instalment solves the balancing equation: e * n == P at a zero rate, e ((1+r)^n - 1) == P r (1+r)^n otherwise |
| Emi.Compute | src/FinSkew.Ui/Services/Implementations/EmiCalculator.cs:5-35 | no instalments gives all zeros; otherwise the instalment and the total are truncated from the exact instalment and interest == total - principal |
| Emi.OutstandingClosedForm | src/FinSkew.Ui/Services/Implementations/EmiCalculator.cs:21-22 | the balance owed after k months is the grown principal minus the grown instalments |
| Emi.EmiBalancesGrowth | src/FinSkew.Ui/Services/Implementations/EmiCalculator.cs:19-22 | the instalments grown to the end are worth the grown principal |
| Emi.EmiRepaysLoan | src/FinSkew.Ui/Services/Implementations/EmiCalculator.cs:19-22 | paying the instalment for the whole tenure clears the loan exactly |
| Emi.EmiNonNegative | src/FinSkew.Ui/Services/Implementations/EmiCalculator.cs:19-22 | a non-negative principal and rate give a non-negative instalment |
| Emi.TotalPaymentCoversInstallments | src/FinSkew.Ui/Services/Implementations/EmiCalculator.cs:24-30 | the total is never below n times the cast instalment |
| Emi.InstallmentsCoverPrincipal | src/FinSkew.Ui/Services/Implementations/EmiCalculator.cs:21-24 | at a positive rate n exact instalments cover the principal |
| Emi.InterestNonNegative | src/FinSkew.Ui/Services/Implementations/EmiCalculator.cs:19-25 | a non-negative rate never gives negative interest, and a zero rate gives exactly 0 |
| Emi.RepaysPrincipal | src/FinSkew.Ui/Services/Implementations/EmiCalculator.cs:19-25 | on the loan's own terms (monthly rate and instalment count) the cast total is at least the principal, and equals it at a zero rate |
| Emi.Validate | src/FinSkew.Ui/Services/Validators/InputModels/EmiInputViewModelValidator.cs:7-17 | accepted iff the three inclusive ranges hold; each failure reported with its message; the violations are exactly the failed rules filtered in declaration order, and their number is the number of failed rules |
| Emi.AcceptedInputIsComputable | src/FinSkew.Ui/Services/Validators/InputModels/EmiInputViewModelValidator.cs:15-17 | accepted input has at least 12 instalments, never takes the zero-instalment guard, and earns non-negative interest, on unbounded integers |
| Emi.ZeroRateAccepted | src/FinSkew.Ui/Services/Validators/InputModels/EmiInputViewModelValidator.cs:11-13 | a zero rate is accepted and 120000 over a year repays 10000 a month with no interest |
| Cagr.Validate | src/FinSkew.Ui/Services/Validators/InputModels/CagrInputViewModelValidator.cs:7-17 | accepted iff the three inclusive ranges hold; each failure reported with its message; the violations are exactly the failed rules filtered in declaration order, and their number is the number of failed rules |
| Cagr.AcceptedInputIsComputable | src/FinSkew.Ui/Services/Validators/InputModels/CagrInputViewModelValidator.cs:7-17 | accepted input has a positive initial amount, a positive ratio and at least one year |
| Cagr.LossAccepted | src/FinSkew.Ui/Services/Validators/InputModels/CagrInputViewModelValidator.cs:11-13 | a final amount below the initial one is accepted |
| Cagr.AllViolationsReported | src/FinSkew.Ui/Services/Validators/InputModels/CagrInputViewModelValidator.cs:7-17 | all three broken rules are reported, in rule order |
| Calendar.DaysInMonth | src/FinSkew.Ui/Services/Implementations/XirrCalculator.cs:43 | every month has 28 to 31 days |
| Calendar.AddMonths | src/FinSkew.Ui/Services/Implementations/XirrCalculator.cs:43 | `AddMonths` gives a valid date n months on, with the day clamped to the target month |
| Calendar.AddYears | src/FinSkew.Ui/Services/Validators/InputModels/XirrInputViewModelValidator.cs:8-16 | `AddYears` gives a valid date k years on in the same month, and equals adding 12k months |
| Calendar.BeforeIsStrictTotalOrder | src/FinSkew.Ui/Services/Implementations/XirrCalculator.cs:43 | date order is irreflexive, asymmetric, transitive and total |
| Calendar.BeforeBoundsMonth | src/FinSkew.Ui/Services/Implementations/XirrCalculator.cs:43 | a date before another is not in a later month |
| Xirr.MonthlyDates | src/FinSkew.Ui/Services/Implementations/XirrCalculator.cs:43 | there are no investment dates exactly when the start is not before maturity |
| Xirr.MonthlyDatesShape | src/FinSkew.Ui/Services/Implementations/XirrCalculator.cs:43 | the dates start at the start date, are before maturity, step one month at a time, and one more month would not be before maturity |
| Xirr.Investments | src/FinSkew.Ui/Services/Implementations/XirrCalculator.cs:43 | one negative cashflow of the monthly amount per date, in order |
| Xirr.InvestmentsAppend | src/FinSkew.Ui/Services/Implementations/XirrCalculator.cs:43 | investing on one more date appends one cashflow |
| Xirr.CashflowList | src/FinSkew.Ui/Services/Implementations/XirrCalculator.cs:43-51 | the investments followed by the final amount on the maturity date |
| Xirr.BuildCashflows | src/FinSkew.Ui/Services/Implementations/XirrCalculator.cs:36-54 | principal == monthly * number of dates, gain == final - principal, and the cashflows are the investments plus the final amount |
| Xirr.FinalAmountIsMonthByMonthBalance | src/FinSkew.Ui/Services/Implementations/XirrCalculator.cs:74-82 | both branches of the final amount equal the month-by-month balance |
| Xirr.NoMonthsNoAmount | src/FinSkew.Ui/Services/Implementations/XirrCalculator.cs:74-82 | zero months accumulate nothing |
| Xirr.FinalAmountNonDecreasing | src/FinSkew.Ui/Services/Implementations/XirrCalculator.cs:74-82 | with a non-negative deposit and rate, more months never accumulate less |
| Xirr.YearEndStep | src/FinSkew.Ui/Services/Implementations/XirrCalculator.cs:64-82 | the amount after m + 12 months is the amount after m months grown for a year plus one fresh year of investments, so consecutive whole-year entries differ by exactly that step before rounding |
| Xirr.BuildYearlyGrowth | src/FinSkew.Ui/Services/Implementations/XirrCalculator.cs:56-72 | the filled array is the rounded amount at min(12k, months) for every started year, and empty for no months |
| Xirr.YearlyGrowthShape | src/FinSkew.Ui/Services/Implementations/XirrCalculator.cs:56-72 | ceil(months / 12) entries, whole years before the last, the last is the rounded final amount, non-decreasing for a non-negative deposit and rate |
| Xirr.InitialRate | src/FinSkew.Ui/Services/Implementations/XirrCalculator.cs:86 | the guess is clamped into [-0.9, 1]: left alone when inside, otherwise the nearest end (a guess above 1 becomes 1, one below -0.9 becomes -0.9) |
| Xirr.NewtonIterate | src/FinSkew.Ui/Services/Implementations/XirrCalculator.cs:89-103 | the Newton loop returns what at most 50 steps of the iteration accept, or its last rate when it gives up |
| Xirr.ExpandBracket | src/FinSkew.Ui/Services/Implementations/XirrCalculator.cs:105-114 | the expansion loop stops at the upper end that at most 60 doublings reach, with that end's NPV |
| Xirr.Bisection | src/FinSkew.Ui/Services/Implementations/XirrCalculator.cs:118-136 | the bisection loop returns the midpoint of the bracket that at most 200 halvings reach |
| Xirr.Solve | src/FinSkew.Ui/Services/Implementations/XirrCalculator.cs:84-137 | the rate is Newton's accepted rate, else the bisection midpoint, else Newton's last rate when no sign change is bracketed |
| Xirr.NewtonStaysAboveMinRate | src/FinSkew.Ui/Services/Implementations/XirrCalculator.cs:98 | Newton's iteration never reports a rate at or below MinRate |
| Xirr.ExpandUpperGrows | src/FinSkew.Ui/Services/Implementations/XirrCalculator.cs:112 | expansion never lowers a non-negative upper end |
| Xirr.BisectStaysInside | src/FinSkew.Ui/Services/Implementations/XirrCalculator.cs:118-134 | bisection stays inside its starting bracket, never collapses it, and keeps the NPV at the lower end |
| Xirr.BisectKeepsSignChange | src/FinSkew.Ui/Services/Implementations/XirrCalculator.cs:125-133 | strictly opposite signs at the ends stay strictly opposite |
| Xirr.BisectHalves | src/FinSkew.Ui/Services/Implementations/XirrCalculator.cs:118-134 | bisection stops early only within tolerance; otherwise every step halved the width |
| Xirr.BisectWidth | src/FinSkew.Ui/Services/Implementations/XirrCalculator.cs:118-134 | unless bisection stopped on a tolerance, the starting width is the final width times 2^steps |
| Xirr.SolutionAboveMinRate | src/FinSkew.Ui/Services/Implementations/XirrCalculator.cs:84-137 | the solver never returns a rate at or below MinRate |
| Xirr.RootAtGuess | src/FinSkew.Ui/Services/Implementations/XirrCalculator.cs:92 | an NPV within tolerance at the clamped guess returns that guess |
| Xirr.BisectFromMinRate | src/FinSkew.Ui/Services/Implementations/XirrCalculator.cs:118-136 | bisecting [MinRate, upper] ends strictly inside it and keeps a strict sign change |
| Xirr.SolutionWhenBracketed | src/FinSkew.Ui/Services/Implementations/XirrCalculator.cs:116-136 | when Newton gives up and a sign change is bracketed, the answer is the bisection midpoint |
| Xirr.BracketedSolution | src/FinSkew.Ui/Services/Implementations/XirrCalculator.cs:116-136 | once bracketed, the answer is the midpoint of a bracket inside [MinRate, upper] that keeps a strict sign change |
| Xirr.Compute | src/FinSkew.Ui/Services/Implementations/XirrCalculator.cs:12-34 | fails with exactly the validator's list when it is not empty; otherwise principal, final amount, gain, rate and year-end amounts are those of the cashflows of the two dates |
| Xirr.NoMonthsWhenMaturityNotAfterStart | src/FinSkew.Ui/Services/Implementations/XirrCalculator.cs:43-51 | a maturity not after the start gives no investments, a single zero cashflow and no year-end amounts |
| Xirr.StartDateRules | src/FinSkew.Ui/Services/Validators/InputModels/XirrInputViewModelValidator.cs:7-11 | the start date's two rules, range then order, each reported with its own message on the start date; exactly the failed ones, in that order |
| Xirr.MaturityDateRules | src/FinSkew.Ui/Services/Validators/InputModels/XirrInputViewModelValidator.cs:13-17 | the maturity date's two rules, order then range, each reported with its own message on the maturity date; exactly the failed ones, in that order |
| Xirr.DateRules | src/FinSkew.Ui/Services/Validators/InputModels/XirrInputViewModelValidator.cs:7-17 | the four date rules: accepted iff both windows and the order hold, each failure on its own field, exactly the failed ones in declaration order |
| Xirr.AmountRules | src/FinSkew.Ui/Services/Validators/InputModels/XirrInputViewModelValidator.cs:19-25 | the amount and rate ranges, each failure reported with its message, exactly the failed ones in order |
| Xirr.FailedRulesInOrder | src/FinSkew.Ui/Services/Validators/InputModels/XirrInputViewModelValidator.cs:7-25 | running all six declared rules reports the date violations, then the amount and rate violations |
| Xirr.Validate | src/FinSkew.Ui/Services/Validators/InputModels/XirrInputViewModelValidator.cs:7-25 | accepted iff the date window, the order and both ranges hold; each of the six failures reported with its message; exactly the failed rules in declaration order, so a start not before maturity counts twice |
| Xirr.TimeOfDayIgnored | src/FinSkew.Ui/Services/Validators/InputModels/XirrInputViewModelValidator.cs:8-16 | only the date parts are compared |
| Xirr.SameDayReportsBoth | src/FinSkew.Ui/Services/Validators/InputModels/XirrInputViewModelValidator.cs:10-15 | equal dates report the ordering message on both fields |
| Xirr.StartDateCarriesTwoMessages | src/FinSkew.Ui/Services/Validators/InputModels/XirrInputViewModelValidator.cs:7-11 | a start date both too old and not before maturity carries both of its messages, first in the list |
| Xirr.StartDateTooOldAndLate | src/FinSkew.Ui/Services/Validators/InputModels/XirrInputViewModelValidator.cs:7-11 | a concrete start date (1 June 1900, maturity 1 January 1900, today 1 January 2025) breaks both start-date rules |
| Xirr.AcceptedInputInvests | src/FinSkew.Ui/Services/Validators/InputModels/XirrInputViewModelValidator.cs:10-14 | accepted input makes at least one monthly investment |

## Left out

- Integer width: `int` and `long` arithmetic and casts are unbounded here, and overflow is reachable inside the ranges the validators accept. The `int` products `MonthlyInvestment * totalMonths` (SipCalculator.cs:9), `MonthlyWithdrawalAmount * totalMonths` (SwpCalculator.cs:9) and `MonthlyInvestmentAmount * totalMonths` (XirrCalculator.cs:46 and 77) wrap: 10,000,000 a month for 50 years is 6,000,000,000, which the program holds as 1,705,032,704. The `(int)` casts of doubles in the lumpsum, compound interest, MIS, SCSS, SIP, step-up SIP and EMI calculators leave the `int` range too, for example 100,000,000 at 100% for 5 years (3.2e9), where C# gives an unspecified value. The model gives the exact results, so the lemmas about accepted input (`Sip.AcceptedInputGrows`, `Lumpsum.AcceptedInputGains`, `Mis.AcceptedInputGains`, `CompoundInterest.AcceptedInputEarnsInterest`, `Emi.AcceptedInputIsComputable`) hold on unbounded integers, not for the program across its whole accepted range.
- Floating point: doubles are exact reals. Rounding error, NaN and infinity are not modelled, including the NaN and infinity test on the Newton step.
- Each formula's division by a zero `Math.Pow` denominator is a precondition (`Defined`) rather than an infinity.
- StepUpSip.Compute: a zero monthly rate with a positive period divides by zero in the source; the model requires it away (`Defined`).
- The CAGR calculator needs a fractional power (an n-th root) and is not part of this model; its validator is.
- NPV and its derivative raise to the real power days/365 over `DateTime` differences. They are the `Valuation` parameter of the solver, so nothing is proved about their values.
- `DateTime.Today` is a parameter of `Xirr.Validate`. Dates have no year range limit, whereas `DateTime` is limited to years 1 to 9999.
- Currency formatting, the `*Str` properties, dependency injection and the FluentValidation machinery are presentation and plumbing.
- `ValidateInput` is called by the SCSS, MIS, gratuity and XIRR calculators, but `CalculatorBase` does not define it. The model takes it to fail with the validator's full list.
- YearlyGrowth of the Lumpsum, SIP and SWP results and MonthlyIncome of the MIS result are declared by the result view models but never assigned by the calculators. The result datatypes leave them out rather than invent values.
- StepUpSip.Compute and Xirr.Compute: the calculators assign YearlyGrowth (StepUpSipCalculator.cs:30, XirrCalculator.cs:32), although `StepUpSipResultViewModel` and `XirrResultViewModel` declare no such property. The result datatypes follow the calculators and keep `yearlyGrowth`.
- The unit tests expect an XIRR of 0 when maturity is not after the start. The model follows the code: the single zero cashflow has NPV 0 at every rate, so the solver returns the clamped guess (`Xirr.RootAtGuess`, `Xirr.NoMonthsWhenMaturityNotAfterStart`).
- Xirr.Bisection: the source also stores the NPV at the upper end after each step, but never reads it afterwards. The model does not keep it.
- Xirr.Solve: the three loops of `Solve` are three methods that `Solve` calls in turn.
- Xirr.BuildCashflows: the list is a `seq` the loop reassigns rather than a mutable list.
- Xirr.BuildYearlyGrowth: the method returns the array's contents as a `seq`.
