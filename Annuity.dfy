/** The annuity-due future value that the SIP, Step-Up SIP, SWP and XIRR
    calculators share, and month-by-month reference definitions it is proved
    against. */
module Annuity {
  import opened Numerics

  /** Future value of n equal contributions made at the start of each month
      and compounded at the monthly rate r:
      payment * ((1 + r)^n - 1) / r * (1 + r). A negative n is evaluated
      as Math.Pow would evaluate it. */
  function AnnuityDue(payment: real, r: real, n: int): real
    requires r != 0.0 && PowDefined(1.0 + r, n)
  {
    AnnuityDueOfGrowth(payment, r, IPow(1.0 + r, n))
  }

  /** The same formula in terms of the growth factor g = (1 + r)^n. */
  function AnnuityDueOfGrowth(payment: real, r: real, g: real): real
    requires r != 0.0
  {
    payment * (g - 1.0) / r * (1.0 + r)
  }

  /** Reference definition: each month the contribution is deposited and the
      whole balance then grows by one month's interest. */
  function Accumulated(payment: real, r: real, n: nat): real
  {
    if n == 0 then 0.0 else (Accumulated(payment, r, n - 1) + payment) * (1.0 + r)
  }

  /** 1 + (1 + r) + ... + (1 + r)^(n - 1). */
  function GrowthSum(r: real, n: nat): real
  {
    if n == 0 then 0.0 else GrowthSum(r, n - 1) * (1.0 + r) + 1.0
  }

  /** The geometric series in closed form, multiplied out so that it also
      holds at r = 0. */
  lemma {:induction false} GrowthSumClosedForm(r: real, n: nat)
    ensures r * GrowthSum(r, n) == Pow(1.0 + r, n) - 1.0
  {
    if n > 0 {
      GrowthSumClosedForm(r, n - 1);
      var g := GrowthSum(r, n - 1);
      assert r * (g * (1.0 + r) + 1.0) == (r * g) * (1.0 + r) + r;
    }
  }

  /** Without growth the series is just n ones. */
  lemma {:induction false} GrowthSumWithoutGrowth(n: nat)
    ensures GrowthSum(0.0, n) == n as real
  {
    if n > 0 {
      GrowthSumWithoutGrowth(n - 1);
    }
  }

  /** With a non-negative rate, each of the n terms is at most (1 + r)^n. */
  lemma {:induction false} GrowthSumAtMost(r: real, n: nat)
    requires r >= 0.0
    ensures 0.0 <= GrowthSum(r, n) <= n as real * Pow(1.0 + r, n)
  {
    if n > 0 {
      GrowthSumAtMost(r, n - 1);
      var g, p := GrowthSum(r, n - 1), Pow(1.0 + r, n - 1);
      MultiplyMonotone(1.0 + r, g, (n - 1) as real * p);
      PowAtLeastOne(1.0 + r, n);
      assert (1.0 + r) * ((n - 1) as real * p) == (n - 1) as real * Pow(1.0 + r, n);
    }
  }

  lemma {:induction false} AccumulatedIsScaledGrowthSum(payment: real, r: real, n: nat)
    ensures Accumulated(payment, r, n) == payment * (1.0 + r) * GrowthSum(r, n)
  {
    if n > 0 {
      AccumulatedIsScaledGrowthSum(payment, r, n - 1);
      var g := GrowthSum(r, n - 1);
      assert (payment * (1.0 + r) * g + payment) * (1.0 + r)
          == payment * (1.0 + r) * (g * (1.0 + r) + 1.0);
    }
  }

  /** The closed-form annuity-due is the month-by-month balance. */
  lemma AnnuityDueIsAccumulated(payment: real, r: real, n: nat)
    requires r != 0.0
    ensures AnnuityDue(payment, r, n) == Accumulated(payment, r, n)
  {
    assert AnnuityDue(payment, r, n) == AnnuityDueOfGrowth(payment, r, Pow(1.0 + r, n));
    GrowthSumClosedForm(r, n);
    AccumulatedIsScaledGrowthSum(payment, r, n);
    ClosedFormAlgebra(payment, r, Pow(1.0 + r, n), GrowthSum(r, n), Accumulated(payment, r, n));
  }

  /** The algebra of the step above, on plain values: the closed form agrees
      with the scaled series c. */
  lemma ClosedFormAlgebra(payment: real, r: real, p: real, g: real, c: real)
    requires r != 0.0 && r * g == p - 1.0
    requires c == payment * (1.0 + r) * g
    ensures AnnuityDueOfGrowth(payment, r, p) == c
  {
    assert payment * (p - 1.0) == (payment * g) * r;
    DivideOut(payment * (p - 1.0), payment * g, r);
  }

  /** Without growth the balance is just the sum of the contributions. */
  lemma {:induction false} AccumulatedWithoutGrowth(payment: real, n: nat)
    ensures Accumulated(payment, 0.0, n) == payment * n as real
  {
    if n > 0 {
      AccumulatedWithoutGrowth(payment, n - 1);
    }
  }

  /** With a non-negative rate the balance is at least what was paid in. */
  lemma {:induction false} AccumulatedAtLeastContributions(payment: real, r: real, n: nat)
    requires r >= 0.0 && payment >= 0.0
    ensures Accumulated(payment, r, n) >= payment * n as real
  {
    if n > 0 {
      AccumulatedAtLeastContributions(payment, r, n - 1);
      var a := Accumulated(payment, r, n - 1) + payment;
      assert a >= 0.0;
      MultiplyMonotone(a, 1.0, 1.0 + r);
    }
  }

  /** With a non-negative contribution and rate, a longer period never
      accumulates less. */
  lemma {:induction false} AccumulatedNonDecreasing(payment: real, r: real, m: nat, n: nat)
    requires payment >= 0.0 && r >= 0.0 && m <= n
    ensures Accumulated(payment, r, m) <= Accumulated(payment, r, n)
  {
    if m < n {
      AccumulatedNonDecreasing(payment, r, m, n - 1);
      var a := Accumulated(payment, r, n - 1);
      AccumulatedAtLeastContributions(payment, r, n - 1);
      MultiplyMonotone(payment, 0.0, (n - 1) as real);
      assert a + payment >= 0.0;
      MultiplyMonotone(a + payment, 1.0, 1.0 + r);
      assert Accumulated(payment, r, n) == (a + payment) * (1.0 + r);
    }
  }

  /** With a positive rate the annuity-due is at least what was paid in. */
  lemma AnnuityDueAtLeastContributions(payment: real, r: real, n: nat)
    requires r > 0.0 && payment >= 0.0
    ensures AnnuityDue(payment, r, n) >= payment * n as real
  {
    AnnuityDueIsAccumulated(payment, r, n);
    AccumulatedAtLeastContributions(payment, r, n);
  }

  /** Reference definition: the balance after k more months of deposits on
      top of an opening balance. */
  function AccumulatedFrom(opening: real, payment: real, r: real, k: nat): real
  {
    if k == 0 then opening else (AccumulatedFrom(opening, payment, r, k - 1) + payment) * (1.0 + r)
  }

  /** The balance after m + k months is the balance after m months carried
      on for k more. */
  lemma {:induction false} AccumulatedContinues(payment: real, r: real, m: nat, k: nat)
    ensures Accumulated(payment, r, m + k) == AccumulatedFrom(Accumulated(payment, r, m), payment, r, k)
  {
    if k > 0 {
      AccumulatedContinues(payment, r, m, k - 1);
    }
  }

  /** Carrying an opening balance on for k months grows it by (1 + r)^k and
      adds k months of fresh deposits. */
  lemma {:induction false} AccumulatedFromSplits(opening: real, payment: real, r: real, k: nat)
    ensures AccumulatedFrom(opening, payment, r, k) == Pow(1.0 + r, k) * opening + Accumulated(payment, r, k)
  {
    if k > 0 {
      AccumulatedFromSplits(opening, payment, r, k - 1);
      var q, b := Pow(1.0 + r, k - 1), Accumulated(payment, r, k - 1);
      assert (q * opening + b + payment) * (1.0 + r) == ((1.0 + r) * q) * opening + (b + payment) * (1.0 + r);
    }
  }

  /** Contributing for m + k months is contributing for m months, letting that
      balance grow for k more, and adding k months of fresh contributions. */
  lemma AccumulatedSplit(payment: real, r: real, m: nat, k: nat)
    ensures Accumulated(payment, r, m + k)
         == Pow(1.0 + r, k) * Accumulated(payment, r, m) + Accumulated(payment, r, k)
  {
    AccumulatedContinues(payment, r, m, k);
    AccumulatedFromSplits(Accumulated(payment, r, m), payment, r, k);
  }

  /** The same split for the closed form, at a non-zero rate. */
  lemma AnnuityDueSplit(payment: real, r: real, m: nat, k: nat)
    requires r != 0.0
    ensures AnnuityDue(payment, r, m + k)
         == Pow(1.0 + r, k) * AnnuityDue(payment, r, m) + AnnuityDue(payment, r, k)
  {
    AnnuityDueIsAccumulated(payment, r, m + k);
    AnnuityDueIsAccumulated(payment, r, m);
    AnnuityDueIsAccumulated(payment, r, k);
    AccumulatedSplit(payment, r, m, k);
  }
}
