/** Exact-arithmetic counterparts of the numeric library calls the calculators
    make: Math.Pow with an integer exponent, the (int)/(long) casts that
    truncate toward zero, Math.Round with MidpointRounding.AwayFromZero and
    Math.Ceiling. Doubles are modelled as exact reals. */
module Numerics {

  /** x raised to a natural exponent. */
  function Pow(x: real, n: nat): real
  {
    if n == 0 then 1.0 else x * Pow(x, n - 1)
  }

  /** Math.Pow stays finite for an integer exponent unless a zero base meets a
      negative exponent. */
  predicate PowDefined(x: real, n: int)
  {
    n >= 0 || x != 0.0
  }

  /** x raised to an integer exponent; a negative exponent divides. */
  function IPow(x: real, n: int): (r: real)
    requires PowDefined(x, n)
    ensures n >= 0 ==> r == Pow(x, n)
    ensures n < 0 ==> r * Pow(x, -n) == 1.0
  {
    if n >= 0 then Pow(x, n)
    else
      PowNonZero(x, -n);
      DivideThenMultiply(1.0, Pow(x, -n));
      1.0 / Pow(x, -n)
  }

  function Abs(x: real): real
  {
    if x < 0.0 then -x else x
  }

  /** How far apart two reals are. */
  function Distance(a: real, b: real): real
  {
    Abs(a - b)
  }

  function Min(a: int, b: int): int
  {
    if a <= b then a else b
  }

  function MaxReal(a: real, b: real): real
  {
    if a >= b then a else b
  }

  /** Math.Clamp: x forced into [lo, hi]. */
  function Clamp(x: real, lo: real, hi: real): (r: real)
    requires lo <= hi
    ensures lo <= r <= hi
    ensures lo <= x <= hi ==> r == x
    ensures forall y :: lo <= y <= hi ==> Distance(r, x) <= Distance(y, x)
  {
    if x < lo then lo else if x > hi then hi else x
  }

  /** A C# (int) or (long) cast of a double: the fraction is dropped, so the
      result moves toward zero and is less than one away from x. */
  function Trunc(x: real): (r: int)
    ensures x >= 0.0 ==> 0 <= r && r as real <= x < r as real + 1.0
    ensures x < 0.0 ==> r <= 0 && r as real - 1.0 < x <= r as real
  {
    if x >= 0.0 then x.Floor else -((-x).Floor)
  }

  /** Math.Round(x, MidpointRounding.AwayFromZero): the nearest integer, with a
      tie going to the integer of larger magnitude. */
  function RoundHalfAway(x: real): (r: int)
    ensures x >= 0.0 ==> 0 <= r && r as real - 0.5 <= x < r as real + 0.5
    ensures x < 0.0 ==> r <= 0 && r as real - 0.5 < x <= r as real + 0.5
  {
    if x >= 0.0 then (x + 0.5).Floor else -((-x + 0.5).Floor)
  }

  /** Math.Ceiling: the least integer not below x. */
  function Ceil(x: real): (r: int)
    ensures x <= r as real < x + 1.0
  {
    if x.Floor as real == x then x.Floor else x.Floor + 1
  }

  // ---------------------------------------------------------------------------
  // Powers

  /** Multiplying by a non-negative factor keeps an inequality. */
  lemma MultiplyMonotone(c: real, a: real, b: real)
    requires c >= 0.0 && a <= b
    ensures c * a <= c * b
  {
    assert c * b - c * a == c * (b - a);
  }

  /** Dividing out a non-zero factor. */
  lemma DivideOut(x: real, y: real, r: real)
    requires r != 0.0 && x == y * r
    ensures x / r == y
  {
    var q := x / r;
    assert q * r == y * r;
    assert (q - y) * r == 0.0;
  }

  /** Dividing by a non-zero factor and multiplying it back. */
  lemma DivideThenMultiply(x: real, d: real)
    requires d != 0.0
    ensures x / d * d == x
  {
  }

  /** A solution q of q * d == x with x >= 0 and d > 0 is not negative. */
  lemma SolutionNonNegative(q: real, d: real, x: real)
    requires x >= 0.0 && d > 0.0 && q * d == x
    ensures q >= 0.0
  {
    if q < 0.0 {
      MultiplyMonotone(d, q, 0.0);
    }
  }

  /** A product of three non-negative factors is not negative. */
  lemma ProductNonNegative(a: real, b: real, c: real)
    requires a >= 0.0 && b >= 0.0 && c >= 0.0
    ensures a * b * c >= 0.0
  {
    MultiplyMonotone(a, 0.0, b);
    MultiplyMonotone(a * b, 0.0, c);
  }

  /** Cancelling a non-zero common factor: from q * d == p * r * g and
      d == r * s, q * s == p * g. */
  lemma CancelCommonFactor(q: real, d: real, p: real, r: real, g: real, s: real)
    requires r != 0.0 && q * d == p * r * g && d == r * s
    ensures q * s == p * g
  {
    assert r * (q * s) == r * (p * g);
    assert r * (q * s - p * g) == 0.0;
  }

  lemma PowNonZero(x: real, n: nat)
    requires x != 0.0
    ensures Pow(x, n) != 0.0
  {
    if n > 0 {
      PowNonZero(x, n - 1);
    }
  }

  lemma {:induction false} PowAdd(x: real, a: nat, b: nat)
    ensures Pow(x, a + b) == Pow(x, a) * Pow(x, b)
  {
    if a > 0 {
      PowAdd(x, a - 1, b);
      assert Pow(x, a + b) == x * Pow(x, a - 1 + b);
    }
  }

  lemma {:induction false} PowOne(n: nat)
    ensures Pow(1.0, n) == 1.0
  {
    if n > 0 {
      PowOne(n - 1);
    }
  }

  lemma {:induction false} PowNonNegative(x: real, n: nat)
    requires x >= 0.0
    ensures Pow(x, n) >= 0.0
  {
    if n > 0 {
      PowNonNegative(x, n - 1);
    }
  }

  lemma {:induction false} PowPositive(x: real, n: nat)
    requires x > 0.0
    ensures Pow(x, n) > 0.0
  {
    if n > 0 {
      PowPositive(x, n - 1);
    }
  }

  lemma {:induction false} PowAtLeastOne(x: real, n: nat)
    requires x >= 1.0
    ensures Pow(x, n) >= 1.0
  {
    if n > 0 {
      PowAtLeastOne(x, n - 1);
    }
  }

  /** Bernoulli's inequality: (1 + x)^n >= 1 + n x whenever x >= -1. */
  lemma {:induction false} Bernoulli(x: real, n: nat)
    requires x >= -1.0
    ensures Pow(1.0 + x, n) >= 1.0 + n as real * x
  {
    if n > 0 {
      Bernoulli(x, n - 1);
      var p := Pow(1.0 + x, n - 1);
      MultiplyMonotone(1.0 + x, 1.0 + (n - 1) as real * x, p);
      assert (1.0 + x) * (1.0 + (n - 1) as real * x)
          == 1.0 + n as real * x + (n - 1) as real * x * x;
      assert (n - 1) as real * (x * x) >= 0.0;
    }
  }

  /** A larger non-negative base gives a larger power. */
  lemma {:induction false} PowMonotoneBase(x: real, y: real, n: nat)
    requires 0.0 <= x <= y
    ensures Pow(x, n) <= Pow(y, n)
  {
    if n > 0 {
      PowMonotoneBase(x, y, n - 1);
      PowNonNegative(x, n - 1);
      assert x * Pow(x, n - 1) <= y * Pow(x, n - 1);
      assert y * Pow(x, n - 1) <= y * Pow(y, n - 1);
    }
  }

  /** A base of at least one gives a power that grows with the exponent. */
  lemma {:induction false} PowMonotoneExponent(x: real, m: nat, n: nat)
    requires x >= 1.0 && m <= n
    ensures Pow(x, m) <= Pow(x, n)
  {
    if m < n {
      PowMonotoneExponent(x, m, n - 1);
      PowAtLeastOne(x, n - 1);
      var p := Pow(x, n - 1);
      MultiplyMonotone(p, 1.0, x);
    }
  }

  /** Raising to a power and then to another multiplies the exponents. */
  lemma {:induction false} PowMultiply(x: real, a: nat, b: nat)
    ensures Pow(Pow(x, a), b) == Pow(x, a * b)
  {
    if b > 0 {
      PowMultiply(x, a, b - 1);
      PowAdd(x, a, a * (b - 1));
      assert a * b == a + a * (b - 1);
    }
  }

  // ---------------------------------------------------------------------------
  // Truncation and rounding

  /** Truncation keeps the order of its arguments. */
  lemma TruncMonotone(x: real, y: real)
    requires x <= y
    ensures Trunc(x) <= Trunc(y)
  {
    if 0.0 <= x {
    } else if y < 0.0 {
      assert (-y).Floor <= (-x).Floor;
    }
  }

  /** Truncating two scaled values keeps their order when the scale is not
      negative. */
  lemma TruncScaledMonotone(c: real, x: real, y: real)
    requires c >= 0.0 && x <= y
    ensures Trunc(c * x) <= Trunc(c * y)
  {
    var a, b := c * x, c * y;
    MultiplyMonotone(c, x, y);
    assert a <= b;
    TruncMonotone(a, b);
  }

  /** Truncating a non-negative multiple is at least the multiple of the
      truncation. */
  lemma TruncOfMultiple(x: real, n: nat)
    requires x >= 0.0
    ensures Trunc(x * n as real) >= Trunc(x) * n
  {
    var m := Trunc(x);
    MultiplyMonotone(n as real, m as real, x);
    assert (m * n) as real == n as real * m as real;
    MultiplyMonotone(n as real, 0.0, x);
    TruncAtLeast(x * n as real, m * n);
  }

  /** An integer survives truncation unchanged. */
  lemma TruncOfInt(n: int)
    ensures Trunc(n as real) == n
  {
  }

  /** An integer not above a non-negative x is not above its truncation. */
  lemma TruncAtLeast(x: real, n: int)
    requires 0.0 <= x && n as real <= x
    ensures n <= Trunc(x)
  {
  }

  /** Truncating a quotient of non-negative integers is integer division. */
  lemma TruncQuotient(a: int, b: int)
    requires a >= 0 && b > 0
    ensures Trunc(a as real / b as real) == a / b
  {
    var q, m := a / b, a % b;
    assert a == b * q + m && 0 <= m < b;
    var x := a as real / b as real;
    assert x * b as real == a as real;
    assert q as real * b as real <= x * b as real;
    assert q as real <= x;
    assert x * b as real < (q + 1) as real * b as real;
    assert x < (q + 1) as real;
  }

  /** The cast of a quotient of non-negative integers to an integer is floor
      division. */
  lemma FloorQuotient(a: int, b: int)
    requires a >= 0 && b > 0
    ensures (a as real / b as real).Floor == a / b
  {
    TruncQuotient(a, b);
  }

  /** Rounding keeps the order of its arguments. */
  lemma RoundHalfAwayMonotone(x: real, y: real)
    requires x <= y
    ensures RoundHalfAway(x) <= RoundHalfAway(y)
  {
    if 0.0 <= x {
    } else if y < 0.0 {
      assert (-y + 0.5).Floor <= (-x + 0.5).Floor;
    }
  }

  /** Rounding is symmetric about zero: the tie of -x goes as far from zero as
      the tie of x. */
  lemma RoundHalfAwaySymmetric(x: real)
    ensures RoundHalfAway(-x) == -RoundHalfAway(x)
  {
  }

  /** A value exactly halfway between two integers goes to the one farther
      from zero. */
  lemma RoundHalfAwayTie(k: int)
    ensures k >= 0 ==> RoundHalfAway(k as real + 0.5) == k + 1
    ensures k < 0 ==> RoundHalfAway(k as real - 0.5) == k - 1
  {
  }

  /** An integer is its own rounding. */
  lemma RoundHalfAwayOfInt(n: int)
    ensures RoundHalfAway(n as real) == n
  {
  }

  /** Math.Ceiling(m / 12d) for a positive month count is (m + 11) / 12. */
  lemma CeilMonthsToYears(m: int)
    requires m > 0
    ensures Ceil(m as real / 12.0) == (m + 11) / 12
  {
    FloorQuotient(m, 12);
    var q, rem := m / 12, m % 12;
    assert m == 12 * q + rem;
    if rem == 0 {
      assert m as real / 12.0 == q as real;
    } else {
      assert m as real / 12.0 != q as real;
      assert (m + 11) / 12 == q + 1;
    }
  }
}
