/** The gratuity calculator: nothing before five years of service, then
    15 days' salary (of a 26-day month) for every year. It runs the injected
    validator first and fails with its violations instead of computing. */
module Gratuity {
  import opened Numerics
  import opened Validation

  datatype GratuityInput = GratuityInput(salary: int, yearsOfService: int)

  datatype GratuityResult = GratuityResult(
    inputs: GratuityInput,
    totalSalaryDrawn: int,
    gratuityAmount: int)

  /** Zero below five years of service, otherwise the double
      15 * salary * years / 26 cast to an integer. */
  function GratuityAmount(salary: int, years: int): int
  {
    if years < 5 then 0 else Trunc(15.0 * salary as real * years as real / 26.0)
  }

  /** Twelve monthly salaries for every year of service, eligible or not. */
  function TotalSalaryDrawn(salary: int, years: int): int
  {
    salary * 12 * years
  }

  /** Compute with the validator the calculator was constructed with. */
  function Compute(validator: GratuityInput -> seq<Violation>, input: GratuityInput): (outcome: Outcome<GratuityResult>)
    ensures outcome.Err? <==> validator(input) != []
    ensures outcome.Err? ==> outcome.failure == ValidationFailed(validator(input))
    ensures outcome.Ok? ==>
      && outcome.value.inputs == input
      && outcome.value.gratuityAmount == GratuityAmount(input.salary, input.yearsOfService)
      && outcome.value.totalSalaryDrawn == TotalSalaryDrawn(input.salary, input.yearsOfService)
  {
    var violations := validator(input);
    if violations != [] then
      Err(ValidationFailed(violations))
    else
      Ok(GratuityResult(input, TotalSalaryDrawn(input.salary, input.yearsOfService),
                        GratuityAmount(input.salary, input.yearsOfService)))
  }

  /** For a non-negative salary the gratuity is zero before five years and
      the integer quotient 15 * salary * years / 26 from then on. */
  lemma GratuityIsIntegerQuotient(salary: int, years: int)
    requires salary >= 0
    ensures years < 5 ==> GratuityAmount(salary, years) == 0
    ensures years >= 5 ==> GratuityAmount(salary, years) == 15 * salary * years / 26
  {
    if years >= 5 {
      var a := 15 * salary * years;
      assert a >= 0 by {
        MultiplyMonotone(salary as real, 0.0, years as real);
        assert 15 * salary * years == 15 * (salary * years);
      }
      assert 15.0 * salary as real * years as real == a as real;
      TruncQuotient(a, 26);
    }
  }

  /** The gratuity never exceeds the salary drawn over the same years. */
  lemma AtMostSalaryDrawn(salary: int, years: int)
    requires salary >= 0 && years >= 0
    ensures 0 <= GratuityAmount(salary, years) <= TotalSalaryDrawn(salary, years)
  {
    GratuityIsIntegerQuotient(salary, years);
    var n := salary * years;
    assert n >= 0 by {
      MultiplyMonotone(salary as real, 0.0, years as real);
    }
    assert TotalSalaryDrawn(salary, years) == 12 * n;
    assert 15 * salary * years == 15 * n;
  }

  /** Once eligible, a higher salary never lowers the gratuity. */
  lemma MonotoneInSalary(s1: int, s2: int, years: int)
    requires 0 <= s1 <= s2 && years >= 5
    ensures GratuityAmount(s1, years) <= GratuityAmount(s2, years)
  {
    GratuityIsIntegerQuotient(s1, years);
    GratuityIsIntegerQuotient(s2, years);
    assert 15 * s1 * years <= 15 * s2 * years by {
      MultiplyMonotone(years as real, s1 as real, s2 as real);
    }
  }

  /** Once eligible, a longer service never lowers the gratuity. */
  lemma MonotoneInYears(salary: int, y1: int, y2: int)
    requires salary >= 0 && 5 <= y1 <= y2
    ensures GratuityAmount(salary, y1) <= GratuityAmount(salary, y2)
  {
    GratuityIsIntegerQuotient(salary, y1);
    GratuityIsIntegerQuotient(salary, y2);
    assert 15 * salary * y1 <= 15 * salary * y2 by {
      MultiplyMonotone(salary as real, y1 as real, y2 as real);
    }
  }

  // ---------------------------------------------------------------------------
  // Validator

  const SalaryMessage := "Salary must be between 10000 and 100000000."
  const YearsMessage := "Years of service must be between 5 and 50."

  predicate SalaryOk(input: GratuityInput) { InclusiveBetween(input.salary as real, 10000.0, 100000000.0) }
  predicate YearsOk(input: GratuityInput) { InclusiveBetween(input.yearsOfService as real, 5.0, 50.0) }

  /** The declared rules, in declaration order. */
  function Rules(input: GratuityInput): seq<Check>
  {
    [Check(SalaryOk(input), "Salary", SalaryMessage),
     Check(YearsOk(input), "YearsOfService", YearsMessage)]
  }

  /** Every failed rule, in rule order. */
  function Validate(input: GratuityInput): (vs: seq<Violation>)
    ensures vs == Failed(Rules(input))
    ensures vs == [] <==> SalaryOk(input) && YearsOk(input)
    ensures Reports(vs, "Salary", SalaryMessage, !SalaryOk(input))
    ensures Reports(vs, "YearsOfService", YearsMessage, !YearsOk(input))
    ensures |vs| == Failures(SalaryOk(input)) + Failures(YearsOk(input))
  {
    FailedOfTwo(Rules(input));
    Rule(SalaryOk(input), "Salary", SalaryMessage)
    + Rule(YearsOk(input), "YearsOfService", YearsMessage)
  }

  /** Accepted input always takes the eligible branch and earns a positive
      gratuity. */
  lemma AcceptedInputIsEligible(input: GratuityInput)
    requires Validate(input) == []
    ensures Compute(Validate, input).Ok?
    ensures Compute(Validate, input).value.gratuityAmount == 15 * input.salary * input.yearsOfService / 26
    ensures Compute(Validate, input).value.gratuityAmount > 0
  {
    GratuityIsIntegerQuotient(input.salary, input.yearsOfService);
    assert 15 * input.salary * input.yearsOfService >= 26 by {
      MultiplyMonotone(input.salary as real, 5.0, input.yearsOfService as real);
    }
  }

  /** Validated: 50000 a month for 5 years gives 144230. Unvalidated (a
      validator that accepts everything): 4 years gives nothing. */
  lemma Examples()
    ensures Compute(Validate, GratuityInput(50000, 5)).value.gratuityAmount == 144230
    ensures Compute(_ => [], GratuityInput(50000, 4)) == Ok(GratuityResult(GratuityInput(50000, 4), 2400000, 0))
  {
    GratuityIsIntegerQuotient(50000, 5);
  }
}
