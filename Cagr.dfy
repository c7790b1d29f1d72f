/** The input validator of the CAGR (compound annual growth rate)
    calculator. The calculator itself takes an n-th root and is not part of
    this model; the validator's guarantees about its input are. */
module Cagr {
  import opened Validation

  datatype CagrInput = CagrInput(
    initialPrincipalAmount: int,
    finalAmount: int,
    timePeriodInYears: int)

  const InitialMessage := "Invested amount must be between 10000 and 100000000."
  const FinalMessage := "Final amount must be between 10000 and 100000000."
  const YearsMessage := "Time period in years must be between 1 and 100."

  predicate InitialOk(input: CagrInput) { InclusiveBetween(input.initialPrincipalAmount as real, 10000.0, 100000000.0) }
  predicate FinalOk(input: CagrInput) { InclusiveBetween(input.finalAmount as real, 10000.0, 100000000.0) }
  predicate YearsOk(input: CagrInput) { InclusiveBetween(input.timePeriodInYears as real, 1.0, 100.0) }

  /** The declared rules, in declaration order. */
  function Rules(input: CagrInput): seq<Check>
  {
    [Check(InitialOk(input), "InitialPrincipalAmount", InitialMessage),
     Check(FinalOk(input), "FinalAmount", FinalMessage),
     Check(YearsOk(input), "TimePeriodInYears", YearsMessage)]
  }

  /** Every failed rule, in rule order. */
  function Validate(input: CagrInput): (vs: seq<Violation>)
    ensures vs == Failed(Rules(input))
    ensures vs == [] <==> InitialOk(input) && FinalOk(input) && YearsOk(input)
    ensures Reports(vs, "InitialPrincipalAmount", InitialMessage, !InitialOk(input))
    ensures Reports(vs, "FinalAmount", FinalMessage, !FinalOk(input))
    ensures Reports(vs, "TimePeriodInYears", YearsMessage, !YearsOk(input))
    ensures |vs| == Failures(InitialOk(input)) + Failures(FinalOk(input)) + Failures(YearsOk(input))
  {
    FailedOfThree(Rules(input));
    Rule(InitialOk(input), "InitialPrincipalAmount", InitialMessage)
    + Rule(FinalOk(input), "FinalAmount", FinalMessage)
    + Rule(YearsOk(input), "TimePeriodInYears", YearsMessage)
  }

  /** Accepted input has a positive initial amount, a positive ratio of final
      to initial amount and at least one year, so the ratio and the exponent
      1 / years of the growth rate are both defined. */
  lemma AcceptedInputIsComputable(input: CagrInput)
    requires Validate(input) == []
    ensures input.initialPrincipalAmount > 0
    ensures input.finalAmount as real / input.initialPrincipalAmount as real > 0.0
    ensures input.timePeriodInYears >= 1
  {
  }

  /** There is no rule across the two amounts: a loss is accepted. */
  lemma LossAccepted()
    ensures Validate(CagrInput(20000, 10000, 3)) == []
  {
  }

  /** Every broken rule is reported, in rule order, not only the first. */
  lemma AllViolationsReported()
    ensures Validate(CagrInput(0, 0, 0))
         == [Violation("InitialPrincipalAmount", InitialMessage),
             Violation("FinalAmount", FinalMessage),
             Violation("TimePeriodInYears", YearsMessage)]
  {
  }
}
