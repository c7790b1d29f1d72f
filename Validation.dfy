/** The shape shared by every input validator and by the calculators that
    validate before computing: a rule list produces every (field, message)
    violation, in rule order, and a calculator that validates fails with that
    whole list instead of computing. */
module Validation {

  /** One failed rule: the property it is attached to and its message. */
  datatype Violation = Violation(field: string, message: string)

  /** Why a calculator produced no result. */
  datatype Failure =
    | ValidationFailed(violations: seq<Violation>)  // the input broke at least one rule
    | Overflow                                        // an array was allocated with a negative length

  datatype Outcome<T> = Ok(value: T) | Err(failure: Failure)

  /** One rule: no violation when it holds, its single message otherwise. */
  function Rule(holds: bool, field: string, message: string): (vs: seq<Violation>)
    ensures holds <==> vs == []
    ensures !holds ==> vs == [Violation(field, message)]
    ensures |vs| == Failures(holds)
  {
    if holds then [] else [Violation(field, message)]
  }

  /** 1 when a rule fails, 0 when it holds. */
  function Failures(holds: bool): nat
  {
    if holds then 0 else 1
  }

  /** A declared rule: whether the input satisfies it, and the property and
      message it reports when it does not. */
  datatype Check = Check(holds: bool, field: string, message: string)

  /** Reference definition of running a validator: the rules are checked in
      declaration order and each failed one contributes its violation. */
  function Failed(rules: seq<Check>): seq<Violation>
  {
    if rules == [] then []
    else (if rules[0].holds then [] else [Violation(rules[0].field, rules[0].message)]) + Failed(rules[1..])
  }

  /** Running two rule lists one after the other reports the first list's
      violations, then the second's. */
  lemma {:induction false} FailedAppend(a: seq<Check>, b: seq<Check>)
    ensures Failed(a + b) == Failed(a) + Failed(b)
  {
    if a == [] {
      assert a + b == b;
    } else {
      assert (a + b)[0] == a[0] && (a + b)[1..] == a[1..] + b;
      FailedAppend(a[1..], b);
      var first := if a[0].holds then [] else [Violation(a[0].field, a[0].message)];
      assert Failed(a + b) == first + (Failed(a[1..]) + Failed(b));
      assert first + (Failed(a[1..]) + Failed(b)) == (first + Failed(a[1..])) + Failed(b);
    }
  }

  /** A single declared rule reports what Rule reports. */
  lemma FailedOne(c: Check)
    ensures Failed([c]) == Rule(c.holds, c.field, c.message)
  {
    assert [c][1..] == [];
  }

  /** Two declared rules report what the sum of their Rules reports. */
  lemma FailedOfTwo(rules: seq<Check>)
    requires |rules| == 2
    ensures Failed(rules) == Rule(rules[0].holds, rules[0].field, rules[0].message)
                           + Rule(rules[1].holds, rules[1].field, rules[1].message)
  {
    assert rules == [rules[0]] + [rules[1]];
    FailedAppend([rules[0]], [rules[1]]);
    FailedOne(rules[0]);
    FailedOne(rules[1]);
  }

  /** Three declared rules report what the sum of their Rules reports. */
  lemma FailedOfThree(rules: seq<Check>)
    requires |rules| == 3
    ensures Failed(rules) == Rule(rules[0].holds, rules[0].field, rules[0].message)
                           + Rule(rules[1].holds, rules[1].field, rules[1].message)
                           + Rule(rules[2].holds, rules[2].field, rules[2].message)
  {
    assert rules == rules[..2] + [rules[2]];
    FailedAppend(rules[..2], [rules[2]]);
    FailedOfTwo(rules[..2]);
    FailedOne(rules[2]);
  }

  /** Four declared rules report what the sum of their Rules reports. */
  lemma FailedOfFour(rules: seq<Check>)
    requires |rules| == 4
    ensures Failed(rules) == Rule(rules[0].holds, rules[0].field, rules[0].message)
                           + Rule(rules[1].holds, rules[1].field, rules[1].message)
                           + Rule(rules[2].holds, rules[2].field, rules[2].message)
                           + Rule(rules[3].holds, rules[3].field, rules[3].message)
  {
    assert rules == rules[..3] + [rules[3]];
    FailedAppend(rules[..3], [rules[3]]);
    FailedOfThree(rules[..3]);
    FailedOne(rules[3]);
  }

  /** A validator reports nothing exactly when every rule holds. */
  lemma {:induction false} FailedIsEmpty(rules: seq<Check>)
    ensures Failed(rules) == [] <==> forall k :: 0 <= k < |rules| ==> rules[k].holds
  {
    if rules != [] {
      FailedIsEmpty(rules[1..]);
      assert forall k :: 1 <= k < |rules| ==> rules[k] == rules[1..][k - 1];
    }
  }

  /** A violation is reported exactly when some declared rule with that
      property and message fails. */
  lemma {:induction false} FailedReports(rules: seq<Check>, v: Violation)
    ensures v in Failed(rules)
        <==> exists k :: 0 <= k < |rules| && !rules[k].holds && Violation(rules[k].field, rules[k].message) == v
  {
    if rules != [] {
      FailedReports(rules[1..], v);
      assert forall k :: 1 <= k < |rules| ==> rules[k] == rules[1..][k - 1];
      if exists k :: 0 <= k < |rules| && !rules[k].holds && Violation(rules[k].field, rules[k].message) == v {
        var k :| 0 <= k < |rules| && !rules[k].holds && Violation(rules[k].field, rules[k].message) == v;
        if k > 0 {
          assert rules[1..][k - 1] == rules[k];
        }
      }
    }
  }

  /** A validator never reports more violations than it has rules. */
  lemma {:induction false} FailedAtMostRules(rules: seq<Check>)
    ensures |Failed(rules)| <= |rules|
  {
    if rules != [] {
      FailedAtMostRules(rules[1..]);
    }
  }

  /** FluentValidation's InclusiveBetween: both ends are allowed. */
  predicate InclusiveBetween(value: real, lo: real, hi: real)
  {
    lo <= value <= hi
  }

  /** The message is reported on the field exactly when the rule fails. */
  predicate Reports(vs: seq<Violation>, field: string, message: string, failed: bool)
  {
    Violation(field, message) in vs <==> failed
  }
}
