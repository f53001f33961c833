/** pkg/types/types.go: the results that a validator reports for its rules. */
module RuleResults {
  import opened Text
  import opened Api

  const ERR_VALIDATION_FAILED := "Validation failed with an unexpected error"

  datatype RuleValue = RuleValue(condition: ValidationCondition, state: Option<ValidationState>)

  /** What an unexpected error makes of a result: failed, with the error as last failure. */
  function Finalized(v: RuleValue, err: Option<string>): RuleValue {
    match err
    case None => v
    case Some(text) =>
      RuleValue(
        v.condition.(status := ConditionFalse,
                     message := ERR_VALIDATION_FAILED,
                     failures := v.condition.failures + [text]),
        Some(Failed))
  }

  class ValidationRuleResult {
    var condition: ValidationCondition
    var state: Option<ValidationState>

    constructor (v: RuleValue)
      ensures View() == v
    {
      condition, state := v.condition, v.state;
    }

    ghost function View(): RuleValue
      reads this
    {
      RuleValue(condition, state)
    }

    method Finalize(err: Option<string>)
      modifies this
      ensures View() == Finalized(old(View()), err)
    {
      if err.Some? {
        state := Some(Failed);
        condition := condition.(status := ConditionFalse);
        condition := condition.(message := ERR_VALIDATION_FAILED);
        condition := condition.(failures := condition.failures + [err.value]);
      }
    }
  }

  class ValidationResponse {
    var results: seq<ValidationRuleResult?>
    var errors: seq<Option<string>>

    constructor ()
      ensures results == [] && errors == [] && Aligned()
    {
      results, errors := [], [];
    }

    /** Every result has its error slot and every error its result. */
    ghost predicate Aligned()
      reads this
    {
      |results| == |errors|
    }

    method AddResult(vrr: ValidationRuleResult?, err: Option<string>)
      modifies this
      ensures results == old(results) + [vrr] && errors == old(errors) + [err]
      ensures old(Aligned()) ==> Aligned()
    {
      results := results + [vrr];
      errors := errors + [err];
    }
  }
}
