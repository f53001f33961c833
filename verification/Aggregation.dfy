/** pkg/validationresult/validation_result.go: folding a validator's response into the
    status of its ValidationResult. */
module Aggregation {
  import opened Text
  import opened Api
  import opened RuleResults

  // ----- Specification -----

  datatype Status = Status(state: ValidationState, conditions: seq<ValidationCondition>)

  /** One position of a response: the result, if not nil, its error, and the time at which
      a missing result is replaced. */
  datatype Entry = Entry(result: Option<RuleValue>, error: Option<string>, now: int)

  function MissingResult(now: int): RuleValue {
    RuleValue(ValidationCondition("", "", "", [], [], ConditionOther(""), now), None)
  }

  function Outcome(e: Entry): RuleValue {
    Finalized(if e.result.Some? then e.result.value else MissingResult(e.now), e.error)
  }

  /** Without a state of its own an entry needs an error; the source dereferences the state. */
  predicate HasState(e: Entry) {
    Outcome(e).state.Some?
  }

  predicate AllHaveState(es: seq<Entry>) {
    forall i | 0 <= i < |es| :: HasState(es[i])
  }

  /** The first condition for a rule, or -1. */
  function IndexOf(cs: seq<ValidationCondition>, rule: string): (k: int)
    ensures -1 <= k < |cs|
    ensures k == -1 ==> forall i | 0 <= i < |cs| :: cs[i].validationRule != rule
    ensures k != -1 ==> cs[k].validationRule == rule && forall i | 0 <= i < k :: cs[i].validationRule != rule
  {
    if cs == [] then -1
    else
      var k := IndexOf(cs[..|cs| - 1], rule);
      if k == -1 && cs[|cs| - 1].validationRule == rule then |cs| - 1 else k
  }

  function Upsert(cs: seq<ValidationCondition>, c: ValidationCondition): seq<ValidationCondition> {
    var k := IndexOf(cs, c.validationRule);
    if k == -1 then cs + [c] else cs[k := c]
  }

  predicate Any(cs: seq<ValidationCondition>, s: ConditionStatus) {
    exists i | 0 <= i < |cs| :: cs[i].status == s
  }

  function OverallState(cs: seq<ValidationCondition>, ruleState: ValidationState): ValidationState {
    if Any(cs, ConditionFalse) then Failed else if Any(cs, ConditionTrue) then Succeeded else ruleState
  }

  function Updated(st: Status, out: RuleValue): Status
    requires out.state.Some?
  {
    var cs := Upsert(st.conditions, out.condition);
    Status(OverallState(cs, out.state.value), cs)
  }

  function FinalizeAll(st: Status, es: seq<Entry>): Status
    requires AllHaveState(es)
  {
    if es == [] then st else Updated(FinalizeAll(st, es[..|es| - 1]), Outcome(es[|es| - 1]))
  }

  lemma {:induction false} AnySnoc(cs: seq<ValidationCondition>, i: nat, s: ConditionStatus)
    requires i < |cs|
    ensures Any(cs[..i + 1], s) <==> Any(cs[..i], s) || cs[i].status == s
    ensures cs[i].status == s ==> Any(cs, s)
  {
    assert cs[..i + 1][i] == cs[i];
    if Any(cs[..i], s) {
      var j :| 0 <= j < i && cs[..i][j].status == s;
      assert cs[..i + 1][j].status == s;
    }
    if Any(cs[..i + 1], s) && cs[i].status != s {
      var j :| 0 <= j < i + 1 && cs[..i + 1][j].status == s;
      assert cs[..i][j].status == s;
    }
  }

  // ----- The program -----

  method GetConditionIndexByValidationRule(cs: seq<ValidationCondition>, rule: string) returns (idx: int)
    ensures idx == IndexOf(cs, rule)
  {
    for i := 0 to |cs|
      invariant forall j | 0 <= j < i :: cs[j].validationRule != rule
    {
      if cs[i].validationRule == rule {
        return i;
      }
    }
    return -1;
  }

  ghost function StatusOf(vr: ValidationResult): Status
    reads vr
  {
    Status(vr.state, vr.validationConditions)
  }

  method UpdateStatus(vr: ValidationResult, vrr: ValidationRuleResult, err: Option<string>)
    requires Finalized(vrr.View(), err).state.Some?
    modifies vr`state, vr`validationConditions, vrr
    ensures vrr.View() == Finalized(old(vrr.View()), err)
    ensures StatusOf(vr) == Updated(old(StatusOf(vr)), vrr.View())
  {
    vrr.Finalize(err);
    var idx := GetConditionIndexByValidationRule(vr.validationConditions, vrr.condition.validationRule);
    if idx == -1 {
      vr.validationConditions := vr.validationConditions + [vrr.condition];
    } else {
      vr.validationConditions := vr.validationConditions[idx := vrr.condition];
    }
    ghost var cs, out := vr.validationConditions, vrr.View();
    vr.state := vrr.state.value;
    for i := 0 to |vr.validationConditions|
      invariant vr.validationConditions == cs && vrr.View() == out
      invariant !Any(cs[..i], ConditionFalse)
      invariant vr.state == OverallState(cs[..i], out.state.value)
    {
      var c := vr.validationConditions[i];
      AnySnoc(cs, i, ConditionTrue);
      AnySnoc(cs, i, ConditionFalse);
      if c.status == ConditionTrue {
        vr.state := Succeeded;
      }
      if c.status == ConditionFalse {
        vr.state := Failed;
        break;
      }
    }
    assert cs[..|cs|] == cs;
  }

  // ----- Folding a response -----

  /** The status, and what the result objects hold, part of the way. */
  datatype Pass = Pass(status: Status, values: map<ValidationRuleResult?, RuleValue>)

  /** The fold over the objects themselves: an object that occurs again is found as its last
      occurrence left it. None stands for the panics of the source, on a missing error or on
      a result that still has no state. */
  function Folded(st: Status, rs: seq<ValidationRuleResult?>, values: map<ValidationRuleResult?, RuleValue>,
                  errors: seq<Option<string>>, clock: nat -> int): (p: Option<Pass>)
    requires forall r | r in rs && r != null :: r in values
    ensures p.Some? ==> p.value.values.Keys == values.Keys
  {
    if rs == [] then Some(Pass(st, values))
    else
      var i, r := |rs| - 1, rs[|rs| - 1];
      match Folded(st, rs[..i], values, errors, clock)
      case None => None
      case Some(p) =>
        if i >= |errors| then None
        else
          var out := Finalized(if r == null then MissingResult(clock(i)) else p.values[r], errors[i]);
          if out.state.None? then None
          else Some(Pass(Updated(p.status, out), if r == null then p.values else p.values[r := out]))
  }

  lemma {:induction false} NothingFolded(st: Status, values: map<ValidationRuleResult?, RuleValue>,
                                         errors: seq<Option<string>>, clock: nat -> int)
    ensures Folded(st, [], values, errors, clock) == Some(Pass(st, values))
  {
  }

  lemma {:induction false} FoldedPrefix(st: Status, rs: seq<ValidationRuleResult?>, i: nat,
                                        values: map<ValidationRuleResult?, RuleValue>, errors: seq<Option<string>>,
                                        clock: nat -> int)
    requires i <= |rs| && forall r | r in rs && r != null :: r in values
    ensures Folded(st, rs, values, errors, clock).Some? ==> Folded(st, rs[..i], values, errors, clock).Some?
  {
    hide Finalized, Updated;
    if i < |rs| {
      FoldedPrefix(st, rs[..|rs| - 1], i, values, errors, clock);
      assert rs[..|rs| - 1][..i] == rs[..i];
    } else {
      assert rs[..i] == rs;
    }
  }

  lemma {:induction false} FoldedSnoc(st: Status, rs: seq<ValidationRuleResult?>, i: nat,
                                      values: map<ValidationRuleResult?, RuleValue>, errors: seq<Option<string>>,
                                      clock: nat -> int)
    requires i < |rs| && forall r | r in rs && r != null :: r in values
    requires Folded(st, rs, values, errors, clock).Some?
    ensures
      var p := Folded(st, rs[..i], values, errors, clock);
      && p.Some? && i < |errors| && (rs[i] != null ==> rs[i] in p.value.values)
      && var out := Finalized(if rs[i] == null then MissingResult(clock(i)) else p.value.values[rs[i]], errors[i]);
      && out.state.Some?
      && Folded(st, rs[..i + 1], values, errors, clock) ==
         Some(Pass(Updated(p.value.status, out),
                   if rs[i] == null then p.value.values else p.value.values[rs[i] := out]))
  {
    hide Finalized, Updated;
    FoldedPrefix(st, rs, i, values, errors, clock);
    FoldedPrefix(st, rs, i + 1, values, errors, clock);
    assert rs[..i + 1][..i] == rs[..i];
  }

  /** What the result objects hold. */
  ghost function Values(rs: seq<ValidationRuleResult?>): map<ValidationRuleResult?, RuleValue>
    reads set r: ValidationRuleResult? | r in rs
  {
    map r: ValidationRuleResult? | r in rs && r != null :: r.View()
  }

  ghost function Response(vr: ValidationResult, resp: ValidationResponse, clock: nat -> int): Option<Pass>
    reads vr, resp, set r: ValidationRuleResult? | r in resp.results
  {
    Folded(StatusOf(vr), resp.results, Values(resp.results), resp.errors, clock)
  }

  /** clock(i) is the time read at position i. Finalize is called where the source does not
      panic. */
  method Finalize(vr: ValidationResult, resp: ValidationResponse, clock: nat -> int)
    requires Response(vr, resp, clock).Some?
    modifies vr`state, vr`validationConditions, set r: ValidationRuleResult? | r in resp.results
    ensures Some(Pass(StatusOf(vr), Values(resp.results))) == old(Response(vr, resp, clock))
  {
    hide Finalized, Updated, Folded;
    NothingFolded(StatusOf(vr), Values(resp.results), resp.errors, clock);
    ghost var st, values := StatusOf(vr), Values(resp.results);
    for i := 0 to |resp.results|
      invariant Some(Pass(StatusOf(vr), Values(resp.results))) ==
                Folded(st, resp.results[..i], values, resp.errors, clock)
    {
      FoldedSnoc(st, resp.results, i, values, resp.errors, clock);
      ghost var before := Values(resp.results);
      var r := resp.results[i];
      if r == null {
        r := new ValidationRuleResult(MissingResult(clock(i)));
        UpdateStatus(vr, r, resp.errors[i]);
        assert Values(resp.results) == before;
      } else {
        UpdateStatus(vr, r, resp.errors[i]);
        assert Values(resp.results) == before[r := r.View()];
      }
    }
    assert resp.results[..|resp.results|] == resp.results;
  }

  // ----- Responses without shared objects -----

  /** The response as a list of values. */
  function Entries(rs: seq<ValidationRuleResult?>, values: map<ValidationRuleResult?, RuleValue>,
                   errors: seq<Option<string>>, clock: nat -> int): (es: seq<Entry>)
    requires |rs| <= |errors| && forall r | r in rs && r != null :: r in values
    ensures |es| == |rs|
  {
    if rs == [] then []
    else
      var i, r := |rs| - 1, rs[|rs| - 1];
      Entries(rs[..i], values, errors, clock) +
        [Entry(if r == null then None else Some(values[r]), errors[i], clock(i))]
  }

  ghost predicate Unshared(rs: seq<ValidationRuleResult?>) {
    forall i, j | 0 <= i < j < |rs| :: rs[i] == null || rs[i] != rs[j]
  }

  /** If no object occurs twice, Finalize succeeds exactly if there is an error slot for every
      result and every entry has a state or an error; it then folds the entries' values. */
  lemma {:induction false} UnsharedResults(st: Status, rs: seq<ValidationRuleResult?>,
                                           values: map<ValidationRuleResult?, RuleValue>, errors: seq<Option<string>>,
                                           clock: nat -> int)
    requires Unshared(rs) && forall r | r in rs && r != null :: r in values
    ensures
      var p := Folded(st, rs, values, errors, clock);
      && (p.Some? <==> |rs| <= |errors| && AllHaveState(Entries(rs, values, errors, clock)))
      && (p.Some? ==> p.value.status == FinalizeAll(st, Entries(rs, values, errors, clock)))
      && (p.Some? ==> forall r | r in values && r !in rs :: p.value.values[r] == values[r])
  {
    hide Finalized, Updated;
    if rs != [] {
      var i, r := |rs| - 1, rs[|rs| - 1];
      var init := rs[..i];
      UnsharedResults(st, init, values, errors, clock);
      assert rs == init + [r];
      if |rs| <= |errors| {
        EntriesSnoc(rs, values, errors, clock);
      }
    }
  }

  lemma {:induction false} EntriesSnoc(rs: seq<ValidationRuleResult?>, values: map<ValidationRuleResult?, RuleValue>,
                                       errors: seq<Option<string>>, clock: nat -> int)
    requires 0 < |rs| <= |errors| && forall r | r in rs && r != null :: r in values
    ensures
      var init, es := Entries(rs[..|rs| - 1], values, errors, clock), Entries(rs, values, errors, clock);
      && es[..|es| - 1] == init
      && (AllHaveState(es) <==> AllHaveState(init) && HasState(es[|es| - 1]))
  {
    hide Outcome;
    var init, es := Entries(rs[..|rs| - 1], values, errors, clock), Entries(rs, values, errors, clock);
    assert es == init + [es[|es| - 1]];
    assert forall i | 0 <= i < |init| :: es[i] == init[i];
  }

  // ----- Responses built result by result -----

  lemma {:induction false} LaterErrorsDoNotMatter(st: Status, rs: seq<ValidationRuleResult?>,
                                                  values: map<ValidationRuleResult?, RuleValue>,
                                                  errors: seq<Option<string>>, more: seq<Option<string>>,
                                                  clock: nat -> int)
    requires |rs| <= |errors| && forall r | r in rs && r != null :: r in values
    ensures Folded(st, rs, values, errors + more, clock) == Folded(st, rs, values, errors, clock)
  {
    hide Finalized, Updated;
    if rs != [] {
      LaterErrorsDoNotMatter(st, rs[..|rs| - 1], values, errors, more, clock);
    }
  }

  /** Adding a result to an aligned response adds one update at the end of what Finalize does,
      with the added error and no other; it gets through exactly if it did before and the
      added result has a state or comes with an error. */
  lemma {:induction false} AddedResultComesLast(st: Status, rs: seq<ValidationRuleResult?>,
                                                values: map<ValidationRuleResult?, RuleValue>,
                                                errors: seq<Option<string>>, clock: nat -> int,
                                                r: ValidationRuleResult?, err: Option<string>)
    requires |rs| == |errors| && forall x | x in rs + [r] && x != null :: x in values
    ensures
      var before := Folded(st, rs, values, errors, clock);
      var after := Folded(st, rs + [r], values, errors + [err], clock);
      if before.None? then after == None
      else
        var v := if r == null then MissingResult(clock(|rs|)) else before.value.values[r];
        && (after.Some? <==> v.state.Some? || err.Some?)
        && (after.Some? ==> after.value.status == Updated(before.value.status, Finalized(v, err)))
  {
    hide Updated;
    assert forall x | x in rs :: x in rs + [r];
    LaterErrorsDoNotMatter(st, rs, values, errors, [err], clock);
    assert (rs + [r])[..|rs|] == rs;
  }

  const NEW_STATUS := Status(InProgress, [])

  /** What the patch helper has been asked to write, successfully or not. */
  class Patcher {
    var requests: seq<Snapshot>

    constructor ()
      ensures requests == []
    {
      requests := [];
    }

    method Patch(vr: ValidationResult, answer: Option<string>) returns (err: Option<string>)
      modifies this
      ensures requests == old(requests) + [vr.View()] && err == answer
    {
      requests := requests + [vr.View()];
      return answer;
    }
  }

  /** Creation and the first patch may fail; their errors are passed in. */
  method HandleNew(vr: ValidationResult, patcher: Patcher, createErr: Option<string>, patchErr: Option<string>)
    returns (err: Option<string>)
    modifies vr`state, vr`conditions, vr`validationConditions, patcher
    ensures createErr.Some? ==>
              err == createErr && vr.View() == old(vr.View()) && patcher.requests == old(patcher.requests)
    ensures createErr.None? ==>
              && err == patchErr && StatusOf(vr) == NEW_STATUS && vr.conditions == []
              && patcher.requests == old(patcher.requests) + [vr.View()]
  {
    if createErr.Some? {
      return createErr;
    }
    vr.state, vr.conditions, vr.validationConditions := InProgress, [], [];
    err := patcher.Patch(vr, patchErr);
  }

  /** The patch is asked for once, of the object as Finalize has left it, with everything but
      its state and validation conditions as before. */
  method SafeUpdate(vr: ValidationResult, resp: ValidationResponse, clock: nat -> int, patcher: Patcher,
                    patchErr: Option<string>)
    returns (err: Option<string>)
    requires Response(vr, resp, clock).Some?
    modifies vr`state, vr`validationConditions, set r: ValidationRuleResult? | r in resp.results
    modifies patcher
    ensures Some(Pass(StatusOf(vr), Values(resp.results))) == old(Response(vr, resp, clock))
    ensures err == patchErr
    ensures patcher.requests == old(patcher.requests) +
            [old(vr.View()).(state := StatusOf(vr).state, validationConditions := StatusOf(vr).conditions)]
  {
    Finalize(vr, resp, clock);
    err := patcher.Patch(vr, patchErr);
  }

  /** An aligned response of unshared results gets through exactly if every position has an
      error, or a result with a state. */
  lemma {:induction false} AlignedResponse(vr: ValidationResult, resp: ValidationResponse, clock: nat -> int)
    requires resp.Aligned() && Unshared(resp.results)
    ensures Response(vr, resp, clock).Some? <==>
            forall i | 0 <= i < |resp.results| ::
              resp.errors[i].Some? || (resp.results[i] != null && resp.results[i].View().state.Some?)
  {
    hide Finalized, FinalizeAll;
    var rs, values, errors := resp.results, Values(resp.results), resp.errors;
    var es := Entries(rs, values, errors, clock);
    UnsharedResults(StatusOf(vr), rs, values, errors, clock);
    forall i | 0 <= i < |rs|
      ensures HasState(es[i]) <==> errors[i].Some? || (rs[i] != null && rs[i].View().state.Some?)
    {
      EntryAt(rs, values, errors, clock, i);
      StateOfEntry(es[i]);
    }
  }

  lemma {:induction false} EntryAt(rs: seq<ValidationRuleResult?>, values: map<ValidationRuleResult?, RuleValue>,
                                   errors: seq<Option<string>>, clock: nat -> int, i: nat)
    requires i < |rs| <= |errors| && forall r | r in rs && r != null :: r in values
    ensures Entries(rs, values, errors, clock)[i] ==
            Entry(if rs[i] == null then None else Some(values[rs[i]]), errors[i], clock(i))
  {
    if i < |rs| - 1 {
      EntryAt(rs[..|rs| - 1], values, errors, clock, i);
    }
  }

  lemma {:induction false} StateOfEntry(e: Entry)
    ensures HasState(e) <==> e.error.Some? || (e.result.Some? && e.result.value.state.Some?)
  {
  }
}
