/** What folding responses into a status guarantees, over one batch and over whole runs. */
module AggregationLaws {
  import opened Text
  import opened Strings
  import opened Api
  import opened Aggregation

  // ----- The fold as one upsert pass and one recomputation -----

  function Outcomes(es: seq<Entry>): (cs: seq<ValidationCondition>)
    ensures |cs| == |es|
  {
    if es == [] then [] else Outcomes(es[..|es| - 1]) + [Outcome(es[|es| - 1]).condition]
  }

  lemma {:induction false} OutcomesAt(es: seq<Entry>, i: nat)
    requires i < |es|
    ensures Outcomes(es)[i] == Outcome(es[i]).condition
  {
    if i < |es| - 1 {
      OutcomesAt(es[..|es| - 1], i);
    }
  }

  function UpsertAll(cs: seq<ValidationCondition>, ds: seq<ValidationCondition>): seq<ValidationCondition> {
    if ds == [] then cs else Upsert(UpsertAll(cs, ds[..|ds| - 1]), ds[|ds| - 1])
  }

  /** The states recomputed after each rule do not matter; only the last one does. */
  lemma {:induction false} OnlyTheLastStateCounts(st: Status, es: seq<Entry>)
    requires AllHaveState(es)
    ensures FinalizeAll(st, es).conditions == UpsertAll(st.conditions, Outcomes(es))
    ensures es == [] ==> FinalizeAll(st, es) == st
    ensures es != [] ==> FinalizeAll(st, es).state ==
                         OverallState(FinalizeAll(st, es).conditions, Outcome(es[|es| - 1]).state.value)
  {
    if es != [] {
      OnlyTheLastStateCounts(st, es[..|es| - 1]);
    }
  }

  // ----- Upsert refines last-writer-wins override -----

  function Lookup(cs: seq<ValidationCondition>, rule: string): Option<ValidationCondition> {
    var k := IndexOf(cs, rule);
    if k == -1 then None else Some(cs[k])
  }

  function LastOf(ds: seq<ValidationCondition>, rule: string): Option<ValidationCondition> {
    if ds == [] then None
    else if ds[|ds| - 1].validationRule == rule then Some(ds[|ds| - 1])
    else LastOf(ds[..|ds| - 1], rule)
  }

  lemma {:induction false} UpsertLooksUp(cs: seq<ValidationCondition>, c: ValidationCondition, rule: string)
    ensures Lookup(Upsert(cs, c), rule) == if c.validationRule == rule then Some(c) else Lookup(cs, rule)
    ensures IndexOf(cs, rule) != -1 ==> IndexOf(Upsert(cs, c), rule) == IndexOf(cs, rule)
  {
    var k, up, j := IndexOf(cs, c.validationRule), Upsert(cs, c), IndexOf(cs, rule);
    assert |up| == if k == -1 then |cs| + 1 else |cs|;
    assert forall i | 0 <= i < |cs| && i != k :: up[i] == cs[i];
    var n := IndexOf(up, rule);
    if j != -1 {
      assert up[j].validationRule == rule;
      assert n == j;
    } else if k == -1 && c.validationRule == rule {
      assert up[|cs|] == c;
    }
  }

  /** Every rule maps to its last entry in the batch, or else to what it mapped to before. */
  lemma {:induction false} UpsertIsOverride(cs: seq<ValidationCondition>, ds: seq<ValidationCondition>, rule: string)
    ensures Lookup(UpsertAll(cs, ds), rule) ==
            if LastOf(ds, rule).Some? then LastOf(ds, rule) else Lookup(cs, rule)
    ensures IndexOf(cs, rule) != -1 ==> IndexOf(UpsertAll(cs, ds), rule) == IndexOf(cs, rule)
  {
    if ds != [] {
      UpsertIsOverride(cs, ds[..|ds| - 1], rule);
      UpsertLooksUp(UpsertAll(cs, ds[..|ds| - 1]), ds[|ds| - 1], rule);
    }
  }

  function Rules(cs: seq<ValidationCondition>): (rs: seq<string>)
    ensures |rs| == |cs| && forall i | 0 <= i < |cs| :: rs[i] == cs[i].validationRule
  {
    if cs == [] then [] else Rules(cs[..|cs| - 1]) + [cs[|cs| - 1].validationRule]
  }

  lemma {:induction false} UpsertRules(cs: seq<ValidationCondition>, c: ValidationCondition)
    ensures Rules(Upsert(cs, c)) ==
            if c.validationRule in Rules(cs) then Rules(cs) else Rules(cs) + [c.validationRule]
  {
    var k := IndexOf(cs, c.validationRule);
    if k != -1 {
      assert Rules(cs)[k] == c.validationRule;
    } else {
      assert forall i | 0 <= i < |cs| :: Rules(cs)[i] != c.validationRule;
    }
  }

  lemma {:induction false} UpsertKeepsPositions(cs: seq<ValidationCondition>, ds: seq<ValidationCondition>)
    ensures Rules(cs) <= Rules(UpsertAll(cs, ds))
  {
    if ds != [] {
      UpsertKeepsPositions(cs, ds[..|ds| - 1]);
      UpsertRules(UpsertAll(cs, ds[..|ds| - 1]), ds[|ds| - 1]);
    }
  }

  lemma {:induction false} UpsertAppendsNewRules(cs: seq<ValidationCondition>, ds: seq<ValidationCondition>)
    requires Distinct(Rules(cs))
    ensures Rules(UpsertAll(cs, ds)) == DeDupe(Rules(cs) + Rules(ds))
  {
    hide Rules, DeDupe, UpsertAll, Upsert;
    if ds == [] {
      UpsertNone(cs);
      DeDupeOfDistinct(Rules(cs));
    } else {
      var init, d := ds[..|ds| - 1], ds[|ds| - 1];
      assert ds == init + [d];
      UpsertAppendsNewRules(cs, init);
      UpsertSnoc(cs, init, d);
      UpsertRules(UpsertAll(cs, init), d);
      RulesSnoc(cs, init, d);
      DeDupeSnoc(Rules(cs) + Rules(init), d.validationRule);
    }
  }

  lemma {:induction false} UpsertNone(cs: seq<ValidationCondition>)
    ensures UpsertAll(cs, []) == cs && Rules(cs) + Rules([]) == Rules(cs)
  {
  }

  lemma {:induction false} UpsertSnoc(cs: seq<ValidationCondition>, ds: seq<ValidationCondition>,
                                      d: ValidationCondition)
    ensures UpsertAll(cs, ds + [d]) == Upsert(UpsertAll(cs, ds), d)
  {
    hide Upsert;
    assert (ds + [d])[..|ds|] == ds;
  }

  lemma {:induction false} RulesSnoc(cs: seq<ValidationCondition>, ds: seq<ValidationCondition>, d: ValidationCondition)
    ensures Rules(cs) + Rules(ds + [d]) == Rules(cs) + Rules(ds) + [d.validationRule]
  {
    assert Rules(ds + [d]) == Rules(ds) + [d.validationRule];
  }

  /** The rules named by either list. */
  ghost function RuleSet(cs: seq<ValidationCondition>, ds: seq<ValidationCondition>): set<string> {
    set r | r in Rules(cs) + Rules(ds)
  }

  /** Existing rules keep their positions and new ones follow in order of first appearance;
      no rule is lost or doubled, and the length is the number of rules seen. */
  lemma {:induction false} UpsertKeepsOrder(cs: seq<ValidationCondition>, ds: seq<ValidationCondition>)
    ensures Rules(cs) <= Rules(UpsertAll(cs, ds))
    ensures Distinct(Rules(cs)) ==>
              && Rules(UpsertAll(cs, ds)) == DeDupe(Rules(cs) + Rules(ds))
              && Distinct(Rules(UpsertAll(cs, ds)))
              && |UpsertAll(cs, ds)| == |RuleSet(cs, ds)|
  {
    UpsertKeepsPositions(cs, ds);
    if Distinct(Rules(cs)) {
      UpsertAppendsNewRules(cs, ds);
      var all := Rules(cs) + Rules(ds);
      DeDupeIsDistinct(all);
      DistinctLength(DeDupe(all));
      assert (set r | r in DeDupe(all)) == RuleSet(cs, ds);
      assert |Rules(UpsertAll(cs, ds))| == |UpsertAll(cs, ds)|;
    }
  }

  /** The whole of Finalize as an override of the status it starts from. */
  lemma {:induction false} FinalizeOverrides(st: Status, es: seq<Entry>, rule: string)
    requires AllHaveState(es)
    ensures
      var cs, ds := FinalizeAll(st, es).conditions, Outcomes(es);
      && Lookup(cs, rule) == (if LastOf(ds, rule).Some? then LastOf(ds, rule) else Lookup(st.conditions, rule))
      && Rules(st.conditions) <= Rules(cs)
      && (Distinct(Rules(st.conditions)) ==>
            && Distinct(Rules(cs))
            && Rules(cs) == DeDupe(Rules(st.conditions) + Rules(ds))
            && |cs| == |RuleSet(st.conditions, ds)|)
  {
    OnlyTheLastStateCounts(st, es);
    UpsertIsOverride(st.conditions, Outcomes(es), rule);
    UpsertKeepsOrder(st.conditions, Outcomes(es));
  }

  // ----- What is stored for a rule -----

  /** The condition that a validator reported, before any error; a nil result reports an empty
      one with the time at which it was met. */
  function Reported(e: Entry): ValidationCondition {
    if e.result.Some? then e.result.value.condition
    else ValidationCondition("", "", "", [], [], ConditionOther(""), e.now)
  }

  lemma {:induction false} OutcomeInDetail(e: Entry)
    ensures
      var c, r := Outcome(e).condition, Reported(e);
      && c.validationType == r.validationType && c.validationRule == r.validationRule
      && c.details == r.details && c.lastValidationTime == r.lastValidationTime
      && (e.error.None? ==> c == r)
      && (e.error.Some? ==>
            && c.failures == r.failures + [e.error.value] && c.status == ConditionFalse
            && c.message == "Validation failed with an unexpected error")
  {
  }

  /** After a batch, the last entry of a rule is stored as reported or, with an error, as failed:
      with the error added after the reported failures and a fixed message; type, details and
      time stay. */
  lemma {:induction false} StoredAsReported(st: Status, es: seq<Entry>, k: nat)
    requires AllHaveState(es) && k < |es|
    requires forall j | k < j < |es| :: Reported(es[j]).validationRule != Reported(es[k]).validationRule
    ensures
      var r, e := Reported(es[k]), es[k].error;
      var stored := Lookup(FinalizeAll(st, es).conditions, r.validationRule);
      && stored.Some? && var c := stored.value;
      && c.validationType == r.validationType && c.validationRule == r.validationRule
      && c.details == r.details && c.lastValidationTime == r.lastValidationTime
      && (e.None? ==> c == r)
      && (e.Some? ==>
            && c.failures == r.failures + [e.value] && c.status == ConditionFalse
            && c.message == "Validation failed with an unexpected error")
  {
    hide Outcome, FinalizeAll, Outcomes, LastOf, Lookup, DeDupe, Rules, Reported;
    var ds := Outcomes(es);
    OutcomeInDetail(es[k]);
    OutcomesAt(es, k);
    forall j | k < j < |es| ensures ds[j].validationRule != ds[k].validationRule {
      OutcomesAt(es, j);
      OutcomeInDetail(es[j]);
    }
    LastOfAt(ds, k);
    FinalizeOverrides(st, es, ds[k].validationRule);
  }

  // ----- The overall state -----

  predicate Binary(s: ConditionStatus) {
    s == ConditionTrue || s == ConditionFalse
  }

  predicate AllBinary(cs: seq<ValidationCondition>) {
    forall i | 0 <= i < |cs| :: Binary(cs[i].status)
  }

  ghost predicate StateMatches(st: Status) {
    && (st.state == InProgress <==> st.conditions == [])
    && (st.state == Failed <==> Any(st.conditions, ConditionFalse))
    && (st.state == Succeeded <==> st.conditions != [] && !Any(st.conditions, ConditionFalse))
  }

  lemma {:induction false} UpsertAllKeepsBinary(cs: seq<ValidationCondition>, ds: seq<ValidationCondition>)
    requires AllBinary(cs) && AllBinary(ds)
    ensures AllBinary(UpsertAll(cs, ds))
    ensures cs != [] || ds != [] ==> UpsertAll(cs, ds) != []
  {
    if ds != [] {
      UpsertAllKeepsBinary(cs, ds[..|ds| - 1]);
    }
  }

  lemma {:induction false} BatchKeepsState(st: Status, es: seq<Entry>)
    requires AllHaveState(es) && AllBinary(Outcomes(es))
    requires AllBinary(st.conditions) && StateMatches(st)
    ensures AllBinary(FinalizeAll(st, es).conditions) && StateMatches(FinalizeAll(st, es))
    ensures es != [] ==> FinalizeAll(st, es).state != InProgress
  {
    OnlyTheLastStateCounts(st, es);
    UpsertAllKeepsBinary(st.conditions, Outcomes(es));
    var cs := FinalizeAll(st, es).conditions;
    if es != [] {
      assert cs != [] && Binary(cs[0].status);
    }
  }

  /** The status after HandleNew and then any number of validation rounds. */
  function Rounds(batches: seq<seq<Entry>>): Status
    requires forall b | b in batches :: AllHaveState(b)
  {
    if batches == [] then NEW_STATUS
    else FinalizeAll(Rounds(batches[..|batches| - 1]), batches[|batches| - 1])
  }

  /** Over all runs with True/False outcomes: in progress exactly while no rule has reported,
      failed exactly while some condition is False, succeeded otherwise. */
  lemma {:induction false} StateOverRuns(batches: seq<seq<Entry>>)
    requires forall b | b in batches :: AllHaveState(b) && AllBinary(Outcomes(b))
    ensures StateMatches(Rounds(batches)) && AllBinary(Rounds(batches).conditions)
    ensures Distinct(Rules(Rounds(batches).conditions))
    ensures Rounds(batches).state == InProgress <==> forall b | b in batches :: b == []
  {
    if batches != [] {
      var init, b := batches[..|batches| - 1], batches[|batches| - 1];
      assert batches == init + [b];
      StateOverRuns(init);
      BatchKeepsState(Rounds(init), b);
      OnlyTheLastStateCounts(Rounds(init), b);
      UpsertKeepsOrder(Rounds(init).conditions, Outcomes(b));
      UpsertAllKeepsBinary(Rounds(init).conditions, Outcomes(b));
      assert b in batches && forall x | x in init :: x in batches;
      assert forall x | x in batches :: x in init || x == b;
    }
  }

  lemma {:induction false} LastOfAt(ds: seq<ValidationCondition>, k: nat)
    requires k < |ds| && forall j | k < j < |ds| :: ds[j].validationRule != ds[k].validationRule
    ensures LastOf(ds, ds[k].validationRule) == Some(ds[k])
  {
    if k < |ds| - 1 {
      assert ds[|ds| - 1].validationRule != ds[k].validationRule;
      LastOfAt(ds[..|ds| - 1], k);
    }
  }

  /** Whatever came before, a rule whose last entry in the batch errs or reports False fails
      the whole result; results whose statuses are True or False never fall back to InProgress. */
  lemma {:induction false} LastBadEntryFails(st: Status, es: seq<Entry>, k: nat)
    requires AllHaveState(es) && k < |es|
    requires es[k].error.Some? || Outcome(es[k]).condition.status == ConditionFalse
    requires forall j | k < j < |es| ::
               Outcome(es[j]).condition.validationRule != Outcome(es[k]).condition.validationRule
    ensures FinalizeAll(st, es).state == Failed
  {
    var ds, c := Outcomes(es), Outcome(es[k]).condition;
    OnlyTheLastStateCounts(st, es);
    OutcomesAt(es, k);
    forall j | k < j < |es| ensures ds[j].validationRule != c.validationRule {
      OutcomesAt(es, j);
    }
    LastOfAt(ds, k);
    UpsertIsOverride(st.conditions, ds, c.validationRule);
    var cs := FinalizeAll(st, es).conditions;
    assert cs[IndexOf(cs, c.validationRule)].status == ConditionFalse;
  }

  /** The state as the comment in the source describes it. */
  function DocumentedState(cs: seq<ValidationCondition>): ValidationState {
    if Any(cs, ConditionFalse) then Failed
    else if forall i | 0 <= i < |cs| :: cs[i].status == ConditionTrue then Succeeded
    else InProgress
  }

  lemma {:induction false} CommentHoldsAfterwards(st: Status, es: seq<Entry>)
    requires es != [] && AllHaveState(es)
    ensures
      var after := FinalizeAll(st, es);
      after.state == DocumentedState(after.conditions) <==>
        || Any(after.conditions, ConditionFalse)
        || (forall i | 0 <= i < |after.conditions| :: after.conditions[i].status == ConditionTrue)
        || (!Any(after.conditions, ConditionTrue) && Outcome(es[|es| - 1]).state.value == InProgress)
  {
    hide Outcome, Updated;
    OnlyTheLastStateCounts(st, es);
    NeverEmptied(st.conditions, Outcomes(es));
    var cs := FinalizeAll(st, es).conditions;
    assert cs[0].status == ConditionTrue ==> Any(cs, ConditionTrue);
  }

  /** A rule's word is its last entry in the batch or, without one, what is stored for it. */
  function Word(st: Status, es: seq<Entry>, rule: string): Option<ConditionStatus> {
    var last, stored := LastOf(Outcomes(es), rule), Lookup(st.conditions, rule);
    if last.Some? then Some(last.value.status) else if stored.Some? then Some(stored.value.status) else None
  }

  lemma {:induction false} StatusesAreWords(st: Status, es: seq<Entry>, i: nat)
    requires AllHaveState(es) && Distinct(Rules(st.conditions)) && i < |FinalizeAll(st, es).conditions|
    ensures
      var c := FinalizeAll(st, es).conditions[i];
      Word(st, es, c.validationRule) == Some(c.status)
  {
    hide FinalizeAll, Outcomes, LastOf, DeDupe;
    var cs := FinalizeAll(st, es).conditions;
    FinalizeOverrides(st, es, cs[i].validationRule);
    FirstIsOnly(cs, i);
  }

  lemma {:induction false} FirstIsOnly(cs: seq<ValidationCondition>, i: nat)
    requires Distinct(Rules(cs)) && i < |cs|
    ensures IndexOf(cs, cs[i].validationRule) == i && Lookup(cs, cs[i].validationRule) == Some(cs[i])
  {
    var k := IndexOf(cs, cs[i].validationRule);
    assert k != -1 && Rules(cs)[i] == cs[i].validationRule == cs[k].validationRule == Rules(cs)[k];
  }

  lemma {:induction false} WordsAreStatuses(st: Status, es: seq<Entry>, rule: string)
    requires AllHaveState(es) && Word(st, es, rule).Some?
    ensures
      var cs := FinalizeAll(st, es).conditions;
      exists i | 0 <= i < |cs| :: cs[i].validationRule == rule && cs[i].status == Word(st, es, rule).value
  {
    hide FinalizeAll, Outcomes, LastOf, DeDupe, Rules, Distinct;
    FinalizeOverrides(st, es, rule);
    var cs := FinalizeAll(st, es).conditions;
    var k := IndexOf(cs, rule);
    assert cs[k].validationRule == rule && cs[k].status == Word(st, es, rule).value;
  }

  /** The state after a batch: failed exactly if some rule's word is False; otherwise succeeded if
      some rule's word is True; otherwise what the last entry says of itself. */
  lemma {:induction false} StateByWords(st: Status, es: seq<Entry>)
    requires es != [] && AllHaveState(es) && Distinct(Rules(st.conditions))
    ensures
      FinalizeAll(st, es).state ==
        if exists r :: Word(st, es, r) == Some(ConditionFalse) then Failed
        else if exists r :: Word(st, es, r) == Some(ConditionTrue) then Succeeded
        else if es[|es| - 1].error.Some? then Failed
        else es[|es| - 1].result.value.state.value
  {
    hide FinalizeAll, Word, Rules, Distinct;
    OnlyTheLastStateCounts(st, es);
    assert HasState(es[|es| - 1]);
    var cs := FinalizeAll(st, es).conditions;
    forall i | 0 <= i < |cs| ensures Word(st, es, cs[i].validationRule) == Some(cs[i].status) {
      StatusesAreWords(st, es, i);
    }
    forall r | Word(st, es, r).Some?
      ensures exists i | 0 <= i < |cs| :: cs[i].validationRule == r && cs[i].status == Word(st, es, r).value
    {
      WordsAreStatuses(st, es, r);
    }
  }

  /** A batch leaves the state that the comment describes exactly if, counting for each rule its
      last entry or what was stored, some rule says False, or all say True, or none says True
      and the last entry calls itself in progress. */
  lemma {:induction false} CommentHoldsExactly(st: Status, es: seq<Entry>)
    requires es != [] && AllHaveState(es) && Distinct(Rules(st.conditions))
    ensures
      var after := FinalizeAll(st, es);
      after.state == DocumentedState(after.conditions) <==>
        || (exists r :: Word(st, es, r) == Some(ConditionFalse))
        || (forall r | Word(st, es, r).Some? :: Word(st, es, r) == Some(ConditionTrue))
        || ((forall r :: Word(st, es, r) != Some(ConditionTrue)) && Outcome(es[|es| - 1]).state.value == InProgress)
  {
    hide Outcome, FinalizeAll, Word, DocumentedState, Rules, Distinct;
    CommentHoldsAfterwards(st, es);
    var cs := FinalizeAll(st, es).conditions;
    forall i | 0 <= i < |cs| ensures Word(st, es, cs[i].validationRule) == Some(cs[i].status) {
      StatusesAreWords(st, es, i);
    }
    forall r | Word(st, es, r).Some?
      ensures exists i | 0 <= i < |cs| :: cs[i].validationRule == r && cs[i].status == Word(st, es, r).value
    {
      WordsAreStatuses(st, es, r);
    }
  }

  lemma {:induction false} NeverEmptied(cs: seq<ValidationCondition>, ds: seq<ValidationCondition>)
    requires ds != []
    ensures UpsertAll(cs, ds) != []
  {
  }

  /** A first batch of one True and one Unknown result already counts as success. */
  lemma {:induction false} CommentFailsForUnknown(a: Entry, b: Entry)
    requires AllHaveState([a, b])
    requires Outcome(a).condition.status == ConditionTrue && Outcome(b).condition.status == ConditionOther("Unknown")
    requires Outcome(a).condition.validationRule != Outcome(b).condition.validationRule
    ensures
      var after := FinalizeAll(NEW_STATUS, [a, b]);
      after.state == Succeeded && DocumentedState(after.conditions) == InProgress
  {
    hide Outcome, FinalizeAll, Outcomes, UpsertAll, OverallState, DocumentedState;
    var c, d := Outcome(a).condition, Outcome(b).condition;
    OutcomesOfTwo(a, b);
    OnlyTheLastStateCounts(NEW_STATUS, [a, b]);
    UpsertTwo(c, d);
    StatesOfTwo(c, d, Outcome(b).state.value);
  }

  lemma {:induction false} OutcomesOfTwo(a: Entry, b: Entry)
    ensures Outcomes([a, b]) == [Outcome(a).condition, Outcome(b).condition]
  {
    hide Outcome;
    assert [a, b][..1] == [a] && [a][..0] == [];
    assert Outcomes([a]) == [Outcome(a).condition];
  }

  lemma {:induction false} UpsertTwo(c: ValidationCondition, d: ValidationCondition)
    requires c.validationRule != d.validationRule
    ensures UpsertAll([], [c, d]) == [c, d]
  {
    hide IndexOf;
    assert [c, d][..1] == [c] && [c][..0] == [];
    assert UpsertAll([], [c]) == Upsert([], c) == [c];
  }

  lemma {:induction false} StatesOfTwo(c: ValidationCondition, d: ValidationCondition, ruleState: ValidationState)
    requires c.status == ConditionTrue && d.status == ConditionOther("Unknown")
    ensures OverallState([c, d], ruleState) == Succeeded && DocumentedState([c, d]) == InProgress
  {
    assert [c, d][0].status == ConditionTrue && [c, d][1].status != ConditionTrue;
  }

  // ----- Validating again without news -----

  /** The last entry of every rule repeats, up to its time, what is stored for the rule. */
  ghost predicate Repeats(cs: seq<ValidationCondition>, ds: seq<ValidationCondition>) {
    forall r :: LastOf(ds, r).Some? ==> Lookup(cs, r).Some? && SameButTime(Lookup(cs, r).value, LastOf(ds, r).value)
  }

  /** What stands at each of the old positions after a batch. */
  lemma {:induction false} UpsertAt(cs: seq<ValidationCondition>, ds: seq<ValidationCondition>, i: nat)
    requires i < |cs|
    ensures
      var up, rule := UpsertAll(cs, ds), cs[i].validationRule;
      && |cs| <= |up|
      && up[i] == if IndexOf(cs, rule) == i && LastOf(ds, rule).Some? then LastOf(ds, rule).value else cs[i]
  {
    if ds != [] {
      var init, d := ds[..|ds| - 1], ds[|ds| - 1];
      UpsertAt(cs, init, i);
      UpsertIsOverride(cs, init, d.validationRule);
      UpsertIsOverride(cs, init, cs[i].validationRule);
    }
  }

  lemma {:induction false} NoNewRules(cs: seq<ValidationCondition>, ds: seq<ValidationCondition>)
    requires forall r :: LastOf(ds, r).Some? ==> Lookup(cs, r).Some?
    ensures |UpsertAll(cs, ds)| == |cs|
  {
    if ds != [] {
      var init, d := ds[..|ds| - 1], ds[|ds| - 1];
      assert LastOf(ds, d.validationRule) == Some(d);
      forall r | LastOf(init, r).Some? ensures Lookup(cs, r).Some? {
        assert LastOf(ds, r).Some?;
      }
      NoNewRules(cs, init);
      UpsertIsOverride(cs, init, d.validationRule);
    }
  }

  /** Nothing but times changes exactly if the batch only repeats. */
  lemma {:induction false} OnlyTimesChangeExactly(cs: seq<ValidationCondition>, ds: seq<ValidationCondition>)
    ensures SameConditions(cs, UpsertAll(cs, ds)) <==> Repeats(cs, ds)
  {
    hide UpsertAll, LastOf, Upsert, IndexOf;
    var up := UpsertAll(cs, ds);
    if Repeats(cs, ds) {
      NoNewRules(cs, ds);
      forall i | 0 <= i < |cs| ensures SameButTime(cs[i], up[i]) {
        UpsertAt(cs, ds, i);
      }
    }
    if SameConditions(cs, up) {
      SameConditionsSameState(cs, up);
      forall r | LastOf(ds, r).Some?
        ensures Lookup(cs, r).Some? && SameButTime(Lookup(cs, r).value, LastOf(ds, r).value)
      {
        UpsertIsOverride(cs, ds, r);
        SameLookups(cs, up, r);
      }
    }
  }

  lemma {:induction false} SameLookups(xs: seq<ValidationCondition>, ys: seq<ValidationCondition>, rule: string)
    requires SameConditions(xs, ys)
    ensures IndexOf(xs, rule) == IndexOf(ys, rule)
    ensures Lookup(xs, rule).Some? ==> SameButTime(Lookup(xs, rule).value, Lookup(ys, rule).value)
  {
    SameConditionsSameState(xs, ys);
    assert |Rules(xs)| == |xs| && |Rules(ys)| == |ys|;
    assert forall i | 0 <= i < |xs| :: xs[i].validationRule == Rules(xs)[i] == ys[i].validationRule;
    var i, j := IndexOf(xs, rule), IndexOf(ys, rule);
    if i != -1 {
      assert ys[i].validationRule == rule && SameButTime(xs[i], ys[i]);
    }
    if j != -1 {
      assert xs[j].validationRule == rule;
    }
  }

  lemma {:induction false} SameConditionsSameState(xs: seq<ValidationCondition>, ys: seq<ValidationCondition>)
    requires SameConditions(xs, ys)
    ensures forall s :: Any(xs, s) <==> Any(ys, s)
    ensures Rules(xs) == Rules(ys)
  {
    forall i | 0 <= i < |xs|
      ensures xs[i].status == ys[i].status && xs[i].validationRule == ys[i].validationRule
    {
      assert SameButTime(xs[i], ys[i]);
      assert WithoutTime(xs[i]).status == WithoutTime(ys[i]).status
             && WithoutTime(xs[i]).validationRule == WithoutTime(ys[i]).validationRule;
    }
  }

  lemma {:induction false} NothingToRepeat(ds: seq<ValidationCondition>)
    ensures Repeats([], ds) <==> ds == []
  {
    if ds != [] {
      assert LastOf(ds, ds[|ds| - 1].validationRule).Some?;
    }
  }

  /** A batch changes nothing but validation times exactly if its last entry for every rule, in
      whatever order, repeats what is stored. Then order, state and digest stay; and a digest
      that tells the two contents apart stays only then. */
  lemma {:induction false} RevalidationIsSilent(md5: string -> string, uid: string, spec: Spec, st: Status,
                                                es: seq<Entry>)
    requires AllHaveState(es) && AllBinary(st.conditions) && StateMatches(st)
    ensures
      var st', silent := FinalizeAll(st, es), Repeats(st.conditions, Outcomes(es));
      var before := ResultContent(uid, spec, st.state, st.conditions);
      var after := ResultContent(uid, spec, st'.state, st'.conditions);
      && (SameConditions(st.conditions, st'.conditions) <==> silent)
      && (silent ==> st'.state == st.state && Rules(st'.conditions) == Rules(st.conditions))
      && (silent ==> HashOf(md5, after) == HashOf(md5, before))
      && (Distinguishes(md5, after, before) && HashOf(md5, after) == HashOf(md5, before) ==> silent)
  {
    hide FinalizeAll, Outcomes, UpsertAll, HashOf, Repeats, LastOf;
    var st' := FinalizeAll(st, es);
    OnlyTheLastStateCounts(st, es);
    OnlyTimesChangeExactly(st.conditions, Outcomes(es));
    var before := ResultContent(uid, spec, st.state, st.conditions);
    var after := ResultContent(uid, spec, st'.state, st'.conditions);
    if Repeats(st.conditions, Outcomes(es)) {
      SameConditionsSameState(st.conditions, st'.conditions);
      if st.conditions != [] {
        assert Binary(st.conditions[0].status);
      } else {
        NothingToRepeat(Outcomes(es));
      }
      SameConditionsFlip(st.conditions, st'.conditions);
      HashIgnoresTimes(md5, after, before);
    }
    if SameContent(after, before) {
      SameConditionsFlip(st'.conditions, st.conditions);
    }
  }

  lemma {:induction false} SameConditionsFlip(xs: seq<ValidationCondition>, ys: seq<ValidationCondition>)
    requires SameConditions(xs, ys)
    ensures SameConditions(ys, xs)
  {
    forall i | 0 <= i < |xs| ensures SameButTime(ys[i], xs[i]) {
      assert SameButTime(xs[i], ys[i]);
    }
  }

  lemma {:induction false} RulesOfEmpty(ds: seq<ValidationCondition>)
    ensures Rules([]) + Rules(ds) == Rules(ds)
  {
  }

  /** A first batch leaves as many conditions as it has entries exactly if no two entries
      share a rule. */
  lemma {:induction false} AllCountedExactly(es: seq<Entry>)
    requires AllHaveState(es)
    ensures |FinalizeAll(NEW_STATUS, es).conditions| <= |es|
    ensures |FinalizeAll(NEW_STATUS, es).conditions| == |es| <==> Distinct(Rules(Outcomes(es)))
  {
    hide Outcomes, UpsertAll, DeDupe, Distinct, FinalizeAll, Rules;
    var ds := Outcomes(es);
    OnlyTheLastStateCounts(NEW_STATUS, es);
    assert Distinct(Rules([])) by { NoRulesRepeat(); }
    UpsertAppendsNewRules([], ds);
    RulesOfEmpty(ds);
    DeDupeLength(Rules(ds));
    assert |Rules(UpsertAll([], ds))| == |UpsertAll([], ds)|;
  }

  lemma {:induction false} NoRulesRepeat()
    ensures Distinct(Rules([]))
  {
  }

  /** Nil results share the empty rule name: with two of them in a first batch there are
      fewer conditions than entries. */
  lemma {:induction false} NilResultsCollapse(es: seq<Entry>, i: nat, j: nat)
    requires AllHaveState(es) && i < j < |es|
    requires es[i].result.None? && es[j].result.None?
    ensures |FinalizeAll(NEW_STATUS, es).conditions| < |es|
  {
    AllCountedExactly(es);
    OutcomesAt(es, i);
    OutcomesAt(es, j);
    assert Rules(Outcomes(es))[i] == Rules(Outcomes(es))[j];
  }
}
