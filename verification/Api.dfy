/** api/v1alpha1/validationresult_types.go: the ValidationResult object and its digest. */
module Api {
  import opened Text

  // ----- Status vocabulary -----

  /** A Kubernetes condition status is a free string; only two values are tested for. */
  datatype ConditionStatus = ConditionTrue | ConditionFalse | ConditionOther(text: string)

  /** The overall state is a free string; a freshly built object carries the empty one. */
  datatype ValidationState = Succeeded | Failed | InProgress | OtherState(text: string)

  datatype ValidationCondition = ValidationCondition(
    validationType: string,
    validationRule: string,
    message: string,
    details: seq<string>,
    failures: seq<string>,
    status: ConditionStatus,
    lastValidationTime: int)

  datatype Spec = Spec(plugin: string, expectedResults: int)

  /** An entry of the object's general condition list; SinkEmission is one of them. */
  datatype Condition = Condition(
    conditionType: string, reason: string, status: ConditionStatus, message: string, lastTransitionTime: int)

  const SINK_EMISSION := "SinkEmission"
  const SINK_EMIT_NA := "SinkEmitNA"
  const SINK_EMIT_FAILED := "SinkEmitFailed"
  const SINK_EMIT_SUCCEEDED := "SinkEmitSucceeded"

  /** The annotation under which the reconciler stores the digest it last saw. */
  const RESULT_HASH_KEY := "validator/validation-result-hash"

  // ----- The object -----

  /** A value of the object, as the API server holds it or a client has read it. */
  datatype Snapshot = Snapshot(
    uid: string,
    spec: Spec,
    annotations: map<string, string>,
    state: ValidationState,
    conditions: seq<Condition>,
    validationConditions: seq<ValidationCondition>)
  {
    function Content(): Content {
      ResultContent(uid, spec, state, validationConditions)
    }

    function StoredHash(): Option<string> {
      if RESULT_HASH_KEY in annotations then Some(annotations[RESULT_HASH_KEY]) else None
    }
  }

  /** A client's copy of the object, updated in place before it is patched back. */
  class ValidationResult {
    const uid: string
    const spec: Spec
    var annotations: map<string, string>
    var state: ValidationState
    var conditions: seq<Condition>
    var validationConditions: seq<ValidationCondition>

    constructor (s: Snapshot)
      ensures View() == s
    {
      uid, spec, annotations := s.uid, s.spec, s.annotations;
      state, conditions, validationConditions := s.state, s.conditions, s.validationConditions;
    }

    function View(): Snapshot
      reads this
    {
      Snapshot(uid, spec, annotations, state, conditions, validationConditions)
    }

    /** The digester is fed piece by piece; each condition is copied and its time zeroed. */
    method Hash(md5: string -> string) returns (hash: string)
      ensures hash == HashOf(md5, View().Content())
    {
      var fed := uid;
      fed := fed + PrintSpec(spec);
      fed := fed + PrintState(state);
      ghost var header := fed;
      for i := 0 to |validationConditions|
        invariant fed == header + PrintConditions(validationConditions[..i])
      {
        var c := WithoutTime(validationConditions[i]);
        PrintOneMore(header, validationConditions, i);
        fed := fed + PrintCondition(c);
      }
      assert validationConditions[..|validationConditions|] == validationConditions;
      hash := md5(fed);
    }
  }

  // ----- What the digest is computed from -----

  datatype Content = ResultContent(
    uid: string, spec: Spec, state: ValidationState, validationConditions: seq<ValidationCondition>)

  function StatusText(s: ConditionStatus): string {
    match s
    case ConditionTrue => "True"
    case ConditionFalse => "False"
    case ConditionOther(text) => text
  }

  function PrintState(s: ValidationState): string {
    match s
    case Succeeded => "Succeeded"
    case Failed => "Failed"
    case InProgress => "InProgress"
    case OtherState(text) => text
  }

  /** fmt.Fprint of the spec struct: fields separated by blanks, inside braces. */
  function PrintSpec(s: Spec): string {
    "{" + s.plugin + " " + Itoa(s.expectedResults) + "}"
  }

  function WithoutTime(c: ValidationCondition): ValidationCondition {
    c.(lastValidationTime := 0)
  }

  const ZERO_TIME_TEXT := "0001-01-01 00:00:00 +0000 UTC"

  /** fmt.Fprint of a pointer to a condition whose time has been zeroed. */
  function PrintCondition(c: ValidationCondition): string {
    "&{" + c.validationType + " " + (c.validationRule + " " + c.message) + PrintLists(c) + PrintEnd(c.status)
  }

  function PrintLists(c: ValidationCondition): string {
    " [" + Join(c.details, " ") + "] [" + Join(c.failures, " ") + "] "
  }

  function PrintEnd(s: ConditionStatus): string {
    StatusText(s) + " " + ZERO_TIME_TEXT + "}"
  }

  function PrintConditions(cs: seq<ValidationCondition>): string {
    if cs == [] then "" else PrintConditions(cs[..|cs| - 1]) + PrintCondition(WithoutTime(cs[|cs| - 1]))
  }

  lemma {:induction false} PrintOneMore(header: string, cs: seq<ValidationCondition>, i: nat)
    requires i < |cs|
    ensures header + PrintConditions(cs[..i + 1]) ==
            header + PrintConditions(cs[..i]) + PrintCondition(WithoutTime(cs[i]))
  {
    assert cs[..i + 1][..i] == cs[..i];
    ConcatAssociative(header, PrintConditions(cs[..i]), PrintCondition(WithoutTime(cs[i])));
  }

  /** md5 stands for MD5 followed by base64. */
  function HashOf(md5: string -> string, c: Content): string {
    md5(c.uid + PrintSpec(c.spec) + PrintState(c.state) + PrintConditions(c.validationConditions))
  }

  // ----- Laws of the digest -----

  predicate SameButTime(a: ValidationCondition, b: ValidationCondition) {
    WithoutTime(a) == WithoutTime(b)
  }

  predicate SameConditions(xs: seq<ValidationCondition>, ys: seq<ValidationCondition>) {
    |xs| == |ys| && forall i | 0 <= i < |xs| :: SameButTime(xs[i], ys[i])
  }

  /** Two contents that differ at most in validation times. */
  predicate SameContent(a: Content, b: Content) {
    a.uid == b.uid && a.spec == b.spec && a.state == b.state
    && SameConditions(a.validationConditions, b.validationConditions)
  }

  lemma {:induction false} SameConditionsPrintAlike(xs: seq<ValidationCondition>, ys: seq<ValidationCondition>)
    requires SameConditions(xs, ys)
    ensures PrintConditions(xs) == PrintConditions(ys)
  {
    if xs != [] {
      SameConditionsPrintAlike(xs[..|xs| - 1], ys[..|ys| - 1]);
      assert SameButTime(xs[|xs| - 1], ys[|ys| - 1]);
    }
  }

  lemma {:induction false} HashIgnoresTimes(md5: string -> string, a: Content, b: Content)
    requires SameContent(a, b)
    ensures HashOf(md5, a) == HashOf(md5, b)
  {
    SameConditionsPrintAlike(a.validationConditions, b.validationConditions);
  }

  /** The digest tells the two contents apart unless they differ at most in times. */
  ghost predicate Distinguishes(md5: string -> string, a: Content, b: Content) {
    HashOf(md5, a) == HashOf(md5, b) ==> SameContent(a, b)
  }

  /** Distinguishing is a real assumption, whatever the hash function: printing separates
      fields by blanks only, so moving a word from the message to the rule goes unseen. */
  lemma {:induction false} PrintingCollides(md5: string -> string, uid: string, spec: Spec, c: ValidationCondition,
                                            word: string)
    ensures
      var a := c.(message := word + " " + c.message);
      var b := c.(validationRule := c.validationRule + " " + word);
      var ca, cb := ResultContent(uid, spec, Failed, [a]), ResultContent(uid, spec, Failed, [b]);
      HashOf(md5, ca) == HashOf(md5, cb) && !SameContent(ca, cb)
  {
    var a := c.(message := word + " " + c.message);
    var b := c.(validationRule := c.validationRule + " " + word);
    ConcatAssociative(c.validationRule, " ", a.message);
    ConcatAssociative(c.validationRule + " ", word, " " + c.message);
    ConcatAssociative(c.validationRule + " " + word, " ", c.message);
    ConcatAssociative(word, " ", c.message);
    assert a.validationRule + " " + a.message == b.validationRule + " " + b.message;
    assert PrintLists(a) == PrintLists(b);
    assert PrintCondition(WithoutTime(a)) == PrintCondition(WithoutTime(b));
    PrintOneMore("", [a], 0);
    PrintOneMore("", [b], 0);
    assert [a][..1] == [a] && [b][..1] == [b];
    assert |b.validationRule| > |a.validationRule|;
    assert WithoutTime(a).validationRule != WithoutTime(b).validationRule;
    assert !SameButTime([a][0], [b][0]);
  }

  // ----- What the digest depends on -----

  /** No two texts have the same digest. */
  ghost predicate Injective(md5: string -> string) {
    forall x: string, y: string :: md5(x) == md5(y) ==> x == y
  }

  lemma {:induction false} CancelPrefix(a: string, x: string, y: string)
    ensures a + x == a + y <==> x == y
  {
    assert (a + x)[|a|..] == x && (a + y)[|a|..] == y;
  }

  lemma {:induction false} CancelSuffix(x: string, y: string, b: string)
    ensures x + b == y + b <==> x == y
  {
    if x + b == y + b {
      assert |x + b| == |x| + |b| && |y + b| == |y| + |b|;
      assert (x + b)[..|x|] == x && (y + b)[..|y|] == y;
    }
  }

  lemma {:induction false} CancelAround(a: string, x: string, y: string, b: string)
    ensures a + x + b == a + y + b <==> x == y
  {
    CancelSuffix(a + x, a + y, b);
    CancelPrefix(a, x, y);
  }

  lemma {:induction false} PrintConditionsConcat(xs: seq<ValidationCondition>, ys: seq<ValidationCondition>)
    ensures PrintConditions(xs + ys) == PrintConditions(xs) + PrintConditions(ys)
  {
    hide PrintCondition;
    if ys == [] {
      assert xs + ys == xs;
    } else {
      var init, y := ys[..|ys| - 1], ys[|ys| - 1];
      assert (xs + ys)[..|xs + ys| - 1] == xs + init;
      PrintConditionsConcat(xs, init);
      ConcatAssociative(PrintConditions(xs), PrintConditions(init), PrintCondition(WithoutTime(y)));
    }
  }

  lemma {:induction false} PrintConditionsAround(cs: seq<ValidationCondition>, i: nat, d: ValidationCondition)
    requires i < |cs|
    ensures PrintConditions(cs[i := d]) ==
            PrintConditions(cs[..i]) + PrintCondition(WithoutTime(d)) + PrintConditions(cs[i + 1..])
  {
    hide PrintCondition;
    assert cs[i := d] == cs[..i] + [d] + cs[i + 1..];
    PrintConditionsConcat(cs[..i] + [d], cs[i + 1..]);
    PrintConditionsConcat(cs[..i], [d]);
    PrintOneMore("", [d], 0);
    assert [d][..1] == [d] && [d][..0] == [];
  }

  /** Replacing one condition keeps the digest exactly if it prints the same without its time. */
  lemma {:induction false} DigestTellsConditions(md5: string -> string, c: Content, i: nat, d: ValidationCondition,
                                                 e: ValidationCondition)
    requires Injective(md5) && i < |c.validationConditions|
    ensures
      var cs := c.validationConditions;
      HashOf(md5, c.(validationConditions := cs[i := d])) == HashOf(md5, c.(validationConditions := cs[i := e])) <==>
        PrintCondition(WithoutTime(d)) == PrintCondition(WithoutTime(e))
  {
    hide PrintCondition, PrintSpec, PrintState, PrintConditions;
    var cs, head := c.validationConditions, c.uid + PrintSpec(c.spec) + PrintState(c.state);
    PrintConditionsAround(cs, i, d);
    PrintConditionsAround(cs, i, e);
    CancelPrefix(head, PrintConditions(cs[i := d]), PrintConditions(cs[i := e]));
    CancelAround(PrintConditions(cs[..i]), PrintCondition(WithoutTime(d)), PrintCondition(WithoutTime(e)),
                 PrintConditions(cs[i + 1..]));
  }

  lemma {:induction false} PrintDependsOnType(d: ValidationCondition, t: string)
    ensures PrintCondition(d.(validationType := t)) == PrintCondition(d) <==> t == d.validationType
  {
    hide PrintLists, PrintEnd;
    var s, text, lists := d.validationType, d.validationRule + " " + d.message, PrintLists(d);
    SameLists(d, d.(validationType := t));
    CancelPrefix("&{", t, s);
    CancelSuffix("&{" + t, "&{" + s, " ");
    CancelSuffix("&{" + t + " ", "&{" + s + " ", text);
    CancelSuffix("&{" + t + " " + text, "&{" + s + " " + text, lists);
    CancelSuffix("&{" + t + " " + text + lists, "&{" + s + " " + text + lists, PrintEnd(d.status));
  }

  lemma {:induction false} PrintDependsOnText(d: ValidationCondition, rule: string, message: string)
    ensures PrintCondition(d.(validationRule := rule, message := message)) == PrintCondition(d) <==>
            rule + " " + message == d.validationRule + " " + d.message
  {
    hide PrintLists, PrintEnd;
    var open, lists := "&{" + d.validationType + " ", PrintLists(d);
    var x, y := rule + " " + message, d.validationRule + " " + d.message;
    SameLists(d, d.(validationRule := rule, message := message));
    CancelPrefix(open, x, y);
    CancelSuffix(open + x, open + y, lists);
    CancelSuffix(open + x + lists, open + y + lists, PrintEnd(d.status));
  }

  lemma {:induction false} PrintDependsOnStatus(d: ValidationCondition, s: ConditionStatus)
    ensures PrintCondition(d.(status := s)) == PrintCondition(d) <==> StatusText(s) == StatusText(d.status)
  {
    hide PrintLists, StatusText;
    var x, y := StatusText(s), StatusText(d.status);
    SameLists(d, d.(status := s));
    CancelPrefix("&{" + d.validationType + " " + (d.validationRule + " " + d.message) + PrintLists(d),
                 PrintEnd(s), PrintEnd(d.status));
    CancelSuffix(x, y, " ");
    CancelSuffix(x + " ", y + " ", ZERO_TIME_TEXT);
    CancelSuffix(x + " " + ZERO_TIME_TEXT, y + " " + ZERO_TIME_TEXT, "}");
  }

  lemma {:induction false} SameLists(d: ValidationCondition, e: ValidationCondition)
    requires d.details == e.details && d.failures == e.failures
    ensures PrintLists(d) == PrintLists(e)
  {
  }

  lemma {:induction false} PrintDependsOnLists(d: ValidationCondition, e: ValidationCondition)
    requires e == d.(details := e.details, failures := e.failures)
    ensures PrintCondition(e) == PrintCondition(d) <==> PrintLists(e) == PrintLists(d)
  {
    hide PrintLists, PrintEnd;
    var head := "&{" + d.validationType + " " + (d.validationRule + " " + d.message);
    CancelPrefix(head, PrintLists(e), PrintLists(d));
    CancelSuffix(head + PrintLists(e), head + PrintLists(d), PrintEnd(d.status));
  }

  lemma {:induction false} ListsDependOnEach(d: ValidationCondition, e: ValidationCondition)
    ensures d.failures == e.failures ==>
              (PrintLists(e) == PrintLists(d) <==> Join(e.details, " ") == Join(d.details, " "))
    ensures d.details == e.details ==>
              (PrintLists(e) == PrintLists(d) <==> Join(e.failures, " ") == Join(d.failures, " "))
  {
    hide Join;
    var x, y, u, v := Join(e.details, " "), Join(d.details, " "), Join(e.failures, " "), Join(d.failures, " ");
    CancelPrefix(" [", x, y);
    CancelSuffix(" [" + x, " [" + y, "] [");
    CancelSuffix(" [" + x + "] [", " [" + y + "] [", v);
    CancelSuffix(" [" + x + "] [" + v, " [" + y + "] [" + v, "] ");
    CancelPrefix(" [" + y + "] [", u, v);
    CancelSuffix(" [" + y + "] [" + u, " [" + y + "] [" + v, "] ");
  }

  lemma {:induction false} DigestTellsHeader(md5: string -> string, c: Content, d: Content)
    requires Injective(md5) && c.validationConditions == d.validationConditions
    ensures c.spec == d.spec && c.state == d.state ==> (HashOf(md5, c) == HashOf(md5, d) <==> c.uid == d.uid)
    ensures c.uid == d.uid && c.state == d.state ==>
              (HashOf(md5, c) == HashOf(md5, d) <==> PrintSpec(c.spec) == PrintSpec(d.spec))
    ensures c.uid == d.uid && c.spec == d.spec ==>
              (HashOf(md5, c) == HashOf(md5, d) <==> PrintState(c.state) == PrintState(d.state))
  {
    hide PrintSpec, PrintState, PrintConditions;
    var cs := PrintConditions(c.validationConditions);
    var spec, state := PrintSpec(c.spec), PrintState(c.state);
    assert c.uid + spec + state + cs == "" + c.uid + (spec + state + cs);
    assert d.uid + spec + state + cs == "" + d.uid + (spec + state + cs);
    CancelAround("", c.uid, d.uid, spec + state + cs);
    assert c.uid + spec + state + cs == c.uid + spec + (state + cs);
    assert c.uid + PrintSpec(d.spec) + state + cs == c.uid + PrintSpec(d.spec) + (state + cs);
    CancelAround(c.uid, spec, PrintSpec(d.spec), state + cs);
    CancelAround(c.uid + spec, state, PrintState(d.state), cs);
  }

  lemma {:induction false} SpecTexts(a: Spec, b: Spec)
    ensures a.plugin == b.plugin ==> (PrintSpec(a) == PrintSpec(b) <==> a.expectedResults == b.expectedResults)
    ensures a.expectedResults == b.expectedResults ==> (PrintSpec(a) == PrintSpec(b) <==> a.plugin == b.plugin)
  {
    hide Itoa;
    var n := Itoa(a.expectedResults);
    assert PrintSpec(a) == "{" + a.plugin + (" " + n + "}");
    if a.expectedResults == b.expectedResults {
      assert PrintSpec(b) == "{" + b.plugin + (" " + n + "}");
      CancelAround("{", a.plugin, b.plugin, " " + n + "}");
    }
    if a.plugin == b.plugin {
      var m := Itoa(b.expectedResults);
      CancelAround("{" + a.plugin + " ", n, m, "}");
      if n == m {
        ItoaInjective(a.expectedResults, b.expectedResults);
      }
    }
  }

  lemma {:induction false} NamedStatesDiffer(a: ValidationState, b: ValidationState)
    ensures !a.OtherState? && !b.OtherState? ==> (PrintState(a) == PrintState(b) <==> a == b)
  {
    assert "Succeeded"[0] != "Failed"[0] && "Succeeded"[0] != "InProgress"[0] && "Failed"[0] != "InProgress"[0];
  }

  /** Of two contents that differ in one component, an injective hash function has equal digests
      exactly if the component has the same text: every component is fed to it. */
  lemma {:induction false} DigestTellsComponents(md5: string -> string, c: Content, d: Content)
    requires Injective(md5)
    ensures d == c.(uid := d.uid) ==> (HashOf(md5, c) == HashOf(md5, d) <==> c.uid == d.uid)
    ensures d == c.(spec := c.spec.(plugin := d.spec.plugin)) ==>
              (HashOf(md5, c) == HashOf(md5, d) <==> c.spec.plugin == d.spec.plugin)
    ensures d == c.(spec := c.spec.(expectedResults := d.spec.expectedResults)) ==>
              (HashOf(md5, c) == HashOf(md5, d) <==> c.spec.expectedResults == d.spec.expectedResults)
    ensures d == c.(state := d.state) ==>
              (HashOf(md5, c) == HashOf(md5, d) <==> PrintState(c.state) == PrintState(d.state))
    ensures !c.state.OtherState? && !d.state.OtherState? && d == c.(state := d.state) ==>
              (HashOf(md5, c) == HashOf(md5, d) <==> c.state == d.state)
  {
    hide HashOf, PrintSpec, PrintState;
    NamedStatesDiffer(c.state, d.state);
    if c.validationConditions == d.validationConditions {
      DigestTellsHeader(md5, c, d);
      SpecTexts(c.spec, d.spec);
    }
  }

  lemma {:induction false} ConditionTexts(d: ValidationCondition, e: ValidationCondition)
    ensures
      var same := PrintCondition(e) == PrintCondition(d);
      && (e == d.(validationType := e.validationType) ==> (same <==> e.validationType == d.validationType))
      && (e == d.(validationRule := e.validationRule) ==> (same <==> e.validationRule == d.validationRule))
      && (e == d.(message := e.message) ==> (same <==> e.message == d.message))
      && (e == d.(status := e.status) ==> (same <==> StatusText(e.status) == StatusText(d.status)))
      && (e == d.(details := e.details) ==> (same <==> Join(e.details, " ") == Join(d.details, " ")))
      && (e == d.(failures := e.failures) ==> (same <==> Join(e.failures, " ") == Join(d.failures, " ")))
  {
    hide PrintCondition, PrintLists, StatusText, Join;
    PrintDependsOnType(d, e.validationType);
    PrintDependsOnText(d, e.validationRule, e.message);
    CancelSuffix(e.validationRule, d.validationRule, " ");
    CancelSuffix(e.validationRule + " ", d.validationRule + " ", d.message);
    CancelPrefix(d.validationRule + " ", e.message, d.message);
    PrintDependsOnStatus(d, e.status);
    if e == d.(details := e.details, failures := e.failures) {
      PrintDependsOnLists(d, e);
      ListsDependOnEach(d, e);
    }
  }

  /** And so for every component of every condition but its time. */
  lemma {:induction false} DigestTellsConditionComponents(md5: string -> string, c: Content, i: nat,
                                                          e: ValidationCondition)
    requires Injective(md5) && i < |c.validationConditions|
    ensures
      var d := c.validationConditions[i];
      var same := HashOf(md5, c.(validationConditions := c.validationConditions[i := e])) == HashOf(md5, c);
      && (e == d.(validationType := e.validationType) ==> (same <==> e.validationType == d.validationType))
      && (e == d.(validationRule := e.validationRule) ==> (same <==> e.validationRule == d.validationRule))
      && (e == d.(message := e.message) ==> (same <==> e.message == d.message))
      && (e == d.(status := e.status) ==> (same <==> StatusText(e.status) == StatusText(d.status)))
      && (e == d.(details := e.details) ==> (same <==> Join(e.details, " ") == Join(d.details, " ")))
      && (e == d.(failures := e.failures) ==> (same <==> Join(e.failures, " ") == Join(d.failures, " ")))
      && (e == d.(lastValidationTime := e.lastValidationTime) ==> same)
  {
    hide HashOf, PrintCondition, StatusText, Join;
    var d, cs := c.validationConditions[i], c.validationConditions;
    assert cs[i := d] == cs;
    DigestTellsConditions(md5, c, i, e, d);
    ConditionTexts(WithoutTime(d), WithoutTime(e));
  }

  /** The text that is fed to the hash function, written out for one condition. */
  lemma {:induction false} DigestText(md5: string -> string, c: Content, t: string, r: string, m: string, d: string,
                                      d': string, f: string, now: int)
    requires c.state == Failed
    requires c.validationConditions == [ValidationCondition(t, r, m, [d, d'], [f], ConditionFalse, now)]
    ensures HashOf(md5, c) ==
            md5(c.uid + ("{" + c.spec.plugin + " " + Itoa(c.spec.expectedResults) + "}") + "Failed"
                + ("&{" + t + " " + (r + " " + m) + (" [" + (d + " " + d') + "] [" + f + "] ")
                   + "False 0001-01-01 00:00:00 +0000 UTC}"))
  {
    hide Itoa, PrintCondition, PrintConditions, PrintSpec;
    var x := c.validationConditions[0];
    PrintOneCondition(x);
    OneConditionText(t, r, m, d, d', f);
    assert WithoutTime(x) == ValidationCondition(t, r, m, [d, d'], [f], ConditionFalse, 0);
    SpecText(c.spec);
  }

  lemma {:induction false} PrintOneCondition(x: ValidationCondition)
    ensures PrintConditions([x]) == PrintCondition(WithoutTime(x))
  {
    hide PrintCondition;
    assert [x][..0] == [];
  }

  lemma {:induction false} SpecText(s: Spec)
    ensures PrintSpec(s) == "{" + s.plugin + " " + Itoa(s.expectedResults) + "}"
  {
    hide Itoa;
  }

  lemma {:induction false} OneConditionText(t: string, r: string, m: string, d: string, d': string, f: string)
    ensures PrintCondition(ValidationCondition(t, r, m, [d, d'], [f], ConditionFalse, 0)) ==
            "&{" + t + " " + (r + " " + m) + (" [" + (d + " " + d') + "] [" + f + "] ")
            + "False 0001-01-01 00:00:00 +0000 UTC}"
  {
    hide PrintLists, PrintEnd;
    var x := ValidationCondition(t, r, m, [d, d'], [f], ConditionFalse, 0);
    ListsText(x, d, d', f);
    EndText();
  }

  lemma {:induction false} ListsText(x: ValidationCondition, d: string, d': string, f: string)
    requires x.details == [d, d'] && x.failures == [f]
    ensures PrintLists(x) == " [" + (d + " " + d') + "] [" + f + "] "
  {
    hide Join;
    JoinFew(d, d', f);
  }

  lemma {:induction false} JoinFew(d: string, d': string, f: string)
    ensures Join([d, d'], " ") == d + " " + d' && Join([f], " ") == f
  {
    assert [d, d'][1..] == [d'] && Join([d'], " ") == d';
  }

  lemma {:induction false} EndText()
    ensures PrintEnd(ConditionFalse) == "False 0001-01-01 00:00:00 +0000 UTC}"
  {
  }
}
