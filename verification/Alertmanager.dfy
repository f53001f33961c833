/** pkg/sinks/alertmanager.go: the alerts built from a ValidationResult. */
module Alertmanager {
  import opened Text
  import opened Api

  datatype Alert = Alert(annotations: map<string, string>, labels: map<string, string>)

  function Labels(name: string, spec: Spec, i: nat): map<string, string> {
    map[
      "alertname" := name,
      "plugin" := spec.plugin,
      "validation_result" := Itoa(i + 1),
      "expected_results" := Itoa(spec.expectedResults)
    ]
  }

  /** timeText prints a timestamp. */
  function Annotations(timeText: int -> string, state: ValidationState, c: ValidationCondition): map<string, string> {
    map[
      "state" := PrintState(state),
      "validation_rule" := c.validationRule,
      "validation_type" := c.validationType,
      "message" := c.message,
      "status" := StatusText(c.status),
      "detail" := Join(c.details, "|"),
      "failure" := Join(c.failures, "|"),
      "last_validation_time" := timeText(c.lastValidationTime)
    ]
  }

  method BuildAlerts(timeText: int -> string, name: string, spec: Spec, state: ValidationState,
                     cs: seq<ValidationCondition>)
    returns (alerts: seq<Alert>)
    ensures |alerts| == |cs|
    ensures forall i | 0 <= i < |cs| ::
              alerts[i].labels == Labels(name, spec, i) && alerts[i].annotations == Annotations(timeText, state, cs[i])
  {
    hide Labels, Annotations;
    alerts := [];
    for i := 0 to |cs|
      invariant |alerts| == i
      invariant forall j | 0 <= j < i ::
                  && alerts[j].labels == Labels(name, spec, j)
                  && alerts[j].annotations == Annotations(timeText, state, cs[j])
    {
      alerts := alerts + [Alert(Annotations(timeText, state, cs[i]), Labels(name, spec, i))];
    }
  }

  /** Alertmanager identifies alerts by their labels: no two alerts of a result coincide. */
  lemma {:induction false} LabelsIdentifyAlerts(name: string, spec: Spec, i: nat, j: nat)
    requires i != j
    ensures Labels(name, spec, i) != Labels(name, spec, j)
  {
    hide Itoa;
    if Itoa(i + 1) == Itoa(j + 1) {
      ItoaInjective(i + 1, j + 1);
    }
    assert Labels(name, spec, i)["validation_result"] != Labels(name, spec, j)["validation_result"];
  }

  /** The lists survive the rendering exactly when they are not empty and hold no pipe. */
  lemma {:induction false} ListsSplitBack(timeText: int -> string, state: ValidationState, c: ValidationCondition)
    ensures
      var a := Annotations(timeText, state, c);
      && (Split(a["detail"], '|') == c.details <==> c.details != [] && forall d | d in c.details :: '|' !in d)
      && (Split(a["failure"], '|') == c.failures <==> c.failures != [] && forall f | f in c.failures :: '|' !in f)
  {
    hide Split, Join;
    SplitInvertsJoinExactly(c.details, '|');
    SplitInvertsJoinExactly(c.failures, '|');
  }

  /** What an alert says of a condition can be read back, key by key. */
  lemma {:induction false} AlertsTell(timeText: int -> string, name: string, spec: Spec, state: ValidationState,
                                      c: ValidationCondition, i: nat)
    ensures
      var a := Annotations(timeText, state, c);
      && a.Keys == {"state", "validation_rule", "validation_type", "message", "status", "detail", "failure",
                    "last_validation_time"}
      && a["validation_rule"] == c.validationRule && a["validation_type"] == c.validationType
      && a["message"] == c.message && a["last_validation_time"] == timeText(c.lastValidationTime)
      && (match state {
            case Succeeded => a["state"] == "Succeeded"
            case Failed => a["state"] == "Failed"
            case InProgress => a["state"] == "InProgress"
            case OtherState(text) => a["state"] == text
          })
      && (match c.status {
            case ConditionTrue => a["status"] == "True"
            case ConditionFalse => a["status"] == "False"
            case ConditionOther(text) => a["status"] == text
          })
    ensures
      var l := Labels(name, spec, i);
      && l.Keys == {"alertname", "plugin", "validation_result", "expected_results"}
      && l["alertname"] == name && l["plugin"] == spec.plugin && Value(l["validation_result"]) == i + 1
      && (if spec.expectedResults >= 0 then Value(l["expected_results"]) == spec.expectedResults
          else l["expected_results"][0] == '-' && Value(l["expected_results"][1..]) == -spec.expectedResults)
  {
    hide Value, Itoa;
    ItoaReads(i + 1);
    ItoaReads(spec.expectedResults);
  }
}
