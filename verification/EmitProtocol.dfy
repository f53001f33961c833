/** internal/controller/validationresult_controller.go: one reconciliation of a
    ValidationResult, and the protocol it forms with a plugin writing the same object. */
module EmitProtocol {
  import opened Text
  import opened Api

  // ----- One reconciliation -----

  /** What the sink (its secret, its configuration and the emission itself) answers. */
  datatype SinkAnswer = Delivered | Rejected(message: string)

  function ConditionIndex(cs: seq<Condition>, conditionType: string): (k: int)
    ensures -1 <= k < |cs|
    ensures k == -1 ==> forall i | 0 <= i < |cs| :: cs[i].conditionType != conditionType
    ensures k != -1 ==> cs[k].conditionType == conditionType
                        && forall i | 0 <= i < k :: cs[i].conditionType != conditionType
  {
    if cs == [] then -1
    else
      var k := ConditionIndex(cs[..|cs| - 1], conditionType);
      if k == -1 && cs[|cs| - 1].conditionType == conditionType then |cs| - 1 else k
  }

  /** All expected rules have reported and the overall state is final. */
  predicate Complete(c: Content) {
    (c.state == Failed || c.state == Succeeded) && |c.validationConditions| == c.spec.expectedResults
  }

  predicate Emits(md5: string -> string, s: Snapshot, sink: bool) {
    sink && Complete(s.Content()) && s.StoredHash() != Some(HashOf(md5, s.Content()))
  }

  function SinkCondition(s: Snapshot, emits: bool, answer: SinkAnswer, now: int): Condition {
    var k := ConditionIndex(s.conditions, SINK_EMISSION);
    var c := if k == -1 then Condition(SINK_EMISSION, SINK_EMIT_NA, ConditionTrue, "", now) else s.conditions[k];
    if !emits then c
    else match answer
      case Delivered => c.(reason := SINK_EMIT_SUCCEEDED)
      case Rejected(message) => c.(reason := SINK_EMIT_FAILED, message := message)
  }

  /** The client's copy at the end of a reconciliation, about to be patched back. */
  function Reconciled(md5: string -> string, s: Snapshot, sink: bool, answer: SinkAnswer, now: int): Snapshot {
    var hash := HashOf(md5, s.Content());
    var previous := if s.StoredHash().Some? then s.StoredHash().value else "";
    var k := ConditionIndex(s.conditions, SINK_EMISSION);
    var c := SinkCondition(s, Emits(md5, s, sink), answer, now);
    s.(annotations := if previous != hash then s.annotations[RESULT_HASH_KEY := hash] else s.annotations,
       conditions := if k == -1 then s.conditions + [c] else s.conditions[k := c])
  }

  method GetConditionByType(cs: seq<Condition>, conditionType: string) returns (idx: int, c: Condition)
    ensures idx == ConditionIndex(cs, conditionType)
    ensures c == if idx == -1 then Condition("", "", ConditionOther(""), "", 0) else cs[idx]
  {
    for i := 0 to |cs|
      invariant forall j | 0 <= j < i :: cs[j].conditionType != conditionType
    {
      if cs[i].conditionType == conditionType {
        return i, cs[i];
      }
    }
    return -1, Condition("", "", ConditionOther(""), "", 0);
  }

  method Reconcile(vr: ValidationResult, md5: string -> string, sink: bool, answer: SinkAnswer, now: int)
    returns (emitted: bool)
    modifies vr`annotations, vr`conditions
    ensures emitted == Emits(md5, old(vr.View()), sink)
    ensures vr.View() == Reconciled(md5, old(vr.View()), sink, answer, now)
  {
    hide HashOf;
    var currHash := vr.Hash(md5);
    var ok := RESULT_HASH_KEY in vr.annotations;
    var prevHash := if ok then vr.annotations[RESULT_HASH_KEY] else "";

    var idx, sinkCondition := GetConditionByType(vr.conditions, SINK_EMISSION);
    if idx == -1 {
      sinkCondition := sinkCondition.(conditionType := SINK_EMISSION);
      sinkCondition := sinkCondition.(reason := SINK_EMIT_NA);
      sinkCondition := sinkCondition.(status := ConditionTrue);
      sinkCondition := sinkCondition.(lastTransitionTime := now);
    }

    emitted := false;
    if vr.state == Failed || vr.state == Succeeded {
      if sink && |vr.validationConditions| == vr.spec.expectedResults && (!ok || prevHash != currHash) {
        emitted := true;
        match answer {
          case Delivered =>
            sinkCondition := sinkCondition.(reason := SINK_EMIT_SUCCEEDED);
          case Rejected(message) =>
            sinkCondition := sinkCondition.(message := message);
            sinkCondition := sinkCondition.(reason := SINK_EMIT_FAILED);
        }
      }
    }

    if prevHash != currHash {
      vr.annotations := vr.annotations[RESULT_HASH_KEY := currHash];
    }
    if idx == -1 {
      vr.conditions := vr.conditions + [sinkCondition];
    } else {
      vr.conditions := vr.conditions[idx := sinkCondition];
    }
  }

  // ----- Patching: a three-way merge, field by field -----

  function Merge<T(==)>(before: T, after: T, server: T): T {
    if after == before then server else after
  }

  /** A key the client changed takes the client's value, any other key the server's. */
  function MergeMaps(before: map<string, string>, after: map<string, string>, server: map<string, string>)
    : map<string, string>
  {
    map k | k in after.Keys + server.Keys && Merge(At(before, k), At(after, k), At(server, k)).Some?
      :: Merge(At(before, k), At(after, k), At(server, k)).value
  }

  /** Metadata and status are patched by separate requests, either of which may fail. */
  datatype Landing = Landing(metadata: bool, status: bool)

  function Patched(landing: Landing, before: Snapshot, after: Snapshot, server: Snapshot): Snapshot {
    var annotations := if landing.metadata then MergeMaps(before.annotations, after.annotations, server.annotations)
                       else server.annotations;
    if landing.status then
      Snapshot(server.uid, server.spec, annotations,
               Merge(before.state, after.state, server.state),
               Merge(before.conditions, after.conditions, server.conditions),
               Merge(before.validationConditions, after.validationConditions, server.validationConditions))
    else
      server.(annotations := annotations)
  }

  // ----- The protocol -----

  /** A reconciliation in flight has read the object and not yet patched it. */
  datatype Flight = Idle | InFlight(before: Snapshot, after: Snapshot)

  /** The object on the server, the reconciliation in flight, and what has happened: contents
      emitted, those of them that the sink accepted, contents read, annotation patches that
      failed, and whether the last one landed. */
  datatype World = World(
    server: Snapshot, flight: Flight,
    emissions: seq<Content>, deliveries: seq<Content>, seen: seq<Content>, failedPatches: nat, lastLanded: bool)

  /** A plugin writes the status or the spec; a reconciliation reads, perhaps emits, and patches. */
  datatype Event =
    | Write(state: ValidationState, conditions: seq<ValidationCondition>)
    | Respec(spec: Spec)
    | Read(sink: bool, answer: SinkAnswer, now: int)
    | Patch(landing: Landing)

  function Step(md5: string -> string, w: World, e: Event): World {
    match e
    case Write(state, conditions) =>
      w.(server := w.server.(state := state, validationConditions := conditions))
    case Respec(spec) => w.(server := w.server.(spec := spec))
    case Read(sink, answer, now) =>
      if w.flight.InFlight? then w
      else
        var c := w.server.Content();
        w.(flight := InFlight(w.server, Reconciled(md5, w.server, sink, answer, now)),
           emissions := if Emits(md5, w.server, sink) then w.emissions + [c] else w.emissions,
           deliveries := if Emits(md5, w.server, sink) && answer.Delivered? then w.deliveries + [c] else w.deliveries,
           seen := w.seen + [c])
    case Patch(landing) =>
      if w.flight.Idle? then w
      else
        w.(server := Patched(landing, w.flight.before, w.flight.after, w.server),
           flight := Idle,
           failedPatches := w.failedPatches + if landing.metadata then 0 else 1,
           lastLanded := landing.metadata)
  }

  function Run(md5: string -> string, w: World, events: seq<Event>): World {
    if events == [] then w else Step(md5, Run(md5, w, events[..|events| - 1]), events[|events| - 1])
  }

  /** Nothing has happened yet to the object. */
  function Start(s: Snapshot): World {
    World(s, Idle, [], [], [], 0, true)
  }
}
