/** What the emit-on-change protocol guarantees over every interleaving of reconciliations
    and plugin writes. */
module EmitLaws {
  import opened Text
  import opened Api
  import opened EmitProtocol

  /** A base64-encoded digest is never the empty string. */
  ghost predicate NonEmptyDigest(md5: string -> string) {
    forall s: string :: md5(s) != ""
  }

  // ----- Two writers, disjoint fields -----

  /** A plugin's copy differs from what it read in state and validation conditions only. */
  predicate PluginEdit(before: Snapshot, after: Snapshot) {
    after == before.(state := after.state, validationConditions := after.validationConditions)
  }

  lemma {:induction false} MergeUnchanged(m: map<string, string>, server: map<string, string>)
    ensures MergeMaps(m, m, server) == server
  {
  }

  /** A key that only one client changed ends with that client's value. */
  lemma {:induction false} MergeSets(before: map<string, string>, k: string, v: string, server: map<string, string>)
    requires At(before, k) != Some(v)
    ensures MergeMaps(before, before[k := v], server) == server[k := v]
  {
  }

  lemma {:induction false} HashIsNotEmpty(md5: string -> string, c: Content)
    requires NonEmptyDigest(md5)
    ensures HashOf(md5, c) != ""
  {
  }

  lemma {:induction false} SinkConditionKind(s: Snapshot, emits: bool, answer: SinkAnswer, now: int)
    ensures SinkCondition(s, emits, answer, now).conditionType == SINK_EMISSION
  {
  }

  /** The client's copy keeps the content and carries the digest of what was read. */
  lemma {:induction false} ReconcileRecordsHash(md5: string -> string, s: Snapshot, sink: bool, answer: SinkAnswer,
                                                now: int)
    requires NonEmptyDigest(md5)
    ensures
      var after := Reconciled(md5, s, sink, answer, now);
      && after.Content() == s.Content()
      && after.annotations == s.annotations["validator/validation-result-hash" := HashOf(md5, s.Content())]
      && after.StoredHash() == Some(HashOf(md5, s.Content()))
  {
    hide HashOf, SinkCondition, ConditionIndex;
    HashIsNotEmpty(md5, s.Content());
    if s.StoredHash() == Some(HashOf(md5, s.Content())) {
      assert s.annotations[RESULT_HASH_KEY := HashOf(md5, s.Content())] == s.annotations;
    }
  }

  /** Of the conditions only SinkEmission changes. If missing, it is appended, saying that nothing
      was emitted unless something is; an emission leaves its outcome as the reason and, if it was
      rejected, the rejection as the message, while a delivered one keeps the old message. */
  lemma {:induction false} ReconcileTouchesOneCondition(md5: string -> string, s: Snapshot, sink: bool,
                                                        answer: SinkAnswer, now: int)
    ensures
      var after := Reconciled(md5, s, sink, answer, now).conditions;
      var k := ConditionIndex(s.conditions, SINK_EMISSION);
      var p := if k == -1 then |s.conditions| else k;
      var prior := if k == -1 then Condition("SinkEmission", "SinkEmitNA", ConditionTrue, "", now) else s.conditions[k];
      && |after| == |s.conditions| + (if k == -1 then 1 else 0)
      && (forall i | 0 <= i < |s.conditions| && i != k :: after[i] == s.conditions[i])
      && ConditionIndex(after, "SinkEmission") == p
      && after[p].status == prior.status && after[p].lastTransitionTime == prior.lastTransitionTime
      && after[p].reason == (if !Emits(md5, s, sink) then prior.reason
                             else if answer.Delivered? then "SinkEmitSucceeded" else "SinkEmitFailed")
      && after[p].message == (if Emits(md5, s, sink) && answer.Rejected? then answer.message else prior.message)
  {
    hide HashOf, Emits;
    var after := Reconciled(md5, s, sink, answer, now).conditions;
    var k := ConditionIndex(s.conditions, SINK_EMISSION);
    SinkConditionKind(s, Emits(md5, s, sink), answer, now);
    assert after[if k == -1 then |s.conditions| else k].conditionType == SINK_EMISSION;
  }

  /** What the patch does to the server: at most the digest annotation and the condition
      list, never what a plugin wrote meanwhile. */
  lemma {:induction false} ReconcilePatchEffect(md5: string -> string, landing: Landing, s: Snapshot, sink: bool,
                                                answer: SinkAnswer, now: int, server: Snapshot)
    requires NonEmptyDigest(md5)
    ensures
      var after := Reconciled(md5, s, sink, answer, now);
      var hash := HashOf(md5, s.Content());
      var p := Patched(landing, s, after, server);
      && p.Content() == server.Content()
      && p.annotations == (if landing.metadata && s.StoredHash() != Some(hash)
                           then server.annotations[RESULT_HASH_KEY := hash] else server.annotations)
      && p.conditions == (if landing.status then Merge(s.conditions, after.conditions, server.conditions)
                          else server.conditions)
  {
    hide HashOf, SinkCondition, MergeMaps;
    var hash := HashOf(md5, s.Content());
    HashIsNotEmpty(md5, s.Content());
    MergeUnchanged(s.annotations, server.annotations);
    if s.StoredHash() != Some(hash) {
      MergeSets(s.annotations, RESULT_HASH_KEY, hash, server.annotations);
    }
  }

  /** A plugin's patch whose status lands writes its state and validation conditions, if nobody
      else has changed them since it read, and nothing else; if it does not land, nothing changes. */
  lemma {:induction false} PluginPatchWrites(before: Snapshot, after: Snapshot, landing: Landing, server: Snapshot)
    requires PluginEdit(before, after)
    requires server.state == before.state && server.validationConditions == before.validationConditions
    ensures Patched(landing, before, after, server) ==
            if landing.status then server.(state := after.state, validationConditions := after.validationConditions)
            else server
  {
    hide MergeMaps;
    MergeUnchanged(before.annotations, server.annotations);
  }

  /** A plugin's patch and a reconciliation's patch commute, whatever each was computed
      from and whichever of its two requests lands. */
  lemma {:induction false} PatchesCommute(md5: string -> string, s: Snapshot, sink: bool, answer: SinkAnswer, now: int,
                       before: Snapshot, after: Snapshot, mine: Landing, theirs: Landing, server: Snapshot)
    requires NonEmptyDigest(md5) && PluginEdit(before, after)
    ensures
      var r := Reconciled(md5, s, sink, answer, now);
      Patched(mine, s, r, Patched(theirs, before, after, server)) ==
      Patched(theirs, before, after, Patched(mine, s, r, server))
  {
    hide HashOf, SinkCondition, MergeMaps;
    var r := Reconciled(md5, s, sink, answer, now);
    ReconcilePatchEffect(md5, mine, s, sink, answer, now, server);
    ReconcilePatchEffect(md5, mine, s, sink, answer, now, Patched(theirs, before, after, server));
    MergeUnchanged(before.annotations, server.annotations);
    MergeUnchanged(before.annotations, Patched(mine, s, r, server).annotations);
  }

  // ----- The invariant: the stored digest follows the last read -----

  function Last(cs: seq<Content>): Content
    requires cs != []
  {
    cs[|cs| - 1]
  }

  ghost predicate Tracks(md5: string -> string, w: World) {
    match w.flight
    case Idle => w.seen != [] && w.lastLanded ==> w.server.StoredHash() == Some(HashOf(md5, Last(w.seen)))
    case InFlight(before, after) =>
      && w.seen != [] && Last(w.seen) == before.Content()
      && w.server.annotations == before.annotations
      && exists sink, answer, now :: after == Reconciled(md5, before, sink, answer, now)
  }

  lemma {:induction false} StepTracks(md5: string -> string, w: World, e: Event)
    requires NonEmptyDigest(md5) && Tracks(md5, w)
    ensures Tracks(md5, Step(md5, w, e))
    ensures e.Patch? ==> Step(md5, w, e).server.Content() == w.server.Content()
    ensures e.Patch? && !e.landing.metadata ==> Step(md5, w, e).server.annotations == w.server.annotations
    ensures !e.Patch? ==> Step(md5, w, e).server.annotations == w.server.annotations
  {
    hide HashOf, Reconciled, MergeMaps, Patched;
    if e.Patch? && w.flight.InFlight? {
      var s := w.flight.before;
      var sink, answer, now :| w.flight.after == Reconciled(md5, s, sink, answer, now);
      ReconcilePatchEffect(md5, e.landing, s, sink, answer, now, w.server);
    }
  }

  lemma {:induction false} RunTracks(md5: string -> string, w: World, events: seq<Event>)
    requires NonEmptyDigest(md5) && Tracks(md5, w)
    ensures Tracks(md5, Run(md5, w, events))
  {
    if events != [] {
      RunTracks(md5, w, events[..|events| - 1]);
      StepTracks(md5, Run(md5, w, events[..|events| - 1]), events[|events| - 1]);
    }
  }

  // ----- How many emissions there can be -----

  /** How often the digest changed from one read to the next. */
  ghost function Changes(md5: string -> string, seen: seq<Content>): nat {
    if |seen| <= 1 then 0
    else
      Changes(md5, seen[..|seen| - 1])
      + if HashOf(md5, seen[|seen| - 2]) != HashOf(md5, seen[|seen| - 1]) then 1 else 0
  }

  /** One emission may still be owed because the last annotation patch failed. */
  ghost function Owed(md5: string -> string, w: World): nat {
    if w.flight.Idle? && w.seen != [] && w.server.StoredHash() != Some(HashOf(md5, Last(w.seen))) then 1 else 0
  }

  ghost predicate Bounded(md5: string -> string, w: World) {
    |w.emissions| + Owed(md5, w) <= (if w.seen == [] then 0 else 1) + Changes(md5, w.seen) + w.failedPatches
  }

  lemma {:induction false} ReadBounded(md5: string -> string, w: World, e: Event)
    requires NonEmptyDigest(md5) && Tracks(md5, w) && Bounded(md5, w) && e.Read? && w.flight.Idle?
    ensures Bounded(md5, Step(md5, w, e))
  {
    hide HashOf, Reconciled, Complete;
    var w' := Step(md5, w, e);
    assert w'.seen == w.seen + [w.server.Content()];
    assert w'.seen[..|w'.seen| - 1] == w.seen;
    OneMoreSeen(md5, w.seen, w.server.Content());
  }

  lemma {:induction false} OneMoreSeen(md5: string -> string, seen: seq<Content>, c: Content)
    ensures Changes(md5, seen + [c]) ==
            Changes(md5, seen) + if seen != [] && HashOf(md5, Last(seen)) != HashOf(md5, c) then 1 else 0
  {
    hide HashOf;
    assert (seen + [c])[..|seen|] == seen;
  }

  lemma {:induction false} PatchBounded(md5: string -> string, w: World, e: Event)
    requires NonEmptyDigest(md5) && Tracks(md5, w) && Bounded(md5, w) && e.Patch? && w.flight.InFlight?
    ensures Bounded(md5, Step(md5, w, e))
  {
    hide HashOf, Reconciled, Patched, Changes;
    StepTracks(md5, w, e);
  }

  lemma {:induction false} StepBounded(md5: string -> string, w: World, e: Event)
    requires NonEmptyDigest(md5) && Tracks(md5, w) && Bounded(md5, w)
    ensures Bounded(md5, Step(md5, w, e))
  {
    hide HashOf, Reconciled, Patched, Changes;
    if e.Read? && w.flight.Idle? {
      ReadBounded(md5, w, e);
    } else if e.Patch? && w.flight.InFlight? {
      PatchBounded(md5, w, e);
    }
  }

  lemma {:induction false} RunBounded(md5: string -> string, s: Snapshot, events: seq<Event>)
    requires NonEmptyDigest(md5)
    ensures Tracks(md5, Run(md5, Start(s), events)) && Bounded(md5, Run(md5, Start(s), events))
  {
    if events != [] {
      RunBounded(md5, s, events[..|events| - 1]);
      StepTracks(md5, Run(md5, Start(s), events[..|events| - 1]), events[|events| - 1]);
      StepBounded(md5, Run(md5, Start(s), events[..|events| - 1]), events[|events| - 1]);
    }
  }

  /** Over any run, whatever the plugin writes and whichever patches fail, there is at most
      one emission, plus one per change of digest between reads, plus one per failed
      annotation patch. */
  lemma {:induction false} EmissionBound(md5: string -> string, s: Snapshot, events: seq<Event>)
    requires NonEmptyDigest(md5)
    ensures
      var w := Run(md5, Start(s), events);
      |w.emissions| <= 1 + Changes(md5, w.seen) + w.failedPatches
  {
    RunBounded(md5, s, events);
  }

  /** Once the last annotation patch has landed, a read emits exactly if the sink is on, the
      result has failed or succeeded, it has as many conditions as expected, and the digest
      differs from that of the content read before. */
  lemma {:induction false} ReadEmitsExactlyOnNews(md5: string -> string, s: Snapshot, events: seq<Event>, sink: bool,
                                                  answer: SinkAnswer, now: int)
    requires NonEmptyDigest(md5)
    requires
      var w := Run(md5, Start(s), events);
      w.flight.Idle? && w.seen != [] && w.lastLanded
    ensures
      var w := Run(md5, Start(s), events);
      var c := w.server.Content();
      Step(md5, w, Read(sink, answer, now)).emissions ==
        if sink && (c.state == Failed || c.state == Succeeded)
           && |c.validationConditions| == c.spec.expectedResults
           && HashOf(md5, c) != HashOf(md5, Last(w.seen))
        then w.emissions + [c] else w.emissions
  {
    hide HashOf, Reconciled;
    RunBounded(md5, s, events);
  }

  /** Over every run, nothing is sent of a result in progress, or with more or fewer conditions
      than its spec expects. */
  lemma {:induction false} OnlyFinalContentsAreSent(md5: string -> string, s: Snapshot, events: seq<Event>)
    ensures forall c | c in Run(md5, Start(s), events).emissions ::
              (c.state == Failed || c.state == Succeeded) && |c.validationConditions| == c.spec.expectedResults
  {
    hide HashOf, Reconciled, Patched;
    if events != [] {
      OnlyFinalContentsAreSent(md5, s, events[..|events| - 1]);
    }
  }

  // ----- The protocol refines a ledger without annotations, patches or merges -----

  /** The current content, the one being reconciled, the one last recorded, and all sent. */
  datatype Ledger = Ledger(content: Content, reading: Option<Content>, recorded: Option<Content>, sent: seq<Content>)

  function LedgerStep(md5: string -> string, l: Ledger, e: Event): Ledger {
    match e
    case Write(state, conditions) => l.(content := l.content.(state := state, validationConditions := conditions))
    case Respec(spec) => l.(content := l.content.(spec := spec))
    case Read(sink, _, _) =>
      if l.reading.Some? then l
      else
        var news := l.recorded.None? || HashOf(md5, l.recorded.value) != HashOf(md5, l.content);
        l.(reading := Some(l.content),
           sent := if sink && Complete(l.content) && news then l.sent + [l.content] else l.sent)
    case Patch(landing) =>
      if l.reading.None? then l
      else l.(reading := None, recorded := if landing.metadata then l.reading else l.recorded)
  }

  function LedgerRun(md5: string -> string, l: Ledger, events: seq<Event>): Ledger {
    if events == [] then l
    else LedgerStep(md5, LedgerRun(md5, l, events[..|events| - 1]), events[|events| - 1])
  }

  ghost predicate Matches(md5: string -> string, w: World, l: Ledger) {
    && w.server.Content() == l.content
    && w.emissions == l.sent
    && l.reading == (if w.flight.Idle? then None else Some(w.flight.before.Content()))
    && w.server.StoredHash() == (if l.recorded.None? then None else Some(HashOf(md5, l.recorded.value)))
  }

  lemma {:induction false} StepMatches(md5: string -> string, w: World, l: Ledger, e: Event)
    requires NonEmptyDigest(md5) && Tracks(md5, w) && Matches(md5, w, l)
    ensures Matches(md5, Step(md5, w, e), LedgerStep(md5, l, e))
  {
    hide HashOf, Reconciled, MergeMaps, Patched;
    if e.Patch? && w.flight.InFlight? {
      var s := w.flight.before;
      var sink, answer, now :| w.flight.after == Reconciled(md5, s, sink, answer, now);
      ReconcilePatchEffect(md5, e.landing, s, sink, answer, now, w.server);
    }
  }

  /** Over every run, failing patches and missing sinks included: exactly those reads are sent
      that find a sink and a complete content whose digest is not that of the last content
      read whose annotation patch landed. */
  lemma {:induction false} ProtocolRefinesLedger(md5: string -> string, s: Snapshot, events: seq<Event>)
    requires NonEmptyDigest(md5) && s.StoredHash() == None
    ensures Tracks(md5, Run(md5, Start(s), events))
    ensures Matches(md5, Run(md5, Start(s), events), LedgerRun(md5, Ledger(s.Content(), None, None, []), events))
  {
    hide Step, LedgerStep, HashOf;
    if events != [] {
      var init, e := events[..|events| - 1], events[|events| - 1];
      var w, l := Run(md5, Start(s), init), LedgerRun(md5, Ledger(s.Content(), None, None, []), init);
      ProtocolRefinesLedger(md5, s, init);
      StepTracks(md5, w, e);
      StepMatches(md5, w, l, e);
    }
  }

  /** A content that has just been sent is sent again by the next reconciliation exactly if
      the annotation patch of the first one failed. */
  lemma {:induction false} SentTwiceExactlyIfPatchFails(md5: string -> string, w: World, landing: Landing,
                                                        answer: SinkAnswer, now: int, answer': SinkAnswer, now': int)
    requires NonEmptyDigest(md5) && Tracks(md5, w) && w.flight.Idle? && Emits(md5, w.server, true)
    ensures
      var c := w.server.Content();
      var w' := Step(md5, Step(md5, w, Read(true, answer, now)), Patch(landing));
      Step(md5, w', Read(true, answer', now')).emissions ==
      w.emissions + if landing.metadata then [c] else [c, c]
  {
    hide HashOf, Reconciled, MergeMaps, Patched;
    var w1 := Step(md5, w, Read(true, answer, now));
    ReconcilePatchEffect(md5, landing, w.server, true, answer, now, w1.server);
  }
}
