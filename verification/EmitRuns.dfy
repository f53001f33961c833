/** End-to-end guarantees: when the sink is sent, and has accepted, the latest complete content,
    that a first pass is sent exactly once, and a repeated validation not at all. */
module EmitRuns {
  import opened Text
  import opened Strings
  import opened Api
  import opened Aggregation
  import opened AggregationLaws
  import opened EmitProtocol
  import opened EmitLaws

  /** What is counted: emissions attempted, or those that the sink accepted. */
  datatype Log = Attempts | Deliveries

  function Logged(log: Log, w: World): seq<Content> {
    if log.Attempts? then w.emissions else w.deliveries
  }

  /** Whether a read with this sink and answer would be counted if it emits. */
  predicate Counts(log: Log, sink: bool, answer: SinkAnswer) {
    sink && (log.Deliveries? ==> answer.Delivered?)
  }

  /** The sink is configured at every read, and accepts if that is to be counted, and every
      annotation patch lands. */
  predicate Favourable(log: Log, e: Event) {
    match e
    case Write(_, _) => true
    case Respec(_) => true
    case Read(sink, answer, _) => Counts(log, sink, answer)
    case Patch(landing) => landing.metadata
  }

  predicate AllFavourable(log: Log, events: seq<Event>) {
    forall i | 0 <= i < |events| :: Favourable(log, events[i])
  }

  // ----- The latest complete content has been notified -----

  /** The digest tells apart the contents that were read; see Api.PrintingCollides. */
  ghost predicate DistinguishesAll(md5: string -> string, cs: seq<Content>) {
    forall i, j | 0 <= i < |cs| && 0 <= j < |cs| :: Distinguishes(md5, cs[i], cs[j])
  }

  ghost predicate UpToDate(log: Log, w: World) {
    var sent := Logged(log, w);
    w.seen != [] && Complete(Last(w.seen)) ==> sent != [] && SameContent(Last(sent), Last(w.seen))
  }

  lemma {:induction false} SameContentChains(a: Content, b: Content, c: Content)
    requires SameContent(a, b) && SameContent(b, c)
    ensures SameContent(a, c) && SameContent(b, a)
  {
    forall i | 0 <= i < |a.validationConditions|
      ensures SameButTime(a.validationConditions[i], c.validationConditions[i])
      ensures SameButTime(b.validationConditions[i], a.validationConditions[i])
    {
      assert SameButTime(a.validationConditions[i], b.validationConditions[i]);
      assert SameButTime(b.validationConditions[i], c.validationConditions[i]);
    }
  }

  lemma {:induction false} SameContentReflexive(c: Content)
    ensures SameContent(c, c)
  {
    forall i | 0 <= i < |c.validationConditions|
      ensures SameButTime(c.validationConditions[i], c.validationConditions[i])
    {
    }
  }

  lemma {:induction false} CompleteAlike(a: Content, b: Content)
    requires SameContent(a, b)
    ensures Complete(a) <==> Complete(b)
  {
  }

  lemma {:induction false} SeenGrows(md5: string -> string, w: World, e: Event)
    ensures w.seen <= Step(md5, w, e).seen && w.emissions <= Step(md5, w, e).emissions
  {
  }

  /** The last complete content that was read. */
  ghost function LastComplete(seen: seq<Content>): Option<Content> {
    if seen == [] then None
    else if Complete(Last(seen)) then Some(Last(seen))
    else LastComplete(seen[..|seen| - 1])
  }

  /** What can be checked of a read: a complete content finds its digest not stored, and a sink,
      one that accepts if that is to be counted, or it is no news since the last complete one. */
  ghost predicate HarmlessRead(log: Log, md5: string -> string, w: World, sink: bool, answer: SinkAnswer) {
    var c := w.server.Content();
    Complete(c) ==>
      || (Counts(log, sink, answer) && w.server.StoredHash() != Some(HashOf(md5, c)))
      || (LastComplete(w.seen).Some? && SameContent(LastComplete(w.seen).value, c))
  }

  ghost predicate HarmlessReads(log: Log, md5: string -> string, s: Snapshot, events: seq<Event>) {
    if events == [] then true
    else
      var init, e := events[..|events| - 1], events[|events| - 1];
      var w := Run(md5, Start(s), init);
      HarmlessReads(log, md5, s, init) && (e.Read? && w.flight.Idle? ==> HarmlessRead(log, md5, w, e.sink, e.answer))
  }

  /** At every point of the run, a complete content last read is also the last one logged. */
  ghost predicate AlwaysUpToDate(log: Log, md5: string -> string, s: Snapshot, events: seq<Event>) {
    && UpToDate(log, Run(md5, Start(s), events))
    && (events != [] ==> AlwaysUpToDate(log, md5, s, events[..|events| - 1]))
  }

  /** The content last logged is the last complete one that was read. */
  ghost predicate LastSentIsLastComplete(log: Log, w: World) {
    var c, sent := LastComplete(w.seen), Logged(log, w);
    if c.None? then sent == [] else sent != [] && SameContent(Last(sent), c.value)
  }

  lemma {:induction false} ReadKeepsUpToDateExactly(log: Log, md5: string -> string, w: World, e: Event)
    requires LastSentIsLastComplete(log, w) && e.Read? && w.flight.Idle?
    ensures UpToDate(log, Step(md5, w, e)) <==> HarmlessRead(log, md5, w, e.sink, e.answer)
    ensures UpToDate(log, Step(md5, w, e)) ==> LastSentIsLastComplete(log, Step(md5, w, e))
  {
    hide HashOf, Reconciled, SameContent;
    var c, w' := w.server.Content(), Step(md5, w, e);
    assert w'.seen == w.seen + [c] && w'.seen[..|w.seen|] == w.seen;
    SameContentReflexive(c);
    var last, sent := LastComplete(w.seen), Logged(log, w);
    if last.Some? {
      if SameContent(last.value, c) {
        SameContentChains(Last(sent), last.value, c);
      }
      if SameContent(Last(sent), c) {
        SameContentChains(Last(sent), last.value, last.value) by { SameContentReflexive(last.value); }
        SameContentChains(last.value, Last(sent), c);
      }
    }
  }

  lemma {:induction false} OtherStepsSendNothing(md5: string -> string, w: World, e: Event)
    requires !(e.Read? && w.flight.Idle?)
    ensures
      var w' := Step(md5, w, e);
      w'.seen == w.seen && w'.emissions == w.emissions && w'.deliveries == w.deliveries
  {
    hide Patched, Reconciled, HashOf;
  }

  lemma {:induction false} LoggedExactly(log: Log, md5: string -> string, s: Snapshot, events: seq<Event>)
    ensures AlwaysUpToDate(log, md5, s, events) <==> HarmlessReads(log, md5, s, events)
    ensures HarmlessReads(log, md5, s, events) ==> LastSentIsLastComplete(log, Run(md5, Start(s), events))
  {
    hide Step, HarmlessRead, UpToDate, LastSentIsLastComplete;
    if events == [] {
      NothingReadYet(log, s);
    } else {
      var init, e := events[..|events| - 1], events[|events| - 1];
      var w := Run(md5, Start(s), init);
      LoggedExactly(log, md5, s, init);
      if HarmlessReads(log, md5, s, init) {
        if e.Read? && w.flight.Idle? {
          ReadKeepsUpToDateExactly(log, md5, w, e);
        } else {
          OtherStepsSendNothing(md5, w, e);
          SameSent(log, w, Step(md5, w, e));
        }
      }
    }
  }

  /** Over every run, with any sinks, answers, failing patches and digests: at every point an
      emission of the latest complete content has been attempted, if and only if every read of
      a complete content finds a sink and its digest not stored, or no news. */
  lemma {:induction false} UpToDateExactly(md5: string -> string, s: Snapshot, events: seq<Event>)
    ensures AlwaysUpToDate(Attempts, md5, s, events) <==> HarmlessReads(Attempts, md5, s, events)
  {
    LoggedExactly(Attempts, md5, s, events);
  }

  /** And the sink has accepted the latest complete content at every point, if and only if every
      such read also meets a sink that accepts: a rejected emission is made up for by nothing
      but a further change of content that is accepted. */
  lemma {:induction false} DeliveredExactly(md5: string -> string, s: Snapshot, events: seq<Event>)
    ensures AlwaysUpToDate(Deliveries, md5, s, events) <==> HarmlessReads(Deliveries, md5, s, events)
    ensures HarmlessReads(Deliveries, md5, s, events) ==> HarmlessReads(Attempts, md5, s, events)
  {
    LoggedExactly(Deliveries, md5, s, events);
    AcceptedIsAttempted(md5, s, events);
  }

  lemma {:induction false} AcceptedIsAttempted(md5: string -> string, s: Snapshot, events: seq<Event>)
    ensures HarmlessReads(Deliveries, md5, s, events) ==> HarmlessReads(Attempts, md5, s, events)
  {
    hide Run;
    if events != [] {
      AcceptedIsAttempted(md5, s, events[..|events| - 1]);
    }
  }

  lemma {:induction false} NothingReadYet(log: Log, s: Snapshot)
    ensures UpToDate(log, Start(s)) && LastSentIsLastComplete(log, Start(s))
  {
  }

  lemma {:induction false} SameSent(log: Log, w: World, w': World)
    requires w'.seen == w.seen && w'.emissions == w.emissions && w'.deliveries == w.deliveries
    ensures UpToDate(log, w') <==> UpToDate(log, w)
    ensures LastSentIsLastComplete(log, w') <==> LastSentIsLastComplete(log, w)
  {
  }

  lemma {:induction false} NewsIsHarmless(log: Log, md5: string -> string, w: World, sink: bool, answer: SinkAnswer)
    requires Tracks(md5, w) && w.flight.Idle? && w.lastLanded && Counts(log, sink, answer)
    requires w.seen == [] ==> w.server.StoredHash() == None
    requires w.seen != [] ==> Distinguishes(md5, Last(w.seen), w.server.Content())
    ensures HarmlessRead(log, md5, w, sink, answer)
  {
    hide HashOf, SameContent;
    if w.seen != [] && SameContent(Last(w.seen), w.server.Content()) {
      CompleteAlike(Last(w.seen), w.server.Content());
    }
  }

  /** In particular the latest complete content is logged at every point if the sink is there at
      every read, and accepts where that is to be counted, every annotation patch lands and the
      digest tells the contents read apart. */
  lemma {:induction false} LatestIsNotified(log: Log, md5: string -> string, s: Snapshot, events: seq<Event>)
    requires NonEmptyDigest(md5) && AllFavourable(log, events) && s.StoredHash() == None
    requires DistinguishesAll(md5, Run(md5, Start(s), events).seen)
    ensures AlwaysUpToDate(log, md5, s, events)
  {
    FavourableReadsAreHarmless(log, md5, s, events);
    LoggedExactly(log, md5, s, events);
  }

  lemma {:induction false} FavourableReadsAreHarmless(log: Log, md5: string -> string, s: Snapshot, events: seq<Event>)
    requires NonEmptyDigest(md5) && AllFavourable(log, events) && s.StoredHash() == None
    requires DistinguishesAll(md5, Run(md5, Start(s), events).seen)
    ensures HarmlessReads(log, md5, s, events)
    ensures
      var w := Run(md5, Start(s), events);
      w.lastLanded && Tracks(md5, w) && (w.seen == [] ==> w.flight.Idle? && w.server.StoredHash() == None)
  {
    hide HarmlessRead, Distinguishes, HashOf;
    if events != [] {
      var init, e := events[..|events| - 1], events[|events| - 1];
      var w := Run(md5, Start(s), init);
      SeenGrows(md5, w, e);
      var seen := Step(md5, w, e).seen;
      assert forall i | 0 <= i < |w.seen| :: w.seen[i] == seen[i];
      FavourableReadsAreHarmless(log, md5, s, init);
      assert Favourable(log, e);
      StepTracks(md5, w, e);
      if e.Read? && w.flight.Idle? {
        assert seen == w.seen + [w.server.Content()];
        if w.seen != [] {
          assert Distinguishes(md5, seen[|w.seen| - 1], seen[|w.seen|]);
        }
        NewsIsHarmless(log, md5, w, e.sink, e.answer);
      }
    }
  }

  // ----- What the object says of the emissions -----

  /** The answer to the last emission of the run. */
  ghost function LastAnswer(md5: string -> string, s: Snapshot, events: seq<Event>): Option<SinkAnswer> {
    if events == [] then None
    else
      var init, e := events[..|events| - 1], events[|events| - 1];
      var grows := |Run(md5, Start(s), events).emissions| > |Run(md5, Start(s), init).emissions|;
      if grows && e.Read? then Some(e.answer) else LastAnswer(md5, s, init)
  }

  /** The message of the last rejection of the run. */
  ghost function LastRejection(md5: string -> string, s: Snapshot, events: seq<Event>): string {
    if events == [] then ""
    else
      var init, e := events[..|events| - 1], events[|events| - 1];
      var grows := |Run(md5, Start(s), events).emissions| > |Run(md5, Start(s), init).emissions|;
      if grows && e.Read? && e.answer.Rejected? then e.answer.message else LastRejection(md5, s, init)
  }

  predicate StatusesLand(events: seq<Event>) {
    forall i | 0 <= i < |events| && events[i].Patch? :: events[i].landing.status
  }

  /** c tells how the emissions have gone. */
  ghost predicate Tells(c: Condition, answer: Option<SinkAnswer>, rejection: string) {
    && c.conditionType == "SinkEmission" && c.status == ConditionTrue && c.message == rejection
    && c.reason == match answer {
         case None => "SinkEmitNA"
         case Some(Delivered) => "SinkEmitSucceeded"
         case Some(Rejected(_)) => "SinkEmitFailed"
       }
  }

  /** The conditions of s, followed by one that tells how the emissions have gone. */
  ghost predicate Told(s: Snapshot, cs: seq<Condition>, answer: Option<SinkAnswer>, rejection: string) {
    && |cs| == |s.conditions| + 1 && cs[..|s.conditions|] == s.conditions
    && Tells(cs[|s.conditions|], answer, rejection)
  }

  ghost predicate Telling(s: Snapshot, w: World, answer: Option<SinkAnswer>, rejection: string) {
    match w.flight
    case Idle =>
      if w.seen == [] then w.server.conditions == s.conditions && answer == None && rejection == ""
      else Told(s, w.server.conditions, answer, rejection)
    case InFlight(before, after) =>
      before.conditions == w.server.conditions && Told(s, after.conditions, answer, rejection)
  }

  lemma {:induction false} ToldAt(s: Snapshot, cs: seq<Condition>, answer: Option<SinkAnswer>, rejection: string)
    requires ConditionIndex(s.conditions, "SinkEmission") == -1 && Told(s, cs, answer, rejection)
    ensures ConditionIndex(cs, "SinkEmission") == |s.conditions|
  {
    var n, k := |s.conditions|, ConditionIndex(cs, "SinkEmission");
    assert cs[n].conditionType == "SinkEmission";
    assert forall i | 0 <= i < n :: cs[i] == cs[..n][i] == s.conditions[i];
  }

  /** The condition that tells so far, or one that tells of nothing yet. */
  ghost function TellingCondition(s: Snapshot, w: World, now: int): Condition
    requires w.seen != [] ==> |w.server.conditions| > |s.conditions|
  {
    if w.seen == [] then Condition("SinkEmission", "SinkEmitNA", ConditionTrue, "", now)
    else w.server.conditions[|s.conditions|]
  }

  lemma {:induction false} TellsSoFar(s: Snapshot, w: World, answer: Option<SinkAnswer>, rejection: string, now: int)
    requires Telling(s, w, answer, rejection) && w.flight.Idle?
    ensures w.seen != [] ==> |w.server.conditions| > |s.conditions|
    ensures Tells(TellingCondition(s, w, now), answer, rejection)
  {
  }

  lemma {:induction false} ReadTells(md5: string -> string, s: Snapshot, w: World, e: Event, answer: Option<SinkAnswer>,
                                     rejection: string)
    requires ConditionIndex(s.conditions, "SinkEmission") == -1 && Telling(s, w, answer, rejection)
    requires e.Read? && w.flight.Idle?
    ensures
      var emits := Emits(md5, w.server, e.sink);
      Telling(s, Step(md5, w, e), if emits then Some(e.answer) else answer,
              if emits && e.answer.Rejected? then e.answer.message else rejection)
  {
    hide HashOf, Emits, Reconciled, Tells, ConditionIndex;
    var n, emits := |s.conditions|, Emits(md5, w.server, e.sink);
    var after := Reconciled(md5, w.server, e.sink, e.answer, e.now).conditions;
    TellsSoFar(s, w, answer, rejection, e.now);
    ConditionsAfterRead(md5, s, w, e, answer, rejection);
    TellsAfterwards(after[n], TellingCondition(s, w, e.now), answer, rejection, emits, e.answer);
  }

  lemma {:induction false} ConditionsAfterRead(md5: string -> string, s: Snapshot, w: World, e: Event,
                                               answer: Option<SinkAnswer>, rejection: string)
    requires ConditionIndex(s.conditions, "SinkEmission") == -1 && Telling(s, w, answer, rejection)
    requires e.Read? && w.flight.Idle?
    requires w.seen != [] ==> |w.server.conditions| > |s.conditions|
    ensures
      var after := Reconciled(md5, w.server, e.sink, e.answer, e.now).conditions;
      var n, prior, emits := |s.conditions|, TellingCondition(s, w, e.now), Emits(md5, w.server, e.sink);
      && |after| == n + 1 && after[..n] == s.conditions
      && after[n].conditionType == "SinkEmission" && after[n].status == prior.status
      && after[n].reason == (if !emits then prior.reason
                             else if e.answer.Delivered? then "SinkEmitSucceeded" else "SinkEmitFailed")
      && after[n].message == (if emits && e.answer.Rejected? then e.answer.message else prior.message)
  {
    hide HashOf, Emits, Reconciled, Tells;
    var n := |s.conditions|;
    var after := Reconciled(md5, w.server, e.sink, e.answer, e.now).conditions;
    ReconcileTouchesOneCondition(md5, w.server, e.sink, e.answer, e.now);
    if w.seen == [] {
      assert after[..n] == s.conditions;
    } else {
      ToldAt(s, w.server.conditions, answer, rejection);
      assert after[..n] == w.server.conditions[..n];
    }
  }

  lemma {:induction false} TellsAfterwards(c: Condition, prior: Condition, answer: Option<SinkAnswer>,
                                           rejection: string, emits: bool, news: SinkAnswer)
    requires Tells(prior, answer, rejection)
    requires c.conditionType == "SinkEmission" && c.status == prior.status
    requires c.reason == (if !emits then prior.reason
                          else if news.Delivered? then "SinkEmitSucceeded" else "SinkEmitFailed")
    requires c.message == (if emits && news.Rejected? then news.message else prior.message)
    ensures Tells(c, if emits then Some(news) else answer, if emits && news.Rejected? then news.message else rejection)
  {
  }

  lemma {:induction false} OtherStepsTell(md5: string -> string, s: Snapshot, w: World, e: Event,
                                          answer: Option<SinkAnswer>, rejection: string)
    requires Telling(s, w, answer, rejection) && !(e.Read? && w.flight.Idle?) && (e.Patch? ==> e.landing.status)
    requires w.flight.InFlight? ==> w.seen != []
    ensures Telling(s, Step(md5, w, e), answer, rejection)
  {
    hide MergeMaps, Told, Reconciled, HashOf;
  }

  lemma {:induction false} RunTells(md5: string -> string, s: Snapshot, events: seq<Event>)
    requires ConditionIndex(s.conditions, "SinkEmission") == -1 && StatusesLand(events)
    ensures
      var w := Run(md5, Start(s), events);
      && Telling(s, w, LastAnswer(md5, s, events), LastRejection(md5, s, events))
      && (w.flight.InFlight? ==> w.seen != [])
      && (LastAnswer(md5, s, events) == None <==> w.emissions == [])
  {
    hide Step, Telling;
    if events == [] {
      assert Telling(s, Start(s), None, "") by { NothingToTell(s); }
    } else {
      var init, e := events[..|events| - 1], events[|events| - 1];
      var w := Run(md5, Start(s), init);
      assert forall i | 0 <= i < |init| :: init[i] == events[i];
      RunTells(md5, s, init);
      StepSends(md5, w, e);
      if e.Read? && w.flight.Idle? {
        ReadTells(md5, s, w, e, LastAnswer(md5, s, init), LastRejection(md5, s, init));
      } else {
        OtherStepsTell(md5, s, w, e, LastAnswer(md5, s, init), LastRejection(md5, s, init));
      }
    }
  }

  lemma {:induction false} NothingToTell(s: Snapshot)
    ensures Telling(s, Start(s), None, "")
  {
  }

  lemma {:induction false} StepSends(md5: string -> string, w: World, e: Event)
    ensures
      var w', sends := Step(md5, w, e), e.Read? && w.flight.Idle? && Emits(md5, w.server, e.sink);
      && |w'.emissions| == |w.emissions| + (if sends then 1 else 0)
      && |w'.deliveries| == |w.deliveries| + (if sends && e.answer.Delivered? then 1 else 0)
      && (w.flight.Idle? || w.seen != [] ==> w'.flight.Idle? || w'.seen != [])
  {
    hide HashOf, Reconciled, Patched, Emits;
  }

  /** Between reconciliations, once there has been one and with status patches landing, the
      object ends in a SinkEmission condition, always True, whose reason is that nothing has been
      emitted exactly if nothing has, and otherwise tells whether the last emission was delivered or
      rejected; its message is that of the last rejection. Nothing else in the list changes. */
  lemma {:induction false} SinkConditionTells(md5: string -> string, s: Snapshot, events: seq<Event>)
    requires ConditionIndex(s.conditions, "SinkEmission") == -1 && StatusesLand(events)
    requires Run(md5, Start(s), events).flight.Idle? && Run(md5, Start(s), events).seen != []
    ensures
      var w, answer := Run(md5, Start(s), events), LastAnswer(md5, s, events);
      && |w.server.conditions| == |s.conditions| + 1 && w.server.conditions[..|s.conditions|] == s.conditions
      && var c := w.server.conditions[|s.conditions|];
      && c.conditionType == "SinkEmission" && c.status == ConditionTrue
      && (c.reason == "SinkEmitNA" <==> w.emissions == [])
      && (c.reason == "SinkEmitSucceeded" <==> answer == Some(Delivered))
      && (c.reason == "SinkEmitFailed" <==> answer.Some? && answer.value.Rejected?)
      && (answer.Some? && answer.value.Rejected? ==> c.message == answer.value.message)
      && c.message == LastRejection(md5, s, events)
  {
    hide Run;
    RunTells(md5, s, events);
    RejectionIsLast(md5, s, events);
    assert "SinkEmitNA"[8] != "SinkEmitSucceeded"[8] && "SinkEmitNA"[8] != "SinkEmitFailed"[8];
    assert "SinkEmitSucceeded"[8] != "SinkEmitFailed"[8];
  }

  lemma {:induction false} RejectionIsLast(md5: string -> string, s: Snapshot, events: seq<Event>)
    ensures
      var answer := LastAnswer(md5, s, events);
      answer.Some? && answer.value.Rejected? ==> LastRejection(md5, s, events) == answer.value.message
  {
    hide Run;
    if events != [] {
      RejectionIsLast(md5, s, events[..|events| - 1]);
    }
  }

  /** The log of deliveries agrees: it grows with an emission exactly if that one is delivered. */
  lemma {:induction false} DeliveriesAgree(md5: string -> string, s: Snapshot, events: seq<Event>, e: Event)
    ensures
      var w, w' := Run(md5, Start(s), events), Run(md5, Start(s), events + [e]);
      && (|w'.deliveries| > |w.deliveries| <==>
            |w'.emissions| > |w.emissions| && LastAnswer(md5, s, events + [e]) == Some(Delivered))
  {
    hide Step;
    assert (events + [e])[..|events|] == events;
    StepSends(md5, Run(md5, Start(s), events), e);
  }

  // ----- All conditions are needed -----

  const FAILED_PATCH := Landing(false, false)
  const FULL_PATCH := Landing(true, true)

  /** A complete content read while no sink is configured is never sent, even once the sink
      is there: its digest has been recorded. */
  lemma {:induction false} SinkAddedLate(md5: string -> string, s: Snapshot, answer: SinkAnswer, now: int)
    requires NonEmptyDigest(md5)
    ensures
      var events := [Read(false, answer, now), Patch(FULL_PATCH), Read(true, answer, now)];
      && Run(md5, Start(s), events).emissions == []
      && (Complete(s.Content()) ==> !HarmlessReads(Attempts, md5, s, events))
  {
    hide HashOf, Reconciled, Patched, HarmlessReads;
    var w1 := Step(md5, Start(s), Read(false, answer, now));
    var w2 := Step(md5, w1, Patch(FULL_PATCH));
    var w3 := Step(md5, w2, Read(true, answer, now));
    StepTracks(md5, Start(s), Read(false, answer, now));
    StepTracks(md5, w1, Patch(FULL_PATCH));
    RunThree(md5, Start(s), Read(false, answer, now), Patch(FULL_PATCH), Read(true, answer, now));
    UpToDateExactly(md5, s, [Read(false, answer, now), Patch(FULL_PATCH), Read(true, answer, now)]);
  }

  /** A rejected emission is not retried: its digest is recorded all the same, and a sink that
      would accept the next one is not asked. */
  lemma {:induction false} RejectedIsNotRetried(md5: string -> string, s: Snapshot, message: string, now: int)
    requires NonEmptyDigest(md5) && s.StoredHash() == None && Complete(s.Content())
    ensures
      var first := [Read(true, Rejected(message), now)];
      var events := [Read(true, Rejected(message), now), Patch(FULL_PATCH), Read(true, Delivered, now)];
      && HarmlessReads(Attempts, md5, s, first) && !HarmlessReads(Deliveries, md5, s, first)
      && Run(md5, Start(s), events).emissions == [s.Content()]
      && Run(md5, Start(s), events).deliveries == []
  {
    hide HashOf, Reconciled, Patched;
    var r := Read(true, Rejected(message), now);
    RunThree(md5, Start(s), r, Patch(FULL_PATCH), Read(true, Delivered, now));
    var w1 := Step(md5, Start(s), r);
    StepTracks(md5, Start(s), r);
    StepTracks(md5, w1, Patch(FULL_PATCH));
    assert [r][..0] == [] && Run(md5, Start(s), []) == Start(s);
    assert HarmlessReads(Attempts, md5, s, []) && HarmlessReads(Deliveries, md5, s, []);
  }

  lemma {:induction false} RunThree(md5: string -> string, w: World, a: Event, b: Event, c: Event)
    ensures Run(md5, w, [a, b, c]) == Step(md5, Step(md5, Step(md5, w, a), b), c)
  {
    hide Step;
    assert [a, b, c][..2] == [a, b] && [a, b][..1] == [a] && [a][..0] == [];
    assert Run(md5, w, [a]) == Step(md5, w, a);
    assert Run(md5, w, [a, b]) == Step(md5, Run(md5, w, [a]), b);
  }

  lemma {:induction false} RunConcat(md5: string -> string, w: World, xs: seq<Event>, ys: seq<Event>)
    ensures Run(md5, w, xs + ys) == Run(md5, Run(md5, w, xs), ys)
  {
    hide Step;
    if ys == [] {
      assert xs + ys == xs;
    } else {
      assert (xs + ys)[..|xs + ys| - 1] == xs + ys[..|ys| - 1];
      RunConcat(md5, w, xs, ys[..|ys| - 1]);
    }
  }

  lemma {:induction false} FailedPatchTrace(md5: string -> string, s: Snapshot, other: ValidationState,
                                            others: seq<ValidationCondition>, answer: SinkAnswer, now: int)
    requires NonEmptyDigest(md5) && s.StoredHash() == None
    requires
      var t := s.(state := other, validationConditions := others);
      Complete(s.Content()) && Complete(t.Content()) && HashOf(md5, s.Content()) != HashOf(md5, t.Content())
    ensures
      var a, b := s.Content(), s.(state := other, validationConditions := others).Content();
      var r := Read(true, answer, now);
      var w := Run(md5, Start(s), [r, Patch(FULL_PATCH), Write(other, others)]);
      var v := Run(md5, w, [r, Patch(FAILED_PATCH), Write(s.state, s.validationConditions)]);
      Step(md5, v, r).seen == [a, b, a] && Step(md5, v, r).emissions == [a, b]
  {
    hide HashOf, Reconciled, Patched, Complete;
    var r, p, q := Read(true, answer, now), Patch(FULL_PATCH), Patch(FAILED_PATCH);
    var back := Write(s.state, s.validationConditions);
    RunThree(md5, Start(s), r, p, Write(other, others));
    var w1 := Step(md5, Start(s), r);
    var w2 := Step(md5, w1, p);
    var w3 := Step(md5, w2, Write(other, others));
    StepTracks(md5, Start(s), r);
    StepTracks(md5, w1, p);
    StepTracks(md5, w2, Write(other, others));
    RunThree(md5, w3, r, q, back);
    var w4 := Step(md5, w3, r);
    var w5 := Step(md5, w4, q);
    StepTracks(md5, w3, r);
    StepTracks(md5, w4, q);
    StepTracks(md5, w5, back);
  }

  /** One failed annotation patch can lose a notification: the plugin writes the second
      content, which is sent but not recorded, then the first one again, which is not sent. */
  lemma {:induction false} FailedPatchLosesNews(md5: string -> string, s: Snapshot, other: ValidationState,
                                                others: seq<ValidationCondition>, answer: SinkAnswer, now: int)
    requires NonEmptyDigest(md5) && s.StoredHash() == None
    requires
      var t := s.(state := other, validationConditions := others);
      Complete(s.Content()) && Complete(t.Content()) && HashOf(md5, s.Content()) != HashOf(md5, t.Content())
    ensures
      var a, b := s.Content(), s.(state := other, validationConditions := others).Content();
      var r := Read(true, answer, now);
      var events := [r, Patch(FULL_PATCH), Write(other, others)] +
                    [r, Patch(FAILED_PATCH), Write(s.state, s.validationConditions)] + [r];
      && Run(md5, Start(s), events).seen == [a, b, a] && Run(md5, Start(s), events).emissions == [a, b]
      && !HarmlessReads(Attempts, md5, s, events)
  {
    hide HashOf, Step, HarmlessReads, SameContent, Complete;
    var a, b := s.Content(), s.(state := other, validationConditions := others).Content();
    var r := Read(true, answer, now);
    FailedPatchTrace(md5, s, other, others, answer, now);
    var xs := [r, Patch(FULL_PATCH), Write(other, others)];
    var ys := [r, Patch(FAILED_PATCH), Write(s.state, s.validationConditions)];
    RunConcat(md5, Start(s), xs, ys);
    assert (xs + ys + [r])[..|xs + ys|] == xs + ys;
    UpToDateExactly(md5, s, xs + ys + [r]);
    if SameContent(b, a) {
      HashIgnoresTimes(md5, b, a);
    }
  }

  // ----- Silence while nothing changes -----

  /** Every write leaves the content as it is, up to validation times. */
  ghost predicate KeepsContent(c: Content, e: Event) {
    && (e.Write? ==> SameContent(c, c.(state := e.state, validationConditions := e.conditions)))
    && (e.Respec? ==> e.spec == c.spec)
  }

  /** Once the digest of the current content is stored, no run of reads, patches, failed
      patches and writes without news emits anything: not even a retry of a rejected emission. */
  lemma {:induction false} QuietRun(md5: string -> string, w: World, events: seq<Event>)
    requires NonEmptyDigest(md5) && Tracks(md5, w) && w.flight.Idle?
    requires w.server.StoredHash() == Some(HashOf(md5, w.server.Content()))
    requires forall i | 0 <= i < |events| :: KeepsContent(w.server.Content(), events[i])
    ensures Run(md5, w, events).emissions == w.emissions
    ensures Tracks(md5, Run(md5, w, events))
    ensures Run(md5, w, events).server.StoredHash() == w.server.StoredHash()
    ensures HashOf(md5, Run(md5, w, events).server.Content()) == HashOf(md5, w.server.Content())
    ensures Run(md5, w, events).server.uid == w.server.uid && Run(md5, w, events).server.spec == w.server.spec
    ensures Run(md5, w, events).flight.InFlight? ==>
              HashOf(md5, Last(Run(md5, w, events).seen)) == HashOf(md5, w.server.Content())
  {
    hide HashOf, Reconciled, MergeMaps, Patched, SameContent;
    if events != [] {
      var init, e := events[..|events| - 1], events[|events| - 1];
      assert forall i | 0 <= i < |init| :: init[i] == events[i];
      QuietRun(md5, w, init);
      var v := Run(md5, w, init);
      StepTracks(md5, v, e);
      assert KeepsContent(w.server.Content(), e);
      if e.Write? {
        var c := w.server.Content().(state := e.state, validationConditions := e.conditions);
        HashIgnoresTimes(md5, w.server.Content(), c);
      } else if e.Patch? && v.flight.InFlight? {
        PatchStoresLastRead(md5, v, e.landing);
      }
    }
  }

  lemma {:induction false} PatchStoresLastRead(md5: string -> string, w: World, landing: Landing)
    requires NonEmptyDigest(md5) && Tracks(md5, w) && w.flight.InFlight?
    ensures Step(md5, w, Patch(landing)).server.StoredHash() ==
            if landing.metadata then Some(HashOf(md5, Last(w.seen))) else w.server.StoredHash()
    ensures Step(md5, w, Patch(landing)).server.uid == w.server.uid
    ensures Step(md5, w, Patch(landing)).server.spec == w.server.spec
  {
    hide HashOf, Reconciled, MergeMaps;
    var s := w.flight.before;
    var sink, answer, now :| w.flight.after == Reconciled(md5, s, sink, answer, now);
    ReconcilePatchEffect(md5, landing, s, sink, answer, now, w.server);
  }

  // ----- Repeated validation -----

  /** The status after further validation rounds. */
  function Revalidated(st: Status, batches: seq<seq<Entry>>): Status
    requires forall b | b in batches :: AllHaveState(b)
  {
    if batches == [] then st
    else FinalizeAll(Revalidated(st, batches[..|batches| - 1]), batches[|batches| - 1])
  }

  lemma {:induction false} RepeatsAlike(cs: seq<ValidationCondition>, cs': seq<ValidationCondition>,
                                        ds: seq<ValidationCondition>)
    requires SameConditions(cs, cs') && Repeats(cs, ds)
    ensures Repeats(cs', ds)
  {
    forall r | LastOf(ds, r).Some?
      ensures Lookup(cs', r).Some? && SameButTime(Lookup(cs', r).value, LastOf(ds, r).value)
    {
      SameLookups(cs, cs', r);
    }
  }

  lemma {:induction false} SameConditionsChain(xs: seq<ValidationCondition>, ys: seq<ValidationCondition>,
                                               zs: seq<ValidationCondition>)
    requires SameConditions(xs, ys) && SameConditions(ys, zs)
    ensures SameConditions(xs, zs)
  {
    forall i | 0 <= i < |xs| ensures SameButTime(xs[i], zs[i]) {
      assert SameButTime(xs[i], ys[i]) && SameButTime(ys[i], zs[i]);
    }
  }

  /** Any number of rounds that repeat the stored conditions keeps the content. */
  lemma {:induction false} RevalidationsKeepContent(st: Status, batches: seq<seq<Entry>>)
    requires AllBinary(st.conditions) && StateMatches(st)
    requires forall b | b in batches :: AllHaveState(b) && Repeats(st.conditions, Outcomes(b))
    ensures SameConditions(st.conditions, Revalidated(st, batches).conditions)
    ensures Revalidated(st, batches).state == st.state
    ensures AllBinary(Revalidated(st, batches).conditions) && StateMatches(Revalidated(st, batches))
  {
    if batches == [] {
      forall i | 0 <= i < |st.conditions| ensures SameButTime(st.conditions[i], st.conditions[i]) {}
    } else {
      var init, b := batches[..|batches| - 1], batches[|batches| - 1];
      assert b in batches && forall x | x in init :: x in batches;
      RevalidationsKeepContent(st, init);
      var mid := Revalidated(st, init);
      RepeatsAlike(st.conditions, mid.conditions, Outcomes(b));
      RevalidationIsSilent(s => s, "", Spec("", 0), mid, b);
      SameConditionsChain(st.conditions, mid.conditions, Revalidated(st, batches).conditions);
      SameConditionsSameState(mid.conditions, Revalidated(st, batches).conditions);
      forall i | 0 <= i < |mid.conditions| ensures Binary(Revalidated(st, batches).conditions[i].status) {
        assert SameButTime(mid.conditions[i], Revalidated(st, batches).conditions[i]);
        assert WithoutTime(mid.conditions[i]).status == mid.conditions[i].status;
        assert WithoutTime(mid.conditions[i]).status == Revalidated(st, batches).conditions[i].status;
      }
    }
  }

  // ----- The first pass over the rules -----

  /** The object's content after the first k rules have reported. */
  function AfterRules(s: Snapshot, es: seq<Entry>, k: nat): Content
    requires AllHaveState(es) && k <= |es|
  {
    var st := FinalizeAll(NEW_STATUS, es[..k]);
    ResultContent(s.uid, s.spec, st.state, st.conditions)
  }

  /** The events interleave single-rule updates, in order, the first k of them so far, with
      reconciliations. Once the last rule has reported, a reconciliation finds the sink configured,
      and its annotation patch lands if it has read the final content; nothing else is asked. */
  ghost predicate FirstPass(md5: string -> string, s: Snapshot, es: seq<Entry>, events: seq<Event>, k: nat)
    requires AllHaveState(es) && k <= |es|
  {
    if events == [] then k == 0
    else
      var init := events[..|events| - 1];
      match events[|events| - 1]
      case Write(state, conditions) =>
        && k > 0
        && Status(state, conditions) == FinalizeAll(FinalizeAll(NEW_STATUS, es[..k - 1]), [es[k - 1]])
        && FirstPass(md5, s, es, init, k - 1)
      case Respec(spec) => spec == s.spec && FirstPass(md5, s, es, init, k)
      case Read(sink, _, _) =>
        FirstPass(md5, s, es, init, k) && (k == |es| && Run(md5, Start(s), init).flight.Idle? ==> sink)
      case Patch(landing) =>
        && FirstPass(md5, s, es, init, k)
        && (ReadsFinal(s, es, k, Run(md5, Start(s), init)) ==> landing.metadata)
  }

  /** A reconciliation is in flight that has read the content after all updates. */
  ghost predicate ReadsFinal(s: Snapshot, es: seq<Entry>, k: nat, w: World)
    requires AllHaveState(es) && k <= |es|
  {
    k == |es| && w.flight.InFlight? && w.flight.before.Content() == AfterRules(s, es, k)
  }

  lemma {:induction false} OneMoreRule(es: seq<Entry>, k: nat)
    requires AllHaveState(es) && 0 < k <= |es|
    ensures FinalizeAll(FinalizeAll(NEW_STATUS, es[..k - 1]), [es[k - 1]]) == FinalizeAll(NEW_STATUS, es[..k])
  {
    hide Updated, Outcome;
    assert es[..k][..k - 1] == es[..k - 1];
    assert [es[k - 1]][..0] == [];
    assert HasState(es[k - 1]);
  }

  lemma {:induction false} OutcomesPrefix(es: seq<Entry>, k: nat)
    requires k <= |es|
    ensures Outcomes(es[..k]) == Outcomes(es)[..k]
  {
    forall i | 0 <= i < k ensures Outcomes(es[..k])[i] == Outcomes(es)[i] {
      OutcomesAt(es[..k], i);
      OutcomesAt(es, i);
    }
  }

  lemma {:induction false} CountOfDistinct(ds: seq<ValidationCondition>, k: nat)
    requires k <= |ds| && Distinct(Rules(ds))
    ensures |UpsertAll([], ds[..k])| == k
  {
    hide Rules, DeDupe, UpsertAll, Distinct;
    var part := ds[..k];
    DistinctPrefix(ds, k);
    UpsertAppendsNewRules([], part);
    RulesOfEmpty(part);
    DeDupeOfDistinct(Rules(part));
    assert |Rules(UpsertAll([], part))| == |UpsertAll([], part)|;
  }

  lemma {:induction false} DistinctPrefix(ds: seq<ValidationCondition>, k: nat)
    requires k <= |ds| && Distinct(Rules(ds))
    ensures Distinct(Rules(ds[..k])) && Distinct(Rules([]))
  {
    hide Rules;
    assert forall i | 0 <= i < k :: Rules(ds[..k])[i] == Rules(ds)[i];
  }

  lemma {:induction false} CountAfterRules(es: seq<Entry>, k: nat)
    requires AllHaveState(es) && k <= |es|
    requires AllBinary(Outcomes(es)) && Distinct(Rules(Outcomes(es)))
    ensures |FinalizeAll(NEW_STATUS, es[..k]).conditions| == k
    ensures k > 0 ==> FinalizeAll(NEW_STATUS, es[..k]).state in {Failed, Succeeded}
  {
    OutcomesPrefix(es, k);
    OnlyTheLastStateCounts(NEW_STATUS, es[..k]);
    CountOfDistinct(Outcomes(es), k);
    BatchKeepsState(NEW_STATUS, es[..k]);
  }

  /** c is the content after one of the first k updates, or before any. */
  ghost predicate Reported(s: Snapshot, es: seq<Entry>, k: nat, c: Content)
    requires AllHaveState(es) && k <= |es|
  {
    exists j | 0 <= j <= k :: c == AfterRules(s, es, j)
  }

  /** The last read found the content after all updates. */
  ghost predicate FinalSeen(s: Snapshot, es: seq<Entry>, k: nat, w: World)
    requires AllHaveState(es) && k <= |es|
  {
    k == |es| && w.seen != [] && Last(w.seen) == AfterRules(s, es, k)
  }

  ghost predicate StoredReported(md5: string -> string, s: Snapshot, es: seq<Entry>, k: nat, stored: Option<string>)
    requires AllHaveState(es) && k <= |es|
  {
    stored == None || exists j | 0 <= j <= k :: stored == Some(HashOf(md5, AfterRules(s, es, j)))
  }

  ghost predicate FirstPassState(md5: string -> string, s: Snapshot, es: seq<Entry>, k: nat, w: World)
    requires AllHaveState(es) && k <= |es|
  {
    && w.server.Content() == AfterRules(s, es, k)
    && Tracks(md5, w)
    && (w.seen != [] ==> Reported(s, es, k, Last(w.seen)))
    && StoredReported(md5, s, es, k, w.server.StoredHash())
    && (k == |es| && !FinalSeen(s, es, k, w) ==> w.server.StoredHash() != Some(HashOf(md5, AfterRules(s, es, k))))
    && (FinalSeen(s, es, k, w) && w.flight.Idle? ==> w.server.StoredHash() == Some(HashOf(md5, AfterRules(s, es, k))))
    && w.emissions == if FinalSeen(s, es, k, w) then [AfterRules(s, es, k)] else []
  }

  ghost predicate FirstPassSetting(md5: string -> string, s: Snapshot, es: seq<Entry>) {
    && AllHaveState(es) && AllBinary(Outcomes(es)) && Distinct(Rules(Outcomes(es)))
    && |es| > 0 && s.spec.expectedResults == |es|
    && s.StoredHash() == None && s.state == InProgress && s.validationConditions == []
    && forall j | 0 <= j < |es| :: Distinguishes(md5, AfterRules(s, es, j), AfterRules(s, es, |es|))
  }

  lemma {:induction false} PrefixesDiffer(md5: string -> string, s: Snapshot, es: seq<Entry>, j: nat, k: nat)
    requires FirstPassSetting(md5, s, es) && j < k <= |es|
    ensures AfterRules(s, es, j) != AfterRules(s, es, k)
    ensures k == |es| ==> HashOf(md5, AfterRules(s, es, j)) != HashOf(md5, AfterRules(s, es, k))
  {
    hide HashOf;
    CountAfterRules(es, j);
    CountAfterRules(es, k);
    assert k == |es| ==> Distinguishes(md5, AfterRules(s, es, j), AfterRules(s, es, |es|));
  }

  lemma {:induction false} FirstPassRead(md5: string -> string, s: Snapshot, es: seq<Entry>, k: nat, w: World, e: Event)
    requires NonEmptyDigest(md5) && FirstPassSetting(md5, s, es) && k <= |es|
    requires FirstPassState(md5, s, es, k, w) && e.Read? && (k == |es| && w.flight.Idle? ==> e.sink)
    ensures FirstPassState(md5, s, es, k, Step(md5, w, e))
  {
    hide HashOf, Reconciled, FinalizeAll, StoredReported;
    StepTracks(md5, w, e);
    CountAfterRules(es, k);
    if w.flight.Idle? {
      assert Last(Step(md5, w, e).seen) == AfterRules(s, es, k);
      assert Complete(AfterRules(s, es, k)) <==> k == |es|;
    }
  }

  lemma {:induction false} FirstPassWrite(md5: string -> string, s: Snapshot, es: seq<Entry>, k: nat, w: World,
                                          e: Event)
    requires NonEmptyDigest(md5) && FirstPassSetting(md5, s, es) && 0 < k <= |es|
    requires FirstPassState(md5, s, es, k - 1, w) && e.Write?
    requires Status(e.state, e.conditions) == FinalizeAll(NEW_STATUS, es[..k])
    ensures FirstPassState(md5, s, es, k, Step(md5, w, e))
  {
    hide HashOf, Reconciled, FinalizeAll;
    StepTracks(md5, w, e);
    if w.seen != [] {
      var j :| 0 <= j <= k - 1 && Last(w.seen) == AfterRules(s, es, j);
      PrefixesDiffer(md5, s, es, j, k);
    }
    if w.server.StoredHash().Some? {
      var j :| 0 <= j <= k - 1 && w.server.StoredHash() == Some(HashOf(md5, AfterRules(s, es, j)));
      PrefixesDiffer(md5, s, es, j, k);
    }
  }

  lemma {:induction false} FirstPassPatch(md5: string -> string, s: Snapshot, es: seq<Entry>, k: nat, w: World,
                                          e: Event)
    requires NonEmptyDigest(md5) && FirstPassSetting(md5, s, es) && k <= |es|
    requires FirstPassState(md5, s, es, k, w) && e.Patch? && (ReadsFinal(s, es, k, w) ==> e.landing.metadata)
    ensures FirstPassState(md5, s, es, k, Step(md5, w, e))
  {
    hide HashOf, Reconciled, Patched, FinalizeAll, AfterRules;
    StepTracks(md5, w, e);
    if w.flight.InFlight? {
      PatchStoresLastRead(md5, w, e.landing);
      var j :| 0 <= j <= k && Last(w.seen) == AfterRules(s, es, j);
      if j < k {
        PrefixesDiffer(md5, s, es, j, k);
      }
    }
  }

  /** While rules of a first pass report one by one, interleaved with reconciliations in any
      way, sink or not, patches failing or not, nothing is sent before the last of them has
      reported; from then on the final content is sent by the first reconciliation that reads
      it, and once only. */
  lemma {:induction false} FirstPassNotifiesOnce(md5: string -> string, s: Snapshot, es: seq<Entry>,
                                                 events: seq<Event>, k: nat)
    requires NonEmptyDigest(md5) && FirstPassSetting(md5, s, es) && k <= |es|
    requires FirstPass(md5, s, es, events, k)
    ensures FirstPassState(md5, s, es, k, Run(md5, Start(s), events))
  {
    hide HashOf, Step, FirstPassState;
    if events == [] {
      FirstPassStarts(md5, s, es);
    } else {
      var init, e := events[..|events| - 1], events[|events| - 1];
      var w := Run(md5, Start(s), init);
      assert AllHaveState(es);
      match e {
        case Write(_, _) =>
          FirstPassNotifiesOnce(md5, s, es, init, k - 1);
          OneMoreRule(es, k);
          FirstPassWrite(md5, s, es, k, w, e);
        case Respec(_) =>
          FirstPassNotifiesOnce(md5, s, es, init, k);
          SpecRewritten(md5, s, es, k, w, e);
        case Read(_, _, _) =>
          FirstPassNotifiesOnce(md5, s, es, init, k);
          FirstPassRead(md5, s, es, k, w, e);
        case Patch(_) =>
          FirstPassNotifiesOnce(md5, s, es, init, k);
          FirstPassPatch(md5, s, es, k, w, e);
      }
    }
  }

  lemma {:induction false} SpecRewritten(md5: string -> string, s: Snapshot, es: seq<Entry>, k: nat, w: World, e: Event)
    requires AllHaveState(es) && k <= |es| && FirstPassState(md5, s, es, k, w) && e == Respec(s.spec)
    ensures FirstPassState(md5, s, es, k, Step(md5, w, e))
  {
    hide HashOf, FinalizeAll, Reconciled;
    assert w.server.Content().spec == s.spec;
    assert Step(md5, w, e) == w;
  }

  lemma {:induction false} FirstPassStarts(md5: string -> string, s: Snapshot, es: seq<Entry>)
    requires FirstPassSetting(md5, s, es)
    ensures FirstPassState(md5, s, es, 0, Start(s))
  {
  }

  /** After the first pass has been sent, further validation rounds that bring nothing new
      are never sent, however they interleave with reconciliations and failing patches. */
  lemma {:induction false} FirstPassThenSilence(md5: string -> string, s: Snapshot, es: seq<Entry>, pass: seq<Event>,
                                                later: seq<Event>)
    requires NonEmptyDigest(md5) && FirstPassSetting(md5, s, es) && FirstPass(md5, s, es, pass, |es|)
    requires
      var w := Run(md5, Start(s), pass);
      w.flight.Idle? && w.seen != [] && Last(w.seen) == AfterRules(s, es, |es|)
    requires forall i | 0 <= i < |later| && later[i].Respec? :: later[i].spec == s.spec
    requires forall i | 0 <= i < |later| && later[i].Write? ::
               exists batches: seq<seq<Entry>> ::
                 && (forall b | b in batches :: AllHaveState(b)
                       && Repeats(FinalizeAll(NEW_STATUS, es).conditions, Outcomes(b)))
                 && Status(later[i].state, later[i].conditions) == Revalidated(FinalizeAll(NEW_STATUS, es), batches)
    ensures Run(md5, Run(md5, Start(s), pass), later).emissions == [AfterRules(s, es, |es|)]
  {
    hide HashOf, Step, FinalizeAll, Revalidated, SameContent;
    var w, st := Run(md5, Start(s), pass), FinalizeAll(NEW_STATUS, es);
    FirstPassNotifiesOnce(md5, s, es, pass, |es|);
    assert es[..|es|] == es;
    BatchKeepsState(NEW_STATUS, es);
    forall i | 0 <= i < |later| ensures KeepsContent(w.server.Content(), later[i]) {
      if later[i].Write? {
        var batches: seq<seq<Entry>> :|
          && (forall b | b in batches :: AllHaveState(b) && Repeats(st.conditions, Outcomes(b)))
          && Status(later[i].state, later[i].conditions) == Revalidated(st, batches);
        RevalidationsKeepContent(st, batches);
        SameStatusSameContent(w.server.Content(), later[i].state, later[i].conditions);
      }
    }
    QuietRun(md5, w, later);
  }

  lemma {:induction false} SameStatusSameContent(c: Content, state: ValidationState,
                                                 conditions: seq<ValidationCondition>)
    requires c.state == state && SameConditions(c.validationConditions, conditions)
    ensures SameContent(c, c.(state := state, validationConditions := conditions))
  {
  }
}
