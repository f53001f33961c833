/** Exactly when the stored hashes cannot make a plugin be skipped wrongly. */
module SafeSkips {
  import opened Text
  import opened Api
  import opened Deployment
  import opened DeploymentLaws
  import opened DeploymentRuns

  /** What is asked of the release of a skipped plugin: that its values are deployed or, more
      strictly, that they got there by the last Helm call for it, an upgrade that succeeded. */
  datatype Demand = ValuesDeployed | LastCallSucceeded

  ghost predicate Runs(d: Demand, hash: string -> string, h: HelmState, name: string, digest: string) {
    && name in h.deployed && hash(h.deployed[name].values) == digest
    && (d.LastCallSucceeded? ==> LastCall(h.calls, name) == Some(Upgrade(name, h.deployed[name], true)))
  }

  /** Whatever the spec is edited to, a plugin that would be skipped already runs its values. */
  ghost predicate SafeToSkip(d: Demand, hash: string -> string, w: World) {
    forall p: Plugin :: Skips(hash, w.annotations, w.conditions, p) ==>
      Runs(d, hash, w.helm, p.chart.name, hash(p.values))
  }

  ghost predicate KeptAt(d: Demand, hash: string -> string, annotations: map<string, string>, h: HelmState,
                         name: string)
  {
    var key := PluginHashKey(name);
    key in annotations ==> Runs(d, hash, h, name, annotations[key])
  }

  ghost predicate AllKept(d: Demand, hash: string -> string, annotations: map<string, string>, h: HelmState,
                          cs: seq<PluginCondition>)
  {
    forall i | 0 <= i < |cs| && cs[i].status == ConditionTrue :: KeptAt(d, hash, annotations, h, cs[i].pluginName)
  }

  /** Each plugin recorded as deployed has no stored hash or runs values of that hash. */
  ghost predicate Kept(d: Demand, hash: string -> string, w: World) {
    AllKept(d, hash, w.annotations, w.helm, w.conditions)
  }

  /** What is stored for plugins are hashes of values. */
  ghost predicate Digests(hash: string -> string, annotations: map<string, string>) {
    forall name: string :: PluginHashKey(name) in annotations ==>
      exists values: string :: annotations[PluginHashKey(name)] == hash(values)
  }

  lemma {:induction false} SafeExactlyIfKept(d: Demand, hash: string -> string, w: World)
    requires WellFormed(w.conditions) && Digests(hash, w.annotations)
    ensures SafeToSkip(d, hash, w) <==> Kept(d, hash, w)
  {
    hide Runs, PluginHashKey;
    if Kept(d, hash, w) {
      forall p: Plugin | Skips(hash, w.annotations, w.conditions, p)
        ensures Runs(d, hash, w.helm, p.chart.name, hash(p.values))
      {
        var k := PluginConditionIndex(w.conditions, p.chart.name, HELM_CHART_DEPLOYED);
        assert w.conditions[k].status == ConditionTrue;
      }
    }
    if SafeToSkip(d, hash, w) {
      forall i | 0 <= i < |w.conditions| && w.conditions[i].status == ConditionTrue
        ensures KeptAt(d, hash, w.annotations, w.helm, w.conditions[i].pluginName)
      {
        var name := w.conditions[i].pluginName;
        TrueAt(w.conditions, i);
        if PluginHashKey(name) in w.annotations {
          var values: string :| w.annotations[PluginHashKey(name)] == hash(values);
          assert Skips(hash, w.annotations, w.conditions, Plugin(Chart(name, "", ""), values));
        }
      }
    }
  }

  // ----- Exactly which patches keep skips safe -----

  /** What must be known before a patch that does not fully land, with OwnAttempt telling what
      each plugin's attempt leaves; OwnAttemptLeaves and RunsAfterwards spell that out. Status
      only: every upgrade that succeeds finds no hash stored, or its own. Nothing: every plugin
      removed or visited, recorded as deployed and with a hash stored, is left with values of
      that hash. Annotations only: every plugin of the spec recorded as deployed is left with its
      current values; removed plugins do not matter. */
  ghost predicate Tolerable(d: Demand, hash: string -> string, w: World, env: nat -> Attempt,
                            deletes: nat -> HelmResult, landing: Landing)
  {
    match landing
    case Landed => true
    case StatusOnly =>
      forall i: nat | i < |w.plugins| ::
        || Skips(hash, w.annotations, w.conditions, w.plugins[i])
        || AttemptError(w.cfg, env(i)) != None
        || PluginHashKey(w.plugins[i].chart.name) !in w.annotations
        || HashStored(w.annotations, w.plugins[i].chart.name, hash(w.plugins[i].values))
    case Lost(visits, removals) =>
      && (forall k: nat | k < |w.conditions| && Stale(Names(w.plugins), w.conditions[k]) ::
            |w.plugins| <= visits && k < removals ==>
              KeptAt(d, hash, w.annotations, Deleted(w.helm, w.conditions[k].pluginName, deletes(k)),
                     w.conditions[k].pluginName))
      && (forall i: nat | i < |w.plugins| && IsTrueFor(w.conditions, w.plugins[i].chart.name) ::
            i < visits ==> KeptAt(d, hash, w.annotations, OwnAttempt(hash, w, env, i), w.plugins[i].chart.name))
    case AnnotationsOnly =>
      forall i: nat | i < |w.plugins| && IsTrueFor(w.conditions, w.plugins[i].chart.name) ::
        Runs(d, hash, OwnAttempt(hash, w, env, i), w.plugins[i].chart.name, hash(w.plugins[i].values))
  }

  lemma {:induction false} RunsAsBefore(d: Demand, hash: string -> string, h: HelmState, h': HelmState, name: string,
                                        digest: string)
    requires SameRelease(h, h', name)
    ensures Runs(d, hash, h', name, digest) <==> Runs(d, hash, h, name, digest)
  {
  }

  lemma {:induction false} RunsOptions(d: Demand, hash: string -> string, h: HelmState, cfg: HelmConfig, p: Plugin,
                                       digest: string)
    requires Running(h, p.chart.name, OptionsFor(cfg, p))
    ensures Runs(d, hash, h, p.chart.name, digest) <==> digest == hash(p.values)
  {
    hide OptionsFor;
    OptionsKeepValues(cfg, p);
  }

  lemma {:induction false} BrokenRunsNothing(hash: string -> string, h: HelmState, name: string, digest: string)
    requires Broken(h, name)
    ensures !Runs(LastCallSucceeded, hash, h, name, digest)
  {
  }

  lemma {:induction false} SkippedRuns(d: Demand, hash: string -> string, w: World, p: Plugin, digest: string)
    requires Kept(d, hash, w) && Skips(hash, w.annotations, w.conditions, p)
    ensures Runs(d, hash, w.helm, p.chart.name, digest) <==> digest == hash(p.values)
  {
    hide PluginHashKey;
    var k := PluginConditionIndex(w.conditions, p.chart.name, HELM_CHART_DEPLOYED);
    assert w.conditions[k].status == ConditionTrue;
  }

  /** What a plugin's attempt leaves deployed: what was there, if it is skipped or stops before
      Helm, its options, or what the failed upgrade or the deletion after it leaves. */
  lemma {:induction false} OwnAttemptLeaves(hash: string -> string, w: World, env: nat -> Attempt, i: nat)
    requires i < |w.plugins|
    ensures
      var p, a := w.plugins[i], env(i);
      At(OwnAttempt(hash, w, env, i).deployed, p.chart.name) ==
        if Skips(hash, w.annotations, w.conditions, p) || !ReachesHelm(w.cfg, a) then At(w.helm.deployed, p.chart.name)
        else if a.upgrade.Done? then Some(OptionsFor(w.cfg, p))
        else if !Contains(a.upgrade.message, NO_DEPLOYED_RELEASES) then a.upgrade.leftover
        else if a.delete.Done? then None
        else a.delete.leftover
  {
    hide Contains, OptionsFor, ReachesHelm, Skips;
  }

  /** What a plugin's release runs after its attempt, by how that went; for a release that the
      attempt broke, by what it left there. */
  lemma {:induction false} RunsAfterwards(d: Demand, hash: string -> string, w: World, env: nat -> Attempt, i: nat,
                                          digest: string)
    requires i < |w.plugins| && Kept(d, hash, w)
    ensures
      var h, p := OwnAttempt(hash, w, env, i), w.plugins[i];
      var deployed := At(h.deployed, p.chart.name);
      Runs(d, hash, h, p.chart.name, digest) <==>
        if Skips(hash, w.annotations, w.conditions, p) || AttemptError(w.cfg, env(i)) == None then
          digest == hash(p.values)
        else if !ReachesHelm(w.cfg, env(i)) then Runs(d, hash, w.helm, p.chart.name, digest)
        else d.ValuesDeployed? && deployed.Some? && hash(deployed.value.values) == digest
  {
    hide AfterAttempt, PluginHashKey, OptionsFor, AttemptError, ReachesHelm, Skips, Running, Broken, SameRelease, Kept;
    var h, p := OwnAttempt(hash, w, env, i), w.plugins[i];
    AttemptEffect(w.cfg, p, env(i), w.helm, p.chart.name);
    AttemptErrorOfStopped(w.cfg, env(i));
    if Skips(hash, w.annotations, w.conditions, p) {
      SkippedRuns(d, hash, w, p, digest);
    } else if ReachesHelm(w.cfg, env(i)) {
      if AttemptError(w.cfg, env(i)) == None {
        RunsOptions(d, hash, h, w.cfg, p, digest);
      } else {
        BrokenRunsNothing(hash, h, p.chart.name, digest);
      }
    }
  }

  lemma {:induction false} SkippedHash(hash: string -> string, w: World, p: Plugin)
    requires Skips(hash, w.annotations, w.conditions, p)
    ensures HashStored(w.annotations, p.chart.name, hash(p.values))
  {
  }

  lemma {:induction false} RecordedIsKept(d: Demand, hash: string -> string, w: World, name: string)
    requires Kept(d, hash, w) && IsTrueFor(w.conditions, name)
    ensures KeptAt(d, hash, w.annotations, w.helm, name)
  {
    hide KeptAt;
    var k := PluginConditionIndex(w.conditions, name, HELM_CHART_DEPLOYED);
    assert w.conditions[k].status == ConditionTrue;
  }

  lemma {:induction false} KeptAsBefore(d: Demand, hash: string -> string, annotations: map<string, string>,
                                        h: HelmState, h': HelmState, name: string)
    requires SameRelease(h, h', name)
    ensures KeptAt(d, hash, annotations, h', name) <==> KeptAt(d, hash, annotations, h, name)
  {
    hide Runs, SameRelease, PluginHashKey;
    if PluginHashKey(name) in annotations {
      RunsAsBefore(d, hash, h, h', name, annotations[PluginHashKey(name)]);
    }
  }

  /** With the annotations landed, a plugin of the spec is kept exactly if its attempt leaves it
      with its current values. */
  lemma {:induction false} KeptIfAnnotated(d: Demand, hash: string -> string, w: World, env: nat -> Attempt,
                                           deletes: nat -> HelmResult, i: nat)
    requires i < |w.plugins| && DistinctPlugins(w.plugins)
    ensures
      var w', p := Redeployed(hash, w, env, deletes), w.plugins[i];
      KeptAt(d, hash, w'.annotations, w'.helm, p.chart.name) <==>
        Runs(d, hash, OwnAttempt(hash, w, env, i), p.chart.name, hash(p.values))
  {
    hide Redeployed, Stopped, OwnAttempt, PluginHashKey, Runs, SameRelease;
    var w', name := Redeployed(hash, w, env, deletes), w.plugins[i].chart.name;
    CompletedIsStopped(hash, w, env, deletes);
    StoppedOwns(hash, w, env, deletes, |w.plugins|, |w.conditions|, i);
    RunsAsBefore(d, hash, OwnAttempt(hash, w, env, i), w'.helm, name, hash(w.plugins[i].values));
    RedeployTreats(hash, w, env, deletes, i);
  }

  /** With the annotations landed, nothing is stored any more for a removed plugin. */
  lemma {:induction false} RemovedIsKept(d: Demand, hash: string -> string, w: World, env: nat -> Attempt,
                                         deletes: nat -> HelmResult, k: nat)
    requires k < |w.conditions| && Stale(Names(w.plugins), w.conditions[k])
    ensures
      var w' := Redeployed(hash, w, env, deletes);
      KeptAt(d, hash, w'.annotations, w'.helm, w.conditions[k].pluginName)
  {
    hide Redeployed, PluginHashKey, StaleNames, Runs;
    var names, name := Names(w.plugins), w.conditions[k].pluginName;
    var key := PluginHashKey(name);
    StaleNamesAreStale(names, w.conditions);
    assert name in StaleNames(names, w.conditions);
    RedeployAligns(hash, w, env, deletes, key);
    var l := LastWithKey(w.plugins, |w.plugins|, key);
    if l != -1 {
      PluginHashKeyInjective(w.plugins[l].chart.name, name);
      NamedInSpec(w.plugins, name);
    }
  }

  /** The old conditions are kept exactly if those of removed plugins and those of the spec's
      plugins are. */
  lemma {:induction false} OldConditionsKeptExactly(d: Demand, hash: string -> string, w: World,
                                                    annotations: map<string, string>, h: HelmState,
                                                    stale: nat -> bool, kept: nat -> bool)
    requires WellFormed(w.conditions)
    requires forall k: nat | k < |w.conditions| && Stale(Names(w.plugins), w.conditions[k]) ::
               KeptAt(d, hash, annotations, h, w.conditions[k].pluginName) <==> stale(k)
    requires forall i: nat | i < |w.plugins| && IsTrueFor(w.conditions, w.plugins[i].chart.name) ::
               KeptAt(d, hash, annotations, h, w.plugins[i].chart.name) <==> kept(i)
    ensures AllKept(d, hash, annotations, h, w.conditions) <==>
            && (forall k: nat | k < |w.conditions| && Stale(Names(w.plugins), w.conditions[k]) :: stale(k))
            && (forall i: nat | i < |w.plugins| && IsTrueFor(w.conditions, w.plugins[i].chart.name) :: kept(i))
  {
    hide KeptAt, IsTrueFor, Names;
    TrueConditionsCorrespond(w);
    forall k | 0 <= k < |w.conditions| && w.conditions[k].status == ConditionTrue
      ensures Stale(Names(w.plugins), w.conditions[k]) ||
              exists i: nat | i < |w.plugins| :: w.plugins[i].chart.name == w.conditions[k].pluginName
    {
      NamedInSpec(w.plugins, w.conditions[k].pluginName);
    }
  }

  lemma {:induction false} LostKeptExactly(d: Demand, hash: string -> string, w: World, env: nat -> Attempt,
                                           deletes: nat -> HelmResult, visits: nat, removals: nat)
    requires DistinctPlugins(w.plugins) && WellFormed(w.conditions) && Kept(d, hash, w)
    ensures AllKept(d, hash, w.annotations, Stopped(hash, w, env, deletes, visits, removals).helm, w.conditions) <==>
            Tolerable(d, hash, w, env, deletes, Lost(visits, removals))
  {
    hide Stopped, PluginHashKey, Kept, AllKept, KeptAt, IsTrueFor, Names, Deleted, OwnAttempt, SameRelease, WellFormed;
    var h := Stopped(hash, w, env, deletes, visits, removals).helm;
    ghost var gone := iset k: nat | k < |w.conditions| && (|w.plugins| <= visits && k < removals ==>
      KeptAt(d, hash, w.annotations, Deleted(w.helm, w.conditions[k].pluginName, deletes(k)),
        w.conditions[k].pluginName));
    ghost var left := iset i: nat | i < |w.plugins| && (i < visits ==>
      KeptAt(d, hash, w.annotations, OwnAttempt(hash, w, env, i), w.plugins[i].chart.name));
    forall k: nat | k < |w.conditions| && Stale(Names(w.plugins), w.conditions[k])
      ensures KeptAt(d, hash, w.annotations, h, w.conditions[k].pluginName) <==> k in gone
    {
      var name := w.conditions[k].pluginName;
      StoppedRemoves(hash, w, env, deletes, visits, removals, k);
      var h0 := if |w.plugins| <= visits && k < removals then Deleted(w.helm, name, deletes(k)) else w.helm;
      KeptAsBefore(d, hash, w.annotations, h0, h, name);
      KeptHere(d, hash, w, k);
    }
    forall i: nat | i < |w.plugins| && IsTrueFor(w.conditions, w.plugins[i].chart.name)
      ensures KeptAt(d, hash, w.annotations, h, w.plugins[i].chart.name) <==> i in left
    {
      StoppedOwns(hash, w, env, deletes, visits, removals, i);
      var h0 := if i < visits then OwnAttempt(hash, w, env, i) else w.helm;
      KeptAsBefore(d, hash, w.annotations, h0, h, w.plugins[i].chart.name);
      RecordedIsKept(d, hash, w, w.plugins[i].chart.name);
    }
    OldConditionsKeptExactly(d, hash, w, w.annotations, h, (k: nat) => k in gone, (i: nat) => i in left);
  }

  lemma {:induction false} KeptHere(d: Demand, hash: string -> string, w: World, k: nat)
    requires k < |w.conditions| && Kept(d, hash, w)
    ensures w.conditions[k].status == ConditionTrue ==>
              KeptAt(d, hash, w.annotations, w.helm, w.conditions[k].pluginName)
  {
    hide KeptAt;
  }

  lemma {:induction false} AnnotatedKeptExactly(d: Demand, hash: string -> string, w: World, env: nat -> Attempt,
                                                deletes: nat -> HelmResult)
    requires DistinctPlugins(w.plugins) && WellFormed(w.conditions)
    ensures
      var w' := Redeployed(hash, w, env, deletes);
      AllKept(d, hash, w'.annotations, w'.helm, w.conditions) <==> Tolerable(d, hash, w, env, deletes, AnnotationsOnly)
  {
    hide Redeployed, AllKept, KeptAt, IsTrueFor, Names, Runs, OwnAttempt, WellFormed;
    var w' := Redeployed(hash, w, env, deletes);
    ghost var left := iset i: nat | i < |w.plugins| &&
      Runs(d, hash, OwnAttempt(hash, w, env, i), w.plugins[i].chart.name, hash(w.plugins[i].values));
    forall k: nat | k < |w.conditions| && Stale(Names(w.plugins), w.conditions[k])
      ensures KeptAt(d, hash, w'.annotations, w'.helm, w.conditions[k].pluginName)
    {
      RemovedIsKept(d, hash, w, env, deletes, k);
    }
    forall i: nat | i < |w.plugins| && IsTrueFor(w.conditions, w.plugins[i].chart.name)
      ensures KeptAt(d, hash, w'.annotations, w'.helm, w.plugins[i].chart.name) <==> i in left
    {
      KeptIfAnnotated(d, hash, w, env, deletes, i);
    }
    OldConditionsKeptExactly(d, hash, w, w'.annotations, w'.helm, (k: nat) => true, (i: nat) => i in left);
  }

  /** When the status lands, a True condition is kept exactly if no hash is stored or that of
      the plugin's values. */
  lemma {:induction false} KeptIfStatusLands(d: Demand, hash: string -> string, w: World, env: nat -> Attempt,
                                             deletes: nat -> HelmResult, i: nat, annotations: map<string, string>)
    requires i < |w.plugins| && DistinctPlugins(w.plugins) && Kept(d, hash, w)
    ensures
      var w', p := Redeployed(hash, w, env, deletes), w.plugins[i];
      && |w'.conditions| == |w.plugins| && w'.conditions[i].pluginName == p.chart.name
      && (w'.conditions[i].status == ConditionTrue <==>
            Skips(hash, w.annotations, w.conditions, p) || AttemptError(w.cfg, env(i)) == None)
      && (w'.conditions[i].status == ConditionTrue ==>
            (KeptAt(d, hash, annotations, w'.helm, p.chart.name) <==>
               PluginHashKey(p.chart.name) !in annotations || HashStored(annotations, p.chart.name, hash(p.values))))
  {
    hide Redeployed, Stopped, OwnAttempt, PluginHashKey, AttemptError, ReachesHelm, Runs, Kept, SameRelease,
      NewCondition;
    var w', p, key := Redeployed(hash, w, env, deletes), w.plugins[i], PluginHashKey(w.plugins[i].chart.name);
    StatusAfterwards(hash, w, env, deletes, i);
    if key in annotations {
      CompletedIsStopped(hash, w, env, deletes);
      StoppedOwns(hash, w, env, deletes, |w.plugins|, |w.conditions|, i);
      RunsAsBefore(d, hash, OwnAttempt(hash, w, env, i), w'.helm, p.chart.name, annotations[key]);
      RunsAfterwards(d, hash, w, env, i, annotations[key]);
    }
  }

  lemma {:induction false} StatusAfterwards(hash: string -> string, w: World, env: nat -> Attempt,
                                            deletes: nat -> HelmResult, i: nat)
    requires i < |w.plugins| && DistinctPlugins(w.plugins)
    ensures
      var w', p := Redeployed(hash, w, env, deletes), w.plugins[i];
      && |w'.conditions| == |w.plugins| && w'.conditions[i].pluginName == p.chart.name
      && (w'.conditions[i].status == ConditionTrue <==>
            Skips(hash, w.annotations, w.conditions, p) || AttemptError(w.cfg, env(i)) == None)
  {
    hide Redeployed, PluginHashKey, AttemptError, Attempted, StaleNames, DeleteCalls, Visited;
    RedeployDecides(hash, w, env, deletes);
    RedeployAligns(hash, w, env, deletes, "");
    assert Redeployed(hash, w, env, deletes).conditions[i] == NewCondition(hash, w, env, i);
  }

  lemma {:induction false} StatusLandsKeptExactly(d: Demand, hash: string -> string, w: World, env: nat -> Attempt,
                                                  deletes: nat -> HelmResult)
    requires DistinctPlugins(w.plugins) && Kept(d, hash, w)
    ensures
      var w' := Redeployed(hash, w, env, deletes);
      && (AllKept(d, hash, w.annotations, w'.helm, w'.conditions) <==> Tolerable(d, hash, w, env, deletes, StatusOnly))
      && AllKept(d, hash, w'.annotations, w'.helm, w'.conditions)
  {
    hide Redeployed, PluginHashKey, AttemptError, Skips, HashStored, Kept, KeptAt, Treated;
    var w' := Redeployed(hash, w, env, deletes);
    RedeployAligns(hash, w, env, deletes, "");
    forall i: nat | i < |w.plugins|
      ensures
        (w'.conditions[i].status == ConditionTrue ==>
          KeptAt(d, hash, w.annotations, w'.helm, w'.conditions[i].pluginName))
        <==>
        || Skips(hash, w.annotations, w.conditions, w.plugins[i])
        || AttemptError(w.cfg, env(i)) != None
        || PluginHashKey(w.plugins[i].chart.name) !in w.annotations
        || HashStored(w.annotations, w.plugins[i].chart.name, hash(w.plugins[i].values))
      ensures w'.conditions[i].status == ConditionTrue ==>
                KeptAt(d, hash, w'.annotations, w'.helm, w'.conditions[i].pluginName)
    {
      KeptIfStatusLands(d, hash, w, env, deletes, i, w.annotations);
      KeptIfStatusLands(d, hash, w, env, deletes, i, w'.annotations);
      RedeployTreats(hash, w, env, deletes, i);
      if Skips(hash, w.annotations, w.conditions, w.plugins[i]) {
        SkippedHash(hash, w, w.plugins[i]);
      }
    }
  }

  /** One reconciliation keeps skips safe exactly if its patch is tolerable. */
  lemma {:induction false} KeptExactlyIfTolerable(d: Demand, hash: string -> string, w: World, env: nat -> Attempt,
                                                  deletes: nat -> HelmResult, landing: Landing)
    requires DistinctPlugins(w.plugins) && WellFormed(w.conditions) && Kept(d, hash, w)
    ensures Kept(d, hash, Step(hash, w, Reconcile(env, deletes, landing))) <==>
            Tolerable(d, hash, w, env, deletes, landing)
  {
    hide Redeployed, Stopped, AllKept;
    match landing {
      case Landed => StatusLandsKeptExactly(d, hash, w, env, deletes);
      case StatusOnly => StatusLandsKeptExactly(d, hash, w, env, deletes);
      case Lost(visits, removals) => LostKeptExactly(d, hash, w, env, deletes, visits, removals);
      case AnnotationsOnly => AnnotatedKeptExactly(d, hash, w, env, deletes);
    }
  }

  // ----- Over whole runs -----

  ghost predicate AllTolerable(d: Demand, hash: string -> string, w: World, events: seq<Event>) {
    if events == [] then true
    else
      var init, e := events[..|events| - 1], events[|events| - 1];
      && AllTolerable(d, hash, w, init)
      && (e.Reconcile? ==> Tolerable(d, hash, Run(hash, w, init), e.env, e.deletes, e.landing))
  }

  ghost predicate SafeThroughout(d: Demand, hash: string -> string, w: World, events: seq<Event>) {
    SafeToSkip(d, hash, Run(hash, w, events)) && (events != [] ==> SafeThroughout(d, hash, w, events[..|events| - 1]))
  }

  lemma {:induction false} RunKeepsDigests(hash: string -> string, w: World, events: seq<Event>)
    requires Digests(hash, w.annotations)
    ensures Digests(hash, Run(hash, w, events).annotations)
  {
    hide Step, Digests;
    if events != [] {
      RunKeepsDigests(hash, w, events[..|events| - 1]);
      StepKeepsDigests(hash, Run(hash, w, events[..|events| - 1]), events[|events| - 1]);
    }
  }

  lemma {:induction false} StepKeepsDigests(hash: string -> string, w: World, e: Event)
    requires Digests(hash, w.annotations)
    ensures Digests(hash, Step(hash, w, e).annotations)
  {
    hide Redeployed, PluginHashKey;
    if e.Reconcile? {
      var w' := Redeployed(hash, w, e.env, e.deletes);
      forall name: string | PluginHashKey(name) in w'.annotations
        ensures exists values: string :: w'.annotations[PluginHashKey(name)] == hash(values)
      {
        RedeployAligns(hash, w, e.env, e.deletes, PluginHashKey(name));
      }
    }
  }

  /** Along any run of edits and reconciliations, Helm failing at will, no plugin could ever be
      skipped that does not run its current values, up to equality of hashes: exactly if every
      patch on the way is tolerable. */
  lemma {:induction false} SafeExactlyIfTolerable(d: Demand, hash: string -> string, w: World, events: seq<Event>)
    requires w.conditions == [] && Digests(hash, w.annotations) && DistinctSpecs(w, events)
    ensures SafeThroughout(d, hash, w, events) <==> AllTolerable(d, hash, w, events)
  {
    hide Step, Tolerable, SafeToSkip, Kept, Digests;
    RunKeepsForm(hash, w, events);
    RunKeepsDigests(hash, w, events);
    SafeExactlyIfKept(d, hash, Run(hash, w, events));
    if events == [] {
      NothingRecorded(d, hash, w);
    } else {
      var init, e := events[..|events| - 1], events[|events| - 1];
      assert DistinctSpecs(w, init) by { assert forall i | 0 <= i < |init| :: init[i] == events[i]; }
      SafeExactlyIfTolerable(d, hash, w, init);
      RunKeepsForm(hash, w, init);
      RunKeepsDigests(hash, w, init);
      var v := Run(hash, w, init);
      SafeExactlyIfKept(d, hash, v);
      if AllTolerable(d, hash, w, init) {
        assert SafeToSkip(d, hash, v) by { LastIsSafe(d, hash, w, init); }
        if e.Reconcile? {
          KeptExactlyIfTolerable(d, hash, v, e.env, e.deletes, e.landing);
        } else {
          EditKeepsKept(d, hash, v, e);
        }
      }
    }
  }

  /** Patches that keep all records truthful keep skips safe, by either demand. */
  lemma {:induction false} HarmlessIsTolerable(d: Demand, hash: string -> string, w: World, events: seq<Event>)
    requires w.conditions == [] && DistinctSpecs(w, events) && AllHarmless(hash, w, events)
    ensures AllTolerable(d, hash, w, events)
  {
    hide Step, Harmless, Tolerable, Kept, Sound;
    if events != [] {
      var init, e := events[..|events| - 1], events[|events| - 1];
      assert DistinctSpecs(w, init) by { assert forall i | 0 <= i < |init| :: init[i] == events[i]; }
      HarmlessIsTolerable(d, hash, w, init);
      RunKeepsForm(hash, w, init);
      SoundExactlyIfHarmless(hash, w, init);
      SoundExactlyIfHarmless(hash, w, events);
      assert Sound(hash, Run(hash, w, init)) && Sound(hash, Run(hash, w, events));
      SoundIsKept(d, hash, Run(hash, w, init));
      SoundIsKept(d, hash, Run(hash, w, events));
      if e.Reconcile? {
        KeptExactlyIfTolerable(d, hash, Run(hash, w, init), e.env, e.deletes, e.landing);
      }
    }
  }

  lemma {:induction false} SoundIsKept(d: Demand, hash: string -> string, w: World)
    requires Sound(hash, w)
    ensures Kept(d, hash, w)
  {
    hide PluginHashKey;
  }

  lemma {:induction false} LastIsSafe(d: Demand, hash: string -> string, w: World, events: seq<Event>)
    requires SafeThroughout(d, hash, w, events)
    ensures SafeToSkip(d, hash, Run(hash, w, events))
  {
  }

  lemma {:induction false} NothingRecorded(d: Demand, hash: string -> string, w: World)
    requires w.conditions == []
    ensures Kept(d, hash, w)
  {
  }

  lemma {:induction false} EditKeepsKept(d: Demand, hash: string -> string, w: World, e: Event)
    requires e.Edit? && Kept(d, hash, w)
    ensures Kept(d, hash, Step(hash, w, e))
  {
  }

  // ----- Exactly which edits are deployed -----

  /** Both pairs make the same release: equal but perhaps for a leading v of the version when
      the registry is an OCI registry, which is cut off. */
  predicate SameDeployment(cfg: HelmConfig, p: Plugin, cfg': HelmConfig, q: Plugin) {
    && cfg.registry == cfg'.registry && cfg.insecureSkipTLSVerify == cfg'.insecureSkipTLSVerify
    && p.chart.repository == q.chart.repository && p.values == q.values
    && (if HasPrefix(cfg.registry, OCI_SCHEME) then TrimPrefix(p.chart.version, "v") == TrimPrefix(q.chart.version, "v")
        else p.chart.version == q.chart.version)
  }

  lemma {:induction false} SameOptionsExactly(cfg: HelmConfig, p: Plugin, cfg': HelmConfig, q: Plugin)
    requires p.chart.name == q.chart.name
    ensures OptionsFor(cfg, p) == OptionsFor(cfg', q) <==> SameDeployment(cfg, p, cfg', q)
  {
    hide HasPrefix, TrimPrefix;
  }

  lemma {:induction false} AttemptedExactly(hash: string -> string, w: World, n: nat, i: nat)
    requires n <= |w.plugins| && i < n && DistinctPlugins(w.plugins)
    ensures w.plugins[i].chart.name in Attempted(hash, w, n) <==>
            !Skips(hash, w.annotations, w.conditions, w.plugins[i])
  {
    hide Skips;
    if i == n - 1 {
      NotYetAttempted(hash, w, n - 1, i);
    } else {
      AttemptedExactly(hash, w, n - 1, i);
    }
  }

  lemma {:induction false} NotYetAttempted(hash: string -> string, w: World, n: nat, i: nat)
    requires n <= i < |w.plugins| && DistinctPlugins(w.plugins)
    ensures w.plugins[i].chart.name !in Attempted(hash, w, n)
  {
    hide Skips;
    if n > 0 {
      NotYetAttempted(hash, w, n - 1, i);
    }
  }

  /** After an edit of spec or Helm configuration, the reconciliation that follows attempts a
      recorded plugin exactly if the hash of its values is not the stored one. If it does not,
      the release stays what it was, made from p under cfg, and this is what the edit asks for
      exactly if nothing but a leading v was edited. */
  lemma {:induction false} EditDeployedExactly(d: Demand, hash: string -> string, w: World, cfg': HelmConfig,
                                               plugins': seq<Plugin>, i: nat, env: nat -> Attempt,
                                               deletes: nat -> HelmResult)
    requires WellFormed(w.conditions) && Kept(d, hash, w) && DistinctPlugins(plugins') && i < |plugins'|
    requires IsTrueFor(w.conditions, plugins'[i].chart.name) && PluginHashKey(plugins'[i].chart.name) in w.annotations
    ensures
      var q, name := plugins'[i], plugins'[i].chart.name;
      var v := Step(hash, w, Edit(cfg', plugins'));
      var w' := Redeployed(hash, v, env, deletes);
      var news := hash(q.values) != w.annotations[PluginHashKey(name)];
      && w'.attempted == w.attempted + Attempted(hash, v, |plugins'|)
      && (name in Attempted(hash, v, |plugins'|) <==> news)
      && name in w.helm.deployed
      && (!news ==> SameRelease(w.helm, w'.helm, name))
      && (!news ==>
            forall cfg: HelmConfig, p: Plugin |
              p.chart.name == name && w.helm.deployed[name] == OptionsFor(cfg, p) ::
            w'.helm.deployed[name] == OptionsFor(cfg', q) <==> SameDeployment(cfg, p, cfg', q))
  {
    hide Redeployed, PluginHashKey, OptionsFor, AttemptError, ReachesHelm, Attempted, Kept, SameDeployment;
    var q, name := plugins'[i], plugins'[i].chart.name;
    var v := Step(hash, w, Edit(cfg', plugins'));
    RecordedIsKept(d, hash, w, name);
    RedeployDecides(hash, v, env, deletes);
    AttemptedExactly(hash, v, |plugins'|, i);
    RedeployTreats(hash, v, env, deletes, i);
    forall cfg: HelmConfig, p: Plugin | p.chart.name == name
      ensures OptionsFor(cfg, p) == OptionsFor(cfg', q) <==> SameDeployment(cfg, p, cfg', q)
    {
      SameOptionsExactly(cfg, p, cfg', q);
    }
  }
}
