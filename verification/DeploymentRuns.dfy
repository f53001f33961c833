/** Whole runs of the plugin deployment: reconciliations, spec edits, Helm failures and
    patches that may land only in part. */
module DeploymentRuns {
  import opened Text
  import opened Api
  import opened Deployment
  import opened DeploymentLaws

  /** Annotations and status are patched by separate requests. When nothing lands, the process
      may even have stopped in between, after that many plugins visited and, if these were all,
      that many old conditions checked for removal. */
  datatype Landing = Landed | AnnotationsOnly | StatusOnly | Lost(visits: nat, removals: nat)

  datatype Event =
    | Edit(cfg: HelmConfig, plugins: seq<Plugin>)
    | Reconcile(env: nat -> Attempt, deletes: nat -> HelmResult, landing: Landing)

  /** How far a reconciliation has come when it stops. */
  function Stopped(hash: string -> string, w: World, env: nat -> Attempt, deletes: nat -> HelmResult,
                   visits: nat, removals: nat): Progress
  {
    if visits < |w.plugins| then PartlyVisited(hash, w, env, visits)
    else
      var checked := if removals < |w.conditions| then w.conditions[..removals] else w.conditions;
      RemoveAll(Names(w.plugins), checked, deletes, Visited(hash, w, env))
  }

  /** Helm has been called whether or not the patch lands. */
  function Step(hash: string -> string, w: World, e: Event): World {
    match e
    case Edit(cfg, plugins) => w.(cfg := cfg, plugins := plugins)
    case Reconcile(env, deletes, Lost(visits, removals)) =>
      var g := Stopped(hash, w, env, deletes, visits, removals);
      w.(helm := g.helm, attempted := g.attempted)
    case Reconcile(env, deletes, landing) =>
      var w' := Redeployed(hash, w, env, deletes);
      w'.(annotations := if landing == StatusOnly then w.annotations else w'.annotations,
          conditions := if landing == AnnotationsOnly then w.conditions else w'.conditions)
  }

  function Run(hash: string -> string, w: World, events: seq<Event>): World {
    if events == [] then w else Step(hash, Run(hash, w, events[..|events| - 1]), events[|events| - 1])
  }

  // ----- What a True condition stands for -----

  function LastCall(calls: seq<HelmCall>, name: string): Option<HelmCall> {
    if calls == [] then None
    else if calls[|calls| - 1].name == name then Some(calls[|calls| - 1])
    else LastCall(calls[..|calls| - 1], name)
  }

  /** The last Helm call for the plugin was a successful upgrade, its values are deployed,
      and their hash is the one stored. */
  ghost predicate Backed(hash: string -> string, annotations: map<string, string>, h: HelmState, name: string) {
    && name in h.deployed
    && LastCall(h.calls, name) == Some(Upgrade(name, h.deployed[name], true))
    && HashStored(annotations, name, hash(h.deployed[name].values))
  }

  ghost predicate AllBacked(hash: string -> string, annotations: map<string, string>, h: HelmState,
                            cs: seq<PluginCondition>)
  {
    forall i | 0 <= i < |cs| :: cs[i].status == ConditionTrue ==> Backed(hash, annotations, h, cs[i].pluginName)
  }

  ghost predicate Sound(hash: string -> string, w: World) {
    AllBacked(hash, w.annotations, w.helm, w.conditions)
  }

  /** Conditions are of the one type and name each plugin once. */
  ghost predicate WellFormed(cs: seq<PluginCondition>) {
    && (forall i | 0 <= i < |cs| :: cs[i].conditionType == HELM_CHART_DEPLOYED)
    && (forall i, j | 0 <= i < j < |cs| :: cs[i].pluginName != cs[j].pluginName)
  }

  lemma {:induction false} TrueAt(cs: seq<PluginCondition>, i: nat)
    requires WellFormed(cs) && i < |cs|
    ensures PluginConditionIndex(cs, cs[i].pluginName, HELM_CHART_DEPLOYED) == i
    ensures IsTrueFor(cs, cs[i].pluginName) <==> cs[i].status == ConditionTrue
  {
  }

  // ----- What a reconciliation does to one plugin's release -----

  ghost predicate SameRelease(h: HelmState, h': HelmState, name: string) {
    && LastCall(h'.calls, name) == LastCall(h.calls, name)
    && (name in h'.deployed <==> name in h.deployed)
    && (name in h.deployed ==> h'.deployed[name] == h.deployed[name])
  }

  ghost predicate Running(h: HelmState, name: string, o: HelmOptions) {
    name in h.deployed && h.deployed[name] == o && LastCall(h.calls, name) == Some(Upgrade(name, o, true))
  }

  /** The last call for the plugin failed or was a deletion. */
  ghost predicate Broken(h: HelmState, name: string) {
    LastCall(h.calls, name).Some? && (LastCall(h.calls, name).value.Upgrade? ==> !LastCall(h.calls, name).value.ok)
  }

  /** Skipped or stopped before Helm: nothing changes. Otherwise the release runs the
      plugin's options or is broken, as the attempt went. */
  ghost predicate Treated(hash: string -> string, w: World, env: nat -> Attempt, i: nat, h: HelmState)
    requires i < |w.plugins|
  {
    var p, name := w.plugins[i], w.plugins[i].chart.name;
    if Skips(hash, w.annotations, w.conditions, p) || !ReachesHelm(w.cfg, env(i)) then SameRelease(w.helm, h, name)
    else if AttemptError(w.cfg, env(i)) == None then Running(h, name, OptionsFor(w.cfg, p))
    else Broken(h, name)
  }

  lemma {:induction false} LastCallSnoc(calls: seq<HelmCall>, c: HelmCall, name: string)
    ensures LastCall(calls + [c], name) == if c.name == name then Some(c) else LastCall(calls, name)
  {
    assert (calls + [c])[..|calls|] == calls;
  }

  lemma {:induction false} AttemptEffect(cfg: HelmConfig, p: Plugin, a: Attempt, h: HelmState, other: string)
    ensures
      var h', name := AfterAttempt(cfg, p, a, h), p.chart.name;
      && (other != name ==> SameRelease(h, h', other))
      && (if !ReachesHelm(cfg, a) then h' == h
          else if AttemptError(cfg, a) == None then Running(h', name, OptionsFor(cfg, p))
          else Broken(h', name))
  {
    hide Contains, HasPrefix, OptionsFor;
    var name, o := p.chart.name, OptionsFor(cfg, p);
    LastCallSnoc(h.calls, Upgrade(name, o, a.upgrade.Done?), other);
    LastCallSnoc(h.calls, Upgrade(name, o, a.upgrade.Done?), name);
    var u := Upgraded(h, name, o, a.upgrade);
    LastCallSnoc(u.calls, Delete(name, a.delete.Done?), other);
    LastCallSnoc(u.calls, Delete(name, a.delete.Done?), name);
  }

  lemma {:induction false} SameAsItself(h: HelmState, name: string)
    ensures SameRelease(h, h, name)
  {
  }

  lemma {:induction false} SameChains(h: HelmState, h': HelmState, h'': HelmState, name: string)
    requires SameRelease(h, h', name) && SameRelease(h', h'', name)
    ensures SameRelease(h, h'', name)
  {
  }

  /** What the i-th plugin's attempt would make of Helm, were it the only one. */
  ghost function OwnAttempt(hash: string -> string, w: World, env: nat -> Attempt, i: nat): HelmState
    requires i < |w.plugins|
  {
    if Skips(hash, w.annotations, w.conditions, w.plugins[i]) then w.helm
    else AfterAttempt(w.cfg, w.plugins[i], env(i), w.helm)
  }

  /** An attempt leaves alike what was alike, and anything alike if it reaches Helm. */
  lemma {:induction false} AttemptOnSame(cfg: HelmConfig, p: Plugin, a: Attempt, h: HelmState, h': HelmState)
    requires SameRelease(h, h', p.chart.name) || ReachesHelm(cfg, a)
    ensures SameRelease(AfterAttempt(cfg, p, a, h), AfterAttempt(cfg, p, a, h'), p.chart.name)
  {
    hide Contains, HasPrefix, OptionsFor, LastCall;
    var name, o := p.chart.name, OptionsFor(cfg, p);
    var u, u' := Upgraded(h, name, o, a.upgrade), Upgraded(h', name, o, a.upgrade);
    LastCallSnoc(h.calls, Upgrade(name, o, a.upgrade.Done?), name);
    LastCallSnoc(h'.calls, Upgrade(name, o, a.upgrade.Done?), name);
    LastCallSnoc(u.calls, Delete(name, a.delete.Done?), name);
    LastCallSnoc(u'.calls, Delete(name, a.delete.Done?), name);
  }

  lemma {:induction false} WalkSpares(hash: string -> string, w: World, env: nat -> Attempt, n: nat, name: string)
    requires n <= |w.plugins| && forall i | 0 <= i < n :: w.plugins[i].chart.name != name
    ensures SameRelease(w.helm, PartlyVisited(hash, w, env, n).helm, name)
  {
    hide PartlyVisited, SameRelease, AfterAttempt, AttemptError, ReachesHelm, Skips, OptionsFor, PluginHashKey,
      HelmChartCondition;
    if n == 0 {
      NoneVisited(hash, w, env);
      SameAsItself(w.helm, name);
    } else {
      WalkSpares(hash, w, env, n - 1, name);
      PartlyVisitedStep(hash, w, env, n - 1);
      var before := PartlyVisited(hash, w, env, n - 1).helm;
      AttemptEffect(w.cfg, w.plugins[n - 1], env(n - 1), before, name);
      if PartlyVisited(hash, w, env, n).helm != before {
        SameChains(w.helm, before, PartlyVisited(hash, w, env, n).helm, name);
      }
    }
  }

  /** However far the walk has come, each plugin's release is as its own attempt left it. */
  lemma {:induction false} WalkOwns(hash: string -> string, w: World, env: nat -> Attempt, n: nat, i: nat)
    requires n <= |w.plugins| && i < |w.plugins| && DistinctPlugins(w.plugins)
    ensures SameRelease(if i < n then OwnAttempt(hash, w, env, i) else w.helm, PartlyVisited(hash, w, env, n).helm,
                        w.plugins[i].chart.name)
  {
    hide PartlyVisited, SameRelease, AfterAttempt, AttemptError, ReachesHelm, Skips, OptionsFor, PluginHashKey,
      HelmChartCondition;
    var name := w.plugins[i].chart.name;
    if n <= i {
      WalkSpares(hash, w, env, n, name);
    } else {
      var before := PartlyVisited(hash, w, env, n - 1).helm;
      WalkOwns(hash, w, env, n - 1, i);
      PartlyVisitedStep(hash, w, env, n - 1);
      SkipDecidedBefore(hash, w, env, n - 1);
      if i == n - 1 {
        AttemptOnSame(w.cfg, w.plugins[i], env(i), w.helm, before);
      } else {
        AttemptEffect(w.cfg, w.plugins[n - 1], env(n - 1), before, name);
        if PartlyVisited(hash, w, env, n).helm != before {
          SameChains(OwnAttempt(hash, w, env, i), before, PartlyVisited(hash, w, env, n).helm, name);
        }
      }
    }
  }

  lemma {:induction false} RemovalTreats(names: set<string>, cs: seq<PluginCondition>, deletes: nat -> HelmResult,
                                         g: Progress, name: string)
    ensures
      var h := RemoveAll(names, cs, deletes, g).helm;
      && (name in names ==> SameRelease(g.helm, h, name))
      && (name in StaleNames(names, cs) ==> Broken(h, name))
  {
    hide PluginHashKey;
    if cs != [] {
      var init, c := cs[..|cs| - 1], cs[|cs| - 1];
      RemovalTreats(names, init, deletes, g, name);
      var before := RemoveAll(names, init, deletes, g);
      LastCallSnoc(before.helm.calls, Delete(c.pluginName, deletes(|cs| - 1).Done?), name);
    }
  }

  lemma {:induction false} DeletionOnSame(h: HelmState, h': HelmState, name: string, r: HelmResult, other: string)
    ensures SameRelease(Deleted(h, name, r), Deleted(h', name, r), name)
    ensures other != name ==> SameRelease(h, Deleted(h, name, r), other)
    ensures Broken(Deleted(h, name, r), name)
  {
    hide LastCall;
    LastCallSnoc(h.calls, Delete(name, r.Done?), name);
    LastCallSnoc(h'.calls, Delete(name, r.Done?), name);
    LastCallSnoc(h.calls, Delete(name, r.Done?), other);
  }

  /** The removal loop leaves each stale release as its own deletion does. */
  lemma {:induction false} RemovalOwns(names: set<string>, cs: seq<PluginCondition>, n: nat, deletes: nat -> HelmResult,
                                       g: Progress, k: nat)
    requires n <= |cs| && k < |cs| && WellFormed(cs) && Stale(names, cs[k])
    ensures SameRelease(if k < n then Deleted(g.helm, cs[k].pluginName, deletes(k)) else g.helm,
                        RemoveAll(names, cs[..n], deletes, g).helm, cs[k].pluginName)
  {
    hide SameRelease, Deleted, PluginHashKey, Stale;
    var name := cs[k].pluginName;
    if n == 0 {
      SameAsItself(g.helm, name);
    } else {
      RemovalOwns(names, cs, n - 1, deletes, g, k);
      assert cs[..n][..n - 1] == cs[..n - 1] && cs[..n][n - 1] == cs[n - 1];
      var before := RemoveAll(names, cs[..n - 1], deletes, g).helm;
      var c := cs[n - 1];
      if Stale(names, c) {
        assert RemoveAll(names, cs[..n], deletes, g).helm == Deleted(before, c.pluginName, deletes(n - 1));
        if k == n - 1 {
          DeletionOnSame(g.helm, before, name, deletes(k), name);
        } else {
          DeletionOnSame(before, before, c.pluginName, deletes(n - 1), name);
          SameChains(if k < n then Deleted(g.helm, name, deletes(k)) else g.helm, before,
                     Deleted(before, c.pluginName, deletes(n - 1)), name);
        }
      } else {
        assert RemoveAll(names, cs[..n], deletes, g) == RemoveAll(names, cs[..n - 1], deletes, g);
      }
    }
  }

  lemma {:induction false} VisitedIsAll(hash: string -> string, w: World, env: nat -> Attempt)
    ensures Visited(hash, w, env) == PartlyVisited(hash, w, env, |w.plugins|)
  {
    assert w.plugins[..|w.plugins|] == w.plugins;
  }

  /** A reconciliation that completes is one that stops as late as can be. */
  lemma {:induction false} CompletedIsStopped(hash: string -> string, w: World, env: nat -> Attempt,
                                              deletes: nat -> HelmResult)
    ensures Redeployed(hash, w, env, deletes).helm == Stopped(hash, w, env, deletes, |w.plugins|, |w.conditions|).helm
  {
  }

  /** Wherever the reconciliation stops, each plugin's release is as its own attempt left it. */
  lemma {:induction false} StoppedOwns(hash: string -> string, w: World, env: nat -> Attempt,
                                       deletes: nat -> HelmResult, visits: nat, removals: nat, i: nat)
    requires i < |w.plugins| && DistinctPlugins(w.plugins)
    ensures SameRelease(if i < visits then OwnAttempt(hash, w, env, i) else w.helm,
                        Stopped(hash, w, env, deletes, visits, removals).helm, w.plugins[i].chart.name)
  {
    hide PartlyVisited, SameRelease, OwnAttempt, Visited, RemoveAll;
    var n, name := |w.plugins|, w.plugins[i].chart.name;
    if visits < n {
      WalkOwns(hash, w, env, visits, i);
    } else {
      WalkOwns(hash, w, env, n, i);
      VisitedIsAll(hash, w, env);
      var g := Visited(hash, w, env);
      var checked := if removals < |w.conditions| then w.conditions[..removals] else w.conditions;
      assert name in Names(w.plugins);
      RemovalTreats(Names(w.plugins), checked, deletes, g, name);
      SameChains(OwnAttempt(hash, w, env, i), g.helm, RemoveAll(Names(w.plugins), checked, deletes, g).helm, name);
    }
  }

  /** And each stale release as its own deletion left it, if it came so far. */
  lemma {:induction false} StoppedRemoves(hash: string -> string, w: World, env: nat -> Attempt,
                                          deletes: nat -> HelmResult, visits: nat, removals: nat, k: nat)
    requires k < |w.conditions| && WellFormed(w.conditions) && Stale(Names(w.plugins), w.conditions[k])
    ensures
      var name := w.conditions[k].pluginName;
      SameRelease(if |w.plugins| <= visits && k < removals then Deleted(w.helm, name, deletes(k)) else w.helm,
                  Stopped(hash, w, env, deletes, visits, removals).helm, name)
  {
    hide PartlyVisited, SameRelease, Visited, RemoveAll, Deleted, Names;
    var n, cs, name := |w.plugins|, w.conditions, w.conditions[k].pluginName;
    NamedInSpec(w.plugins, name);
    if visits < n {
      WalkSpares(hash, w, env, visits, name);
    } else {
      WalkSpares(hash, w, env, n, name);
      VisitedIsAll(hash, w, env);
      var g, m := Visited(hash, w, env), if removals < |cs| then removals else |cs|;
      assert cs[..|cs|] == cs;
      RemovalOwns(Names(w.plugins), cs, m, deletes, g, k);
      var h := RemoveAll(Names(w.plugins), cs[..m], deletes, g).helm;
      if k < removals {
        DeletionOnSame(w.helm, g.helm, name, deletes(k), name);
        SameChains(Deleted(w.helm, name, deletes(k)), Deleted(g.helm, name, deletes(k)), h, name);
      } else {
        SameChains(w.helm, g.helm, h, name);
      }
    }
  }

  lemma {:induction false} OwnIsTreated(hash: string -> string, w: World, env: nat -> Attempt, i: nat, h: HelmState)
    requires i < |w.plugins| && SameRelease(OwnAttempt(hash, w, env, i), h, w.plugins[i].chart.name)
    ensures Treated(hash, w, env, i, h)
  {
    hide AfterAttempt, AttemptError, ReachesHelm, Skips, OptionsFor, LastCall;
    AttemptEffect(w.cfg, w.plugins[i], env(i), w.helm, w.plugins[i].chart.name);
  }

  lemma {:induction false} StoppedTreats(hash: string -> string, w: World, env: nat -> Attempt,
                                         deletes: nat -> HelmResult, visits: nat, removals: nat, i: nat)
    requires i < |w.plugins| && DistinctPlugins(w.plugins)
    ensures
      var h := Stopped(hash, w, env, deletes, visits, removals).helm;
      if i < visits then Treated(hash, w, env, i, h) else SameRelease(w.helm, h, w.plugins[i].chart.name)
  {
    hide Stopped, Treated, SameRelease, OwnAttempt;
    StoppedOwns(hash, w, env, deletes, visits, removals, i);
    if i < visits {
      OwnIsTreated(hash, w, env, i, Stopped(hash, w, env, deletes, visits, removals).helm);
    }
  }

  lemma {:induction false} RedeployTreats(hash: string -> string, w: World, env: nat -> Attempt,
                                          deletes: nat -> HelmResult, i: nat)
    requires i < |w.plugins| && DistinctPlugins(w.plugins)
    ensures
      var w' := Redeployed(hash, w, env, deletes);
      && Treated(hash, w, env, i, w'.helm)
      && HashStored(w'.annotations, w.plugins[i].chart.name, hash(w.plugins[i].values))
  {
    hide Redeployed, Stopped, Treated, PluginHashKey;
    var name := w.plugins[i].chart.name;
    CompletedIsStopped(hash, w, env, deletes);
    StoppedTreats(hash, w, env, deletes, |w.plugins|, |w.conditions|, i);
    var key := PluginHashKey(name);
    RedeployAligns(hash, w, env, deletes, key);
    PluginHashKeyInjective(w.plugins[LastWithKey(w.plugins, |w.plugins|, key)].chart.name, name);
  }

  lemma {:induction false} OptionsKeepValues(cfg: HelmConfig, p: Plugin)
    ensures OptionsFor(cfg, p).values == p.values
  {
  }

  // ----- Exactly which patches keep True conditions backed -----

  ghost predicate NoneStale(w: World, n: nat) {
    forall i | 0 <= i < |w.conditions| && i < n :: !Stale(Names(w.plugins), w.conditions[i])
  }

  /** What must be known before a patch that does not fully land: nothing, if it lands; if it is
      lost, that every plugin visited and recorded as deployed is skipped or does not reach Helm,
      and that none was removed; if only the status is lost, that each of them is skipped or
      succeeds, and none was removed; if only the annotations are lost, that each attempt fails
      or finds its hash stored. */
  ghost predicate Harmless(hash: string -> string, w: World, env: nat -> Attempt, landing: Landing) {
    match landing
    case Landed => true
    case Lost(visits, removals) =>
      && (|w.plugins| <= visits ==> NoneStale(w, removals))
      && forall i | 0 <= i < |w.plugins| && i < visits && IsTrueFor(w.conditions, w.plugins[i].chart.name) ::
        Skips(hash, w.annotations, w.conditions, w.plugins[i]) || !ReachesHelm(w.cfg, env(i))
    case AnnotationsOnly =>
      && NoneStale(w, |w.conditions|)
      && forall i | 0 <= i < |w.plugins| && IsTrueFor(w.conditions, w.plugins[i].chart.name) ::
        Skips(hash, w.annotations, w.conditions, w.plugins[i]) || AttemptError(w.cfg, env(i)) == None
    case StatusOnly =>
      forall i | 0 <= i < |w.plugins| ::
        || Skips(hash, w.annotations, w.conditions, w.plugins[i])
        || AttemptError(w.cfg, env(i)) != None
        || HashStored(w.annotations, w.plugins[i].chart.name, hash(w.plugins[i].values))
  }

  lemma {:induction false} SkippedWasStored(hash: string -> string, w: World, i: nat)
    requires i < |w.plugins| && Sound(hash, w) && Skips(hash, w.annotations, w.conditions, w.plugins[i])
    ensures Backed(hash, w.annotations, w.helm, w.plugins[i].chart.name)
    ensures HashStored(w.annotations, w.plugins[i].chart.name, hash(w.plugins[i].values))
  {
    var k := PluginConditionIndex(w.conditions, w.plugins[i].chart.name, HELM_CHART_DEPLOYED);
    assert w.conditions[k].status == ConditionTrue;
  }

  lemma {:induction false} AttemptErrorOfStopped(cfg: HelmConfig, a: Attempt)
    ensures !ReachesHelm(cfg, a) ==> AttemptError(cfg, a).Some?
  {
  }

  /** When the status lands, a True condition is backed exactly if the annotation that goes
      with it is the hash of the plugin's values. */
  lemma {:induction false} BackedIfStatusLands(hash: string -> string, w: World, env: nat -> Attempt,
                                               deletes: nat -> HelmResult, i: nat, annotations: map<string, string>)
    requires i < |w.plugins| && DistinctPlugins(w.plugins) && Sound(hash, w)
    ensures
      var w', p := Redeployed(hash, w, env, deletes), w.plugins[i];
      && |w'.conditions| == |w.plugins|
      && w'.conditions[i].pluginName == p.chart.name
      && (w'.conditions[i].status == ConditionTrue <==>
            Skips(hash, w.annotations, w.conditions, p) || AttemptError(w.cfg, env(i)) == None)
      && (w'.conditions[i].status == ConditionTrue ==>
            (Backed(hash, annotations, w'.helm, p.chart.name) <==>
              HashStored(annotations, p.chart.name, hash(p.values))))
  {
    hide Redeployed, PluginHashKey, OptionsFor, AttemptError, ReachesHelm, HashStored;
    var p := w.plugins[i];
    RedeployTreats(hash, w, env, deletes, i);
    RedeployDecides(hash, w, env, deletes);
    RedeployAligns(hash, w, env, deletes, "");
    assert Redeployed(hash, w, env, deletes).conditions[i] == NewCondition(hash, w, env, i);
    OptionsKeepValues(w.cfg, p);
    AttemptErrorOfStopped(w.cfg, env(i));
    if Skips(hash, w.annotations, w.conditions, p) {
      SkippedWasStored(hash, w, i);
      SameStored(w.annotations, p.chart.name, hash(p.values), hash(w.helm.deployed[p.chart.name].values));
    }
  }

  lemma {:induction false} SameStored(annotations: map<string, string>, name: string, a: string, b: string)
    ensures HashStored(annotations, name, a) && HashStored(annotations, name, b) ==> a == b
    ensures HashStored(annotations, name, a) && a == b ==> HashStored(annotations, name, b)
  {
  }

  lemma {:induction false} SoundHere(hash: string -> string, w: World, name: string)
    requires Sound(hash, w) && IsTrueFor(w.conditions, name)
    ensures Backed(hash, w.annotations, w.helm, name)
  {
    hide Backed;
    var k := PluginConditionIndex(w.conditions, name, HELM_CHART_DEPLOYED);
    assert w.conditions[k].status == ConditionTrue;
  }

  lemma {:induction false} BackedAsBefore(hash: string -> string, annotations: map<string, string>, h: HelmState,
                                          h': HelmState, name: string)
    requires SameRelease(h, h', name)
    ensures Backed(hash, annotations, h', name) <==> Backed(hash, annotations, h, name)
  {
  }

  /** When nothing lands, an old True condition of a plugin in the spec stays backed exactly if
      the plugin was not visited, or skipped, or stopped before Helm. */
  lemma {:induction false} BackedIfLost(hash: string -> string, w: World, env: nat -> Attempt,
                                        deletes: nat -> HelmResult, visits: nat, removals: nat, i: nat)
    requires i < |w.plugins| && DistinctPlugins(w.plugins) && Sound(hash, w)
    requires IsTrueFor(w.conditions, w.plugins[i].chart.name)
    ensures
      Backed(hash, w.annotations, Stopped(hash, w, env, deletes, visits, removals).helm, w.plugins[i].chart.name) <==>
        visits <= i || Skips(hash, w.annotations, w.conditions, w.plugins[i]) || !ReachesHelm(w.cfg, env(i))
  {
    hide Stopped, PluginHashKey, OptionsFor, AttemptError, ReachesHelm, HashStored, SameRelease, LastCall, Sound;
    var p, name := w.plugins[i], w.plugins[i].chart.name;
    var h := Stopped(hash, w, env, deletes, visits, removals).helm;
    StoppedTreats(hash, w, env, deletes, visits, removals, i);
    SoundHere(hash, w, name);
    OptionsKeepValues(w.cfg, p);
    var stored := hash(w.helm.deployed[name].values);
    SameStored(w.annotations, name, hash(p.values), stored);
    SameStored(w.annotations, name, stored, hash(p.values));
    if SameRelease(w.helm, h, name) {
      BackedAsBefore(hash, w.annotations, w.helm, h, name);
    }
  }

  /** When only the annotations land, exactly if it was skipped or upgraded. */
  lemma {:induction false} BackedIfStatusLost(hash: string -> string, w: World, env: nat -> Attempt,
                                              deletes: nat -> HelmResult, i: nat)
    requires i < |w.plugins| && DistinctPlugins(w.plugins) && Sound(hash, w)
    requires IsTrueFor(w.conditions, w.plugins[i].chart.name)
    ensures
      var w', p := Redeployed(hash, w, env, deletes), w.plugins[i];
      Backed(hash, w'.annotations, w'.helm, p.chart.name) <==>
        Skips(hash, w.annotations, w.conditions, p) || AttemptError(w.cfg, env(i)) == None
  {
    hide Redeployed, PluginHashKey, OptionsFor, AttemptError, ReachesHelm, HashStored, LastCall, Sound;
    var p, name := w.plugins[i], w.plugins[i].chart.name;
    var w' := Redeployed(hash, w, env, deletes);
    RedeployTreats(hash, w, env, deletes, i);
    OptionsKeepValues(w.cfg, p);
    AttemptErrorOfStopped(w.cfg, env(i));
    SoundHere(hash, w, name);
    var stored := hash(w.helm.deployed[name].values);
    SameStored(w.annotations, name, hash(p.values), stored);
    SameStored(w.annotations, name, stored, hash(p.values));
    SameStored(w'.annotations, name, hash(p.values), stored);
  }

  /** A removed plugin's condition is not backed any more, an unreached one's still is. */
  lemma {:induction false} StaleBackedExactly(hash: string -> string, w: World, env: nat -> Attempt,
                                              deletes: nat -> HelmResult, visits: nat, removals: nat, k: nat,
                                              annotations: map<string, string>)
    requires k < |w.conditions| && WellFormed(w.conditions) && Stale(Names(w.plugins), w.conditions[k])
    ensures
      var h, name := Stopped(hash, w, env, deletes, visits, removals).helm, w.conditions[k].pluginName;
      Backed(hash, annotations, h, name) <==>
        !(|w.plugins| <= visits && k < removals) && Backed(hash, annotations, w.helm, name)
  {
    hide Stopped, Backed, SameRelease, Deleted, Broken;
    var h, name := Stopped(hash, w, env, deletes, visits, removals).helm, w.conditions[k].pluginName;
    StoppedRemoves(hash, w, env, deletes, visits, removals, k);
    if |w.plugins| <= visits && k < removals {
      var d := Deleted(w.helm, name, deletes(k));
      DeletionOnSame(w.helm, w.helm, name, deletes(k), name);
      BackedAsBefore(hash, annotations, d, h, name);
      BrokenIsNotBacked(hash, annotations, d, name);
    } else {
      BackedAsBefore(hash, annotations, w.helm, h, name);
    }
  }

  lemma {:induction false} BrokenIsNotBacked(hash: string -> string, annotations: map<string, string>, h: HelmState,
                                             name: string)
    requires Broken(h, name)
    ensures !Backed(hash, annotations, h, name)
  {
    hide HashStored, LastCall;
  }

  /** From a sound state, a reconciliation leaves a sound one exactly if its patch is harmless. */
  lemma {:induction false} HarmlessExactly(hash: string -> string, w: World, env: nat -> Attempt,
                                           deletes: nat -> HelmResult, landing: Landing)
    requires DistinctPlugins(w.plugins) && WellFormed(w.conditions) && Sound(hash, w)
    ensures Sound(hash, Step(hash, w, Reconcile(env, deletes, landing))) <==> Harmless(hash, w, env, landing)
  {
    var w' := Redeployed(hash, w, env, deletes);
    match landing {
      case Landed => LandedIsSound(hash, w, env, deletes);
      case StatusOnly => StatusOnlyExactly(hash, w, env, deletes);
      case Lost(visits, removals) => LostExactly(hash, w, env, deletes, visits, removals);
      case AnnotationsOnly => StatusLostExactly(hash, w, env, deletes);
    }
  }

  lemma {:induction false} LandedIsSound(hash: string -> string, w: World, env: nat -> Attempt,
                                         deletes: nat -> HelmResult)
    requires DistinctPlugins(w.plugins) && Sound(hash, w)
    ensures Sound(hash, Redeployed(hash, w, env, deletes))
  {
    hide Redeployed, Backed, HashStored, Skips;
    var w' := Redeployed(hash, w, env, deletes);
    RedeployAligns(hash, w, env, deletes, "");
    forall i | 0 <= i < |w'.conditions| && w'.conditions[i].status == ConditionTrue
      ensures Backed(hash, w'.annotations, w'.helm, w'.conditions[i].pluginName)
    {
      BackedIfStatusLands(hash, w, env, deletes, i, w'.annotations);
      RedeployTreats(hash, w, env, deletes, i);
    }
  }

  lemma {:induction false} StatusOnlyExactly(hash: string -> string, w: World, env: nat -> Attempt,
                                             deletes: nat -> HelmResult)
    requires DistinctPlugins(w.plugins) && Sound(hash, w)
    ensures
      var w' := Redeployed(hash, w, env, deletes);
      AllBacked(hash, w.annotations, w'.helm, w'.conditions) <==> Harmless(hash, w, env, StatusOnly)
  {
    hide Redeployed, Backed, HashStored, AttemptError;
    var w' := Redeployed(hash, w, env, deletes);
    RedeployAligns(hash, w, env, deletes, "");
    forall i | 0 <= i < |w.plugins|
      ensures
        (w'.conditions[i].status == ConditionTrue ==>
          Backed(hash, w.annotations, w'.helm, w'.conditions[i].pluginName)) <==>
        || Skips(hash, w.annotations, w.conditions, w.plugins[i])
        || AttemptError(w.cfg, env(i)) != None
        || HashStored(w.annotations, w.plugins[i].chart.name, hash(w.plugins[i].values))
    {
      BackedIfStatusLands(hash, w, env, deletes, i, w.annotations);
    }
  }

  lemma {:induction false} LostExactly(hash: string -> string, w: World, env: nat -> Attempt,
                                       deletes: nat -> HelmResult, visits: nat, removals: nat)
    requires DistinctPlugins(w.plugins) && WellFormed(w.conditions) && Sound(hash, w)
    ensures AllBacked(hash, w.annotations, Stopped(hash, w, env, deletes, visits, removals).helm, w.conditions) <==>
            Harmless(hash, w, env, Lost(visits, removals))
  {
    hide Stopped, Backed, AllBacked, Skips, ReachesHelm, IsTrueFor, Names, WellFormed, Sound;
    var h := Stopped(hash, w, env, deletes, visits, removals).helm;
    var stale := (k: nat) => |w.plugins| <= visits && k < removals;
    var fine := (i: nat) => visits <= i || i >= |w.plugins| || Skips(hash, w.annotations, w.conditions, w.plugins[i])
                            || !ReachesHelm(w.cfg, env(i));
    forall k: nat | k < |w.conditions| && Stale(Names(w.plugins), w.conditions[k])
      ensures Backed(hash, w.annotations, h, w.conditions[k].pluginName) <==> !stale(k)
    {
      StaleBackedExactly(hash, w, env, deletes, visits, removals, k, w.annotations);
      SoundAt(hash, w, k);
    }
    forall i: nat | i < |w.plugins| && IsTrueFor(w.conditions, w.plugins[i].chart.name)
      ensures Backed(hash, w.annotations, h, w.plugins[i].chart.name) <==> fine(i)
    {
      BackedIfLost(hash, w, env, deletes, visits, removals, i);
    }
    OldConditionsBackedExactly(hash, w, w.annotations, h, stale, fine);
  }

  lemma {:induction false} SoundAt(hash: string -> string, w: World, k: nat)
    requires k < |w.conditions| && Sound(hash, w)
    ensures w.conditions[k].status == ConditionTrue ==> Backed(hash, w.annotations, w.helm, w.conditions[k].pluginName)
  {
  }

  lemma {:induction false} StatusLostExactly(hash: string -> string, w: World, env: nat -> Attempt,
                                             deletes: nat -> HelmResult)
    requires DistinctPlugins(w.plugins) && WellFormed(w.conditions) && Sound(hash, w)
    ensures
      var w' := Redeployed(hash, w, env, deletes);
      AllBacked(hash, w'.annotations, w'.helm, w.conditions) <==> Harmless(hash, w, env, AnnotationsOnly)
  {
    hide Redeployed, Stopped, Backed, AllBacked, Skips, AttemptError, IsTrueFor, Names, WellFormed, Sound;
    var w' := Redeployed(hash, w, env, deletes);
    var n, m := |w.plugins|, |w.conditions|;
    var fine := (i: nat) => i >= |w.plugins| || Skips(hash, w.annotations, w.conditions, w.plugins[i])
                            || AttemptError(w.cfg, env(i)) == None;
    CompletedIsStopped(hash, w, env, deletes);
    forall k: nat | k < |w.conditions| && Stale(Names(w.plugins), w.conditions[k])
      ensures !Backed(hash, w'.annotations, w'.helm, w.conditions[k].pluginName)
    {
      StaleBackedExactly(hash, w, env, deletes, n, m, k, w'.annotations);
    }
    forall i: nat | i < |w.plugins| && IsTrueFor(w.conditions, w.plugins[i].chart.name)
      ensures Backed(hash, w'.annotations, w'.helm, w.plugins[i].chart.name) <==> fine(i)
    {
      BackedIfStatusLost(hash, w, env, deletes, i);
    }
    OldConditionsBackedExactly(hash, w, w'.annotations, w'.helm, (k: nat) => true, fine);
  }

  /** The old True conditions are all backed exactly if no stale one was removed and those of
      the spec's plugins are. */
  lemma {:induction false} OldConditionsBackedExactly(hash: string -> string, w: World,
                                                      annotations: map<string, string>, h: HelmState,
                                                      removed: nat -> bool, backed: nat -> bool)
    requires WellFormed(w.conditions)
    requires forall k: nat | k < |w.conditions| && Stale(Names(w.plugins), w.conditions[k]) ::
               Backed(hash, annotations, h, w.conditions[k].pluginName) <==> !removed(k)
    requires forall i: nat | i < |w.plugins| && IsTrueFor(w.conditions, w.plugins[i].chart.name) ::
               Backed(hash, annotations, h, w.plugins[i].chart.name) <==> backed(i)
    ensures AllBacked(hash, annotations, h, w.conditions) <==>
            && (forall k: nat | k < |w.conditions| && Stale(Names(w.plugins), w.conditions[k]) :: !removed(k))
            && (forall i: nat | i < |w.plugins| && IsTrueFor(w.conditions, w.plugins[i].chart.name) :: backed(i))
  {
    hide Backed, IsTrueFor, Names;
    TrueConditionsCorrespond(w);
    forall k | 0 <= k < |w.conditions| && w.conditions[k].status == ConditionTrue
      ensures Stale(Names(w.plugins), w.conditions[k]) ||
              exists i: nat | i < |w.plugins| :: w.plugins[i].chart.name == w.conditions[k].pluginName
    {
      NamedInSpec(w.plugins, w.conditions[k].pluginName);
    }
  }

  lemma {:induction false} NamedInSpec(ps: seq<Plugin>, name: string)
    ensures name in Names(ps) <==> exists i | 0 <= i < |ps| :: ps[i].chart.name == name
  {
  }

  lemma {:induction false} TrueConditionsCorrespond(w: World)
    requires WellFormed(w.conditions)
    ensures forall k | 0 <= k < |w.conditions| ::
              IsTrueFor(w.conditions, w.conditions[k].pluginName) <==> w.conditions[k].status == ConditionTrue
    ensures forall i | 0 <= i < |w.plugins| && IsTrueFor(w.conditions, w.plugins[i].chart.name) ::
              exists k | 0 <= k < |w.conditions| :: w.conditions[k].pluginName == w.plugins[i].chart.name
                                                   && w.conditions[k].status == ConditionTrue
  {
    forall k | 0 <= k < |w.conditions|
      ensures IsTrueFor(w.conditions, w.conditions[k].pluginName) <==> w.conditions[k].status == ConditionTrue
    {
      TrueAt(w.conditions, k);
    }
    forall i | 0 <= i < |w.plugins| && IsTrueFor(w.conditions, w.plugins[i].chart.name)
      ensures exists k | 0 <= k < |w.conditions| :: w.conditions[k].pluginName == w.plugins[i].chart.name
                                                   && w.conditions[k].status == ConditionTrue
    {
      var k := PluginConditionIndex(w.conditions, w.plugins[i].chart.name, HELM_CHART_DEPLOYED);
      assert w.conditions[k].pluginName == w.plugins[i].chart.name && w.conditions[k].status == ConditionTrue;
    }
  }

  // ----- Skips are sound over whole runs -----

  /** Every spec names each plugin once. */
  ghost predicate DistinctSpecs(w: World, events: seq<Event>) {
    DistinctPlugins(w.plugins) && forall i | 0 <= i < |events| && events[i].Edit? :: DistinctPlugins(events[i].plugins)
  }

  ghost predicate AllHarmless(hash: string -> string, w: World, events: seq<Event>) {
    if events == [] then true
    else
      var init, e := events[..|events| - 1], events[|events| - 1];
      AllHarmless(hash, w, init) && (e.Reconcile? ==> Harmless(hash, Run(hash, w, init), e.env, e.landing))
  }

  ghost predicate SoundThroughout(hash: string -> string, w: World, events: seq<Event>) {
    Sound(hash, Run(hash, w, events)) && (events != [] ==> SoundThroughout(hash, w, events[..|events| - 1]))
  }

  lemma {:induction false} StepKeepsForm(hash: string -> string, w: World, e: Event)
    requires DistinctPlugins(w.plugins) && WellFormed(w.conditions)
    ensures WellFormed(Step(hash, w, e).conditions)
    ensures Step(hash, w, e).plugins == if e.Edit? then e.plugins else w.plugins
  {
    hide VisitAll, RemoveAll, Stopped;
    if e.Reconcile? {
      SpecKept(hash, w, e.env, e.deletes);
      RedeployAligns(hash, w, e.env, e.deletes, "");
    }
  }

  lemma {:induction false} RunKeepsForm(hash: string -> string, w: World, events: seq<Event>)
    requires WellFormed(w.conditions) && DistinctSpecs(w, events)
    ensures WellFormed(Run(hash, w, events).conditions) && DistinctPlugins(Run(hash, w, events).plugins)
  {
    hide Step;
    if events != [] {
      var init, e := events[..|events| - 1], events[|events| - 1];
      assert DistinctSpecs(w, init) by { assert forall i | 0 <= i < |init| :: init[i] == events[i]; }
      RunKeepsForm(hash, w, init);
      StepKeepsForm(hash, Run(hash, w, init), e);
    }
  }

  /** Along any run of edits and reconciliations, Helm failing at will, every True condition
      always stands for a successful upgrade that is still the last Helm call for its plugin
      and whose values' hash is stored: exactly if every patch on the way is harmless. */
  lemma {:induction false} SoundExactlyIfHarmless(hash: string -> string, w: World, events: seq<Event>)
    requires w.conditions == [] && DistinctSpecs(w, events)
    ensures SoundThroughout(hash, w, events) <==> AllHarmless(hash, w, events)
  {
    hide Step, Harmless, Backed;
    if events != [] {
      var init, e := events[..|events| - 1], events[|events| - 1];
      assert DistinctSpecs(w, init) by { assert forall i | 0 <= i < |init| :: init[i] == events[i]; }
      SoundExactlyIfHarmless(hash, w, init);
      RunKeepsForm(hash, w, init);
      var v := Run(hash, w, init);
      if AllHarmless(hash, w, init) {
        if e.Reconcile? {
          HarmlessExactly(hash, v, e.env, e.deletes, e.landing);
        } else {
          EditKeepsSound(hash, v, e);
        }
      }
    }
  }

  lemma {:induction false} EditKeepsSound(hash: string -> string, w: World, e: Event)
    requires e.Edit? && Sound(hash, w)
    ensures Sound(hash, Step(hash, w, e))
  {
  }

  /** A plugin that the next reconciliation would skip already runs its current values, up
      to equality of hashes. */
  lemma {:induction false} SkippedPluginsAreDeployed(hash: string -> string, w: World, events: seq<Event>, p: Plugin)
    requires w.conditions == [] && DistinctSpecs(w, events) && AllHarmless(hash, w, events)
    requires
      var v := Run(hash, w, events);
      p in v.plugins && Skips(hash, v.annotations, v.conditions, p)
    ensures
      var v := Run(hash, w, events);
      && p.chart.name in v.helm.deployed
      && LastCall(v.helm.calls, p.chart.name) == Some(Upgrade(p.chart.name, v.helm.deployed[p.chart.name], true))
      && hash(v.helm.deployed[p.chart.name].values) == hash(p.values)
  {
    SoundExactlyIfHarmless(hash, w, events);
    var v := Run(hash, w, events);
    var k := PluginConditionIndex(v.conditions, p.chart.name, HELM_CHART_DEPLOYED);
    assert v.conditions[k].status == ConditionTrue;
  }

  // ----- Coming back after a removal -----

  /** An attempt on the plugin succeeds and the status lands. */
  ghost predicate Promotes(w: World, e: Event, name: string) {
    && e.Reconcile? && (e.landing == Landed || e.landing == StatusOnly)
    && exists i: nat :: i < |w.plugins| && w.plugins[i].chart.name == name && AttemptError(w.cfg, e.env(i)) == None
  }

  ghost predicate NeverPromoted(hash: string -> string, w: World, events: seq<Event>, name: string) {
    if events == [] then true
    else
      var init := events[..|events| - 1];
      NeverPromoted(hash, w, init, name) && !Promotes(Run(hash, w, init), events[|events| - 1], name)
  }

  ghost predicate NeverTrue(hash: string -> string, w: World, events: seq<Event>, name: string) {
    && !IsTrueFor(Run(hash, w, events).conditions, name)
    && (events != [] ==> NeverTrue(hash, w, events[..|events| - 1], name))
  }

  lemma {:induction false} TrueIfAttemptSucceeds(hash: string -> string, w: World, env: nat -> Attempt, i: nat)
    requires i < |w.plugins| && !IsTrueFor(w.conditions, w.plugins[i].chart.name)
    ensures NewCondition(hash, w, env, i).status == ConditionTrue <==> AttemptError(w.cfg, env(i)) == None
    ensures NewCondition(hash, w, env, i).pluginName == w.plugins[i].chart.name
  {
    hide AttemptError, PluginConditionIndex;
  }

  lemma {:induction false} NotRecorded(cs: seq<PluginCondition>, name: string)
    requires forall i | 0 <= i < |cs| :: cs[i].pluginName != name
    ensures !IsTrueFor(cs, name)
  {
  }

  lemma {:induction false} TrueExactlyIfPromoted(hash: string -> string, w: World, e: Event, name: string)
    requires DistinctPlugins(w.plugins) && WellFormed(w.conditions) && !IsTrueFor(w.conditions, name)
    ensures IsTrueFor(Step(hash, w, e).conditions, name) <==> Promotes(w, e, name)
  {
    hide Redeployed, AttemptError, IsTrueFor, NewCondition, WellFormed;
    if e.Reconcile? {
      StatusOfRedeployed(hash, w, e.env, e.deletes, name);
    }
  }

  lemma {:induction false} StatusOfRedeployed(hash: string -> string, w: World, env: nat -> Attempt,
                                              deletes: nat -> HelmResult, name: string)
    requires DistinctPlugins(w.plugins) && !IsTrueFor(w.conditions, name)
    ensures IsTrueFor(Redeployed(hash, w, env, deletes).conditions, name) <==>
            exists i: nat :: i < |w.plugins| && w.plugins[i].chart.name == name && AttemptError(w.cfg, env(i)) == None
  {
    hide Redeployed, AttemptError, IsTrueFor, NewCondition, Attempted, DeleteCalls, Visited, StaleNames;
    var cs := Redeployed(hash, w, env, deletes).conditions;
    RedeployAligns(hash, w, env, deletes, "");
    RedeployDecides(hash, w, env, deletes);
    if i: nat :| i < |w.plugins| && w.plugins[i].chart.name == name {
      TrueIfAttemptSucceeds(hash, w, env, i);
      assert cs[i] == NewCondition(hash, w, env, i);
      TrueAt(cs, i);
    } else {
      NotRecorded(cs, name);
    }
  }

  /** A plugin not recorded as deployed stays so, through any edits, attempts and landings,
      exactly until an attempt on it succeeds and the status lands. */
  lemma {:induction false} UnrecordedUntilDeployed(hash: string -> string, w: World, events: seq<Event>, name: string)
    requires WellFormed(w.conditions) && DistinctSpecs(w, events) && !IsTrueFor(w.conditions, name)
    ensures NeverTrue(hash, w, events, name) <==> NeverPromoted(hash, w, events, name)
  {
    hide Step, IsTrueFor, Promotes, WellFormed;
    if events != [] {
      var init, e := events[..|events| - 1], events[|events| - 1];
      assert DistinctSpecs(w, init) by { assert forall i | 0 <= i < |init| :: init[i] == events[i]; }
      UnrecordedUntilDeployed(hash, w, init, name);
      RunKeepsForm(hash, w, init);
      if NeverTrue(hash, w, init, name) {
        TrueExactlyIfPromoted(hash, Run(hash, w, init), e, name);
      }
    }
  }

  /** A plugin that was not in the spec of a landed reconciliation is not skipped afterwards,
      whatever annotation an earlier life of it has left behind and whatever edits and landings
      follow, until an attempt on it succeeds and the status lands. */
  lemma {:induction false} LeftoverNeverSuppresses(hash: string -> string, w: World, env: nat -> Attempt,
                                                   deletes: nat -> HelmResult, events: seq<Event>, p: Plugin)
    requires DistinctSpecs(w, events)
    requires forall i | 0 <= i < |w.plugins| :: w.plugins[i].chart.name != p.chart.name
    requires NeverPromoted(hash, Step(hash, w, Reconcile(env, deletes, Landed)), events, p.chart.name)
    ensures
      var v := Run(hash, Step(hash, w, Reconcile(env, deletes, Landed)), events);
      !Skips(hash, v.annotations, v.conditions, p)
  {
    hide Redeployed, HashStored;
    RedeployAligns(hash, w, env, deletes, "");
    var v := Step(hash, w, Reconcile(env, deletes, Landed));
    SpecKept(hash, w, env, deletes);
    assert forall i | 0 <= i < |v.conditions| :: v.conditions[i].pluginName == w.plugins[i].chart.name != p.chart.name;
    UnrecordedUntilDeployed(hash, v, events, p.chart.name);
    assert NeverTrue(hash, v, events, p.chart.name);
  }
}
