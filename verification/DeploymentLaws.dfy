/** What one reconciliation of the plugins guarantees, from any state. */
module DeploymentLaws {
  import opened Text
  import opened Api
  import opened Deployment

  // ----- Skipping and alignment -----

  ghost predicate DistinctPlugins(ps: seq<Plugin>) {
    forall i, j :: 0 <= i < j < |ps| ==> ps[i].chart.name != ps[j].chart.name
  }

  /** Which plugins a reconciliation attempts: those it does not skip. */
  ghost function Attempted(hash: string -> string, w: World, n: nat): seq<string>
    requires n <= |w.plugins|
  {
    if n == 0 then []
    else
      var p := w.plugins[n - 1];
      Attempted(hash, w, n - 1) + if Skips(hash, w.annotations, w.conditions, p) then [] else [p.chart.name]
  }

  /** The condition a reconciliation leaves for the i-th plugin. */
  ghost function NewCondition(hash: string -> string, w: World, env: nat -> Attempt, i: nat): PluginCondition
    requires i < |w.plugins|
  {
    var p := w.plugins[i];
    if Skips(hash, w.annotations, w.conditions, p) then
      w.conditions[PluginConditionIndex(w.conditions, p.chart.name, HELM_CHART_DEPLOYED)]
    else HelmChartCondition(p.chart.name, AttemptError(w.cfg, env(i)), env(i).now)
  }

  function PartlyVisited(hash: string -> string, w: World, env: nat -> Attempt, n: nat): Progress
    requires n <= |w.plugins|
  {
    VisitAll(hash, w.cfg, w.conditions, w.plugins[..n], env, Progress(w.annotations, w.helm, w.attempted, []))
  }

  lemma {:induction false} PartlyVisitedStep(hash: string -> string, w: World, env: nat -> Attempt, n: nat)
    requires n < |w.plugins|
    ensures PartlyVisited(hash, w, env, n + 1) ==
            Visit(hash, w.cfg, w.conditions, w.plugins[n], env(n), PartlyVisited(hash, w, env, n))
    ensures PartlyVisited(hash, w, env, 0) == Progress(w.annotations, w.helm, w.attempted, [])
    ensures PartlyVisited(hash, w, env, |w.plugins|) == Visited(hash, w, env)
  {
    hide Visit;
    VisitOneMore(hash, w.cfg, w.conditions, w.plugins, n, env, Progress(w.annotations, w.helm, w.attempted, []));
    assert w.plugins[..|w.plugins|] == w.plugins && w.plugins[..0] == [];
  }

  /** Conditions line up with the spec in name and type, whichever way each plugin went. */
  lemma {:induction false} VisitsAlign(hash: string -> string, w: World, env: nat -> Attempt, n: nat)
    requires n <= |w.plugins|
    ensures
      var cs := PartlyVisited(hash, w, env, n).conditions;
      |cs| == n && forall i | 0 <= i < n ::
        cs[i].pluginName == w.plugins[i].chart.name && cs[i].conditionType == HELM_CHART_DEPLOYED
  {
    hide PluginHashKey, AfterAttempt, AttemptError, VisitAll, Skips;
    if n == 0 {
      VisitNone(hash, w.cfg, w.conditions, env, Progress(w.annotations, w.helm, w.attempted, []));
      assert w.plugins[..0] == [];
    } else {
      VisitsAlign(hash, w, env, n - 1);
      PartlyVisitedStep(hash, w, env, n - 1);
      SkipFinds(hash, PartlyVisited(hash, w, env, n - 1).annotations, w.conditions, w.plugins[n - 1]);
    }
  }

  lemma {:induction false} SkipFinds(hash: string -> string, annotations: map<string, string>, cs: seq<PluginCondition>,
                                     p: Plugin)
    ensures Skips(hash, annotations, cs, p) ==> PluginConditionIndex(cs, p.chart.name, HELM_CHART_DEPLOYED) != -1
  {
  }

  /** The last of the first n plugins with a given annotation key, or -1. */
  ghost function LastWithKey(ps: seq<Plugin>, n: nat, key: string): (k: int)
    requires n <= |ps|
    ensures -1 <= k < n
    ensures k == -1 ==> forall i | 0 <= i < n :: PluginHashKey(ps[i].chart.name) != key
    ensures k != -1 ==> PluginHashKey(ps[k].chart.name) == key
                        && forall i | k < i < n :: PluginHashKey(ps[i].chart.name) != key
  {
    if n == 0 then -1
    else if PluginHashKey(ps[n - 1].chart.name) == key then n - 1
    else LastWithKey(ps, n - 1, key)
  }

  /** Each visited plugin's annotation is the hash of the values of the last plugin of that
      name; all other annotations are untouched. */
  lemma {:induction false} VisitsAnnotate(hash: string -> string, w: World, env: nat -> Attempt, n: nat, key: string)
    requires n <= |w.plugins|
    ensures
      var k := LastWithKey(w.plugins, n, key);
      At(PartlyVisited(hash, w, env, n).annotations, key) ==
      if k == -1 then At(w.annotations, key) else Some(hash(w.plugins[k].values))
  {
    hide PluginHashKey, AfterAttempt, AttemptError, VisitAll, Skips;
    if n == 0 {
      VisitNone(hash, w.cfg, w.conditions, env, Progress(w.annotations, w.helm, w.attempted, []));
      assert w.plugins[..0] == [];
    } else {
      VisitsAnnotate(hash, w, env, n - 1, key);
      PartlyVisitedStep(hash, w, env, n - 1);
    }
  }

  /** With distinct names: which plugins are skipped is decided by the state before the
      reconciliation, and every condition is the old one or tells the attempt's outcome. */
  lemma {:induction false} VisitsDecide(hash: string -> string, w: World, env: nat -> Attempt, n: nat)
    requires n <= |w.plugins| && DistinctPlugins(w.plugins)
    ensures
      var g := PartlyVisited(hash, w, env, n);
      && |g.conditions| == n
      && (forall i | 0 <= i < n :: g.conditions[i] == NewCondition(hash, w, env, i))
      && g.attempted == w.attempted + Attempted(hash, w, n)
  {
    hide PluginHashKey, AfterAttempt, AttemptError, HelmChartCondition, VisitAll, Skips, PartlyVisited,
      PluginConditionIndex;
    if n > 0 {
      VisitsDecide(hash, w, env, n - 1);
      PartlyVisitedStep(hash, w, env, n - 1);
      SkipDecidedBefore(hash, w, env, n - 1);
    } else {
      NoneVisited(hash, w, env);
    }
  }

  lemma {:induction false} NoneVisited(hash: string -> string, w: World, env: nat -> Attempt)
    ensures PartlyVisited(hash, w, env, 0) == Progress(w.annotations, w.helm, w.attempted, [])
  {
    VisitNone(hash, w.cfg, w.conditions, env, Progress(w.annotations, w.helm, w.attempted, []));
    assert w.plugins[..0] == [];
  }

  lemma {:induction false} SkipDecidedBefore(hash: string -> string, w: World, env: nat -> Attempt, n: nat)
    requires n < |w.plugins| && DistinctPlugins(w.plugins)
    ensures Skips(hash, PartlyVisited(hash, w, env, n).annotations, w.conditions, w.plugins[n]) ==
            Skips(hash, w.annotations, w.conditions, w.plugins[n])
  {
    hide PluginHashKey, VisitAll, PartlyVisited;
    var key := PluginHashKey(w.plugins[n].chart.name);
    VisitsAnnotate(hash, w, env, n, key);
    var k := LastWithKey(w.plugins, n, key);
    if k != -1 {
      PluginHashKeyInjective(w.plugins[k].chart.name, w.plugins[n].chart.name);
    }
  }

  // ----- Removal -----

  /** The old conditions that name a deployed plugin absent from the spec, in order. */
  ghost function StaleNames(names: set<string>, cs: seq<PluginCondition>): seq<string> {
    if cs == [] then []
    else StaleNames(names, cs[..|cs| - 1]) + if Stale(names, cs[|cs| - 1]) then [cs[|cs| - 1].pluginName] else []
  }

  /** The calls delete exactly the named releases, in order. */
  ghost predicate DeleteCalls(calls: seq<HelmCall>, names: seq<string>) {
    |calls| == |names| && forall i | 0 <= i < |names| :: calls[i].Delete? && calls[i].name == names[i]
  }

  lemma {:induction false} StaleNamesAreStale(names: set<string>, cs: seq<PluginCondition>)
    ensures forall n :: n in StaleNames(names, cs) <==>
              exists i | 0 <= i < |cs| :: Stale(names, cs[i]) && cs[i].pluginName == n
    ensures forall c :: Stale(names, c) <==>
              c.pluginName !in names && c.conditionType == "HelmChartDeployed" && c.status == ConditionTrue
    ensures forall n | n in StaleNames(names, cs) :: n !in names
  {
    if cs != [] {
      var init, c := cs[..|cs| - 1], cs[|cs| - 1];
      StaleNamesAreStale(names, init);
      assert forall i | 0 <= i < |init| :: init[i] == cs[i];
      forall n | n in StaleNames(names, cs)
        ensures exists i | 0 <= i < |cs| :: Stale(names, cs[i]) && cs[i].pluginName == n
      {
        if n in StaleNames(names, init) {
          var i :| 0 <= i < |init| && Stale(names, init[i]) && init[i].pluginName == n;
          assert Stale(names, cs[i]);
        } else {
          assert Stale(names, cs[|cs| - 1]);
        }
      }
    }
  }

  ghost predicate KeyOfSome(names: seq<string>, key: string) {
    exists i | 0 <= i < |names| :: PluginHashKey(names[i]) == key
  }

  lemma {:induction false} KeyOfSomeSnoc(names: seq<string>, n: string, key: string)
    ensures KeyOfSome(names + [n], key) <==> KeyOfSome(names, key) || PluginHashKey(n) == key
  {
    hide PluginHashKey;
    assert (names + [n])[|names|] == n;
    if i :| 0 <= i < |names| && PluginHashKey(names[i]) == key {
      assert (names + [n])[i] == names[i];
    }
  }

  /** The removal loop deletes the stale releases and their annotations and nothing else. */
  lemma {:induction false} RemovalIsExact(names: set<string>, cs: seq<PluginCondition>, deletes: nat -> HelmResult,
                                          g: Progress, key: string)
    ensures
      var r := RemoveAll(names, cs, deletes, g);
      && r.conditions == g.conditions && r.attempted == g.attempted
      && g.helm.calls <= r.helm.calls
      && DeleteCalls(r.helm.calls[|g.helm.calls|..], StaleNames(names, cs))
      && At(r.annotations, key) == if KeyOfSome(StaleNames(names, cs), key) then None else At(g.annotations, key)
  {
    hide PluginHashKey, LeftBehind, KeyOfSome;
    if cs == [] {
      assert !KeyOfSome([], key) by { NoKeyOfNone(key); }
    } else {
      var init, c := cs[..|cs| - 1], cs[|cs| - 1];
      RemovalIsExact(names, init, deletes, g, key);
      var before, r := RemoveAll(names, init, deletes, g), RemoveAll(names, cs, deletes, g);
      if Stale(names, c) {
        var added := before.helm.calls[|g.helm.calls|..];
        assert r.helm.calls[|g.helm.calls|..] == added + [Delete(c.pluginName, deletes(|cs| - 1).Done?)];
        KeyOfSomeSnoc(StaleNames(names, init), c.pluginName, key);
      } else {
        assert StaleNames(names, cs) == StaleNames(names, init);
      }
    }
  }

  lemma {:induction false} NoKeyOfNone(key: string)
    ensures !KeyOfSome([], key)
  {
  }

  /** With nothing stale the removal loop does nothing. */
  lemma {:induction false} NothingStale(names: set<string>, cs: seq<PluginCondition>, deletes: nat -> HelmResult,
                                        g: Progress)
    requires forall i | 0 <= i < |cs| :: !Stale(names, cs[i])
    ensures RemoveAll(names, cs, deletes, g) == g
  {
    if cs != [] {
      NothingStale(names, cs[..|cs| - 1], deletes, g);
      assert !Stale(names, cs[|cs| - 1]);
    }
  }

  // ----- One reconciliation as a whole -----

  lemma {:induction false} StaleIsNotInSpec(ps: seq<Plugin>, cs: seq<PluginCondition>, k: nat, key: string)
    requires k < |ps| && PluginHashKey(ps[k].chart.name) == key
    ensures !KeyOfSome(StaleNames(Names(ps), cs), key)
  {
    hide PluginHashKey, StaleNames;
    var names := StaleNames(Names(ps), cs);
    StaleNamesAreStale(Names(ps), cs);
    assert ps[k].chart.name in Names(ps);
    forall i | 0 <= i < |names| ensures PluginHashKey(names[i]) != key {
      assert names[i] in names;
      PluginHashKeyInjective(names[i], ps[k].chart.name);
    }
  }

  /** From any state, repeated names or not: afterwards the conditions match the spec index by
      index; an annotation is the hash of the current values if its plugin is in the spec,
      gone if its plugin was removed, and otherwise untouched. */
  lemma {:induction false} RedeployAligns(hash: string -> string, w: World, env: nat -> Attempt,
                                          deletes: nat -> HelmResult, key: string)
    ensures
      var w' := Redeployed(hash, w, env, deletes);
      var k := LastWithKey(w.plugins, |w.plugins|, key);
      && |w'.conditions| == |w.plugins|
      && (forall i | 0 <= i < |w.plugins| ::
            && w'.conditions[i].pluginName == w.plugins[i].chart.name
            && w'.conditions[i].conditionType == HELM_CHART_DEPLOYED)
      && At(w'.annotations, key) ==
         (if k != -1 then Some(hash(w.plugins[k].values))
          else if KeyOfSome(StaleNames(Names(w.plugins), w.conditions), key) then None
          else At(w.annotations, key))
  {
    hide PluginHashKey, VisitAll, RemoveAll, KeyOfSome, Names, StaleNames;
    var n := |w.plugins|;
    assert PartlyVisited(hash, w, env, n) == Visited(hash, w, env) by { assert w.plugins[..n] == w.plugins; }
    VisitsAlign(hash, w, env, n);
    VisitsAnnotate(hash, w, env, n, key);
    RemovalIsExact(Names(w.plugins), w.conditions, deletes, Visited(hash, w, env), key);
    var k := LastWithKey(w.plugins, n, key);
    if k != -1 {
      StaleIsNotInSpec(w.plugins, w.conditions, k, key);
    }
  }

  /** With distinct names: every condition is the old one of a skipped plugin or tells how the
      attempt went; exactly the plugins not skipped are attempted, in order; and the calls end
      with the deletion of exactly the plugins that left the spec while deployed. */
  lemma {:induction false} RedeployDecides(hash: string -> string, w: World, env: nat -> Attempt,
                                           deletes: nat -> HelmResult)
    requires DistinctPlugins(w.plugins)
    ensures
      var w' := Redeployed(hash, w, env, deletes);
      var g := Visited(hash, w, env);
      && |w'.conditions| == |w.plugins|
      && (forall i | 0 <= i < |w.plugins| :: w'.conditions[i] == NewCondition(hash, w, env, i))
      && w'.attempted == w.attempted + Attempted(hash, w, |w.plugins|)
      && g.helm.calls <= w'.helm.calls
      && DeleteCalls(w'.helm.calls[|g.helm.calls|..], StaleNames(Names(w.plugins), w.conditions))
  {
    hide PluginHashKey, VisitAll, RemoveAll, Names, StaleNames, NewCondition, Attempted, DeleteCalls;
    var n := |w.plugins|;
    assert PartlyVisited(hash, w, env, n) == Visited(hash, w, env) by { assert w.plugins[..n] == w.plugins; }
    VisitsDecide(hash, w, env, n);
    RemovalIsExact(Names(w.plugins), w.conditions, deletes, Visited(hash, w, env), "");
  }

  lemma {:induction false} SpecKept(hash: string -> string, w: World, env: nat -> Attempt, deletes: nat -> HelmResult)
    ensures Redeployed(hash, w, env, deletes).plugins == w.plugins && Redeployed(hash, w, env, deletes).cfg == w.cfg
  {
  }
}
