/** With a fixed spec the deployment converges: failing attempts are repeated until they
    succeed, and then nothing is done any more. */
module Convergence {
  import opened Api
  import opened Deployment
  import opened DeploymentLaws

  // ----- Reconciliations with nothing to do -----

  /** Every plugin of the spec is skipped and none was removed. */
  ghost predicate Quiet(hash: string -> string, w: World) {
    && (forall i | 0 <= i < |w.plugins| :: Skips(hash, w.annotations, w.conditions, w.plugins[i]))
    && (forall i | 0 <= i < |w.conditions| :: !Stale(Names(w.plugins), w.conditions[i]))
  }

  lemma {:induction false} QuietWalk(hash: string -> string, w: World, env: nat -> Attempt, n: nat)
    requires n <= |w.plugins| && Quiet(hash, w)
    ensures
      var g := PartlyVisited(hash, w, env, n);
      g.annotations == w.annotations && g.helm == w.helm && g.attempted == w.attempted
  {
    hide VisitAll, PluginHashKey, AfterAttempt;
    if n == 0 {
      VisitNone(hash, w.cfg, w.conditions, env, Progress(w.annotations, w.helm, w.attempted, []));
      assert w.plugins[..0] == [];
    } else {
      QuietWalk(hash, w, env, n - 1);
      PartlyVisitedStep(hash, w, env, n - 1);
      var p := w.plugins[n - 1];
      assert Skips(hash, w.annotations, w.conditions, p);
      assert w.annotations[PluginHashKey(p.chart.name) := hash(p.values)] == w.annotations;
    }
  }

  /** Such a reconciliation calls Helm for nothing and changes no annotation. */
  lemma {:induction false} QuietReconcile(hash: string -> string, w: World, env: nat -> Attempt,
                                          deletes: nat -> HelmResult)
    requires Quiet(hash, w)
    ensures
      var w' := Redeployed(hash, w, env, deletes);
      w' == w.(conditions := w'.conditions)
  {
    hide VisitAll, RemoveAll, Stale;
    QuietWalk(hash, w, env, |w.plugins|);
    assert w.plugins[..|w.plugins|] == w.plugins;
    NothingStale(Names(w.plugins), w.conditions, deletes, Visited(hash, w, env));
  }

  // ----- Repeated reconciliations of one spec -----

  /** The n-th state when every reconciliation's patch lands. */
  function Rounds(hash: string -> string, w: World, envs: nat -> nat -> Attempt, deletes: nat -> nat -> HelmResult,
                  n: nat)
    : World
  {
    if n == 0 then w else Redeployed(hash, Rounds(hash, w, envs, deletes, n - 1), envs(n - 1), deletes(n - 1))
  }

  predicate Fails(cfg: HelmConfig, a: Attempt) {
    AttemptError(cfg, a).Some?
  }

  /** From an empty status, the attempts on the i-th plugin fail f(i) times and then succeed. */
  ghost predicate Setting(w: World, envs: nat -> nat -> Attempt, f: nat -> nat) {
    && w.conditions == [] && DistinctPlugins(w.plugins)
    && forall i: nat | i < |w.plugins| ::
         (forall n: nat | n < f(i) :: Fails(w.cfg, envs(n)(i))) && !Fails(w.cfg, envs(f(i))(i))
  }

  function Count(names: seq<string>, name: string): nat {
    if names == [] then 0 else Count(names[..|names| - 1], name) + if names[|names| - 1] == name then 1 else 0
  }

  function Min(a: nat, b: nat): nat {
    if a < b then a else b
  }

  /** After n rounds: a plugin is True once more rounds have passed than it failed, its hash
      is stored, and it has been attempted once per round until it succeeded. */
  ghost predicate AfterRounds(hash: string -> string, w: World, f: nat -> nat, n: nat, v: World) {
    && v.cfg == w.cfg && v.plugins == w.plugins
    && (if n == 0 then v.conditions == [] else |v.conditions| == |w.plugins|)
    && (forall i: nat | i < |w.plugins| :: PluginAfterRounds(hash, w, f, n, v, i))
  }

  ghost predicate PluginAfterRounds(hash: string -> string, w: World, f: nat -> nat, n: nat, v: World, i: nat)
    requires i < |w.plugins| && (n > 0 ==> |v.conditions| == |w.plugins|)
  {
    var p := w.plugins[i];
    && (n > 0 ==>
          && v.conditions[i].pluginName == p.chart.name
          && v.conditions[i].conditionType == HELM_CHART_DEPLOYED
          && (v.conditions[i].status == ConditionTrue <==> n > f(i))
          && HashStored(v.annotations, p.chart.name, hash(p.values)))
    && Count(v.attempted, p.chart.name) == Count(w.attempted, p.chart.name) + Min(n, f(i) + 1)
  }

  lemma {:induction false} CountConcat(xs: seq<string>, ys: seq<string>, name: string)
    ensures Count(xs + ys, name) == Count(xs, name) + Count(ys, name)
  {
    if ys == [] {
      assert xs + ys == xs;
    } else {
      assert (xs + ys)[..|xs + ys| - 1] == xs + ys[..|ys| - 1];
      CountConcat(xs, ys[..|ys| - 1], name);
    }
  }

  /** Each plugin is attempted once if it is not skipped, and not at all if it is. */
  lemma {:induction false} AttemptedOnce(hash: string -> string, w: World, n: nat, i: nat)
    requires n <= |w.plugins| && i < |w.plugins| && DistinctPlugins(w.plugins)
    ensures Count(Attempted(hash, w, n), w.plugins[i].chart.name) ==
            if i < n && !Skips(hash, w.annotations, w.conditions, w.plugins[i]) then 1 else 0
  {
    hide Skips;
    if n > 0 {
      AttemptedOnce(hash, w, n - 1, i);
      var p := w.plugins[n - 1];
      CountConcat(Attempted(hash, w, n - 1),
                  if Skips(hash, w.annotations, w.conditions, p) then [] else [p.chart.name], w.plugins[i].chart.name);
      assert Count([p.chart.name], w.plugins[i].chart.name) ==
             if p.chart.name == w.plugins[i].chart.name then 1 else 0 by {
        assert [p.chart.name][..0] == [];
      }
      assert n - 1 != i ==> p.chart.name != w.plugins[i].chart.name;
    }
  }

  lemma {:induction false} SkipsAfterRounds(hash: string -> string, w: World, f: nat -> nat, n: nat, v: World, i: nat)
    requires AfterRounds(hash, w, f, n, v) && DistinctPlugins(w.plugins) && i < |w.plugins|
    ensures Skips(hash, v.annotations, v.conditions, w.plugins[i]) <==> n > f(i)
    ensures n > 0 ==> PluginConditionIndex(v.conditions, w.plugins[i].chart.name, HELM_CHART_DEPLOYED) == i
  {
    hide HashStored;
    var name := w.plugins[i].chart.name;
    var k := PluginConditionIndex(v.conditions, name, HELM_CHART_DEPLOYED);
    assert PluginAfterRounds(hash, w, f, n, v, i);
    if n > 0 {
      assert v.conditions[i].pluginName == name && k != -1;
      assert PluginAfterRounds(hash, w, f, n, v, k);
      assert v.conditions[k].pluginName == w.plugins[k].chart.name;
    }
  }

  lemma {:induction false} OneMoreRound(hash: string -> string, w: World, envs: nat -> nat -> Attempt,
                                        deletes: nat -> HelmResult, f: nat -> nat, n: nat, v: World)
    requires Setting(w, envs, f) && AfterRounds(hash, w, f, n, v)
    ensures AfterRounds(hash, w, f, n + 1, Redeployed(hash, v, envs(n), deletes))
  {
    hide Redeployed, PluginAfterRounds, Attempted, NewCondition;
    RedeployAligns(hash, v, envs(n), deletes, "");
    SpecKept(hash, v, envs(n), deletes);
    var v' := Redeployed(hash, v, envs(n), deletes);
    var m := n + 1;
    forall i: nat | i < |w.plugins| ensures PluginAfterRounds(hash, w, f, m, v', i) {
      OneMoreRoundAt(hash, w, envs, deletes, f, n, v, i);
    }
  }

  lemma {:induction false} OneMoreRoundAt(hash: string -> string, w: World, envs: nat -> nat -> Attempt,
                                          deletes: nat -> HelmResult, f: nat -> nat, n: nat, v: World, i: nat)
    requires Setting(w, envs, f) && AfterRounds(hash, w, f, n, v) && i < |w.plugins|
    ensures |Redeployed(hash, v, envs(n), deletes).conditions| == |w.plugins|
    ensures PluginAfterRounds(hash, w, f, n + 1, Redeployed(hash, v, envs(n), deletes), i)
  {
    hide Redeployed, PluginHashKey, Attempted, Skips, HashStored, AttemptError, Count, DeleteCalls, Visited, StaleNames;
    var v' := Redeployed(hash, v, envs(n), deletes);
    RedeployDecides(hash, v, envs(n), deletes);
    RedeployAligns(hash, v, envs(n), deletes, "");
    SkipsAfterRounds(hash, w, f, n, v, i);
    StoredAfterwards(hash, v, envs(n), deletes, i);
    assert PluginAfterRounds(hash, w, f, n, v, i);
    assert v'.conditions[i] == NewCondition(hash, v, envs(n), i);
    CountConcat(v.attempted, Attempted(hash, v, |v.plugins|), w.plugins[i].chart.name);
    AttemptedOnce(hash, v, |v.plugins|, i);
  }

  lemma {:induction false} StoredAfterwards(hash: string -> string, w: World, env: nat -> Attempt,
                                            deletes: nat -> HelmResult, i: nat)
    requires i < |w.plugins| && DistinctPlugins(w.plugins)
    ensures HashStored(Redeployed(hash, w, env, deletes).annotations, w.plugins[i].chart.name,
                       hash(w.plugins[i].values))
  {
    hide Redeployed, PluginHashKey;
    var key := PluginHashKey(w.plugins[i].chart.name);
    RedeployAligns(hash, w, env, deletes, key);
    PluginHashKeyInjective(w.plugins[LastWithKey(w.plugins, |w.plugins|, key)].chart.name, w.plugins[i].chart.name);
  }

  lemma {:induction false} RoundsProgress(hash: string -> string, w: World, envs: nat -> nat -> Attempt,
                                          deletes: nat -> nat -> HelmResult, f: nat -> nat, n: nat)
    requires Setting(w, envs, f)
    ensures AfterRounds(hash, w, f, n, Rounds(hash, w, envs, deletes, n))
  {
    hide AfterRounds, Redeployed;
    if n == 0 {
      assert AfterRounds(hash, w, f, 0, w) by { NothingDoneYet(hash, w, envs, f); }
    } else {
      RoundsProgress(hash, w, envs, deletes, f, n - 1);
      OneMoreRound(hash, w, envs, deletes(n - 1), f, n - 1, Rounds(hash, w, envs, deletes, n - 1));
    }
  }

  lemma {:induction false} NothingDoneYet(hash: string -> string, w: World, envs: nat -> nat -> Attempt, f: nat -> nat)
    requires Setting(w, envs, f)
    ensures AfterRounds(hash, w, f, 0, w)
  {
  }

  /** All plugins are True after n > 0 rounds exactly if each has failed fewer than n times;
      by then each has been attempted exactly once more often than it fails. */
  lemma {:induction false} ConvergesExactly(hash: string -> string, w: World, envs: nat -> nat -> Attempt,
                                            deletes: nat -> nat -> HelmResult, f: nat -> nat, n: nat)
    requires Setting(w, envs, f) && n > 0
    ensures
      var v := Rounds(hash, w, envs, deletes, n);
      && |v.conditions| == |w.plugins|
      && ((forall i | 0 <= i < |v.conditions| :: v.conditions[i].status == ConditionTrue) <==>
            forall i: nat | i < |w.plugins| :: f(i) < n)
      && (forall i: nat | i < |w.plugins| && f(i) < n ::
            Count(v.attempted, w.plugins[i].chart.name) == Count(w.attempted, w.plugins[i].chart.name) + f(i) + 1)
  {
    hide Rounds, HashStored;
    RoundsProgress(hash, w, envs, deletes, f, n);
    var v := Rounds(hash, w, envs, deletes, n);
    forall i: nat | i < |w.plugins|
      ensures v.conditions[i].status == ConditionTrue <==> n > f(i)
      ensures Count(v.attempted, w.plugins[i].chart.name) ==
              Count(w.attempted, w.plugins[i].chart.name) + Min(n, f(i) + 1)
    {
      assert PluginAfterRounds(hash, w, f, n, v, i);
    }
  }

  lemma {:induction false} ConvergedIsQuiet(hash: string -> string, w: World, f: nat -> nat, n: nat, v: World)
    requires DistinctPlugins(w.plugins) && AfterRounds(hash, w, f, n, v)
    requires forall i: nat | i < |w.plugins| :: f(i) < n
    ensures Quiet(hash, v)
  {
    hide Skips, HashStored;
    forall i | 0 <= i < |v.plugins| ensures Skips(hash, v.annotations, v.conditions, v.plugins[i]) {
      SkipsAfterRounds(hash, w, f, n, v, i);
    }
    forall i | 0 <= i < |v.conditions| ensures !Stale(Names(v.plugins), v.conditions[i]) {
      assert PluginAfterRounds(hash, w, f, n, v, i);
      assert w.plugins[i].chart.name in Names(v.plugins);
    }
  }

  /** From then on every reconciliation leaves conditions, annotations and Helm as they are,
      without a single attempt or Helm call, whatever Helm would answer. */
  lemma {:induction false} ConvergedStays(hash: string -> string, w: World, envs: nat -> nat -> Attempt,
                                          deletes: nat -> nat -> HelmResult, f: nat -> nat, n: nat,
                                          env: nat -> Attempt, del: nat -> HelmResult)
    requires Setting(w, envs, f) && n > 0 && forall i: nat | i < |w.plugins| :: f(i) < n
    ensures
      var v := Rounds(hash, w, envs, deletes, n);
      Redeployed(hash, v, env, del) == v
  {
    hide Rounds, Redeployed, Skips, HashStored;
    var v := Rounds(hash, w, envs, deletes, n);
    RoundsProgress(hash, w, envs, deletes, f, n);
    ConvergedIsQuiet(hash, w, f, n, v);
    QuietReconcile(hash, v, env, del);
    RedeployDecides(hash, v, env, del);
    var cs := Redeployed(hash, v, env, del).conditions;
    forall i | 0 <= i < |cs| ensures cs[i] == v.conditions[i] {
      SkipsAfterRounds(hash, w, f, n, v, i);
      assert cs[i] == NewCondition(hash, v, env, i);
    }
  }
}
