/** Specs that name a plugin more than once: exactly when skips stay safe even so. */
module RepeatedPlugins {
  import opened Text
  import opened Api
  import opened Deployment
  import opened DeploymentLaws
  import opened DeploymentRuns
  import opened SafeSkips

  /** The hash that the i-th entry finds: that of the entry of the same name before it. */
  ghost function StoredBefore(hash: string -> string, w: World, i: nat): Option<string>
    requires i < |w.plugins|
  {
    var key := PluginHashKey(w.plugins[i].chart.name);
    var k := LastWithKey(w.plugins, i, key);
    if k == -1 then At(w.annotations, key) else Some(hash(w.plugins[k].values))
  }

  ghost predicate SkipsEntry(hash: string -> string, w: World, i: nat)
    requires i < |w.plugins|
  {
    IsTrueFor(w.conditions, w.plugins[i].chart.name) && StoredBefore(hash, w, i) == Some(hash(w.plugins[i].values))
  }

  lemma {:induction false} EntryIsSkipped(hash: string -> string, w: World, env: nat -> Attempt, i: nat)
    requires i < |w.plugins|
    ensures Skips(hash, PartlyVisited(hash, w, env, i).annotations, w.conditions, w.plugins[i]) <==>
            SkipsEntry(hash, w, i)
  {
    hide PluginHashKey, PartlyVisited, IsTrueFor;
    VisitsAnnotate(hash, w, env, i, PluginHashKey(w.plugins[i].chart.name));
  }

  /** Of the first n entries, the last of that name whose attempt reaches Helm, or -1. */
  ghost function LastTouch(hash: string -> string, w: World, env: nat -> Attempt, n: nat, name: string): (t: int)
    requires n <= |w.plugins|
    ensures -1 <= t < n
    ensures t != -1 ==> w.plugins[t].chart.name == name
  {
    if n == 0 then -1
    else if w.plugins[n - 1].chart.name == name && !SkipsEntry(hash, w, n - 1) && ReachesHelm(w.cfg, env(n - 1))
      then n - 1
    else LastTouch(hash, w, env, n - 1, name)
  }

  /** What entry t makes of Helm, or what there was before the walk. */
  ghost function OwnEntry(w: World, env: nat -> Attempt, t: int): HelmState
    requires -1 <= t < |w.plugins|
  {
    if t == -1 then w.helm else AfterAttempt(w.cfg, w.plugins[t], env(t), w.helm)
  }

  /** Each release ends as the last entry that reached Helm left it. */
  lemma {:induction false} WalkLeaves(hash: string -> string, w: World, env: nat -> Attempt, n: nat, name: string)
    requires n <= |w.plugins|
    ensures SameRelease(OwnEntry(w, env, LastTouch(hash, w, env, n, name)), PartlyVisited(hash, w, env, n).helm, name)
  {
    hide PartlyVisited, SkipsEntry, Skips, AfterAttempt, AttemptError, ReachesHelm, OptionsFor, PluginHashKey,
      HelmChartCondition, SameRelease, Running, Broken;
    if n == 0 {
      NoneVisited(hash, w, env);
      SameAsItself(w.helm, name);
    } else {
      WalkLeaves(hash, w, env, n - 1, name);
      PartlyVisitedStep(hash, w, env, n - 1);
      EntryIsSkipped(hash, w, env, n - 1);
      var p, before := w.plugins[n - 1], PartlyVisited(hash, w, env, n - 1).helm;
      var t := LastTouch(hash, w, env, n - 1, name);
      AttemptEffect(w.cfg, p, env(n - 1), before, name);
      var h := PartlyVisited(hash, w, env, n).helm;
      if LastTouch(hash, w, env, n, name) == n - 1 {
        AttemptOnSame(w.cfg, p, env(n - 1), w.helm, before);
      } else if h != before {
        SameChains(OwnEntry(w, env, t), before, h, name);
      }
    }
  }

  /** An entry's condition is True exactly if it was skipped or its attempt succeeded. */
  lemma {:induction false} WalkRecords(hash: string -> string, w: World, env: nat -> Attempt, n: nat, i: nat)
    requires i < n <= |w.plugins|
    ensures
      var cs := PartlyVisited(hash, w, env, n).conditions;
      && |cs| == n
      && (cs[i].status == ConditionTrue <==> SkipsEntry(hash, w, i) || AttemptError(w.cfg, env(i)) == None)
  {
    hide PartlyVisited, SkipsEntry, AfterAttempt, AttemptError, PluginHashKey;
    VisitsAlign(hash, w, env, n);
    VisitsAlign(hash, w, env, n - 1);
    PartlyVisitedStep(hash, w, env, n - 1);
    if i < n - 1 {
      WalkRecords(hash, w, env, n - 1, i);
    } else {
      EntryIsSkipped(hash, w, env, i);
    }
  }

  ghost predicate FirstOf(ps: seq<Plugin>, i: nat) {
    i < |ps| && forall j | 0 <= j < i :: ps[j].chart.name != ps[i].chart.name
  }

  ghost predicate LastOf(ps: seq<Plugin>, i: nat) {
    i < |ps| && forall j | i < j < |ps| :: ps[j].chart.name != ps[i].chart.name
  }

  /** For the first entry f and the last entry l of a name: if f ends as deployed, then the last
      entry that reached Helm, if any, has left the release with the values of l. */
  ghost predicate SafeEntries(d: Demand, hash: string -> string, w: World, env: nat -> Attempt, f: nat, l: nat)
    requires f < |w.plugins| && l < |w.plugins|
  {
    var name, t := w.plugins[l].chart.name, LastTouch(hash, w, env, |w.plugins|, w.plugins[l].chart.name);
    SkipsEntry(hash, w, f) || AttemptError(w.cfg, env(f)) == None ==>
      Runs(d, hash, OwnEntry(w, env, t), name, hash(w.plugins[l].values))
  }

  /** What the release runs then: the values of that entry if its upgrade succeeded and, if it
      failed, by the stricter demand nothing and otherwise what the failure left there. */
  lemma {:induction false} EntryRuns(d: Demand, hash: string -> string, w: World, env: nat -> Attempt, t: nat,
                                     digest: string)
    requires t < |w.plugins| && ReachesHelm(w.cfg, env(t))
    ensures
      var h, p := OwnEntry(w, env, t), w.plugins[t];
      var deployed := At(h.deployed, p.chart.name);
      Runs(d, hash, h, p.chart.name, digest) <==>
        if AttemptError(w.cfg, env(t)) == None then hash(p.values) == digest
        else d.ValuesDeployed? && deployed.Some? && hash(deployed.value.values) == digest
  {
    hide AfterAttempt, AttemptError, ReachesHelm, OptionsFor, Running, Broken;
    var h, p := OwnEntry(w, env, t), w.plugins[t];
    AttemptEffect(w.cfg, p, env(t), w.helm, p.chart.name);
    if AttemptError(w.cfg, env(t)) == None {
      RunsOptions(d, hash, h, w.cfg, p, digest);
    } else {
      BrokenRunsNothing(hash, h, p.chart.name, digest);
    }
  }

  lemma {:induction false} FirstCondition(cs: seq<PluginCondition>, ps: seq<Plugin>, f: nat)
    requires FirstOf(ps, f) && |cs| == |ps|
    requires forall i | 0 <= i < |ps| ::
               cs[i].pluginName == ps[i].chart.name && cs[i].conditionType == HELM_CHART_DEPLOYED
    ensures IsTrueFor(cs, ps[f].chart.name) <==> cs[f].status == ConditionTrue
  {
    assert cs[f].pluginName == ps[f].chart.name;
  }

  lemma {:induction false} NameRuns(d: Demand, hash: string -> string, w: World, env: nat -> Attempt,
                                    deletes: nat -> HelmResult, l: nat)
    requires l < |w.plugins|
    ensures
      var name, digest := w.plugins[l].chart.name, hash(w.plugins[l].values);
      Runs(d, hash, Redeployed(hash, w, env, deletes).helm, name, digest) <==>
        Runs(d, hash, OwnEntry(w, env, LastTouch(hash, w, env, |w.plugins|, name)), name, digest)
  {
    hide RemoveAll, PartlyVisited, Visited, LastTouch, OwnEntry, Runs, SameRelease;
    var n, name := |w.plugins|, w.plugins[l].chart.name;
    var g, h := Visited(hash, w, env), OwnEntry(w, env, LastTouch(hash, w, env, n, name));
    VisitedIsAll(hash, w, env);
    WalkLeaves(hash, w, env, n, name);
    assert name in Names(w.plugins);
    RemovalTreats(Names(w.plugins), w.conditions, deletes, g, name);
    var h' := Redeployed(hash, w, env, deletes).helm;
    SameChains(h, g.helm, h', name);
    RunsAsBefore(d, hash, h, h', name, hash(w.plugins[l].values));
  }

  /** The name is recorded as deployed exactly if its first entry ends so, and its stored hash is
      that of its last entry. */
  lemma {:induction false} NameRecorded(hash: string -> string, w: World, env: nat -> Attempt,
                                        deletes: nat -> HelmResult, f: nat, l: nat)
    requires FirstOf(w.plugins, f) && LastOf(w.plugins, l) && w.plugins[f].chart.name == w.plugins[l].chart.name
    ensures
      var w', name := Redeployed(hash, w, env, deletes), w.plugins[l].chart.name;
      && HashStored(w'.annotations, name, hash(w.plugins[l].values))
      && (IsTrueFor(w'.conditions, name) <==> SkipsEntry(hash, w, f) || AttemptError(w.cfg, env(f)) == None)
  {
    hide PluginHashKey, RemoveAll, PartlyVisited, Visited, AttemptError, SkipsEntry, IsTrueFor, KeyOfSome, StaleNames;
    var n, name, key := |w.plugins|, w.plugins[l].chart.name, PluginHashKey(w.plugins[l].chart.name);
    RedeployAligns(hash, w, env, deletes, key);
    PluginHashKeyInjective(w.plugins[LastWithKey(w.plugins, n, key)].chart.name, name);
    VisitedIsAll(hash, w, env);
    WalkRecords(hash, w, env, n, f);
    RemovalIsExact(Names(w.plugins), w.conditions, deletes, Visited(hash, w, env), key);
    FirstCondition(Redeployed(hash, w, env, deletes).conditions, w.plugins, f);
  }

  lemma {:induction false} NameIsSafe(d: Demand, hash: string -> string, w: World, env: nat -> Attempt,
                                      deletes: nat -> HelmResult, f: nat, l: nat)
    requires FirstOf(w.plugins, f) && LastOf(w.plugins, l) && w.plugins[f].chart.name == w.plugins[l].chart.name
    ensures
      var w', name := Redeployed(hash, w, env, deletes), w.plugins[l].chart.name;
      && HashStored(w'.annotations, name, hash(w.plugins[l].values))
      && ((IsTrueFor(w'.conditions, name) ==> Runs(d, hash, w'.helm, name, hash(w.plugins[l].values))) <==>
            SafeEntries(d, hash, w, env, f, l))
  {
    hide Redeployed, HashStored, IsTrueFor, Runs, SkipsEntry, AttemptError, LastTouch, OwnEntry;
    NameRuns(d, hash, w, env, deletes, l);
    NameRecorded(hash, w, env, deletes, f, l);
  }

  /** From any state and with any names, after a landed reconciliation no plugin can be skipped
      wrongly, exactly if the entries of each name are safe. */
  lemma {:induction false} LandedSafeExactly(d: Demand, hash: string -> string, w: World, env: nat -> Attempt,
                                             deletes: nat -> HelmResult)
    ensures SafeToSkip(d, hash, Step(hash, w, Reconcile(env, deletes, Landed))) <==>
            forall f: nat, l: nat | FirstOf(w.plugins, f) && LastOf(w.plugins, l)
              && w.plugins[f].chart.name == w.plugins[l].chart.name :: SafeEntries(d, hash, w, env, f, l)
  {
    hide Redeployed, SafeEntries, Runs, IsTrueFor, PluginHashKey;
    var w' := Redeployed(hash, w, env, deletes);
    if SafeToSkip(d, hash, w') {
      forall f: nat, l: nat | FirstOf(w.plugins, f) && LastOf(w.plugins, l)
        && w.plugins[f].chart.name == w.plugins[l].chart.name
        ensures SafeEntries(d, hash, w, env, f, l)
      {
        NameIsSafe(d, hash, w, env, deletes, f, l);
        assert Skips(hash, w'.annotations, w'.conditions, w.plugins[l]) ==>
          Runs(d, hash, w'.helm, w.plugins[l].chart.name, hash(w.plugins[l].values));
      }
    }
    if forall f: nat, l: nat | FirstOf(w.plugins, f) && LastOf(w.plugins, l)
        && w.plugins[f].chart.name == w.plugins[l].chart.name :: SafeEntries(d, hash, w, env, f, l)
    {
      forall p: Plugin | Skips(hash, w'.annotations, w'.conditions, p)
        ensures Runs(d, hash, w'.helm, p.chart.name, hash(p.values))
      {
        SkippedIsNamed(hash, w, env, deletes, p);
        var f, l := FirstAndLast(w.plugins, p.chart.name);
        NameIsSafe(d, hash, w, env, deletes, f, l);
        SameStored(w'.annotations, p.chart.name, hash(p.values), hash(w.plugins[l].values));
      }
    }
  }

  lemma {:induction false} SkippedIsNamed(hash: string -> string, w: World, env: nat -> Attempt,
                                          deletes: nat -> HelmResult, p: Plugin)
    requires var w' := Redeployed(hash, w, env, deletes); Skips(hash, w'.annotations, w'.conditions, p)
    ensures exists i | 0 <= i < |w.plugins| :: w.plugins[i].chart.name == p.chart.name
  {
    hide Redeployed, HashStored;
    RedeployAligns(hash, w, env, deletes, "");
    var k := PluginConditionIndex(Redeployed(hash, w, env, deletes).conditions, p.chart.name, HELM_CHART_DEPLOYED);
    assert w.plugins[k].chart.name == p.chart.name;
  }

  lemma {:induction false} FirstAndLast(ps: seq<Plugin>, name: string) returns (f: nat, l: nat)
    requires exists i | 0 <= i < |ps| :: ps[i].chart.name == name
    ensures FirstOf(ps, f) && LastOf(ps, l) && ps[f].chart.name == name && ps[l].chart.name == name
  {
    var last := ps[|ps| - 1].chart.name;
    if i :| 0 <= i < |ps| - 1 && ps[i].chart.name == name {
      assert ps[..|ps| - 1][i].chart.name == name;
      f, l := FirstAndLast(ps[..|ps| - 1], name);
      assert forall j | 0 <= j < |ps| - 1 :: ps[..|ps| - 1][j] == ps[j];
      if last == name {
        l := |ps| - 1;
      }
    } else {
      f, l := |ps| - 1, |ps| - 1;
    }
  }
}
