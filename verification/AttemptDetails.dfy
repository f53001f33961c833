/** What one attempt does in detail: what it pulls, what Helm is given, which calls it makes and
    what it records. */
module AttemptDetails {
  import opened Text
  import opened Api
  import opened Deployment
  import opened DeploymentLaws
  import opened DeploymentRuns

  /** Every stage that the attempt goes through succeeds. */
  ghost predicate Succeeds(cfg: HelmConfig, a: Attempt) {
    && (cfg.authSecretName != "" ==> a.auth.None?)
    && ("oci://" <= cfg.registry ==> a.pull.None?)
    && a.upgrade.Done?
  }

  lemma {:induction false} SucceedsWithoutError(cfg: HelmConfig, a: Attempt)
    ensures Succeeds(cfg, a) <==> AttemptError(cfg, a) == None
    ensures Succeeds(cfg, a) ==> ReachesHelm(cfg, a)
  {
  }

  lemma {:induction false} OptionsInDetail(cfg: HelmConfig, p: Plugin, a: Attempt)
    ensures
      var o := OptionsFor(cfg, p);
      && o.repo == p.chart.repository && o.registry == cfg.registry && o.values == p.values
      && o.insecureSkipTLSVerify == cfg.insecureSkipTLSVerify
      && if "oci://" <= cfg.registry then
           && o.chart == "" && o.path == "/charts/" + p.chart.name + "/" + p.chart.name + ".tgz"
           && (Succeeds(cfg, a) ==>
                 PullFor(cfg, p, a).Some? && o.path == PulledFile(PullFor(cfg, p, a).value))
           && o.version == if "v" <= p.chart.version then p.chart.version[1..] else p.chart.version
         else o.chart == p.chart.name && o.path == "" && o.version == p.chart.version && PullFor(cfg, p, a) == None
  {
  }

  /** Exactly from an OCI registry a chart is pulled, after the credentials, under the registry's
      address without its scheme and the version without a leading v. */
  lemma {:induction false} PullInDetail(cfg: HelmConfig, p: Plugin, a: Attempt)
    ensures PullFor(cfg, p, a).Some? <==> "oci://" <= cfg.registry && (cfg.authSecretName != "" ==> a.auth.None?)
    ensures PullFor(cfg, p, a).Some? ==>
              && PullFor(cfg, p, a).value.outDir == "/charts/" + p.chart.name
              && PullFor(cfg, p, a).value.outFile == p.chart.name
    ensures PullFor(cfg, p, a).Some? ==>
              PullFor(cfg, p, a).value.ref ==
              cfg.registry[6..] + "/" + p.chart.repository + ":" +
              if "v" <= p.chart.version then p.chart.version[1..] else p.chart.version
  {
  }

  /** After a reconciliation, a plugin whose attempt succeeded runs: from an OCI registry the
      archive that was pulled, with no chart name and the version without a leading v; from any
      other its chart by name, with no path and the version as written. All else is the spec's. */
  lemma {:induction false} SuccessDeploys(hash: string -> string, w: World, env: nat -> Attempt,
                                          deletes: nat -> HelmResult, i: nat)
    requires i < |w.plugins| && DistinctPlugins(w.plugins)
    requires !Skips(hash, w.annotations, w.conditions, w.plugins[i]) && Succeeds(w.cfg, env(i))
    ensures
      var deployed, p := Redeployed(hash, w, env, deletes).helm.deployed, w.plugins[i];
      && p.chart.name in deployed
      && var o := deployed[p.chart.name];
      && o.repo == p.chart.repository && o.registry == w.cfg.registry && o.values == p.values
      && o.insecureSkipTLSVerify == w.cfg.insecureSkipTLSVerify
      && if "oci://" <= w.cfg.registry then
           && PullFor(w.cfg, p, env(i)).Some? && o.chart == "" && o.path == PulledFile(PullFor(w.cfg, p, env(i)).value)
           && o.path == "/charts/" + p.chart.name + "/" + p.chart.name + ".tgz"
           && o.version == if "v" <= p.chart.version then p.chart.version[1..] else p.chart.version
         else o.chart == p.chart.name && o.path == "" && o.version == p.chart.version
  {
    hide Redeployed, OptionsFor, Skips, AttemptError, ReachesHelm, Succeeds, PullFor, PulledFile, Broken, SameRelease,
      LastCall;
    SucceedsWithoutError(w.cfg, env(i));
    RedeployTreats(hash, w, env, deletes, i);
    OptionsInDetail(w.cfg, w.plugins[i], env(i));
  }

  lemma {:induction false} ContainsExactly(s: string, part: string)
    ensures Contains(s, part) <==> exists i | 0 <= i <= |s| :: part <= s[i..]
  {
    if s == "" {
      assert s[0..] == s;
    } else {
      ContainsExactly(s[1..], part);
      assert s[0..] == s;
      if i :| 0 <= i <= |s| - 1 && part <= s[1..][i..] {
        assert s[1..][i..] == s[i + 1..];
      }
      if i :| 0 <= i <= |s| && part <= s[i..] && i > 0 {
        assert s[1..][i - 1..] == s[i..];
      }
    }
  }

  /** The calls of an attempt: none if credentials or pull fail; otherwise an upgrade with its
      outcome, followed by a deletion exactly if it fails saying that there is no deployed release. */
  lemma {:induction false} AttemptCalls(cfg: HelmConfig, p: Plugin, a: Attempt, h: HelmState)
    ensures
      var calls, name := AfterAttempt(cfg, p, a, h).calls, p.chart.name;
      var text := if a.upgrade.Refused? then a.upgrade.message else "";
      if (cfg.authSecretName != "" && a.auth.Some?) || ("oci://" <= cfg.registry && a.pull.Some?) then calls == h.calls
      else if exists i | 0 <= i <= |text| :: "has no deployed releases" <= text[i..] then
        calls == h.calls + [Upgrade(name, OptionsFor(cfg, p), false), Delete(name, a.delete.Done?)]
      else calls == h.calls + [Upgrade(name, OptionsFor(cfg, p), a.upgrade.Done?)]
  {
    hide Contains, OptionsFor;
    var text := if a.upgrade.Refused? then a.upgrade.message else "";
    ContainsExactly(text, "has no deployed releases");
    if exists i | 0 <= i <= |text| :: "has no deployed releases" <= text[i..] {
      assert a.upgrade.Refused?;
    }
  }

  /** What a reconciliation records of a plugin that was not skipped: the first error of the
      stages gone through, or that the chart is installed. */
  lemma {:induction false} AttemptRecorded(hash: string -> string, w: World, env: nat -> Attempt,
                                           deletes: nat -> HelmResult, i: nat)
    requires i < |w.plugins| && DistinctPlugins(w.plugins)
    requires !Skips(hash, w.annotations, w.conditions, w.plugins[i])
    ensures
      var cs, name, a := Redeployed(hash, w, env, deletes).conditions, w.plugins[i].chart.name, env(i);
      && i < |cs| && var c := cs[i];
      && c.conditionType == "HelmChartDeployed" && c.pluginName == name && c.lastTransitionTime == a.now
      && (if w.cfg.authSecretName != "" && a.auth.Some? then c.status == ConditionFalse && c.message == a.auth.value
          else if "oci://" <= w.cfg.registry && a.pull.Some? then
            c.status == ConditionFalse && c.message == a.pull.value
          else if a.upgrade.Refused? then c.status == ConditionFalse && c.message == a.upgrade.message
          else c.status == ConditionTrue && c.message == "Plugin chart " + name + " is installed/upgraded")
  {
    hide Redeployed, Skips, Attempted, DeleteCalls, Visited, StaleNames;
    RedeployDecides(hash, w, env, deletes);
    assert Redeployed(hash, w, env, deletes).conditions[i] == NewCondition(hash, w, env, i);
  }
}
