/** internal/controller/validatorconfig_controller.go: one reconciliation of the plugins of a
    ValidatorConfig against Helm. */
module Deployment {
  import opened Text
  import opened Api

  // ----- The object -----

  datatype Chart = Chart(name: string, repository: string, version: string)

  datatype Plugin = Plugin(chart: Chart, values: string)

  datatype HelmConfig = HelmConfig(registry: string, insecureSkipTLSVerify: bool, authSecretName: string)

  datatype PluginCondition = PluginCondition(
    conditionType: string, pluginName: string, status: ConditionStatus, message: string, lastTransitionTime: int)

  const HELM_CHART_DEPLOYED := "HelmChartDeployed"
  const PLUGIN_VALUES_HASH := "validator/plugin-values"
  const OCI_SCHEME := "oci://"
  const NO_DEPLOYED_RELEASES := "has no deployed releases"

  function PluginHashKey(pluginName: string): string {
    PLUGIN_VALUES_HASH + "-" + pluginName
  }

  lemma {:induction false} PluginHashKeyInjective(a: string, b: string)
    ensures PluginHashKey(a) == "validator/plugin-values-" + a
    ensures PluginHashKey(a) == PluginHashKey(b) <==> a == b
  {
    var prefix := PLUGIN_VALUES_HASH + "-";
    assert prefix == "validator/plugin-values-";
    assert (prefix + a)[|prefix|..] == a && (prefix + b)[|prefix|..] == b;
  }

  // ----- Helm -----

  datatype HelmOptions = HelmOptions(
    chart: string, path: string, repo: string, registry: string, version: string, values: string,
    insecureSkipTLSVerify: bool)

  datatype HelmCall =
    | Upgrade(name: string, options: HelmOptions, ok: bool)
    | Delete(name: string, ok: bool)

  /** What is deployed under each release name, and every call made so far. */
  datatype HelmState = HelmState(deployed: map<string, HelmOptions>, calls: seq<HelmCall>)

  /** The outcome of a call; a failed one leaves anything behind under its release name. */
  datatype HelmResult = Done | Refused(message: string, leftover: Option<HelmOptions>)

  function LeftBehind(deployed: map<string, HelmOptions>, name: string, left: Option<HelmOptions>)
    : map<string, HelmOptions>
  {
    if left.Some? then deployed[name := left.value] else deployed - {name}
  }

  function Upgraded(h: HelmState, name: string, o: HelmOptions, r: HelmResult): HelmState {
    HelmState(LeftBehind(h.deployed, name, if r.Done? then Some(o) else r.leftover),
              h.calls + [Upgrade(name, o, r.Done?)])
  }

  function Deleted(h: HelmState, name: string, r: HelmResult): HelmState {
    HelmState(LeftBehind(h.deployed, name, if r.Done? then None else r.leftover),
              h.calls + [Delete(name, r.Done?)])
  }

  class HelmClient {
    var deployed: map<string, HelmOptions>
    var calls: seq<HelmCall>

    constructor ()
      ensures View() == HelmState(map[], [])
    {
      deployed, calls := map[], [];
    }

    ghost function View(): HelmState
      reads this
    {
      HelmState(deployed, calls)
    }

    method Upgrade(name: string, o: HelmOptions, r: HelmResult) returns (err: Option<string>)
      modifies this
      ensures View() == Upgraded(old(View()), name, o, r)
      ensures err == if r.Done? then None else Some(r.message)
    {
      calls := calls + [HelmCall.Upgrade(name, o, r.Done?)];
      if r.Done? {
        deployed := deployed[name := o];
        return None;
      }
      deployed := LeftBehind(deployed, name, r.leftover);
      return Some(r.message);
    }

    method Delete(name: string, r: HelmResult) returns (err: Option<string>)
      modifies this
      ensures View() == Deleted(old(View()), name, r)
      ensures err == if r.Done? then None else Some(r.message)
    {
      calls := calls + [HelmCall.Delete(name, r.Done?)];
      if r.Done? {
        deployed := deployed - {name};
        return None;
      }
      deployed := LeftBehind(deployed, name, r.leftover);
      return Some(r.message);
    }
  }

  // ----- One attempt to install or upgrade a plugin -----

  /** What the OCI client is asked to pull, and where to. */
  datatype PullRequest = PullRequest(ref: string, outDir: string, outFile: string)

  /** The archive that a pull writes. */
  function PulledFile(r: PullRequest): string {
    r.outDir + "/" + r.outFile + ".tgz"
  }

  /** An attempt pulls the chart if its credentials do not fail and the registry is an OCI registry. */
  function PullFor(cfg: HelmConfig, p: Plugin, a: Attempt): Option<PullRequest> {
    if (cfg.authSecretName == "" || a.auth.None?) && HasPrefix(cfg.registry, OCI_SCHEME) then
      Some(PullRequest(
             TrimPrefix(cfg.registry, OCI_SCHEME) + "/" + p.chart.repository + ":" + TrimPrefix(p.chart.version, "v"),
             "/charts/" + p.chart.name, p.chart.name))
    else None
  }

  /** How the stages of an attempt would turn out: reading the credentials, pulling the
      chart, the upgrade itself, and the deletion that follows one kind of failure. */
  datatype Attempt = Attempt(
    auth: Option<string>, pull: Option<string>, upgrade: HelmResult, delete: HelmResult, now: int)

  function HasPrefix(s: string, prefix: string): bool {
    prefix <= s
  }

  function TrimPrefix(s: string, prefix: string): string {
    if prefix <= s then s[|prefix|..] else s
  }

  function Contains(s: string, part: string): bool {
    part <= s || (s != "" && Contains(s[1..], part))
  }

  function OptionsFor(cfg: HelmConfig, p: Plugin): HelmOptions {
    if HasPrefix(cfg.registry, OCI_SCHEME) then
      HelmOptions("", "/charts/" + p.chart.name + "/" + p.chart.name + ".tgz", p.chart.repository, cfg.registry,
                  TrimPrefix(p.chart.version, "v"), p.values, cfg.insecureSkipTLSVerify)
    else
      HelmOptions(p.chart.name, "", p.chart.repository, cfg.registry, p.chart.version, p.values,
                  cfg.insecureSkipTLSVerify)
  }

  /** The error of an attempt, if any. */
  function AttemptError(cfg: HelmConfig, a: Attempt): Option<string> {
    if cfg.authSecretName != "" && a.auth.Some? then a.auth
    else if HasPrefix(cfg.registry, OCI_SCHEME) && a.pull.Some? then a.pull
    else if a.upgrade.Refused? then Some(a.upgrade.message)
    else None
  }

  predicate ReachesHelm(cfg: HelmConfig, a: Attempt) {
    !(cfg.authSecretName != "" && a.auth.Some?) && !(HasPrefix(cfg.registry, OCI_SCHEME) && a.pull.Some?)
  }

  function AfterAttempt(cfg: HelmConfig, p: Plugin, a: Attempt, h: HelmState): HelmState {
    if !ReachesHelm(cfg, a) then h
    else
      var u := Upgraded(h, p.chart.name, OptionsFor(cfg, p), a.upgrade);
      if a.upgrade.Refused? && Contains(a.upgrade.message, NO_DEPLOYED_RELEASES) then Deleted(u, p.chart.name, a.delete)
      else u
  }

  function HelmChartCondition(name: string, err: Option<string>, now: int): PluginCondition {
    if err.Some? then PluginCondition(HELM_CHART_DEPLOYED, name, ConditionFalse, err.value, now)
    else
      PluginCondition(HELM_CHART_DEPLOYED, name, ConditionTrue, "Plugin chart " + name + " is installed/upgraded", now)
  }

  // ----- The walk over the spec -----

  function PluginConditionIndex(cs: seq<PluginCondition>, name: string, conditionType: string): (k: int)
    ensures -1 <= k < |cs|
    ensures k == -1 ==> forall i | 0 <= i < |cs| :: !(cs[i].conditionType == conditionType && cs[i].pluginName == name)
    ensures k != -1 ==> cs[k].conditionType == conditionType && cs[k].pluginName == name
                        && forall i | 0 <= i < k :: !(cs[i].conditionType == conditionType && cs[i].pluginName == name)
  {
    if cs == [] then -1
    else
      var k := PluginConditionIndex(cs[..|cs| - 1], name, conditionType);
      var c := cs[|cs| - 1];
      if k == -1 && c.conditionType == conditionType && c.pluginName == name then |cs| - 1 else k
  }

  predicate IsTrueFor(cs: seq<PluginCondition>, name: string) {
    var k := PluginConditionIndex(cs, name, HELM_CHART_DEPLOYED);
    k != -1 && cs[k].status == ConditionTrue
  }

  predicate HashStored(annotations: map<string, string>, name: string, h: string) {
    PluginHashKey(name) in annotations && annotations[PluginHashKey(name)] == h
  }

  /** hash stands for SHA-256 followed by base64. A plugin is skipped if it is recorded as
      deployed and the stored hash is that of its values. */
  predicate Skips(hash: string -> string, annotations: map<string, string>, cs: seq<PluginCondition>, p: Plugin) {
    IsTrueFor(cs, p.chart.name) && HashStored(annotations, p.chart.name, hash(p.values))
  }

  /** Annotations, Helm, the plugins attempted and the new conditions, part of the way. */
  datatype Progress = Progress(
    annotations: map<string, string>, helm: HelmState, attempted: seq<string>, conditions: seq<PluginCondition>)

  function Visit(hash: string -> string, cfg: HelmConfig, cs: seq<PluginCondition>, p: Plugin, a: Attempt, g: Progress)
    : Progress
  {
    var name := p.chart.name;
    var annotations := g.annotations[PluginHashKey(name) := hash(p.values)];
    if Skips(hash, g.annotations, cs, p) then
      g.(annotations := annotations,
         conditions := g.conditions + [cs[PluginConditionIndex(cs, name, HELM_CHART_DEPLOYED)]])
    else
      Progress(annotations, AfterAttempt(cfg, p, a, g.helm), g.attempted + [name],
               g.conditions + [HelmChartCondition(name, AttemptError(cfg, a), a.now)])
  }

  function VisitAll(hash: string -> string, cfg: HelmConfig, cs: seq<PluginCondition>, ps: seq<Plugin>,
                    env: nat -> Attempt, g: Progress): Progress
  {
    if ps == [] then g
    else Visit(hash, cfg, cs, ps[|ps| - 1], env(|ps| - 1), VisitAll(hash, cfg, cs, ps[..|ps| - 1], env, g))
  }

  // ----- The removal of plugins that left the spec -----

  function Names(ps: seq<Plugin>): set<string> {
    set i | 0 <= i < |ps| :: ps[i].chart.name
  }

  predicate Stale(names: set<string>, c: PluginCondition) {
    c.pluginName !in names && c.conditionType == HELM_CHART_DEPLOYED && c.status == ConditionTrue
  }

  function RemoveAll(names: set<string>, cs: seq<PluginCondition>, deletes: nat -> HelmResult, g: Progress): Progress {
    if cs == [] then g
    else
      var before, c := RemoveAll(names, cs[..|cs| - 1], deletes, g), cs[|cs| - 1];
      if !Stale(names, c) then before
      else before.(helm := Deleted(before.helm, c.pluginName, deletes(|cs| - 1)),
                   annotations := before.annotations - {PluginHashKey(c.pluginName)})
  }

  /** The value of the object that the reconciliation works on, and of Helm. */
  datatype World = World(
    cfg: HelmConfig, plugins: seq<Plugin>, annotations: map<string, string>, conditions: seq<PluginCondition>,
    helm: HelmState, attempted: seq<string>)

  function Visited(hash: string -> string, w: World, env: nat -> Attempt): Progress {
    VisitAll(hash, w.cfg, w.conditions, w.plugins, env, Progress(w.annotations, w.helm, w.attempted, []))
  }

  function Redeployed(hash: string -> string, w: World, env: nat -> Attempt, deletes: nat -> HelmResult): World {
    var g := RemoveAll(Names(w.plugins), w.conditions, deletes, Visited(hash, w, env));
    World(w.cfg, w.plugins, g.annotations, g.conditions, g.helm, g.attempted)
  }

  // ----- The program -----

  class ValidatorConfig {
    var helmConfig: HelmConfig
    var plugins: seq<Plugin>
    var annotations: map<string, string>
    var conditions: seq<PluginCondition>
    var finalizers: seq<string>

    ghost function View(helm: HelmClient, attempted: seq<string>): World
      reads this, helm
    {
      World(helmConfig, plugins, annotations, conditions, helm.View(), attempted)
    }

    method ConditionIndex(chartName: string, conditionType: string) returns (idx: int)
      ensures idx == PluginConditionIndex(conditions, chartName, conditionType)
    {
      for i := 0 to |conditions|
        invariant forall j | 0 <= j < i ::
                    !(conditions[j].conditionType == conditionType && conditions[j].pluginName == chartName)
      {
        var c := conditions[i];
        if c.conditionType == conditionType && c.pluginName == chartName {
          return i;
        }
      }
      return -1;
    }

    method UpdatePluginHash(p: Plugin, hash: string -> string) returns (valuesUnchanged: bool)
      modifies this`annotations
      ensures valuesUnchanged == HashStored(old(annotations), p.chart.name, hash(p.values))
      ensures annotations == old(annotations)[PluginHashKey(p.chart.name) := hash(p.values)]
    {
      hide PluginHashKey;
      valuesUnchanged := false;
      var latest := hash(p.values);
      var key := PluginHashKey(p.chart.name);
      if key in annotations {
        valuesUnchanged := annotations[key] == latest;
      }
      annotations := annotations[key := latest];
    }

    /** The part of the loop body after the decision not to skip. */
    method Deploy(p: Plugin, a: Attempt, helm: HelmClient)
      returns (condition: PluginCondition, pulled: Option<PullRequest>)
      modifies helm
      ensures helm.View() == AfterAttempt(helmConfig, p, a, old(helm.View()))
      ensures condition == HelmChartCondition(p.chart.name, AttemptError(helmConfig, a), a.now)
      ensures pulled == PullFor(helmConfig, p, a)
    {
      hide HelmChartCondition, LeftBehind, Contains;
      pulled := None;
      var opts := HelmOptions(p.chart.name, "", p.chart.repository, helmConfig.registry, p.chart.version, p.values,
                              helmConfig.insecureSkipTLSVerify);
      if helmConfig.authSecretName != "" {
        if a.auth.Some? {
          condition := HelmChartCondition(p.chart.name, a.auth, a.now);
          return;
        }
      }
      if HasPrefix(helmConfig.registry, OCI_SCHEME) {
        opts := opts.(path := "/charts/" + opts.chart);
        opts := opts.(version := TrimPrefix(opts.version, "v"));
        pulled := Some(PullRequest(TrimPrefix(opts.registry, OCI_SCHEME) + "/" + opts.repo + ":" + opts.version,
                                   opts.path, opts.chart));
        if a.pull.Some? {
          condition := HelmChartCondition(p.chart.name, a.pull, a.now);
          return;
        }
        opts := opts.(path := opts.path + "/" + opts.chart + ".tgz");
        opts := opts.(chart := "");
      }
      var err := helm.Upgrade(p.chart.name, opts, a.upgrade);
      if err.Some? {
        if Contains(err.value, NO_DEPLOYED_RELEASES) {
          var _ := helm.Delete(p.chart.name, a.delete);
        }
      }
      condition := HelmChartCondition(p.chart.name, err, a.now);
    }

    /** The first loop: deploy what is not skipped, and collect one condition per plugin. */
    method DeployPlugins(helm: HelmClient, hash: string -> string, env: nat -> Attempt)
      returns (specPlugins: map<string, bool>, newConditions: array<PluginCondition>, attempted: seq<string>)
      modifies this`annotations, helm
      ensures fresh(newConditions) && specPlugins.Keys == Names(plugins)
      ensures Progress(annotations, helm.View(), attempted, newConditions[..]) ==
              Visited(hash, old(View(helm, [])), env)
    {
      hide PluginHashKey, HelmChartCondition, AfterAttempt, AttemptError, Names, VisitAll, HashStored,
        PluginConditionIndex;
      ghost var start := Progress(annotations, helm.View(), [], []);
      specPlugins := map[];
      newConditions := new PluginCondition[|plugins|];
      attempted := [];
      VisitNone(hash, helmConfig, conditions, env, start);
      assert plugins[..0] == [] && newConditions[..0] == [];
      for i := 0 to |plugins|
        invariant specPlugins.Keys == Names(plugins[..i])
        invariant Progress(annotations, helm.View(), attempted, newConditions[..i]) ==
                  VisitAll(hash, helmConfig, conditions, plugins[..i], env, start)
      {
        var p := plugins[i];
        specPlugins := specPlugins[p.chart.name := true];
        NamesSnoc(plugins, i);
        VisitOneMore(hash, helmConfig, conditions, plugins, i, env, start);
        var valuesUnchanged := UpdatePluginHash(p, hash);
        var idx := ConditionIndex(p.chart.name, HELM_CHART_DEPLOYED);
        if idx != -1 && conditions[idx].status == ConditionTrue && valuesUnchanged {
          newConditions[i] := conditions[idx];
        } else {
          attempted := attempted + [p.chart.name];
          var condition, _ := Deploy(p, env(i), helm);
          newConditions[i] := condition;
        }
        assert newConditions[..i + 1] == newConditions[..i] + [newConditions[i]];
      }
      assert plugins[..|plugins|] == plugins && newConditions[..|plugins|] == newConditions[..];
    }

    /** The second loop: delete the releases of plugins that left the spec. */
    method DeleteRemoved(helm: HelmClient, specPlugins: map<string, bool>, deletes: nat -> HelmResult,
                         ghost g: Progress)
      requires g.annotations == annotations && g.helm == helm.View()
      modifies this`annotations, helm
      ensures g.(annotations := annotations, helm := helm.View()) == RemoveAll(specPlugins.Keys, conditions, deletes, g)
    {
      hide PluginHashKey, LeftBehind;
      for i := 0 to |conditions|
        invariant g.(annotations := annotations, helm := helm.View()) ==
                  RemoveAll(specPlugins.Keys, conditions[..i], deletes, g)
      {
        var c := conditions[i];
        assert conditions[..i + 1][..i] == conditions[..i];
        if c.pluginName !in specPlugins && c.conditionType == HELM_CHART_DEPLOYED && c.status == ConditionTrue {
          var _ := helm.Delete(c.pluginName, deletes(i));
          annotations := annotations - {PluginHashKey(c.pluginName)};
        }
      }
      assert conditions[..|conditions|] == conditions;
    }

    method RedeployIfNeeded(helm: HelmClient, hash: string -> string, env: nat -> Attempt, deletes: nat -> HelmResult)
      returns (attempted: seq<string>)
      modifies this`annotations, this`conditions, helm
      ensures View(helm, attempted) == Redeployed(hash, old(View(helm, [])), env, deletes)
    {
      hide Visited, RemoveAll, Names;
      var specPlugins, newConditions;
      specPlugins, newConditions, attempted := DeployPlugins(helm, hash, env);
      ghost var g := Visited(hash, old(View(helm, [])), env);
      DeleteRemoved(helm, specPlugins, deletes, g);
      conditions := newConditions[..];
    }

    method EnsureFinalizer(finalizer: string)
      modifies this`finalizers
      ensures finalizers == WithFinalizer(old(finalizers), finalizer)
    {
      if finalizer !in finalizers {
        var newFinalizers := [];
        newFinalizers := newFinalizers + finalizers;
        newFinalizers := newFinalizers + [finalizer];
        finalizers := newFinalizers;
      }
    }

    /** The object is updated on the server only if a finalizer was removed; updateErr is the
        answer to that update. */
    method RemoveFinalizer(finalizer: string, updateErr: Option<string>) returns (updated: bool, err: Option<string>)
      modifies this`finalizers
      ensures finalizers == WithoutFinalizer(old(finalizers), finalizer)
      ensures updated <==> finalizer in old(finalizers)
      ensures err == if updated then updateErr else None
    {
      updated, err := false, None;
      if |finalizers| > 0 {
        var newFinalizers := [];
        for i := 0 to |finalizers|
          invariant newFinalizers == WithoutFinalizer(finalizers[..i], finalizer)
        {
          assert finalizers[..i + 1][..i] == finalizers[..i];
          if finalizers[i] == finalizer {
            continue;
          }
          newFinalizers := newFinalizers + [finalizers[i]];
        }
        assert finalizers[..|finalizers|] == finalizers;
        RemovalShortens(finalizers, finalizer);
        if |newFinalizers| != |finalizers| {
          finalizers := newFinalizers;
          updated := true;
          if updateErr.Some? {
            return updated, updateErr;
          }
        } else {
          assert newFinalizers == finalizers;
        }
      }
    }

    /** A reconciliation of an object that is not being deleted, up to the final patch. */
    method Reconcile(helm: HelmClient, hash: string -> string, env: nat -> Attempt, deletes: nat -> HelmResult)
      returns (attempted: seq<string>)
      modifies this`annotations, this`conditions, this`finalizers, helm
      ensures View(helm, attempted) == Redeployed(hash, old(View(helm, [])), env, deletes)
      ensures finalizers == WithFinalizer(old(finalizers), "validator/cleanup")
    {
      hide Redeployed;
      attempted := RedeployIfNeeded(helm, hash, env, deletes);
      EnsureFinalizer(CLEANUP_FINALIZER);
    }
  }

  // ----- Finalizers -----

  const CLEANUP_FINALIZER := "validator/cleanup"

  function WithFinalizer(fs: seq<string>, f: string): seq<string> {
    if f in fs then fs else fs + [f]
  }

  /** The other finalizers, in their order. */
  function WithoutFinalizer(fs: seq<string>, f: string): seq<string> {
    if fs == [] then []
    else WithoutFinalizer(fs[..|fs| - 1], f) + if fs[|fs| - 1] == f then [] else [fs[|fs| - 1]]
  }

  lemma {:induction false} RemovalConcat(a: seq<string>, b: seq<string>, f: string)
    ensures WithoutFinalizer(a + b, f) == WithoutFinalizer(a, f) + WithoutFinalizer(b, f)
  {
    if b == [] {
      assert a + b == a;
    } else {
      assert (a + b)[..|a + b| - 1] == a + b[..|b| - 1];
      RemovalConcat(a, b[..|b| - 1], f);
    }
  }

  lemma {:induction false} RemovalOfOne(f: string)
    ensures WithoutFinalizer([f], f) == []
  {
    assert [f][..0] == [];
  }

  /** Removal takes out every occurrence of the finalizer and leaves all others in their order. */
  lemma {:induction false} RemovalKeepsOthers(a: seq<string>, b: seq<string>, f: string)
    requires f !in a && f !in b
    ensures WithoutFinalizer(a, f) == a
    ensures WithoutFinalizer(a + [f] + b, f) == a + b
    ensures forall c :: WithoutFinalizer(a + [f] + c, f) == a + WithoutFinalizer(c, f)
  {
    hide WithoutFinalizer;
    RemovalShortens(a, f);
    RemovalShortens(b, f);
    RemovalOfOne(f);
    RemovalConcat(a, [f], f);
    assert a + [] == a;
    RemovalConcat(a + [f], b, f);
    forall c ensures WithoutFinalizer(a + [f] + c, f) == a + WithoutFinalizer(c, f) {
      RemovalConcat(a + [f], c, f);
    }
  }

  lemma {:induction false} RemovalShortens(fs: seq<string>, f: string)
    ensures f !in WithoutFinalizer(fs, f)
    ensures if f in fs then |WithoutFinalizer(fs, f)| < |fs| else WithoutFinalizer(fs, f) == fs
  {
    if fs != [] {
      RemovalShortens(fs[..|fs| - 1], f);
      assert fs == fs[..|fs| - 1] + [fs[|fs| - 1]];
    }
  }

  /** Removing the finalizer undoes adding it, whatever else is there, and neither operation
      touches or reorders the others. */
  lemma {:induction false} FinalizerRoundTrip(fs: seq<string>, f: string)
    ensures WithoutFinalizer(WithFinalizer(fs, f), f) == WithoutFinalizer(fs, f)
    ensures f !in fs ==> WithoutFinalizer(WithFinalizer(fs, f), f) == fs
    ensures fs <= WithFinalizer(fs, f) && |WithFinalizer(fs, f)| <= |fs| + 1
    ensures f in WithFinalizer(fs, f) && WithFinalizer(WithFinalizer(fs, f), f) == WithFinalizer(fs, f)
  {
    RemovalShortens(fs, f);
    assert (fs + [f])[..|fs|] == fs;
  }

  lemma {:induction false} VisitNone(hash: string -> string, cfg: HelmConfig, cs: seq<PluginCondition>,
                                     env: nat -> Attempt, g: Progress)
    ensures VisitAll(hash, cfg, cs, [], env, g) == g
    ensures Names([]) == {}
  {
  }

  lemma {:induction false} VisitOneMore(hash: string -> string, cfg: HelmConfig, cs: seq<PluginCondition>,
                                        ps: seq<Plugin>, i: nat, env: nat -> Attempt, g: Progress)
    requires i < |ps|
    ensures VisitAll(hash, cfg, cs, ps[..i + 1], env, g) ==
            Visit(hash, cfg, cs, ps[i], env(i), VisitAll(hash, cfg, cs, ps[..i], env, g))
  {
    hide Visit;
    assert ps[..i + 1][..i] == ps[..i];
  }

  lemma {:induction false} NamesSnoc(ps: seq<Plugin>, i: nat)
    requires i < |ps|
    ensures Names(ps[..i + 1]) == Names(ps[..i]) + {ps[i].chart.name}
  {
    assert forall j | 0 <= j < i :: ps[..i + 1][j] == ps[..i][j];
    forall n | n in Names(ps[..i]) + {ps[i].chart.name} ensures n in Names(ps[..i + 1]) {
      if n in Names(ps[..i]) {
        var j :| 0 <= j < i && ps[..i][j].chart.name == n;
        assert ps[..i + 1][j].chart.name == n;
      } else {
        assert ps[..i + 1][i].chart.name == n;
      }
    }
    forall n | n in Names(ps[..i + 1]) ensures n in Names(ps[..i]) + {ps[i].chart.name} {
      var j :| 0 <= j <= i && ps[..i + 1][j].chart.name == n;
      if j < i {
        assert ps[..i][j].chart.name == n;
      }
    }
  }
}
