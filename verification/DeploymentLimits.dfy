/** The conditions under which skips are sound are needed: one run against each. */
module DeploymentLimits {
  import opened Text
  import opened Api
  import opened Deployment
  import opened DeploymentLaws
  import opened DeploymentRuns
  import opened SafeSkips

  /** A registry without credentials that is not an OCI registry. */
  const CONFIG := HelmConfig("https://charts", false, "")

  function Start(p: Plugin): World {
    World(CONFIG, [p], map[], [], HelmState(map[], []), [])
  }

  function Answer(r: HelmResult): nat -> Attempt {
    n => Attempt(None, None, r, Done, 0)
  }

  function NoDeletes(): nat -> HelmResult {
    n => Done
  }

  function ChartOptions(p: Plugin): HelmOptions {
    HelmOptions(p.chart.name, "", p.chart.repository, "https://charts", p.chart.version, p.values, false)
  }

  lemma {:induction false} ConfigIsPlain(p: Plugin)
    ensures OptionsFor(CONFIG, p) == ChartOptions(p) && !HasPrefix(CONFIG.registry, OCI_SCHEME)
  {
    assert CONFIG.registry[0] != OCI_SCHEME[0];
  }

  /** A reconciliation of one plugin whose old condition, if any, is its own. */
  lemma {:induction false} OnePlugin(hash: string -> string, w: World, p: Plugin, r: HelmResult, e: Event)
    requires w.plugins == [p] && w.cfg == CONFIG
    requires forall c | c in w.conditions :: c.pluginName == p.chart.name
    requires e.Reconcile? && e.env == Answer(r) && (r.Refused? ==> r.message == "")
    requires !Skips(hash, w.annotations, w.conditions, p)
    ensures
      var err := if r.Done? then None else Some("");
      Redeployed(hash, w, e.env, e.deletes) ==
      World(CONFIG, [p], w.annotations[PluginHashKey(p.chart.name) := hash(p.values)],
            [HelmChartCondition(p.chart.name, err, 0)],
            Upgraded(w.helm, p.chart.name, ChartOptions(p), r), w.attempted + [p.chart.name])
  {
    hide PluginHashKey, HelmChartCondition, Upgraded, OptionsFor, ChartOptions, HasPrefix;
    ConfigIsPlain(p);
    var g := Progress(w.annotations, w.helm, w.attempted, []);
    assert [p][..0] == [];
    VisitNone(hash, w.cfg, w.conditions, e.env, g);
    assert !Contains("", NO_DEPLOYED_RELEASES);
    assert AfterAttempt(CONFIG, p, e.env(0), w.helm) == Upgraded(w.helm, p.chart.name, ChartOptions(p), r);
    assert VisitAll(hash, w.cfg, w.conditions, [p], e.env, g) == Visit(hash, w.cfg, w.conditions, p, e.env(0), g);
    assert [p][0].chart.name in Names([p]);
    forall i | 0 <= i < |w.conditions| ensures !Stale(Names([p]), w.conditions[i]) {
      assert w.conditions[i] in w.conditions;
    }
    NothingStale(Names([p]), w.conditions, e.deletes, Visited(hash, w, e.env));
  }

  lemma {:induction false} TrueCondition(name: string, now: int)
    ensures HelmChartCondition(name, None, now).status == ConditionTrue
    ensures HelmChartCondition(name, None, now).pluginName == name
    ensures PluginConditionIndex([HelmChartCondition(name, None, now)], name, HELM_CHART_DEPLOYED) == 0
    ensures IsTrueFor([HelmChartCondition(name, None, now)], name)
  {
    var cs := [HelmChartCondition(name, None, now)];
    assert cs[0].pluginName == name && cs[0].conditionType == HELM_CHART_DEPLOYED;
  }

  /** The state once the plugin has been deployed and recorded. */
  function Settled(hash: string -> string, p: Plugin): World {
    World(CONFIG, [p], map[PluginHashKey(p.chart.name) := hash(p.values)],
          [HelmChartCondition(p.chart.name, None, 0)],
          Upgraded(HelmState(map[], []), p.chart.name, ChartOptions(p), Done), [p.chart.name])
  }

  lemma {:induction false} FirstDeployment(hash: string -> string, p: Plugin)
    ensures Step(hash, Start(p), Reconcile(Answer(Done), NoDeletes(), Landed)) == Settled(hash, p)
  {
    hide PluginHashKey, HelmChartCondition, Upgraded, ChartOptions;
    OnePlugin(hash, Start(p), p, Done, Reconcile(Answer(Done), NoDeletes(), Landed));
    assert map[][PluginHashKey(p.chart.name) := hash(p.values)] == map[PluginHashKey(p.chart.name) := hash(p.values)];
  }

  /** With the plugin recorded as deployed, the stored hash alone decides. */
  lemma {:induction false} StoredHashDecides(hash: string -> string, annotations: map<string, string>, name: string,
                                             p: Plugin)
    requires p.chart.name == name && PluginHashKey(name) in annotations
    ensures Skips(hash, annotations, [HelmChartCondition(name, None, 0)], p) <==>
            annotations[PluginHashKey(name)] == hash(p.values)
  {
    hide PluginHashKey, PluginConditionIndex, HelmChartCondition;
    TrueCondition(name, 0);
  }

  lemma {:induction false} LeftDeployed(h: HelmState, p: Plugin, o: HelmOptions, left: HelmOptions)
    ensures Upgraded(h, p.chart.name, o, Done).deployed == h.deployed[p.chart.name := o]
    ensures Upgraded(h, p.chart.name, o, Refused("", Some(left))).deployed == h.deployed[p.chart.name := left]
  {
  }

  lemma {:induction false} NameOf(name: string)
    ensures HelmChartCondition(name, None, 0).pluginName == name
  {
  }

  lemma {:induction false} SkippedName(hash: string -> string, annotations: map<string, string>, name: string,
                                       p: Plugin)
    requires Skips(hash, annotations, [HelmChartCondition(name, None, 0)], p)
    ensures p.chart.name == name
  {
    hide HashStored;
    var cs := [HelmChartCondition(name, None, 0)];
    var k := PluginConditionIndex(cs, p.chart.name, HELM_CHART_DEPLOYED);
    assert cs[k].pluginName == name;
  }

  lemma {:induction false} RefusedIsLast(h: HelmState, name: string, o: HelmOptions, left: HelmOptions)
    ensures LastCall(Upgraded(h, name, o, Refused("", Some(left))).calls, name) == Some(Upgrade(name, o, false))
  {
    LastCallSnoc(h.calls, Upgrade(name, o, false), name);
  }

  /** If after a failed upgrade only the annotations land, the old True condition meets the
      new hash: the new values are never deployed. */
  lemma {:induction false} AnnotationsAloneMislead(hash: string -> string, p: Plugin, newValues: string)
    requires hash(newValues) != hash(p.values)
    ensures
      var q := p.(values := newValues);
      var failure := Refused("", Some(ChartOptions(p)));
      var w1 := Step(hash, Start(p), Reconcile(Answer(Done), NoDeletes(), Landed));
      var w2 := Step(hash, w1, Edit(CONFIG, [q]));
      var w3 := Step(hash, w2, Reconcile(Answer(failure), NoDeletes(), AnnotationsOnly));
      && Skips(hash, w3.annotations, w3.conditions, q)
      && p.chart.name in w3.helm.deployed && w3.helm.deployed[p.chart.name].values == p.values
  {
    hide PluginHashKey, HelmChartCondition, Redeployed, Stopped, Skips, Upgraded;
    var q := p.(values := newValues);
    var failure := Refused("", Some(ChartOptions(p)));
    FirstDeployment(hash, p);
    var w2 := Settled(hash, p).(plugins := [q]);
    StoredHashDecides(hash, w2.annotations, p.chart.name, q);
    NameOf(p.chart.name);
    OnePlugin(hash, w2, q, failure, Reconcile(Answer(failure), NoDeletes(), AnnotationsOnly));
    LeftDeployed(w2.helm, q, ChartOptions(q), ChartOptions(p));
    StoredHashDecides(hash, w2.annotations[PluginHashKey(p.chart.name) := hash(newValues)], p.chart.name, q);
  }

  /** If after a successful upgrade the annotations are lost, going back to the old values
      meets the old hash: the old values are not deployed again. */
  lemma {:induction false} LostAnnotationsMislead(hash: string -> string, p: Plugin, newValues: string,
                                                  landing: Landing)
    requires hash(newValues) != hash(p.values) && landing in {StatusOnly, Lost(1, 1)}
    ensures
      var q := p.(values := newValues);
      var w1 := Step(hash, Start(p), Reconcile(Answer(Done), NoDeletes(), Landed));
      var w2 := Step(hash, w1, Edit(CONFIG, [q]));
      var w3 := Step(hash, w2, Reconcile(Answer(Done), NoDeletes(), landing));
      var w4 := Step(hash, w3, Edit(CONFIG, [p]));
      && Skips(hash, w4.annotations, w4.conditions, p)
      && p.chart.name in w4.helm.deployed && w4.helm.deployed[p.chart.name].values == newValues
  {
    hide PluginHashKey, HelmChartCondition, Redeployed, Stopped, Skips, Upgraded;
    var q := p.(values := newValues);
    FirstDeployment(hash, p);
    var w2 := Settled(hash, p).(plugins := [q]);
    StoredHashDecides(hash, w2.annotations, p.chart.name, q);
    StoredHashDecides(hash, w2.annotations, p.chart.name, p);
    NameOf(p.chart.name);
    var e := Reconcile(Answer(Done), NoDeletes(), landing);
    OnePlugin(hash, w2, q, Done, e);
    LeftDeployed(w2.helm, q, ChartOptions(q), ChartOptions(p));
    CompletedIsStopped(hash, w2, e.env, e.deletes);
  }

  /** If nothing lands of a failed upgrade that left the old values in place, skips stay safe as
      far as deployed values go, though the last call for the plugin failed. */
  lemma {:induction false} FailureMayBeTolerated(hash: string -> string, p: Plugin, newValues: string)
    requires hash(newValues) != hash(p.values)
    ensures
      var q := p.(values := newValues);
      var failure := Refused("", Some(ChartOptions(p)));
      var w1 := Step(hash, Start(p), Reconcile(Answer(Done), NoDeletes(), Landed));
      var w2 := Step(hash, w1, Edit(CONFIG, [q]));
      var w3 := Step(hash, w2, Reconcile(Answer(failure), NoDeletes(), Lost(1, 1)));
      SafeToSkip(ValuesDeployed, hash, w3) && !SafeToSkip(LastCallSucceeded, hash, w3)
  {
    hide PluginHashKey, HelmChartCondition, Redeployed, Stopped, Skips, Upgraded;
    var q := p.(values := newValues);
    var failure := Refused("", Some(ChartOptions(p)));
    FirstDeployment(hash, p);
    var w2 := Settled(hash, p).(plugins := [q]);
    var e := Reconcile(Answer(failure), NoDeletes(), Lost(1, 1));
    StoredHashDecides(hash, w2.annotations, p.chart.name, q);
    StoredHashDecides(hash, w2.annotations, p.chart.name, p);
    NameOf(p.chart.name);
    OnePlugin(hash, w2, q, failure, e);
    CompletedIsStopped(hash, w2, e.env, e.deletes);
    LeftDeployed(w2.helm, q, ChartOptions(q), ChartOptions(p));
    RefusedIsLast(w2.helm, p.chart.name, ChartOptions(q), ChartOptions(p));
    var w3 := Step(hash, w2, e);
    assert Skips(hash, w3.annotations, w3.conditions, p);
    forall x: Plugin | Skips(hash, w3.annotations, w3.conditions, x)
      ensures Runs(ValuesDeployed, hash, w3.helm, x.chart.name, hash(x.values))
    {
      SkippedName(hash, w3.annotations, p.chart.name, x);
      StoredHashDecides(hash, w3.annotations, p.chart.name, x);
    }
  }

  lemma {:induction false} SettledIsKept(hash: string -> string, p: Plugin)
    ensures Kept(LastCallSucceeded, hash, Settled(hash, p)) && WellFormed(Settled(hash, p).conditions)
  {
    hide PluginHashKey, OptionsFor;
    var h := Settled(hash, p).helm;
    assert LastCall(h.calls, p.chart.name) == Some(Upgrade(p.chart.name, ChartOptions(p), true));
  }

  /** Only values are hashed: a new chart version alone is never deployed, whatever Helm would
      answer; an instance of SafeSkips.EditDeployedExactly. */
  lemma {:induction false} VersionChangesAreSkipped(hash: string -> string, p: Plugin, newVersion: string,
                                                    env: nat -> Attempt, deletes: nat -> HelmResult)
    ensures
      var q := p.(chart := p.chart.(version := newVersion));
      var w1 := Step(hash, Start(p), Reconcile(Answer(Done), NoDeletes(), Landed));
      var w2 := Step(hash, w1, Edit(CONFIG, [q]));
      var w3 := Redeployed(hash, w2, env, deletes);
      && Skips(hash, w2.annotations, w2.conditions, q) && w3.attempted == w2.attempted
      && p.chart.name in w3.helm.deployed && w3.helm.deployed[p.chart.name].version == p.chart.version
      && (newVersion != p.chart.version ==> w3.helm.deployed[p.chart.name] != OptionsFor(CONFIG, q))
  {
    hide PluginHashKey, HelmChartCondition, Redeployed, OptionsFor, Skips, HasPrefix;
    var q := p.(chart := p.chart.(version := newVersion));
    FirstDeployment(hash, p);
    TrueCondition(p.chart.name, 0);
    SettledIsKept(hash, p);
    ConfigIsPlain(p);
    ConfigIsPlain(q);
    var w1 := Settled(hash, p);
    EditDeployedExactly(LastCallSucceeded, hash, w1, CONFIG, [q], 0, env, deletes);
    var w2 := Step(hash, w1, Edit(CONFIG, [q]));
    assert w2.plugins == [q] && [q][0].chart.name == p.chart.name;
    AttemptedExactly(hash, w2, 1, 0);
    OnlyAttempt(hash, w2);
  }

  lemma {:induction false} OnlyAttempt(hash: string -> string, w: World)
    requires |w.plugins| == 1 && w.plugins[0].chart.name !in Attempted(hash, w, 1)
    ensures Attempted(hash, w, 1) == []
  {
    hide Skips;
    assert Attempted(hash, w, 0) == [];
  }

  /** The first entry's upgrade succeeds, any other's is refused without leaving a change. */
  function FirstOnly(o: HelmOptions): nat -> Attempt {
    n => Attempt(None, None, if n == 0 then Done else Refused("", Some(o)), Done, 0)
  }

  /** With a plugin named twice, the True condition of one entry meets the hash of the other:
      dropping the first entry leaves the second skipped though its upgrade was refused. */
  lemma {:induction false} RepeatedNamesMislead(hash: string -> string, p: Plugin, newValues: string)
    requires hash(newValues) != hash(p.values)
    ensures
      var q := p.(values := newValues);
      var w0 := Start(p).(plugins := [p, q]);
      var w1 := Step(hash, w0, Reconcile(FirstOnly(ChartOptions(p)), NoDeletes(), Landed));
      var w2 := Step(hash, w1, Edit(CONFIG, [q]));
      && Skips(hash, w2.annotations, w2.conditions, q)
      && p.chart.name in w2.helm.deployed && w2.helm.deployed[p.chart.name].values == p.values
  {
    hide PluginHashKey, HelmChartCondition, OptionsFor, HasPrefix, Contains;
    var q := p.(values := newValues);
    var w0 := Start(p).(plugins := [p, q]);
    var env := FirstOnly(ChartOptions(p));
    ConfigIsPlain(p);
    ConfigIsPlain(q);
    EmptyContainsNothing();
    var g := Progress(map[], w0.helm, [], []);
    assert [p, q][..1] == [p] && [p][..0] == [];
    VisitNone(hash, CONFIG, [], env, g);
    assert VisitAll(hash, CONFIG, [], [p], env, g) == Visit(hash, CONFIG, [], p, env(0), g);
    assert VisitAll(hash, CONFIG, [], [p, q], env, g) ==
           Visit(hash, CONFIG, [], q, env(1), VisitAll(hash, CONFIG, [], [p], env, g));
    var g1 := Visit(hash, CONFIG, [], p, env(0), g);
    var g2 := Visit(hash, CONFIG, [], q, env(1), g1);
    assert g1.conditions == [HelmChartCondition(p.chart.name, None, 0)];
    assert g2.conditions == [HelmChartCondition(p.chart.name, None, 0), HelmChartCondition(p.chart.name, Some(""), 0)];
    assert g2.annotations[PluginHashKey(p.chart.name)] == hash(newValues);
    assert g2.helm.deployed[p.chart.name] == ChartOptions(p);
    assert Visited(hash, w0, env) == g2;
    assert Redeployed(hash, w0, env, NoDeletes()) == w0.(annotations := g2.annotations, conditions := g2.conditions,
                                                         helm := g2.helm, attempted := g2.attempted);
    FirstOfTwo(p.chart.name);
  }

  lemma {:induction false} EmptyContainsNothing()
    ensures !Contains("", NO_DEPLOYED_RELEASES)
  {
  }

  lemma {:induction false} FirstOfTwo(name: string)
    ensures IsTrueFor([HelmChartCondition(name, None, 0), HelmChartCondition(name, Some(""), 0)], name)
  {
    var cs := [HelmChartCondition(name, None, 0), HelmChartCondition(name, Some(""), 0)];
    assert cs[0].pluginName == name && cs[0].conditionType == HELM_CHART_DEPLOYED && cs[0].status == ConditionTrue;
  }
}
