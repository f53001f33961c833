/** internal/controller/validatorconfig_controller.go: deleting a ValidatorConfig. One
    goroutine per plugin deletes its release while the main routine looks up the others;
    then the finalizer is removed. */
module Deletion {
  import opened Text
  import opened Deployment

  /** What looking up a plugin's release yields. */
  datatype Lookup = Owned | Unowned | Missing | Broke(message: string)

  /** The spec's plugin names in order, what each lookup yields and each deletion answers. */
  datatype Job = Job(names: seq<string>, lookups: nat -> Lookup, results: nat -> HelmResult)

  /** The main routine looks up the i-th release, waits for the goroutines, has left
      deletePlugins, or has removed the finalizer. */
  datatype Main = Looking(i: nat) | Waiting | Left(err: Option<string>) | FinalizerRemoved

  /** pending are the goroutines started and not finished; finished lists the others in the
      order in which they called Helm. */
  datatype State = State(main: Main, pending: set<nat>, finished: seq<nat>, helm: HelmState)

  datatype Move = MainStep | Finish(i: nat)

  function MainNext(job: Job, s: State): State {
    match s.main
    case Looking(i) =>
      if i >= |job.names| then s.(main := Waiting)
      else
        match job.lookups(i) {
          case Owned => s.(main := Looking(i + 1), pending := s.pending + {i})
          case Unowned => s.(main := Left(None))
          case Missing => s.(main := Left(None))
          case Broke(message) => s.(main := Left(Some(message)))
        }
    case Waiting => if s.pending == {} then s.(main := Left(None)) else s
    case Left(err) => if err.None? then s.(main := FinalizerRemoved) else s
    case FinalizerRemoved => s
  }

  function Next(job: Job, s: State, m: Move): State {
    match m
    case MainStep => MainNext(job, s)
    case Finish(i) =>
      if i in s.pending && i < |job.names| then
        s.(pending := s.pending - {i}, finished := s.finished + [i],
           helm := Deleted(s.helm, job.names[i], job.results(i)))
      else s
  }

  function Start(h: HelmState): State {
    State(Looking(0), {}, [], h)
  }

  /** A schedule is any sequence of moves; a move that is not enabled does nothing. */
  function Run(job: Job, h: HelmState, schedule: seq<Move>): State {
    if schedule == [] then Start(h)
    else Next(job, Run(job, h, schedule[..|schedule| - 1]), schedule[|schedule| - 1])
  }

  /** The length of the longest prefix of the spec whose releases are found and owned. */
  function OwnedPrefix(job: Job, from: nat): (k: nat)
    requires from <= |job.names|
    ensures from <= k <= |job.names|
    ensures forall i | from <= i < k :: job.lookups(i) == Owned
    ensures k < |job.names| ==> job.lookups(k) != Owned
    decreases |job.names| - from
  {
    if from < |job.names| && job.lookups(from) == Owned then OwnedPrefix(job, from + 1) else from
  }

  // ----- Which deletions are started -----

  /** How many goroutines have been started. */
  function Started(job: Job, s: State): nat {
    if s.main.Looking? then s.main.i else OwnedPrefix(job, 0)
  }

  ghost predicate NoRepeats(xs: seq<nat>) {
    forall a, b | 0 <= a < b < |xs| :: xs[a] != xs[b]
  }

  ghost predicate Tally(job: Job, s: State) {
    && (s.main.Looking? ==> s.main.i <= |job.names| && forall i | 0 <= i < s.main.i :: job.lookups(i) == Owned)
    && (s.main.Waiting? ==> OwnedPrefix(job, 0) == |job.names|)
    && (s.main == Left(None) || s.main.FinalizerRemoved? ==>
          s.pending == {} || (OwnedPrefix(job, 0) < |job.names| && !job.lookups(OwnedPrefix(job, 0)).Broke?))
    && (s.main == Left(None) || s.main.FinalizerRemoved? ==>
          OwnedPrefix(job, 0) == |job.names| || !job.lookups(OwnedPrefix(job, 0)).Broke?)
    && (s.main.Left? && s.main.err.Some? ==>
          OwnedPrefix(job, 0) < |job.names| && job.lookups(OwnedPrefix(job, 0)) == Broke(s.main.err.value))
    && (forall i: nat :: i < Started(job, s) <==> i in s.pending || i in s.finished)
    && (forall i: nat :: !(i in s.pending && i in s.finished))
    && NoRepeats(s.finished)
  }

  lemma {:induction false} PrefixFrom(job: Job, i: nat)
    requires i <= |job.names| && forall j | 0 <= j < i :: job.lookups(j) == Owned
    ensures i < |job.names| && job.lookups(i) == Owned ==> OwnedPrefix(job, 0) > i
    ensures i == |job.names| || job.lookups(i) != Owned ==> OwnedPrefix(job, 0) == i
  {
  }

  lemma {:induction false} NextTally(job: Job, s: State, m: Move)
    requires Tally(job, s)
    ensures Tally(job, Next(job, s, m))
  {
    hide Deleted, OwnedPrefix;
    if m.MainStep? && s.main.Looking? {
      PrefixFrom(job, s.main.i);
    }
  }

  /** Under every schedule the goroutines started are those of the longest owned prefix, each
      once, and if the main routine waits at all it leaves with none pending. */
  lemma {:induction false} RunTally(job: Job, h: HelmState, schedule: seq<Move>)
    ensures Tally(job, Run(job, h, schedule))
  {
    hide Next, Tally;
    if schedule == [] {
      assert Tally(job, Start(h)) by { StartTally(job, h); }
    } else {
      RunTally(job, h, schedule[..|schedule| - 1]);
      NextTally(job, Run(job, h, schedule[..|schedule| - 1]), schedule[|schedule| - 1]);
    }
  }

  lemma {:induction false} StartTally(job: Job, h: HelmState)
    ensures Tally(job, Start(h))
  {
  }

  /** Once the main routine has stopped looking, the deletions started are exactly those of the
      longest prefix of the spec whose releases are found and owned by Helm, each once. */
  lemma {:induction false} StartsExactlyTheOwnedPrefix(job: Job, h: HelmState, schedule: seq<Move>)
    requires !Run(job, h, schedule).main.Looking?
    ensures var s := Run(job, h, schedule);
            && (forall i: nat :: i in s.pending || i in s.finished <==> i < OwnedPrefix(job, 0))
            && (forall i: nat :: !(i in s.pending && i in s.finished))
            && NoRepeats(s.finished)
  {
    hide Run;
    RunTally(job, h, schedule);
  }

  // ----- When the finalizer goes -----

  function MainSteps(n: nat): (schedule: seq<Move>)
    ensures |schedule| == n && forall i | 0 <= i < n :: schedule[i] == MainStep
  {
    if n == 0 then [] else MainSteps(n - 1) + [MainStep]
  }

  lemma {:induction false} OneMoreMainStep(job: Job, h: HelmState, n: nat)
    ensures Run(job, h, MainSteps(n + 1)) == MainNext(job, Run(job, h, MainSteps(n)))
  {
    hide MainNext;
    assert MainSteps(n + 1)[..n] == MainSteps(n);
  }

  lemma {:induction false} RunNothing(job: Job, h: HelmState)
    ensures Run(job, h, []) == Start(h)
  {
  }

  lemma {:induction false} LookingAlong(job: Job, h: HelmState, n: nat)
    requires n <= OwnedPrefix(job, 0)
    ensures var s := Run(job, h, MainSteps(n));
            s.main == Looking(n) && forall i: nat :: i < n <==> i in s.pending
  {
    hide OwnedPrefix, MainSteps, Run;
    if n == 0 {
      assert MainSteps(0) == [] && Run(job, h, []) == Start(h) by { RunNothing(job, h); }
    } else {
      LookingAlong(job, h, n - 1);
      OneMoreMainStep(job, h, n - 1);
      assert job.lookups(n - 1) == Owned;
    }
  }

  /** The finalizer can go while a deletion is still under way exactly if the first release
      that is missing or not owned by Helm comes after one that is owned: the early return
      does not wait for the goroutines. */
  lemma {:induction false} FinalizerGoesEarlyExactly(job: Job, h: HelmState)
    ensures (exists schedule :: var s := Run(job, h, schedule); s.main.FinalizerRemoved? && s.pending != {}) <==>
            var k := OwnedPrefix(job, 0); 0 < k < |job.names| && !job.lookups(k).Broke?
  {
    var k := OwnedPrefix(job, 0);
    forall schedule | var s := Run(job, h, schedule); s.main.FinalizerRemoved? && s.pending != {}
      ensures 0 < k < |job.names| && !job.lookups(k).Broke?
    {
      OnlyEarly(job, h, schedule);
    }
    if 0 < k < |job.names| && !job.lookups(k).Broke? {
      EarlySchedule(job, h);
    }
  }

  lemma {:induction false} OnlyEarly(job: Job, h: HelmState, schedule: seq<Move>)
    requires var s := Run(job, h, schedule); s.main.FinalizerRemoved? && s.pending != {}
    ensures var k := OwnedPrefix(job, 0); 0 < k < |job.names| && !job.lookups(k).Broke?
  {
    hide Run, OwnedPrefix;
    var s := Run(job, h, schedule);
    RunTally(job, h, schedule);
    var i :| i in s.pending;
    assert i < Started(job, s);
  }

  lemma {:induction false} EarlySchedule(job: Job, h: HelmState)
    requires var k := OwnedPrefix(job, 0); 0 < k < |job.names| && !job.lookups(k).Broke?
    ensures var s := Run(job, h, MainSteps(OwnedPrefix(job, 0) + 2)); s.main.FinalizerRemoved? && s.pending != {}
  {
    hide Run, OwnedPrefix, MainSteps;
    var k := OwnedPrefix(job, 0);
    LookingAlong(job, h, k);
    OneMoreMainStep(job, h, k);
    OneMoreMainStep(job, h, k + 1);
    assert 0 in Run(job, h, MainSteps(k)).pending;
  }

  /** A lookup that fails for another reason keeps the finalizer under every schedule, and its
      error is what the main routine leaves with. */
  lemma {:induction false} BrokenLookupKeepsFinalizer(job: Job, h: HelmState, schedule: seq<Move>)
    requires var k := OwnedPrefix(job, 0); k < |job.names| && job.lookups(k).Broke?
    ensures
      var main := Run(job, h, schedule).main;
      && !main.FinalizerRemoved?
      && (main.Left? ==> main.err == Some(job.lookups(OwnedPrefix(job, 0)).message))
  {
    hide Run, OwnedPrefix;
    RunTally(job, h, schedule);
  }

  // ----- Every schedule can be completed -----

  function Phase(m: Main): nat {
    match m
    case Looking(_) => 3
    case Waiting => 2
    case Left(_) => 1
    case FinalizerRemoved => 0
  }

  function Remaining(job: Job, s: State): nat {
    if s.main.Looking? && s.main.i <= |job.names| then |job.names| - s.main.i else |s.pending|
  }

  /** Some move brings the main routine closer to removing the finalizer. */
  lemma {:induction false} CanMove(job: Job, s: State) returns (m: Move)
    requires Tally(job, s) && !s.main.FinalizerRemoved?
    requires var k := OwnedPrefix(job, 0); !(k < |job.names| && job.lookups(k).Broke?)
    ensures
      var s' := Next(job, s, m);
      Phase(s'.main) < Phase(s.main) || (Phase(s'.main) == Phase(s.main) && Remaining(job, s') < Remaining(job, s))
  {
    hide OwnedPrefix, Deleted;
    m := MainStep;
    if s.main.Looking? {
      PrefixFrom(job, s.main.i);
    } else if s.main.Waiting? && s.pending != {} {
      var i :| i in s.pending;
      assert i < Started(job, s);
      m := Finish(i);
    }
  }

  lemma {:induction false} RunSnoc(job: Job, h: HelmState, schedule: seq<Move>, m: Move)
    ensures Run(job, h, schedule + [m]) == Next(job, Run(job, h, schedule), m)
  {
    hide Next;
    assert (schedule + [m])[..|schedule|] == schedule;
  }

  lemma {:induction false} Completion(job: Job, h: HelmState, schedule: seq<Move>) returns (more: seq<Move>)
    requires var k := OwnedPrefix(job, 0); !(k < |job.names| && job.lookups(k).Broke?)
    ensures Run(job, h, schedule + more).main.FinalizerRemoved?
    decreases Phase(Run(job, h, schedule).main), Remaining(job, Run(job, h, schedule))
  {
    hide Run, OwnedPrefix, Tally, Next, Phase, Remaining;
    var s := Run(job, h, schedule);
    if s.main.FinalizerRemoved? {
      more := [];
      assert schedule + more == schedule;
    } else {
      RunTally(job, h, schedule);
      var m := CanMove(job, s);
      RunSnoc(job, h, schedule, m);
      var rest := Completion(job, h, schedule + [m]);
      more := [m] + rest;
      assert schedule + more == schedule + [m] + rest;
    }
  }

  /** However a schedule has begun, it can go on to remove the finalizer, exactly if the lookup
      after the owned prefix does not fail otherwise: no schedule gets stuck. */
  lemma {:induction false} FinalizerReachableExactly(job: Job, h: HelmState, schedule: seq<Move>)
    ensures (exists more :: Run(job, h, schedule + more).main.FinalizerRemoved?) <==>
            var k := OwnedPrefix(job, 0); !(k < |job.names| && job.lookups(k).Broke?)
  {
    hide Run, OwnedPrefix;
    var k := OwnedPrefix(job, 0);
    if k < |job.names| && job.lookups(k).Broke? {
      forall more ensures !Run(job, h, schedule + more).main.FinalizerRemoved? {
        BrokenLookupKeepsFinalizer(job, h, schedule + more);
      }
    } else {
      var more := Completion(job, h, schedule);
    }
  }

  // ----- What the deletions do -----

  ghost predicate DistinctNames(job: Job) {
    forall a, b | 0 <= a < b < |job.names| :: job.names[a] != job.names[b]
  }

  ghost predicate Indices(job: Job, xs: seq<nat>) {
    forall a | 0 <= a < |xs| :: xs[a] < |job.names|
  }

  /** Deleting one release after another, in the given order. */
  function DeleteInOrder(job: Job, h: HelmState, xs: seq<nat>): HelmState
    requires Indices(job, xs)
  {
    if xs == [] then h
    else
      var i := xs[|xs| - 1];
      Deleted(DeleteInOrder(job, h, xs[..|xs| - 1]), job.names[i], job.results(i))
  }

  function Upto(n: nat): (xs: seq<nat>)
    ensures |xs| == n && forall i | 0 <= i < n :: xs[i] == i
  {
    if n == 0 then [] else Upto(n - 1) + [n - 1]
  }

  ghost predicate HelmMatches(job: Job, h: HelmState, s: State) {
    Indices(job, s.finished) && s.helm == DeleteInOrder(job, h, s.finished)
  }

  lemma {:induction false} NextMatches(job: Job, h: HelmState, s: State, m: Move)
    requires HelmMatches(job, h, s)
    ensures HelmMatches(job, h, Next(job, s, m))
  {
    hide Deleted, OwnedPrefix;
    if m.Finish? {
      assert (s.finished + [m.i])[..|s.finished|] == s.finished;
    }
  }

  /** Helm has seen one deletion per finished goroutine, in their order. */
  lemma {:induction false} HelmSeesFinished(job: Job, h: HelmState, schedule: seq<Move>)
    ensures HelmMatches(job, h, Run(job, h, schedule))
  {
    hide Next, HelmMatches;
    if schedule == [] {
      NothingFinished(job, h);
    } else {
      var init := schedule[..|schedule| - 1];
      HelmSeesFinished(job, h, init);
      NextMatches(job, h, Run(job, h, init), schedule[|schedule| - 1]);
    }
  }

  lemma {:induction false} NothingFinished(job: Job, h: HelmState)
    ensures HelmMatches(job, h, Start(h))
  {
  }

  function Remains(r: HelmResult): Option<HelmOptions> {
    if r.Done? then None else r.leftover
  }

  lemma {:induction false} DeletedAt(h: HelmState, name: string, r: HelmResult, n: string)
    ensures At(Deleted(h, name, r).deployed, n) == if n == name then Remains(r) else At(h.deployed, n)
  {
  }

  /** A release that is deleted once ends as that deletion leaves it, wherever it comes. */
  lemma {:induction false} DeletedOnce(job: Job, h: HelmState, xs: seq<nat>, i: nat)
    requires Indices(job, xs) && NoRepeats(xs) && DistinctNames(job) && i in xs
    ensures i < |job.names| && At(DeleteInOrder(job, h, xs).deployed, job.names[i]) == Remains(job.results(i))
  {
    hide At, Deleted, Remains;
    var last, front := xs[|xs| - 1], xs[..|xs| - 1];
    DeletedAt(DeleteInOrder(job, h, front), job.names[last], job.results(last), job.names[i]);
    assert xs == front + [last];
    if i != last {
      DeletedOnce(job, h, front, i);
    }
  }

  /** A release that is not deleted stays as it was. */
  lemma {:induction false} NeverDeleted(job: Job, h: HelmState, xs: seq<nat>, n: string)
    requires Indices(job, xs) && forall a | 0 <= a < |xs| :: job.names[xs[a]] != n
    ensures At(DeleteInOrder(job, h, xs).deployed, n) == At(h.deployed, n)
  {
    hide At, Deleted;
    if xs != [] {
      var last, front := xs[|xs| - 1], xs[..|xs| - 1];
      NeverDeleted(job, h, front, n);
      DeletedAt(DeleteInOrder(job, h, front), job.names[last], job.results(last), n);
    }
  }

  /** xs lists every index of the spec, each once. */
  ghost predicate Listing(job: Job, xs: seq<nat>) {
    Indices(job, xs) && NoRepeats(xs) && forall i: nat | i < |job.names| :: i in xs
  }

  lemma {:induction false} OrderIrrelevant(job: Job, h: HelmState, xs: seq<nat>, ys: seq<nat>)
    requires DistinctNames(job) && Listing(job, xs) && Listing(job, ys)
    ensures DeleteInOrder(job, h, xs).deployed == DeleteInOrder(job, h, ys).deployed
  {
    var a, b := DeleteInOrder(job, h, xs).deployed, DeleteInOrder(job, h, ys).deployed;
    forall n ensures At(a, n) == At(b, n) {
      SameAt(job, h, xs, ys, n);
    }
    SameEverywhere(a, b);
  }

  lemma {:induction false} SameAt(job: Job, h: HelmState, xs: seq<nat>, ys: seq<nat>, n: string)
    requires DistinctNames(job) && Listing(job, xs) && Listing(job, ys)
    ensures At(DeleteInOrder(job, h, xs).deployed, n) == At(DeleteInOrder(job, h, ys).deployed, n)
  {
    hide At, DeleteInOrder;
    if n in job.names {
      var i: nat :| i < |job.names| && job.names[i] == n;
      DeletedOnce(job, h, xs, i);
      DeletedOnce(job, h, ys, i);
    } else {
      NeverDeleted(job, h, xs, n);
      NeverDeleted(job, h, ys, n);
    }
  }

  lemma {:induction false} SameEverywhere(a: map<string, HelmOptions>, b: map<string, HelmOptions>)
    requires forall n :: At(a, n) == At(b, n)
    ensures a == b
  {
    forall n ensures n in a <==> n in b {
      assert At(a, n) == At(b, n);
    }
    forall n | n in a ensures a[n] == b[n] {
      assert At(a, n) == At(b, n);
    }
  }

  lemma {:induction false} CountsOnce(job: Job, xs: seq<nat>)
    requires Listing(job, xs)
    ensures Listing(job, Upto(|job.names|)) && |xs| == |job.names|
  {
    var ys := Upto(|job.names|);
    forall i: nat | i < |job.names| ensures i in ys {
      assert ys[i] == i;
    }
    NoRepeatsSize(xs);
    NoRepeatsSize(ys);
    assert (set i | 0 <= i < |xs| :: xs[i]) == (set i | 0 <= i < |ys| :: ys[i]) by {
      assert forall i | 0 <= i < |xs| :: xs[i] == ys[xs[i]];
      forall i | 0 <= i < |ys| ensures exists a :: 0 <= a < |xs| && xs[a] == ys[i] {
        assert i in xs;
      }
    }
  }

  lemma {:induction false} NoRepeatsSize(xs: seq<nat>)
    requires NoRepeats(xs)
    ensures |set i | 0 <= i < |xs| :: xs[i]| == |xs|
  {
    if xs != [] {
      var front, last := xs[..|xs| - 1], xs[|xs| - 1];
      NoRepeatsSize(front);
      var before := set i | 0 <= i < |front| :: front[i];
      assert (set i | 0 <= i < |xs| :: xs[i]) == before + {last} by {
        assert forall i | 0 <= i < |front| :: front[i] == xs[i];
      }
    }
  }

  /** If every release of the spec is found and owned, then under every schedule that gets as
      far as removing the finalizer, every plugin's release has been deleted exactly once
      before, and Helm ends as if they had been deleted one after another in spec order. */
  lemma {:induction false} DeletionUnderEverySchedule(job: Job, h: HelmState, schedule: seq<Move>)
    requires DistinctNames(job) && OwnedPrefix(job, 0) == |job.names|
    requires Run(job, h, schedule).main.FinalizerRemoved?
    ensures var s := Run(job, h, schedule);
            && s.pending == {} && Listing(job, s.finished) && |s.finished| == |job.names|
            && s.helm.calls == DeleteInOrder(job, h, s.finished).calls
            && s.helm.deployed == DeleteInOrder(job, h, Upto(|job.names|)).deployed
  {
    hide Run, OwnedPrefix, DeleteInOrder;
    var s := Run(job, h, schedule);
    RunTally(job, h, schedule);
    HelmSeesFinished(job, h, schedule);
    CountsOnce(job, s.finished);
    OrderIrrelevant(job, h, s.finished, Upto(|job.names|));
  }

  /** The calls made are one Delete per deletion finished, in that order, after the earlier ones. */
  lemma {:induction false} CallsInOrder(job: Job, h: HelmState, xs: seq<nat>)
    requires Indices(job, xs)
    ensures var calls := DeleteInOrder(job, h, xs).calls;
            && |calls| == |h.calls| + |xs| && calls[..|h.calls|] == h.calls
            && forall a | 0 <= a < |xs| ::
                 calls[|h.calls| + a] == Delete(job.names[xs[a]], job.results(xs[a]).Done?)
  {
    hide LeftBehind;
    if xs != [] {
      CallsInOrder(job, h, xs[..|xs| - 1]);
    }
  }

  // ----- What may be left behind -----

  lemma {:induction false} UndeletedStays(job: Job, h: HelmState, schedule: seq<Move>, i: nat)
    requires DistinctNames(job) && i < |job.names| && i !in Run(job, h, schedule).finished
    ensures At(Run(job, h, schedule).helm.deployed, job.names[i]) == At(h.deployed, job.names[i])
  {
    hide Run, DeleteInOrder, At;
    HelmSeesFinished(job, h, schedule);
    NeverDeleted(job, h, Run(job, h, schedule).finished, job.names[i]);
  }

  lemma {:induction false} FinishedIsGone(job: Job, h: HelmState, schedule: seq<Move>, i: nat)
    requires DistinctNames(job) && i in Run(job, h, schedule).finished
    ensures i < |job.names|
    ensures At(Run(job, h, schedule).helm.deployed, job.names[i]) == Remains(job.results(i))
  {
    hide Run, DeleteInOrder, At, Remains;
    HelmSeesFinished(job, h, schedule);
    RunTally(job, h, schedule);
    DeletedOnce(job, h, Run(job, h, schedule).finished, i);
  }

  /** The finalizer is gone, but the release of the i-th plugin, owned by Helm, is not. */
  ghost predicate Orphaned(job: Job, s: State, i: nat) {
    s.main.FinalizerRemoved? && i < |job.names| && job.lookups(i) == Owned && job.names[i] in s.helm.deployed
  }

  /** What makes that possible: the main routine stops early, at a release that is missing or
      not owned, with an owned one anywhere before or after it; or some deletion of the owned
      prefix leaves something behind. */
  ghost predicate MayOrphan(job: Job) {
    var k := OwnedPrefix(job, 0);
    && !(k < |job.names| && job.lookups(k).Broke?)
    && (|| (k < |job.names| && exists i: nat :: i < |job.names| && job.lookups(i) == Owned)
        || (exists i: nat :: i < k && Remains(job.results(i)).Some?))
  }

  /** Some schedule removes the finalizer with an owned release still deployed, exactly so. */
  lemma {:induction false} OrphansExactly(job: Job, h: HelmState)
    requires DistinctNames(job)
    requires forall i: nat | i < |job.names| && job.lookups(i) == Owned :: job.names[i] in h.deployed
    ensures (exists schedule, i: nat :: Orphaned(job, Run(job, h, schedule), i)) <==> MayOrphan(job)
  {
    hide Run, Orphaned, MayOrphan;
    forall schedule, i: nat | Orphaned(job, Run(job, h, schedule), i) ensures MayOrphan(job) {
      OrphanHasCause(job, h, schedule, i);
    }
    if MayOrphan(job) {
      var schedule, i := OrphaningSchedule(job, h);
    }
  }

  lemma {:induction false} OrphanHasCause(job: Job, h: HelmState, schedule: seq<Move>, i: nat)
    requires DistinctNames(job) && Orphaned(job, Run(job, h, schedule), i)
    ensures MayOrphan(job)
  {
    hide Run, OwnedPrefix, Remains;
    var s, k := Run(job, h, schedule), OwnedPrefix(job, 0);
    RunTally(job, h, schedule);
    assert i < k ==> i in s.pending || i in s.finished;
    if k == |job.names| {
      FinishedIsGone(job, h, schedule, i);
    }
  }

  lemma {:induction false} OrphaningSchedule(job: Job, h: HelmState) returns (schedule: seq<Move>, i: nat)
    requires DistinctNames(job) && MayOrphan(job)
    requires forall i: nat | i < |job.names| && job.lookups(i) == Owned :: job.names[i] in h.deployed
    ensures Orphaned(job, Run(job, h, schedule), i)
  {
    hide Run, OwnedPrefix, Remains, MainSteps;
    var k := OwnedPrefix(job, 0);
    if k < |job.names| && k > 0 {
      EarlySchedule(job, h);
      schedule := MainSteps(k + 2);
      EarlyLeavesFirst(job, h);
      i := 0;
      UndeletedStays(job, h, schedule, i);
    } else {
      schedule := Completion(job, h, []);
      assert [] + schedule == schedule;
      RunTally(job, h, schedule);
      if k < |job.names| {
        i :| i < |job.names| && job.lookups(i) == Owned;
        UndeletedStays(job, h, schedule, i);
      } else {
        i :| i < k && Remains(job.results(i)).Some?;
        FinishedIsGone(job, h, schedule, i);
      }
    }
  }

  lemma {:induction false} EarlyLeavesFirst(job: Job, h: HelmState)
    requires var k := OwnedPrefix(job, 0); 0 < k < |job.names| && !job.lookups(k).Broke?
    ensures 0 !in Run(job, h, MainSteps(OwnedPrefix(job, 0) + 2)).finished
  {
    hide Run, OwnedPrefix, MainSteps;
    var k := OwnedPrefix(job, 0);
    LookingAlong(job, h, k);
    OneMoreMainStep(job, h, k);
    OneMoreMainStep(job, h, k + 1);
    RunTally(job, h, MainSteps(k + 2));
    assert 0 in Run(job, h, MainSteps(k)).pending;
  }
}
