/** Running the scenarios of a benchmark job one after the other (internal/benchsvc/local_executor.go). */
module LocalExecutor {
  import opened Triggers

  function Verdict(passed: bool): string {
    if passed then "passed" else "failed"
  }

  function RunId(stamp: string, scenario: string, model: string): string {
    stamp + "-" + scenario + "-" + model
  }

  function Starting(id: string, scenario: string, i: nat, total: int): ProgressUpdate {
    ProgressUpdate(id, scenario, "running", "", i, total)
  }

  function Done(id: string, scenario: string, passed: bool, runId: string, i: nat, total: int): ProgressUpdate {
    ProgressUpdate(id, scenario, Verdict(passed), runId, i + 1, total)
  }

  /** The clock readings and scenario results of a run. */
  datatype Outcome = Outcome(passed: bool, stamp: string)

  /** The job after its first k scenarios. */
  function After(s: JobState, id: string, model: string, outcomes: seq<Outcome>, k: nat): JobState
    requires k <= |outcomes| == |s.progress|
  {
    if k == 0 then s
    else
      var name := s.progress[k - 1].scenario;
      var o := outcomes[k - 1];
      Updated(Updated(After(s, id, model, outcomes, k - 1), Starting(id, name, k - 1, s.total)),
              Done(id, name, o.passed, RunId(o.stamp, name, model), k - 1, s.total))
  }

  /** Run a stored job; without a cluster client nothing happens to it. */
  method Start(store: TriggerStore, job: TriggerJob, client: bool, outcomes: seq<Outcome>) returns (ok: bool)
    requires store.Valid() && job.id in store.jobs && store.jobs[job.id] == job
    requires |outcomes| == |job.progress|
    modifies store`subscribers, job, store.ListedSet(job.id)
    ensures store.Valid()
    ensures ok == client
    ensures !ok ==> job.State() == old(job.State()) && store.subscribers == old(store.subscribers)
    ensures ok ==> job.State() == After(old(job.State()), job.id, job.model, outcomes, |outcomes|)
  {
    hide Updated, TriggerStore.Valid;
    if !client {
      return false;
    }
    ghost var s := job.State();
    ghost var listed := store.ListedSet(job.id);
    for i := 0 to |outcomes|
      invariant store.Valid() && job.id in store.jobs && store.jobs[job.id] == job
      invariant store.ListedSet(job.id) <= listed
      invariant |job.progress| == |s.progress| && job.total == s.total
      invariant forall j :: 0 <= j < |s.progress| ==> job.progress[j].scenario == s.progress[j].scenario
      invariant job.State() == After(s, job.id, job.model, outcomes, i)
    {
      var scenario := job.progress[i].scenario;
      UpdateKeepsNames(job.State(), Starting(job.id, scenario, i, job.total));
      var _ := store.Update(Starting(job.id, scenario, i, job.total));
      var o := outcomes[i];
      UpdateKeepsNames(job.State(), Done(job.id, scenario, o.passed, RunId(o.stamp, scenario, job.model), i, job.total));
      var _ := store.Update(Done(job.id, scenario, o.passed, RunId(o.stamp, scenario, job.model), i, job.total));
    }
    return true;
  }

  lemma UpdateKeepsNames(s: JobState, u: ProgressUpdate)
    ensures var t := Updated(s, u);
            && |t.progress| == |s.progress| && t.total == u.total
            && forall j :: 0 <= j < |s.progress| ==> t.progress[j].scenario == s.progress[j].scenario
  {
    hide SetFirst;
  }

  /** While a scenario runs the job shows it as the current one, with as many completed as there were before. */
  lemma WhileRunning(s: JobState, id: string, scenario: string, i: nat)
    requires i < s.total
    ensures var t := Updated(s, Starting(id, scenario, i, s.total));
            && t.status == "running" && t.currentScenario == scenario && t.completed == i && t.total == s.total
            && t.passed == s.passed && t.failed == s.failed && t.runIds == s.runIds
  {
    hide SetFirst;
  }

  // A run of a new job

  function PassCount(outcomes: seq<Outcome>): nat {
    if outcomes == [] then 0
    else PassCount(outcomes[..|outcomes| - 1]) + if outcomes[|outcomes| - 1].passed then 1 else 0
  }

  predicate AllPassed(outcomes: seq<Outcome>) {
    forall i :: 0 <= i < |outcomes| ==> outcomes[i].passed
  }

  lemma {:induction false} PassCountIsFull(outcomes: seq<Outcome>)
    ensures PassCount(outcomes) <= |outcomes|
    ensures PassCount(outcomes) == |outcomes| <==> AllPassed(outcomes)
  {
    if outcomes != [] {
      var front := outcomes[..|outcomes| - 1];
      PassCountIsFull(front);
      assert AllPassed(outcomes) <==> AllPassed(front) && outcomes[|outcomes| - 1].passed by {
        assert forall i :: 0 <= i < |front| ==> front[i] == outcomes[i];
      }
    }
  }

  /** What the k-th scenario changes. */
  lemma AfterScenario(s: JobState, id: string, model: string, outcomes: seq<Outcome>, k: nat)
    requires 0 < k <= |outcomes| == |s.progress|
    ensures var name := s.progress[k - 1].scenario;
            var o := outcomes[k - 1];
            var t := After(s, id, model, outcomes, k - 1);
            var u := After(s, id, model, outcomes, k);
            && u.progress == SetFirst(SetFirst(t.progress, Starting(id, name, k - 1, s.total)),
                                      Done(id, name, o.passed, RunId(o.stamp, name, model), k - 1, s.total))
            && u.completed == k && u.total == s.total
            && u.passed == t.passed + (if o.passed then 1 else 0)
            && u.failed == t.failed + (if o.passed then 0 else 1)
            && u.runIds == t.runIds + [o.stamp + "-" + name + "-" + model]
            && u.status == if k < s.total then "running" else if u.failed > 0 then "failed" else "completed"
  {
    hide SetFirst;
  }

  predicate Named(progress: seq<ScenarioProgress>, scenarios: seq<string>) {
    |progress| == |scenarios| && forall i :: 0 <= i < |progress| ==> progress[i].scenario == scenarios[i]
  }

  lemma TwoUpdatesKeepNames(progress: seq<ScenarioProgress>, scenarios: seq<string>, u: ProgressUpdate, v: ProgressUpdate)
    requires Named(progress, scenarios)
    ensures Named(SetFirst(SetFirst(progress, u), v), scenarios)
  {
    hide SetFirst;
  }

  lemma PendingNamed(scenarios: seq<string>, id: string, model: string, outcomes: seq<Outcome>)
    requires |outcomes| == |scenarios|
    ensures |Pending(scenarios).progress| == |scenarios|
    ensures After(Pending(scenarios), id, model, outcomes, 0) == Pending(scenarios)
    ensures Named(Pending(scenarios).progress, scenarios)
    ensures forall i :: 0 <= i < |scenarios| ==> Pending(scenarios).progress[i].scenario == scenarios[i]
    ensures Pending(scenarios).total == |scenarios|
  {
  }

  lemma {:induction false} NamesStay(scenarios: seq<string>, id: string, model: string, outcomes: seq<Outcome>, k: nat)
    requires k <= |outcomes| == |scenarios|
    ensures |Pending(scenarios).progress| == |scenarios|
    ensures Named(After(Pending(scenarios), id, model, outcomes, k).progress, scenarios)
  {
    hide SetFirst, After, RunId, Starting, Done, Named, Pending;
    PendingNamed(scenarios, id, model, outcomes);
    if k > 0 {
      NamesStay(scenarios, id, model, outcomes, k - 1);
      var s := Pending(scenarios);
      var name, o := s.progress[k - 1].scenario, outcomes[k - 1];
      AfterScenario(s, id, model, outcomes, k);
      TwoUpdatesKeepNames(After(s, id, model, outcomes, k - 1).progress, scenarios, Starting(id, name, k - 1, s.total),
                          Done(id, name, o.passed, RunId(o.stamp, name, model), k - 1, s.total));
    }
  }

  /** After each scenario the passed and failed ones add up to the completed ones, and each run is recorded. */
  lemma {:induction false} CountsAddUp(scenarios: seq<string>, id: string, model: string, outcomes: seq<Outcome>, k: nat)
    requires 0 < k <= |outcomes| == |scenarios|
    ensures var s := After(Pending(scenarios), id, model, outcomes, k);
            && s.completed == k && s.passed + s.failed == k
            && s.passed == PassCount(outcomes[..k])
            && |s.runIds| == k && (forall i :: 0 <= i < k ==> s.runIds[i] == outcomes[i].stamp + "-" + scenarios[i] + "-" + model)
            && s.total == |scenarios|
            && s.status == (if k < |scenarios| then "running" else if AllPassed(outcomes) then "completed" else "failed")
  {
    hide SetFirst, AllPassed, After;
    assert outcomes[..k][..k - 1] == outcomes[..k - 1];
    AfterScenario(Pending(scenarios), id, model, outcomes, k);
    if k > 1 {
      CountsAddUp(scenarios, id, model, outcomes, k - 1);
    } else {
      PendingNamed(scenarios, id, model, outcomes);
    }
    PassCountIsFull(outcomes[..k]);
    if k == |scenarios| {
      assert outcomes[..k] == outcomes;
    }
  }

  predicate IsFirst(scenarios: seq<string>, j: nat)
    requires j < |scenarios|
  {
    forall i :: 0 <= i < j ==> scenarios[i] != scenarios[j]
  }

  lemma {:induction false} FirstIndex(scenarios: seq<string>, j: nat) returns (f: nat)
    requires j < |scenarios|
    ensures f <= j && scenarios[f] == scenarios[j] && IsFirst(scenarios, f)
    ensures IsFirst(scenarios, j) ==> f == j
    decreases j
  {
    if IsFirst(scenarios, j) {
      f := j;
    } else {
      var i :| 0 <= i < j && scenarios[i] == scenarios[j];
      f := FirstIndex(scenarios, i);
    }
  }

  /** The last scenario of the name before k. */
  predicate LastNamed(scenarios: seq<string>, k: nat, name: string, m: nat)
    requires k <= |scenarios|
  {
    m < k && scenarios[m] == name && forall n :: m < n < k ==> scenarios[n] != name
  }

  /** What a scenario's entry shows: the first one of a name has the result of the last one of that name that was run, once its
      turn has passed; any other one of that name never changes. */
  predicate Shows(scenarios: seq<string>, model: string, outcomes: seq<Outcome>, k: nat, j: nat, p: ScenarioProgress)
    requires j < |scenarios| == |outcomes| && k <= |scenarios|
  {
    if !IsFirst(scenarios, j) || k <= j then p == ScenarioProgress(scenarios[j], "pending", "")
    else
      exists m: nat | m < |outcomes| :: LastNamed(scenarios, k, scenarios[j], m)
        && p == ScenarioProgress(scenarios[j], if outcomes[m].passed then "passed" else "failed",
                                 outcomes[m].stamp + "-" + scenarios[m] + "-" + model)
  }

  lemma {:induction false} EachScenarioShows(scenarios: seq<string>, id: string, model: string, outcomes: seq<Outcome>, k: nat, j: nat)
    requires k <= |outcomes| == |scenarios| && j < |scenarios|
    ensures |After(Pending(scenarios), id, model, outcomes, k).progress| == |scenarios|
    ensures Shows(scenarios, model, outcomes, k, j, After(Pending(scenarios), id, model, outcomes, k).progress[j])
  {
    hide IsFirst, SetFirst, After, Shows, Named, Pending, RunId;
    NamesStay(scenarios, id, model, outcomes, k);
    PendingNamed(scenarios, id, model, outcomes);
    NamedLength(After(Pending(scenarios), id, model, outcomes, k).progress, scenarios);
    if k == 0 {
      PendingShows(scenarios, model, outcomes, j);
    } else {
      EachScenarioShows(scenarios, id, model, outcomes, k - 1, j);
      NamesStay(scenarios, id, model, outcomes, k - 1);
      AfterScenario(Pending(scenarios), id, model, outcomes, k);
      var name, o, total := Pending(scenarios).progress[k - 1].scenario, outcomes[k - 1], Pending(scenarios).total;
      DoneTold(id, name, o, model, k - 1, total);
      TurnShows(scenarios, model, outcomes, After(Pending(scenarios), id, model, outcomes, k - 1).progress, k, j,
                Starting(id, name, k - 1, total), Done(id, name, o.passed, RunId(o.stamp, name, model), k - 1, total));
    }
  }

  lemma NamedLength(progress: seq<ScenarioProgress>, scenarios: seq<string>)
    requires Named(progress, scenarios)
    ensures |progress| == |scenarios|
  {
  }

  lemma DoneTold(id: string, name: string, o: Outcome, model: string, i: nat, total: int)
    ensures var u := Done(id, name, o.passed, RunId(o.stamp, name, model), i, total);
            && u.scenario == name && u.status == (if o.passed then "passed" else "failed")
            && u.runId == o.stamp + "-" + name + "-" + model
  {
  }

  lemma PendingShows(scenarios: seq<string>, model: string, outcomes: seq<Outcome>, j: nat)
    requires j < |scenarios| == |outcomes|
    ensures Shows(scenarios, model, outcomes, 0, j, Pending(scenarios).progress[j])
  {
  }

  lemma TurnShows(scenarios: seq<string>, model: string, outcomes: seq<Outcome>, progress: seq<ScenarioProgress>, k: nat, j: nat,
                  u: ProgressUpdate, v: ProgressUpdate)
    requires 0 < k <= |scenarios| == |progress| == |outcomes| && j < |scenarios|
    requires Named(progress, scenarios)
    requires Shows(scenarios, model, outcomes, k - 1, j, progress[j])
    requires u.scenario == scenarios[k - 1] == v.scenario
    requires v.status == if outcomes[k - 1].passed then "passed" else "failed"
    requires v.runId == outcomes[k - 1].stamp + "-" + scenarios[k - 1] + "-" + model
    ensures Shows(scenarios, model, outcomes, k, j, SetFirst(SetFirst(progress, u), v)[j])
  {
    hide IsFirst, SetFirst, LastNamed;
    var f := TurnSets(scenarios, progress, k, u, v);
    SameNameSameFirst(scenarios, f, j);
    if IsFirst(scenarios, j) && j < k {
      LastNow(scenarios, k);
      if scenarios[j] != scenarios[k - 1] && j < k - 1 {
        var m: nat :| m < |outcomes| && LastNamed(scenarios, k - 1, scenarios[j], m)
          && progress[j] == ScenarioProgress(scenarios[j], if outcomes[m].passed then "passed" else "failed",
                                             outcomes[m].stamp + "-" + scenarios[m] + "-" + model);
        LastStays(scenarios, k, scenarios[j], m);
      }
    }
  }

  lemma LastNow(scenarios: seq<string>, k: nat)
    requires 0 < k <= |scenarios|
    ensures LastNamed(scenarios, k, scenarios[k - 1], k - 1)
  {
  }

  lemma LastStays(scenarios: seq<string>, k: nat, name: string, m: nat)
    requires 0 < k <= |scenarios| && LastNamed(scenarios, k - 1, name, m) && scenarios[k - 1] != name
    ensures LastNamed(scenarios, k, name, m)
  {
  }

  lemma TurnSets(scenarios: seq<string>, progress: seq<ScenarioProgress>, k: nat, u: ProgressUpdate, v: ProgressUpdate) returns (f: nat)
    requires 0 < k <= |scenarios| == |progress| && Named(progress, scenarios) && u.scenario == scenarios[k - 1] == v.scenario
    ensures f < k && scenarios[f] == scenarios[k - 1] && IsFirst(scenarios, f)
    ensures SetFirst(SetFirst(progress, u), v) == progress[f := ScenarioProgress(v.scenario, v.status, v.runId)]
  {
    hide IsFirst, SetFirst;
    f := FirstIndex(scenarios, k - 1);
    FirstIsSet(scenarios, progress, u, f);
    FirstIsSet(scenarios, SetFirst(progress, u), v, f);
  }

  lemma FirstIsSet(scenarios: seq<string>, progress: seq<ScenarioProgress>, u: ProgressUpdate, f: nat)
    requires f < |scenarios| == |progress| && IsFirst(scenarios, f) && u.scenario == scenarios[f]
    requires forall i :: 0 <= i < |progress| ==> progress[i].scenario == scenarios[i]
    ensures SetFirst(progress, u) == progress[f := ScenarioProgress(u.scenario, u.status, u.runId)]
  {
    SetFirstAt(progress, u, f);
  }

  lemma SameNameSameFirst(scenarios: seq<string>, f: nat, j: nat)
    requires f < |scenarios| && j < |scenarios| && IsFirst(scenarios, f)
    ensures IsFirst(scenarios, j) && scenarios[j] == scenarios[f] ==> j == f
  {
  }

  /** A finished run has decided every scenario exactly when no two have one name. */
  lemma EveryScenarioDecidedIffDistinct(scenarios: seq<string>, id: string, model: string, outcomes: seq<Outcome>)
    requires |outcomes| == |scenarios|
    ensures |After(Pending(scenarios), id, model, outcomes, |scenarios|).progress| == |scenarios|
    ensures (forall j :: 0 <= j < |scenarios| ==>
               After(Pending(scenarios), id, model, outcomes, |scenarios|).progress[j].status in {"passed", "failed"})
            <==> (forall j :: 0 <= j < |scenarios| ==> IsFirst(scenarios, j))
  {
    hide IsFirst, After;
    var s := After(Pending(scenarios), id, model, outcomes, |scenarios|);
    if scenarios != [] {
      EachScenarioShows(scenarios, id, model, outcomes, |scenarios|, 0);
    } else {
      NamesStay(scenarios, id, model, outcomes, |scenarios|);
    }
    forall j: nat | j < |scenarios| ensures |s.progress| == |scenarios| && (s.progress[j].status in {"passed", "failed"} <==> IsFirst(scenarios, j)) {
      EachScenarioShows(scenarios, id, model, outcomes, |scenarios|, j);
    }
  }
}
