/** The in-memory store of benchmark jobs and the channels that follow their progress (internal/benchsvc/executor.go). */
module Triggers {
  import opened Wrappers

  datatype ScenarioProgress = ScenarioProgress(scenario: string, status: string, runId: string)

  datatype ProgressUpdate = ProgressUpdate(jobId: string, scenario: string, status: string, runId: string, completed: int, total: int)

  /** A copy of a job, as Get hands it out. */
  datatype JobState = JobState(
    status: string, total: int, completed: int, passed: int, failed: int,
    currentScenario: string, runIds: seq<string>, progress: seq<ScenarioProgress>)

  const CAPACITY := 16

  // The state after an update

  function SetFirst(progress: seq<ScenarioProgress>, u: ProgressUpdate): (r: seq<ScenarioProgress>)
    ensures |r| == |progress|
    ensures forall i :: 0 <= i < |r| ==> r[i].scenario == progress[i].scenario
  {
    if progress == [] then []
    else if progress[0].scenario == u.scenario then [ScenarioProgress(u.scenario, u.status, u.runId)] + progress[1..]
    else [progress[0]] + SetFirst(progress[1..], u)
  }

  /** The first entry with the scenario's name is the one that changes, and the only one. */
  lemma {:induction false} SetFirstAt(progress: seq<ScenarioProgress>, u: ProgressUpdate, k: nat)
    requires k < |progress| && progress[k].scenario == u.scenario
    requires forall i :: 0 <= i < k ==> progress[i].scenario != u.scenario
    ensures SetFirst(progress, u) == progress[k := ScenarioProgress(u.scenario, u.status, u.runId)]
  {
    if k > 0 {
      assert forall i :: 0 <= i < k - 1 ==> progress[1..][i] == progress[i + 1];
      SetFirstAt(progress[1..], u, k - 1);
    }
  }

  lemma {:induction false} SetFirstNone(progress: seq<ScenarioProgress>, u: ProgressUpdate)
    requires forall i :: 0 <= i < |progress| ==> progress[i].scenario != u.scenario
    ensures SetFirst(progress, u) == progress
  {
    if progress != [] {
      SetFirstNone(progress[1..], u);
    }
  }

  predicate Terminal(status: string) {
    status == "completed" || status == "failed"
  }

  function Updated(s: JobState, u: ProgressUpdate): JobState {
    var passed := s.passed + if u.status == "passed" then 1 else 0;
    var failed := s.failed + if u.status == "failed" || u.status == "error" then 1 else 0;
    var done := u.completed >= u.total;
    JobState(
      if !done then "running" else if failed > 0 then "failed" else "completed",
      u.total, u.completed, passed, failed,
      if done then "" else if u.status == "running" then u.scenario else s.currentScenario,
      if u.runId != "" then s.runIds + [u.runId] else s.runIds,
      SetFirst(s.progress, u))
  }

  function UpdatedBy(s: JobState, us: seq<ProgressUpdate>): JobState {
    if us == [] then s else Updated(UpdatedBy(s, us[..|us| - 1]), us[|us| - 1])
  }

  /** Nothing keeps a finished job finished: it is over at every later moment if and only if no later update counts less work
      than its total. */
  lemma {:induction false} FinishedThroughout(s: JobState, us: seq<ProgressUpdate>)
    requires Terminal(s.status)
    ensures (forall k :: 0 <= k <= |us| ==> Terminal(UpdatedBy(s, us[..k]).status))
       <==> (forall i :: 0 <= i < |us| ==> us[i].completed >= us[i].total)
  {
    hide SetFirst;
    forall k | 0 <= k < |us|
      ensures Terminal(UpdatedBy(s, us[..k + 1]).status) <==> us[k].completed >= us[k].total
    {
      assert us[..k + 1][..k] == us[..k];
    }
    if exists i :: 0 <= i < |us| && us[i].completed < us[i].total {
      var i :| 0 <= i < |us| && us[i].completed < us[i].total;
      assert !Terminal(UpdatedBy(s, us[..i + 1]).status);
    } else {
      forall k | 0 <= k <= |us| ensures Terminal(UpdatedBy(s, us[..k]).status) {
        if k > 0 {
          assert Terminal(UpdatedBy(s, us[..k - 1 + 1]).status);
        }
      }
    }
  }

  lemma TwoUpdates(s: JobState, u: ProgressUpdate, v: ProgressUpdate)
    ensures UpdatedBy(s, [u]) == Updated(s, u) && UpdatedBy(s, [u, v]) == Updated(Updated(s, u), v)
    ensures Terminal(Updated(s, u).status) <==> u.completed >= u.total
    ensures Updated(Updated(s, u), v).status == "running" <==> v.completed < v.total
  {
    hide SetFirst;
    assert [u][..0] == [] && [u, v][..1] == [u];
  }

  function CountOf(us: seq<ProgressUpdate>, statuses: set<string>): nat {
    if us == [] then 0 else CountOf(us[..|us| - 1], statuses) + if us[|us| - 1].status in statuses then 1 else 0
  }

  /** Over any updates, in any order and however often delivered, the counters count the deliveries. */
  lemma {:induction false} CountersCountDeliveries(s: JobState, us: seq<ProgressUpdate>)
    ensures UpdatedBy(s, us).passed == s.passed + CountOf(us, {"passed"})
    ensures UpdatedBy(s, us).failed == s.failed + CountOf(us, {"failed", "error"})
  {
    hide SetFirst;
    if us != [] {
      CountersCountDeliveries(s, us[..|us| - 1]);
    }
  }

  // Objects

  /** A buffered channel. Sending on a closed channel and closing it again are errors, hence the preconditions. */
  class Channel {
    var closed: bool
    var buffer: seq<ProgressUpdate>

    constructor ()
      ensures !closed && buffer == []
    {
      closed, buffer := false, [];
    }

    /** Send unless the buffer is full. */
    method TrySend(u: ProgressUpdate)
      requires !closed
      modifies this`buffer
      ensures buffer == if |old(buffer)| < 16 then old(buffer) + [u] else old(buffer)
    {
      if |buffer| < CAPACITY {
        buffer := buffer + [u];
      }
    }

    method Close()
      requires !closed
      modifies this`closed
      ensures closed
    {
      closed := true;
    }

    /** Take the oldest update; a closed and drained channel has none. */
    method Receive() returns (u: Option<ProgressUpdate>)
      modifies this`buffer
      ensures old(buffer) == [] ==> u == None && buffer == []
      ensures old(buffer) != [] ==> u == Some(old(buffer)[0]) && buffer == old(buffer)[1..]
    {
      if buffer == [] {
        return None;
      }
      u := Some(buffer[0]);
      buffer := buffer[1..];
    }
  }

  class TriggerJob {
    const id: string
    const model: string
    var status: string
    var total: int
    var completed: int
    var passed: int
    var failed: int
    var currentScenario: string
    var runIds: seq<string>
    var progress: seq<ScenarioProgress>

    /** A job as the trigger handler creates it: every scenario pending. */
    constructor (id: string, model: string, scenarios: seq<string>)
      ensures this.id == id && this.model == model
      ensures State() == Pending(scenarios)
      ensures status == "pending" && total == |scenarios| && completed == passed == failed == 0 && currentScenario == "" && runIds == []
      ensures |progress| == |scenarios| && forall i :: 0 <= i < |scenarios| ==> progress[i] == ScenarioProgress(scenarios[i], "pending", "")
    {
      this.id, this.model := id, model;
      status, total, completed, passed, failed := "pending", |scenarios|, 0, 0, 0;
      currentScenario, runIds := "", [];
      progress := Pending(scenarios).progress;
    }

    function State(): JobState reads this {
      JobState(status, total, completed, passed, failed, currentScenario, runIds, progress)
    }
  }

  function Pending(scenarios: seq<string>): JobState {
    JobState("pending", |scenarios|, 0, 0, 0, "", [],
             seq(|scenarios|, (i: nat) requires i < |scenarios| => ScenarioProgress(scenarios[i], "pending", "")))
  }

  class TriggerStore {
    var jobs: map<string, TriggerJob>
    var subscribers: map<string, seq<Channel>>

    constructor ()
      ensures Valid() && jobs == map[] && subscribers == map[]
    {
      jobs, subscribers := map[], map[];
    }

    function Listed(id: string): seq<Channel> reads this {
      if id in subscribers then subscribers[id] else []
    }

    function ListedSet(id: string): set<Channel> reads this {
      set ch | ch in Listed(id)
    }

    /** No channel is listed twice, and none is closed while it is listed. */
    ghost predicate Valid()
      reads this, set id, ch | id in subscribers && ch in subscribers[id] :: ch
    {
      && (forall id :: id in jobs ==> jobs[id].id == id)
      && (forall id, ch :: id in subscribers && ch in subscribers[id] ==> !ch.closed)
      && (forall id, i, j :: id in subscribers && 0 <= i < j < |subscribers[id]| ==> subscribers[id][i] != subscribers[id][j])
      && (forall a, b, ch :: a in subscribers && b in subscribers && a != b && ch in subscribers[a] ==> ch !in subscribers[b])
    }

    method Create(job: TriggerJob)
      requires Valid()
      modifies this`jobs
      ensures Valid() && jobs == old(jobs)[job.id := job]
    {
      jobs := jobs[job.id := job];
    }

    method Get(id: string) returns (r: Option<JobState>)
      ensures r == if id in jobs then Some(jobs[id].State()) else None
    {
      return if id in jobs then Some(jobs[id].State()) else None;
    }

    method Subscribe(id: string) returns (ch: Channel)
      requires Valid()
      modifies this`subscribers
      ensures Valid() && fresh(ch) && !ch.closed && ch.buffer == []
      ensures subscribers == old(subscribers)[id := old(Listed(id)) + [ch]]
    {
      ch := new Channel();
      subscribers := subscribers[id := Listed(id) + [ch]];
    }

    /** Remove a channel from the list; one that Update closed is not listed any more. */
    method Unsubscribe(id: string, ch: Channel)
      requires Valid()
      modifies this`subscribers
      ensures Valid() && ch !in Listed(id)
      ensures forall other :: other in old(subscribers) && other != id ==> other in subscribers && subscribers[other] == old(subscribers)[other]
      ensures forall other: Channel :: other != ch ==> (other in Listed(id) <==> other in old(Listed(id)))
    {
      var subs := Listed(id);
      for i := 0 to |subs|
        invariant subscribers == old(subscribers)
        invariant ch !in subs[..i]
      {
        if subs[i] == ch {
          var rest := subs[..i] + subs[i + 1..];
          assert forall j :: i < j < |subs| ==> subs[j] != ch;
          assert forall other: Channel :: other in rest ==> other in subs;
          subscribers := subscribers[id := rest];
          return;
        }
      }
    }

    /** Apply the update to the job, tell the subscribers, and let them go when the job is over. */
    method Update(u: ProgressUpdate) returns (ok: bool)
      requires Valid()
      modifies this`subscribers, if u.jobId in jobs then {jobs[u.jobId]} else {}, ListedSet(u.jobId)
      ensures Valid()
      ensures ok == (u.jobId in jobs)
      ensures !ok ==> subscribers == old(subscribers) && forall ch :: ch in old(ListedSet(u.jobId)) ==> unchanged(ch)
      ensures ok ==> jobs[u.jobId].State() == Updated(old(jobs[u.jobId].State()), u)
      ensures ok ==> subscribers == if Terminal(jobs[u.jobId].status) then old(subscribers) - {u.jobId} else old(subscribers)
      ensures ok ==> forall ch :: ch in old(ListedSet(u.jobId)) ==>
                       && ch.closed == Terminal(jobs[u.jobId].status)
                       && ch.buffer == if |old(ch.buffer)| < CAPACITY then old(ch.buffer) + [u] else old(ch.buffer)
    {
      if u.jobId !in jobs {
        return false;
      }
      var job := jobs[u.jobId];
      ApplyTo(job, u);
      var subs := Listed(u.jobId);
      Notify(subs, u);
      if Terminal(job.status) {
        CloseAll(subs);
        subscribers := subscribers - {u.jobId};
      }
      return true;
    }
  }

  /** Who follows a job hears of its finish and is let go. */
  method FollowToTheEnd(store: TriggerStore, finish: ProgressUpdate) returns (ch: Channel)
    requires store.Valid() && finish.jobId in store.jobs && finish.completed >= finish.total
    modifies store`subscribers, store.jobs[finish.jobId], store.ListedSet(finish.jobId)
    ensures store.Valid() && finish.jobId !in store.subscribers
    ensures store.jobs[finish.jobId].State() == Updated(old(store.jobs[finish.jobId].State()), finish)
    ensures fresh(ch) && ch.closed && ch.buffer == [finish]
  {
    hide SetFirst;
    ch := store.Subscribe(finish.jobId);
    var _ := store.Update(finish);
  }

  /** A job that is reopened by an update arriving late: Get shows it running again, while who followed it was let go when it
      finished, hears of the finish and then of nothing more. */
  method ReopenedUnheard(store: TriggerStore, id: string, model: string, scenarios: seq<string>, finish: ProgressUpdate, late: ProgressUpdate)
    returns (ch: Channel, finished: Option<JobState>, after: Option<JobState>, heard: seq<Option<ProgressUpdate>>)
    requires store.Valid() && id !in store.jobs && finish.jobId == late.jobId == id
    requires finish.completed >= finish.total && late.completed < late.total
    modifies store`jobs, store`subscribers, store.ListedSet(id)
    ensures finished == Some(UpdatedBy(Pending(scenarios), [finish])) && after == Some(UpdatedBy(Pending(scenarios), [finish, late]))
    ensures Terminal(finished.value.status) && after.value.status == "running"
    ensures fresh(ch) && ch.closed && heard == [Some(finish), None] && id !in store.subscribers
  {
    hide Updated, UpdatedBy, Pending, TriggerStore.Valid;
    TwoUpdates(Pending(scenarios), finish, late);
    var job := new TriggerJob(id, model, scenarios);
    store.Create(job);
    ch := FollowToTheEnd(store, finish);
    finished := store.Get(id);
    var _ := store.Update(late);
    after := store.Get(id);
    var first := ch.Receive();
    var second := ch.Receive();
    heard := [first, second];
  }

  /** The change to the job's own fields. */
  method ApplyTo(job: TriggerJob, u: ProgressUpdate)
    modifies job
    ensures job.State() == Updated(old(job.State()), u)
  {
    hide SetFirst;
    SetScenario(job, u);
    job.completed := u.completed;
    job.total := u.total;
    if u.runId != "" {
      job.runIds := job.runIds + [u.runId];
    }
    if u.status == "passed" {
      job.passed := job.passed + 1;
    } else if u.status == "failed" {
      job.failed := job.failed + 1;
    } else if u.status == "error" {
      job.failed := job.failed + 1;
    } else if u.status == "running" {
      job.currentScenario := u.scenario;
    }
    if job.completed >= job.total {
      if job.failed > 0 {
        job.status := "failed";
      } else {
        job.status := "completed";
      }
      job.currentScenario := "";
    } else {
      job.status := "running";
    }
  }

  method SetScenario(job: TriggerJob, u: ProgressUpdate)
    modifies job`progress
    ensures job.progress == SetFirst(old(job.progress), u)
  {
    var i := 0;
    while i < |job.progress|
      invariant 0 <= i <= |job.progress|
      invariant job.progress == old(job.progress)
      invariant forall k :: 0 <= k < i ==> job.progress[k].scenario != u.scenario
    {
      if job.progress[i].scenario == u.scenario {
        SetFirstAt(job.progress, u, i);
        job.progress := job.progress[i := ScenarioProgress(u.scenario, u.status, u.runId)];
        break;
      }
      i := i + 1;
    }
    if i == |job.progress| {
      SetFirstNone(job.progress, u);
    }
  }

  method Notify(subs: seq<Channel>, u: ProgressUpdate)
    requires forall i :: 0 <= i < |subs| ==> !subs[i].closed
    requires forall i, j :: 0 <= i < j < |subs| ==> subs[i] != subs[j]
    modifies set ch | ch in subs
    ensures forall ch :: ch in subs ==> !ch.closed
    ensures forall ch :: ch in subs ==> ch.buffer == if |old(ch.buffer)| < CAPACITY then old(ch.buffer) + [u] else old(ch.buffer)
  {
    for k := 0 to |subs|
      invariant forall i :: 0 <= i < k ==> subs[i].buffer == if |old(subs[i].buffer)| < CAPACITY then old(subs[i].buffer) + [u] else old(subs[i].buffer)
      invariant forall i :: k <= i < |subs| ==> subs[i].buffer == old(subs[i].buffer)
      invariant forall i :: 0 <= i < |subs| ==> !subs[i].closed
    {
      subs[k].TrySend(u);
    }
  }

  method CloseAll(subs: seq<Channel>)
    requires forall i :: 0 <= i < |subs| ==> !subs[i].closed
    requires forall i, j :: 0 <= i < j < |subs| ==> subs[i] != subs[j]
    modifies set ch | ch in subs
    ensures forall ch :: ch in subs ==> ch.closed && ch.buffer == old(ch.buffer)
  {
    for k := 0 to |subs|
      invariant forall i :: 0 <= i < k ==> subs[i].closed
      invariant forall i :: k <= i < |subs| ==> !subs[i].closed
      invariant forall i :: 0 <= i < |subs| ==> subs[i].buffer == old(subs[i].buffer)
    {
      subs[k].Close();
    }
  }
}
