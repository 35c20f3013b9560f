/** The table of benchmark jobs and the guarded updates runners and the janitor make to it (internal/benchsvc/queries.go). */
module JobQueue {
  import opened Wrappers

  datatype Status = Queued | Claimed | Running | Completed | Failed

  /** A row; `pinned` is the runner the configuration names, absent as NULL or as the empty string. */
  datatype Job = Job(
    tenant: string, model: string, pinned: Option<string>, createdAt: int,
    status: Status, owner: Option<string>, startedAt: Option<int>, lastProgressAt: Option<int>,
    total: nat, completed: int, passed: int, failed: int, message: string)

  type Table = map<string, Job>

  function NewJob(tenant: string, model: string, pinned: Option<string>, total: nat, now: int): Job {
    Job(tenant, model, pinned, now, Queued, None, None, None, total, 0, 0, 0, "")
  }

  /** The runner may take the job off the queue. */
  predicate Eligible(job: Job, tenant: string, runner: string, models: set<string>) {
    && job.tenant == tenant
    && job.status == Queued
    && job.model in models
    && (job.pinned.None? || job.pinned.value == "" || job.pinned.value == runner)
  }

  function TakenBy(job: Job, runner: string, now: int): Job {
    job.(status := Claimed, owner := Some(runner), startedAt := Some(now))
  }

  predicate Stale(job: Job, threshold: int, now: int) {
    && job.status == Claimed
    && match (job.lastProgressAt, job.startedAt)
       case (Some(t), _) => t < now - threshold
       case (None, Some(t)) => t < now - threshold
       case (None, None) => false
  }

  function Requeued(job: Job): Job {
    job.(status := Queued, owner := None, startedAt := None, lastProgressAt := None)
  }

  function Progressed(job: Job, completed: int, passed: int, failed: int, now: int): Job {
    job.(status := Running, completed := completed, passed := passed, failed := failed, lastProgressAt := Some(now))
  }

  function Finished(job: Job, status: Status, passed: int, failed: int, message: string): Job {
    job.(status := status, completed := passed + failed, passed := passed, failed := failed, message := message)
  }

  // The statements as steps

  /** `ClaimJob` names the row that was picked. */
  datatype Step =
    | EnqueueJob(id: string, tenant: string, model: string, pinned: Option<string>, total: nat)
    | ClaimJob(id: string, tenant: string, runner: string, models: set<string>)
    | UpdateJobProgress(id: string, completed: int, passed: int, failed: int)
    | CompleteJob(id: string, tenant: string, runner: string, status: Status, passed: int, failed: int, message: string)
    | ResetStaleJobs(threshold: int)

  predicate MayComplete(t: Table, id: string, tenant: string, runner: string) {
    id in t && t[id].tenant == tenant && t[id].owner == Some(runner)
  }

  predicate InProgress(t: Table, id: string) {
    id in t && (t[id].status == Claimed || t[id].status == Running)
  }

  function Apply(t: Table, s: Step, now: int): Table {
    match s
    case EnqueueJob(id, tenant, model, pinned, total) =>
      if id in t then t else t[id := NewJob(tenant, model, pinned, total, now)]
    case ClaimJob(id, tenant, runner, models) =>
      if id in t && Eligible(t[id], tenant, runner, models) then t[id := TakenBy(t[id], runner, now)] else t
    case UpdateJobProgress(id, completed, passed, failed) =>
      if InProgress(t, id) then t[id := Progressed(t[id], completed, passed, failed, now)] else t
    case CompleteJob(id, tenant, runner, status, passed, failed, message) =>
      if MayComplete(t, id, tenant, runner) then t[id := Finished(t[id], status, passed, failed, message)] else t
    case ResetStaleJobs(threshold) =>
      map id | id in t :: if Stale(t[id], threshold, now) then Requeued(t[id]) else t[id]
  }

  /** The handler lets only these two statuses through. */
  predicate Final(status: Status) {
    status == Completed || status == Failed
  }

  // The statements on the table

  datatype HttpStatus = NoContent | BadRequest | NotFound

  class PgStore {
    var jobs: Table

    constructor ()
      ensures jobs == map[]
    {
      jobs := map[];
    }

    method EnqueueJob(id: string, tenant: string, model: string, pinned: Option<string>, total: nat, now: int) returns (ok: bool)
      modifies this
      ensures ok == (id !in old(jobs))
      ensures jobs == Apply(old(jobs), Step.EnqueueJob(id, tenant, model, pinned, total), now)
      ensures ok ==> jobs == old(jobs)[id := Job(tenant, model, pinned, now, Queued, None, None, None, total, 0, 0, 0, "")]
    {
      ok := id !in jobs;
      if ok {
        jobs := jobs[id := NewJob(tenant, model, pinned, total, now)];
      }
    }

    /** A queued row of the tenant, for one of the runner's models and pinned to no other runner, that no other claim has
        locked. */
    predicate Free(id: string, tenant: string, runner: string, models: set<string>, locked: set<string>)
      reads this
    {
      && id in jobs && id !in locked
      && jobs[id].tenant == tenant && jobs[id].status == Queued && jobs[id].model in models
      && (jobs[id].pinned.Some? && jobs[id].pinned.value != "" ==> jobs[id].pinned.value == runner)
    }

    method ClaimJob(tenant: string, runner: string, models: set<string>, locked: set<string>, now: int) returns (r: Option<string>)
      modifies this
      ensures r.None? <==> forall id :: id in old(jobs) ==> !old(Free(id, tenant, runner, models, locked))
      ensures r.None? ==> jobs == old(jobs)
      ensures r.Some? ==> old(Free(r.value, tenant, runner, models, locked))
      ensures r.Some? ==> forall id :: id in old(jobs) && old(Free(id, tenant, runner, models, locked))
                                       ==> old(jobs)[r.value].createdAt <= old(jobs)[id].createdAt
      ensures r.Some? ==> jobs == old(jobs)[r.value := old(jobs)[r.value].(status := Claimed, owner := Some(runner), startedAt := Some(now))]
      ensures r.Some? ==> jobs == Apply(old(jobs), Step.ClaimJob(r.value, tenant, runner, models), now)
    {
      var candidates := set id | id in jobs && id !in locked && Eligible(jobs[id], tenant, runner, models);
      if candidates == {} {
        assert forall id :: id in jobs && id !in locked && Eligible(jobs[id], tenant, runner, models) ==> id in candidates;
        return None;
      }
      OldestExists(jobs, candidates);
      var id :| id in candidates && forall other :: other in candidates ==> jobs[id].createdAt <= jobs[other].createdAt;
      jobs := jobs[id := TakenBy(jobs[id], runner, now)];
      return Some(id);
    }

    method UpdateJobProgress(id: string, completed: int, passed: int, failed: int, now: int)
      modifies this
      ensures jobs == Apply(old(jobs), Step.UpdateJobProgress(id, completed, passed, failed), now)
      ensures jobs == if id in old(jobs) && old(jobs)[id].status in {Claimed, Running}
                      then old(jobs)[id := old(jobs)[id].(status := Running, completed := completed, passed := passed, failed := failed,
                                                         lastProgressAt := Some(now))]
                      else old(jobs)
    {
      if id in jobs && (jobs[id].status == Claimed || jobs[id].status == Running) {
        jobs := jobs[id := Progressed(jobs[id], completed, passed, failed, now)];
      }
    }

    method CompleteJob(id: string, tenant: string, runner: string, status: Status, passed: int, failed: int, message: string, now: int)
      returns (ok: bool)
      modifies this
      ensures ok == MayComplete(old(jobs), id, tenant, runner)
      ensures jobs == Apply(old(jobs), Step.CompleteJob(id, tenant, runner, status, passed, failed, message), now)
    {
      ok := id in jobs && jobs[id].tenant == tenant && jobs[id].owner == Some(runner);
      if ok {
        jobs := jobs[id := Finished(jobs[id], status, passed, failed, message)];
      }
    }

    /** The handler in front of CompleteJob. */
    method HandleCompleteJob(id: string, tenant: string, runner: string, status: string, passed: int, failed: int, message: string, now: int)
      returns (code: HttpStatus)
      modifies this
      ensures code == BadRequest <==> status !in ["completed", "failed"] || runner == ""
      ensures code == BadRequest ==> jobs == old(jobs)
      ensures code == NotFound ==> !MayComplete(old(jobs), id, tenant, runner) && jobs == old(jobs)
      ensures code == NoContent ==>
                && MayComplete(old(jobs), id, tenant, runner)
                && jobs == Apply(old(jobs), Step.CompleteJob(id, tenant, runner, if status == "completed" then Completed else Failed,
                                                             passed, failed, message), now)
      ensures code == NoContent <==> status in {"completed", "failed"} && runner != ""
                                     && id in old(jobs) && old(jobs)[id].tenant == tenant && old(jobs)[id].owner == Some(runner)
      ensures code == NoContent ==> Final(jobs[id].status)
      ensures code == NoContent ==>
                jobs == old(jobs)[id := old(jobs)[id].(status := if status == "completed" then Completed else Failed,
                                                       completed := passed + failed, passed := passed, failed := failed, message := message)]
    {
      if status != "completed" && status != "failed" {
        return BadRequest;
      }
      if runner == "" {
        return BadRequest;
      }
      var ok := CompleteJob(id, tenant, runner, if status == "completed" then Completed else Failed, passed, failed, message, now);
      return if ok then NoContent else NotFound;
    }

    /** A claimed row whose progress, or whose start when it has made none, is longer ago than the threshold. */
    predicate Overdue(id: string, threshold: int, now: int)
      requires id in jobs
      reads this
    {
      var row := jobs[id];
      && row.status == Claimed
      && (row.lastProgressAt.Some? ==> now - row.lastProgressAt.value > threshold)
      && (row.lastProgressAt.None? ==> row.startedAt.Some? && now - row.startedAt.value > threshold)
    }

    method ResetStaleJobs(threshold: int, now: int) returns (n: nat)
      modifies this
      ensures jobs == Apply(old(jobs), Step.ResetStaleJobs(threshold), now)
      ensures jobs.Keys == old(jobs).Keys && n == |set id | id in old(jobs) && old(Overdue(id, threshold, now))|
      ensures forall id :: id in jobs ==>
                jobs[id] == if old(Overdue(id, threshold, now))
                            then old(jobs)[id].(status := Queued, owner := None, startedAt := None, lastProgressAt := None)
                            else old(jobs)[id]
    {
      n := |set id | id in jobs && Stale(jobs[id], threshold, now)|;
      assert (set id | id in jobs && Stale(jobs[id], threshold, now)) == (set id | id in jobs && Overdue(id, threshold, now));
      jobs := map id | id in jobs :: if Stale(jobs[id], threshold, now) then Requeued(jobs[id]) else jobs[id];
    }
  }

  lemma {:induction false} OldestExists(jobs: Table, ids: set<string>)
    requires ids != {} && forall id :: id in ids ==> id in jobs
    ensures exists id :: id in ids && forall other :: other in ids ==> jobs[id].createdAt <= jobs[other].createdAt
  {
    var x :| x in ids;
    if ids != {x} {
      var rest := ids - {x};
      assert rest == {} ==> ids == {x};
      OldestExists(jobs, rest);
      var y :| y in rest && forall other :: other in rest ==> jobs[y].createdAt <= jobs[other].createdAt;
      var best := if jobs[x].createdAt <= jobs[y].createdAt then x else y;
      assert forall other :: other in ids ==> other == x || other in rest;
      assert best in ids && forall other :: other in ids ==> jobs[best].createdAt <= jobs[other].createdAt;
    }
  }
}
