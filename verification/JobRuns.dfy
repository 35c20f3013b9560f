/** What the job table keeps over every run of its statements (internal/benchsvc/queries.go). */
module JobRuns {
  import opened Wrappers
  import opened JobQueue

  /** A statement and the time it runs at. */
  datatype Timed = Timed(step: Step, now: int)

  /** Completions carry one of the two statuses the handler lets through. */
  predicate Handled(steps: seq<Timed>) {
    forall i :: 0 <= i < |steps| && steps[i].step.CompleteJob? ==> Final(steps[i].step.status)
  }

  function Run(t: Table, steps: seq<Timed>): Table {
    if steps == [] then t
    else
      var last := steps[|steps| - 1];
      Apply(Run(t, steps[..|steps| - 1]), last.step, last.now)
  }

  // What happens to one job

  /** The runner that takes the job at this step, if one does. */
  predicate Claims(t: Table, s: Step, id: string, runner: string) {
    s.ClaimJob? && s.id == id && s.runner == runner && id in t && Eligible(t[id], s.tenant, s.runner, s.models)
  }

  predicate Resets(t: Table, s: Timed, id: string) {
    s.step.ResetStaleJobs? && id in t && Stale(t[id], s.step.threshold, s.now)
  }

  function ClaimCount(steps: seq<Timed>, id: string): nat {
    if steps == [] then 0
    else
      var front, last := steps[..|steps| - 1], steps[|steps| - 1].step;
      ClaimCount(front, id) + if last.ClaimJob? && Claims(Run(map[], front), last, id, last.runner) then 1 else 0
  }

  function ResetCount(steps: seq<Timed>, id: string): nat {
    if steps == [] then 0
    else
      var front := steps[..|steps| - 1];
      ResetCount(front, id) + if Resets(Run(map[], front), steps[|steps| - 1], id) then 1 else 0
  }

  /** The runner of the latest claim of the job, unless a reset came after it. */
  function LatestClaim(steps: seq<Timed>, id: string): Option<string> {
    if steps == [] then None
    else
      var front, last := steps[..|steps| - 1], steps[|steps| - 1];
      if last.step.ClaimJob? && Claims(Run(map[], front), last.step, id, last.step.runner) then Some(last.step.runner)
      else if Resets(Run(map[], front), last, id) then None
      else LatestClaim(front, id)
  }

  // What every statement keeps

  /** Ownerless exactly when queued; a pinned job is owned by no other runner; only what is claimed has a start; what is
      handed out starts from nothing, and a finished job's count is the sum of the two others. */
  predicate RowValid(job: Job) {
    && (job.owner.None? <==> job.status == Queued)
    && (job.pinned.Some? && job.pinned.value != "" && job.owner.Some? ==> job.owner == job.pinned)
    && (job.status == Queued ==> job.startedAt.None? && job.lastProgressAt.None?)
    && (job.status == Claimed ==> job.startedAt.Some? && job.lastProgressAt.None?)
    && (job.status == Queued || job.status == Claimed ==> job.completed == job.passed == job.failed == 0 && job.message == "")
    && (Final(job.status) ==> job.completed == job.passed + job.failed)
  }

  predicate Valid(t: Table) {
    forall id :: id in t ==> RowValid(t[id])
  }

  lemma ApplyKeepsValid(t: Table, s: Step, now: int)
    requires Valid(t) && (s.CompleteJob? ==> Final(s.status))
    ensures Valid(Apply(t, s, now))
  {
  }

  lemma {:induction false} EveryRunIsValid(steps: seq<Timed>)
    requires Handled(steps)
    ensures Valid(Run(map[], steps))
  {
    if steps == [] {
    } else {
      hide Apply, Valid;
      var front, last := steps[..|steps| - 1], steps[|steps| - 1];
      EveryRunIsValid(front);
      assert last.step.CompleteJob? ==> Final(steps[|steps| - 1].step.status);
      ApplyKeepsValid(Run(map[], front), last.step, last.now);
    }
  }

  /** How one statement changes one row. */
  lemma OwnerChanges(t: Table, s: Timed, id: string)
    requires Valid(t) && (s.step.CompleteJob? ==> Final(s.step.status))
    ensures var u := Apply(t, s.step, s.now);
            && (id in t ==> id in u)
            && (id in u ==>
                  var queued := u[id].status == Queued;
                  if s.step.ClaimJob? && Claims(t, s.step, id, s.step.runner) then u[id].owner == Some(s.step.runner) && !queued && t[id].status == Queued
                  else if Resets(t, s, id) then u[id].owner == None && queued && t[id].status == Claimed
                  else if id in t then u[id].owner == t[id].owner && (queued <==> t[id].status == Queued)
                  else u[id].owner == None && queued)
  {
  }

  lemma {:induction false} NoHistoryBeforeEnqueue(steps: seq<Timed>, id: string)
    requires id !in Run(map[], steps)
    ensures LatestClaim(steps, id) == None && ClaimCount(steps, id) == 0 && ResetCount(steps, id) == 0
  {
    hide Eligible, Stale;
    if steps != [] {
      NoHistoryBeforeEnqueue(steps[..|steps| - 1], id);
    }
  }

  /** The owner on record is the runner of the latest claim that was not reset, and a job has been claimed once more than
      it was reset, except while it is queued. */
  lemma {:induction false} OwnerIsLatestClaim(steps: seq<Timed>, id: string)
    requires Handled(steps) && id in Run(map[], steps)
    ensures var job := Run(map[], steps)[id];
            && job.owner == LatestClaim(steps, id)
            && ClaimCount(steps, id) == ResetCount(steps, id) + if job.status == Queued then 0 else 1
  {
    hide Apply, Eligible, Stale, Valid;
    var front, last := steps[..|steps| - 1], steps[|steps| - 1];
    var t := Run(map[], front);
    EveryRunIsValid(front);
    assert last.step.CompleteJob? ==> Final(steps[|steps| - 1].step.status);
    OwnerChanges(t, last, id);
    if id in t {
      OwnerIsLatestClaim(front, id);
    } else {
      NoHistoryBeforeEnqueue(front, id);
      NoChangeWithoutRow(t, last, id);
    }
  }

  lemma NoChangeWithoutRow(t: Table, s: Timed, id: string)
    requires id !in t
    ensures !Resets(t, s, id) && (s.step.ClaimJob? ==> !Claims(t, s.step, id, s.step.runner))
  {
  }

  /** A completion succeeds exactly for the tenant's runner whose claim is the latest and was not reset. */
  lemma CompletionIsForLatestClaim(steps: seq<Timed>, id: string, tenant: string, runner: string)
    requires Handled(steps)
    ensures MayComplete(Run(map[], steps), id, tenant, runner) <==>
            id in Run(map[], steps) && Run(map[], steps)[id].tenant == tenant && LatestClaim(steps, id) == Some(runner)
  {
    hide Run, LatestClaim;
    if id in Run(map[], steps) {
      OwnerIsLatestClaim(steps, id);
    }
  }

  /** A job is ownerless exactly when queued, and a pinned job is never owned by another runner. */
  lemma OwnersOverRuns(steps: seq<Timed>, id: string)
    requires Handled(steps) && id in Run(map[], steps)
    ensures var job := Run(map[], steps)[id];
            && (job.owner.None? <==> job.status == Queued)
            && (job.pinned.Some? && job.pinned.value != "" && job.owner.Some? ==> job.owner == job.pinned)
  {
    hide Run;
    EveryRunIsValid(steps);
  }

  /** However often it was claimed and reset, a job is handed out with its counters at zero; a finished job has counted
      every scenario it passed or failed. */
  lemma CountersOverRuns(steps: seq<Timed>, id: string)
    requires Handled(steps) && id in Run(map[], steps)
    ensures var job := Run(map[], steps)[id];
            && (job.status == Queued || job.status == Claimed ==> job.completed == job.passed == job.failed == 0 && job.message == "")
            && (Final(job.status) ==> job.completed == job.passed + job.failed)
  {
    hide Run;
    EveryRunIsValid(steps);
  }

  // Progress

  /** The job got past the point where the janitor takes it back. */
  predicate UnderWay(job: Job) {
    job.status == Running || Final(job.status)
  }

  lemma StaysUnderWay(t: Table, s: Timed, id: string)
    requires id in t && UnderWay(t[id]) && (s.step.CompleteJob? ==> Final(s.step.status))
    ensures var u := Apply(t, s.step, s.now);
            && id in u && UnderWay(u[id])
            && u[id].owner == t[id].owner && u[id].startedAt == t[id].startedAt
            && (Final(t[id].status) ==> Final(u[id].status))
  {
  }

  /** A job that reported progress keeps its owner for good and is never queued again; a finished job stays finished. */
  lemma {:induction false} ProgressIsForGood(t: Table, steps: seq<Timed>, id: string)
    requires id in t && UnderWay(t[id]) && Handled(steps)
    ensures var u := Run(t, steps);
            && id in u && UnderWay(u[id]) && u[id].owner == t[id].owner
            && (Final(t[id].status) ==> Final(u[id].status))
  {
    hide Apply, UnderWay, Final;
    if steps != [] {
      var front, last := steps[..|steps| - 1], steps[|steps| - 1];
      ProgressIsForGood(t, front, id);
      assert last.step.CompleteJob? ==> Final(steps[|steps| - 1].step.status);
      StaysUnderWay(Run(t, front), last, id);
    }
  }

  lemma ProgressPutsUnderWay(t: Table, id: string, completed: int, passed: int, failed: int, now: int)
    requires InProgress(t, id)
    ensures UnderWay(Apply(t, UpdateJobProgress(id, completed, passed, failed), now)[id])
  {
  }

  /** What one runner finished, no other runner can change afterwards: only its own completions still count. */
  lemma {:induction false} OnlyTheFinisherRewrites(t: Table, steps: seq<Timed>, id: string, runner: string)
    requires id in t && Final(t[id].status) && t[id].owner == Some(runner) && Handled(steps)
    requires forall i :: 0 <= i < |steps| && steps[i].step.CompleteJob? && steps[i].step.id == id ==> steps[i].step.runner != runner
    ensures id in Run(t, steps) && Run(t, steps)[id] == t[id]
  {
    if steps != [] {
      var front, last := steps[..|steps| - 1], steps[|steps| - 1];
      OnlyTheFinisherRewrites(t, front, id, runner);
      var s := steps[|steps| - 1].step;
      assert s.CompleteJob? && s.id == id ==> s.runner != runner;
    }
  }

  // The janitor

  /** A claim is safe for as long as the threshold: no reset takes it back before. */
  lemma {:induction false} ClaimsLastTheThreshold(t: Table, steps: seq<Timed>, id: string, runner: string, claimedAt: int)
    requires id in t && t[id].status == Claimed && t[id].owner == Some(runner) && t[id].startedAt == Some(claimedAt)
    requires t[id].lastProgressAt.None? && Handled(steps)
    requires forall i :: 0 <= i < |steps| && steps[i].step.ResetStaleJobs? ==> steps[i].now - steps[i].step.threshold <= claimedAt
    ensures id in Run(t, steps) && Run(t, steps)[id].owner == Some(runner)
    ensures Run(t, steps)[id].status == Claimed ==> Run(t, steps)[id] == t[id]
    ensures Run(t, steps)[id].status != Queued
  {
    if steps != [] {
      var front, last := steps[..|steps| - 1], steps[|steps| - 1];
      ClaimsLastTheThreshold(t, front, id, runner, claimedAt);
      assert last == steps[|steps| - 1];
    }
  }

  /** Progress does not say which runner it comes from: once any is reported, the claim that stands is never reset again. */
  lemma ProgressFromAnyoneEndsResets(t: Table, id: string, completed: int, passed: int, failed: int, now: int, steps: seq<Timed>)
    requires InProgress(t, id) && Handled(steps)
    ensures var u := Run(Apply(t, UpdateJobProgress(id, completed, passed, failed), now), steps);
            id in u && u[id].status != Queued && u[id].owner == t[id].owner
  {
    hide Run;
    ProgressPutsUnderWay(t, id, completed, passed, failed, now);
    ProgressIsForGood(Apply(t, UpdateJobProgress(id, completed, passed, failed), now), steps, id);
  }

  lemma RunSnoc(t: Table, steps: seq<Timed>, s: Timed)
    ensures Run(t, steps + [s]) == Apply(Run(t, steps), s.step, s.now)
  {
    assert (steps + [s])[..|steps|] == steps;
  }

  lemma {:induction false} RunJoin(t: Table, front: seq<Timed>, back: seq<Timed>)
    ensures Run(t, front + back) == Run(Run(t, front), back)
  {
    hide Apply;
    if back == [] {
      assert front + back == front;
    } else {
      var init, last := back[..|back| - 1], back[|back| - 1];
      RunJoin(t, front, init);
      assert back == init + [last];
      assert front + back == (front + init) + [last];
      RunSnoc(t, front + init, last);
    }
  }

  /** One runner takes the job, the janitor takes it back, another runner takes it. */
  function TakenOver(id: string, first: Step, reset: Timed, second: Step, at: int, again: int): seq<Timed> {
    [Timed(first, at), reset, Timed(second, again)]
  }

  lemma TakenOverRow(t: Table, id: string, first: Step, reset: Timed, second: Step, at: int, again: int)
    requires id in t && RowValid(t[id])
    requires first.ClaimJob? && second.ClaimJob? && reset.step.ResetStaleJobs?
    requires Claims(t, first, id, first.runner) && Claims(t, second, id, second.runner) && at < reset.now - reset.step.threshold
    ensures var u := Run(t, TakenOver(id, first, reset, second, at, again));
            id in u && u[id] == TakenBy(t[id], second.runner, again)
  {
    var steps := TakenOver(id, first, reset, second, at, again);
    assert steps == [] + [steps[0]] + [steps[1]] + [steps[2]];
    assert Run(t, []) == t;
    hide Run;
    RunSnoc(t, [], steps[0]);
    RunSnoc(t, [] + [steps[0]], steps[1]);
    RunSnoc(t, [] + [steps[0]] + [steps[1]], steps[2]);
    var claimed := Apply(t, first, at);
    assert claimed[id] == TakenBy(t[id], first.runner, at);
    var back := Apply(claimed, reset.step, reset.now);
    assert back[id] == t[id];
  }

  /** A report from the runner that lost its claim ends the resets of the one that took over: with it, whatever comes later, the
      second runner keeps the job for good; without it, a janitor that runs late enough takes the job back. */
  lemma LateProgressProtectsTheSuccessor(t: Table, id: string, first: Step, reset: Timed, second: Step, at: int, again: int,
                                         late: Timed, later: seq<Timed>, threshold: int, now: int)
    requires id in t && RowValid(t[id]) && Handled(later)
    requires first.ClaimJob? && second.ClaimJob? && reset.step.ResetStaleJobs?
    requires Claims(t, first, id, first.runner) && Claims(t, second, id, second.runner) && at < reset.now - reset.step.threshold
    requires late.step.UpdateJobProgress? && late.step.id == id
    ensures var u := Run(t, TakenOver(id, first, reset, second, at, again) + [late] + later);
            id in u && u[id].status != Queued && u[id].owner == Some(second.runner)
    ensures var u := Run(t, TakenOver(id, first, reset, second, at, again) + [Timed(ResetStaleJobs(threshold), now)]);
            id in u && (u[id].status == Queued <==> again < now - threshold)
  {
    hide Run, Apply;
    var steps := TakenOver(id, first, reset, second, at, again);
    TakenOverRow(t, id, first, reset, second, at, again);
    RunSnoc(t, steps, late);
    RunJoin(t, steps + [late], later);
    ProgressFromAnyoneEndsResets(Run(t, steps), id, late.step.completed, late.step.passed, late.step.failed, late.now, later);
    RunSnoc(t, steps, Timed(ResetStaleJobs(threshold), now));
    ResetTakes(Run(t, steps), id, threshold, now);
  }

  lemma ResetTakes(t: Table, id: string, threshold: int, now: int)
    requires id in t && t[id].status != Queued
    ensures var u := Apply(t, ResetStaleJobs(threshold), now);
            id in u && (u[id].status == Queued <==> Stale(t[id], threshold, now))
  {
  }
}
