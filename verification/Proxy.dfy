/** The JSON-RPC proxy that records a prescription for each mutating request and a report for its response
    (pkg/proxy/proxy.go, pkg/proxy/evidence.go). The request relay and the response relay run side by side. */
module Proxy {
  import opened Wrappers

  /** A line of the evidence file. */
  datatype Line = Prescribed(prescription: string) | Reported(prescription: string, exitCode: int, verdict: string)

  function VerdictOf(exitCode: int): string {
    if exitCode != 0 then "failure" else "success"
  }

  /** Where the request relay is with a mutating request. */
  datatype RequestSide = Waiting | Recorded(id: string, prescription: string) | Tracked(id: string)

  /** Where the response relay is: holding a prescription taken from `pending`, or not. */
  datatype ResponseSide = Reading | Taken(prescription: string, exitCode: int)

  /** `awaiting` holds the mutating requests forwarded and not answered yet, `overwritten` the prescriptions whose place in
      `pending` a later request with the same id took. */
  datatype State = State(
    log: seq<Line>, pending: map<string, string>, request: RequestSide, response: ResponseSide,
    awaiting: set<string>, overwritten: set<string>)

  const START := State([], map[], Waiting, Reading, {}, {})

  /** The steps of the two relays that other steps can fall between. A message from upstream is taken by its id alone; whether
      it answers a request or is one itself is not looked at. */
  datatype Step =
    | RecordRequest(id: string, newPrescription: string)
    | TrackRequest
    | ForwardRequest
    | TakePending(id: string, exitCode: int, answers: bool)
    | WriteReport

  function Act(s: State, step: Step): State {
    match step
    case RecordRequest(id, p) =>
      if s.request.Waiting? then s.(log := s.log + [Prescribed(p)], request := Recorded(id, p)) else s
    case TrackRequest =>
      if s.request.Recorded? then
        s.(pending := s.pending[s.request.id := s.request.prescription],
           overwritten := if s.request.id in s.pending then s.overwritten + {s.pending[s.request.id]} else s.overwritten,
           request := Tracked(s.request.id))
      else s
    case ForwardRequest =>
      if s.request.Tracked? then s.(awaiting := s.awaiting + {s.request.id}, request := Waiting) else s
    case TakePending(id, exitCode, answers) =>
      var awaiting := if answers then s.awaiting - {id} else s.awaiting;
      if s.response.Reading? then
        if id in s.pending then
          s.(pending := s.pending - {id}, response := Taken(s.pending[id], exitCode), awaiting := awaiting)
        else s.(awaiting := awaiting)
      else s
    case WriteReport =>
      if s.response.Taken? then
        s.(log := s.log + [Reported(s.response.prescription, s.response.exitCode, VerdictOf(s.response.exitCode))], response := Reading)
      else s
  }

  function Run(steps: seq<Step>): State {
    if steps == [] then START else Act(Run(steps[..|steps| - 1]), steps[|steps| - 1])
  }

  /** Prescription ids are made fresh: none is on a line already. */
  predicate FreshIds(steps: seq<Step>) {
    forall n :: 0 <= n < |steps| && steps[n].RecordRequest? ==> !Used(Run(steps[..n]).log, steps[n].newPrescription)
  }

  predicate Used(log: seq<Line>, p: string) {
    exists i :: 0 <= i < |log| && log[i].prescription == p
  }

  // Where each prescription is

  predicate WasReported(log: seq<Line>, p: string) {
    exists i :: 0 <= i < |log| && log[i].Reported? && log[i].prescription == p
  }

  ghost predicate InPending(s: State, p: string) {
    exists id :: id in s.pending && s.pending[id] == p
  }

  predicate BeingTracked(s: State, p: string) {
    s.request.Recorded? && s.request.prescription == p
  }

  predicate BeingReported(s: State, p: string) {
    s.response.Taken? && s.response.prescription == p
  }

  /** Each prescription on file is at exactly one place, no other is anywhere. */
  ghost predicate OnePlaceEach(s: State) {
    && (forall p :: InPending(s, p) || BeingTracked(s, p) || BeingReported(s, p) || p in s.overwritten || WasReported(s.log, p)
                    <==> Used(s.log, p))
    && (forall p :: InPending(s, p) ==> !BeingTracked(s, p) && !BeingReported(s, p) && p !in s.overwritten && !WasReported(s.log, p))
    && (forall p :: BeingTracked(s, p) ==> !BeingReported(s, p) && p !in s.overwritten && !WasReported(s.log, p))
    && (forall p :: BeingReported(s, p) ==> p !in s.overwritten && !WasReported(s.log, p))
    && (forall p :: p in s.overwritten ==> !WasReported(s.log, p))
  }

  /** Different requests in `pending` have different prescriptions. */
  ghost predicate PendingDistinct(s: State) {
    forall a, b :: a in s.pending && b in s.pending && a != b ==> s.pending[a] != s.pending[b]
  }

  /** Every report line has one earlier prescription line, and no prescription is written or reported twice. */
  ghost predicate LinesPaired(log: seq<Line>) {
    && (forall j :: 0 <= j < |log| && log[j].Reported? ==> exists i :: 0 <= i < j && log[i] == Prescribed(log[j].prescription))
    && (forall i, j :: 0 <= i < j < |log| && log[i].Prescribed? && log[j].Prescribed? ==> log[i].prescription != log[j].prescription)
    && (forall i, j :: 0 <= i < j < |log| && log[i].Reported? && log[j].Reported? ==> log[i].prescription != log[j].prescription)
  }

  ghost predicate Inv(s: State) {
    OnePlaceEach(s) && PendingDistinct(s) && LinesPaired(s.log)
  }

  lemma AppendedLine(log: seq<Line>, line: Line)
    ensures forall p :: Used(log + [line], p) <==> Used(log, p) || p == line.prescription
    ensures forall p :: WasReported(log + [line], p) <==> WasReported(log, p) || (line.Reported? && p == line.prescription)
  {
    var all := log + [line];
    assert all[|log|] == line;
    forall p ensures Used(all, p) <==> Used(log, p) || p == line.prescription {
      if Used(log, p) {
        var i :| 0 <= i < |log| && log[i].prescription == p;
        assert all[i] == log[i];
      }
    }
    forall p ensures WasReported(all, p) <==> WasReported(log, p) || (line.Reported? && p == line.prescription) {
      if WasReported(log, p) {
        var i :| 0 <= i < |log| && log[i].Reported? && log[i].prescription == p;
        assert all[i] == log[i];
      }
    }
  }

  lemma SamePending(s: State, t: State)
    requires s.pending == t.pending
    ensures PendingDistinct(s) == PendingDistinct(t)
    ensures forall p :: InPending(s, p) <==> InPending(t, p)
  {
  }

  lemma RecordKeeps(s: State, id: string, p: string)
    requires Inv(s) && !Used(s.log, p)
    ensures Inv(Act(s, RecordRequest(id, p)))
  {
    hide Used, WasReported, InPending, LinesPaired, PendingDistinct;
    var t := Act(s, RecordRequest(id, p));
    if s.request.Waiting? {
      AppendedLine(s.log, Prescribed(p));
      SamePending(s, t);
      PrescribedPaired(s.log, p);
    }
  }

  lemma PrescribedPaired(log: seq<Line>, p: string)
    requires LinesPaired(log) && !Used(log, p)
    ensures LinesPaired(log + [Prescribed(p)])
  {
    var all := log + [Prescribed(p)];
    forall j | 0 <= j < |all| && all[j].Reported? ensures exists i :: 0 <= i < j && all[i] == Prescribed(all[j].prescription) {
      var i :| 0 <= i < j && log[i] == Prescribed(log[j].prescription);
      assert all[i] == log[i];
    }
  }

  lemma TrackKeeps(s: State)
    requires Inv(s)
    ensures Inv(Act(s, TrackRequest))
  {
    hide Used, WasReported, LinesPaired, InPending;
    if s.request.Recorded? {
      assert BeingTracked(s, s.request.prescription);
      NowPending(s);
    }
  }

  /** Tracking puts the new prescription into `pending`, in the place of the one its id had. */
  lemma NowPending(s: State)
    requires s.request.Recorded? && PendingDistinct(s) && !InPending(s, s.request.prescription)
    ensures var t := Act(s, TrackRequest); var id, p := s.request.id, s.request.prescription;
            && PendingDistinct(t)
            && (id in s.pending ==> InPending(s, s.pending[id]))
            && forall q :: InPending(t, q) <==> q == p || (InPending(s, q) && !(id in s.pending && s.pending[id] == q))
  {
    if s.request.Recorded? {
      var t := Act(s, TrackRequest);
      var id, p := s.request.id, s.request.prescription;
      assert forall a :: a in s.pending ==> InPending(s, s.pending[a]);
      forall q ensures InPending(t, q) <==> q == p || (InPending(s, q) && !(id in s.pending && s.pending[id] == q)) {
        if InPending(s, q) {
          var a :| a in s.pending && s.pending[a] == q;
          if a != id {
            assert t.pending[a] == q;
          }
        }
        if q == p {
          assert t.pending[id] == q;
        }
      }
    }
  }

  lemma TakeKeeps(s: State, id: string, exitCode: int, answers: bool)
    requires Inv(s)
    ensures Inv(Act(s, TakePending(id, exitCode, answers)))
  {
    hide Used, WasReported, LinesPaired;
    var t := Act(s, TakePending(id, exitCode, answers));
    if s.response.Reading? && id in s.pending {
      assert InPending(s, s.pending[id]);
      forall q ensures InPending(t, q) <==> InPending(s, q) && q != s.pending[id] {
        if InPending(s, q) && q != s.pending[id] {
          var a :| a in s.pending && s.pending[a] == q;
          assert t.pending[a] == q;
        }
      }
    } else {
      SamePending(s, t);
    }
  }

  lemma ReportKeeps(s: State)
    requires Inv(s)
    ensures Inv(Act(s, WriteReport))
  {
    hide Used, WasReported, InPending, LinesPaired;
    var t := Act(s, WriteReport);
    SamePending(s, t);
    if s.response.Taken? {
      var p := s.response.prescription;
      assert BeingReported(s, p);
      AppendedLine(s.log, t.log[|s.log|]);
      ReportedPaired(s.log, t.log[|s.log|]);
    }
  }

  lemma ReportedPaired(log: seq<Line>, line: Line)
    requires LinesPaired(log) && line.Reported?
    requires Used(log, line.prescription) && !WasReported(log, line.prescription)
    ensures LinesPaired(log + [line])
  {
    var all := log + [line];
    var k :| 0 <= k < |log| && log[k].prescription == line.prescription;
    assert log[k].Prescribed?;
    assert log[k] == Prescribed(line.prescription);
    forall j | 0 <= j < |all| && all[j].Reported? ensures exists i :: 0 <= i < j && all[i] == Prescribed(all[j].prescription) {
      if j < |log| {
        var i :| 0 <= i < j && log[i] == Prescribed(log[j].prescription);
        assert all[i] == log[i];
      } else {
        assert all[k] == log[k];
      }
    }
  }

  lemma ForwardKeeps(s: State)
    requires Inv(s)
    ensures Inv(Act(s, ForwardRequest))
  {
    hide Used, WasReported, InPending, LinesPaired;
    SamePending(s, Act(s, ForwardRequest));
  }

  lemma StartInv()
    ensures Inv(START)
  {
  }

  lemma {:induction false} FreshPrefix(steps: seq<Step>, n: nat)
    requires FreshIds(steps) && n <= |steps|
    ensures FreshIds(steps[..n])
  {
    hide Run, Used;
    var front := steps[..n];
    forall k | 0 <= k < n && front[k].RecordRequest? ensures !Used(Run(front[..k]).log, front[k].newPrescription) {
      assert front[..k] == steps[..k] && front[k] == steps[k];
    }
  }

  /** Over every interleaving: each report line follows its prescription's line, nothing is reported twice, and each
      prescription is in exactly one place. */
  lemma {:induction false} EveryInterleaving(steps: seq<Step>)
    requires FreshIds(steps)
    ensures Inv(Run(steps))
  {
    hide Inv, Act, Used;
    if steps == [] {
      StartInv();
    } else {
      var front := steps[..|steps| - 1];
      FreshPrefix(steps, |steps| - 1);
      EveryInterleaving(front);
      var s := Run(front);
      match steps[|steps| - 1]
      case RecordRequest(id, p) => RecordKeeps(s, id, p);
      case TrackRequest => TrackKeeps(s);
      case ForwardRequest => ForwardKeeps(s);
      case TakePending(id, exitCode, answers) => TakeKeeps(s, id, exitCode, answers);
      case WriteReport => ReportKeeps(s);
    }
  }

  // Counting

  function Prescriptions(log: seq<Line>): (n: nat)
    ensures n <= |log|
  {
    if log == [] then 0 else Prescriptions(log[..|log| - 1]) + if log[|log| - 1].Prescribed? then 1 else 0
  }

  function Reports(log: seq<Line>): nat {
    |log| - Prescriptions(log)
  }

  /** Requests reuse no id that is still pending. */
  predicate DistinctInFlight(steps: seq<Step>) {
    forall n :: 0 <= n < |steps| && steps[n].RecordRequest? && Run(steps[..n]).request.Waiting? ==> steps[n].id !in Run(steps[..n]).pending
  }

  lemma {:induction false} DistinctPrefix(steps: seq<Step>, n: nat)
    requires DistinctInFlight(steps) && n <= |steps|
    ensures DistinctInFlight(steps[..n])
  {
    hide Run;
    var front := steps[..n];
    forall k | 0 <= k < n && front[k].RecordRequest? && Run(front[..k]).request.Waiting? ensures front[k].id !in Run(front[..k]).pending {
      assert front[..k] == steps[..k] && front[k] == steps[k];
    }
  }

  /** With distinct ids in flight nothing is overwritten, and the prescriptions on file are the reports plus the pending ones
      plus the ones a relay has in hand. */
  lemma {:induction false} PrescriptionsAdd(steps: seq<Step>)
    requires DistinctInFlight(steps)
    ensures var s := Run(steps);
            && s.overwritten == {}
            && (s.request.Recorded? ==> s.request.id !in s.pending)
            && Prescriptions(s.log) == Reports(s.log) + |s.pending| + (if s.request.Recorded? then 1 else 0) + (if s.response.Taken? then 1 else 0)
  {
    if steps != [] {
      var front, last := steps[..|steps| - 1], steps[|steps| - 1];
      DistinctPrefix(steps, |steps| - 1);
      PrescriptionsAdd(front);
      var s := Run(front);
      assert last.RecordRequest? && s.request.Waiting? ==> steps[|steps| - 1].id !in Run(steps[..|steps| - 1]).pending;
      StepAdds(s, last);
    }
  }

  lemma StepAdds(s: State, step: Step)
    requires s.overwritten == {} && (s.request.Recorded? ==> s.request.id !in s.pending)
    requires step.RecordRequest? && s.request.Waiting? ==> step.id !in s.pending
    requires Prescriptions(s.log) == Reports(s.log) + |s.pending| + (if s.request.Recorded? then 1 else 0) + (if s.response.Taken? then 1 else 0)
    ensures var t := Act(s, step);
            && t.overwritten == {}
            && (t.request.Recorded? ==> t.request.id !in t.pending)
            && Prescriptions(t.log) == Reports(t.log) + |t.pending| + (if t.request.Recorded? then 1 else 0) + (if t.response.Taken? then 1 else 0)
  {
    hide Prescriptions;
    match step
    case TakePending(id, _, _) =>
      if s.response.Reading? && id in s.pending {
        SmallerMap(s.pending, id);
      }
    case TrackRequest =>
      if s.request.Recorded? {
        LargerMap(s.pending, s.request.id, s.request.prescription);
      }
    case RecordRequest(_, p) => CountSnoc(s.log, Prescribed(p));
    case WriteReport =>
      if s.response.Taken? {
        CountSnoc(s.log, Act(s, step).log[|s.log|]);
      }
    case ForwardRequest =>
  }

  lemma SmallerMap(m: map<string, string>, id: string)
    requires id in m
    ensures |m - {id}| == |m| - 1
  {
    assert (m - {id}).Keys == m.Keys - {id};
    assert |m - {id}| == |(m - {id}).Keys| && |m| == |m.Keys|;
  }

  lemma LargerMap(m: map<string, string>, id: string, p: string)
    requires id !in m
    ensures |m[id := p]| == |m| + 1
  {
    assert m[id := p].Keys == m.Keys + {id};
    assert |m[id := p]| == |m[id := p].Keys| && |m| == |m.Keys|;
  }

  lemma CountSnoc(log: seq<Line>, line: Line)
    ensures Prescriptions(log + [line]) == Prescriptions(log) + if line.Prescribed? then 1 else 0
  {
    assert (log + [line])[..|log|] == log;
  }

  // An upstream that answers what it was asked

  /** Only forwarded requests are answered, each once. */
  predicate AnswersRequests(steps: seq<Step>) {
    forall n :: 0 <= n < |steps| && steps[n].TakePending? && steps[n].answers && Run(steps[..n]).response.Reading?
                ==> steps[n].id in Run(steps[..n]).awaiting
  }

  /** No request of the upstream's own carries an id that is pending. */
  predicate RequestsApart(steps: seq<Step>) {
    forall n :: 0 <= n < |steps| && steps[n].TakePending? && !steps[n].answers && Run(steps[..n]).response.Reading?
                ==> steps[n].id !in Run(steps[..n]).pending
  }

  lemma {:induction false} AnswersPrefix(steps: seq<Step>, n: nat)
    requires n <= |steps|
    ensures AnswersRequests(steps) ==> AnswersRequests(steps[..n])
    ensures RequestsApart(steps) ==> RequestsApart(steps[..n])
  {
    hide Run;
    forall k | 0 <= k < n ensures steps[..n][..k] == steps[..k] && steps[..n][k] == steps[k] {
    }
  }

  /** The pending prescriptions are those of the requests forwarded and not answered, and of one about to be forwarded. */
  predicate ForwardedPending(s: State) {
    && s.pending.Keys == s.awaiting + (if s.request.Tracked? then {s.request.id} else {})
    && (s.request.Tracked? ==> s.request.id !in s.awaiting)
  }

  lemma {:induction false} PendingWhenApart(steps: seq<Step>)
    requires DistinctInFlight(steps) && AnswersRequests(steps) && RequestsApart(steps)
    ensures ForwardedPending(Run(steps))
  {
    hide Act, Prescriptions, Reports, ForwardedPending;
    if steps == [] {
      NothingForwarded();
    } else {
      var front, last := steps[..|steps| - 1], steps[|steps| - 1];
      DistinctPrefix(steps, |steps| - 1);
      AnswersPrefix(steps, |steps| - 1);
      PendingWhenApart(front);
      PrescriptionsAdd(front);
      StepForwards(Run(front), last);
    }
  }

  lemma NothingForwarded()
    ensures ForwardedPending(Run([]))
  {
  }

  lemma StepForwards(s: State, step: Step)
    requires s.request.Recorded? ==> s.request.id !in s.pending
    requires ForwardedPending(s)
    requires step.TakePending? && step.answers && s.response.Reading? ==> step.id in s.awaiting
    ensures step.TakePending? && !step.answers && s.response.Reading? && step.id in s.pending <==> !ForwardedPending(Act(s, step))
  {
  }

  /** At every moment each request that was forwarded and not answered has its prescription in `pending`, so that no response
      comes too early to be matched, if and only if no request of the upstream's own carries a pending id. */
  lemma ForwardedIsPending(steps: seq<Step>)
    requires DistinctInFlight(steps) && AnswersRequests(steps)
    ensures (forall k :: 0 <= k <= |steps| ==> ForwardedPending(Run(steps[..k]))) <==> RequestsApart(steps)
  {
    hide Act, Run, Prescriptions, Reports, ForwardedPending, DistinctInFlight;
    if RequestsApart(steps) {
      forall k | 0 <= k <= |steps| ensures ForwardedPending(Run(steps[..k])) {
        DistinctPrefix(steps, k);
        AnswersPrefix(steps, k);
        PendingWhenApart(steps[..k]);
      }
    } else {
      var n :| 0 <= n < |steps| && steps[n].TakePending? && !steps[n].answers && Run(steps[..n]).response.Reading?
               && steps[n].id in Run(steps[..n]).pending;
      DistinctPrefix(steps, n);
      PrescriptionsAdd(steps[..n]);
      RunSnoc(steps, n);
      if ForwardedPending(Run(steps[..n])) {
        StepForwards(Run(steps[..n]), steps[n]);
      }
    }
  }

  lemma RunSnoc(steps: seq<Step>, n: nat)
    requires n < |steps|
    ensures Run(steps[..n + 1]) == Act(Run(steps[..n]), steps[n])
  {
    assert steps[..n + 1][..n] == steps[..n];
  }

  /** Between messages, the prescriptions without a report are exactly those of the requests not answered yet. */
  lemma UnreportedAreUnanswered(steps: seq<Step>)
    requires DistinctInFlight(steps) && AnswersRequests(steps) && RequestsApart(steps)
    requires Run(steps).request.Waiting? && Run(steps).response.Reading?
    ensures var s := Run(steps); Prescriptions(s.log) == Reports(s.log) + |s.awaiting|
  {
    hide Run, Prescriptions, Reports;
    PrescriptionsAdd(steps);
    PendingWhenApart(steps);
    var s := Run(steps);
    assert s.pending.Keys == s.awaiting;
    assert |s.pending| == |s.pending.Keys|;
  }

  /** A mutating request, a request of the upstream's own under its id, and the response. */
  function Intrusion(id: string, p: string): (steps: seq<Step>)
    ensures |steps| == 7
  {
    [RecordRequest(id, p), TrackRequest, ForwardRequest, TakePending(id, 0, false), WriteReport, TakePending(id, 1, true), WriteReport]
  }

  function IntrusionLog(p: string, n: nat): seq<Line> {
    if n == 0 then [] else if n < 5 then [Prescribed(p)] else [Prescribed(p), Reported(p, 0, "success")]
  }

  lemma NothingRun()
    ensures Run([]) == START
  {
  }

  lemma IntrusionStates(id: string, p: string)
    ensures var steps := Intrusion(id, p);
            && Run(steps[..0]) == START
            && Run(steps[..3]) == State(IntrusionLog(p, 3), map[id := p], Waiting, Reading, {id}, {})
            && Run(steps[..5]) == State(IntrusionLog(p, 5), map[], Waiting, Reading, {id}, {})
            && Run(steps) == State(IntrusionLog(p, 7), map[], Waiting, Reading, {}, {})
  {
    var steps := Intrusion(id, p);
    assert steps[..0] == [] && steps[..7] == steps;
    hide Run;
    assert Run(steps[..0]) == START by {
      NothingRun();
    }
    RunSnoc(steps, 0);
    RunSnoc(steps, 1);
    RunSnoc(steps, 2);
    assert Run(steps[..3]) == State(IntrusionLog(p, 3), map[id := p], Waiting, Reading, {id}, {});
    RunSnoc(steps, 3);
    RunSnoc(steps, 4);
    assert Run(steps[..5]) == State(IntrusionLog(p, 5), map[], Waiting, Reading, {id}, {});
    RunSnoc(steps, 5);
    RunSnoc(steps, 6);
    assert Run(steps[..6]) == State(IntrusionLog(p, 6), map[], Waiting, Reading, {}, {});
  }

  /** A request of the upstream's own with a pending id is reported as the response, a success; the response, a failure, is
      not reported any more. */
  lemma ServerRequestReported(id: string, p: string)
    ensures var steps := Intrusion(id, p);
            && FreshIds(steps) && DistinctInFlight(steps) && AnswersRequests(steps) && !RequestsApart(steps)
            && Run(steps[..5]).awaiting == {id} && Run(steps).awaiting == {}
            && Run(steps[..5]).log == Run(steps).log == [Prescribed(p), Reported(p, 0, "success")]
  {
    hide Run, Act;
    var steps := Intrusion(id, p);
    IntrusionStates(id, p);
    assert steps[3].TakePending? && !steps[3].answers;
  }

  // The relays

  /** A tools/call request: whether its command is a mutation, and whether its tool is one. */
  datatype Request = Request(id: string, commandMutates: bool, toolMutates: bool)

  class Relay {
    var pending: map<string, string>
    var log: seq<Line>
    const recording: bool

    constructor (recording: bool)
      ensures pending == map[] && log == [] && this.recording == recording
    {
      pending, log, this.recording := map[], [], recording;
    }

    /** What the request relay does with a request before it forwards it. */
    method TrackMutationRequest(req: Request, newPrescription: string)
      modifies this
      ensures var before := START.(log := old(log), pending := old(pending));
              var after := if recording && (req.commandMutates || req.toolMutates)
                           then Act(Act(before, RecordRequest(req.id, newPrescription)), TrackRequest) else before;
              log == after.log && pending == after.pending
    {
      if req.commandMutates {
        if recording {
          log := log + [Prescribed(newPrescription)];
          pending := pending[req.id := newPrescription];
        }
        return;
      }
      if !req.toolMutates {
        return;
      }
      if !recording {
        return;
      }
      log := log + [Prescribed(newPrescription)];
      pending := pending[req.id := newPrescription];
    }

    /** What the response relay does with a response before it forwards it. */
    method MatchResponse(id: string, exitCode: int)
      modifies this
      ensures var before := START.(log := old(log), pending := old(pending));
              recording ==> forall answers ::
                var after := Act(Act(before, TakePending(id, exitCode, answers)), WriteReport);
                log == after.log && pending == after.pending
      ensures recording && id in old(pending) ==>
                log == old(log) + [Reported(old(pending)[id], exitCode, if exitCode == 0 then "success" else "failure")]
      ensures !recording ==> log == old(log) && pending == old(pending) - {id}
    {
      var exists_ := id in pending;
      if exists_ {
        var prescription := pending[id];
        pending := pending - {id};
        if recording {
          log := log + [Reported(prescription, exitCode, VerdictOf(exitCode))];
        }
      }
    }
  }
}
