/** Reports without prescriptions, duplicates, foreign reports and unreported prescriptions
    (internal/signal/protocol_violation.go). */
module ProtocolViolations {
  import opened Wrappers
  import opened Signals

  datatype Kind =
    UnprescribedAction | DuplicateReport | CrossActorReport | ReportWithoutDigest | CrashBeforeReport | StalledOperation

  datatype Event = Event(kind: Kind, timestamp: int, entryRef: string)

  function EventFor(kind: Kind, e: SignalEntry): Event {
    Event(kind, e.timestamp, e.eventId)
  }

  /** The prescription recorded under each event ID; the last one wins. */
  function Prescriptions(entries: seq<SignalEntry>): map<string, SignalEntry> {
    if entries == [] then map[]
    else
      var before, e := Prescriptions(entries[..|entries| - 1]), entries[|entries| - 1];
      if e.isPrescription then before[e.eventId := e] else before
  }

  predicate Names(e: SignalEntry) {
    e.isReport && e.prescriptionId != ""
  }

  /** Report i names a prescription that exists somewhere in the entries. */
  predicate Known(entries: seq<SignalEntry>, i: nat)
    requires i < |entries|
  {
    Names(entries[i]) && entries[i].prescriptionId in Prescriptions(entries)
  }

  /** Same actor, or one of the two is blank. */
  predicate ActorFits(entries: seq<SignalEntry>, i: nat)
    requires i < |entries| && Known(entries, i)
  {
    var rx := Prescriptions(entries)[entries[i].prescriptionId];
    rx.actorId == "" || entries[i].actorId == "" || rx.actorId == entries[i].actorId
  }

  /** An earlier report of the same prescription whose actor fits. */
  ghost predicate SlotTaken(entries: seq<SignalEntry>, i: nat)
    requires i < |entries|
  {
    exists j :: 0 <= j < i && Known(entries, j) && ActorFits(entries, j)
                && entries[j].prescriptionId == entries[i].prescriptionId
  }

  // The four fates of a report that names a prescription, each stated outright

  ghost predicate IsUnprescribed(entries: seq<SignalEntry>, i: nat)
    requires i < |entries|
  {
    Names(entries[i]) && entries[i].prescriptionId !in Prescriptions(entries)
  }

  ghost predicate IsDuplicate(entries: seq<SignalEntry>, i: nat)
    requires i < |entries|
  {
    Known(entries, i) && SlotTaken(entries, i)
  }

  ghost predicate IsCrossActor(entries: seq<SignalEntry>, i: nat)
    requires i < |entries|
  {
    Known(entries, i) && !SlotTaken(entries, i) && !ActorFits(entries, i)
  }

  ghost predicate IsAccepted(entries: seq<SignalEntry>, i: nat)
    requires i < |entries|
  {
    Known(entries, i) && !SlotTaken(entries, i) && ActorFits(entries, i)
  }

  ghost predicate OmitsDigest(entries: seq<SignalEntry>, i: nat)
    requires i < |entries| && Known(entries, i)
  {
    Prescriptions(entries)[entries[i].prescriptionId].artifactDigest != ""
    && entries[i].artifactDigest == "" && entries[i].exitCode.Some?
  }

  /** The event that report i gives rise to, if any. */
  ghost function ReportEvent(entries: seq<SignalEntry>, i: nat): seq<Event>
    requires i < |entries|
  {
    if IsUnprescribed(entries, i) then [EventFor(UnprescribedAction, entries[i])]
    else if IsDuplicate(entries, i) then [EventFor(DuplicateReport, entries[i])]
    else if IsCrossActor(entries, i) then [EventFor(CrossActorReport, entries[i])]
    else if IsAccepted(entries, i) && OmitsDigest(entries, i) then [EventFor(ReportWithoutDigest, entries[i])]
    else []
  }

  ghost function ReportEvents(entries: seq<SignalEntry>, n: nat): seq<Event>
    requires n <= |entries|
  {
    if n == 0 then [] else ReportEvents(entries, n - 1) + ReportEvent(entries, n - 1)
  }

  /** Some report names this prescription. */
  predicate Reported(entries: seq<SignalEntry>, id: string) {
    exists i :: 0 <= i < |entries| && Names(entries[i]) && entries[i].prescriptionId == id
  }

  /** Older than the time to live, and no report at all names it. */
  predicate IsUnreported(entries: seq<SignalEntry>, ttl: int, now: int, e: SignalEntry) {
    e.isPrescription && !Reported(entries, e.eventId) && now - e.timestamp > ttl
  }

  /** The latest report by an actor; the first of those with the latest time. */
  function LatestReport(entries: seq<SignalEntry>, actor: string): Option<SignalEntry> {
    if entries == [] then None
    else
      var before, e := LatestReport(entries[..|entries| - 1], actor), entries[|entries| - 1];
      if e.isReport && e.actorId == actor && (before.None? || e.timestamp > before.value.timestamp) then Some(e) else before
  }

  function UnreportedKind(entries: seq<SignalEntry>, p: SignalEntry): Kind {
    if p.actorId == "" then StalledOperation
    else
      var last := LatestReport(entries, p.actorId);
      if last.Some? && last.value.exitCode.Some? && last.value.exitCode.value != 0 then CrashBeforeReport
      else StalledOperation
  }

  function UnreportedEvents(entries: seq<SignalEntry>, ttl: int, now: int, n: nat): seq<Event>
    requires n <= |entries|
  {
    if n == 0 then []
    else
      var before, e := UnreportedEvents(entries, ttl, now, n - 1), entries[n - 1];
      if IsUnreported(entries, ttl, now, e) then before + [EventFor(UnreportedKind(entries, e), e)] else before
  }

  method ClassifyUnreported(p: SignalEntry, entries: seq<SignalEntry>) returns (kind: Kind)
    ensures kind == UnreportedKind(entries, p)
  {
    if p.actorId == "" {
      return StalledOperation;
    }
    var last: Option<SignalEntry> := None;
    for i := 0 to |entries|
      invariant last == LatestReport(entries[..i], p.actorId)
    {
      var e := entries[i];
      assert entries[..i + 1][..i] == entries[..i];
      if e.isReport && e.actorId == p.actorId {
        if last.None? || e.timestamp > last.value.timestamp {
          last := Some(e);
        }
      }
    }
    assert entries[..|entries|] == entries;
    if last.Some? && last.value.exitCode.Some? && last.value.exitCode.value != 0 {
      return CrashBeforeReport;
    }
    kind := StalledOperation;
  }

  method CollectReported(entries: seq<SignalEntry>) returns (ids: set<string>)
    ensures forall id :: id in ids <==> Reported(entries, id)
  {
    ids := {};
    for i := 0 to |entries|
      invariant forall id :: id in ids <==> exists k :: 0 <= k < i && Names(entries[k]) && entries[k].prescriptionId == id
    {
      if Names(entries[i]) {
        ids := ids + {entries[i].prescriptionId};
      }
    }
  }

  method DetectUnreported(entries: seq<SignalEntry>, ttl: int, now: int) returns (events: seq<Event>)
    ensures events == UnreportedEvents(entries, ttl, now, |entries|)
  {
    hide UnreportedKind;
    var reported := CollectReported(entries);
    events := [];
    for i := 0 to |entries|
      invariant events == UnreportedEvents(entries, ttl, now, i)
    {
      var e := entries[i];
      if !e.isPrescription || e.eventId in reported || now - e.timestamp <= ttl {
        continue;
      }
      var kind := ClassifyUnreported(e, entries);
      events := events + [EventFor(kind, e)];
    }
  }

  method CollectPrescriptions(entries: seq<SignalEntry>) returns (prescriptions: map<string, SignalEntry>)
    ensures prescriptions == Prescriptions(entries)
  {
    prescriptions := map[];
    for i := 0 to |entries|
      invariant prescriptions == Prescriptions(entries[..i])
    {
      assert entries[..i + 1][..i] == entries[..i];
      if entries[i].isPrescription {
        prescriptions := prescriptions[entries[i].eventId := entries[i]];
      }
    }
    assert entries[..|entries|] == entries;
  }

  /** One pass over the reports. `taken` holds the prescriptions whose slot an accepted report has consumed. */
  method DetectReportViolations(entries: seq<SignalEntry>) returns (events: seq<Event>)
    ensures events == ReportEvents(entries, |entries|)
  {
    hide Prescriptions, EventFor;
    var prescriptions := CollectPrescriptions(entries);
    events := [];
    var taken: set<string> := {};
    for i := 0 to |entries|
      invariant events == ReportEvents(entries, i)
      invariant forall id :: id in taken <==>
        exists j :: 0 <= j < i && Known(entries, j) && ActorFits(entries, j) && entries[j].prescriptionId == id
    {
      var e := entries[i];
      if !Names(e) {
        continue;
      }
      if e.prescriptionId !in prescriptions {
        events := events + [EventFor(UnprescribedAction, e)];
        continue;
      }
      assert e.prescriptionId in taken <==> SlotTaken(entries, i);
      if e.prescriptionId in taken {
        events := events + [EventFor(DuplicateReport, e)];
        continue;
      }
      var rx := prescriptions[e.prescriptionId];
      if rx.actorId != "" && e.actorId != "" && rx.actorId != e.actorId {
        events := events + [EventFor(CrossActorReport, e)];
        continue;
      }
      if rx.artifactDigest != "" && e.artifactDigest == "" && e.exitCode.Some? {
        events := events + [EventFor(ReportWithoutDigest, e)];
      }
      taken := taken + {e.prescriptionId};
    }
  }

  method DetectProtocolViolationEvents(entries: seq<SignalEntry>, ttl: int, now: int) returns (events: seq<Event>)
    ensures events == ReportEvents(entries, |entries|) + UnreportedEvents(entries, ttl, now, |entries|)
  {
    var reports := DetectReportViolations(entries);
    var unreported := DetectUnreported(entries, ttl, now);
    events := reports + unreported;
  }

  // Conservation

  /** Every report that names a prescription has exactly one of the four fates. */
  lemma OneFatePerReport(entries: seq<SignalEntry>, i: nat)
    requires i < |entries|
    ensures Names(entries[i]) <==>
            IsUnprescribed(entries, i) || IsDuplicate(entries, i) || IsCrossActor(entries, i) || IsAccepted(entries, i)
    ensures !(IsUnprescribed(entries, i) && (IsDuplicate(entries, i) || IsCrossActor(entries, i) || IsAccepted(entries, i)))
    ensures !(IsDuplicate(entries, i) && (IsCrossActor(entries, i) || IsAccepted(entries, i)))
    ensures !(IsCrossActor(entries, i) && IsAccepted(entries, i))
  {
    hide Prescriptions, SlotTaken, ActorFits;
  }

  /** At most one report is accepted per prescription. */
  lemma AcceptedOnce(entries: seq<SignalEntry>, i: nat, j: nat)
    requires i < |entries| && j < |entries| && IsAccepted(entries, i) && IsAccepted(entries, j)
    requires entries[i].prescriptionId == entries[j].prescriptionId
    ensures i == j
  {
    hide Prescriptions, ActorFits;
    if j < i {
      AcceptedTakesSlot(entries, j, i);
    } else if i < j {
      AcceptedTakesSlot(entries, i, j);
    }
  }

  lemma AcceptedTakesSlot(entries: seq<SignalEntry>, i: nat, j: nat)
    requires i < j < |entries| && IsAccepted(entries, i) && entries[i].prescriptionId == entries[j].prescriptionId
    ensures SlotTaken(entries, j)
  {
    hide Prescriptions, ActorFits;
  }

  /** A known prescription has an accepted report exactly when some report's actor fits, and it is the first of those. */
  lemma AcceptedIsFirstFitting(entries: seq<SignalEntry>, id: string)
    ensures (exists i :: 0 <= i < |entries| && IsAccepted(entries, i) && entries[i].prescriptionId == id)
       <==> (exists i :: 0 <= i < |entries| && Known(entries, i) && ActorFits(entries, i) && entries[i].prescriptionId == id)
    ensures forall i | 0 <= i < |entries| && IsAccepted(entries, i) && entries[i].prescriptionId == id ::
      forall j | 0 <= j < i && Known(entries, j) && entries[j].prescriptionId == id :: !ActorFits(entries, j)
  {
    hide Prescriptions, ActorFits;
    if exists i :: 0 <= i < |entries| && Known(entries, i) && ActorFits(entries, i) && entries[i].prescriptionId == id {
      var i :| 0 <= i < |entries| && Known(entries, i) && ActorFits(entries, i) && entries[i].prescriptionId == id;
      FirstFitting(entries, id, i);
    }
  }

  lemma {:induction false} FirstFitting(entries: seq<SignalEntry>, id: string, i: nat)
    requires i < |entries| && Known(entries, i) && ActorFits(entries, i) && entries[i].prescriptionId == id
    ensures exists k :: 0 <= k <= i && IsAccepted(entries, k) && entries[k].prescriptionId == id
    decreases i
  {
    hide Prescriptions, ActorFits;
    if SlotTaken(entries, i) {
      var j :| 0 <= j < i && Known(entries, j) && ActorFits(entries, j) && entries[j].prescriptionId == entries[i].prescriptionId;
      FirstFitting(entries, id, j);
    } else {
      assert IsAccepted(entries, i);
    }
  }

  function CountKind(events: seq<Event>, kind: Kind): nat {
    if events == [] then 0
    else CountKind(events[..|events| - 1], kind) + if events[|events| - 1].kind == kind then 1 else 0
  }

  lemma {:induction false} CountKindConcat(a: seq<Event>, b: seq<Event>, kind: Kind)
    ensures CountKind(a + b, kind) == CountKind(a, kind) + CountKind(b, kind)
  {
    if b == [] {
      assert a + b == a;
    } else {
      assert (a + b)[..|a + b| - 1] == a + b[..|b| - 1];
      CountKindConcat(a, b[..|b| - 1], kind);
    }
  }

  lemma OneEventCount(e: Event, kind: Kind)
    ensures CountKind([e], kind) == if e.kind == kind then 1 else 0
  {
    assert [e][..0] == [];
  }

  /** Reports that name a prescription, and reports that are accepted, among the first n entries. */
  ghost function NamingReports(entries: seq<SignalEntry>, n: nat): nat
    requires n <= |entries|
  {
    if n == 0 then 0 else NamingReports(entries, n - 1) + if Names(entries[n - 1]) then 1 else 0
  }

  ghost function AcceptedReports(entries: seq<SignalEntry>, n: nat): nat
    requires n <= |entries|
  {
    if n == 0 then 0 else AcceptedReports(entries, n - 1) + if IsAccepted(entries, n - 1) then 1 else 0
  }

  /** Conservation: unprescribed, duplicate and cross-actor events and accepted reports add up to the reports that name
      a prescription. */
  lemma {:induction false} ReportsAreConserved(entries: seq<SignalEntry>, n: nat)
    requires n <= |entries|
    ensures var events := ReportEvents(entries, n);
      CountKind(events, UnprescribedAction) + CountKind(events, DuplicateReport) + CountKind(events, CrossActorReport)
      + AcceptedReports(entries, n) == NamingReports(entries, n)
  {
    hide Prescriptions, ActorFits, SlotTaken, CountKind, Known, OmitsDigest, IsUnprescribed, IsDuplicate, IsCrossActor, IsAccepted;
    NoEvents();
    if n > 0 {
      ReportsAreConserved(entries, n - 1);
      var before, here := ReportEvents(entries, n - 1), ReportEvent(entries, n - 1);
      CountKindConcat(before, here, UnprescribedAction);
      CountKindConcat(before, here, DuplicateReport);
      CountKindConcat(before, here, CrossActorReport);
      OneFatePerReport(entries, n - 1);
      if here != [] {
        OneEventCount(here[0], UnprescribedAction);
        OneEventCount(here[0], DuplicateReport);
        OneEventCount(here[0], CrossActorReport);
      }
    }
  }

  lemma NoEvents()
    ensures forall kind :: CountKind([], kind) == 0
  {
  }

  // Unreported prescriptions

  /** A prescription is flagged exactly when no report at all names it and its age exceeds the time to live. */
  lemma {:induction false} FlaggedIffUnreported(entries: seq<SignalEntry>, ttl: int, now: int, n: nat, event: Event)
    requires n <= |entries|
    ensures event in UnreportedEvents(entries, ttl, now, n)
       <==> exists i :: 0 <= i < n && IsUnreported(entries, ttl, now, entries[i])
                        && event == EventFor(UnreportedKind(entries, entries[i]), entries[i])
  {
    hide UnreportedKind, IsUnreported, EventFor;
    if n > 0 {
      FlaggedIffUnreported(entries, ttl, now, n - 1, event);
    }
  }

  /** The flagged set only grows with the clock, and keeps its order. */
  lemma {:induction false} UnreportedGrowsWithClock(entries: seq<SignalEntry>, ttl: int, now: int, later: int, n: nat, event: Event)
    requires n <= |entries| && now <= later
    ensures event in UnreportedEvents(entries, ttl, now, n) ==> event in UnreportedEvents(entries, ttl, later, n)
  {
    hide UnreportedKind, EventFor;
    if event in UnreportedEvents(entries, ttl, now, n) {
      FlaggedIffUnreported(entries, ttl, now, n, event);
      FlaggedIffUnreported(entries, ttl, later, n, event);
      var i :| 0 <= i < n && IsUnreported(entries, ttl, now, entries[i])
               && event == EventFor(UnreportedKind(entries, entries[i]), entries[i]);
      assert IsUnreported(entries, ttl, later, entries[i]);
    }
  }

  // The events, told from the entries alone

  /** The entry at d is the last prescription with the ID. */
  predicate LastPrescription(entries: seq<SignalEntry>, id: string, d: nat) {
    && d < |entries| && entries[d].isPrescription && entries[d].eventId == id
    && forall k | d < k < |entries| :: !(entries[k].isPrescription && entries[k].eventId == id)
  }

  lemma {:induction false} LastPrescriptionWins(entries: seq<SignalEntry>, id: string)
    ensures id in Prescriptions(entries) ==> exists d: nat :: LastPrescription(entries, id, d) && entries[d] == Prescriptions(entries)[id]
    ensures id !in Prescriptions(entries) ==> forall k | 0 <= k < |entries| :: !(entries[k].isPrescription && entries[k].eventId == id)
  {
    if entries != [] {
      var n := |entries| - 1;
      LastPrescriptionWins(entries[..n], id);
      if entries[n].isPrescription && entries[n].eventId == id {
        assert LastPrescription(entries, id, n);
      } else if id in Prescriptions(entries[..n]) {
        var d: nat :| LastPrescription(entries[..n], id, d) && entries[d] == Prescriptions(entries[..n])[id];
        assert LastPrescription(entries, id, d);
      }
    }
  }

  /** Report i is on prescription d, by the same actor or with one of the two unnamed. */
  predicate FitsOn(entries: seq<SignalEntry>, i: nat, d: nat)
    requires i < |entries|
  {
    && entries[i].isReport && entries[i].prescriptionId != "" && LastPrescription(entries, entries[i].prescriptionId, d)
    && (entries[d].actorId == "" || entries[i].actorId == "" || entries[d].actorId == entries[i].actorId)
  }

  lemma FitsTold(entries: seq<SignalEntry>, i: nat, d: nat)
    requires i < |entries| && LastPrescription(entries, entries[i].prescriptionId, d)
    ensures Known(entries, i) <==> entries[i].isReport && entries[i].prescriptionId != ""
    ensures Known(entries, i) ==> Prescriptions(entries)[entries[i].prescriptionId] == entries[d]
    ensures Known(entries, i) && ActorFits(entries, i) <==> FitsOn(entries, i, d)
  {
    hide Prescriptions;
    LastPrescriptionWins(entries, entries[i].prescriptionId);
    if Known(entries, i) {
      var c: nat :| LastPrescription(entries, entries[i].prescriptionId, c)
                    && entries[c] == Prescriptions(entries)[entries[i].prescriptionId];
      assert c == d;
    }
  }

  lemma SlotTold(entries: seq<SignalEntry>, i: nat, d: nat)
    requires i < |entries| && LastPrescription(entries, entries[i].prescriptionId, d)
    ensures SlotTaken(entries, i) <==> exists j: nat :: j < i && entries[j].prescriptionId == entries[i].prescriptionId && FitsOn(entries, j, d)
  {
    hide LastPrescription, Known, ActorFits;
    forall j: nat | j < i && entries[j].prescriptionId == entries[i].prescriptionId
      ensures Known(entries, j) && ActorFits(entries, j) <==> FitsOn(entries, j, d)
    {
      FitsTold(entries, j, d);
    }
  }

  /** What report i gives rise to: nothing if it names no prescription; an unprescribed action if there is none with the ID; a
      duplicate if an earlier report fitted; a foreign report if its actor is another one; a report without digest if it has
      an exit code but not the digest that its prescription had; nothing otherwise. */
  lemma ReportEventTold(entries: seq<SignalEntry>, i: nat)
    requires i < |entries|
    ensures var e := entries[i];
            var known := exists d: nat :: LastPrescription(entries, e.prescriptionId, d);
            if !e.isReport || e.prescriptionId == "" then ReportEvent(entries, i) == []
            else if !known then ReportEvent(entries, i) == [Event(UnprescribedAction, e.timestamp, e.eventId)]
            else
              exists d: nat :: LastPrescription(entries, e.prescriptionId, d) && KnownReportEvent(entries, i, d)
  {
    hide LastPrescription, Prescriptions, SlotTaken;
    var e := entries[i];
    LastPrescriptionWins(entries, e.prescriptionId);
    if e.isReport && e.prescriptionId != "" {
      if d: nat :| LastPrescription(entries, e.prescriptionId, d) {
        ThereIsOne(entries, e.prescriptionId, d);
        FitsTold(entries, i, d);
        SlotTold(entries, i, d);
        assert KnownReportEvent(entries, i, d);
      }
    }
  }

  lemma ThereIsOne(entries: seq<SignalEntry>, id: string, d: nat)
    requires LastPrescription(entries, id, d)
    ensures d < |entries| && id in Prescriptions(entries)
  {
    hide Prescriptions;
    LastPrescriptionWins(entries, id);
  }

  ghost predicate KnownReportEvent(entries: seq<SignalEntry>, i: nat, d: nat)
    requires i < |entries| && d < |entries|
  {
    var e, rx := entries[i], entries[d];
    ReportEvent(entries, i) ==
    if exists j: nat :: j < i && entries[j].prescriptionId == e.prescriptionId && FitsOn(entries, j, d)
    then [Event(DuplicateReport, e.timestamp, e.eventId)]
    else if rx.actorId != "" && e.actorId != "" && rx.actorId != e.actorId then [Event(CrossActorReport, e.timestamp, e.eventId)]
    else if rx.artifactDigest != "" && e.artifactDigest == "" && e.exitCode.Some? then [Event(ReportWithoutDigest, e.timestamp, e.eventId)]
    else []
  }

  /** Report r is the actor's latest, and the first of those with its time. */
  predicate Latest(entries: seq<SignalEntry>, actor: string, r: nat) {
    && r < |entries| && entries[r].isReport && entries[r].actorId == actor
    && forall k | 0 <= k < |entries| && entries[k].isReport && entries[k].actorId == actor ::
         entries[k].timestamp <= entries[r].timestamp && (k < r ==> entries[k].timestamp < entries[r].timestamp)
  }

  lemma {:induction false} LatestReportIsLatest(entries: seq<SignalEntry>, actor: string)
    ensures LatestReport(entries, actor).Some? ==> exists r: nat :: Latest(entries, actor, r) && entries[r] == LatestReport(entries, actor).value
    ensures LatestReport(entries, actor).None? ==> forall k | 0 <= k < |entries| :: !(entries[k].isReport && entries[k].actorId == actor)
  {
    if entries != [] {
      var n := |entries| - 1;
      LatestReportIsLatest(entries[..n], actor);
      if LatestReport(entries[..n], actor).Some? {
        var r: nat :| Latest(entries[..n], actor, r) && entries[r] == LatestReport(entries[..n], actor).value;
        assert LatestReport(entries, actor) == Some(entries[r]) ==> Latest(entries, actor, r);
        assert LatestReport(entries, actor) != Some(entries[r]) ==> Latest(entries, actor, n);
      } else if LatestReport(entries, actor).Some? {
        assert Latest(entries, actor, n);
      }
    }
  }

  /** An unreported prescription counts as crashed when the latest report of its actor, whatever it was on, failed, and as
      stalled otherwise. */
  lemma UnreportedKindTold(entries: seq<SignalEntry>, p: SignalEntry)
    ensures UnreportedKind(entries, p) ==
            if p.actorId != "" && exists r: nat :: Latest(entries, p.actorId, r) && entries[r].exitCode.Some? && entries[r].exitCode.value != 0
            then CrashBeforeReport else StalledOperation
  {
    hide LatestReport;
    LatestReportIsLatest(entries, p.actorId);
    if q: nat :| Latest(entries, p.actorId, q) {
      assert entries[q].isReport && entries[q].actorId == p.actorId;
      var r: nat :| Latest(entries, p.actorId, r) && entries[r] == LatestReport(entries, p.actorId).value;
      forall s: nat | Latest(entries, p.actorId, s) ensures s == r {
        assert entries[s].timestamp <= entries[r].timestamp && entries[r].timestamp <= entries[s].timestamp;
      }
    }
  }
}
