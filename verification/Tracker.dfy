/** The per-path tracker: cached sessions and a fingerprint of the manifest (internal/assessment/tracker.go).
    The log on disk is passed to each call; appending and observing are separate steps of a run. */
module Tracker {
  import opened Wrappers
  import opened Evidence
  import opened Signals
  import opened Score
  import opened Bridge
  import opened Assessment
  import opened SessionFold

  datatype Fingerprint = Fingerprint(recordsTotal: nat, lastHash: string)

  const NO_FINGERPRINT := Fingerprint(0, "")

  /** What the manifest says about this log; a store nobody has appended to has no manifest. */
  function DiskPrint(log: seq<Entry>): Option<Fingerprint> {
    if log == [] then None else Some(Fingerprint(|log|, log[|log| - 1].hash))
  }

  /** Two logs look alike exactly when they are as long as each other and end in the same hash. */
  lemma SamePrint(a: seq<Entry>, b: seq<Entry>)
    ensures DiskPrint(a) == DiskPrint(b) <==> |a| == |b| && (a != [] && b != [] ==> a[|a| - 1].hash == b[|b| - 1].hash)
  {
  }

  datatype State = State(sessions: map<string, Session>, manifest: Fingerprint, manifestKnown: bool, scanCount: nat)

  const NEW_TRACKER := State(map[], NO_FINGERPRINT, false, 0)

  function Refresh(t: State, log: seq<Entry>): State {
    match DiskPrint(log)
    case None => t.(manifest := NO_FINGERPRINT, manifestKnown := false)
    case Some(current) => t.(manifest := current, manifestKnown := true)
  }

  /** The manifest moved since the tracker last looked. */
  predicate Moved(t: State, log: seq<Entry>) {
    t.manifestKnown && if log == [] then t.manifest != NO_FINGERPRINT else t.manifest != DiskPrint(log).value
  }

  /** The effect of observing an entry that is already on the log. */
  function Observe(t: State, log: seq<Entry>, e: Entry): State {
    if e.sessionId == "" then t
    else
      var s := if e.sessionId in t.sessions then t.sessions[e.sessionId] else NEW_SESSION;
      var t' := t.(sessions := t.sessions[e.sessionId := ObserveEntry(s, e).0]);
      if t.manifestKnown then t'.(manifest := Fingerprint(t.manifest.recordsTotal + 1, e.hash)) else Refresh(t', log)
  }

  /** A snapshot can be answered from the cache. */
  predicate Cached(t: State, log: seq<Entry>, sessionId: string) {
    sessionId in t.sessions && !t.sessions[sessionId].invalid && !Moved(t, log)
  }

  /** Scan the log for one session and answer from the rebuilt state; a scan that fails changes nothing. */
  ghost function RebuildStep(t: State, log: seq<Entry>, detect: Detector, sessionId: string, profile: Profile)
    : (State, Result<Snapshot, Undecodable>)
    requires profile.Validated()
  {
    match FoldFrom(NEW_SESSION, FilterSession(log, sessionId))
    case Failure(error) => (t, Failure(error))
    case Success(rebuilt) =>
      var (s, snapshot) := TakeSnapshot(rebuilt, detect, profile);
      (Refresh(t.(sessions := t.sessions[sessionId := s], scanCount := t.scanCount + 1), log), Success(snapshot))
  }

  ghost function SnapshotStep(t: State, log: seq<Entry>, detect: Detector, sessionId: string, profile: Profile)
    : (State, Result<Snapshot, Undecodable>)
    requires profile.Validated()
  {
    if sessionId == "" then (t, FromScratch(detect, log, "", profile))
    else if Cached(t, log, sessionId) then
      var (s, snapshot) := TakeSnapshot(t.sessions[sessionId], detect, profile);
      (Refresh(t, log).(sessions := t.sessions[sessionId := s]), Success(snapshot))
    else
      RebuildStep(Refresh(t, log), log, detect, sessionId, profile)
  }

  class SessionTracker {
    var sessions: map<string, SessionState>
    var manifest: Fingerprint
    var manifestKnown: bool
    var scanCount: nat

    ghost function Objects(): set<SessionState>
      reads this`sessions
    {
      set id | id in sessions :: sessions[id]
    }

    /** No two sessions share their state. */
    ghost predicate Valid()
      reads this`sessions
    {
      forall a, b | a in sessions && b in sessions && a != b :: sessions[a] != sessions[b]
    }

    ghost function Sessions(): map<string, Session>
      reads this`sessions, Objects()
    {
      map id | id in sessions :: sessions[id].Value()
    }

    ghost function Value(): State
      reads this, Objects()
    {
      State(Sessions(), manifest, manifestKnown, scanCount)
    }

    constructor ()
      ensures Valid() && Value() == NEW_TRACKER
    {
      sessions, manifest, manifestKnown, scanCount := map[], NO_FINGERPRINT, false, 0;
    }

    method RefreshManifest(log: seq<Entry>)
      modifies this`manifest, this`manifestKnown
      ensures Value() == Refresh(old(Value()), log)
    {
      var current := DiskPrint(log);
      manifest := if current.Some? then current.value else NO_FINGERPRINT;
      manifestKnown := current.Some?;
    }

    method RefreshAndCheckManifest(log: seq<Entry>) returns (changed: bool)
      modifies this`manifest, this`manifestKnown
      ensures Value() == Refresh(old(Value()), log)
      ensures changed == Moved(old(Value()), log)
    {
      var current := DiskPrint(log);
      if current.None? {
        changed := manifestKnown && (manifest.recordsTotal != 0 || manifest.lastHash != "");
        manifest := NO_FINGERPRINT;
        manifestKnown := false;
        return;
      }
      if !manifestKnown {
        manifest := current.value;
        manifestKnown := true;
        return false;
      }
      changed := manifest != current.value;
      manifest := current.value;
    }

    /** Put a state object in place of, or beside, the others. */
    method Install(sessionId: string, state: SessionState)
      requires Valid() && state !in Objects()
      modifies this`sessions
      ensures Valid() && Objects() <= old(Objects()) + {state}
      ensures sessionId in sessions && sessions[sessionId] == state
      ensures Sessions() == old(Sessions())[sessionId := state.Value()]
    {
      sessions := sessions[sessionId := state];
    }

    /** When one session object alone changes, one session alone changes. */
    twostate lemma OnlyOneChanged(sessionId: string)
      requires Valid() && sessions == old(sessions) && sessionId in sessions
      requires forall id | id in sessions && id != sessionId :: unchanged(sessions[id])
      ensures Sessions() == old(Sessions())[sessionId := sessions[sessionId].Value()]
    {
      assert forall id | id in sessions && id != sessionId :: sessions[id].Value() == old(sessions[id].Value());
    }

    method ObserveKnown(e: Entry)
      requires Valid() && e.sessionId in sessions
      modifies sessions[e.sessionId]
      ensures Sessions() == old(Sessions())[e.sessionId := ObserveEntry(old(Sessions())[e.sessionId], e).0]
    {
      var state := sessions[e.sessionId];
      var ok := state.Observe(e);
      if !ok {
        state.invalid := true;
      }
      assert state.Value() == ObserveEntry(old(state.Value()), e).0;
      OnlyOneChanged(e.sessionId);
    }

    method ObserveInSession(e: Entry)
      requires Valid()
      modifies this`sessions, Objects()
      ensures Valid() && fresh(Objects() - old(Objects()))
      ensures var s := if e.sessionId in old(Sessions()) then old(Sessions())[e.sessionId] else NEW_SESSION;
        Sessions() == old(Sessions())[e.sessionId := ObserveEntry(s, e).0]
    {
      if e.sessionId !in sessions {
        var created := new SessionState();
        Install(e.sessionId, created);
      }
      ObserveKnown(e);
    }

    method ObserveAppended(log: seq<Entry>, e: Entry)
      requires Valid()
      modifies this, Objects()
      ensures Valid() && fresh(Objects() - old(Objects()))
      ensures Value() == Observe(old(Value()), log, e)
    {
      if e.sessionId == "" {
        return;
      }
      ObserveInSession(e);
      if manifestKnown {
        manifest := Fingerprint(manifest.recordsTotal + 1, e.hash);
        return;
      }
      RefreshManifest(log);
    }

    /** Scan the log for one session; only a scan without decoding errors replaces the cached state. */
    method Rebuild(log: seq<Entry>, sessionId: string) returns (r: Result<SessionState, Undecodable>)
      requires Valid() && sessionId != ""
      modifies this
      ensures Valid() && fresh(Objects() - old(Objects()))
      ensures r.Failure? ==>
        && Value() == old(Value())
        && FoldFrom(NEW_SESSION, FilterSession(log, sessionId)) == Failure(r.error)
      ensures r.Success? ==>
        && fresh(r.value)
        && FoldFrom(NEW_SESSION, FilterSession(log, sessionId)) == Success(r.value.Value())
        && sessionId in sessions && sessions[sessionId] == r.value
        && Sessions() == old(Sessions())[sessionId := r.value.Value()]
        && Value() == Refresh(old(Value()).(sessions := Sessions(), scanCount := old(scanCount) + 1), log)
    {
      r := ScanSession(log, sessionId);
      if r.Success? {
        scanCount := scanCount + 1;
        Install(sessionId, r.value);
        RefreshManifest(log);
      }
    }

    /** Take a snapshot of a cached session. */
    method SnapshotCached(detect: Detector, sessionId: string, profile: Profile) returns (snapshot: Assessment.Snapshot)
      requires Valid() && sessionId in sessions && profile.Validated()
      modifies sessions[sessionId]
      ensures snapshot == TakeSnapshot(old(Sessions())[sessionId], detect, profile).1
      ensures Sessions() == old(Sessions())[sessionId := TakeSnapshot(old(Sessions())[sessionId], detect, profile).0]
    {
      snapshot := sessions[sessionId].Snapshot(detect, profile);
      OnlyOneChanged(sessionId);
    }

    method SnapshotRebuilt(log: seq<Entry>, detect: Detector, sessionId: string, profile: Profile)
      returns (r: Result<Assessment.Snapshot, Undecodable>)
      requires Valid() && sessionId != "" && profile.Validated()
      modifies this
      ensures Valid() && fresh(Objects() - old(Objects()))
      ensures Value() == RebuildStep(old(Value()), log, detect, sessionId, profile).0
      ensures r == RebuildStep(old(Value()), log, detect, sessionId, profile).1
    {
      hide RebuildStep, TakeSnapshot;
      var rebuilt := Rebuild(log, sessionId);
      RebuildStepIs(old(Value()), log, detect, sessionId, profile);
      if rebuilt.Failure? {
        return Failure(rebuilt.error);
      }
      ghost var installed := Value();
      var snapshot := SnapshotCached(detect, sessionId, profile);
      assert Value() == installed.(sessions := Sessions());
      r := Success(snapshot);
    }

    method Snapshot(log: seq<Entry>, detect: Detector, sessionId: string, profile: Profile)
      returns (r: Result<Assessment.Snapshot, Undecodable>)
      requires Valid() && profile.Validated()
      modifies this, Objects()
      ensures Valid() && fresh(Objects() - old(Objects()))
      ensures Value() == SnapshotStep(old(Value()), log, detect, sessionId, profile).0
      ensures r == SnapshotStep(old(Value()), log, detect, sessionId, profile).1
    {
      if sessionId == "" {
        r := BuildSnapshotFromEntries(detect, log, "", profile);
        return;
      }
      var changed := RefreshAndCheckManifest(log);
      if sessionId in sessions && !sessions[sessionId].invalid && !changed {
        var snapshot := SnapshotCached(detect, sessionId, profile);
        return Success(snapshot);
      }
      r := SnapshotRebuilt(log, detect, sessionId, profile);
    }
  }

  lemma RebuildStepIs(t: State, log: seq<Entry>, detect: Detector, sessionId: string, profile: Profile)
    requires profile.Validated()
    ensures var fold := FoldFrom(NEW_SESSION, FilterSession(log, sessionId));
      && (fold.Failure? ==> RebuildStep(t, log, detect, sessionId, profile) == (t, Failure(fold.error)))
      && (fold.Success? ==>
            var (s, snapshot) := TakeSnapshot(fold.value, detect, profile);
            var installed := Refresh(t.(sessions := t.sessions[sessionId := fold.value], scanCount := t.scanCount + 1), log);
            RebuildStep(t, log, detect, sessionId, profile)
            == (installed.(sessions := installed.sessions[sessionId := s]), Success(snapshot)))
  {
    var fold := FoldFrom(NEW_SESSION, FilterSession(log, sessionId));
    if fold.Success? {
      var s := TakeSnapshot(fold.value, detect, profile).0;
      assert t.sessions[sessionId := fold.value][sessionId := s] == t.sessions[sessionId := s];
    }
  }

  method ScanSession(log: seq<Entry>, sessionId: string) returns (r: Result<SessionState, Undecodable>)
    requires sessionId != ""
    ensures r.Success? ==> fresh(r.value)
    ensures FoldFrom(NEW_SESSION, FilterSession(log, sessionId))
         == if r.Success? then Success(r.value.Value()) else Failure(r.error)
  {
    var state := new SessionState();
    ghost var mine: seq<Entry> := [];
    for i := 0 to |log|
      invariant mine == FilterSession(log[..i], sessionId)
      invariant FoldFrom(NEW_SESSION, mine) == Success(state.Value())
      invariant fresh(state)
    {
      var e := log[i];
      assert log[..i + 1] == log[..i] + [e];
      FilterAppend(log[..i], e, sessionId);
      if e.sessionId == sessionId {
        FoldFromAppend(NEW_SESSION, mine, e);
        var ok := state.Observe(e);
        mine := mine + [e];
        if !ok {
          FailureStays(log, i + 1, sessionId);
          return Failure(if e.kind.Prescribe? then BadPrescription(e.entryId) else BadReport(e.entryId));
        }
      }
    }
    assert log[..|log|] == log;
    r := Success(state);
  }

  /** Folding one more entry continues from where the fold of the others ended. */
  lemma {:induction false} FoldFromAppend(s: Session, entries: seq<Entry>, e: Entry)
    ensures FoldFrom(s, entries + [e]) ==
      match FoldFrom(s, entries)
      case Failure(error) => Failure(error)
      case Success(t) =>
        var (t', ok) := ObserveEntry(t, e);
        if ok then Success(t')
        else Failure(if e.kind.Prescribe? then BadPrescription(e.entryId) else BadReport(e.entryId))
    decreases |entries|
  {
    if entries == [] {
      assert entries + [e] == [e];
    } else {
      assert (entries + [e])[1..] == entries[1..] + [e];
      FoldFromAppend(ObserveEntry(s, entries[0]).0, entries[1..], e);
    }
  }

  /** A fold that failed on a prefix of the log fails on the log, with the same error. */
  lemma {:induction false} FailureStays(log: seq<Entry>, i: nat, sessionId: string)
    requires i <= |log| && FoldFrom(NEW_SESSION, FilterSession(log[..i], sessionId)).Failure?
    ensures FoldFrom(NEW_SESSION, FilterSession(log, sessionId)) == FoldFrom(NEW_SESSION, FilterSession(log[..i], sessionId))
    decreases |log| - i
  {
    if i == |log| {
      assert log[..i] == log;
    } else {
      assert log[..i + 1] == log[..i] + [log[i]];
      FilterAppend(log[..i], log[i], sessionId);
      FoldFromAppend(NEW_SESSION, FilterSession(log[..i], sessionId), log[i]);
      FailureStays(log, i + 1, sessionId);
    }
  }
}
