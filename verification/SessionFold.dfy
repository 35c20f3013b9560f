/** The cached state of one session (sessionState in internal/assessment/tracker.go). */
module SessionFold {
  import opened Wrappers
  import opened Evidence
  import opened Signals
  import opened Score
  import opened Bridge
  import opened Assessment

  datatype Session = Session(
    prescriptions: map<string, CanonicalAction>,
    signalEntries: seq<SignalEntry>,
    totalOps: nat,
    results: seq<SignalResult>,
    resultsDirty: bool,
    invalid: bool,
    snapshots: map<string, Snapshot>)

  const NEW_SESSION := Session(map[], [], 0, [], false, false, map[])

  /** The state after one entry, and whether the entry decoded. */
  function ObserveEntry(s: Session, e: Entry): (Session, bool) {
    if !Decodes(e) then (s.(invalid := true), false)
    else if !Relevant(e) then (s, true)
    else
      var known := if DefinesAction(e) then s.prescriptions[e.entryId := ActionOf(e)] else s.prescriptions;
      (Session(known,
               s.signalEntries + [SignalOf(e, known)],
               if e.kind.Prescribe? then s.totalOps + 1 else s.totalOps,
               s.results,
               true,
               s.invalid || (e.kind.Report? && e.payload.asReport.value.prescriptionId !in s.prescriptions),
               map[]),
       true)
  }

  function EffectiveId(profile: Profile): string {
    if profile.id == "" then "default" else profile.id
  }

  /** The state with its results computed, before a snapshot is looked up. */
  function Refreshed(s: Session, detect: Detector): Session {
    if s.resultsDirty then s.(results := detect(s.signalEntries), resultsDirty := false, snapshots := map[]) else s
  }

  ghost function TakeSnapshot(s: Session, detect: Detector, profile: Profile): (Session, Snapshot)
    requires profile.Validated()
  {
    var clean := Refreshed(s, detect);
    var id := EffectiveId(profile);
    if id in clean.snapshots then (clean, clean.snapshots[id])
    else
      var snapshot := SnapshotOf(profile, clean.results, clean.totalOps);
      (clean.(snapshots := clean.snapshots[id := snapshot]), snapshot)
  }

  /** The session object itself: its fields are updated in place. */
  class SessionState {
    var prescriptions: map<string, CanonicalAction>
    var signalEntries: seq<SignalEntry>
    var totalOps: nat
    var results: seq<SignalResult>
    var resultsDirty: bool
    var invalid: bool
    var snapshots: map<string, Snapshot>

    ghost function Value(): Session
      reads this
    {
      Session(prescriptions, signalEntries, totalOps, results, resultsDirty, invalid, snapshots)
    }

    constructor ()
      ensures Value() == NEW_SESSION
    {
      prescriptions, signalEntries, totalOps, results := map[], [], 0, [];
      resultsDirty, invalid, snapshots := false, false, map[];
    }

    method Observe(e: Entry) returns (ok: bool)
      modifies this
      ensures (Value(), ok) == ObserveEntry(old(Value()), e)
    {
      match e.kind {
        case Prescribe =>
          if e.payload.asPrescription.None? {
            invalid := true;
            return false;
          }
          var p := e.payload.asPrescription.value;
          if p.canonicalAction.Some? {
            prescriptions := prescriptions[e.entryId := p.canonicalAction.value];
          }
          var action := if p.canonicalAction.Some? then p.canonicalAction.value else NO_ACTION;
          signalEntries := signalEntries + [SignalWith(e, action)];
          totalOps := totalOps + 1;
          resultsDirty := true;
          snapshots := map[];
        case Report =>
          if e.payload.asReport.None? {
            invalid := true;
            return false;
          }
          var id := e.payload.asReport.value.prescriptionId;
          if id in prescriptions {
            signalEntries := signalEntries + [SignalWith(e, prescriptions[id])];
          } else {
            invalid := true;
            signalEntries := signalEntries + [SignalWith(e, NO_ACTION)];
          }
          resultsDirty := true;
          snapshots := map[];
        case _ =>
      }
      ok := true;
    }

    method Snapshot(detect: Detector, profile: Profile) returns (snapshot: Snapshot)
      requires profile.Validated()
      modifies this
      ensures (Value(), snapshot) == TakeSnapshot(old(Value()), detect, profile)
    {
      if resultsDirty {
        results := detect(signalEntries);
        resultsDirty := false;
        snapshots := map[];
      }
      var id := if profile.id == "" then "default" else profile.id;
      if id in snapshots {
        return snapshots[id];
      }
      snapshot := BuildFromResults(profile, results, totalOps);
      snapshots := snapshots[id := snapshot];
    }
  }

  /** The profiles a process uses, by effective ID: an ID determines its profile. */
  type Catalogue = map<string, Profile>

  ghost predicate InCatalogue(catalogue: Catalogue, profile: Profile) {
    && profile.Validated()
    && EffectiveId(profile) in catalogue
    && catalogue[EffectiveId(profile)] == profile
  }

  /** Results as the session holds them: none were ever computed for a session without entries. */
  function HeldResults(detect: Detector, signals: seq<SignalEntry>): seq<SignalResult> {
    if signals == [] then [] else detect(signals)
  }

  /** Memoised results and snapshots are those of the entries observed. */
  ghost predicate MemoSound(s: Session, detect: Detector, catalogue: Catalogue) {
    && (s.resultsDirty ==> s.signalEntries != [] && s.snapshots == map[])
    && (!s.resultsDirty ==> s.results == HeldResults(detect, s.signalEntries))
    && (forall id | id in s.snapshots ::
          && id in catalogue
          && catalogue[id].Validated()
          && s.snapshots[id] == SnapshotOf(catalogue[id], s.results, s.totalOps))
  }

  /** The state is what observing exactly these entries leaves behind. */
  ghost predicate Folds(s: Session, entries: seq<Entry>, detect: Detector, catalogue: Catalogue) {
    && AllDecode(entries)
    && s.prescriptions == ActionsOf(entries)
    && s.signalEntries == OnePass(entries)
    && s.totalOps == CountPrescribes(entries)
    && MemoSound(s, detect, catalogue)
  }

  lemma NewSessionFolds(detect: Detector, catalogue: Catalogue)
    ensures Folds(NEW_SESSION, [], detect, catalogue)
  {
  }

  lemma AllDecodeSnoc(entries: seq<Entry>, e: Entry)
    ensures AllDecode(entries + [e]) <==> AllDecode(entries) && Decodes(e)
  {
    var all := entries + [e];
    if AllDecode(all) {
      forall i | 0 <= i < |entries| ensures Decodes(entries[i]) {
        assert Decodes(all[i]);
      }
      assert Decodes(all[|entries|]);
    }
  }

  /** One more observed entry extends what the state folds. */
  lemma ObserveFolds(s: Session, entries: seq<Entry>, e: Entry, detect: Detector, catalogue: Catalogue)
    requires Folds(s, entries, detect, catalogue)
    ensures var (s', ok) := ObserveEntry(s, e);
      && ok == Decodes(e)
      && (ok ==> Folds(s', entries + [e], detect, catalogue))
      && (!ok ==> s'.invalid)
      && (s.invalid ==> s'.invalid)
  {
    AllDecodeSnoc(entries, e);
    if Decodes(e) {
      assert (entries + [e])[..|entries|] == entries;
    }
  }

  /** A snapshot neither forgets nor invents entries, and shows the entries the state folds. */
  lemma SnapshotShowsFold(s: Session, entries: seq<Entry>, detect: Detector, catalogue: Catalogue, profile: Profile)
    requires Folds(s, entries, detect, catalogue) && InCatalogue(catalogue, profile)
    ensures var (s', snapshot) := TakeSnapshot(s, detect, profile);
      && Folds(s', entries, detect, catalogue)
      && s'.invalid == s.invalid
      && snapshot == SnapshotOf(profile, HeldResults(detect, OnePass(entries)), CountPrescribes(entries))
  {
  }

  /** The fold over entries in order, stopping at the first that does not decode. */
  function FoldFrom(s: Session, entries: seq<Entry>): Result<Session, Undecodable>
    decreases |entries|
  {
    if entries == [] then Success(s)
    else
      var (s', ok) := ObserveEntry(s, entries[0]);
      if ok then FoldFrom(s', entries[1..])
      else Failure(if entries[0].kind.Prescribe? then BadPrescription(entries[0].entryId) else BadReport(entries[0].entryId))
  }

  lemma {:induction false} FoldFromFolds(s: Session, before: seq<Entry>, entries: seq<Entry>, detect: Detector, catalogue: Catalogue)
    requires Folds(s, before, detect, catalogue)
    ensures FoldFrom(s, entries).Success? <==> AllDecode(entries)
    ensures FoldFrom(s, entries).Success? ==> Folds(FoldFrom(s, entries).value, before + entries, detect, catalogue)
    decreases |entries|
  {
    if entries == [] {
      assert before + entries == before;
    } else {
      var e := entries[0];
      ObserveFolds(s, before, e, detect, catalogue);
      assert entries == [e] + entries[1..];
      if Decodes(e) {
        var s' := ObserveEntry(s, e).0;
        FoldFromFolds(s', before + [e], entries[1..], detect, catalogue);
        assert before + [e] + entries[1..] == before + entries;
        assert AllDecode(entries[1..]) ==> AllDecode(entries) by {
          if AllDecode(entries[1..]) {
            forall i | 0 <= i < |entries| ensures Decodes(entries[i]) {
              assert i > 0 ==> entries[i] == entries[1..][i - 1];
            }
          }
        }
        assert AllDecode(entries) ==> AllDecode(entries[1..]) by {
          assert forall i | 0 <= i < |entries[1..]| :: entries[1..][i] == entries[i + 1];
        }
      }
    }
  }

  /** What the cache shows for a session with these entries. */
  ghost function FoldSnapshot(detect: Detector, entries: seq<Entry>, profile: Profile): Result<Snapshot, Undecodable>
    requires profile.Validated()
  {
    match FoldFrom(NEW_SESSION, entries)
    case Failure(error) => Failure(error)
    case Success(s) => Success(TakeSnapshot(s, detect, profile).1)
  }

  lemma FoldSnapshotValue(detect: Detector, entries: seq<Entry>, profile: Profile)
    requires profile.Validated()
    ensures FoldSnapshot(detect, entries, profile).Success? <==> AllDecode(entries)
    ensures AllDecode(entries) ==>
      FoldSnapshot(detect, entries, profile)
      == Success(SnapshotOf(profile, HeldResults(detect, OnePass(entries)), CountPrescribes(entries)))
  {
    var catalogue := map[EffectiveId(profile) := profile];
    NewSessionFolds(detect, catalogue);
    FoldFromFolds(NEW_SESSION, [], entries, detect, catalogue);
    assert [] + entries == entries;
    if AllDecode(entries) {
      SnapshotShowsFold(FoldFrom(NEW_SESSION, entries).value, entries, detect, catalogue, profile);
    }
  }

  predicate AnyRelevant(entries: seq<Entry>) {
    exists i :: 0 <= i < |entries| && Relevant(entries[i])
  }

  lemma {:induction false} NothingRelevant(entries: seq<Entry>)
    requires AllDecode(entries)
    ensures OnePass(entries) == [] <==> !AnyRelevant(entries)
    ensures !AnyRelevant(entries) ==> CountPrescribes(entries) == 0
  {
    if entries != [] {
      var n := |entries| - 1;
      NothingRelevant(entries[..n]);
      if AnyRelevant(entries[..n]) {
        var i :| 0 <= i < n && Relevant(entries[..n][i]);
        assert Relevant(entries[i]);
      }
    }
  }

  /** Cache and reference agree, on values and on which logs they reject, for a session that has a prescribe or report
      entry and no prescription defined after a report that names it. */
  lemma FoldMatchesFromScratch(detect: Detector, log: seq<Entry>, sessionId: string, profile: Profile)
    requires profile.Validated()
    requires AllDecode(FilterSession(log, sessionId)) ==> NoLatePrescribe(FilterSession(log, sessionId))
    requires AnyRelevant(FilterSession(log, sessionId))
    ensures var cached := FoldSnapshot(detect, FilterSession(log, sessionId), profile);
      var reference := FromScratch(detect, log, sessionId, profile);
      && (cached.Success? <==> reference.Success?)
      && (cached.Success? ==> cached == reference)
  {
    var entries := FilterSession(log, sessionId);
    FoldSnapshotValue(detect, entries, profile);
    FirstBadAgree(entries);
    if AllDecode(entries) {
      NothingRelevant(entries);
      OnePassIsTwoPass(entries);
    }
  }

  /** For a session without prescribe and report entries the two agree exactly when the detectors report nothing at
      all on an empty list: the cache never runs them, so its signal summary is empty. */
  lemma EmptySessionDiffers(detect: Detector, log: seq<Entry>, sessionId: string, profile: Profile)
    requires profile.Validated()
    requires !AnyRelevant(FilterSession(log, sessionId))
    ensures FoldSnapshot(detect, FilterSession(log, sessionId), profile) == FromScratch(detect, log, sessionId, profile)
       <==> detect([]) == []
  {
    var entries := FilterSession(log, sessionId);
    assert AllDecode(entries);
    NothingRelevant(entries);
    FoldSnapshotValue(detect, entries, profile);
    FirstBadAgree(entries);
    PassesHaveOneLength(entries, ActionsOf(entries));
    assert SignalsWith(entries, ActionsOf(entries)) == [];
    SummaryOf(profile, [], 0);
    SummaryOf(profile, detect([]), 0);
    if detect([]) != [] {
      CountsNonEmpty(detect([]));
    }
  }

  lemma SummaryOf(profile: Profile, results: seq<SignalResult>, totalOps: nat)
    requires profile.Validated()
    ensures SnapshotOf(profile, results, totalOps).summary == CountsOf(results)
  {
  }

  lemma CountsNonEmpty(results: seq<SignalResult>)
    requires results != []
    ensures CountsOf(results) != map[]
  {
    assert results[|results| - 1].name in CountsOf(results);
  }
}
