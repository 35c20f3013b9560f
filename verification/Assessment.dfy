/** Assessment snapshots built from detector results (internal/assessment/assessment.go). */
module Assessment {
  import opened Wrappers
  import opened Evidence
  import opened Signals
  import opened Score
  import opened Bridge

  const PREVIEW_MIN_OPERATIONS := 1

  datatype Mode = Preview | Sufficient

  datatype Snapshot = Snapshot(
    score: real,
    band: string,
    profileId: string,
    summary: map<string, nat>,
    confidence: Confidence,
    mode: Mode,
    sufficient: bool,
    totalOperations: nat,
    threshold: int)

  /** Detector input to detector results, at one fixed reading of the clock. */
  type Detector = seq<SignalEntry> -> seq<SignalResult>

  function Select(profile: Profile, strict: Scorecard, preview: Scorecard, totalOps: nat): Snapshot {
    var card := if strict.sufficient then strict else preview;
    Snapshot(card.score, card.band, card.profileId, card.signals, card.confidence,
             if strict.sufficient then Sufficient else Preview, strict.sufficient, totalOps, profile.minOperations)
  }

  ghost function SnapshotOf(profile: Profile, results: seq<SignalResult>, totalOps: nat): Snapshot
    requires profile.Validated()
  {
    Select(profile,
           ScorecardOf(profile, results, totalOps, 0.0, profile.minOperations),
           ScorecardOf(profile, results, totalOps, 0.0, PREVIEW_MIN_OPERATIONS),
           totalOps)
  }

  method BuildFromResults(profile: Profile, results: seq<SignalResult>, totalOps: nat) returns (s: Snapshot)
    requires profile.Validated()
    ensures s == SnapshotOf(profile, results, totalOps)
  {
    var strict := ComputeWithMinOperations(profile, results, totalOps, 0.0, profile.minOperations);
    var preview := ComputeWithMinOperations(profile, results, totalOps, 0.0, PREVIEW_MIN_OPERATIONS);
    s := Select(profile, strict, preview, totalOps);
  }

  /** A snapshot shows -1 only for a session without operations; any other session gets a score in 0..100. */
  lemma PreviewScoresEveryOperation(profile: Profile, results: seq<SignalResult>, totalOps: nat)
    requires profile.Validated() && profile.WithinRange()
    ensures var s := SnapshotOf(profile, results, totalOps);
      && (s.score == -1.0 <==> totalOps == 0)
      && (totalOps > 0 ==> 0.0 <= s.score <= 100.0)
      && (s.mode == Sufficient <==> totalOps >= profile.minOperations)
  {
    ScoreInRange(profile, results, totalOps, 0.0, profile.minOperations);
    ScoreInRange(profile, results, totalOps, 0.0, PREVIEW_MIN_OPERATIONS);
    ScoreIsLeastBound(profile, results, totalOps, 0.0, profile.minOperations);
    ScoreIsLeastBound(profile, results, totalOps, 0.0, PREVIEW_MIN_OPERATIONS);
  }

  /** A snapshot shows the strict scorecard once the profile's minimum is met, and before that the one for a minimum of a
      single operation, with the signals of the results and the operations counted either way. */
  lemma SnapshotTold(profile: Profile, results: seq<SignalResult>, totalOps: nat)
    requires profile.Validated()
    ensures var s := SnapshotOf(profile, results, totalOps);
            var met := totalOps >= profile.minOperations;
            var card := ScorecardOf(profile, results, totalOps, 0.0, if met then profile.minOperations else 1);
            && s.sufficient == met && s.mode == (if met then Sufficient else Preview)
            && s.score == card.score && s.band == card.band && s.confidence == card.confidence
            && s.profileId == profile.id && TellsCounts(s.summary, results)
            && s.totalOperations == totalOps && s.threshold == profile.minOperations
  {
    hide TellsCounts, CountsOf, FinalScore;
    ScorecardTold(profile, results, totalOps, 0.0, profile.minOperations);
    ScorecardTold(profile, results, totalOps, 0.0, 1);
  }

  /** The entries of one session; the empty ID selects everything. */
  function FilterSession(entries: seq<Entry>, sessionId: string): seq<Entry> {
    if entries == [] then []
    else
      var e := entries[|entries| - 1];
      var front := FilterSession(entries[..|entries| - 1], sessionId);
      if sessionId == "" || e.sessionId == sessionId then front + [e] else front
  }

  lemma FilterAppend(log: seq<Entry>, e: Entry, sessionId: string)
    ensures FilterSession(log + [e], sessionId)
         == if sessionId == "" || e.sessionId == sessionId then FilterSession(log, sessionId) + [e]
            else FilterSession(log, sessionId)
  {
    assert (log + [e])[..|log|] == log;
  }

  /** The reference: a snapshot computed from all the entries, without any cache. */
  ghost function FromScratch(detect: Detector, entries: seq<Entry>, sessionId: string, profile: Profile): Result<Snapshot, Undecodable>
    requires profile.Validated()
  {
    match TwoPass(FilterSession(entries, sessionId))
    case Failure(error) => Failure(error)
    case Success(signals) => Success(SnapshotOf(profile, detect(signals), CountPrescriptions(signals)))
  }

  method BuildSnapshotFromEntries(detect: Detector, entries: seq<Entry>, sessionId: string, profile: Profile)
    returns (r: Result<Snapshot, Undecodable>)
    requires profile.Validated()
    ensures r == FromScratch(detect, entries, sessionId, profile)
  {
    var filtered: seq<Entry> := [];
    for i := 0 to |entries|
      invariant filtered == FilterSession(entries[..i], sessionId)
    {
      assert entries[..i + 1][..i] == entries[..i];
      if sessionId == "" || entries[i].sessionId == sessionId {
        filtered := filtered + [entries[i]];
      }
    }
    assert entries[..|entries|] == entries;
    var bridged := EvidenceToSignalEntries(filtered);
    match bridged {
      case Failure(error) =>
        r := Failure(error);
      case Success(signals) =>
        var count := 0;
        for i := 0 to |signals|
          invariant count == CountPrescriptions(signals[..i])
        {
          assert signals[..i + 1][..i] == signals[..i];
          if signals[i].isPrescription {
            count := count + 1;
          }
        }
        assert signals[..|signals|] == signals;
        var snapshot := BuildFromResults(profile, detect(signals), count);
        r := Success(snapshot);
    }
  }
}
