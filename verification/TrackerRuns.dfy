/** Whole runs of the tracker beside the log: when a snapshot is fresh, and runs on which it is not. */
module TrackerRuns {
  import opened Wrappers
  import opened Evidence
  import opened Signals
  import opened Score
  import opened Bridge
  import opened Assessment
  import opened SessionFold
  import opened Tracker

  /** This process appends and observes an entry; an entry is appended that the tracker does not observe; a snapshot. */
  datatype Step = OwnAppend(e: Entry) | UnobservedAppend(e: Entry) | TakeSnapshotOf(sessionId: string, profile: Profile)

  datatype World = World(log: seq<Entry>, tracker: State)

  /** Appending demands a session ID, and the profiles in use are those of the catalogue. */
  ghost predicate Possible(step: Step, catalogue: Catalogue) {
    match step
    case OwnAppend(e) => e.sessionId != ""
    case UnobservedAppend(e) => e.sessionId != ""
    case TakeSnapshotOf(_, profile) => InCatalogue(catalogue, profile)
  }

  ghost function Exec(w: World, step: Step, detect: Detector, catalogue: Catalogue): World
    requires Possible(step, catalogue)
  {
    match step
    case OwnAppend(e) => World(w.log + [e], Observe(w.tracker, w.log + [e], e))
    case UnobservedAppend(e) => w.(log := w.log + [e])
    case TakeSnapshotOf(id, profile) => w.(tracker := SnapshotStep(w.tracker, w.log, detect, id, profile).0)
  }

  ghost predicate AllPossible(steps: seq<Step>, catalogue: Catalogue) {
    forall i | 0 <= i < |steps| :: Possible(steps[i], catalogue)
  }

  ghost function Run(w: World, steps: seq<Step>, detect: Detector, catalogue: Catalogue): World
    requires AllPossible(steps, catalogue)
    decreases |steps|
  {
    if steps == [] then w else Run(Exec(w, steps[0], detect, catalogue), steps[1..], detect, catalogue)
  }

  ghost function Answer(w: World, detect: Detector, sessionId: string, profile: Profile): Result<Snapshot, Undecodable>
    requires profile.Validated()
  {
    SnapshotStep(w.tracker, w.log, detect, sessionId, profile).1
  }

  ghost function Mine(w: World, sessionId: string): seq<Entry> {
    FilterSession(w.log, sessionId)
  }

  /** The cached state of a session is marked invalid or folds everything the log holds for it. */
  ghost predicate UpToDate(w: World, sessionId: string, detect: Detector, catalogue: Catalogue) {
    && sessionId in w.tracker.sessions
    && (w.tracker.sessions[sessionId].invalid
        || Folds(w.tracker.sessions[sessionId], Mine(w, sessionId), detect, catalogue))
  }

  lemma MineAfterAppend(w: World, e: Entry, sessionId: string, tracker: State)
    requires sessionId != ""
    ensures Mine(World(w.log + [e], tracker), sessionId)
         == if e.sessionId == sessionId then Mine(w, sessionId) + [e] else Mine(w, sessionId)
  {
    FilterAppend(w.log, e, sessionId);
  }

  /** Observing keeps an up-to-date session up to date. */
  lemma OwnAppendKeepsUpToDate(w: World, e: Entry, sessionId: string, detect: Detector, catalogue: Catalogue)
    requires sessionId != "" && e.sessionId != "" && UpToDate(w, sessionId, detect, catalogue)
    ensures UpToDate(Exec(w, OwnAppend(e), detect, catalogue), sessionId, detect, catalogue)
  {
    hide TakeSnapshot, OnePass, ActionsOf, Folds, FilterSession;
    var s := w.tracker.sessions[sessionId];
    MineAfterAppend(w, e, sessionId, Observe(w.tracker, w.log + [e], e));
    if e.sessionId == sessionId {
      if s.invalid {
        assert ObserveEntry(s, e).0.invalid;
      } else {
        ObserveFolds(s, Mine(w, sessionId), e, detect, catalogue);
      }
    }
  }

  /** A rebuild that succeeds leaves the session up to date and answers with the fold. */
  lemma RebuildFolds(w: World, sessionId: string, profile: Profile, detect: Detector, catalogue: Catalogue)
    requires sessionId != "" && InCatalogue(catalogue, profile) && !Cached(w.tracker, w.log, sessionId)
    ensures Answer(w, detect, sessionId, profile) == FoldSnapshot(detect, Mine(w, sessionId), profile)
    ensures var w' := Exec(w, TakeSnapshotOf(sessionId, profile), detect, catalogue);
      if AllDecode(Mine(w, sessionId)) then
        && sessionId in w'.tracker.sessions
        && Folds(w'.tracker.sessions[sessionId], Mine(w, sessionId), detect, catalogue)
        && w'.tracker.scanCount == w.tracker.scanCount + 1
      else
        && w'.tracker.sessions == w.tracker.sessions
        && w'.tracker.scanCount == w.tracker.scanCount
  {
    var mine := Mine(w, sessionId);
    NewSessionFolds(detect, catalogue);
    FoldFromFolds(NEW_SESSION, [], mine, detect, catalogue);
    assert [] + mine == mine;
    RebuildStepIs(Refresh(w.tracker, w.log), w.log, detect, sessionId, profile);
    if AllDecode(mine) {
      SnapshotShowsFold(FoldFrom(NEW_SESSION, mine).value, mine, detect, catalogue, profile);
    }
  }

  /** An answer from the cache is the fold, if the cached state folds what the log holds. */
  lemma CachedAnswerFolds(w: World, sessionId: string, profile: Profile, detect: Detector, catalogue: Catalogue)
    requires sessionId != "" && InCatalogue(catalogue, profile) && Cached(w.tracker, w.log, sessionId)
    requires UpToDate(w, sessionId, detect, catalogue)
    ensures Answer(w, detect, sessionId, profile) == FoldSnapshot(detect, Mine(w, sessionId), profile)
    ensures UpToDate(Exec(w, TakeSnapshotOf(sessionId, profile), detect, catalogue), sessionId, detect, catalogue)
    ensures !Exec(w, TakeSnapshotOf(sessionId, profile), detect, catalogue).tracker.sessions[sessionId].invalid
  {
    hide TakeSnapshot, FoldSnapshot;
    SnapshotShowsFold(w.tracker.sessions[sessionId], Mine(w, sessionId), detect, catalogue, profile);
    FoldSnapshotValue(detect, Mine(w, sessionId), profile);
  }

  // One writer: this process writes every prescribe and report entry of the session

  /** No prescribe or report entry of the session reaches the log unobserved. */
  predicate OnlyWriter(step: Step, sessionId: string) {
    step.UnobservedAppend? ==> !(Relevant(step.e) && step.e.sessionId == sessionId)
  }

  ghost predicate OneWriterInv(w: World, sessionId: string, detect: Detector, catalogue: Catalogue) {
    if sessionId in w.tracker.sessions then UpToDate(w, sessionId, detect, catalogue)
    else !AnyRelevant(Mine(w, sessionId))
  }

  lemma IrrelevantFolds(entries: seq<Entry>, detect: Detector, catalogue: Catalogue)
    requires !AnyRelevant(entries)
    ensures Folds(NEW_SESSION, entries, detect, catalogue)
  {
    assert AllDecode(entries);
    NothingRelevant(entries);
    NoActions(entries);
  }

  lemma {:induction false} NoActions(entries: seq<Entry>)
    requires !AnyRelevant(entries)
    ensures ActionsOf(entries) == map[]
  {
    if entries != [] {
      var n := |entries| - 1;
      assert forall i | 0 <= i < n :: entries[..n][i] == entries[i];
      assert !Relevant(entries[n]);
      NoActions(entries[..n]);
    }
  }

  lemma AnyRelevantSnoc(entries: seq<Entry>, e: Entry)
    ensures AnyRelevant(entries + [e]) <==> AnyRelevant(entries) || Relevant(e)
  {
    var all := entries + [e];
    if Relevant(e) {
      assert Relevant(all[|entries|]);
    }
    if AnyRelevant(entries) {
      var i :| 0 <= i < |entries| && Relevant(entries[i]);
      assert Relevant(all[i]);
    }
  }

  lemma FirstObservation(w: World, e: Entry, sessionId: string, detect: Detector, catalogue: Catalogue)
    requires sessionId != "" && e.sessionId == sessionId && sessionId !in w.tracker.sessions
    requires !AnyRelevant(Mine(w, sessionId))
    ensures UpToDate(Exec(w, OwnAppend(e), detect, catalogue), sessionId, detect, catalogue)
  {
    hide TakeSnapshot, OnePass, ActionsOf;
    MineAfterAppend(w, e, sessionId, Observe(w.tracker, w.log + [e], e));
    IrrelevantFolds(Mine(w, sessionId), detect, catalogue);
    ObserveFolds(NEW_SESSION, Mine(w, sessionId), e, detect, catalogue);
  }

  lemma UnobservedKeepsOneWriter(w: World, e: Entry, sessionId: string, detect: Detector, catalogue: Catalogue)
    requires sessionId != "" && e.sessionId != "" && OneWriterInv(w, sessionId, detect, catalogue)
    requires OnlyWriter(UnobservedAppend(e), sessionId)
    ensures OneWriterInv(Exec(w, UnobservedAppend(e), detect, catalogue), sessionId, detect, catalogue)
  {
    hide TakeSnapshot, OnePass, ActionsOf;
    MineAfterAppend(w, e, sessionId, w.tracker);
    if e.sessionId == sessionId {
      AnyRelevantSnoc(Mine(w, sessionId), e);
      if sessionId in w.tracker.sessions && !w.tracker.sessions[sessionId].invalid {
        ObserveFolds(w.tracker.sessions[sessionId], Mine(w, sessionId), e, detect, catalogue);
      }
    }
  }

  lemma SnapshotKeepsOneWriter(w: World, id: string, profile: Profile, sessionId: string, detect: Detector, catalogue: Catalogue)
    requires sessionId != "" && OneWriterInv(w, sessionId, detect, catalogue) && InCatalogue(catalogue, profile)
    ensures OneWriterInv(Exec(w, TakeSnapshotOf(id, profile), detect, catalogue), sessionId, detect, catalogue)
  {
    hide TakeSnapshot, OnePass, ActionsOf, FoldFrom, FromScratch;
    if id == sessionId {
      if Cached(w.tracker, w.log, id) {
        CachedAnswerFolds(w, id, profile, detect, catalogue);
      } else {
        RebuildFolds(w, id, profile, detect, catalogue);
      }
    } else {
      assert Exec(w, TakeSnapshotOf(id, profile), detect, catalogue).log == w.log;
    }
  }

  lemma OneWriterStep(w: World, step: Step, sessionId: string, detect: Detector, catalogue: Catalogue)
    requires sessionId != "" && Possible(step, catalogue) && OnlyWriter(step, sessionId)
    requires OneWriterInv(w, sessionId, detect, catalogue)
    ensures OneWriterInv(Exec(w, step, detect, catalogue), sessionId, detect, catalogue)
  {
    hide TakeSnapshot, OnePass, ActionsOf, SnapshotStep, Folds;
    match step {
      case OwnAppend(e) =>
        if sessionId in w.tracker.sessions {
          OwnAppendKeepsUpToDate(w, e, sessionId, detect, catalogue);
        } else if e.sessionId == sessionId {
          FirstObservation(w, e, sessionId, detect, catalogue);
        } else {
          MineAfterAppend(w, e, sessionId, Observe(w.tracker, w.log + [e], e));
        }
      case UnobservedAppend(e) =>
        UnobservedKeepsOneWriter(w, e, sessionId, detect, catalogue);
      case TakeSnapshotOf(id, profile) =>
        SnapshotKeepsOneWriter(w, id, profile, sessionId, detect, catalogue);
    }
  }

  lemma {:induction false} OneWriterRun(w: World, steps: seq<Step>, sessionId: string, detect: Detector, catalogue: Catalogue)
    requires sessionId != "" && AllPossible(steps, catalogue)
    requires forall i | 0 <= i < |steps| :: OnlyWriter(steps[i], sessionId)
    requires OneWriterInv(w, sessionId, detect, catalogue)
    ensures OneWriterInv(Run(w, steps, detect, catalogue), sessionId, detect, catalogue)
    decreases |steps|
  {
    hide OneWriterInv, Exec;
    if steps != [] {
      OneWriterStep(w, steps[0], sessionId, detect, catalogue);
      OneWriterRun(Exec(w, steps[0], detect, catalogue), steps[1..], sessionId, detect, catalogue);
    }
  }

  lemma OneWriterAnswer(w: World, sessionId: string, profile: Profile, detect: Detector, catalogue: Catalogue)
    requires sessionId != "" && InCatalogue(catalogue, profile) && OneWriterInv(w, sessionId, detect, catalogue)
    ensures Answer(w, detect, sessionId, profile) == FoldSnapshot(detect, Mine(w, sessionId), profile)
  {
    hide TakeSnapshot, OnePass, ActionsOf, FoldFrom, FromScratch, SnapshotStep, Folds, FoldSnapshot;
    if Cached(w.tracker, w.log, sessionId) {
      CachedAnswerFolds(w, sessionId, profile, detect, catalogue);
    } else {
      RebuildFolds(w, sessionId, profile, detect, catalogue);
    }
  }

  /** In every run in which this process writes all prescribe and report entries of a session that had none on disk
      before, a snapshot of the session is the fold of the session's whole log at that moment. */
  lemma OneWriterIsFresh(w: World, steps: seq<Step>, sessionId: string, profile: Profile, detect: Detector, catalogue: Catalogue)
    requires sessionId != "" && AllPossible(steps, catalogue) && InCatalogue(catalogue, profile)
    requires forall i | 0 <= i < |steps| :: OnlyWriter(steps[i], sessionId)
    requires sessionId !in w.tracker.sessions && !AnyRelevant(Mine(w, sessionId))
    ensures var w' := Run(w, steps, detect, catalogue);
      Answer(w', detect, sessionId, profile) == FoldSnapshot(detect, Mine(w', sessionId), profile)
  {
    OneWriterRun(w, steps, sessionId, detect, catalogue);
    OneWriterAnswer(Run(w, steps, detect, catalogue), sessionId, profile, detect, catalogue);
  }

  /** Under the conditions of the reference, that is the snapshot computed from scratch; both fail on the same logs. */
  lemma OneWriterMatchesFromScratch(w: World, steps: seq<Step>, sessionId: string, profile: Profile, detect: Detector,
                                    catalogue: Catalogue)
    requires sessionId != "" && AllPossible(steps, catalogue) && InCatalogue(catalogue, profile)
    requires forall i | 0 <= i < |steps| :: OnlyWriter(steps[i], sessionId)
    requires sessionId !in w.tracker.sessions && !AnyRelevant(Mine(w, sessionId))
    requires var mine := Mine(Run(w, steps, detect, catalogue), sessionId);
      AnyRelevant(mine) && (AllDecode(mine) ==> NoLatePrescribe(mine))
    ensures var w' := Run(w, steps, detect, catalogue);
      var answer := Answer(w', detect, sessionId, profile);
      var reference := FromScratch(detect, w'.log, sessionId, profile);
      && (answer.Success? <==> reference.Success?)
      && (answer.Success? ==> answer == reference)
  {
    hide FoldSnapshot, FromScratch, SnapshotStep;
    OneWriterIsFresh(w, steps, sessionId, profile, detect, catalogue);
    FoldMatchesFromScratch(detect, Run(w, steps, detect, catalogue).log, sessionId, profile);
  }

  // Other writers: foreign processes append too, and only this session is asked for

  /** Snapshots are taken of this session only, and what the tracker misses of it can be decoded. */
  predicate SharedStep(step: Step, sessionId: string) {
    match step
    case OwnAppend(_) => true
    case UnobservedAppend(e) => e.sessionId == sessionId ==> Decodes(e)
    case TakeSnapshotOf(id, _) => id == sessionId
  }

  /** The tracker's record count never exceeds the manifest's; when they are equal, nothing was missed. A session with
      an undecodable entry is marked invalid. */
  ghost predicate SharedInv(w: World, sessionId: string, detect: Detector, catalogue: Catalogue) {
    && w.tracker.manifestKnown
    && w.log != []
    && sessionId in w.tracker.sessions
    && w.tracker.manifest.recordsTotal <= |w.log|
    && (w.tracker.manifest.recordsTotal == |w.log| ==> UpToDate(w, sessionId, detect, catalogue))
    && (!AllDecode(Mine(w, sessionId)) ==> w.tracker.sessions[sessionId].invalid)
  }

  lemma SharedOwnAppend(w: World, e: Entry, sessionId: string, detect: Detector, catalogue: Catalogue)
    requires sessionId != "" && e.sessionId != "" && SharedInv(w, sessionId, detect, catalogue)
    ensures SharedInv(Exec(w, OwnAppend(e), detect, catalogue), sessionId, detect, catalogue)
  {
    hide TakeSnapshot, OnePass, ActionsOf, Folds;
    var s := w.tracker.sessions[sessionId];
    var w' := Exec(w, OwnAppend(e), detect, catalogue);
    MineAfterAppend(w, e, sessionId, w'.tracker);
    if w.tracker.manifest.recordsTotal == |w.log| {
      OwnAppendKeepsUpToDate(w, e, sessionId, detect, catalogue);
    }
    if e.sessionId == sessionId {
      AllDecodeSnoc(Mine(w, sessionId), e);
      assert w'.tracker.sessions[sessionId] == ObserveEntry(s, e).0;
    }
  }

  lemma SharedUnobserved(w: World, e: Entry, sessionId: string, detect: Detector, catalogue: Catalogue)
    requires sessionId != "" && e.sessionId != "" && SharedInv(w, sessionId, detect, catalogue)
    requires e.sessionId == sessionId ==> Decodes(e)
    ensures SharedInv(Exec(w, UnobservedAppend(e), detect, catalogue), sessionId, detect, catalogue)
  {
    hide TakeSnapshot, OnePass, ActionsOf, Folds;
    MineAfterAppend(w, e, sessionId, w.tracker);
    AllDecodeSnoc(Mine(w, sessionId), e);
  }

  lemma SharedSnapshot(w: World, profile: Profile, sessionId: string, detect: Detector, catalogue: Catalogue)
    requires sessionId != "" && SharedInv(w, sessionId, detect, catalogue) && InCatalogue(catalogue, profile)
    ensures Answer(w, detect, sessionId, profile) == FoldSnapshot(detect, Mine(w, sessionId), profile)
    ensures SharedInv(Exec(w, TakeSnapshotOf(sessionId, profile), detect, catalogue), sessionId, detect, catalogue)
  {
    hide TakeSnapshot, OnePass, ActionsOf, FoldFrom, FromScratch, FoldSnapshot;
    if Cached(w.tracker, w.log, sessionId) {
      CachedAnswerFolds(w, sessionId, profile, detect, catalogue);
    } else {
      RebuildFolds(w, sessionId, profile, detect, catalogue);
    }
  }

  lemma SharedStepKeeps(w: World, step: Step, sessionId: string, detect: Detector, catalogue: Catalogue)
    requires sessionId != "" && Possible(step, catalogue) && SharedStep(step, sessionId)
    requires SharedInv(w, sessionId, detect, catalogue)
    ensures SharedInv(Exec(w, step, detect, catalogue), sessionId, detect, catalogue)
  {
    hide Exec, SharedInv;
    match step {
      case OwnAppend(e) => SharedOwnAppend(w, e, sessionId, detect, catalogue);
      case UnobservedAppend(e) => SharedUnobserved(w, e, sessionId, detect, catalogue);
      case TakeSnapshotOf(_, profile) => SharedSnapshot(w, profile, sessionId, detect, catalogue);
    }
  }

  lemma {:induction false} SharedRun(w: World, steps: seq<Step>, sessionId: string, detect: Detector, catalogue: Catalogue)
    requires sessionId != "" && AllPossible(steps, catalogue) && SharedInv(w, sessionId, detect, catalogue)
    requires forall i | 0 <= i < |steps| :: SharedStep(steps[i], sessionId)
    ensures SharedInv(Run(w, steps, detect, catalogue), sessionId, detect, catalogue)
    decreases |steps|
  {
    hide SharedInv, Exec;
    if steps != [] {
      SharedStepKeeps(w, steps[0], sessionId, detect, catalogue);
      SharedRun(Exec(w, steps[0], detect, catalogue), steps[1..], sessionId, detect, catalogue);
    }
  }

  /** From a rebuild on, and whatever other processes append, every later snapshot of the session is fresh, provided that
      only this session is asked for and the missed entries of it decode. */
  lemma FreshAfterRebuild(w: World, first: Profile, steps: seq<Step>, sessionId: string, profile: Profile,
                          detect: Detector, catalogue: Catalogue)
    requires sessionId != "" && w.log != []
    requires InCatalogue(catalogue, first) && InCatalogue(catalogue, profile) && AllPossible(steps, catalogue)
    requires !Cached(w.tracker, w.log, sessionId) && AllDecode(Mine(w, sessionId))
    requires forall i | 0 <= i < |steps| :: SharedStep(steps[i], sessionId)
    ensures var w' := Run(Exec(w, TakeSnapshotOf(sessionId, first), detect, catalogue), steps, detect, catalogue);
      && Answer(w', detect, sessionId, profile) == FoldSnapshot(detect, Mine(w', sessionId), profile)
      && w'.tracker.manifest.recordsTotal <= |w'.log|
  {
    hide TakeSnapshot, OnePass, ActionsOf, FoldFrom, FromScratch, FoldSnapshot;
    RebuildFolds(w, sessionId, first, detect, catalogue);
    var w1 := Exec(w, TakeSnapshotOf(sessionId, first), detect, catalogue);
    RebuildKnowsManifest(w, sessionId, first, detect, catalogue);
    assert SharedInv(w1, sessionId, detect, catalogue);
    SharedRun(w1, steps, sessionId, detect, catalogue);
    SharedSnapshot(Run(w1, steps, detect, catalogue), profile, sessionId, detect, catalogue);
  }

  lemma RebuildKnowsManifest(w: World, sessionId: string, profile: Profile, detect: Detector, catalogue: Catalogue)
    requires sessionId != "" && w.log != [] && InCatalogue(catalogue, profile)
    ensures var t := Exec(w, TakeSnapshotOf(sessionId, profile), detect, catalogue).tracker;
      t.manifestKnown && t.manifest == DiskPrint(w.log).value
  {
    hide TakeSnapshot, FoldFrom, FromScratch;
  }

  function Missed(steps: seq<Step>): nat {
    if steps == [] then 0 else (if steps[0].UnobservedAppend? then 1 else 0) + Missed(steps[1..])
  }

  /** Between snapshots, the manifest runs ahead of the tracker's count by exactly the number of missed appends. */
  lemma {:induction false} CountLagsByMissed(w: World, steps: seq<Step>, detect: Detector, catalogue: Catalogue)
    requires AllPossible(steps, catalogue) && w.tracker.manifestKnown
    requires forall i | 0 <= i < |steps| :: !steps[i].TakeSnapshotOf?
    ensures var w' := Run(w, steps, detect, catalogue);
      && w'.tracker.manifestKnown
      && |w'.log| - w'.tracker.manifest.recordsTotal == |w.log| - w.tracker.manifest.recordsTotal + Missed(steps)
    decreases |steps|
  {
    if steps != [] {
      CountLagsByMissed(Exec(w, steps[0], detect, catalogue), steps[1..], detect, catalogue);
    }
  }

  // Runs that show the conditions are needed

  function Prescription(id: string, sessionId: string): Entry {
    Entry(id, "", "hash:" + id, "", Prescribe, "", sessionId, "", 0, "trace", "", "", Actor("", "", "", "", "", ""), 0, "", "",
          Payload("{}", Some(PrescriptionBody(None, [])), None), map[], "", "", "", "")
  }

  function Garbled(id: string, sessionId: string): Entry {
    Prescription(id, sessionId).(payload := Payload("not JSON", None, None))
  }

  lemma OperationsShown(w: World, sessionId: string, profile: Profile, detect: Detector)
    requires sessionId != "" && profile.Validated() && Cached(w.tracker, w.log, sessionId)
    requires w.tracker.sessions[sessionId].snapshots == map[]
    ensures Answer(w, detect, sessionId, profile).Success?
    ensures Answer(w, detect, sessionId, profile).value.totalOperations == w.tracker.sessions[sessionId].totalOps
  {
  }

  lemma FoldShowsOperations(detect: Detector, entries: seq<Entry>, profile: Profile)
    requires profile.Validated() && AllDecode(entries)
    ensures FoldSnapshot(detect, entries, profile).Success?
    ensures FoldSnapshot(detect, entries, profile).value.totalOperations == CountPrescribes(entries)
  {
    FoldSnapshotValue(detect, entries, profile);
  }

  // When exactly a cached session is stale

  /** How many prescribe and report entries of the session the log holds that its cached state lacks: one more with each that
      is appended unobserved, none after a snapshot that scans the log. */
  ghost function LostStep(w: World, lost: nat, step: Step, sessionId: string): nat {
    match step
    case OwnAppend(e) => lost
    case UnobservedAppend(e) => if e.sessionId == sessionId && Relevant(e) then lost + 1 else lost
    case TakeSnapshotOf(id, _) =>
      if id == sessionId && !Cached(w.tracker, w.log, id) && AllDecode(Mine(w, id)) then 0 else lost
  }

  ghost function LostAfter(w: World, lost: nat, steps: seq<Step>, sessionId: string, detect: Detector, catalogue: Catalogue): nat
    requires AllPossible(steps, catalogue)
    decreases |steps|
  {
    if steps == [] then lost
    else LostAfter(Exec(w, steps[0], detect, catalogue), LostStep(w, lost, steps[0], sessionId), steps[1..], sessionId, detect, catalogue)
  }

  /** A cached valid state has all but the lost entries, and folds the log when none is lost; before the first observation
      everything on the log is lost on it. */
  ghost predicate LostInv(w: World, lost: nat, sessionId: string, detect: Detector, catalogue: Catalogue) {
    if sessionId !in w.tracker.sessions then lost == |RelevantOf(Mine(w, sessionId))|
    else if w.tracker.sessions[sessionId].invalid then true
    else
      && |w.tracker.sessions[sessionId].signalEntries| + lost == |RelevantOf(Mine(w, sessionId))|
      && (lost == 0 ==> Folds(w.tracker.sessions[sessionId], Mine(w, sessionId), detect, catalogue))
  }

  lemma RelevantSnoc(entries: seq<Entry>, e: Entry)
    ensures |RelevantOf(entries + [e])| == |RelevantOf(entries)| + if Relevant(e) then 1 else 0
  {
    assert (entries + [e])[..|entries|] == entries;
  }

  lemma {:induction false} NoneRelevant(entries: seq<Entry>)
    ensures |RelevantOf(entries)| == 0 <==> !AnyRelevant(entries)
  {
    if entries != [] {
      var front, e := entries[..|entries| - 1], entries[|entries| - 1];
      NoneRelevant(front);
      assert entries == front + [e];
      AnyRelevantSnoc(front, e);
    }
  }

  /** A state that folds the log has an entry for each of its prescribe and report entries. */
  lemma FoldCounts(s: Session, entries: seq<Entry>, detect: Detector, catalogue: Catalogue)
    requires Folds(s, entries, detect, catalogue)
    ensures |s.signalEntries| == |RelevantOf(entries)|
  {
    PassesHaveOneLength(entries, ActionsOf(entries));
  }

  lemma OwnAppendKeepsLost(w: World, lost: nat, e: Entry, sessionId: string, detect: Detector, catalogue: Catalogue)
    requires sessionId != "" && e.sessionId != "" && LostInv(w, lost, sessionId, detect, catalogue)
    ensures LostInv(Exec(w, OwnAppend(e), detect, catalogue), lost, sessionId, detect, catalogue)
  {
    hide TakeSnapshot, OnePass, ActionsOf, Folds, FilterSession, RelevantOf;
    var mine := Mine(w, sessionId);
    MineAfterAppend(w, e, sessionId, Observe(w.tracker, w.log + [e], e));
    if e.sessionId == sessionId {
      RelevantSnoc(mine, e);
      if sessionId in w.tracker.sessions {
        var s := w.tracker.sessions[sessionId];
        if !s.invalid && lost == 0 {
          ObserveFolds(s, mine, e, detect, catalogue);
        }
      } else {
        NoneRelevant(mine);
        if lost == 0 {
          IrrelevantFolds(mine, detect, catalogue);
          ObserveFolds(NEW_SESSION, mine, e, detect, catalogue);
        }
      }
    }
  }

  lemma UnobservedLoses(w: World, lost: nat, e: Entry, sessionId: string, detect: Detector, catalogue: Catalogue)
    requires sessionId != "" && e.sessionId != "" && LostInv(w, lost, sessionId, detect, catalogue)
    ensures LostInv(Exec(w, UnobservedAppend(e), detect, catalogue), LostStep(w, lost, UnobservedAppend(e), sessionId), sessionId, detect, catalogue)
  {
    hide TakeSnapshot, OnePass, ActionsOf, Folds, FilterSession, RelevantOf;
    var mine := Mine(w, sessionId);
    MineAfterAppend(w, e, sessionId, w.tracker);
    if e.sessionId == sessionId {
      RelevantSnoc(mine, e);
      if sessionId in w.tracker.sessions && !w.tracker.sessions[sessionId].invalid && lost == 0 && !Relevant(e) {
        ObserveFolds(w.tracker.sessions[sessionId], mine, e, detect, catalogue);
      }
    }
  }

  lemma SnapshotKeepsEntries(s: Session, detect: Detector, profile: Profile)
    requires profile.Validated()
    ensures TakeSnapshot(s, detect, profile).0.signalEntries == s.signalEntries
    ensures TakeSnapshot(s, detect, profile).0.invalid == s.invalid
  {
  }

  lemma SnapshotKeepsLost(w: World, lost: nat, id: string, profile: Profile, sessionId: string, detect: Detector, catalogue: Catalogue)
    requires sessionId != "" && InCatalogue(catalogue, profile) && LostInv(w, lost, sessionId, detect, catalogue)
    ensures LostInv(Exec(w, TakeSnapshotOf(id, profile), detect, catalogue), LostStep(w, lost, TakeSnapshotOf(id, profile), sessionId),
                    sessionId, detect, catalogue)
  {
    hide TakeSnapshot, OnePass, ActionsOf, FoldFrom, FromScratch, Folds, RelevantOf;
    var mine := Mine(w, sessionId);
    if id != sessionId {
      assert Exec(w, TakeSnapshotOf(id, profile), detect, catalogue).log == w.log;
    } else if Cached(w.tracker, w.log, id) {
      var s := w.tracker.sessions[id];
      SnapshotKeepsEntries(s, detect, profile);
      if lost == 0 {
        SnapshotShowsFold(s, mine, detect, catalogue, profile);
      }
    } else {
      RebuildFolds(w, id, profile, detect, catalogue);
      if AllDecode(mine) {
        FoldCounts(Exec(w, TakeSnapshotOf(id, profile), detect, catalogue).tracker.sessions[id], mine, detect, catalogue);
      }
    }
  }

  lemma {:induction false} LostOverRuns(w: World, lost: nat, steps: seq<Step>, sessionId: string, detect: Detector, catalogue: Catalogue)
    requires sessionId != "" && AllPossible(steps, catalogue) && LostInv(w, lost, sessionId, detect, catalogue)
    ensures LostInv(Run(w, steps, detect, catalogue), LostAfter(w, lost, steps, sessionId, detect, catalogue), sessionId, detect, catalogue)
    decreases |steps|
  {
    hide LostInv, Exec, LostStep;
    if steps != [] {
      match steps[0] {
        case OwnAppend(e) => OwnAppendKeepsLost(w, lost, e, sessionId, detect, catalogue); OwnLosesNone(w, lost, e, sessionId);
        case UnobservedAppend(e) => UnobservedLoses(w, lost, e, sessionId, detect, catalogue);
        case TakeSnapshotOf(id, profile) => SnapshotKeepsLost(w, lost, id, profile, sessionId, detect, catalogue);
      }
      LostOverRuns(Exec(w, steps[0], detect, catalogue), LostStep(w, lost, steps[0], sessionId), steps[1..], sessionId, detect, catalogue);
    }
  }

  lemma OwnLosesNone(w: World, lost: nat, e: Entry, sessionId: string)
    ensures LostStep(w, lost, OwnAppend(e), sessionId) == lost
  {
  }

  /** Over every run, from any log, with any writers and snapshots of any sessions: a cached valid session folds what the log
      holds for it if and only if it lost no entry, that is, if no prescribe or report of it was on disk before it was
      first observed, or appended unobserved, since the last snapshot that scanned the log for it. Otherwise its state has
      that many entries less than the log. */
  lemma StaleExactly(w: World, steps: seq<Step>, sessionId: string, detect: Detector, catalogue: Catalogue)
    requires sessionId != "" && AllPossible(steps, catalogue) && sessionId !in w.tracker.sessions
    ensures var w' := Run(w, steps, detect, catalogue);
      var lost := LostAfter(w, |RelevantOf(Mine(w, sessionId))|, steps, sessionId, detect, catalogue);
      sessionId in w'.tracker.sessions && !w'.tracker.sessions[sessionId].invalid ==>
        && (Folds(w'.tracker.sessions[sessionId], Mine(w', sessionId), detect, catalogue) <==> lost == 0)
        && |w'.tracker.sessions[sessionId].signalEntries| + lost == |RelevantOf(Mine(w', sessionId))|
  {
    hide Folds, RelevantOf, Run, LostAfter;
    var w' := Run(w, steps, detect, catalogue);
    LostOverRuns(w, |RelevantOf(Mine(w, sessionId))|, steps, sessionId, detect, catalogue);
    if sessionId in w'.tracker.sessions && Folds(w'.tracker.sessions[sessionId], Mine(w', sessionId), detect, catalogue) {
      FoldCounts(w'.tracker.sessions[sessionId], Mine(w', sessionId), detect, catalogue);
    }
  }

  /** A snapshot is the fold of the log whenever it scans the log or nothing was lost. */
  lemma FreshUnlessLost(w: World, steps: seq<Step>, sessionId: string, profile: Profile, detect: Detector, catalogue: Catalogue)
    requires sessionId != "" && AllPossible(steps, catalogue) && sessionId !in w.tracker.sessions && InCatalogue(catalogue, profile)
    requires var w' := Run(w, steps, detect, catalogue);
      !Cached(w'.tracker, w'.log, sessionId)
      || LostAfter(w, |RelevantOf(Mine(w, sessionId))|, steps, sessionId, detect, catalogue) == 0
    ensures var w' := Run(w, steps, detect, catalogue);
      Answer(w', detect, sessionId, profile) == FoldSnapshot(detect, Mine(w', sessionId), profile)
  {
    hide Folds, RelevantOf, Run, LostAfter, FoldSnapshot, Answer, TakeSnapshot;
    var w' := Run(w, steps, detect, catalogue);
    StaleExactly(w, steps, sessionId, detect, catalogue);
    if Cached(w'.tracker, w'.log, sessionId) {
      CachedAnswerFolds(w', sessionId, profile, detect, catalogue);
    } else {
      RebuildFolds(w', sessionId, profile, detect, catalogue);
    }
  }

  /** After the first observed entry the state folds the log exactly when the log held no prescribe or report entry of the
      session before, whatever is observed. */
  lemma FirstObservationFoldsIff(w: World, e: Entry, sessionId: string, detect: Detector, catalogue: Catalogue)
    requires sessionId != "" && e.sessionId == sessionId && sessionId !in w.tracker.sessions
    ensures var w' := Exec(w, OwnAppend(e), detect, catalogue);
      && sessionId in w'.tracker.sessions
      && (!w'.tracker.sessions[sessionId].invalid ==>
            (Folds(w'.tracker.sessions[sessionId], Mine(w', sessionId), detect, catalogue) <==> !AnyRelevant(Mine(w, sessionId))))
  {
    hide Folds, RelevantOf, FilterSession;
    var w' := Exec(w, OwnAppend(e), detect, catalogue);
    var lost := |RelevantOf(Mine(w, sessionId))|;
    OwnAppendKeepsLost(w, lost, e, sessionId, detect, catalogue);
    NoneRelevant(Mine(w, sessionId));
    if Folds(w'.tracker.sessions[sessionId], Mine(w', sessionId), detect, catalogue) {
      FoldCounts(w'.tracker.sessions[sessionId], Mine(w', sessionId), detect, catalogue);
    }
  }

  /** A snapshot of another session neither loses nor recovers anything: a cached session folds its log after it exactly
      when it did before. */
  lemma OtherSnapshotFoldsIff(w: World, other: string, profile: Profile, sessionId: string, detect: Detector, catalogue: Catalogue)
    requires other != sessionId && sessionId in w.tracker.sessions && InCatalogue(catalogue, profile)
    ensures var w' := Exec(w, TakeSnapshotOf(other, profile), detect, catalogue);
      && sessionId in w'.tracker.sessions
      && (Folds(w'.tracker.sessions[sessionId], Mine(w', sessionId), detect, catalogue)
          <==> Folds(w.tracker.sessions[sessionId], Mine(w, sessionId), detect, catalogue))
      && (other != "" && w.log != [] ==> !Moved(w'.tracker, w'.log))
  {
    hide Folds, FilterSession, TakeSnapshot, FoldFrom, FromScratch;
  }

  /** A snapshot of one session absorbs a foreign append for all of them: the other session's next snapshot is stale. */
  lemma SnapshotOfAnotherSessionHidesForeignEntry(profile: Profile, detect: Detector)
    requires profile.Validated()
    ensures var catalogue := map[EffectiveId(profile) := profile];
      var steps := [OwnAppend(Prescription("a1", "A")), OwnAppend(Prescription("b1", "B")),
                    UnobservedAppend(Prescription("b2", "B")), TakeSnapshotOf("A", profile)];
      && AllPossible(steps, catalogue)
      && var w := Run(World([], NEW_TRACKER), steps, detect, catalogue);
         Answer(w, detect, "B", profile) != FoldSnapshot(detect, Mine(w, "B"), profile)
  {
    hide TakeSnapshot, FoldSnapshot, FoldFrom, FromScratch, Answer, SnapshotStep, FilterSession, CountPrescribes, EffectiveId;
    var catalogue := map[EffectiveId(profile) := profile];
    var a1, b1, b2 := Prescription("a1", "A"), Prescription("b1", "B"), Prescription("b2", "B");
    var steps := [OwnAppend(a1), OwnAppend(b1), UnobservedAppend(b2), TakeSnapshotOf("A", profile)];
    var w0 := World([], NEW_TRACKER);
    var w1 := Exec(w0, steps[0], detect, catalogue);
    var w2 := Exec(w1, steps[1], detect, catalogue);
    var w3 := Exec(w2, steps[2], detect, catalogue);
    var w4 := Exec(w3, steps[3], detect, catalogue);
    RunOfFour(w0, steps, detect, catalogue);
    assert w3.log == [a1, b1, b2] && w3.tracker.manifest == Fingerprint(2, b1.hash);
    OthersKept(w3, "A", "B", profile, detect, catalogue);
    assert w4.tracker.sessions["B"] == w3.tracker.sessions["B"] == ObserveEntry(NEW_SESSION, b1).0;
    OperationsShown(w4, "B", profile, detect);
    MineOfThree(a1, b1, b2, "B");
    TwoPrescribes(b1, b2);
    FoldShowsOperations(detect, [b1, b2], profile);
  }

  lemma RunOfFour(w: World, steps: seq<Step>, detect: Detector, catalogue: Catalogue)
    requires |steps| == 4 && AllPossible(steps, catalogue)
    ensures Run(w, steps, detect, catalogue)
         == Exec(Exec(Exec(Exec(w, steps[0], detect, catalogue), steps[1], detect, catalogue), steps[2], detect, catalogue),
                 steps[3], detect, catalogue)
  {
    hide Exec;
    var w1 := Exec(w, steps[0], detect, catalogue);
    var w2 := Exec(w1, steps[1], detect, catalogue);
    var w3 := Exec(w2, steps[2], detect, catalogue);
    assert steps[1..][1..] == steps[2..] && steps[2..][1..] == steps[3..] && steps[3..][1..] == [];
    assert Run(w, steps, detect, catalogue) == Run(w1, steps[1..], detect, catalogue);
    assert Run(w1, steps[1..], detect, catalogue) == Run(w2, steps[2..], detect, catalogue);
    assert Run(w2, steps[2..], detect, catalogue) == Run(w3, steps[3..], detect, catalogue);
    assert Run(w3, steps[3..], detect, catalogue) == Exec(w3, steps[3], detect, catalogue);
  }

  lemma OthersKept(w: World, id: string, other: string, profile: Profile, detect: Detector, catalogue: Catalogue)
    requires id != other && id != "" && InCatalogue(catalogue, profile) && other in w.tracker.sessions && w.log != []
    ensures var w' := Exec(w, TakeSnapshotOf(id, profile), detect, catalogue);
      && w'.log == w.log
      && w'.tracker.manifestKnown && w'.tracker.manifest == DiskPrint(w.log).value
      && other in w'.tracker.sessions && w'.tracker.sessions[other] == w.tracker.sessions[other]
  {
    hide TakeSnapshot, FoldFrom, FromScratch;
  }

  lemma TwoPrescribes(a: Entry, b: Entry)
    requires a.kind.Prescribe? && b.kind.Prescribe?
    ensures CountPrescribes([a, b]) == 2
  {
    assert [a, b][..1] == [a];
    assert [a][..0] == [];
    assert CountPrescribes([a]) == CountPrescribes([a][..0]) + 1;
  }

  lemma MineOfTwo(a: Entry, b: Entry, sessionId: string)
    requires sessionId != "" && a.sessionId == b.sessionId == sessionId
    ensures FilterSession([a], sessionId) == [a] && FilterSession([a, b], sessionId) == [a, b]
  {
    assert [a, b] == [a] + [b];
    assert [a] == [] + [a];
    FilterAppend([a], b, sessionId);
    FilterAppend([], a, sessionId);
  }

  lemma MineOfThree(a: Entry, b: Entry, c: Entry, sessionId: string)
    requires sessionId != "" && a.sessionId != sessionId && b.sessionId == sessionId && c.sessionId == sessionId
    ensures FilterSession([a, b, c], sessionId) == [b, c]
  {
    assert [a, b, c] == [a, b] + [c];
    assert [a, b] == [a] + [b];
    assert [a] == [] + [a];
    FilterAppend([a, b], c, sessionId);
    FilterAppend([a], b, sessionId);
    FilterAppend([], a, sessionId);
  }

  /** A tracker that starts beside an existing log and first observes an entry begins from an empty state. */
  lemma FirstObservationForgetsDisk(profile: Profile, detect: Detector)
    requires profile.Validated()
    ensures var catalogue := map[EffectiveId(profile) := profile];
      var w := Exec(World([Prescription("s1", "S")], NEW_TRACKER), OwnAppend(Prescription("s2", "S")), detect, catalogue);
      Answer(w, detect, "S", profile) != FoldSnapshot(detect, Mine(w, "S"), profile)
  {
    hide TakeSnapshot, FoldSnapshot, FoldFrom, FromScratch, Answer, SnapshotStep, FilterSession, CountPrescribes, EffectiveId;
    var catalogue := map[EffectiveId(profile) := profile];
    var s1, s2 := Prescription("s1", "S"), Prescription("s2", "S");
    var w := Exec(World([s1], NEW_TRACKER), OwnAppend(s2), detect, catalogue);
    assert w.log == [s1, s2];
    OperationsShown(w, "S", profile, detect);
    MineOfTwo(s1, s2, "S");
    TwoPrescribes(s1, s2);
    FoldShowsOperations(detect, [s1, s2], profile);
  }

  /** After a snapshot that failed, the next one succeeds, from the old cache, exactly when the session is cached and not
      marked invalid; otherwise it fails again. */
  lemma FailureReportedOnce(w: World, sessionId: string, profile: Profile, detect: Detector, catalogue: Catalogue)
    requires sessionId != "" && InCatalogue(catalogue, profile)
    requires Answer(w, detect, sessionId, profile).Failure?
    ensures Answer(Exec(w, TakeSnapshotOf(sessionId, profile), detect, catalogue), detect, sessionId, profile).Success?
            <==> sessionId in w.tracker.sessions && !w.tracker.sessions[sessionId].invalid
  {
    hide TakeSnapshot, FoldFrom, FromScratch, OnePass, ActionsOf;
    RebuildFolds(w, sessionId, profile, detect, catalogue);
    FoldSnapshotValue(detect, Mine(w, sessionId), profile);
    assert w.log == [] ==> Mine(w, sessionId) == [];
    RebuildKnowsManifest(w, sessionId, profile, detect, catalogue);
    var w' := Exec(w, TakeSnapshotOf(sessionId, profile), detect, catalogue);
    if !Cached(w'.tracker, w'.log, sessionId) {
      RebuildFolds(w', sessionId, profile, detect, catalogue);
    }
  }

  /** Such a session exists: one foreign line that is not JSON is enough. */
  lemma UndecodableForeignEntryReportedOnce(profile: Profile, detect: Detector)
    requires profile.Validated()
    ensures var catalogue := map[EffectiveId(profile) := profile];
      var w := Exec(Exec(World([], NEW_TRACKER), OwnAppend(Prescription("s1", "S")), detect, catalogue),
                    UnobservedAppend(Garbled("s2", "S")), detect, catalogue);
      && Answer(w, detect, "S", profile).Failure?
      && Answer(Exec(w, TakeSnapshotOf("S", profile), detect, catalogue), detect, "S", profile).Success?
  {
    hide TakeSnapshot, FoldSnapshot, FoldFrom, FromScratch, Answer, SnapshotStep, FilterSession, CountPrescribes, EffectiveId;
    var catalogue := map[EffectiveId(profile) := profile];
    var s1, s2 := Prescription("s1", "S"), Garbled("s2", "S");
    var w1 := Exec(World([], NEW_TRACKER), OwnAppend(s1), detect, catalogue);
    var w := Exec(w1, UnobservedAppend(s2), detect, catalogue);
    assert w.log == [s1, s2];
    MineOfTwo(s1, s2, "S");
    assert !Decodes([s1, s2][1]);
    RebuildFolds(w, "S", profile, detect, catalogue);
    FoldSnapshotValue(detect, Mine(w, "S"), profile);
    FailureReportedOnce(w, "S", profile, detect, catalogue);
  }
}
