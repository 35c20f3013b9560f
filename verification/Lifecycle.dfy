/** Prescribing and reporting against the segmented store, in strict write mode (internal/lifecycle/service.go). Calls run
    one at a time here; any read or build may fail, and any write may stop anywhere the store can. */
module Lifecycle {
  import opened Wrappers
  import opened Text
  import opened Evidence
  import opened SegmentNames
  import opened SegmentStore
  import HashChain

  type Digest = HashChain.Digest

  datatype ErrorCode = InvalidInput | ParseError | NotFound | EvidenceRead | EvidenceWrite | Internal

  // The log as writers see it

  /** The lines on disk, and how far they went when the manifest was last written. */
  datatype Lines = Lines(log: seq<Entry>, counted: nat)

  type Disk = d: Lines | d.counted <= |d.log| witness Lines([], 0)

  const EMPTY_DISK: Disk := Lines([], 0)

  /** The hash that the next writer reads. */
  function ManifestHash(disk: Disk): string {
    HashChain.LastHash(disk.log[..disk.counted])
  }

  /** What fails before an entry reaches the store. */
  datatype Fault = HashRead | Build

  /** How far an append gets: not to its line, to its line only, or to the manifest. */
  datatype Fate = Unwritten | Uncounted | Counted

  datatype Draft = Draft(entry: Entry, faults: set<Fault>, fate: Fate)

  function Placed(disk: Disk, e: Entry, fate: Fate): Disk {
    match fate
    case Unwritten => disk
    case Uncounted => Lines(disk.log + [e], disk.counted)
    case Counted => Lines(disk.log + [e], |disk.log| + 1)
  }

  /** Read the hash, build, append. An advisory entry is built on the empty hash when the read fails. */
  function Written(digest: Digest, disk: Disk, d: Draft, advisory: bool): (Disk, Option<ErrorCode>) {
    var e := HashChain.Built(digest, d.entry, if HashRead in d.faults then "" else ManifestHash(disk));
    if HashRead in d.faults && !advisory then (disk, Some(EvidenceRead))
    else if Build in d.faults then (disk, Some(Internal))
    else (Placed(disk, e, d.fate), if d.fate == Counted then None else Some(EvidenceWrite))
  }

  /** Findings are written one by one; one that fails is skipped. */
  function FindingsWritten(digest: Digest, disk: Disk, findings: seq<Draft>): Disk {
    if findings == [] then disk
    else Written(digest, FindingsWritten(digest, disk, findings[..|findings| - 1]), OfKind(findings[|findings| - 1], Finding), false).0
  }

  function OfKind(d: Draft, kind: EntryType): Draft {
    d.(entry := d.entry.(kind := kind))
  }

  // Requests

  /** `canonicalized` says whether the artifact could be parsed; if not, the failure is put on record. */
  datatype PrescribeInput<D> = PrescribeInput(valid: bool, canonicalized: bool, prescription: D, findings: seq<D>, failure: D)

  /** What looking up the named ID gave. */
  datatype Lookup = Unreadable | Unknown | Known(entry: Entry)

  predicate LookupSound(log: seq<Entry>, id: string, lookup: Lookup) {
    match lookup
    case Unreadable => true
    case Unknown => forall e | e in log :: e.entryId != id
    case Known(entry) => entry in log && entry.entryId == id
  }

  datatype ReportInput<D> = ReportInput(prescriptionId: string, valid: bool, session: string, lookup: Lookup, report: D, unknown: D)

  function Prescribed(digest: Digest, disk: Disk, in_: PrescribeInput<Draft>): (Disk, Option<ErrorCode>) {
    if !in_.valid then (disk, Some(InvalidInput))
    else if !in_.canonicalized then (Written(digest, disk, OfKind(in_.failure, CanonFailure), true).0, Some(ParseError))
    else
      var w := Written(digest, disk, OfKind(in_.prescription, EntryType.Prescribe), false);
      if w.1.Some? then w else (FindingsWritten(digest, w.0, in_.findings), None)
  }

  function ReportSession(in_: ReportInput, named: Entry): string {
    if Blank(in_.session) then named.sessionId else Trim(in_.session)
  }

  /** The report with the session it belongs to. */
  function ReportDraft(in_: ReportInput<Draft>, named: Entry): Draft {
    in_.report.(entry := in_.report.entry.(sessionId := ReportSession(in_, named), kind := EntryType.Report))
  }

  predicate Compatible(session: string, named: Entry) {
    session == "" || named.sessionId == "" || session == named.sessionId
  }

  function Reported(digest: Digest, disk: Disk, in_: ReportInput<Draft>): (Disk, Option<ErrorCode>) {
    if Blank(in_.prescriptionId) || !in_.valid then (disk, Some(InvalidInput))
    else
      match in_.lookup
      case Unreadable => (disk, Some(EvidenceRead))
      case Unknown => (Written(digest, disk, OfKind(in_.unknown, Signal), true).0, Some(NotFound))
      case Known(named) =>
        if !Compatible(ReportSession(in_, named), named) then (disk, Some(InvalidInput))
        else Written(digest, disk, ReportDraft(in_, named), false)
  }

  // The service on its store

  /** An entry to write, and where its append is made to stop. */
  datatype Attempt = Attempt(entry: Entry, faults: set<Fault>, stop: Stop)

  /** How an attempt can turn out. With room in the directory, one that nothing stops or fails is counted. */
  predicate Fits(a: Attempt, d: Draft, room: bool) {
    && d.entry == a.entry && d.faults == a.faults
    && (a.stop == BeforeLine ==> d.fate == Unwritten)
    && (a.stop == AfterLine || a.stop == AfterNextSegment ==> d.fate != Counted)
    && (room && a.stop == Never && a.faults == {} && Persistable(a.entry) ==> d.fate == Counted)
  }

  predicate PrescribeFits(a: PrescribeInput<Attempt>, d: PrescribeInput<Draft>, room: bool) {
    && d.valid == a.valid && d.canonicalized == a.canonicalized
    && Fits(a.prescription, d.prescription, room) && Fits(a.failure, d.failure, room)
    && |d.findings| == |a.findings| && forall i :: 0 <= i < |a.findings| ==> Fits(a.findings[i], d.findings[i], room)
  }

  predicate ReportFits(a: ReportInput<Attempt>, d: ReportInput<Draft>, room: bool) {
    && d.prescriptionId == a.prescriptionId && d.valid == a.valid && d.session == a.session
    && d.report.entry == a.report.entry && Fits(a.unknown, d.unknown, room)
    && match d.lookup
       case Known(named) => Fits(ReportAttempt(a, named), d.report.(entry := ReportAttempt(a, named).entry), room)
       case _ => Fits(a.report, d.report, room)
  }

  /** The report with the session it is written under. */
  function ReportAttempt(a: ReportInput<Attempt>, named: Entry): Attempt {
    a.report.(entry := a.report.entry.(sessionId := ReportSession(a, named)))
  }

  /** An append adds two segments at most: a first one, and one to rotate to. */
  const SEGMENTS_PER_APPEND := 2

  function Untried(a: Attempt): (d: Draft)
    ensures forall room :: Fits(a, d, room)
  {
    Draft(a.entry, a.faults, if a.stop == Never then Counted else Unwritten)
  }

  lemma FitsKeepsEntry(a: Attempt, d: Draft, room: bool)
    requires Fits(a, d, room)
    ensures d == d.(entry := a.entry)
  {
  }

  lemma BuiltIsPersistable(digest: Digest, e: Entry, previousHash: string)
    ensures Persistable(HashChain.Built(digest, e, previousHash)) == Persistable(e)
  {
    hide HashChain.Hashed;
  }

  lemma FitsWithLessRoom(a: Attempt, d: Draft, room: bool, less: bool)
    requires Fits(a, d, room) && (less ==> room)
    ensures Fits(a, d, less)
  {
  }

  class Service {
    const store: Store
    const digest: Digest

    constructor (store: Store, digest: Digest)
      ensures this.store == store && this.digest == digest
    {
      this.store, this.digest := store, digest;
    }

    ghost function OnDisk(): Disk
      requires store.counted <= |store.log|
      reads store
    {
      Lines(store.log, store.counted)
    }

    method Write(a: Attempt, kind: EntryType, advisory: bool) returns (error: Option<ErrorCode>, ghost d: Draft)
      requires store.Valid() && store.counted <= |store.log|
      modifies store
      ensures store.Valid() && store.counted <= |store.log|
      ensures store.segments <= old(store.segments) + SEGMENTS_PER_APPEND
      ensures Fits(a, d, old(store.segments) <= MAX_SEGMENTS)
      ensures (OnDisk(), error) == Written(digest, old(OnDisk()), OfKind(d, kind), advisory)
    {
      hide Store.Valid, Store.CurrentName, Store.CurrentLines, Bytes, HashChain.Built, HashChain.LastHash;
      d := Untried(a);
      var previous := "";
      if HashRead in a.faults {
        if !advisory {
          return Some(EvidenceRead), d;
        }
      } else {
        previous := store.LastHash();
      }
      if Build in a.faults {
        return Some(Internal), d;
      }
      var entry := HashChain.Built(digest, a.entry.(kind := kind), previous);
      BuiltIsPersistable(digest, a.entry.(kind := kind), previous);
      ghost var writes := store.Writes(entry, a.stop);
      var ok := store.Append(entry, a.stop);
      d := d.(fate := if ok then Counted else if writes then Uncounted else Unwritten);
      error := if ok then None else Some(EvidenceWrite);
    }

    method Prescribe(in_: PrescribeInput<Attempt>) returns (error: Option<ErrorCode>, ghost d: PrescribeInput<Draft>)
      requires store.Valid() && store.counted <= |store.log|
      modifies store
      ensures store.Valid() && store.counted <= |store.log|
      ensures PrescribeFits(in_, d, old(store.segments) + SEGMENTS_PER_APPEND * (|in_.findings| + 1) <= MAX_SEGMENTS)
      ensures (OnDisk(), error) == Prescribed(digest, old(OnDisk()), d)
    {
      hide Written, Store.Valid, Fits;
      ghost var room := store.segments + SEGMENTS_PER_APPEND * (|in_.findings| + 1) <= MAX_SEGMENTS;
      ghost var untried := seq(|in_.findings|, (i: nat) requires i < |in_.findings| => Untried(in_.findings[i]));
      d := PrescribeInput(in_.valid, in_.canonicalized, Untried(in_.prescription), untried, Untried(in_.failure));
      if !in_.valid {
        return Some(InvalidInput), d;
      }
      if !in_.canonicalized {
        var _, failure := Write(in_.failure, CanonFailure, true);
        FitsWithLessRoom(in_.failure, failure, old(store.segments) <= MAX_SEGMENTS, room);
        return Some(ParseError), d.(failure := failure);
      }
      ghost var prescription;
      error, prescription := Write(in_.prescription, EntryType.Prescribe, false);
      FitsWithLessRoom(in_.prescription, prescription, old(store.segments) <= MAX_SEGMENTS, room);
      d := d.(prescription := prescription);
      if error.Some? {
        return;
      }
      ghost var findings: seq<Draft> := [];
      ghost var before := OnDisk();
      for i := 0 to |in_.findings|
        invariant store.Valid() && store.counted <= |store.log|
        invariant store.segments <= old(store.segments) + SEGMENTS_PER_APPEND * (i + 1)
        invariant |findings| == i && forall j :: 0 <= j < i ==> Fits(in_.findings[j], findings[j], room)
        invariant OnDisk() == FindingsWritten(digest, before, findings)
      {
        ghost var segments := store.segments;
        var _, finding := Write(in_.findings[i], Finding, false);
        FitsWithLessRoom(in_.findings[i], finding, segments <= MAX_SEGMENTS, room);
        assert (findings + [finding])[..i] == findings;
        findings := findings + [finding];
      }
      d := d.(findings := findings);
    }

    method Report(in_: ReportInput<Attempt>) returns (error: Option<ErrorCode>, ghost d: ReportInput<Draft>)
      requires store.Valid() && store.counted <= |store.log|
      modifies store
      ensures store.Valid() && store.counted <= |store.log| && ReportFits(in_, d, old(store.segments) <= MAX_SEGMENTS)
      ensures (OnDisk(), error) == Reported(digest, old(OnDisk()), d)
      ensures LookupSound(old(store.log), Trim(in_.prescriptionId), d.lookup)
      ensures in_.lookup == Unreadable ==> d.lookup == Unreadable
      ensures !Blank(in_.prescriptionId) && in_.valid && d.lookup == Unreadable ==>
                in_.lookup == Unreadable || old(store.segments) > MAX_SEGMENTS
    {
      hide Written, Store.Valid, Fits, Blank, Trim;
      d := ReportInput(in_.prescriptionId, in_.valid, in_.session, Unreadable, Untried(in_.report), Untried(in_.unknown));
      if Blank(in_.prescriptionId) || !in_.valid {
        return Some(InvalidInput), d;
      }
      if in_.lookup == Unreadable {
        return Some(EvidenceRead), d;
      }
      var found := store.FindEntryById(Trim(in_.prescriptionId));
      if found.None? {
        return Some(EvidenceRead), d;
      }
      if found.value.None? {
        var _, unknown := Write(in_.unknown, Signal, true);
        return Some(NotFound), d.(lookup := Unknown, unknown := unknown);
      }
      var named := found.value.value;
      d := d.(lookup := Known(named));
      d := d.(report := Untried(ReportAttempt(in_, named)).(entry := in_.report.entry));
      var session := ReportSession(in_, named);
      if !Compatible(session, named) {
        return Some(InvalidInput), d;
      }
      ghost var report;
      error, report := Write(ReportAttempt(in_, named), EntryType.Report, false);
      FitsKeepsEntry(ReportAttempt(in_, named), report, old(store.segments) <= MAX_SEGMENTS);
      d := d.(report := report.(entry := in_.report.entry));
    }
  }

  // Runs

  datatype Call = PrescribeCall(prescribe: PrescribeInput<Draft>) | ReportCall(report: ReportInput<Draft>)

  function Step(digest: Digest, disk: Disk, call: Call): (Disk, Option<ErrorCode>) {
    match call
    case PrescribeCall(in_) => Prescribed(digest, disk, in_)
    case ReportCall(in_) => Reported(digest, disk, in_)
  }

  function Run(digest: Digest, calls: seq<Call>): Disk {
    if calls == [] then EMPTY_DISK else Step(digest, Run(digest, calls[..|calls| - 1]), calls[|calls| - 1]).0
  }

  /** One write of a call. */
  datatype Write = Write(draft: Draft, advisory: bool) {
    /** It gets as far as its line. */
    predicate PutsLine() {
      !(HashRead in draft.faults && !advisory) && Build !in draft.faults && draft.fate != Unwritten
    }

    /** And as far as the manifest. */
    predicate Succeeds() {
      PutsLine() && draft.fate == Counted
    }
  }

  function Each(drafts: seq<Draft>): (ws: seq<Write>)
    ensures |ws| == |drafts|
  {
    seq(|drafts|, (i: nat) requires i < |drafts| => Write(OfKind(drafts[i], Finding), false))
  }

  /** The writes a call tries, in order. */
  function WritesOf(call: Call): seq<Write> {
    match call
    case PrescribeCall(in_) =>
      var w := Write(OfKind(in_.prescription, EntryType.Prescribe), false);
      if !in_.valid then []
      else if !in_.canonicalized then [Write(OfKind(in_.failure, CanonFailure), true)]
      else if w.Succeeds() then [w] + Each(in_.findings)
      else [w]
    case ReportCall(in_) =>
      if Blank(in_.prescriptionId) || !in_.valid then []
      else
        match in_.lookup
        case Unreadable => []
        case Unknown => [Write(OfKind(in_.unknown, Signal), true)]
        case Known(named) => if Compatible(ReportSession(in_, named), named) then [Write(ReportDraft(in_, named), false)] else []
  }

  function AllWrites(calls: seq<Call>): seq<Write> {
    if calls == [] then [] else AllWrites(calls[..|calls| - 1]) + WritesOf(calls[|calls| - 1])
  }

  function Replay(digest: Digest, disk: Disk, ws: seq<Write>): Disk {
    if ws == [] then disk
    else Written(digest, Replay(digest, disk, ws[..|ws| - 1]), ws[|ws| - 1].draft, ws[|ws| - 1].advisory).0
  }

  lemma {:induction false} ReplayAppend(digest: Digest, disk: Disk, a: seq<Write>, b: seq<Write>)
    ensures Replay(digest, disk, a + b) == Replay(digest, Replay(digest, disk, a), b)
  {
    hide Written;
    if b == [] {
      assert a + b == a;
    } else {
      assert (a + b)[..|a + b| - 1] == a + b[..|b| - 1];
      ReplayAppend(digest, disk, a, b[..|b| - 1]);
    }
  }

  lemma {:induction false} FindingsReplay(digest: Digest, disk: Disk, findings: seq<Draft>)
    ensures FindingsWritten(digest, disk, findings) == Replay(digest, disk, Each(findings))
  {
    hide Written;
    if findings != [] {
      FindingsReplay(digest, disk, findings[..|findings| - 1]);
      assert Each(findings)[..|findings| - 1] == Each(findings[..|findings| - 1]);
    }
  }

  lemma ReplayOne(digest: Digest, disk: Disk, w: Write)
    ensures Replay(digest, disk, [w]) == Written(digest, disk, w.draft, w.advisory).0
    ensures Written(digest, disk, w.draft, w.advisory).1.None? <==> w.Succeeds()
  {
    hide HashChain.Built;
    assert [w][..0] == [];
    assert Replay(digest, disk, []) == disk;
  }

  /** A call does what its writes do. */
  lemma StepIsReplay(digest: Digest, disk: Disk, call: Call)
    ensures Step(digest, disk, call).0 == Replay(digest, disk, WritesOf(call))
  {
    hide Written, Write.Succeeds, Blank, OfKind, ReportDraft, Compatible, Each, FindingsWritten;
    match call
    case PrescribeCall(in_) =>
      var w := Write(OfKind(in_.prescription, EntryType.Prescribe), false);
      ReplayOne(digest, disk, w);
      ReplayOne(digest, disk, Write(OfKind(in_.failure, CanonFailure), true));
      ReplayAppend(digest, disk, [w], Each(in_.findings));
      FindingsReplay(digest, Written(digest, disk, w.draft, false).0, in_.findings);
    case ReportCall(in_) =>
      ReplayOne(digest, disk, Write(OfKind(in_.unknown, Signal), true));
      if in_.lookup.Known? {
        ReplayOne(digest, disk, Write(ReportDraft(in_, in_.lookup.entry), false));
      }
  }

  lemma {:induction false} RunIsReplay(digest: Digest, calls: seq<Call>)
    ensures Run(digest, calls) == Replay(digest, EMPTY_DISK, AllWrites(calls))
  {
    hide Step, WritesOf;
    if calls != [] {
      var front, last := calls[..|calls| - 1], calls[|calls| - 1];
      RunIsReplay(digest, front);
      StepIsReplay(digest, Run(digest, front), last);
      ReplayAppend(digest, EMPTY_DISK, AllWrites(front), WritesOf(last));
    }
  }

  // When the chain holds

  predicate AnyLine(ws: seq<Write>) {
    exists n :: 0 <= n < |ws| && ws[n].PutsLine()
  }

  /** The latest line put on disk, if there is one, was counted. */
  predicate LatestCounted(ws: seq<Write>) {
    ws == [] || if ws[|ws| - 1].PutsLine() then ws[|ws| - 1].draft.fate == Counted else LatestCounted(ws[..|ws| - 1])
  }

  /** No advisory line was put behind others without the last hash, and no line was put behind one that was not counted. */
  predicate Undisturbed(ws: seq<Write>) {
    forall n :: 0 <= n < |ws| && ws[n].PutsLine() ==>
                  if HashRead in ws[n].draft.faults then !AnyLine(ws[..n]) else LatestCounted(ws[..n])
  }

  lemma {:induction false} ReplayFacts(digest: Digest, ws: seq<Write>)
    ensures var disk := Replay(digest, EMPTY_DISK, ws);
            && (disk.log == [] <==> !AnyLine(ws))
            && (disk.counted == |disk.log| <==> LatestCounted(ws))
  {
    hide HashChain.Built, HashChain.LastHash;
    if ws != [] {
      var front := ws[..|ws| - 1];
      ReplayFacts(digest, front);
      AnyLineSnoc(ws);
    }
  }

  lemma AnyLineSnoc(ws: seq<Write>)
    requires ws != []
    ensures AnyLine(ws) <==> AnyLine(ws[..|ws| - 1]) || ws[|ws| - 1].PutsLine()
  {
    hide Write.PutsLine;
    var front := ws[..|ws| - 1];
    if AnyLine(front) {
      var n :| 0 <= n < |front| && front[n].PutsLine();
      assert ws[n] == front[n];
    }
  }

  lemma UndisturbedSnoc(ws: seq<Write>)
    requires ws != []
    ensures var n := |ws| - 1;
            Undisturbed(ws) <==>
            Undisturbed(ws[..n]) && (ws[n].PutsLine() ==> if HashRead in ws[n].draft.faults then !AnyLine(ws[..n]) else LatestCounted(ws[..n]))
  {
    hide AnyLine, LatestCounted, Write.PutsLine;
    var n := |ws| - 1;
    var front := ws[..n];
    assert forall k :: 0 <= k < n ==> front[..k] == ws[..k] && front[k] == ws[k];
  }

  predicate AllSealed(digest: Digest, log: seq<Entry>) {
    forall i | 0 <= i < |log| :: HashChain.Sealed(digest, log[i])
  }

  lemma {:induction false} ReplaySealed(digest: Digest, ws: seq<Write>)
    ensures AllSealed(digest, Replay(digest, EMPTY_DISK, ws).log)
  {
    if ws != [] {
      hide Written, HashChain.Built, ManifestHash, Write.PutsLine, HashChain.Sealed;
      var d := ws[|ws| - 1].draft;
      var before := Replay(digest, EMPTY_DISK, ws[..|ws| - 1]);
      LineAdded(digest, before, ws[|ws| - 1]);
      ReplaySealed(digest, ws[..|ws| - 1]);
      HashChain.BuiltIsSealed(digest, d.entry, if HashRead in d.faults then "" else ManifestHash(before));
    }
  }

  /** The hash a line is built on is that of the line before it exactly when that one is what was counted last. */
  lemma RightHash(digest: Digest, disk: Disk, w: Write)
    requires HashChain.CollisionFree(digest, disk.log) && HashChain.UniqueIds(disk.log)
    requires AllSealed(digest, disk.log)
    ensures var previous := if HashRead in w.draft.faults then "" else ManifestHash(disk);
            previous == HashChain.LastHash(disk.log)
            <==> if HashRead in w.draft.faults then disk.log == [] else disk.counted == |disk.log|
  {
    hide HashChain.UniqueIds;
    if HashRead in w.draft.faults {
      if disk.log != [] {
        assert HashChain.Sealed(digest, disk.log[|disk.log| - 1]);
      }
    } else if disk.counted == |disk.log| {
      assert disk.log[..disk.counted] == disk.log;
    } else {
      HashChain.PrefixHashDiffers(digest, disk.log[..disk.counted], disk.log);
    }
  }

  lemma LineAdded(digest: Digest, disk: Disk, w: Write)
    ensures var t := Written(digest, disk, w.draft, w.advisory).0;
            var e := HashChain.Built(digest, w.draft.entry, if HashRead in w.draft.faults then "" else ManifestHash(disk));
            t.log == if w.PutsLine() then disk.log + [e] else disk.log
  {
    hide HashChain.Built, ManifestHash;
  }

  /** After any writes, the chain is valid exactly when they were undisturbed. */
  lemma {:induction false} WritesDecideValidity(digest: Digest, ws: seq<Write>)
    requires var log := Replay(digest, EMPTY_DISK, ws).log; HashChain.CollisionFree(digest, log) && HashChain.UniqueIds(log)
    ensures HashChain.ChainValid(digest, Replay(digest, EMPTY_DISK, ws).log) <==> Undisturbed(ws)
  {
    hide HashChain.ChainValid, Written, Undisturbed, AnyLine, LatestCounted, HashChain.CollisionFree, HashChain.UniqueIds,
      HashChain.Built, HashChain.LastHash, HashChain.Sealed, AllSealed, Write.PutsLine, ManifestHash;
    if ws == [] {
      NoWrites(digest);
    } else {
      var front, w := ws[..|ws| - 1], ws[|ws| - 1];
      var disk, log := Replay(digest, EMPTY_DISK, front), Replay(digest, EMPTY_DISK, ws).log;
      LineAdded(digest, disk, w);
      assert log[..|disk.log|] == disk.log;
      HashChain.PrefixesCollisionFree(digest, log, |disk.log|);
      WritesDecideValidity(digest, front);
      UndisturbedSnoc(ws);
      ReplayFacts(digest, front);
      ReplaySealed(digest, front);
      RightHash(digest, disk, w);
      var previous := if HashRead in w.draft.faults then "" else ManifestHash(disk);
      HashChain.BuiltIsSealed(digest, w.draft.entry, previous);
      HashChain.ChainSnoc(digest, disk.log, HashChain.Built(digest, w.draft.entry, previous));
    }
  }

  lemma NoWrites(digest: Digest)
    ensures HashChain.ChainValid(digest, Replay(digest, EMPTY_DISK, []).log) && Undisturbed([])
  {
  }

  /** A run leaves a valid chain if and only if no advisory entry was put behind other lines while the last hash could not
      be read, and no line was put behind one whose manifest write was cut short. */
  lemma ChainHoldsIffUndisturbed(digest: Digest, calls: seq<Call>)
    requires HashChain.CollisionFree(digest, Run(digest, calls).log) && HashChain.UniqueIds(Run(digest, calls).log)
    ensures HashChain.ChainValid(digest, Run(digest, calls).log) <==> Undisturbed(AllWrites(calls))
  {
    hide Run, Replay, Undisturbed, HashChain.ChainValid, HashChain.CollisionFree, HashChain.UniqueIds;
    RunIsReplay(digest, calls);
    WritesDecideValidity(digest, AllWrites(calls));
  }

  // Answers

  /** A report is accepted exactly when it is valid, names an entry on record, of whatever kind, with a compatible session,
      and is read, built and written without a fault; then it is the one line that is added. */
  lemma AcceptedExactly(digest: Digest, disk: Disk, in_: ReportInput<Draft>)
    requires LookupSound(disk.log, Trim(in_.prescriptionId), in_.lookup)
    ensures Reported(digest, disk, in_).1.None?
            <==> !Blank(in_.prescriptionId) && in_.valid
                 && in_.lookup.Known?
                 && (Trim(in_.session) == "" || in_.lookup.entry.sessionId == "" || Trim(in_.session) == in_.lookup.entry.sessionId)
                 && in_.report.faults == {} && in_.report.fate == Counted
    ensures in_.lookup != Unreadable ==> (in_.lookup.Known? <==> exists e :: e in disk.log && e.entryId == Trim(in_.prescriptionId))
    ensures Reported(digest, disk, in_).1.None? ==>
              var session := if Trim(in_.session) == "" then in_.lookup.entry.sessionId else Trim(in_.session);
              var e := HashChain.Built(digest, in_.report.entry.(kind := EntryType.Report, sessionId := session),
                                       HashChain.LastHash(disk.log[..disk.counted]));
              Reported(digest, disk, in_).0 == Lines(disk.log + [e], |disk.log| + 1)
  {
    hide TrimLeft, TrimRight, HashChain.Hashed, HashChain.LastHash;
    assert forall f | f in in_.report.faults :: f == HashRead || f == Build;
    assert in_.report.faults == {} <==> HashRead !in in_.report.faults && Build !in in_.report.faults;
  }

  /** A refused call changes nothing, or leaves one line: of an artifact that does not parse, of a prescription that is not
      known, or of an entry whose manifest write was cut short, and only the latter is not counted. */
  lemma RefusedCall(digest: Digest, disk: Disk, call: Call)
    requires Step(digest, disk, call).1.Some?
    ensures var t := Step(digest, disk, call).0;
            var error := Step(digest, disk, call).1.value;
            || t == disk
            || (|t.log| == |disk.log| + 1 && disk.log <= t.log
                && (error == ParseError || error == NotFound || (error == EvidenceWrite && t.counted == disk.counted)))
  {
    hide Blank, HashChain.Built, FindingsWritten, ManifestHash, ReportDraft, Compatible;
  }

  /** A run of the service: a prescription, a report on it, and a report on that report, all accepted. */
  lemma ReportOnReportAccepted(digest: Digest, p: Entry, r: Entry, s: Entry)
    requires p.entryId == "p1" && r.entryId == "r1" && p.sessionId == "s"
    ensures var calls := ReportChain(digest, p, r, s);
            && (forall n :: 0 <= n < 3 ==> Step(digest, Run(digest, calls[..n]), calls[n]).1 == None)
            && (forall n :: 1 <= n < 3 ==> LookupSound(Run(digest, calls[..n]).log, Trim(calls[n].report.prescriptionId), calls[n].report.lookup))
            && |Run(digest, calls).log| == 3
            && calls[2].report.lookup.entry.kind == EntryType.Report
  {
    hide Trim, Blank, HashChain.LastHash, HashChain.Hashed, Reported;
    Names();
    var calls := ReportChain(digest, p, r, s);
    var first, second := calls[1].report.lookup.entry, calls[2].report.lookup.entry;
    assert calls[..0] == [] && Run(digest, []) == EMPTY_DISK;
    var one := Run(digest, calls[..1]);
    assert calls[..1][..0] == [];
    assert one == Lines([first], 1) by {
      assert [] + [first] == [first];
    }
    AcceptedExactly(digest, one, calls[1].report);
    assert first.sessionId == "s" && ReportDraft(calls[1].report, first).entry == r.(kind := EntryType.Report, sessionId := "s");
    var two := Run(digest, calls[..2]);
    assert calls[..2][..1] == calls[..1];
    assert two == Lines([first, second], 2) by {
      assert [first] + [second] == [first, second];
    }
    AcceptedExactly(digest, two, calls[2].report);
    assert calls[..|calls| - 1] == calls[..2];
  }

  lemma Names()
    ensures Trim("p1") == "p1" && Trim("r1") == "r1" && Blank("") && !Blank("p1") && !Blank("r1")
  {
    assert TrimLeft("p1") == "p1" && TrimRight("p1") == "p1";
    assert TrimLeft("r1") == "r1" && TrimRight("r1") == "r1";
  }

  function ReportChain(digest: Digest, p: Entry, r: Entry, s: Entry): seq<Call> {
    var first := HashChain.Built(digest, p.(kind := EntryType.Prescribe), ManifestHash(EMPTY_DISK));
    var second := HashChain.Built(digest, r.(kind := EntryType.Report, sessionId := "s"), ManifestHash(Lines([first], 1)));
    var none := Draft(s, {}, Unwritten);
    [PrescribeCall(PrescribeInput(true, true, Draft(p, {}, Counted), [], none)),
     ReportCall(ReportInput("p1", true, "", Known(first), Draft(r, {}, Counted), none)),
     ReportCall(ReportInput("r1", true, "", Known(second), Draft(s, {}, Counted), none))]
  }
}
