/** Argo CD applications observed as sync lifecycles (internal/gitops/argocd). */
module ArgoCd {
  import opened Wrappers
  import opened Text
  import opened EntryTables
  import opened Emitter
  import EmitterRuns
  import Sorting

  // Applications and events

  /** The fields of an application object that the reducer reads, annotations by the name of what they hold. */
  datatype Application = Application(
    name: string, namespace: string, uid: string, phase: string,
    operationRevision: string, statusRevision: string,
    destinationNamespace: string, destinationName: string, destinationServer: string,
    argocdOperationId: string, evidraOperationId: string,
    tenant: string, session: string, prescription: string,
    body: string)

  datatype Kind = SyncStarted | SyncCompleted

  datatype Event = Event(
    key: string, source: string, kind: Kind, application: string, namespace: string, uid: string,
    destinationNamespace: string, cluster: string, revision: string, operationId: string,
    tenant: string, isExplicit: bool, session: string, prescription: string)

  /** Lower case, for the letters whose lower case is an ASCII one. */
  function Lower(s: string): (r: string)
    ensures |r| == |s|
  {
    seq(|s|, (i: nat) requires i < |s| =>
      if 'A' <= s[i] <= 'Z' then s[i] - 'A' + 'a' else if s[i] == '\U{212A}' then 'k' else if s[i] == '\U{0130}' then 'i' else s[i])
  }

  function ReducePhase(phase: string): Option<Kind> {
    var p := Lower(Trim(phase));
    if p == "running" then Some(SyncStarted)
    else if p in ["succeeded", "failed", "error", "degraded"] then Some(SyncCompleted)
    else None
  }

  function SourceOf(kind: Kind): string {
    match kind
    case SyncStarted => "argocd_controller_start"
    case SyncCompleted => "argocd_controller_complete"
  }

  function KindName(kind: Kind): string {
    match kind
    case SyncStarted => "sync_started"
    case SyncCompleted => "sync_completed"
  }

  function LifecycleKey(uid: string, operationId: string, revision: string, phase: string, kind: Kind): string {
    if !Blank(operationId) then uid + ":" + operationId + ":" + KindName(kind)
    else uid + ":" + revision + ":" + Lower(Trim(phase)) + ":" + KindName(kind)
  }

  function OperationIdOf(app: Application): string {
    FirstNonEmpty(Trim(app.argocdOperationId), Trim(app.evidraOperationId))
  }

  function RevisionOf(app: Application): string {
    FirstNonEmpty(Trim(app.operationRevision), Trim(app.statusRevision))
  }

  function ReduceApplication(app: Application, defaultTenant: string): Option<Event> {
    var kind := ReducePhase(Trim(app.phase));
    if kind.None? then None
    else
      Some(Event(
             LifecycleKey(app.uid, OperationIdOf(app), RevisionOf(app), Trim(app.phase), kind.value),
             SourceOf(kind.value), kind.value, app.name, app.namespace, app.uid,
             Trim(app.destinationNamespace), FirstNonEmpty(Trim(app.destinationName), Trim(app.destinationServer)),
             RevisionOf(app), OperationIdOf(app),
             if Blank(app.tenant) then Trim(defaultTenant) else Trim(app.tenant),
             !Blank(app.session) || !Blank(app.prescription), Trim(app.session), Trim(app.prescription)))
  }

  // Handling one application

  /** SHA-256 in hexadecimal. */
  type Hash = string -> string

  function JoinBars(parts: seq<string>): string {
    if parts == [] then ""
    else if |parts| == 1 then parts[0]
    else parts[0] + "|" + JoinBars(parts[1..])
  }

  function MappedPrescriptionId(event: Event, sha256: Hash): string {
    "map-" + sha256(JoinBars(["argocd_controller", event.uid, event.application, event.namespace,
                              event.destinationNamespace, event.cluster, FirstNonEmpty(event.operationId, event.revision)]))
  }

  function SessionOf(event: Event): string {
    if event.operationId != "" then event.operationId else event.uid + ":" + event.revision
  }

  datatype Controller = Controller(tenant: string, sha256: Hash)

  /** One look at an application: the identifier and hash the entry will get, and the statements that fail. */
  datatype Observation = Observation(app: Application, newId: Ulid, hash: string, faults: set<Fault>)

  lemma MapIdNotBlank(digest: string)
    ensures !Blank("map-" + digest)
  {
    hide TrimRight;
    var id := "map-" + digest;
    assert id[0] == 'm';
    KeepsFirst(id);
  }

  /** Trimming keeps a first character that is not white space. */
  lemma {:induction false} KeepsFirst(s: string)
    requires s != "" && !IsSpace(s[0])
    ensures !Blank(s)
  {
    FirstSurvives(s);
  }

  lemma {:induction false} FirstSurvives(s: string)
    requires s != "" && !IsSpace(s[0])
    ensures TrimRight(s) != ""
  {
    if IsSpace(s[|s| - 1]) {
      FirstSurvives(s[..|s| - 1]);
    }
  }

  /** What is emitted for an event, if anything. */
  function EmissionFor(c: Controller, event: Event, o: Observation): Option<Emission> {
    MapIdNotBlank(c.sha256(JoinBars(["argocd_controller", event.uid, event.application, event.namespace,
                              event.destinationNamespace, event.cluster, FirstNonEmpty(event.operationId, event.revision)])));
    var tenant := FirstNonEmpty(event.tenant, c.tenant);
    var prescription := MappedPrescriptionId(event, c.sha256);
    if event.isExplicit then
      if event.kind != SyncCompleted || Blank(event.prescription) then None
      else
        Some(Emission(tenant, event.source, event.key, o.app.body,
                      Draft.ExplicitReport(o.newId, event.session, "", event.prescription), o.hash))
    else if event.kind == SyncStarted then
      Some(Emission(tenant, event.source, event.key, o.app.body,
                    Mapped(PrescribeRow, prescription, SessionOf(event), SessionOf(event), prescription), o.hash))
    else
      Some(Emission(tenant, event.source, event.key, o.app.body,
                    Mapped(ReportRow, o.newId, SessionOf(event), SessionOf(event), prescription), o.hash))
  }

  function EmissionOf(c: Controller, o: Observation): Option<Emission> {
    var event := ReduceApplication(o.app, c.tenant);
    if event.None? then None else EmissionFor(c, event.value, o)
  }

  /** The tables after handling one application, and whether it succeeded. */
  function HandleStep(c: Controller, db: DB, o: Observation): (DB, bool) {
    var e := EmissionOf(c, o);
    if e.None? then (db, true)
    else
      var r := EmitStep(db, e.value, o.faults);
      (r.0, r.1.Some?)
  }

  method HandleApplication(c: Controller, store: EntryStore, o: Observation) returns (ok: bool)
    modifies store
    ensures (store.Db(), ok) == HandleStep(c, old(store.Db()), o)
  {
    hide EmitStep, EmissionFor, ReduceApplication;
    var event := ReduceApplication(o.app, c.tenant);
    if event.None? {
      return true;
    }
    var e := EmissionFor(c, event.value, o);
    if e.None? {
      return true;
    }
    var r := Emit(store, e.value, o.faults);
    return r.Some?;
  }

  // A pass over all applications

  function SortRank(c: Controller, o: Observation): nat {
    match ReduceApplication(o.app, c.tenant)
    case None => 2
    case Some(event) => if event.kind == SyncStarted then 0 else 1
  }

  /** Starts come first; names compare by code point. */
  predicate Before(c: Controller, a: Observation, b: Observation) {
    if SortRank(c, a) != SortRank(c, b) then SortRank(c, a) < SortRank(c, b) else Sorting.Less(a.app.name, b.app.name)
  }

  function PassOrder(c: Controller): (Observation, Observation) -> bool {
    (a, b) => Before(c, a, b)
  }

  function SortByRank(c: Controller, s: seq<Observation>): (r: seq<Observation>)
    ensures multiset(r) == multiset(s)
  {
    Sorting.Sort(PassOrder(c), s)
  }

  /** The tables after handling applications one after the other, stopping at the first that fails. */
  function PassStep(c: Controller, db: DB, items: seq<Observation>): (DB, bool) {
    if items == [] then (db, true)
    else
      var r := PassStep(c, db, items[..|items| - 1]);
      if !r.1 then r else HandleStep(c, r.0, items[|items| - 1])
  }

  method SyncOnce(c: Controller, store: EntryStore, list: Option<seq<Observation>>) returns (ok: bool)
    modifies store
    ensures list.None? ==> !ok && store.Db() == old(store.Db())
    ensures list.Some? ==> (store.Db(), ok) == PassStep(c, old(store.Db()), SortByRank(c, list.value))
  {
    hide HandleStep, SortByRank;
    if list.None? {
      return false;
    }
    var items := SortByRank(c, list.value);
    ghost var db := store.Db();
    for i := 0 to |items|
      invariant (store.Db(), true) == PassStep(c, db, items[..i])
    {
      assert items[..i + 1][..i] == items[..i];
      ok := HandleApplication(c, store, items[i]);
      if !ok {
        StoppedPass(c, db, items, i + 1);
        return false;
      }
    }
    assert items[..|items|] == items;
    return true;
  }

  /** A pass that failed stays where it failed. */
  lemma {:induction false} StoppedPass(c: Controller, db: DB, items: seq<Observation>, n: nat)
    requires n <= |items| && !PassStep(c, db, items[..n]).1
    ensures PassStep(c, db, items) == PassStep(c, db, items[..n])
    decreases |items| - n
  {
    hide HandleStep;
    if n == |items| {
      assert items[..n] == items;
    } else {
      assert items[..n + 1][..n] == items[..n];
      StoppedPass(c, db, items, n + 1);
    }
  }

  predicate RanksAscend(c: Controller, s: seq<Observation>) {
    forall i, j :: 0 <= i <= j < |s| ==> SortRank(c, s[i]) <= SortRank(c, s[j])
  }

  /** Sync starts are handled before completions, and both before applications with nothing to report. */
  lemma {:induction false} StartsComeFirst(c: Controller, s: seq<Observation>)
    ensures RanksAscend(c, SortByRank(c, s))
  {
    if s == [] {
    } else {
      hide SortRank, RanksAscend, Sorting.Insert;
      StartsComeFirst(c, s[..|s| - 1]);
      InsertKeepsRanks(c, s[|s| - 1], SortByRank(c, s[..|s| - 1]));
    }
  }

  lemma RanksCons(c: Controller, o: Observation, s: seq<Observation>)
    requires RanksAscend(c, s) && forall j :: 0 <= j < |s| ==> SortRank(c, o) <= SortRank(c, s[j])
    ensures RanksAscend(c, [o] + s)
  {
    hide SortRank;
  }

  lemma {:induction false} InsertKeepsRanks(c: Controller, o: Observation, s: seq<Observation>)
    requires RanksAscend(c, s)
    ensures RanksAscend(c, Sorting.Insert(PassOrder(c), o, s))
  {
    hide SortRank, Sorting.Less;
    if s == [] {
    } else if Before(c, s[0], o) {
      var rest := Sorting.Insert(PassOrder(c), o, s[1..]);
      InsertKeepsRanks(c, o, s[1..]);
      forall j | 0 <= j < |rest| ensures SortRank(c, s[0]) <= SortRank(c, rest[j]) {
        Sorting.InsertedFrom(PassOrder(c), o, s[1..], rest[j]);
        if rest[j] != o {
          var k :| 0 <= k < |s[1..]| && s[1..][k] == rest[j];
          assert s[k + 1] == rest[j];
        }
      }
      RanksCons(c, s[0], rest);
    } else {
      assert forall j :: 0 <= j < |s| ==> s != [] && SortRank(c, s[0]) <= SortRank(c, s[j]);
      RanksCons(c, o, s);
    }
  }

  // What every pass keeps

  /** Events always have a key and a source, so every emission is claimed. */
  lemma EveryEmissionIsClaimed(c: Controller, o: Observation)
    requires EmissionOf(c, o).Some?
    ensures EmissionOf(c, o).value.Claims()
  {
    hide MappedPrescriptionId, Trim, FirstNonEmpty, Lower, SessionOf, SourceOf, KindName, JoinBars;
    var event := ReduceApplication(o.app, c.tenant).value;
    SourceNotBlank(event.kind);
    var head := if !Blank(event.operationId) then event.uid + ":" + event.operationId + ":"
                else event.uid + ":" + event.revision + ":" + Lower(Trim(Trim(o.app.phase))) + ":";
    assert event.key == head + KindName(event.kind);
    NameEndsBlankless(head, event.kind);
  }

  lemma SourceNotBlank(kind: Kind)
    ensures !Blank(SourceOf(kind))
  {
    hide Blank;
    KeepsFirst(SourceOf(kind));
  }

  lemma NameEndsBlankless(head: string, kind: Kind)
    ensures !Blank(head + KindName(kind))
  {
    var s := head + KindName(kind);
    assert s[|s| - 1] == 'd';
    KeepsLast(s);
  }

  lemma {:induction false} KeepsLast(s: string)
    requires s != "" && !IsSpace(s[|s| - 1])
    ensures !Blank(s)
  {
    LastSurvives(s);
  }

  lemma {:induction false} LastSurvives(s: string)
    requires s != "" && !IsSpace(s[|s| - 1])
    ensures TrimLeft(s) != "" && !IsSpace(TrimLeft(s)[|TrimLeft(s)| - 1])
  {
    if IsSpace(s[0]) {
      LastSurvives(s[1..]);
    }
  }

  /** What handling an application saves, and under which key: nothing unless its emission is answered with a new row. */
  function NewlySaved(c: Controller, db: DB, o: Observation): seq<EmitterRuns.SavedEntry> {
    var e := EmissionOf(c, o);
    if e.None? then []
    else
      var r := EmitStep(db, e.value, o.faults).1;
      if r.Some? && r.value.Saved? then [EmitterRuns.SavedEntry(e.value.ClaimKey(), r.value.row)] else []
  }

  /** Handling an application is an interleaving of its own actions. */
  lemma HandlingIsConsistent(c: Controller, db0: DB, actions: seq<EmitterRuns.Action>, o: Observation)
    returns (more: seq<EmitterRuns.Action>)
    requires EmitterRuns.NobodyDies(actions)
    requires EmitterRuns.Run(EmitterRuns.Start(db0), actions).held == map[]
    ensures EmitterRuns.NobodyDies(actions + more)
    ensures var s := EmitterRuns.Run(EmitterRuns.Start(db0), actions); var t := EmitterRuns.Run(EmitterRuns.Start(db0), actions + more);
            && t.db == HandleStep(c, s.db, o).0
            && t.held == map[]
            && t.saved == s.saved + NewlySaved(c, s.db, o)
  {
    hide EmitStep, EmissionOf, EmitterRuns.Run, RowToSave, Emission.Claims;
    var s := EmitterRuns.Run(EmitterRuns.Start(db0), actions);
    if EmissionOf(c, o).None? {
      more := [];
      assert actions + more == actions;
    } else {
      EveryEmissionIsClaimed(c, o);
      more := EmitterRuns.ActionsOf(s.db, EmissionOf(c, o).value, o.faults);
      EmitterRuns.EmitStepIsItsActions(EmitterRuns.Start(db0), actions, EmissionOf(c, o).value, o.faults);
    }
  }

  /** The tables after any sequence of observations, whichever fail. */
  function Observe(c: Controller, db: DB, observations: seq<Observation>): DB {
    if observations == [] then db
    else HandleStep(c, Observe(c, db, observations[..|observations| - 1]), observations[|observations| - 1]).0
  }

  /** What the observations saved, in order. */
  function SavedBy(c: Controller, db: DB, observations: seq<Observation>): seq<EmitterRuns.SavedEntry> {
    if observations == [] then []
    else
      var front, last := observations[..|observations| - 1], observations[|observations| - 1];
      SavedBy(c, db, front) + NewlySaved(c, Observe(c, db, front), last)
  }

  /** After any observations, replayed or reordered and with whatever failures, from whatever tables: the new entries are
      those that emissions were answered with, no two of them under one key and none under a key claimed before, and the
      claims taken are exactly those keys. */
  lemma ClaimsAreTheSavedKeys(c: Controller, db0: DB, observations: seq<Observation>)
    ensures var db, saved := Observe(c, db0, observations), SavedBy(c, db0, observations);
            && db.entries == db0.entries + EmitterRuns.Rows(saved)
            && EmitterRuns.KeysDistinct(saved)
            && (forall key :: key in EmitterRuns.Keys(saved) ==> key !in db0.claims)
            && db.claims.Keys == db0.claims.Keys + EmitterRuns.Keys(saved)
  {
    hide Observe, SavedBy, EmitterRuns.Rows, EmitterRuns.Keys, EmitterRuns.KeysDistinct;
    var actions := ActionsOfObservations(c, db0, observations);
    assert EmitterRuns.NoClaimLost(EmitterRuns.Start(db0), actions);
    EmitterRuns.AtRestClaimsAreSaved(db0, actions);
  }

  lemma {:induction false} ActionsOfObservations(c: Controller, db0: DB, observations: seq<Observation>) returns (actions: seq<EmitterRuns.Action>)
    ensures EmitterRuns.NobodyDies(actions)
    ensures var s := EmitterRuns.Run(EmitterRuns.Start(db0), actions);
            s.held == map[] && s.db == Observe(c, db0, observations) && s.saved == SavedBy(c, db0, observations)
  {
    hide HandleStep, NewlySaved;
    if observations == [] {
      actions := [];
    } else {
      var front := ActionsOfObservations(c, db0, observations[..|observations| - 1]);
      var more := HandlingIsConsistent(c, db0, front, observations[|observations| - 1]);
      actions := front + more;
    }
  }

  // Repeating a pass

  /** The claim an observation depends on is there. */
  predicate Settled(c: Controller, db: DB, o: Observation) {
    EmissionOf(c, o).Some? ==> EmissionOf(c, o).value.ClaimKey() in db.claims
  }

  lemma SettledAddsNothing(c: Controller, db: DB, o: Observation)
    requires Settled(c, db, o)
    ensures HandleStep(c, db, o).0 == db
    ensures o.faults == {} ==> HandleStep(c, db, o).1
  {
    hide EmissionOf, RowToSave, Emission.Claims;
    if EmissionOf(c, o).Some? {
      EveryEmissionIsClaimed(c, o);
    }
  }

  lemma HandledIsSettled(c: Controller, db: DB, o: Observation, q: Observation)
    ensures HandleStep(c, db, o).1 ==> Settled(c, HandleStep(c, db, o).0, o)
    ensures Settled(c, db, q) ==> Settled(c, HandleStep(c, db, o).0, q)
  {
    hide EmissionOf, RowToSave, Emission.Claims;
    if EmissionOf(c, o).Some? {
      EveryEmissionIsClaimed(c, o);
    }
  }

  lemma {:induction false} PassSettles(c: Controller, db: DB, items: seq<Observation>)
    requires PassStep(c, db, items).1
    ensures forall i :: 0 <= i < |items| ==> Settled(c, PassStep(c, db, items).0, items[i])
  {
    hide HandleStep, Settled;
    if items != [] {
      var front := items[..|items| - 1];
      PassSettles(c, db, front);
      forall i | 0 <= i < |items| ensures Settled(c, PassStep(c, db, items).0, items[i]) {
        HandledIsSettled(c, PassStep(c, db, front).0, items[|items| - 1], items[i]);
        assert i < |front| ==> front[i] == items[i];
      }
    }
  }

  lemma {:induction false} SettledPassAddsNothing(c: Controller, db: DB, items: seq<Observation>)
    requires forall i :: 0 <= i < |items| ==> Settled(c, db, items[i])
    ensures PassStep(c, db, items).0 == db
    ensures (forall i :: 0 <= i < |items| ==> items[i].faults == {}) ==> PassStep(c, db, items).1
  {
    hide HandleStep, Settled;
    if items != [] {
      SettledPassAddsNothing(c, db, items[..|items| - 1]);
      SettledAddsNothing(c, db, items[|items| - 1]);
    }
  }

  /** The same applications, looked at again. */
  predicate SameApplications(first: seq<Observation>, second: seq<Observation>) {
    forall o :: o in second ==> exists p :: p in first && p.app == o.app
  }

  lemma SameAppSettled(c: Controller, db: DB, p: Observation, o: Observation)
    requires p.app == o.app && Settled(c, db, p)
    ensures Settled(c, db, o)
  {
    hide ReduceApplication, LifecycleKey, MappedPrescriptionId;
  }

  /** A second pass over applications that have not changed adds nothing, whatever fails in it; it succeeds if nothing does. */
  lemma SecondPassAddsNothing(c: Controller, db: DB, first: seq<Observation>, second: seq<Observation>)
    requires PassStep(c, db, SortByRank(c, first)).1 && SameApplications(first, second)
    ensures var db' := PassStep(c, db, SortByRank(c, first)).0;
            && PassStep(c, db', SortByRank(c, second)).0 == db'
            && ((forall o :: o in second ==> o.faults == {}) ==> PassStep(c, db', SortByRank(c, second)).1)
  {
    hide SortByRank, PassStep, Settled;
    var items, again := SortByRank(c, first), SortByRank(c, second);
    var db' := PassStep(c, db, items).0;
    PassSettles(c, db, items);
    forall i | 0 <= i < |again| ensures again[i] in second && Settled(c, db', again[i]) {
      assert again[i] in multiset(again);
      assert again[i] in multiset(second);
      var p :| p in first && p.app == again[i].app;
      assert p in multiset(first);
      assert p in multiset(items);
      var k :| 0 <= k < |items| && items[k] == p;
      SameAppSettled(c, db', p, again[i]);
    }
    SettledPassAddsNothing(c, db', again);
  }

  // Starts and completions

  /** Two events are of one operation of one application. */
  predicate SameOperation(a: Event, b: Event) {
    && a.uid == b.uid && a.application == b.application && a.namespace == b.namespace
    && a.destinationNamespace == b.destinationNamespace && a.cluster == b.cluster
    && FirstNonEmpty(a.operationId, a.revision) == FirstNonEmpty(b.operationId, b.revision)
  }

  /** When the start and the completion of one operation are both saved, the report names the prescription. */
  lemma CompletionNamesStart(c: Controller, a: Event, start: Observation, db: DB, prescribe: Row,
                             b: Event, completion: Observation, db': DB, report: Row)
    requires a.kind == SyncStarted && !a.isExplicit && b.kind == SyncCompleted && !b.isExplicit && SameOperation(a, b)
    requires EmitStep(db, EmissionFor(c, a, start).value, start.faults).1 == Some(Saved(prescribe))
    requires EmitStep(db', EmissionFor(c, b, completion).value, completion.faults).1 == Some(Saved(report))
    ensures prescribe.kind == PrescribeRow && report.kind == ReportRow && report.prescriptionId == prescribe.id
    ensures a.operationId == b.operationId && a.revision == b.revision ==>
              report.session == prescribe.session && report.operation == prescribe.operation
  {
    hide JoinBars, FirstNonEmpty, LastHash, IdTaken, Emission.Claims;
  }

  /** An application syncing one revision without an operation ID. */
  function SyncOf(phase: string, operation: string, revision: string): Application {
    Application("app", "argocd", "uid", phase, revision, "", "", "", "", operation, "", "", "", "", "{}")
  }

  lemma TrimKeeps(s: string)
    requires s != "" && !IsSpace(s[0]) && !IsSpace(s[|s| - 1])
    ensures Trim(s) == s
  {
  }

  lemma TrimsOfSync()
    ensures Trim("") == "" && Trim("r1") == "r1" && Trim("Running") == "Running" && Lower("Running") == "running"
  {
    assert Trim("") == "";
    hide Trim;
    TrimKeeps("r1");
    TrimKeeps("Running");
  }

  lemma ReducedSyncs(tenant: string)
    ensures ReduceApplication(SyncOf("Running", "r1", ""), tenant)
            == Some(Event("uid:r1:sync_started", "argocd_controller_start", SyncStarted, "app", "argocd", "uid", "", "", "", "r1",
                          Trim(tenant), false, "", ""))
    ensures ReduceApplication(SyncOf("Running", "", "r1"), tenant)
            == Some(Event("uid:r1:running:sync_started", "argocd_controller_start", SyncStarted, "app", "argocd", "uid", "", "", "r1", "",
                          Trim(tenant), false, "", ""))
  {
    hide Trim, Lower;
    TrimsOfSync();
    assert "uid" + ":" + "r1" + ":" + "sync_started" == "uid:r1:sync_started";
    assert "uid" + ":" + "r1" + ":" + "running" + ":" + "sync_started" == "uid:r1:running:sync_started";
  }

  lemma FirstStartIsSaved(c: Controller, o: Observation, event: Event)
    requires ReduceApplication(o.app, c.tenant) == Some(event) && event.kind == SyncStarted && !event.isExplicit && o.faults == {}
    ensures var db := HandleStep(c, EMPTY_DB, o).0;
            && |db.entries| == 1 && db.entries[0].id == MappedPrescriptionId(event, c.sha256)
            && forall key :: key in db.claims ==> key.key == event.key
  {
    hide ReduceApplication, MappedPrescriptionId, LastHash, SessionOf, FirstNonEmpty, Emission.Claims;
    EveryEmissionIsClaimed(c, o);
  }

  /** A start with an unclaimed key is saved, if nothing fails, exactly when its prescription ID is free; with the ID taken
      it is refused every time, whatever fails. */
  lemma StartSavedIffIdFree(c: Controller, db: DB, o: Observation, event: Event)
    requires ReduceApplication(o.app, c.tenant) == Some(event) && event.kind == SyncStarted && !event.isExplicit
    requires EmissionFor(c, event, o).value.ClaimKey() !in db.claims
    ensures var taken := IdTaken(db.entries, MappedPrescriptionId(event, c.sha256));
            && (o.faults == {} ==> (HandleStep(c, db, o).1 <==> !taken))
            && (taken ==> HandleStep(c, db, o) == (db, false))
            && |HandleStep(c, db, o).0.entries| == |db.entries| + if HandleStep(c, db, o).1 then 1 else 0
  {
    hide ReduceApplication, MappedPrescriptionId, IdTaken, LastHash, SessionOf, FirstNonEmpty, Emission.Claims;
  }

  /** What tells the starts of one application apart: the operation ID, or else the revision. */
  function StartName(e: Event): string {
    if !Blank(e.operationId) then e.operationId else e.revision + ":running"
  }

  lemma StartKeyIs(c: Controller, app: Application, e: Event)
    requires ReduceApplication(app, c.tenant) == Some(e) && e.kind == SyncStarted
    ensures e.key == e.uid + ":" + StartName(e) + ":sync_started" && e.source == "argocd_controller_start"
  {
    hide Trim, Lower, FirstNonEmpty, Blank;
    assert ":" + "sync_started" == ":sync_started";
    if !Blank(e.operationId) {
      assert e.uid + ":" + e.operationId + ":" + "sync_started" == e.uid + ":" + e.operationId + (":" + "sync_started");
    } else {
      assert e.uid + ":" + e.revision + ":" + "running" + ":" + "sync_started"
          == e.uid + ":" + (e.revision + (":" + "running")) + (":" + "sync_started");
      assert ":" + "running" == ":running";
    }
  }

  /** Two starts share a key exactly when UID and name read the same one after the other; with UIDs free of colons, as those
      of Kubernetes are, exactly when UID and name agree. An operation ID that reads like a revision with the phase behind
      it is such a name too. */
  lemma SameStartKey(c: Controller, first: Application, a: Event, again: Application, b: Event)
    requires ReduceApplication(first, c.tenant) == Some(a) && a.kind == SyncStarted
    requires ReduceApplication(again, c.tenant) == Some(b) && b.kind == SyncStarted
    ensures a.key == b.key <==> a.uid + ":" + StartName(a) == b.uid + ":" + StartName(b)
    ensures ':' !in a.uid && ':' !in b.uid ==> (a.key == b.key <==> a.uid == b.uid && StartName(a) == StartName(b))
  {
    hide ReduceApplication, StartName;
    StartKeyIs(c, first, a);
    StartKeyIs(c, again, b);
    SameAfterSuffix(a.uid + ":" + StartName(a), b.uid + ":" + StartName(b), ":sync_started");
    if ':' !in a.uid && ':' !in b.uid {
      SplitAtFirst(a.uid, StartName(a), b.uid, StartName(b), ':');
    }
  }

  /** After a start that was handled, another start that nothing else claimed adds an entry, if nothing fails, exactly when
      tenant or key differ and its prescription ID is free. */
  lemma SecondStartAddsIff(c: Controller, db: DB, first: Observation, a: Event, again: Observation, b: Event)
    requires ReduceApplication(first.app, c.tenant) == Some(a) && a.kind == SyncStarted && !a.isExplicit
    requires ReduceApplication(again.app, c.tenant) == Some(b) && b.kind == SyncStarted && !b.isExplicit
    requires HandleStep(c, db, first).1 && again.faults == {}
    requires EmissionFor(c, b, again).value.ClaimKey() !in db.claims
    ensures var db' := HandleStep(c, db, first).0;
            |HandleStep(c, db', again).0.entries| > |db'.entries|
            <==> (FirstNonEmpty(a.tenant, c.tenant) != FirstNonEmpty(b.tenant, c.tenant) || a.key != b.key)
                 && !IdTaken(db'.entries, MappedPrescriptionId(b, c.sha256))
  {
    hide ReduceApplication, HandleStep, MappedPrescriptionId, IdTaken, StartName, FirstNonEmpty, SessionOf;
    StartKeyIs(c, first.app, a);
    StartKeyIs(c, again.app, b);
    var db' := HandleStep(c, db, first).0;
    HandledClaims(c, db, first);
    if EmissionFor(c, b, again).value.ClaimKey() in db'.claims {
      SettledAddsNothing(c, db', again);
    } else {
      StartSavedIffIdFree(c, db', again, b);
    }
  }

  /** A handled observation adds its own claim at most. */
  lemma HandledClaims(c: Controller, db: DB, o: Observation)
    requires HandleStep(c, db, o).1 && EmissionOf(c, o).Some?
    ensures var db' := HandleStep(c, db, o).0; var key := EmissionOf(c, o).value.ClaimKey();
            forall k :: k in db'.claims <==> k in db.claims || k == key
  {
    hide EmissionOf, RowToSave, Emission.Claims;
    EveryEmissionIsClaimed(c, o);
  }

  /** An operation named like a revision, and that revision without an operation, share a prescription ID but not a key:
      whichever start comes second can never be saved. */
  lemma OperationNamedLikeRevision(c: Controller, id: Ulid, hash: string)
    ensures var named := Observation(SyncOf("Running", "r1", ""), id, hash, {});
            var plain := Observation(SyncOf("Running", "", "r1"), id, hash, {});
            var db := HandleStep(c, EMPTY_DB, named).0;
            |db.entries| == 1 && HandleStep(c, db, plain) == (db, false)
  {
    hide ReduceApplication, JoinBars, FirstNonEmpty, HandleStep, IdTaken, SessionOf;
    var named := Observation(SyncOf("Running", "r1", ""), id, hash, {});
    var plain := Observation(SyncOf("Running", "", "r1"), id, hash, {});
    ReducedSyncs(c.tenant);
    OneName();
    var a, b := ReduceApplication(named.app, c.tenant).value, ReduceApplication(plain.app, c.tenant).value;
    FirstStartIsSaved(c, named, a);
    var db := HandleStep(c, EMPTY_DB, named).0;
    assert a.key[4..7] == b.key[4..7] && a.key[7] == 's' && b.key[7] == 'r';
    FirstIsTaken(db.entries);
    StartSavedIffIdFree(c, db, plain, b);
  }

  lemma FirstIsTaken(entries: seq<Row>)
    requires entries != []
    ensures IdTaken(entries, entries[0].id)
  {
  }

  lemma OneName()
    ensures FirstNonEmpty("r1", "") == FirstNonEmpty("", "r1")
  {
    hide Trim;
    TrimsOfSync();
  }

  /** Without an operation ID, a later sync of a revision leaves no entry: it has the key of the first. */
  lemma ResyncOfRevisionIsLost(c: Controller, db: DB, first: Observation, a: Event, again: Observation, b: Event)
    requires ReduceApplication(first.app, c.tenant) == Some(a) && a.kind == SyncStarted && !a.isExplicit
    requires ReduceApplication(again.app, c.tenant) == Some(b) && b.kind == SyncStarted && !b.isExplicit
    requires Blank(a.operationId) && Blank(b.operationId) && a.uid == b.uid && a.revision == b.revision && a.tenant == b.tenant
    requires HandleStep(c, db, first).1
    ensures HandleStep(c, HandleStep(c, db, first).0, again).0 == HandleStep(c, db, first).0
  {
    hide HandleStep, ReduceApplication, MappedPrescriptionId, SessionOf;
    StartKeyIs(c, first.app, a);
    StartKeyIs(c, again.app, b);
    HandledIsSettled(c, db, first, first);
    SettledAddsNothing(c, HandleStep(c, db, first).0, again);
  }

  // What an application leads to, told from its fields

  /** The same word in some mixture of upper and lower case. */
  predicate Reads(s: string, word: string) {
    |s| == |word| && forall i | 0 <= i < |s| :: s[i] == word[i] || IsUpperOf(s[i], word[i])
  }

  predicate IsUpperOf(a: char, b: char) {
    || ('A' <= a <= 'Z' && 'a' <= b <= 'z' && a as int + 32 == b as int)
    || (a == '\U{212A}' && b == 'k')
    || (a == '\U{0130}' && b == 'i')
  }

  predicate LowerCase(word: string) {
    forall i | 0 <= i < |word| :: 'a' <= word[i] <= 'z'
  }

  lemma LowerReads(s: string, word: string)
    requires LowerCase(word)
    ensures Lower(s) == word <==> Reads(s, word)
  {
    if Lower(s) == word {
      forall i | 0 <= i < |s| ensures s[i] == word[i] || IsUpperOf(s[i], word[i]) {
        assert Lower(s)[i] == word[i];
      }
    }
    if Reads(s, word) {
      forall i | 0 <= i < |s| ensures Lower(s)[i] == word[i] {
        assert s[i] == word[i] || IsUpperOf(s[i], word[i]);
      }
    }
  }

  predicate Starts(app: Application) {
    Reads(Trim(app.phase), "running")
  }

  predicate Ends(app: Application) {
    var phase := Trim(app.phase);
    Reads(phase, "succeeded") || Reads(phase, "failed") || Reads(phase, "error") || Reads(phase, "degraded")
  }

  /** The operation an application names: the one of the tool, or else of its own annotation. */
  function NamedOperation(app: Application): string {
    if Trim(app.argocdOperationId) != "" then Trim(app.argocdOperationId) else Trim(app.evidraOperationId)
  }

  function NamedRevision(app: Application): string {
    if Trim(app.operationRevision) != "" then Trim(app.operationRevision) else Trim(app.statusRevision)
  }

  lemma PhaseTold(app: Application)
    ensures ReducePhase(Trim(app.phase)) == if Starts(app) then Some(SyncStarted) else if Ends(app) then Some(SyncCompleted) else None
    ensures !(Starts(app) && Ends(app))
  {
    hide Lower, Reads, Trim;
    TrimTwice(app.phase);
    var phase := Trim(app.phase);
    LowerReads(phase, "running");
    LowerReads(phase, "succeeded");
    LowerReads(phase, "failed");
    LowerReads(phase, "error");
    LowerReads(phase, "degraded");
  }

  lemma ChoicesTold(app: Application)
    ensures OperationIdOf(app) == NamedOperation(app) && RevisionOf(app) == NamedRevision(app)
    ensures FirstNonEmpty(NamedOperation(app), NamedRevision(app)) == if NamedOperation(app) != "" then NamedOperation(app) else NamedRevision(app)
    ensures Blank(NamedOperation(app)) <==> NamedOperation(app) == ""
  {
    hide TrimLeft, TrimRight;
    TrimTwice(app.argocdOperationId);
    TrimTwice(app.evidraOperationId);
    TrimTwice(app.operationRevision);
    TrimTwice(app.statusRevision);
  }

  lemma SevenJoined(a: string, b: string, c: string, d: string, e: string, f: string, g: string)
    ensures JoinBars([a, b, c, d, e, f, g]) == a + "|" + b + "|" + c + "|" + d + "|" + e + "|" + f + "|" + g
  {
    var s := [a, b, c, d, e, f, g];
    assert s[1..] == [b, c, d, e, f, g];
    assert s[1..][1..] == [c, d, e, f, g];
    assert [c, d, e, f, g][1..] == [d, e, f, g];
    assert [d, e, f, g][1..] == [e, f, g];
    assert [e, f, g][1..] == [f, g];
    assert [f, g][1..] == [g];
    assert JoinBars([f, g]) == f + "|" + g;
    assert JoinBars([e, f, g]) == e + "|" + (f + "|" + g);
    assert JoinBars([d, e, f, g]) == d + "|" + (e + "|" + (f + "|" + g));
    assert JoinBars([c, d, e, f, g]) == c + "|" + (d + "|" + (e + "|" + (f + "|" + g)));
    assert JoinBars([b, c, d, e, f, g]) == b + "|" + (c + "|" + (d + "|" + (e + "|" + (f + "|" + g))));
    assert JoinBars(s) == a + "|" + (b + "|" + (c + "|" + (d + "|" + (e + "|" + (f + "|" + g)))));
  }

  /** What the mapped prescription of an application is named after. */
  function MappedName(app: Application): string {
    var cluster := if Trim(app.destinationName) != "" then Trim(app.destinationName) else Trim(app.destinationServer);
    "argocd_controller|" + app.uid + "|" + app.name + "|" + app.namespace + "|" + Trim(app.destinationNamespace) + "|" + cluster + "|"
    + if NamedOperation(app) != "" then NamedOperation(app) else NamedRevision(app)
  }

  lemma MappedIdTold(c: Controller, app: Application, event: Event)
    requires ReduceApplication(app, c.tenant) == Some(event)
    ensures MappedPrescriptionId(event, c.sha256) == "map-" + c.sha256(MappedName(app))
  {
    hide Trim, LifecycleKey, ReducePhase, JoinBars;
    ChoicesTold(app);
    TrimTwice(app.destinationName);
    TrimTwice(app.destinationServer);
    SevenJoined("argocd_controller", event.uid, event.application, event.namespace, event.destinationNamespace, event.cluster,
                FirstNonEmpty(event.operationId, event.revision));
    assert "argocd_controller" + "|" == "argocd_controller|";
  }

  /** The draft of an application that is not explicit: a prescription when its sync starts, a report on it when it ends, in the
      session of its operation, or else of its revision. */
  predicate TellsMapped(c: Controller, o: Observation, draft: Draft) {
    var app := o.app;
    var session := if NamedOperation(app) != "" then NamedOperation(app) else app.uid + ":" + NamedRevision(app);
    var prescription := "map-" + c.sha256(MappedName(app));
    && draft.Mapped? && draft.session == draft.operation == session && draft.prescriptionId == prescription
    && draft.kind == (if Starts(app) then PrescribeRow else ReportRow)
    && draft.id == if Starts(app) then prescription else o.newId
  }

  /** The emission claims the sync under its application's UID, the operation or else revision and phase, and what happened. */
  predicate TellsClaim(c: Controller, o: Observation, e: Emission) {
    var app := o.app;
    var end := if Starts(app) then "sync_started" else "sync_completed";
    && e.tenant == (if Trim(app.tenant) != "" then Trim(app.tenant) else Trim(c.tenant))
    && e.source == (if Starts(app) then "argocd_controller_start" else "argocd_controller_complete")
    && e.key == (if NamedOperation(app) != "" then app.uid + ":" + NamedOperation(app) + ":" + end
                 else app.uid + ":" + NamedRevision(app) + ":" + Lower(Trim(app.phase)) + ":" + end)
    && e.payload == app.body && e.hash == o.hash
  }

  /** An application with a session or prescription of its own reports its ends on that prescription and nothing else; any other
      prescribes its starts and reports its ends; in all other phases nothing is emitted. */
  lemma ApplicationTold(c: Controller, o: Observation)
    ensures var app, e := o.app, EmissionOf(c, o);
            var explicit := Trim(app.session) != "" || Trim(app.prescription) != "";
            && (e.Some? <==> if explicit then Ends(app) && Trim(app.prescription) != "" else Starts(app) || Ends(app))
            && (e.Some? ==>
                  && TellsClaim(c, o, e.value)
                  && if explicit then e.value.draft == Draft.ExplicitReport(o.newId, Trim(app.session), "", Trim(app.prescription))
                     else TellsMapped(c, o, e.value.draft))
  {
    hide Trim, ReducePhase, Lower, MappedPrescriptionId, MappedName, Reads, OperationIdOf, RevisionOf, NamedOperation, NamedRevision;
    var app := o.app;
    PhaseTold(app);
    ChoicesTold(app);
    TrimTwice(app.phase);
    TrimTwice(app.tenant);
    TrimTwice(c.tenant);
    TrimTwice(app.prescription);
    var event := ReduceApplication(app, c.tenant);
    if event.Some? {
      MappedIdTold(c, app, event.value);
    }
  }

  /** In what order a pass takes applications: those that start, those that end, the rest; by name where that is the same. */
  lemma PassOrderTold(c: Controller, a: Observation, b: Observation)
    ensures PassOrder(c)(a, b) <==>
              || (Starts(a.app) && !Starts(b.app))
              || (Ends(a.app) && !Starts(b.app) && !Ends(b.app))
              || (Starts(a.app) == Starts(b.app) && Ends(a.app) == Ends(b.app) && Sorting.Less(a.app.name, b.app.name))
  {
    hide Trim, ReducePhase, LifecycleKey, OperationIdOf, RevisionOf, Starts, Ends, Sorting.Less;
    PhaseTold(a.app);
    PhaseTold(b.app);
  }
}
