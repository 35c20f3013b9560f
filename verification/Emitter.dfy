/** Emitting entries for automation events: claim the event's key, save the entry, release the claim when anything in
    between fails (internal/automationevent/emitter.go). No transaction holds the statements together. */
module Emitter {
  import opened Wrappers
  import opened Text
  import opened EntryTables

  /** The statements an emission can fail at; releasing a claim is taken to succeed. */
  datatype Fault = ClaimInsert | HashSelect | EntryBuild | EntryInsert

  /** How the entry is made from the event. */
  datatype Draft =
    | Mapped(kind: RowKind, id: Ulid, session: string, operation: string, prescriptionId: string)
    | ExplicitReport(id: Ulid, session: string, operation: string, prescriptionId: string)

  datatype Emission = Emission(tenant: string, source: string, key: string, payload: string, draft: Draft, hash: string) {
    predicate Claims() {
      !Blank(source) && !Blank(key)
    }

    function ClaimKey(): ClaimKey {
      EntryTables.ClaimKey(tenant, source, key)
    }
  }

  datatype EmitResult = Duplicate | Saved(row: Row)

  function FirstNonEmpty(a: string, b: string): string {
    if Blank(a) then Trim(b) else Trim(a)
  }

  /** The row the draft stands for; an explicit report needs the prescription it names. */
  function BuildRow(db: DB, e: Emission): Option<Row> {
    var previous := LastHash(db.entries, e.tenant);
    match e.draft
    case Mapped(kind, id, session, operation, prescriptionId) =>
      Some(Row(id, e.tenant, kind, session, operation, prescriptionId, previous, e.hash))
    case ExplicitReport(id, session, operation, prescriptionId) =>
      var found := FindEntry(db.entries, e.tenant, Trim(prescriptionId));
      if Blank(prescriptionId) || found.None? || found.value.kind != PrescribeRow then None
      else
        Some(Row(id, e.tenant, ReportRow, FirstNonEmpty(session, found.value.session),
                 FirstNonEmpty(operation, found.value.operation), Trim(prescriptionId), previous, e.hash))
  }

  /** The row that gets saved, if the statements up to the insert succeed. */
  function RowToSave(db: DB, e: Emission, faults: set<Fault>): Option<Row> {
    var row := BuildRow(db, e);
    if HashSelect in faults || EntryBuild in faults || EntryInsert in faults || row.None? || IdTaken(db.entries, row.value.id) then None
    else row
  }

  /** One emission run on its own. */
  function EmitStep(db: DB, e: Emission, faults: set<Fault>): (DB, Option<EmitResult>) {
    if e.Claims() && ClaimInsert in faults then (db, None)
    else if e.Claims() && e.ClaimKey() in db.claims then (db, Some(Duplicate))
    else
      var row := RowToSave(db, e, faults);
      if row.None? then (db, None)
      else
        (DB(db.entries + [row.value], if e.Claims() then db.claims[e.ClaimKey() := ClaimRow(e.payload, None)] else db.claims),
         Some(Saved(row.value)))
  }

  /** The emission statement by statement; the claim is visible to others until it is released. */
  method Emit(store: EntryStore, e: Emission, faults: set<Fault>) returns (r: Option<EmitResult>)
    modifies store
    ensures (store.Db(), r) == EmitStep(old(store.Db()), e, faults)
  {
    hide Blank, FindEntry, LastHash, IdTaken;
    ghost var db := store.Db();
    if e.Claims() {
      if ClaimInsert in faults {
        return None;
      }
      var duplicate := store.ClaimWebhookEvent(e.ClaimKey(), e.payload);
      if duplicate {
        return Some(Duplicate);
      }
    }
    var success := false;
    r := None;
    if HashSelect !in faults {
      var row := BuildRow(store.Db(), e);
      if row.Some? && EntryBuild !in faults && EntryInsert !in faults {
        success := store.SaveRaw(row.value);
        if success {
          r := Some(Saved(row.value));
        }
      }
    }
    if e.Claims() && !success {
      store.ReleaseWebhookEvent(e.ClaimKey());
      assert store.claims == db.claims;
    }
  }

  // What an emission does, told from its fields

  /** The draft can be made an entry, under an ID that is free: an explicit report names a prescription of its tenant. */
  predicate Makes(db: DB, e: Emission) {
    && (forall row | row in db.entries :: row.id != e.draft.id)
    && (e.draft.ExplicitReport? ==>
          var found := FindEntry(db.entries, e.tenant, Trim(e.draft.prescriptionId));
          Trim(e.draft.prescriptionId) != "" && found.Some? && found.value.kind == PrescribeRow)
  }

  /** The row is the draft's, in the tenant's chain. Where an explicit report has no session or operation of its own it takes
      those of its prescription. */
  predicate TellsDraft(db: DB, e: Emission, row: Row) {
    && row.id == e.draft.id && row.tenant == e.tenant && row.hash == e.hash && row.previousHash == LastHash(db.entries, e.tenant)
    && match e.draft
       case Mapped(kind, _, session, operation, prescriptionId) =>
         row.kind == kind && row.session == session && row.operation == operation && row.prescriptionId == prescriptionId
       case ExplicitReport(_, session, operation, prescriptionId) =>
         var found := FindEntry(db.entries, e.tenant, Trim(prescriptionId));
         && found.Some? && row.kind == ReportRow && row.prescriptionId == found.value.id
         && row.session == (if Blank(session) then Trim(found.value.session) else Trim(session))
         && row.operation == (if Blank(operation) then Trim(found.value.operation) else Trim(operation))
  }

  /** From any tables: an emission is a duplicate exactly when a claim stands under its tenant, source and key; it is saved
      exactly when none does, nothing fails and its draft can be made; then its row and its claim are all that is new. */
  lemma EmissionTold(db: DB, e: Emission, faults: set<Fault>)
    ensures var (after, r) := EmitStep(db, e, faults);
            var claims := Trim(e.source) != "" && Trim(e.key) != "";
            var key := EntryTables.ClaimKey(e.tenant, e.source, e.key);
            && (r == Some(Duplicate) <==> claims && ClaimInsert !in faults && key in db.claims)
            && ((r.Some? && r.value.Saved?) <==>
                  && {HashSelect, EntryBuild, EntryInsert} !! faults && (claims ==> ClaimInsert !in faults && key !in db.claims)
                  && Makes(db, e))
            && (r.Some? && r.value.Saved? ==>
                  && TellsDraft(db, e, r.value.row) && after.entries == db.entries + [r.value.row]
                  && after.claims == if claims then db.claims[key := ClaimRow(e.payload, None)] else db.claims)
            && (r.None? || r.value.Duplicate? ==> after == db)
  {
    hide FindEntry, LastHash, Trim;
    FreeIds(db.entries, e.draft.id);
  }

  lemma FreeIds(entries: seq<Row>, id: string)
    ensures IdTaken(entries, id) <==> exists row | row in entries :: row.id == id
  {
    if IdTaken(entries, id) {
      var i :| 0 <= i < |entries| && entries[i].id == id;
      assert entries[i] in entries;
    }
  }
}
