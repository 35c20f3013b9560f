/** Server-side ingest of prescribe and report requests, exactly once per claim
    (internal/ingest/service.go, internal/store/entries.go). Calls are serial; any statement of a call may fail. */
module Ingest {
  import opened Wrappers
  import opened Text
  import opened EntryTables

  // Requests

  /** Where a call can fail: at its statements, and at decoding an entry it read. */
  datatype Statement = Begin | ClaimInsert | ResultSelect | EntrySelect | EntryDecode | HashSelect | EntryBuild | EntryInsert | ClaimUpdate | Commit

  datatype ErrorCode = InvalidInput | NotFound | Internal

  datatype Claim = Claim(source: string, key: string, payload: string)

  /** A request, with the outcome of the checks and conversions that only look at its payload: whether the rest of the
      contract holds, whether the payload can be built, the risk assessed, the hash of the entry made from it. */
  datatype Request = Request(
    claim: Option<Claim>, session: string, operation: string, restValid: bool, buildable: bool,
    askedId: string, generatedId: Ulid, risk: string, hash: string, prescriptionId: string, translated: bool)

  datatype Response = Response(duplicate: bool, entryId: string, risk: string)

  /** The API service and the webhook service differ in these two settings. */
  datatype Service = Service(claimPrefix: string, legacyFallback: bool)

  predicate ContractHolds(in_: Request) {
    && in_.restValid
    && !Blank(in_.session)
    && !Blank(in_.operation)
    && (in_.claim.Some? ==> !Blank(in_.claim.value.source) && !Blank(in_.claim.value.key))
  }

  predicate Meaningful(claim: Option<Claim>) {
    claim.Some? && (!Blank(claim.value.source) || !Blank(claim.value.key) || claim.value.payload != "")
  }

  function ClaimSource(svc: Service, claim: Claim): string {
    if Blank(claim.source) then "" else svc.claimPrefix + Trim(claim.source)
  }

  /** The key a request claims, if it claims any. */
  function KeyOf(svc: Service, tenant: string, claim: Option<Claim>): Option<ClaimKey> {
    if Meaningful(claim) then Some(ClaimKey(tenant, ClaimSource(svc, claim.value), claim.value.key)) else None
  }

  // One call

  /** What a duplicate is answered with: the stored result of the call that claimed first. */
  function DuplicateAnswer(svc: Service, db: DB, key: ClaimKey, faults: set<Statement>): Result<Response, ErrorCode> {
    if ResultSelect in faults || key !in db.claims then Failure(Internal)
    else
      var result := db.claims[key].result;
      if result.None? || Blank(result.value.entryId) then
        if svc.legacyFallback then Success(Response(true, "", "")) else Failure(Internal)
      else if EntrySelect in faults || FindEntry(db.entries, key.tenant, result.value.entryId).None? then Failure(Internal)
      else if EntryDecode in faults then Failure(Internal)
      else Success(Response(true, result.value.entryId, result.value.risk))
  }

  /** The row an entry is stored as; it links to the tenant's latest entry. */
  function NewRow(db: DB, tenant: string, kind: RowKind, id: string, session: string, operation: string, prescriptionId: string, hash: string): Row {
    Row(id, tenant, kind, session, operation, prescriptionId, LastHash(db.entries, tenant), hash)
  }

  /** The store once the row is inserted and the claim finalised. */
  function Persisted(db: DB, key: Option<ClaimKey>, payload: string, row: Row, risk: string): DB {
    DB(db.entries + [row],
       if key.Some? then db.claims[key.value := ClaimRow(payload, Some(ClaimResult(row.id, risk)))] else db.claims)
  }

  /** What the statements after the claim leave, for an entry that can be built. */
  function SaveAndCommit(db: DB, key: Option<ClaimKey>, payload: string, row: Row, risk: string, faults: set<Statement>)
    : (DB, Result<Response, ErrorCode>)
  {
    if EntryInsert in faults || IdTaken(db.entries, row.id) then (db, Failure(Internal))
    else if key.Some? && ClaimUpdate in faults then (db, Failure(Internal))
    else if Commit in faults then (db, Failure(Internal))
    else (Persisted(db, key, payload, row, risk), Success(Response(false, row.id, risk)))
  }

  function PayloadOf(claim: Option<Claim>): string {
    if claim.None? || Blank(claim.value.payload) then "{}" else claim.value.payload
  }

  function PrescribeId(in_: Request): (id: string)
    ensures !Blank(id)
  {
    TrimTwice(in_.askedId);
    if Blank(in_.askedId) then in_.generatedId else Trim(in_.askedId)
  }

  function PrescribeRowOf(db: DB, tenant: string, in_: Request): Row {
    NewRow(db, tenant, PrescribeRow, PrescribeId(in_), Trim(in_.session), Trim(in_.operation), PrescribeId(in_), in_.hash)
  }

  function PrescribeStep(svc: Service, db: DB, tenant: string, in_: Request, faults: set<Statement>): (DB, Result<Response, ErrorCode>) {
    var key := KeyOf(svc, tenant, in_.claim);
    if !ContractHolds(in_) then (db, Failure(InvalidInput))
    else if Begin in faults then (db, Failure(Internal))
    else if key.Some? && ClaimInsert in faults then (db, Failure(Internal))
    else if key.Some? && key.value in db.claims then (db, DuplicateAnswer(svc, db, key.value, faults))
    else if HashSelect in faults then (db, Failure(Internal))
    else if !in_.buildable then (db, Failure(InvalidInput))
    else if EntryBuild in faults then (db, Failure(Internal))
    else SaveAndCommit(db, key, PayloadOf(in_.claim), PrescribeRowOf(db, tenant, in_), in_.risk, faults)
  }

  /** A translated report of the webhook service may name a prescription that is unknown. */
  predicate SoftResolve(svc: Service, in_: Request) {
    svc.legacyFallback && in_.translated
  }

  function Resolve(svc: Service, db: DB, tenant: string, in_: Request, faults: set<Statement>): Result<Option<Row>, ErrorCode> {
    var found := FindEntry(db.entries, tenant, Trim(in_.prescriptionId));
    if EntrySelect in faults then Failure(Internal)
    else if found.None? then
      if SoftResolve(svc, in_) then Success(None) else Failure(NotFound)
    else if found.value.kind != PrescribeRow then Failure(InvalidInput)
    else Success(found)
  }

  function ReportSession(in_: Request, prescription: Option<Row>): string {
    if !Blank(in_.session) || prescription.None? then Trim(in_.session) else Trim(prescription.value.session)
  }

  function ReportOperation(in_: Request, prescription: Option<Row>): string {
    if !Blank(in_.operation) || prescription.None? then Trim(in_.operation) else Trim(prescription.value.operation)
  }

  predicate SessionClash(svc: Service, in_: Request, prescription: Option<Row>) {
    && !SoftResolve(svc, in_)
    && prescription.Some?
    && ReportSession(in_, prescription) != ""
    && !Blank(prescription.value.session)
    && ReportSession(in_, prescription) != Trim(prescription.value.session)
  }

  function ReportRowOf(db: DB, tenant: string, in_: Request, prescription: Option<Row>): Row {
    NewRow(db, tenant, ReportRow, in_.generatedId, ReportSession(in_, prescription), ReportOperation(in_, prescription),
           Trim(in_.prescriptionId), in_.hash)
  }

  function ReportStep(svc: Service, db: DB, tenant: string, in_: Request, faults: set<Statement>): (DB, Result<Response, ErrorCode>) {
    var key := KeyOf(svc, tenant, in_.claim);
    if !ContractHolds(in_) then (db, Failure(InvalidInput))
    else if Begin in faults then (db, Failure(Internal))
    else if key.Some? && ClaimInsert in faults then (db, Failure(Internal))
    else if key.Some? && key.value in db.claims then (db, DuplicateAnswer(svc, db, key.value, faults))
    else if !in_.buildable then (db, Failure(InvalidInput))
    else
      match Resolve(svc, db, tenant, in_, faults)
      case Failure(error) => (db, Failure(error))
      case Success(prescription) =>
        if HashSelect in faults then (db, Failure(Internal))
        else if SessionClash(svc, in_, prescription) then (db, Failure(InvalidInput))
        else if EntryBuild in faults then (db, Failure(Internal))
        else SaveAndCommit(db, key, PayloadOf(in_.claim), ReportRowOf(db, tenant, in_, prescription), "", faults)
  }

  // The same calls, statement by statement over a transaction

  /** The transaction's view of the two tables; the store sees it only after Commit, a rollback drops it. */
  class IngestTx {
    var entries: seq<Row>
    var claims: map<ClaimKey, ClaimRow>
    const faults: set<Statement>

    constructor (store: EntryStore, faults: set<Statement>)
      ensures Db() == store.Db() && this.faults == faults
    {
      entries, claims := store.entries, store.claims;
      this.faults := faults;
    }

    function Db(): DB reads this {
      DB(entries, claims)
    }

    /** Insert the claim unless its key is there already; the answer is whether it was. */
    method ClaimWebhookEvent(key: ClaimKey, payload: string) returns (r: Result<bool, ErrorCode>)
      modifies this
      ensures r == if ClaimInsert in faults then Failure(Internal) else Success(old(key in claims))
      ensures entries == old(entries)
      ensures claims == if r == Success(false) then old(claims)[key := ClaimRow(payload, None)] else old(claims)
    {
      if ClaimInsert in faults {
        return Failure(Internal);
      }
      if key in claims {
        return Success(true);
      }
      claims := claims[key := ClaimRow(payload, None)];
      return Success(false);
    }

    /** The stored result; NULL columns read as empty strings. */
    method GetWebhookEventResult(key: ClaimKey) returns (r: Result<ClaimResult, ErrorCode>)
      ensures r.Success? <==> ResultSelect !in faults && key in claims
      ensures r.Success? ==> r.value == (if claims[key].result.Some? then claims[key].result.value else ClaimResult("", ""))
      ensures r.Failure? ==> r.error == Internal
    {
      if ResultSelect in faults || key !in claims {
        return Failure(Internal);
      }
      return Success(match claims[key].result case Some(result) => result case None => ClaimResult("", ""));
    }

    method GetEntry(tenant: string, id: string) returns (r: Result<Option<Row>, ErrorCode>)
      ensures r == if EntrySelect in faults then Failure(Internal) else Success(FindEntry(entries, tenant, id))
    {
      if EntrySelect in faults {
        return Failure(Internal);
      }
      return Success(FindEntry(entries, tenant, id));
    }

    method SaveRaw(row: Row) returns (ok: bool)
      modifies this`entries
      ensures ok == (EntryInsert !in faults && !IdTaken(old(entries), row.id))
      ensures entries == if ok then old(entries) + [row] else old(entries)
    {
      ok := EntryInsert !in faults && !IdTaken(entries, row.id);
      if ok {
        entries := entries + [row];
      }
    }

    method FinalizeWebhookEvent(key: ClaimKey, result: ClaimResult) returns (ok: bool)
      modifies this`claims
      ensures ok == (ClaimUpdate !in faults && key in old(claims))
      ensures claims == if ok then old(claims)[key := ClaimRow(old(claims)[key].payload, Some(result))] else old(claims)
    {
      ok := ClaimUpdate !in faults && key in claims;
      if ok {
        claims := claims[key := ClaimRow(claims[key].payload, Some(result))];
      }
    }

    method CommitTo(store: EntryStore) returns (ok: bool)
      requires store as object != this
      modifies store
      ensures ok == (Commit !in faults)
      ensures store.Db() == if ok then Db() else old(store.Db())
    {
      ok := Commit !in faults;
      if ok {
        store.entries, store.claims := entries, claims;
      }
    }
  }

  method LoadDuplicateResult(svc: Service, tx: IngestTx, key: ClaimKey) returns (r: Result<Response, ErrorCode>)
    ensures r == DuplicateAnswer(svc, tx.Db(), key, tx.faults)
  {
    var meta := tx.GetWebhookEventResult(key);
    if meta.Failure? {
      return Failure(meta.error);
    }
    if Blank(meta.value.entryId) {
      if svc.legacyFallback {
        return Success(Response(true, "", ""));
      }
      return Failure(Internal);
    }
    var entry := tx.GetEntry(key.tenant, meta.value.entryId);
    if entry.Failure? || entry.value.None? || EntryDecode in tx.faults {
      return Failure(Internal);
    }
    return Success(Response(true, meta.value.entryId, meta.value.risk));
  }

  /** Insert the entry, finalise the claim if there is one, commit. */
  method SaveEntryAndCommit(tx: IngestTx, store: EntryStore, key: Option<ClaimKey>, row: Row, risk: string)
    returns (r: Result<Response, ErrorCode>)
    requires tx as object != store
    requires key.Some? ==> key.value in tx.claims
    modifies tx, store
    ensures r == if EntryInsert in tx.faults || IdTaken(old(tx.entries), row.id) || (key.Some? && ClaimUpdate in tx.faults) || Commit in tx.faults
                 then Failure(Internal) else Success(Response(false, row.id, risk))
    ensures r.Failure? ==> store.Db() == old(store.Db())
    ensures r.Success? ==> store.entries == old(tx.entries) + [row]
    ensures r.Success? && key.None? ==> store.claims == old(tx.claims)
    ensures r.Success? && key.Some? ==>
              store.claims == old(tx.claims)[key.value := ClaimRow(old(tx.claims)[key.value].payload, Some(ClaimResult(row.id, risk)))]
  {
    var saved := tx.SaveRaw(row);
    if !saved {
      return Failure(Internal);
    }
    if key.Some? {
      var finalized := tx.FinalizeWebhookEvent(key.value, ClaimResult(row.id, risk));
      if !finalized {
        return Failure(Internal);
      }
    }
    var committed := tx.CommitTo(store);
    if !committed {
      return Failure(Internal);
    }
    return Success(Response(false, row.id, risk));
  }

  /** Claiming a key and then finalising it is one update of the claims. */
  lemma ClaimThenFinalize(claims: map<ClaimKey, ClaimRow>, key: ClaimKey, claimed: ClaimRow, finalized: ClaimRow)
    ensures claims[key := claimed][key := finalized] == claims[key := finalized]
  {
  }

  method Prescribe(svc: Service, store: EntryStore, tenant: string, in_: Request, faults: set<Statement>)
    returns (r: Result<Response, ErrorCode>)
    modifies store
    ensures (store.Db(), r) == PrescribeStep(svc, old(store.Db()), tenant, in_, faults)
  {
    hide ContractHolds, KeyOf, FindEntry, LastHash, IdTaken, PayloadOf, PrescribeId;
    if !ContractHolds(in_) {
      return Failure(InvalidInput);
    }
    if Begin in faults {
      return Failure(Internal);
    }
    var tx := new IngestTx(store, faults);
    var key := KeyOf(svc, tenant, in_.claim);
    if key.Some? {
      var claimed := tx.ClaimWebhookEvent(key.value, PayloadOf(in_.claim));
      if claimed.Failure? {
        return Failure(claimed.error);
      }
      if claimed.value {
        r := LoadDuplicateResult(svc, tx, key.value);
        return;
      }
    }
    if HashSelect in faults {
      return Failure(Internal);
    }
    if !in_.buildable {
      return Failure(InvalidInput);
    }
    if EntryBuild in faults {
      return Failure(Internal);
    }
    var row := PrescribeRowOf(tx.Db(), tenant, in_);
    r := SaveEntryAndCommit(tx, store, key, row, in_.risk);
    if key.Some? {
      ClaimThenFinalize(old(store.claims), key.value, ClaimRow(PayloadOf(in_.claim), None),
                        ClaimRow(PayloadOf(in_.claim), Some(ClaimResult(row.id, in_.risk))));
    }
  }

  method Report(svc: Service, store: EntryStore, tenant: string, in_: Request, faults: set<Statement>)
    returns (r: Result<Response, ErrorCode>)
    modifies store
    ensures (store.Db(), r) == ReportStep(svc, old(store.Db()), tenant, in_, faults)
  {
    hide ContractHolds, KeyOf, FindEntry, LastHash, IdTaken, PayloadOf, SessionClash, ReportSession, ReportOperation;
    if !ContractHolds(in_) {
      return Failure(InvalidInput);
    }
    if Begin in faults {
      return Failure(Internal);
    }
    var tx := new IngestTx(store, faults);
    var key := KeyOf(svc, tenant, in_.claim);
    if key.Some? {
      var claimed := tx.ClaimWebhookEvent(key.value, PayloadOf(in_.claim));
      if claimed.Failure? {
        return Failure(claimed.error);
      }
      if claimed.value {
        r := LoadDuplicateResult(svc, tx, key.value);
        return;
      }
    }
    if !in_.buildable {
      return Failure(InvalidInput);
    }
    var prescription := Resolve(svc, store.Db(), tenant, in_, faults);
    if prescription.Failure? {
      return Failure(prescription.error);
    }
    if HashSelect in faults {
      return Failure(Internal);
    }
    if SessionClash(svc, in_, prescription.value) {
      return Failure(InvalidInput);
    }
    if EntryBuild in faults {
      return Failure(Internal);
    }
    var row := ReportRowOf(tx.Db(), tenant, in_, prescription.value);
    r := SaveEntryAndCommit(tx, store, key, row, "");
    if key.Some? {
      ClaimThenFinalize(old(store.claims), key.value, ClaimRow(PayloadOf(in_.claim), None),
                        ClaimRow(PayloadOf(in_.claim), Some(ClaimResult(row.id, ""))));
    }
  }
}
