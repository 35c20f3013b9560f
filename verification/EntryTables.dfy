/** The evidence_entries and webhook_events tables, and the statements that run outside a transaction
    (internal/store/entries.go). */
module EntryTables {
  import opened Wrappers
  import opened Text

  datatype RowKind = PrescribeRow | ReportRow

  datatype Row = Row(
    id: string, tenant: string, kind: RowKind, session: string, operation: string,
    prescriptionId: string, previousHash: string, hash: string)

  datatype ClaimKey = ClaimKey(tenant: string, source: string, key: string)

  datatype ClaimResult = ClaimResult(entryId: string, risk: string)

  /** A claim row; its result columns stay NULL until the claim is finalised. */
  datatype ClaimRow = ClaimRow(payload: string, result: Option<ClaimResult>)

  datatype DB = DB(entries: seq<Row>, claims: map<ClaimKey, ClaimRow>)

  const EMPTY_DB := DB([], map[])

  function FindEntry(entries: seq<Row>, tenant: string, id: string): (r: Option<Row>)
    ensures r.Some? ==> r.value in entries && r.value.tenant == tenant && r.value.id == id
    ensures r.None? ==> forall row | row in entries :: !(row.tenant == tenant && row.id == id)
  {
    if entries == [] then None
    else
      var n := |entries| - 1;
      assert entries == entries[..n] + [entries[n]];
      if entries[n].tenant == tenant && entries[n].id == id then Some(entries[n]) else FindEntry(entries[..n], tenant, id)
  }

  function LastHash(entries: seq<Row>, tenant: string): string {
    if entries == [] then ""
    else
      var n := |entries| - 1;
      if entries[n].tenant == tenant then entries[n].hash else LastHash(entries[..n], tenant)
  }

  /** The primary key covers all tenants. */
  predicate IdTaken(entries: seq<Row>, id: string) {
    exists i :: 0 <= i < |entries| && entries[i].id == id
  }

  /** An identifier made by the service itself. */
  type Ulid = s: string | !Blank(s) witness "0"

  class EntryStore {
    var entries: seq<Row>
    var claims: map<ClaimKey, ClaimRow>

    constructor ()
      ensures Db() == EMPTY_DB
    {
      entries, claims := [], map[];
    }

    function Db(): DB reads this {
      DB(entries, claims)
    }

    /** Insert the claim unless its key is there already; the answer is whether it was. */
    method ClaimWebhookEvent(key: ClaimKey, payload: string) returns (duplicate: bool)
      modifies this`claims
      ensures duplicate == (key in old(claims))
      ensures claims == if duplicate then old(claims) else old(claims)[key := ClaimRow(payload, None)]
    {
      duplicate := key in claims;
      if !duplicate {
        claims := claims[key := ClaimRow(payload, None)];
      }
    }

    method ReleaseWebhookEvent(key: ClaimKey)
      modifies this`claims
      ensures claims == old(claims) - {key}
    {
      claims := claims - {key};
    }

    /** Insert the row unless its ID is taken. */
    method SaveRaw(row: Row) returns (ok: bool)
      modifies this`entries
      ensures ok == !IdTaken(old(entries), row.id)
      ensures entries == if ok then old(entries) + [row] else old(entries)
    {
      ok := !IdTaken(entries, row.id);
      if ok {
        entries := entries + [row];
      }
    }
  }
}
