/** What ingest guarantees over every serial run, whatever fails on the way (internal/ingest/service.go). */
module IngestRuns {
  import opened Wrappers
  import opened Text
  import opened EntryTables
  import opened Ingest

  /** One request to one of the services that share the tables. */
  datatype Call = Call(svc: Service, tenant: string, report: bool, in_: Request, faults: set<Statement>) {
    function Key(): Option<ClaimKey> {
      KeyOf(svc, tenant, in_.claim)
    }

    predicate Soft() {
      report && SoftResolve(svc, in_)
    }
  }

  function Step(db: DB, call: Call): (DB, Result<Response, ErrorCode>) {
    if call.report then ReportStep(call.svc, db, call.tenant, call.in_, call.faults)
    else PrescribeStep(call.svc, db, call.tenant, call.in_, call.faults)
  }

  /** The committed tables after a run from empty tables. */
  function After(calls: seq<Call>): DB {
    if calls == [] then EMPTY_DB else Step(After(calls[..|calls| - 1]), calls[|calls| - 1]).0
  }

  function Answer(calls: seq<Call>, n: nat): Result<Response, ErrorCode>
    requires n < |calls|
  {
    Step(After(calls[..n]), calls[n]).1
  }

  predicate IsFresh(r: Result<Response, ErrorCode>) {
    r.Success? && !r.value.duplicate
  }

  predicate FreshFor(calls: seq<Call>, n: nat, key: ClaimKey)
    requires n < |calls|
  {
    IsFresh(Answer(calls, n)) && calls[n].Key() == Some(key)
  }

  // One step

  /** The row a call adds when it is fresh. */
  function RowOf(db: DB, call: Call): Row {
    if !call.report then PrescribeRowOf(db, call.tenant, call.in_)
    else
      ReportRowOf(db, call.tenant, call.in_, FindEntry(db.entries, call.tenant, Trim(call.in_.prescriptionId)))
  }

  function RiskOf(call: Call): string {
    if call.report then "" else call.in_.risk
  }

  /** A call that is not answered with a new entry leaves both tables as they were. */
  lemma OnlyFreshCallsWrite(db: DB, call: Call)
    ensures !IsFresh(Step(db, call).1) ==> Step(db, call).0 == db
  {
    hide ContractHolds, KeyOf, FindEntry, LastHash, IdTaken, PayloadOf, SessionClash, PrescribeRowOf, ReportRowOf;
  }

  lemma DuplicatesAreNotFresh(svc: Service, db: DB, key: ClaimKey, faults: set<Statement>)
    ensures !IsFresh(DuplicateAnswer(svc, db, key, faults))
  {
    hide FindEntry;
  }

  /** A fresh call passed validation, found its key unclaimed and its ID unused, and wrote one row and one claim. */
  lemma FreshCallWrites(db: DB, call: Call)
    requires IsFresh(Step(db, call).1)
    ensures Step(db, call) == (Persisted(db, call.Key(), PayloadOf(call.in_.claim), RowOf(db, call), RiskOf(call)),
                               Success(Response(false, RowOf(db, call).id, RiskOf(call))))
    ensures ContractHolds(call.in_)
    ensures call.Key().Some? ==> call.Key().value !in db.claims
    ensures !IdTaken(db.entries, RowOf(db, call).id)
    ensures call.report ==> Resolve(call.svc, db, call.tenant, call.in_, call.faults).Success?
    ensures call.report ==> !SessionClash(call.svc, call.in_, FindEntry(db.entries, call.tenant, Trim(call.in_.prescriptionId)))
  {
    hide ContractHolds, KeyOf, FindEntry, LastHash, IdTaken, PayloadOf, SessionClash, PrescribeRowOf, ReportRowOf, Persisted, DuplicateAnswer;
    if call.Key().Some? {
      DuplicatesAreNotFresh(call.svc, db, call.Key().value, call.faults);
    }
  }

  /** The row of a fresh call carries the session and operation of its request: validation insists on both, so those of the
      prescription never take their place. */
  lemma FreshRowIsTheRequests(db: DB, call: Call)
    requires IsFresh(Step(db, call).1)
    ensures var row := RowOf(db, call);
            && row.kind == (if call.report then ReportRow else PrescribeRow)
            && row.tenant == call.tenant && row.hash == call.in_.hash
            && row.session == Trim(call.in_.session) && row.operation == Trim(call.in_.operation)
            && (call.report ==> row.id == call.in_.generatedId && row.prescriptionId == Trim(call.in_.prescriptionId))
            && (!call.report ==> row.prescriptionId == row.id == if Blank(call.in_.askedId) then call.in_.generatedId else Trim(call.in_.askedId))
  {
    hide PrescribeStep, ReportStep, FindEntry, LastHash, Trim, KeyOf, IdTaken, SessionClash;
    FreshCallWrites(db, call);
  }

  lemma RowShape(db: DB, call: Call)
    ensures RowOf(db, call).tenant == call.tenant
    ensures RowOf(db, call).previousHash == LastHash(db.entries, call.tenant)
    ensures !Blank(RowOf(db, call).id)
    ensures RowOf(db, call).kind == if call.report then ReportRow else PrescribeRow
  {
    hide FindEntry, LastHash, Blank, Trim;
  }

  /** In a run, a call sees the tables its predecessors left. */
  lemma AfterOne(calls: seq<Call>, n: nat)
    requires n < |calls|
    ensures After(calls[..n + 1]) == Step(After(calls[..n]), calls[n]).0
  {
    assert calls[..n + 1][..n] == calls[..n];
  }

  lemma PrefixAnswer(calls: seq<Call>, m: nat, n: nat)
    requires n < m <= |calls|
    ensures Answer(calls[..m], n) == Answer(calls, n)
  {
    assert calls[..m][..n] == calls[..n];
  }

  // Claims

  /** The claim a fresh call leaves. */
  predicate ClaimOf(claims: map<ClaimKey, ClaimRow>, key: ClaimKey, answer: Result<Response, ErrorCode>) {
    key in claims && answer.Success? && claims[key].result == Some(ClaimResult(answer.value.entryId, answer.value.risk))
  }

  lemma {:induction false} ClaimsOnlyGrow(calls: seq<Call>, m: nat, n: nat, key: ClaimKey)
    requires m <= n <= |calls|
    requires key in After(calls[..m]).claims
    ensures key in After(calls[..n]).claims && After(calls[..n]).claims[key] == After(calls[..m]).claims[key]
    decreases n
  {
    hide PrescribeStep, ReportStep, KeyOf, RowOf;
    if m < n {
      ClaimsOnlyGrow(calls, m, n - 1, key);
      AfterOne(calls, n - 1);
      var db := After(calls[..n - 1]);
      OnlyFreshCallsWrite(db, calls[n - 1]);
      if IsFresh(Step(db, calls[n - 1]).1) {
        FreshCallWrites(db, calls[n - 1]);
      }
    }
  }

  lemma FreshClaims(calls: seq<Call>, n: nat, key: ClaimKey)
    requires n < |calls| && FreshFor(calls, n, key)
    ensures key !in After(calls[..n]).claims
    ensures ClaimOf(After(calls[..n + 1]).claims, key, Answer(calls, n))
  {
    hide PrescribeStep, ReportStep, KeyOf, RowOf;
    AfterOne(calls, n);
    FreshCallWrites(After(calls[..n]), calls[n]);
  }

  /** A claim row exists exactly when a call with its key wrote an entry. */
  lemma {:induction false} ClaimedIffFresh(calls: seq<Call>, key: ClaimKey)
    ensures key in After(calls).claims <==> exists n: nat :: n < |calls| && FreshFor(calls, n, key)
  {
    hide PrescribeStep, ReportStep, KeyOf, RowOf, Answer;
    if calls != [] {
      var last := |calls| - 1;
      var before := calls[..last];
      ClaimedIffFresh(before, key);
      forall n: nat | n < last
        ensures FreshFor(before, n, key) <==> FreshFor(calls, n, key)
      {
        PrefixAnswer(calls, last, n);
      }
      LastCallClaims(calls, key);
    }
  }

  lemma LastCallClaims(calls: seq<Call>, key: ClaimKey)
    requires calls != []
    ensures key in After(calls).claims <==> key in After(calls[..|calls| - 1]).claims || FreshFor(calls, |calls| - 1, key)
  {
    hide PrescribeStep, ReportStep, KeyOf, RowOf;
    var last := |calls| - 1;
    var db := After(calls[..last]);
    OnlyFreshCallsWrite(db, calls[last]);
    if IsFresh(Step(db, calls[last]).1) {
      FreshCallWrites(db, calls[last]);
    }
  }

  /** Exactly once: no two calls with one key both write an entry. */
  lemma AtMostOneFreshCallPerKey(calls: seq<Call>, m: nat, n: nat, key: ClaimKey)
    requires m < |calls| && n < |calls|
    requires FreshFor(calls, m, key) && FreshFor(calls, n, key)
    ensures m == n
  {
    hide PrescribeStep, ReportStep, KeyOf, RowOf, Answer;
    if m < n {
      FreshClaims(calls, m, key);
      ClaimsOnlyGrow(calls, m + 1, n, key);
      FreshClaims(calls, n, key);
    } else if n < m {
      FreshClaims(calls, n, key);
      ClaimsOnlyGrow(calls, n + 1, m, key);
      FreshClaims(calls, m, key);
    }
  }

  // Entries

  /** The entries are those of the fresh calls, in order. */
  function FreshCalls(calls: seq<Call>): seq<nat> {
    if calls == [] then []
    else
      var front := FreshCalls(calls[..|calls| - 1]);
      if IsFresh(Answer(calls, |calls| - 1)) then front + [|calls| - 1] else front
  }

  predicate EntryOf(calls: seq<Call>, row: Row, n: nat) {
    && n < |calls|
    && Answer(calls, n).Success?
    && row == RowOf(After(calls[..n]), calls[n])
    && row.id == Answer(calls, n).value.entryId
    && row.tenant == calls[n].tenant
  }

  lemma LastCallEntries(calls: seq<Call>)
    requires calls != []
    ensures var last := |calls| - 1; var before := After(calls[..last]).entries;
            if IsFresh(Answer(calls, last))
            then After(calls).entries == before + [RowOf(After(calls[..last]), calls[last])]
                 && EntryOf(calls, RowOf(After(calls[..last]), calls[last]), last)
            else After(calls).entries == before
  {
    hide PrescribeStep, ReportStep, KeyOf, RowOf;
    var last := |calls| - 1;
    var db := After(calls[..last]);
    OnlyFreshCallsWrite(db, calls[last]);
    if IsFresh(Answer(calls, last)) {
      FreshCallWrites(db, calls[last]);
      RowShape(db, calls[last]);
    }
  }

  /** Every committed entry is the one its fresh call was answered with, and every fresh call has one. */
  lemma {:induction false} EntriesAreTheFreshCalls(calls: seq<Call>)
    ensures |After(calls).entries| == |FreshCalls(calls)|
    ensures forall i :: 0 <= i < |FreshCalls(calls)| ==> EntryOf(calls, After(calls).entries[i], FreshCalls(calls)[i])
  {
    hide After, Answer, RowOf, Step;
    if calls == [] {
      EmptyRun();
    } else {
      var last := |calls| - 1;
      var before := calls[..last];
      EntriesAreTheFreshCalls(before);
      LastCallEntries(calls);
      forall i | 0 <= i < |FreshCalls(before)|
        ensures EntryOf(calls, After(before).entries[i], FreshCalls(before)[i])
      {
        PrefixEntryOf(calls, last, After(before).entries[i], FreshCalls(before)[i]);
      }
    }
  }

  lemma EmptyRun()
    ensures After([]) == EMPTY_DB
  {
  }

  lemma PrefixEntryOf(calls: seq<Call>, m: nat, row: Row, n: nat)
    requires m <= |calls| && EntryOf(calls[..m], row, n)
    ensures EntryOf(calls, row, n)
  {
    hide After, RowOf, Step;
    PrefixAnswer(calls, m, n);
    assert calls[..m][..n] == calls[..n];
  }

  /** Entries, once committed, stay where they are. */
  lemma {:induction false} EntriesOnlyGrow(calls: seq<Call>, m: nat, n: nat)
    requires m <= n <= |calls|
    ensures After(calls[..m]).entries <= After(calls[..n]).entries
    decreases n
  {
    hide After, Answer, RowOf, Step;
    if m < n {
      EntriesOnlyGrow(calls, m, n - 1);
      assert calls[..n][..n - 1] == calls[..n - 1];
      LastCallEntries(calls[..n]);
    }
  }

  lemma FoundIfPresent(entries: seq<Row>, i: nat)
    requires i < |entries|
    ensures FindEntry(entries, entries[i].tenant, entries[i].id).Some?
  {
    hide FindEntry;
    assert entries[i] in entries;
  }

  // Duplicates

  /** A later call with a key that already wrote an entry gets that entry's ID and risk, or an error; it gets the answer
      exactly when it is valid and the statements it needs succeed. It never writes. */
  lemma DuplicateRepeatsFirst(calls: seq<Call>, first: nat, n: nat, key: ClaimKey)
    requires first < n < |calls|
    requires FreshFor(calls, first, key) && calls[n].Key() == Some(key)
    ensures var a := Answer(calls, first).value;
            Answer(calls, n) ==
            if ContractHolds(calls[n].in_) && {Begin, ClaimInsert, ResultSelect, EntrySelect, EntryDecode} !! calls[n].faults
            then Success(Response(true, a.entryId, a.risk))
            else Failure(if !ContractHolds(calls[n].in_) then InvalidInput else Internal)
    ensures After(calls[..n + 1]) == After(calls[..n])
  {
    hide PrescribeStep, ReportStep, KeyOf, RowOf, FindEntry, Answer, ContractHolds, Blank;
    FreshClaims(calls, first, key);
    ClaimsOnlyGrow(calls, first + 1, n, key);
    FirstEntryIsThere(calls, first, n, key);
    ClaimedCallAnswer(After(calls[..n]), calls[n], key, Answer(calls, first).value);
    AnswerIsStep(calls, n);
    OnlyFreshCallsWrite(After(calls[..n]), calls[n]);
    AfterOne(calls, n);
  }

  lemma AnswerIsStep(calls: seq<Call>, n: nat)
    requires n < |calls|
    ensures Answer(calls, n) == Step(After(calls[..n]), calls[n]).1
  {
    hide After, Step;
  }

  lemma FirstEntryIsThere(calls: seq<Call>, first: nat, n: nat, key: ClaimKey)
    requires first < n <= |calls| && FreshFor(calls, first, key)
    ensures var id := Answer(calls, first).value.entryId;
            !Blank(id) && FindEntry(After(calls[..n]).entries, key.tenant, id).Some?
  {
    hide After, RowOf, Step, FindEntry, Answer, Blank;
    var db := After(calls[..first]);
    assert key.tenant == calls[first].tenant;
    assert calls[..first + 1][..first] == calls[..first];
    PrefixAnswer(calls, first + 1, first);
    LastCallEntries(calls[..first + 1]);
    RowShape(db, calls[first]);
    EntriesOnlyGrow(calls, first + 1, n);
    FoundIfPresent(After(calls[..n]).entries, |db.entries|);
  }

  /** How a call with a claimed key is answered, when the claim's entry is there. */
  lemma ClaimedCallAnswer(db: DB, call: Call, key: ClaimKey, a: Response)
    requires call.Key() == Some(key) && key in db.claims
    requires db.claims[key].result == Some(ClaimResult(a.entryId, a.risk))
    requires !Blank(a.entryId) && FindEntry(db.entries, key.tenant, a.entryId).Some?
    ensures Step(db, call).1 ==
            if ContractHolds(call.in_) && {Begin, ClaimInsert, ResultSelect, EntrySelect, EntryDecode} !! call.faults
            then Success(Response(true, a.entryId, a.risk))
            else Failure(if !ContractHolds(call.in_) then InvalidInput else Internal)
  {
    hide ContractHolds, KeyOf, FindEntry, PayloadOf, Blank, SaveAndCommit, Resolve, PrescribeRowOf, ReportRowOf;
  }

  // Retries

  /** A client that repeats a keyed request until it gets through, whatever fails on the way, leaves the tables as one
      undisturbed request would, and is told the same entry and risk. */
  lemma {:induction false} RetriesCollapse(calls: seq<Call>, call: Call, attempts: seq<set<Statement>>)
    requires call.Key().Some?
    ensures var tried := calls + Attempts(call, attempts);
            var once := calls + [call.(faults := {})];
            var retried := tried + [call.(faults := {})];
            && After(retried) == After(once)
            && SameOutcome(Answer(retried, |tried|), Answer(once, |calls|))
    decreases |attempts|
  {
    hide After, Step, RowOf, Answer, SameOutcome, KeyOf;
    var clean := call.(faults := {});
    if attempts == [] {
      assert calls + Attempts(call, attempts) == calls;
      SameAsItself(Answer(calls + [clean], |calls|));
    } else {
      var next := calls + [call.(faults := attempts[0])];
      RetriesCollapse(next, call, attempts[1..]);
      assert calls + Attempts(call, attempts) == next + Attempts(call, attempts[1..]);
      OneRetry(calls, call, attempts[0]);
      SameIsTransitive(Answer(calls + Attempts(call, attempts) + [clean], |calls| + |attempts|), Answer(next + [clean], |next|), Answer(calls + [clean], |calls|));
    }
  }

  function Attempts(call: Call, attempts: seq<set<Statement>>): seq<Call> {
    seq(|attempts|, (i: nat) requires i < |attempts| => call.(faults := attempts[i]))
  }

  predicate SameOutcome(a: Result<Response, ErrorCode>, b: Result<Response, ErrorCode>) {
    if a.Failure? || b.Failure? then a == b
    else a.value.entryId == b.value.entryId && a.value.risk == b.value.risk
  }

  lemma SameAsItself(a: Result<Response, ErrorCode>)
    ensures SameOutcome(a, a)
  {
  }

  lemma SameIsTransitive(a: Result<Response, ErrorCode>, b: Result<Response, ErrorCode>, c: Result<Response, ErrorCode>)
    requires SameOutcome(a, b) && SameOutcome(b, c)
    ensures SameOutcome(a, c)
  {
  }

  lemma AfterAppend(calls: seq<Call>, call: Call)
    ensures After(calls + [call]) == Step(After(calls), call).0
    ensures Answer(calls + [call], |calls|) == Step(After(calls), call).1
  {
    hide Step;
    assert (calls + [call])[..|calls|] == calls;
  }

  lemma OneRetry(calls: seq<Call>, call: Call, faults: set<Statement>)
    requires call.Key().Some?
    ensures var clean := call.(faults := {});
            var next := calls + [call.(faults := faults)];
            && After(next + [clean]) == After(calls + [clean])
            && SameOutcome(Answer(next + [clean], |next|), Answer(calls + [clean], |calls|))
  {
    hide After, Step, RowOf, Answer, KeyOf;
    var clean := call.(faults := {});
    var tried := call.(faults := faults);
    AfterAppend(calls, tried);
    AfterAppend(calls, clean);
    AfterAppend(calls + [tried], clean);
    RetryOnTables(After(calls), call, faults);
  }

  lemma RetryOnTables(db: DB, call: Call, faults: set<Statement>)
    requires call.Key().Some?
    ensures var clean := call.(faults := {});
            var db' := Step(db, call.(faults := faults)).0;
            && Step(db', clean).0 == Step(db, clean).0
            && SameOutcome(Step(db', clean).1, Step(db, clean).1)
  {
    hide KeyOf, RowOf, PrescribeStep, ReportStep, ContractHolds, FindEntry, Blank, IdTaken, Resolve, SessionClash;
    var clean := call.(faults := {});
    var tried := call.(faults := faults);
    OnlyFreshCallsWrite(db, tried);
    if IsFresh(Step(db, tried).1) {
      FreshCallWrites(db, tried);
      RowShape(db, tried);
      FaultFreeIsFresh(db, call, faults);
      FreshCallWrites(db, clean);
      SameRow(db, call, faults);
      var db' := Step(db, tried).0;
      FoundIfPresent(db'.entries, |db.entries|);
      KeyTenant(call);
      ClaimedCallAnswer(db', clean, call.Key().value, Response(false, RowOf(db, clean).id, RiskOf(clean)));
      OnlyFreshCallsWrite(db', clean);
    }
  }

  lemma KeyTenant(call: Call)
    requires call.Key().Some?
    ensures call.Key().value.tenant == call.tenant
  {
  }

  lemma SameRow(db: DB, call: Call, faults: set<Statement>)
    ensures RowOf(db, call.(faults := faults)) == RowOf(db, call.(faults := {}))
    ensures RiskOf(call.(faults := faults)) == RiskOf(call.(faults := {}))
    ensures call.(faults := faults).Key() == call.(faults := {}).Key()
  {
  }

  /** Whatever succeeds with some statements failing succeeds with none failing. */
  lemma FaultFreeIsFresh(db: DB, call: Call, faults: set<Statement>)
    requires IsFresh(Step(db, call.(faults := faults)).1)
    ensures IsFresh(Step(db, call.(faults := {})).1)
  {
    hide ContractHolds, KeyOf, FindEntry, LastHash, IdTaken, PayloadOf, SessionClash, PrescribeRowOf, ReportRowOf, Persisted, DuplicateAnswer;
    var tried := call.(faults := faults);
    if tried.Key().Some? {
      DuplicatesAreNotFresh(tried.svc, db, tried.Key().value, faults);
    }
  }

  // Entries of a tenant

  lemma SameId(entries: seq<Row>, row: Row)
    requires !IdTaken(entries, row.id)
    ensures forall i :: 0 <= i < |entries| ==> entries[i].id != row.id
  {
  }

  /** Entry IDs are unique across tenants. */
  lemma {:induction false} IdsAreUnique(calls: seq<Call>, i: nat, j: nat)
    requires i < j < |After(calls).entries|
    ensures After(calls).entries[i].id != After(calls).entries[j].id
    decreases |calls|
  {
    hide After, Answer, RowOf, Step, IdTaken;
    if calls == [] {
      EmptyRun();
    } else {
      var last := |calls| - 1;
      LastCallEntries(calls);
      var before := After(calls[..last]);
      if j < |before.entries| {
        IdsAreUnique(calls[..last], i, j);
      } else {
        FreshAtEnd(calls);
        SameId(before.entries, RowOf(before, calls[last]));
      }
    }
  }

  lemma FreshAtEnd(calls: seq<Call>)
    requires calls != [] && IsFresh(Answer(calls, |calls| - 1))
    ensures var last := |calls| - 1; !IdTaken(After(calls[..last]).entries, RowOf(After(calls[..last]), calls[last]).id)
  {
    hide RowOf, PrescribeStep, ReportStep, IdTaken;
    FreshCallWrites(After(calls[..|calls| - 1]), calls[|calls| - 1]);
  }

  /** Each entry links to the entry of its tenant committed just before it. */
  lemma {:induction false} EntriesAreLinked(calls: seq<Call>, i: nat)
    requires i < |After(calls).entries|
    ensures var entries := After(calls).entries; entries[i].previousHash == LastHash(entries[..i], entries[i].tenant)
    decreases |calls|
  {
    hide After, Answer, RowOf, Step, LastHash;
    if calls == [] {
      EmptyRun();
    } else {
      var last := |calls| - 1;
      var before := After(calls[..last]);
      LastCallEntries(calls);
      if i < |before.entries| {
        EntriesAreLinked(calls[..last], i);
        assert After(calls).entries[..i] == before.entries[..i];
      } else {
        RowShape(before, calls[last]);
        assert After(calls).entries[..i] == before.entries;
      }
    }
  }

  /** The tenant's chain read alone: the links of one tenant's entries form one unbroken chain. */
  predicate Linked(rows: seq<Row>) {
    && (rows != [] ==> rows[0].previousHash == "")
    && (forall i, j :: 0 <= i < |rows| && 0 <= j < |rows| && j == i + 1 ==> rows[j].previousHash == rows[i].hash)
  }

  function OfTenant(entries: seq<Row>, tenant: string): seq<Row> {
    if entries == [] then []
    else
      var front := OfTenant(entries[..|entries| - 1], tenant);
      if entries[|entries| - 1].tenant == tenant then front + [entries[|entries| - 1]] else front
  }

  lemma {:induction false} LastHashOfTenant(entries: seq<Row>, tenant: string)
    ensures LastHash(entries, tenant) ==
            if OfTenant(entries, tenant) == [] then "" else OfTenant(entries, tenant)[|OfTenant(entries, tenant)| - 1].hash
  {
    if entries != [] {
      LastHashOfTenant(entries[..|entries| - 1], tenant);
    }
  }

  lemma {:induction false} TenantChainIsUnbroken(calls: seq<Call>, tenant: string)
    ensures Linked(OfTenant(After(calls).entries, tenant))
  {
    TenantPrefixLinked(calls, tenant, |After(calls).entries|);
    assert After(calls).entries[..|After(calls).entries|] == After(calls).entries;
  }

  lemma LinkedByLast(entries: seq<Row>, tenant: string)
    requires entries != [] && Linked(OfTenant(entries[..|entries| - 1], tenant))
    requires entries[|entries| - 1].previousHash == LastHash(entries[..|entries| - 1], entries[|entries| - 1].tenant)
    ensures Linked(OfTenant(entries, tenant))
  {
    hide LastHash, Linked;
    var front := OfTenant(entries[..|entries| - 1], tenant);
    var last := entries[|entries| - 1];
    if last.tenant == tenant {
      LastHashOfTenant(entries[..|entries| - 1], tenant);
      LinkedSnoc(front, last);
    }
  }

  lemma LinkedSnoc(rows: seq<Row>, row: Row)
    requires Linked(rows)
    requires row.previousHash == if rows == [] then "" else rows[|rows| - 1].hash
    ensures Linked(rows + [row])
  {
  }

  lemma {:induction false} TenantPrefixLinked(calls: seq<Call>, tenant: string, n: nat)
    requires n <= |After(calls).entries|
    ensures Linked(OfTenant(After(calls).entries[..n], tenant))
    decreases n
  {
    hide After, LastHash;
    if n > 0 {
      var entries := After(calls).entries;
      TenantPrefixLinked(calls, tenant, n - 1);
      var prefix := entries[..n];
      assert prefix[..|prefix| - 1] == entries[..n - 1];
      EntriesAreLinked(calls, n - 1);
      LinkedByLast(prefix, tenant);
    }
  }

  // Reports

  /** Stored sessions are trimmed and not blank. */
  predicate Clean(s: string) {
    Trim(s) == s && !Blank(s)
  }

  predicate NamesPrescription(entries: seq<Row>, i: nat, j: nat) {
    && j < i < |entries|
    && entries[j].kind == PrescribeRow
    && entries[j].tenant == entries[i].tenant
    && entries[j].id == entries[i].prescriptionId
    && entries[j].session == entries[i].session
  }

  lemma SessionIsClean(db: DB, call: Call)
    requires ContractHolds(call.in_)
    ensures Clean(RowOf(db, call).session)
  {
    hide FindEntry, LastHash, Trim, PrescribeId;
    TrimTwice(call.in_.session);
  }

  lemma {:induction false} SessionsAreClean(calls: seq<Call>, i: nat)
    requires i < |After(calls).entries|
    ensures Clean(After(calls).entries[i].session)
    decreases |calls|
  {
    hide After, RowOf, PrescribeStep, ReportStep, Clean, ContractHolds;
    if calls == [] {
      EmptyRun();
    } else {
      var last := |calls| - 1;
      var before := After(calls[..last]);
      LastCallEntries(calls);
      if i < |before.entries| {
        SessionsAreClean(calls[..last], i);
      } else {
        FreshCallWrites(before, calls[last]);
        SessionIsClean(before, calls[last]);
      }
    }
  }

  /** Where the prescription of a report was found. */
  lemma FoundAt(entries: seq<Row>, tenant: string, id: string) returns (j: nat)
    requires FindEntry(entries, tenant, id).Some?
    ensures j < |entries| && Some(entries[j]) == FindEntry(entries, tenant, id)
    ensures entries[j].tenant == tenant && entries[j].id == id
  {
    hide FindEntry;
    var row := FindEntry(entries, tenant, id).value;
    var k :| 0 <= k < |entries| && entries[k] == row;
    j := k;
  }

  lemma NewReportNamesPrescription(db: DB, call: Call) returns (j: nat)
    requires IsFresh(Step(db, call).1) && call.report && !call.Soft()
    requires forall i :: 0 <= i < |db.entries| ==> Clean(db.entries[i].session)
    ensures NamesPrescription(db.entries + [RowOf(db, call)], |db.entries|, j)
  {
    hide PrescribeStep, ReportStep, FindEntry, LastHash, KeyOf, IdTaken, PrescribeId;
    FreshCallWrites(db, call);
    j := FoundAt(db.entries, call.tenant, Trim(call.in_.prescriptionId));
    TrimTwice(call.in_.session);
  }

  /** The call that wrote a row. */
  predicate WroteRow(calls: seq<Call>, n: nat, i: nat) {
    && n < |calls| && IsFresh(Answer(calls, n))
    && i == |After(calls[..n]).entries| < |After(calls).entries|
    && After(calls).entries[i] == RowOf(After(calls[..n]), calls[n])
  }

  lemma WroteEarlier(calls: seq<Call>, m: nat, n: nat, i: nat)
    requires m <= |calls| && WroteRow(calls[..m], n, i) && After(calls[..m]).entries <= After(calls).entries
    ensures WroteRow(calls, n, i)
  {
    hide After, RowOf, Step;
    assert calls[..m][..n] == calls[..n];
  }

  /** Every committed row was written by one call of the run. If it is a report, and not a translated one that the webhook
      service takes as it comes, it names a prescription committed before it, of the same tenant and session. */
  lemma {:induction false} ReportsNamePrescriptions(calls: seq<Call>, i: nat) returns (n: nat, j: nat)
    requires i < |After(calls).entries|
    ensures WroteRow(calls, n, i)
    ensures After(calls).entries[i].kind == ReportRow <==> calls[n].report
    ensures calls[n].report && !calls[n].Soft() ==> NamesPrescription(After(calls).entries, i, j)
    decreases |calls|
  {
    hide After, RowOf, Step, Clean;
    n, j := 0, 0;
    if calls == [] {
      EmptyRun();
    } else {
      var last := |calls| - 1;
      var before := After(calls[..last]);
      LastCallEntries(calls);
      if i < |before.entries| {
        n, j := ReportsNamePrescriptions(calls[..last], i);
        WroteEarlier(calls, last, n, i);
        assert calls[..last][n] == calls[n];
      } else {
        n := last;
        RowShape(before, calls[last]);
        AnswerIsStep(calls, last);
        if calls[last].report && !calls[last].Soft() {
          forall k: nat | k < |before.entries| ensures Clean(before.entries[k].session) {
            SessionsAreClean(calls[..last], k);
          }
          j := NewReportNamesPrescription(before, calls[last]);
        }
      }
    }
  }

  // When a call writes, told from the fields of its request

  /** The claim key as the request and its service spell it. */
  function SpelledKey(call: Call): ClaimKey
    requires call.in_.claim.Some?
  {
    ClaimKey(call.tenant, call.svc.claimPrefix + Trim(call.in_.claim.value.source), call.in_.claim.value.key)
  }

  /** The ID of the entry a call would write. */
  function NewId(call: Call): string {
    if call.report || Blank(call.in_.askedId) then call.in_.generatedId else Trim(call.in_.askedId)
  }

  /** The request is valid, can be built, and asks for an ID that is free. */
  predicate Writable(db: DB, call: Call) {
    && call.in_.restValid && !Blank(call.in_.session) && !Blank(call.in_.operation)
    && (call.in_.claim.Some? ==> !Blank(call.in_.claim.value.source) && !Blank(call.in_.claim.value.key))
    && call.in_.buildable
    && forall i :: 0 <= i < |db.entries| ==> db.entries[i].id != NewId(call)
  }

  /** A report names a prescription of its tenant, in its own session. The webhook service takes a translated report also for
      an unknown one, and in any session. */
  predicate Resolves(db: DB, call: Call) {
    var soft := call.svc.legacyFallback && call.in_.translated;
    match FindEntry(db.entries, call.tenant, Trim(call.in_.prescriptionId))
    case None => soft
    case Some(row) => row.kind == PrescribeRow && (soft || Blank(row.session) || Trim(call.in_.session) == Trim(row.session))
  }

  /** No statement fails that the call comes to. */
  predicate Undisturbed(call: Call) {
    && {Begin, HashSelect, EntryBuild, EntryInsert, Commit} !! call.faults
    && (call.report ==> EntrySelect !in call.faults)
    && (call.in_.claim.Some? ==> ClaimInsert !in call.faults && ClaimUpdate !in call.faults)
  }

  lemma KeyIsSpelled(call: Call)
    requires ContractHolds(call.in_)
    ensures call.Key() == if call.in_.claim.None? then None else Some(SpelledKey(call))
  {
    hide Blank, Trim;
  }

  lemma ResolvesSpelled(db: DB, call: Call)
    requires ContractHolds(call.in_) && EntrySelect !in call.faults
    ensures var found := FindEntry(db.entries, call.tenant, Trim(call.in_.prescriptionId));
            var resolved := Resolve(call.svc, db, call.tenant, call.in_, call.faults);
            && (resolved.Success? ==> resolved.value == found)
            && (Resolves(db, call) <==> resolved.Success? && !SessionClash(call.svc, call.in_, found))
  {
    hide FindEntry, Trim;
    TrimTwice(call.in_.session);
    assert Blank(call.in_.session) <==> Trim(call.in_.session) == "";
  }

  /** From any tables, a call writes exactly when it is valid and can be built, asks for a free ID, names a prescription where
      it must, meets no failing statement, and no claim row stands under its tenant, source and key. */
  lemma WritesExactly(db: DB, call: Call)
    ensures IsFresh(Step(db, call).1) <==>
              && Writable(db, call) && (call.report ==> Resolves(db, call)) && Undisturbed(call)
              && (call.in_.claim.Some? ==> SpelledKey(call) !in db.claims)
  {
    hide FindEntry, LastHash, Blank, Trim, PayloadOf, SessionClash, Resolve, Resolves, KeyOf, SpelledKey, DuplicateAnswer;
    IdIsFree(db, call);
    if call.Key().Some? {
      DuplicatesAreNotFresh(call.svc, db, call.Key().value, call.faults);
    }
    if ContractHolds(call.in_) {
      KeyIsSpelled(call);
      if EntrySelect !in call.faults {
        ResolvesSpelled(db, call);
      } else {
        UnreadIsUnresolved(db, call);
      }
    }
  }

  lemma UnreadIsUnresolved(db: DB, call: Call)
    requires EntrySelect in call.faults
    ensures Resolve(call.svc, db, call.tenant, call.in_, call.faults).Failure?
  {
    hide FindEntry, Trim;
  }

  lemma IdIsFree(db: DB, call: Call)
    ensures RowOf(db, call).id == NewId(call)
    ensures IdTaken(db.entries, NewId(call)) <==> !forall i :: 0 <= i < |db.entries| ==> db.entries[i].id != NewId(call)
  {
    hide FindEntry, LastHash, Blank, Trim;
  }

  /** And then exactly one row and one claim are new: the row tells the request, and the claim stands under its own key with the
      row's ID. */
  lemma WritesTheRequest(db: DB, call: Call)
    requires IsFresh(Step(db, call).1)
    ensures var after, row := Step(db, call).0, RowOf(db, call);
            && after.entries == db.entries + [row]
            && row == Row(NewId(call), call.tenant, if call.report then ReportRow else PrescribeRow, Trim(call.in_.session),
                          Trim(call.in_.operation), if call.report then Trim(call.in_.prescriptionId) else NewId(call),
                          LastHash(db.entries, call.tenant), call.in_.hash)
            && after.claims == (if call.in_.claim.None? then db.claims
                                else
                                  var payload := call.in_.claim.value.payload;
                                  db.claims[SpelledKey(call) := ClaimRow(if Blank(payload) then "{}" else payload,
                                    Some(ClaimResult(NewId(call), if call.report then "" else call.in_.risk)))])
  {
    hide FindEntry, LastHash, Blank, Trim, PrescribeStep, ReportStep, SessionClash, IdTaken, KeyOf, SpelledKey;
    FreshCallWrites(db, call);
    FreshRowIsTheRequests(db, call);
    KeyIsSpelled(call);
    IdIsFree(db, call);
    RowShape(db, call);
  }

  /** Of two calls that nothing but a claim stands in the way of, the first of which wrote, the second is answered as a duplicate
      of it exactly when tenant, prefixed source and key all agree. */
  lemma DuplicateIffSameKey(calls: seq<Call>, m: nat, n: nat)
    requires m < n < |calls| && IsFresh(Answer(calls, m)) && calls[m].in_.claim.Some? && calls[n].in_.claim.Some?
    requires Writable(After(calls[..n]), calls[n]) && calls[n].faults == {}
    ensures Answer(calls, n) == Success(Response(true, Answer(calls, m).value.entryId, Answer(calls, m).value.risk)) <==>
              && calls[m].tenant == calls[n].tenant
              && calls[m].svc.claimPrefix + Trim(calls[m].in_.claim.value.source) == calls[n].svc.claimPrefix + Trim(calls[n].in_.claim.value.source)
              && calls[m].in_.claim.value.key == calls[n].in_.claim.value.key
  {
    hide After, Step, RowOf, Answer, KeyOf, Trim, Blank;
    AnswerIsStep(calls, m);
    FreshIsValid(After(calls[..m]), calls[m]);
    KeyIsSpelled(calls[m]);
    KeyIsSpelled(calls[n]);
    var key := SpelledKey(calls[n]);
    if SpelledKey(calls[m]) == key {
      DuplicateRepeatsFirst(calls, m, n, key);
    } else if Answer(calls, n).Success? && Answer(calls, n).value.duplicate {
      OtherAnswer(calls, m, n, key);
    }
  }

  lemma FreshIsValid(db: DB, call: Call)
    requires IsFresh(Step(db, call).1)
    ensures ContractHolds(call.in_)
  {
    hide Step, RowOf, ContractHolds;
    FreshCallWrites(db, call);
  }

  /** A duplicate of another key is not answered with this call's entry. */
  lemma OtherAnswer(calls: seq<Call>, m: nat, n: nat, key: ClaimKey)
    requires m < n < |calls| && IsFresh(Answer(calls, m)) && calls[m].Key() != Some(key) && calls[n].Key() == Some(key)
    requires Answer(calls, n).Success? && Answer(calls, n).value.duplicate && calls[n].faults == {} && ContractHolds(calls[n].in_)
    ensures Answer(calls, n).value.entryId != Answer(calls, m).value.entryId
  {
    hide After, Step, RowOf, Answer, KeyOf, Trim, Blank, ContractHolds;
    AnswerIsStep(calls, n);
    DuplicateIsClaimed(After(calls[..n]), calls[n], key);
    ClaimedIffFresh(calls[..n], key);
    var p: nat :| p < n && FreshFor(calls[..n], p, key);
    PrefixAnswer(calls, n, p);
    DuplicateRepeatsFirst(calls, p, n, key);
    FreshIdsDiffer(calls, m, p);
  }

  lemma DuplicateIsClaimed(db: DB, call: Call, key: ClaimKey)
    requires call.Key() == Some(key) && Step(db, call).1.Success? && Step(db, call).1.value.duplicate
    ensures key in db.claims
  {
    hide FindEntry, LastHash, IdTaken, Blank, Trim, PayloadOf, SessionClash, Resolve, KeyOf, PrescribeRowOf, ReportRowOf, Persisted;
  }

  /** Different calls that wrote were answered with different entries. */
  lemma FreshIdsDiffer(calls: seq<Call>, m: nat, p: nat)
    requires m < |calls| && p < |calls| && m != p && IsFresh(Answer(calls, m)) && IsFresh(Answer(calls, p))
    ensures Answer(calls, m).value.entryId != Answer(calls, p).value.entryId
  {
    hide After, Step, RowOf, Answer;
    if p < m {
      LaterIdDiffers(calls, p, m);
    } else {
      LaterIdDiffers(calls, m, p);
    }
  }

  lemma LaterIdDiffers(calls: seq<Call>, m: nat, p: nat)
    requires m < p < |calls| && IsFresh(Answer(calls, m)) && IsFresh(Answer(calls, p))
    ensures Answer(calls, m).value.entryId != Answer(calls, p).value.entryId
  {
    hide After, Step, RowOf, Answer;
    var early, late := calls[..m + 1], calls[..p + 1];
    assert early[..m] == calls[..m] && late[..p] == calls[..p];
    PrefixAnswer(calls, m + 1, m);
    PrefixAnswer(calls, p + 1, p);
    LastCallEntries(early);
    LastCallEntries(late);
    EntriesOnlyGrow(calls, m + 1, p);
    IdsAreUnique(late, |After(calls[..m]).entries|, |After(calls[..p]).entries|);
  }
}
