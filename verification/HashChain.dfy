/** The hash chain over entries: what validation accepts (pkg/evidence/entry_store.go), what the hash covers
    (pkg/evidence/entry_builder.go) and how writers link entries (internal/lifecycle/service.go). */
module HashChain {
  import opened Wrappers
  import opened Evidence

  /** What the hash covers: every field of an entry except its hash and signature. */
  function Hashed(e: Entry): Entry {
    e.(hash := "", signature := "")
  }

  /** The digest of the serialised fields. */
  type Digest = Entry -> string

  function LastHash(log: seq<Entry>): string {
    if log == [] then "" else log[|log| - 1].hash
  }

  predicate Linked(entries: seq<Entry>, i: nat)
    requires i < |entries|
  {
    entries[i].previousHash == LastHash(entries[..i])
  }

  predicate Sealed(digest: Digest, e: Entry) {
    e.hash == digest(Hashed(e))
  }

  ghost predicate ChainValid(digest: Digest, entries: seq<Entry>) {
    forall i | 0 <= i < |entries| :: Linked(entries, i) && Sealed(digest, entries[i])
  }

  datatype Fault = NotFirst | PreviousMismatch | HashMismatch

  datatype ChainError = ChainError(index: nat, entryId: string, fault: Fault)

  /** Validation stops at the first entry that is out of place or does not hash to what it says. */
  method ValidateChainEntries(digest: Digest, entries: seq<Entry>) returns (r: Option<ChainError>)
    ensures r.None? <==> ChainValid(digest, entries)
    ensures r.Some? ==>
      && r.value.index < |entries|
      && r.value.entryId == entries[r.value.index].entryId
      && ChainValid(digest, entries[..r.value.index])
      && (if r.value.fault == HashMismatch
          then Linked(entries, r.value.index) && !Sealed(digest, entries[r.value.index])
          else !Linked(entries, r.value.index) && (r.value.fault == NotFirst <==> r.value.index == 0))
  {
    for i := 0 to |entries|
      invariant forall k | 0 <= k < i :: Linked(entries, k) && Sealed(digest, entries[k])
    {
      var e := entries[i];
      if i == 0 {
        if e.previousHash != "" {
          PrefixValid(digest, entries, i);
          return Some(ChainError(i, e.entryId, NotFirst));
        }
      } else if e.previousHash != entries[i - 1].hash {
        PrefixValid(digest, entries, i);
        return Some(ChainError(i, e.entryId, PreviousMismatch));
      }
      if e.hash != digest(Hashed(e)) {
        PrefixValid(digest, entries, i);
        return Some(ChainError(i, e.entryId, HashMismatch));
      }
    }
    r := None;
  }

  lemma PrefixValid(digest: Digest, entries: seq<Entry>, n: nat)
    requires n <= |entries|
    requires forall k | 0 <= k < n :: Linked(entries, k) && Sealed(digest, entries[k])
    ensures ChainValid(digest, entries[..n])
  {
    forall i | 0 <= i < n ensures Linked(entries[..n], i) && Sealed(digest, entries[..n][i]) {
      assert entries[..n][..i] == entries[..i];
      assert Linked(entries, i);
    }
  }

  /** No two of these entries collide, and none hashes to the empty string. */
  ghost predicate CollisionFree(digest: Digest, entries: seq<Entry>) {
    && (forall i | 0 <= i < |entries| :: digest(Hashed(entries[i])) != "")
    && (forall i, j | 0 <= i < |entries| && 0 <= j < |entries| && digest(Hashed(entries[i])) == digest(Hashed(entries[j])) ::
          Hashed(entries[i]) == Hashed(entries[j]))
  }

  /** The same in every field but the signature. */
  predicate SameButSignature(a: Entry, b: Entry) {
    a == b.(signature := a.signature)
  }

  ghost predicate Agree(a: seq<Entry>, b: seq<Entry>) {
    |a| == |b| && forall i | 0 <= i < |a| :: SameButSignature(a[i], b[i])
  }

  lemma EmptyHashMeansEmptyLog(digest: Digest, entries: seq<Entry>)
    requires ChainValid(digest, entries)
    requires forall i | 0 <= i < |entries| :: digest(Hashed(entries[i])) != ""
    ensures LastHash(entries) == "" <==> entries == []
  {
    if entries != [] {
      assert Sealed(digest, entries[|entries| - 1]);
    }
  }

  lemma EmptyLogsAgree(digest: Digest, a: seq<Entry>, b: seq<Entry>)
    requires ChainValid(digest, a) && ChainValid(digest, b)
    requires CollisionFree(digest, a + b)
    requires LastHash(a) == LastHash(b)
    ensures a == [] <==> b == []
  {
    assert forall i | 0 <= i < |a| :: a[i] == (a + b)[i];
    assert forall i | 0 <= i < |b| :: b[i] == (a + b)[|a| + i];
    EmptyHashMeansEmptyLog(digest, a);
    EmptyHashMeansEmptyLog(digest, b);
  }

  lemma AgreeSnoc(a: seq<Entry>, b: seq<Entry>)
    requires a != [] && b != [] && Agree(a[..|a| - 1], b[..|b| - 1])
    requires Hashed(a[|a| - 1]) == Hashed(b[|b| - 1]) && a[|a| - 1].hash == b[|b| - 1].hash
    ensures Agree(a, b)
  {
    assert forall i | 0 <= i < |a| - 1 :: a[i] == a[..|a| - 1][i] && b[i] == b[..|b| - 1][i];
  }

  /** The last hash binds the whole log: two valid logs that end in the same hash agree entry by entry on every field
      but the signature. */
  lemma {:induction false} LastHashBindsLog(digest: Digest, a: seq<Entry>, b: seq<Entry>)
    requires ChainValid(digest, a) && ChainValid(digest, b)
    requires CollisionFree(digest, a + b)
    requires LastHash(a) == LastHash(b)
    ensures Agree(a, b)
    decreases |a|
  {
    hide *;
    if a == [] || b == [] {
      EmptyLogsAgree(digest, a, b);
      AgreeReflexive(a);
    } else {
      SameHashSameFields(digest, a, b);
      CollisionFreeFronts(digest, a, b);
      LastHashBindsLog(digest, a[..|a| - 1], b[..|b| - 1]);
      AgreeSnoc(a, b);
    }
  }

  lemma AgreeReflexive(a: seq<Entry>)
    ensures Agree(a, a)
  {
  }

  lemma NoCollision(digest: Digest, entries: seq<Entry>, i: nat, j: nat)
    requires CollisionFree(digest, entries) && i < |entries| && j < |entries|
    requires digest(Hashed(entries[i])) == digest(Hashed(entries[j]))
    ensures Hashed(entries[i]) == Hashed(entries[j])
  {
  }

  lemma LastLink(digest: Digest, entries: seq<Entry>)
    requires entries != [] && ChainValid(digest, entries)
    ensures var e := entries[|entries| - 1];
      e.previousHash == LastHash(entries[..|entries| - 1]) && e.hash == digest(Hashed(e))
    ensures ChainValid(digest, entries[..|entries| - 1])
  {
    PrefixValid(digest, entries, |entries| - 1);
    assert Linked(entries, |entries| - 1) && Sealed(digest, entries[|entries| - 1]);
  }

  lemma SameHashSameFields(digest: Digest, a: seq<Entry>, b: seq<Entry>)
    requires a != [] && b != [] && ChainValid(digest, a) && ChainValid(digest, b)
    requires CollisionFree(digest, a + b) && LastHash(a) == LastHash(b)
    ensures Hashed(a[|a| - 1]) == Hashed(b[|b| - 1]) && a[|a| - 1].hash == b[|b| - 1].hash
    ensures LastHash(a[..|a| - 1]) == LastHash(b[..|b| - 1])
    ensures ChainValid(digest, a[..|a| - 1]) && ChainValid(digest, b[..|b| - 1])
  {
    hide CollisionFree, ChainValid;
    LastLink(digest, a);
    LastLink(digest, b);
    var m, n := |a| - 1, |b| - 1;
    assert (a + b)[m] == a[m] && (a + b)[|a| + n] == b[n];
    NoCollision(digest, a + b, m, |a| + n);
  }

  lemma CollisionFreeFronts(digest: Digest, a: seq<Entry>, b: seq<Entry>)
    requires a != [] && b != [] && CollisionFree(digest, a + b)
    ensures CollisionFree(digest, a[..|a| - 1] + b[..|b| - 1])
  {
    var all, fewer := a + b, a[..|a| - 1] + b[..|b| - 1];
    forall i | 0 <= i < |fewer| ensures exists k :: 0 <= k < |all| && all[k] == fewer[i] {
      assert fewer[i] == all[if i < |a| - 1 then i else i + 1];
    }
  }

  // Tampering

  /** An entry put in the place of another passes exactly when it is the same but for the signature, or when it is a sealed
      one in the last place, linked as that was. */
  lemma ReplacedEntryPassesIff(digest: Digest, entries: seq<Entry>, i: nat, e: Entry)
    requires ChainValid(digest, entries) && i < |entries|
    requires CollisionFree(digest, [entries[i], e])
    ensures ChainValid(digest, entries[i := e]) <==>
              || SameButSignature(e, entries[i])
              || (i == |entries| - 1 && e.previousHash == entries[i].previousHash && Sealed(digest, e))
  {
    hide Sealed, CollisionFree, Hashed;
    var all := entries[i := e];
    assert Linked(entries, i) && Sealed(digest, entries[i]);
    assert all[..i] == entries[..i];
    if ChainValid(digest, all) {
      assert Linked(all, i) && Sealed(digest, all[i]);
      if i + 1 < |entries| {
        assert Linked(all, i + 1) && Linked(entries, i + 1);
        assert e.hash == entries[i].hash;
        SameHashSameEntry(digest, entries[i], e);
      }
    } else if SameButSignature(e, entries[i]) {
      assert Sealed(digest, e) by {
        HashIgnoresSignature(digest, e, entries[i]);
      }
      ReplacementLinks(digest, entries, i, e);
    } else if i == |entries| - 1 && e.previousHash == entries[i].previousHash && Sealed(digest, e) {
      ReplacementLinks(digest, entries, i, e);
    }
  }

  lemma HashIgnoresSignature(digest: Digest, e: Entry, f: Entry)
    requires SameButSignature(e, f)
    ensures Sealed(digest, e) <==> Sealed(digest, f)
  {
  }

  lemma SameHashSameEntry(digest: Digest, a: Entry, b: Entry)
    requires Sealed(digest, a) && Sealed(digest, b) && a.hash == b.hash && CollisionFree(digest, [a, b])
    ensures SameButSignature(b, a)
  {
    assert [a, b][0] == a && [a, b][1] == b;
    NoCollision(digest, [a, b], 0, 1);
  }

  lemma ReplacementLinks(digest: Digest, entries: seq<Entry>, i: nat, e: Entry)
    requires ChainValid(digest, entries) && i < |entries| && Sealed(digest, e) && e.previousHash == entries[i].previousHash
    requires i < |entries| - 1 ==> e.hash == entries[i].hash
    ensures ChainValid(digest, entries[i := e])
  {
    hide Sealed;
    var all := entries[i := e];
    forall k | 0 <= k < |all| ensures Linked(all, k) && Sealed(digest, all[k]) {
      assert Linked(entries, k) && Sealed(digest, entries[k]);
    }
  }

  /** Changing any field of a validated entry but its signature, with the hash stored for it kept, is found. */
  method TamperingIsFound(digest: Digest, entries: seq<Entry>, i: nat, e: Entry) returns (r: Option<ChainError>)
    requires ChainValid(digest, entries) && i < |entries|
    requires CollisionFree(digest, [entries[i], e])
    requires e.hash == entries[i].hash && !SameButSignature(e, entries[i])
    ensures r == Some(ChainError(i, e.entryId, if e.previousHash == entries[i].previousHash then HashMismatch
                                               else if i == 0 then NotFirst else PreviousMismatch))
  {
    NotSealed(digest, entries[i], e);
    var all := entries[i := e];
    forall k | 0 <= k < i ensures Linked(all, k) && Sealed(digest, all[k]) {
      assert Linked(entries, k) && Sealed(digest, entries[k]);
      assert all[..k] == entries[..k];
    }
    assert Linked(entries, i);
    assert all[..i] == entries[..i];
    r := ValidateChainEntries(digest, all);
    BrokenFrom(digest, all, i);
  }

  lemma BrokenFrom(digest: Digest, entries: seq<Entry>, i: nat)
    requires i < |entries| && !Sealed(digest, entries[i])
    ensures !ChainValid(digest, entries) && forall n | i < n <= |entries| :: !ChainValid(digest, entries[..n])
  {
    forall n | i < n <= |entries| ensures !ChainValid(digest, entries[..n]) {
      assert entries[..n][i] == entries[i];
    }
  }

  lemma NotSealed(digest: Digest, a: Entry, e: Entry)
    requires Sealed(digest, a) && CollisionFree(digest, [a, e])
    requires e.hash == a.hash && !SameButSignature(e, a)
    ensures !Sealed(digest, e)
  {
    hide Sealed, CollisionFree;
    if Sealed(digest, e) {
      SameHashSameEntry(digest, a, e);
    }
  }

  // Writers: reading the last hash and appending are two separately locked steps

  /** A writer reads the last hash; a writer appends an entry built on the hash it read last. */
  datatype Event = ReadLast(writer: string) | Append(writer: string, draft: Entry)

  /** The read that a writer has not used yet. */
  function PendingRead(trace: seq<Event>, writer: string): (q: Option<nat>)
    ensures q.Some? ==> q.value < |trace| && trace[q.value] == ReadLast(writer)
  {
    if trace == [] then None
    else
      var n := |trace| - 1;
      if trace[n] == ReadLast(writer) then Some(n)
      else if trace[n].Append? && trace[n].writer == writer then None
      else PendingRead(trace[..n], writer)
  }

  /** Every append uses a read of its own. */
  predicate Legal(trace: seq<Event>) {
    forall p | 0 <= p < |trace| && trace[p].Append? :: PendingRead(trace[..p], trace[p].writer).Some?
  }

  function Built(digest: Digest, draft: Entry, previousHash: string): Entry {
    var linked := draft.(previousHash := previousHash);
    linked.(hash := digest(Hashed(linked)))
  }

  /** The log a trace leaves behind. */
  function LogOf(digest: Digest, trace: seq<Event>): seq<Entry>
    requires Legal(trace)
    decreases |trace|
  {
    if trace == [] then []
    else
      var n := |trace| - 1;
      LegalPrefix(trace, n);
      if trace[n].ReadLast? then LogOf(digest, trace[..n])
      else
        var q := PendingRead(trace[..n], trace[n].writer).value;
        LegalPrefix(trace, q);
        LogOf(digest, trace[..n]) + [Built(digest, trace[n].draft, LastHash(LogOf(digest, trace[..q])))]
  }

  lemma LegalPrefix(trace: seq<Event>, n: nat)
    requires Legal(trace) && n <= |trace|
    ensures Legal(trace[..n])
  {
    forall p | 0 <= p < n && trace[..n][p].Append? ensures PendingRead(trace[..n][..p], trace[..n][p].writer).Some? {
      assert trace[..n][..p] == trace[..p];
      assert trace[p] == trace[..n][p];
    }
  }

  /** No append falls between the append at p and the read it uses. */
  predicate Undisturbed(trace: seq<Event>, p: nat)
    requires Legal(trace) && p < |trace|
  {
    trace[p].Append? ==>
      forall r | PendingRead(trace[..p], trace[p].writer).value < r < p :: trace[r].ReadLast?
  }

  ghost predicate NoInterleaving(trace: seq<Event>)
    requires Legal(trace)
  {
    forall p | 0 <= p < |trace| :: Undisturbed(trace, p)
  }

  /** One event adds nothing, or one entry built on the hash its writer read. */
  lemma LogStep(digest: Digest, trace: seq<Event>)
    requires Legal(trace) && trace != []
    ensures var n := |trace| - 1;
      && Legal(trace[..n])
      && (trace[n].ReadLast? ==> LogOf(digest, trace) == LogOf(digest, trace[..n]))
      && (trace[n].Append? ==>
            var q := PendingRead(trace[..n], trace[n].writer).value;
            && Legal(trace[..q])
            && LogOf(digest, trace)
               == LogOf(digest, trace[..n]) + [Built(digest, trace[n].draft, LastHash(LogOf(digest, trace[..q])))])
  {
    LegalPrefix(trace, |trace| - 1);
    if trace[|trace| - 1].Append? {
      LegalPrefix(trace, PendingRead(trace[..|trace| - 1], trace[|trace| - 1].writer).value);
    }
  }

  /** The log only grows, and grows exactly at appends. */
  lemma {:induction false} LogGrows(digest: Digest, trace: seq<Event>, q: nat)
    requires Legal(trace) && q <= |trace|
    ensures Legal(trace[..q])
    ensures LogOf(digest, trace[..q]) <= LogOf(digest, trace)
    ensures |LogOf(digest, trace[..q])| == |LogOf(digest, trace)| <==> forall r | q <= r < |trace| :: trace[r].ReadLast?
    decreases |trace|
  {
    hide LogOf, Built, LastHash, PendingRead;
    LegalPrefix(trace, q);
    if q == |trace| {
      assert trace[..q] == trace;
    } else {
      var n := |trace| - 1;
      LogStep(digest, trace);
      assert trace[..n][..q] == trace[..q];
      LogGrows(digest, trace[..n], q);
      assert forall r | q <= r < n :: trace[..n][r] == trace[r];
    }
  }

  ghost predicate UniqueIds(entries: seq<Entry>) {
    forall i, j | 0 <= i < j < |entries| :: entries[i].entryId != entries[j].entryId
  }

  lemma ChainSnoc(digest: Digest, log: seq<Entry>, e: Entry)
    ensures ChainValid(digest, log + [e]) <==> ChainValid(digest, log) && e.previousHash == LastHash(log) && Sealed(digest, e)
  {
    var all := log + [e];
    assert all[..|log|] == log;
    if ChainValid(digest, all) {
      PrefixValid(digest, all, |log|);
      assert Linked(all, |log|) && Sealed(digest, all[|log|]);
    }
    if ChainValid(digest, log) && e.previousHash == LastHash(log) && Sealed(digest, e) {
      forall i | 0 <= i < |all| ensures Linked(all, i) && Sealed(digest, all[i]) {
        if i < |log| {
          assert all[..i] == log[..i];
          assert Linked(log, i) && Sealed(digest, log[i]);
        }
      }
    }
  }

  /** A proper prefix of a log of built entries never ends in the same hash as the log. */
  lemma PrefixHashDiffers(digest: Digest, shorter: seq<Entry>, log: seq<Entry>)
    requires shorter <= log && |shorter| < |log|
    requires CollisionFree(digest, log) && UniqueIds(log)
    requires forall i | 0 <= i < |log| :: Sealed(digest, log[i])
    ensures LastHash(shorter) != LastHash(log)
  {
    var n := |log| - 1;
    assert Sealed(digest, log[n]);
    if shorter != [] {
      var k := |shorter| - 1;
      assert shorter[k] == log[k] && Sealed(digest, log[k]);
      assert Hashed(log[k]).entryId != Hashed(log[n]).entryId;
    }
  }

  lemma {:induction false} BuiltEntriesSealed(digest: Digest, trace: seq<Event>)
    requires Legal(trace)
    ensures forall i | 0 <= i < |LogOf(digest, trace)| :: Sealed(digest, LogOf(digest, trace)[i])
    decreases |trace|
  {
    if trace != [] {
      LegalPrefix(trace, |trace| - 1);
      BuiltEntriesSealed(digest, trace[..|trace| - 1]);
    }
  }

  lemma NoInterleavingSnoc(trace: seq<Event>)
    requires Legal(trace) && trace != []
    ensures var n := |trace| - 1;
      Legal(trace[..n]) && (NoInterleaving(trace) <==> NoInterleaving(trace[..n]) && Undisturbed(trace, n))
  {
    var n := |trace| - 1;
    LegalPrefix(trace, n);
    forall p | 0 <= p < n ensures Undisturbed(trace[..n], p) <==> Undisturbed(trace, p) {
      assert trace[..n][..p] == trace[..p];
      assert forall r | 0 <= r < p :: trace[..n][r] == trace[r];
    }
  }

  lemma PrefixesCollisionFree(digest: Digest, log: seq<Entry>, n: nat)
    requires n <= |log| && CollisionFree(digest, log) && UniqueIds(log)
    ensures CollisionFree(digest, log[..n]) && UniqueIds(log[..n])
  {
    assert forall i | 0 <= i < n :: log[..n][i] == log[i];
  }

  /** Whatever the interleaving of writers, validation accepts the log exactly when no append fell between the read of
      the last hash that an entry was built on and that entry's own append. */
  lemma {:induction false} InterleavingDecidesValidity(digest: Digest, trace: seq<Event>)
    requires Legal(trace)
    requires CollisionFree(digest, LogOf(digest, trace)) && UniqueIds(LogOf(digest, trace))
    ensures ChainValid(digest, LogOf(digest, trace)) <==> NoInterleaving(trace)
    decreases |trace|
  {
    hide *;
    if trace == [] {
      EmptyTrace(digest, trace);
    } else {
      var front := trace[..|trace| - 1];
      NoInterleavingSnoc(trace);
      LastEventDecides(digest, trace);
      InterleavingDecidesValidity(digest, front);
    }
  }

  lemma EmptyTrace(digest: Digest, trace: seq<Event>)
    requires Legal(trace) && trace == []
    ensures ChainValid(digest, LogOf(digest, trace)) && NoInterleaving(trace)
  {
  }

  /** The last event leaves the chain valid exactly when it is a read or an undisturbed append. */
  lemma LastEventDecides(digest: Digest, trace: seq<Event>)
    requires Legal(trace) && trace != []
    requires CollisionFree(digest, LogOf(digest, trace)) && UniqueIds(LogOf(digest, trace))
    ensures var n := |trace| - 1;
      && Legal(trace[..n])
      && CollisionFree(digest, LogOf(digest, trace[..n])) && UniqueIds(LogOf(digest, trace[..n]))
      && (ChainValid(digest, LogOf(digest, trace))
          <==> ChainValid(digest, LogOf(digest, trace[..n])) && Undisturbed(trace, n))
  {
    hide LogOf, ChainValid, CollisionFree, UniqueIds, Hashed, LastHash, PendingRead;
    var n := |trace| - 1;
    var front := trace[..n];
    LogStep(digest, trace);
    if trace[n].Append? {
      var log := LogOf(digest, front);
      assert LogOf(digest, trace)[..|log|] == log;
      PrefixesCollisionFree(digest, LogOf(digest, trace), |log|);
      var q := PendingRead(front, trace[n].writer).value;
      assert front[..q] == trace[..q];
      LinkHoldsWhenUndisturbed(digest, front, q);
      var read := LastHash(LogOf(digest, trace[..q]));
      ChainSnoc(digest, log, Built(digest, trace[n].draft, read));
      BuiltIsSealed(digest, trace[n].draft, read);
      assert forall r | q < r < n :: front[r] == trace[r];
    }
  }

  /** A built entry is linked to the hash given, carries its own, and is the draft in every other field. */
  lemma BuiltIsSealed(digest: Digest, draft: Entry, previousHash: string)
    ensures var e := Built(digest, draft, previousHash);
      Sealed(digest, e) && e.previousHash == previousHash && draft == e.(previousHash := draft.previousHash, hash := draft.hash)
  {
  }

  /** The hash read at q is still the last hash at the end exactly when nothing was appended since. */
  lemma LinkHoldsWhenUndisturbed(digest: Digest, trace: seq<Event>, q: nat)
    requires Legal(trace) && q < |trace| && trace[q].ReadLast?
    requires CollisionFree(digest, LogOf(digest, trace)) && UniqueIds(LogOf(digest, trace))
    ensures Legal(trace[..q])
    ensures LastHash(LogOf(digest, trace[..q])) == LastHash(LogOf(digest, trace)) <==> forall r | q < r < |trace| :: trace[r].ReadLast?
  {
    hide LogOf, CollisionFree, UniqueIds;
    BuiltEntriesSealed(digest, trace);
    LogGrows(digest, trace, q);
    var seen, log := LogOf(digest, trace[..q]), LogOf(digest, trace);
    if |seen| < |log| {
      PrefixHashDiffers(digest, seen, log);
    }
  }

  /** The smallest run that breaks the chain: two writers read the same last hash and then both append. */
  lemma InterruptedWriterBreaksChain(digest: Digest, a: Entry, b: Entry)
    requires a.entryId != b.entryId
    requires CollisionFree(digest, [Built(digest, a, ""), Built(digest, b, "")])
    ensures var trace := [ReadLast("x"), ReadLast("y"), Append("x", a), Append("y", b)];
      Legal(trace) && !ChainValid(digest, LogOf(digest, trace))
  {
    var trace := [ReadLast("x"), ReadLast("y"), Append("x", a), Append("y", b)];
    assert trace[..0] == [] && trace[..1] == [ReadLast("x")] && trace[..2] == [ReadLast("x"), ReadLast("y")];
    assert trace[..2][..1] == trace[..1] && trace[..3][..2] == trace[..2] && trace[..3][..1] == trace[..1];
    assert trace[..1][..0] == [];
    assert PendingRead(trace[..2], "y") == Some(1) && PendingRead(trace[..2], "x") == Some(0);
    assert PendingRead(trace[..3], "y") == Some(1);
    forall p | 0 <= p < 4 && trace[p].Append? ensures PendingRead(trace[..p], trace[p].writer).Some? {
    }
    LegalPrefix(trace, 3);
    LegalPrefix(trace, 2);
    LegalPrefix(trace, 1);
    LegalPrefix(trace, 0);
    assert LogOf(digest, trace[..0]) == [];
    assert LogOf(digest, trace[..1]) == [];
    assert LogOf(digest, trace[..2]) == [];
    assert LogOf(digest, trace[..3]) == [Built(digest, a, "")];
    var log := LogOf(digest, trace);
    assert log == [Built(digest, a, ""), Built(digest, b, "")];
    assert log[..1] == [Built(digest, a, "")];
    assert !Linked(log, 1);
  }
}
