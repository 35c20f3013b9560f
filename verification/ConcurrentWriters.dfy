/** Any number of services on one store: reading the last hash and appending are two steps, others come in between, reads
    fail, and appends are cut short (internal/lifecycle/service.go, pkg/evidence/entry_store.go). */
module ConcurrentWriters {
  import opened Wrappers
  import opened Evidence
  import opened Lifecycle
  import HashChain

  type Digest = HashChain.Digest

  /** A writer reads the hash in the manifest, or fails to and goes on without; it appends an entry built on what it has. */
  datatype Event = Reads(writer: string) | Misses(writer: string) | Puts(writer: string, draft: Entry, fate: Fate)

  /** The disk, and the hash each writer has and has not used. */
  datatype State = State(disk: Disk, seen: map<string, string>)

  function Act(digest: Digest, s: State, e: Event): State {
    match e
    case Reads(w) => s.(seen := s.seen[w := ManifestHash(s.disk)])
    case Misses(w) => s.(seen := s.seen[w := ""])
    case Puts(w, draft, fate) =>
      if w !in s.seen then s
      else State(Placed(s.disk, HashChain.Built(digest, draft, s.seen[w]), fate), s.seen - {w})
  }

  function Run(digest: Digest, trace: seq<Event>): State {
    if trace == [] then State(EMPTY_DISK, map[]) else Act(digest, Run(digest, trace[..|trace| - 1]), trace[|trace| - 1])
  }

  // What the trace alone tells

  /** Where the writer got the hash that it has not used yet. */
  function Basis(trace: seq<Event>, writer: string): (q: Option<nat>)
    ensures q.Some? ==> q.value < |trace| && !trace[q.value].Puts? && trace[q.value].writer == writer
  {
    if trace == [] then None
    else
      var n := |trace| - 1;
      if trace[n].writer != writer then Basis(trace[..n], writer)
      else if trace[n].Puts? then None
      else Some(n)
  }

  /** The event puts a line on disk. */
  predicate PutsLine(trace: seq<Event>, p: nat)
    requires p < |trace|
  {
    trace[p].Puts? && trace[p].fate != Unwritten && Basis(trace[..p], trace[p].writer).Some?
  }

  predicate NoLines(trace: seq<Event>, from: nat, to: nat)
    requires to <= |trace|
  {
    forall r :: from <= r < to ==> !PutsLine(trace, r)
  }

  /** The latest line before the event, if there is one, was counted. */
  predicate CountedUpTo(trace: seq<Event>, n: nat)
    requires n <= |trace|
  {
    n == 0 || if PutsLine(trace, n - 1) then trace[n - 1].fate == Counted else CountedUpTo(trace, n - 1)
  }

  /** No line comes between a line and what it is built on: not since its writer read the hash, and, if the read failed, not
      before either; and what was the latest line when the hash was read had been counted. */
  predicate Undisturbed(trace: seq<Event>, p: nat)
    requires p < |trace|
  {
    PutsLine(trace, p) ==>
      var q := Basis(trace[..p], trace[p].writer).value;
      NoLines(trace, q, p) && if trace[q].Reads? then CountedUpTo(trace, q) else NoLines(trace, 0, q)
  }

  predicate NoneDisturbed(trace: seq<Event>) {
    forall p :: 0 <= p < |trace| ==> Undisturbed(trace, p)
  }

  // Prefixes

  lemma {:induction false} SamePrefix(trace: seq<Event>, n: nat, m: nat)
    requires m <= n <= |trace|
    ensures trace[..n][..m] == trace[..m]
    ensures forall r :: 0 <= r < m ==> PutsLine(trace[..n], r) == PutsLine(trace, r)
    ensures CountedUpTo(trace[..n], m) == CountedUpTo(trace, m)
    decreases m
  {
    hide Basis;
    forall r | 0 <= r < m ensures PutsLine(trace[..n], r) == PutsLine(trace, r) {
      assert trace[..n][..r] == trace[..r];
    }
    if m > 0 {
      SamePrefix(trace, n, m - 1);
    }
  }

  lemma NoneDisturbedSnoc(trace: seq<Event>)
    requires trace != []
    ensures var n := |trace| - 1; NoneDisturbed(trace) <==> NoneDisturbed(trace[..n]) && Undisturbed(trace, n)
  {
    hide Basis, CountedUpTo;
    var n := |trace| - 1;
    forall p | 0 <= p < n ensures Undisturbed(trace[..n], p) <==> Undisturbed(trace, p) {
      SamePrefix(trace, n, n);
      assert trace[..n][..p] == trace[..p] && trace[..n][p] == trace[p];
      if Basis(trace[..p], trace[p].writer).Some? {
        var q := Basis(trace[..p], trace[p].writer).value;
        SamePrefix(trace, n, q);
        assert trace[..n][q] == trace[q];
        assert NoLines(trace[..n], q, p) <==> NoLines(trace, q, p);
        assert NoLines(trace[..n], 0, q) <==> NoLines(trace, 0, q);
      }
    }
  }

  // What the states have to do with the trace

  /** A writer has a hash exactly when it has a basis, and it is the hash that was in the manifest there. */
  lemma {:induction false} SeenAtBasis(digest: Digest, trace: seq<Event>, writer: string)
    ensures var s := Run(digest, trace); var q := Basis(trace, writer);
            && (writer in s.seen <==> q.Some?)
            && (q.Some? ==> s.seen[writer] == if trace[q.value].Reads? then ManifestHash(Run(digest, trace[..q.value]).disk) else "")
  {
    hide ManifestHash, HashChain.Built, Placed;
    if trace != [] {
      var n := |trace| - 1;
      SeenAtBasis(digest, trace[..n], writer);
      var q := Basis(trace[..n], writer);
      if q.Some? {
        assert trace[..n][..q.value] == trace[..q.value];
      }
    }
  }

  /** The line an event adds. */
  function LineOf(digest: Digest, trace: seq<Event>): Entry
    requires trace != [] && PutsLine(trace, |trace| - 1)
  {
    var n := |trace| - 1;
    var q := Basis(trace[..n], trace[n].writer).value;
    HashChain.Built(digest, trace[n].draft, if trace[q].Reads? then ManifestHash(Run(digest, trace[..q]).disk) else "")
  }

  lemma LastEvent(digest: Digest, trace: seq<Event>)
    requires trace != []
    ensures var n := |trace| - 1; var before, after := Run(digest, trace[..n]).disk, Run(digest, trace).disk;
            && after.log == (if PutsLine(trace, n) then before.log + [LineOf(digest, trace)] else before.log)
            && after.counted == if PutsLine(trace, n) && trace[n].fate == Counted then |after.log| else before.counted
  {
    hide ManifestHash, HashChain.Built;
    var n := |trace| - 1;
    if trace[n].Puts? {
      SeenAtBasis(digest, trace[..n], trace[n].writer);
      var q := Basis(trace[..n], trace[n].writer);
      if q.Some? {
        assert trace[..n][..q.value] == trace[..q.value];
      }
    }
  }

  /** The log only grows, and grows exactly at lines. */
  lemma {:induction false} LogGrows(digest: Digest, trace: seq<Event>, q: nat)
    requires q <= |trace|
    ensures Run(digest, trace[..q]).disk.log <= Run(digest, trace).disk.log
    ensures |Run(digest, trace[..q]).disk.log| == |Run(digest, trace).disk.log| <==> NoLines(trace, q, |trace|)
    decreases |trace|
  {
    hide Run, LineOf, PutsLine;
    if q == |trace| {
      assert trace[..q] == trace;
    } else {
      var n := |trace| - 1;
      LastEvent(digest, trace);
      assert trace[..n][..q] == trace[..q];
      LogGrows(digest, trace[..n], q);
      SamePrefix(trace, n, n);
    }
  }

  lemma {:induction false} CountedExactly(digest: Digest, trace: seq<Event>)
    ensures var disk := Run(digest, trace).disk; disk.counted == |disk.log| <==> CountedUpTo(trace, |trace|)
  {
    if trace != [] {
      hide Run, LineOf, PutsLine;
      var n := |trace| - 1;
      LastEvent(digest, trace);
      CountedExactly(digest, trace[..n]);
      SamePrefix(trace, n, n);
    }
  }

  lemma {:induction false} LinesSealed(digest: Digest, trace: seq<Event>)
    ensures AllSealed(digest, Run(digest, trace).disk.log)
  {
    hide HashChain.Sealed, HashChain.Built, ManifestHash, PutsLine, Basis;
    if trace != [] {
      var n := |trace| - 1;
      LinesSealed(digest, trace[..n]);
      LastEvent(digest, trace);
      hide Run;
      if PutsLine(trace, n) {
        LineSealed(digest, trace);
      }
    }
  }

  lemma LineSealed(digest: Digest, trace: seq<Event>)
    requires trace != [] && PutsLine(trace, |trace| - 1)
    ensures HashChain.Sealed(digest, LineOf(digest, trace))
  {
    hide HashChain.Sealed, HashChain.Built, ManifestHash, Run;
    var n := |trace| - 1;
    var q := Basis(trace[..n], trace[n].writer).value;
    HashChain.BuiltIsSealed(digest, trace[n].draft, if trace[q].Reads? then ManifestHash(Run(digest, trace[..q]).disk) else "");
  }

  // The theorem

  /** What an event at q made of the hash is the last hash now exactly when nothing was put down since, and either the hash was
      read with all lines counted or there were no lines. */
  lemma HashStillLast(digest: Digest, trace: seq<Event>, q: nat)
    requires q < |trace|
    requires HashChain.CollisionFree(digest, Run(digest, trace).disk.log) && HashChain.UniqueIds(Run(digest, trace).disk.log)
    ensures var hash := if trace[q].Reads? then ManifestHash(Run(digest, trace[..q]).disk) else "";
            hash == HashChain.LastHash(Run(digest, trace).disk.log)
            <==> NoLines(trace, q, |trace|) && if trace[q].Reads? then CountedUpTo(trace, q) else NoLines(trace, 0, q)
  {
    hide Run, HashChain.CollisionFree, HashChain.UniqueIds, PutsLine, AllSealed;
    var then_, log := Run(digest, trace[..q]).disk, Run(digest, trace).disk.log;
    LogGrows(digest, trace, q);
    LogGrows(digest, trace, 0);
    CountedExactly(digest, trace[..q]);
    SamePrefix(trace, q, q);
    LinesSealed(digest, trace);
    assert trace[..0] == [];
    EmptyRun(digest);
    var covered := if trace[q].Reads? then then_.log[..then_.counted] else [];
    PrefixIsLast(digest, covered, log);
  }

  lemma EmptyRun(digest: Digest)
    ensures Run(digest, []).disk == EMPTY_DISK && HashChain.LastHash([]) == ""
  {
  }

  lemma PrefixIsLast(digest: Digest, covered: seq<Entry>, log: seq<Entry>)
    requires covered <= log && AllSealed(digest, log)
    requires HashChain.CollisionFree(digest, log) && HashChain.UniqueIds(log)
    ensures HashChain.LastHash(covered) == HashChain.LastHash(log) <==> |covered| == |log|
  {
    hide HashChain.CollisionFree, HashChain.UniqueIds;
    if |covered| == |log| {
      assert covered == log;
    } else {
      HashChain.PrefixHashDiffers(digest, covered, log);
    }
  }

  lemma LineDecides(digest: Digest, trace: seq<Event>)
    requires trace != [] && PutsLine(trace, |trace| - 1)
    requires var log := Run(digest, trace[..|trace| - 1]).disk.log; HashChain.CollisionFree(digest, log) && HashChain.UniqueIds(log)
    ensures var n := |trace| - 1;
            LineOf(digest, trace).previousHash == HashChain.LastHash(Run(digest, trace[..n]).disk.log) <==> Undisturbed(trace, n)
  {
    hide Run, HashChain.CollisionFree, HashChain.UniqueIds, HashChain.Built, HashChain.LastHash, HashChain.Sealed, ManifestHash, CountedUpTo;
    var n := |trace| - 1;
    var q := Basis(trace[..n], trace[n].writer).value;
    assert trace[..n][..q] == trace[..q] && trace[..n][q] == trace[q];
    HashStillLast(digest, trace[..n], q);
    SamePrefix(trace, n, n);
    SamePrefix(trace, n, q);
    assert NoLines(trace[..n], q, n) <==> NoLines(trace, q, n);
    assert NoLines(trace[..n], 0, q) <==> NoLines(trace, 0, q);
    HashChain.BuiltIsSealed(digest, trace[n].draft, if trace[q].Reads? then ManifestHash(Run(digest, trace[..q]).disk) else "");
  }

  lemma LastEventDecides(digest: Digest, trace: seq<Event>)
    requires trace != []
    requires HashChain.CollisionFree(digest, Run(digest, trace).disk.log) && HashChain.UniqueIds(Run(digest, trace).disk.log)
    ensures var n := |trace| - 1; var log := Run(digest, trace[..n]).disk.log;
            && HashChain.CollisionFree(digest, log) && HashChain.UniqueIds(log)
            && (HashChain.ChainValid(digest, Run(digest, trace).disk.log) <==> HashChain.ChainValid(digest, log) && Undisturbed(trace, n))
  {
    hide Run, HashChain.ChainValid, HashChain.CollisionFree, HashChain.UniqueIds, HashChain.LastHash, HashChain.Sealed, LineOf,
      PutsLine;
    var n := |trace| - 1;
    var log := Run(digest, trace[..n]).disk.log;
    LastEvent(digest, trace);
    assert Run(digest, trace).disk.log[..|log|] == log;
    HashChain.PrefixesCollisionFree(digest, Run(digest, trace).disk.log, |log|);
    if PutsLine(trace, n) {
      LineDecides(digest, trace);
      LineSealed(digest, trace);
      HashChain.ChainSnoc(digest, log, LineOf(digest, trace));
    }
  }

  /** Whatever the interleaving of writers, whichever reads fail and wherever appends are cut short, the chain is valid if and
      only if every line was put down undisturbed. */
  lemma {:induction false} ChainHoldsIffNoneDisturbed(digest: Digest, trace: seq<Event>)
    requires HashChain.CollisionFree(digest, Run(digest, trace).disk.log) && HashChain.UniqueIds(Run(digest, trace).disk.log)
    ensures HashChain.ChainValid(digest, Run(digest, trace).disk.log) <==> NoneDisturbed(trace)
  {
    if trace == [] {
    } else {
      hide *;
      NoneDisturbedSnoc(trace);
      LastEventDecides(digest, trace);
      ChainHoldsIffNoneDisturbed(digest, trace[..|trace| - 1]);
    }
  }

  // The two special cases

  /** One writer at a time: the events of a write that gets as far as it does. */
  function EventsOf(w: Write): seq<Event> {
    var read := if HashRead in w.draft.faults then Misses("") else Reads("");
    if HashRead in w.draft.faults && !w.advisory then []
    else if Build in w.draft.faults then [read]
    else [read, Puts("", w.draft.entry, w.draft.fate)]
  }

  function Serial(ws: seq<Write>): seq<Event> {
    if ws == [] then [] else Serial(ws[..|ws| - 1]) + EventsOf(ws[|ws| - 1])
  }

  lemma RunOn(digest: Digest, trace: seq<Event>, a: Event, b: Event)
    ensures Run(digest, trace + [a]) == Act(digest, Run(digest, trace), a)
    ensures Run(digest, trace + [a, b]) == Act(digest, Act(digest, Run(digest, trace), a), b)
  {
    hide Act;
    assert (trace + [a])[..|trace|] == trace;
    assert (trace + [a, b])[..|trace| + 1] == trace + [a];
  }

  lemma WriteRuns(digest: Digest, trace: seq<Event>, w: Write)
    ensures Run(digest, trace + EventsOf(w)).disk == Written(digest, Run(digest, trace).disk, w.draft, w.advisory).0
  {
    hide Run, ManifestHash, HashChain.Built, Placed;
    var read := if HashRead in w.draft.faults then Misses("") else Reads("");
    RunOn(digest, trace, read, Puts("", w.draft.entry, w.draft.fate));
    assert trace + [] == trace;
  }

  /** The writes of serial calls are such a run. */
  lemma {:induction false} SerialWrites(digest: Digest, ws: seq<Write>)
    ensures Run(digest, Serial(ws)).disk == Replay(digest, EMPTY_DISK, ws)
  {
    if ws != [] {
      hide Run, EventsOf, Written;
      SerialWrites(digest, ws[..|ws| - 1]);
      WriteRuns(digest, Serial(ws[..|ws| - 1]), ws[|ws| - 1]);
    }
  }

  /** Writers whose reads succeed and whose appends complete. */
  function Complete(trace: seq<HashChain.Event>): (r: seq<Event>)
    ensures |r| == |trace|
  {
    seq(|trace|, (i: nat) requires i < |trace| =>
      match trace[i]
      case ReadLast(w) => Reads(w)
      case Append(w, draft) => Puts(w, draft, Counted))
  }

  lemma CompletePrefix(trace: seq<HashChain.Event>, n: nat)
    requires n <= |trace|
    ensures Complete(trace)[..n] == Complete(trace[..n])
  {
  }

  lemma {:induction false} PendingIsBasis(trace: seq<HashChain.Event>, writer: string)
    ensures Basis(Complete(trace), writer) == HashChain.PendingRead(trace, writer)
  {
    if trace != [] {
      CompletePrefix(trace, |trace| - 1);
      PendingIsBasis(trace[..|trace| - 1], writer);
    }
  }

  /** Interleaved writers whose appends complete are such a run, too. */
  lemma {:induction false} CompleteAppends(digest: Digest, trace: seq<HashChain.Event>)
    requires HashChain.Legal(trace)
    ensures SameLog(digest, trace)
    decreases |trace|
  {
    hide HashChain.LogOf, HashChain.Built, Run, Complete, LineOf;
    if trace == [] {
      NothingRun(digest);
    } else {
      var n := |trace| - 1;
      HashChain.LogStep(digest, trace);
      CompletePrefix(trace, n);
      CompleteEvent(trace, n);
      LastEvent(digest, Complete(trace));
      CompleteAppends(digest, trace[..n]);
      PendingIsBasis(trace[..n], trace[n].writer);
      if trace[n].Append? {
        var q := HashChain.PendingRead(trace[..n], trace[n].writer).value;
        CompleteAppends(digest, trace[..q]);
        CompleteLine(digest, trace, q);
      }
    }
  }

  ghost predicate SameLog(digest: Digest, trace: seq<HashChain.Event>)
    requires HashChain.Legal(trace)
  {
    var disk := Run(digest, Complete(trace)).disk;
    disk.log == HashChain.LogOf(digest, trace) && disk.counted == |disk.log|
  }

  lemma CompleteLine(digest: Digest, trace: seq<HashChain.Event>, q: nat)
    requires trace != [] && trace[|trace| - 1].Append?
    requires HashChain.PendingRead(trace[..|trace| - 1], trace[|trace| - 1].writer) == Some(q)
    requires HashChain.Legal(trace[..q]) && SameLog(digest, trace[..q])
    ensures PutsLine(Complete(trace), |trace| - 1)
    ensures LineOf(digest, Complete(trace))
         == HashChain.Built(digest, trace[|trace| - 1].draft, HashChain.LastHash(HashChain.LogOf(digest, trace[..q])))
  {
    hide HashChain.LogOf, HashChain.Built, Run, Complete, HashChain.LastHash;
    var n := |trace| - 1;
    CompletePrefix(trace, n);
    CompletePrefix(trace, q);
    CompleteEvent(trace, n);
    CompleteEvent(trace, q);
    PendingIsBasis(trace[..n], trace[n].writer);
    assert trace[..n][q] == trace[q];
    var before := Run(digest, Complete(trace[..q])).disk;
    assert before.log[..before.counted] == before.log;
  }

  lemma NothingRun(digest: Digest)
    ensures Run(digest, Complete([])).disk == EMPTY_DISK && HashChain.Legal([]) && HashChain.LogOf(digest, []) == []
  {
  }

  lemma CompleteEvent(trace: seq<HashChain.Event>, n: nat)
    requires n < |trace|
    ensures Complete(trace)[n] == match trace[n] case ReadLast(w) => Reads(w) case Append(w, draft) => Puts(w, draft, Counted)
  {
  }
}
