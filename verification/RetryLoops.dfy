/** Retry loop detection: chains of repeated attempts after a failure (internal/signal/retry_loop.go). */
module RetryLoops {
  import opened Wrappers
  import opened Signals
  import opened TimeOrder
  import opened Text

  const DEFAULT_THRESHOLD := 3
  const DEFAULT_VARIANT_THRESHOLD := 5
  const DEFAULT_WINDOW := 30 * 60 * 1_000_000_000

  type ExitCodes = map<string, Option<int>>

  /** The exit code last reported for each prescription. */
  function ReportedCodes(entries: seq<SignalEntry>): ExitCodes {
    if entries == [] then map[]
    else
      var before, e := ReportedCodes(entries[..|entries| - 1]), entries[|entries| - 1];
      if e.isReport && e.prescriptionId != "" then before[e.prescriptionId := e.exitCode] else before
  }

  predicate Failed(codes: ExitCodes, e: SignalEntry) {
    e.eventId in codes && codes[e.eventId].Some? && codes[e.eventId].value != 0
  }

  predicate Succeeded(codes: ExitCodes, e: SignalEntry) {
    e.eventId in codes && codes[e.eventId].Some? && codes[e.eventId].value == 0
  }

  /** A group in order of time, with what was reported and the window: what the scan works on. */
  datatype Group = Group(codes: ExitCodes, window: int, entries: seq<SignalEntry>) {
    predicate FailedAt(i: nat)
      requires i < |entries|
    {
      Failed(codes, entries[i])
    }

    /** A chain that starts at `first` cannot take in entry i. */
    predicate Ends(first: nat, i: nat)
      requires first < i < |entries|
    {
      entries[i].timestamp - entries[first].timestamp > window || Succeeded(codes, entries[i])
    }
  }

  /** The entries first..end of a group. */
  datatype Chain = Chain(first: nat, end: nat)

  /** The first failure at or after i, or the end of the group. */
  function FirstFailure(g: Group, i: nat): (f: nat)
    requires i <= |g.entries|
    ensures i <= f <= |g.entries|
    ensures forall k | i <= k < f :: !g.FailedAt(k)
    ensures f < |g.entries| ==> g.FailedAt(f)
    decreases |g.entries| - i
  {
    if i == |g.entries| || g.FailedAt(i) then i else FirstFailure(g, i + 1)
  }

  /** Where a chain that starts at `first` and has reached i stops. */
  function ChainEnd(g: Group, first: nat, i: nat): (end: nat)
    requires first < i <= |g.entries|
    ensures i <= end <= |g.entries|
    ensures forall k | i <= k < end :: !g.Ends(first, k)
    ensures end < |g.entries| ==> g.Ends(first, end)
    decreases |g.entries| - i
  {
    if i == |g.entries| || g.Ends(first, i) then i else ChainEnd(g, first, i + 1)
  }

  /** The greedy chains from i on. */
  function Chains(g: Group, i: nat): seq<Chain>
    requires i <= |g.entries|
    decreases |g.entries| - i
  {
    var f := FirstFailure(g, i);
    if f == |g.entries| then [] else
      var end := ChainEnd(g, f, f + 1);
      [Chain(f, end)] + Chains(g, end)
  }

  /** What makes a run of entries a maximal chain: it starts at a failure, holds no success, spans at most the window,
      and could not have gone on. */
  ghost predicate MaximalChain(g: Group, c: Chain) {
    && c.first < c.end <= |g.entries|
    && g.FailedAt(c.first)
    && (forall k | c.first < k < c.end :: !g.Ends(c.first, k))
    && (c.end < |g.entries| ==> g.Ends(c.first, c.end))
  }

  /** Maximal chains one after the other from i on, with no failure left between or after them. */
  ghost predicate Decomposition(g: Group, i: nat, cs: seq<Chain>)
    requires i <= |g.entries|
    decreases |cs|
  {
    if cs == [] then forall k | i <= k < |g.entries| :: !g.FailedAt(k)
    else
      && i <= cs[0].first
      && MaximalChain(g, cs[0])
      && (forall k | i <= k < cs[0].first :: !g.FailedAt(k))
      && Decomposition(g, cs[0].end, cs[1..])
  }

  /** The greedy chains are the decomposition of the group, and the only one. */
  lemma {:induction false} ChainsDecompose(g: Group, i: nat, cs: seq<Chain>)
    requires i <= |g.entries|
    ensures Decomposition(g, i, cs) <==> cs == Chains(g, i)
    decreases |g.entries| - i
  {
    var f := FirstFailure(g, i);
    if f == |g.entries| {
      NoFailureNoChain(g, i, cs);
    } else {
      var end := ChainEnd(g, f, f + 1);
      var rest := Chains(g, end);
      assert Chains(g, i) == [Chain(f, end)] + rest;
      if cs != [] {
        ChainsDecompose(g, end, cs[1..]);
        assert cs == [cs[0]] + cs[1..];
        assert MaximalChain(g, Chain(f, end));
        if Decomposition(g, i, cs) {
          assert cs[0].first == f;
          SameEnd(g, cs[0], Chain(f, end));
        }
      } else {
        assert g.FailedAt(f);
      }
    }
  }

  lemma NoFailureNoChain(g: Group, i: nat, cs: seq<Chain>)
    requires i <= |g.entries| && forall k | i <= k < |g.entries| :: !g.FailedAt(k)
    ensures Decomposition(g, i, cs) <==> cs == []
  {
  }

  lemma SameEnd(g: Group, a: Chain, b: Chain)
    requires MaximalChain(g, a) && MaximalChain(g, b) && a.first == b.first
    ensures a == b
  {
  }

  function Ids(entries: seq<SignalEntry>): (ids: seq<string>)
    ensures |ids| == |entries|
    ensures forall i | 0 <= i < |entries| :: ids[i] == entries[i].eventId
  {
    seq(|entries|, (i: nat) requires i < |entries| => entries[i].eventId)
  }

  ghost predicate NoRepeats(ids: seq<string>) {
    forall i, j | 0 <= i < j < |ids| :: ids[i] != ids[j]
  }

  /** What a finished chain contributes. */
  function LongIds(chain: seq<SignalEntry>, threshold: int): seq<string> {
    if |chain| >= threshold then Ids(chain) else []
  }

  /** The event IDs of the chains that are long enough. */
  function LongChainIds(g: Group, threshold: int, cs: seq<Chain>): seq<string>
    requires forall c | c in cs :: c.first <= c.end <= |g.entries|
  {
    if cs == [] then []
    else
      LongIds(g.entries[cs[0].first..cs[0].end], threshold) + LongChainIds(g, threshold, cs[1..])
  }

  lemma {:induction false} ChainsInRange(g: Group, i: nat)
    requires i <= |g.entries|
    ensures forall c | c in Chains(g, i) :: i <= c.first < c.end <= |g.entries|
    decreases |g.entries| - i
  {
    var f := FirstFailure(g, i);
    if f < |g.entries| {
      ChainsInRange(g, ChainEnd(g, f, f + 1));
    }
  }

  /** What a group contributes from i on. */
  function FlaggedFrom(g: Group, threshold: int, i: nat): seq<string>
    requires i <= |g.entries|
  {
    ChainsInRange(g, i);
    LongChainIds(g, threshold, Chains(g, i))
  }

  /** What a group contributes when a chain from `first` has reached i. */
  function FlaggedInChain(g: Group, threshold: int, first: nat, i: nat): seq<string>
    requires first < i <= |g.entries|
  {
    var end := ChainEnd(g, first, i);
    LongIds(g.entries[first..end], threshold) + FlaggedFrom(g, threshold, end)
  }

  lemma FlaggedAtFailure(g: Group, threshold: int, i: nat)
    requires i < |g.entries| && g.FailedAt(i)
    ensures FlaggedFrom(g, threshold, i) == FlaggedInChain(g, threshold, i, i + 1)
  {
    var end := ChainEnd(g, i, i + 1);
    assert Chains(g, i) == [Chain(i, end)] + Chains(g, end);
    ChainsInRange(g, i);
  }

  lemma FlaggedPastNonFailure(g: Group, threshold: int, i: nat)
    requires i < |g.entries| && !g.FailedAt(i)
    ensures FlaggedFrom(g, threshold, i) == FlaggedFrom(g, threshold, i + 1)
  {
    assert Chains(g, i) == Chains(g, i + 1);
  }

  lemma FlaggedNext(g: Group, threshold: int, i: nat)
    requires i < |g.entries|
    ensures FlaggedFrom(g, threshold, i)
         == if Failed(g.codes, g.entries[i]) then FlaggedInChain(g, threshold, i, i + 1) else FlaggedFrom(g, threshold, i + 1)
    ensures Succeeded(g.codes, g.entries[i]) ==> !Failed(g.codes, g.entries[i])
    ensures [g.entries[i]] == g.entries[i..i + 1]
  {
    hide FlaggedFrom, FlaggedInChain;
    if g.FailedAt(i) {
      FlaggedAtFailure(g, threshold, i);
    } else {
      FlaggedPastNonFailure(g, threshold, i);
    }
  }

  lemma ChainStops(g: Group, threshold: int, first: nat, i: nat)
    requires first < i < |g.entries| && g.Ends(first, i)
    ensures FlaggedInChain(g, threshold, first, i)
         == LongIds(g.entries[first..i], threshold) + FlaggedFrom(g, threshold, i)
  {
  }

  lemma ChainGoesOn(g: Group, threshold: int, first: nat, i: nat)
    requires first < i < |g.entries| && !g.Ends(first, i)
    ensures FlaggedInChain(g, threshold, first, i) == FlaggedInChain(g, threshold, first, i + 1)
  {
  }

  lemma ChainAtEnd(g: Group, threshold: int, first: nat)
    requires first < |g.entries|
    ensures FlaggedInChain(g, threshold, first, |g.entries|)
         == LongIds(g.entries[first..], threshold)
    ensures FlaggedFrom(g, threshold, |g.entries|) == []
  {
    assert g.entries[first..|g.entries|] == g.entries[first..];
  }

  /** One pass over a group in order of time. */
  method ScanGroup(g: Group, threshold: int) returns (eventIds: seq<string>)
    ensures eventIds == FlaggedFrom(g, threshold, 0)
  {
    hide FlaggedFrom, FlaggedInChain, ChainEnd, Failed, Succeeded, LongIds;
    eventIds := [];
    var chain: seq<SignalEntry> := [];
    var failSeen := false;
    ghost var first := 0;
    for i := 0 to |g.entries|
      invariant failSeen ==> first < i && chain == g.entries[first..i]
      invariant !failSeen ==> chain == []
      invariant eventIds + (if failSeen then FlaggedInChain(g, threshold, first, i) else FlaggedFrom(g, threshold, i))
             == FlaggedFrom(g, threshold, 0)
    {
      var e := g.entries[i];
      if !failSeen {
        FlaggedNext(g, threshold, i);
        if Failed(g.codes, e) {
          failSeen, first := true, i;
          chain := chain + [e];
        }
        continue;
      }
      if e.timestamp - chain[0].timestamp > g.window {
        ChainStops(g, threshold, first, i);
        eventIds := eventIds + LongIds(chain, threshold);
        chain := [];
        failSeen := false;
        FlaggedNext(g, threshold, i);
        if Failed(g.codes, e) {
          failSeen, first := true, i;
          chain := chain + [e];
        }
        continue;
      }
      if Succeeded(g.codes, e) {
        ChainStops(g, threshold, first, i);
        eventIds := eventIds + LongIds(chain, threshold);
        FlaggedNext(g, threshold, i);
        chain := [];
        failSeen := false;
        continue;
      }
      ChainGoesOn(g, threshold, first, i);
      assert chain + [e] == g.entries[first..i + 1];
      chain := chain + [e];
    }
    if failSeen {
      ChainAtEnd(g, threshold, first);
      assert chain == g.entries[first..];
    } else {
      NothingLeft(g, threshold);
    }
    eventIds := eventIds + LongIds(chain, threshold);
  }

  lemma NothingLeft(g: Group, threshold: int)
    ensures FlaggedFrom(g, threshold, |g.entries|) == [] && LongIds([], threshold) == []
  {
  }

  // What a group's scan flags, stated without the scan

  /** Entry i lies on a maximal chain that is long enough. */
  ghost predicate OnLongChain(g: Group, threshold: int, i: nat) {
    exists c :: c in Chains(g, 0) && c.first <= i < c.end && c.end - c.first >= threshold
  }

  lemma InConcat<T>(a: seq<T>, b: seq<T>, x: T)
    ensures x in a + b <==> x in a || x in b
  {
  }

  lemma IdsMember(g: Group, c: Chain, id: string)
    requires c.first <= c.end <= |g.entries|
    ensures id in Ids(g.entries[c.first..c.end]) <==> exists i :: c.first <= i < c.end && g.entries[i].eventId == id
  {
    var ids := Ids(g.entries[c.first..c.end]);
    if id in ids {
      var k :| 0 <= k < |ids| && ids[k] == id;
      assert g.entries[c.first + k].eventId == id;
    }
    if i :| c.first <= i < c.end && g.entries[i].eventId == id {
      assert ids[i - c.first] == id;
    }
  }

  ghost predicate IdOnLongChain(g: Group, threshold: int, cs: seq<Chain>, id: string)
    requires forall c | c in cs :: c.first <= c.end <= |g.entries|
  {
    exists c, i :: c in cs && c.first <= i < c.end && c.end - c.first >= threshold && g.entries[i].eventId == id
  }

  lemma {:induction false} LongChainMember(g: Group, threshold: int, cs: seq<Chain>, id: string)
    requires forall c | c in cs :: c.first <= c.end <= |g.entries|
    ensures id in LongChainIds(g, threshold, cs) <==> IdOnLongChain(g, threshold, cs, id)
  {
    if cs != [] {
      LongChainMember(g, threshold, cs[1..], id);
      IdsMember(g, cs[0], id);
      InConcat(LongIds(g.entries[cs[0].first..cs[0].end], threshold), LongChainIds(g, threshold, cs[1..]), id);
      assert IdOnLongChain(g, threshold, cs, id) <==>
             (cs[0].end - cs[0].first >= threshold && exists i :: cs[0].first <= i < cs[0].end && g.entries[i].eventId == id)
             || IdOnLongChain(g, threshold, cs[1..], id);
    }
  }

  /** The scan flags exactly the members of the long maximal chains. */
  lemma ScanFlagsLongChains(g: Group, threshold: int, id: string)
    ensures id in FlaggedFrom(g, threshold, 0)
       <==> exists i :: 0 <= i < |g.entries| && OnLongChain(g, threshold, i) && g.entries[i].eventId == id
  {
    ChainsInRange(g, 0);
    LongChainMember(g, threshold, Chains(g, 0), id);
    if IdOnLongChain(g, threshold, Chains(g, 0), id) {
      var c, i :| c in Chains(g, 0) && c.first <= i < c.end && c.end - c.first >= threshold && g.entries[i].eventId == id;
      assert OnLongChain(g, threshold, i);
    }
  }

  lemma {:induction false} ChainsAreMaximal(g: Group, i: nat, k: nat)
    requires i <= |g.entries| && k < |Chains(g, i)|
    ensures MaximalChain(g, Chains(g, i)[k])
    ensures i <= Chains(g, i)[k].first
    ensures forall j | k < j < |Chains(g, i)| :: Chains(g, i)[k].end <= Chains(g, i)[j].first
    decreases |g.entries| - i
  {
    hide MaximalChain;
    FirstChain(g, i);
    var end := Chains(g, i)[0].end;
    var rest := Chains(g, end);
    ChainsInRange(g, end);
    if k > 0 {
      ChainsAreMaximal(g, end, k - 1);
      assert Chains(g, i)[k] == rest[k - 1];
    }
    assert forall j | 0 < j < |Chains(g, i)| :: Chains(g, i)[j] == rest[j - 1];
  }

  lemma FirstChain(g: Group, i: nat)
    requires i <= |g.entries| && Chains(g, i) != []
    ensures var c := Chains(g, i)[0];
            && i <= c.first < c.end <= |g.entries| && MaximalChain(g, c)
            && Chains(g, i) == [c] + Chains(g, c.end)
  {
  }

  /** A flagged entry never succeeded, follows or is a failure, and lies within the window of it. */
  lemma FlaggedEntryIsRetry(g: Group, threshold: int, i: nat)
    requires i < |g.entries| && OnLongChain(g, threshold, i)
    ensures !Succeeded(g.codes, g.entries[i])
    ensures exists f :: 0 <= f <= i && g.FailedAt(f)
              && (f < i ==> g.entries[i].timestamp - g.entries[f].timestamp <= g.window)
              && forall k | f <= k <= i :: !Succeeded(g.codes, g.entries[k])
  {
    var c :| c in Chains(g, 0) && c.first <= i < c.end && c.end - c.first >= threshold;
    var k :| 0 <= k < |Chains(g, 0)| && Chains(g, 0)[k] == c;
    ChainsAreMaximal(g, 0, k);
    forall j | c.first <= j <= i ensures !Succeeded(g.codes, g.entries[j]) {
      if j > c.first {
        assert !g.Ends(c.first, j);
      }
    }
    assert g.FailedAt(c.first) && (c.first < i ==> !g.Ends(c.first, i));
  }

  // Groups, and the whole detection

  type GroupKey = SignalEntry -> Option<string>

  /** Same actor, intent and shape. */
  function ExactKey(e: SignalEntry): Option<string> {
    if !e.isPrescription || e.intentDigest == "" then None
    else Some(e.actorId + "|" + e.intentDigest + "|" + e.shapeHash)
  }

  /** Same actor, tool, operation class and scope, whatever the artifact. */
  function VariantKey(e: SignalEntry): Option<string> {
    if !e.isPrescription then None
    else Some(e.actorId + "|" + e.tool + "|" + e.operationClass + "|" + e.scopeClass)
  }

  function Members(entries: seq<SignalEntry>, key: GroupKey, k: string): (members: seq<SignalEntry>)
    ensures forall e :: e in members <==> e in entries && key(e) == Some(k)
  {
    if entries == [] then []
    else
      var front, e := Members(entries[..|entries| - 1], key, k), entries[|entries| - 1];
      assert entries == entries[..|entries| - 1] + [e];
      if key(e) == Some(k) then front + [e] else front
  }

  /** The groups in the order in which they were visited, each in some order of time. */
  ghost predicate Arranged(entries: seq<SignalEntry>, key: GroupKey, order: seq<string>, sorted: map<string, seq<SignalEntry>>) {
    && NoRepeats(order)
    && (forall k :: k in order <==> Members(entries, key, k) != [])
    && (forall k | k in order :: k in sorted && SortedPermutation(Members(entries, key, k), sorted[k]))
  }

  function FlaggedIn(codes: ExitCodes, window: int, threshold: int, order: seq<string>, sorted: map<string, seq<SignalEntry>>)
    : seq<string>
    requires forall k | k in order :: k in sorted
  {
    if order == [] then []
    else
      var last := order[|order| - 1];
      FlaggedIn(codes, window, threshold, order[..|order| - 1], sorted)
      + FlaggedFrom(Group(codes, window, sorted[last]), threshold, 0)
  }

  ghost predicate RetryResult(entries: seq<SignalEntry>, threshold: int, window: int, key: GroupKey, ids: seq<string>) {
    exists order, sorted ::
      Arranged(entries, key, order, sorted)
      && ids == FlaggedIn(ReportedCodes(entries), window, threshold, order, sorted)
  }

  method CollectCodes(entries: seq<SignalEntry>) returns (codes: ExitCodes)
    ensures codes == ReportedCodes(entries)
  {
    codes := map[];
    for i := 0 to |entries|
      invariant codes == ReportedCodes(entries[..i])
    {
      assert entries[..i + 1][..i] == entries[..i];
      if entries[i].isReport && entries[i].prescriptionId != "" {
        codes := codes[entries[i].prescriptionId := entries[i].exitCode];
      }
    }
    assert entries[..|entries|] == entries;
  }

  method CollectGroups(entries: seq<SignalEntry>, key: GroupKey) returns (groups: map<string, seq<SignalEntry>>)
    ensures forall k :: k in groups <==> Members(entries, key, k) != []
    ensures forall k | k in groups :: groups[k] == Members(entries, key, k)
  {
    groups := map[];
    for i := 0 to |entries|
      invariant forall k :: k in groups <==> Members(entries[..i], key, k) != []
      invariant forall k | k in groups :: groups[k] == Members(entries[..i], key, k)
    {
      assert entries[..i + 1][..i] == entries[..i];
      var k := key(entries[i]);
      if k.None? {
        continue;
      }
      groups := groups[k.value := (if k.value in groups then groups[k.value] else []) + [entries[i]]];
    }
    assert entries[..|entries|] == entries;
  }

  lemma {:induction false} FlaggedInFrame(codes: ExitCodes, window: int, threshold: int, order: seq<string>,
                                          before: map<string, seq<SignalEntry>>, after: map<string, seq<SignalEntry>>)
    requires forall k | k in order :: k in before && k in after && before[k] == after[k]
    ensures FlaggedIn(codes, window, threshold, order, before) == FlaggedIn(codes, window, threshold, order, after)
  {
    hide FlaggedFrom;
    if order != [] {
      FlaggedInFrame(codes, window, threshold, order[..|order| - 1], before, after);
    }
  }

  /** Groups are visited in whatever order the map yields them. */
  method DetectRetryLoopChains(entries: seq<SignalEntry>, threshold: int, window: int, key: GroupKey)
    returns (eventIds: seq<string>)
    ensures RetryResult(entries, threshold, window, key, eventIds)
  {
    hide FlaggedFrom, SortedPermutation, Members, ReportedCodes;
    var codes := CollectCodes(entries);
    var groups := CollectGroups(entries, key);
    eventIds := [];
    ghost var order: seq<string> := [];
    ghost var sorted: map<string, seq<SignalEntry>> := map[];
    var remaining := groups.Keys;
    while remaining != {}
      invariant remaining <= groups.Keys
      invariant NoRepeats(order)
      invariant forall k :: k in order <==> k in groups && k !in remaining
      invariant forall k | k in order :: k in sorted && SortedPermutation(groups[k], sorted[k])
      invariant eventIds == FlaggedIn(codes, window, threshold, order, sorted)
      decreases remaining
    {
      var k :| k in remaining;
      var group := SortByTime(groups[k]);
      var ids := ScanGroup(Group(codes, window, group), threshold);
      FlaggedInFrame(codes, window, threshold, order, sorted, sorted[k := group]);
      assert (order + [k])[..|order|] == order;
      order, sorted := order + [k], sorted[k := group];
      eventIds := eventIds + ids;
      remaining := remaining - {k};
    }
    assert Arranged(entries, key, order, sorted);
  }

  function FirstOccurrences(ids: seq<string>): (r: seq<string>)
    ensures forall id :: id in r <==> id in ids
    ensures NoRepeats(r)
  {
    if ids == [] then []
    else
      var front, last := FirstOccurrences(ids[..|ids| - 1]), ids[|ids| - 1];
      assert ids == ids[..|ids| - 1] + [last];
      if last in front then front else front + [last]
  }

  method MergeIds(all: seq<string>) returns (merged: seq<string>)
    ensures merged == FirstOccurrences(all)
  {
    merged := [];
    var seen: set<string> := {};
    for i := 0 to |all|
      invariant merged == FirstOccurrences(all[..i])
      invariant forall id :: id in seen <==> id in merged
    {
      assert all[..i + 1][..i] == all[..i];
      if all[i] !in seen {
        seen := seen + {all[i]};
        merged := merged + [all[i]];
      }
    }
    assert all[..|all|] == all;
  }

  // Each event once, and no dependence on visiting order

  /** An event of group k, on a long chain of that group. */
  ghost predicate FlaggedInGroup(codes: ExitCodes, window: int, threshold: int, group: seq<SignalEntry>, id: string) {
    var g := Group(codes, window, group);
    exists i :: 0 <= i < |group| && OnLongChain(g, threshold, i) && group[i].eventId == id
  }

  lemma {:induction false} FlaggedInMember(codes: ExitCodes, window: int, threshold: int, order: seq<string>,
                                           sorted: map<string, seq<SignalEntry>>, id: string)
    requires forall k | k in order :: k in sorted
    ensures id in FlaggedIn(codes, window, threshold, order, sorted)
       <==> exists k :: k in order && FlaggedInGroup(codes, window, threshold, sorted[k], id)
  {
    hide FlaggedFrom, OnLongChain;
    if order != [] {
      var front, last := order[..|order| - 1], order[|order| - 1];
      assert order == front + [last];
      FlaggedInMember(codes, window, threshold, front, sorted, id);
      ScanFlagsLongChains(Group(codes, window, sorted[last]), threshold, id);
      InConcat(FlaggedIn(codes, window, threshold, front, sorted),
               FlaggedFrom(Group(codes, window, sorted[last]), threshold, 0), id);
    }
  }

  /** With distinct times inside each group, every run of the detection flags the same events. */
  lemma ResultDoesNotDependOnOrder(entries: seq<SignalEntry>, threshold: int, window: int, key: GroupKey,
                                   a: seq<string>, b: seq<string>, id: string)
    requires RetryResult(entries, threshold, window, key, a) && RetryResult(entries, threshold, window, key, b)
    requires forall k :: TimesDistinct(Members(entries, key, k))
    ensures id in a <==> id in b
  {
    hide FlaggedIn, FlaggedInGroup, SortedPermutation, TimesDistinct;
    var codes := ReportedCodes(entries);
    var o1, s1 :| Arranged(entries, key, o1, s1) && a == FlaggedIn(codes, window, threshold, o1, s1);
    var o2, s2 :| Arranged(entries, key, o2, s2) && b == FlaggedIn(codes, window, threshold, o2, s2);
    FlaggedInMember(codes, window, threshold, o1, s1, id);
    FlaggedInMember(codes, window, threshold, o2, s2, id);
    forall k | k in o1 ensures k in o2 && s1[k] == s2[k] {
      assert Members(entries, key, k) != [];
      OrderUnique(Members(entries, key, k), s1[k], s2[k]);
    }
    forall k | k in o2 ensures k in o1 {
      assert Members(entries, key, k) != [];
    }
  }

  ghost predicate DistinctIds(s: seq<SignalEntry>) {
    forall i, j | 0 <= i < j < |s| :: s[i].eventId != s[j].eventId
  }

  lemma NoRepeatsConcat(a: seq<string>, b: seq<string>)
    requires NoRepeats(a) && NoRepeats(b) && forall id | id in a :: id !in b
    ensures NoRepeats(a + b)
  {
    var all := a + b;
    forall i, j | 0 <= i < j < |all| ensures all[i] != all[j] {
      if i < |a| <= j {
        assert all[i] in a && all[j] in b;
      }
    }
  }

  lemma {:induction false} FlaggedFromLater(g: Group, threshold: int, i: nat, id: string)
    requires i <= |g.entries| && id in FlaggedFrom(g, threshold, i)
    ensures exists k :: i <= k < |g.entries| && g.entries[k].eventId == id
  {
    ChainsInRange(g, i);
    LongChainMember(g, threshold, Chains(g, i), id);
    var c, k :| c in Chains(g, i) && c.first <= k < c.end && c.end - c.first >= threshold && g.entries[k].eventId == id;
    assert i <= k < |g.entries|;
  }

  /** A group with distinct event IDs contributes each at most once. */
  lemma {:induction false} GroupFlagsOnce(g: Group, threshold: int, i: nat)
    requires i <= |g.entries| && DistinctIds(g.entries)
    ensures NoRepeats(FlaggedFrom(g, threshold, i))
    decreases |g.entries| - i
  {
    var f := FirstFailure(g, i);
    if f < |g.entries| {
      var end := ChainEnd(g, f, f + 1);
      ChainsInRange(g, i);
      assert Chains(g, i) == [Chain(f, end)] + Chains(g, end);
      var here, later := LongIds(g.entries[f..end], threshold), FlaggedFrom(g, threshold, end);
      assert FlaggedFrom(g, threshold, i) == here + later;
      GroupFlagsOnce(g, threshold, end);
      forall id | id in here ensures id !in later {
        IdsMember(g, Chain(f, end), id);
        var k :| f <= k < end && g.entries[k].eventId == id;
        if id in later {
          FlaggedFromLater(g, threshold, end, id);
        }
      }
      NoRepeatsConcat(here, later);
    }
  }

  lemma RepeatsCount<T>(r: seq<T>, i: nat, j: nat)
    requires i < j < |r| && r[i] == r[j]
    ensures multiset(r)[r[i]] >= 2
  {
    assert r == r[..i] + [r[i]] + r[i + 1..];
    assert r[i + 1..][j - i - 1] == r[j];
    assert r[j] in multiset(r[i + 1..]);
  }

  lemma DistinctCount(s: seq<SignalEntry>, x: SignalEntry)
    requires DistinctIds(s)
    ensures multiset(s)[x] <= 1
  {
    if x in s {
      var i :| 0 <= i < |s| && s[i] == x;
      assert s == s[..i] + [x] + s[i + 1..];
      assert x !in s[..i] && x !in s[i + 1..];
    } else {
      assert x !in multiset(s);
    }
  }

  /** Reordering keeps event IDs distinct. */
  lemma PermutationKeepsDistinctIds(s: seq<SignalEntry>, r: seq<SignalEntry>)
    requires DistinctIds(s) && multiset(r) == multiset(s)
    ensures DistinctIds(r)
  {
    forall i, j | 0 <= i < j < |r| ensures r[i].eventId != r[j].eventId {
      MembersAgree(s, r, r[i]);
      MembersAgree(s, r, r[j]);
      DistinctCount(s, r[i]);
      if r[i] == r[j] {
        RepeatsCount(r, i, j);
      }
    }
  }

  /** Entries that belong to some group have distinct event IDs. */
  ghost predicate GroupedIdsDistinct(entries: seq<SignalEntry>, key: GroupKey) {
    forall i, j | 0 <= i < j < |entries| && key(entries[i]).Some? && key(entries[j]).Some? ::
      entries[i].eventId != entries[j].eventId
  }

  lemma {:induction false} MembersDistinct(entries: seq<SignalEntry>, key: GroupKey, k: string)
    requires GroupedIdsDistinct(entries, key)
    ensures DistinctIds(Members(entries, key, k))
  {
    if entries != [] {
      var n := |entries| - 1;
      var front := Members(entries[..n], key, k);
      MembersDistinct(entries[..n], key, k);
      forall x | x in front && key(entries[n]) == Some(k) ensures x.eventId != entries[n].eventId {
        var i :| 0 <= i < n && entries[..n][i] == x;
        assert entries[i] == x;
      }
    }
  }

  lemma {:induction false} AllFlaggedOnce(entries: seq<SignalEntry>, threshold: int, window: int, key: GroupKey,
                                          order: seq<string>, sorted: map<string, seq<SignalEntry>>)
    requires GroupedIdsDistinct(entries, key)
    requires NoRepeats(order)
    requires forall k | k in order :: k in sorted && SortedPermutation(Members(entries, key, k), sorted[k])
    ensures NoRepeats(FlaggedIn(ReportedCodes(entries), window, threshold, order, sorted))
  {
    hide FlaggedFrom, ReportedCodes, DistinctIds;
    if order != [] {
      var n := |order| - 1;
      var front, last := order[..n], order[n];
      var codes := ReportedCodes(entries);
      AllFlaggedOnce(entries, threshold, window, key, front, sorted);
      var g := Group(codes, window, sorted[last]);
      MembersDistinct(entries, key, last);
      PermutationKeepsDistinctIds(Members(entries, key, last), sorted[last]);
      GroupFlagsOnce(g, threshold, 0);
      var earlier, here := FlaggedIn(codes, window, threshold, front, sorted), FlaggedFrom(g, threshold, 0);
      forall id | id in earlier ensures id !in here {
        FlaggedInMember(codes, window, threshold, front, sorted, id);
        var k :| k in front && FlaggedInGroup(codes, window, threshold, sorted[k], id);
        if id in here {
          FlaggedFromLater(g, threshold, 0, id);
          GroupsShareNoId(entries, key, k, last, sorted[k], sorted[last], id);
        }
      }
      NoRepeatsConcat(earlier, here);
    }
  }

  lemma GroupsShareNoId(entries: seq<SignalEntry>, key: GroupKey, k: string, l: string, a: seq<SignalEntry>,
                        b: seq<SignalEntry>, id: string)
    requires GroupedIdsDistinct(entries, key) && k != l
    requires multiset(a) == multiset(Members(entries, key, k)) && multiset(b) == multiset(Members(entries, key, l))
    ensures !((exists i :: 0 <= i < |a| && a[i].eventId == id) && (exists j :: 0 <= j < |b| && b[j].eventId == id))
  {
    forall i, j | 0 <= i < |a| && 0 <= j < |b| ensures a[i].eventId != b[j].eventId {
      MembersAgree(a, Members(entries, key, k), a[i]);
      MembersAgree(b, Members(entries, key, l), b[j]);
      var p :| 0 <= p < |entries| && entries[p] == a[i];
      var q :| 0 <= q < |entries| && entries[q] == b[j];
      assert p != q;
    }
  }

  /** Every event is flagged at most once by one detection. */
  lemma FlaggedAtMostOnce(entries: seq<SignalEntry>, threshold: int, window: int, key: GroupKey, ids: seq<string>)
    requires RetryResult(entries, threshold, window, key, ids) && GroupedIdsDistinct(entries, key)
    ensures NoRepeats(ids)
  {
    var order, sorted :| Arranged(entries, key, order, sorted)
      && ids == FlaggedIn(ReportedCodes(entries), window, threshold, order, sorted);
    AllFlaggedOnce(entries, threshold, window, key, order, sorted);
  }

  // What a flagged event means, told from the entries alone

  predicate InOneGroup(key: GroupKey, a: SignalEntry, b: SignalEntry) {
    key(a).Some? && key(a) == key(b)
  }

  /** Two attempts at one thing: by one actor, with one intent and one shape. */
  predicate SameAttempt(a: SignalEntry, b: SignalEntry) {
    && a.isPrescription && b.isPrescription && a.intentDigest != ""
    && a.actorId == b.actorId && a.intentDigest == b.intentDigest && a.shapeHash == b.shapeHash
  }

  /** Two attempts in one place: by one actor, with one tool, operation class and scope. */
  predicate SamePlace(a: SignalEntry, b: SignalEntry) {
    && a.isPrescription && b.isPrescription
    && a.actorId == b.actorId && a.tool == b.tool && a.operationClass == b.operationClass && a.scopeClass == b.scopeClass
  }

  /** No field that a group key joins, but the last one, holds the separator. */
  predicate BarFree(e: SignalEntry) {
    '|' !in e.actorId && '|' !in e.intentDigest && '|' !in e.tool && '|' !in e.operationClass
  }

  lemma ExactGroups(a: SignalEntry, b: SignalEntry)
    requires BarFree(a) && BarFree(b)
    ensures InOneGroup(ExactKey, a, b) <==> SameAttempt(a, b)
  {
    if ExactKey(a).Some? && ExactKey(b).Some? {
      assert ExactKey(a).value == a.actorId + "|" + (a.intentDigest + "|" + a.shapeHash);
      assert ExactKey(b).value == b.actorId + "|" + (b.intentDigest + "|" + b.shapeHash);
      SplitAtFirst(a.actorId, a.intentDigest + "|" + a.shapeHash, b.actorId, b.intentDigest + "|" + b.shapeHash, '|');
      SplitAtFirst(a.intentDigest, a.shapeHash, b.intentDigest, b.shapeHash, '|');
    }
  }

  lemma VariantGroups(a: SignalEntry, b: SignalEntry)
    requires BarFree(a) && BarFree(b)
    ensures InOneGroup(VariantKey, a, b) <==> SamePlace(a, b)
  {
    if VariantKey(a).Some? && VariantKey(b).Some? {
      var c, d := a.operationClass + "|" + a.scopeClass, b.operationClass + "|" + b.scopeClass;
      assert VariantKey(a).value == a.actorId + "|" + (a.tool + "|" + c);
      assert VariantKey(b).value == b.actorId + "|" + (b.tool + "|" + d);
      SplitAtFirst(a.actorId, a.tool + "|" + c, b.actorId, b.tool + "|" + d, '|');
      SplitAtFirst(a.tool, c, b.tool, d, '|');
      SplitAtFirst(a.operationClass, a.scopeClass, b.operationClass, b.scopeClass, '|');
    }
  }

  predicate Names(e: SignalEntry, id: string) {
    e.isReport && id != "" && e.prescriptionId == id
  }

  /** The last report that names the ID gave it this exit code. */
  predicate LastReported(entries: seq<SignalEntry>, id: string, r: nat, code: int) {
    && r < |entries| && Names(entries[r], id) && entries[r].exitCode == Some(code)
    && forall k | r < k < |entries| :: !Names(entries[k], id)
  }

  ghost predicate EndedBadly(entries: seq<SignalEntry>, e: SignalEntry) {
    exists r: nat, code :: LastReported(entries, e.eventId, r, code) && code != 0
  }

  ghost predicate EndedWell(entries: seq<SignalEntry>, e: SignalEntry) {
    exists r: nat :: LastReported(entries, e.eventId, r, 0)
  }

  /** The table of exit codes is that of the last reports. */
  lemma {:induction false} LastReportWins(entries: seq<SignalEntry>, id: string, code: int)
    ensures id in ReportedCodes(entries) && ReportedCodes(entries)[id] == Some(code) <==> exists r: nat :: LastReported(entries, id, r, code)
  {
    if entries != [] {
      var n := |entries| - 1;
      var front := entries[..n];
      LastReportWins(front, id, code);
      if Names(entries[n], id) {
        if entries[n].exitCode == Some(code) {
          assert LastReported(entries, id, n, code);
        }
      } else {
        forall r: nat ensures LastReported(front, id, r, code) <==> LastReported(entries, id, r, code) {
          if LastReported(entries, id, r, code) {
            assert forall k | r < k < n :: front[k] == entries[k];
          }
          if LastReported(front, id, r, code) {
            assert forall k | r < k < n :: front[k] == entries[k];
          }
        }
      }
    }
  }

  lemma FailedIsEndedBadly(entries: seq<SignalEntry>, e: SignalEntry)
    ensures Failed(ReportedCodes(entries), e) <==> EndedBadly(entries, e)
    ensures Succeeded(ReportedCodes(entries), e) <==> EndedWell(entries, e)
  {
    hide ReportedCodes, LastReported;
    var codes := ReportedCodes(entries);
    LastReportWins(entries, e.eventId, 0);
    if e.eventId in codes && codes[e.eventId].Some? {
      LastReportWins(entries, e.eventId, codes[e.eventId].value);
    }
    if EndedBadly(entries, e) {
      var r: nat, code :| LastReported(entries, e.eventId, r, code) && code != 0;
      LastReportWins(entries, e.eventId, code);
    }
  }

  /** Attempts of one kind in order of time: the first one failed, none succeeded, all within the window of the first. */
  ghost predicate RetryChain(entries: seq<SignalEntry>, same: (SignalEntry, SignalEntry) -> bool, threshold: int, window: int, chain: seq<SignalEntry>) {
    && |chain| >= threshold && chain != [] && multiset(chain) <= multiset(entries)
    && EndedBadly(entries, chain[0])
    && forall i | 0 <= i < |chain| ::
         && same(chain[0], chain[i]) && !EndedWell(entries, chain[i])
         && chain[0].timestamp <= chain[i].timestamp <= chain[0].timestamp + window
  }

  ghost predicate OnRetryChain(entries: seq<SignalEntry>, same: (SignalEntry, SignalEntry) -> bool, threshold: int, window: int, id: string) {
    exists chain: seq<SignalEntry> :: RetryChain(entries, same, threshold, window, chain) && exists i :: 0 <= i < |chain| && chain[i].eventId == id
  }

  lemma {:induction false} MembersWithin(entries: seq<SignalEntry>, key: GroupKey, k: string)
    ensures multiset(Members(entries, key, k)) <= multiset(entries)
  {
    if entries != [] {
      var n := |entries| - 1;
      MembersWithin(entries[..n], key, k);
      assert entries == entries[..n] + [entries[n]];
    }
  }

  lemma SliceWithin(s: seq<SignalEntry>, i: nat, j: nat)
    requires i <= j <= |s|
    ensures multiset(s[i..j]) <= multiset(s)
  {
    assert s == s[..i] + s[i..j] + s[j..];
  }

  /** A long chain of a group is a chain of attempts of the log. */
  lemma LongChainIsRetryChain(entries: seq<SignalEntry>, key: GroupKey, same: (SignalEntry, SignalEntry) -> bool, k: string,
                              group: seq<SignalEntry>, c: Chain, threshold: int, window: int)
    requires SortedPermutation(Members(entries, key, k), group) && window >= 0
    requires forall a, b | a in entries && b in entries && InOneGroup(key, a, b) :: same(a, b)
    requires MaximalChain(Group(ReportedCodes(entries), window, group), c) && c.end - c.first >= threshold
    ensures RetryChain(entries, same, threshold, window, group[c.first..c.end])
  {
    hide ReportedCodes, EndedBadly, EndedWell, Members;
    var g := Group(ReportedCodes(entries), window, group);
    var chain := group[c.first..c.end];
    MembersWithin(entries, key, k);
    SliceWithin(group, c.first, c.end);
    forall i | 0 <= i < |chain|
      ensures chain[i] in entries && key(chain[i]) == Some(k) && !EndedWell(entries, chain[i])
      ensures chain[0].timestamp <= chain[i].timestamp <= chain[0].timestamp + window
    {
      MembersAgree(Members(entries, key, k), group, chain[i]);
      FailedIsEndedBadly(entries, chain[i]);
      if i > 0 {
        assert !g.Ends(c.first, c.first + i);
      } else {
        assert g.FailedAt(c.first);
      }
    }
    FailedIsEndedBadly(entries, chain[0]);
    assert g.FailedAt(c.first);
  }

  /** Every event a detection flags is on a chain of at least the threshold's number of attempts of one kind. */
  lemma FlaggedMeansRetried(entries: seq<SignalEntry>, threshold: int, window: int, key: GroupKey,
                            same: (SignalEntry, SignalEntry) -> bool, ids: seq<string>, id: string)
    requires RetryResult(entries, threshold, window, key, ids) && id in ids && window >= 0
    requires forall a, b | a in entries && b in entries && InOneGroup(key, a, b) :: same(a, b)
    ensures OnRetryChain(entries, same, threshold, window, id)
  {
    hide FlaggedIn, ReportedCodes, MaximalChain, RetryChain, SortedPermutation, Members, InOneGroup, OnLongChain;
    var codes := ReportedCodes(entries);
    var order: seq<string>, sorted: map<string, seq<SignalEntry>> :|
      Arranged(entries, key, order, sorted) && ids == FlaggedIn(codes, window, threshold, order, sorted);
    FlaggedInMember(codes, window, threshold, order, sorted, id);
    var k :| k in order && FlaggedInGroup(codes, window, threshold, sorted[k], id);
    var group: seq<SignalEntry> := sorted[k];
    var g := Group(codes, window, group);
    var i :| 0 <= i < |group| && OnLongChain(g, threshold, i) && group[i].eventId == id;
    var c := LongChainOf(g, threshold, i);
    LongChainIsRetryChain(entries, key, same, k, group, c, threshold, window);
    assert group[c.first..c.end][i - c.first].eventId == id;
  }

  lemma LongChainOf(g: Group, threshold: int, i: nat) returns (c: Chain)
    requires i < |g.entries| && OnLongChain(g, threshold, i)
    ensures MaximalChain(g, c) && c.first <= i < c.end <= |g.entries| && c.end - c.first >= threshold
  {
    hide MaximalChain;
    c :| c in Chains(g, 0) && c.first <= i < c.end && c.end - c.first >= threshold;
    var n :| 0 <= n < |Chains(g, 0)| && Chains(g, 0)[n] == c;
    ChainsAreMaximal(g, 0, n);
    ChainsInRange(g, 0);
  }

  /** Three attempts at one thing or five in one place within half an hour, the first of them failed and none succeeded. */
  ghost predicate IsRetry(entries: seq<SignalEntry>, id: string) {
    || OnRetryChain(entries, SameAttempt, 3, 30 * 60 * 1_000_000_000, id)
    || OnRetryChain(entries, SamePlace, 5, 30 * 60 * 1_000_000_000, id)
  }

  /** Exact and variant detection, merged: an event flagged by both is counted once. */
  method DetectRetryLoops(entries: seq<SignalEntry>) returns (r: SignalResult, ghost exact: seq<string>, ghost variant: seq<string>)
    ensures RetryResult(entries, DEFAULT_THRESHOLD, DEFAULT_WINDOW, ExactKey, exact)
    ensures RetryResult(entries, DEFAULT_VARIANT_THRESHOLD, DEFAULT_WINDOW, VariantKey, variant)
    ensures r == SignalResult("retry_loop", |r.eventIds|, r.eventIds)
    ensures NoRepeats(r.eventIds)
    ensures forall id :: id in r.eventIds <==> id in exact || id in variant
    ensures (forall e | e in entries :: BarFree(e)) ==> forall id | id in r.eventIds :: IsRetry(entries, id)
  {
    hide RetryResult, OnRetryChain, BarFree;
    var exactIds := DetectRetryLoopChains(entries, DEFAULT_THRESHOLD, DEFAULT_WINDOW, ExactKey);
    var variantIds := DetectRetryLoopChains(entries, DEFAULT_VARIANT_THRESHOLD, DEFAULT_WINDOW, VariantKey);
    exact, variant := exactIds, variantIds;
    var merged := MergeIds(exactIds + variantIds);
    r := SignalResult("retry_loop", |merged|, merged);
    if forall e | e in entries :: BarFree(e) {
      forall id | id in merged ensures IsRetry(entries, id) {
        MergedIsRetry(entries, exact, variant, id);
      }
    }
  }

  lemma MergedIsRetry(entries: seq<SignalEntry>, exact: seq<string>, variant: seq<string>, id: string)
    requires RetryResult(entries, DEFAULT_THRESHOLD, DEFAULT_WINDOW, ExactKey, exact)
    requires RetryResult(entries, DEFAULT_VARIANT_THRESHOLD, DEFAULT_WINDOW, VariantKey, variant)
    requires forall e | e in entries :: BarFree(e)
    requires id in exact || id in variant
    ensures IsRetry(entries, id)
  {
    hide RetryResult, OnRetryChain, BarFree, InOneGroup, SameAttempt, SamePlace;
    forall a, b | a in entries && b in entries
      ensures InOneGroup(ExactKey, a, b) <==> SameAttempt(a, b)
      ensures InOneGroup(VariantKey, a, b) <==> SamePlace(a, b)
    {
      ExactGroups(a, b);
      VariantGroups(a, b);
    }
    if id in exact {
      FlaggedMeansRetried(entries, DEFAULT_THRESHOLD, DEFAULT_WINDOW, ExactKey, SameAttempt, exact, id);
    } else {
      FlaggedMeansRetried(entries, DEFAULT_VARIANT_THRESHOLD, DEFAULT_WINDOW, VariantKey, SamePlace, variant, id);
    }
  }
}
