/** Thrashing: many different intents fail with no success in between (internal/signal/thrashing.go). */
module Thrashing {
  import opened Wrappers
  import opened Signals
  import opened TimeOrder
  import opened RetryLoops

  /** Prescriptions in order of time, with what was reported for them. A prescription without a reported exit code counts
      for nothing. */
  datatype Scan = Scan(codes: ExitCodes, threshold: int, ps: seq<SignalEntry>) {
    predicate FailedAt(i: nat)
      requires i < |ps|
    {
      Failed(codes, ps[i])
    }

    predicate SucceededAt(i: nat)
      requires i < |ps|
    {
      Succeeded(codes, ps[i])
    }
  }

  /** The failed intents among the prescriptions first..end. */
  function Intents(s: Scan, first: nat, end: nat): set<string>
    requires first <= end <= |s.ps|
  {
    if first == end then {}
    else Intents(s, first, end - 1) + if s.FailedAt(end - 1) then {s.ps[end - 1].intentDigest} else {}
  }

  /** Where the window that i falls into starts: after the last success or the last completed window. */
  function WindowStart(s: Scan, i: nat): (first: nat)
    requires i <= |s.ps|
    ensures first <= i
    decreases i, 0
  {
    if i == 0 then 0
    else if s.SucceededAt(i - 1) || Completes(s, i - 1) then i
    else WindowStart(s, i - 1)
  }

  /** The failure at i makes the window reach the threshold. */
  predicate Completes(s: Scan, i: nat)
    requires i < |s.ps|
    decreases i, 1
  {
    s.FailedAt(i) && |Intents(s, WindowStart(s, i), i + 1)| >= s.threshold
  }

  function FailedIds(s: Scan, first: nat, end: nat): seq<string>
    requires first <= end <= |s.ps|
  {
    if first == end then []
    else
      var front := FailedIds(s, first, end - 1);
      if s.FailedAt(end - 1) then front + [s.ps[end - 1].eventId] else front
  }

  /** The failures of the windows completed before `end`, window by window. */
  function FlaggedBefore(s: Scan, end: nat): seq<string>
    requires end <= |s.ps|
  {
    if end == 0 then []
    else
      var front := FlaggedBefore(s, end - 1);
      if Completes(s, end - 1) then front + FailedIds(s, WindowStart(s, end - 1), end) else front
  }

  // What windows are

  /** A window holds no success and, until its last failure, fewer intents than the threshold. */
  lemma {:induction false} WindowHolds(s: Scan, i: nat, k: nat)
    requires i <= |s.ps| && WindowStart(s, i) <= k < i
    ensures !s.SucceededAt(k) && !Completes(s, k)
    ensures WindowStart(s, k) == WindowStart(s, i)
    decreases i
  {
    hide Intents, Completes;
    if k < i - 1 {
      WindowHolds(s, i - 1, k);
    }
  }

  /** Completed windows do not overlap. */
  lemma WindowsAreDisjoint(s: Scan, i: nat, j: nat)
    requires i < j < |s.ps| && Completes(s, i) && Completes(s, j)
    ensures i < WindowStart(s, j)
  {
    hide Intents, Completes;
    if WindowStart(s, j) <= i {
      WindowHolds(s, j, i);
    }
  }

  lemma {:induction false} IntentsGrow(s: Scan, a: nat, first: nat, end: nat, last: nat)
    requires a <= first <= end <= last <= |s.ps|
    ensures Intents(s, first, end) <= Intents(s, a, last)
    decreases last - first
  {
    if end < last {
      IntentsGrow(s, a, first, end, last - 1);
    } else if first < end {
      IntentsGrow(s, a, first, end - 1, end - 1);
    }
  }

  /** A completed window has exactly as many intents as the threshold asks for, and its last failure brought the last one. */
  lemma CompletedWindowIsMinimal(s: Scan, i: nat)
    requires i < |s.ps| && Completes(s, i) && s.threshold >= 1
    ensures |Intents(s, WindowStart(s, i), i + 1)| == s.threshold
    ensures |Intents(s, WindowStart(s, i), i)| == s.threshold - 1
  {
    var first := WindowStart(s, i);
    BelowThreshold(s, i, i);
    var before, x := Intents(s, first, i), s.ps[i].intentDigest;
    assert Intents(s, first, i + 1) == before + {x};
    assert x in before ==> before + {x} == before;
  }

  lemma {:induction false} BelowThreshold(s: Scan, i: nat, k: nat)
    requires i <= |s.ps| && s.threshold >= 1 && WindowStart(s, i) <= k <= i
    ensures |Intents(s, WindowStart(s, i), k)| < s.threshold
    decreases k
  {
    hide Failed, Succeeded, WindowStart;
    if k > WindowStart(s, i) {
      WindowHolds(s, i, k - 1);
      BelowThreshold(s, i, k - 1);
      if !s.FailedAt(k - 1) {
        assert Intents(s, WindowStart(s, i), k) == Intents(s, WindowStart(s, i), k - 1);
      }
    }
  }

  /** No stretch without success that has the threshold's worth of failed intents goes by without a window completing in it. */
  lemma {:induction false} StretchIsCaught(s: Scan, a: nat, b: nat)
    requires a <= b <= |s.ps| && s.threshold >= 1
    requires forall k :: a <= k < b ==> !s.SucceededAt(k)
    requires |Intents(s, a, b)| >= s.threshold
    ensures exists c :: a <= c < b && Completes(s, c)
  {
    if forall c :: a <= c < b ==> !Completes(s, c) {
      WindowStays(s, a, b);
      BelowThreshold(s, b, b);
      IntentsGrow(s, WindowStart(s, b), a, b, b);
      SubsetSize(Intents(s, a, b), Intents(s, WindowStart(s, b), b));
      assert false;
    }
  }

  lemma {:induction false} WindowStays(s: Scan, a: nat, b: nat)
    requires a <= b <= |s.ps|
    requires forall k :: a <= k < b ==> !s.SucceededAt(k) && !Completes(s, k)
    ensures WindowStart(s, b) == WindowStart(s, a)
    decreases b
  {
    hide Completes;
    if a < b {
      WindowStays(s, a, b - 1);
    }
  }

  lemma {:induction false} SubsetSize<T>(a: set<T>, b: set<T>)
    requires a <= b
    ensures |a| <= |b|
  {
    if a != {} {
      var x :| x in a;
      SubsetSize(a - {x}, b - {x});
    }
  }

  // What is flagged

  /** The failure at k is in a window that gets completed. */
  predicate FlaggedAt(s: Scan, k: nat)
    requires k < |s.ps|
  {
    s.FailedAt(k) && exists i :: k <= i < |s.ps| && Completes(s, i) && WindowStart(s, i) <= k
  }

  lemma {:induction false} FailedIdsMember(s: Scan, first: nat, end: nat, id: string)
    requires first <= end <= |s.ps|
    ensures id in FailedIds(s, first, end) <==> exists k :: first <= k < end && s.FailedAt(k) && s.ps[k].eventId == id
  {
    if first < end {
      FailedIdsMember(s, first, end - 1, id);
    }
  }

  /** Entry k with this ID is a failure of the window completed at i. */
  predicate FlaggedBy(s: Scan, k: nat, i: nat, id: string)
    requires k < |s.ps| && i < |s.ps|
  {
    WindowStart(s, i) <= k <= i && Completes(s, i) && s.FailedAt(k) && s.ps[k].eventId == id
  }

  lemma {:induction false} FlaggedBeforeMember(s: Scan, end: nat, id: string)
    requires end <= |s.ps|
    ensures id in FlaggedBefore(s, end) <==> exists i: nat, k: nat :: i < end && k < end && FlaggedBy(s, k, i, id)
  {
    hide FlaggedBy, Completes, WindowStart, FailedIds;
    if end > 0 {
      FlaggedBeforeMember(s, end - 1, id);
      LastWindowMember(s, end - 1, id);
      assert id in FlaggedBefore(s, end) <==> id in FlaggedBefore(s, end - 1) || (Completes(s, end - 1) && id in FailedIds(s, WindowStart(s, end - 1), end));
      forall i: nat, k: nat | i < end - 1 && k < end && FlaggedBy(s, k, i, id) ensures k < end - 1 {
        FlaggedUpTo(s, k, i, id);
      }
    }
  }

  lemma FlaggedUpTo(s: Scan, k: nat, i: nat, id: string)
    requires k < |s.ps| && i < |s.ps| && FlaggedBy(s, k, i, id)
    ensures k <= i
  {
  }

  lemma LastWindowMember(s: Scan, i: nat, id: string)
    requires i < |s.ps|
    ensures Completes(s, i) && id in FailedIds(s, WindowStart(s, i), i + 1) <==> exists k: nat :: k <= i && FlaggedBy(s, k, i, id)
  {
    hide Completes, WindowStart, FailedIds;
    FailedIdsMember(s, WindowStart(s, i), i + 1, id);
    if Completes(s, i) && id in FailedIds(s, WindowStart(s, i), i + 1) {
      var k :| WindowStart(s, i) <= k < i + 1 && s.FailedAt(k) && s.ps[k].eventId == id;
      assert FlaggedBy(s, k, i, id);
    }
  }

  /** An event is flagged exactly when it is a failure in a completed window. */
  lemma FlaggedExactly(s: Scan, id: string)
    ensures id in FirstOccurrences(FlaggedBefore(s, |s.ps|)) <==> exists k :: 0 <= k < |s.ps| && FlaggedAt(s, k) && s.ps[k].eventId == id
  {
    hide Completes, WindowStart, FlaggedBefore, FirstOccurrences;
    FlaggedBeforeMember(s, |s.ps|, id);
    if id in FlaggedBefore(s, |s.ps|) {
      var i: nat, k: nat :| i < |s.ps| && k < |s.ps| && FlaggedBy(s, k, i, id);
      assert FlaggedAt(s, k);
    }
    forall k: nat | k < |s.ps| && FlaggedAt(s, k) && s.ps[k].eventId == id ensures id in FlaggedBefore(s, |s.ps|) {
      var i :| k <= i < |s.ps| && Completes(s, i) && WindowStart(s, i) <= k;
      assert FlaggedBy(s, k, i, id);
    }
  }

  // The detector

  function Intended(entries: seq<SignalEntry>): seq<SignalEntry> {
    if entries == [] then []
    else
      var front, e := Intended(entries[..|entries| - 1]), entries[|entries| - 1];
      if e.isPrescription && e.intentDigest != "" then front + [e] else front
  }

  method CollectPrescriptions(entries: seq<SignalEntry>) returns (prescriptions: seq<SignalEntry>)
    ensures prescriptions == Intended(entries)
  {
    prescriptions := [];
    for i := 0 to |entries|
      invariant prescriptions == Intended(entries[..i])
    {
      assert entries[..i + 1][..i] == entries[..i];
      if entries[i].isPrescription && entries[i].intentDigest != "" {
        prescriptions := prescriptions + [entries[i]];
      }
    }
    assert entries[..|entries|] == entries;
  }

  lemma AtSuccess(s: Scan, i: nat)
    requires i < |s.ps| && s.SucceededAt(i)
    ensures WindowStart(s, i + 1) == i + 1 && FlaggedBefore(s, i + 1) == FlaggedBefore(s, i)
  {
    hide Intents, FailedIds;
  }

  lemma AtUnknown(s: Scan, i: nat)
    requires i < |s.ps| && !s.SucceededAt(i) && !s.FailedAt(i)
    ensures WindowStart(s, i + 1) == WindowStart(s, i) && FlaggedBefore(s, i + 1) == FlaggedBefore(s, i)
    ensures Intents(s, WindowStart(s, i), i + 1) == Intents(s, WindowStart(s, i), i)
    ensures FailedIds(s, WindowStart(s, i), i + 1) == FailedIds(s, WindowStart(s, i), i)
  {
    hide Failed, Succeeded;
  }

  lemma AtFailure(s: Scan, i: nat)
    requires i < |s.ps| && s.FailedAt(i)
    ensures Intents(s, WindowStart(s, i), i + 1) == Intents(s, WindowStart(s, i), i) + {s.ps[i].intentDigest}
    ensures FailedIds(s, WindowStart(s, i), i + 1) == FailedIds(s, WindowStart(s, i), i) + [s.ps[i].eventId]
    ensures if Completes(s, i)
            then WindowStart(s, i + 1) == i + 1 && FlaggedBefore(s, i + 1) == FlaggedBefore(s, i) + FailedIds(s, WindowStart(s, i), i + 1)
            else WindowStart(s, i + 1) == WindowStart(s, i) && FlaggedBefore(s, i + 1) == FlaggedBefore(s, i)
  {
    hide Completes;
    assert !s.SucceededAt(i);
  }

  lemma NothingInWindow(s: Scan, i: nat)
    requires i <= |s.ps|
    ensures Intents(s, i, i) == {} && FailedIds(s, i, i) == []
  {
  }

  method ScanWindows(s: Scan) returns (eventIds: seq<string>)
    ensures eventIds == FlaggedBefore(s, |s.ps|)
  {
    hide WindowStart, Intents, FailedIds, Failed, Succeeded;
    var distinctIntents: set<string> := {};
    var windowIds: seq<string> := [];
    eventIds := [];
    NothingInWindow(s, 0);
    assert WindowStart(s, 0) == 0;
    for i := 0 to |s.ps|
      invariant eventIds == FlaggedBefore(s, i)
      invariant distinctIntents == Intents(s, WindowStart(s, i), i)
      invariant windowIds == FailedIds(s, WindowStart(s, i), i)
    {
      hide FlaggedBefore;
      NothingInWindow(s, i + 1);
      if Succeeded(s.codes, s.ps[i]) {
        AtSuccess(s, i);
        distinctIntents, windowIds := {}, [];
        continue;
      }
      if !Failed(s.codes, s.ps[i]) {
        AtUnknown(s, i);
        continue;
      }
      AtFailure(s, i);
      distinctIntents := distinctIntents + {s.ps[i].intentDigest};
      windowIds := windowIds + [s.ps[i].eventId];
      if |distinctIntents| >= s.threshold {
        eventIds := eventIds + windowIds;
        distinctIntents, windowIds := {}, [];
      }
    }
  }

  // What a flagged event means, told from the entries alone

  lemma {:induction false} IntendedMember(entries: seq<SignalEntry>, e: SignalEntry)
    ensures multiset(Intended(entries))[e] == if e.isPrescription && e.intentDigest != "" then multiset(entries)[e] else 0
  {
    if entries != [] {
      var n := |entries| - 1;
      IntendedMember(entries[..n], e);
      assert entries == entries[..n] + [entries[n]];
    }
  }

  /** The prescriptions with an intent, all of them and no others, in some order of time. */
  ghost predicate Timeline(entries: seq<SignalEntry>, ps: seq<SignalEntry>) {
    && InOrder(ps)
    && forall e :: multiset(ps)[e] == if e.isPrescription && e.intentDigest != "" then multiset(entries)[e] else 0
  }

  /** The intents of a stretch that ended badly. */
  ghost function BadIntents(entries: seq<SignalEntry>, ps: seq<SignalEntry>, first: nat, end: nat): set<string>
    requires end <= |ps|
  {
    set k | first <= k < end && EndedBadly(entries, ps[k]) :: ps[k].intentDigest
  }

  /** A stretch in which nothing ended well and many different intents ended badly, the one with the ID among them. */
  ghost predicate Thrash(entries: seq<SignalEntry>, ps: seq<SignalEntry>, threshold: int, first: nat, end: nat, id: string) {
    && first < end <= |ps|
    && (forall k | first <= k < end :: !EndedWell(entries, ps[k]))
    && |BadIntents(entries, ps, first, end)| >= threshold
    && exists k :: first <= k < end && EndedBadly(entries, ps[k]) && ps[k].eventId == id
  }

  lemma {:induction false} IntentsTold(s: Scan, entries: seq<SignalEntry>, first: nat, end: nat)
    requires first <= end <= |s.ps| && s.codes == ReportedCodes(entries)
    ensures Intents(s, first, end) == BadIntents(entries, s.ps, first, end)
    decreases end - first
  {
    hide ReportedCodes, EndedBadly;
    if first < end {
      IntentsTold(s, entries, first, end - 1);
      FailedIsEndedBadly(entries, s.ps[end - 1]);
    }
  }

  lemma NothingEndedWell(s: Scan, entries: seq<SignalEntry>, i: nat, j: nat)
    requires i < |s.ps| && s.FailedAt(i) && WindowStart(s, i) <= j <= i && s.codes == ReportedCodes(entries)
    ensures !EndedWell(entries, s.ps[j])
  {
    hide ReportedCodes, EndedBadly, EndedWell, WindowStart, Completes;
    FailedIsEndedBadly(entries, s.ps[j]);
    if j < i {
      WindowHolds(s, i, j);
    }
  }

  lemma FlaggedMeansThrashing(s: Scan, entries: seq<SignalEntry>, id: string)
    requires s.codes == ReportedCodes(entries) && id in FirstOccurrences(FlaggedBefore(s, |s.ps|))
    ensures exists first: nat, end: nat :: Thrash(entries, s.ps, s.threshold, first, end, id)
  {
    hide ReportedCodes, EndedBadly, EndedWell, FirstOccurrences, FlaggedBefore, WindowStart, Completes, BadIntents, Intents;
    FlaggedExactly(s, id);
    var k: nat :| k < |s.ps| && FlaggedAt(s, k) && s.ps[k].eventId == id;
    var i: nat :| k <= i < |s.ps| && Completes(s, i) && WindowStart(s, i) <= k;
    var first := WindowStart(s, i);
    CompletedTold(s, i);
    IntentsTold(s, entries, first, i + 1);
    forall j: nat | first <= j < i + 1 ensures !EndedWell(entries, s.ps[j]) {
      NothingEndedWell(s, entries, i, j);
    }
    FailedIsEndedBadly(entries, s.ps[k]);
    assert Thrash(entries, s.ps, s.threshold, first, i + 1, id);
  }

  lemma CompletedTold(s: Scan, i: nat)
    requires i < |s.ps| && Completes(s, i)
    ensures s.FailedAt(i) && |Intents(s, WindowStart(s, i), i + 1)| >= s.threshold
  {
  }

  method DetectThrashingWithThreshold(entries: seq<SignalEntry>, threshold: int) returns (r: SignalResult, ghost s: Scan)
    ensures s.codes == ReportedCodes(entries) && s.threshold == threshold && SortedPermutation(Intended(entries), s.ps)
    ensures r.name == "thrashing" && r.count == |r.eventIds|
    ensures r.eventIds == FirstOccurrences(FlaggedBefore(s, |s.ps|))
    ensures Timeline(entries, s.ps)
    ensures forall id | id in r.eventIds :: exists first: nat, end: nat :: Thrash(entries, s.ps, threshold, first, end, id)
  {
    hide FlaggedBefore, FirstOccurrences, Thrash, ReportedCodes;
    var codes := CollectCodes(entries);
    var prescriptions := CollectPrescriptions(entries);
    var sorted := SortByTime(prescriptions);
    s := Scan(codes, threshold, sorted);
    var all := ScanWindows(Scan(codes, threshold, sorted));
    var eventIds := MergeIds(all);
    r := SignalResult("thrashing", |eventIds|, eventIds);
    forall e ensures multiset(s.ps)[e] == if e.isPrescription && e.intentDigest != "" then multiset(entries)[e] else 0 {
      IntendedMember(entries, e);
    }
    forall id | id in eventIds ensures exists first: nat, end: nat :: Thrash(entries, s.ps, threshold, first, end, id) {
      FlaggedMeansThrashing(s, entries, id);
    }
  }

  /** When no two prescriptions share a time, sorting leaves no choice and the result is determined. */
  lemma ThrashingIsDetermined(entries: seq<SignalEntry>, s: Scan, t: Scan)
    requires TimesDistinct(Intended(entries)) && s.codes == t.codes && s.threshold == t.threshold
    requires SortedPermutation(Intended(entries), s.ps) && SortedPermutation(Intended(entries), t.ps)
    ensures FlaggedBefore(s, |s.ps|) == FlaggedBefore(t, |t.ps|)
  {
    hide FlaggedBefore, SortedPermutation, TimesDistinct;
    OrderUnique(Intended(entries), s.ps, t.ps);
  }
}
