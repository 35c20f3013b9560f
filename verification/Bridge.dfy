/** Evidence entries to detector input: the two-pass bridge (internal/pipeline/bridge.go) and the one-pass fold that
    the session tracker uses instead (internal/assessment/tracker.go). */
module Bridge {
  import opened Wrappers
  import opened Evidence
  import opened Signals

  datatype Undecodable = BadPrescription(entryId: string) | BadReport(entryId: string)

  predicate Relevant(e: Entry) {
    e.kind.Prescribe? || e.kind.Report?
  }

  predicate BadPrescribe(e: Entry) {
    e.kind.Prescribe? && e.payload.asPrescription.None?
  }

  predicate BadReportEntry(e: Entry) {
    e.kind.Report? && e.payload.asReport.None?
  }

  predicate Decodes(e: Entry) {
    !BadPrescribe(e) && !BadReportEntry(e)
  }

  predicate AllDecode(entries: seq<Entry>) {
    forall i | 0 <= i < |entries| :: Decodes(entries[i])
  }

  /** An entry that defines a canonical action for its own ID. */
  predicate DefinesAction(e: Entry) {
    e.kind.Prescribe? && e.payload.asPrescription.Some? && e.payload.asPrescription.value.canonicalAction.Some?
  }

  function ActionOf(e: Entry): CanonicalAction
    requires DefinesAction(e)
  {
    e.payload.asPrescription.value.canonicalAction.value
  }

  /** The action recorded for each prescription ID; the last definition wins. */
  function ActionsOf(entries: seq<Entry>): map<string, CanonicalAction> {
    if entries == [] then map[]
    else
      var before := ActionsOf(entries[..|entries| - 1]);
      var e := entries[|entries| - 1];
      if DefinesAction(e) then before[e.entryId := ActionOf(e)] else before
  }

  /** What fields that no action fills are left at. */
  const NO_ACTION := CanonicalAction("", "", "", "", 0, "")

  /** The action whose fields an entry's signal carries: a prescription's own, or that of the prescription it reports on. */
  function ActionFor(e: Entry, actions: map<string, CanonicalAction>): CanonicalAction
    requires Relevant(e) && Decodes(e)
  {
    if e.kind.Prescribe? then
      if DefinesAction(e) then ActionOf(e) else NO_ACTION
    else
      var id := e.payload.asReport.value.prescriptionId;
      if id in actions then actions[id] else NO_ACTION
  }

  function SignalWith(e: Entry, action: CanonicalAction): (s: SignalEntry)
    requires Relevant(e) && Decodes(e)
  {
    SignalEntry(
      e.entryId, e.timestamp, e.actor.id, e.artifactDigest, e.intentDigest,
      e.kind.Prescribe?, e.kind.Report?,
      if e.kind.Report? then e.payload.asReport.value.prescriptionId else "",
      if e.kind.Report? then e.payload.asReport.value.exitCode else None,
      if e.kind.Prescribe? then e.payload.asPrescription.value.riskTags else [],
      action.tool, action.operation, action.operationClass, action.scopeClass, action.resourceCount, action.shapeHash)
  }

  function SignalOf(e: Entry, actions: map<string, CanonicalAction>): SignalEntry
    requires Relevant(e) && Decodes(e)
  {
    SignalWith(e, ActionFor(e, actions))
  }

  /** The second pass: every relevant entry, described with the same table of actions. */
  function SignalsWith(entries: seq<Entry>, actions: map<string, CanonicalAction>): (signals: seq<SignalEntry>)
    requires AllDecode(entries)
  {
    if entries == [] then []
    else
      var e := entries[|entries| - 1];
      var front := SignalsWith(entries[..|entries| - 1], actions);
      if Relevant(e) then front + [SignalOf(e, actions)] else front
  }

  /** The ID of the first entry a decoder rejects, if there is one. */
  function FirstBadPrescribe(entries: seq<Entry>): Option<string> {
    if entries == [] then None
    else if BadPrescribe(entries[0]) then Some(entries[0].entryId)
    else FirstBadPrescribe(entries[1..])
  }

  function FirstBadReport(entries: seq<Entry>): Option<string> {
    if entries == [] then None
    else if BadReportEntry(entries[0]) then Some(entries[0].entryId)
    else FirstBadReport(entries[1..])
  }

  lemma {:induction false} FirstBadAgree(entries: seq<Entry>)
    ensures FirstBadPrescribe(entries).None? && FirstBadReport(entries).None? <==> AllDecode(entries)
  {
    if entries != [] {
      FirstBadAgree(entries[1..]);
      if AllDecode(entries[1..]) && Decodes(entries[0]) {
        forall i | 0 <= i < |entries| ensures Decodes(entries[i]) {
          if i > 0 {
            assert entries[i] == entries[1..][i - 1];
          }
        }
      }
      if AllDecode(entries) {
        assert Decodes(entries[0]);
        forall i | 0 <= i < |entries[1..]| ensures Decodes(entries[1..][i]) {
          assert Decodes(entries[i + 1]);
        }
      }
    }
  }

  /** What the two passes compute. A bad prescription is found in the first pass, so it wins over any bad report. */
  function TwoPass(entries: seq<Entry>): Result<seq<SignalEntry>, Undecodable> {
    FirstBadAgree(entries);
    if FirstBadPrescribe(entries).Some? then Failure(BadPrescription(FirstBadPrescribe(entries).value))
    else if FirstBadReport(entries).Some? then Failure(BadReport(FirstBadReport(entries).value))
    else Success(SignalsWith(entries, ActionsOf(entries)))
  }

  lemma {:induction false} FirstBadPrescribeAt(entries: seq<Entry>, i: nat)
    requires i < |entries| && BadPrescribe(entries[i])
    requires forall k | 0 <= k < i :: !BadPrescribe(entries[k])
    ensures FirstBadPrescribe(entries) == Some(entries[i].entryId)
  {
    if i > 0 {
      assert entries[1..][i - 1] == entries[i];
      assert forall k | 0 <= k < i - 1 :: entries[1..][k] == entries[k + 1];
      FirstBadPrescribeAt(entries[1..], i - 1);
    }
  }

  lemma {:induction false} FirstBadReportAt(entries: seq<Entry>, i: nat)
    requires i < |entries| && BadReportEntry(entries[i])
    requires forall k | 0 <= k < i :: !BadReportEntry(entries[k])
    ensures FirstBadReport(entries) == Some(entries[i].entryId)
  {
    if i > 0 {
      assert entries[1..][i - 1] == entries[i];
      assert forall k | 0 <= k < i - 1 :: entries[1..][k] == entries[k + 1];
      FirstBadReportAt(entries[1..], i - 1);
    }
  }

  lemma {:induction false} NoBadPrescribe(entries: seq<Entry>)
    requires forall k | 0 <= k < |entries| :: !BadPrescribe(entries[k])
    ensures FirstBadPrescribe(entries) == None
  {
    if entries != [] {
      assert forall k | 0 <= k < |entries[1..]| :: entries[1..][k] == entries[k + 1];
      NoBadPrescribe(entries[1..]);
    }
  }

  /** The first pass: the table of actions, or the first prescription that does not decode. */
  method CollectPrescriptions(entries: seq<Entry>) returns (r: Result<map<string, CanonicalAction>, Undecodable>)
    ensures FirstBadPrescribe(entries) == None ==> r == Success(ActionsOf(entries))
    ensures FirstBadPrescribe(entries).Some? ==> r == Failure(BadPrescription(FirstBadPrescribe(entries).value))
  {
    var prescriptions: map<string, CanonicalAction> := map[];
    for i := 0 to |entries|
      invariant prescriptions == ActionsOf(entries[..i])
      invariant forall k | 0 <= k < i :: !BadPrescribe(entries[k])
    {
      var e := entries[i];
      assert entries[..i + 1][..i] == entries[..i];
      if !e.kind.Prescribe? {
        continue;
      }
      if e.payload.asPrescription.None? {
        FirstBadPrescribeAt(entries, i);
        return Failure(BadPrescription(e.entryId));
      }
      if e.payload.asPrescription.value.canonicalAction.Some? {
        prescriptions := prescriptions[e.entryId := e.payload.asPrescription.value.canonicalAction.value];
      }
    }
    assert entries[..|entries|] == entries;
    NoBadPrescribe(entries);
    r := Success(prescriptions);
  }

  /** The second pass: one signal entry per prescribe or report, or the first report that does not decode. */
  method DescribeEntries(entries: seq<Entry>, prescriptions: map<string, CanonicalAction>)
    returns (r: Result<seq<SignalEntry>, Undecodable>)
    requires FirstBadPrescribe(entries) == None
    ensures AllDecode(entries) ==> r == Success(SignalsWith(entries, prescriptions))
    ensures !AllDecode(entries) ==>
      FirstBadReport(entries).Some? && r == Failure(BadReport(FirstBadReport(entries).value))
  {
    hide SignalWith;
    GoodPrescribes(entries);
    var result: seq<SignalEntry> := [];
    for i := 0 to |entries|
      invariant AllDecode(entries[..i])
      invariant result == SignalsWith(entries[..i], prescriptions)
    {
      var e := entries[i];
      assert entries[..i + 1][..i] == entries[..i];
      match e.kind {
        case Prescribe =>
          var p := e.payload.asPrescription.value;
          result := result + [SignalWith(e, if p.canonicalAction.Some? then p.canonicalAction.value else NO_ACTION)];
        case Report =>
          if e.payload.asReport.None? {
            assert forall k | 0 <= k < i :: entries[..i][k] == entries[k];
            FirstBadReportAt(entries, i);
            return Failure(BadReport(e.entryId));
          }
          var id := e.payload.asReport.value.prescriptionId;
          result := result + [SignalWith(e, if id in prescriptions then prescriptions[id] else NO_ACTION)];
        case _ =>
      }
    }
    assert entries[..|entries|] == entries;
    r := Success(result);
  }

  lemma {:induction false} GoodPrescribes(entries: seq<Entry>)
    requires FirstBadPrescribe(entries) == None
    ensures forall k | 0 <= k < |entries| :: !BadPrescribe(entries[k])
  {
    if entries != [] {
      GoodPrescribes(entries[1..]);
      forall k | 0 <= k < |entries| ensures !BadPrescribe(entries[k]) {
        assert k > 0 ==> entries[k] == entries[1..][k - 1];
      }
    }
  }

  method EvidenceToSignalEntries(entries: seq<Entry>) returns (r: Result<seq<SignalEntry>, Undecodable>)
    ensures r == TwoPass(entries)
  {
    FirstBadAgree(entries);
    var prescriptions := CollectPrescriptions(entries);
    match prescriptions {
      case Failure(error) => r := Failure(error);
      case Success(table) => r := DescribeEntries(entries, table);
    }
  }

  /** What a fold over the entries collects when each report is described with the prescriptions seen so far. */
  function OnePass(entries: seq<Entry>): (signals: seq<SignalEntry>)
    requires AllDecode(entries)
  {
    if entries == [] then []
    else
      var front := entries[..|entries| - 1];
      var e := entries[|entries| - 1];
      if Relevant(e) then OnePass(front) + [SignalOf(e, ActionsOf(front))] else OnePass(front)
  }

  function CountPrescriptions(signals: seq<SignalEntry>): nat {
    if signals == [] then 0
    else CountPrescriptions(signals[..|signals| - 1]) + if signals[|signals| - 1].isPrescription then 1 else 0
  }

  function CountPrescribes(entries: seq<Entry>): nat {
    if entries == [] then 0
    else CountPrescribes(entries[..|entries| - 1]) + if entries[|entries| - 1].kind.Prescribe? then 1 else 0
  }

  lemma CountAppend(signals: seq<SignalEntry>, s: SignalEntry)
    ensures CountPrescriptions(signals + [s]) == CountPrescriptions(signals) + if s.isPrescription then 1 else 0
  {
    assert (signals + [s])[..|signals|] == signals;
  }

  /** The prescribe and report entries, in order. */
  function RelevantOf(entries: seq<Entry>): seq<Entry> {
    if entries == [] then []
    else
      var front := RelevantOf(entries[..|entries| - 1]);
      if Relevant(entries[|entries| - 1]) then front + [entries[|entries| - 1]] else front
  }

  /** One signal entry for each entry, with its ID, time and kind. */
  predicate Describes(signals: seq<SignalEntry>, entries: seq<Entry>) {
    && |signals| == |entries|
    && forall i | 0 <= i < |entries| ::
         && signals[i].eventId == entries[i].entryId && signals[i].timestamp == entries[i].timestamp
         && signals[i].isPrescription == entries[i].kind.Prescribe? && signals[i].isReport == entries[i].kind.Report?
  }

  lemma DescribesSnoc(signals: seq<SignalEntry>, entries: seq<Entry>, e: Entry, actions: map<string, CanonicalAction>)
    requires Decodes(e) && Relevant(e) && Describes(signals, entries)
    ensures Describes(signals + [SignalOf(e, actions)], entries + [e])
  {
  }

  lemma {:induction false} PassesDescribe(entries: seq<Entry>, actions: map<string, CanonicalAction>)
    requires AllDecode(entries)
    ensures Describes(OnePass(entries), RelevantOf(entries))
    ensures Describes(SignalsWith(entries, actions), RelevantOf(entries))
  {
    hide Describes, SignalOf;
    if entries == [] {
      NothingDescribed();
    } else {
      var front := entries[..|entries| - 1];
      var e := entries[|entries| - 1];
      PassesDescribe(front, actions);
      if Relevant(e) {
        DescribesSnoc(OnePass(front), RelevantOf(front), e, ActionsOf(front));
        DescribesSnoc(SignalsWith(front, actions), RelevantOf(front), e, actions);
      }
    }
  }

  lemma NothingDescribed()
    ensures Describes([], [])
  {
  }

  /** Both passes describe the same entries, exactly the prescribe and report entries in order, and as many prescriptions as
      the entries hold. */
  lemma {:induction false} PassesHaveOneLength(entries: seq<Entry>, actions: map<string, CanonicalAction>)
    requires AllDecode(entries)
    ensures Describes(OnePass(entries), RelevantOf(entries))
    ensures Describes(SignalsWith(entries, actions), RelevantOf(entries))
    ensures |OnePass(entries)| == |SignalsWith(entries, actions)|
    ensures CountPrescriptions(OnePass(entries)) == CountPrescribes(entries)
    ensures CountPrescriptions(SignalsWith(entries, actions)) == CountPrescribes(entries)
  {
    hide Describes;
    PassesDescribe(entries, actions);
    if entries != [] {
      var front := entries[..|entries| - 1];
      var e := entries[|entries| - 1];
      PassesHaveOneLength(front, actions);
      if Relevant(e) {
        CountAppend(OnePass(front), SignalOf(e, ActionsOf(front)));
        CountAppend(SignalsWith(front, actions), SignalOf(e, actions));
      }
    }
  }

  /** A report at index i finds the same action there as in the whole. */
  ghost predicate SameActionAt(entries: seq<Entry>, i: nat, whole: map<string, CanonicalAction>)
    requires i < |entries| && AllDecode(entries)
  {
    entries[i].kind.Report? ==> ActionFor(entries[i], ActionsOf(entries[..i])) == ActionFor(entries[i], whole)
  }

  ghost predicate SameActionThroughout(entries: seq<Entry>, whole: map<string, CanonicalAction>)
    requires AllDecode(entries)
  {
    forall i | 0 <= i < |entries| :: SameActionAt(entries, i, whole)
  }

  lemma SameActionSnoc(entries: seq<Entry>, whole: map<string, CanonicalAction>)
    requires AllDecode(entries) && entries != []
    ensures var n := |entries| - 1;
      SameActionThroughout(entries, whole) <==> SameActionThroughout(entries[..n], whole) && SameActionAt(entries, n, whole)
  {
    var n := |entries| - 1;
    forall i | 0 <= i < n
      ensures SameActionAt(entries[..n], i, whole) <==> SameActionAt(entries, i, whole)
    {
      assert entries[..n][..i] == entries[..i];
    }
  }

  lemma SnocEqual<T>(s: seq<T>, t: seq<T>, a: T, b: T)
    requires |s| == |t|
    ensures s + [a] == t + [b] <==> s == t && a == b
  {
    if s + [a] == t + [b] {
      assert s == (s + [a])[..|s|] == (t + [b])[..|s|] == t;
      assert a == (s + [a])[|s|];
    }
  }

  /** One table describes the entries as the fold does exactly when every report finds the same action in both. */
  lemma {:induction false} PassesAgreeExactly(entries: seq<Entry>, whole: map<string, CanonicalAction>)
    requires AllDecode(entries)
    ensures OnePass(entries) == SignalsWith(entries, whole) <==> SameActionThroughout(entries, whole)
  {
    if entries != [] {
      var n := |entries| - 1;
      var front, e := entries[..n], entries[n];
      PassesAgreeExactly(front, whole);
      PassesHaveOneLength(front, whole);
      SameActionSnoc(entries, whole);
      if Relevant(e) {
        SnocEqual(OnePass(front), SignalsWith(front, whole), SignalOf(e, ActionsOf(front)), SignalOf(e, whole));
      }
    }
  }

  /** No entry defines the action of a prescription after a report that names it. */
  predicate NoLatePrescribe(entries: seq<Entry>)
    requires AllDecode(entries)
  {
    forall i, j | 0 <= i < j < |entries| && entries[i].kind.Report? && DefinesAction(entries[j]) ::
      entries[j].entryId != entries[i].payload.asReport.value.prescriptionId
  }

  lemma {:induction false} ActionsUnchangedAfter(entries: seq<Entry>, i: nat, id: string)
    requires i <= |entries|
    requires forall j | i <= j < |entries| && DefinesAction(entries[j]) :: entries[j].entryId != id
    ensures id in ActionsOf(entries) <==> id in ActionsOf(entries[..i])
    ensures id in ActionsOf(entries) ==> ActionsOf(entries)[id] == ActionsOf(entries[..i])[id]
  {
    if i == |entries| {
      assert entries[..i] == entries;
    } else {
      var front := entries[..|entries| - 1];
      assert front[..i] == entries[..i];
      ActionsUnchangedAfter(front, i, id);
    }
  }

  /** The one-pass fold yields the bridge's list whenever no report precedes a prescription it names. */
  lemma OnePassIsTwoPass(entries: seq<Entry>)
    requires AllDecode(entries) && NoLatePrescribe(entries)
    ensures TwoPass(entries) == Success(OnePass(entries))
    ensures CountPrescriptions(OnePass(entries)) == CountPrescribes(entries)
  {
    var whole := ActionsOf(entries);
    forall i | 0 <= i < |entries|
      ensures SameActionAt(entries, i, whole)
    {
      if entries[i].kind.Report? {
        ActionsUnchangedAfter(entries, i, entries[i].payload.asReport.value.prescriptionId);
      }
    }
    PassesAgreeExactly(entries, whole);
    PassesHaveOneLength(entries, whole);
    FirstBadAgree(entries);
  }

  // What the signal entries say, told from the fields of the evidence alone

  /** Where in the log the prescribe and report entries stand. */
  function Positions(entries: seq<Entry>): (ps: seq<nat>)
    ensures forall k | 0 <= k < |ps| :: ps[k] < |entries|
  {
    if entries == [] then []
    else
      var n := |entries| - 1;
      var front := Positions(entries[..n]);
      if entries[n].kind.Prescribe? || entries[n].kind.Report? then front + [n] else front
  }

  lemma {:induction false} PositionsAreAll(entries: seq<Entry>)
    ensures forall j, k | 0 <= j < k < |Positions(entries)| :: Positions(entries)[j] < Positions(entries)[k]
    ensures forall p | 0 <= p < |entries| :: p in Positions(entries) <==> entries[p].kind.Prescribe? || entries[p].kind.Report?
  {
    if entries != [] {
      var n := |entries| - 1;
      PositionsAreAll(entries[..n]);
      forall p | 0 <= p < |entries| ensures p in Positions(entries) <==> entries[p].kind.Prescribe? || entries[p].kind.Report? {
        if p < n {
          assert entries[..n][p] == entries[p];
        }
      }
    }
  }

  /** The prescription at d gives its ID an action, and no later one before n does. */
  predicate LastDefinition(entries: seq<Entry>, n: nat, id: string, d: nat)
    requires n <= |entries|
  {
    && d < n && Gives(entries[d], id)
    && forall k | d < k < n :: !Gives(entries[k], id)
  }

  predicate Gives(e: Entry, id: string) {
    && e.kind.Prescribe? && e.entryId == id
    && e.payload.asPrescription.Some? && e.payload.asPrescription.value.canonicalAction.Some?
  }

  /** The fields that are the entry's own. */
  predicate TellsEntry(s: SignalEntry, e: Entry) {
    && s.eventId == e.entryId && s.timestamp == e.timestamp && s.actorId == e.actor.id
    && s.artifactDigest == e.artifactDigest && s.intentDigest == e.intentDigest
    && s.isPrescription == e.kind.Prescribe? && s.isReport == e.kind.Report?
    && (e.kind.Prescribe? ==>
          && e.payload.asPrescription.Some? && s.riskTags == e.payload.asPrescription.value.riskTags
          && s.prescriptionId == "" && s.exitCode == None)
    && (e.kind.Report? ==>
          && e.payload.asReport.Some? && s.riskTags == []
          && s.prescriptionId == e.payload.asReport.value.prescriptionId && s.exitCode == e.payload.asReport.value.exitCode)
  }

  /** The fields of an action, or those of none. */
  predicate TellsAction(s: SignalEntry, action: Option<CanonicalAction>) {
    match action
    case Some(a) =>
      && s.tool == a.tool && s.operation == a.operation && s.operationClass == a.operationClass
      && s.scopeClass == a.scopeClass && s.resourceCount == a.resourceCount && s.shapeHash == a.shapeHash
    case None =>
      && s.tool == s.operation == s.operationClass == s.scopeClass == s.shapeHash == "" && s.resourceCount == 0
  }

  /** A prescription's own action; for a report that of the last definition of the ID it names, among the first n entries. */
  ghost predicate TellsActionOf(s: SignalEntry, e: Entry, entries: seq<Entry>, n: nat)
    requires n <= |entries|
  {
    && (e.kind.Prescribe? ==> e.payload.asPrescription.Some? && TellsAction(s, e.payload.asPrescription.value.canonicalAction))
    && (e.kind.Report? ==>
          e.payload.asReport.Some? &&
          var id := e.payload.asReport.value.prescriptionId;
          || (exists d: nat :: LastDefinition(entries, n, id, d) && TellsAction(s, entries[d].payload.asPrescription.value.canonicalAction))
          || ((forall k | 0 <= k < n :: !Gives(entries[k], id)) && TellsAction(s, None)))
  }

  /** The table of actions holds the last definition of each ID. */
  lemma {:induction false} LastDefinitionWins(entries: seq<Entry>, n: nat, id: string)
    requires n <= |entries|
    ensures id in ActionsOf(entries[..n]) ==>
              exists d: nat :: LastDefinition(entries, n, id, d)
                          && entries[d].payload.asPrescription.value.canonicalAction == Some(ActionsOf(entries[..n])[id])
    ensures id !in ActionsOf(entries[..n]) ==> forall k | 0 <= k < n :: !Gives(entries[k], id)
    decreases n
  {
    if n > 0 {
      var m := n - 1;
      LastDefinitionWins(entries, m, id);
      assert entries[..n][..m] == entries[..m];
      if Gives(entries[m], id) {
        assert LastDefinition(entries, n, id, m);
      } else if id in ActionsOf(entries[..m]) {
        var d: nat :| LastDefinition(entries, m, id, d)
                 && entries[d].payload.asPrescription.value.canonicalAction == Some(ActionsOf(entries[..m])[id]);
        assert LastDefinition(entries, n, id, d);
      }
    }
  }

  lemma SignalTells(e: Entry, entries: seq<Entry>, n: nat)
    requires Relevant(e) && Decodes(e) && n <= |entries|
    ensures TellsEntry(SignalOf(e, ActionsOf(entries[..n])), e)
    ensures TellsActionOf(SignalOf(e, ActionsOf(entries[..n])), e, entries, n)
  {
    hide LastDefinition, Gives, ActionsOf;
    if e.kind.Report? {
      var id := e.payload.asReport.value.prescriptionId;
      LastDefinitionWins(entries, n, id);
    }
  }

  /** Signal entry k tells prescribe or report entry k. Actions are looked up in the whole log, or in what came before. */
  ghost predicate Tells(signals: seq<SignalEntry>, entries: seq<Entry>, whole: bool) {
    var ps := Positions(entries);
    && |signals| == |ps|
    && forall k | 0 <= k < |ps| ::
         && TellsEntry(signals[k], entries[ps[k]])
         && TellsActionOf(signals[k], entries[ps[k]], entries, if whole then |entries| else ps[k])
  }

  lemma {:induction false} SignalsTell(entries: seq<Entry>, n: nat)
    requires AllDecode(entries) && n <= |entries|
    ensures var ps, signals := Positions(entries[..n]), SignalsWith(entries[..n], ActionsOf(entries));
            && |signals| == |ps|
            && forall k | 0 <= k < |ps| ::
                 && TellsEntry(signals[k], entries[ps[k]]) && TellsActionOf(signals[k], entries[ps[k]], entries, |entries|)
    decreases n
  {
    hide TellsEntry, TellsActionOf, ActionsOf, SignalOf;
    if n > 0 {
      SignalsTell(entries, n - 1);
      assert entries[..n][..n - 1] == entries[..n - 1];
      if Relevant(entries[n - 1]) {
        SignalTells(entries[n - 1], entries, |entries|);
        assert entries[..|entries|] == entries;
      }
    }
  }

  /** What the bridge returns for a log that decodes: entry k tells the k-th prescribe or report entry, field by field, with
      the action its ID was given last in the whole log. */
  lemma TwoPassTells(entries: seq<Entry>)
    ensures TwoPass(entries).Success? <==> AllDecode(entries)
    ensures TwoPass(entries).Success? ==> Tells(TwoPass(entries).value, entries, true)
  {
    hide TellsEntry, TellsActionOf, ActionsOf, SignalOf, Positions;
    FirstBadAgree(entries);
    if AllDecode(entries) {
      SignalsTell(entries, |entries|);
      assert entries[..|entries|] == entries;
    }
  }

  /** What the fold collects: the same, with the action its ID was given last before the entry. */
  lemma {:induction false} OnePassTells(entries: seq<Entry>)
    requires AllDecode(entries)
    ensures Tells(OnePass(entries), entries, false)
  {
    FoldTells(entries, |entries|);
    assert entries[..|entries|] == entries;
  }

  lemma {:induction false} FoldTells(entries: seq<Entry>, n: nat)
    requires AllDecode(entries) && n <= |entries|
    ensures var ps, signals := Positions(entries[..n]), OnePass(entries[..n]);
            && |signals| == |ps|
            && forall k | 0 <= k < |ps| ::
                 && TellsEntry(signals[k], entries[ps[k]]) && TellsActionOf(signals[k], entries[ps[k]], entries, ps[k])
    decreases n
  {
    hide TellsEntry, TellsActionOf, ActionsOf, SignalOf;
    if n > 0 {
      FoldTells(entries, n - 1);
      assert entries[..n][..n - 1] == entries[..n - 1];
      if Relevant(entries[n - 1]) {
        SignalTells(entries[n - 1], entries, n - 1);
      }
    }
  }
}
