/** Risk escalation: a prescription more severe than its actor and tool usually are (internal/signal/risk_escalation.go). */
module RiskEscalation {
  import opened Wrappers
  import opened Signals
  import opened TimeOrder

  const BASELINE_WINDOW := 30 * 24 * 60 * 60 * 1_000_000_000
  const MIN_BASELINE_SAMPLES := 3

  /** The severity of the elevated risk level, 0 for low to 3 for critical. */
  type Severity = SignalEntry -> nat

  datatype BehaviorKey = BehaviorKey(actor: string, tool: string)

  datatype SeverityEntry = SeverityEntry(ts: int, severity: nat)

  datatype Change = Escalation | Demotion

  datatype RiskEvent = RiskEvent(change: Change, timestamp: int, entryRef: string, baseline: nat, actual: nat)

  function KeyOf(e: SignalEntry): BehaviorKey {
    BehaviorKey(e.actorId, e.tool)
  }

  // The baseline

  /** The most frequent severity, the lowest of them when several are. */
  predicate IsMode(severities: seq<nat>, m: nat) {
    && m in severities
    && forall v :: v in severities ==>
                     multiset(severities)[v] < multiset(severities)[m] || (multiset(severities)[v] == multiset(severities)[m] && m <= v)
  }

  /** There is only one, so it does not matter in which order the counts are visited, or the entries. */
  lemma ModeIsUnique(a: seq<nat>, b: seq<nat>, m: nat, n: nat)
    requires multiset(a) == multiset(b) && IsMode(a, m) && IsMode(b, n)
    ensures m == n
  {
    assert m in multiset(a) && n in multiset(b);
    assert m in b && n in a;
  }

  function SeveritiesOf(entries: seq<SeverityEntry>): seq<nat> {
    seq(|entries|, (i: nat) requires i < |entries| => entries[i].severity)
  }

  method CountSeverities(entries: seq<SeverityEntry>) returns (counts: map<nat, nat>)
    ensures forall v :: v in counts <==> v in SeveritiesOf(entries)
    ensures forall v :: v in counts ==> counts[v] == multiset(SeveritiesOf(entries))[v]
  {
    counts := map[];
    for i := 0 to |entries|
      invariant forall v :: v in counts <==> v in SeveritiesOf(entries[..i])
      invariant forall v :: v in counts ==> counts[v] == multiset(SeveritiesOf(entries[..i]))[v]
    {
      assert SeveritiesOf(entries[..i + 1]) == SeveritiesOf(entries[..i]) + [entries[i].severity];
      var sev := entries[i].severity;
      assert sev !in counts ==> sev !in multiset(SeveritiesOf(entries[..i]));
      counts := counts[sev := (if sev in counts then counts[sev] else 0) + 1];
    }
    assert entries[..|entries|] == entries;
  }

  method BaselineSeverity(entries: seq<SeverityEntry>) returns (baseline: int)
    ensures entries == [] ==> baseline == 0
    ensures entries != [] ==> baseline >= 0 && IsMode(SeveritiesOf(entries), baseline)
  {
    if |entries| == 0 {
      return 0;
    }
    var counts := CountSeverities(entries);
    var bestSev: int, bestCount: nat := -1, 0;
    var rest := counts.Keys;
    while rest != {}
      invariant rest <= counts.Keys
      invariant bestSev == -1 ==> rest == counts.Keys && bestCount == 0
      invariant bestSev != -1 ==> bestSev >= 0 && bestSev in counts.Keys - rest && counts[bestSev] == bestCount
      invariant bestSev != -1 ==> forall v :: v in counts.Keys - rest ==> counts[v] < bestCount || (counts[v] == bestCount && bestSev <= v)
      decreases |rest|
    {
      var sev :| sev in rest;
      var count := counts[sev];
      assert count == multiset(SeveritiesOf(entries))[sev] > 0;
      rest := rest - {sev};
      if count > bestCount || (count == bestCount && (bestSev == -1 || sev < bestSev)) {
        bestSev, bestCount := sev, count;
      }
    }
    assert entries[0].severity == SeveritiesOf(entries)[0];
    assert entries[0].severity in counts;
    return bestSev;
  }

  // Events

  predicate InWindow(h: SeverityEntry, anchor: int) {
    anchor - BASELINE_WINDOW <= h.ts < anchor
  }

  function Within(history: seq<SeverityEntry>, anchor: int): seq<SeverityEntry> {
    if history == [] then []
    else
      var front, h := Within(history[..|history| - 1], anchor), history[|history| - 1];
      if InWindow(h, anchor) then front + [h] else front
  }

  method WithinWindow(history: seq<SeverityEntry>, anchor: int) returns (r: seq<SeverityEntry>)
    ensures r == Within(history, anchor)
  {
    r := [];
    for i := 0 to |history|
      invariant r == Within(history[..i], anchor)
    {
      assert history[..i + 1][..i] == history[..i];
      if !(history[i].ts < anchor - BASELINE_WINDOW) && history[i].ts < anchor {
        r := r + [history[i]];
      }
    }
    assert history[..|history|] == history;
  }

  /** What the prescriptions of a behaviour left on record. */
  function History(entries: seq<SignalEntry>, severity: Severity, key: BehaviorKey): seq<SeverityEntry> {
    if entries == [] then []
    else
      var front, e := History(entries[..|entries| - 1], severity, key), entries[|entries| - 1];
      if e.isPrescription && KeyOf(e) == key then front + [SeverityEntry(e.timestamp, severity(e))] else front
  }

  function Prior(before: seq<SignalEntry>, severity: Severity, e: SignalEntry): seq<SeverityEntry> {
    Within(History(before, severity, KeyOf(e)), e.timestamp)
  }

  /** The events a prescription may give rise to, given what came before it. */
  ghost predicate Raises(before: seq<SignalEntry>, severity: Severity, e: SignalEntry, events: seq<RiskEvent>) {
    var prior := Prior(before, severity, e);
    if !e.isPrescription || |prior| < 3 then events == []
    else
      exists m :: IsMode(SeveritiesOf(prior), m) &&
        events == if severity(e) > m then [RiskEvent(Escalation, e.timestamp, e.eventId, m, severity(e))]
                  else if severity(e) < m then [RiskEvent(Demotion, e.timestamp, e.eventId, m, severity(e))]
                  else []
  }

  /** The events of a log, entry by entry. */
  ghost predicate EventsOf(entries: seq<SignalEntry>, severity: Severity, events: seq<seq<RiskEvent>>) {
    |events| == |entries| && forall i :: 0 <= i < |entries| ==> Raises(entries[..i], severity, entries[i], events[i])
  }

  function Flatten(events: seq<seq<RiskEvent>>): seq<RiskEvent> {
    if events == [] then [] else Flatten(events[..|events| - 1]) + events[|events| - 1]
  }

  /** A log has one list of events. */
  lemma EventsAreDetermined(entries: seq<SignalEntry>, severity: Severity, a: seq<seq<RiskEvent>>, b: seq<seq<RiskEvent>>)
    requires EventsOf(entries, severity, a) && EventsOf(entries, severity, b)
    ensures a == b
  {
    hide EventsOf;
    assert entries + [] == entries;
    EventsAreCausal(entries, [], severity, a, b);
    SameLength(entries, severity, b);
    assert b[..|entries|] == b;
  }

  lemma SameLength(entries: seq<SignalEntry>, severity: Severity, events: seq<seq<RiskEvent>>)
    requires EventsOf(entries, severity, events)
    ensures |events| == |entries|
  {
  }

  /** What comes later changes no event. */
  lemma EventsAreCausal(entries: seq<SignalEntry>, later: seq<SignalEntry>, severity: Severity, events: seq<seq<RiskEvent>>, all: seq<seq<RiskEvent>>)
    requires EventsOf(entries, severity, events) && EventsOf(entries + later, severity, all)
    ensures all[..|entries|] == events
  {
    hide Raises;
    forall i | 0 <= i < |entries| ensures all[i] == events[i] {
      assert (entries + later)[..i] == entries[..i];
      RaisesOne(entries[..i], severity, entries[i], events[i], all[i]);
    }
  }

  lemma RaisesOne(before: seq<SignalEntry>, severity: Severity, e: SignalEntry, a: seq<RiskEvent>, b: seq<RiskEvent>)
    requires Raises(before, severity, e, a) && Raises(before, severity, e, b)
    ensures a == b
  {
    hide IsMode, Prior;
    var prior := Prior(before, severity, e);
    if e.isPrescription && |prior| >= MIN_BASELINE_SAMPLES {
      forall m, n | IsMode(SeveritiesOf(prior), m) && IsMode(SeveritiesOf(prior), n) ensures m == n {
        ModeIsUnique(SeveritiesOf(prior), SeveritiesOf(prior), m, n);
      }
    }
  }

  // In order of time

  /** An entry counts for another's baseline: a prescription of the same actor with the same tool, strictly before it and not
      more than thirty days. */
  predicate CountsFor(h: SignalEntry, e: SignalEntry) {
    && h.isPrescription && h.actorId == e.actorId && h.tool == e.tool
    && h.timestamp < e.timestamp && e.timestamp - h.timestamp <= 30 * 24 * 60 * 60 * 1_000_000_000
  }

  /** All entries of the log that count for e, wherever they stand. */
  function Samples(entries: seq<SignalEntry>, severity: Severity, e: SignalEntry): multiset<nat> {
    if entries == [] then multiset{}
    else
      Samples(entries[..|entries| - 1], severity, e)
      + if CountsFor(entries[|entries| - 1], e) then multiset{severity(entries[|entries| - 1])} else multiset{}
  }

  lemma {:induction false} PriorSamples(before: seq<SignalEntry>, severity: Severity, e: SignalEntry)
    ensures multiset(SeveritiesOf(Prior(before, severity, e))) == Samples(before, severity, e)
  {
    if before != [] {
      var front, h := before[..|before| - 1], before[|before| - 1];
      PriorSamples(front, severity, e);
      if h.isPrescription && KeyOf(h) == KeyOf(e) {
        var x := SeverityEntry(h.timestamp, severity(h));
        WithinSnoc(History(front, severity, KeyOf(e)), x, e.timestamp);
        assert SeveritiesOf(Prior(front, severity, e) + [x]) == SeveritiesOf(Prior(front, severity, e)) + [severity(h)];
      }
    }
  }

  lemma WithinSnoc(history: seq<SeverityEntry>, h: SeverityEntry, anchor: int)
    ensures Within(history + [h], anchor) == if InWindow(h, anchor) then Within(history, anchor) + [h] else Within(history, anchor)
  {
    assert (history + [h])[..|history|] == history;
  }

  lemma {:induction false} LaterDoNotCount(entries: seq<SignalEntry>, severity: Severity, i: nat, n: nat)
    requires i < |entries| && i <= n <= |entries| && InOrder(entries)
    ensures Samples(entries[..n], severity, entries[i]) == Samples(entries[..i], severity, entries[i])
    decreases n
  {
    if i < n {
      assert entries[..n][..n - 1] == entries[..n - 1];
      LaterDoNotCount(entries, severity, i, n - 1);
      assert !CountsFor(entries[n - 1], entries[i]);
    }
  }

  /** In a log in order of time the baseline of an entry is that of all entries within the window before it, so entries that
      share a time do not influence each other, in whatever order they stand. */
  lemma BaselineIsTheWindow(entries: seq<SignalEntry>, severity: Severity, i: nat)
    requires i < |entries| && InOrder(entries)
    ensures multiset(SeveritiesOf(Prior(entries[..i], severity, entries[i]))) == Samples(entries, severity, entries[i])
  {
    hide Prior, Samples;
    PriorSamples(entries[..i], severity, entries[i]);
    LaterDoNotCount(entries, severity, i, |entries|);
    assert entries[..|entries|] == entries;
  }

  // The detector

  /** The event of one prescription against its baseline. */
  method Compare(prior: seq<SeverityEntry>, sev: nat, e: SignalEntry) returns (raised: seq<RiskEvent>)
    ensures |prior| < 3 ==> raised == []
    ensures |prior| >= 3 ==>
              exists m :: IsMode(SeveritiesOf(prior), m) &&
                raised == if sev > m then [RiskEvent(Escalation, e.timestamp, e.eventId, m, sev)]
                          else if sev < m then [RiskEvent(Demotion, e.timestamp, e.eventId, m, sev)]
                          else []
  {
    hide IsMode;
    raised := [];
    if |prior| >= MIN_BASELINE_SAMPLES {
      var baseline := BaselineSeverity(prior);
      if sev > baseline {
        raised := [RiskEvent(Escalation, e.timestamp, e.eventId, baseline, sev)];
      } else if sev < baseline {
        raised := [RiskEvent(Demotion, e.timestamp, e.eventId, baseline, sev)];
      }
      assert IsMode(SeveritiesOf(prior), baseline);
    }
  }

  method DetectRiskEscalationEvents(entries: seq<SignalEntry>, severity: Severity) returns (events: seq<RiskEvent>)
    ensures exists byEntry :: EventsOf(entries, severity, byEntry) && events == Flatten(byEntry)
  {
    hide IsMode, History, Within, Raises, KeyOf;
    var history: map<BehaviorKey, seq<SeverityEntry>> := map[];
    events := [];
    ghost var byEntry: seq<seq<RiskEvent>> := [];
    NoHistory(severity);
    for i := 0 to |entries|
      invariant forall k :: k !in history ==> History(entries[..i], severity, k) == []
      invariant forall k :: k in history ==> history[k] == History(entries[..i], severity, k)
      invariant |byEntry| == i && events == Flatten(byEntry)
      invariant forall j :: 0 <= j < i ==> Raises(entries[..j], severity, entries[j], byEntry[j])
    {
      var e := entries[i];
      HistorySnoc(entries, i, severity);
      var raised: seq<RiskEvent> := [];
      if e.isPrescription {
        var k, sev := KeyOf(e), severity(e);
        var known := if k in history then history[k] else [];
        var prior := WithinWindow(known, e.timestamp);
        raised := Compare(prior, sev, e);
        history := history[k := known + [SeverityEntry(e.timestamp, sev)]];
      }
      RaisesSo(entries[..i], severity, e, raised);
      assert (byEntry + [raised])[..i] == byEntry;
      events := events + raised;
      byEntry := byEntry + [raised];
    }
    assert EventsOf(entries, severity, byEntry);
  }

  lemma RaisesSo(before: seq<SignalEntry>, severity: Severity, e: SignalEntry, raised: seq<RiskEvent>)
    requires var prior := Prior(before, severity, e);
             if !e.isPrescription || |prior| < 3 then raised == []
             else
               exists m :: IsMode(SeveritiesOf(prior), m) &&
                 raised == if severity(e) > m then [RiskEvent(Escalation, e.timestamp, e.eventId, m, severity(e))]
                           else if severity(e) < m then [RiskEvent(Demotion, e.timestamp, e.eventId, m, severity(e))]
                           else []
    ensures Raises(before, severity, e, raised)
  {
  }

  lemma NoHistory(severity: Severity)
    ensures forall k :: History([], severity, k) == []
  {
  }

  lemma HistorySnoc(entries: seq<SignalEntry>, i: nat, severity: Severity)
    requires i < |entries|
    ensures forall k :: History(entries[..i + 1], severity, k) ==
                        if entries[i].isPrescription && KeyOf(entries[i]) == k
                        then History(entries[..i], severity, k) + [SeverityEntry(entries[i].timestamp, severity(entries[i]))]
                        else History(entries[..i], severity, k)
  {
    assert entries[..i + 1][..i] == entries[..i];
  }
}
