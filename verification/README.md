# Verification of Evidra

Evidra keeps an append-only evidence log. Agents, proxies and controllers *prescribe* an operation before it runs and
*report* its outcome afterwards; the entries are linked by hash and split into segments; detectors read them, and a score
is computed from what they find. This project models the parts of Evidra that keep state or scan it, and proves what they
promise. `dafny verify dfyconfig.toml` checks all of it.

Where the Go code updates something in place the model is a class or a loop, proved against a function on values; the laws
are then lemmas about those functions, over every input, every run or every interleaving.

| part | modules |
|---|---|
| entries, the signals made from them, and small helpers | `Wrappers`, `Text`, `Sorting`, `Evidence`, `Signals`, `TimeOrder` |
| the per-session cache and the computation it stands in for | `Bridge`, `Score`, `Assessment`, `SessionFold`, `Tracker`, `TrackerRuns` |
| hash chain and segmented store | `HashChain`, `SegmentNames`, `SegmentList`, `SegmentStore`, `Lifecycle`, `ConcurrentWriters` |
| detectors | `RetryLoops`, `ProtocolViolations`, `Thrashing`, `RiskEscalation` |
| exactly-once writing to the database | `EntryTables`, `Ingest`, `IngestRuns`, `Emitter`, `EmitterRuns`, `ArgoCd` |
| benchmark jobs | `JobQueue`, `JobRuns`, `Triggers`, `LocalExecutor` |
| command lines, proxy, canonical actions, key limiter | `CommandParse`, `Proxy`, `CanonNoise`, `CanonOrder`, `CanonDocker`, `KeyLimiter` |

Where the code does not do what one would expect, that is proved too, as an input or a run on which it fails and, where it
meets the property on some, the condition under which it does:

- A profile with a negative weight can let more signals raise the score. Under the shipped one repair loops do so
  (`Score.RepairLoopsRaiseTheScore`) and no other signal does (`Score.OnlyRepairLoopsHelp`); when penalty and score move
  under any profile: `Score.PenaltyFallsExactly`, `Score.RaisingHelpsExactly`.
- A cached session without prescribe or report entries has an empty signal summary, a recomputed one has not
  (`SessionFold.EmptySessionDiffers`).
- A snapshot of one session absorbs foreign appends for all of them, and a first observed entry forgets what is on disk:
  a cached session is current if and only if it lost no entry (`TrackerRuns.StaleExactly`, `FirstObservationFoldsIff`). An
  undecodable foreign entry is reported once and then forgotten if and only if the session is cached and not
  invalid (`TrackerRuns.FailureReportedOnce`).
- Reading the last hash and appending are two locked sections, so two writers can break the chain
  (`HashChain.InterleavingDecidesValidity`). Even in strict mode, failure and signal entries are written on an empty hash
  when the last one cannot be read, and an append whose manifest write is cut short leaves its line but not its hash for the
  next writer; when the chain holds is exact for serial calls (`Lifecycle.ChainHoldsIffUndisturbed`) and for any
  interleaving of writers, failing reads and cut appends (`ConcurrentWriters.ChainHoldsIffNoneDisturbed`).
- The local service accepts a report on any entry, not only on a prescription (`Lifecycle.ReportOnReportAccepted`).
- An append can stop between its line and the manifest. The order of entries survives any number of such stops
  (`SegmentStore.Store.ReadAll`). The hash read is stale until the next append that succeeds, the count for good
  (`SegmentStore.OneCutShort`; exactly when: `SegmentStore.Store.StaleExactly`). That the list of sealed segments is exact
  is proved for runs without stops (`SegmentStore.Store.CrashFreeManifestExact`).
- The fallbacks of a report's session and operation to those of its prescription cannot be reached in the ingest service
  (`IngestRuns.FreshRowIsTheRequests`).
- The millionth segment cannot be read (`SegmentNames.MillionthSegmentUnreadable`).
- A process that dies between claim and release blocks its key for good (`EmitterRuns.OrphansBlockTheirKey`).
- The proxy takes a request of the upstream's own for the response when it carries a pending id
  (`Proxy.ServerRequestReported`, exactly then: `Proxy.ForwardedIsPending`).
- Two Argo CD starts can share a prescription ID under different keys (`ArgoCd.OperationNamedLikeRevision`, exactly when a
  start is refused: `ArgoCd.StartSavedIffIdFree`), and a second sync of one revision without an operation ID is lost
  (`ArgoCd.ResyncOfRevisionIsLost`, exactly when one is kept: `ArgoCd.SecondStartAddsIff`).
- Progress of a benchmark job does not say whose it is (`JobRuns.LateProgressProtectsTheSuccessor`); a late update reopens a
  finished trigger job (`Triggers.FinishedThroughout`, `Triggers.ReopenedUnheard`); of two scenarios with one name the
  second stays pending (`LocalExecutor.EveryScenarioDecidedIffDistinct`).
- Two Kubernetes documents with one identity can swap places in the shape hash: it is fixed if and only if such documents
  differ in noise only (`CanonOrder.ShapesAreOrderFreeExactly`); a destroying Docker command with only flags is identified
  by its text (`CanonDocker.FlagsOnlyFollowTheText`).

Taken as given throughout: SHA-256 (FIPS 180-4) is a function whose digests are not empty, and does not collide on the
entries of the log at hand where a law says so; identifiers the services make up are not blank, and a clash with an
existing row is a failed insert; a profile ID determines its profile; clocks and timestamps are integers, scores are reals.

## Model

| member | source | states |
|---|---|---|
| Bridge.EvidenceToSignalEntries | internal/pipeline/bridge.go:14-85 | the two loops return one signal entry per prescribe or report in log order, or the first prescription that does not decode, and only then the first such report |
| Bridge.TwoPassTells | internal/pipeline/bridge.go:14-92 | for every log that decodes, entry k of the result tells the k-th prescribe or report entry field by field; its action fields are those of a prescription's own action, or for a report those of the last definition of the ID it names in the whole log, and blank without one |
| Bridge.OnePassTells | internal/assessment/tracker.go:38-107 | what the fold collects tells the same, with the last definition before the entry |
| Bridge.PassesHaveOneLength | internal/pipeline/bridge.go:14-85 | both passes describe exactly the prescribe and report entries, each by its own event, in log order, so their lists have one length and as many prescriptions as the log |
| Bridge.PassesAgreeExactly | internal/pipeline/bridge.go:20-83 | fold and bridge yield one list if and only if every report finds the same action in the table of all prescriptions as in the table of those before it |
| Bridge.OnePassIsTwoPass | internal/pipeline/bridge.go:14-85 | with no prescription after a report that names it, the one-pass fold is the bridge, and the operation count is the number of prescriptions in the list |
| Assessment.BuildFromResults | internal/assessment/assessment.go:75-100 | strict result when sufficient, otherwise the preview computed with one operation as the minimum |
| Assessment.SnapshotTold | internal/assessment/assessment.go:75-100 | the snapshot shows score, band and confidence of the strict scorecard once the profile's minimum is met, and before that of the one for a minimum of a single operation, with the counts of the results, the operations and the threshold |
| Assessment.PreviewScoresEveryOperation | internal/assessment/assessment.go:75-100 | -1 is shown exactly for a session without operations; every other score is within 0..100; the mode says whether the minimum was met |
| Assessment.BuildSnapshotFromEntries | internal/assessment/assessment.go:55-65 | filter, bridge, detect, score: the from-scratch snapshot, or the decoding error |
| SessionFold.SessionState.Observe | internal/assessment/tracker.go:38-107 | the in-place update is the fold step on the abstract session, and fails exactly when the entry does not decode |
| SessionFold.SessionState.Snapshot | internal/assessment/tracker.go:109-127 | memo hit or computation: the snapshot shown and the memo left behind |
| SessionFold.ObserveFolds | internal/assessment/tracker.go:38-107 | an observed entry extends the entries that list, count, results and every memo stand for; an undecodable one marks the state invalid for good |
| SessionFold.SnapshotShowsFold | internal/assessment/tracker.go:109-127 | whatever is dirty or memoised for whichever profile, a snapshot shows the entries folded so far and neither forgets nor invents any |
| SessionFold.FoldSnapshotValue | internal/assessment/tracker.go:228-252 | a rebuilt state answers with the scored detector results of the whole filtered log, and rebuilding fails exactly when an entry does not decode |
| SessionFold.FoldMatchesFromScratch | internal/assessment/assessment.go:55-65 | the cached value equals the from-scratch one and both fail on the same logs, given one relevant entry and no late prescription |
| SessionFold.EmptySessionDiffers | internal/assessment/tracker.go:109-127 | for a session without prescribe or report entries the two agree if and only if the detectors report nothing on an empty list |
| Tracker.SessionTracker.ObserveAppended | internal/assessment/tracker.go:155-180 | the heap of session objects changes at the observed session only, and the manifest count moves by one or is loaded |
| Tracker.SessionTracker.Rebuild | internal/assessment/tracker.go:228-252 | a failed scan leaves the cache as it was; a successful one installs a new object that folds the filtered log |
| Tracker.SessionTracker.RefreshAndCheckManifest | internal/assessment/tracker.go:254-284 | reports a change exactly when the fingerprint on disk differs from the one held, and holds the one on disk afterwards |
| Tracker.SamePrint | internal/assessment/tracker.go:254-284 | two logs have one fingerprint if and only if they are as long as each other and end in the same hash |
| Tracker.SessionTracker.Snapshot | internal/assessment/tracker.go:182-207 | answers from the cache exactly when the session is known, valid and the fingerprint has not moved; otherwise rebuilds |
| Tracker.ScanSession | internal/assessment/tracker.go:228-252 | reading a log entry by entry is the fold of the filtered log |
| TrackerRuns.OneWriterStep | internal/assessment/tracker.go:155-207 | each step of a process that writes all prescribe and report entries of a session keeps its cached state the fold of its log |
| TrackerRuns.OneWriterIsFresh | internal/assessment/tracker.go:155-252 | over every run of such steps, and appends by others and snapshots in between, a snapshot of the session is the fold of its log at that moment |
| TrackerRuns.OneWriterMatchesFromScratch | internal/assessment/tracker.go:155-252 | and is the from-scratch snapshot, failing on the same logs |
| TrackerRuns.SharedStepKeeps | internal/assessment/tracker.go:155-274 | each step of a run with foreign writers that snapshots one session only keeps the condition that the cached session is current or the fingerprint on disk has moved |
| TrackerRuns.FreshAfterRebuild | internal/assessment/tracker.go:182-274 | from a rebuild on, every later snapshot of that session is fresh, and the count held never exceeds the number of records |
| TrackerRuns.CountLagsByMissed | internal/assessment/tracker.go:155-180 | between snapshots the manifest is ahead of the count held by exactly the number of appends not observed, so they are equal only if none was missed |
| TrackerRuns.StaleExactly | internal/assessment/tracker.go:155-274 | over every run, with any writers and snapshots of any sessions and from any log, a cached valid session folds its log if and only if it lost no entry: none was on disk before its first observation or appended unobserved since the last snapshot that scanned the log for it; otherwise it has that many entries less |
| TrackerRuns.FreshUnlessLost | internal/assessment/tracker.go:182-274 | so over every run a snapshot that scans the log, or loses nothing, is fresh |
| TrackerRuns.OtherSnapshotFoldsIff | internal/assessment/tracker.go:254-274 | a snapshot of another session leaves a cached session folding its log if and only if it did before, while the fingerprint stops telling of a change |
| TrackerRuns.SnapshotOfAnotherSessionHidesForeignEntry | internal/assessment/tracker.go:254-274 | a run in which a snapshot of A absorbs a foreign append to B, so that the next snapshot of B is stale; when that happens is TrackerRuns.StaleExactly |
| TrackerRuns.FirstObservationFoldsIff | internal/assessment/tracker.go:155-180 | after its first observed entry a session folds its log if and only if the log held no prescribe or report entry of it before |
| TrackerRuns.FirstObservationForgetsDisk | internal/assessment/tracker.go:155-180 | a run on which it held one and the next snapshot is stale |
| TrackerRuns.FailureReportedOnce | internal/assessment/tracker.go:182-252 | after a failed snapshot the next one succeeds, from the old cache, if and only if the session is cached and not marked invalid |
| TrackerRuns.UndecodableForeignEntryReportedOnce | internal/assessment/tracker.go:182-252 | a run on which it succeeds |
| HashChain.ValidateChainEntries | pkg/evidence/entry_store.go:144-180 | accepts exactly valid chains; otherwise names the first broken entry and which check it failed, after a valid prefix |
| HashChain.ReplacedEntryPassesIff | pkg/evidence/entry_store.go:144-180 | an entry put in the place of another in a valid log passes if and only if it is the same in every field but the signature, or is sealed, linked as the other was, and last |
| HashChain.TamperingIsFound | pkg/evidence/entry_store.go:144-180 | changing any field of a validated entry but the signature, with its stored hash kept, is found at that entry, as a broken link or as a hash mismatch |
| HashChain.LastHashBindsLog | pkg/evidence/entry_builder.go:133-190 | two valid logs that end in the same hash have one length and agree on every field of every entry but the signature |
| HashChain.LogGrows | internal/lifecycle/service.go:93-126 | over any interleaving of writers the log only grows, and grows exactly at appends |
| HashChain.LinkHoldsWhenUndisturbed | pkg/evidence/entry_store.go:241-258 | a hash that was read is still the last one exactly when nothing was appended since |
| HashChain.InterleavingDecidesValidity | pkg/evidence/entry_store.go:21-93 | over every interleaving of read-last-hash and append steps, validation accepts the log if and only if no append fell between the read and the append of any entry |
| HashChain.InterruptedWriterBreaksChain | pkg/evidence/entry_store.go:21-93 | two writers that read the same hash and then both append break the chain |
| SegmentNames.ParseSegmentIndexExact | pkg/evidence/segment.go:51-65 | a name parses to a number if and only if it is the name of that number, up to 999,999 |
| SegmentNames.NamesLookLike | pkg/evidence/segment.go:63-65 | the names of the 42nd and of the millionth segment |
| SegmentNames.SegmentNameInjective | pkg/evidence/segment.go:63-65 | two segments never share a name |
| SegmentNames.SegmentNameOrder | pkg/evidence/segment.go:9-65 | names are ordered as their numbers are, up to 999,999 |
| SegmentNames.MillionthSegmentUnreadable | pkg/evidence/segment.go:51-65 | the millionth segment has a name that does not parse |
| SegmentList.OrderedSegmentNames | pkg/evidence/segment.go:9-49 | lists a directory if and only if it holds exactly segments 1..n for some n, and then in numeric order |
| SegmentList.SegmentFileTold | pkg/evidence/segment.go:11-11 | a file belongs to the store if and only if its name has the prefix and the suffix with any text between |
| SegmentList.NormalizeSealedSegments | pkg/evidence/segment.go:67-85 | the names without blanks and repetitions, ascending |
| SegmentList.RemoveSegment | pkg/evidence/segment.go:87-99 | the list without one name, order kept |
| SegmentStore.Store.LoadOrInit | pkg/evidence/manifest.go:35-87 | an existing manifest is returned untouched; a missing one is created with an empty first segment and the size limit of the process, in two steps that can be cut short |
| SegmentStore.Store.Append | pkg/evidence/entry_store.go:31-93 | the outcome for each stop: the log gains the entry exactly when the line is written, so not when stopped before it; the call succeeds and the manifest counts the entry exactly when nothing stops it, and then the current segment changes if and only if its bytes with the new line exceed the limit; an entry without session or trace changes nothing |
| SegmentStore.Store.Rotate | pkg/evidence/entry_store.go:61-90 | a new empty segment becomes current and the old one is sealed, each sealed one over the limit only by its last line when nothing was cut short |
| SegmentStore.Store.Commit | pkg/evidence/entry_store.go:61-93 | a commit that is not cut short leaves no line uncounted that was counted before; one cut short leaves exactly the new line uncounted |
| SegmentStore.Store.ReadAll | pkg/evidence/entry_store.go:106-142 | reading in name order returns the log in append order after any number of interrupted appends, up to 999,999 segments, and nothing beyond |
| SegmentStore.Store.CrashFreeManifestExact | pkg/evidence/entry_store.go:31-93 | without interruptions count and last hash are exact, every segment but the current one is sealed, and each exceeds by its last line only the limit the manifest was created with |
| SegmentStore.Store.LastHash | pkg/evidence/entry_store.go:241-258 | the hash read is that of the last entry counted, after any number of interrupted appends |
| SegmentStore.Store.CountLags | pkg/evidence/manifest.go:35-87 | after any run the count in the manifest is behind the log by the number of interrupted appends |
| SegmentStore.Store.StaleExactly | pkg/evidence/entry_store.go:31-93 | the hash read is the last one if and only if the latest line was counted; the count is right if and only if no append was ever interrupted |
| SegmentStore.OneCutShort | pkg/evidence/entry_store.go:31-93 | a run of three appends, the second cut short after its line: the hash read is stale after it and right again after the third, the count stays one behind |
| SegmentStore.Store.FindEntryById | pkg/evidence/entry_lookup_cache.go:33-52 | cache or scan: an entry is found exactly when the log has one with that ID, and is one of those |
| RetryLoops.ScanGroup | internal/signal/retry_loop.go:107-151 | the loop with its pending chain and failure flag flags what the greedy chains of the group say |
| RetryLoops.ChainsDecompose | internal/signal/retry_loop.go:107-151 | the greedy chains are the one and only decomposition into maximal chains: start at a failure, no success, within the window, nothing failing left over |
| RetryLoops.ChainsAreMaximal | internal/signal/retry_loop.go:107-151 | each chain could not have gone on, and chains are disjoint |
| RetryLoops.ScanFlagsLongChains | internal/signal/retry_loop.go:84-159 | an event is flagged if and only if it is on a chain of at least the threshold length |
| RetryLoops.FlaggedEntryIsRetry | internal/signal/retry_loop.go:84-159 | a flagged entry never succeeded and has a failure at most the window before it, with no success in between |
| RetryLoops.ExactGroups | internal/signal/retry_loop.go:59-66 | two entries fall in one exact group if and only if both are prescriptions of one actor with one intent digest, not blank, and one shape hash, given fields without the separator |
| RetryLoops.VariantGroups | internal/signal/retry_loop.go:76-83 | and in one variant group if and only if both are prescriptions of one actor with one tool, operation class and scope class |
| RetryLoops.FlaggedMeansRetried | internal/signal/retry_loop.go:85-160 | an event that a detection flags is on a chain of attempts of one kind, at least as many as the threshold, the first of them last reported as failed, none as succeeded, all within the window of the first |
| RetryLoops.DetectRetryLoopChains | internal/signal/retry_loop.go:84-159 | the result for some visiting order of the groups and some sort of each |
| RetryLoops.DetectRetryLoops | internal/signal/retry_loop.go:32-56 | exact and variant flags merged, each event once; every one is on such a chain of three attempts at one thing or five in one place within half an hour |
| RetryLoops.ResultDoesNotDependOnOrder | internal/signal/retry_loop.go:84-159 | with distinct times in each group the flagged events are determined |
| RetryLoops.FlaggedAtMostOnce | internal/signal/retry_loop.go:84-159 | one detection flags no event twice |
| ProtocolViolations.DetectProtocolViolationEvents | internal/signal/protocol_violation.go:38-117 | the report events in log order, then the unreported ones |
| ProtocolViolations.ReportEventTold | internal/signal/protocol_violation.go:51-108 | what a report gives rise to, by the last prescription with the ID it names, the reports before it, the two actors and digests |
| ProtocolViolations.UnreportedKindTold | internal/signal/protocol_violation.go:154-179 | an unreported prescription counts as crashed if and only if its actor is named and that actor's latest report, the first of those with the latest time, failed |
| ProtocolViolations.OneFatePerReport | internal/signal/protocol_violation.go:51-107 | each report that names a prescription is exactly one of unprescribed, duplicate, cross-actor, accepted |
| ProtocolViolations.AcceptedOnce | internal/signal/protocol_violation.go:51-107 | at most one report per prescription is accepted |
| ProtocolViolations.AcceptedIsFirstFitting | internal/signal/protocol_violation.go:51-107 | one is accepted exactly when some report comes from the same or a blank actor, and it is the first of those |
| ProtocolViolations.ReportsAreConserved | internal/signal/protocol_violation.go:38-117 | the events and the accepted reports add up to the reports that name a prescription |
| ProtocolViolations.FlaggedIffUnreported | internal/signal/protocol_violation.go:123-178 | a prescription is flagged if and only if no report at all names it and its age exceeds the time to live |
| ProtocolViolations.UnreportedGrowsWithClock | internal/signal/protocol_violation.go:123-153 | what is flagged stays flagged as the clock moves on |
| Thrashing.DetectThrashingWithThreshold | internal/signal/thrashing.go:27-85 | the events of completed windows, each once, for some sort by time |
| Thrashing.ScanWindows | internal/signal/thrashing.go:50-78 | the loop flags the failures of the completed windows, in order |
| Thrashing.WindowHolds | internal/signal/thrashing.go:50-78 | a window holds no success and no earlier completion |
| Thrashing.WindowsAreDisjoint | internal/signal/thrashing.go:50-78 | completed windows do not overlap |
| Thrashing.CompletedWindowIsMinimal | internal/signal/thrashing.go:50-78 | a completed window has exactly the threshold of distinct failed intents, and its last failure brought the last one |
| Thrashing.StretchIsCaught | internal/signal/thrashing.go:50-78 | a stretch without success that holds the threshold of distinct failed intents always has a window completing in it |
| Thrashing.FlaggedExactly | internal/signal/thrashing.go:27-85 | an event is flagged if and only if it is a failure in a completed window |
| Thrashing.FlaggedMeansThrashing | internal/signal/thrashing.go:27-85 | a flagged event ended badly in a stretch of prescriptions with an intent, in order of time, in which none ended well and at least as many different intents as the threshold ended badly |
| Thrashing.ThrashingIsDetermined | internal/signal/thrashing.go:41-43 | with distinct times the result does not depend on the sort |
| RiskEscalation.BaselineSeverity | internal/signal/risk_escalation.go:136-154 | the most frequent severity, the lowest of those on a tie, in whatever order the counts are visited |
| RiskEscalation.ModeIsUnique | internal/signal/risk_escalation.go:136-154 | there is only one such severity, for any order of the samples |
| RiskEscalation.DetectRiskEscalationEvents | internal/signal/risk_escalation.go:70-114 | per prescription with at least three samples, an escalation or demotion against the baseline of what came before it, or nothing |
| RiskEscalation.EventsAreDetermined | internal/signal/risk_escalation.go:70-114 | so a log has one list of events, whatever order the severity counts are visited in |
| RiskEscalation.EventsAreCausal | internal/signal/risk_escalation.go:66-114 | entries that come later change no event |
| RiskEscalation.BaselineIsTheWindow | internal/signal/risk_escalation.go:123-132 | in a log in order of time the baseline is that of all prescriptions of the actor with the tool in the thirty days before, wherever entries with one time stand |
| Score.ComputeWithMinOperations | internal/score/score.go:40-102 | the loops over maps in any order compute one well-defined scorecard |
| Score.ScorecardTold | internal/score/score.go:40-143 | counts by the last result of each name, the minimum in force, rates and levels, the first band reached, and the confidence, in which violations come before the external share |
| Score.PenaltyTold | internal/score/score.go:65-83 | the penalty is the sum of weight times rate over the signals, in any order, held between 0 and 1 |
| Score.WeightedSumSplit | internal/score/score.go:65-75 | the penalty does not depend on the order in which signals are visited |
| Score.CappedIsLeast | internal/score/score.go:87-91 | applying the caps in turn gives the least of the score and the triggered caps |
| Score.ScoreIsLeastBound | internal/score/score.go:40-102 | insufficient exactly below the minimum, with -1; otherwise the least of the uncapped score, the triggered caps and the ceiling |
| Score.ScoreInRange | internal/score/score.go:40-102 | with caps and ceilings in range, -1 means insufficient and nothing else, every other score is within 0..100 |
| Score.CeilingMonotone | internal/score/score.go:117-134 | a higher violation rate never lifts the ceiling |
| Score.MoreSignalsNeverHelp | internal/score/score.go:40-143 | raising counts of signals whose weights are not negative never raises the score and never yields a better band |
| Score.RaisingOneSignal | internal/score/score.go:65-75 | raising one signal leaves the weighted sum, before it is clamped, no lower if and only if its weight is not negative |
| Score.PenaltyFallsExactly | internal/score/score.go:65-83 | it lowers the penalty if and only if its weight is negative, the weighted sum was positive before, and it is below 1 afterwards |
| Score.RepairLoopsRaiseTheScore | internal/score/score.go:65-75 | under the shipped weights twenty repair loops lift a score from 97 to 98 |
| Score.RaisingHelpsExactly | internal/score/score.go:40-134 | for any profile and input, raising a signal raises the score if and only if every bound then in force exceeds the score before; unless it is a protocol violation whose ceiling is not the lowest, if and only if the penalty falls and every cap then triggered and the ceiling exceed what the penalty left before |
| Score.OnlyRepairLoopsHelp | internal/score/score.go:40-102 | under the shipped profile, whatever the other counts, the sample size and the external share, raising a signal never raises the score if and only if the signal is not the repair loop |
| Ingest.Prescribe | internal/ingest/service.go:72-137 | the call, statement by statement over a transaction, leaves what the specification step says, whichever statements fail |
| Ingest.Report | internal/ingest/service.go:140-208 | the same for reports |
| Ingest.LoadDuplicateResult | internal/ingest/service.go:660-691 | a duplicate is answered with the stored result if its entry is there and decodes, an error otherwise, or blank for the legacy service |
| Ingest.SaveEntryAndCommit | internal/ingest/service.go:280-299 | row and finished claim appear together or not at all |
| Ingest.IngestTx.ClaimWebhookEvent | internal/store/entries.go:408-420 | the claim is inserted unless its key is there, and the answer is whether it was |
| Ingest.IngestTx.FinalizeWebhookEvent | internal/store/entries.go:439-453 | the claim row gets its result, and nothing else changes |
| IngestRuns.OnlyFreshCallsWrite | internal/ingest/service.go:72-208 | a call that fails or is a duplicate leaves both tables as they were |
| IngestRuns.WritesExactly | internal/ingest/service.go:72-208 | from any tables, a call writes if and only if its request is valid and can be built, asks for a free ID, names a prescription where it must, no statement it comes to fails, and no claim row stands under its tenant, its prefix with the trimmed source, and its key |
| IngestRuns.WritesTheRequest | internal/ingest/service.go:72-317 | and then one row that tells the request and one claim under that key with the row's ID are all that is new |
| IngestRuns.DuplicateIffSameKey | internal/ingest/service.go:610-691 | of two calls in a run, the first of which wrote, a later one that only a claim stands in the way of is answered as its duplicate if and only if tenant, prefixed source and key all agree |
| IngestRuns.FreshCallWrites | internal/ingest/service.go:72-208 | a fresh call passed validation, held no earlier claim, used a new ID and wrote one row and one finished claim |
| IngestRuns.FreshRowIsTheRequests | internal/ingest/service.go:301-317 | the row carries the request's session and operation; the fallbacks to those of the prescription are never taken |
| IngestRuns.ClaimedIffFresh | internal/ingest/service.go:610-704 | over every run, a claim row exists if and only if a call with its key wrote an entry |
| IngestRuns.FreshClaims | internal/ingest/service.go:610-704 | and then carries that call's entry ID and risk |
| IngestRuns.AtMostOneFreshCallPerKey | internal/ingest/service.go:72-208 | over every run, at most one call per tenant, source and key writes an entry |
| IngestRuns.EntriesAreTheFreshCalls | internal/ingest/service.go:280-299 | the committed entries are, in order, exactly those the fresh calls were answered with |
| IngestRuns.DuplicateRepeatsFirst | internal/ingest/service.go:629-691 | a later call with the key gets the first one's entry ID and risk if and only if it is valid and its statements succeed, an error otherwise; it writes nothing |
| IngestRuns.RetriesCollapse | internal/ingest/service.go:72-208 | any number of attempts with any failures, then one without, leave the tables and the answer of a single undisturbed call |
| IngestRuns.IdsAreUnique | internal/store/entries.go:348-385 | no two entries share an ID, across tenants |
| IngestRuns.TenantChainIsUnbroken | internal/store/entries.go:329-346 | the entries of each tenant, read alone, form one chain of previous hashes |
| IngestRuns.ReportsNamePrescriptions | internal/ingest/service.go:210-354 | in any run every committed row was written by one call, and a committed report, unless its own call is a translated one of the webhook service, names a prescription committed before it, of the same tenant and session |
| Emitter.Emit | internal/automationevent/emitter.go:164-208 | claim, last hash, build, save, and release on any failure, leave what the specification step says |
| Emitter.EmissionTold | internal/automationevent/emitter.go:164-208 | from any tables, an emission is a duplicate if and only if a claim stands under its tenant, source and key, and is saved if and only if none does, nothing fails and its draft can be made; row and claim then tell the emission and are all that is new |
| EmitterRuns.EveryInterleavingIsConsistent | internal/automationevent/emitter.go:164-208 | over every interleaving of emissions each claim taken was free before and is held, saved or orphaned, never two of them; the new entries are, in order, the rows saved, each under its own key |
| EmitterRuns.AtRestClaimsAreSaved | internal/automationevent/emitter.go:339-357 | with no emission under way the new entries are the rows saved, in order, no two under one key, none under a key claimed at the start; the claims taken are exactly those keys if and only if no process died holding one |
| EmitterRuns.OrphansBlockTheirKey | internal/automationevent/emitter.go:339-357 | the claim of a process that dies before releasing it blocks its key for good: no entry is ever saved for it |
| EmitterRuns.EmitStepIsItsActions | internal/automationevent/emitter.go:164-208 | an emission on its own is the interleaving of its actions |
| EmitterRuns.FailedEmissionChangesNothing | internal/automationevent/emitter.go:164-208 | a failed or duplicate emission leaves the tables as they were, so it can be tried again |
| EmitterRuns.RepeatedEmissionAddsNothing | internal/automationevent/emitter.go:164-208 | after one success every repetition is a duplicate |
| ArgoCd.HandleApplication | internal/gitops/argocd/controller.go:128-207 | one application leads to no emission, an explicit report, a mapped prescription or a mapped report |
| ArgoCd.ApplicationTold | internal/gitops/argocd/controller.go:128-246 | when an application leads to an emission, by its phase in any mixture of cases and its own session and prescription, and the emission's tenant, source, key, payload and draft told from the application |
| ArgoCd.PassOrderTold | internal/gitops/argocd/controller.go:309-317 | a pass takes starts first, then ends, then the rest, and by name within each |
| ArgoCd.SyncOnce | internal/gitops/argocd/controller.go:55-78 | the pass handles the sorted applications and stops at the first failure |
| ArgoCd.StartsComeFirst | internal/gitops/argocd/controller.go:309-317 | starts are handled before completions |
| ArgoCd.EveryEmissionIsClaimed | internal/gitops/argocd/reducer.go:100-116 | keys and sources are never blank, so no emission bypasses its claim |
| ArgoCd.ClaimsAreTheSavedKeys | internal/gitops/argocd/controller.go:128-207 | from any tables, after any observations with replays, reordering and failures, the new entries are, in order, the rows emissions were answered with; their claim keys are distinct, were not claimed before, and are exactly the claims taken |
| ArgoCd.SecondPassAddsNothing | internal/gitops/argocd/controller.go:55-78 | after a pass that succeeded, a pass over unchanged applications adds nothing whatever fails, and succeeds if nothing does |
| ArgoCd.CompletionNamesStart | internal/gitops/argocd/controller.go:231-242 | a saved completion of an operation names the prescription its saved start made, and shares its session when operation ID and revision agree |
| ArgoCd.StartSavedIffIdFree | internal/gitops/argocd/controller.go:231-242 | a start with an unclaimed key is saved, if nothing fails, if and only if its prescription ID is free; with the ID taken it fails every time |
| ArgoCd.SameStartKey | internal/gitops/argocd/reducer.go:100-116 | two starts share a key if and only if UID and name of the start, the operation ID or else the revision with its phase, read the same together; without colons in the UIDs, if and only if both agree |
| ArgoCd.SecondStartAddsIff | internal/gitops/argocd/controller.go:128-242 | after a start that was handled, another one adds an entry, if nothing fails, if and only if tenant or key differ and its prescription ID is free |
| ArgoCd.OperationNamedLikeRevision | internal/gitops/argocd/controller.go:231-242 | an operation named like a revision and that revision without an operation collide that way |
| ArgoCd.ResyncOfRevisionIsLost | internal/gitops/argocd/reducer.go:111-116 | without an operation ID, whatever was written before, every later sync of a revision that was handled leaves no entry |
| JobQueue.PgStore.EnqueueJob | internal/benchsvc/queries.go:810-833 | a new row, queued and without owner |
| JobQueue.PgStore.ClaimJob | internal/benchsvc/queries.go:838-871 | takes an oldest queued row of the tenant for one of the models, pinned to no other runner and not locked, or none if there is none; that row becomes claimed by the runner now, and no other changes |
| JobQueue.PgStore.UpdateJobProgress | internal/benchsvc/queries.go:922-936 | moves a claimed or running row to running, and no other |
| JobQueue.PgStore.HandleCompleteJob | internal/benchsvc/runner_handler.go:140-175 | refuses other statuses and blank runners; completes exactly the row of this tenant owned by this runner |
| JobQueue.PgStore.ResetStaleJobs | internal/benchsvc/queries.go:909-919 | puts back exactly the claimed rows whose last progress, or else start, is longer ago than the threshold, and counts them |
| JobRuns.OwnersOverRuns | internal/benchsvc/queries.go:810-936 | over every run a job is ownerless exactly when queued, and a pinned job is never owned by another runner |
| JobRuns.OwnerIsLatestClaim | internal/benchsvc/queries.go:838-919 | the owner is the runner of the latest claim not reset since; claims equal resets, plus one unless queued |
| JobRuns.CountersOverRuns | internal/benchsvc/queries.go:810-936 | however often claimed and reset, a job is handed out with zero counters; a finished one has counted what it passed and failed |
| JobRuns.CompletionIsForLatestClaim | internal/benchsvc/queries.go:875-893 | completion succeeds if and only if the runner made the latest claim and it was not reset |
| JobRuns.ProgressIsForGood | internal/benchsvc/queries.go:909-936 | a job with progress keeps its owner and is never queued again, a finished one stays finished |
| JobRuns.OnlyTheFinisherRewrites | internal/benchsvc/queries.go:875-893 | a finished row changes only by completions of the runner that finished it |
| JobRuns.ClaimsLastTheThreshold | internal/benchsvc/queries.go:909-919 | no reset takes a claim back before the threshold has passed |
| JobRuns.ProgressFromAnyoneEndsResets | internal/benchsvc/queries.go:922-936 | once progress is reported, by whomever, the standing claim is never reset |
| JobRuns.LateProgressProtectsTheSuccessor | internal/benchsvc/queries.go:838-936 | claim, reset, claim by another, then a late report of the first: whatever comes later the second runner keeps the job; without the report a reset takes it back if and only if it runs after the threshold |
| Triggers.TriggerStore.Update | internal/benchsvc/executor.go:110-175 | the job becomes what the update says, every listed channel gets it or is full, and all are closed and unlisted exactly when the job is over |
| Triggers.TriggerStore.Subscribe | internal/benchsvc/executor.go:178-184 | a new open channel is listed |
| Triggers.TriggerStore.Unsubscribe | internal/benchsvc/executor.go:189-199 | the channel is no longer listed, all others are; none is closed |
| Triggers.ReopenedUnheard | internal/benchsvc/executor.go:85-199 | a job is created, followed, finished and updated with less, on the store: Get shows it running again, while who followed it hears of the finish, finds the channel closed and never hears of more |
| Triggers.Notify | internal/benchsvc/executor.go:157-164 | every send meets an open channel |
| Triggers.CloseAll | internal/benchsvc/executor.go:166-172 | no channel is closed twice |
| Triggers.SetFirstAt | internal/benchsvc/executor.go:119-126 | the first scenario with the name is the one that changes, and the only one |
| Triggers.FinishedThroughout | internal/benchsvc/executor.go:145-155 | over any later updates a finished job is finished at every moment if and only if none of them counts less than its total |
| Triggers.CountersCountDeliveries | internal/benchsvc/executor.go:134-143 | over any updates the counters count deliveries |
| LocalExecutor.Start | internal/benchsvc/local_executor.go:31-67 | the loop over scenarios drives the store to the state the outcomes determine; without a client nothing changes |
| LocalExecutor.CountsAddUp | internal/benchsvc/local_executor.go:31-67 | after each scenario passed and failed add up to completed and the run IDs are those of the runs so far; the job ends failed exactly when a scenario failed |
| LocalExecutor.WhileRunning | internal/benchsvc/local_executor.go:39-46 | while a scenario runs the job shows it as the current one, with as many completed as before |
| LocalExecutor.EachScenarioShows | internal/benchsvc/local_executor.go:31-67 | at every point of a run the first entry of a name shows the result and run ID of the last scenario of that name that was run, any other stays pending |
| LocalExecutor.EveryScenarioDecidedIffDistinct | internal/benchsvc/local_executor.go:31-67 | every scenario ends passed or failed if and only if no two have one name |
| CommandParse.ParseCommand | pkg/mcpserver/command_parse.go:17-97 | the loop over runes is the automaton, errors included |
| CommandParse.ParseWritten | pkg/mcpserver/command_parse.go:17-97 | however an argument is written, with characters as they are or after a backslash and with single and double quoted stretches, it parses to what it means |
| CommandParse.ParseOpening | pkg/mcpserver/command_parse.go:82-90 | a command that ends in an open quote or after a backslash is refused for just that, whatever comes before |
| CommandParse.JoinedCommands | pkg/mcpserver/command_parse.go:37-79 | after a command with no quote or escape open, white space starts the next afresh |
| CommandParse.ParseJoined | pkg/mcpserver/command_parse.go:17-97 | parsing two commands side by side gives their arguments side by side |
| CommandParse.ParseQuoted | pkg/mcpserver/command_parse.go:17-97 | any list of arguments, empty ones included, comes back from its double-quoted and escaped form |
| CommandParse.ParseSingleQuoted | pkg/mcpserver/command_parse.go:37-43 | inside single quotes every character stands for itself |
| CommandParse.ParsePlain | pkg/mcpserver/command_parse.go:17-97 | text without quotes and backslashes parses to its words |
| CommandParse.CommandFieldsPlain | pkg/mcpserver/command_parse.go:99-105 | and is split into its words also when it does not parse |
| Proxy.EveryInterleaving | pkg/proxy/proxy.go:79-168 | over every interleaving of the relays each report line follows its prescription's line, none is reported twice, and each prescription is in exactly one place |
| Proxy.PrescriptionsAdd | pkg/proxy/proxy.go:100-168 | with distinct ids in flight nothing is overwritten, and prescriptions equal reports plus pending plus those in hand |
| Proxy.ForwardedIsPending | pkg/proxy/proxy.go:79-168 | no response comes too early to be matched: what was forwarded and not answered is pending at every moment, if and only if no request of the upstream's own carries a pending id |
| Proxy.ServerRequestReported | pkg/proxy/proxy.go:293-303 | a run on which one does: it is reported as the response, and the response is not |
| Proxy.UnreportedAreUnanswered | pkg/proxy/proxy.go:79-168 | between messages, without such requests, the prescriptions without a report are those of unanswered requests |
| Proxy.Relay.TrackMutationRequest | pkg/proxy/proxy.go:100-129 | a mutating request is recorded and tracked, others are not |
| Proxy.Relay.MatchResponse | pkg/proxy/proxy.go:139-158 | a response to a tracked request is reported once, as a failure unless its exit code is 0 |
| CanonNoise.StripTwice | internal/canon/noise.go:14-53 | stripping the noise is idempotent |
| CanonNoise.StripRemovesExactlyNoise | internal/canon/noise.go:14-53 | status, the listed metadata fields and prefixed annotations go, with an annotation map left empty; all else stays |
| CanonNoise.DeepCopyMap | internal/canon/k8s.go:177-205 | the copy stands for the same document and shares no map with anything that existed before |
| CanonNoise.RemoveK8sNoiseFields | internal/canon/noise.go:14-53 | the in-place deletions leave the stripped document |
| CanonNoise.CleanedCopies | internal/canon/k8s.go:159-174 | what is hashed is the stripped documents, and the caller's objects are what they were |
| CanonOrder.IdentitiesAreOrderFree | internal/canon/k8s.go:57-100 | permuting the documents leaves the list of identities as it is, also when some share one |
| CanonOrder.IdentityTold | internal/canon/k8s.go:133-157 | version and kind of a document, namespace and name of its metadata, each trimmed and in lower case, or blank where there is no text |
| CanonOrder.ShapesAreOrderFreeExactly | internal/canon/k8s.go:63-100 | for any list of documents, all sorts of all its permutations give one list of shapes to hash if and only if documents that share an identity differ in noise only |
| CanonDocker.ParseDockerCommand | internal/canon/docker.go:129-178 | class and resources of a command line |
| CanonDocker.DockerCommandTold | internal/canon/docker.go:129-191 | the subcommand after the tool decides the class, or else the operation; a removing one names what is no flag, a creating one what its name flag says |
| CanonDocker.NameFlagTold | internal/canon/docker.go:160-175 | the first name flag decides, with its value behind an equals sign or in the next token |
| CanonDocker.NamedTold | internal/canon/docker.go:149-158 | the resources of a removing command are its arguments that do not begin with a dash, in their order |
| CanonDocker.DestroyArgumentsAreOrderFree | internal/canon/docker.go:69-71 | permuting the arguments of a destroying command that names something leaves class and resources as they are |
| CanonDocker.FlagsOnlyFollowTheText | internal/canon/docker.go:63-66 | when it names nothing its resource is its own text, and two orders agree if and only if the digests do |
| KeyLimiter.Limiter.Admit | internal/api/keys_handler.go:44-79 | granted if and only if fewer than three requests of the address were granted in the hour before; sweeping is never noticed |
| KeyLimiter.Limiter.Sweep | internal/api/keys_handler.go:50-65 | drops only what no later request looks at |
| KeyLimiter.Limiter.NoFourInAWindow | internal/api/keys_handler.go:44-79 | in every state of the limiter no window of an hour, wherever it starts, holds four grants to one address |
| Lifecycle.Service.Prescribe | internal/lifecycle/service.go:35-157 | the entry and its findings, or the recorded parse failure, on the segmented store, whatever fails and wherever an append stops; with room in the directory what nothing fails or stops is written and counted |
| Lifecycle.Service.Report | internal/lifecycle/service.go:160-248 | the report, or the recorded unknown prescription, likewise; the lookup answers for the log |
| Lifecycle.ChainHoldsIffUndisturbed | internal/lifecycle/service.go:416-566 | a run in strict mode leaves a valid chain if and only if no advisory entry was put behind others while the last hash could not be read, and no line was put behind one whose manifest write was cut short |
| Lifecycle.AcceptedExactly | internal/lifecycle/service.go:160-372 | a report is accepted if and only if ID and input are valid, an entry of whatever kind with the ID is on record, its session is the same or one of the two is blank, and nothing fails; the one line added is the report in its session, or else in that of the entry |
| Lifecycle.RefusedCall | internal/lifecycle/service.go:35-248 | a refused call changes nothing, or leaves one line: of a recorded parse failure or unknown prescription, or, uncounted, of the entry whose manifest write was cut short |
| Lifecycle.ReportOnReportAccepted | internal/lifecycle/service.go:313-337 | a run of a prescription, a report on it and a report on that report, all accepted |
| ConcurrentWriters.ChainHoldsIffNoneDisturbed | internal/lifecycle/service.go:416-566 | over every interleaving of any writers, whichever reads of the last hash fail and wherever appends are cut short, the chain is valid if and only if each line was put down undisturbed: no line since its writer read the hash, the latest line before that counted, or, where the read failed, no line at all |
| ConcurrentWriters.LogGrows | pkg/evidence/entry_store.go:21-93 | over every such interleaving the log only grows, and grows exactly at appends that get to their line |
| ConcurrentWriters.HashStillLast | pkg/evidence/entry_store.go:241-258 | a hash that a writer holds is the last one if and only if no line came since and none was uncounted when it was read |
| ConcurrentWriters.SerialWrites | internal/lifecycle/service.go:416-566 | the writes of serial service calls are such an interleaving and leave the same disk |
| ConcurrentWriters.CompleteAppends | pkg/evidence/entry_store.go:21-93 | so are interleaved writers whose appends all complete |

## Left out

- JSON, YAML and SQL as such: a payload is its text with the result of decoding it, a statement is one step on a table,
  and whether a request body can be built is a field of the request.
- The wall clock inside detection: the list of detectors is a function of the entries.
- The other detectors (artifact drift, blast radius, new scope, repair loop): one-pass rules without state to reason about.
- Ed25519 signatures and their verification; services without a signer, which refuse every call.
- File locks, lock timeouts, partially written lines, and file-system errors other than the named stop points.
- The legacy single-file store and the signature checks of the segmented one.
- Best-effort write mode, in which a failed write is swallowed.
- Concurrent database transactions: ingest calls are serial, emitter statements interleave.
- Failing releases: the emitter ignores the error of a release, which leaves the claim as a dead process would.
- Ingest.Prescribe: an error of the statement that reads a stored result is one internal error code here; actor, trace and
  scope fields, which decide nothing, are not in the row.
- Watch loop, reconnects, the fields of an application that only end up in scope dimensions or digests, and the verdict, exit
  code and references in the payload of a controller's report.
- The severity of a prescription, from its operation class, scope and risk tags, is a parameter of the risk detector.
- ArgoCd.HandleApplication: lower case is exact for phases, whose relevant spellings are ASCII, and not a full Unicode mapping;
  an application was decoded from JSON, and that it cannot be encoded again is not a failure here.
- Dispatching of enqueued jobs, runner registration and the health of runners.
- Subscribers that are slow drop updates; what the event stream then shows is not followed.
- LocalExecutor.Start: no other update of the same job comes in while it runs.
- Failed writes of the proxy's evidence file, which the writer ignores, and requests without an id, which are recorded and
  never reported.
- The extraction of exit codes from responses and the classification of commands and tools.
- CanonNoise.DeepCopyMap: slices are values, since nothing writes to them; maps are objects.
- CanonOrder.IdentitiesAreOrderFree: reading identities from the objects, and the call that puts sorting, copying and
  hashing together, are not one method here; the scope class is a function of the identities.
- Docker Compose artifacts, Terraform and generic adapters.
- Whitespace splitting of a Docker command into tokens is that of `CommandParse.Fields`; the model starts from the tokens.
- HTTP routing, authentication, telemetry, CLI, analytics queries, leaderboards, export anonymisation.
