/** What the signal detectors consume and produce (internal/signal/types.go). */
module Signals {
  import opened Wrappers

  /** A prescribe or report record as the detectors see it. Times are integers. */
  datatype SignalEntry = SignalEntry(
    eventId: string,
    timestamp: int,
    actorId: string,
    artifactDigest: string,
    intentDigest: string,
    isPrescription: bool,
    isReport: bool,
    prescriptionId: string,
    exitCode: Option<int>,
    riskTags: seq<string>,
    tool: string,
    operation: string,
    operationClass: string,
    scopeClass: string,
    resourceCount: int,
    shapeHash: string
  )

  datatype SignalResult = SignalResult(name: string, count: nat, eventIds: seq<string>)
}
