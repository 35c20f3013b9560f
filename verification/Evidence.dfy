/** Evidence entries (pkg/evidence/entry.go). Times are integers; a payload is its raw text together with what
    decoding that text yields. */
module Evidence {
  import opened Wrappers

  datatype EntryType =
    Prescribe | Report | Finding | Signal | Receipt | CanonFailure | SessionStart | SessionEnd | Annotation

  datatype Actor = Actor(
    kind: string, id: string, provenance: string, instanceId: string, version: string, skillVersion: string)

  /** The fields of a canonical action that the detectors read. */
  datatype CanonicalAction = CanonicalAction(
    tool: string, operation: string, operationClass: string, scopeClass: string, resourceCount: int, shapeHash: string)

  datatype PrescriptionBody = PrescriptionBody(canonicalAction: Option<CanonicalAction>, riskTags: seq<string>)

  datatype ReportBody = ReportBody(prescriptionId: string, exitCode: Option<int>)

  datatype Payload = Payload(raw: string, asPrescription: Option<PrescriptionBody>, asReport: Option<ReportBody>)

  datatype Entry = Entry(
    entryId: string,
    previousHash: string,
    hash: string,
    signature: string,
    kind: EntryType,
    tenantId: string,
    sessionId: string,
    operationId: string,
    attempt: int,
    traceId: string,
    spanId: string,
    parentSpanId: string,
    actor: Actor,
    timestamp: int,
    intentDigest: string,
    artifactDigest: string,
    payload: Payload,
    scopeDimensions: map<string, string>,
    specVersion: string,
    canonVersion: string,
    adapterVersion: string,
    scoringVersion: string)
}
