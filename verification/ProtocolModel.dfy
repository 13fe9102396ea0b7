/**
 The entities the protocol exchanges and the checks shared by both sides of it: descriptors and
 their limits, findings, extensions, invocation results, and what a result must be to match an
 expectation.
 */
module ProtocolModel {
  import opened Basics
  import opened Texts
  import ScoreEvidence
  import CanonicalJson

  const CURRENT_VERSION := "1.2.0"
  const PREVIOUS_MINOR_VERSION := "1.1.0"
  const PROTOCOL_NAME := "EvalWitness Verifier Audit Protocol"
  const CANONICAL_POLICY := "evalwitness.protocol-canonical-json.v1"
  const DESCRIPTOR_SCHEMA := "evalwitness.protocol.evaluator-descriptor.v1"
  const CASE_SCHEMA := "evalwitness.protocol.audit-case.v1"
  const INVOCATION_SCHEMA := "evalwitness.protocol.audit-invocation.v1"
  const FINDING_SCHEMA := "evalwitness.protocol.audit-finding.v1"
  const RESULT_SCHEMA := "evalwitness.protocol.invocation-result.v1"
  const MESSAGE_SCHEMA := "evalwitness.protocol.adapter-message.v1"
  const RELIABILITY_EXTENSION := "org.evalwitness.reliability.v1"

  /** The supported versions, the preferred one first. */
  const SUPPORTED_VERSIONS: seq<Bytes> := [CURRENT_VERSION, PREVIOUS_MINOR_VERSION]

  predicate SupportedVersion(version: Bytes) {
    version == CURRENT_VERSION || version == PREVIOUS_MINOR_VERSION
  }

  datatype Level = Syntax | DeterministicReplay | LiveScoreEvidence | EmpiricalReliability
                 | IndependentReproduction | OtherLevel(text: Bytes)

  datatype CaseKind = CanonicalEncoding | RequestFingerprint | ScoreKind | DecisionKind | ReplayKind
                    | AttestationKind | ExtensionKind | CompatibilityKind | OtherKind(text: Bytes)

  datatype Expectation = ExpectAccepted | ExpectRejected | ExpectUnsupported | OtherExpectation(text: Bytes)

  datatype Outcome = Passed | Failed | Skipped | Unsupported | NotRun | OtherOutcome(text: Bytes)

  datatype Status = StatusAccepted | StatusRejected | StatusUnsupported | StatusCancelled | StatusFailed
                  | OtherStatus(text: Bytes)

  datatype Limits = Limits(
    maxMessageBytes: int, maxCaseBytes: int, maxCasesPerRun: int, maxDurationMillis: int, maxExtensionsPerItem: int)

  const DEFAULT_LIMITS := Limits(8 * 1048576, 4 * 1048576, 10000, 60000, 32)

  predicate ValidLimits(limits: Limits) {
    && 0 < limits.maxMessageBytes <= 8 * 1048576
    && 0 < limits.maxCaseBytes <= 4 * 1048576
    && 0 < limits.maxCasesPerRun <= 10000
    && 0 < limits.maxDurationMillis <= 60000
    && 0 < limits.maxExtensionsPerItem <= 32
  }

  datatype Extension = Extension(namespace: Bytes, schema: Bytes, required: bool, payload: Bytes)

  /** Checks on single texts and objects that stay abstract here. */
  datatype Checks = Checks(
    namespaceOk: Bytes -> bool,
    applicationNamespace: Bytes,
    applicationSchemas: set<Bytes>,
    reliabilityOk: Extension -> bool,
    decisionOk: Decision -> bool)

  ghost predicate ExtensionOk(checks: Checks, e: Extension) {
    && checks.namespaceOk(e.namespace) && e.schema != "" && e.payload != ""
    && CanonicalJson.Canonicalize(e.payload).Some?
    && if e.namespace == RELIABILITY_EXTENSION then checks.reliabilityOk(e)
       else if e.namespace == checks.applicationNamespace then e.schema in checks.applicationSchemas
       else !e.required
  }

  /** At most `maximum` extensions, each sound, no namespace twice. */
  ghost predicate ExtensionsOk(checks: Checks, extensions: seq<Extension>, maximum: int) {
    && |extensions| <= maximum
    && (forall i | 0 <= i < |extensions| :: ExtensionOk(checks, extensions[i]))
    && forall i, j | 0 <= i < j < |extensions| :: extensions[i].namespace != extensions[j].namespace
  }

  // ----- descriptors

  datatype Descriptor = Descriptor(
    schemaVersion: Bytes, protocolName: Bytes, protocolVersions: Option<seq<Bytes>>, evaluatorID: Bytes,
    implementationName: Bytes, implementationVersion: Bytes, identityDigest: Bytes,
    executionModes: Option<seq<Bytes>>, conformanceLevels: Option<seq<Level>>,
    scoreEvidenceVersions: Option<seq<Bytes>>, decisionVersions: Option<seq<Bytes>>,
    limits: Limits, liveCapable: bool, extensions: Option<seq<Extension>>)

  ghost predicate ValidDescriptor(checks: Checks, d: Descriptor) {
    && d.schemaVersion == DESCRIPTOR_SCHEMA && d.protocolName == PROTOCOL_NAME && Identifier(d.evaluatorID)
    && d.implementationName != "" && d.implementationVersion != "" && ValidDigest(d.identityDigest)
    && d.protocolVersions.Some? && d.executionModes.Some? && d.conformanceLevels.Some?
    && d.scoreEvidenceVersions.Some? && d.decisionVersions.Some? && d.extensions.Some?
    && UniqueStrings(d.protocolVersions.value) && CURRENT_VERSION in d.protocolVersions.value
    && UniqueStrings(d.executionModes.value)
    && (forall level | level in d.conformanceLevels.value :: !level.OtherLevel?) && Distinct(d.conformanceLevels.value)
    && ValidLimits(d.limits)
    && ExtensionsOk(checks, d.extensions.value, d.limits.maxExtensionsPerItem)
  }

  // ----- results

  datatype Finding = Finding(
    schemaVersion: Bytes, code: Bytes, severity: Bytes, path: Bytes, message: Bytes, principle: Bytes)

  predicate ValidFinding(f: Finding) {
    && f.schemaVersion == FINDING_SCHEMA && Identifier(f.code)
    && f.message != "" && f.principle != "" && f.path != ""
    && f.severity in ["info", "warning", "error"]
  }

  datatype Decision = Decision(
    schemaVersion: Bytes, policyVersion: Bytes, state: Bytes, abstentionReason: Bytes, winner: Option<int>,
    conditionalScores: Option<seq<Bytes>>, decisionStrength: Bytes, scoreEvidenceDigests: Option<seq<Bytes>>,
    budgetDigest: Bytes, provenanceDigest: Bytes)

  /** An array that JSON may leave null is an `Option`. */
  datatype InvocationResult = InvocationResult(
    schemaVersion: Bytes, invocationID: Bytes, status: Status, score: Option<ScoreEvidence.Evidence>,
    decision: Option<Decision>, findings: Option<seq<Finding>>, observedDigest: Bytes, evidenceDigest: Bytes,
    extensions: Option<seq<Extension>>)

  /** The digest of a value whose own digest field is blank; `None` when it has no canonical form. */
  type Digester = InvocationResult -> Option<Bytes>

  ghost predicate Digests(digest: Digester) {
    forall r :: digest(r).Some? ==> ValidDigest(digest(r).value)
  }

  function Material(r: InvocationResult): InvocationResult {
    r.(evidenceDigest := "")
  }

  ghost predicate ValidResult(checks: Checks, digest: Digester, r: InvocationResult, invocationID: Bytes) {
    && r.schemaVersion == RESULT_SCHEMA && r.invocationID == invocationID
    && !r.status.OtherStatus?
    && r.findings.Some? && r.extensions.Some?
    && ValidDigest(r.evidenceDigest)
    && (r.observedDigest == "" || ValidDigest(r.observedDigest))
    && digest(Material(r)) == Some(r.evidenceDigest)
    && (forall i | 0 <= i < |r.findings.value| :: ValidFinding(r.findings.value[i]))
    && (r.score.Some? ==> ScoreEvidence.Accepted(r.score.value))
    && (r.decision.Some? ==> checks.decisionOk(r.decision.value))
    && ExtensionsOk(checks, r.extensions.value, DEFAULT_LIMITS.maxExtensionsPerItem)
  }

  // ----- cases

  datatype Expected = Expected(
    status: Expectation, findingCode: Bytes, scoreDecimal: Bytes, decisionState: Bytes, evidenceDigest: Bytes)

  datatype CaseVector = CaseVector(
    caseID: Bytes, level: Level, kind: CaseKind, description: Bytes, expected: Expected, raw: Bytes)

  datatype CaseResult = CaseResult(
    caseID: Bytes, level: Level, kind: CaseKind, outcome: Outcome, reason: Bytes, findingCodes: seq<Bytes>,
    observedDigest: Bytes, resultDigest: Bytes)

  predicate ResultMatches(expected: Expected, r: InvocationResult) {
    match expected.status
    case ExpectAccepted =>
      && r.status == StatusAccepted
      && (expected.scoreDecimal != "" ==> r.score.Some? && r.score.value.expectedScore == expected.scoreDecimal)
      && (expected.decisionState != "" ==> r.decision.Some? && r.decision.value.state == expected.decisionState)
      && (expected.evidenceDigest != "" ==> r.observedDigest == expected.evidenceDigest)
    case ExpectRejected =>
      && r.status == StatusRejected
      && (expected.findingCode != "" ==>
            r.findings.Some? && exists i | 0 <= i < |r.findings.value| :: r.findings.value[i].code == expected.findingCode)
    case ExpectUnsupported => r.status == StatusUnsupported
    case OtherExpectation(_) => false
  }

  function StatusText(status: Status): Bytes {
    match status
    case StatusAccepted => "accepted"
    case StatusRejected => "rejected"
    case StatusUnsupported => "unsupported"
    case StatusCancelled => "cancelled"
    case StatusFailed => "failed"
    case OtherStatus(text) => text
  }

  const ACCEPTED_REASON := "accepted with complete evidence"
  const REJECTED_REASON := "rejected without synthesizing evidence"
  const UNSUPPORTED_REASON := "unsupported capability reported explicitly"
  const SCORE_REASON := "accepted score evidence did not match expected closed-form score"
  const DECISION_REASON := "accepted decision did not match expected state"
  const DIGEST_REASON := "accepted result did not emit the expected observed artifact digest"
  const CODE_REASON := "rejection omitted the expected finding code"

  /** The reason a comparison gives for its verdict. */
  function MatchReason(expected: Expected, r: InvocationResult): Bytes {
    match expected.status
    case ExpectAccepted =>
      if r.status != StatusAccepted then "expected accepted, got " + StatusText(r.status)
      else if expected.scoreDecimal != "" && (r.score.None? || r.score.value.expectedScore != expected.scoreDecimal) then SCORE_REASON
      else if expected.decisionState != "" && (r.decision.None? || r.decision.value.state != expected.decisionState) then DECISION_REASON
      else if expected.evidenceDigest != "" && r.observedDigest != expected.evidenceDigest then DIGEST_REASON
      else ACCEPTED_REASON
    case ExpectRejected =>
      if r.status != StatusRejected then "expected rejected, got " + StatusText(r.status)
      else if ResultMatches(expected, r) then REJECTED_REASON
      else CODE_REASON
    case ExpectUnsupported =>
      if r.status != StatusUnsupported then "expected unsupported, got " + StatusText(r.status) else UNSUPPORTED_REASON
    case OtherExpectation(_) => "invalid expected status"
  }

  lemma ReasonsDiffer()
    ensures |ACCEPTED_REASON| == 31 && |REJECTED_REASON| == 38 && |UNSUPPORTED_REASON| == 42
    ensures |SCORE_REASON| == 64 && |DECISION_REASON| == 46 && |DIGEST_REASON| == 66 && |CODE_REASON| == 43
    ensures ACCEPTED_REASON[0] == 'a' && REJECTED_REASON[0] == 'r' && UNSUPPORTED_REASON[0] == 'u'
  {
  }

  /** The reason alone tells whether the result matched. */
  lemma ReasonTellsOutcome(expected: Expected, r: InvocationResult)
    ensures ResultMatches(expected, r) <==> MatchReason(expected, r) in [ACCEPTED_REASON, REJECTED_REASON, UNSUPPORTED_REASON]
  {
    hide ACCEPTED_REASON, REJECTED_REASON, UNSUPPORTED_REASON, SCORE_REASON, DECISION_REASON, DIGEST_REASON, CODE_REASON;
    ReasonsDiffer();
    var reason := MatchReason(expected, r);
    if ResultMatches(expected, r) {
      assert reason in [ACCEPTED_REASON, REJECTED_REASON, UNSUPPORTED_REASON];
    } else {
      assert reason[0] == 'e' || |reason| in [64, 46, 66, 43, 23];
    }
  }
}
