/**
 From the raw bytes of one audit case to a sealed result: strict decoding, required fields, the
 envelope, the byte limits, the reference evaluator and the seal; and the validator on the other
 side, which recomputes the seal.
 */
module ReferencePipeline {
  import opened Basics
  import opened Texts
  import opened JsonGrammar
  import opened JsonParser
  import opened CanonicalJson
  import opened ProtocolModel
  import opened RequiredFields
  import ScoreEvidence

  datatype CanonicalInput = CanonicalInput(sourceHex: Bytes, expectedHex: Bytes, expectedSHA256: Bytes)

  datatype RequestVector = RequestVector(vectorID: Bytes, canonicalHex: Bytes, expectedSHA256: Bytes)

  datatype Replay = Replay(
    requestFingerprint: Bytes, responseDigest: Bytes, evidenceDigest: Bytes, status: Bytes, reason: Bytes)

  datatype Attestation = Attestation(
    schemaVersion: Bytes, attestationDigest: Bytes, state: Bytes, evidenceCeiling: Bytes, observedAt: Bytes,
    expiresAt: Bytes, requestFingerprint: Bytes, routeLimitations: Option<seq<Bytes>>)

  datatype Invocation = Invocation(
    schemaVersion: Bytes, invocationID: Bytes, operation: CaseKind, offline: bool, timeoutMillis: int,
    maxInputBytes: int, trajectoryRefs: seq<Bytes>, canonicalJSON: Option<CanonicalInput>,
    requestVector: Option<RequestVector>, score: Option<ScoreEvidence.Evidence>, decision: Option<Decision>,
    replay: Option<Replay>, attestation: Option<Attestation>, extensions: seq<Extension>)

  datatype AuditCase = AuditCase(
    schemaVersion: Bytes, protocolVersion: Bytes, caseID: Bytes, level: Level, kind: CaseKind, description: Bytes,
    requiredCapabilities: seq<Bytes>, invocation: Invocation, expected: Expected, extensions: seq<Extension>)

  /**
   What the pipeline calls out to: typed decoding of a value, the lenient reading of the identity,
   hexadecimal, the digest functions, and checks that stay abstract.
   */
  datatype Pipeline = Pipeline(
    limits: Limits, checks: Checks, digest: Digester,
    typed: Json -> Option<AuditCase>, identity: Bytes -> Option<Bytes>,
    unhex: Bytes -> Option<Bytes>, sha: Bytes -> Bytes,
    referenceOk: Bytes -> bool, expiresAfter: (Bytes, Bytes) -> bool)

  /** Digests are well formed, and both readings of one text see the same identity. */
  ghost predicate Coherent(p: Pipeline) {
    && ValidLimits(p.limits) && Digests(p.digest)
    && forall raw :: Decode(p, raw).Some? ==> p.identity(raw) == Some(Decode(p, raw).value.invocation.invocationID)
  }

  /** Strict decoding: a canonicalizable text whose value has the shape of a case. */
  ghost function Decode(p: Pipeline, raw: Bytes): Option<AuditCase> {
    if Canonicalize(raw).None? || ParseText(raw).None? then None else p.typed(ParseText(raw).value)
  }

  /** The text spells a value with all the fields its kind of case requires. */
  predicate FieldsOk(raw: Bytes) {
    var v := ParseText(raw);
    v.Some? && CaseFieldsOk(v.value)
  }

  const NO_IDENTITY := "invocation.invalid"

  function IDFromRaw(p: Pipeline, raw: Bytes): Bytes {
    var id := p.identity(raw);
    if id.Some? && id.value != "" then id.value else NO_IDENTITY
  }

  // ----- the checks

  ghost predicate EnvelopeOk(p: Pipeline, c: AuditCase) {
    && c.schemaVersion == CASE_SCHEMA && SupportedVersion(c.protocolVersion)
    && Identifier(c.caseID) && c.description != ""
    && !c.level.OtherLevel? && !c.kind.OtherKind?
    && c.invocation.schemaVersion == INVOCATION_SCHEMA && c.invocation.invocationID != ""
    && c.invocation.operation == c.kind
    && 0 < c.invocation.timeoutMillis <= p.limits.maxDurationMillis
    && 0 < c.invocation.maxInputBytes <= p.limits.maxCaseBytes
    && !c.expected.status.OtherExpectation?
    && UniqueStrings(c.requiredCapabilities)
    && ExtensionsOk(p.checks, c.extensions, p.limits.maxExtensionsPerItem)
    && (forall i | 0 <= i < |c.invocation.trajectoryRefs| :: p.referenceOk(c.invocation.trajectoryRefs[i]))
    && ExtensionsOk(p.checks, c.invocation.extensions, p.limits.maxExtensionsPerItem)
  }

  function One(present: bool): nat {
    if present then 1 else 0
  }

  function PayloadCount(i: Invocation): nat {
    One(i.canonicalJSON.Some?) + One(i.requestVector.Some?) + One(i.score.Some?)
    + One(i.decision.Some?) + One(i.replay.Some?) + One(i.attestation.Some?)
  }

  ghost predicate CanonicalInputOk(p: Pipeline, input: Option<CanonicalInput>) {
    && input.Some?
    && var source, expected := p.unhex(input.value.sourceHex), p.unhex(input.value.expectedHex);
       && input.value.sourceHex != "" && source.Some? && source.value != ""
       && Canonicalize(source.value).Some? && expected.Some? && expected.value != ""
       && Canonicalize(source.value) == expected
       && ValidDigest(input.value.expectedSHA256) && p.sha(expected.value) == input.value.expectedSHA256
  }

  predicate RequestVectorOk(p: Pipeline, vector: Option<RequestVector>) {
    && vector.Some? && Identifier(vector.value.vectorID) && ValidDigest(vector.value.expectedSHA256)
    && var canonical := p.unhex(vector.value.canonicalHex);
       canonical.Some? && canonical.value != "" && p.sha(canonical.value) == vector.value.expectedSHA256
  }

  predicate ReplayOk(r: Replay) {
    && ValidDigest(r.requestFingerprint) && ValidDigest(r.responseDigest) && ValidDigest(r.evidenceDigest)
    && r.status == "exact" && r.reason == ""
  }

  predicate AttestationOk(p: Pipeline, a: Attestation) {
    && a.schemaVersion != "" && ValidDigest(a.attestationDigest) && ValidDigest(a.requestFingerprint)
    && a.state != "" && a.evidenceCeiling != "" && a.routeLimitations.Some?
    && p.expiresAfter(a.observedAt, a.expiresAt) && SortedUniqueStrings(a.routeLimitations.value)
  }

  /** `NilDereference` stands for the crash of reading a payload that is not there. */
  datatype Verdict = Sound | Refused | NilDereference

  function Checked(ok: bool): Verdict {
    if ok then Sound else Refused
  }

  ghost function InvocationVerdict(p: Pipeline, i: Invocation): Verdict {
    if i.schemaVersion != INVOCATION_SCHEMA || i.invocationID == "" || !i.offline then Refused
    else if i.operation == ExtensionKind || i.operation == CompatibilityKind then Checked(PayloadCount(i) == 0)
    else if PayloadCount(i) != 1 then Refused
    else
      match i.operation
      case CanonicalEncoding => Checked(CanonicalInputOk(p, i.canonicalJSON))
      case RequestFingerprint => Checked(RequestVectorOk(p, i.requestVector))
      case ScoreKind => if i.score.None? then NilDereference else Checked(ScoreEvidence.Accepted(i.score.value))
      case DecisionKind => if i.decision.None? then NilDereference else Checked(p.checks.decisionOk(i.decision.value))
      case ReplayKind => if i.replay.None? then NilDereference else Checked(ReplayOk(i.replay.value))
      case AttestationKind => if i.attestation.None? then NilDereference else Checked(AttestationOk(p, i.attestation.value))
      case _ => Refused
  }

  // ----- results before the seal

  function FindingFor(message: Bytes): Finding {
    Finding(FINDING_SCHEMA, SEMANTIC_CODE, "error", "/invocation", message,
            "invalid evidence must be rejected without a synthesized score or decision")
  }

  const OVERSIZE_FINDING :=
    Finding(FINDING_SCHEMA, CASE_BYTES_CODE, "error", "/invocation/max_input_bytes",
            "audit case exceeds its declared byte ceiling",
            "case bytes must fit both the invocation and adapter ceilings")

  const UNSUPPORTED_FINDING :=
    Finding(FINDING_SCHEMA, UNSUPPORTED_CODE, "error", "/invocation/operation",
            "reference adapter does not implement the operation",
            "an adapter must report unsupported instead of inventing a result")

  function Rejection(id: Bytes, finding: Finding): InvocationResult {
    InvocationResult(RESULT_SCHEMA, id, StatusRejected, None, None, Some([finding]), "", "", Some([]))
  }

  /** The evaluator's result before the seal; `None` is the crash. */
  ghost function Evaluated(p: Pipeline, c: AuditCase): Option<InvocationResult> {
    var i := c.invocation;
    var base := InvocationResult(RESULT_SCHEMA, i.invocationID, StatusAccepted, None, None, Some([]), "", "", Some(i.extensions));
    match InvocationVerdict(p, i)
    case NilDereference => None
    case Refused => Some(base.(status := StatusRejected, findings := Some([FindingFor("invocation is invalid")])))
    case Sound =>
      match c.kind
      case CanonicalEncoding => if i.canonicalJSON.None? then None else Some(base.(observedDigest := i.canonicalJSON.value.expectedSHA256))
      case RequestFingerprint => if i.requestVector.None? then None else Some(base.(observedDigest := i.requestVector.value.expectedSHA256))
      case ScoreKind => if i.score.None? then None else Some(base.(score := i.score))
      case DecisionKind => if i.decision.None? then None else Some(base.(decision := i.decision))
      case ReplayKind => if i.replay.None? then None else Some(base.(observedDigest := i.replay.value.evidenceDigest))
      case AttestationKind => if i.attestation.None? then None else Some(base.(observedDigest := i.attestation.value.attestationDigest))
      case ExtensionKind =>
        if ExtensionsOk(p.checks, i.extensions, DEFAULT_LIMITS.maxExtensionsPerItem) then Some(base)
        else Some(base.(status := StatusRejected, findings := Some([FindingFor("extension is invalid")])))
      case CompatibilityKind => Some(base)
      case OtherKind(_) => Some(base.(status := StatusUnsupported, findings := Some([UNSUPPORTED_FINDING])))
  }

  ghost predicate Oversize(p: Pipeline, raw: Bytes, c: AuditCase) {
    |raw| > c.invocation.maxInputBytes || |raw| > p.limits.maxCaseBytes
  }

  ghost function Draft(p: Pipeline, raw: Bytes): Option<InvocationResult> {
    var decoded := Decode(p, raw);
    if decoded.None? then Some(Rejection(IDFromRaw(p, raw), FindingFor("case does not decode")))
    else if !FieldsOk(raw) then Some(Rejection(IDFromRaw(p, raw), FindingFor("required field is absent")))
    else if !EnvelopeOk(p, decoded.value) then
      Some(Rejection(decoded.value.invocation.invocationID, FindingFor("case envelope is invalid")))
    else if Oversize(p, raw, decoded.value) then Some(Rejection(IDFromRaw(p, raw), OVERSIZE_FINDING))
    else Evaluated(p, decoded.value)
  }

  function Sealed(digest: Digester, r: InvocationResult): InvocationResult {
    match digest(Material(r))
    case Some(d) => r.(evidenceDigest := d)
    case None =>
      r.(status := StatusFailed, evidenceDigest := "",
         findings := Some((if r.findings.Some? then r.findings.value else []) + [FindingFor("seal invocation result")]))
  }

  // ----- what the seal means

  /** The same material, under its own digest. */
  ghost predicate IsSealOf(digest: Digester, s: InvocationResult, r: InvocationResult) {
    Material(s) == Material(r) && digest(Material(s)) == Some(s.evidenceDigest)
  }

  /** A failure that carries no digest, adds one valid finding and says nothing else than before. */
  predicate IsFailureOf(s: InvocationResult, r: InvocationResult) {
    && s.status == StatusFailed && s.evidenceDigest == "" && s.findings.Some?
    && Material(s).(status := r.status, findings := r.findings) == Material(r)
    && var before := if r.findings.Some? then r.findings.value else [];
       && |s.findings.value| == |before| + 1 && s.findings.value[..|before|] == before
       && ValidFinding(s.findings.value[|before|])
  }

  /** The seal depends on the material alone, and sealing again changes nothing. */
  lemma SealMeans(digest: Digester, r: InvocationResult)
    ensures digest(Material(r)).Some? ==> IsSealOf(digest, Sealed(digest, r), r) && Sealed(digest, Sealed(digest, r)) == Sealed(digest, r)
    ensures digest(Material(r)).None? ==> IsFailureOf(Sealed(digest, r), r)
    ensures forall t :: Material(t) == Material(r) ==> Sealed(digest, t) == Sealed(digest, r)
  {
    FindingsAreValid("seal invocation result");
    hide ValidFinding, FindingFor;
    var s := Sealed(digest, r);
    if digest(Material(r)).Some? {
      assert Material(s) == Material(r) == r.(evidenceDigest := "");
      assert s.(evidenceDigest := s.evidenceDigest) == s;
    }
    forall t | Material(t) == Material(r) ensures Sealed(digest, t) == Sealed(digest, r) {
      assert Material(t).(evidenceDigest := t.evidenceDigest) == t && Material(r).(evidenceDigest := r.evidenceDigest) == r;
    }
  }

  /** A result carries the seal of its material exactly when sealing leaves it as it is. */
  lemma SealedIsFixed(digest: Digester, s: InvocationResult)
    requires Digests(digest) && s.status != StatusFailed
    ensures Sealed(digest, s) == s <==> digest(Material(s)) == Some(s.evidenceDigest)
  {
    assert s.(evidenceDigest := s.evidenceDigest) == s;
  }

  // ----- what the results mean

  /** The front checks passed: only the evaluator is left. */
  ghost predicate Reaches(p: Pipeline, raw: Bytes) {
    && Decode(p, raw).Some? && FieldsOk(raw)
    && EnvelopeOk(p, Decode(p, raw).value) && !Oversize(p, raw, Decode(p, raw).value)
  }

  /** The payload the operation names is there. */
  predicate HasNamedPayload(i: Invocation) {
    match i.operation
    case CanonicalEncoding => i.canonicalJSON.Some?
    case RequestFingerprint => i.requestVector.Some?
    case ScoreKind => i.score.Some?
    case DecisionKind => i.decision.Some?
    case ReplayKind => i.replay.Some?
    case AttestationKind => i.attestation.Some?
    case _ => true
  }

  /** One payload, but not the one the operation names, for an operation that reads it without a check. */
  predicate WrongPayload(i: Invocation) {
    i.offline && PayloadCount(i) == 1 && !HasNamedPayload(i) && i.operation in {ScoreKind, DecisionKind, ReplayKind, AttestationKind}
  }

  lemma VerdictIsCrash(p: Pipeline, i: Invocation)
    requires i.schemaVersion == INVOCATION_SCHEMA && i.invocationID != ""
    ensures InvocationVerdict(p, i) == NilDereference <==> WrongPayload(i)
  {
    hide CanonicalInputOk, RequestVectorOk, ScoreEvidence.Accepted, ReplayOk, AttestationOk;
  }

  /** The evaluator crashes exactly on a case with the wrong payload that passes every check before it. */
  lemma CrashesExactlyWhen(p: Pipeline, raw: Bytes)
    ensures Draft(p, raw).None? <==> Reaches(p, raw) && WrongPayload(Decode(p, raw).value.invocation)
  {
    hide FieldsOk, Decode, WrongPayload, InvocationVerdict, ExtensionsOk, Identifier, UniqueStrings;
    if Reaches(p, raw) {
      var c := Decode(p, raw).value;
      VerdictIsCrash(p, c.invocation);
      if InvocationVerdict(p, c.invocation) == Sound {
        SoundHasPayload(p, c.invocation);
      }
    }
  }

  lemma SoundHasPayload(p: Pipeline, i: Invocation)
    requires InvocationVerdict(p, i) == Sound
    ensures HasNamedPayload(i)
  {
    hide ScoreEvidence.Accepted, ReplayOk, AttestationOk;
  }

  /** A case that decodes with all its required fields but leaves its identity empty. */
  ghost predicate EmptyIdentity(p: Pipeline, raw: Bytes) {
    && Decode(p, raw).Some? && FieldsOk(raw)
    && Decode(p, raw).value.invocation.invocationID == ""
  }

  const SEMANTIC_CODE: Bytes := "protocol.semantic.invalid"
  const CASE_BYTES_CODE: Bytes := "protocol.resource.case_bytes"
  const UNSUPPORTED_CODE: Bytes := "protocol.operation.unsupported"

  lemma SemanticCode()
    ensures Identifier(SEMANTIC_CODE)
  {
  }

  lemma CaseBytesCode()
    ensures Identifier(CASE_BYTES_CODE)
  {
  }

  lemma UnsupportedCode()
    ensures Identifier(UNSUPPORTED_CODE)
  {
  }

  lemma FindingsAreValid(message: Bytes)
    requires message != ""
    ensures ValidFinding(FindingFor(message)) && ValidFinding(OVERSIZE_FINDING) && ValidFinding(UNSUPPORTED_FINDING)
  {
    SemanticCode();
    CaseBytesCode();
    UnsupportedCode();
    hide Identifier, SEMANTIC_CODE, CASE_BYTES_CODE, UNSUPPORTED_CODE;
  }

  lemma RejectionIsValid(p: Pipeline, id: Bytes, finding: Finding, given: Bytes)
    requires Coherent(p) && ValidFinding(finding)
    ensures var r := Rejection(id, finding);
            ValidResult(p.checks, p.digest, Sealed(p.digest, r), given) <==> p.digest(r).Some? && id == given
  {
    hide ValidFinding;
    var r := Rejection(id, finding);
    assert Material(r) == r;
    if p.digest(r).Some? {
      assert Material(Sealed(p.digest, r)) == r;
      assert Sealed(p.digest, r).findings.value[0] == finding;
    } else {
      assert !ValidDigest("");
    }
  }

  lemma WiderExtensions(checks: Checks, extensions: seq<Extension>, least: int, most: int)
    requires ExtensionsOk(checks, extensions, least) && least <= most
    ensures ExtensionsOk(checks, extensions, most)
  {
  }

  /** What the evaluator hands to the seal lacks only the digest to be valid. */
  lemma EvaluatedIsReady(p: Pipeline, c: AuditCase)
    requires ValidLimits(p.limits) && EnvelopeOk(p, c) && Evaluated(p, c).Some?
    ensures var r := Evaluated(p, c).value;
            && r.schemaVersion == RESULT_SCHEMA && r.invocationID == c.invocation.invocationID
            && r.findings.Some? && (forall i | 0 <= i < |r.findings.value| :: ValidFinding(r.findings.value[i]))
            && r.extensions == Some(c.invocation.extensions) && r.evidenceDigest == ""
            && (r.status == StatusAccepted || r.status == StatusRejected)
            && (r.observedDigest == "" || ValidDigest(r.observedDigest))
            && (r.score.Some? ==> ScoreEvidence.Accepted(r.score.value))
            && (r.decision.Some? ==> p.checks.decisionOk(r.decision.value))
            && (r.status == StatusRejected ==> r.score.None? && r.decision.None? && r.observedDigest == "")
            && (r.status == StatusAccepted <==> InvocationVerdict(p, c.invocation) == Sound)
  {
    WiderExtensions(p.checks, c.invocation.extensions, p.limits.maxExtensionsPerItem, DEFAULT_LIMITS.maxExtensionsPerItem);
    FindingsAreValid("invocation is invalid");
    FindingsAreValid("extension is invalid");
    hide FieldsOk, ExtensionsOk, Identifier, ValidDigest, UniqueStrings, ScoreEvidence.Accepted, Canonicalize, ParseText, ValidFinding, FindingFor;
  }

  lemma SealIsValid(checks: Checks, digest: Digester, r: InvocationResult)
    requires Digests(digest) && r.schemaVersion == RESULT_SCHEMA && r.evidenceDigest == ""
    requires r.findings.Some? && (forall i | 0 <= i < |r.findings.value| :: ValidFinding(r.findings.value[i]))
    requires r.extensions.Some? && ExtensionsOk(checks, r.extensions.value, DEFAULT_LIMITS.maxExtensionsPerItem)
    requires !r.status.OtherStatus? && (r.observedDigest == "" || ValidDigest(r.observedDigest))
    requires r.score.Some? ==> ScoreEvidence.Accepted(r.score.value)
    requires r.decision.Some? ==> checks.decisionOk(r.decision.value)
    ensures ValidResult(checks, digest, Sealed(digest, r), r.invocationID) <==> digest(r).Some?
  {
    hide ExtensionsOk, ValidFinding, ScoreEvidence.Accepted;
    assert Material(r) == r;
    if digest(r).Some? {
      assert Material(Sealed(digest, r)) == r;
    } else {
      assert !ValidDigest("");
    }
  }

  /**
   The sealed result of any payload passes the validator under the identity read from the raw bytes,
   except when the result has no canonical form or the case left its identity empty.
   */
  lemma SealedResultIsValid(p: Pipeline, raw: Bytes)
    requires Coherent(p) && Draft(p, raw).Some?
    ensures ValidResult(p.checks, p.digest, Sealed(p.digest, Draft(p, raw).value), IDFromRaw(p, raw)) <==>
            p.digest(Draft(p, raw).value).Some? && !EmptyIdentity(p, raw)
  {
    hide FieldsOk, ValidResult, Canonicalize, ParseText, ValidLimits;
    var given := IDFromRaw(p, raw);
    FindingsAreValid("case does not decode");
    FindingsAreValid("required field is absent");
    FindingsAreValid("case envelope is invalid");
    hide ValidFinding, FindingFor;
    if Reaches(p, raw) {
      var c := Decode(p, raw).value;
      var r := Evaluated(p, c).value;
      EvaluatedIsReady(p, c);
      ReachedExtensions(p, c);
      SealIsValid(p.checks, p.digest, r);
    } else {
      hide EnvelopeOk, Evaluated;
      var finding := Draft(p, raw).value.findings.value[0];
      RejectionIsValid(p, Draft(p, raw).value.invocationID, finding, given);
      if Decode(p, raw).Some? {
        EnvelopeIdentity(p, raw);
      }
    }
  }

  lemma ReachedExtensions(p: Pipeline, c: AuditCase)
    requires ValidLimits(p.limits) && EnvelopeOk(p, c)
    ensures ExtensionsOk(p.checks, c.invocation.extensions, DEFAULT_LIMITS.maxExtensionsPerItem)
    ensures c.invocation.invocationID != ""
  {
    WiderExtensions(p.checks, c.invocation.extensions, p.limits.maxExtensionsPerItem, DEFAULT_LIMITS.maxExtensionsPerItem);
  }

  lemma EnvelopeIdentity(p: Pipeline, raw: Bytes)
    requires Coherent(p) && Decode(p, raw).Some?
    ensures EnvelopeOk(p, Decode(p, raw).value) ==> IDFromRaw(p, raw) == Decode(p, raw).value.invocation.invocationID
    ensures IDFromRaw(p, raw) == Decode(p, raw).value.invocation.invocationID <==> Decode(p, raw).value.invocation.invocationID != ""
  {
  }

  /** A rejected result carries no score evidence, no decision and no observed digest. */
  lemma RejectedCarriesNothing(p: Pipeline, raw: Bytes)
    requires ValidLimits(p.limits) && Draft(p, raw).Some? && Draft(p, raw).value.status == StatusRejected
    ensures var r := Draft(p, raw).value; r.score.None? && r.decision.None? && r.observedDigest == ""
    ensures var r := Draft(p, raw).value; r.findings.Some? && |r.findings.value| == 1
  {
    hide FieldsOk, EnvelopeOk, Canonicalize, ParseText, ValidLimits, InvocationVerdict, FindingFor;
    if Reaches(p, raw) {
      EvaluatedIsReady(p, Decode(p, raw).value);
    }
  }

  /** A result is accepted exactly when every check passed; it then carries the evidence its kind names. */
  lemma AcceptedExactlyWhen(p: Pipeline, raw: Bytes)
    requires ValidLimits(p.limits) && Draft(p, raw).Some?
    ensures Draft(p, raw).value.status == StatusAccepted <==>
            Reaches(p, raw) && InvocationVerdict(p, Decode(p, raw).value.invocation) == Sound
    ensures Draft(p, raw).value.status == StatusAccepted ==>
              AcceptedEvidence(p, Decode(p, raw).value.invocation, Draft(p, raw).value)
  {
    hide FieldsOk, Canonicalize, ParseText, ValidLimits, ExtensionsOk, Identifier, ValidDigest, UniqueStrings,
      ScoreEvidence.Accepted, FindingFor;
    if Reaches(p, raw) {
      EvaluatedIsReady(p, Decode(p, raw).value);
      if Draft(p, raw).value.status == StatusAccepted {
        AcceptedIsEvidence(p, Decode(p, raw).value);
      }
    }
  }

  /** The result carries a finding with this code. */
  predicate Reports(r: InvocationResult, code: Bytes) {
    r.findings.Some? && exists i | 0 <= i < |r.findings.value| :: r.findings.value[i].code == code
  }

  lemma CodesDiffer()
    ensures |SEMANTIC_CODE| == 25 && |CASE_BYTES_CODE| == 28 && |UNSUPPORTED_CODE| == 30
  {
  }

  lemma EvaluatedCodes(p: Pipeline, c: AuditCase)
    requires Evaluated(p, c).Some?
    ensures !Reports(Evaluated(p, c).value, "protocol.resource.case_bytes")
  {
    hide InvocationVerdict, ExtensionsOk, SEMANTIC_CODE, UNSUPPORTED_CODE;
    CodesDiffer();
    assert CASE_BYTES_CODE == "protocol.resource.case_bytes";
  }

  lemma FrontCodes(id: Bytes, message: Bytes)
    ensures Reports(Rejection(id, OVERSIZE_FINDING), "protocol.resource.case_bytes")
    ensures !Reports(Rejection(id, FindingFor(message)), "protocol.resource.case_bytes")
  {
    hide SEMANTIC_CODE, UNSUPPORTED_CODE;
    CodesDiffer();
    assert CASE_BYTES_CODE == "protocol.resource.case_bytes";
    assert Rejection(id, OVERSIZE_FINDING).findings.value[0].code == CASE_BYTES_CODE;
  }

  lemma EnvelopeBounds(p: Pipeline, c: AuditCase)
    requires EnvelopeOk(p, c)
    ensures c.invocation.maxInputBytes <= p.limits.maxCaseBytes
  {
    hide ExtensionsOk, Identifier, UniqueStrings;
  }

  /** A case sound so far, in a text longer than the case itself allows. */
  ghost predicate LongerThanAllowed(p: Pipeline, raw: Bytes) {
    && Decode(p, raw).Some? && FieldsOk(raw) && EnvelopeOk(p, Decode(p, raw).value)
    && |raw| > Decode(p, raw).value.invocation.maxInputBytes
  }

  /**
   A text is rejected for its size exactly when its case is sound so far and the text is longer than
   the case itself allows; what the adapter allows is never less than that.
   */
  lemma OversizeExactlyWhen(p: Pipeline, raw: Bytes)
    ensures var r := Draft(p, raw);
            && (LongerThanAllowed(p, raw) <==> r.Some? && Reports(r.value, "protocol.resource.case_bytes"))
            && (LongerThanAllowed(p, raw) ==> r.value.status == StatusRejected)
            && (r.Some? && r.value.status == StatusAccepted ==>
                  Decode(p, raw).Some? && |raw| <= Decode(p, raw).value.invocation.maxInputBytes <= p.limits.maxCaseBytes)
  {
    hide FieldsOk, Decode, Reports, Evaluated, EnvelopeOk, FindingFor, OVERSIZE_FINDING;
    FrontCodes(IDFromRaw(p, raw), "case does not decode");
    FrontCodes(IDFromRaw(p, raw), "required field is absent");
    if Decode(p, raw).Some? {
      var c := Decode(p, raw).value;
      FrontCodes(c.invocation.invocationID, "case envelope is invalid");
      if EnvelopeOk(p, c) {
        EnvelopeBounds(p, c);
        if Evaluated(p, c).Some? {
          EvaluatedCodes(p, c);
        }
      }
    }
  }

  /** The one finding of a text refused before evaluation. */
  predicate RefusedAs(r: InvocationResult, id: Bytes, code: Bytes, path: Bytes) {
    && r.status == StatusRejected && r.invocationID == id && r.findings.Some? && |r.findings.value| == 1
    && r.findings.value[0].code == code && r.findings.value[0].path == path && r.findings.value[0].severity == "error"
  }

  /** What does not decode, lacks a required field or has no sound envelope is refused, the last under the identity it decoded to. */
  lemma RefusedBeforeEvaluation(p: Pipeline, raw: Bytes)
    ensures Decode(p, raw).None? || !FieldsOk(raw) ==>
              Draft(p, raw).Some? && RefusedAs(Draft(p, raw).value, IDFromRaw(p, raw), "protocol.semantic.invalid", "/invocation")
    ensures Decode(p, raw).Some? && FieldsOk(raw) && !EnvelopeOk(p, Decode(p, raw).value) ==>
              Draft(p, raw).Some?
              && RefusedAs(Draft(p, raw).value, Decode(p, raw).value.invocation.invocationID, "protocol.semantic.invalid", "/invocation")
  {
    hide FieldsOk, Decode, Evaluated, EnvelopeOk, IDFromRaw;
  }

  /** What an accepted result says about the one payload of its invocation. */
  ghost predicate AcceptedEvidence(p: Pipeline, i: Invocation, r: InvocationResult) {
    && (r.score.Some? <==> i.operation == ScoreKind) && (r.score.Some? ==> r.score == i.score && ScoreEvidence.Accepted(r.score.value))
    && (r.decision.Some? <==> i.operation == DecisionKind) && (r.decision.Some? ==> r.decision == i.decision && p.checks.decisionOk(r.decision.value))
    && (i.operation == CanonicalEncoding ==>
          && i.canonicalJSON.Some? && p.unhex(i.canonicalJSON.value.sourceHex).Some?
          && var canonical := Canonicalize(p.unhex(i.canonicalJSON.value.sourceHex).value);
             canonical.Some? && r.observedDigest == p.sha(canonical.value))
    && (i.operation == RequestFingerprint ==>
          && i.requestVector.Some? && p.unhex(i.requestVector.value.canonicalHex).Some?
          && r.observedDigest == p.sha(p.unhex(i.requestVector.value.canonicalHex).value))
    && (i.operation == ReplayKind ==>
          && i.replay.Some? && r.observedDigest == i.replay.value.evidenceDigest && ValidDigest(r.observedDigest)
          && i.replay.value.status == "exact" && i.replay.value.reason == "")
    && (i.operation == AttestationKind ==>
          && i.attestation.Some? && r.observedDigest == i.attestation.value.attestationDigest && ValidDigest(r.observedDigest)
          && p.expiresAfter(i.attestation.value.observedAt, i.attestation.value.expiresAt))
    && (r.observedDigest != "" <==> i.operation in {CanonicalEncoding, RequestFingerprint, ReplayKind, AttestationKind})
  }

  lemma AcceptedIsEvidence(p: Pipeline, c: AuditCase)
    requires EnvelopeOk(p, c) && Evaluated(p, c).Some? && Evaluated(p, c).value.status == StatusAccepted
    ensures AcceptedEvidence(p, c.invocation, Evaluated(p, c).value)
  {
    hide EnvelopeOk, Canonicalize, ParseText, ExtensionsOk, Identifier, ValidDigest, UniqueStrings, SortedUniqueStrings,
      ScoreEvidence.Accepted, FindingFor;
    EnvelopeKind(p, c);
    NoDigestIsEmpty();
  }

  lemma EnvelopeKind(p: Pipeline, c: AuditCase)
    requires EnvelopeOk(p, c)
    ensures c.invocation.operation == c.kind
  {
    hide ExtensionsOk, Identifier, UniqueStrings;
  }

  lemma NoDigestIsEmpty()
    ensures !ValidDigest("")
  {
  }

  /** Two valid results under one seal are one result, if the digest tells results apart. */
  lemma SealTellsResultsApart(checks: Checks, digest: Digester, r: InvocationResult, s: InvocationResult)
    requires ValidResult(checks, digest, r, r.invocationID) && ValidResult(checks, digest, s, s.invocationID)
    requires forall x, y | digest(x).Some? && digest(x) == digest(y) :: x == y
    ensures r.evidenceDigest == s.evidenceDigest <==> r == s
  {
    hide ExtensionsOk, ValidFinding, ScoreEvidence.Accepted;
    if r.evidenceDigest == s.evidenceDigest {
      assert Material(r) == Material(s);
      assert r == Material(r).(evidenceDigest := r.evidenceDigest);
    }
  }
}
