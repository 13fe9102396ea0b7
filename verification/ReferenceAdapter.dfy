/**
 The reference evaluator and the runner as they execute: validators that stop at the first fault,
 a result filled in step by step, the seal, and one case result for one vector. Each is proved to
 compute what the pipeline specifies.
 */
module ReferenceAdapter {
  import opened Basics
  import opened Ordering
  import opened Texts
  import opened JsonGrammar
  import opened JsonParser
  import opened CanonicalJson
  import opened CanonicalCodec
  import opened Mutation
  import opened JsonPointer
  import opened ProtocolModel
  import opened RequiredFields
  import opened ReferencePipeline
  import ScoreEvidence

  method ValidateExtension(checks: Checks, extension: Extension) returns (ok: bool)
    ensures ok <==> ExtensionOk(checks, extension)
  {
    hide Canonicalize;
    if !checks.namespaceOk(extension.namespace) || extension.schema == "" || extension.payload == "" {
      return false;
    }
    var canonical := CanonicalizeJSON(extension.payload);
    if canonical.None? {
      return false;
    }
    if extension.namespace == RELIABILITY_EXTENSION {
      return checks.reliabilityOk(extension);
    }
    if extension.namespace == checks.applicationNamespace {
      return extension.schema in checks.applicationSchemas;
    }
    ok := !extension.required;
  }

  method ValidateExtensions(checks: Checks, extensions: seq<Extension>, maximum: int) returns (ok: bool)
    ensures ok <==> ExtensionsOk(checks, extensions, maximum)
  {
    hide ExtensionOk;
    if |extensions| > maximum {
      return false;
    }
    var seen: set<Bytes> := {};
    for index := 0 to |extensions|
      invariant forall i | 0 <= i < index :: ExtensionOk(checks, extensions[i])
      invariant forall i, j | 0 <= i < j < index :: extensions[i].namespace != extensions[j].namespace
      invariant forall n :: n in seen <==> exists i | 0 <= i < index :: extensions[i].namespace == n
    {
      var extension := extensions[index];
      var sound := ValidateExtension(checks, extension);
      if !sound || extension.namespace in seen {
        return false;
      }
      seen := seen + {extension.namespace};
    }
    ok := true;
  }

  method ValidateCanonicalJSONInput(p: Pipeline, input: Option<CanonicalInput>) returns (ok: bool)
    ensures ok <==> CanonicalInputOk(p, input)
  {
    hide Canonicalize, ValidDigest;
    if input.None? || input.value.sourceHex == "" {
      return false;
    }
    var source := p.unhex(input.value.sourceHex);
    if source.None? || source.value == "" {
      return false;
    }
    var canonical := CanonicalizeJSON(source.value);
    if canonical.None? {
      return false;
    }
    var expected := p.unhex(input.value.expectedHex);
    if expected.None? || expected.value == "" || canonical.value != expected.value {
      return false;
    }
    ok := ValidDigest(input.value.expectedSHA256) && p.sha(canonical.value) == input.value.expectedSHA256;
  }

  method ValidateRequestVector(p: Pipeline, vector: Option<RequestVector>) returns (ok: bool)
    ensures ok <==> RequestVectorOk(p, vector)
  {
    hide Identifier, ValidDigest;
    if vector.None? || !Identifier(vector.value.vectorID) || !ValidDigest(vector.value.expectedSHA256) {
      return false;
    }
    var canonical := p.unhex(vector.value.canonicalHex);
    if canonical.None? || |canonical.value| == 0 {
      return false;
    }
    ok := p.sha(canonical.value) == vector.value.expectedSHA256;
  }

  method ValidateReplay(replay: Replay) returns (ok: bool)
    ensures ok <==> ReplayOk(replay)
  {
    hide ValidDigest;
    if !ValidDigest(replay.requestFingerprint) || !ValidDigest(replay.responseDigest) || !ValidDigest(replay.evidenceDigest) {
      return false;
    }
    if replay.status != "exact" || replay.reason != "" {
      return false;
    }
    ok := true;
  }

  method ValidateAttestation(p: Pipeline, attestation: Attestation) returns (ok: bool)
    ensures ok <==> AttestationOk(p, attestation)
  {
    hide ValidDigest, SortedUniqueStrings;
    if attestation.schemaVersion == "" || !ValidDigest(attestation.attestationDigest) || !ValidDigest(attestation.requestFingerprint) {
      return false;
    }
    if attestation.state == "" || attestation.evidenceCeiling == "" || attestation.routeLimitations.None? {
      return false;
    }
    if !p.expiresAfter(attestation.observedAt, attestation.expiresAt) {
      return false;
    }
    ok := ValidateSortedUniqueStrings(attestation.routeLimitations.value);
  }

  method ValidateInvocation(p: Pipeline, i: Invocation) returns (verdict: Verdict)
    ensures verdict == InvocationVerdict(p, i)
  {
    hide CanonicalInputOk, RequestVectorOk, ScoreEvidence.Accepted, ReplayOk, AttestationOk;
    if i.schemaVersion != INVOCATION_SCHEMA || i.invocationID == "" || !i.offline {
      return Refused;
    }
    var payloads := 0;
    if i.canonicalJSON.Some? { payloads := payloads + 1; }
    if i.requestVector.Some? { payloads := payloads + 1; }
    if i.score.Some? { payloads := payloads + 1; }
    if i.decision.Some? { payloads := payloads + 1; }
    if i.replay.Some? { payloads := payloads + 1; }
    if i.attestation.Some? { payloads := payloads + 1; }
    assert payloads == PayloadCount(i);
    hide PayloadCount;
    if i.operation == ExtensionKind || i.operation == CompatibilityKind {
      if payloads != 0 {
        return Refused;
      }
    } else if payloads != 1 {
      return Refused;
    }
    var ok: bool;
    match i.operation {
      case CanonicalEncoding => ok := ValidateCanonicalJSONInput(p, i.canonicalJSON);
      case RequestFingerprint => ok := ValidateRequestVector(p, i.requestVector);
      case ScoreKind =>
        if i.score.None? {
          return NilDereference;
        }
        ok := ScoreEvidence.ValidateScoreEvidence(i.score.value);
      case DecisionKind =>
        if i.decision.None? {
          return NilDereference;
        }
        ok := p.checks.decisionOk(i.decision.value);
      case ReplayKind =>
        if i.replay.None? {
          return NilDereference;
        }
        ok := ValidateReplay(i.replay.value);
      case AttestationKind =>
        if i.attestation.None? {
          return NilDereference;
        }
        ok := ValidateAttestation(p, i.attestation.value);
      case ExtensionKind => ok := true;
      case CompatibilityKind => ok := true;
      case OtherKind(_) => ok := false;
    }
    verdict := Checked(ok);
  }

  /**
   A result whose material has a digest keeps its material and carries that digest; otherwise it comes
   back failed, unsealed, with one more finding and all else as it was.
   */
  method SealInvocationResult(digest: Digester, r: InvocationResult) returns (s: InvocationResult)
    ensures s == Sealed(digest, r)
    ensures digest(Material(r)).Some? ==> IsSealOf(digest, s, r)
    ensures digest(Material(r)).None? ==> IsFailureOf(s, r)
  {
    SealMeans(digest, r);
    var material := r.(evidenceDigest := "");
    var d := digest(material);
    if d.None? {
      var findings := if r.findings.Some? then r.findings.value else [];
      return r.(status := StatusFailed, evidenceDigest := "", findings := Some(findings + [FindingFor("seal invocation result")]));
    }
    s := r.(evidenceDigest := d.value);
  }

  ghost function SealedOption(digest: Digester, r: Option<InvocationResult>): Option<InvocationResult> {
    var draft :- r;
    Some(Sealed(digest, draft))
  }

  /** `None` is the crash on a payload that is not there. */
  method Evaluate(p: Pipeline, c: AuditCase) returns (r: Option<InvocationResult>)
    ensures r == SealedOption(p.digest, Evaluated(p, c))
  {
    hide InvocationVerdict, ExtensionsOk, Sealed, FindingFor;
    var i := c.invocation;
    var result := InvocationResult(RESULT_SCHEMA, i.invocationID, StatusAccepted, None, None, Some([]), "", "", Some(i.extensions));
    var verdict := ValidateInvocation(p, i);
    if verdict == NilDereference {
      return None;
    }
    if verdict == Refused {
      result := result.(status := StatusRejected, findings := Some([FindingFor("invocation is invalid")]));
      var s := SealInvocationResult(p.digest, result);
      return Some(s);
    }
    match c.kind {
      case CanonicalEncoding =>
        if i.canonicalJSON.None? { return None; }
        result := result.(observedDigest := i.canonicalJSON.value.expectedSHA256);
      case RequestFingerprint =>
        if i.requestVector.None? { return None; }
        result := result.(observedDigest := i.requestVector.value.expectedSHA256);
      case ScoreKind =>
        if i.score.None? { return None; }
        result := result.(score := i.score);
      case DecisionKind =>
        if i.decision.None? { return None; }
        result := result.(decision := i.decision);
      case ReplayKind =>
        if i.replay.None? { return None; }
        result := result.(observedDigest := i.replay.value.evidenceDigest);
      case AttestationKind =>
        if i.attestation.None? { return None; }
        result := result.(observedDigest := i.attestation.value.attestationDigest);
      case ExtensionKind =>
        var sound := ValidateExtensions(p.checks, i.extensions, DEFAULT_LIMITS.maxExtensionsPerItem);
        if !sound {
          result := result.(status := StatusRejected, findings := Some([FindingFor("extension is invalid")]));
        }
      case CompatibilityKind =>
      case OtherKind(_) =>
        result := result.(status := StatusUnsupported, findings := Some([UNSUPPORTED_FINDING]));
    }
    var s := SealInvocationResult(p.digest, result);
    r := Some(s);
  }

  method ValidateCaseEnvelope(p: Pipeline, c: AuditCase) returns (ok: bool)
    ensures ok <==> EnvelopeOk(p, c)
  {
    hide ExtensionsOk, Identifier, UniqueStrings;
    if c.schemaVersion != CASE_SCHEMA || !SupportedVersion(c.protocolVersion) || !Identifier(c.caseID) || c.description == "" {
      return false;
    }
    if c.level.OtherLevel? || c.kind.OtherKind? {
      return false;
    }
    var i := c.invocation;
    if i.schemaVersion != INVOCATION_SCHEMA || i.invocationID == "" || i.operation != c.kind {
      return false;
    }
    if i.timeoutMillis <= 0 || i.timeoutMillis > p.limits.maxDurationMillis
       || i.maxInputBytes <= 0 || i.maxInputBytes > p.limits.maxCaseBytes {
      return false;
    }
    if c.expected.status.OtherExpectation? {
      return false;
    }
    ok := ValidateUniqueStrings(c.requiredCapabilities);
    if !ok {
      return;
    }
    ok := ValidateExtensions(p.checks, c.extensions, p.limits.maxExtensionsPerItem);
    if !ok {
      return;
    }
    for index := 0 to |i.trajectoryRefs|
      invariant forall k | 0 <= k < index :: p.referenceOk(i.trajectoryRefs[k])
    {
      if !p.referenceOk(i.trajectoryRefs[index]) {
        return false;
      }
    }
    ok := ValidateExtensions(p.checks, i.extensions, p.limits.maxExtensionsPerItem);
  }

  /** Every path but the crash ends in a sealed result. */
  method EvaluateAdapterPayload(p: Pipeline, raw: Bytes) returns (r: Option<InvocationResult>)
    ensures r == SealedOption(p.digest, Draft(p, raw))
  {
    hide FieldsOk, Canonicalize, ParseText, EnvelopeOk, Evaluated, Sealed, FindingFor;
    var invocationID := IDFromRaw(p, raw);
    var canonical := CanonicalizeJSON(raw);
    var value := ParseText(raw);
    var decoded := if canonical.None? || value.None? then None else p.typed(value.value);
    if decoded.None? {
      var s := SealInvocationResult(p.digest, Rejection(invocationID, FindingFor("case does not decode")));
      return Some(s);
    }
    if !FieldsOk(raw) {
      var s := SealInvocationResult(p.digest, Rejection(invocationID, FindingFor("required field is absent")));
      return Some(s);
    }
    var c := decoded.value;
    var envelopeOk := ValidateCaseEnvelope(p, c);
    if !envelopeOk {
      var s := SealInvocationResult(p.digest, Rejection(c.invocation.invocationID, FindingFor("case envelope is invalid")));
      return Some(s);
    }
    if |raw| > c.invocation.maxInputBytes || |raw| > p.limits.maxCaseBytes {
      var s := SealInvocationResult(p.digest, Rejection(invocationID, OVERSIZE_FINDING));
      return Some(s);
    }
    r := Evaluate(p, c);
  }

  method ValidateFinding(finding: Finding) returns (ok: bool)
    ensures ok <==> ValidFinding(finding)
  {
    hide Identifier;
    if finding.schemaVersion != FINDING_SCHEMA || !Identifier(finding.code)
       || finding.message == "" || finding.principle == "" || finding.path == "" {
      return false;
    }
    ok := finding.severity == "info" || finding.severity == "warning" || finding.severity == "error";
  }

  method ValidateInvocationResult(checks: Checks, digest: Digester, r: InvocationResult, invocationID: Bytes) returns (ok: bool)
    ensures ok <==> ValidResult(checks, digest, r, invocationID)
  {
    hide ExtensionsOk, ValidDigest, ValidFinding, ScoreEvidence.Accepted;
    if r.schemaVersion != RESULT_SCHEMA || r.invocationID != invocationID || r.status.OtherStatus? {
      return false;
    }
    if r.findings.None? || r.extensions.None? || !ValidDigest(r.evidenceDigest) {
      return false;
    }
    if r.observedDigest != "" && !ValidDigest(r.observedDigest) {
      return false;
    }
    var expected := digest(r.(evidenceDigest := ""));
    if expected.None? || expected.value != r.evidenceDigest {
      return false;
    }
    var findings := r.findings.value;
    for index := 0 to |findings|
      invariant forall i | 0 <= i < index :: ValidFinding(findings[i])
    {
      var sound := ValidateFinding(findings[index]);
      if !sound {
        return false;
      }
    }
    if r.score.Some? {
      var sound := ScoreEvidence.ValidateScoreEvidence(r.score.value);
      if !sound {
        return false;
      }
    }
    if r.decision.Some? && !checks.decisionOk(r.decision.value) {
      return false;
    }
    ok := ValidateExtensions(checks, r.extensions.value, DEFAULT_LIMITS.maxExtensionsPerItem);
  }

  // ----- one vector

  function Codes(findings: seq<Finding>): seq<Bytes> {
    seq(|findings|, i requires 0 <= i < |findings| => findings[i].code)
  }

  /** The case result of a vector whose evaluation returned `r`. */
  ghost function Judged(checks: Checks, digest: Digester, vector: CaseVector, invocationID: Bytes, r: InvocationResult): CaseResult {
    if !ValidResult(checks, digest, r, invocationID) then
      CaseResult(vector.caseID, vector.level, vector.kind, Failed, "result is invalid", [], "", "")
    else
      CaseResult(vector.caseID, vector.level, vector.kind, if ResultMatches(vector.expected, r) then Passed else Failed,
                 MatchReason(vector.expected, r), Sort(Codes(r.findings.value), Self), r.observedDigest, r.evidenceDigest)
  }

  /** Some finding has this code. */
  method ContainsFinding(findings: seq<Finding>, code: Bytes) returns (found: bool)
    ensures found <==> exists i | 0 <= i < |findings| :: findings[i].code == code
  {
    for index := 0 to |findings|
      invariant forall i | 0 <= i < index :: findings[i].code != code
    {
      if findings[index].code == code {
        return true;
      }
    }
    found := false;
  }

  /** The comparison with what is expected: whether it holds, and the reason it gives. */
  method CompareResult(expected: Expected, result: InvocationResult) returns (matched: bool, reason: Bytes)
    ensures matched <==> ResultMatches(expected, result)
    ensures reason == MatchReason(expected, result)
  {
    hide ACCEPTED_REASON, REJECTED_REASON, UNSUPPORTED_REASON, SCORE_REASON, DECISION_REASON, DIGEST_REASON, CODE_REASON, StatusText;
    match expected.status {
      case ExpectAccepted =>
        if result.status != StatusAccepted {
          return false, "expected accepted, got " + StatusText(result.status);
        }
        if expected.scoreDecimal != "" {
          if result.score.None? || result.score.value.expectedScore != expected.scoreDecimal {
            return false, SCORE_REASON;
          }
        }
        if expected.decisionState != "" {
          if result.decision.None? || result.decision.value.state != expected.decisionState {
            return false, DECISION_REASON;
          }
        }
        if expected.evidenceDigest != "" && result.observedDigest != expected.evidenceDigest {
          return false, DIGEST_REASON;
        }
        return true, ACCEPTED_REASON;
      case ExpectRejected =>
        if result.status != StatusRejected {
          return false, "expected rejected, got " + StatusText(result.status);
        }
        var found := ContainsFinding(if result.findings.Some? then result.findings.value else [], expected.findingCode);
        if expected.findingCode != "" && !found {
          return false, CODE_REASON;
        }
        return true, REJECTED_REASON;
      case ExpectUnsupported =>
        if result.status != StatusUnsupported {
          return false, "expected unsupported, got " + StatusText(result.status);
        }
        return true, UNSUPPORTED_REASON;
      case OtherExpectation(_) =>
        return false, "invalid expected status";
    }
  }

  /** One case result, filled in field by field. */
  method JudgeVector(checks: Checks, digest: Digester, vector: CaseVector, invocationID: Bytes, result: InvocationResult)
    returns (c: CaseResult)
    ensures c == Judged(checks, digest, vector, invocationID, result)
  {
    hide ValidResult, Sort, ResultMatches, MatchReason;
    c := CaseResult(vector.caseID, vector.level, vector.kind, Failed, "result is invalid", [], "", "");
    var valid := ValidateInvocationResult(checks, digest, result, invocationID);
    if !valid {
      return;
    }
    ValidHasFindings(checks, digest, result, invocationID);
    c := c.(resultDigest := result.evidenceDigest, observedDigest := result.observedDigest);
    var codes: seq<Bytes> := [];
    var findings := result.findings.value;
    for index := 0 to |findings|
      invariant codes == Codes(findings[..index])
    {
      assert findings[..index + 1] == findings[..index] + [findings[index]];
      codes := codes + [findings[index].code];
    }
    assert findings[..|findings|] == findings;
    c := c.(findingCodes := Sort(codes, Self));
    var matched, reason := CompareResult(vector.expected, result);
    c := c.(outcome := if matched then Passed else Failed);
    c := c.(reason := reason);
  }

  /** The case result of a vector in process; `None` is the crash. */
  ghost function ReferenceResult(p: Pipeline, vector: CaseVector): Option<CaseResult> {
    var result :- SealedOption(p.digest, Draft(p, vector.raw));
    Some(Judged(p.checks, p.digest, vector, IDFromRaw(p, vector.raw), result))
  }

  method RunReferenceVector(p: Pipeline, vector: CaseVector) returns (r: Option<CaseResult>)
    ensures r == ReferenceResult(p, vector)
  {
    hide Draft, Judged, IDFromRaw;
    var result := EvaluateAdapterPayload(p, vector.raw);
    if result.None? {
      return None;
    }
    var c := JudgeVector(p.checks, p.digest, vector, IDFromRaw(p, vector.raw), result.value);
    r := Some(c);
  }

  lemma ValidHasFindings(checks: Checks, digest: Digester, r: InvocationResult, id: Bytes)
    requires ValidResult(checks, digest, r, id)
    ensures r.findings.Some?
  {
  }

  // ----- required-field vectors

  /** The vector the corpus derives from a base case for one required field. */
  function RequiredFieldVector(caseID: Bytes, level: Level, kind: CaseKind, description: Bytes, raw: Bytes): CaseVector {
    CaseVector(caseID, level, kind, description, Expected(ExpectRejected, "", "", "", ""), raw)
  }

  /**
   For every base case that passes the required-field check and every pointer to a field it requires:
   the removal succeeds, its canonical output no longer passes, and the payload is rejected.
   */
  lemma RequiredFieldIsRejected(p: Pipeline, base: Bytes, pointer: Bytes)
    requires Canonicalize(base).Some? && FieldsOk(base)
    requires DecodePointer(pointer).Some? && Asks(CASE_RULE, ParseText(base).value, DecodePointer(pointer).value)
    ensures ApplyMutation(base, MutationVector(pointer, Remove, "")).Some?
    ensures var raw := ApplyMutation(base, MutationVector(pointer, Remove, "")).value;
            && Draft(p, raw).Some? && Draft(p, raw).value.status == StatusRejected && Draft(p, raw).value.evidenceDigest == ""
            && !EmptyIdentity(p, raw)
  {
    hide CaseFieldsOk, Asks, Canonicalize, ParseText, CASE_RULE, Meets, ApplyMutation, EnvelopeOk, Evaluated, FindingFor, DecodePointer;
    var v, path := ParseText(base).value, DecodePointer(pointer).value;
    var mutation := MutationVector(pointer, Remove, "");
    CheckFollowsTable(v);
    AskedIsThere(CASE_RULE, v, path);
    AskedIsNotEmpty(CASE_RULE, v, path);
    RemovalNeverFailsLate(base, mutation);
    OutputIsCanonical(base, mutation);
    RequiredFieldsAreCaught(v, path);
  }

  lemma AskedIsNotEmpty(rule: Rule, v: Json, path: seq<Bytes>)
    requires Asks(rule, v, path)
    ensures path != []
  {
  }

  /** ... and the resulting vector is scored as passed, whenever its rejection can be sealed. */
  lemma RequiredFieldVectorPasses(p: Pipeline, base: Bytes, pointer: Bytes, vector: CaseVector)
    requires Coherent(p)
    requires Canonicalize(base).Some? && FieldsOk(base)
    requires DecodePointer(pointer).Some? && Asks(CASE_RULE, ParseText(base).value, DecodePointer(pointer).value)
    requires ApplyMutation(base, MutationVector(pointer, Remove, "")) == Some(vector.raw)
    requires vector == RequiredFieldVector(vector.caseID, vector.level, vector.kind, vector.description, vector.raw)
    ensures Draft(p, vector.raw).Some?
    ensures var draft := Draft(p, vector.raw).value;
            p.digest(draft).Some? <==>
            Judged(p.checks, p.digest, vector, IDFromRaw(p, vector.raw), Sealed(p.digest, draft)).outcome == Passed
  {
    hide Draft, FieldsOk, Asks, Canonicalize, ParseText, CASE_RULE, ValidResult, ApplyMutation, EmptyIdentity, IDFromRaw;
    RequiredFieldIsRejected(p, base, pointer);
    SealedResultIsValid(p, vector.raw);
    JudgedRejection(p, vector, IDFromRaw(p, vector.raw), Draft(p, vector.raw).value);
  }

  lemma JudgedRejection(p: Pipeline, vector: CaseVector, id: Bytes, draft: InvocationResult)
    requires vector.expected == Expected(ExpectRejected, "", "", "", "") && draft.status == StatusRejected
    ensures p.digest(Material(draft)).Some? ==>
              (Judged(p.checks, p.digest, vector, id, Sealed(p.digest, draft)).outcome == Passed
               <==> ValidResult(p.checks, p.digest, Sealed(p.digest, draft), id))
    ensures !ValidResult(p.checks, p.digest, Sealed(p.digest, draft), id) ==>
              Judged(p.checks, p.digest, vector, id, Sealed(p.digest, draft)).outcome != Passed
  {
    hide ValidResult, Sort, FindingFor, MatchReason;
  }
}
