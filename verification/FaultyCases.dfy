/**
 Cases at which promises of the pipeline fail: two texts with every required field, one that crashes the
 evaluator and one whose sealed result the validator refuses.
 */
module FaultyCases {
  import opened Basics
  import opened Utf8
  import opened Digits
  import opened Texts
  import opened CanonicalNumbers
  import opened JsonGrammar
  import opened JsonParser
  import opened CanonicalJson
  import opened PrintedLength
  import opened WireFidelity
  import opened ProtocolModel
  import opened RequiredFields
  import opened ReferencePipeline

  // ----- one case, under any identity

  function Fields(names: seq<Bytes>, value: Bytes -> Json): Json {
    Object(map name | name in names :: value(name))
  }

  function VectorField(name: Bytes): Json {
    String(if name == "expected_sha256" then Zeros(64) else "vector")
  }

  const LISTS: set<Bytes> := {"trajectory_refs", "extensions", "required_capabilities"}

  /** A decision without decision evidence, but with a request vector. */
  function InvocationField(id: Bytes, name: Bytes): Json {
    if name == "request_vector" then Fields(REQUEST_VECTOR_FIELDS, VectorField)
    else if name == "offline" then Bool(true)
    else if name == "timeout_millis" then Number(IntegerText(1000))
    else if name == "max_input_bytes" then Number(IntegerText(1048576))
    else if name in LISTS then Array([])
    else String(InvocationText(id, name))
  }

  function InvocationText(id: Bytes, name: Bytes): Bytes {
    if name == "schema_version" then INVOCATION_SCHEMA else if name == "operation" then "decision_evidence" else id
  }

  function InvocationFieldOf(id: Bytes): Bytes -> Json {
    (field: Bytes) => InvocationField(id, field)
  }

  const NAMES: seq<Bytes> := INVOCATION_FIELDS + ["request_vector"]

  function CaseText(name: Bytes): Bytes {
    if name == "schema_version" then CASE_SCHEMA
    else if name == "protocol_version" then CURRENT_VERSION
    else if name == "conformance_level" then "syntax"
    else if name == "kind" then "decision_evidence"
    else "case.one"
  }

  function CaseField(id: Bytes, name: Bytes): Json {
    if name == "invocation" then Fields(NAMES, InvocationFieldOf(id))
    else if name == "expected" then Fields(["status"], (_: Bytes) => String("accepted"))
    else if name in LISTS then Array([])
    else String(CaseText(name))
  }

  function CaseFieldOf(id: Bytes): Bytes -> Json {
    (name: Bytes) => CaseField(id, name)
  }

  function CaseJson(id: Bytes): Json {
    Fields(CASE_FIELDS, CaseFieldOf(id))
  }

  /** The case as it is decoded. */
  function DecodedCase(id: Bytes): AuditCase {
    AuditCase(
      CASE_SCHEMA, CURRENT_VERSION, "case.one", Syntax, DecisionKind, "case.one", [],
      Invocation(INVOCATION_SCHEMA, id, DecisionKind, true, 1000, 1048576, [], None,
                 Some(RequestVector("vector", "vector", Zeros(64))), None, None, None, None, []),
      Expected(ExpectAccepted, "", "", "", ""), [])
  }

  /** A pipeline that decodes this one value, and digests everything. */
  ghost function PipelineFor(v: Json, c: AuditCase): Pipeline {
    Pipeline(
      DEFAULT_LIMITS, Checks((_: Bytes) => true, "", {}, (_: Extension) => true, (_: Decision) => true),
      (_: InvocationResult) => Some(Zeros(64)),
      (x: Json) => if x == v then Some(c) else None,
      (raw: Bytes) => if ParseText(raw) == Some(v) then Some(c.invocation.invocationID) else None,
      (_: Bytes) => None, (_: Bytes) => "", (_: Bytes) => true, (_: Bytes, _: Bytes) => true)
  }

  // ----- its text

  lemma FieldsAreCarried(names: seq<Bytes>, value: Bytes -> Json, depth: nat)
    requires depth <= MAXIMUM_DEPTH && forall name | name in names :: ValidUtf8(name) && Carried(value(name), depth + 1)
    ensures Carried(Fields(names, value), depth)
  {
  }

  lemma {:induction false} KeysAtMost(names: seq<Bytes>, keys: set<Bytes>)
    requires forall k | k in keys :: k in names
    ensures |keys| <= |names|
  {
    if names != [] {
      KeysAtMost(names[1..], keys - {names[0]});
    }
  }

  lemma FieldsLength(names: seq<Bytes>, value: Bytes -> Json, bound: nat)
    requires forall name | name in names :: 6 * |name| + |Print(value(name))| + 4 <= bound
    ensures |Print(Fields(names, value))| <= |names| * bound + 2
  {
    hide Print;
    var v := Fields(names, value);
    KeysAtMost(names, v.fields.Keys);
    FieldBounds(names, value, bound);
    ObjectLength(v, bound);
    ScalesUp(|v.fields.Keys|, |names|, bound);
    assert |v.fields| == |v.fields.Keys|;
  }

  lemma FieldBounds(names: seq<Bytes>, value: Bytes -> Json, bound: nat)
    requires forall name | name in names :: 6 * |name| + |Print(value(name))| + 4 <= bound
    ensures forall k | k in Fields(names, value).fields :: 6 * |k| + |Print(Fields(names, value).fields[k])| + 4 <= bound
  {
    hide Print;
  }

  lemma ScalesUp(a: nat, b: nat, c: nat)
    requires a <= b
    ensures a * c <= b * c
  {
  }

  lemma CaseNamesAreValid(i: nat)
    requires i < |CASE_FIELDS|
    ensures ValidUtf8(CASE_FIELDS[i]) && |CASE_FIELDS[i]| <= 30
  {
    hide ValidUtf8;
    Ascii(CASE_FIELDS[i]);
  }

  lemma InvocationNamesAreValid(i: nat)
    requires i < |NAMES|
    ensures ValidUtf8(NAMES[i]) && |NAMES[i]| <= 30
  {
    hide ValidUtf8;
    Ascii(NAMES[i]);
  }

  lemma VectorNamesAreValid(i: nat)
    requires i < |REQUEST_VECTOR_FIELDS|
    ensures ValidUtf8(REQUEST_VECTOR_FIELDS[i]) && |REQUEST_VECTOR_FIELDS[i]| <= 30
  {
    hide ValidUtf8;
    Ascii(REQUEST_VECTOR_FIELDS[i]);
  }

  /** A value that fits at this depth, within this length. */
  ghost predicate Small(v: Json, depth: nat, length: nat) {
    Carried(v, depth) && |Print(v)| <= length
  }

  lemma TextIsSmall(s: Bytes, depth: nat)
    requires ValidUtf8(s) && |s| <= 64 && depth <= MAXIMUM_DEPTH
    ensures Small(String(s), depth, 386)
  {
    StringLength(s);
  }

  lemma ConstantsAreSmall()
    ensures ValidUtf8(INVOCATION_SCHEMA) && ValidUtf8("decision_evidence") && ValidUtf8(CASE_SCHEMA) && ValidUtf8(CURRENT_VERSION)
    ensures |INVOCATION_SCHEMA| <= 64 && |CASE_SCHEMA| <= 64
  {
    hide ValidUtf8;
    Ascii(INVOCATION_SCHEMA);
    Ascii("decision_evidence");
    Ascii(CASE_SCHEMA);
    Ascii(CURRENT_VERSION);
  }

  lemma WordsAreValid()
    ensures ValidUtf8("vector") && ValidUtf8("syntax") && ValidUtf8("case.one") && ValidUtf8("accepted") && ValidUtf8("status")
    ensures ValidUtf8(Zeros(64))
  {
    hide ValidUtf8;
    Ascii("vector");
    Ascii("syntax");
    Ascii("case.one");
    Ascii("accepted");
    Ascii("status");
    Ascii(Zeros(64));
  }

  /** A bound for an object of at most ten fields of this length. */
  function Wide(length: nat): nat {
    10 * (length + 184) + 2
  }

  lemma FieldsAreSmall(names: seq<Bytes>, value: Bytes -> Json, depth: nat, length: nat)
    requires |names| <= 10 && depth <= MAXIMUM_DEPTH
    requires forall i | 0 <= i < |names| :: ValidUtf8(names[i]) && |names[i]| <= 30 && Small(value(names[i]), depth + 1, length)
    ensures Small(Fields(names, value), depth, Wide(length))
  {
    hide ValidUtf8, Print, Fields, Carried;
    FieldsAreCarried(names, value, depth);
    FieldsLength(names, value, length + 184);
    ScalesUp(|names|, 10, length + 184);
  }

  lemma VectorIsSmall()
    ensures Small(Fields(REQUEST_VECTOR_FIELDS, VectorField), 2, Wide(386))
  {
    hide ValidUtf8, Print, Carried, Fields, Zeros;
    WordsAreValid();
    forall i | 0 <= i < |REQUEST_VECTOR_FIELDS|
      ensures ValidUtf8(REQUEST_VECTOR_FIELDS[i]) && |REQUEST_VECTOR_FIELDS[i]| <= 30 && Small(VectorField(REQUEST_VECTOR_FIELDS[i]), 3, 386)
    {
      VectorNamesAreValid(i);
      TextIsSmall(VectorField(REQUEST_VECTOR_FIELDS[i]).s, 3);
    }
    FieldsAreSmall(REQUEST_VECTOR_FIELDS, VectorField, 2, 386);
  }

  lemma NumberIsSmall(n: nat, depth: nat)
    requires n < 10000000 && depth <= MAXIMUM_DEPTH
    ensures Small(Number(IntegerText(n)), depth, 386)
  {
    DigitsLength(n, 7);
    ValueOfTextIsInteger(n);
  }

  lemma ListIsSmall(depth: nat)
    requires depth <= MAXIMUM_DEPTH
    ensures Small(Array([]), depth, 386)
  {
    assert PrintItems([], true) == [']'];
  }

  lemma InvocationTextIsValid(id: Bytes, name: Bytes)
    requires ValidUtf8(id) && |id| <= 64
    ensures ValidUtf8(InvocationText(id, name)) && |InvocationText(id, name)| <= 64
  {
    hide ValidUtf8;
    ConstantsAreSmall();
  }

  lemma InvocationFieldIsSmall(id: Bytes, name: Bytes)
    requires ValidUtf8(id) && |id| <= 64
    ensures Small(InvocationField(id, name), 2, Wide(386))
  {
    hide ValidUtf8, LISTS, REQUEST_VECTOR_FIELDS, Fields, Print, IntegerText, Carried, InvocationText;
    VectorIsSmall();
    BoolIsSmall(2);
    NumberIsSmall(1000, 2);
    NumberIsSmall(1048576, 2);
    ListIsSmall(2);
    InvocationTextIsValid(id, name);
    TextIsSmall(InvocationText(id, name), 2);
    hide Wide;
    assert Wide(386) >= 386 by { WideIsWider(386); }
  }

  lemma WideIsWider(length: nat)
    ensures Wide(length) >= length
  {
  }

  lemma BoolIsSmall(depth: nat)
    requires depth <= MAXIMUM_DEPTH
    ensures Small(Bool(true), depth, 386)
  {
  }

  lemma InvocationIsSmall(id: Bytes)
    requires ValidUtf8(id) && |id| <= 64
    ensures Small(Fields(NAMES, InvocationFieldOf(id)), 1, Wide(Wide(386)))
  {
    hide ValidUtf8, Print, InvocationField, NAMES, Fields, Small, Wide;
    NameCounts();
    forall i | 0 <= i < |NAMES|
      ensures ValidUtf8(NAMES[i]) && |NAMES[i]| <= 30 && Small(InvocationFieldOf(id)(NAMES[i]), 2, Wide(386))
    {
      InvocationNamesAreValid(i);
      InvocationFieldIsSmall(id, NAMES[i]);
    }
    FieldsAreSmall(NAMES, InvocationFieldOf(id), 1, Wide(386));
  }

  lemma NameCounts()
    ensures |NAMES| == 9 && |CASE_FIELDS| == 10
  {
  }

  lemma ExpectedIsSmall()
    ensures Small(Fields(["status"], (_: Bytes) => String("accepted")), 1, Wide(386))
  {
    hide ValidUtf8, Print, Carried, Fields;
    WordsAreValid();
    var value := (_: Bytes) => String("accepted");
    TextIsSmall("accepted", 2);
    FieldsAreSmall(["status"], value, 1, 386);
  }

  lemma CaseTextIsValid(name: Bytes)
    ensures ValidUtf8(CaseText(name)) && |CaseText(name)| <= 64
  {
    hide ValidUtf8;
    ConstantsAreSmall();
    WordsAreValid();
  }

  lemma CaseFieldIsSmall(id: Bytes, name: Bytes)
    requires ValidUtf8(id) && |id| <= 64
    ensures Small(CaseField(id, name), 1, Wide(Wide(386)))
  {
    hide ValidUtf8, LISTS, NAMES, Fields, Print, Carried, InvocationFieldOf, CaseText;
    InvocationIsSmall(id);
    ExpectedIsSmall();
    ListIsSmall(1);
    CaseTextIsValid(name);
    TextIsSmall(CaseText(name), 1);
    hide Wide;
    WideIsWider(386);
    WideIsWider(Wide(386));
  }

  /** The text of the case is canonical, and below a mebibyte. */
  lemma CaseIsSmall(id: Bytes)
    requires ValidUtf8(id) && |id| <= 64
    ensures Carried(CaseJson(id), 0) && |Print(CaseJson(id))| <= 600000
  {
    hide ValidUtf8, Print, CaseField, CASE_FIELDS, Fields, Carried;
    NameCounts();
    forall i | 0 <= i < |CASE_FIELDS|
      ensures ValidUtf8(CASE_FIELDS[i]) && |CASE_FIELDS[i]| <= 30 && Small(CaseFieldOf(id)(CASE_FIELDS[i]), 1, Wide(Wide(386)))
    {
      CaseNamesAreValid(i);
      CaseFieldIsSmall(id, CASE_FIELDS[i]);
    }
    FieldsAreSmall(CASE_FIELDS, CaseFieldOf(id), 0, Wide(Wide(386)));
  }

  // ----- what goes wrong

  lemma ObjectOfFields(names: seq<Bytes>, required: seq<Bytes>, value: Bytes -> Json)
    requires forall name | name in required :: name in names
    ensures ObjectWith(Fields(names, value), required)
  {
  }

  lemma FieldAt(names: seq<Bytes>, value: Bytes -> Json, i: nat)
    requires i < |names|
    ensures At(Fields(names, value), names[i]) == value(names[i]) && names[i] in Fields(names, value).fields
  {
  }

  /** The case has every field that is required of it. */
  lemma CaseHasItsFields(id: Bytes)
    ensures CaseFieldsOk(CaseJson(id))
  {
    hide CaseField, Fields, InvocationFieldsOk, RequireFields, ExtensionFieldsOk;
    var v := CaseJson(id);
    ObjectOfFields(CASE_FIELDS, CASE_FIELDS, CaseFieldOf(id));
    assert CASE_FIELDS[7] == "invocation" && CASE_FIELDS[8] == "expected" && CASE_FIELDS[9] == "extensions";
    FieldAt(CASE_FIELDS, CaseFieldOf(id), 7);
    FieldAt(CASE_FIELDS, CaseFieldOf(id), 8);
    FieldAt(CASE_FIELDS, CaseFieldOf(id), 9);
    SpecialFields(id);
    InvocationHasItsFields(id);
    ObjectOfFields(["status"], ["status"], (_: Bytes) => String("accepted"));
  }

  lemma SpecialFields(id: Bytes)
    ensures CaseField(id, "invocation") == Fields(NAMES, InvocationFieldOf(id))
    ensures CaseField(id, "expected") == Fields(["status"], (_: Bytes) => String("accepted"))
    ensures CaseField(id, "extensions") == Array([])
  {
    assert |"invocation"| == 10 && |"expected"| == 8 && |"extensions"| == 10 && "invocation"[0] == 'i' && "extensions"[0] == 'e';
  }

  lemma InvocationHasItsFields(id: Bytes)
    ensures InvocationFieldsOk(Fields(NAMES, InvocationFieldOf(id)))
  {
    hide Fields, RequireFields, ExtensionFieldsOk, InvocationField;
    var v := Fields(NAMES, InvocationFieldOf(id));
    ObjectOfFields(NAMES, INVOCATION_FIELDS, InvocationFieldOf(id));
    assert NAMES[6] == "trajectory_refs" && NAMES[7] == "extensions" && NAMES[8] == "request_vector";
    FieldAt(NAMES, InvocationFieldOf(id), 6);
    FieldAt(NAMES, InvocationFieldOf(id), 7);
    FieldAt(NAMES, InvocationFieldOf(id), 8);
    InvocationLists(id);
    OtherFields(id);
    ObjectOfFields(REQUEST_VECTOR_FIELDS, REQUEST_VECTOR_FIELDS, VectorField);
  }

  lemma InvocationLists(id: Bytes)
    ensures InvocationField(id, "trajectory_refs") == Array([]) && InvocationField(id, "extensions") == Array([])
    ensures InvocationField(id, "request_vector") == Fields(REQUEST_VECTOR_FIELDS, VectorField)
  {
    assert |"trajectory_refs"| == 15 && |"extensions"| == 10 && |"request_vector"| == 14 && |"offline"| == 7 && |"timeout_millis"| == 14;
    assert |"max_input_bytes"| == 15 && "max_input_bytes"[0] == 'm' && "trajectory_refs"[0] == 't';
  }

  /** The fields of the other payloads are absent. */
  lemma OtherFields(id: Bytes)
    ensures forall name: Bytes | name in ["canonical_json", "score_evidence", "decision_evidence", "replay_evidence", "attestation_evidence"] ::
              name !in Fields(NAMES, InvocationFieldOf(id)).fields
  {
    assert forall i | 0 <= i < |NAMES| :: NAMES[i][0] in ['s', 'i', 'o', 't', 'm', 'e', 'r'];
    assert |"canonical_json"| == 14;
    forall i | 0 <= i < |NAMES|
      ensures NAMES[i] !in ["canonical_json", "score_evidence", "decision_evidence", "replay_evidence", "attestation_evidence"]
    {
      assert |NAMES[i]| == [14, 13, 9, 7, 14, 15, 15, 10, 14][i];
      assert |"score_evidence"| == 14 && "score_evidence"[1] == 'c' && "score_evidence"[2] == 'o' && |"replay_evidence"| == 15 && "replay_evidence"[0] == 'r';
    }
  }

  lemma PipelineIsCoherent(v: Json, c: AuditCase)
    ensures Coherent(PipelineFor(v, c))
  {
    hide Canonicalize, ParseText;
    assert ValidDigest(Zeros(64));
  }

  /** The text is read as the case. */
  lemma CaseIsRead(id: Bytes)
    requires ValidUtf8(id) && |id| <= 64
    ensures var p, raw := PipelineFor(CaseJson(id), DecodedCase(id)), Print(CaseJson(id));
            && Decode(p, raw) == Some(DecodedCase(id)) && FieldsOk(raw) && |raw| <= 600000
            && IDFromRaw(p, raw) == if id == "" then NO_IDENTITY else id
  {
    hide CaseJson, ValidUtf8, Print, Carried, CaseFieldsOk, Canonicalize, ParseText;
    CaseIsSmall(id);
    CaseHasItsFields(id);
    PrintedFormReadsBack(CaseJson(id));
  }

  lemma EnvelopeIsSound(v: Json, id: Bytes)
    requires id != ""
    ensures EnvelopeOk(PipelineFor(v, DecodedCase(id)), DecodedCase(id))
  {
    assert Identifier("case.one");
  }

  /** A text with every required field, in a coherent pipeline, on which the evaluator crashes. */
  lemma SomeCaseCrashes() returns (p: Pipeline, raw: Bytes)
    ensures Coherent(p) && Canonicalize(raw) == Some(raw) && FieldsOk(raw)
    ensures Reaches(p, raw) && WrongPayload(Decode(p, raw).value.invocation) && Draft(p, raw).None?
  {
    hide CaseJson, ValidUtf8, Print, Carried, FieldsOk, Canonicalize, ParseText, EnvelopeOk, Coherent, Decode, InvocationVerdict;
    var id := "invocation.one";
    IdentityIsValid();
    CaseIsSmall(id);
    PrintedFormReadsBack(CaseJson(id));
    CaseIsRead(id);
    EnvelopeIsSound(CaseJson(id), id);
    PipelineIsCoherent(CaseJson(id), DecodedCase(id));
    p, raw := PipelineFor(CaseJson(id), DecodedCase(id)), Print(CaseJson(id));
    CrashesExactlyWhen(p, raw);
  }

  lemma IdentityIsValid()
    ensures ValidUtf8("invocation.one") && ValidUtf8("")
  {
    hide ValidUtf8;
    Ascii("invocation.one");
    Ascii("");
  }

  /** A text with every required field, in a coherent pipeline, whose sealed result the validator refuses. */
  lemma SomeResultIsInvalid() returns (p: Pipeline, raw: Bytes)
    ensures Coherent(p) && Canonicalize(raw) == Some(raw) && EmptyIdentity(p, raw)
    ensures Draft(p, raw).Some? && p.digest(Draft(p, raw).value).Some?
    ensures !ValidResult(p.checks, p.digest, Sealed(p.digest, Draft(p, raw).value), IDFromRaw(p, raw))
  {
    hide CaseJson, ValidUtf8, Print, Carried, FieldsOk, Canonicalize, ParseText, Coherent, Decode, EnvelopeOk, Evaluated, ValidResult, FindingFor;
    IdentityIsValid();
    CaseIsSmall("");
    PrintedFormReadsBack(CaseJson(""));
    CaseIsRead("");
    PipelineIsCoherent(CaseJson(""), DecodedCase(""));
    p, raw := PipelineFor(CaseJson(""), DecodedCase("")), Print(CaseJson(""));
    EmptyIdentityIsRefused(p, DecodedCase(""));
    SealedResultIsValid(p, raw);
  }

  lemma EmptyIdentityIsRefused(p: Pipeline, c: AuditCase)
    requires c.invocation.invocationID == ""
    ensures !EnvelopeOk(p, c)
  {
  }
}
