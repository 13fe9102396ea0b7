/**
 The required fields of an audit case. The check reads one tree of JSON; what it asks of every
 place is laid down in a table, and a path is required when the table asks for its last field.
 Removing a field that a passing case has makes the case fail exactly when the field is required.
 */
module RequiredFields {
  import opened Basics
  import opened JsonGrammar
  import opened Mutation
  import opened ProtocolModel

  // ----- the check

  /** `fields` has a value under every one of these names. */
  predicate RequireFields(fields: map<Bytes, Json>, names: seq<Bytes>) {
    forall i | 0 <= i < |names| :: names[i] in fields
  }

  /** The field of an object; null stands for an absent one, and no check accepts it. */
  function At(v: Json, name: Bytes): Json {
    if v.Object? && name in v.fields then v.fields[name] else Null
  }

  predicate ObjectWith(v: Json, names: seq<Bytes>) {
    v.Object? && RequireFields(v.fields, names)
  }

  predicate ArrayOfObjects(v: Json, names: seq<Bytes>) {
    v.Array? && forall i | 0 <= i < |v.items| :: ObjectWith(v.items[i], names)
  }

  const CASE_FIELDS: seq<Bytes> :=
    ["schema_version", "protocol_version", "case_id", "conformance_level", "kind", "description",
     "required_capabilities", "invocation", "expected", "extensions"]
  const INVOCATION_FIELDS: seq<Bytes> :=
    ["schema_version", "invocation_id", "operation", "offline", "timeout_millis", "max_input_bytes",
     "trajectory_refs", "extensions"]
  const TRAJECTORY_FIELDS: seq<Bytes> :=
    ["canonical_schema", "source_format", "source_digest", "trajectory_digest", "accounting_digest",
     "trace_envelope_digest", "mapping_report_digest", "mapping_policy_version"]
  const REQUEST_VECTOR_FIELDS: seq<Bytes> := ["vector_id", "canonical_utf8_hex", "expected_sha256"]
  const CANONICAL_JSON_FIELDS: seq<Bytes> := ["source_utf8_hex", "expected_canonical_utf8_hex", "expected_sha256"]
  const DECISION_FIELDS: seq<Bytes> :=
    ["schema_version", "policy_version", "state", "conditional_scores_decimal", "decision_strength_decimal",
     "score_evidence_digests", "budget_digest", "provenance_digest"]
  const REPLAY_FIELDS: seq<Bytes> := ["request_fingerprint", "response_digest", "evidence_digest", "replay_status"]
  const ATTESTATION_FIELDS: seq<Bytes> :=
    ["schema_version", "attestation_digest", "state", "evidence_ceiling", "observed_at", "expires_at",
     "request_fingerprint", "route_limitations"]
  const SCORE_FIELDS: seq<Bytes> :=
    ["schema_version", "policy_version", "tag", "extraction_mode", "alignment_status", "aligned_position",
     "requested_top_k", "returned_top_k", "visible_probability_mass_decimal", "valid_score_mass_decimal",
     "unobserved_probability_mass_decimal", "score_support", "visible_alternatives",
     "conditional_expected_score_decimal", "conditional_variance_decimal", "extracted", "degradations",
     "requested_model", "route_limitations", "request_fingerprint", "response_evidence_digest"]
  const POSITION_FIELDS: seq<Bytes> := ["token_index", "token_byte", "stream_byte", "raw_byte"]
  const SUPPORT_FIELDS: seq<Bytes> := ["letter", "value_decimal", "probability_decimal", "source_ranks", "source_forms"]
  const ALTERNATIVE_FIELDS: seq<Bytes> := ["rank", "token", "logprob_decimal", "probability_decimal", "chosen"]
  const EXTENSION_FIELDS: seq<Bytes> := ["namespace", "schema", "required", "payload"]
  const RELIABILITY_FIELDS: seq<Bytes> := ["schema_version", "evidence_factors", "evidence_interventions", "reliance_contrasts"]
  const FACTOR_FIELDS: seq<Bytes> := ["factor_id", "kind", "description"]
  const INTERVENTION_FIELDS: seq<Bytes> :=
    ["intervention_id", "factor_id", "parent_digest", "child_digest", "changed_event_ids", "changed_field_paths", "validator"]
  const CONTRAST_FIELDS: seq<Bytes> :=
    ["contrast_id", "factor_id", "intervention_id", "baseline_result_digest", "intervention_result_digest",
     "effect_decimal", "uncertainty_decimal", "interpretation"]

  predicate OptionalObject(fields: map<Bytes, Json>, name: Bytes, names: seq<Bytes>) {
    name in fields ==> ObjectWith(fields[name], names)
  }

  predicate ScoreFieldsOk(v: Json) {
    && ObjectWith(v, SCORE_FIELDS)
    && ObjectWith(At(v, "aligned_position"), POSITION_FIELDS)
    && ArrayOfObjects(At(v, "score_support"), SUPPORT_FIELDS)
    && ArrayOfObjects(At(v, "visible_alternatives"), ALTERNATIVE_FIELDS)
    && ArrayOfObjects(At(v, "degradations"), ["code"])
  }

  predicate ReliabilityFieldsOk(v: Json) {
    && ObjectWith(v, RELIABILITY_FIELDS)
    && ArrayOfObjects(At(v, "evidence_factors"), FACTOR_FIELDS)
    && ArrayOfObjects(At(v, "evidence_interventions"), INTERVENTION_FIELDS)
    && ArrayOfObjects(At(v, "reliance_contrasts"), CONTRAST_FIELDS)
  }

  /** A namespace may be null, which reads as the empty text. */
  predicate ExtensionFieldsOk(v: Json) {
    && ObjectWith(v, EXTENSION_FIELDS)
    && (At(v, "namespace").String? || At(v, "namespace").Null?)
    && (At(v, "namespace") == String(RELIABILITY_EXTENSION) ==> ReliabilityFieldsOk(At(v, "payload")))
  }

  predicate ExtensionsFieldsOk(v: Json) {
    v.Array? && forall i | 0 <= i < |v.items| :: ExtensionFieldsOk(v.items[i])
  }

  predicate InvocationFieldsOk(v: Json) {
    && ObjectWith(v, INVOCATION_FIELDS)
    && ArrayOfObjects(At(v, "trajectory_refs"), TRAJECTORY_FIELDS)
    && OptionalObject(v.fields, "request_vector", REQUEST_VECTOR_FIELDS)
    && OptionalObject(v.fields, "canonical_json", CANONICAL_JSON_FIELDS)
    && ("score_evidence" in v.fields ==> ScoreFieldsOk(At(v, "score_evidence")))
    && OptionalObject(v.fields, "decision_evidence", DECISION_FIELDS)
    && OptionalObject(v.fields, "replay_evidence", REPLAY_FIELDS)
    && OptionalObject(v.fields, "attestation_evidence", ATTESTATION_FIELDS)
    && ExtensionsFieldsOk(At(v, "extensions"))
  }

  predicate CaseFieldsOk(v: Json) {
    && ObjectWith(v, CASE_FIELDS)
    && InvocationFieldsOk(At(v, "invocation"))
    && ObjectWith(At(v, "expected"), ["status"])
    && ExtensionsFieldsOk(At(v, "extensions"))
  }

  // ----- the table

  datatype Rule = Rule(required: seq<Bytes>, parts: seq<Part>)

  /** What is asked of the value under one field. */
  datatype Part =
    | ObjectAt(field: Bytes, optional: bool, rule: Rule)
    | ArrayAt(field: Bytes, rule: Rule)
    | ReliabilityPayload(rule: Rule)

  predicate IsReliability(fields: map<Bytes, Json>) {
    "namespace" in fields && fields["namespace"] == String(RELIABILITY_EXTENSION)
  }

  predicate Meets(rule: Rule, v: Json) {
    && ObjectWith(v, rule.required)
    && forall i | 0 <= i < |rule.parts| :: PartMeets(rule.parts[i], v.fields)
  }

  predicate PartMeets(part: Part, fields: map<Bytes, Json>) {
    match part
    case ObjectAt(field, optional, rule) => if field in fields then Meets(rule, fields[field]) else optional
    case ArrayAt(field, rule) => field in fields && ItemsMeet(rule, fields[field])
    case ReliabilityPayload(rule) =>
      && "namespace" in fields && (fields["namespace"].String? || fields["namespace"].Null?)
      && (IsReliability(fields) ==> "payload" in fields && Meets(rule, fields["payload"]))
  }

  predicate ItemsMeet(rule: Rule, v: Json) {
    v.Array? && forall i | 0 <= i < |v.items| :: Meets(rule, v.items[i])
  }

  /** Whether the path, in this very value, ends in a field the rule asks for. */
  predicate Asks(rule: Rule, v: Json, path: seq<Bytes>) {
    && path != [] && v.Object?
    && ((|path| == 1 && path[0] in rule.required)
        || exists i | 0 <= i < |rule.parts| :: PartAsks(rule.parts[i], v.fields, path))
  }

  predicate PartAsks(part: Part, fields: map<Bytes, Json>, path: seq<Bytes>)
    requires path != []
  {
    match part
    case ObjectAt(field, optional, rule) =>
      path[0] == field && (if |path| == 1 then !optional else field in fields && Asks(rule, fields[field], path[1..]))
    case ArrayAt(field, rule) =>
      path[0] == field && (|path| == 1 || (field in fields && ItemsAsk(rule, fields[field], path[1..])))
    case ReliabilityPayload(rule) =>
      if |path| == 1 then path[0] == "namespace" || (path[0] == "payload" && IsReliability(fields))
      else path[0] == "payload" && IsReliability(fields) && "payload" in fields && Asks(rule, fields["payload"], path[1..])
  }

  predicate ItemsAsk(rule: Rule, v: Json, path: seq<Bytes>)
    requires path != []
  {
    && v.Array? && |path| > 1
    && ArrayIndex(path[0], |v.items|).Some? && Asks(rule, v.items[ArrayIndex(path[0], |v.items|).value], path[1..])
  }

  function Plain(required: seq<Bytes>): Rule {
    Rule(required, [])
  }

  const RELIABILITY_RULE :=
    Rule(RELIABILITY_FIELDS, [ArrayAt("evidence_factors", Plain(FACTOR_FIELDS)),
                              ArrayAt("evidence_interventions", Plain(INTERVENTION_FIELDS)),
                              ArrayAt("reliance_contrasts", Plain(CONTRAST_FIELDS))])

  const EXTENSION_RULE := Rule(EXTENSION_FIELDS, [ReliabilityPayload(RELIABILITY_RULE)])

  const SCORE_RULE :=
    Rule(SCORE_FIELDS, [ObjectAt("aligned_position", false, Plain(POSITION_FIELDS)),
                        ArrayAt("score_support", Plain(SUPPORT_FIELDS)),
                        ArrayAt("visible_alternatives", Plain(ALTERNATIVE_FIELDS)),
                        ArrayAt("degradations", Plain(["code"]))])

  const INVOCATION_RULE :=
    Rule(INVOCATION_FIELDS, [ArrayAt("trajectory_refs", Plain(TRAJECTORY_FIELDS)),
                             ObjectAt("request_vector", true, Plain(REQUEST_VECTOR_FIELDS)),
                             ObjectAt("canonical_json", true, Plain(CANONICAL_JSON_FIELDS)),
                             ObjectAt("score_evidence", true, SCORE_RULE),
                             ObjectAt("decision_evidence", true, Plain(DECISION_FIELDS)),
                             ObjectAt("replay_evidence", true, Plain(REPLAY_FIELDS)),
                             ObjectAt("attestation_evidence", true, Plain(ATTESTATION_FIELDS)),
                             ArrayAt("extensions", EXTENSION_RULE)])

  const CASE_RULE :=
    Rule(CASE_FIELDS, [ObjectAt("invocation", false, INVOCATION_RULE),
                       ObjectAt("expected", false, Plain(["status"])),
                       ArrayAt("extensions", EXTENSION_RULE)])

  // ----- the check follows the table

  lemma PlainMeets(names: seq<Bytes>, v: Json)
    ensures Meets(Plain(names), v) <==> ObjectWith(v, names)
    ensures ItemsMeet(Plain(names), v) <==> ArrayOfObjects(v, names)
  {
    if v.Array? {
      assert forall i | 0 <= i < |v.items| :: Meets(Plain(names), v.items[i]) <==> ObjectWith(v.items[i], names);
    }
  }

  lemma RequiredPresent(v: Json, names: seq<Bytes>, i: nat)
    requires ObjectWith(v, names) && i < |names|
    ensures names[i] in v.fields
  {
  }

  lemma ReliabilityFollows(v: Json)
    ensures Meets(RELIABILITY_RULE, v) <==> ReliabilityFieldsOk(v)
  {
    hide RequireFields;
    if ObjectWith(v, RELIABILITY_FIELDS) {
      var parts := RELIABILITY_RULE.parts;
      RequiredPresent(v, RELIABILITY_FIELDS, 1);
      RequiredPresent(v, RELIABILITY_FIELDS, 2);
      RequiredPresent(v, RELIABILITY_FIELDS, 3);
      PlainMeets(FACTOR_FIELDS, At(v, "evidence_factors"));
      PlainMeets(INTERVENTION_FIELDS, At(v, "evidence_interventions"));
      PlainMeets(CONTRAST_FIELDS, At(v, "reliance_contrasts"));
      assert PartMeets(parts[0], v.fields) <==> ArrayOfObjects(At(v, "evidence_factors"), FACTOR_FIELDS);
      assert PartMeets(parts[1], v.fields) <==> ArrayOfObjects(At(v, "evidence_interventions"), INTERVENTION_FIELDS);
      assert PartMeets(parts[2], v.fields) <==> ArrayOfObjects(At(v, "reliance_contrasts"), CONTRAST_FIELDS);
    }
  }

  lemma ExtensionFollows(v: Json)
    ensures Meets(EXTENSION_RULE, v) <==> ExtensionFieldsOk(v)
  {
    hide RequireFields;
    if ObjectWith(v, EXTENSION_FIELDS) {
      RequiredPresent(v, EXTENSION_FIELDS, 0);
      RequiredPresent(v, EXTENSION_FIELDS, 3);
      ReliabilityFollows(At(v, "payload"));
      hide ReliabilityFieldsOk;
      assert PartMeets(EXTENSION_RULE.parts[0], v.fields) <==>
             (At(v, "namespace").String? || At(v, "namespace").Null?) &&
             (At(v, "namespace") == String(RELIABILITY_EXTENSION) ==> ReliabilityFieldsOk(At(v, "payload")));
    }
  }

  lemma ExtensionsFollow(v: Json)
    ensures ItemsMeet(EXTENSION_RULE, v) <==> ExtensionsFieldsOk(v)
  {
    hide Meets, ExtensionFieldsOk;
    if v.Array? {
      forall i | 0 <= i < |v.items| ensures Meets(EXTENSION_RULE, v.items[i]) <==> ExtensionFieldsOk(v.items[i]) {
        ExtensionFollows(v.items[i]);
      }
    }
  }

  /** What the two kinds of plain part ask, in terms of the check. */
  lemma PlainParts(fields: map<Bytes, Json>, field: Bytes, names: seq<Bytes>)
    ensures PartMeets(ObjectAt(field, true, Plain(names)), fields) <==> OptionalObject(fields, field, names)
    ensures field in fields ==> (PartMeets(ObjectAt(field, false, Plain(names)), fields) <==> ObjectWith(fields[field], names))
    ensures field in fields ==> (PartMeets(ArrayAt(field, Plain(names)), fields) <==> ArrayOfObjects(fields[field], names))
  {
    if field in fields {
      PlainMeets(names, fields[field]);
    }
  }

  lemma ScoreFollows(v: Json)
    ensures Meets(SCORE_RULE, v) <==> ScoreFieldsOk(v)
  {
    hide RequireFields, PartMeets, ArrayOfObjects, Plain;
    if ObjectWith(v, SCORE_FIELDS) {
      RequiredPresent(v, SCORE_FIELDS, 5);
      RequiredPresent(v, SCORE_FIELDS, 11);
      RequiredPresent(v, SCORE_FIELDS, 12);
      RequiredPresent(v, SCORE_FIELDS, 16);
      PlainParts(v.fields, "aligned_position", POSITION_FIELDS);
      PlainParts(v.fields, "score_support", SUPPORT_FIELDS);
      PlainParts(v.fields, "visible_alternatives", ALTERNATIVE_FIELDS);
      PlainParts(v.fields, "degradations", ["code"]);
      var parts := SCORE_RULE.parts;
      assert (forall i | 0 <= i < |parts| :: PartMeets(parts[i], v.fields)) <==>
             PartMeets(parts[0], v.fields) && PartMeets(parts[1], v.fields) && PartMeets(parts[2], v.fields) && PartMeets(parts[3], v.fields);
    }
  }

  lemma ScorePart(fields: map<Bytes, Json>)
    ensures PartMeets(ObjectAt("score_evidence", true, SCORE_RULE), fields) <==>
            ("score_evidence" in fields ==> ScoreFieldsOk(fields["score_evidence"]))
  {
    hide Meets, ScoreFieldsOk;
    if "score_evidence" in fields {
      ScoreFollows(fields["score_evidence"]);
    }
  }

  lemma ExtensionsPart(fields: map<Bytes, Json>)
    requires "extensions" in fields
    ensures PartMeets(ArrayAt("extensions", EXTENSION_RULE), fields) <==> ExtensionsFieldsOk(fields["extensions"])
  {
    hide ItemsMeet, ExtensionsFieldsOk;
    ExtensionsFollow(fields["extensions"]);
  }

  lemma InvocationFollows(v: Json)
    ensures Meets(INVOCATION_RULE, v) <==> InvocationFieldsOk(v)
  {
    hide RequireFields, PartMeets, ArrayOfObjects, OptionalObject, ScoreFieldsOk, ExtensionsFieldsOk, Plain, SCORE_RULE, EXTENSION_RULE;
    if ObjectWith(v, INVOCATION_FIELDS) {
      RequiredPresent(v, INVOCATION_FIELDS, 6);
      RequiredPresent(v, INVOCATION_FIELDS, 7);
      PlainParts(v.fields, "trajectory_refs", TRAJECTORY_FIELDS);
      PlainParts(v.fields, "request_vector", REQUEST_VECTOR_FIELDS);
      PlainParts(v.fields, "canonical_json", CANONICAL_JSON_FIELDS);
      ScorePart(v.fields);
      PlainParts(v.fields, "decision_evidence", DECISION_FIELDS);
      PlainParts(v.fields, "replay_evidence", REPLAY_FIELDS);
      PlainParts(v.fields, "attestation_evidence", ATTESTATION_FIELDS);
      ExtensionsPart(v.fields);
      var parts := INVOCATION_RULE.parts;
      assert (forall i | 0 <= i < |parts| :: PartMeets(parts[i], v.fields)) <==>
             PartMeets(parts[0], v.fields) && PartMeets(parts[1], v.fields) && PartMeets(parts[2], v.fields) && PartMeets(parts[3], v.fields)
             && PartMeets(parts[4], v.fields) && PartMeets(parts[5], v.fields) && PartMeets(parts[6], v.fields) && PartMeets(parts[7], v.fields);
    }
  }

  /** The check accepts exactly the values that meet the table. */
  lemma CheckFollowsTable(v: Json)
    ensures CaseFieldsOk(v) <==> Meets(CASE_RULE, v)
  {
    hide RequireFields, ArrayOfObjects, InvocationFieldsOk, ExtensionsFieldsOk, Plain, INVOCATION_RULE, EXTENSION_RULE;
    if ObjectWith(v, CASE_FIELDS) {
      RequiredPresent(v, CASE_FIELDS, 7);
      RequiredPresent(v, CASE_FIELDS, 8);
      RequiredPresent(v, CASE_FIELDS, 9);
      InvocationFollows(At(v, "invocation"));
      PlainParts(v.fields, "expected", ["status"]);
      ExtensionsPart(v.fields);
      var parts := CASE_RULE.parts;
      assert PartMeets(parts[0], v.fields) <==> InvocationFieldsOk(At(v, "invocation"));
      assert (forall i | 0 <= i < |parts| :: PartMeets(parts[i], v.fields)) <==>
             PartMeets(parts[0], v.fields) && PartMeets(parts[1], v.fields) && PartMeets(parts[2], v.fields);
    }
  }

  // ----- removal

  /** Removing a member breaks a part exactly when the part asks for it. */
  lemma PartAfterRemoval(part: Part, fields: map<Bytes, Json>, name: Bytes)
    requires PartMeets(part, fields) && name in fields
    ensures PartMeets(part, fields - {name}) <==> !PartAsks(part, fields, [name])
  {
  }

  lemma RemovalHere(rule: Rule, v: Json, name: Bytes)
    requires Meets(rule, v) && name in v.fields
    ensures Meets(rule, Object(v.fields - {name})) <==> !Asks(rule, v, [name])
  {
    hide PartMeets, PartAsks;
    forall i | 0 <= i < |rule.parts|
      ensures PartMeets(rule.parts[i], v.fields - {name}) <==> !PartAsks(rule.parts[i], v.fields, [name])
    {
      PartAfterRemoval(rule.parts[i], v.fields, name);
    }
    if name in rule.required {
      var i :| 0 <= i < |rule.required| && rule.required[i] == name;
    }
  }

  /** Removing one field of a value that meets a rule breaks the rule exactly when the rule asks for the field. */
  lemma {:induction false} RemovalBreaks(rule: Rule, v: Json, path: seq<Bytes>)
    requires Meets(rule, v) && Mutated(v, path, Remove, Null).Some?
    ensures Meets(rule, Mutated(v, path, Remove, Null).value) <==> !Asks(rule, v, path)
    decreases |path|
  {
    if |path| == 1 {
      assert path == [path[0]];
      RemovalHere(rule, v, path[0]);
    } else {
      var child := Child(v, path[0]).value;
      var changed := Mutated(child, path[1..], Remove, Null).value;
      forall i | 0 <= i < |rule.parts|
        ensures PartMeets(rule.parts[i], v.fields[path[0] := changed]) <==> !PartAsks(rule.parts[i], v.fields, path)
      {
        PartAfterDeepRemoval(rule.parts[i], v.fields, path);
      }
      hide PartMeets, PartAsks;
    }
  }

  lemma {:induction false} PartAfterDeepRemoval(part: Part, fields: map<Bytes, Json>, path: seq<Bytes>)
    requires |path| > 1 && path[0] in fields && PartMeets(part, fields)
    requires Mutated(fields[path[0]], path[1..], Remove, Null).Some?
    ensures PartMeets(part, fields[path[0] := Mutated(fields[path[0]], path[1..], Remove, Null).value])
            <==> !PartAsks(part, fields, path)
    decreases |path|, 0
  {
    var child := fields[path[0]];
    match part
    case ObjectAt(field, optional, rule) =>
      if path[0] == field {
        RemovalBreaks(rule, child, path[1..]);
      }
    case ArrayAt(field, rule) =>
      if path[0] == field {
        ItemsAfterRemoval(rule, child, path[1..]);
      }
    case ReliabilityPayload(rule) =>
      if path[0] == "payload" && IsReliability(fields) {
        RemovalBreaks(rule, child, path[1..]);
      }
  }

  lemma {:induction false} ItemsAfterRemoval(rule: Rule, v: Json, path: seq<Bytes>)
    requires path != [] && ItemsMeet(rule, v) && Mutated(v, path, Remove, Null).Some?
    ensures ItemsMeet(rule, Mutated(v, path, Remove, Null).value) <==> !ItemsAsk(rule, v, path)
    decreases |path|, 0
  {
    if |path| > 1 {
      var index := ArrayIndex(path[0], |v.items|).value;
      RemovalBreaks(rule, v.items[index], path[1..]);
      var changed := Mutated(v.items[index], path[1..], Remove, Null).value;
      var items := v.items[index := changed];
      hide Meets, Asks;
      assert items[index] == changed && forall i | 0 <= i < |items| && i != index :: items[i] == v.items[i];
      assert (forall i | 0 <= i < |items| :: Meets(rule, items[i])) <==> Meets(rule, changed);
      assert Mutated(v, path, Remove, Null) == Some(Array(items));
    }
  }

  /** Removing one field of a passing case makes it fail exactly when the check requires that field of it. */
  lemma RequiredFieldsAreCaught(v: Json, path: seq<Bytes>)
    requires CaseFieldsOk(v) && Mutated(v, path, Remove, Null).Some?
    ensures CaseFieldsOk(Mutated(v, path, Remove, Null).value) <==> !Asks(CASE_RULE, v, path)
  {
    hide CaseFieldsOk, Meets, Asks, CASE_RULE;
    CheckFollowsTable(v);
    CheckFollowsTable(Mutated(v, path, Remove, Null).value);
    RemovalBreaks(CASE_RULE, v, path);
  }

  /** A field the rule asks of a value that meets it is there to be removed. */
  lemma {:induction false} AskedIsThere(rule: Rule, v: Json, path: seq<Bytes>)
    requires Meets(rule, v) && Asks(rule, v, path)
    ensures Mutated(v, path, Remove, Null).Some?
    decreases |path|
  {
    if |path| == 1 && path[0] in rule.required {
    } else {
      var i :| 0 <= i < |rule.parts| && PartAsks(rule.parts[i], v.fields, path);
      assert PartMeets(rule.parts[i], v.fields);
      AskedPartIsThere(rule.parts[i], v, path);
    }
  }

  lemma {:induction false} AskedPartIsThere(part: Part, v: Json, path: seq<Bytes>)
    requires path != [] && v.Object? && PartMeets(part, v.fields) && PartAsks(part, v.fields, path)
    ensures Mutated(v, path, Remove, Null).Some?
    decreases |path|, 0
  {
    if |path| > 1 {
      match part
      case ObjectAt(field, _, rule) => AskedIsThere(rule, v.fields[field], path[1..]);
      case ArrayAt(field, rule) =>
        var items := v.fields[field].items;
        var index := ArrayIndex(path[1], |items|).value;
        assert path[1..][1..] == path[2..];
        AskedIsThere(rule, items[index], path[2..]);
        assert path[2..] != [];
      case ReliabilityPayload(rule) => AskedIsThere(rule, v.fields["payload"], path[1..]);
    }
  }
}
