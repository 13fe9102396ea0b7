/**
 What the replies of the adapter say, field by field, and what the payloads of requests are read as:
 both are stated on the JSON values themselves.
 */
module AdapterReplies {
  import opened Basics
  import opened CanonicalNumbers
  import opened JsonGrammar
  import opened ProtocolModel
  import opened AdapterWire
  import opened AdapterSession

  // ----- replies

  function BoundaryValue(b: Boundary): Json {
    Object(map["run_id" := String(b.runID), "case_count" := Number(IntegerText(b.caseCount)), "corpus_digest" := String(b.corpusDigest)])
  }

  function ErrorValue(code: Bytes, message: Bytes): Json {
    Object(map["code" := String(code), "message" := String(message), "retryable" := Bool(false)])
  }

  /** The type and the value of the answer to a message of this type. */
  ghost predicate AnswersAs(w: Wire, a: Adapter, version: Bytes, m: Message, t: MessageType, v: Json) {
    match m.messageType
    case Hello =>
      t == HelloAck && v == Object(map["selected_version" := String(version), "canonical_policy" := String("evalwitness.protocol-canonical-json.v1")])
    case Describe => t == DescriptorReply && v == w.descriptorJson(a.descriptor)
    case BeginRun => t == RunStarted && ReadBoundary(m.payload).Some? && v == BoundaryValue(ReadBoundary(m.payload).value)
    case Evaluate => t == EvaluationResult && a.evaluate(m.payload).Some? && v == w.resultJson(a.evaluate(m.payload).value)
    case Cancel =>
      t == Cancelled && v == ErrorValue("protocol.cancelled", "no active invocation remained after the sequential boundary")
    case EndRun => t == RunResult && ReadBoundary(m.payload).Some? && v == BoundaryValue(ReadBoundary(m.payload).value)
    case _ => t == Failure
  }

  /** An answer carries the negotiated version, and its payload is what its type promises. */
  lemma AnswerSays(w: Wire, a: Adapter, hello: Message, m: Message)
    requires Answer(w, a, hello, m).Some?
    ensures var reply := Answer(w, a, hello, m).value;
            && reply.schemaVersion == MESSAGE_SCHEMA && reply.protocolVersion == Selection(a, hello)
            && Strict(reply.payload).Some?
            && AnswersAs(w, a, Selection(a, hello), m, reply.messageType, Strict(reply.payload).value)
  {
    hide Selection, Strict, Payload, ReadBoundary;
    var content := AnswerContent(a, Selection(a, hello), m).value;
    PayloadIsRead(ContentJson(w, content));
  }

  /**
   A refusal is an error in the version negotiated so far, or in the current one; its code tells a
   message that is not valid from one that is out of place.
   */
  lemma RefusalSays(w: Wire, a: Adapter, ms: seq<Message>, k: nat)
    requires k < |ms| && Refusal(w, a, ms, k).Some?
    ensures var reply, negotiated := Refusal(w, a, ms, k).value, if k > 0 then Selection(a, ms[0]) else "";
            && reply.schemaVersion == MESSAGE_SCHEMA && reply.messageType == Failure
            && Strict(reply.payload) ==
               Some(ErrorValue(if ValidMessage(ms[k], negotiated) then "protocol.state.invalid" else "protocol.message.invalid", REFUSED_TEXT))
            && (k > 0 && Selection(a, ms[0]) != "" ==> reply.protocolVersion == Selection(a, ms[0]))
            && (k == 0 && !ValidMessage(ms[0], "") ==> reply.protocolVersion == CURRENT_VERSION)
            && (Selection(a, ms[0]) == "" ==> reply.protocolVersion == CURRENT_VERSION)
  {
    hide Selection, Strict, Payload, ValidMessage;
    var valid := ValidMessage(ms[k], if k > 0 then Selection(a, ms[0]) else "");
    PayloadIsRead(ContentJson(w, ErrorContent(if valid then "protocol.state.invalid" else "protocol.message.invalid", REFUSED_TEXT)));
  }

  // ----- requests

  /** A text member, or nothing there for the empty text. */
  predicate SaysText(fields: map<Bytes, Json>, name: Bytes, text: Bytes) {
    if name in fields then fields[name] == String(text) || (fields[name] == Null && text == "") else text == ""
  }

  predicate SaysCount(fields: map<Bytes, Json>, name: Bytes, count: int) {
    if name in fields then
      || (fields[name] == Number(IntegerText(count)) && -9007199254740991 <= count <= 9007199254740991)
      || (fields[name] == Null && count == 0)
    else count == 0
  }

  predicate SaysTexts(fields: map<Bytes, Json>, name: Bytes, texts: seq<Bytes>) {
    if name in fields && fields[name] != Null then
      && fields[name].Array? && |fields[name].items| == |texts|
      && forall i | 0 <= i < |texts| :: fields[name].items[i] == String(texts[i]) || (fields[name].items[i] == Null && texts[i] == "")
    else texts == []
  }

  /** A boundary is read from an object with no other members, whatever of the three is missing or null being empty. */
  lemma BoundaryIsRead(v: Json, b: Boundary)
    ensures BoundaryOf(v) == Some(b) <==>
            || (v == Null && b == Boundary("", 0, ""))
            || (v.Object? && v.fields.Keys <= {"run_id", "case_count", "corpus_digest"}
                && SaysText(v.fields, "run_id", b.runID) && SaysCount(v.fields, "case_count", b.caseCount)
                && SaysText(v.fields, "corpus_digest", b.corpusDigest))
  {
    hide RUN_ID, CASE_COUNT, CORPUS_DIGEST, SaysText, SaysCount, TextOf, IntOf;
    BoundaryNamesAre();
    if v.Object? {
      TextIsRead(v.fields, RUN_ID, b.runID);
      TextIsRead(v.fields, CORPUS_DIGEST, b.corpusDigest);
      CountIsRead(v.fields, CASE_COUNT, b.caseCount);
    }
  }

  lemma BoundaryNamesAre()
    ensures RUN_ID == "run_id" && CASE_COUNT == "case_count" && CORPUS_DIGEST == "corpus_digest"
  {
  }

  lemma TextIsRead(fields: map<Bytes, Json>, name: Bytes, text: Bytes)
    ensures SaysText(fields, name, text) <==> TextOf(Field(fields, name)) == Some(text)
  {
  }

  lemma CountIsRead(fields: map<Bytes, Json>, name: Bytes, count: int)
    ensures SaysCount(fields, name, count) <==> IntOf(Field(fields, name)) == Some(count)
  {
    hide IntegerToken, IntegerText, IntegerValue;
    if name in fields && fields[name].Number? && IntegerToken(fields[name].token) {
      TokenIsTextOfValue(fields[name].token);
    }
    if -9007199254740991 <= count <= 9007199254740991 {
      ValueOfTextIsInteger(count);
    }
  }

  lemma TextsAreRead(fields: map<Bytes, Json>, name: Bytes, texts: seq<Bytes>)
    ensures SaysTexts(fields, name, texts) <==> TextsOf(Field(fields, name)) == Some(texts)
  {
    if name in fields && fields[name].Array? {
      var items := fields[name].items;
      if SaysTexts(fields, name, texts) {
        assert forall i | 0 <= i < |items| :: TextOf(items[i]) == Some(texts[i]);
        assert TextsOf(fields[name]).value == texts;
      }
      if TextsOf(fields[name]) == Some(texts) {
        forall i | 0 <= i < |texts| ensures items[i] == String(texts[i]) || (items[i] == Null && texts[i] == "") {
          assert TextOf(items[i]) == Some(texts[i]);
        }
      }
    }
  }

  lemma GreetingIsRead(v: Json, g: Greeting)
    ensures GreetingOf(v) == Some(g) <==>
            || (v == Null && g == Greeting([], ""))
            || (v.Object? && v.fields.Keys <= {"supported_versions", "canonical_policy"}
                && SaysTexts(v.fields, "supported_versions", g.supportedVersions) && SaysText(v.fields, "canonical_policy", g.canonicalPolicy))
  {
    hide SUPPORTED, POLICY, SaysText, SaysTexts, TextOf, TextsOf;
    GreetingNamesAre();
    if v.Object? {
      TextsAreRead(v.fields, SUPPORTED, g.supportedVersions);
      TextIsRead(v.fields, POLICY, g.canonicalPolicy);
    }
  }

  lemma AcknowledgementIsRead(v: Json, a: Acknowledgement)
    ensures AcknowledgementOf(v) == Some(a) <==>
            || (v == Null && a == Acknowledgement("", ""))
            || (v.Object? && v.fields.Keys <= {"selected_version", "canonical_policy"}
                && SaysText(v.fields, "selected_version", a.selectedVersion) && SaysText(v.fields, "canonical_policy", a.canonicalPolicy))
  {
    hide SELECTED, POLICY, SaysText, TextOf;
    GreetingNamesAre();
    if v.Object? {
      TextIsRead(v.fields, SELECTED, a.selectedVersion);
      TextIsRead(v.fields, POLICY, a.canonicalPolicy);
    }
  }

  lemma GreetingNamesAre()
    ensures SUPPORTED == "supported_versions" && SELECTED == "selected_version" && POLICY == "canonical_policy"
  {
  }
}
