/**
 The client's script turn by turn with an adapter it suits: what is sent arrives, the adapter accepts
 it in its place, and the client takes the answer. A turn fails only for the end after a skipped vector,
 or for a vector that does not make it across.
 */
module AdapterScript {
  import opened Basics
  import opened Utf8
  import opened Digits
  import opened Texts
  import opened JsonGrammar
  import opened CanonicalJson
  import opened PrintedLength
  import opened ProtocolModel
  import opened AdapterWire
  import opened WireFidelity
  import opened AdapterSession
  import opened AdapterClient

  const CLIENT_LIMIT := DEFAULT_LIMITS.maxMessageBytes

  /**
   A valid adapter whose descriptor reaches the client, and a corpus it may be asked to run. Of the
   spelling of results it asks no more than that those of this corpus read back.
   */
  ghost predicate Compatible(h: Host, a: Adapter, c: Corpus) {
    && a.checks == h.pipeline.checks && ValidDescriptor(a.checks, a.descriptor)
    && ValidDigest(c.digest) && |c.vectors| <= a.descriptor.limits.maxCasesPerRun
    && DescriptorArrives(h, a)
    && forall i | 0 <= i < |c.vectors| :: ResultReadsBack(h, a, c.vectors[i])
  }

  ghost predicate DescriptorArrives(h: Host, a: Adapter) {
    var payload := Posted(h.wire, DescriptorContent(a.descriptor));
    && payload.Some? && ReadDescriptor(h.wire, payload.value) == Some(a.descriptor)
    && Passes(DescriptorLine(payload.value), CLIENT_LIMIT)
  }

  function DescriptorLine(payload: Bytes): Message {
    Message(MESSAGE_SCHEMA, CURRENT_VERSION, DescriptorReply, "reply." + HostID(2), HostID(2), "", payload)
  }

  ghost predicate ResultReadsBack(h: Host, a: Adapter, v: CaseVector) {
    var result := Evaluation(a, v);
    result.Some? ==>
      var payload := Posted(h.wire, ResultContent(result.value));
      payload.Some? ==> ReadResult(h.wire, payload.value) == result
  }

  /** What the adapter's evaluator gives for a vector: it sees the bytes as they arrive. */
  ghost function Evaluation(a: Adapter, v: CaseVector): Option<InvocationResult> {
    var arrived :- Embedded(v.raw);
    a.evaluate(arrived)
  }

  predicate NothingSkipped(h: Host, c: Corpus, d: Descriptor) {
    forall i | 0 <= i < |c.vectors| :: !IsSkipped(h, c.vectors[i], d)
  }

  /** The client's script with this adapter. */
  ghost function Script(h: Host, a: Adapter, c: Corpus, k: nat): Option<Message>
    requires |c.digest| >= 16
  {
    MessageAt(h, c, a.descriptor, CURRENT_VERSION, k)
  }

  ghost predicate FollowsScript(h: Host, a: Adapter, c: Corpus, ms: seq<Message>, n: nat)
    requires |c.digest| >= 16
  {
    n <= |ms| && forall j | 0 <= j < n :: Some(ms[j]) == Script(h, a, c, j)
  }

  /** How turn `k` of the script ends the session, if it does. */
  ghost function TurnEnd(h: Host, a: Adapter, c: Corpus, k: nat): Option<End>
    requires |c.digest| >= 16
  {
    var m := Script(h, a, c, k);
    if m.None? then Some(EndedEarly)
    else if !Passes(m.value, a.descriptor.limits.maxMessageBytes) then Some(ReadFailed)
    else if k + 1 == TurnCount(h, c, a.descriptor) && !NothingSkipped(h, c, a.descriptor) then Some(End.Refused)
    else
      var answer := AnswerIn(h.wire, a, CURRENT_VERSION, m.value);
      if answer.None? then Some(if Crashes(a, m.value) then Crashed else ReplyFailed)
      else if !Passes(answer.value, CLIENT_LIMIT) then Some(EndedEarly)
      else None
  }

  /** The vector of turn `k` makes it across, and so does its result. */
  ghost predicate VectorPasses(h: Host, a: Adapter, c: Corpus, v: CaseVector, k: nat)
    requires |c.digest| >= 16
  {
    && Embedded(v.raw).Some?
    && var request := Message(MESSAGE_SCHEMA, CURRENT_VERSION, Evaluate, HostID(k + 1), "", RunIDOf(c), Embedded(v.raw).value);
       && Passes(request, a.descriptor.limits.maxMessageBytes)
       && Evaluation(a, v).Some?
       && var payload := Posted(h.wire, ResultContent(Evaluation(a, v).value));
          && payload.Some?
          && Passes(Reply(request, CURRENT_VERSION, EvaluationResult, payload.value), CLIENT_LIMIT)
  }

  // ----- the messages are plain text

  lemma ConstantsAreValid()
    ensures ValidUtf8(MESSAGE_SCHEMA) && ValidUtf8(CURRENT_VERSION) && ValidUtf8(CANONICAL_POLICY) && ValidUtf8(PREVIOUS_MINOR_VERSION)
    ensures |MESSAGE_SCHEMA| <= 100 && |CURRENT_VERSION| == 5 && |CANONICAL_POLICY| <= 100
  {
    hide ValidUtf8;
    Ascii(MESSAGE_SCHEMA);
    Ascii(CURRENT_VERSION);
    Ascii(CANONICAL_POLICY);
    Ascii(PREVIOUS_MINOR_VERSION);
  }

  lemma HostIDIsValid(k: nat)
    ensures ValidUtf8(HostID(k)) && ValidUtf8("reply." + HostID(k)) && HostID(k) != ""
    ensures k < 1000000 ==> |HostID(k)| == 11
  {
    hide ValidUtf8;
    var digits := Padded(k, 6);
    assert forall i | 0 <= i < |digits| :: IsDigit(digits[i]);
    var id := "host." + digits;
    assert HostID(k) == id && id[0] == 'h';
    Ascii(id);
    Ascii("reply." + id);
    if k < 1000000 {
      assert Pow10(6) == 1000000;
      DigitsLength(k, 6);
    }
  }

  lemma RunIDIsValid(c: Corpus)
    requires ValidDigest(c.digest)
    ensures |RunIDOf(c)| == 20 && ValidUtf8(RunIDOf(c)) && ValidUtf8(c.digest)
  {
    hide ValidUtf8;
    Ascii(c.digest);
    Ascii("run-" + c.digest[..16]);
  }

  lemma PostedArrives(w: Wire, content: Content)
    requires Posted(w, content).Some?
    ensures Posted(w, content).value != "" && Embedded(Posted(w, content).value) == Posted(w, content)
  {
    hide Payload, Strict, Embedded;
    PayloadIsRead(ContentJson(w, content));
  }

  lemma EmbeddedArrives(raw: Bytes)
    requires Embedded(raw).Some?
    ensures Embedded(raw).value != "" && Embedded(Embedded(raw).value) == Embedded(raw)
  {
    hide Payload, Strict;
    PayloadIsRead(Strict(raw).value);
  }

  lemma DigestIsLong(c: Corpus)
    requires ValidDigest(c.digest)
    ensures |c.digest| == 64
  {
  }

  lemma ScriptPayload(h: Host, a: Adapter, c: Corpus, k: nat)
    requires |c.digest| >= 16 && Script(h, a, c, k).Some?
    ensures var payload := Script(h, a, c, k).value.payload; Embedded(payload) == Some(payload) && payload != ""
  {
    hide Payload, Strict, Embedded, Posted, Kept, HostID, RunIDOf, CURRENT_VERSION;
    var kept := Kept(h, c.vectors, a.descriptor, |c.vectors|);
    if k == 0 {
      PostedArrives(h.wire, HELLO);
    } else if k == 1 {
      PostedArrives(h.wire, EmptyContent);
    } else if 3 <= k < 3 + |kept| {
      EmbeddedArrives(kept[k - 3].raw);
    } else {
      PostedArrives(h.wire, BoundaryContent(RunBoundary(c)));
    }
  }

  lemma ScriptFields(h: Host, a: Adapter, c: Corpus, k: nat)
    requires |c.digest| >= 16 && Script(h, a, c, k).Some?
    ensures var m := Script(h, a, c, k).value;
            && m == Message(MESSAGE_SCHEMA, CURRENT_VERSION, m.messageType, HostID(k + 1), "", if k < 2 then "" else RunIDOf(c), m.payload)
            && !m.messageType.OtherType?
  {
    hide Embedded, Posted, Kept, HostID, RunIDOf, CURRENT_VERSION, MESSAGE_SCHEMA;
  }

  /** Every message of the script is plain text with a canonical payload. */
  lemma ScriptIsPlain(h: Host, a: Adapter, c: Corpus, k: nat)
    requires ValidDigest(c.digest) && Script(h, a, c, k).Some?
    ensures var m := Script(h, a, c, k).value;
            && Plain(m) && Embedded(m.payload) == Some(m.payload) && m.payload != "" && m.replyTo == ""
            && ValidUtf8("reply." + m.messageID) && m.messageID == HostID(k + 1) && m.schemaVersion == MESSAGE_SCHEMA
            && m.protocolVersion == CURRENT_VERSION && m.runID == if k < 2 then "" else RunIDOf(c)
  {
    hide Embedded, MessageAt, HostID, RunIDOf, ValidDigest, MESSAGE_SCHEMA, CURRENT_VERSION;
    DigestIsLong(c);
    ConstantsAreValid();
    HostIDIsValid(k + 1);
    RunIDIsValid(c);
    ScriptPayload(h, a, c, k);
    ScriptFields(h, a, c, k);
    EmptyIsValid();
    hide ValidUtf8;
  }

  lemma EmptyIsValid()
    ensures ValidUtf8("")
  {
  }

  lemma ScriptLine(h: Host, a: Adapter, c: Corpus, k: nat, limit: int)
    requires ValidDigest(c.digest) && Script(h, a, c, k).Some?
    ensures var m := Script(h, a, c, k).value; LineOf(m, limit) == if Passes(m, limit) then Decoded(m) else TooLong
  {
    ScriptIsPlain(h, a, c, k);
    hide Embedded, Plain, MessageAt, LineOf, Passes, ValidUtf8;
    CanonicalMessageArrives(Script(h, a, c, k).value, limit);
  }

  /** A reply to a plain message with a canonical payload arrives as it is, or is too long. */
  lemma ReplyLine(request: Message, version: Bytes, messageType: MessageType, w: Wire, content: Content, limit: int)
    requires Plain(request) && ValidUtf8("reply." + request.messageID) && ValidUtf8(version) && !messageType.OtherType?
    requires Posted(w, content).Some?
    ensures var m := Reply(request, version, messageType, Posted(w, content).value);
            LineOf(m, limit) == if Passes(m, limit) then Decoded(m) else TooLong
  {
    ConstantsAreValid();
    PostedArrives(w, content);
    hide Embedded, Posted, LineOf, Passes, ValidUtf8, MESSAGE_SCHEMA, CURRENT_VERSION;
    CanonicalMessageArrives(Reply(request, version, messageType, Posted(w, content).value), limit);
  }

  lemma AnswerShape(w: Wire, a: Adapter, version: Bytes, m: Message)
    requires AnswerIn(w, a, version, m).Some?
    ensures AnswerContent(a, version, m).Some? && Posted(w, AnswerContent(a, version, m).value).Some?
    ensures AnswerIn(w, a, version, m).value ==
            Reply(m, version, AnswerType(m.messageType), Posted(w, AnswerContent(a, version, m).value).value)
  {
    hide AnswerContent, Posted;
  }

  lemma AnswerLine(h: Host, a: Adapter, c: Corpus, k: nat)
    requires ValidDigest(c.digest) && Script(h, a, c, k).Some? && AnswerIn(h.wire, a, CURRENT_VERSION, Script(h, a, c, k).value).Some?
    ensures var m := AnswerIn(h.wire, a, CURRENT_VERSION, Script(h, a, c, k).value).value;
            LineOf(m, CLIENT_LIMIT) == if Passes(m, CLIENT_LIMIT) then Decoded(m) else TooLong
  {
    hide Embedded, Plain, Posted, MessageAt, LineOf, Passes, ValidUtf8, AnswerContent, AnswerIn, CURRENT_VERSION, CLIENT_LIMIT, ValidDigest;
    DigestIsLong(c);
    ScriptIsPlain(h, a, c, k);
    ConstantsAreValid();
    var m := Script(h, a, c, k).value;
    AnswerShape(h.wire, a, CURRENT_VERSION, m);
    ReplyLine(m, CURRENT_VERSION, AnswerType(m.messageType), h.wire, AnswerContent(a, CURRENT_VERSION, m).value, CLIENT_LIMIT);
  }

  lemma RefusalLine(h: Host, a: Adapter, c: Corpus, ms: seq<Message>, k: nat)
    requires ValidDigest(c.digest) && 0 < k < |ms| && Script(h, a, c, k) == Some(ms[k]) && Selection(a, ms[0]) == CURRENT_VERSION
    ensures Refusal(h.wire, a, ms, k).Some? && Refusal(h.wire, a, ms, k).value.messageType == Failure
    ensures var line := LineOf(Refusal(h.wire, a, ms, k).value, CLIENT_LIMIT);
            line.TooLong? || (line.Decoded? && line.message.messageType == Failure)
  {
    ScriptIsPlain(h, a, c, k);
    ConstantsAreValid();
    CodesAreValid();
    hide Embedded, Plain, Posted, MessageAt, LineOf, Passes, ValidUtf8, ValidMessage, Selection, CURRENT_VERSION, REFUSED_TEXT, CLIENT_LIMIT, ContentJson;
    var code := if ValidMessage(ms[k], CURRENT_VERSION) then "protocol.state.invalid" else "protocol.message.invalid";
    ErrorTravels(h.wire, code, REFUSED_TEXT);
    ReplyLine(ms[k], CURRENT_VERSION, Failure, h.wire, ErrorContent(code, REFUSED_TEXT), CLIENT_LIMIT);
    assert CURRENT_VERSION != "";
  }

  lemma CodesAreValid()
    ensures ValidUtf8("protocol.state.invalid") && ValidUtf8("protocol.message.invalid") && ValidUtf8(REFUSED_TEXT)
  {
    hide ValidUtf8;
    Ascii("protocol.state.invalid");
    Ascii("protocol.message.invalid");
    Ascii(REFUSED_TEXT);
  }

  // ----- the control messages make it across

  lemma GreetingArrives(h: Host, a: Adapter, c: Corpus)
    requires ValidDigest(c.digest)
    ensures Script(h, a, c, 0).Some? && Script(h, a, c, 0).value.messageType == Hello
    ensures ReadGreeting(Script(h, a, c, 0).value.payload) == Some(Greeting(SUPPORTED_VERSIONS, CANONICAL_POLICY))
  {
    ConstantsAreValid();
    hide Posted, ReadGreeting, ValidUtf8, HostID, CANONICAL_POLICY;
    GreetingTravels(h.wire, Greeting(SUPPORTED_VERSIONS, CANONICAL_POLICY));
  }

  /** Negotiation with a valid adapter settles on the current version. */
  lemma SelectsCurrent(h: Host, a: Adapter, c: Corpus)
    requires Compatible(h, a, c)
    ensures Script(h, a, c, 0).Some? && Selection(a, Script(h, a, c, 0).value) == CURRENT_VERSION
    ensures GoodGreeting(a, Script(h, a, c, 0).value)
  {
    hide ExtensionsOk, Identifier, ValidDigest, UniqueStrings, ReadGreeting, MessageAt, Passes, Plain, ResultReadsBack, Embedded, ReadDescriptor, Posted;
    GreetingArrives(h, a, c);
    ScriptIsPlain(h, a, c, 0);
    HostIDIsValid(1);
    assert CURRENT_VERSION == SUPPORTED_VERSIONS[0];
    NegotiationPicksFirst(SUPPORTED_VERSIONS, Versions(a.descriptor));
  }

  lemma BoundaryArrives(h: Host, a: Adapter, c: Corpus, k: nat)
    requires ValidDigest(c.digest) && |c.vectors| <= 10000 && (k == 2 || k + 1 == TurnCount(h, c, a.descriptor))
    ensures Script(h, a, c, k).Some? && ReadBoundary(Script(h, a, c, k).value.payload) == Some(RunBoundary(c))
    ensures Script(h, a, c, k).value.messageType == if k == 2 then BeginRun else EndRun
    ensures Payload(BoundaryJson(RunBoundary(c))) == Some(Script(h, a, c, k).value.payload)
  {
    hide Payload, ReadBoundary, ValidUtf8, HostID, RunIDOf, ValidDigest, Embedded, Kept, BoundaryJson;
    DigestIsLong(c);
    RunIDIsValid(c);
    BoundaryTravels(h.wire, RunBoundary(c));
  }

  /** The payload of a control message is short. */
  lemma ControlPayload(h: Host, a: Adapter, c: Corpus, k: nat) returns (v: Json)
    requires ValidDigest(c.digest) && |c.vectors| <= 10000 && (k < 3 || k + 1 == TurnCount(h, c, a.descriptor))
    ensures Script(h, a, c, k).Some? && Payload(v) == Some(Script(h, a, c, k).value.payload) && |Print(v)| <= 5000
  {
    hide Print, Payload, ReadBoundary, ReadGreeting, HostID, RunIDOf, Kept;
    if k == 0 {
      v := ContentJson(h.wire, HELLO);
      GreetingArrives(h, a, c);
      GreetingIsShort(h.wire);
    } else if k == 1 {
      v := Object(map[]);
      EmptyTravels(h.wire);
      EmptyIsShort();
    } else {
      v := BoundaryJson(RunBoundary(c));
      BoundaryArrives(h, a, c, k);
      RunIDIsValid(c);
      BoundaryIsShort(RunBoundary(c));
    }
  }

  lemma ScriptIsTerse(h: Host, a: Adapter, c: Corpus, k: nat)
    requires ValidDigest(c.digest) && k < 100000 && Script(h, a, c, k).Some?
    ensures Terse(Script(h, a, c, k).value)
  {
    RunIDIsValid(c);
    HostIDIsValid(k + 1);
    ConstantsAreValid();
    hide ValidUtf8, HostID, RunIDOf, ValidDigest, Plain, Embedded, MessageAt, MESSAGE_SCHEMA, CURRENT_VERSION;
    ScriptIsPlain(h, a, c, k);
  }

  /** Whatever the adapter reads up to, the control messages fit. */
  lemma ControlIsSent(h: Host, a: Adapter, c: Corpus, k: nat, limit: int)
    requires ValidDigest(c.digest) && |c.vectors| <= 10000 && (k < 3 || k + 1 == TurnCount(h, c, a.descriptor))
    ensures Script(h, a, c, k).Some? && Passes(Script(h, a, c, k).value, limit)
  {
    assert |c.digest| >= 16;
    hide Print, Payload, ValidDigest, Passes, Plain, Terse, Embedded, Kept, MessageAt;
    var v := ControlPayload(h, a, c, k);
    ScriptIsTerse(h, a, c, k);
    ScriptIsPlain(h, a, c, k);
    ShortPasses(Script(h, a, c, k).value, v, limit);
  }

  lemma EmptyIsShort()
    ensures |Print(Object(map[]))| <= 5000
  {
    ObjectLength(Object(map[]), 0);
  }

  lemma ShortPasses(m: Message, v: Json, limit: int)
    requires Plain(m) && Terse(m) && Payload(v) == Some(m.payload) && |Print(v)| <= 5000
    ensures Passes(m, limit)
  {
    hide Print, Plain, Terse, Passes;
    TersePasses(m, v, limit);
  }

  // ----- the adapter accepts the script

  lemma ScriptIsValid(h: Host, a: Adapter, c: Corpus, k: nat)
    requires ValidDigest(c.digest) && 1 <= k < TurnCount(h, c, a.descriptor) && Script(h, a, c, k).Some?
    ensures Script(h, a, c, k).value.messageType != Hello && ValidMessage(Script(h, a, c, k).value, CURRENT_VERSION)
  {
    ScriptIsPlain(h, a, c, k);
    HostIDIsValid(k + 1);
    hide Plain, Embedded, Posted, Kept, HostID, RunIDOf, ValidDigest;
  }

  lemma BoundaryIsGood(h: Host, a: Adapter, c: Corpus)
    requires Compatible(h, a, c)
    ensures Script(h, a, c, 2).Some? && GoodBegin(a, Script(h, a, c, 2).value)
  {
    hide ExtensionsOk, Identifier, ValidDigest, UniqueStrings, ReadBoundary, MessageAt, Passes, ResultReadsBack, ReadDescriptor, Posted;
    BoundaryArrives(h, a, c, 2);
    RunIDIsValid(c);
  }

  lemma EndIsGood(h: Host, a: Adapter, c: Corpus, k: nat)
    requires Compatible(h, a, c) && k < TurnCount(h, c, a.descriptor) && Script(h, a, c, k).Some?
    ensures k + 1 == TurnCount(h, c, a.descriptor) ==>
              (GoodEnd(Script(h, a, c, k).value, k - 3) <==> NothingSkipped(h, c, a.descriptor))
    ensures k + 1 < TurnCount(h, c, a.descriptor) ==> Script(h, a, c, k).value.messageType != EndRun
  {
    hide ExtensionsOk, Identifier, ValidDigest, UniqueStrings, ReadBoundary, Passes, ResultReadsBack, ReadDescriptor, Posted, Embedded, Kept, IsSkipped;
    KeptAll(h, c.vectors, a.descriptor, |c.vectors|);
    if k + 1 == TurnCount(h, c, a.descriptor) {
      BoundaryArrives(h, a, c, k);
    }
  }

  lemma {:induction false} EvaluationsOfScript(h: Host, a: Adapter, c: Corpus, ms: seq<Message>, n: nat)
    requires |c.digest| >= 16 && FollowsScript(h, a, c, ms, n) && n < TurnCount(h, c, a.descriptor)
    ensures Evaluations(ms, n) == if n <= 3 then 0 else n - 3
  {
    hide Kept, Posted, Embedded, HostID, RunIDOf;
    if n > 0 {
      EvaluationsOfScript(h, a, c, ms, n - 1);
      assert Some(ms[n - 1]) == Script(h, a, c, n - 1);
    }
  }

  /** The types of the script: hello, describe, begin_run, evaluate over and over, end_run. */
  lemma ScriptTypes(h: Host, a: Adapter, c: Corpus, k: nat)
    requires |c.digest| >= 16 && k < TurnCount(h, c, a.descriptor) && Script(h, a, c, k).Some?
    ensures Script(h, a, c, k).value.messageType ==
            if k == 0 then Hello else if k == 1 then Describe else if k == 2 then BeginRun
            else if k + 1 < TurnCount(h, c, a.descriptor) then Evaluate else EndRun
  {
    hide Posted, Embedded, HostID, RunIDOf, Kept;
  }

  /** Each message of the script is accepted in its place; the last one only if nothing was skipped. */
  lemma ScriptContinues(h: Host, a: Adapter, c: Corpus, ms: seq<Message>, k: nat)
    requires Compatible(h, a, c) && FollowsScript(h, a, c, ms, k + 1) && k < TurnCount(h, c, a.descriptor)
    ensures Continues(a, ms, k) <==> k + 1 < TurnCount(h, c, a.descriptor) || NothingSkipped(h, c, a.descriptor)
  {
    hide ValidMessage, GoodGreeting, GoodBegin, GoodEnd, Selection, Compatible, NothingSkipped, MessageAt, TurnCount, ValidDigest;
    CompatibleCorpus(h, a, c);
    CountedTurns(h, c, a.descriptor);
    SelectsCurrent(h, a, c);
    assert Some(ms[0]) == Script(h, a, c, 0) && Some(ms[k]) == Script(h, a, c, k);
    ScriptTypes(h, a, c, k);
    if k > 0 {
      assert Some(ms[k - 1]) == Script(h, a, c, k - 1);
      ScriptTypes(h, a, c, k - 1);
      ScriptIsValid(h, a, c, k);
      EvaluationsOfScript(h, a, c, ms, k);
      BoundaryIsGood(h, a, c);
      EndIsGood(h, a, c, k);
    }
  }

  lemma CompatibleCorpus(h: Host, a: Adapter, c: Corpus)
    requires Compatible(h, a, c)
    ensures ValidDigest(c.digest) && |c.digest| >= 16 && |c.vectors| <= 10000
  {
  }

  lemma CountedTurns(h: Host, c: Corpus, d: Descriptor)
    ensures 4 <= TurnCount(h, c, d) <= 4 + |c.vectors|
  {
  }

  // ----- the client takes the answers

  /** The answer to turn `k` is one the client takes. */
  ghost predicate Taken(h: Host, a: Adapter, c: Corpus, k: nat, answer: Message)
    requires |c.digest| >= 16
  {
    && Script(h, a, c, k).Some?
    && Correlated(Decoded(answer), Script(h, a, c, k).value, TurnAt(h, c, a.descriptor, k).expected) == Some(answer.payload)
    && Takes(h, c, a.descriptor, k, answer.payload)
    && (k == 0 ==> ReadAcknowledgement(answer.payload).value.selectedVersion == CURRENT_VERSION)
    && (k == 1 ==> ReadDescriptor(h.wire, answer.payload).value == a.descriptor)
  }

  /** A reply with the right type and version answers its message. */
  lemma ReplyIsCorrelated(m: Message, version: Bytes, messageType: MessageType, payload: Bytes)
    requires m.protocolVersion == version && messageType != Failure
    ensures Correlated(Decoded(Reply(m, version, messageType, payload)), m, messageType) == Some(payload)
  {
  }

  /** A short reply to a message with short texts fits. */
  lemma ReplyPasses(m: Message, messageType: MessageType, v: Json, limit: int)
    requires Plain(m) && Terse(m) && ValidUtf8("reply." + m.messageID) && |m.messageID| <= 90 && !messageType.OtherType?
    requires Payload(v).Some? && |Print(v)| <= 5000
    ensures Passes(Reply(m, CURRENT_VERSION, messageType, Payload(v).value), limit)
  {
    ConstantsAreValid();
    hide Print, Payload, ValidUtf8, Passes, MESSAGE_SCHEMA, CURRENT_VERSION;
    ShortPasses(Reply(m, CURRENT_VERSION, messageType, Payload(v).value), v, limit);
  }

  lemma AcknowledgementIsTaken(h: Host, a: Adapter, c: Corpus)
    requires ValidDigest(c.digest) && |c.vectors| <= 10000
    ensures Script(h, a, c, 0).Some?
    ensures var answer := AnswerIn(h.wire, a, CURRENT_VERSION, Script(h, a, c, 0).value);
            answer.Some? && Taken(h, a, c, 0, answer.value) && Passes(answer.value, CLIENT_LIMIT)
  {
    hide Taken, ReadGreeting, ReadAcknowledgement, Payload, MessageAt, Print, Plain, Terse, Embedded, Passes, CANONICAL_POLICY, CURRENT_VERSION, ValidDigest, HostID, ValidUtf8, ContentJson;
    DigestIsLong(c);
    ConstantsAreValid();
    var ack := Acknowledgement(CURRENT_VERSION, CANONICAL_POLICY);
    GreetingArrives(h, a, c);
    AcknowledgementTravels(h.wire, ack);
    AcknowledgementIsShort(h.wire, ack);
    ScriptIsPlain(h, a, c, 0);
    ScriptIsTerse(h, a, c, 0);
    HostIDIsValid(1);
    var m := Script(h, a, c, 0).value;
    var v := ContentJson(h.wire, AcknowledgementContent(ack));
    ReplyPasses(m, HelloAck, v, CLIENT_LIMIT);
    ReplyIsCorrelated(m, CURRENT_VERSION, HelloAck, Payload(v).value);
    assert AnswerIn(h.wire, a, CURRENT_VERSION, m) == Some(Reply(m, CURRENT_VERSION, HelloAck, Payload(v).value));
    AcknowledgementIsGood(h, a, c, Reply(m, CURRENT_VERSION, HelloAck, Payload(v).value));
  }

  lemma AcknowledgementIsGood(h: Host, a: Adapter, c: Corpus, answer: Message)
    requires ValidDigest(c.digest) && Script(h, a, c, 0).Some?
    requires Correlated(Decoded(answer), Script(h, a, c, 0).value, HelloAck) == Some(answer.payload)
    requires ReadAcknowledgement(answer.payload) == Some(Acknowledgement(CURRENT_VERSION, CANONICAL_POLICY))
    ensures Taken(h, a, c, 0, answer)
  {
    hide Correlated, ReadAcknowledgement, Posted, Kept, HostID;
  }

  lemma DescriptorIsTaken(h: Host, a: Adapter, c: Corpus)
    requires Compatible(h, a, c)
    ensures Script(h, a, c, 1).Some?
    ensures var answer := AnswerIn(h.wire, a, CURRENT_VERSION, Script(h, a, c, 1).value);
            answer.Some? && Taken(h, a, c, 1, answer.value) && Passes(answer.value, CLIENT_LIMIT)
  {
    hide Compatible, ValidDigest, Passes, Plain, Embedded, HostID, Posted, ReadDescriptor, MessageAt, Taken, CURRENT_VERSION;
    CompatibleCorpus(h, a, c);
    CompatibleDescriptor(h, a, c);
    ControlIsSent(h, a, c, 1, CLIENT_LIMIT);
    ScriptIsPlain(h, a, c, 1);
    CountedTurns(h, c, a.descriptor);
    ScriptTypes(h, a, c, 1);
    var payload := Posted(h.wire, DescriptorContent(a.descriptor)).value;
    var m := Script(h, a, c, 1).value;
    assert AnswerIn(h.wire, a, CURRENT_VERSION, m) == Some(DescriptorLine(payload));
    ReplyIsCorrelated(m, CURRENT_VERSION, DescriptorReply, payload);
    DescriptorIsRight(h, a, c, DescriptorLine(payload));
  }

  lemma CompatibleDescriptor(h: Host, a: Adapter, c: Corpus)
    requires Compatible(h, a, c)
    ensures a.checks == h.pipeline.checks && ValidDescriptor(a.checks, a.descriptor) && DescriptorArrives(h, a)
  {
  }

  lemma DescriptorIsRight(h: Host, a: Adapter, c: Corpus, answer: Message)
    requires |c.digest| >= 16 && Script(h, a, c, 1).Some?
    requires Correlated(Decoded(answer), Script(h, a, c, 1).value, DescriptorReply) == Some(answer.payload)
    requires ReadDescriptor(h.wire, answer.payload) == Some(a.descriptor) && ValidDescriptor(h.pipeline.checks, a.descriptor)
    ensures Taken(h, a, c, 1, answer)
  {
    hide Correlated, ReadDescriptor, ValidDescriptor, Posted, Kept, HostID;
  }

  lemma BoundaryIsTaken(h: Host, a: Adapter, c: Corpus, k: nat)
    requires ValidDigest(c.digest) && |c.vectors| <= 10000 && (k == 2 || k + 1 == TurnCount(h, c, a.descriptor))
    ensures Script(h, a, c, k).Some?
    ensures var answer := AnswerIn(h.wire, a, CURRENT_VERSION, Script(h, a, c, k).value);
            answer.Some? && Taken(h, a, c, k, answer.value) && Passes(answer.value, CLIENT_LIMIT)
  {
    hide Taken, ReadBoundary, Payload, MessageAt, Print, Plain, Terse, Embedded, Passes, CURRENT_VERSION, ValidDigest, HostID, ValidUtf8, RunIDOf, TurnCount;
    DigestIsLong(c);
    CountedTurns(h, c, a.descriptor);
    var b := RunBoundary(c);
    RunIDIsValid(c);
    BoundaryArrives(h, a, c, k);
    BoundaryTravels(h.wire, b);
    BoundaryIsShort(b);
    ScriptIsPlain(h, a, c, k);
    ScriptIsTerse(h, a, c, k);
    HostIDIsValid(k + 1);
    var m := Script(h, a, c, k).value;
    var kind := AnswerType(m.messageType);
    ReplyPasses(m, kind, BoundaryJson(b), CLIENT_LIMIT);
    ReplyIsCorrelated(m, CURRENT_VERSION, kind, Payload(BoundaryJson(b)).value);
    hide BoundaryJson;
    assert AnswerIn(h.wire, a, CURRENT_VERSION, m) == Some(Reply(m, CURRENT_VERSION, kind, Payload(BoundaryJson(b)).value));
    BoundaryIsRight(h, a, c, k, Reply(m, CURRENT_VERSION, kind, Payload(BoundaryJson(b)).value));
  }

  lemma BoundaryIsRight(h: Host, a: Adapter, c: Corpus, k: nat, answer: Message)
    requires ValidDigest(c.digest) && Script(h, a, c, k).Some? && (k == 2 || k + 1 == TurnCount(h, c, a.descriptor))
    requires Correlated(Decoded(answer), Script(h, a, c, k).value, AnswerType(Script(h, a, c, k).value.messageType)) == Some(answer.payload)
    requires ReadBoundary(answer.payload) == Some(RunBoundary(c))
    ensures Taken(h, a, c, k, answer)
  {
    hide Correlated, ReadBoundary, Posted, Kept, HostID;
  }

  /** A vector that is sent: its message, and the answer to it. */
  lemma VectorTurn(h: Host, a: Adapter, c: Corpus, k: nat)
    requires |c.digest| >= 16 && 3 <= k && k + 1 < TurnCount(h, c, a.descriptor)
    ensures var v := Kept(h, c.vectors, a.descriptor, |c.vectors|)[k - 3];
            && v in c.vectors
            && (Script(h, a, c, k).Some? <==> Embedded(v.raw).Some?)
            && (Script(h, a, c, k).Some? ==>
                  && var m := Script(h, a, c, k).value;
                     && m == Message(MESSAGE_SCHEMA, CURRENT_VERSION, Evaluate, HostID(k + 1), "", RunIDOf(c), Embedded(v.raw).value)
                     && (Crashes(a, m) <==> Evaluation(a, v).None?)
                     && AnswerIn(h.wire, a, CURRENT_VERSION, m) ==
                          if Evaluation(a, v).None? then None
                          else WrittenReply(h.wire, m, CURRENT_VERSION, EvaluationResult, ResultContent(Evaluation(a, v).value)))
  {
    hide Embedded, Posted, HostID, RunIDOf, Kept, IsSkipped;
    KeptAll(h, c.vectors, a.descriptor, |c.vectors|);
  }

  /** A turn that carries a vector goes well exactly when the vector and its result make it across. */
  lemma VectorTurnPasses(h: Host, a: Adapter, c: Corpus, k: nat)
    requires |c.digest| >= 16 && 3 <= k && k + 1 < TurnCount(h, c, a.descriptor)
    ensures TurnEnd(h, a, c, k).None? <==> VectorPasses(h, a, c, Kept(h, c.vectors, a.descriptor, |c.vectors|)[k - 3], k)
  {
    hide Embedded, Posted, HostID, RunIDOf, Kept, Passes, Evaluation, MessageAt, NothingSkipped, AnswerIn, Crashes;
    VectorTurn(h, a, c, k);
  }

  lemma ResultIsTaken(h: Host, a: Adapter, c: Corpus, k: nat)
    requires Compatible(h, a, c) && 3 <= k && k + 1 < TurnCount(h, c, a.descriptor) && Script(h, a, c, k).Some?
    requires AnswerIn(h.wire, a, CURRENT_VERSION, Script(h, a, c, k).value).Some?
    ensures Taken(h, a, c, k, AnswerIn(h.wire, a, CURRENT_VERSION, Script(h, a, c, k).value).value)
  {
    CompatibleCorpus(h, a, c);
    hide Embedded, Posted, HostID, RunIDOf, Kept, Evaluation, MessageAt, AnswerIn, Crashes, ReadResult, DescriptorArrives, ValidDescriptor, ValidDigest;
    VectorTurn(h, a, c, k);
    var v := Kept(h, c.vectors, a.descriptor, |c.vectors|)[k - 3];
    assert ResultReadsBack(h, a, v);
    var m, payload := Script(h, a, c, k).value, Posted(h.wire, ResultContent(Evaluation(a, v).value)).value;
    ReplyIsCorrelated(m, CURRENT_VERSION, EvaluationResult, payload);
    ResultIsRight(h, a, c, k, Reply(m, CURRENT_VERSION, EvaluationResult, payload));
  }

  lemma ResultIsRight(h: Host, a: Adapter, c: Corpus, k: nat, answer: Message)
    requires |c.digest| >= 16 && Script(h, a, c, k).Some? && 3 <= k && k + 1 < TurnCount(h, c, a.descriptor)
    requires Correlated(Decoded(answer), Script(h, a, c, k).value, EvaluationResult) == Some(answer.payload)
    requires ReadResult(h.wire, answer.payload).Some?
    ensures Taken(h, a, c, k, answer)
  {
    hide Correlated, ReadResult, Posted, Embedded, Kept, HostID, RunIDOf;
  }

  /** The control turns go well, except for the end after a vector was skipped. */
  lemma ControlTurns(h: Host, a: Adapter, c: Corpus, k: nat)
    requires Compatible(h, a, c) && (k < 3 || k + 1 == TurnCount(h, c, a.descriptor))
    ensures TurnEnd(h, a, c, k) ==
            if k + 1 == TurnCount(h, c, a.descriptor) && !NothingSkipped(h, c, a.descriptor) then Some(End.Refused) else None
  {
    hide Compatible, AnswerIn, Passes, Taken, MessageAt, NothingSkipped, TurnCount, ValidDigest, Crashes;
    CompatibleCorpus(h, a, c);
    ControlIsSent(h, a, c, k, a.descriptor.limits.maxMessageBytes);
    ControlIsTaken(h, a, c, k);
  }

  lemma ControlIsTaken(h: Host, a: Adapter, c: Corpus, k: nat)
    requires Compatible(h, a, c) && (k < 3 || k + 1 == TurnCount(h, c, a.descriptor))
    ensures Script(h, a, c, k).Some?
    ensures var answer := AnswerIn(h.wire, a, CURRENT_VERSION, Script(h, a, c, k).value);
            answer.Some? && Taken(h, a, c, k, answer.value) && Passes(answer.value, CLIENT_LIMIT)
  {
    hide Compatible, AnswerIn, Passes, Taken, MessageAt, TurnCount, ValidDigest;
    CompatibleCorpus(h, a, c);
    if k == 0 {
      AcknowledgementIsTaken(h, a, c);
    } else if k == 1 {
      DescriptorIsTaken(h, a, c);
    } else {
      BoundaryIsTaken(h, a, c, k);
    }
  }

  /** Every answer that is given is one the client takes. */
  lemma AnswersAreTaken(h: Host, a: Adapter, c: Corpus, k: nat)
    requires Compatible(h, a, c) && k < TurnCount(h, c, a.descriptor) && Script(h, a, c, k).Some?
    requires AnswerIn(h.wire, a, CURRENT_VERSION, Script(h, a, c, k).value).Some?
    ensures Taken(h, a, c, k, AnswerIn(h.wire, a, CURRENT_VERSION, Script(h, a, c, k).value).value)
  {
    hide Compatible, AnswerIn, Passes, Taken, MessageAt, TurnCount, ValidDigest;
    if k < 3 || k + 1 == TurnCount(h, c, a.descriptor) {
      ControlIsTaken(h, a, c, k);
    } else {
      ResultIsTaken(h, a, c, k);
    }
  }
}
