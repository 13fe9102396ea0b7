/**
 What is sent arrives: the payloads a session writes read back as what they were written from, and a
 message written to a line reads back as the message, its payload in canonical form.
 */
module WireFidelity {
  import opened Basics
  import opened Utf8
  import opened Digits
  import opened JsonStrings
  import opened CanonicalNumbers
  import opened JsonGrammar
  import opened CanonicalJson
  import opened PrintedLength
  import opened ProtocolModel
  import opened AdapterWire

  lemma Ascii(s: Bytes)
    requires forall i | 0 <= i < |s| :: s[i] as int < 0x80
    ensures ValidUtf8(s)
  {
    AsciiThenRest(s, "");
    assert s + "" == s;
  }

  // ----- the names of the fields

  lemma SupportedName()
    ensures ValidUtf8(SUPPORTED)
  {
    hide ValidUtf8;
    Ascii(SUPPORTED);
  }

  lemma PolicyName()
    ensures ValidUtf8(POLICY)
  {
    hide ValidUtf8;
    Ascii(POLICY);
  }

  lemma SelectedName()
    ensures ValidUtf8(SELECTED)
  {
    hide ValidUtf8;
    Ascii(SELECTED);
  }

  lemma RunIdName()
    ensures ValidUtf8(RUN_ID)
  {
    hide ValidUtf8;
    Ascii(RUN_ID);
  }

  lemma CaseCountName()
    ensures ValidUtf8(CASE_COUNT)
  {
    hide ValidUtf8;
    Ascii(CASE_COUNT);
  }

  lemma CorpusDigestName()
    ensures ValidUtf8(CORPUS_DIGEST)
  {
    hide ValidUtf8;
    Ascii(CORPUS_DIGEST);
  }

  lemma CodeName()
    ensures ValidUtf8(CODE)
  {
    hide ValidUtf8;
    Ascii(CODE);
  }

  lemma MessageName()
    ensures ValidUtf8(MESSAGE)
  {
    hide ValidUtf8;
    Ascii(MESSAGE);
  }

  lemma RetryableName()
    ensures ValidUtf8(RETRYABLE)
  {
    hide ValidUtf8;
    Ascii(RETRYABLE);
  }

  // ----- payloads

  lemma IntegerTextFits(v: int)
    ensures IntegerToken(IntegerText(v)) <==> -MAXIMUM_SAFE_INTEGER <= v <= MAXIMUM_SAFE_INTEGER
    ensures IntegerToken(IntegerText(v)) ==> IntOf(Number(IntegerText(v))) == Some(v)
  {
    if -MAXIMUM_SAFE_INTEGER <= v <= MAXIMUM_SAFE_INTEGER {
      ValueOfTextIsInteger(v);
    } else {
      var u := DigitsText(Magnitude(v));
      ValueOfText(Magnitude(v));
      assert IsDigit(u[0]) && Unsigned(IntegerText(v)) == u;
    }
  }

  lemma BoundaryNames()
    ensures ValidUtf8(RUN_ID) && ValidUtf8(CASE_COUNT) && ValidUtf8(CORPUS_DIGEST)
    ensures RUN_ID != CASE_COUNT && RUN_ID != CORPUS_DIGEST && CASE_COUNT != CORPUS_DIGEST
  {
    RunIdName();
    CaseCountName();
    CorpusDigestName();
    hide ValidUtf8;
    assert |RUN_ID| == 6 && |CASE_COUNT| == 10 && |CORPUS_DIGEST| == 13;
  }

  /** A boundary can be sent exactly when its texts are text and its count is in range; it arrives as it is. */
  lemma BoundaryTravels(w: Wire, b: Boundary)
    ensures Posted(w, BoundaryContent(b)).Some? <==>
            ValidUtf8(b.runID) && ValidUtf8(b.corpusDigest) && -MAXIMUM_SAFE_INTEGER <= b.caseCount <= MAXIMUM_SAFE_INTEGER
    ensures Posted(w, BoundaryContent(b)).Some? ==> ReadBoundary(Posted(w, BoundaryContent(b)).value) == Some(b)
  {
    BoundaryNames();
    IntegerTextFits(b.caseCount);
    hide ValidUtf8, IntegerToken, IntegerText, IntOf, RUN_ID, CASE_COUNT, CORPUS_DIGEST;
    var v := BoundaryJson(b);
    BoundaryIsCarried(b);
    if Payload(v).Some? {
      PayloadIsRead(v);
      BoundaryIsSpelled(b);
    }
  }

  lemma BoundaryIsCarried(b: Boundary)
    ensures Carried(BoundaryJson(b), 1) <==> ValidUtf8(b.runID) && ValidUtf8(b.corpusDigest) && IntegerToken(IntegerText(b.caseCount))
  {
    BoundaryNames();
    hide ValidUtf8, IntegerToken, IntegerText, RUN_ID, CASE_COUNT, CORPUS_DIGEST;
    var v := BoundaryJson(b);
    assert v.fields.Keys == {RUN_ID, CASE_COUNT, CORPUS_DIGEST};
    assert v.fields[RUN_ID] == String(b.runID) && v.fields[CORPUS_DIGEST] == String(b.corpusDigest);
    assert v.fields[CASE_COUNT] == Number(IntegerText(b.caseCount));
  }

  lemma BoundaryIsSpelled(b: Boundary)
    requires IntOf(Number(IntegerText(b.caseCount))) == Some(b.caseCount)
    ensures BoundaryOf(BoundaryJson(b)) == Some(b)
  {
    BoundaryNames();
    hide IntegerText, IntOf, RUN_ID, CASE_COUNT, CORPUS_DIGEST;
    var fields := BoundaryJson(b).fields;
    assert fields.Keys == {RUN_ID, CASE_COUNT, CORPUS_DIGEST};
  }

  lemma GreetingNames()
    ensures ValidUtf8(SUPPORTED) && ValidUtf8(POLICY) && ValidUtf8(SELECTED)
    ensures SUPPORTED != POLICY && SELECTED != POLICY
  {
    SupportedName();
    PolicyName();
    SelectedName();
    hide ValidUtf8;
    assert SUPPORTED[0] == 's' == SELECTED[0] && POLICY[0] == 'c';
  }

  lemma GreetingTravels(w: Wire, g: Greeting)
    requires ValidUtf8(g.canonicalPolicy) && forall i | 0 <= i < |g.supportedVersions| :: ValidUtf8(g.supportedVersions[i])
    ensures Posted(w, GreetingContent(g)).Some? && ReadGreeting(Posted(w, GreetingContent(g)).value) == Some(g)
  {
    GreetingNames();
    hide ValidUtf8, SUPPORTED, POLICY;
    var v := ContentJson(w, GreetingContent(g));
    TextsAreRead(g.supportedVersions);
    assert v.fields.Keys == {SUPPORTED, POLICY};
    assert Carried(v.fields[POLICY], 2);
    assert Carried(v, 1);
    PayloadIsRead(v);
    hide Payload, Strict, Carried;
    assert GreetingOf(v) == Some(g);
  }

  lemma TextsAreRead(texts: seq<Bytes>)
    requires forall i | 0 <= i < |texts| :: ValidUtf8(texts[i])
    ensures Carried(TextArray(texts), 2) && TextsOf(TextArray(texts)) == Some(texts)
  {
    hide ValidUtf8;
    var v := TextArray(texts);
    assert forall i | 0 <= i < |texts| :: v.items[i] == String(texts[i]) && TextOf(v.items[i]) == Some(texts[i]);
    assert TextsOf(v).value == texts;
  }

  lemma AcknowledgementTravels(w: Wire, a: Acknowledgement)
    requires ValidUtf8(a.selectedVersion) && ValidUtf8(a.canonicalPolicy)
    ensures Posted(w, AcknowledgementContent(a)).Some?
    ensures ReadAcknowledgement(Posted(w, AcknowledgementContent(a)).value) == Some(a)
  {
    GreetingNames();
    hide ValidUtf8, SELECTED, POLICY;
    var v := ContentJson(w, AcknowledgementContent(a));
    assert v.fields.Keys == {SELECTED, POLICY};
    assert Carried(v.fields[POLICY], 2) && Carried(v.fields[SELECTED], 2);
    assert Carried(v, 1);
    PayloadIsRead(v);
    hide Payload, Strict, Carried;
    assert AcknowledgementOf(v) == Some(a);
  }

  lemma EmptyTravels(w: Wire)
    ensures Posted(w, EmptyContent).Some? && Posted(w, EmptyContent).value != ""
  {
    PayloadIsRead(Object(map[]));
  }

  lemma ErrorTravels(w: Wire, code: Bytes, message: Bytes)
    requires ValidUtf8(code) && ValidUtf8(message)
    ensures Posted(w, ErrorContent(code, message)).Some? && Posted(w, ErrorContent(code, message)).value != ""
  {
    ErrorNames();
    hide ValidUtf8, CODE, MESSAGE, RETRYABLE;
    var v := ContentJson(w, ErrorContent(code, message));
    assert v.fields.Keys == {CODE, MESSAGE, RETRYABLE};
    assert Carried(v.fields[CODE], 2) && Carried(v.fields[MESSAGE], 2) && Carried(v.fields[RETRYABLE], 2);
    assert Carried(v, 1);
    PayloadIsRead(v);
  }

  lemma ErrorNames()
    ensures ValidUtf8(CODE) && ValidUtf8(MESSAGE) && ValidUtf8(RETRYABLE)
    ensures CODE != MESSAGE && CODE != RETRYABLE && MESSAGE != RETRYABLE
  {
    CodeName();
    MessageName();
    RetryableName();
    hide ValidUtf8;
    assert |CODE| == 4 && |MESSAGE| == 7 && |RETRYABLE| == 9;
  }

  // ----- messages

  function TypeText(t: MessageType): Bytes {
    match t
    case Hello => "hello"
    case HelloAck => "hello_ack"
    case Describe => "describe"
    case DescriptorReply => "descriptor"
    case BeginRun => "begin_run"
    case RunStarted => "run_started"
    case Evaluate => "evaluate"
    case EvaluationResult => "evaluation_result"
    case Cancel => "cancel"
    case Cancelled => "cancelled"
    case EndRun => "end_run"
    case RunResult => "run_result"
    case Failure => "error"
    case OtherType(text) => text
  }

  const TYPES: seq<MessageType> :=
    [Hello, HelloAck, Describe, DescriptorReply, BeginRun, RunStarted, Evaluate, EvaluationResult,
     Cancel, Cancelled, EndRun, RunResult, Failure]

  function TypeAmong(text: Bytes, n: nat): MessageType
    requires n <= |TYPES|
  {
    if n == 0 then OtherType(text)
    else if TypeText(TYPES[n - 1]) == text then TYPES[n - 1]
    else TypeAmong(text, n - 1)
  }

  function TypeOf(text: Bytes): MessageType {
    TypeAmong(text, |TYPES|)
  }

  const SCHEMA_VERSION := "schema_version"
  const PROTOCOL_VERSION := "protocol_version"
  const MESSAGE_TYPE := "message_type"
  const MESSAGE_ID := "message_id"
  const REPLY_TO := "reply_to"
  const PAYLOAD := "payload"

  lemma SchemaVersionName()
    ensures ValidUtf8(SCHEMA_VERSION)
  {
    hide ValidUtf8;
    Ascii(SCHEMA_VERSION);
  }

  lemma ProtocolVersionName()
    ensures ValidUtf8(PROTOCOL_VERSION)
  {
    hide ValidUtf8;
    Ascii(PROTOCOL_VERSION);
  }

  lemma MessageTypeName()
    ensures ValidUtf8(MESSAGE_TYPE)
  {
    hide ValidUtf8;
    Ascii(MESSAGE_TYPE);
  }

  lemma MessageIdName()
    ensures ValidUtf8(MESSAGE_ID)
  {
    hide ValidUtf8;
    Ascii(MESSAGE_ID);
  }

  lemma ReplyToName()
    ensures ValidUtf8(REPLY_TO)
  {
    hide ValidUtf8;
    Ascii(REPLY_TO);
  }

  lemma PayloadName()
    ensures ValidUtf8(PAYLOAD)
  {
    hide ValidUtf8;
    Ascii(PAYLOAD);
  }

  lemma MessageNames()
    ensures ValidUtf8(SCHEMA_VERSION) && ValidUtf8(PROTOCOL_VERSION) && ValidUtf8(MESSAGE_TYPE) && ValidUtf8(MESSAGE_ID)
    ensures ValidUtf8(REPLY_TO) && ValidUtf8(RUN_ID) && ValidUtf8(PAYLOAD)
    ensures |SCHEMA_VERSION| == 14 && |PROTOCOL_VERSION| == 16 && |MESSAGE_TYPE| == 12 && |MESSAGE_ID| == 10
    ensures |REPLY_TO| == 8 && |RUN_ID| == 6 && |PAYLOAD| == 7
  {
    SchemaVersionName();
    ProtocolVersionName();
    MessageTypeName();
    MessageIdName();
    ReplyToName();
    RunIdName();
    PayloadName();
    hide ValidUtf8;
  }

  /** The members of a message; empty correlation and run are left out. */
  function MessageFields(m: Message, v: Json): map<Bytes, Json> {
    var always := map[
      SCHEMA_VERSION := String(m.schemaVersion), PROTOCOL_VERSION := String(m.protocolVersion),
      MESSAGE_TYPE := String(TypeText(m.messageType)), MESSAGE_ID := String(m.messageID), PAYLOAD := v];
    var replying := if m.replyTo == "" then always else always[REPLY_TO := String(m.replyTo)];
    if m.runID == "" then replying else replying[RUN_ID := String(m.runID)]
  }

  /** The line a message is written to, if its payload fits. */
  ghost function WriteMessage(m: Message): Option<Bytes> {
    var v :- Strict(m.payload);
    var whole := Object(MessageFields(m, v));
    if Carried(whole, 0) then Some(Print(whole)) else None
  }

  /** The message on a canonical line; its payload is the text of that member. */
  ghost function MessageOf(v: Json): Option<Message> {
    match v
    case Null => Some(Message("", "", TypeOf(""), "", "", "", ""))
    case Object(fields) =>
      if !(fields.Keys <= {SCHEMA_VERSION, PROTOCOL_VERSION, MESSAGE_TYPE, MESSAGE_ID, REPLY_TO, RUN_ID, PAYLOAD}) then None
      else
        var schema :- TextOf(Field(fields, SCHEMA_VERSION));
        var version :- TextOf(Field(fields, PROTOCOL_VERSION));
        var kind :- TextOf(Field(fields, MESSAGE_TYPE));
        var id :- TextOf(Field(fields, MESSAGE_ID));
        var replyTo :- TextOf(Field(fields, REPLY_TO));
        var runID :- TextOf(Field(fields, RUN_ID));
        Some(Message(schema, version, TypeOf(kind), id, replyTo, runID, if PAYLOAD in fields then Print(fields[PAYLOAD]) else ""))
    case _ => None
  }

  ghost function ReadMessage(line: Bytes): Option<Message> {
    var v :- Strict(line);
    MessageOf(v)
  }

  /** A reader takes a line with its newline into a buffer that grows to its limit but starts at this size. */
  const FIRST_BUFFER := 65536

  predicate Fits(line: Bytes, limit: int) {
    |line| < if limit < FIRST_BUFFER then FIRST_BUFFER else limit
  }

  /** The message is sent, on a line the other side can take. */
  ghost predicate Passes(m: Message, limit: int) {
    WriteMessage(m).Some? && Fits(WriteMessage(m).value, limit)
  }

  /** What the other side, reading lines up to a limit, makes of a message that is sent. */
  ghost function LineOf(m: Message, limit: int): Line {
    var line := WriteMessage(m);
    var read := if line.Some? then ReadMessage(line.value) else None;
    if line.Some? && !Fits(line.value, limit) then TooLong
    else if read.Some? then Decoded(read.value)
    else Undecodable
  }

  /** The texts of a message are text, and its type is one of the protocol. */
  predicate Plain(m: Message) {
    && ValidUtf8(m.schemaVersion) && ValidUtf8(m.protocolVersion) && ValidUtf8(m.messageID)
    && ValidUtf8(m.replyTo) && ValidUtf8(m.runID) && !m.messageType.OtherType?
  }

  lemma {:induction false} TypeIsRead(t: MessageType)
    requires !t.OtherType?
    ensures TypeOf(TypeText(t)) == t
  {
    TypesDiffer();
    hide TypeText;
    assert t in TYPES by { AllTypes(t); }
    var i :| 0 <= i < |TYPES| && TYPES[i] == t;
    TypeFound(i, |TYPES|);
  }

  lemma AllTypes(t: MessageType)
    requires !t.OtherType?
    ensures t in TYPES
  {
    assert TYPES[0] == Hello && TYPES[1] == HelloAck && TYPES[2] == Describe && TYPES[3] == DescriptorReply;
    assert TYPES[4] == BeginRun && TYPES[5] == RunStarted && TYPES[6] == Evaluate && TYPES[7] == EvaluationResult;
    assert TYPES[8] == Cancel && TYPES[9] == Cancelled && TYPES[10] == EndRun && TYPES[11] == RunResult && TYPES[12] == Failure;
  }

  lemma {:induction false} TypeFound(i: nat, n: nat)
    requires i < n <= |TYPES| && forall j | i < j < n :: TypeText(TYPES[j]) != TypeText(TYPES[i])
    ensures TypeAmong(TypeText(TYPES[i]), n) == TYPES[i]
  {
    hide TypeText, TYPES;
    if i < n - 1 {
      TypeFound(i, n - 1);
    }
  }

  /** No two types are spelled alike. */
  lemma TypesDiffer()
    ensures forall i, j | 0 <= i < j < |TYPES| :: TypeText(TYPES[i]) != TypeText(TYPES[j])
  {
    forall i, j | 0 <= i < j < |TYPES| ensures TypeText(TYPES[i]) != TypeText(TYPES[j]) {
      TypesDifferAt(i, j);
    }
  }

  lemma TypesDifferAt(i: nat, j: nat)
    requires i < j < |TYPES|
    ensures TypeText(TYPES[i]) != TypeText(TYPES[j])
  {
    var a, b := TypeText(TYPES[i]), TypeText(TYPES[j]);
    assert |a| == [5, 9, 8, 10, 9, 11, 8, 17, 6, 9, 7, 10, 5][i];
    assert |b| == [5, 9, 8, 10, 9, 11, 8, 17, 6, 9, 7, 10, 5][j];
    assert a[0] == ['h', 'h', 'd', 'd', 'b', 'r', 'e', 'e', 'c', 'c', 'e', 'r', 'e'][i];
    assert b[0] == ['h', 'h', 'd', 'd', 'b', 'r', 'e', 'e', 'c', 'c', 'e', 'r', 'e'][j];
  }

  lemma MessageIsCarried(m: Message, v: Json)
    requires Plain(m)
    ensures Carried(Object(MessageFields(m, v)), 0) <==> Carried(v, 1)
  {
    hide ValidUtf8, TypeText, SCHEMA_VERSION, PROTOCOL_VERSION, MESSAGE_TYPE, MESSAGE_ID, REPLY_TO, RUN_ID, PAYLOAD;
    MessageNames();
    TypeTextIsValid(m.messageType);
    var fields := MessageFields(m, v);
    assert fields[PAYLOAD] == v;
    forall k | k in fields && k != PAYLOAD ensures ValidUtf8(k) && Carried(fields[k], 1) {
      assert fields[k].String?;
    }
  }

  lemma TypeTextIsValid(t: MessageType)
    requires !t.OtherType?
    ensures ValidUtf8(TypeText(t))
  {
    hide ValidUtf8;
    Ascii(TypeText(t));
  }

  lemma MessageIsSpelled(m: Message, v: Json)
    requires Plain(m)
    ensures MessageOf(Object(MessageFields(m, v))) == Some(m.(payload := Print(v)))
  {
    hide ValidUtf8, TypeText, TypeOf, Print, SCHEMA_VERSION, PROTOCOL_VERSION, MESSAGE_TYPE, MESSAGE_ID, REPLY_TO, RUN_ID, PAYLOAD;
    MessageNames();
    TypeIsRead(m.messageType);
    var fields := MessageFields(m, v);
    assert TextOf(Field(fields, REPLY_TO)) == Some(m.replyTo);
    assert TextOf(Field(fields, RUN_ID)) == Some(m.runID);
  }

  /** A message can be written exactly when its payload can be embedded, and then it arrives with the payload in canonical form. */
  lemma MessageArrives(m: Message, limit: int)
    requires Plain(m)
    ensures WriteMessage(m).Some? <==> Embedded(m.payload).Some?
    ensures WriteMessage(m).Some? ==>
              LineOf(m, limit) == if Passes(m, limit) then Decoded(m.(payload := Embedded(m.payload).value)) else TooLong
  {
    hide Fits;
    if Strict(m.payload).Some? {
      var v := Strict(m.payload).value;
      MessageIsCarried(m, v);
      if Carried(v, 1) {
        MessageIsSpelled(m, v);
        PrintedFormReadsBack(Object(MessageFields(m, v)));
      }
      hide MessageFields, MessageOf, Strict, Plain, Carried, Print;
    }
  }

  /** A message whose payload is canonical arrives as it is, on a line that is not too long. */
  lemma CanonicalMessageArrives(m: Message, limit: int)
    requires Plain(m) && Embedded(m.payload) == Some(m.payload)
    ensures WriteMessage(m).Some? && LineOf(m, limit) == if Passes(m, limit) then Decoded(m) else TooLong
  {
    MessageArrives(m, limit);
    hide Plain, Embedded, WriteMessage, ReadMessage, Fits;
  }

  /** A message that is written holds no line break before the one that ends it. */
  lemma MessageIsOneLine(m: Message)
    requires WriteMessage(m).Some?
    ensures '\n' !in WriteMessage(m).value
  {
    CanonicalIsOneLine(Object(MessageFields(m, Strict(m.payload).value)), 0);
  }

  // ----- the lines of the control messages

  /** The texts of a message other than its payload are short. */
  predicate Terse(m: Message) {
    |m.schemaVersion| <= 100 && |m.protocolVersion| <= 100 && |m.messageID| <= 100 && |m.replyTo| <= 100 && |m.runID| <= 100
  }

  lemma TypeTextIsShort(t: MessageType)
    requires !t.OtherType?
    ensures |TypeText(t)| <= 100
  {
  }

  lemma StringLength(s: Bytes)
    ensures |Print(String(s))| <= 6 * |s| + 2
  {
    EncodedLength(s);
  }

  /** A message with short texts and a payload of at most 5000 bytes fits on every line. */
  lemma TersePasses(m: Message, v: Json, limit: int)
    requires Plain(m) && Terse(m) && Payload(v) == Some(m.payload) && |m.payload| <= 5000
    ensures Passes(m, limit)
  {
    PayloadIsRead(v);
    CanonicalMessageArrives(m, limit);
    MessageLength(m, v);
    hide Print, MessageFields, Plain, Strict, Carried;
  }

  lemma MessageLength(m: Message, v: Json)
    requires Plain(m) && Terse(m) && |Print(v)| <= 5000
    ensures |Print(Object(MessageFields(m, v)))| < FIRST_BUFFER
  {
    hide ValidUtf8, TypeText, Print, SCHEMA_VERSION, PROTOCOL_VERSION, MESSAGE_TYPE, MESSAGE_ID, REPLY_TO, RUN_ID, PAYLOAD;
    MessageNames();
    TypeTextIsShort(m.messageType);
    var fields := MessageFields(m, v);
    assert fields.Keys <= {SCHEMA_VERSION, PROTOCOL_VERSION, MESSAGE_TYPE, MESSAGE_ID, REPLY_TO, RUN_ID, PAYLOAD};
    SevenAtMost(fields.Keys, {SCHEMA_VERSION, PROTOCOL_VERSION, MESSAGE_TYPE, MESSAGE_ID, REPLY_TO, RUN_ID, PAYLOAD});
    forall k | k in fields ensures 6 * |k| + |Print(fields[k])| + 4 <= 6000 {
      if k != PAYLOAD {
        assert fields[k].String? && |fields[k].s| <= 100;
        StringLength(fields[k].s);
      }
    }
    ObjectLength(Object(fields), 6000);
  }

  lemma GreetingIsShort(w: Wire)
    ensures |Print(ContentJson(w, GreetingContent(Greeting(SUPPORTED_VERSIONS, CANONICAL_POLICY))))| <= 5000
  {
    assert |SUPPORTED| <= 20 && |POLICY| <= 20 && |CANONICAL_POLICY| <= 100;
    hide Print, SUPPORTED, POLICY, CURRENT_VERSION, PREVIOUS_MINOR_VERSION;
    VersionsAreShort();
    StringLength(CANONICAL_POLICY);
    var v := ContentJson(w, GreetingContent(Greeting(SUPPORTED_VERSIONS, CANONICAL_POLICY)));
    assert v.fields.Keys == {SUPPORTED, POLICY};
    SevenAtMost(v.fields.Keys, v.fields.Keys);
    ObjectLength(v, 700);
  }

  lemma VersionsAreShort()
    ensures |Print(TextArray(SUPPORTED_VERSIONS))| <= 500
  {
    var items := TextArray(SUPPORTED_VERSIONS).items;
    StringLength(CURRENT_VERSION);
    StringLength(PREVIOUS_MINOR_VERSION);
    hide Print;
    assert |CURRENT_VERSION| == 5 && |PREVIOUS_MINOR_VERSION| == 5;
    ItemsLength(items, true, 100);
    assert |items| == 2;
    ArrayIsItems(items);
  }

  lemma ArrayIsItems(items: seq<Json>)
    ensures Print(Array(items)) == ['['] + PrintItems(items, true)
  {
  }

  lemma AcknowledgementIsShort(w: Wire, a: Acknowledgement)
    requires |a.selectedVersion| <= 100 && |a.canonicalPolicy| <= 100
    ensures |Print(ContentJson(w, AcknowledgementContent(a)))| <= 5000
  {
    assert |SELECTED| <= 20 && |POLICY| <= 20;
    hide Print, SELECTED, POLICY;
    StringLength(a.selectedVersion);
    StringLength(a.canonicalPolicy);
    var v := ContentJson(w, AcknowledgementContent(a));
    assert v.fields.Keys == {SELECTED, POLICY};
    SevenAtMost(v.fields.Keys, v.fields.Keys);
    ObjectLength(v, 800);
  }

  lemma BoundaryNamesAreShort()
    ensures |RUN_ID| <= 20 && |CASE_COUNT| <= 20 && |CORPUS_DIGEST| <= 20
  {
  }

  lemma BoundaryIsShort(b: Boundary)
    requires |b.runID| <= 100 && |b.corpusDigest| <= 100 && 0 <= b.caseCount < 1000000
    ensures |Print(BoundaryJson(b))| <= 5000
  {
    hide Print, IntegerText, RUN_ID, CASE_COUNT, CORPUS_DIGEST;
    BoundaryNamesAreShort();
    StringLength(b.runID);
    StringLength(b.corpusDigest);
    NumberLength(b.caseCount);
    var v := BoundaryJson(b);
    assert v.fields.Keys == {RUN_ID, CASE_COUNT, CORPUS_DIGEST};
    SevenAtMost(v.fields.Keys, v.fields.Keys);
    ObjectLength(v, 800);
  }

  lemma NumberLength(n: nat)
    requires n < 1000000
    ensures |Print(Number(IntegerText(n)))| <= 6
  {
    DigitsLength(n, 6);
  }

  lemma SevenAtMost(s: set<Bytes>, t: set<Bytes>)
    requires s <= t && |t| <= 7
    ensures |s| <= 7
  {
    assert t == s + (t - s);
  }
}
