/**
 What travels between host and adapter: messages as canonical JSON, one to a line, with payloads
 that are JSON values of their own. A value in a message stands one level deeper than alone, and
 whatever is written is written canonically, so both bound what can be sent.
 */
module AdapterWire {
  import opened Basics
  import opened CanonicalNumbers
  import opened JsonGrammar
  import opened JsonParser
  import opened CanonicalJson
  import opened CanonicalCodec
  import Mutation
  import opened ProtocolModel

  datatype MessageType =
    | Hello | HelloAck | Describe | DescriptorReply | BeginRun | RunStarted | Evaluate | EvaluationResult
    | Cancel | Cancelled | EndRun | RunResult | Failure | OtherType(text: Bytes)

  datatype Message = Message(
    schemaVersion: Bytes, protocolVersion: Bytes, messageType: MessageType, messageID: Bytes, replyTo: Bytes,
    runID: Bytes, payload: Bytes)

  /** One line of input: what strict decoding makes of it, unless it is too long to be read. */
  datatype Line = TooLong | Undecodable | Decoded(message: Message)

  datatype Greeting = Greeting(supportedVersions: seq<Bytes>, canonicalPolicy: Bytes)

  datatype Acknowledgement = Acknowledgement(selectedVersion: Bytes, canonicalPolicy: Bytes)

  datatype Boundary = Boundary(runID: Bytes, caseCount: int, corpusDigest: Bytes)

  /** What a payload is written from. */
  datatype Content =
    | GreetingContent(greeting: Greeting)
    | AcknowledgementContent(acknowledgement: Acknowledgement)
    | EmptyContent
    | DescriptorContent(descriptor: Descriptor)
    | BoundaryContent(boundary: Boundary)
    | ResultContent(result: InvocationResult)
    | ErrorContent(code: Bytes, message: Bytes)

  /** How descriptors and results are spelled as JSON, and what their shape is read as. */
  datatype Wire = Wire(
    descriptorJson: Descriptor -> Json, resultJson: InvocationResult -> Json,
    descriptorOf: Json -> Option<Descriptor>, resultOf: Json -> Option<InvocationResult>)

  // ----- strict decoding

  /** The value of a text that canonicalizes. */
  ghost function Strict(raw: Bytes): Option<Json> {
    if Canonicalize(raw).Some? then ParseText(raw) else None
  }

  method DecodeStrict(raw: Bytes) returns (v: Option<Json>)
    ensures v == Strict(raw)
  {
    hide Canonicalize;
    var canonical := CanonicalizeJSON(raw);
    v := if canonical.Some? then ParseText(raw) else None;
  }

  function Field(fields: map<Bytes, Json>, name: Bytes): Json {
    if name in fields then fields[name] else Null
  }

  /** A text field; null leaves it empty. */
  function TextOf(v: Json): Option<Bytes> {
    match v
    case String(s) => Some(s)
    case Null => Some("")
    case _ => None
  }

  function IntOf(v: Json): Option<int> {
    match v
    case Number(t) => if IntegerToken(t) then Some(IntegerValue(t)) else None
    case Null => Some(0)
    case _ => None
  }

  function TextsOf(v: Json): Option<seq<Bytes>> {
    match v
    case Array(items) =>
      if forall i | 0 <= i < |items| :: TextOf(items[i]).Some?
      then Some(seq(|items|, i requires 0 <= i < |items| && TextOf(items[i]).Some? => TextOf(items[i]).value))
      else None
    case Null => Some([])
    case _ => None
  }

  // ----- payloads

  const SUPPORTED := "supported_versions"
  const POLICY := "canonical_policy"
  const SELECTED := "selected_version"
  const RUN_ID := "run_id"
  const CASE_COUNT := "case_count"
  const CORPUS_DIGEST := "corpus_digest"
  const CODE := "code"
  const MESSAGE := "message"
  const RETRYABLE := "retryable"

  /** A payload of null leaves everything at its zero value. */
  function GreetingOf(v: Json): Option<Greeting> {
    match v
    case Null => Some(Greeting([], ""))
    case Object(fields) =>
      if !(fields.Keys <= {SUPPORTED, POLICY}) then None
      else
        var versions :- TextsOf(Field(fields, SUPPORTED));
        var policy :- TextOf(Field(fields, POLICY));
        Some(Greeting(versions, policy))
    case _ => None
  }

  function AcknowledgementOf(v: Json): Option<Acknowledgement> {
    match v
    case Null => Some(Acknowledgement("", ""))
    case Object(fields) =>
      if !(fields.Keys <= {SELECTED, POLICY}) then None
      else
        var version :- TextOf(Field(fields, SELECTED));
        var policy :- TextOf(Field(fields, POLICY));
        Some(Acknowledgement(version, policy))
    case _ => None
  }

  function BoundaryOf(v: Json): Option<Boundary> {
    match v
    case Null => Some(Boundary("", 0, ""))
    case Object(fields) =>
      if !(fields.Keys <= {RUN_ID, CASE_COUNT, CORPUS_DIGEST}) then None
      else
        var runID :- TextOf(Field(fields, RUN_ID));
        var count :- IntOf(Field(fields, CASE_COUNT));
        var digest :- TextOf(Field(fields, CORPUS_DIGEST));
        Some(Boundary(runID, count, digest))
    case _ => None
  }

  function TextArray(texts: seq<Bytes>): Json {
    Array(seq(|texts|, i requires 0 <= i < |texts| => String(texts[i])))
  }

  function BoundaryJson(b: Boundary): Json {
    Object(map[RUN_ID := String(b.runID), CASE_COUNT := Number(IntegerText(b.caseCount)), CORPUS_DIGEST := String(b.corpusDigest)])
  }

  function ContentJson(w: Wire, content: Content): Json {
    match content
    case GreetingContent(g) => Object(map[SUPPORTED := TextArray(g.supportedVersions), POLICY := String(g.canonicalPolicy)])
    case AcknowledgementContent(a) => Object(map[SELECTED := String(a.selectedVersion), POLICY := String(a.canonicalPolicy)])
    case EmptyContent => Object(map[])
    case DescriptorContent(d) => w.descriptorJson(d)
    case BoundaryContent(b) => BoundaryJson(b)
    case ResultContent(r) => w.resultJson(r)
    case ErrorContent(code, message) =>
      Object(map[CODE := String(code), MESSAGE := String(message), RETRYABLE := Bool(false)])
  }

  ghost function ReadGreeting(payload: Bytes): Option<Greeting> {
    var v :- Strict(payload);
    GreetingOf(v)
  }

  ghost function ReadAcknowledgement(payload: Bytes): Option<Acknowledgement> {
    var v :- Strict(payload);
    AcknowledgementOf(v)
  }

  ghost function ReadBoundary(payload: Bytes): Option<Boundary> {
    var v :- Strict(payload);
    BoundaryOf(v)
  }

  ghost function ReadDescriptor(w: Wire, payload: Bytes): Option<Descriptor> {
    var v :- Strict(payload);
    w.descriptorOf(v)
  }

  ghost function ReadResult(w: Wire, payload: Bytes): Option<InvocationResult> {
    var v :- Strict(payload);
    w.resultOf(v)
  }

  method DecodeAcknowledgement(payload: Bytes) returns (a: Option<Acknowledgement>)
    ensures a == ReadAcknowledgement(payload)
  {
    hide Strict;
    var v := DecodeStrict(payload);
    a := if v.None? then None else AcknowledgementOf(v.value);
  }

  method DecodeBoundary(payload: Bytes) returns (b: Option<Boundary>)
    ensures b == ReadBoundary(payload)
  {
    hide Strict;
    var v := DecodeStrict(payload);
    b := if v.None? then None else BoundaryOf(v.value);
  }

  method DecodeDescriptor(w: Wire, payload: Bytes) returns (d: Option<Descriptor>)
    ensures d == ReadDescriptor(w, payload)
  {
    hide Strict;
    var v := DecodeStrict(payload);
    d := if v.None? then None else w.descriptorOf(v.value);
  }

  method DecodeResult(w: Wire, payload: Bytes) returns (r: Option<InvocationResult>)
    ensures r == ReadResult(w, payload)
  {
    hide Strict;
    var v := DecodeStrict(payload);
    r := if v.None? then None else w.resultOf(v.value);
  }

  // ----- what can be sent

  /** The text of a value inside a message; a value that does not fit there is not sent. */
  ghost function Payload(v: Json): Option<Bytes> {
    if Carried(v, 1) then Some(Print(v)) else None
  }

  /** How raw bytes given as a payload arrive: canonically, if they fit. */
  ghost function Embedded(raw: Bytes): Option<Bytes> {
    var v :- Strict(raw);
    Payload(v)
  }

  ghost function Posted(w: Wire, content: Content): Option<Bytes> {
    Payload(ContentJson(w, content))
  }

  method WritePayload(v: Json) returns (payload: Option<Bytes>)
    ensures payload == Payload(v)
  {
    if !Carried(v, 1) {
      return None;
    }
    var output := new Buffer();
    WriteCanonicalValue(output, v);
    assert "" + Print(v) == Print(v);
    payload := Some(output.bytes);
  }

  method EmbedRaw(raw: Bytes) returns (payload: Option<Bytes>)
    ensures payload == Embedded(raw)
  {
    hide Strict, Payload;
    var v := DecodeStrict(raw);
    if v.None? {
      return None;
    }
    payload := WritePayload(v.value);
  }

  /** What can stand deeper can stand higher. */
  lemma {:induction false} CarriedHigher(v: Json, depth: nat)
    requires Carried(v, depth + 1)
    ensures Carried(v, depth)
  {
    match v
    case Array(items) =>
      forall i | 0 <= i < |items| ensures Carried(items[i], depth + 1) {
        CarriedHigher(items[i], depth + 1);
      }
    case Object(fields) =>
      forall k | k in fields ensures Carried(fields[k], depth + 1) {
        CarriedHigher(fields[k], depth + 1);
      }
    case _ =>
  }

  lemma PrintIsNotEmpty(v: Json)
    requires Carried(v, 0)
    ensures Print(v) != ""
  {
  }

  /** A payload reads back as the value it was written from, and is its own canonical form. */
  lemma PayloadIsRead(v: Json)
    requires Payload(v).Some?
    ensures Payload(v).value != ""
    ensures Strict(Payload(v).value) == Some(v) && Canonicalize(Payload(v).value) == Some(Payload(v).value)
    ensures Embedded(Payload(v).value) == Payload(v)
  {
    CarriedHigher(v, 0);
    PrintedFormReadsBack(v);
    PrintIsNotEmpty(v);
  }

  /** Canonical bytes arrive unchanged, exactly when their value fits one level deeper. */
  lemma CanonicalBytesArrive(raw: Bytes)
    requires Canonicalize(raw) == Some(raw)
    ensures ParseText(raw).Some?
    ensures Embedded(raw) == if Carried(ParseText(raw).value, 1) then Some(raw) else None
  {
    Mutation.AcceptedIsCarried(raw);
  }

  function Nested(n: nat): Json {
    if n == 0 then Null else Array([Nested(n - 1)])
  }

  lemma {:induction false} NestedFits(n: nat, depth: nat)
    ensures Carried(Nested(n), depth) <==> depth + n <= MAXIMUM_DEPTH
  {
    if n > 0 {
      NestedFits(n - 1, depth + 1);
      assert Nested(n).items == [Nested(n - 1)] && Nested(n).items[0] == Nested(n - 1);
    }
  }

  /** The depth condition is needed: a canonical text nested as deep as a text may be cannot be sent. */
  lemma DeepestTextCannotBeSent()
    ensures var raw := Print(Nested(MAXIMUM_DEPTH));
            Canonicalize(raw) == Some(raw) && Embedded(raw).None?
  {
    NestedFits(MAXIMUM_DEPTH, 0);
    NestedFits(MAXIMUM_DEPTH, 1);
    PrintedFormReadsBack(Nested(MAXIMUM_DEPTH));
    hide Nested, Print, Carried;
  }
}
