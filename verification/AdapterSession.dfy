/**
 The adapter side of a session: a loop over incoming lines with five states, one reply for each
 message it accepts, one error reply and the end for the first it refuses. The evaluator may crash,
 and a reply may be impossible to write.
 */
module AdapterSession {
  import opened Basics
  import opened Texts
  import opened ProtocolModel
  import opened AdapterWire
  import ReferenceAdapter

  /** What the adapter brings to a session; an evaluation without a result is a crash. */
  datatype Adapter = Adapter(descriptor: Descriptor, checks: Checks, evaluate: Bytes -> Option<InvocationResult>)

  // ----- single checks

  function Negotiated(candidates: seq<Bytes>, host: seq<Bytes>, adapter: seq<Bytes>): Bytes {
    if candidates == [] then ""
    else if candidates[0] in host && candidates[0] in adapter then candidates[0]
    else Negotiated(candidates[1..], host, adapter)
  }

  function Versions(d: Descriptor): seq<Bytes> {
    if d.protocolVersions.Some? then d.protocolVersions.value else []
  }

  function NegotiateVersion(host: seq<Bytes>, adapter: seq<Bytes>): Bytes {
    Negotiated(SUPPORTED_VERSIONS, host, adapter)
  }

  /** Negotiation picks the first supported version both sides list, and nothing when there is none. */
  lemma NegotiationPicksFirst(host: seq<Bytes>, adapter: seq<Bytes>)
    ensures var v := NegotiateVersion(host, adapter);
            && (v == CURRENT_VERSION <==> CURRENT_VERSION in host && CURRENT_VERSION in adapter)
            && (v == PREVIOUS_MINOR_VERSION <==>
                  PREVIOUS_MINOR_VERSION in host && PREVIOUS_MINOR_VERSION in adapter
                  && !(CURRENT_VERSION in host && CURRENT_VERSION in adapter))
            && (v == "" || SupportedVersion(v))
  {
    var rest := [PREVIOUS_MINOR_VERSION];
    assert SUPPORTED_VERSIONS == [CURRENT_VERSION, PREVIOUS_MINOR_VERSION] && SUPPORTED_VERSIONS[1..] == rest && rest[1..] == [];
    assert CURRENT_VERSION[2] == '2' && PREVIOUS_MINOR_VERSION[2] == '1';
    assert Negotiated(rest, host, adapter) ==
           if PREVIOUS_MINOR_VERSION in host && PREVIOUS_MINOR_VERSION in adapter then PREVIOUS_MINOR_VERSION else "";
  }

  predicate ValidMessage(m: Message, selectedVersion: Bytes) {
    && m.schemaVersion == MESSAGE_SCHEMA && m.messageID != "" && m.payload != ""
    && if m.messageType == Hello then SupportedVersion(m.protocolVersion)
       else selectedVersion != "" && m.protocolVersion == selectedVersion
  }

  function Reply(request: Message, version: Bytes, messageType: MessageType, payload: Bytes): Message {
    Message(MESSAGE_SCHEMA, version, messageType, "reply." + request.messageID, request.messageID, request.runID, payload)
  }

  /** The reply to a request, if its content can be written. */
  ghost function WrittenReply(w: Wire, request: Message, version: Bytes, messageType: MessageType, content: Content): Option<Message> {
    var payload :- Posted(w, content);
    Some(Reply(request, version, messageType, payload))
  }

  const REFUSED_TEXT := "message refused"

  ghost function ErrorReply(w: Wire, request: Message, version: Bytes, code: Bytes): Option<Message> {
    WrittenReply(w, request, if version == "" then CURRENT_VERSION else version, Failure, ErrorContent(code, REFUSED_TEXT))
  }

  // ----- the conversations that are accepted, place by place

  ghost function Selection(a: Adapter, hello: Message): Bytes {
    var g := ReadGreeting(hello.payload);
    if g.None? then "" else NegotiateVersion(g.value.supportedVersions, Versions(a.descriptor))
  }

  ghost predicate GoodGreeting(a: Adapter, m: Message) {
    && m.messageType == Hello && ValidMessage(m, "")
    && Selection(a, m) != "" && ReadGreeting(m.payload).value.canonicalPolicy == CANONICAL_POLICY
  }

  ghost predicate GoodBegin(a: Adapter, m: Message) {
    && m.messageType == BeginRun && ReadBoundary(m.payload).Some?
    && var b := ReadBoundary(m.payload).value;
       b.runID != "" && 0 <= b.caseCount <= a.descriptor.limits.maxCasesPerRun && ValidDigest(b.corpusDigest)
  }

  ghost predicate GoodEnd(m: Message, evaluated: nat) {
    m.messageType == EndRun && ReadBoundary(m.payload).Some? && ReadBoundary(m.payload).value.caseCount == evaluated
  }

  /** How many of the first `n` messages ask for an evaluation. */
  function Evaluations(ms: seq<Message>, n: nat): nat
    requires n <= |ms|
  {
    if n == 0 then 0 else Evaluations(ms, n - 1) + if ms[n - 1].messageType == Evaluate then 1 else 0
  }

  /** The message at place `k` continues an accepted conversation. */
  ghost predicate Continues(a: Adapter, ms: seq<Message>, k: nat)
    requires k < |ms|
  {
    if k == 0 then GoodGreeting(a, ms[0])
    else
      && ms[k].messageType != Hello && ValidMessage(ms[k], Selection(a, ms[0]))
      && if k == 1 then ms[k].messageType == Describe
         else if k == 2 then GoodBegin(a, ms[k])
         else
           && ms[k - 1].messageType != EndRun
           && (ms[k].messageType == Evaluate || ms[k].messageType == Cancel || GoodEnd(ms[k], Evaluations(ms, k)))
  }

  ghost predicate Conforms(a: Adapter, ms: seq<Message>, n: nat)
    requires n <= |ms|
  {
    forall k | 0 <= k < n :: Continues(a, ms, k)
  }

  /**
   The whole conversation: hello, describe, begin_run, any number of evaluate and cancel, end_run,
   all in the negotiated version, and the end count is the number of evaluates.
   */
  ghost predicate Conversation(a: Adapter, ms: seq<Message>) {
    && |ms| >= 4
    && GoodGreeting(a, ms[0])
    && (forall k | 1 <= k < |ms| :: ms[k].messageType != Hello && ValidMessage(ms[k], Selection(a, ms[0])))
    && ms[1].messageType == Describe
    && GoodBegin(a, ms[2])
    && (forall k | 3 <= k < |ms| - 1 :: ms[k].messageType == Evaluate || ms[k].messageType == Cancel)
    && GoodEnd(ms[|ms| - 1], Evaluations(ms, |ms| - 1))
  }

  /** A conversation is an accepted sequence of messages that ends with end_run. */
  lemma ConversationIsConforming(a: Adapter, ms: seq<Message>)
    ensures Conversation(a, ms) <==> ms != [] && Conforms(a, ms, |ms|) && ms[|ms| - 1].messageType == EndRun
  {
    if Conversation(a, ms) {
      ConversationConforms(a, ms);
    }
    if ms != [] && Conforms(a, ms, |ms|) && ms[|ms| - 1].messageType == EndRun {
      ConformingIsConversation(a, ms);
    }
  }

  lemma ConversationConforms(a: Adapter, ms: seq<Message>)
    requires Conversation(a, ms)
    ensures Conforms(a, ms, |ms|) && ms[|ms| - 1].messageType == EndRun
  {
    hide ValidMessage, GoodGreeting, GoodBegin, GoodEnd, Selection;
    assert GoodEnd(ms[|ms| - 1], Evaluations(ms, |ms| - 1)) && |ms| >= 4;
    forall k | 0 <= k < |ms| ensures Continues(a, ms, k) {
      assert k == 3 ==> ms[k - 1].messageType != EndRun by { TypesOfGood(a, ms[2]); }
    }
    TypeOfEnd(ms[|ms| - 1], Evaluations(ms, |ms| - 1));
  }

  lemma ConformingIsConversation(a: Adapter, ms: seq<Message>)
    requires ms != [] && Conforms(a, ms, |ms|) && ms[|ms| - 1].messageType == EndRun
    ensures Conversation(a, ms)
  {
    hide ValidMessage, GoodGreeting, GoodBegin, GoodEnd, Selection;
    TypesOfGood(a, ms[|ms| - 1]);
    assert Continues(a, ms, |ms| - 1) && Continues(a, ms, 0);
    assert |ms| > 3;
    assert Continues(a, ms, 1) && Continues(a, ms, 2);
    forall k | 1 <= k < |ms| ensures ms[k].messageType != Hello && ValidMessage(ms[k], Selection(a, ms[0])) {
      assert Continues(a, ms, k);
    }
    forall k | 3 <= k < |ms| - 1 ensures ms[k].messageType == Evaluate || ms[k].messageType == Cancel {
      assert Continues(a, ms, k) && Continues(a, ms, k + 1);
      TypeOfEnd(ms[k], Evaluations(ms, k));
    }
  }

  lemma TypeOfEnd(m: Message, evaluated: nat)
    ensures GoodEnd(m, evaluated) ==> m.messageType == EndRun
  {
  }

  lemma TypesOfGood(a: Adapter, m: Message)
    ensures GoodGreeting(a, m) ==> m.messageType == Hello
    ensures GoodBegin(a, m) ==> m.messageType == BeginRun
  {
  }

  // ----- the replies

  function AnswerType(t: MessageType): MessageType {
    match t
    case Hello => HelloAck
    case Describe => DescriptorReply
    case BeginRun => RunStarted
    case Evaluate => EvaluationResult
    case Cancel => Cancelled
    case EndRun => RunResult
    case _ => Failure
  }

  ghost predicate Crashes(a: Adapter, m: Message) {
    m.messageType == Evaluate && a.evaluate(m.payload).None?
  }

  /** What an accepted message is answered with; nothing when its evaluation crashes. */
  ghost function AnswerContent(a: Adapter, version: Bytes, m: Message): Option<Content> {
    match m.messageType
    case Hello => Some(AcknowledgementContent(Acknowledgement(version, CANONICAL_POLICY)))
    case Describe => Some(DescriptorContent(a.descriptor))
    case Evaluate =>
      var result :- a.evaluate(m.payload);
      Some(ResultContent(result))
    case Cancel => Some(ErrorContent("protocol.cancelled", "no active invocation remained after the sequential boundary"))
    case _ =>
      var b :- ReadBoundary(m.payload);
      Some(BoundaryContent(b))
  }

  /** The reply to an accepted message of a conversation in this version, if it can be given. */
  ghost function AnswerIn(w: Wire, a: Adapter, version: Bytes, m: Message): Option<Message> {
    var content :- AnswerContent(a, version, m);
    WrittenReply(w, m, version, AnswerType(m.messageType), content)
  }

  /** The same in a conversation that opened with `hello`. */
  ghost function Answer(w: Wire, a: Adapter, hello: Message, m: Message): Option<Message> {
    AnswerIn(w, a, Selection(a, hello), m)
  }

  /** The version an error reply to the message at place `k` carries. */
  ghost function VersionAt(a: Adapter, ms: seq<Message>, k: nat): Bytes
    requires k < |ms|
  {
    if k > 0 then Selection(a, ms[0])
    else if ms[0].messageType == Hello && ValidMessage(ms[0], "") then Selection(a, ms[0])
    else ""
  }

  ghost function Refusal(w: Wire, a: Adapter, ms: seq<Message>, k: nat): Option<Message>
    requires k < |ms|
  {
    var valid := ValidMessage(ms[k], if k > 0 then Selection(a, ms[0]) else "");
    ErrorReply(w, ms[k], VersionAt(a, ms, k), if valid then "protocol.state.invalid" else "protocol.message.invalid")
  }

  datatype End = Finished | BadDescriptor | ReadFailed | EndedEarly | NotDecoded | Refused | Crashed | ReplyFailed

  function UnreadEnd(line: Line): End {
    if line.TooLong? then ReadFailed else NotDecoded
  }

  function Messages(lines: seq<Line>, n: nat): seq<Message>
    requires n <= |lines| && forall i | 0 <= i < n :: lines[i].Decoded?
  {
    seq(n, i requires 0 <= i < n => lines[i].message)
  }

  /** The first `n` lines are accepted messages. */
  ghost predicate AcceptedLines(a: Adapter, lines: seq<Line>, n: nat)
    requires n <= |lines|
  {
    (forall i | 0 <= i < n :: lines[i].Decoded?) && Conforms(a, Messages(lines, n), n)
  }

  /** The first `n` messages are answered, and the answers written. */
  ghost predicate Answered(w: Wire, a: Adapter, lines: seq<Line>, writable: nat -> bool, n: nat, replies: seq<Message>)
    requires n <= |lines| && n <= |replies| && forall i | 0 <= i < n :: lines[i].Decoded?
  {
    forall k | 0 <= k < n :: writable(k) && Answer(w, a, lines[0].message, lines[k].message) == Some(replies[k])
  }

  /** How the message at place `n` ends the session. */
  ghost predicate EndsAt(w: Wire, a: Adapter, ms: seq<Message>, writable: nat -> bool, n: nat, end: End, replies: seq<Message>)
    requires n < |ms| && n <= |replies|
  {
    if Continues(a, ms, n) then
      && |replies| == n
      && (Answer(w, a, ms[0], ms[n]).None? || !writable(n))
      && end == if Crashes(a, ms[n]) then Crashed else ReplyFailed
    else if Refusal(w, a, ms, n).Some? && writable(n) then
      |replies| == n + 1 && Some(replies[n]) == Refusal(w, a, ms, n) && end == Refused
    else |replies| == n && end == ReplyFailed
  }

  /**
   What serving these lines comes to, `n` being the number of messages accepted and answered. The next
   one, if any, is too long or does not decode, is refused with one error reply, or is accepted but its reply cannot
   be given or written; nothing after it is read. `writable` says which writes to the output succeed.
   */
  ghost predicate Served(w: Wire, a: Adapter, lines: seq<Line>, readFails: bool, writable: nat -> bool, n: nat, end: End, replies: seq<Message>)
  {
    && n <= |lines| && AcceptedLines(a, lines, n)
    && |replies| >= n && Answered(w, a, lines, writable, n, replies)
    && if n == |lines| then
         && |replies| == n
         && end == if readFails then ReadFailed else if n > 0 && lines[n - 1].message.messageType == EndRun then Finished else EndedEarly
       else if !lines[n].Decoded? then |replies| == n && end == UnreadEnd(lines[n])
       else EndsAt(w, a, Messages(lines, n + 1), writable, n, end, replies)
  }

  /** What serving these lines comes to, whatever the number of answered messages is. */
  ghost predicate Serves(w: Wire, a: Adapter, lines: seq<Line>, readFails: bool, writable: nat -> bool, end: End, replies: seq<Message>) {
    exists n: nat :: Served(w, a, lines, readFails, writable, n, end, replies)
  }

  datatype State = AwaitHello | Negotiation | Described | Running | Ended

  /** The loop's variables say where in a conversation the accepted messages stand. */
  ghost predicate Tracks(a: Adapter, ms: seq<Message>, state: State, selectedVersion: Bytes, evaluated: nat) {
    && Conforms(a, ms, |ms|)
    && evaluated == Evaluations(ms, |ms|)
    && selectedVersion == (if ms == [] then "" else Selection(a, ms[0]))
    && state == if |ms| == 0 then AwaitHello else if |ms| == 1 then Negotiation else if |ms| == 2 then Described
                else if ms[|ms| - 1].messageType == EndRun then Ended else Running
  }

  lemma Extended(ms: seq<Message>, m: Message, n: nat)
    requires n <= |ms|
    ensures Evaluations(ms + [m], n) == Evaluations(ms, n)
  {
    if n > 0 {
      Extended(ms, m, n - 1);
    }
  }

  lemma ConformsExtended(a: Adapter, ms: seq<Message>, m: Message)
    requires Conforms(a, ms, |ms|)
    ensures Conforms(a, ms + [m], |ms|)
    ensures Conforms(a, ms + [m], |ms| + 1) <==> Continues(a, ms + [m], |ms|)
  {
    hide ValidMessage, GoodGreeting, GoodBegin, GoodEnd, Selection;
    var longer := ms + [m];
    forall k | 0 <= k < |ms| ensures Continues(a, longer, k) {
      assert Continues(a, ms, k);
      Extended(ms, m, k);
    }
  }

  method WriteReply(w: Wire, request: Message, version: Bytes, messageType: MessageType, content: Content) returns (reply: Option<Message>)
    ensures reply == WrittenReply(w, request, version, messageType, content)
  {
    hide Payload;
    var payload := WritePayload(ContentJson(w, content));
    reply := if payload.None? then None else Some(Reply(request, version, messageType, payload.value));
  }

  /** The schema, the identity, a payload, and the version: any supported one in a hello, the negotiated one elsewhere. */
  method ValidateMessage(message: Message, selectedVersion: Bytes) returns (ok: bool)
    ensures ok <==> ValidMessage(message, selectedVersion)
  {
    if message.schemaVersion != MESSAGE_SCHEMA || message.messageID == "" || |message.payload| == 0 {
      return false;
    }
    if message.messageType == Hello {
      return message.protocolVersion in SUPPORTED_VERSIONS;
    }
    if selectedVersion == "" || message.protocolVersion != selectedVersion {
      return false;
    }
    ok := true;
  }

  /** One turn of the loop: refuse with an error reply, or answer and move on; a crash gives no reply. */
  method HandleMessage(w: Wire, a: Adapter, message: Message, state: State, selectedVersion: Bytes, evaluated: nat, ghost ms: seq<Message>)
    returns (accepted: bool, crashed: bool, reply: Option<Message>, newState: State, newVersion: Bytes, newEvaluated: nat)
    requires Tracks(a, ms, state, selectedVersion, evaluated)
    ensures accepted <==> Continues(a, ms + [message], |ms|)
    ensures accepted ==> Tracks(a, ms + [message], newState, newVersion, newEvaluated)
    ensures crashed <==> accepted && Crashes(a, message)
    ensures reply == if accepted then Answer(w, a, (ms + [message])[0], message) else Refusal(w, a, ms + [message], |ms|)
  {
    hide Strict, Posted, NegotiateVersion, Versions, ValidDigest, GreetingOf, BoundaryOf, SupportedVersion, Conforms, ValidMessage;
    ghost var longer := ms + [message];
    ConformsExtended(a, ms, message);
    Extended(ms, message, |ms|);
    newState, newVersion, newEvaluated := state, selectedVersion, evaluated;
    accepted, crashed := false, false;
    var valid := ValidateMessage(message, selectedVersion);
    if !valid {
      reply := WriteReply(w, message, if selectedVersion == "" then CURRENT_VERSION else selectedVersion, Failure, ErrorContent("protocol.message.invalid", REFUSED_TEXT));
      return;
    }
    var content := ErrorContent("protocol.state.invalid", REFUSED_TEXT);
    match message.messageType {
      case Hello =>
        if state == AwaitHello {
          var v := DecodeStrict(message.payload);
          var hello := if v.None? then None else GreetingOf(v.value);
          if hello.Some? {
            newVersion := NegotiateVersion(hello.value.supportedVersions, Versions(a.descriptor));
            if newVersion != "" && hello.value.canonicalPolicy == CANONICAL_POLICY {
              accepted, newState := true, Negotiation;
              content := AcknowledgementContent(Acknowledgement(newVersion, CANONICAL_POLICY));
            }
          }
        }
      case Describe =>
        if state == Negotiation {
          accepted, newState, content := true, Described, DescriptorContent(a.descriptor);
        }
      case BeginRun =>
        if state == Described {
          var v := DecodeStrict(message.payload);
          var boundary := if v.None? then None else BoundaryOf(v.value);
          if boundary.Some? && boundary.value.runID != "" && boundary.value.caseCount >= 0
             && boundary.value.caseCount <= a.descriptor.limits.maxCasesPerRun && ValidDigest(boundary.value.corpusDigest) {
            accepted, newState, content := true, Running, BoundaryContent(boundary.value);
          }
        }
      case Evaluate =>
        if state == Running {
          accepted, newEvaluated := true, evaluated + 1;
          var result := a.evaluate(message.payload);
          if result.None? {
            crashed, reply := true, None;
            return;
          }
          content := ResultContent(result.value);
        }
      case Cancel =>
        if state == Running {
          accepted, content := true, ErrorContent("protocol.cancelled", "no active invocation remained after the sequential boundary");
        }
      case EndRun =>
        if state == Running {
          var v := DecodeStrict(message.payload);
          var boundary := if v.None? then None else BoundaryOf(v.value);
          if boundary.Some? && boundary.value.caseCount == evaluated {
            accepted, newState, content := true, Ended, BoundaryContent(boundary.value);
          }
        }
      case _ =>
    }
    if accepted {
      reply := WriteReply(w, message, newVersion, AnswerType(message.messageType), content);
    } else {
      reply := WriteReply(w, message, if newVersion == "" then CURRENT_VERSION else newVersion, Failure, content);
    }
  }

  /** Every limit is positive and at most that of the protocol. */
  method ValidateLimits(limits: Limits) returns (ok: bool)
    ensures ok <==> ValidLimits(limits)
  {
    if limits.maxMessageBytes <= 0 || limits.maxMessageBytes > 8388608 || limits.maxCaseBytes <= 0 || limits.maxCaseBytes > 4194304 {
      return false;
    }
    if limits.maxCasesPerRun <= 0 || limits.maxCasesPerRun > 10000 || limits.maxDurationMillis <= 0 || limits.maxDurationMillis > 60000 {
      return false;
    }
    ok := 0 < limits.maxExtensionsPerItem && limits.maxExtensionsPerItem <= 32;
  }

  method ValidateDescriptor(checks: Checks, d: Descriptor) returns (ok: bool)
    ensures ok <==> ValidDescriptor(checks, d)
  {
    hide ExtensionsOk, Identifier, ValidDigest, UniqueStrings;
    if d.schemaVersion != DESCRIPTOR_SCHEMA || d.protocolName != PROTOCOL_NAME || !Identifier(d.evaluatorID) {
      return false;
    }
    if d.implementationName == "" || d.implementationVersion == "" || !ValidDigest(d.identityDigest) {
      return false;
    }
    if d.protocolVersions.None? || d.executionModes.None? || d.conformanceLevels.None?
       || d.scoreEvidenceVersions.None? || d.decisionVersions.None? || d.extensions.None? {
      return false;
    }
    ok := ValidateUniqueStrings(d.protocolVersions.value);
    if !ok || CURRENT_VERSION !in d.protocolVersions.value {
      return false;
    }
    ok := ValidateUniqueStrings(d.executionModes.value);
    if !ok {
      return;
    }
    var levels := d.conformanceLevels.value;
    var seen: set<Level> := {};
    for index := 0 to |levels|
      invariant forall i | 0 <= i < index :: !levels[i].OtherLevel?
      invariant forall i, j | 0 <= i < j < index :: levels[i] != levels[j]
      invariant forall level :: level in seen <==> exists i | 0 <= i < index :: levels[i] == level
    {
      if levels[index].OtherLevel? {
        assert levels[index] in levels;
        return false;
      }
      if levels[index] in seen {
        return false;
      }
      seen := seen + {levels[index]};
    }
    ok := ValidateLimits(d.limits);
    if !ok {
      return;
    }
    ok := ReferenceAdapter.ValidateExtensions(checks, d.extensions.value, d.limits.maxExtensionsPerItem);
  }

  lemma OneMoreMessage(lines: seq<Line>, n: nat)
    requires n < |lines| && forall i | 0 <= i <= n :: lines[i].Decoded?
    ensures Messages(lines, n + 1) == Messages(lines, n) + [lines[n].message]
    ensures |Messages(lines, n)| == n && Messages(lines, n + 1)[0] == lines[0].message
  {
  }

  /** The session: a descriptor that is not valid opens none. */
  method ServeAdapter(w: Wire, a: Adapter, lines: seq<Line>, readFails: bool, writable: nat -> bool) returns (end: End, replies: seq<Message>)
    ensures !ValidDescriptor(a.checks, a.descriptor) ==> end == BadDescriptor && replies == []
    ensures ValidDescriptor(a.checks, a.descriptor) ==> Serves(w, a, lines, readFails, writable, end, replies)
  {
    hide ValidDescriptor, Serves;
    var sound := ValidateDescriptor(a.checks, a.descriptor);
    if !sound {
      return BadDescriptor, [];
    }
    end, replies := ServeLines(w, a, lines, readFails, writable);
  }

  /** One line after another until the input ends, a message is refused, or a reply cannot be given. */
  method ServeLines(w: Wire, a: Adapter, lines: seq<Line>, readFails: bool, writable: nat -> bool) returns (end: End, replies: seq<Message>)
    ensures Serves(w, a, lines, readFails, writable, end, replies)
  {
    replies := [];
    hide Continues, Answer, Refusal, Evaluations, Selection, Serves, AcceptedLines, Tracks, Messages, EndsAt, Crashes;
    var state := AwaitHello;
    var selectedVersion := "";
    var evaluated := 0;
    NothingTracked(a, lines);
    for index := 0 to |lines|
      invariant forall i | 0 <= i < index :: lines[i].Decoded?
      invariant Tracks(a, Messages(lines, index), state, selectedVersion, evaluated)
      invariant |replies| == index && Answered(w, a, lines, writable, index, replies)
    {
      if !lines[index].Decoded? {
        StopsAtText(w, a, lines, readFails, writable, index, replies, state, selectedVersion, evaluated);
        if lines[index].TooLong? {
          return ReadFailed, replies;
        }
        return NotDecoded, replies;
      }
      var message := lines[index].message;
      OneMoreMessage(lines, index);
      var continues, crashed, reply, newState, newVersion, newEvaluated :=
        HandleMessage(w, a, message, state, selectedVersion, evaluated, Messages(lines, index));
      if !continues || crashed || reply.None? || !writable(index) {
        end, replies := LastTurn(w, a, lines, writable, index, replies, continues, crashed, reply);
        StopsAtMessage(w, a, lines, readFails, writable, index, end, replies, state, selectedVersion, evaluated);
        return;
      }
      replies := replies + [reply.value];
      state, selectedVersion, evaluated := newState, newVersion, newEvaluated;
    }
    end := if readFails then ReadFailed else if state == Ended then Finished else EndedEarly;
    StopsAtEnd(w, a, lines, readFails, writable, end, replies, state, selectedVersion, evaluated);
  }

  /** The turn after which the loop returns. */
  method LastTurn(w: Wire, a: Adapter, ghost lines: seq<Line>, writable: nat -> bool, n: nat, before: seq<Message>,
                  continues: bool, crashed: bool, reply: Option<Message>)
    returns (end: End, replies: seq<Message>)
    requires n < |lines| && (forall i | 0 <= i <= n :: lines[i].Decoded?) && |before| == n
    requires Answered(w, a, lines, writable, n, before)
    requires !continues || crashed || reply.None? || !writable(n)
    requires var ms := Messages(lines, n + 1);
             && (continues <==> Continues(a, ms, n)) && (crashed <==> continues && Crashes(a, ms[n]))
             && reply == if continues then Answer(w, a, ms[0], ms[n]) else Refusal(w, a, ms, n)
    ensures |replies| >= n && Answered(w, a, lines, writable, n, replies)
    ensures EndsAt(w, a, Messages(lines, n + 1), writable, n, end, replies)
  {
    hide Continues, Refusal, Selection;
    replies := before;
    if crashed {
      end := Crashed;
    } else if reply.None? || !writable(n) {
      end := ReplyFailed;
    } else {
      end, replies := Refused, replies + [reply.value];
    }
  }

  lemma StopsAtText(w: Wire, a: Adapter, lines: seq<Line>, readFails: bool, writable: nat -> bool, n: nat, replies: seq<Message>,
                    state: State, selectedVersion: Bytes, evaluated: nat)
    requires n < |lines| && !lines[n].Decoded? && (forall i | 0 <= i < n :: lines[i].Decoded?)
    requires Tracks(a, Messages(lines, n), state, selectedVersion, evaluated)
    requires |replies| == n && Answered(w, a, lines, writable, n, replies)
    ensures Served(w, a, lines, readFails, writable, n, UnreadEnd(lines[n]), replies)
    ensures Serves(w, a, lines, readFails, writable, UnreadEnd(lines[n]), replies)
  {
    hide Continues, Answer, Refusal, Evaluations, Selection;
  }

  lemma StopsAtMessage(w: Wire, a: Adapter, lines: seq<Line>, readFails: bool, writable: nat -> bool, n: nat, end: End, replies: seq<Message>,
                       state: State, selectedVersion: Bytes, evaluated: nat)
    requires n < |lines| && (forall i | 0 <= i <= n :: lines[i].Decoded?)
    requires Tracks(a, Messages(lines, n), state, selectedVersion, evaluated)
    requires |replies| >= n && Answered(w, a, lines, writable, n, replies)
    requires EndsAt(w, a, Messages(lines, n + 1), writable, n, end, replies)
    ensures Served(w, a, lines, readFails, writable, n, end, replies) && Serves(w, a, lines, readFails, writable, end, replies)
  {
    hide Continues, Answer, Refusal, Evaluations, Selection, EndsAt;
  }

  lemma StopsAtEnd(w: Wire, a: Adapter, lines: seq<Line>, readFails: bool, writable: nat -> bool, end: End, replies: seq<Message>,
                   state: State, selectedVersion: Bytes, evaluated: nat)
    requires forall i | 0 <= i < |lines| :: lines[i].Decoded?
    requires Tracks(a, Messages(lines, |lines|), state, selectedVersion, evaluated)
    requires |replies| == |lines| && Answered(w, a, lines, writable, |lines|, replies)
    requires end == if readFails then ReadFailed else if state == Ended then Finished else EndedEarly
    ensures Served(w, a, lines, readFails, writable, |lines|, end, replies) && Serves(w, a, lines, readFails, writable, end, replies)
  {
    EndedTracked(a, lines, state, selectedVersion, evaluated);
    hide Continues, Answer, Refusal, Evaluations, Selection;
  }

  lemma NothingTracked(a: Adapter, lines: seq<Line>)
    ensures Tracks(a, Messages(lines, 0), AwaitHello, "", 0)
  {
  }

  /** The state is the last one exactly when the last message was end_run. */
  lemma EndedTracked(a: Adapter, lines: seq<Line>, state: State, selectedVersion: Bytes, evaluated: nat)
    requires forall i | 0 <= i < |lines| :: lines[i].Decoded?
    requires Tracks(a, Messages(lines, |lines|), state, selectedVersion, evaluated)
    ensures state == Ended <==> |lines| > 0 && lines[|lines| - 1].message.messageType == EndRun
  {
    var ms := Messages(lines, |lines|);
    if 0 < |ms| <= 3 {
      assert Continues(a, ms, |ms| - 1);
    }
    if |ms| > 3 {
      assert Continues(a, ms, |ms| - 1);
    }
  }

  // ----- what serving amounts to

  /**
   Success is exactly a whole conversation, every line of it decoded, every answer given and written,
   and no read failure.
   */
  lemma SucceedsOnConversations(w: Wire, a: Adapter, lines: seq<Line>, readFails: bool, writable: nat -> bool,
                                n: nat, end: End, replies: seq<Message>)
    requires Served(w, a, lines, readFails, writable, n, end, replies)
    ensures end == Finished <==>
            && !readFails && (forall i | 0 <= i < |lines| :: lines[i].Decoded?)
            && Conversation(a, Messages(lines, |lines|))
            && forall k | 0 <= k < |lines| :: writable(k) && Answer(w, a, lines[0].message, lines[k].message).Some?
  {
    hide Answer, Refusal, Conversation, Crashes;
    if forall i | 0 <= i < |lines| :: lines[i].Decoded? {
      var ms := Messages(lines, |lines|);
      ConversationIsConforming(a, ms);
      if n < |lines| && Conforms(a, ms, |lines|) {
        assert Continues(a, ms, n);
        SamePrefix(a, ms, Messages(lines, n + 1), n);
      }
    }
  }

  lemma SameEvaluations(ms: seq<Message>, front: seq<Message>, n: nat)
    requires n <= |front| <= |ms| && front == ms[..|front|]
    ensures Evaluations(ms, n) == Evaluations(front, n)
  {
    if n > 0 {
      SameEvaluations(ms, front, n - 1);
    }
  }

  lemma SamePrefix(a: Adapter, ms: seq<Message>, front: seq<Message>, k: nat)
    requires k < |front| <= |ms| && front == ms[..|front|]
    ensures Continues(a, front, k) <==> Continues(a, ms, k)
  {
    hide ValidMessage, GoodGreeting, GoodBegin, GoodEnd, Selection;
    SameEvaluations(ms, front, k);
  }

  /** The end of a run is free in everything but its count: no other boundary than the first is compared with it. */
  lemma {:induction false} EndBoundaryIsFree(a: Adapter, ms: seq<Message>, payload: Bytes)
    requires Conversation(a, ms) && payload != ""
    requires GoodEnd(ms[|ms| - 1].(payload := payload), Evaluations(ms, |ms| - 1))
    ensures Conversation(a, ms[|ms| - 1 := ms[|ms| - 1].(payload := payload)])
  {
    hide GoodGreeting, GoodBegin, GoodEnd, Selection;
    var n := |ms| - 1;
    var other := ms[n := ms[n].(payload := payload)];
    SameEvaluations(ms, ms[..n], n);
    SameEvaluations(other, ms[..n], n);
    assert other[0] == ms[0] && other[1] == ms[1] && other[2] == ms[2];
  }

  /** Every reply names the request it answers, by id and run; an error reply is the last, to a message that was refused. */
  lemma RepliesCorrelate(w: Wire, a: Adapter, lines: seq<Line>, readFails: bool, writable: nat -> bool,
                         n: nat, end: End, replies: seq<Message>)
    requires Served(w, a, lines, readFails, writable, n, end, replies)
    ensures forall k | 0 <= k < |replies| ::
              && k < |lines| && lines[k].Decoded? && Names(replies[k], lines[k].message)
              && (replies[k].messageType == Failure <==> k == n)
              && (k == n <==> end == Refused && k == |replies| - 1)
  {
    hide Continues, Answer, Refusal, Crashes;
    forall k | 0 <= k < n
      ensures Names(replies[k], lines[k].message) && replies[k].messageType != Failure
    {
      assert Messages(lines, n)[k] == lines[k].message;
      AcceptedTypes(a, Messages(lines, n), k);
      AnswerNames(w, a, lines[0].message, lines[k].message);
    }
    if n < |replies| {
      assert Messages(lines, n + 1)[n] == lines[n].message;
      RefusalNames(w, a, Messages(lines, n + 1), n);
    }
  }

  /** The reply names the request, by id and run. */
  predicate Names(reply: Message, request: Message) {
    reply.replyTo == request.messageID && reply.messageID == "reply." + request.messageID && reply.runID == request.runID
  }

  lemma AnswerNames(w: Wire, a: Adapter, hello: Message, m: Message)
    ensures Answer(w, a, hello, m).Some? ==> Names(Answer(w, a, hello, m).value, m)
    ensures Answer(w, a, hello, m).Some? ==> Answer(w, a, hello, m).value.messageType == AnswerType(m.messageType)
  {
    hide Selection, Posted, AnswerContent;
  }

  lemma RefusalNames(w: Wire, a: Adapter, ms: seq<Message>, k: nat)
    requires k < |ms|
    ensures Refusal(w, a, ms, k).Some? ==> Names(Refusal(w, a, ms, k).value, ms[k]) && Refusal(w, a, ms, k).value.messageType == Failure
  {
    hide VersionAt, ValidMessage, Selection, Posted;
  }

  lemma AcceptedTypes(a: Adapter, ms: seq<Message>, k: nat)
    requires k < |ms| && Conforms(a, ms, |ms|)
    ensures ms[k].messageType in {Hello, Describe, BeginRun, Evaluate, Cancel, EndRun}
  {
    hide ValidMessage, Selection;
    assert Continues(a, ms, k);
  }

  /** The outcome of serving is determined by the lines and by what can be written. */
  lemma ServingIsDetermined(w: Wire, a: Adapter, lines: seq<Line>, readFails: bool, writable: nat -> bool,
                            n: nat, end: End, replies: seq<Message>, m: nat, otherEnd: End, others: seq<Message>)
    requires Served(w, a, lines, readFails, writable, n, end, replies) && Served(w, a, lines, readFails, writable, m, otherEnd, others)
    ensures n == m && end == otherEnd && replies == others
  {
    hide Answer, Refusal, Crashes;
    if n < m {
      LongerServing(w, a, lines, readFails, writable, n, end, replies, m, others);
    } else if m < n {
      LongerServing(w, a, lines, readFails, writable, m, otherEnd, others, n, replies);
    }
  }

  lemma LongerServing(w: Wire, a: Adapter, lines: seq<Line>, readFails: bool, writable: nat -> bool,
                      n: nat, end: End, replies: seq<Message>, m: nat, others: seq<Message>)
    requires Served(w, a, lines, readFails, writable, n, end, replies)
    requires m <= |lines| && m <= |others| && AcceptedLines(a, lines, m) && Answered(w, a, lines, writable, m, others)
    ensures m <= n
  {
    hide Answer, Refusal, Continues, Crashes;
    if n < m {
      assert Continues(a, Messages(lines, m), n);
      SamePrefix(a, Messages(lines, m), Messages(lines, n + 1), n);
    }
  }
}
