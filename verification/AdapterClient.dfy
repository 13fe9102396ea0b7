/**
 The host side of a session: it numbers its messages, accepts only replies that answer the message
 just sent, skips vectors the adapter cannot take, and ends with the number of all vectors.
 */
module AdapterClient {
  import opened Basics
  import opened Digits
  import opened ProtocolModel
  import opened ReferencePipeline
  import opened ReferenceAdapter
  import opened AdapterWire
  import opened AdapterSession

  datatype Corpus = Corpus(vectors: seq<CaseVector>, digest: Bytes)

  /** The host's side of things: its pipeline of checks, and its lenient reading of required capabilities. */
  datatype Host = Host(wire: Wire, pipeline: Pipeline, capabilities: Bytes -> Option<seq<Bytes>>)

  /** The adapter's process as the host meets it: what it writes, which messages reach it, how it exits. */
  datatype Peer = Peer(lines: seq<Line>, writable: nat -> bool, exits: bool)

  datatype Run = Run(version: Bytes, descriptor: Descriptor, results: seq<CaseResult>)

  // ----- vectors the client keeps from the adapter

  function Modes(d: Descriptor): seq<Bytes> {
    if d.executionModes.Some? then d.executionModes.value else []
  }

  predicate Available(h: Host, v: CaseVector, d: Descriptor) {
    var required := h.capabilities(v.raw);
    required.Some? ==> forall i | 0 <= i < |required.value| :: required.value[i] in Modes(d)
  }

  predicate IsSkipped(h: Host, v: CaseVector, d: Descriptor) {
    |v.raw| > d.limits.maxCaseBytes || !Available(h, v, d)
  }

  function SkipResult(h: Host, v: CaseVector, d: Descriptor): CaseResult {
    if |v.raw| > d.limits.maxCaseBytes then
      CaseResult(v.caseID, v.level, v.kind, Failed, "case exceeds adapter descriptor max_case_bytes", [], "", "")
    else
      CaseResult(v.caseID, v.level, v.kind, Unsupported, "adapter descriptor does not declare the required capability", [], "", "")
  }

  /** The vectors among the first `n` that are sent. */
  function Kept(h: Host, vectors: seq<CaseVector>, d: Descriptor, n: nat): (r: seq<CaseVector>)
    requires n <= |vectors|
    ensures |r| <= n
  {
    if n == 0 then []
    else
      var front := Kept(h, vectors, d, n - 1);
      if IsSkipped(h, vectors[n - 1], d) then front else front + [vectors[n - 1]]
  }

  lemma {:induction false} KeptGrows(h: Host, vectors: seq<CaseVector>, d: Descriptor, m: nat, n: nat)
    requires m <= n <= |vectors|
    ensures var some, all := Kept(h, vectors, d, m), Kept(h, vectors, d, n);
            |some| <= |all| && all[..|some|] == some
  {
    if m < n {
      KeptGrows(h, vectors, d, m, n - 1);
      var some, middle, all := Kept(h, vectors, d, m), Kept(h, vectors, d, n - 1), Kept(h, vectors, d, n);
      assert all[..|some|] == middle[..|some|];
    }
  }

  /** Nothing is skipped exactly when as many vectors are sent as there are. */
  lemma {:induction false} KeptAll(h: Host, vectors: seq<CaseVector>, d: Descriptor, n: nat)
    requires n <= |vectors|
    ensures |Kept(h, vectors, d, n)| == n <==> forall i | 0 <= i < n :: !IsSkipped(h, vectors[i], d)
    ensures forall v | v in Kept(h, vectors, d, n) :: v in vectors
  {
    if n > 0 {
      KeptAll(h, vectors, d, n - 1);
    }
  }

  // ----- the script

  function HostID(k: nat): Bytes {
    "host." + Padded(k, 6)
  }

  function RunIDOf(c: Corpus): Bytes
    requires |c.digest| >= 16
  {
    "run-" + c.digest[..16]
  }

  function RunBoundary(c: Corpus): Boundary
    requires |c.digest| >= 16
  {
    Boundary(RunIDOf(c), |c.vectors|, c.digest)
  }

  /** A message to send and the type of reply it asks for; without a payload it cannot be sent. */
  datatype Turn = Turn(messageType: MessageType, expected: MessageType, runID: Bytes, payload: Option<Bytes>)

  /** How many turns a session with this descriptor has. */
  function TurnCount(h: Host, c: Corpus, d: Descriptor): nat {
    4 + |Kept(h, c.vectors, d, |c.vectors|)|
  }

  const HELLO := GreetingContent(Greeting(SUPPORTED_VERSIONS, CANONICAL_POLICY))

  ghost function TurnAt(h: Host, c: Corpus, d: Descriptor, k: nat): Turn
    requires |c.digest| >= 16
  {
    var kept := Kept(h, c.vectors, d, |c.vectors|);
    if k == 0 then Turn(Hello, HelloAck, "", Posted(h.wire, HELLO))
    else if k == 1 then Turn(Describe, DescriptorReply, "", Posted(h.wire, EmptyContent))
    else if k == 2 then Turn(BeginRun, RunStarted, RunIDOf(c), Posted(h.wire, BoundaryContent(RunBoundary(c))))
    else if k < 3 + |kept| then Turn(Evaluate, EvaluationResult, RunIDOf(c), Embedded(kept[k - 3].raw))
    else Turn(EndRun, RunResult, RunIDOf(c), Posted(h.wire, BoundaryContent(RunBoundary(c))))
  }

  function Request(turn: Turn, version: Bytes, k: nat): Option<Message> {
    var payload :- turn.payload;
    Some(Message(MESSAGE_SCHEMA, version, turn.messageType, HostID(k), "", turn.runID, payload))
  }

  /** The message of turn `k`, once `version` is selected. */
  ghost function MessageAt(h: Host, c: Corpus, d: Descriptor, version: Bytes, k: nat): Option<Message>
    requires |c.digest| >= 16
  {
    Request(TurnAt(h, c, d, k), if k == 0 then CURRENT_VERSION else version, k + 1)
  }

  /** What sending comes to: the message, or nothing if it has none or the write fails. */
  function Sending(message: Option<Message>, writable: bool): seq<Message> {
    if message.Some? && writable then [message.value] else []
  }

  // ----- the replies the client takes

  /** The payload of a reply that answers the request, by type, identity, version and run. */
  function Correlated(line: Line, request: Message, expected: MessageType): Option<Bytes> {
    if !line.Decoded? || line.message.messageType == Failure then None
    else if line.message.messageType != expected || line.message.replyTo != request.messageID
            || line.message.protocolVersion != request.protocolVersion || line.message.runID != request.runID then None
    else Some(line.message.payload)
  }

  /** The line answers the message: decoded, no error, of the expected type, and naming the message, its version and its run. */
  predicate AnswersBy(line: Line, request: Message, expected: MessageType) {
    && line.Decoded? && line.message.messageType == expected && expected != Failure
    && line.message.replyTo == request.messageID
    && line.message.protocolVersion == request.protocolVersion
    && line.message.runID == request.runID
  }

  predicate IsRequest(m: Message, version: Bytes, messageType: MessageType, k: nat, runID: Bytes, payload: Bytes) {
    && m.schemaVersion == MESSAGE_SCHEMA && m.protocolVersion == version && m.messageType == messageType
    && m.messageID == "host." + Padded(k, 6) && m.replyTo == "" && m.runID == runID && m.payload == payload
  }

  /** The type of reply each message asks for. */
  function AskedType(t: MessageType): MessageType {
    match t
    case Hello => HelloAck
    case Describe => DescriptorReply
    case BeginRun => RunStarted
    case Evaluate => EvaluationResult
    case EndRun => RunResult
    case _ => Failure
  }

  /** What the client read from the first two replies. */
  datatype Setup = Setup(version: Bytes, descriptor: Descriptor)

  ghost predicate GoodAcknowledgement(payload: Bytes) {
    && ReadAcknowledgement(payload).Some?
    && SupportedVersion(ReadAcknowledgement(payload).value.selectedVersion)
    && ReadAcknowledgement(payload).value.canonicalPolicy == CANONICAL_POLICY
  }

  ghost predicate GoodDescriptor(h: Host, payload: Bytes) {
    ReadDescriptor(h.wire, payload).Some? && ValidDescriptor(h.pipeline.checks, ReadDescriptor(h.wire, payload).value)
  }

  ghost predicate Takes(h: Host, c: Corpus, d: Descriptor, k: nat, payload: Bytes)
    requires |c.digest| >= 16
  {
    if k == 0 then GoodAcknowledgement(payload)
    else if k == 1 then GoodDescriptor(h, payload)
    else if k == 2 || k + 1 == TurnCount(h, c, d) then ReadBoundary(payload) == Some(RunBoundary(c))
    else ReadResult(h.wire, payload).Some?
  }

  /** The message of turn `k` is sent and its reply taken, the session so far being set up as `s`. */
  ghost predicate TurnOk(h: Host, c: Corpus, s: Setup, peer: Peer, k: nat)
    requires |c.digest| >= 16
  {
    && k < |peer.lines| && peer.writable(k)
    && var message := MessageAt(h, c, s.descriptor, s.version, k);
       && message.Some?
       && var payload := Correlated(peer.lines[k], message.value, TurnAt(h, c, s.descriptor, k).expected);
          && payload.Some? && Takes(h, c, s.descriptor, k, payload.value)
          && (k == 0 ==> ReadAcknowledgement(payload.value).value.selectedVersion == s.version)
          && (k == 1 ==> ReadDescriptor(h.wire, payload.value).value == s.descriptor)
  }

  ghost function ResultAt(h: Host, c: Corpus, s: Setup, lines: seq<Line>, i: nat): Option<InvocationResult>
    requires i < |c.vectors|
  {
    var k := 3 + |Kept(h, c.vectors, s.descriptor, i)|;
    if k < |lines| && lines[k].Decoded? then ReadResult(h.wire, lines[k].message.payload) else None
  }

  /** The case result of the `i`-th vector. */
  ghost predicate CaseResultAt(h: Host, c: Corpus, s: Setup, lines: seq<Line>, i: nat, r: CaseResult)
    requires i < |c.vectors|
  {
    var v := c.vectors[i];
    if IsSkipped(h, v, s.descriptor) then r == SkipResult(h, v, s.descriptor)
    else
      var result := ResultAt(h, c, s, lines, i);
      result.Some? && r == Judged(h.pipeline.checks, h.pipeline.digest, v, IDFromRaw(h.pipeline, v.raw), result.value)
  }

  /** The first `k` turns went well: their messages are sent and their replies taken. */
  ghost predicate Progress(h: Host, c: Corpus, s: Setup, peer: Peer, k: nat, sent: seq<Message>)
    requires |c.digest| >= 16
  {
    && (forall j | 0 <= j < k :: TurnOk(h, c, s, peer, j))
    && |sent| == k && forall j | 0 <= j < k :: Some(sent[j]) == MessageAt(h, c, s.descriptor, s.version, j)
  }

  /**
   The first `k` turns went well and the next did not; its message, if it could be sent, is the last one.
   Before the setup is read, the turn goes well under none.
   */
  ghost predicate Stopped(h: Host, c: Corpus, s: Setup, peer: Peer, k: nat, sent: seq<Message>)
    requires |c.digest| >= 16
  {
    && |sent| >= k && Progress(h, c, s, peer, k, sent[..k])
    && sent[k..] == Sending(MessageAt(h, c, s.descriptor, s.version, k), peer.writable(k))
    && k < TurnCount(h, c, s.descriptor)
    && !TurnOk(h, c, s, peer, k)
    && (k == 0 ==> forall t :: !TurnOk(h, c, t, peer, 0))
    && (k == 1 ==> forall t: Setup | t.version == s.version :: !TurnOk(h, c, t, peer, 1))
  }

  /**
   What a run over these reply lines comes to: `answered` turns go well; at the first that does not,
   the run fails and nothing more is sent. When all go well, the run is reported, unless another line
   follows or the adapter fails to exit.
   */
  ghost predicate Ran(h: Host, c: Corpus, s: Setup, peer: Peer, answered: nat, sent: seq<Message>, run: Option<Run>)
    requires |c.digest| >= 16
  {
    if answered < TurnCount(h, c, s.descriptor) then Stopped(h, c, s, peer, answered, sent) && run.None?
    else
      && answered == TurnCount(h, c, s.descriptor) && Progress(h, c, s, peer, answered, sent)
      && (run.Some? <==> |peer.lines| == answered && peer.exits)
      && (run.Some? ==>
            && run.value.version == s.version && run.value.descriptor == s.descriptor
            && |run.value.results| == |c.vectors|
            && forall i | 0 <= i < |c.vectors| :: CaseResultAt(h, c, s, peer.lines, i, run.value.results[i]))
  }

  ghost predicate RunsTo(h: Host, c: Corpus, peer: Peer, sent: seq<Message>, run: Option<Run>)
    requires |c.digest| >= 16
  {
    exists s: Setup, answered: nat :: Ran(h, c, s, peer, answered, sent, run)
  }

  // ----- the client

  class Client {
    const host: Host
    const writable: nat -> bool
    var version: Bytes
    var nextID: nat
    var runID: Bytes
    var input: seq<Line>
    var output: seq<Message>

    constructor (host: Host, peer: Peer)
      ensures this.host == host && writable == peer.writable && version == CURRENT_VERSION && nextID == 0 && runID == ""
      ensures input == peer.lines && output == []
    {
      this.host, writable := host, peer.writable;
      version, nextID, runID, input, output := CURRENT_VERSION, 0, "", peer.lines, [];
    }

    /** The session stands after `k` turns that went well. */
    ghost predicate At(c: Corpus, s: Setup, peer: Peer, k: nat)
      requires |c.digest| >= 16
      reads this
    {
      && writable == peer.writable && k <= |peer.lines| && nextID == k && input == peer.lines[k..]
      && Progress(host, c, s, peer, k, output)
    }

    /**
     Sends one message with raw bytes as its payload and takes the reply that answers it. The bytes are
     sent in canonical form, so those that have none, or do not fit into a message, stop the session.
     */
    method ExchangeRaw(messageType: MessageType, expected: MessageType, raw: Bytes) returns (payload: Option<Bytes>)
      modifies this
      ensures version == old(version) && runID == old(runID) && nextID == old(nextID) + 1
      ensures var message := Request(Turn(messageType, expected, runID, Embedded(raw)), version, nextID);
              var sending := Sending(message, writable(old(nextID)));
              var answered := sending != [] && old(input) != [];
              && output == old(output) + sending
              && input == (if answered then old(input)[1..] else old(input))
              && payload == if answered then Correlated(old(input)[0], message.value, expected) else None
      ensures old(output) <= output && |output| <= |old(output)| + 1
      ensures |output| > |old(output)| <==> Embedded(raw).Some? && writable(old(nextID))
      ensures |output| > |old(output)| ==> IsRequest(output[|output| - 1], version, messageType, nextID, runID, Embedded(raw).value)
      ensures payload.Some? <==>
                && |output| > |old(output)| && old(input) != []
                && AnswersBy(old(input)[0], output[|output| - 1], expected)
      ensures payload.Some? ==> old(input)[0].Decoded? && payload == Some(old(input)[0].message.payload)
    {
      var k := nextID;
      nextID := nextID + 1;
      var embedded := EmbedRaw(raw);
      var message := Request(Turn(messageType, expected, runID, embedded), version, nextID);
      if message.None? || !writable(k) {
        return None;
      }
      output := output + [message.value];
      if input == [] {
        return None;
      }
      var line := input[0];
      input := input[1..];
      payload := Correlated(line, message.value, expected);
    }

    /** The same for a payload that is written first. */
    method Exchange(messageType: MessageType, expected: MessageType, content: Content) returns (payload: Option<Bytes>)
      modifies this
      ensures version == old(version) && runID == old(runID) && (payload.Some? ==> nextID == old(nextID) + 1)
      ensures var message := Request(Turn(messageType, expected, runID, Posted(host.wire, content)), version, old(nextID) + 1);
              var sending := Sending(message, writable(old(nextID)));
              var answered := sending != [] && old(input) != [];
              && output == old(output) + sending
              && input == (if answered then old(input)[1..] else old(input))
              && payload == if answered then Correlated(old(input)[0], message.value, expected) else None
    {
      hide Payload, Embedded, Strict, HostID;
      var written := WritePayload(ContentJson(host.wire, content));
      if written.None? {
        return None;
      }
      PayloadIsRead(ContentJson(host.wire, content));
      payload := ExchangeRaw(messageType, expected, written.value);
    }

    /** Hello, and the version the adapter selected. */
    method Greet(c: Corpus, ghost peer: Peer, ghost d: Descriptor) returns (ok: bool)
      requires |c.digest| >= 16 && version == CURRENT_VERSION && nextID == 0 && runID == ""
      requires writable == peer.writable && input == peer.lines && output == []
      modifies this
      ensures runID == ""
      ensures ok ==> At(c, Setup(version, d), peer, 1)
      ensures !ok ==> Stopped(host, c, Setup(version, d), peer, 0, output)
    {
      hide ValidDescriptor, ResultAt, Kept, HostID, SupportedVersion, Posted, Strict;
      var reply := Exchange(Hello, HelloAck, HELLO);
      var ack := None;
      if reply.Some? {
        ack := DecodeAcknowledgement(reply.value);
      }
      if ack.None? || !SupportedVersion(ack.value.selectedVersion) || ack.value.canonicalPolicy != CANONICAL_POLICY {
        StopsFirst(host, c, Setup(version, d), peer, output);
        return false;
      }
      version := ack.value.selectedVersion;
      ok := true;
    }

    method AskDescriptor(c: Corpus, ghost peer: Peer, ghost unknown: Descriptor) returns (d: Option<Descriptor>)
      requires |c.digest| >= 16 && runID == "" && At(c, Setup(version, unknown), peer, 1)
      modifies this
      ensures version == old(version)
      ensures d.Some? ==> At(c, Setup(version, d.value), peer, 2)
      ensures d.None? ==> Stopped(host, c, Setup(version, unknown), peer, 1, output)
    {
      hide ValidDescriptor, ResultAt, Kept, HostID, SupportedVersion, GoodAcknowledgement, Posted, Strict, ReadDescriptor;
      var reply := Exchange(Describe, DescriptorReply, EmptyContent);
      assert output[..1] == old(output);
      d := None;
      if reply.Some? {
        d := DecodeDescriptor(host.wire, reply.value);
      }
      if d.None? {
        StopsSecond(host, c, Setup(version, unknown), peer, output);
        return;
      }
      var sound := ValidateDescriptor(host.pipeline.checks, d.value);
      if !sound {
        StopsSecond(host, c, Setup(version, unknown), peer, output);
        return None;
      }
      FirstTurnIsBlind(host, c, Setup(version, unknown), Setup(version, d.value), peer);
      assert TurnOk(host, c, Setup(version, d.value), peer, 1);
    }

    method Begin(c: Corpus, ghost peer: Peer, d: Descriptor) returns (ok: bool)
      requires |c.digest| >= 16 && At(c, Setup(version, d), peer, 2)
      modifies this
      ensures version == old(version)
      ensures ok ==> At(c, Setup(version, d), peer, 3) && runID == RunIDOf(c)
      ensures !ok ==> Stopped(host, c, Setup(version, d), peer, 2, output)
    {
      hide ValidDescriptor, ResultAt, Kept, HostID, SupportedVersion, GoodAcknowledgement, GoodDescriptor, Posted, ReadBoundary;
      runID := "run-" + c.digest[..16];
      var reply := Exchange(BeginRun, RunStarted, BoundaryContent(RunBoundary(c)));
      assert output[..2] == old(output);
      var started := None;
      if reply.Some? {
        started := DecodeBoundary(reply.value);
      }
      if started != Some(RunBoundary(c)) {
        StopsLater(host, c, Setup(version, d), peer, 2, output);
        return false;
      }
      assert TurnOk(host, c, Setup(version, d), peer, 2);
      ok := true;
    }

    /** Hello, describe, begin_run. */
    method Initialize(c: Corpus, ghost peer: Peer) returns (d: Option<Descriptor>, ghost s: Setup, ghost answered: nat)
      requires |c.digest| >= 16 && version == CURRENT_VERSION && nextID == 0 && runID == ""
      requires writable == peer.writable && input == peer.lines && output == []
      modifies this
      ensures d.Some? ==> s == Setup(version, d.value) && runID == RunIDOf(c) && answered == 3 && At(c, s, peer, 3)
      ensures d.None? ==> answered < 3 && Stopped(host, c, s, peer, answered, output)
    {
      hide Stopped, Progress;
      ghost var unknown: Descriptor := *;
      answered := 0;
      var ok := Greet(c, peer, unknown);
      s := Setup(version, unknown);
      if !ok {
        return None, s, answered;
      }
      answered := 1;
      d := AskDescriptor(c, peer, unknown);
      if d.None? {
        return;
      }
      s, answered := Setup(version, d.value), 2;
      ok := Begin(c, peer, d.value);
      if !ok {
        return None, s, answered;
      }
      answered := 3;
    }

    method ExchangeResult(c: Corpus, ghost s: Setup, ghost peer: Peer, ghost k: nat, raw: Bytes) returns (result: Option<InvocationResult>)
      requires |c.digest| >= 16 && s.version == version && runID == RunIDOf(c) && At(c, s, peer, k)
      requires 3 <= k && k + 1 < TurnCount(host, c, s.descriptor) && TurnAt(host, c, s.descriptor, k).payload == Embedded(raw)
      modifies this
      ensures version == old(version) && runID == old(runID)
      ensures result.Some? ==>
                At(c, s, peer, k + 1) && peer.lines[k].Decoded? && result == ReadResult(host.wire, peer.lines[k].message.payload)
      ensures result.None? ==> Stopped(host, c, s, peer, k, output)
    {
      hide GoodAcknowledgement, GoodDescriptor, Kept, Embedded, Posted, HostID, ReadResult, ReadBoundary, ReadAcknowledgement, ReadDescriptor;
      var reply := ExchangeRaw(Evaluate, EvaluationResult, raw);
      assert output[..k] == old(output);
      result := None;
      if reply.Some? {
        result := DecodeResult(host.wire, reply.value);
      }
      if result.None? {
        StopsLater(host, c, s, peer, k, output);
        return;
      }
      assert TurnOk(host, c, s, peer, k);
    }

    /** One vector: skipped, or exchanged for a result. */
    method EvaluateVector(c: Corpus, ghost s: Setup, ghost peer: Peer, i: nat, d: Descriptor) returns (r: Option<CaseResult>)
      requires |c.digest| >= 16 && i < |c.vectors| && s == Setup(version, d) && runID == RunIDOf(c)
      requires At(c, s, peer, 3 + |Kept(host, c.vectors, d, i)|)
      modifies this
      ensures version == old(version) && runID == old(runID)
      ensures r.Some? ==> At(c, s, peer, 3 + |Kept(host, c.vectors, d, i + 1)|) && CaseResultAt(host, c, s, peer.lines, i, r.value)
      ensures r.None? ==> Stopped(host, c, s, peer, 3 + |Kept(host, c.vectors, d, i)|, output)
    {
      hide Available, HostID, Judged, IDFromRaw, SkipResult, Progress, Stopped, Embedded, Posted, ReadResult;
      var vector := c.vectors[i];
      if |vector.raw| > d.limits.maxCaseBytes || !Available(host, vector, d) {
        return Some(SkipResult(host, vector, d));
      }
      KeptGrows(host, c.vectors, d, i + 1, |c.vectors|);
      ghost var k := 3 + |Kept(host, c.vectors, d, i)|;
      var result := ExchangeResult(c, s, peer, k, vector.raw);
      if result.None? {
        return None;
      }
      var p := host.pipeline;
      var judged := JudgeVector(p.checks, p.digest, vector, IDFromRaw(p, vector.raw), result.value);
      r := Some(judged);
    }

    /** The count sent at the end is that of all vectors, sent or skipped. */
    method EndSession(c: Corpus, ghost s: Setup, ghost peer: Peer) returns (ok: bool)
      requires |c.digest| >= 16 && s.version == version && runID == RunIDOf(c)
      requires At(c, s, peer, TurnCount(host, c, s.descriptor) - 1)
      modifies this
      ensures version == old(version)
      ensures ok ==> At(c, s, peer, TurnCount(host, c, s.descriptor))
      ensures !ok ==> Stopped(host, c, s, peer, TurnCount(host, c, s.descriptor) - 1, output)
    {
      hide ValidDescriptor, HostID, SupportedVersion, GoodAcknowledgement, GoodDescriptor, Kept, Posted, ReadBoundary;
      ghost var k := TurnCount(host, c, s.descriptor) - 1;
      var boundary := Boundary(runID, |c.vectors|, c.digest);
      var reply := Exchange(EndRun, RunResult, BoundaryContent(boundary));
      assert output[..k] == old(output);
      var ended := None;
      if reply.Some? {
        ended := DecodeBoundary(reply.value);
      }
      if ended != Some(boundary) {
        StopsLater(host, c, s, peer, k, output);
        return false;
      }
      assert TurnOk(host, c, s, peer, k);
      ok := true;
    }
  }

  /** A whole run of the client over the lines an adapter writes; `exits` says whether the adapter then exits well. */
  method RunAdapterCorpus(h: Host, c: Corpus, peer: Peer) returns (run: Option<Run>, sent: seq<Message>)
    requires |c.digest| >= 16
    ensures RunsTo(h, c, peer, sent, run)
    ensures run.Some? ==> Correlates(c, sent, peer.lines)
    ensures run.Some? ==> ReportsSkips(h, c.vectors, run.value)
  {
    hide Ran, Correlates, ReportsSkips;
    ghost var s, answered;
    run, sent, s, answered := RunTurns(h, c, peer);
    if run.Some? {
      RunCorrelates(h, c, s, peer, answered, sent, run);
      RunReportsSkips(h, c, s, peer, answered, sent, run);
    }
  }

  method RunTurns(h: Host, c: Corpus, peer: Peer)
    returns (run: Option<Run>, sent: seq<Message>, ghost s: Setup, ghost answered: nat)
    requires |c.digest| >= 16
    ensures Ran(h, c, s, peer, answered, sent, run)
  {
    hide Progress, Stopped, CaseResultAt, TurnAt;
    var client := new Client(h, peer);
    var d;
    d, s, answered := client.Initialize(c, peer);
    if d.None? {
      return None, client.output, s, answered;
    }
    var results: seq<CaseResult> := [];
    for i := 0 to |c.vectors|
      invariant client.host == h && client.version == s.version && client.runID == RunIDOf(c)
      invariant answered == 3 + |Kept(h, c.vectors, d.value, i)| && client.At(c, s, peer, answered)
      invariant |results| == i && forall j | 0 <= j < i :: CaseResultAt(h, c, s, peer.lines, j, results[j])
    {
      var r := client.EvaluateVector(c, s, peer, i, d.value);
      if r.None? {
        KeptGrows(h, c.vectors, d.value, i, |c.vectors|);
        return None, client.output, s, answered;
      }
      results := results + [r.value];
      answered := 3 + |Kept(h, c.vectors, d.value, i + 1)|;
    }
    var ok := client.EndSession(c, s, peer);
    sent := client.output;
    if !ok {
      return None, sent, s, answered;
    }
    answered := answered + 1;
    if client.input != [] || !peer.exits {
      return None, sent, s, answered;
    }
    run := Some(Run(client.version, d.value, results));
  }

  /** What the first reply has to say does not depend on the descriptor still to come. */
  lemma FirstTurnIsBlind(h: Host, c: Corpus, s: Setup, t: Setup, peer: Peer)
    requires |c.digest| >= 16 && s.version == t.version
    ensures TurnOk(h, c, s, peer, 0) <==> TurnOk(h, c, t, peer, 0)
    ensures MessageAt(h, c, s.descriptor, s.version, 0) == MessageAt(h, c, t.descriptor, t.version, 0)
    ensures MessageAt(h, c, s.descriptor, s.version, 1) == MessageAt(h, c, t.descriptor, t.version, 1)
  {
    hide Posted, ReadAcknowledgement, HostID, Kept;
  }

  /** The reply that comes for a message that was sent. */
  ghost function ReplyTaken(peer: Peer, k: nat, message: Option<Message>, expected: MessageType): Option<Bytes> {
    if message.Some? && peer.writable(k) && k < |peer.lines| then Correlated(peer.lines[k], message.value, expected) else None
  }

  lemma StopsFirst(h: Host, c: Corpus, s: Setup, peer: Peer, sent: seq<Message>)
    requires |c.digest| >= 16
    requires var message := MessageAt(h, c, s.descriptor, s.version, 0);
             && sent == Sending(message, peer.writable(0))
             && var payload := ReplyTaken(peer, 0, message, HelloAck);
                payload.None? || !GoodAcknowledgement(payload.value)
    ensures Stopped(h, c, s, peer, 0, sent)
  {
    hide ValidDescriptor, Kept, HostID, SupportedVersion, Posted, ReadAcknowledgement;
    forall t ensures !TurnOk(h, c, t, peer, 0) {
      assert MessageAt(h, c, t.descriptor, t.version, 0) == MessageAt(h, c, s.descriptor, s.version, 0);
    }
  }

  lemma StopsSecond(h: Host, c: Corpus, s: Setup, peer: Peer, sent: seq<Message>)
    requires |c.digest| >= 16 && |sent| >= 1 && Progress(h, c, s, peer, 1, sent[..1])
    requires var message := MessageAt(h, c, s.descriptor, s.version, 1);
             && sent[1..] == Sending(message, peer.writable(1))
             && var payload := ReplyTaken(peer, 1, message, DescriptorReply);
                payload.None? || !GoodDescriptor(h, payload.value)
    ensures Stopped(h, c, s, peer, 1, sent)
  {
    hide ValidDescriptor, Kept, HostID, SupportedVersion, GoodDescriptor, GoodAcknowledgement, Posted, ReadDescriptor;
    forall t: Setup | t.version == s.version ensures !TurnOk(h, c, t, peer, 1) {
      assert MessageAt(h, c, t.descriptor, t.version, 1) == MessageAt(h, c, s.descriptor, s.version, 1);
    }
  }

  lemma StopsLater(h: Host, c: Corpus, s: Setup, peer: Peer, k: nat, sent: seq<Message>)
    requires |c.digest| >= 16 && k >= 2 && |sent| >= k && Progress(h, c, s, peer, k, sent[..k])
    requires k < TurnCount(h, c, s.descriptor)
    requires var message := MessageAt(h, c, s.descriptor, s.version, k);
             && sent[k..] == Sending(message, peer.writable(k))
             && var payload := ReplyTaken(peer, k, message, TurnAt(h, c, s.descriptor, k).expected);
                payload.None? || !Takes(h, c, s.descriptor, k, payload.value)
    ensures Stopped(h, c, s, peer, k, sent)
  {
    hide TurnAt, Takes, HostID;
  }

  // ----- what a reported run says

  lemma HostIDsDiffer(j: nat, k: nat)
    ensures HostID(j) == HostID(k) <==> j == k
  {
    ValueOfPadded(j, 6);
    ValueOfPadded(k, 6);
    if HostID(j) == HostID(k) {
      assert HostID(j)[5..] == Padded(j, 6) && HostID(k)[5..] == Padded(k, 6);
    }
  }

  /** A turn that goes well takes a line that answers the message of the turn, in every field. */
  lemma TurnAnswers(h: Host, c: Corpus, s: Setup, peer: Peer, k: nat)
    requires |c.digest| >= 16 && k < TurnCount(h, c, s.descriptor) && TurnOk(h, c, s, peer, k)
    ensures MessageAt(h, c, s.descriptor, s.version, k).Some?
    ensures var m := MessageAt(h, c, s.descriptor, s.version, k).value;
            AnswersBy(peer.lines[k], m, AskedType(m.messageType)) && IsTurn(c, m, k, TurnCount(h, c, s.descriptor))
  {
    hide Takes, Posted, Embedded, Kept, Padded;
  }

  /**
   In a reported run there is one line for every message, and each answers its own: by type, identity,
   version and run.
   */
  lemma RunCorrelates(h: Host, c: Corpus, s: Setup, peer: Peer, answered: nat, sent: seq<Message>, run: Option<Run>)
    requires |c.digest| >= 16 && Ran(h, c, s, peer, answered, sent, run) && run.Some?
    ensures Correlates(c, sent, peer.lines)
  {
    hide TurnOk, MessageAt, CaseResultAt, Kept, IsTurn, AnswersBy;
    forall k | 0 <= k < |sent| ensures IsTurn(c, sent[k], k, |sent|) && AnswersBy(peer.lines[k], sent[k], AskedType(sent[k].messageType)) {
      assert TurnOk(h, c, s, peer, k);
      TurnAnswers(h, c, s, peer, k);
    }
  }

  /** The `k`-th of `n` messages of a run. */
  predicate IsTurn(c: Corpus, m: Message, k: nat, n: nat)
    requires |c.digest| >= 16
  {
    && m.messageID == "host." + Padded(k + 1, 6) && m.runID == (if k < 2 then "" else "run-" + c.digest[..16])
    && m.messageType == if k == 0 then Hello else if k == 1 then Describe else if k == 2 then BeginRun else if k + 1 < n then Evaluate else EndRun
  }

  predicate Correlates(c: Corpus, sent: seq<Message>, lines: seq<Line>)
    requires |c.digest| >= 16
  {
    && |lines| == |sent| >= 4
    && forall k | 0 <= k < |sent| :: IsTurn(c, sent[k], k, |sent|) && AnswersBy(lines[k], sent[k], AskedType(sent[k].messageType))
  }

  /** Some capability the vector asks for is not among the modes of the descriptor. */
  predicate Lacks(h: Host, v: CaseVector, d: Descriptor) {
    && h.capabilities(v.raw).Some?
    && exists name | name in h.capabilities(v.raw).value :: d.executionModes.None? || name !in d.executionModes.value
  }

  /** What is reported of a vector that was not sent: too long is a failure, a missing capability is unsupported. */
  predicate ReportsSkip(h: Host, v: CaseVector, d: Descriptor, r: CaseResult) {
    && r.caseID == v.caseID && r.level == v.level && r.kind == v.kind
    && r.findingCodes == [] && r.observedDigest == "" && r.resultDigest == ""
    && if |v.raw| > d.limits.maxCaseBytes then r.outcome == Failed && r.reason == "case exceeds adapter descriptor max_case_bytes"
       else r.outcome == Unsupported && r.reason == "adapter descriptor does not declare the required capability"
  }

  lemma SkippedMeans(h: Host, v: CaseVector, d: Descriptor)
    ensures IsSkipped(h, v, d) <==> |v.raw| > d.limits.maxCaseBytes || Lacks(h, v, d)
    ensures IsSkipped(h, v, d) ==> ReportsSkip(h, v, d, SkipResult(h, v, d))
  {
    AvailableMeans(h, v, d);
    hide Available, Lacks;
  }

  lemma AvailableMeans(h: Host, v: CaseVector, d: Descriptor)
    ensures Available(h, v, d) <==> !Lacks(h, v, d)
  {
    if h.capabilities(v.raw).Some? {
      var required := h.capabilities(v.raw).value;
      if !Available(h, v, d) {
        var i :| 0 <= i < |required| && required[i] !in Modes(d);
        assert required[i] in required;
      } else {
        forall name | name in required ensures d.executionModes.Some? && name in d.executionModes.value {
          var i :| 0 <= i < |required| && required[i] == name;
          assert required[i] in Modes(d);
        }
      }
    }
  }

  /** One result a vector; those of vectors too long or lacking a capability say so. */
  predicate ReportsSkips(h: Host, vectors: seq<CaseVector>, run: Run) {
    && |run.results| == |vectors|
    && forall i: nat | i < |vectors| && (|vectors[i].raw| > run.descriptor.limits.maxCaseBytes || Lacks(h, vectors[i], run.descriptor)) ::
         ReportsSkip(h, vectors[i], run.descriptor, run.results[i])
  }

  lemma RunReportsSkips(h: Host, c: Corpus, s: Setup, peer: Peer, answered: nat, sent: seq<Message>, run: Option<Run>)
    requires |c.digest| >= 16 && Ran(h, c, s, peer, answered, sent, run) && run.Some?
    ensures ReportsSkips(h, c.vectors, run.value)
  {
    hide Progress, Stopped, ResultAt, Judged, IDFromRaw, SkipResult, IsSkipped, Lacks, ReportsSkip;
    forall i: nat | i < |c.vectors| && (|c.vectors[i].raw| > s.descriptor.limits.maxCaseBytes || Lacks(h, c.vectors[i], s.descriptor))
      ensures ReportsSkip(h, c.vectors[i], s.descriptor, run.value.results[i])
    {
      SkippedMeans(h, c.vectors[i], s.descriptor);
      assert CaseResultAt(h, c, s, peer.lines, i, run.value.results[i]);
    }
  }
}
