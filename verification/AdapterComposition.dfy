/**
 Both sides together: the client's messages are written to lines the adapter reads, and the adapter's
 replies to lines the client reads. A run is reported exactly when the client skipped no vector and
 every vector and its result made it across.
 */
module AdapterComposition {
  import opened Basics
  import opened Utf8
  import opened Digits
  import opened Texts
  import opened JsonGrammar
  import opened JsonParser
  import opened CanonicalJson
  import opened ProtocolModel
  import opened ReferencePipeline
  import opened ReferenceAdapter
  import opened AdapterWire
  import opened WireFidelity
  import opened AdapterSession
  import opened AdapterClient
  import opened AdapterScript
  import Normative = Corpus

  // ----- the composition

  /** The lines one side reads of what the other sends. */
  ghost function Lines(ms: seq<Message>, limit: int): seq<Line> {
    seq(|ms|, i requires 0 <= i < |ms| => LineOf(ms[i], limit))
  }

  predicate Always(k: nat) {
    true
  }

  function CurrentSetup(a: Adapter): Setup {
    Setup(CURRENT_VERSION, a.descriptor)
  }

  /** What the client meets: the lines of the replies, and an adapter that exits well if it finished. */
  ghost function PeerOf(replies: seq<Message>, end: End): Peer {
    Peer(Lines(replies, CLIENT_LIMIT), Always, end == Finished)
  }

  /** What the adapter reads of the messages sent. */
  ghost function InputOf(a: Adapter, sent: seq<Message>): seq<Line> {
    Lines(sent, a.descriptor.limits.maxMessageBytes)
  }

  /** One session: the client ran over the lines the adapter wrote, the adapter over what the client sent. */
  ghost predicate Session(h: Host, a: Adapter, c: Corpus, s: Setup, answered: nat, sent: seq<Message>, run: Option<Run>,
                          accepted: nat, end: End, replies: seq<Message>)
    requires |c.digest| >= 16
  {
    && Ran(h, c, s, PeerOf(replies, end), answered, sent, run)
    && Served(h.wire, a, InputOf(a, sent), false, Always, accepted, end, replies)
  }

  /** The turns before `n` all go well. */
  ghost predicate GoesWell(h: Host, a: Adapter, c: Corpus, n: nat)
    requires |c.digest| >= 16
  {
    n <= TurnCount(h, c, a.descriptor) && forall k | 0 <= k < n :: TurnEnd(h, a, c, k).None?
  }

  /** What a turn that goes well consists of. */
  lemma GoodTurn(h: Host, a: Adapter, c: Corpus, k: nat)
    requires |c.digest| >= 16 && k < TurnCount(h, c, a.descriptor) && TurnEnd(h, a, c, k).None?
    ensures Script(h, a, c, k).Some? && Passes(Script(h, a, c, k).value, a.descriptor.limits.maxMessageBytes)
    ensures var answer := AnswerIn(h.wire, a, CURRENT_VERSION, Script(h, a, c, k).value);
            answer.Some? && Passes(answer.value, CLIENT_LIMIT)
    ensures k + 1 < TurnCount(h, c, a.descriptor) || NothingSkipped(h, c, a.descriptor)
  {
    hide MessageAt, Passes, AnswerIn, TurnCount, NothingSkipped;
  }

  /** The messages of good turns are lines the adapter decodes. */
  lemma InputDecodes(h: Host, a: Adapter, c: Corpus, sent: seq<Message>, n: nat, k: nat)
    requires ValidDigest(c.digest) && k < n && FollowsScript(h, a, c, sent, n) && GoesWell(h, a, c, n)
    ensures InputOf(a, sent)[k] == Decoded(sent[k])
  {
    DigestIsLong(c);
    hide MessageAt, Passes, TurnEnd, TurnCount, NothingSkipped, ValidDigest, LineOf, AnswerIn;
    assert TurnEnd(h, a, c, k).None? && Some(sent[k]) == Script(h, a, c, k);
    GoodTurn(h, a, c, k);
    ScriptLine(h, a, c, k, a.descriptor.limits.maxMessageBytes);
  }

  /** The reply to a good turn, read as it was written, is taken. */
  lemma AnswerIsTaken(h: Host, a: Adapter, c: Corpus, peer: Peer, k: nat)
    requires Compatible(h, a, c) && k < TurnCount(h, c, a.descriptor) && TurnEnd(h, a, c, k).None?
    requires k < |peer.lines| && peer.writable(k)
    requires Script(h, a, c, k).Some? && AnswerIn(h.wire, a, CURRENT_VERSION, Script(h, a, c, k).value).Some?
    requires peer.lines[k] == LineOf(AnswerIn(h.wire, a, CURRENT_VERSION, Script(h, a, c, k).value).value, CLIENT_LIMIT)
    ensures TurnOk(h, c, CurrentSetup(a), peer, k)
  {
    hide Compatible, MessageAt, Passes, TurnEnd, TurnCount, NothingSkipped, ValidDigest, LineOf, AnswerIn, Takes, Correlated;
    CompatibleCorpus(h, a, c);
    GoodTurn(h, a, c, k);
    AnswerLine(h, a, c, k);
    AnswersAreTaken(h, a, c, k);
  }

  /** As far as the client follows the script and the turns go well, the adapter answers what the client takes. */
  lemma ScriptIsAnswered(h: Host, a: Adapter, c: Corpus, sent: seq<Message>, m: nat, accepted: nat, end: End, replies: seq<Message>)
    requires Compatible(h, a, c) && FollowsScript(h, a, c, sent, m) && GoesWell(h, a, c, m)
    requires Served(h.wire, a, InputOf(a, sent), false, Always, accepted, end, replies)
    ensures accepted >= m && |replies| >= m
    ensures forall k | 0 <= k < m :: Some(replies[k]) == AnswerIn(h.wire, a, CURRENT_VERSION, sent[k])
    ensures forall k | 0 <= k < m :: TurnOk(h, c, CurrentSetup(a), PeerOf(replies, end), k)
  {
    hide Compatible, MessageAt, Passes, TurnEnd, TurnCount, NothingSkipped, ValidDigest, LineOf, AnswerIn, TurnOk, Continues, Refusal, Selection, Crashes;
    CompatibleCorpus(h, a, c);
    if accepted < m {
      NotStoppedEarly(h, a, c, sent, m, accepted, end, replies);
    }
    forall k | 0 <= k < m
      ensures TurnOk(h, c, CurrentSetup(a), PeerOf(replies, end), k) && Some(replies[k]) == AnswerIn(h.wire, a, CURRENT_VERSION, sent[k])
    {
      AnsweredTurn(h, a, c, sent, m, accepted, end, replies, k);
    }
  }

  lemma NotStoppedEarly(h: Host, a: Adapter, c: Corpus, sent: seq<Message>, m: nat, accepted: nat, end: End, replies: seq<Message>)
    requires Compatible(h, a, c) && FollowsScript(h, a, c, sent, m) && GoesWell(h, a, c, m)
    requires Served(h.wire, a, InputOf(a, sent), false, Always, accepted, end, replies)
    ensures accepted >= m
  {
    hide Compatible, MessageAt, Passes, TurnEnd, TurnCount, NothingSkipped, ValidDigest, LineOf, AnswerIn, Continues, Refusal, Selection, Crashes;
    CompatibleCorpus(h, a, c);
    if accepted < m {
      var lines := InputOf(a, sent);
      forall k | 0 <= k <= accepted ensures lines[k] == Decoded(sent[k]) {
        InputDecodes(h, a, c, sent, m, k);
      }
      var ms := Messages(lines, accepted + 1);
      assert FollowsScript(h, a, c, ms, accepted + 1) by {
        assert forall j | 0 <= j <= accepted :: ms[j] == sent[j];
      }
      assert TurnEnd(h, a, c, accepted).None?;
      GoodTurn(h, a, c, accepted);
      SelectsCurrent(h, a, c);
      ScriptContinues(h, a, c, ms, accepted);
    }
  }

  lemma AnsweredTurn(h: Host, a: Adapter, c: Corpus, sent: seq<Message>, m: nat, accepted: nat, end: End, replies: seq<Message>, k: nat)
    requires Compatible(h, a, c) && FollowsScript(h, a, c, sent, m) && GoesWell(h, a, c, m) && k < m <= accepted
    requires Served(h.wire, a, InputOf(a, sent), false, Always, accepted, end, replies)
    ensures TurnOk(h, c, CurrentSetup(a), PeerOf(replies, end), k)
    ensures Some(replies[k]) == AnswerIn(h.wire, a, CURRENT_VERSION, sent[k])
  {
    hide Compatible, MessageAt, Passes, TurnEnd, TurnCount, NothingSkipped, ValidDigest, LineOf, AnswerIn, Continues, EndsAt, Selection, TurnOk;
    CompatibleCorpus(h, a, c);
    InputDecodes(h, a, c, sent, m, 0);
    InputDecodes(h, a, c, sent, m, k);
    SelectsCurrent(h, a, c);
    assert Some(sent[0]) == Script(h, a, c, 0) && Some(sent[k]) == Script(h, a, c, k);
    assert TurnEnd(h, a, c, k).None?;
    assert Answer(h.wire, a, sent[0], sent[k]) == Some(replies[k]);
    AnswerIsTaken(h, a, c, PeerOf(replies, end), k);
  }

  // ----- the first turn that does not go well

  /** The client sent the good turns and, of those after, nothing or turn `n` first. */
  ghost predicate ReachesTurn(h: Host, a: Adapter, c: Corpus, sent: seq<Message>, n: nat)
    requires |c.digest| >= 16
  {
    && n < TurnCount(h, c, a.descriptor) && GoesWell(h, a, c, n) && FollowsScript(h, a, c, sent, n)
    && (|sent| > n ==> Some(sent[n]) == Script(h, a, c, n))
  }

  /** A message too long for the adapter ends its input. */
  lemma TooLongEnds(h: Host, a: Adapter, c: Corpus, sent: seq<Message>, n: nat, accepted: nat, end: End, replies: seq<Message>)
    requires Compatible(h, a, c) && ReachesTurn(h, a, c, sent, n) && n < |sent|
    requires !Passes(sent[n], a.descriptor.limits.maxMessageBytes)
    requires Served(h.wire, a, InputOf(a, sent), false, Always, accepted, end, replies)
    ensures accepted == n == |replies| && end == ReadFailed
  {
    hide Compatible, MessageAt, Passes, TurnEnd, TurnCount, NothingSkipped, ValidDigest, LineOf, AnswerIn, Continues, Selection, EndsAt, TurnOk;
    CompatibleCorpus(h, a, c);
    ScriptLine(h, a, c, n, a.descriptor.limits.maxMessageBytes);
    ScriptIsAnswered(h, a, c, sent, n, accepted, end, replies);
    assert InputOf(a, sent)[n] == TooLong;
  }

  /** The messages up to a turn whose line is decoded. */
  lemma InputReaches(h: Host, a: Adapter, c: Corpus, sent: seq<Message>, n: nat)
    requires Compatible(h, a, c) && ReachesTurn(h, a, c, sent, n) && n < |sent|
    requires Passes(sent[n], a.descriptor.limits.maxMessageBytes)
    ensures n < |InputOf(a, sent)| && forall k | 0 <= k <= n :: InputOf(a, sent)[k] == Decoded(sent[k])
    ensures var ms := Messages(InputOf(a, sent), n + 1);
            && ms == sent[..n + 1] && FollowsScript(h, a, c, ms, n + 1) && Selection(a, ms[0]) == CURRENT_VERSION
            && (Continues(a, ms, n) <==> n + 1 < TurnCount(h, c, a.descriptor) || NothingSkipped(h, c, a.descriptor))
  {
    hide Compatible, MessageAt, Passes, TurnEnd, TurnCount, NothingSkipped, ValidDigest, LineOf, AnswerIn, Continues, Selection;
    CompatibleCorpus(h, a, c);
    forall k | 0 <= k <= n ensures InputOf(a, sent)[k] == Decoded(sent[k]) {
      if k < n {
        InputDecodes(h, a, c, sent, n, k);
      } else {
        ScriptLine(h, a, c, n, a.descriptor.limits.maxMessageBytes);
      }
    }
    var ms := Messages(InputOf(a, sent), n + 1);
    assert forall k | 0 <= k <= n :: ms[k] == sent[k];
    SelectsCurrent(h, a, c);
    assert Some(ms[0]) == Script(h, a, c, 0);
    ScriptContinues(h, a, c, ms, n);
  }

  /** A skipped vector shows at the end: the counts differ and the adapter refuses. */
  lemma SkipIsRefused(h: Host, a: Adapter, c: Corpus, sent: seq<Message>, n: nat, accepted: nat, end: End, replies: seq<Message>)
    requires Compatible(h, a, c) && ReachesTurn(h, a, c, sent, n) && n < |sent|
    requires n + 1 == TurnCount(h, c, a.descriptor) && !NothingSkipped(h, c, a.descriptor)
    requires Passes(sent[n], a.descriptor.limits.maxMessageBytes)
    requires Served(h.wire, a, InputOf(a, sent), false, Always, accepted, end, replies)
    ensures accepted == n && |replies| == n + 1 && end == End.Refused
    ensures !TurnOk(h, c, CurrentSetup(a), PeerOf(replies, end), n)
  {
    hide Compatible, MessageAt, Passes, TurnEnd, TurnCount, NothingSkipped, ValidDigest, LineOf, AnswerIn, Answer, Continues, Selection, TurnOk, Refusal, Crashes;
    CompatibleCorpus(h, a, c);
    InputReaches(h, a, c, sent, n);
    CountedTurns(h, c, a.descriptor);
    ScriptIsAnswered(h, a, c, sent, n, accepted, end, replies);
    var lines := InputOf(a, sent);
    var ms := Messages(lines, n + 1);
    if accepted > n {
      assert Continues(a, Messages(lines, accepted), n);
      SamePrefix(a, Messages(lines, accepted), ms, n);
    }
    RefusalLine(h, a, c, ms, n);
    FailureIsNotTaken(h, c, CurrentSetup(a), PeerOf(replies, end), n);
  }

  lemma FailureIsNotTaken(h: Host, c: Corpus, s: Setup, peer: Peer, k: nat)
    requires |c.digest| >= 16
    requires k < |peer.lines| ==> peer.lines[k].Decoded? ==> peer.lines[k].message.messageType == Failure
    ensures !TurnOk(h, c, s, peer, k)
  {
    hide MessageAt, Takes;
  }

  /** A turn the adapter does not answer: its evaluator crashed, or the result cannot be written. */
  lemma NoAnswerEnds(h: Host, a: Adapter, c: Corpus, sent: seq<Message>, n: nat, accepted: nat, end: End, replies: seq<Message>)
    requires Compatible(h, a, c) && ReachesTurn(h, a, c, sent, n) && n < |sent|
    requires n + 1 < TurnCount(h, c, a.descriptor) || NothingSkipped(h, c, a.descriptor)
    requires Passes(sent[n], a.descriptor.limits.maxMessageBytes) && AnswerIn(h.wire, a, CURRENT_VERSION, sent[n]).None?
    requires Served(h.wire, a, InputOf(a, sent), false, Always, accepted, end, replies)
    ensures accepted == n == |replies| && end == if Crashes(a, sent[n]) then Crashed else ReplyFailed
  {
    hide Compatible, MessageAt, Passes, TurnEnd, TurnCount, NothingSkipped, ValidDigest, LineOf, AnswerIn, Continues, Selection, TurnOk, Refusal, Crashes;
    CompatibleCorpus(h, a, c);
    InputReaches(h, a, c, sent, n);
    ScriptIsAnswered(h, a, c, sent, n, accepted, end, replies);
  }

  /** A turn that is answered. */
  lemma AnswerFollows(h: Host, a: Adapter, c: Corpus, sent: seq<Message>, n: nat, accepted: nat, end: End, replies: seq<Message>)
    requires Compatible(h, a, c) && ReachesTurn(h, a, c, sent, n) && n < |sent|
    requires n + 1 < TurnCount(h, c, a.descriptor) || NothingSkipped(h, c, a.descriptor)
    requires Passes(sent[n], a.descriptor.limits.maxMessageBytes) && AnswerIn(h.wire, a, CURRENT_VERSION, sent[n]).Some?
    requires Served(h.wire, a, InputOf(a, sent), false, Always, accepted, end, replies)
    ensures accepted > n && |replies| > n && Some(replies[n]) == AnswerIn(h.wire, a, CURRENT_VERSION, sent[n])
  {
    hide Compatible, MessageAt, Passes, TurnEnd, TurnCount, NothingSkipped, ValidDigest, LineOf, AnswerIn, Continues, Selection, TurnOk, Refusal, Crashes;
    CompatibleCorpus(h, a, c);
    InputReaches(h, a, c, sent, n);
    ScriptIsAnswered(h, a, c, sent, n, accepted, end, replies);
  }

  /** How a turn that does not go well fails. */
  lemma BadTurn(h: Host, a: Adapter, c: Corpus, k: nat)
    requires |c.digest| >= 16 && TurnEnd(h, a, c, k).Some? && Script(h, a, c, k).Some?
    ensures var m, end := Script(h, a, c, k).value, TurnEnd(h, a, c, k).value;
            if !Passes(m, a.descriptor.limits.maxMessageBytes) then end == ReadFailed
            else if k + 1 == TurnCount(h, c, a.descriptor) && !NothingSkipped(h, c, a.descriptor) then end == End.Refused
            else if AnswerIn(h.wire, a, CURRENT_VERSION, m).None? then end == if Crashes(a, m) then Crashed else ReplyFailed
            else !Passes(AnswerIn(h.wire, a, CURRENT_VERSION, m).value, CLIENT_LIMIT) && end == EndedEarly
  {
    hide MessageAt, Passes, AnswerIn, TurnCount, NothingSkipped, Crashes;
  }

  /** The client does not take a turn that does not go well. */
  lemma BadTurnIsNotTaken(h: Host, a: Adapter, c: Corpus, sent: seq<Message>, n: nat, accepted: nat, end: End, replies: seq<Message>)
    requires Compatible(h, a, c) && ReachesTurn(h, a, c, sent, n) && TurnEnd(h, a, c, n).Some?
    requires Served(h.wire, a, InputOf(a, sent), false, Always, accepted, end, replies)
    ensures !TurnOk(h, c, CurrentSetup(a), PeerOf(replies, end), n)
  {
    hide Compatible, MessageAt, Passes, TurnEnd, TurnCount, NothingSkipped, ValidDigest, LineOf, AnswerIn, Continues, Selection, EndsAt, Answered, Crashes, Correlated, Takes, GoesWell;
    CompatibleCorpus(h, a, c);
    ScriptIsAnswered(h, a, c, sent, n, accepted, end, replies);
    if Script(h, a, c, n).Some? && |sent| > n {
      BadTurn(h, a, c, n);
      if !Passes(sent[n], a.descriptor.limits.maxMessageBytes) {
        TooLongEnds(h, a, c, sent, n, accepted, end, replies);
      } else if n + 1 == TurnCount(h, c, a.descriptor) && !NothingSkipped(h, c, a.descriptor) {
        SkipIsRefused(h, a, c, sent, n, accepted, end, replies);
      } else if AnswerIn(h.wire, a, CURRENT_VERSION, sent[n]).None? {
        NoAnswerEnds(h, a, c, sent, n, accepted, end, replies);
      } else {
        AnswerFollows(h, a, c, sent, n, accepted, end, replies);
        AnswerLine(h, a, c, n);
        FailureIsNotTaken(h, c, CurrentSetup(a), PeerOf(replies, end), n);
      }
    }
  }

  /** When it is the last one sent, the adapter ends as the turn says. */
  lemma BadTurnEnds(h: Host, a: Adapter, c: Corpus, sent: seq<Message>, n: nat, accepted: nat, end: End, replies: seq<Message>)
    requires Compatible(h, a, c) && ReachesTurn(h, a, c, sent, n) && TurnEnd(h, a, c, n).Some?
    requires |sent| == if Script(h, a, c, n).Some? then n + 1 else n
    requires Served(h.wire, a, InputOf(a, sent), false, Always, accepted, end, replies)
    ensures TurnEnd(h, a, c, n) == Some(end)
  {
    hide Compatible, MessageAt, Passes, TurnEnd, TurnCount, NothingSkipped, ValidDigest, AnswerIn, Continues, Selection, EndsAt, Answered, Crashes, LineOf;
    CompatibleCorpus(h, a, c);
    ScriptIsAnswered(h, a, c, sent, n, accepted, end, replies);
    if Script(h, a, c, n).None? {
      NoMessage(h, a, c, n);
      if n > 0 {
        LastIsNotEnd(h, a, c, sent, n);
      }
    } else {
      BadTurn(h, a, c, n);
      if !Passes(sent[n], a.descriptor.limits.maxMessageBytes) {
        TooLongEnds(h, a, c, sent, n, accepted, end, replies);
      } else if n + 1 == TurnCount(h, c, a.descriptor) && !NothingSkipped(h, c, a.descriptor) {
        SkipIsRefused(h, a, c, sent, n, accepted, end, replies);
      } else if AnswerIn(h.wire, a, CURRENT_VERSION, sent[n]).None? {
        NoAnswerEnds(h, a, c, sent, n, accepted, end, replies);
      } else {
        AnswerFollows(h, a, c, sent, n, accepted, end, replies);
        InputReaches(h, a, c, sent, n);
        TooLongAnswerIsNotLast(h, a, c, n);
        ScriptTypes(h, a, c, n);
      }
    }
  }

  lemma NoMessage(h: Host, a: Adapter, c: Corpus, k: nat)
    requires |c.digest| >= 16 && Script(h, a, c, k).None?
    ensures TurnEnd(h, a, c, k) == Some(EndedEarly)
  {
    hide MessageAt;
  }

  lemma LastIsNotEnd(h: Host, a: Adapter, c: Corpus, sent: seq<Message>, n: nat)
    requires ValidDigest(c.digest) && ReachesTurn(h, a, c, sent, n) && n > 0
    ensures InputOf(a, sent)[n - 1].Decoded? && InputOf(a, sent)[n - 1].message.messageType != EndRun
  {
    hide MessageAt, TurnEnd, TurnCount, ValidDigest, LineOf;
    DigestIsLong(c);
    InputDecodes(h, a, c, sent, n, n - 1);
    assert Some(sent[n - 1]) == Script(h, a, c, n - 1);
    ScriptTypes(h, a, c, n - 1);
  }

  lemma TooLongAnswerIsNotLast(h: Host, a: Adapter, c: Corpus, k: nat)
    requires Compatible(h, a, c) && k < TurnCount(h, c, a.descriptor) && TurnEnd(h, a, c, k) == Some(EndedEarly)
    ensures 3 <= k && k + 1 < TurnCount(h, c, a.descriptor)
  {
    hide Compatible, MessageAt, TurnEnd, TurnCount, NothingSkipped;
    if k < 3 || k + 1 == TurnCount(h, c, a.descriptor) {
      ControlTurns(h, a, c, k);
    }
  }

  // ----- the client over the adapter's lines

  /** How every run begins. */
  lemma RunOpens(h: Host, c: Corpus, s: Setup, peer: Peer, answered: nat, sent: seq<Message>, run: Option<Run>)
    requires |c.digest| >= 16 && Ran(h, c, s, peer, answered, sent, run) && peer.writable == Always
    ensures sent == [] ==> answered == 0 && MessageAt(h, c, s.descriptor, s.version, 0).None?
    ensures sent != [] ==> Some(sent[0]) == MessageAt(h, c, s.descriptor, s.version, 0)
    ensures answered == 0 ==> forall t: Setup :: !TurnOk(h, c, t, peer, 0)
    ensures answered >= 1 ==> TurnOk(h, c, s, peer, 0)
    ensures answered >= 1 && |sent| >= 2 ==> Some(sent[1]) == MessageAt(h, c, s.descriptor, s.version, 1)
    ensures answered >= 1 && |sent| < 2 ==> MessageAt(h, c, s.descriptor, s.version, 1).None?
    ensures answered == 1 ==> forall t: Setup | t.version == s.version :: !TurnOk(h, c, t, peer, 1)
    ensures answered >= 2 ==> TurnOk(h, c, s, peer, 1)
  {
    hide Kept, MessageAt, TurnOk, CaseResultAt;
    if answered < TurnCount(h, c, s.descriptor) {
      var front := sent[..answered];
      assert answered > 0 ==> front[0] == sent[0];
      assert answered > 1 ==> front[1] == sent[1];
      assert answered < |sent| ==> sent[answered] == sent[answered..][0];
    }
  }

  /** A reply that is taken under two setups makes them agree on what it says. */
  lemma SetupsAgree(h: Host, c: Corpus, s: Setup, t: Setup, peer: Peer)
    requires |c.digest| >= 16
    ensures TurnOk(h, c, s, peer, 0) && TurnOk(h, c, t, peer, 0) ==> s.version == t.version
    ensures s.version == t.version && TurnOk(h, c, s, peer, 1) && TurnOk(h, c, t, peer, 1) ==> s.descriptor == t.descriptor
    ensures MessageAt(h, c, s.descriptor, s.version, 0) == MessageAt(h, c, t.descriptor, t.version, 0)
    ensures s.version == t.version ==>
              MessageAt(h, c, s.descriptor, s.version, 1) == MessageAt(h, c, t.descriptor, t.version, 1)
  {
    hide Kept, Takes, Posted, ReadAcknowledgement, ReadDescriptor, HostID;
  }

  /** The first two turns go well, so the client is set up with the current version and the adapter's descriptor. */
  lemma SetupIsCurrent(h: Host, a: Adapter, c: Corpus, s: Setup, answered: nat, sent: seq<Message>, run: Option<Run>,
                       accepted: nat, end: End, replies: seq<Message>)
    requires Compatible(h, a, c) && Session(h, a, c, s, answered, sent, run, accepted, end, replies)
    ensures answered >= 2 && s == CurrentSetup(a)
  {
    hide Compatible, TurnOk, MessageAt, Ran, Served, ValidDigest;
    CompatibleCorpus(h, a, c);
    var peer := PeerOf(replies, end);
    RunOpens(h, c, s, peer, answered, sent, run);
    SetupsAgree(h, c, s, CurrentSetup(a), peer);
    ControlIsTaken(h, a, c, 0);
    OpeningIsAnswered(h, a, c, sent, 1, accepted, end, replies);
    ControlIsTaken(h, a, c, 1);
    OpeningIsAnswered(h, a, c, sent, 2, accepted, end, replies);
  }

  lemma OpeningIsAnswered(h: Host, a: Adapter, c: Corpus, sent: seq<Message>, m: nat, accepted: nat, end: End, replies: seq<Message>)
    requires Compatible(h, a, c) && 1 <= m <= 2 && Served(h.wire, a, InputOf(a, sent), false, Always, accepted, end, replies)
    ensures FollowsScript(h, a, c, sent, m) ==> TurnOk(h, c, CurrentSetup(a), PeerOf(replies, end), m - 1)
  {
    hide Compatible, TurnEnd, TurnOk, MessageAt, Served, ValidDigest, TurnCount, FollowsScript;
    CompatibleCorpus(h, a, c);
    CountedTurns(h, c, a.descriptor);
    ControlTurns(h, a, c, 0);
    ControlTurns(h, a, c, 1);
    if FollowsScript(h, a, c, sent, m) {
      ScriptIsAnswered(h, a, c, sent, m, accepted, end, replies);
    }
  }

  /** Under the current setup the client sends the script as far as its replies are taken, and one message more. */
  lemma ClientFollowsScript(h: Host, a: Adapter, c: Corpus, peer: Peer, answered: nat, sent: seq<Message>, run: Option<Run>)
    requires |c.digest| >= 16 && Ran(h, c, CurrentSetup(a), peer, answered, sent, run) && peer.writable == Always
    ensures answered <= |sent| && answered <= TurnCount(h, c, a.descriptor) && FollowsScript(h, a, c, sent, |sent|)
    ensures forall k | 0 <= k < answered :: TurnOk(h, c, CurrentSetup(a), peer, k)
    ensures answered < TurnCount(h, c, a.descriptor) ==>
              && run.None? && !TurnOk(h, c, CurrentSetup(a), peer, answered)
              && |sent| == if Script(h, a, c, answered).Some? then answered + 1 else answered
    ensures answered == TurnCount(h, c, a.descriptor) ==> |sent| == answered && (run.Some? <==> |peer.lines| == answered && peer.exits)
  {
    hide TurnCount, TurnOk, MessageAt, CaseResultAt;
    if answered < TurnCount(h, c, a.descriptor) {
      forall j | 0 <= j < |sent| ensures Some(sent[j]) == Script(h, a, c, j) {
        assert j < answered ==> sent[..answered][j] == sent[j];
        assert j >= answered ==> sent[j] == sent[answered..][j - answered];
      }
    }
  }

  /** Both sides stop at the first turn that does not go well; without one the run is reported. */
  lemma SessionStopsAt(h: Host, a: Adapter, c: Corpus, n: nat, answered: nat, sent: seq<Message>, run: Option<Run>,
                       accepted: nat, end: End, replies: seq<Message>)
    requires Compatible(h, a, c) && Session(h, a, c, CurrentSetup(a), answered, sent, run, accepted, end, replies)
    requires GoesWell(h, a, c, n) && (n < TurnCount(h, c, a.descriptor) ==> TurnEnd(h, a, c, n).Some?)
    ensures answered == n && FollowsScript(h, a, c, sent, |sent|) && n <= |sent|
    ensures n < TurnCount(h, c, a.descriptor) ==> run.None? && TurnEnd(h, a, c, n) == Some(end)
    ensures n == TurnCount(h, c, a.descriptor) ==> run.Some? && end == Finished && |sent| == n && accepted == n
  {
    hide Compatible, TurnEnd, TurnOk, MessageAt, Ran, Served, ValidDigest, TurnCount, NothingSkipped, FollowsScript;
    CompatibleCorpus(h, a, c);
    var peer := PeerOf(replies, end);
    ClientFollowsScript(h, a, c, peer, answered, sent, run);
    if answered < n {
      NoEarlyStop(h, a, c, n, answered, sent, accepted, end, replies);
    }
    ScriptPrefix(h, a, c, sent, n);
    if n < TurnCount(h, c, a.descriptor) {
      assert ReachesTurn(h, a, c, sent, n);
      BadTurnIsNotTaken(h, a, c, sent, n, accepted, end, replies);
      BadTurnEnds(h, a, c, sent, n, accepted, end, replies);
    } else {
      WholeScriptFinishes(h, a, c, sent, accepted, end, replies);
    }
  }

  lemma ScriptPrefix(h: Host, a: Adapter, c: Corpus, sent: seq<Message>, n: nat)
    requires |c.digest| >= 16 && FollowsScript(h, a, c, sent, |sent|) && n <= |sent|
    ensures FollowsScript(h, a, c, sent, n)
    ensures n < |sent| ==> Some(sent[n]) == Script(h, a, c, n)
  {
    hide MessageAt;
  }

  lemma NoEarlyStop(h: Host, a: Adapter, c: Corpus, n: nat, k: nat, sent: seq<Message>, accepted: nat, end: End, replies: seq<Message>)
    requires Compatible(h, a, c) && GoesWell(h, a, c, n) && k < n && FollowsScript(h, a, c, sent, |sent|)
    requires |sent| == if Script(h, a, c, k).Some? then k + 1 else k
    requires Served(h.wire, a, InputOf(a, sent), false, Always, accepted, end, replies)
    ensures TurnOk(h, c, CurrentSetup(a), PeerOf(replies, end), k)
  {
    hide Compatible, TurnEnd, TurnOk, MessageAt, Served, ValidDigest, TurnCount, NothingSkipped;
    CompatibleCorpus(h, a, c);
    assert TurnEnd(h, a, c, k).None?;
    GoodTurn(h, a, c, k);
    ScriptIsAnswered(h, a, c, sent, k + 1, accepted, end, replies);
  }

  lemma WholeScriptFinishes(h: Host, a: Adapter, c: Corpus, sent: seq<Message>, accepted: nat, end: End, replies: seq<Message>)
    requires Compatible(h, a, c) && GoesWell(h, a, c, |sent|) && |sent| == TurnCount(h, c, a.descriptor)
    requires FollowsScript(h, a, c, sent, |sent|)
    requires Served(h.wire, a, InputOf(a, sent), false, Always, accepted, end, replies)
    ensures accepted == |sent| == |replies| && end == Finished
  {
    hide Compatible, TurnEnd, TurnOk, MessageAt, ValidDigest, TurnCount, NothingSkipped, EndsAt, Answered, LineOf, AnswerIn, AcceptedLines;
    CompatibleCorpus(h, a, c);
    CountedTurns(h, c, a.descriptor);
    var n := |sent|;
    ScriptIsAnswered(h, a, c, sent, n, accepted, end, replies);
    InputDecodes(h, a, c, sent, n, n - 1);
    assert Some(sent[n - 1]) == Script(h, a, c, n - 1);
    ScriptTypes(h, a, c, n - 1);
  }

  // ----- what a session amounts to

  lemma FirstBadTurn(h: Host, a: Adapter, c: Corpus) returns (n: nat)
    requires |c.digest| >= 16
    ensures GoesWell(h, a, c, n) && (n < TurnCount(h, c, a.descriptor) ==> TurnEnd(h, a, c, n).Some?)
  {
    hide TurnEnd, TurnCount;
    n := 0;
    while n < TurnCount(h, c, a.descriptor) && TurnEnd(h, a, c, n).None?
      invariant GoesWell(h, a, c, n)
    {
      n := n + 1;
    }
  }

  lemma {:induction false} KeptIsPrefix(h: Host, c: Corpus, d: Descriptor, n: nat)
    requires n <= |c.vectors| && NothingSkipped(h, c, d)
    ensures Kept(h, c.vectors, d, n) == c.vectors[..n]
  {
    if n > 0 {
      KeptIsPrefix(h, c, d, n - 1);
      assert c.vectors[..n] == c.vectors[..n - 1] + [c.vectors[n - 1]];
    }
  }

  /** With nothing skipped, turn 3 + i carries the i-th vector. */
  lemma VectorPlaces(h: Host, a: Adapter, c: Corpus)
    requires |c.digest| >= 16 && NothingSkipped(h, c, a.descriptor)
    ensures TurnCount(h, c, a.descriptor) == 4 + |c.vectors|
    ensures forall i: nat | i < |c.vectors| :: TurnEnd(h, a, c, 3 + i).None? <==> VectorPasses(h, a, c, c.vectors[i], 3 + i)
  {
    hide TurnEnd, VectorPasses, NothingSkipped, Kept;
    KeptIsPrefix(h, c, a.descriptor, |c.vectors|);
    assert c.vectors[..|c.vectors|] == c.vectors;
    forall i: nat | i < |c.vectors| ensures TurnEnd(h, a, c, 3 + i).None? <==> VectorPasses(h, a, c, c.vectors[i], 3 + i) {
      VectorTurnPasses(h, a, c, 3 + i);
    }
  }

  /** Every vector makes it across, and its result back. */
  ghost predicate AllPass(h: Host, a: Adapter, c: Corpus)
    requires |c.digest| >= 16
  {
    forall i: nat | i < |c.vectors| :: VectorPasses(h, a, c, c.vectors[i], 3 + i)
  }

  /** The whole script goes well exactly when nothing is skipped and every vector passes. */
  lemma AllTurnsGoWell(h: Host, a: Adapter, c: Corpus)
    requires Compatible(h, a, c)
    ensures GoesWell(h, a, c, TurnCount(h, c, a.descriptor)) <==> NothingSkipped(h, c, a.descriptor) && AllPass(h, a, c)
  {
    hide Compatible, TurnEnd, VectorPasses, NothingSkipped, TurnCount, ValidDigest;
    CompatibleCorpus(h, a, c);
    CountedTurns(h, c, a.descriptor);
    var n := TurnCount(h, c, a.descriptor);
    ControlTurns(h, a, c, n - 1);
    if NothingSkipped(h, c, a.descriptor) {
      VectorPlaces(h, a, c);
      if AllPass(h, a, c) {
        forall k | 0 <= k < n ensures TurnEnd(h, a, c, k).None? {
          if k < 3 || k + 1 == n {
            ControlTurns(h, a, c, k);
          } else {
            assert TurnEnd(h, a, c, 3 + (k - 3)).None? <==> VectorPasses(h, a, c, c.vectors[k - 3], 3 + (k - 3));
          }
        }
      }
      if GoesWell(h, a, c, n) {
        forall i: nat | i < |c.vectors| ensures VectorPasses(h, a, c, c.vectors[i], 3 + i) {
          assert TurnEnd(h, a, c, 3 + i).None?;
        }
      }
    } else {
      assert TurnEnd(h, a, c, n - 1).Some?;
    }
  }

  lemma EndOfTurnIsNotFinished(h: Host, a: Adapter, c: Corpus, k: nat)
    requires |c.digest| >= 16
    ensures TurnEnd(h, a, c, k) != Some(Finished)
  {
    hide MessageAt, Passes, AnswerIn, Crashes;
  }

  /**
   In every session of a valid adapter and a corpus within its limit the handshake settles on the
   current version, and the run is reported exactly when no vector is skipped and every vector passes:
   its bytes fit into a message, the evaluator does not crash on them, and the result can be sent back.
   */
  lemma SessionSucceedsExactlyWhen(h: Host, a: Adapter, c: Corpus, s: Setup, answered: nat, sent: seq<Message>, run: Option<Run>,
                                   accepted: nat, end: End, replies: seq<Message>)
    requires Compatible(h, a, c) && Session(h, a, c, s, answered, sent, run, accepted, end, replies)
    ensures s == CurrentSetup(a)
    ensures run.Some? <==> NothingSkipped(h, c, a.descriptor) && AllPass(h, a, c)
    ensures run.Some? <==> end == Finished
  {
    hide Compatible, Session, TurnEnd, TurnCount, NothingSkipped, AllPass, ValidDigest;
    CompatibleCorpus(h, a, c);
    SetupIsCurrent(h, a, c, s, answered, sent, run, accepted, end, replies);
    AllTurnsGoWell(h, a, c);
    var n := FirstBadTurn(h, a, c);
    SessionStopsAt(h, a, c, n, answered, sent, run, accepted, end, replies);
    EndOfTurnIsNotFinished(h, a, c, n);
  }

  /** The case result the in-process runner gives the adapter's evaluation of a vector. */
  ghost function Direct(h: Host, a: Adapter, v: CaseVector): Option<CaseResult> {
    var result :- Evaluation(a, v);
    Some(Judged(h.pipeline.checks, h.pipeline.digest, v, IDFromRaw(h.pipeline, v.raw), result))
  }

  /** What the client reads from the answer to a vector. */
  lemma AnswerHoldsResult(h: Host, a: Adapter, c: Corpus, k: nat)
    requires Compatible(h, a, c) && 3 <= k && k + 1 < TurnCount(h, c, a.descriptor) && TurnEnd(h, a, c, k).None?
    ensures var v := Kept(h, c.vectors, a.descriptor, |c.vectors|)[k - 3];
            && Evaluation(a, v).Some?
            && LineOf(AnswerIn(h.wire, a, CURRENT_VERSION, Script(h, a, c, k).value).value, CLIENT_LIMIT).Decoded?
            && ReadResult(h.wire, LineOf(AnswerIn(h.wire, a, CURRENT_VERSION, Script(h, a, c, k).value).value, CLIENT_LIMIT).message.payload)
               == Evaluation(a, v)
  {
    CompatibleCorpus(h, a, c);
    hide Embedded, Posted, HostID, RunIDOf, Kept, Evaluation, MessageAt, AnswerIn, Crashes, ReadResult, DescriptorArrives, ValidDescriptor, ValidDigest, TurnEnd, Passes, LineOf;
    GoodTurn(h, a, c, k);
    VectorTurn(h, a, c, k);
    AnswerLine(h, a, c, k);
    assert ResultReadsBack(h, a, Kept(h, c.vectors, a.descriptor, |c.vectors|)[k - 3]);
  }

  /**
   A session that is reported gives one result per vector, in corpus order, each the one the adapter's
   evaluation has when judged in process: the protocol adds and loses nothing.
   */
  lemma SessionEqualsDirectRun(h: Host, a: Adapter, c: Corpus, s: Setup, answered: nat, sent: seq<Message>, run: Option<Run>,
                               accepted: nat, end: End, replies: seq<Message>)
    requires Compatible(h, a, c) && Session(h, a, c, s, answered, sent, run, accepted, end, replies) && run.Some?
    ensures |run.value.results| == |c.vectors|
    ensures forall i | 0 <= i < |c.vectors| :: Some(run.value.results[i]) == Direct(h, a, c.vectors[i])
  {
    hide Compatible, TurnEnd, TurnCount, NothingSkipped, AllPass, ValidDigest, Direct, Progress, Stopped, CaseResultAt, Served;
    CompatibleCorpus(h, a, c);
    SessionSucceedsExactlyWhen(h, a, c, s, answered, sent, run, accepted, end, replies);
    AllTurnsGoWell(h, a, c);
    var n := TurnCount(h, c, a.descriptor);
    SessionStopsAt(h, a, c, n, answered, sent, run, accepted, end, replies);
    ScriptIsAnswered(h, a, c, sent, n, accepted, end, replies);
    forall i | 0 <= i < |c.vectors| ensures Some(run.value.results[i]) == Direct(h, a, c.vectors[i]) {
      assert CaseResultAt(h, c, s, PeerOf(replies, end).lines, i, run.value.results[i]);
      ResultOfAnswer(h, a, c, sent, replies, i, run.value.results[i]);
    }
  }

  /** With nothing skipped, the i-th case result is read from the line of turn 3 + i. */
  lemma CaseResultIsRead(h: Host, a: Adapter, c: Corpus, lines: seq<Line>, i: nat, r: CaseResult)
    requires NothingSkipped(h, c, a.descriptor) && i < |c.vectors|
    requires 3 + i < |lines| && lines[3 + i].Decoded?
    ensures var result := ReadResult(h.wire, lines[3 + i].message.payload);
            CaseResultAt(h, c, CurrentSetup(a), lines, i, r) <==>
            && result.Some?
            && r == Judged(h.pipeline.checks, h.pipeline.digest, c.vectors[i], IDFromRaw(h.pipeline, c.vectors[i].raw), result.value)
  {
    hide Kept, IsSkipped, Judged, IDFromRaw, ReadResult;
    KeptIsPrefix(h, c, a.descriptor, i);
  }

  lemma ResultOfAnswer(h: Host, a: Adapter, c: Corpus, sent: seq<Message>, replies: seq<Message>, i: nat, r: CaseResult)
    requires Compatible(h, a, c) && NothingSkipped(h, c, a.descriptor) && i < |c.vectors|
    requires |sent| == TurnCount(h, c, a.descriptor) <= |replies| && GoesWell(h, a, c, |sent|) && FollowsScript(h, a, c, sent, |sent|)
    requires forall k | 0 <= k < |sent| :: Some(replies[k]) == AnswerIn(h.wire, a, CURRENT_VERSION, sent[k])
    ensures CaseResultAt(h, c, CurrentSetup(a), Lines(replies, CLIENT_LIMIT), i, r) <==> Some(r) == Direct(h, a, c.vectors[i])
  {
    hide Compatible, TurnEnd, TurnCount, Kept, NothingSkipped, ValidDigest, MessageAt, LineOf, AnswerIn, Judged, IDFromRaw, Evaluation, ReadResult, CaseResultAt;
    CompatibleCorpus(h, a, c);
    VectorPlaces(h, a, c);
    KeptIsPrefix(h, c, a.descriptor, |c.vectors|);
    assert c.vectors[..|c.vectors|] == c.vectors;
    assert Some(sent[3 + i]) == Script(h, a, c, 3 + i) && TurnEnd(h, a, c, 3 + i).None?;
    AnswerHoldsResult(h, a, c, 3 + i);
    assert Lines(replies, CLIENT_LIMIT)[3 + i] == LineOf(replies[3 + i], CLIENT_LIMIT);
    CaseResultIsRead(h, a, c, Lines(replies, CLIENT_LIMIT), i, r);
  }

  // ----- the reference evaluator

  /** The adapter whose evaluator is the reference pipeline of the host. */
  ghost predicate IsReference(a: Adapter, p: Pipeline) {
    && a.checks == p.checks && a.descriptor.limits == p.limits
    && forall raw :: a.evaluate(raw) == SealedOption(p.digest, Draft(p, raw))
  }

  /** With the reference evaluator a canonical vector passes unless it is nested too deep, crashes, or does not fit. */
  ghost predicate ReferencePasses(h: Host, a: Adapter, c: Corpus, v: CaseVector, k: nat)
    requires |c.digest| >= 16
  {
    && ParseText(v.raw).Some? && Carried(ParseText(v.raw).value, 1)
    && !(Reaches(h.pipeline, v.raw) && WrongPayload(Decode(h.pipeline, v.raw).value.invocation))
    && var request := Message(MESSAGE_SCHEMA, CURRENT_VERSION, Evaluate, HostID(k + 1), "", RunIDOf(c), v.raw);
       && Passes(request, a.descriptor.limits.maxMessageBytes)
       && Draft(h.pipeline, v.raw).Some?
       && var payload := Posted(h.wire, ResultContent(Sealed(h.pipeline.digest, Draft(h.pipeline, v.raw).value)));
          && payload.Some?
          && Passes(Reply(request, CURRENT_VERSION, EvaluationResult, payload.value), CLIENT_LIMIT)
  }

  ghost predicate AllReferencePass(h: Host, a: Adapter, c: Corpus)
    requires |c.digest| >= 16
  {
    forall i: nat | i < |c.vectors| :: ReferencePasses(h, a, c, c.vectors[i], 3 + i)
  }

  /** The results are those the runner gives in process, vector by vector. */
  ghost predicate SameInProcess(p: Pipeline, vectors: seq<CaseVector>, results: seq<CaseResult>) {
    |results| == |vectors| && forall i | 0 <= i < |vectors| :: Some(results[i]) == ReferenceResult(p, vectors[i])
  }

  lemma ReferenceVector(h: Host, a: Adapter, c: Corpus, v: CaseVector, k: nat)
    requires IsReference(a, h.pipeline) && |c.digest| >= 16 && Canonicalize(v.raw) == Some(v.raw)
    ensures VectorPasses(h, a, c, v, k) <==> ReferencePasses(h, a, c, v, k)
    ensures Embedded(v.raw).Some? ==> Direct(h, a, v) == ReferenceResult(h.pipeline, v)
  {
    hide Canonicalize, Carried, ParseText, Passes, Posted, Draft, Sealed, Judged, IDFromRaw, HostID, RunIDOf, Reaches, WrongPayload, Embedded, Decode;
    CanonicalBytesArrive(v.raw);
    CrashesExactlyWhen(h.pipeline, v.raw);
    assert a.evaluate(v.raw) == SealedOption(h.pipeline.digest, Draft(h.pipeline, v.raw));
  }

  /**
   With the reference evaluator, and a corpus of canonical vectors: the run is reported exactly when no
   vector is skipped, nested too deep, crashes the evaluator or exceeds a line, and then every result is
   the one the runner gives in process.
   */
  lemma ReferenceSession(h: Host, a: Adapter, c: Corpus, s: Setup, answered: nat, sent: seq<Message>, run: Option<Run>,
                         accepted: nat, end: End, replies: seq<Message>)
    requires Compatible(h, a, c) && Session(h, a, c, s, answered, sent, run, accepted, end, replies)
    requires IsReference(a, h.pipeline) && forall v | v in c.vectors :: Canonicalize(v.raw) == Some(v.raw)
    ensures run.Some? <==> NothingSkipped(h, c, a.descriptor) && AllReferencePass(h, a, c)
    ensures run.Some? ==> SameInProcess(h.pipeline, c.vectors, run.value.results)
  {
    hide Compatible, Session, NothingSkipped, ValidDigest, VectorPasses, ReferencePasses, IsReference, Canonicalize, Direct, ReferenceResult, Embedded;
    CompatibleCorpus(h, a, c);
    SessionSucceedsExactlyWhen(h, a, c, s, answered, sent, run, accepted, end, replies);
    forall i: nat | i < |c.vectors|
      ensures VectorPasses(h, a, c, c.vectors[i], 3 + i) <==> ReferencePasses(h, a, c, c.vectors[i], 3 + i)
      ensures Embedded(c.vectors[i].raw).Some? ==> Direct(h, a, c.vectors[i]) == ReferenceResult(h.pipeline, c.vectors[i])
    {
      assert c.vectors[i] in c.vectors;
      ReferenceVector(h, a, c, c.vectors[i], 3 + i);
    }
    if run.Some? {
      SessionEqualsDirectRun(h, a, c, s, answered, sent, run, accepted, end, replies);
      forall i: nat | i < |c.vectors| ensures Embedded(c.vectors[i].raw).Some? {
        PassingIsEmbedded(h, a, c, c.vectors[i], 3 + i);
      }
    }
  }

  lemma PassingIsEmbedded(h: Host, a: Adapter, c: Corpus, v: CaseVector, k: nat)
    requires |c.digest| >= 16 && VectorPasses(h, a, c, v, k)
    ensures Embedded(v.raw).Some?
  {
  }

  /** The same for a corpus as it is loaded. */
  lemma LoadedSession(h: Host, a: Adapter, m: Normative.Manifest, c: Corpus, s: Setup, answered: nat, sent: seq<Message>, run: Option<Run>,
                      accepted: nat, end: End, replies: seq<Message>)
    requires Compatible(h, a, c) && Session(h, a, c, s, answered, sent, run, accepted, end, replies)
    requires IsReference(a, h.pipeline) && Normative.Load(h.pipeline, m) == Some(c.vectors)
    ensures run.Some? <==> NothingSkipped(h, c, a.descriptor) && AllReferencePass(h, a, c)
    ensures run.Some? ==> SameInProcess(h.pipeline, c.vectors, run.value.results)
  {
    hide Compatible, Session, NothingSkipped, AllReferencePass, SameInProcess, IsReference, Canonicalize, Normative.Load;
    Normative.LoadedIsCanonical(h.pipeline, m);
    ReferenceSession(h, a, c, s, answered, sent, run, accepted, end, replies);
  }

  /** The first vector that crashes the evaluator ends the session, though nothing was skipped. */
  lemma CrashEndsSession(h: Host, a: Adapter, c: Corpus, s: Setup, answered: nat, sent: seq<Message>, run: Option<Run>,
                         accepted: nat, end: End, replies: seq<Message>, i: nat)
    requires Compatible(h, a, c) && Session(h, a, c, s, answered, sent, run, accepted, end, replies)
    requires NothingSkipped(h, c, a.descriptor) && i < |c.vectors|
    requires forall j: nat | j < i :: VectorPasses(h, a, c, c.vectors[j], 3 + j)
    requires Embedded(c.vectors[i].raw).Some? && a.evaluate(Embedded(c.vectors[i].raw).value).None?
    requires Passes(Message(MESSAGE_SCHEMA, CURRENT_VERSION, Evaluate, HostID(4 + i), "", RunIDOf(c), Embedded(c.vectors[i].raw).value),
                    a.descriptor.limits.maxMessageBytes)
    ensures run.None? && end == Crashed && answered == 3 + i
  {
    hide Compatible, Session, NothingSkipped, ValidDigest, VectorPasses, TurnEnd, TurnCount, Embedded, Passes;
    CompatibleCorpus(h, a, c);
    SetupIsCurrent(h, a, c, s, answered, sent, run, accepted, end, replies);
    VectorPlaces(h, a, c);
    forall k | 0 <= k < 3 + i ensures TurnEnd(h, a, c, k).None? {
      if k < 3 {
        ControlTurns(h, a, c, k);
      } else {
        assert TurnEnd(h, a, c, 3 + (k - 3)).None? <==> VectorPasses(h, a, c, c.vectors[k - 3], 3 + (k - 3));
      }
    }
    CrashingTurn(h, a, c, i);
    SessionStopsAt(h, a, c, 3 + i, answered, sent, run, accepted, end, replies);
  }

  lemma CrashingTurn(h: Host, a: Adapter, c: Corpus, i: nat)
    requires |c.digest| >= 16 && NothingSkipped(h, c, a.descriptor) && i < |c.vectors|
    requires Embedded(c.vectors[i].raw).Some? && a.evaluate(Embedded(c.vectors[i].raw).value).None?
    requires Passes(Message(MESSAGE_SCHEMA, CURRENT_VERSION, Evaluate, HostID(4 + i), "", RunIDOf(c), Embedded(c.vectors[i].raw).value),
                    a.descriptor.limits.maxMessageBytes)
    ensures TurnEnd(h, a, c, 3 + i) == Some(Crashed)
  {
    hide NothingSkipped, Embedded, Passes, MessageAt, Crashes, AnswerIn, HostID, RunIDOf, Kept;
    KeptIsPrefix(h, c, a.descriptor, |c.vectors|);
    assert c.vectors[..|c.vectors|] == c.vectors;
    VectorTurn(h, a, c, 3 + i);
  }

  /** The depth condition is needed: no session reports a corpus that holds the deepest canonical text. */
  lemma DeepestVectorIsNotReported(h: Host, a: Adapter, c: Corpus, s: Setup, answered: nat, sent: seq<Message>, run: Option<Run>,
                                   accepted: nat, end: End, replies: seq<Message>, i: nat)
    requires Compatible(h, a, c) && Session(h, a, c, s, answered, sent, run, accepted, end, replies)
    requires i < |c.vectors| && c.vectors[i].raw == Print(Nested(MAXIMUM_DEPTH))
    ensures Canonicalize(c.vectors[i].raw) == Some(c.vectors[i].raw) && run.None?
  {
    hide Compatible, Session, NothingSkipped, ValidDigest, VectorPasses, Embedded, Print, Nested, Canonicalize;
    CompatibleCorpus(h, a, c);
    DeepestTextCannotBeSent();
    SessionSucceedsExactlyWhen(h, a, c, s, answered, sent, run, accepted, end, replies);
    if run.Some? {
      assert VectorPasses(h, a, c, c.vectors[i], 3 + i);
      PassingIsEmbedded(h, a, c, c.vectors[i], 3 + i);
    }
  }

  // ----- sessions exist

  /** The first `n` turns are sent and answered. */
  ghost predicate Opening(h: Host, a: Adapter, c: Corpus, sent: seq<Message>, replies: seq<Message>, n: nat)
    requires |c.digest| >= 16
  {
    && GoesWell(h, a, c, n) && FollowsScript(h, a, c, sent, n) && n <= |replies|
    && forall k | 0 <= k < n :: Some(replies[k]) == AnswerIn(h.wire, a, CURRENT_VERSION, sent[k])
  }

  lemma GoodTurnsOpen(h: Host, a: Adapter, c: Corpus, n: nat) returns (sent: seq<Message>, replies: seq<Message>)
    requires Compatible(h, a, c) && GoesWell(h, a, c, n)
    ensures |sent| == n == |replies| && Opening(h, a, c, sent, replies, n)
  {
    hide Compatible, TurnEnd, TurnCount, MessageAt, AnswerIn, Passes;
    CompatibleCorpus(h, a, c);
    sent, replies := [], [];
    while |sent| < n
      invariant |sent| == |replies| <= n && FollowsScript(h, a, c, sent, |sent|)
      invariant forall k | 0 <= k < |sent| :: Some(replies[k]) == AnswerIn(h.wire, a, CURRENT_VERSION, sent[k])
    {
      assert TurnEnd(h, a, c, |sent|).None?;
      GoodTurn(h, a, c, |sent|);
      var m := Script(h, a, c, |sent|).value;
      sent, replies := sent + [m], replies + [AnswerIn(h.wire, a, CURRENT_VERSION, m).value];
    }
  }

  lemma OpeningIsServed(h: Host, a: Adapter, c: Corpus, sent: seq<Message>, replies: seq<Message>, n: nat)
    requires Compatible(h, a, c) && Opening(h, a, c, sent, replies, n)
    ensures AcceptedLines(a, InputOf(a, sent), n) && Answered(h.wire, a, InputOf(a, sent), Always, n, replies)
  {
    hide Compatible, TurnEnd, TurnCount, MessageAt, AnswerIn, Passes, NothingSkipped, ValidDigest, LineOf, Continues, Selection;
    CompatibleCorpus(h, a, c);
    var lines := InputOf(a, sent);
    forall k | 0 <= k < n ensures lines[k] == Decoded(sent[k]) {
      InputDecodes(h, a, c, sent, n, k);
    }
    var ms := Messages(lines, n);
    assert forall k | 0 <= k < n :: ms[k] == sent[k];
    forall k | 0 <= k < n ensures Continues(a, ms, k) {
      assert TurnEnd(h, a, c, k).None?;
      GoodTurn(h, a, c, k);
      ScriptContinues(h, a, c, ms, k);
    }
    if n > 0 {
      assert Some(sent[0]) == Script(h, a, c, 0);
      SelectsCurrent(h, a, c);
    }
  }

  lemma OpeningIsTaken(h: Host, a: Adapter, c: Corpus, sent: seq<Message>, replies: seq<Message>, n: nat, end: End)
    requires Compatible(h, a, c) && Opening(h, a, c, sent, replies, n)
    ensures Progress(h, c, CurrentSetup(a), PeerOf(replies, end), n, sent[..n])
  {
    hide Compatible, TurnEnd, TurnCount, MessageAt, AnswerIn, ValidDigest, LineOf, TurnOk;
    CompatibleCorpus(h, a, c);
    forall k | 0 <= k < n ensures TurnOk(h, c, CurrentSetup(a), PeerOf(replies, end), k) {
      assert TurnEnd(h, a, c, k).None? && Some(sent[k]) == Script(h, a, c, k);
      AnswerIsTaken(h, a, c, PeerOf(replies, end), k);
    }
  }

  /** A session in which every turn goes well. */
  lemma WholeSession(h: Host, a: Adapter, c: Corpus, sent: seq<Message>, replies: seq<Message>) returns (run: Run)
    requires Compatible(h, a, c) && |sent| == |replies| == TurnCount(h, c, a.descriptor) && Opening(h, a, c, sent, replies, |sent|)
    ensures Session(h, a, c, CurrentSetup(a), |sent|, sent, Some(run), |sent|, Finished, replies)
  {
    hide Compatible, TurnEnd, TurnCount, MessageAt, AnswerIn, ValidDigest, LineOf, NothingSkipped, AcceptedLines, Answered, Progress, VectorPasses, CaseResultAt, Direct;
    CompatibleCorpus(h, a, c);
    CountedTurns(h, c, a.descriptor);
    AllTurnsGoWell(h, a, c);
    var n := |sent|;
    OpeningIsServed(h, a, c, sent, replies, n);
    OpeningIsTaken(h, a, c, sent, replies, n, Finished);
    InputDecodes(h, a, c, sent, n, n - 1);
    assert Some(sent[n - 1]) == Script(h, a, c, n - 1);
    ScriptTypes(h, a, c, n - 1);
    assert sent[..n] == sent;
    var results := DirectResults(h, a, c, sent, replies);
    run := Run(CURRENT_VERSION, a.descriptor, results);
    assert Served(h.wire, a, InputOf(a, sent), false, Always, n, Finished, replies);
  }

  lemma DirectResults(h: Host, a: Adapter, c: Corpus, sent: seq<Message>, replies: seq<Message>) returns (results: seq<CaseResult>)
    requires Compatible(h, a, c) && NothingSkipped(h, c, a.descriptor) && AllPass(h, a, c)
    requires |sent| == |replies| == TurnCount(h, c, a.descriptor) && Opening(h, a, c, sent, replies, |sent|)
    ensures |results| == |c.vectors|
    ensures forall i | 0 <= i < |c.vectors| :: CaseResultAt(h, c, CurrentSetup(a), Lines(replies, CLIENT_LIMIT), i, results[i])
  {
    hide Compatible, TurnEnd, TurnCount, MessageAt, AnswerIn, ValidDigest, LineOf, NothingSkipped, VectorPasses, CaseResultAt, Direct;
    CompatibleCorpus(h, a, c);
    results := [];
    while |results| < |c.vectors|
      invariant |results| <= |c.vectors|
      invariant forall i | 0 <= i < |results| :: CaseResultAt(h, c, CurrentSetup(a), Lines(replies, CLIENT_LIMIT), i, results[i])
    {
      var i := |results|;
      PassingIsEvaluated(h, a, c, c.vectors[i], 3 + i);
      ResultOfAnswer(h, a, c, sent, replies, i, Direct(h, a, c.vectors[i]).value);
      results := results + [Direct(h, a, c.vectors[i]).value];
    }
  }

  lemma PassingIsEvaluated(h: Host, a: Adapter, c: Corpus, v: CaseVector, k: nat)
    requires |c.digest| >= 16 && VectorPasses(h, a, c, v, k)
    ensures Direct(h, a, v).Some?
  {
    hide Passes, Posted, Judged, IDFromRaw, Embedded;
  }

  /** What the adapter still writes after the good turns, and whether it accepted the message. */
  lemma LastReply(h: Host, a: Adapter, c: Corpus, sent: seq<Message>, answers: seq<Message>, n: nat)
    returns (accepted: nat, replies: seq<Message>)
    requires Compatible(h, a, c) && n < TurnCount(h, c, a.descriptor) && TurnEnd(h, a, c, n).Some?
    requires Script(h, a, c, n).Some? && |sent| == n + 1 && Some(sent[n]) == Script(h, a, c, n)
    requires |answers| == n && Opening(h, a, c, sent, answers, n)
    ensures |replies| >= n && replies[..n] == answers
    ensures Served(h.wire, a, InputOf(a, sent), false, Always, accepted, TurnEnd(h, a, c, n).value, replies)
  {
    hide Compatible, TurnEnd, TurnCount, MessageAt, AnswerIn, Passes, NothingSkipped, ValidDigest, LineOf, Continues, Refusal, Selection, Crashes, AcceptedLines;
    CompatibleCorpus(h, a, c);
    BadTurn(h, a, c, n);
    OpeningIsServed(h, a, c, sent, answers, n);
    var lines := InputOf(a, sent);
    accepted, replies := n, answers;
    if !Passes(sent[n], a.descriptor.limits.maxMessageBytes) {
      ScriptLine(h, a, c, n, a.descriptor.limits.maxMessageBytes);
      assert lines[n] == TooLong;
    } else {
      assert ReachesTurn(h, a, c, sent, n);
      InputReaches(h, a, c, sent, n);
      if n + 1 == TurnCount(h, c, a.descriptor) && !NothingSkipped(h, c, a.descriptor) {
        CountedTurns(h, c, a.descriptor);
        var ms := Messages(lines, n + 1);
        RefusalLine(h, a, c, ms, n);
        replies := answers + [Refusal(h.wire, a, ms, n).value];
      } else if AnswerIn(h.wire, a, CURRENT_VERSION, sent[n]).Some? {
        accepted, replies := n + 1, answers + [AnswerIn(h.wire, a, CURRENT_VERSION, sent[n]).value];
        OneMoreAccepted(a, lines, n);
        TooLongAnswerIsNotLast(h, a, c, n);
        ScriptTypes(h, a, c, n);
      }
    }
  }

  lemma OneMoreAccepted(a: Adapter, lines: seq<Line>, n: nat)
    requires n < |lines| && AcceptedLines(a, lines, n) && lines[n].Decoded? && Continues(a, Messages(lines, n + 1), n)
    ensures AcceptedLines(a, lines, n + 1)
  {
    hide Continues;
    var ms := Messages(lines, n + 1);
    forall k | 0 <= k < n ensures Continues(a, ms, k) {
      SamePrefix(a, ms, Messages(lines, n), k);
    }
  }

  /** A session that stops at turn `n`. */
  lemma StoppedSession(h: Host, a: Adapter, c: Corpus, n: nat, good: seq<Message>, answers: seq<Message>)
    returns (sent: seq<Message>, accepted: nat, end: End, replies: seq<Message>)
    requires Compatible(h, a, c) && n < TurnCount(h, c, a.descriptor) && TurnEnd(h, a, c, n).Some?
    requires |good| == n == |answers| && Opening(h, a, c, good, answers, n)
    ensures Session(h, a, c, CurrentSetup(a), n, sent, None, accepted, end, replies)
  {
    hide Compatible, TurnEnd, TurnCount, MessageAt, AnswerIn, NothingSkipped, ValidDigest, Served, TurnOk, GoesWell;
    CompatibleCorpus(h, a, c);
    end := TurnEnd(h, a, c, n).value;
    sent := good + Sending(Script(h, a, c, n), true);
    assert Opening(h, a, c, sent, answers, n);
    if Script(h, a, c, n).Some? {
      accepted, replies := LastReply(h, a, c, sent, answers, n);
    } else {
      accepted, replies := n, answers;
      UnsentIsServed(h, a, c, sent, answers, n);
    }
    assert forall k | 0 <= k < n :: replies[k] == replies[..n][k];
    assert Opening(h, a, c, sent, replies, n);
    OpeningIsTaken(h, a, c, sent, replies, n, end);
    assert ReachesTurn(h, a, c, sent, n);
    BadTurnIsNotTaken(h, a, c, sent, n, accepted, end, replies);
    LaterThanSetup(h, a, c, n);
    assert sent[n..] == Sending(Script(h, a, c, n), true);
  }

  lemma UnsentIsServed(h: Host, a: Adapter, c: Corpus, sent: seq<Message>, answers: seq<Message>, n: nat)
    requires Compatible(h, a, c) && n < TurnCount(h, c, a.descriptor) && |sent| == |answers| == n && Opening(h, a, c, sent, answers, n)
    requires Script(h, a, c, n).None?
    ensures TurnEnd(h, a, c, n).Some? && Served(h.wire, a, InputOf(a, sent), false, Always, n, TurnEnd(h, a, c, n).value, answers)
  {
    hide Compatible, TurnEnd, TurnCount, MessageAt, AnswerIn, NothingSkipped, ValidDigest, LineOf, AcceptedLines, Answered;
    CompatibleCorpus(h, a, c);
    OpeningIsServed(h, a, c, sent, answers, n);
    NoMessage(h, a, c, n);
    if n > 0 {
      LastIsNotEnd(h, a, c, sent, n);
    }
  }

  lemma LaterThanSetup(h: Host, a: Adapter, c: Corpus, n: nat)
    requires Compatible(h, a, c) && n < TurnCount(h, c, a.descriptor) && TurnEnd(h, a, c, n).Some?
    ensures n >= 3
  {
    hide Compatible, TurnEnd, TurnCount, NothingSkipped;
    CompatibleCorpus(h, a, c);
    CountedTurns(h, c, a.descriptor);
    if n < 3 {
      ControlTurns(h, a, c, n);
    }
  }

  /** Whatever the adapter and the corpus, there is a session between them. */
  lemma SessionExists(h: Host, a: Adapter, c: Corpus)
    returns (answered: nat, sent: seq<Message>, run: Option<Run>, accepted: nat, end: End, replies: seq<Message>)
    requires Compatible(h, a, c)
    ensures Session(h, a, c, CurrentSetup(a), answered, sent, run, accepted, end, replies)
  {
    hide Compatible, TurnEnd, TurnCount, Session, GoesWell, Opening;
    CompatibleCorpus(h, a, c);
    answered := FirstBadTurn(h, a, c);
    sent, replies := GoodTurnsOpen(h, a, c, answered);
    if answered < TurnCount(h, c, a.descriptor) {
      run := None;
      sent, accepted, end, replies := StoppedSession(h, a, c, answered, sent, replies);
    } else {
      WellWithinScript(h, a, c, answered);
      accepted, end := answered, Finished;
      var reported := WholeSession(h, a, c, sent, replies);
      run := Some(reported);
    }
  }

  lemma WellWithinScript(h: Host, a: Adapter, c: Corpus, n: nat)
    requires |c.digest| >= 16 && GoesWell(h, a, c, n)
    ensures n <= TurnCount(h, c, a.descriptor)
  {
  }

  /** The assumptions can be met: a valid adapter and a corpus of any vector whatever. */
  lemma SomePairIsCompatible(p: Pipeline, v: CaseVector, result: InvocationResult) returns (h: Host, a: Adapter, c: Corpus)
    ensures Compatible(h, a, c) && h.pipeline == p && c.vectors == [v] && a.evaluate(v.raw) == Some(result)
  {
    hide DescriptorArrives, ResultReadsBack, ValidDescriptor;
    var digest := Zeros(64);
    var d := Descriptor(DESCRIPTOR_SCHEMA, PROTOCOL_NAME, Some([CURRENT_VERSION]), "evaluator", "name", "1", digest,
                        Some([]), Some([]), Some([]), Some([]), DEFAULT_LIMITS, false, Some([]));
    var w := Wire((_: Descriptor) => Null, (_: InvocationResult) => Null, (_: Json) => Some(d), (_: Json) => Some(result));
    h := Host(w, p, (_: Bytes) => None);
    a := Adapter(d, p.checks, (_: Bytes) => Some(result));
    c := Corpus([v], digest);
    SomeDescriptor(p.checks, d);
    NullArrives(h, a);
    ResultsReadBack(h, a, v, result);
  }

  lemma SomeDescriptor(checks: Checks, d: Descriptor)
    requires d == Descriptor(DESCRIPTOR_SCHEMA, PROTOCOL_NAME, Some([CURRENT_VERSION]), "evaluator", "name", "1", Zeros(64),
                             Some([]), Some([]), Some([]), Some([]), DEFAULT_LIMITS, false, Some([]))
    ensures ValidDescriptor(checks, d)
  {
    assert Identifier("evaluator");
    assert CURRENT_VERSION != "" && d.protocolVersions.value[0] == CURRENT_VERSION;
  }

  lemma NullArrives(h: Host, a: Adapter)
    requires h.wire.descriptorJson(a.descriptor) == Null && h.wire.descriptorOf(Null) == Some(a.descriptor)
    ensures DescriptorArrives(h, a)
  {
    hide Payload, Strict, Print, Passes, Plain, Terse, HostID;
    NullIsShort();
    PayloadIsRead(Null);
    DescriptorLineIsPlain(Payload(Null).value);
    ShortPasses(DescriptorLine(Payload(Null).value), Null, CLIENT_LIMIT);
  }

  lemma NullIsShort()
    ensures Payload(Null).Some? && |Print(Null)| == 4
  {
  }

  lemma DescriptorLineIsPlain(payload: Bytes)
    ensures Plain(DescriptorLine(payload)) && Terse(DescriptorLine(payload))
  {
    hide ValidUtf8, HostID, MESSAGE_SCHEMA, CURRENT_VERSION;
    ConstantsAreValid();
    HostIDIsValid(2);
    EmptyIsValid();
  }

  lemma ResultsReadBack(h: Host, a: Adapter, v: CaseVector, result: InvocationResult)
    requires forall raw :: a.evaluate(raw) == Some(result)
    requires h.wire.resultJson(result) == Null && h.wire.resultOf(Null) == Some(result)
    ensures ResultReadsBack(h, a, v)
  {
    hide Embedded;
    PayloadIsRead(Null);
  }
}
