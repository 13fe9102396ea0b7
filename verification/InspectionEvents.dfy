/**
 Events of the inspection journal: the chain an accepted journal forms, the next event as it is built
 from a loaded journal, and the names of event files.
 */
module InspectionEvents {
  import opened Basics
  import opened Digits
  import opened Mutation

  /** A target is one dimension of one subject; a correction supersedes the latest event of its target. */
  datatype Event = Event(
    sequence: nat, previous: Bytes, target: Bytes, assessment: Bytes, supersedes: Bytes, recordedAt: int, digest: Bytes)

  /** The session: its digest and time, the targets it has, and the digest of an event. */
  datatype Session = Session(digest: Bytes, createdAt: int, applies: Bytes -> bool, seal: Event -> Bytes)

  predicate KnownAssessment(a: Bytes) {
    a == "passed" || a == "failed" || a == "indeterminate"
  }

  /** The latest event of each target. */
  function Latest(events: seq<Event>): map<Bytes, Event> {
    if events == [] then map[]
    else
      var e := events[|events| - 1];
      Latest(events[..|events| - 1])[e.target := e]
  }

  function Head(session: Session, events: seq<Event>): Bytes {
    if events == [] then session.digest else events[|events| - 1].digest
  }

  function LastTime(session: Session, events: seq<Event>): int {
    if events == [] then session.createdAt else events[|events| - 1].recordedAt
  }

  function Superseded(events: seq<Event>, target: Bytes): Bytes {
    var latest := Latest(events);
    if target in latest then latest[target].digest else ""
  }

  /** `e` may follow these events. */
  predicate Follows(session: Session, before: seq<Event>, e: Event) {
    && e.sequence == |before| + 1 && e.previous == Head(session, before)
    && session.applies(e.target) && KnownAssessment(e.assessment)
    && e.recordedAt > LastTime(session, before)
    && e.supersedes == Superseded(before, e.target)
    && e.digest == session.seal(e.(digest := ""))
  }

  predicate Verified(session: Session, events: seq<Event>) {
    forall i | 0 <= i < |events| :: Follows(session, events[..i], events[i])
  }

  /** The loop over a journal, remembering the latest events, the head and its time. */
  method VerifyJournal(session: Session, events: seq<Event>) returns (ok: bool)
    ensures ok <==> Verified(session, events)
  {
    var latest: map<Bytes, Event> := map[];
    var previousDigest, previousTime := session.digest, session.createdAt;
    for index := 0 to |events|
      invariant Verified(session, events[..index])
      invariant latest == Latest(events[..index])
      invariant previousDigest == Head(session, events[..index]) && previousTime == LastTime(session, events[..index])
    {
      var event := events[index];
      assert events[..index + 1][..index] == events[..index];
      VerifiedOneMore(session, events[..index], event);
      assert events[..index] + [event] == events[..index + 1];
      var known := event.assessment == "passed" || event.assessment == "failed" || event.assessment == "indeterminate";
      if !session.applies(event.target) || !known || event.digest != session.seal(event.(digest := ""))
         || event.sequence != index + 1 || event.previous != previousDigest || event.recordedAt <= previousTime {
        return false;
      }
      var superseded := if event.target in latest then latest[event.target].digest else "";
      if event.supersedes != superseded {
        return false;
      }
      latest := latest[event.target := event];
      previousDigest, previousTime := event.digest, event.recordedAt;
    }
    assert events[..|events|] == events;
    ok := true;
  }

  lemma VerifiedOneMore(session: Session, events: seq<Event>, e: Event)
    ensures Verified(session, events + [e]) <==> Verified(session, events) && Follows(session, events, e)
  {
    hide Follows;
    var all := events + [e];
    assert forall i | 0 <= i < |events| :: all[..i] == events[..i] && all[i] == events[i];
    assert all[..|events|] == events;
    if Verified(session, all) {
      forall i | 0 <= i < |events| ensures Follows(session, events[..i], events[i]) {
        assert Follows(session, all[..i], all[i]);
      }
    }
  }

  /** The next event: refused for an unknown target or assessment, a time not later, or a wrong correction. */
  function Built(session: Session, events: seq<Event>, target: Bytes, assessment: Bytes, time: int, correction: bool): Option<Event> {
    if !Verified(session, events) || !session.applies(target) || !KnownAssessment(assessment)
       || (target in Latest(events)) != correction || time <= LastTime(session, events) then None
    else
      var e := Event(|events| + 1, Head(session, events), target, assessment, Superseded(events, target), time, "");
      Some(e.(digest := session.seal(e)))
  }

  /** What is built from a journal extends it to a journal that verifies. */
  lemma BuiltFollows(session: Session, events: seq<Event>, target: Bytes, assessment: Bytes, time: int, correction: bool)
    requires Built(session, events, target, assessment, time, correction).Some?
    ensures var e := Built(session, events, target, assessment, time, correction).value;
            e.sequence == |events| + 1 && Verified(session, events + [e])
  {
    var e := Built(session, events, target, assessment, time, correction).value;
    VerifiedOneMore(session, events, e);
    assert e.(digest := "").(digest := e.digest) == e;
  }

  /** The last event of a target, if there is one. */
  lemma {:induction false} LatestIs(events: seq<Event>, target: Bytes)
    ensures target in Latest(events) <==> exists i | 0 <= i < |events| :: events[i].target == target
    ensures forall i | 0 <= i < |events| && events[i].target == target && (forall j | i < j < |events| :: events[j].target != target) ::
              Latest(events)[target] == events[i]
  {
    if events != [] {
      var front, last := events[..|events| - 1], events[|events| - 1];
      LatestIs(front, target);
      assert events == front + [last];
      if last.target == target {
        assert events[|events| - 1].target == target;
      }
    }
  }

  lemma {:induction false} TimesAscend(session: Session, events: seq<Event>)
    requires Verified(session, events)
    ensures session.createdAt <= LastTime(session, events)
    ensures forall i | 0 <= i < |events| :: events[i].recordedAt <= LastTime(session, events)
  {
    hide Head, Superseded, KnownAssessment;
    if events != [] {
      var front, last := events[..|events| - 1], events[|events| - 1];
      VerifiedOneMore(session, front, last);
      assert events == front + [last];
      TimesAscend(session, front);
    }
  }

  /**
   An event is built exactly for a journal that verifies, a target of the session, a known assessment,
   a time later than everything recorded, and as a correction exactly if the target was assessed before.
   */
  lemma BuiltExactlyWhen(session: Session, events: seq<Event>, target: Bytes, assessment: Bytes, time: int, correction: bool)
    ensures Built(session, events, target, assessment, time, correction).Some? <==>
            && Verified(session, events) && session.applies(target)
            && (assessment == "passed" || assessment == "failed" || assessment == "indeterminate")
            && session.createdAt < time && (forall i | 0 <= i < |events| :: events[i].recordedAt < time)
            && (correction <==> exists i | 0 <= i < |events| :: events[i].target == target)
  {
    LatestIs(events, target);
    if Verified(session, events) {
      TimesAscend(session, events);
      if events != [] {
        assert events[|events| - 1].recordedAt == LastTime(session, events);
      }
    }
    hide Verified, Latest;
  }

  /** What is built says what was asked, and names the event it corrects. */
  lemma BuiltSays(session: Session, events: seq<Event>, target: Bytes, assessment: Bytes, time: int, correction: bool)
    requires Built(session, events, target, assessment, time, correction).Some?
    ensures var e := Built(session, events, target, assessment, time, correction).value;
            && e.target == target && e.assessment == assessment && e.recordedAt == time
            && (!correction ==> e.supersedes == "")
            && forall i | 0 <= i < |events| && events[i].target == target && (forall j | i < j < |events| :: events[j].target != target) ::
                 e.supersedes == events[i].digest
  {
    LatestIs(events, target);
    hide Verified, Latest;
  }

  // ----- file names

  const LAST_SEQUENCE := 999999

  function EventName(n: nat): Bytes {
    Padded(n, 6) + ".json"
  }

  /** The name a candidate has beside its target until it is linked. */
  function CandidateName(n: nat, tag: Bytes): Bytes {
    ['.'] + EventName(n) + ".tmp-" + tag
  }

  /** The sequence number of a canonical event file name. */
  function SequenceOf(name: Bytes): Option<nat> {
    if |name| != 11 || name[6..] != ".json" then None
    else
      var sequence :- Atoi(name[..6]);
      if sequence < 1 || EventName(sequence) != name then None else Some(sequence)
  }

  lemma SixDigits(n: nat)
    ensures n <= LAST_SEQUENCE <==> |Padded(n, 6)| == 6
    ensures AllDigits(Padded(n, 6)) && |Padded(n, 6)| >= 6
  {
    DigitsLength(n, 6);
    assert Pow10(6) == 1000000;
  }

  /** Exactly the names of the sequences 1 to 999999 are canonical. */
  lemma CanonicalNames(name: Bytes, n: nat)
    ensures SequenceOf(name) == Some(n) <==> 1 <= n <= LAST_SEQUENCE && name == EventName(n)
  {
    SixDigits(n);
    ValueOfPadded(n, 6);
    if 1 <= n <= LAST_SEQUENCE && name == EventName(n) {
      assert name[..6] == Padded(n, 6) && name[6..] == ".json";
    }
  }

  lemma NamesDiffer(a: nat, b: nat)
    ensures EventName(a) == EventName(b) ==> a == b
  {
    ValueOfPadded(a, 6);
    ValueOfPadded(b, 6);
    if EventName(a) == EventName(b) {
      assert EventName(a)[..|EventName(a)| - 5] == Padded(a, 6);
      assert EventName(b)[..|EventName(b)| - 5] == Padded(b, 6);
    }
  }

  /** A candidate never has an event's name, nor one a load accepts. */
  lemma CandidatesDiffer(n: nat, tag: Bytes, m: nat)
    ensures CandidateName(n, tag) != EventName(m) && SequenceOf(CandidateName(n, tag)).None?
  {
    SixDigits(m);
    assert CandidateName(n, tag)[0] == '.' && IsDigit(EventName(m)[0]);
    var name := CandidateName(n, tag);
    if SequenceOf(name).Some? {
      CanonicalNames(name, SequenceOf(name).value);
      SixDigits(SequenceOf(name).value);
    }
  }
}
