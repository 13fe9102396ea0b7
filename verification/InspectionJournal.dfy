/**
 The append-only journal under concurrent recorders and finalizers. A recorder lists the events
 directory, reads the files one by one, builds the next event, writes a candidate beside its target,
 links it unless the target exists, removes the candidate and loads again. A finalizer publishes the
 inspection record and then the completion that names it. Any process may take the next step.
 */
module InspectionJournal {
  import opened Basics
  import opened InspectionEvents

  /**
   The private store: the events directory with everything in it, candidates included, the
   inspection records by digest, and the completion of the session.
   */
  datatype Store = Store(dir: map<Bytes, Event>, records: map<Bytes, Bytes>, completion: Option<Bytes>)

  /** What a finalizer makes of a loaded journal: a record under its digest, and a completion naming it. */
  datatype Final = Final(recordDigest: Bytes, record: Bytes, completion: Bytes)

  /** The session, and what finalizing computes; a completion names the digest of its record. */
  datatype Setting = Setting(session: Session, finalize: seq<Event> -> Option<Final>, names: Bytes -> Bytes, sealed: Bytes -> Bytes)

  /** Records are stored under their own digest, and completions name the record they came with. */
  ghost predicate Sound(g: Setting) {
    forall events :: g.finalize(events).Some? ==>
      var f := g.finalize(events).value;
      g.sealed(f.record) == f.recordDigest && g.names(f.completion) == f.recordDigest
  }

  datatype Purpose = ToRecord | ToReport | ToFinalize

  /** Where a process stands. A load remembers how many files it listed and what it has read. */
  datatype Phase =
    | Idle
    | Reading(count: nat, loaded: seq<Event>, purpose: Purpose)
    | Holding(loaded: seq<Event>, purpose: Purpose)
    | Writing(before: seq<Event>, event: Event, candidate: Bytes)
    | Cleaning(event: Event, candidate: Bytes, linked: bool)
    | Appended(event: Event)
    | Completing(final: Final)
    | Finalized(final: Final)
    | Failed

  datatype System = System(store: Store, phase: nat -> Phase)

  datatype Action =
    | List(purpose: Purpose)
    | ReadNext
    | Verify
    | Record(target: Bytes, assessment: Bytes, time: int, correction: bool, tag: Bytes)
    | Link
    | RemoveCandidate
    | PublishRecord
    | PublishCompletion

  // ----- loading

  /** The directory holds exactly the files of the sequences 1 to n, with nothing beside them. */
  ghost predicate HoldsExactly(dir: map<Bytes, Event>, n: nat) {
    && n <= LAST_SEQUENCE
    && (forall k | 1 <= k <= n :: EventName(k) in dir)
    && forall name | name in dir :: exists k | 1 <= k <= n :: name == EventName(k)
  }

  /** How many files a listing finds, if it accepts what it sees. */
  ghost function Listed(dir: map<Bytes, Event>): Option<nat> {
    if n: nat :| HoldsExactly(dir, n) then Some(n) else None
  }

  lemma ListedIsCount(dir: map<Bytes, Event>, n: nat)
    requires HoldsExactly(dir, n)
    ensures Listed(dir) == Some(n)
  {
    forall m: nat | HoldsExactly(dir, m) ensures m == n {
      if m < n {
        NotHeld(dir, m, n);
      } else if n < m {
        NotHeld(dir, n, m);
      }
    }
  }

  lemma NotHeld(dir: map<Bytes, Event>, m: nat, n: nat)
    requires m < n && HoldsExactly(dir, m)
    ensures !HoldsExactly(dir, n)
  {
    if EventName(n) in dir {
      var k :| 1 <= k <= m && EventName(n) == EventName(k);
      NamesDiffer(n, k);
    }
  }

  // ----- steps

  /** The phase a process moves to and the store it leaves. */
  ghost function Do(g: Setting, s: Store, phase: Phase, action: Action): (Phase, Store) {
    match action
    case List(purpose) =>
      if !phase.Idle? then (phase, s)
      else if Listed(s.dir).None? then (Failed, s)
      else (Reading(Listed(s.dir).value, [], purpose), s)
    case ReadNext =>
      if !phase.Reading? || |phase.loaded| >= phase.count then (phase, s)
      else
        var name := EventName(|phase.loaded| + 1);
        if name !in s.dir then (Failed, s) else (Reading(phase.count, phase.loaded + [s.dir[name]], phase.purpose), s)
    case Verify =>
      if !phase.Reading? || |phase.loaded| != phase.count then (phase, s)
      else if !Verified(g.session, phase.loaded) then (Failed, s)
      else (Holding(phase.loaded, phase.purpose), s)
    case Record(target, assessment, time, correction, tag) =>
      if !phase.Holding? || phase.purpose != ToRecord then (phase, s)
      else
        var e := Built(g.session, phase.loaded, target, assessment, time, correction);
        if e.None? then (Failed, s)
        else
          var candidate := CandidateName(e.value.sequence, tag);
          if candidate in s.dir then (Failed, s)
          else (Writing(phase.loaded, e.value, candidate), s.(dir := s.dir[candidate := e.value]))
    case Link =>
      if !phase.Writing? then (phase, s)
      else
        var target := EventName(phase.event.sequence);
        if target in s.dir || phase.candidate !in s.dir then (Cleaning(phase.event, phase.candidate, false), s)
        else (Cleaning(phase.event, phase.candidate, true), s.(dir := s.dir[target := s.dir[phase.candidate]]))
    case RemoveCandidate =>
      if !phase.Cleaning? then (phase, s)
      else (if phase.linked then Appended(phase.event) else Failed, s.(dir := s.dir - {phase.candidate}))
    case PublishRecord =>
      if !phase.Holding? || phase.purpose != ToFinalize then (phase, s)
      else
        var final := g.finalize(phase.loaded);
        if final.None? then (Failed, s)
        else if final.value.recordDigest !in s.records then
          (Completing(final.value), s.(records := s.records[final.value.recordDigest := final.value.record]))
        else if s.records[final.value.recordDigest] == final.value.record then (Completing(final.value), s)
        else (Failed, s)
    case PublishCompletion =>
      if !phase.Completing? then (phase, s)
      else if s.completion.None? then (Finalized(phase.final), s.(completion := Some(phase.final.completion)))
      else if s.completion.value == phase.final.completion then (Finalized(phase.final), s)
      else (Failed, s)
  }

  ghost function Step(g: Setting, s: System, p: nat, action: Action): System {
    var (phase, store) := Do(g, s.store, s.phase(p), action);
    System(store, (q: nat) => if q == p then phase else s.phase(q))
  }

  ghost predicate Initial(s: System) {
    s.store == Store(map[], map[], None) && forall p: nat :: s.phase(p) == Idle
  }

  datatype Move = Move(process: nat, action: Action)

  /** A run: the states that follow one another under the moves. */
  ghost predicate Run(g: Setting, states: seq<System>, moves: seq<Move>) {
    && |states| == |moves| + 1 && Initial(states[0])
    && forall i | 0 <= i < |moves| :: states[i + 1] == Step(g, states[i], moves[i].process, moves[i].action)
  }

  // ----- the invariant

  ghost predicate IsTemporary(name: Bytes) {
    exists k: nat, tag :: name == CandidateName(k, tag)
  }

  ghost predicate EventOrTemporary(name: Bytes, n: nat) {
    IsTemporary(name) || exists k | 1 <= k <= n :: name == EventName(k)
  }

  /** The linked events are those of the sequences 1 to n, and all else is candidates. */
  ghost predicate Linked(dir: map<Bytes, Event>, n: nat) {
    && (forall k | 1 <= k <= n :: EventName(k) in dir)
    && (forall k | k > n :: EventName(k) !in dir)
    && forall name | name in dir :: EventOrTemporary(name, n)
  }

  /** The events of the first n sequences. */
  ghost function JournalOf(dir: map<Bytes, Event>, n: nat): seq<Event>
    requires forall k | 1 <= k <= n :: EventName(k) in dir
  {
    if n == 0 then [] else JournalOf(dir, n - 1) + [dir[EventName(n)]]
  }

  ghost predicate IsPrefix(a: seq<Event>, b: seq<Event>) {
    |a| <= |b| && a == b[..|a|]
  }

  ghost predicate IsCandidate(event: Event, candidate: Bytes) {
    exists tag :: candidate == CandidateName(event.sequence, tag)
  }

  ghost predicate InJournal(journal: seq<Event>, event: Event) {
    1 <= event.sequence <= |journal| && journal[event.sequence - 1] == event
  }

  /** What a process knows is a part of the journal; what it is about to write follows such a part. */
  ghost predicate PhaseOk(g: Setting, s: Store, journal: seq<Event>, phase: Phase) {
    match phase
    case Reading(count, loaded, _) => |loaded| <= count <= |journal| && count <= LAST_SEQUENCE && IsPrefix(loaded, journal)
    case Holding(loaded, _) => |loaded| <= LAST_SEQUENCE && IsPrefix(loaded, journal) && Verified(g.session, loaded)
    case Writing(before, event, candidate) =>
      && |before| <= LAST_SEQUENCE && IsPrefix(before, journal)
      && event.sequence == |before| + 1 && Verified(g.session, before + [event])
      && IsCandidate(event, candidate) && candidate in s.dir && s.dir[candidate] == event
    case Cleaning(event, candidate, linked) => IsCandidate(event, candidate) && candidate in s.dir && (linked ==> InJournal(journal, event))
    case Appended(event) => InJournal(journal, event)
    case Completing(final) => Recorded(g, s, final.completion) && Stored(s, final)
    case Finalized(final) => Stored(s, final) && s.completion == Some(final.completion)
    case _ => true
  }

  /** The record of a finalization is the one stored under its digest. */
  ghost predicate Stored(s: Store, final: Final) {
    final.recordDigest in s.records && s.records[final.recordDigest] == final.record
  }

  /** The record a completion names is there, under its own digest. */
  ghost predicate Recorded(g: Setting, s: Store, completion: Bytes) {
    g.names(completion) in s.records && g.sealed(s.records[g.names(completion)]) == g.names(completion)
  }

  ghost predicate StoreOk(g: Setting, s: Store, n: nat) {
    && Linked(s.dir, n) && Verified(g.session, JournalOf(s.dir, n))
    && n <= LAST_SEQUENCE + 1
    && (s.completion.Some? ==> Recorded(g, s, s.completion.value))
  }

  ghost function Journal(s: Store, n: nat): seq<Event>
    requires Linked(s.dir, n)
  {
    JournalOf(s.dir, n)
  }

  function CandidateOf(phase: Phase): Option<Bytes> {
    match phase
    case Writing(_, _, candidate) => Some(candidate)
    case Cleaning(_, candidate, _) => Some(candidate)
    case _ => None
  }

  /** No two processes have the same candidate. */
  ghost predicate Apart(a: Phase, b: Phase) {
    CandidateOf(a).Some? ==> CandidateOf(a) != CandidateOf(b)
  }

  ghost predicate Inv(g: Setting, s: System, n: nat) {
    && StoreOk(g, s.store, n)
    && (forall p: nat :: PhaseOk(g, s.store, Journal(s.store, n), s.phase(p)))
    && forall p: nat, q: nat | p != q :: Apart(s.phase(p), s.phase(q))
  }

  // ----- one step keeps it

  lemma {:induction false} JournalLength(dir: map<Bytes, Event>, n: nat)
    requires forall k | 1 <= k <= n :: EventName(k) in dir
    ensures |JournalOf(dir, n)| == n
    ensures forall k | 1 <= k <= n :: JournalOf(dir, n)[k - 1] == dir[EventName(k)]
  {
    if n > 0 {
      JournalLength(dir, n - 1);
    }
  }

  /** Directories that agree on the linked events have one journal. */
  lemma {:induction false} SameJournal(a: map<Bytes, Event>, b: map<Bytes, Event>, n: nat)
    requires forall k | 1 <= k <= n :: EventName(k) in a && EventName(k) in b && a[EventName(k)] == b[EventName(k)]
    ensures JournalOf(a, n) == JournalOf(b, n)
  {
    if n > 0 {
      SameJournal(a, b, n - 1);
    }
  }

  /** Adding or taking away a candidate leaves the linked events alone. */
  lemma CandidateChange(dir: map<Bytes, Event>, after: map<Bytes, Event>, n: nat, candidate: Bytes, event: Event)
    requires Linked(dir, n) && IsCandidate(event, candidate)
    requires after == dir - {candidate} || after == dir[candidate := event]
    ensures Linked(after, n) && JournalOf(after, n) == JournalOf(dir, n)
  {
    var tag :| candidate == CandidateName(event.sequence, tag);
    forall k: nat ensures EventName(k) != candidate {
      CandidatesDiffer(event.sequence, tag, k);
    }
    SameJournal(dir, after, n);
  }

  /** How a step may change the store, seen by the other processes. */
  ghost predicate Extends(s: Store, t: Store, own: Option<Bytes>, n: nat, m: nat)
    requires Linked(s.dir, n) && Linked(t.dir, m)
  {
    && n <= m && IsPrefix(Journal(s, n), Journal(t, m))
    && (forall name | name in s.dir && Some(name) != own :: name in t.dir && t.dir[name] == s.dir[name])
    && (forall d | d in s.records :: d in t.records && t.records[d] == s.records[d])
    && (s.completion.Some? ==> t.completion == s.completion)
  }

  lemma OthersKept(g: Setting, s: Store, t: Store, own: Option<Bytes>, n: nat, m: nat, other: Phase)
    requires Linked(s.dir, n) && Linked(t.dir, m) && Extends(s, t, own, n, m)
    requires PhaseOk(g, s, Journal(s, n), other) && (own.Some? ==> CandidateOf(other) != own)
    ensures PhaseOk(g, t, Journal(t, m), other)
  {
    hide Verified, Linked, Journal, IsCandidate;
  }

  ghost predicate Kept(g: Setting, s: Store, n: nat, phase: Phase, t: Store, m: nat, after: Phase) {
    && StoreOk(g, t, m) && StoreOk(g, s, n) && PhaseOk(g, t, Journal(t, m), after)
    && Extends(s, t, CandidateOf(phase), n, m)
    && (CandidateOf(after) == CandidateOf(phase) || CandidateOf(after).None? || CandidateOf(after).value !in s.dir)
  }

  /** A step that leaves the store alone. */
  lemma Unchanged(g: Setting, s: Store, n: nat, phase: Phase, after: Phase)
    requires StoreOk(g, s, n) && PhaseOk(g, s, Journal(s, n), after)
    requires CandidateOf(after) == CandidateOf(phase) || CandidateOf(after).None?
    ensures Kept(g, s, n, phase, s, n, after)
  {
    hide PhaseOk, Verified;
    assert IsPrefix(Journal(s, n), Journal(s, n));
  }

  lemma LengthOfJournal(dir: map<Bytes, Event>, n: nat)
    requires Linked(dir, n)
    ensures |JournalOf(dir, n)| == n
  {
    JournalLength(dir, n);
  }

  lemma ListKeeps(g: Setting, s: Store, n: nat, phase: Phase, action: Action)
    requires StoreOk(g, s, n) && PhaseOk(g, s, Journal(s, n), phase) && action.List?
    ensures Kept(g, s, n, phase, Do(g, s, phase, action).1, n, Do(g, s, phase, action).0)
  {
    hide Verified, Kept, Linked, JournalOf, HoldsExactly;
    LengthOfJournal(s.dir, n);
    if phase.Idle? && Listed(s.dir).Some? {
      ListedWithin(s.dir, n, Listed(s.dir).value);
    }
    Unchanged(g, s, n, phase, Do(g, s, phase, action).0);
  }

  lemma ReadKeeps(g: Setting, s: Store, n: nat, phase: Phase, action: Action)
    requires StoreOk(g, s, n) && PhaseOk(g, s, Journal(s, n), phase) && action.ReadNext?
    ensures Kept(g, s, n, phase, Do(g, s, phase, action).1, n, Do(g, s, phase, action).0)
  {
    hide Verified, Kept, Linked, JournalOf;
    if phase.Reading? && |phase.loaded| < phase.count && EventName(|phase.loaded| + 1) in s.dir {
      ReadIsNext(g, s, n, phase.loaded);
    }
    Unchanged(g, s, n, phase, Do(g, s, phase, action).0);
  }

  lemma ReadIsNext(g: Setting, s: Store, n: nat, loaded: seq<Event>)
    requires StoreOk(g, s, n) && IsPrefix(loaded, Journal(s, n)) && |loaded| < |Journal(s, n)|
    ensures EventName(|loaded| + 1) in s.dir && IsPrefix(loaded + [s.dir[EventName(|loaded| + 1)]], Journal(s, n))
  {
    hide Verified, IsPrefix;
    EventAt(s.dir, n, |loaded| + 1);
    PrefixOneMore(loaded, Journal(s, n));
  }

  lemma EventAt(dir: map<Bytes, Event>, n: nat, k: nat)
    requires Linked(dir, n) && 1 <= k <= |JournalOf(dir, n)|
    ensures k <= n && EventName(k) in dir && JournalOf(dir, n)[k - 1] == dir[EventName(k)]
  {
    JournalLength(dir, n);
  }

  lemma PrefixOneMore(a: seq<Event>, b: seq<Event>)
    requires IsPrefix(a, b) && |a| < |b|
    ensures IsPrefix(a + [b[|a|]], b)
  {
  }

  lemma VerifyKeeps(g: Setting, s: Store, n: nat, phase: Phase, action: Action)
    requires StoreOk(g, s, n) && PhaseOk(g, s, Journal(s, n), phase) && action.Verify?
    ensures Kept(g, s, n, phase, Do(g, s, phase, action).1, n, Do(g, s, phase, action).0)
  {
    hide Verified, Kept, Linked, JournalOf;
    Unchanged(g, s, n, phase, Do(g, s, phase, action).0);
  }

  /** An accepted listing finds exactly the journal. */
  lemma ListedWithin(dir: map<Bytes, Event>, n: nat, count: nat)
    requires Linked(dir, n) && HoldsExactly(dir, count)
    ensures count == n <= LAST_SEQUENCE
  {
    assert count == 0 || EventName(count) in dir;
    if count < n {
      assert EventName(n) in dir;
      var k :| 1 <= k <= count && EventName(n) == EventName(k);
      NamesDiffer(n, k);
    }
  }

  lemma RecordKeeps(g: Setting, s: Store, n: nat, phase: Phase, action: Action)
    requires StoreOk(g, s, n) && PhaseOk(g, s, Journal(s, n), phase) && action.Record?
    ensures Kept(g, s, n, phase, Do(g, s, phase, action).1, n, Do(g, s, phase, action).0)
  {
    hide Verified, Kept, Built;
    if phase.Holding? && phase.purpose == ToRecord {
      var e := Built(g.session, phase.loaded, action.target, action.assessment, action.time, action.correction);
      if e.Some? {
        BuiltFollows(g.session, phase.loaded, action.target, action.assessment, action.time, action.correction);
        var candidate := CandidateName(e.value.sequence, action.tag);
        assert IsCandidate(e.value, candidate);
        if candidate !in s.dir {
          Wrote(g, s, n, phase, Writing(phase.loaded, e.value, candidate));
          return;
        }
      }
    }
    Unchanged(g, s, n, phase, Do(g, s, phase, action).0);
  }

  lemma Wrote(g: Setting, s: Store, n: nat, phase: Phase, after: Phase)
    requires StoreOk(g, s, n) && PhaseOk(g, s, Journal(s, n), phase) && phase.Holding?
    requires after.Writing? && after.before == phase.loaded && after.event.sequence == |after.before| + 1
    requires Verified(g.session, after.before + [after.event]) && IsCandidate(after.event, after.candidate) && after.candidate !in s.dir
    ensures Kept(g, s, n, phase, s.(dir := s.dir[after.candidate := after.event]), n, after)
  {
    hide Verified, Linked, JournalOf, IsCandidate;
    CandidateChange(s.dir, s.dir[after.candidate := after.event], n, after.candidate, after.event);
    assert IsPrefix(Journal(s, n), Journal(s, n));
  }

  lemma RemoveKeeps(g: Setting, s: Store, n: nat, phase: Phase, action: Action)
    requires StoreOk(g, s, n) && PhaseOk(g, s, Journal(s, n), phase) && action.RemoveCandidate?
    ensures Kept(g, s, n, phase, Do(g, s, phase, action).1, n, Do(g, s, phase, action).0)
  {
    hide Verified, Linked, JournalOf, IsCandidate;
    if phase.Cleaning? {
      CandidateChange(s.dir, s.dir - {phase.candidate}, n, phase.candidate, phase.event);
      assert IsPrefix(Journal(s, n), Journal(s, n));
    } else {
      Unchanged(g, s, n, phase, phase);
    }
  }

  lemma PublishKeeps(g: Setting, s: Store, n: nat, phase: Phase, action: Action)
    requires Sound(g) && StoreOk(g, s, n) && PhaseOk(g, s, Journal(s, n), phase) && (action.PublishRecord? || action.PublishCompletion?)
    ensures Kept(g, s, n, phase, Do(g, s, phase, action).1, n, Do(g, s, phase, action).0)
  {
    hide Verified, Linked, JournalOf;
    assert IsPrefix(Journal(s, n), Journal(s, n));
  }

  /** Linking puts the event exactly at the end of the journal, or does nothing. */
  lemma LinkKeeps(g: Setting, s: Store, n: nat, phase: Phase) returns (m: nat)
    requires StoreOk(g, s, n) && PhaseOk(g, s, Journal(s, n), phase) && phase.Writing?
    ensures var (after, t) := Do(g, s, phase, Action.Link);
            Kept(g, s, n, phase, t, m, after)
    ensures m == if EventName(phase.event.sequence) in s.dir then n else n + 1
  {
    CandidateIsThere(g, s, Journal(s, n), phase);
    hide Verified, Kept, PhaseOk, Linked, JournalOf;
    if EventName(phase.event.sequence) in s.dir {
      m := n;
      LinkRefused(g, s, n, phase);
    } else {
      m := n + 1;
      NextSequence(g, s, n, phase);
      LinkedOneMore(s.dir, n, phase.event);
      Appends(g, s, n, phase);
    }
  }

  lemma LinkRefused(g: Setting, s: Store, n: nat, phase: Phase)
    requires StoreOk(g, s, n) && PhaseOk(g, s, Journal(s, n), phase) && phase.Writing?
    ensures Kept(g, s, n, phase, s, n, Cleaning(phase.event, phase.candidate, false))
  {
    hide Verified, Kept, IsCandidate, Linked, JournalOf;
    Unchanged(g, s, n, phase, Cleaning(phase.event, phase.candidate, false));
  }

  /** A sequence that is not there yet, built on a part of the journal, is the next one. */
  lemma NextSequence(g: Setting, s: Store, n: nat, phase: Phase)
    requires StoreOk(g, s, n) && PhaseOk(g, s, Journal(s, n), phase) && phase.Writing?
    requires EventName(phase.event.sequence) !in s.dir
    ensures phase.event.sequence == n + 1 && |Journal(s, n)| == n
    ensures phase.candidate in s.dir && s.dir[phase.candidate] == phase.event
  {
    hide Verified, IsCandidate;
    JournalLength(s.dir, n);
  }

  lemma LinkedOneMore(dir: map<Bytes, Event>, n: nat, event: Event)
    requires Linked(dir, n)
    ensures var after := dir[EventName(n + 1) := event];
            Linked(after, n + 1) && JournalOf(after, n + 1) == JournalOf(dir, n) + [event]
  {
    LinkedFurther(dir, n, event);
    LongerJournal(dir, n, event);
    hide Linked, EventName;
  }

  lemma LinkedFurther(dir: map<Bytes, Event>, n: nat, event: Event)
    requires Linked(dir, n)
    ensures Linked(dir[EventName(n + 1) := event], n + 1)
  {
    var after := dir[EventName(n + 1) := event];
    forall k: nat | k > n + 1 ensures EventName(k) !in after {
      NamesDiffer(k, n + 1);
    }
    forall name | name in after ensures EventOrTemporary(name, n + 1) {
      if name in dir {
        MoreEvents(name, n);
      } else {
        assert name == EventName(n + 1);
      }
    }
    hide EventName, EventOrTemporary;
  }

  lemma MoreEvents(name: Bytes, n: nat)
    requires EventOrTemporary(name, n)
    ensures EventOrTemporary(name, n + 1)
  {
    hide EventName;
    if !IsTemporary(name) {
      var k :| 1 <= k <= n && name == EventName(k);
      assert 1 <= k <= n + 1;
    }
  }

  lemma LongerJournal(dir: map<Bytes, Event>, n: nat, event: Event)
    requires Linked(dir, n)
    ensures var after := dir[EventName(n + 1) := event];
            && (forall k | 1 <= k <= n + 1 :: EventName(k) in after)
            && JournalOf(after, n + 1) == JournalOf(dir, n) + [event]
  {
    forall k | 1 <= k <= n ensures EventName(k) != EventName(n + 1) {
      NamesDiffer(k, n + 1);
    }
    hide EventName, IsTemporary;
    SameJournal(dir, dir[EventName(n + 1) := event], n);
  }

  lemma Appends(g: Setting, s: Store, n: nat, phase: Phase)
    requires StoreOk(g, s, n) && PhaseOk(g, s, Journal(s, n), phase) && phase.Writing? && phase.event.sequence == n + 1
    requires EventName(n + 1) !in s.dir && |Journal(s, n)| == n
    requires var after := s.dir[EventName(n + 1) := phase.event];
             Linked(after, n + 1) && JournalOf(after, n + 1) == JournalOf(s.dir, n) + [phase.event]
    ensures Kept(g, s, n, phase, s.(dir := s.dir[EventName(n + 1) := phase.event]), n + 1, Cleaning(phase.event, phase.candidate, true))
  {
    hide Verified, Linked, JournalOf, IsCandidate;
    assert phase.before == Journal(s, n);
    var t := s.(dir := s.dir[EventName(n + 1) := phase.event]);
    assert IsPrefix(Journal(s, n), Journal(t, n + 1));
  }

  lemma DoKeeps(g: Setting, s: Store, n: nat, phase: Phase, action: Action) returns (m: nat)
    requires Sound(g) && StoreOk(g, s, n) && PhaseOk(g, s, Journal(s, n), phase)
    ensures n <= m <= n + 1
    ensures Kept(g, s, n, phase, Do(g, s, phase, action).1, m, Do(g, s, phase, action).0)
  {
    hide StoreOk, PhaseOk, Kept, Journal, Sound;
    m := n;
    match action {
      case List(_) => ListKeeps(g, s, n, phase, action);
      case ReadNext => ReadKeeps(g, s, n, phase, action);
      case Verify => VerifyKeeps(g, s, n, phase, action);
      case Record(_, _, _, _, _) => RecordKeeps(g, s, n, phase, action);
      case Link =>
        if phase.Writing? {
          m := LinkKeeps(g, s, n, phase);
        } else {
          Unchanged(g, s, n, phase, phase);
        }
      case RemoveCandidate => RemoveKeeps(g, s, n, phase, action);
      case PublishRecord => PublishKeeps(g, s, n, phase, action);
      case PublishCompletion => PublishKeeps(g, s, n, phase, action);
    }
  }

  /** Every step of any process keeps the invariant, and the journal only grows, by one event at most. */
  lemma StepKeeps(g: Setting, s: System, n: nat, p: nat, action: Action) returns (m: nat)
    requires Sound(g) && Inv(g, s, n)
    ensures n <= m <= n + 1 && Inv(g, Step(g, s, p, action), m)
    ensures IsPrefix(Journal(s.store, n), Journal(Step(g, s, p, action).store, m))
  {
    m := DoKeeps(g, s.store, n, s.phase(p), action);
    var after, t := Do(g, s.store, s.phase(p), action).0, Do(g, s.store, s.phase(p), action).1;
    var next := Step(g, s, p, action);
    hide Do, StoreOk, PhaseOk, Journal, Sound, Extends, Linked;
    forall q: nat ensures PhaseOk(g, t, Journal(t, m), next.phase(q)) {
      if q != p {
        OtherKept(g, s, n, p, q, t, m, after);
      }
    }
    forall q: nat, r: nat | q != r ensures Apart(next.phase(q), next.phase(r)) {
      StaysApart(g, s, n, p, t, m, after, q, r);
    }
  }

  lemma OtherKept(g: Setting, s: System, n: nat, p: nat, q: nat, t: Store, m: nat, after: Phase)
    requires Inv(g, s, n) && Kept(g, s.store, n, s.phase(p), t, m, after) && p != q
    ensures PhaseOk(g, t, Journal(t, m), s.phase(q))
  {
    assert Linked(s.store.dir, n) && Linked(t.dir, m);
    hide StoreOk, PhaseOk, Extends, Linked, Journal;
    assert Apart(s.phase(p), s.phase(q));
    OthersKept(g, s.store, t, CandidateOf(s.phase(p)), n, m, s.phase(q));
  }

  /** A candidate in use is a file. */
  lemma CandidateIsThere(g: Setting, s: Store, journal: seq<Event>, phase: Phase)
    requires PhaseOk(g, s, journal, phase) && CandidateOf(phase).Some?
    ensures CandidateOf(phase).value in s.dir
  {
  }

  lemma StaysApart(g: Setting, s: System, n: nat, p: nat, t: Store, m: nat, after: Phase, q: nat, r: nat)
    requires Inv(g, s, n) && Kept(g, s.store, n, s.phase(p), t, m, after) && q != r
    ensures Apart(if q == p then after else s.phase(q), if r == p then after else s.phase(r))
  {
    assert Linked(s.store.dir, n);
    hide StoreOk, PhaseOk, Extends, Linked, Journal;
    assert Apart(s.phase(q), s.phase(r)) && Apart(s.phase(r), s.phase(q));
    var other := if q == p then r else q;
    if other != p && CandidateOf(s.phase(other)).Some? {
      CandidateIsThere(g, s.store, Journal(s.store, n), s.phase(other));
    }
  }

  // ----- runs

  lemma {:induction false} InitialHolds(g: Setting, s: System)
    requires Initial(s)
    ensures Inv(g, s, 0)
  {
    assert JournalOf(s.store.dir, 0) == [];
    forall p: nat ensures PhaseOk(g, s.store, Journal(s.store, 0), s.phase(p)) {
      assert s.phase(p) == Idle;
    }
  }

  /** In every state of every run: how long the journal is, and that the invariant holds. */
  lemma {:induction false} RunHolds(g: Setting, states: seq<System>, moves: seq<Move>, i: nat) returns (n: nat)
    requires Sound(g) && Run(g, states, moves) && i < |states|
    ensures Inv(g, states[i], n)
  {
    hide Inv, Step, Initial;
    if i == 0 {
      InitialHolds(g, states[0]);
      n := 0;
    } else {
      var before := RunHolds(g, states, moves, i - 1);
      n := StepKeeps(g, states[i - 1], before, moves[i - 1].process, moves[i - 1].action);
    }
  }

  lemma {:induction false} CountIsUnique(dir: map<Bytes, Event>, n: nat, m: nat)
    requires Linked(dir, n) && Linked(dir, m)
    ensures n == m
  {
    assert n > m ==> EventName(n) in dir;
    assert m > n ==> EventName(m) in dir;
  }

  /**
   In any interleaving the events directory holds exactly the events 1 to n, a journal that verifies,
   and beside them only candidates; a completion exists only with the record it names.
   */
  lemma {:induction false} DirectoryIsJournal(g: Setting, states: seq<System>, moves: seq<Move>, i: nat) returns (n: nat)
    requires Sound(g) && Run(g, states, moves) && i < |states|
    ensures Linked(states[i].store.dir, n) && n <= LAST_SEQUENCE + 1
    ensures Verified(g.session, Journal(states[i].store, n)) && |Journal(states[i].store, n)| == n
    ensures states[i].store.completion.Some? ==> Recorded(g, states[i].store, states[i].store.completion.value)
  {
    n := RunHolds(g, states, moves, i);
    JournalLength(states[i].store.dir, n);
    hide Verified, PhaseOk, Recorded, Run;
  }

  /** Later journals extend earlier ones: no event is overwritten, moved or lost. */
  lemma {:induction false} JournalGrows(g: Setting, states: seq<System>, moves: seq<Move>, i: nat, j: nat, n: nat, m: nat)
    requires Sound(g) && Run(g, states, moves) && i <= j < |states|
    requires Inv(g, states[i], n) && Inv(g, states[j], m)
    ensures n <= m && IsPrefix(Journal(states[i].store, n), Journal(states[j].store, m))
  {
    hide Inv, Step, Initial, Linked, Journal, Sound;
    InvLinks(g, states[j], m);
    if i == j {
      InvLinks(g, states[i], n);
      CountIsUnique(states[i].store.dir, n, m);
    } else {
      var k := RunHolds(g, states, moves, j - 1);
      JournalGrows(g, states, moves, i, j - 1, n, k);
      var after := StepKeeps(g, states[j - 1], k, moves[j - 1].process, moves[j - 1].action);
      InvLinks(g, states[j], after);
      CountIsUnique(states[j].store.dir, m, after);
    }
  }

  lemma InvLinks(g: Setting, s: System, n: nat)
    requires Inv(g, s, n)
    ensures Linked(s.store.dir, n)
  {
  }

  /** The phase of a process whose one load listed `count` files. */
  predicate Loading(phase: Phase, count: nat) {
    match phase
    case Idle => false
    case Reading(c, _, _) => c == count
    case Holding(loaded, _) => |loaded| == count
    case _ => true
  }

  lemma LoadingGoesOn(g: Setting, s: Store, phase: Phase, action: Action, count: nat)
    requires Loading(phase, count)
    ensures Loading(Do(g, s, phase, action).0, count)
  {
    hide Verified, Built, Listed;
  }

  lemma {:induction false} LoadingInRun(g: Setting, states: seq<System>, moves: seq<Move>, i: nat, j: nat, p: nat, count: nat)
    requires Run(g, states, moves) && i <= j < |states| && Loading(states[i].phase(p), count)
    ensures Loading(states[j].phase(p), count)
  {
    hide Do, Initial, Loading;
    if i < j {
      LoadingInRun(g, states, moves, i, j - 1, p, count);
      LoadingGoesOn(g, states[j - 1].store, states[j - 1].phase(p), moves[j - 1].action, count);
      assert states[j] == Step(g, states[j - 1], moves[j - 1].process, moves[j - 1].action);
    }
  }

  /** What a load returns is the whole journal of the moment it listed the directory. */
  lemma {:induction false} LoadReturnsJournal(g: Setting, states: seq<System>, moves: seq<Move>, i: nat, j: nat, n: nat)
    requires Sound(g) && Run(g, states, moves) && i < j < |states|
    requires moves[i].action.List? && states[i].phase(moves[i].process).Idle? && Inv(g, states[i], n)
    requires states[j].phase(moves[i].process).Holding?
    ensures states[j].phase(moves[i].process).loaded == Journal(states[i].store, n)
  {
    var p := moves[i].process;
    var m := RunHolds(g, states, moves, j);
    JournalGrows(g, states, moves, i, j, n, m);
    JournalLength(states[i].store.dir, n);
    ListingTracks(g, states, moves, i, n);
    hide Verified, Do, Linked, Initial;
    if states[i + 1].phase(p).Failed? {
      FailedStays(g, states, moves, i + 1, j, p);
    } else {
      LoadingInRun(g, states, moves, i + 1, j, p, n);
      assert PhaseOk(g, states[j].store, Journal(states[j].store, m), states[j].phase(p));
    }
  }

  lemma {:induction false} ListingTracks(g: Setting, states: seq<System>, moves: seq<Move>, i: nat, n: nat)
    requires Run(g, states, moves) && i < |moves| && moves[i].action.List? && states[i].phase(moves[i].process).Idle?
    requires Linked(states[i].store.dir, n)
    ensures var after := states[i + 1].phase(moves[i].process);
            after.Failed? || Loading(after, n)
  {
    hide Linked, Initial;
    var dir := states[i].store.dir;
    assert states[i + 1] == Step(g, states[i], moves[i].process, moves[i].action);
    if Listed(dir).Some? {
      ListedWithin(dir, n, Listed(dir).value);
    }
  }

  lemma {:induction false} FailedStays(g: Setting, states: seq<System>, moves: seq<Move>, i: nat, j: nat, p: nat)
    requires Run(g, states, moves) && i <= j < |states| && states[i].phase(p).Failed?
    ensures states[j].phase(p).Failed?
  {
    hide Initial, Built, Listed, Verified;
    if i < j {
      FailedStays(g, states, moves, i, j - 1, p);
      assert states[j] == Step(g, states[j - 1], moves[j - 1].process, moves[j - 1].action);
    }
  }

  /** An append that was accepted is in the journal every later load returns, at its own place. */
  lemma {:induction false} AcceptedIsLoaded(g: Setting, states: seq<System>, moves: seq<Move>, i: nat, j: nat, l: nat, p: nat)
    requires Sound(g) && Run(g, states, moves) && i <= j < l < |states|
    requires states[i].phase(p).Appended?
    requires moves[j].action.List? && states[j].phase(moves[j].process).Idle? && states[l].phase(moves[j].process).Holding?
    ensures InJournal(states[l].phase(moves[j].process).loaded, states[i].phase(p).event)
  {
    hide Inv, Run, Sound, Linked, Journal, InJournal;
    var n := RunHolds(g, states, moves, i);
    var m := RunHolds(g, states, moves, j);
    JournalGrows(g, states, moves, i, j, n, m);
    LoadReturnsJournal(g, states, moves, j, l, m);
    InvLinks(g, states[i], n);
    InvLinks(g, states[j], m);
    AppendedIsThere(g, states[i], n, p);
    InLonger(states[i].phase(p).event, Journal(states[i].store, n), Journal(states[j].store, m));
  }

  lemma AppendedIsThere(g: Setting, s: System, n: nat, p: nat)
    requires Inv(g, s, n) && s.phase(p).Appended?
    ensures InJournal(Journal(s.store, n), s.phase(p).event)
  {
    hide Verified, Apart, IsPrefix, InJournal, IsCandidate, Recorded, Linked, JournalOf;
    assert PhaseOk(g, s.store, Journal(s.store, n), s.phase(p));
  }

  lemma InLonger(event: Event, a: seq<Event>, b: seq<Event>)
    requires InJournal(a, event) && IsPrefix(a, b)
    ensures InJournal(b, event)
  {
  }

  // ----- one append without interference

  /**
   From a loaded journal: refused when no event can be built, refused without a trace when the place is
   taken, and otherwise the event lies under its name and nothing else has changed.
   */
  lemma AppendAlone(g: Setting, s: Store, loaded: seq<Event>, record: Action)
    requires record.Record?
    ensures var built := Built(g.session, loaded, record.target, record.assessment, record.time, record.correction);
            var (p1, s1) := Do(g, s, Holding(loaded, ToRecord), record);
            var (p2, s2) := Do(g, s1, p1, Link);
            var (p3, s3) := Do(g, s2, p2, RemoveCandidate);
            if built.None? || CandidateName(built.value.sequence, record.tag) in s.dir then p3 == Failed && s3 == s
            else if EventName(built.value.sequence) in s.dir then p3 == Failed && s3 == s
            else p3 == Appended(built.value) && s3 == s.(dir := s.dir[EventName(built.value.sequence) := built.value])
  {
    hide Built, EventName;
    var built := Built(g.session, loaded, record.target, record.assessment, record.time, record.correction);
    if built.Some? {
      var e := built.value;
      var candidate, target := CandidateName(e.sequence, record.tag), EventName(e.sequence);
      CandidatesDiffer(e.sequence, record.tag, e.sequence);
      if candidate !in s.dir {
        assert s.dir[candidate := e] - {candidate} == s.dir;
        assert s.dir[candidate := e][target := e] - {candidate} == s.dir[target := e];
      }
    }
  }

  // ----- finalization

  /** Publishing a completion fails exactly when another one is there; otherwise it is the one that is stored. */
  lemma CompletionIsCompared(g: Setting, s: Store, phase: Phase)
    requires phase.Completing?
    ensures var (after, t) := Do(g, s, phase, PublishCompletion);
            if s.completion.Some? && s.completion.value != phase.final.completion then after == Failed && t == s
            else after == Finalized(phase.final) && t == s.(completion := Some(phase.final.completion))
  {
  }

  /** Publishing a record fails exactly when nothing can be finalized or another record has its digest. */
  lemma RecordIsCompared(g: Setting, s: Store, phase: Phase)
    requires phase.Holding? && phase.purpose == ToFinalize
    ensures var (after, t) := Do(g, s, phase, PublishRecord);
            var final := g.finalize(phase.loaded);
            if final.None? || (final.value.recordDigest in s.records && s.records[final.value.recordDigest] != final.value.record) then
              after == Failed && t == s
            else after == Completing(final.value) && t == s.(records := s.records[final.value.recordDigest := final.value.record])
  {
    var final := g.finalize(phase.loaded);
    if final.Some? && final.value.recordDigest in s.records {
      assert s.records[final.value.recordDigest := s.records[final.value.recordDigest]] == s.records;
    }
  }

  /** A process that reports a finalization left its record and its completion in the store, and they stay there. */
  lemma {:induction false} FinalizedIsStored(g: Setting, states: seq<System>, moves: seq<Move>, i: nat, j: nat, p: nat)
    requires Sound(g) && Run(g, states, moves) && i <= j < |states| && states[i].phase(p).Finalized?
    ensures var final := states[i].phase(p).final;
            states[j].store.completion == Some(final.completion) && Stored(states[j].store, final)
  {
    hide Inv, Do, Run, Sound, Stored;
    var n := RunHolds(g, states, moves, i);
    FinalizedNow(g, states[i], n, p);
    StoreGrows(g, states, moves, i, j);
    StaysStored(states[i].store, states[j].store, states[i].phase(p).final);
  }

  lemma FinalizedNow(g: Setting, s: System, n: nat, p: nat)
    requires Inv(g, s, n) && s.phase(p).Finalized?
    ensures s.store.completion == Some(s.phase(p).final.completion) && Stored(s.store, s.phase(p).final)
  {
    hide Verified, Apart, Stored, IsPrefix, InJournal, IsCandidate, Recorded, Linked, JournalOf;
    assert PhaseOk(g, s.store, Journal(s.store, n), s.phase(p));
  }

  lemma StaysStored(s: Store, t: Store, final: Final)
    requires Stored(s, final) && Outlives(s, t)
    ensures Stored(t, final)
  {
  }

  /** Nothing published in one store is missing or different in the other. */
  ghost predicate Outlives(s: Store, t: Store) {
    && (forall d | d in s.records :: d in t.records && t.records[d] == s.records[d])
    && (s.completion.Some? ==> t.completion == s.completion)
  }

  /** Records and the completion never change once they are published. */
  lemma {:induction false} StoreGrows(g: Setting, states: seq<System>, moves: seq<Move>, i: nat, j: nat)
    requires Sound(g) && Run(g, states, moves) && i <= j < |states|
    ensures Outlives(states[i].store, states[j].store)
  {
    hide Initial, Do, Sound;
    if i < j {
      StoreGrows(g, states, moves, i, j - 1);
      DoOutlives(g, states[j - 1].store, states[j - 1].phase(moves[j - 1].process), moves[j - 1].action);
      assert states[j] == Step(g, states[j - 1], moves[j - 1].process, moves[j - 1].action);
    }
  }

  lemma DoOutlives(g: Setting, s: Store, phase: Phase, action: Action)
    ensures Outlives(s, Do(g, s, phase, action).1)
  {
    hide Verified, Built, Listed;
  }

  /** There is one completion at most: all processes that report a finalization agree on it. */
  lemma {:induction false} FinalizersAgree(g: Setting, states: seq<System>, moves: seq<Move>, i: nat, j: nat, p: nat, q: nat)
    requires Sound(g) && Run(g, states, moves) && i <= j < |states|
    requires states[i].phase(p).Finalized? && states[j].phase(q).Finalized?
    ensures states[i].phase(p).final.completion == states[j].phase(q).final.completion
    ensures var a, b := states[i].phase(p).final, states[j].phase(q).final;
            a.recordDigest == b.recordDigest ==> a.record == b.record
  {
    hide Run, Sound;
    FinalizedIsStored(g, states, moves, i, j, p);
    FinalizedIsStored(g, states, moves, j, j, q);
  }

  // ----- loads that cannot succeed

  /** A listing is accepted exactly when no candidate lies about and the names still have six digits. */
  lemma {:induction false} ListingSucceedsExactlyWhen(dir: map<Bytes, Event>, n: nat)
    requires Linked(dir, n)
    ensures Listed(dir).Some? <==> n <= LAST_SEQUENCE && forall name | name in dir :: !IsTemporary(name)
  {
    if Listed(dir).Some? {
      ListedWithin(dir, n, Listed(dir).value);
      forall name | name in dir ensures !IsTemporary(name) {
        EventsAreNotTemporary(dir, n, name);
      }
    }
    if n <= LAST_SEQUENCE && forall name | name in dir :: !IsTemporary(name) {
      assert HoldsExactly(dir, n);
    }
  }

  lemma EventsAreNotTemporary(dir: map<Bytes, Event>, n: nat, name: Bytes)
    requires HoldsExactly(dir, n) && name in dir
    ensures !IsTemporary(name)
  {
    var k :| 1 <= k <= n && name == EventName(k);
    forall m: nat, tag ensures name != CandidateName(m, tag) {
      CandidatesDiffer(m, tag, k);
    }
  }

  /**
   A run in which a load fails though nothing is wrong: while a recorder's first candidate lies in the
   directory, another process lists it.
   */
  lemma {:induction false} SomeListingIsRefused(g: Setting, target: Bytes, time: int) returns (states: seq<System>, moves: seq<Move>)
    requires g.session.applies(target) && time > g.session.createdAt
    ensures Run(g, states, moves) && |moves| == 4
    ensures moves[3] == Move(1, List(ToReport)) && states[3].phase(1).Idle? && states[4].phase(1).Failed?
    ensures Linked(states[3].store.dir, 0)
  {
    var s0 := System(Store(map[], map[], None), (_: nat) => Idle);
    assert HoldsExactly(map[], 0);
    ListedIsCount(map[], 0);
    var s1 := Step(g, s0, 0, List(ToRecord));
    assert s1.phase(0) == Reading(0, [], ToRecord);
    var s2 := Step(g, s1, 0, Verify);
    assert s2.phase(0) == Holding([], ToRecord);
    var e := Built(g.session, [], target, "passed", time, false).value;
    var record := Record(target, "passed", time, false, "tag");
    var s3 := Step(g, s2, 0, record);
    var candidate := CandidateName(1, "tag");
    assert s3.store.dir == map[candidate := e] && s3.phase(1) == Idle;
    CandidateBlocks(s3.store.dir, e, "tag");
    var s4 := Step(g, s3, 1, List(ToReport));
    states, moves := [s0, s1, s2, s3, s4], [Move(0, List(ToRecord)), Move(0, Verify), Move(0, record), Move(1, List(ToReport))];
  }

  lemma {:induction false} CandidateBlocks(dir: map<Bytes, Event>, e: Event, tag: Bytes)
    requires dir == map[CandidateName(1, tag) := e]
    ensures Linked(dir, 0) && Listed(dir).None?
  {
    forall k: nat ensures EventName(k) !in dir {
      CandidatesDiffer(1, tag, k);
    }
    assert IsTemporary(CandidateName(1, tag));
    assert Linked(dir, 0);
    ListingSucceedsExactlyWhen(dir, 0);
  }
}
