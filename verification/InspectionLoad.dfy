/**
 Loading the journal with nobody else at work: parse the names of the events directory, sort them by
 number, refuse a gap, read the files in order.
 */
module InspectionLoad {
  import opened Basics
  import opened InspectionEvents
  import opened InspectionJournal

  function Inserted(x: nat, s: seq<nat>): (r: seq<nat>)
    ensures multiset(r) == multiset(s) + multiset{x}
  {
    if s == [] || x <= s[0] then [x] + s
    else
      assert s == [s[0]] + s[1..];
      [s[0]] + Inserted(x, s[1..])
  }

  /** The numbers in ascending order. */
  function Ordered(s: seq<nat>): (r: seq<nat>)
    ensures multiset(r) == multiset(s)
  {
    if s == [] then []
    else
      assert s == s[..|s| - 1] + [s[|s| - 1]];
      Inserted(s[|s| - 1], Ordered(s[..|s| - 1]))
  }

  predicate Ascending(s: seq<nat>) {
    forall i, j | 0 <= i < j < |s| :: s[i] <= s[j]
  }

  lemma {:induction false} InsertedAscends(x: nat, s: seq<nat>)
    requires Ascending(s)
    ensures Ascending(Inserted(x, s))
  {
    if s == [] || x <= s[0] {
    } else {
      InsertedAscends(x, s[1..]);
      var tail := Inserted(x, s[1..]);
      forall j | 0 <= j < |tail| ensures s[0] <= tail[j] {
        assert tail[j] in multiset(tail);
        if tail[j] != x {
          assert tail[j] in multiset(s[1..]);
        }
      }
    }
  }

  lemma {:induction false} OrderedAscends(s: seq<nat>)
    ensures Ascending(Ordered(s))
  {
    if s != [] {
      OrderedAscends(s[..|s| - 1]);
      InsertedAscends(s[|s| - 1], Ordered(s[..|s| - 1]));
    }
  }

  lemma {:induction false} DistinctCounts(s: seq<nat>, x: nat)
    requires Distinct(s)
    ensures multiset(s)[x] <= 1
  {
    if s != [] {
      DistinctCounts(s[1..], x);
      assert s == [s[0]] + s[1..];
      if x == s[0] {
        assert x !in s[1..];
      }
    }
  }

  /** Sorting distinct numbers leaves them distinct. */
  lemma {:induction false} OrderedIsDistinct(s: seq<nat>, i: nat, j: nat)
    requires Distinct(s) && i < j < |Ordered(s)|
    ensures Ordered(s)[i] != Ordered(s)[j]
  {
    var r := Ordered(s);
    if r[i] == r[j] {
      assert r == r[..j] + r[j..];
      assert r[i] in r[..j] && r[j] in r[j..];
      assert multiset(r)[r[i]] >= 2;
      DistinctCounts(s, r[i]);
    }
  }

  /** A directory listing: every name once. */
  ghost predicate Names(names: seq<Bytes>, dir: map<Bytes, Event>) {
    (forall name :: name in names <==> name in dir) && Distinct(names)
  }

  ghost predicate Numbered(names: seq<Bytes>, numbers: seq<nat>) {
    |numbers| == |names| && forall i | 0 <= i < |names| :: SequenceOf(names[i]) == Some(numbers[i])
  }

  method ParseNames(names: seq<Bytes>) returns (files: Option<seq<nat>>)
    ensures files.Some? <==> forall i | 0 <= i < |names| :: SequenceOf(names[i]).Some?
    ensures files.Some? ==> Numbered(names, files.value)
  {
    var parsed: seq<nat> := [];
    for index := 0 to |names|
      invariant |parsed| == index && forall i | 0 <= i < index :: SequenceOf(names[i]) == Some(parsed[i])
    {
      var sequence := SequenceOf(names[index]);
      if sequence.None? {
        return None;
      }
      parsed := parsed + [sequence.value];
    }
    files := Some(parsed);
  }

  lemma {:induction false} UnparsedIsRefused(names: seq<Bytes>, dir: map<Bytes, Event>, i: nat)
    requires Names(names, dir) && i < |names| && SequenceOf(names[i]).None?
    ensures Listed(dir).None?
  {
    forall n: nat ensures !HoldsExactly(dir, n) {
      if HoldsExactly(dir, n) {
        assert names[i] in names;
        var k :| 1 <= k <= n && names[i] == EventName(k);
        CanonicalNames(names[i], k);
      }
    }
  }

  /** Which number stands for which file. */
  lemma {:induction false} NumbersAreFiles(names: seq<Bytes>, dir: map<Bytes, Event>, numbers: seq<nat>, k: nat)
    requires Names(names, dir) && Numbered(names, numbers)
    ensures k in numbers <==> 1 <= k <= LAST_SEQUENCE && EventName(k) in dir
  {
    if k in numbers {
      var i :| 0 <= i < |numbers| && numbers[i] == k;
      CanonicalNames(names[i], k);
      assert names[i] in names;
    }
    if 1 <= k <= LAST_SEQUENCE && EventName(k) in dir {
      assert EventName(k) in names;
      var i :| 0 <= i < |names| && names[i] == EventName(k);
      CanonicalNames(names[i], k);
    }
  }

  lemma {:induction false} NumbersAreDistinct(names: seq<Bytes>, dir: map<Bytes, Event>, numbers: seq<nat>)
    requires Names(names, dir) && Numbered(names, numbers)
    ensures Distinct(numbers)
  {
    forall i, j | 0 <= i < j < |numbers| ensures numbers[i] != numbers[j] {
      CanonicalNames(names[i], numbers[i]);
      CanonicalNames(names[j], numbers[j]);
    }
  }

  lemma InOrdered(s: seq<nat>, x: nat)
    ensures x in Ordered(s) <==> x in s
  {
    assert x in Ordered(s) <==> x in multiset(Ordered(s));
    assert x in s <==> x in multiset(s);
  }

  /** Numbers that come out as 1, 2, 3, ... are those of a directory that holds exactly as many files. */
  lemma {:induction false} ConsecutiveIsHeld(names: seq<Bytes>, dir: map<Bytes, Event>, numbers: seq<nat>)
    requires Names(names, dir) && Numbered(names, numbers)
    requires forall i | 0 <= i < |Ordered(numbers)| :: Ordered(numbers)[i] == i + 1
    ensures HoldsExactly(dir, |Ordered(numbers)|)
  {
    hide Ordered, SequenceOf, EventName;
    var r := Ordered(numbers);
    forall k | 1 <= k <= |r| ensures EventName(k) in dir && k <= LAST_SEQUENCE {
      assert r[k - 1] == k;
      InOrdered(numbers, k);
      NumbersAreFiles(names, dir, numbers, k);
    }
    assert |r| == 0 || EventName(|r|) in dir;
    forall name | name in dir ensures exists k | 1 <= k <= |r| :: name == EventName(k) {
      NameIsOrdered(names, dir, numbers, name);
    }
  }

  lemma {:induction false} NameIsOrdered(names: seq<Bytes>, dir: map<Bytes, Event>, numbers: seq<nat>, name: Bytes)
    requires Names(names, dir) && Numbered(names, numbers) && name in dir
    requires forall i | 0 <= i < |Ordered(numbers)| :: Ordered(numbers)[i] == i + 1
    ensures exists k | 1 <= k <= |Ordered(numbers)| :: name == EventName(k)
  {
    hide Ordered, SequenceOf, EventName;
    assert name in names;
    var i :| 0 <= i < |names| && names[i] == name;
    CanonicalNames(name, numbers[i]);
    assert numbers[i] in numbers;
    InOrdered(numbers, numbers[i]);
    var j :| 0 <= j < |Ordered(numbers)| && Ordered(numbers)[j] == numbers[i];
    assert name == EventName(j + 1);
  }

  /** At the first number out of place no listing is acceptable. */
  lemma {:induction false} GapIsRefused(names: seq<Bytes>, dir: map<Bytes, Event>, numbers: seq<nat>, i: nat)
    requires Names(names, dir) && Numbered(names, numbers) && i < |Ordered(numbers)|
    requires (forall j | 0 <= j < i :: Ordered(numbers)[j] == j + 1) && Ordered(numbers)[i] != i + 1
    ensures Listed(dir).None?
  {
    var r := Ordered(numbers);
    OrderedAscends(numbers);
    NumbersAreDistinct(names, dir, numbers);
    InOrdered(numbers, r[i]);
    NumbersAreFiles(names, dir, numbers, r[i]);
    if r[i] < i + 1 {
      OrderedIsDistinct(numbers, r[i] - 1, i);
    } else {
      forall n: nat ensures !HoldsExactly(dir, n) {
        if HoldsExactly(dir, n) {
          MissingIsMissed(names, dir, numbers, i, n);
        }
      }
    }
  }

  lemma {:induction false} MissingIsMissed(names: seq<Bytes>, dir: map<Bytes, Event>, numbers: seq<nat>, i: nat, n: nat)
    requires Names(names, dir) && Numbered(names, numbers) && i < |Ordered(numbers)| && Ascending(Ordered(numbers))
    requires (forall j | 0 <= j < i :: Ordered(numbers)[j] == j + 1) && Ordered(numbers)[i] > i + 1
    ensures !HoldsExactly(dir, n)
  {
    var r := Ordered(numbers);
    InOrdered(numbers, r[i]);
    NumbersAreFiles(names, dir, numbers, r[i]);
    assert i + 1 !in r;
    InOrdered(numbers, i + 1);
    NumbersAreFiles(names, dir, numbers, i + 1);
    if HoldsExactly(dir, n) {
      var k :| 1 <= k <= n && EventName(r[i]) == EventName(k);
      NamesDiffer(r[i], k);
    }
  }

  /** Reads the files one after another while their numbers follow each other. */
  method ReadInOrder(names: seq<Bytes>, dir: map<Bytes, Event>, numbers: seq<nat>) returns (events: Option<seq<Event>>)
    requires Names(names, dir) && Numbered(names, numbers)
    ensures events.Some? <==> forall i | 0 <= i < |Ordered(numbers)| :: Ordered(numbers)[i] == i + 1
    ensures events.None? ==> Listed(dir).None?
    ensures events.Some? ==> |events.value| == |Ordered(numbers)| && forall k | 1 <= k <= |Ordered(numbers)| ::
              EventName(k) in dir && events.value[k - 1] == dir[EventName(k)]
  {
    hide Ordered, SequenceOf, EventName, Listed;
    var files := Ordered(numbers);
    var loaded: seq<Event> := [];
    for index := 0 to |files|
      invariant forall j | 0 <= j < index :: files[j] == j + 1
      invariant |loaded| == index && forall k | 1 <= k <= index :: EventName(k) in dir && loaded[k - 1] == dir[EventName(k)]
    {
      if files[index] != index + 1 {
        GapIsRefused(names, dir, numbers, index);
        return None;
      }
      assert files[index] in files;
      InOrdered(numbers, index + 1);
      NumbersAreFiles(names, dir, numbers, index + 1);
      loaded := loaded + [dir[EventName(index + 1)]];
    }
    events := Some(loaded);
  }

  /** The whole load: the journal of a directory that holds exactly its events, and nothing otherwise. */
  method LoadPilotInspectionEvents(names: seq<Bytes>, dir: map<Bytes, Event>) returns (events: Option<seq<Event>>)
    requires Names(names, dir)
    ensures events.Some? <==> Listed(dir).Some?
    ensures events.Some? ==> HoldsExactly(dir, Listed(dir).value) && events.value == JournalOf(dir, Listed(dir).value)
  {
    hide Ordered, SequenceOf, EventName, Listed, HoldsExactly, JournalOf;
    var files := ParseNames(names);
    if files.None? {
      ghost var i :| 0 <= i < |names| && SequenceOf(names[i]).None?;
      UnparsedIsRefused(names, dir, i);
      return None;
    }
    events := ReadInOrder(names, dir, files.value);
    if events.Some? {
      ConsecutiveIsHeld(names, dir, files.value);
      ListedIsCount(dir, |events.value|);
      JournalIs(dir, |events.value|, events.value);
    }
  }

  lemma {:induction false} JournalIs(dir: map<Bytes, Event>, n: nat, events: seq<Event>)
    requires |events| == n && forall k | 1 <= k <= n :: EventName(k) in dir && events[k - 1] == dir[EventName(k)]
    ensures events == JournalOf(dir, n)
  {
    JournalLength(dir, n);
    forall i | 0 <= i < n ensures events[i] == JournalOf(dir, n)[i] {
      assert events[i + 1 - 1] == dir[EventName(i + 1)];
    }
  }
}
