/**
 Score evidence: ranked alternatives with their probabilities, support entries that group
 alternatives of one canonical letter, and declared masses, mean and variance. All arithmetic is
 exact. The validator is a pair of loops over accumulators; what it accepts is stated by
 `Accepted`.
 */
module ScoreEvidence {
  import opened Basics
  import opened Ordering
  import opened CanonicalNumbers
  import opened Texts

  datatype Alternative = Alternative(
    rank: int, token: Bytes, logprob: Bytes, probability: Bytes, chosen: bool,
    letter: Bytes, value: Bytes, sourceRanks: seq<int>)

  datatype Support = Support(
    letter: Bytes, value: Bytes, probability: Bytes, sourceRanks: seq<int>, sourceForms: seq<Bytes>)

  /** A list that JSON may leave null is an `Option`. */
  datatype Evidence = Evidence(
    schemaVersion: Bytes, policyVersion: Bytes, tag: Bytes, extractionMode: Bytes, alignmentStatus: Bytes,
    requestedTopK: int, returnedTopK: int, visibleMass: Bytes, validMass: Bytes, unobservedMass: Bytes,
    support: Option<seq<Support>>, alternatives: Option<seq<Alternative>>,
    expectedScore: Bytes, variance: Bytes, extracted: bool, degradations: Option<seq<Bytes>>,
    requestedModel: Bytes, routeLimitations: Option<seq<Bytes>>, requestFingerprint: Bytes,
    responseEvidenceDigest: Bytes, capabilityAttestationDigest: Bytes)

  const SCORE_SCHEMA := "evalwitness.protocol.score-evidence.v1"

  // ----- the pieces of acceptance

  /** The rational a text denotes; zero for a text that is no canonical decimal. */
  function Rational(t: Bytes): real {
    if ParseDecimal(t).Some? then Real(ParseDecimal(t).value) else 0.0
  }

  predicate IsProbability(t: Bytes) {
    ParseDecimal(t).Some? && 0.0 <= Rational(t) <= 1.0
  }

  predicate ScoreLetter(letter: Bytes) {
    |letter| == 1 && 'A' <= letter[0] <= 'T'
  }

  predicate SortedPositive(ranks: seq<int>) {
    && ranks != [] && ranks[0] > 0
    && forall i, j | 0 <= i < j < |ranks| :: ranks[i] < ranks[j]
  }

  predicate AlternativeOk(a: Alternative, index: nat) {
    && a.rank == index + 1 && a.token != ""
    && IsProbability(a.probability) && ParseDecimal(a.logprob).Some?
    && if a.letter == "" then a.value == "" && a.sourceRanks == []
       else ScoreLetter(a.letter) && a.value != "" && SortedPositive(a.sourceRanks) && IsProbability(a.value)
  }

  function AlternativeMass(alternatives: seq<Alternative>): real {
    if alternatives == [] then 0.0
    else AlternativeMass(alternatives[..|alternatives| - 1]) + Rational(alternatives[|alternatives| - 1].probability)
  }

  function Chosen(alternatives: seq<Alternative>): nat {
    if alternatives == [] then 0
    else Chosen(alternatives[..|alternatives| - 1]) + if alternatives[|alternatives| - 1].chosen then 1 else 0
  }

  /** Whether the alternative at a rank carries the provenance the entry claims. */
  predicate RankMatches(s: Support, alternatives: seq<Alternative>, rank: int) {
    1 <= rank <= |alternatives| &&
    var a := alternatives[rank - 1];
    a.letter == s.letter && a.value == s.value && a.sourceRanks == s.sourceRanks
  }

  function MassAt(alternatives: seq<Alternative>, rank: int): real {
    if 1 <= rank <= |alternatives| then Rational(alternatives[rank - 1].probability) else 0.0
  }

  function TokenAt(alternatives: seq<Alternative>, rank: int): Bytes {
    if 1 <= rank <= |alternatives| then alternatives[rank - 1].token else ""
  }

  function Forms(alternatives: seq<Alternative>, ranks: seq<int>): seq<Bytes> {
    if ranks == [] then [] else Forms(alternatives, ranks[..|ranks| - 1]) + [TokenAt(alternatives, ranks[|ranks| - 1])]
  }

  /** The largest probability among the ranks, at least zero. */
  function LargestMass(alternatives: seq<Alternative>, ranks: seq<int>): real {
    if ranks == [] then 0.0
    else
      var m, x := LargestMass(alternatives, ranks[..|ranks| - 1]), MassAt(alternatives, ranks[|ranks| - 1]);
      if x > m then x else m
  }

  predicate EntryOk(s: Support, alternatives: seq<Alternative>) {
    && ScoreLetter(s.letter) && IsProbability(s.value) && IsProbability(s.probability)
    && SortedPositive(s.sourceRanks) && s.sourceForms != [] && SortedUniqueStrings(s.sourceForms)
    && (forall k | 0 <= k < |s.sourceRanks| :: RankMatches(s, alternatives, s.sourceRanks[k]))
    && Sort(Forms(alternatives, s.sourceRanks), Self) == s.sourceForms
    && Rational(s.probability) == LargestMass(alternatives, s.sourceRanks)
  }

  predicate LetterBefore(s: Support, t: Support) {
    |s.letter| == |t.letter| == 1 && s.letter[0] < t.letter[0]
  }

  predicate SharesRank(s: Support, t: Support) {
    exists r :: r in s.sourceRanks && r in t.sourceRanks
  }

  /** The first `n` entries are sound, their letters increase, and no rank serves two of them. */
  predicate EntriesOk(support: seq<Support>, alternatives: seq<Alternative>, n: nat)
    requires n <= |support|
  {
    && (forall i | 0 <= i < n :: EntryOk(support[i], alternatives))
    && (forall i, j | 0 <= i < j < n :: LetterBefore(support[i], support[j]))
    && (forall i, j | 0 <= i < j < n :: !SharesRank(support[i], support[j]))
  }

  function Mass(support: seq<Support>): real {
    if support == [] then 0.0
    else Mass(support[..|support| - 1]) + Rational(support[|support| - 1].probability)
  }

  function FirstMoment(support: seq<Support>): real {
    if support == [] then 0.0
    else
      var s := support[|support| - 1];
      FirstMoment(support[..|support| - 1]) + Rational(s.value) * Rational(s.probability)
  }

  function SecondMoment(support: seq<Support>): real {
    if support == [] then 0.0
    else
      var s := support[|support| - 1];
      SecondMoment(support[..|support| - 1]) + Rational(s.value) * Rational(s.value) * Rational(s.probability)
  }

  // ----- acceptance

  predicate HeaderOk(e: Evidence) {
    && e.schemaVersion == SCORE_SCHEMA && e.policyVersion != "" && e.tag != ""
    && (e.extractionMode == "verifier" || e.extractionMode == "judge")
    && e.support.Some? && e.alternatives.Some? && e.degradations.Some? && e.routeLimitations.Some?
    && (e.extracted ==> e.alignmentStatus == "exact")
    && 0 < e.returnedTopK <= e.requestedTopK && |e.alternatives.value| == e.returnedTopK
    && IsProbability(e.visibleMass) && IsProbability(e.validMass) && IsProbability(e.unobservedMass)
    && Rational(e.visibleMass) + Rational(e.unobservedMass) == 1.0
  }

  predicate AlternativesOk(e: Evidence)
    requires e.alternatives.Some?
  {
    var alternatives := e.alternatives.value;
    && (forall i | 0 <= i < |alternatives| :: AlternativeOk(alternatives[i], i))
    && AlternativeMass(alternatives) == Rational(e.visibleMass) && Chosen(alternatives) == 1
  }

  predicate MomentsOk(e: Evidence)
    requires e.support.Some?
  {
    var support := e.support.value;
    MomentsDeclared(e, Mass(support), FirstMoment(support), SecondMoment(support))
  }

  /** Whether the declared mass, mean and variance are those of these sums. */
  predicate MomentsDeclared(e: Evidence, mass: real, first: real, second: real) {
    var valid := Rational(e.validMass);
    && mass == valid && valid != 0.0
    && var expected := first / valid;
       && ParseDecimal(e.expectedScore).Some? && Rational(e.expectedScore) == expected
       && ParseDecimal(e.variance).Some? && Rational(e.variance) == second / valid - expected * expected
  }

  predicate ProvenanceOk(e: Evidence)
    requires e.degradations.Some? && e.routeLimitations.Some?
  {
    && ValidDigest(e.requestFingerprint) && ValidDigest(e.responseEvidenceDigest)
    && (e.capabilityAttestationDigest == "" || ValidDigest(e.capabilityAttestationDigest))
    && e.requestedModel != ""
    && (forall i | 0 <= i < |e.degradations.value| :: Identifier(e.degradations.value[i]))
    && (forall i, j | 0 <= i < j < |e.degradations.value| :: e.degradations.value[i] != e.degradations.value[j])
    && SortedUniqueStrings(e.routeLimitations.value)
  }

  predicate Accepted(e: Evidence) {
    HeaderOk(e) && AlternativesOk(e) && EntriesOk(e.support.value, e.alternatives.value, |e.support.value|) && MomentsOk(e) && ProvenanceOk(e)
  }

  // ----- the validator

  method ValidateSortedUniquePositiveInts(values: seq<int>) returns (ok: bool)
    ensures ok <==> SortedPositive(values)
  {
    if |values| == 0 {
      return false;
    }
    var previous := 0;
    for index := 0 to |values|
      invariant previous == if index == 0 then 0 else values[index - 1]
      invariant forall i | 0 <= i < index :: 0 < values[i] <= previous
      invariant forall i, j | 0 <= i < j < index :: values[i] < values[j]
    {
      if values[index] <= previous {
        assert index > 0 ==> values[index] <= values[index - 1];
        return false;
      }
      previous := values[index];
    }
    ok := true;
  }

  predicate RankFree(s: Support, alternatives: seq<Alternative>, used: set<int>, k: nat)
    requires k < |s.sourceRanks|
  {
    RankMatches(s, alternatives, s.sourceRanks[k]) && s.sourceRanks[k] !in used
  }

  lemma OneMoreRank(alternatives: seq<Alternative>, ranks: seq<int>, index: nat)
    requires index < |ranks|
    ensures Forms(alternatives, ranks[..index + 1]) == Forms(alternatives, ranks[..index]) + [TokenAt(alternatives, ranks[index])]
    ensures var m, x := LargestMass(alternatives, ranks[..index]), MassAt(alternatives, ranks[index]);
            LargestMass(alternatives, ranks[..index + 1]) == if x > m then x else m
    ensures forall r :: r in ranks[..index + 1] <==> r in ranks[..index] || r == ranks[index]
  {
    assert ranks[..index + 1][..index] == ranks[..index];
    assert ranks[..index + 1] == ranks[..index] + [ranks[index]];
  }

  /** The loop over the ranks of one entry; `used` collects the ranks assigned so far. */
  method CheckRanks(s: Support, alternatives: seq<Alternative>, used: set<int>)
    returns (ok: bool, usedAfter: set<int>)
    requires SortedPositive(s.sourceRanks)
    ensures ok <==> (forall k | 0 <= k < |s.sourceRanks| :: RankFree(s, alternatives, used, k))
                    && Sort(Forms(alternatives, s.sourceRanks), Self) == s.sourceForms
                    && Rational(s.probability) == LargestMass(alternatives, s.sourceRanks)
    ensures ok ==> forall r :: r in usedAfter <==> r in used || r in s.sourceRanks
  {
    hide Rational, Sort;
    var expectedForms: seq<Bytes> := [];
    var largest := 0.0;
    usedAfter := used;
    var ranks := s.sourceRanks;
    for index := 0 to |ranks|
      invariant forall k | 0 <= k < index :: RankFree(s, alternatives, used, k)
      invariant forall r :: r in usedAfter <==> r in used || r in ranks[..index]
      invariant expectedForms == Forms(alternatives, ranks[..index])
      invariant largest == LargestMass(alternatives, ranks[..index])
    {
      var rank := ranks[index];
      OneMoreRank(alternatives, ranks, index);
      assert rank !in ranks[..index];
      if rank > |alternatives| || rank in usedAfter {
        assert !RankFree(s, alternatives, used, index);
        return false, used;
      }
      usedAfter := usedAfter + {rank};
      var alternative := alternatives[rank - 1];
      if alternative.letter != s.letter || alternative.value != s.value || alternative.sourceRanks != s.sourceRanks {
        assert !RankFree(s, alternatives, used, index);
        return false, used;
      }
      expectedForms := expectedForms + [alternative.token];
      if Rational(alternative.probability) > largest {
        largest := Rational(alternative.probability);
      }
    }
    assert ranks[..|ranks|] == ranks;
    ok := Sort(expectedForms, Self) == s.sourceForms && Rational(s.probability) == largest;
  }

  lemma OneMoreTerm(support: seq<Support>, n: nat)
    requires n < |support|
    ensures var s := support[n];
            && Mass(support[..n + 1]) == Mass(support[..n]) + Rational(s.probability)
            && FirstMoment(support[..n + 1]) == FirstMoment(support[..n]) + Rational(s.value) * Rational(s.probability)
            && SecondMoment(support[..n + 1]) == SecondMoment(support[..n]) + Rational(s.value) * Rational(s.value) * Rational(s.probability)
  {
    hide Rational;
    assert support[..n + 1][..n] == support[..n];
  }

  lemma OneMoreAlternative(alternatives: seq<Alternative>, n: nat)
    requires n < |alternatives|
    ensures AlternativeMass(alternatives[..n + 1]) == AlternativeMass(alternatives[..n]) + Rational(alternatives[n].probability)
    ensures Chosen(alternatives[..n + 1]) == Chosen(alternatives[..n]) + if alternatives[n].chosen then 1 else 0
  {
    assert alternatives[..n + 1][..n] == alternatives[..n];
  }

  /** One alternative at its place: its numbers, and all or nothing of its provenance. */
  method ValidateAlternative(a: Alternative, index: nat) returns (ok: bool)
    ensures ok <==> AlternativeOk(a, index)
  {
    hide Rational, IsProbability;
    if a.rank != index + 1 || a.token == "" || !IsProbability(a.probability) || ParseDecimal(a.logprob).None? {
      return false;
    }
    if a.letter == "" {
      return a.value == "" && |a.sourceRanks| == 0;
    }
    if !ScoreLetter(a.letter) || a.value == "" {
      return false;
    }
    ok := ValidateSortedUniquePositiveInts(a.sourceRanks);
    ok := ok && IsProbability(a.value);
  }

  /** The loop over the alternatives. */
  method CheckAlternatives(e: Evidence) returns (ok: bool)
    requires HeaderOk(e)
    ensures ok <==> AlternativesOk(e)
  {
    hide Rational, AlternativeOk;
    var alternatives := e.alternatives.value;
    var alternativeMass := 0.0;
    var chosen := 0;
    for index := 0 to |alternatives|
      invariant forall i | 0 <= i < index :: AlternativeOk(alternatives[i], i)
      invariant alternativeMass == AlternativeMass(alternatives[..index])
      invariant chosen == Chosen(alternatives[..index])
    {
      var alternative := alternatives[index];
      OneMoreAlternative(alternatives, index);
      var sound := ValidateAlternative(alternative, index);
      if !sound {
        return false;
      }
      alternativeMass := alternativeMass + Rational(alternative.probability);
      if alternative.chosen {
        chosen := chosen + 1;
      }
    }
    assert alternatives[..|alternatives|] == alternatives;
    ok := alternativeMass == Rational(e.visibleMass) && chosen == 1;
  }

  /** What the loop over the support remembers after `n` entries. */
  ghost predicate Remembered(support: seq<Support>, n: nat, last: Bytes, seen: set<Bytes>, used: set<int>)
    requires n <= |support|
  {
    && last == (if n == 0 then "" else support[n - 1].letter)
    && (forall letter :: letter in seen <==> exists i | 0 <= i < n :: support[i].letter == letter)
    && (forall r :: r in used <==> exists i | 0 <= i < n :: r in support[i].sourceRanks)
  }

  predicate EntryNext(s: Support, alternatives: seq<Alternative>, last: Bytes, seen: set<Bytes>, used: set<int>) {
    && EntryOk(s, alternatives) && LessEq(last, s.letter) && s.letter !in seen
    && forall k | 0 <= k < |s.sourceRanks| :: s.sourceRanks[k] !in used
  }

  lemma LetterOrder(s: Support, t: Support)
    requires ScoreLetter(s.letter) && ScoreLetter(t.letter)
    ensures LetterBefore(s, t) <==> LessEq(s.letter, t.letter) && s.letter != t.letter
  {
    assert s.letter[1..] == "";
  }

  lemma NextLetter(support: seq<Support>, n: nat, last: Bytes, seen: set<Bytes>, used: set<int>)
    requires n < |support| && Remembered(support, n, last, seen, used)
    requires forall i | 0 <= i <= n :: ScoreLetter(support[i].letter)
    requires forall i, j | 0 <= i < j < n :: LetterBefore(support[i], support[j])
    ensures LessEq(last, support[n].letter) && support[n].letter !in seen <==>
            forall i | 0 <= i < n :: LetterBefore(support[i], support[n])
  {
    if n > 0 {
      LetterOrder(support[n - 1], support[n]);
      assert forall i | 0 <= i < n - 1 :: LetterBefore(support[i], support[n - 1]);
    }
  }

  lemma NextRanks(support: seq<Support>, n: nat, last: Bytes, seen: set<Bytes>, used: set<int>)
    requires n < |support| && Remembered(support, n, last, seen, used)
    ensures (forall k | 0 <= k < |support[n].sourceRanks| :: support[n].sourceRanks[k] !in used) <==>
            forall i | 0 <= i < n :: !SharesRank(support[i], support[n])
  {
    var s := support[n];
    if forall k | 0 <= k < |s.sourceRanks| :: s.sourceRanks[k] !in used {
      forall i | 0 <= i < n ensures !SharesRank(support[i], s) {
        assert forall r | r in s.sourceRanks :: r !in used;
      }
    }
    forall k | 0 <= k < |s.sourceRanks| && s.sourceRanks[k] in used
      ensures exists i | 0 <= i < n :: SharesRank(support[i], s)
    {
      var r := s.sourceRanks[k];
      assert r in used;
      var i :| 0 <= i < n && r in support[i].sourceRanks;
      assert SharesRank(support[i], s);
    }
  }

  lemma EntriesStep(support: seq<Support>, alternatives: seq<Alternative>, n: nat)
    requires n < |support|
    ensures EntriesOk(support, alternatives, n + 1) <==>
            EntriesOk(support, alternatives, n) && EntryOk(support[n], alternatives)
            && (forall i | 0 <= i < n :: LetterBefore(support[i], support[n]))
            && (forall i | 0 <= i < n :: !SharesRank(support[i], support[n]))
  {
    hide EntryOk, LetterBefore, SharesRank;
  }

  lemma OneMoreEntry(support: seq<Support>, alternatives: seq<Alternative>, n: nat,
                     last: Bytes, seen: set<Bytes>, used: set<int>)
    requires n < |support| && EntriesOk(support, alternatives, n) && Remembered(support, n, last, seen, used)
    ensures EntryNext(support[n], alternatives, last, seen, used) <==> EntriesOk(support, alternatives, n + 1)
  {
    EntriesStep(support, alternatives, n);
    NextRanks(support, n, last, seen, used);
    if EntryOk(support[n], alternatives) {
      LettersOfEntries(support, alternatives, n);
      NextLetter(support, n, last, seen, used);
    }
    hide EntryOk, Remembered, LetterBefore, SharesRank, EntriesOk;
  }

  lemma LettersOfEntries(support: seq<Support>, alternatives: seq<Alternative>, n: nat)
    requires n < |support| && EntriesOk(support, alternatives, n) && EntryOk(support[n], alternatives)
    ensures forall i | 0 <= i <= n :: ScoreLetter(support[i].letter)
    ensures forall i, j | 0 <= i < j < n :: LetterBefore(support[i], support[j])
  {
    hide Rational, Sort;
    forall i | 0 <= i <= n ensures ScoreLetter(support[i].letter) {
      assert EntryOk(support[i], alternatives);
    }
  }

  lemma MoreRemembered(support: seq<Support>, n: nat, last: Bytes, seen: set<Bytes>, used: set<int>, after: set<int>)
    requires n < |support| && Remembered(support, n, last, seen, used)
    requires forall r :: r in after <==> r in used || r in support[n].sourceRanks
    ensures Remembered(support, n + 1, support[n].letter, seen + {support[n].letter}, after)
  {
  }

  /** The loop over the support: entries checked one by one while masses and moments add up. */
  method CheckSupport(e: Evidence) returns (ok: bool)
    requires HeaderOk(e)
    ensures ok <==> EntriesOk(e.support.value, e.alternatives.value, |e.support.value|) && MomentsOk(e)
  {
    var support := e.support.value;
    var entriesOk, mass, first, second := SumSupport(support, e.alternatives.value);
    hide EntriesOk, MomentsDeclared;
    var declared := ValidateMoments(e, mass, first, second);
    ok := entriesOk && declared;
  }

  /** The declared numbers against the sums; there must be some mass to divide by. */
  method ValidateMoments(e: Evidence, mass: real, first: real, second: real) returns (ok: bool)
    ensures ok <==> MomentsDeclared(e, mass, first, second)
  {
    hide Rational, ParseDecimal;
    var valid := Rational(e.validMass);
    if mass != valid || valid == 0.0 {
      return false;
    }
    var expected := first / valid;
    var variance := second / valid - expected * expected;
    if ParseDecimal(e.expectedScore).None? || Rational(e.expectedScore) != expected {
      return false;
    }
    if ParseDecimal(e.variance).None? || Rational(e.variance) != variance {
      return false;
    }
    ok := true;
  }

  method SumSupport(support: seq<Support>, alternatives: seq<Alternative>)
    returns (ok: bool, supportMass: real, expectedNumerator: real, secondMoment: real)
    ensures ok <==> EntriesOk(support, alternatives, |support|)
    ensures ok ==> supportMass == Mass(support) && expectedNumerator == FirstMoment(support) && secondMoment == SecondMoment(support)
  {
    hide EntryOk, EntryNext, Rational, Sort, Remembered;
    supportMass, expectedNumerator, secondMoment := 0.0, 0.0, 0.0;
    var seenLetters: set<Bytes> := {};
    var usedRanks: set<int> := {};
    var lastLetter := "";
    assert Remembered(support, 0, lastLetter, seenLetters, usedRanks) by { NothingRemembered(support); }
    for index := 0 to |support|
      invariant EntriesOk(support, alternatives, index)
      invariant Remembered(support, index, lastLetter, seenLetters, usedRanks)
      invariant supportMass == Mass(support[..index])
      invariant expectedNumerator == FirstMoment(support[..index])
      invariant secondMoment == SecondMoment(support[..index])
    {
      var s := support[index];
      var next, after := CheckEntry(s, alternatives, lastLetter, seenLetters, usedRanks);
      OneMoreEntry(support, alternatives, index, lastLetter, seenLetters, usedRanks);
      if !next {
        assert !EntriesOk(support, alternatives, |support|);
        return false, supportMass, expectedNumerator, secondMoment;
      }
      MoreRemembered(support, index, lastLetter, seenLetters, usedRanks, after);
      seenLetters, lastLetter, usedRanks := seenLetters + {s.letter}, s.letter, after;
      OneMoreTerm(support, index);
      supportMass := supportMass + Rational(s.probability);
      expectedNumerator := expectedNumerator + Rational(s.value) * Rational(s.probability);
      secondMoment := secondMoment + Rational(s.value) * Rational(s.value) * Rational(s.probability);
    }
    assert support[..|support|] == support;
    ok := true;
  }

  lemma NothingRemembered(support: seq<Support>)
    ensures Remembered(support, 0, "", {}, {})
  {
  }

  /** One entry, with what the loop remembers of those before it. */
  method CheckEntry(s: Support, alternatives: seq<Alternative>, lastLetter: Bytes, seenLetters: set<Bytes>, used: set<int>)
    returns (ok: bool, usedAfter: set<int>)
    ensures ok <==> EntryNext(s, alternatives, lastLetter, seenLetters, used)
    ensures ok ==> forall r :: r in usedAfter <==> r in used || r in s.sourceRanks
  {
    hide Rational, Sort;
    usedAfter := used;
    if !ScoreLetter(s.letter) || !LessEq(lastLetter, s.letter) || s.letter in seenLetters {
      return false, used;
    }
    if !IsProbability(s.value) || !IsProbability(s.probability) {
      return false, used;
    }
    var ranksOk := ValidateSortedUniquePositiveInts(s.sourceRanks);
    var formsOk := ValidateSortedUniqueStrings(s.sourceForms);
    if !ranksOk || s.sourceForms == [] || !formsOk {
      return false, used;
    }
    ok, usedAfter := CheckRanks(s, alternatives, used);
    assert (forall k | 0 <= k < |s.sourceRanks| :: RankFree(s, alternatives, used, k)) <==>
           (forall k | 0 <= k < |s.sourceRanks| :: RankMatches(s, alternatives, s.sourceRanks[k])) &&
           (forall k | 0 <= k < |s.sourceRanks| :: s.sourceRanks[k] !in used) by {
      if forall k | 0 <= k < |s.sourceRanks| :: RankFree(s, alternatives, used, k) {
        forall k | 0 <= k < |s.sourceRanks|
          ensures RankMatches(s, alternatives, s.sourceRanks[k]) && s.sourceRanks[k] !in used
        {
          assert RankFree(s, alternatives, used, k);
        }
      }
    }
  }

  /** Everything before the lists: names, alignment, the counts and the three masses. */
  method ValidateHeader(e: Evidence) returns (ok: bool)
    ensures ok <==> HeaderOk(e)
  {
    hide Rational, IsProbability;
    if e.schemaVersion != SCORE_SCHEMA || e.policyVersion == "" || e.tag == "" {
      return false;
    }
    if e.extractionMode != "verifier" && e.extractionMode != "judge" {
      return false;
    }
    if e.support.None? || e.alternatives.None? || e.degradations.None? || e.routeLimitations.None? {
      return false;
    }
    if e.extracted && e.alignmentStatus != "exact" {
      return false;
    }
    if e.requestedTopK <= 0 || e.returnedTopK <= 0 || e.returnedTopK > e.requestedTopK || |e.alternatives.value| != e.returnedTopK {
      return false;
    }
    if !IsProbability(e.visibleMass) || !IsProbability(e.validMass) || !IsProbability(e.unobservedMass) {
      return false;
    }
    ok := Rational(e.visibleMass) + Rational(e.unobservedMass) == 1.0;
  }

  /** The digests, the model, the degradation codes without repetition, and the limitations of the route. */
  method ValidateProvenance(e: Evidence) returns (ok: bool)
    requires e.degradations.Some? && e.routeLimitations.Some?
    ensures ok <==> ProvenanceOk(e)
  {
    hide ValidDigest, Identifier, SortedUniqueStrings;
    if !ValidDigest(e.requestFingerprint) || !ValidDigest(e.responseEvidenceDigest) {
      return false;
    }
    if e.capabilityAttestationDigest != "" && !ValidDigest(e.capabilityAttestationDigest) {
      return false;
    }
    if e.requestedModel == "" {
      return false;
    }
    var codes := e.degradations.value;
    var seen: set<Bytes> := {};
    for index := 0 to |codes|
      invariant forall i | 0 <= i < index :: Identifier(codes[i])
      invariant forall i, j | 0 <= i < j < index :: codes[i] != codes[j]
      invariant forall c :: c in seen <==> exists i | 0 <= i < index :: codes[i] == c
    {
      if !Identifier(codes[index]) || codes[index] in seen {
        return false;
      }
      seen := seen + {codes[index]};
    }
    ok := ValidateSortedUniqueStrings(e.routeLimitations.value);
  }

  method ValidateScoreEvidence(e: Evidence) returns (ok: bool)
    ensures ok <==> Accepted(e)
  {
    hide AlternativesOk, EntriesOk, MomentsOk, ProvenanceOk;
    var headerOk := ValidateHeader(e);
    if !headerOk {
      return false;
    }
    var alternativesOk := CheckAlternatives(e);
    if !alternativesOk {
      return false;
    }
    var supportOk := CheckSupport(e);
    if !supportOk {
      return false;
    }
    ok := ValidateProvenance(e);
  }
}
