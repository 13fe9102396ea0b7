/**
 The capability matrix: for each claim level how its case results came out, and the reasons of those
 that did not pass. It conserves the results and does not depend on their order.
 */
module CapabilityMatrix {
  import opened Basics
  import opened Ordering
  import opened ProtocolModel

  datatype CapabilityStatus = CapabilityStatus(
    level: Level, passed: nat, failed: nat, skipped: nat, unsupported: nat, notRun: nat, reasons: seq<Bytes>)

  const LEVELS: seq<Level> := [Syntax, DeterministicReplay, LiveScoreEvidence, EmpiricalReliability, IndependentReproduction]

  const NO_CASE: Bytes := "no normative case was run for this claim level"

  function Text(r: CaseResult): Bytes {
    r.caseID + ": " + r.reason
  }

  /** What results are selected by. */
  datatype Filter = AtLevel(level: Level) | AmongLevels(n: nat) | WithOutcome(outcome: Outcome) | KnownOutcome
                  | Explained | WithText(text: Bytes)

  predicate Holds(f: Filter, r: CaseResult) {
    match f
    case AtLevel(level) => r.level == level
    case AmongLevels(n) => exists i | 0 <= i < |LEVELS| :: i < n && LEVELS[i] == r.level
    case WithOutcome(outcome) => r.outcome == outcome
    case KnownOutcome => !r.outcome.OtherOutcome?
    case Explained => r.outcome != Passed && r.reason != ""
    case WithText(text) => Text(r) == text
  }

  /** The results a filter holds of, in order. */
  function Select(s: seq<CaseResult>, f: Filter): (r: seq<CaseResult>)
    ensures |r| <= |s|
  {
    if s == [] then []
    else Select(s[..|s| - 1], f) + if Holds(f, s[|s| - 1]) then [s[|s| - 1]] else []
  }

  function Texts(s: seq<CaseResult>): seq<Bytes> {
    if s == [] then [] else Texts(s[..|s| - 1]) + [Text(s[|s| - 1])]
  }

  /** The counts and reasons of the results of one level, reasons in the order of the results. */
  function Tally(level: Level, mine: seq<CaseResult>): CapabilityStatus {
    CapabilityStatus(
      level, |Select(mine, WithOutcome(Passed))|, |Select(mine, WithOutcome(Failed))|, |Select(mine, WithOutcome(Skipped))|,
      |Select(mine, WithOutcome(Unsupported))|, |Select(mine, WithOutcome(NotRun))|, Texts(Select(mine, Explained)))
  }

  /** The status of a level: its tally with sorted reasons; a level without results counts as one not run. */
  function StatusOf(level: Level, results: seq<CaseResult>): CapabilityStatus {
    var mine := Select(results, AtLevel(level));
    var tally := Tally(level, mine);
    if mine == [] then tally.(notRun := 1, reasons := [NO_CASE])
    else tally.(reasons := Sort(tally.reasons, Self))
  }

  function MatrixOf(results: seq<CaseResult>): seq<CapabilityStatus> {
    seq(|LEVELS|, i requires 0 <= i < |LEVELS| => StatusOf(LEVELS[i], results))
  }

  // ----- building it

  lemma SelectOneMore(s: seq<CaseResult>, n: nat, f: Filter)
    requires n < |s|
    ensures Select(s[..n + 1], f) == Select(s[..n], f) + if Holds(f, s[n]) then [s[n]] else []
  {
    assert s[..n + 1][..n] == s[..n];
  }

  lemma TextsOneMore(s: seq<CaseResult>, r: CaseResult)
    ensures Texts(s + [r]) == Texts(s) + [Text(r)]
  {
    assert (s + [r])[..|s|] == s;
  }

  /** A tally with one more result. */
  function Added(status: CapabilityStatus, r: CaseResult): CapabilityStatus {
    status.(passed := status.passed + if r.outcome == Passed then 1 else 0,
            failed := status.failed + if r.outcome == Failed then 1 else 0,
            skipped := status.skipped + if r.outcome == Skipped then 1 else 0,
            unsupported := status.unsupported + if r.outcome == Unsupported then 1 else 0,
            notRun := status.notRun + if r.outcome == NotRun then 1 else 0,
            reasons := status.reasons + if Holds(Explained, r) then [Text(r)] else [])
  }

  lemma TallyOneMore(level: Level, mine: seq<CaseResult>, i: nat)
    requires i < |mine|
    ensures Tally(level, mine[..i + 1]) == Added(Tally(level, mine[..i]), mine[i])
  {
    hide Select, Texts;
    SelectOneMore(mine, i, WithOutcome(Passed));
    SelectOneMore(mine, i, WithOutcome(Failed));
    SelectOneMore(mine, i, WithOutcome(Skipped));
    SelectOneMore(mine, i, WithOutcome(Unsupported));
    SelectOneMore(mine, i, WithOutcome(NotRun));
    SelectOneMore(mine, i, Explained);
    TextsOneMore(Select(mine[..i], Explained), mine[i]);
    assert Select(mine[..i], Explained) + [] == Select(mine[..i], Explained);
    assert Texts(Select(mine[..i], Explained)) + [] == Texts(Select(mine[..i], Explained));
  }

  lemma TextIs(r: CaseResult)
    ensures Text(r) == r.caseID + ": " + r.reason
  {
  }

  /** The counters and reasons of one level, one result after another. */
  method CountLevel(level: Level, mine: seq<CaseResult>) returns (status: CapabilityStatus)
    ensures status == Tally(level, mine)
  {
    hide Tally, Select, Texts, Text;
    status := CapabilityStatus(level, 0, 0, 0, 0, 0, []);
    NothingTallied(level);
    assert mine[..0] == [];
    for i := 0 to |mine|
      invariant status == Tally(level, mine[..i])
    {
      var result := mine[i];
      TextIs(result);
      TallyOneMore(level, mine, i);
      match result.outcome {
        case Passed => status := status.(passed := status.passed + 1);
        case Failed => status := status.(failed := status.failed + 1);
        case Skipped => status := status.(skipped := status.skipped + 1);
        case Unsupported => status := status.(unsupported := status.unsupported + 1);
        case NotRun => status := status.(notRun := status.notRun + 1);
        case OtherOutcome(_) =>
      }
      if result.outcome != Passed && result.reason != "" {
        status := status.(reasons := status.reasons + [result.caseID + ": " + result.reason]);
      } else {
        assert status.reasons + [] == status.reasons;
      }
    }
    assert mine[..|mine|] == mine;
  }

  /** The results by level, in order; a level without results has no entry. */
  method GroupByLevel(results: seq<CaseResult>) returns (byLevel: map<Level, seq<CaseResult>>)
    ensures forall level :: (if level in byLevel then byLevel[level] else []) == Select(results, AtLevel(level))
  {
    byLevel := map[];
    for i := 0 to |results|
      invariant forall level :: (if level in byLevel then byLevel[level] else []) == Select(results[..i], AtLevel(level))
    {
      var r := results[i];
      var before := if r.level in byLevel then byLevel[r.level] else [];
      forall level ensures Select(results[..i + 1], AtLevel(level)) == Select(results[..i], AtLevel(level)) + if r.level == level then [r] else [] {
        SelectOneMore(results, i, AtLevel(level));
      }
      hide Select;
      byLevel := byLevel[r.level := before + [r]];
    }
    assert results[..|results|] == results;
  }

  lemma NothingTallied(level: Level)
    ensures Tally(level, []) == CapabilityStatus(level, 0, 0, 0, 0, 0, []) && Sort([NO_CASE], Self) == [NO_CASE]
  {
    assert [NO_CASE][1..] == [];
  }

  method BuildCapabilityMatrix(results: seq<CaseResult>) returns (statuses: seq<CapabilityStatus>)
    ensures statuses == MatrixOf(results)
  {
    hide Sort, Select, Tally;
    var byLevel := GroupByLevel(results);
    statuses := [];
    for i := 0 to |LEVELS|
      invariant |statuses| == i && forall k | 0 <= k < i :: statuses[k] == StatusOf(LEVELS[k], results)
    {
      var level := LEVELS[i];
      var mine := if level in byLevel then byLevel[level] else [];
      var status := CountLevel(level, mine);
      if |mine| == 0 {
        NothingTallied(level);
        assert mine == [] && status.reasons + [NO_CASE] == [NO_CASE];
        status := status.(notRun := 1, reasons := status.reasons + [NO_CASE]);
      }
      status := status.(reasons := Sort(status.reasons, Self));
      assert mine == Select(results, AtLevel(level));
      assert status == StatusOf(level, results);
      statuses := statuses + [status];
    }
  }

  /** Part of the validation of a run: its matrix is the one of its results. */
  method MatrixIsConsistent(matrix: seq<CapabilityStatus>, results: seq<CaseResult>) returns (ok: bool)
    ensures ok <==> matrix == MatrixOf(results)
  {
    var expected := BuildCapabilityMatrix(results);
    ok := matrix == expected;
  }

  // ----- conservation

  function Counted(s: CapabilityStatus): nat {
    s.passed + s.failed + s.skipped + s.unsupported + s.notRun
  }

  lemma {:induction false} OutcomesPartition(mine: seq<CaseResult>)
    ensures |Select(mine, WithOutcome(Passed))| + |Select(mine, WithOutcome(Failed))| + |Select(mine, WithOutcome(Skipped))|
            + |Select(mine, WithOutcome(Unsupported))| + |Select(mine, WithOutcome(NotRun))| == |Select(mine, KnownOutcome)|
  {
    if mine != [] {
      OutcomesPartition(mine[..|mine| - 1]);
    }
  }

  lemma {:induction false} SelectsAll(s: seq<CaseResult>, f: Filter)
    ensures |Select(s, f)| == |s| <==> forall i | 0 <= i < |s| :: Holds(f, s[i])
  {
    hide Holds;
    if s != [] {
      var n := |s| - 1;
      SelectsAll(s[..n], f);
      assert forall i | 0 <= i < n :: s[..n][i] == s[i];
    }
  }

  /** What is selected was there, and holds. */
  lemma {:induction false} Selected(s: seq<CaseResult>, f: Filter, x: CaseResult)
    ensures x in Select(s, f) <==> x in s && Holds(f, x)
  {
    hide Holds;
    if s != [] {
      Selected(s[..|s| - 1], f, x);
      assert s == s[..|s| - 1] + [s[|s| - 1]];
    }
  }

  /**
   The counters of a level add up to its results, or to one when it has none; a result of unknown
   outcome is the only thing that can be missing.
   */
  lemma {:induction false} LevelIsConserved(level: Level, results: seq<CaseResult>)
    ensures var mine := Select(results, AtLevel(level));
            if mine == [] then Counted(StatusOf(level, results)) == 1 == StatusOf(level, results).notRun
            else
              && Counted(StatusOf(level, results)) == |Select(mine, KnownOutcome)| <= |mine|
              && (Counted(StatusOf(level, results)) == |mine| <==> forall i | 0 <= i < |mine| :: Holds(KnownOutcome, mine[i]))
  {
    var mine := Select(results, AtLevel(level));
    OutcomesPartition(mine);
    SelectsAll(mine, KnownOutcome);
    if mine == [] {
      assert Select(mine, WithOutcome(Passed)) == [];
    }
    hide Sort, Select, Holds, Texts;
  }

  function Total(statuses: seq<CapabilityStatus>): nat {
    if statuses == [] then 0 else Total(statuses[..|statuses| - 1]) + Counted(statuses[|statuses| - 1])
  }

  /** Levels among the first `n` without a result. */
  function Empty(results: seq<CaseResult>, n: nat): nat
    requires n <= |LEVELS|
  {
    if n == 0 then 0 else Empty(results, n - 1) + if Select(results, AtLevel(LEVELS[n - 1])) == [] then 1 else 0
  }

  lemma OneMoreLevel(n: nat, r: CaseResult)
    requires n < |LEVELS|
    ensures Holds(AmongLevels(n + 1), r) <==> Holds(AmongLevels(n), r) || Holds(AtLevel(LEVELS[n]), r)
    ensures !(Holds(AmongLevels(n), r) && Holds(AtLevel(LEVELS[n]), r))
  {
    assert forall i, j | 0 <= i < j < |LEVELS| :: LEVELS[i] != LEVELS[j];
    hide LEVELS;
  }

  lemma {:induction false} AmongOneMore(results: seq<CaseResult>, n: nat)
    requires n < |LEVELS|
    ensures |Select(results, AmongLevels(n + 1))| == |Select(results, AmongLevels(n))| + |Select(results, AtLevel(LEVELS[n]))|
  {
    hide Holds, LEVELS;
    if results != [] {
      AmongOneMore(results[..|results| - 1], n);
      OneMoreLevel(n, results[|results| - 1]);
    }
  }

  predicate AllKnown(results: seq<CaseResult>) {
    forall i | 0 <= i < |results| :: Holds(KnownOutcome, results[i])
  }

  lemma {:induction false} LevelIsCounted(level: Level, results: seq<CaseResult>)
    requires AllKnown(results)
    ensures var mine := Select(results, AtLevel(level));
            Counted(StatusOf(level, results)) == if mine == [] then 1 else |mine|
  {
    LevelIsConserved(level, results);
    hide StatusOf, Holds, Select;
    var mine := Select(results, AtLevel(level));
    forall i | 0 <= i < |mine| ensures Holds(KnownOutcome, mine[i]) {
      Selected(results, AtLevel(level), mine[i]);
    }
  }

  /**
   When every result has a known outcome, the counters of the first levels together are the results
   of those levels plus one for each empty one.
   */
  lemma {:induction false} TotalIsConserved(results: seq<CaseResult>, n: nat)
    requires n <= |LEVELS| && AllKnown(results)
    ensures Total(MatrixOf(results)[..n]) == |Select(results, AmongLevels(n))| + Empty(results, n)
  {
    if n == 0 {
      NoneAmongNone(results);
    } else {
      TotalIsConserved(results, n - 1);
      AmongOneMore(results, n - 1);
      LevelIsCounted(LEVELS[n - 1], results);
      hide StatusOf, AllKnown, Holds, Select, LEVELS;
      var matrix := MatrixOf(results);
      assert matrix[..n][..n - 1] == matrix[..n - 1] && matrix[..n][n - 1] == matrix[n - 1];
    }
  }

  lemma {:induction false} NoneAmongNone(s: seq<CaseResult>)
    ensures Select(s, AmongLevels(0)) == []
  {
    if s != [] {
      NoneAmongNone(s[..|s| - 1]);
    }
  }

  lemma AmongAll(r: CaseResult)
    ensures Holds(AmongLevels(|LEVELS|), r) <==> !r.level.OtherLevel?
  {
    assert LEVELS[0] == Syntax && LEVELS[1] == DeterministicReplay && LEVELS[2] == LiveScoreEvidence;
    assert LEVELS[3] == EmpiricalReliability && LEVELS[4] == IndependentReproduction;
  }

  /** With known levels and outcomes the matrix counts every result once, and every empty level once. */
  lemma {:induction false} MatrixConservesResults(results: seq<CaseResult>)
    requires AllKnown(results) && forall i | 0 <= i < |results| :: !results[i].level.OtherLevel?
    ensures Total(MatrixOf(results)) == |results| + Empty(results, |LEVELS|)
  {
    TotalIsConserved(results, |LEVELS|);
    assert MatrixOf(results)[..|LEVELS|] == MatrixOf(results);
    hide MatrixOf, Select, Empty;
    SelectsAll(results, AmongLevels(|LEVELS|));
    forall i | 0 <= i < |results| ensures Holds(AmongLevels(|LEVELS|), results[i]) {
      AmongAll(results[i]);
    }
  }

  // ----- order

  lemma {:induction false} SelectCounts(s: seq<CaseResult>, f: Filter, x: CaseResult)
    ensures multiset(Select(s, f))[x] == if Holds(f, x) then multiset(s)[x] else 0
  {
    hide Holds;
    if s != [] {
      SelectCounts(s[..|s| - 1], f, x);
      assert s == s[..|s| - 1] + [s[|s| - 1]];
    }
  }

  lemma {:induction false} SelectIgnoresOrder(a: seq<CaseResult>, b: seq<CaseResult>, f: Filter)
    requires multiset(a) == multiset(b)
    ensures multiset(Select(a, f)) == multiset(Select(b, f)) && |Select(a, f)| == |Select(b, f)|
  {
    hide Holds, Select;
    forall x ensures multiset(Select(a, f))[x] == multiset(Select(b, f))[x] {
      SelectCounts(a, f, x);
      SelectCounts(b, f, x);
    }
    assert multiset(Select(a, f)) == multiset(Select(b, f));
    assert |Select(a, f)| == |multiset(Select(a, f))| && |Select(b, f)| == |multiset(Select(b, f))|;
  }

  /** A text comes up as often as there are results that have it. */
  lemma {:induction false} TextsCount(s: seq<CaseResult>, text: Bytes)
    ensures multiset(Texts(s))[text] == |Select(s, WithText(text))|
  {
    hide Text;
    if s != [] {
      TextsCount(s[..|s| - 1], text);
    }
  }

  lemma {:induction false} TextsIgnoreOrder(a: seq<CaseResult>, b: seq<CaseResult>)
    requires multiset(a) == multiset(b)
    ensures multiset(Texts(a)) == multiset(Texts(b))
  {
    hide Select, Texts;
    forall text ensures multiset(Texts(a))[text] == multiset(Texts(b))[text] {
      TextsCount(a, text);
      TextsCount(b, text);
      SelectIgnoresOrder(a, b, WithText(text));
    }
  }

  lemma {:induction false} StatusIgnoresOrder(level: Level, a: seq<CaseResult>, b: seq<CaseResult>)
    requires multiset(a) == multiset(b)
    ensures StatusOf(level, a) == StatusOf(level, b)
  {
    hide Sort, Select, Texts;
    SelectIgnoresOrder(a, b, AtLevel(level));
    var mine, yours := Select(a, AtLevel(level)), Select(b, AtLevel(level));
    SelectIgnoresOrder(mine, yours, WithOutcome(Passed));
    SelectIgnoresOrder(mine, yours, WithOutcome(Failed));
    SelectIgnoresOrder(mine, yours, WithOutcome(Skipped));
    SelectIgnoresOrder(mine, yours, WithOutcome(Unsupported));
    SelectIgnoresOrder(mine, yours, WithOutcome(NotRun));
    SelectIgnoresOrder(mine, yours, Explained);
    TextsIgnoreOrder(Select(mine, Explained), Select(yours, Explained));
    SortIgnoresOrder(Texts(Select(mine, Explained)), Texts(Select(yours, Explained)), Self);
  }

  /** The matrix is the same for every permutation of the results. */
  lemma {:induction false} MatrixIgnoresOrder(a: seq<CaseResult>, b: seq<CaseResult>)
    requires multiset(a) == multiset(b)
    ensures MatrixOf(a) == MatrixOf(b)
  {
    hide StatusOf;
    forall i | 0 <= i < |LEVELS| ensures StatusOf(LEVELS[i], a) == StatusOf(LEVELS[i], b) {
      StatusIgnoresOrder(LEVELS[i], a, b);
    }
  }
}
