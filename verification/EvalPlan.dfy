/**
 The evaluation planner: best, expected and worst estimates of calls, input tokens and duration,
 summed over the tasks. The quotients and scalings the program rounds up in floating point are exact
 here.
 */
module EvalPlan {
  import opened Basics
  import opened TournamentWaves

  datatype Selection = Pairwise | Absolute | JointAbsolute

  datatype Bias = Single | Both | Adaptive

  datatype Config = Config(
    selection: Selection, singleElim: bool, bundle: bool, defaultReps: int, maxPairCalls: int, maxWorkers: int,
    timeoutSec: int, legacyEscalation: bool, escalationRate: real)

  /** One task: its trajectories and the token counts of the prompts built from them. */
  datatype Task = Task(trajectories: nat, pairTokens: (nat, nat) -> nat, singleTokens: nat -> nat, jointTokens: nat)

  datatype Estimate = Estimate(best: int, expected: int, worst: int)

  datatype Totals = Totals(pairMatches: int, candidateScores: int, calls: Estimate, input: Estimate, waves: Estimate)

  /** How often each pair is asked about: provider calls for one order, and the orders. */
  datatype Orders = Orders(perOrder: int, base: int, most: int, expected: real)

  // ----- small arithmetic

  function Ceil(x: real): (n: int)
    ensures (n - 1) as real < x <= n as real
  {
    -((-x).Floor)
  }

  lemma CeilBetween(x: real, low: int, high: int)
    requires low as real <= x <= high as real
    ensures low <= Ceil(x) <= high
  {
  }

  function Sum(values: seq<nat>): nat {
    if values == [] then 0 else values[0] + Sum(values[1..])
  }

  method SumInts(values: seq<nat>) returns (total: nat)
    ensures total == Sum(values)
  {
    total := 0;
    for index := 0 to |values|
      invariant total + Sum(values[index..]) == Sum(values)
    {
      total := total + values[index];
      assert values[index..][1..] == values[index + 1..];
    }
  }

  predicate IsLeast(m: nat, values: seq<nat>) {
    m in values && forall i | 0 <= i < |values| :: m <= values[i]
  }

  predicate IsGreatest(m: nat, values: seq<nat>) {
    m in values && forall i | 0 <= i < |values| :: values[i] <= m
  }

  function Least(values: seq<nat>): (m: nat)
    requires values != []
    ensures IsLeast(m, values)
  {
    if |values| == 1 then values[0]
    else
      var m, x := Least(values[..|values| - 1]), values[|values| - 1];
      if x < m then x else m
  }

  function Greatest(values: seq<nat>): (m: nat)
    requires values != []
    ensures IsGreatest(m, values)
  {
    if |values| == 1 then values[0]
    else
      var m, x := Greatest(values[..|values| - 1]), values[|values| - 1];
      if x > m then x else m
  }

  method MinMaxInts(values: seq<nat>) returns (minimum: nat, maximum: nat)
    requires values != []
    ensures IsLeast(minimum, values) && IsGreatest(maximum, values)
  {
    minimum, maximum := values[0], values[0];
    for index := 1 to |values|
      invariant minimum in values && forall i | 0 <= i < index :: minimum <= values[i]
      invariant maximum in values && forall i | 0 <= i < index :: values[i] <= maximum
    {
      if values[index] < minimum {
        minimum := values[index];
      }
      if values[index] > maximum {
        maximum := values[index];
      }
    }
  }

  lemma {:induction false} SumBetween(values: seq<nat>, low: nat, high: nat)
    requires forall i | 0 <= i < |values| :: low <= values[i] <= high
    ensures low * |values| <= Sum(values) <= high * |values|
  {
    if values != [] {
      SumBetween(values[1..], low, high);
      assert low * |values| == low + low * |values[1..]|;
      assert high * |values| == high + high * |values[1..]|;
    }
  }

  // ----- the pairs

  /** The pairs (i, j), (i, j + 1), ... */
  function Row(i: nat, j: nat, n: nat): seq<(nat, nat)>
    decreases n - j
  {
    if j >= n then [] else [(i, j)] + Row(i, j + 1, n)
  }

  function PairsFrom(i: nat, n: nat): seq<(nat, nat)>
    decreases n - i
  {
    if i >= n then [] else Row(i, i + 1, n) + PairsFrom(i + 1, n)
  }

  function Tokens(t: Task, pairs: seq<(nat, nat)>): (r: seq<nat>)
    ensures |r| == |pairs|
  {
    seq<nat>(|pairs|, k requires 0 <= k < |pairs| => t.pairTokens(pairs[k].0, pairs[k].1))
  }

  /** Input tokens of every pair of trajectories. */
  function PairInputs(t: Task): seq<nat> {
    Tokens(t, PairsFrom(0, t.trajectories))
  }

  lemma {:induction false} RowIs(i: nat, j: nat, n: nat)
    ensures |Row(i, j, n)| == if j >= n then 0 else n - j
    ensures forall p :: p in Row(i, j, n) <==> p.0 == i && j <= p.1 < n
    decreases n - j
  {
    if j < n {
      RowIs(i, j + 1, n);
    }
  }

  /** There are n * (n - 1) / 2 pairs. */
  lemma {:induction false} PairsAreCounted(i: nat, n: nat)
    requires i <= n
    ensures 2 * |PairsFrom(i, n)| == (n - i) * (n - i - 1)
    decreases n - i
  {
    hide Row;
    if i < n {
      RowIs(i, i + 1, n);
      PairsAreCounted(i + 1, n);
      OneMoreRow(n - i - 1);
    }
  }

  lemma OneMoreRow(m: int)
    ensures (m + 1) * m == 2 * m + m * (m - 1)
  {
  }

  /** Every pair is there, and nothing else. */
  lemma {:induction false} PairsAreAll(i: nat, n: nat, p: (nat, nat))
    requires i <= n
    ensures p in PairsFrom(i, n) <==> i <= p.0 < p.1 < n
    decreases n - i
  {
    hide Row;
    if i < n {
      RowIs(i, i + 1, n);
      PairsAreAll(i + 1, n, p);
      InEither(p, Row(i, i + 1, n), PairsFrom(i + 1, n));
    }
  }

  lemma InEither(p: (nat, nat), a: seq<(nat, nat)>, b: seq<(nat, nat)>)
    ensures p in a + b <==> p in a || p in b
  {
  }

  lemma TokensOfOneMore(t: Task, done: seq<(nat, nat)>, p: (nat, nat))
    ensures Tokens(t, done + [p]) == Tokens(t, done) + [t.pairTokens(p.0, p.1)]
  {
  }

  method AllPairInputTokens(t: Task) returns (inputs: seq<nat>)
    ensures inputs == PairInputs(t)
  {
    inputs := [];
    var n := t.trajectories;
    ghost var done: seq<(nat, nat)> := [];
    for i := 0 to n
      invariant inputs == Tokens(t, done) && done + PairsFrom(i, n) == PairsFrom(0, n)
    {
      ghost var before := done;
      for j := i + 1 to n
        invariant inputs == Tokens(t, done) && done + Row(i, j, n) == before + Row(i, i + 1, n)
      {
        TokensOfOneMore(t, done, (i, j));
        assert (done + [(i, j)]) + Row(i, j + 1, n) == done + Row(i, j, n);
        inputs := inputs + [t.pairTokens(i, j)];
        done := done + [(i, j)];
      }
      assert done == before + Row(i, i + 1, n);
      assert before + PairsFrom(i, n) == done + PairsFrom(i + 1, n);
    }
    assert done + PairsFrom(n, n) == done;
  }

  // ----- estimates

  function Same(x: int): Estimate {
    Estimate(x, x, x)
  }

  function Plus(a: Estimate, b: Estimate): Estimate {
    Estimate(a.best + b.best, a.expected + b.expected, a.worst + b.worst)
  }

  function PlusTotals(a: Totals, b: Totals): Totals {
    Totals(a.pairMatches + b.pairMatches, a.candidateScores + b.candidateScores,
           Plus(a.calls, b.calls), Plus(a.input, b.input), Plus(a.waves, b.waves))
  }

  const NOTHING := Totals(0, 0, Estimate(0, 0, 0), Estimate(0, 0, 0), Estimate(0, 0, 0))

  predicate Ordered(e: Estimate) {
    e.best <= e.expected <= e.worst
  }

  function Repetitions(cfg: Config, reps: int): int {
    if reps <= 0 then cfg.defaultReps else reps
  }

  function PerOrder(cfg: Config, criteria: nat): int {
    if (cfg.bundle && criteria > 1) || criteria == 0 then 1 else criteria
  }

  /** The orders of one plan; none when an adaptive pair cannot even afford one. */
  function OrdersOf(cfg: Config, criteria: nat, reps: int, bias: Bias): Option<Orders> {
    var perOrder := PerOrder(cfg, criteria);
    var n := Repetitions(cfg, reps);
    if cfg.selection == Pairwise && bias == Adaptive then
      if perOrder > cfg.maxPairCalls then None
      else
        var most := if cfg.maxPairCalls / perOrder < 1 then 1 else cfg.maxPairCalls / perOrder;
        Some(Orders(perOrder, 1, most, 1.0 + if cfg.legacyEscalation then cfg.escalationRate * (most - 1) as real else 0.0))
    else if cfg.selection != Absolute && bias == Both then Some(Orders(perOrder, 2 * n, 2 * n, (2 * n) as real))
    else Some(Orders(perOrder, n, n, n as real))
  }

  function SingleInputs(t: Task): seq<nat> {
    seq<nat>(t.trajectories, (i: int) requires i >= 0 => t.singleTokens(i))
  }

  function AbsoluteScoreWaves(candidates: int, workers: int, callsPerCandidate: int): int {
    if candidates < 1 || callsPerCandidate < 1 then 0
    else CeilDiv(candidates, AtLeastOne(workers)) * callsPerCandidate
  }

  /** A least, a mean and a greatest count, each times its number of orders. */
  function ByOrders(low: int, mean: int, high: int, o: Orders): Estimate {
    Estimate(low * o.base, Ceil(mean as real * o.expected), high * o.most)
  }

  function WavesByOrders(cfg: Config, o: Orders, n: nat): Estimate {
    Estimate(Waves(n, cfg.singleElim, cfg.maxWorkers, o.base * o.perOrder),
             Waves(n, cfg.singleElim, cfg.maxWorkers, Ceil(o.expected) * o.perOrder),
             Waves(n, cfg.singleElim, cfg.maxWorkers, o.most * o.perOrder))
  }

  /** What a pairwise task adds, given the sum, the number and the extremes of its pair inputs. */
  function PairwiseTotals(cfg: Config, o: Orders, n: nat, total: nat, pairs: nat, least: nat, greatest: nat): Totals
    requires pairs > 0
  {
    var matches: int := if cfg.singleElim then n as int - 1 else pairs;
    var calls := matches * o.perOrder;
    Totals(
      matches, 0, ByOrders(calls, calls, calls, o),
      if cfg.singleElim then ByOrders(least * matches, CeilDiv(total, pairs) * matches, greatest * matches, o)
      else ByOrders(total, total, total, o),
      WavesByOrders(cfg, o, n))
  }

  // ----- the order of the estimates

  predicate SoundOrders(o: Orders) {
    o.perOrder >= 1 && 0 <= o.base <= o.most && o.base as real <= o.expected <= o.most as real
  }

  lemma OrdersAreSound(cfg: Config, criteria: nat, reps: int, bias: Bias)
    requires OrdersOf(cfg, criteria, reps, bias).Some?
    requires cfg.defaultReps >= 1 && 0.0 <= cfg.escalationRate <= 1.0
    ensures SoundOrders(OrdersOf(cfg, criteria, reps, bias).value)
  {
    if cfg.selection == Pairwise && bias == Adaptive {
      var o := OrdersOf(cfg, criteria, reps, bias).value;
      EscalatedOrders(cfg.escalationRate, o.most);
    }
  }

  lemma EscalatedOrders(rate: real, most: int)
    requires 0.0 <= rate <= 1.0 && most >= 1
    ensures 1.0 <= 1.0 + rate * (most - 1) as real <= most as real
  {
    FractionOf(rate, (most - 1) as real);
  }

  lemma FractionOf(rate: real, gap: real)
    requires 0.0 <= rate <= 1.0 && gap >= 0.0
    ensures 0.0 <= rate * gap <= gap
  {
    RealProductSign(rate, gap);
    RealProductSign(1.0 - rate, gap);
    assert (1.0 - rate) * gap == gap - rate * gap;
  }

  lemma RealProductSign(a: real, b: real)
    requires a >= 0.0 && b >= 0.0
    ensures a * b >= 0.0
  {
  }

  /** Scaling a count by sound orders gives estimates in order. */
  lemma ScaledIsOrdered(count: nat, o: Orders)
    requires SoundOrders(o)
    ensures count * o.base <= Ceil(count as real * o.expected) <= count * o.most
  {
    RealTimes(count, o.base, o.expected);
    RealTimesUp(count, o.expected, o.most);
    CeilBetween(count as real * o.expected, count * o.base, count * o.most);
  }

  lemma RealTimes(count: nat, low: int, x: real)
    requires low as real <= x
    ensures (count * low) as real <= count as real * x
  {
    assert (count * low) as real == count as real * low as real;
    RealProductGrows(count as real, low as real, x);
  }

  lemma RealTimesUp(count: nat, x: real, high: int)
    requires x <= high as real
    ensures count as real * x <= (count * high) as real
  {
    assert (count * high) as real == count as real * high as real;
    RealProductGrows(count as real, x, high as real);
  }

  lemma RealProductGrows(a: real, b: real, c: real)
    requires a >= 0.0 && b <= c
    ensures a * b <= a * c
  {
  }

  lemma AverageBetween(total: nat, pairs: nat, least: nat, greatest: nat)
    requires pairs > 0 && least * pairs <= total <= greatest * pairs
    ensures least <= CeilDiv(total, pairs) <= greatest
  {
    var q: int := CeilDiv(total, pairs);
    if q < least {
      Times(q + 1, least, pairs);
      Distributed(q, 1, pairs);
    }
    if greatest < q {
      Times(greatest, q - 1, pairs);
    }
  }

  lemma TimesBoth(a: nat, b: nat, c: nat, d: nat)
    requires a <= b && c <= d
    ensures a * c <= b * d
  {
    Times(a, b, c);
    ProductGrows(b, c, d);
  }

  lemma ByOrdersIsOrdered(low: nat, mean: nat, high: nat, o: Orders)
    requires SoundOrders(o) && low <= mean <= high
    ensures Ordered(ByOrders(low, mean, high, o))
  {
    ScaledIsOrdered(mean, o);
    Times(low, mean, o.base);
    Times(mean, high, o.most);
    hide Ceil;
  }

  lemma WavesAreOrdered(cfg: Config, o: Orders, n: nat)
    requires SoundOrders(o)
    ensures Ordered(WavesByOrders(cfg, o, n)) && WavesByOrders(cfg, o, n).best >= 0
  {
    CeilBetween(o.expected, o.base, o.most);
    Times(o.base, Ceil(o.expected), o.perOrder);
    Times(Ceil(o.expected), o.most, o.perOrder);
    MoreOrdersMoreWaves(n, cfg.singleElim, cfg.maxWorkers, o.base * o.perOrder, Ceil(o.expected) * o.perOrder);
    MoreOrdersMoreWaves(n, cfg.singleElim, cfg.maxWorkers, Ceil(o.expected) * o.perOrder, o.most * o.perOrder);
    hide Waves, Ceil;
  }

  /** Every estimate of a pairwise task is in order. */
  lemma PairwiseIsOrdered(cfg: Config, o: Orders, n: nat, total: nat, pairs: nat, least: nat, greatest: nat)
    requires SoundOrders(o) && pairs > 0 && n >= 2
    requires least * pairs <= total <= greatest * pairs
    ensures var t := PairwiseTotals(cfg, o, n, total, pairs, least, greatest);
            Ordered(t.calls) && Ordered(t.input) && Ordered(t.waves) && t.waves.best >= 0
  {
    var matches: nat := if cfg.singleElim then n - 1 else pairs;
    var average := CeilDiv(total, pairs);
    TimesBoth(0, matches, 0, o.perOrder);
    ByOrdersIsOrdered(matches * o.perOrder, matches * o.perOrder, matches * o.perOrder, o);
    ByOrdersIsOrdered(total, total, total, o);
    AverageBetween(total, pairs, least, greatest);
    Times(least, average, matches);
    Times(average, greatest, matches);
    ByOrdersIsOrdered(least * matches, average * matches, greatest * matches, o);
    WavesAreOrdered(cfg, o, n);
    hide CeilDiv, ByOrders, WavesByOrders, SoundOrders;
  }

  // ----- the plan

  function TaskTotals(cfg: Config, o: Orders, reps: int, t: Task): Totals {
    match cfg.selection
    case JointAbsolute => Totals(0, t.trajectories, Same(reps), Same(t.jointTokens * reps), Same(reps))
    case Absolute =>
      var inputs := SingleInputs(t);
      if inputs == [] then NOTHING
      else
        Totals(0, |inputs|, Same(|inputs| * o.perOrder * reps), Same(Sum(inputs) * reps),
               Same(AbsoluteScoreWaves(|inputs|, cfg.maxWorkers, reps * o.perOrder)))
    case Pairwise =>
      var inputs := PairInputs(t);
      if inputs == [] then NOTHING
      else PairwiseTotals(cfg, o, t.trajectories, Sum(inputs), |inputs|, Least(inputs), Greatest(inputs))
  }

  function AllTotals(cfg: Config, o: Orders, reps: int, tasks: seq<Task>): Totals {
    if tasks == [] then NOTHING
    else PlusTotals(AllTotals(cfg, o, reps, tasks[..|tasks| - 1]), TaskTotals(cfg, o, reps, tasks[|tasks| - 1]))
  }

  function MaxInt(a: int, b: int): int {
    if a > b then a else b
  }

  /** One second a wave at best, half the timeout as expected, all of it at worst. */
  function Duration(cfg: Config, waves: Estimate): Estimate {
    Estimate(waves.best, waves.expected * MaxInt(1, cfg.timeoutSec / 2), waves.worst * cfg.timeoutSec)
  }

  datatype Plan = Plan(totals: Totals, duration: Estimate)

  lemma LeastIsUnique(m: nat, k: nat, values: seq<nat>)
    ensures IsLeast(m, values) && IsLeast(k, values) ==> m == k
    ensures IsGreatest(m, values) && IsGreatest(k, values) ==> m == k
  {
  }

  method AllAbsoluteInputTokens(t: Task) returns (inputs: seq<nat>)
    ensures inputs == SingleInputs(t)
  {
    inputs := [];
    for i := 0 to t.trajectories
      invariant |inputs| == i && forall k | 0 <= k < i :: inputs[k] == t.singleTokens(k)
    {
      inputs := inputs + [t.singleTokens(i)];
    }
  }

  /** Candidates in batches of as many as there are workers. */
  method CountAbsoluteWaves(candidates: int, workers: int, callsPerCandidate: int) returns (waves: int)
    ensures waves == AbsoluteScoreWaves(candidates, workers, callsPerCandidate)
  {
    if candidates <= 0 || callsPerCandidate <= 0 {
      return 0;
    }
    var parallel := workers;
    if parallel < 1 {
      parallel := 1;
    }
    waves := CeilDiv(candidates, parallel) * callsPerCandidate;
  }

  method PlanTask(cfg: Config, o: Orders, reps: int, t: Task) returns (totals: Totals)
    ensures totals == TaskTotals(cfg, o, reps, t)
  {
    hide CeilDiv, Waves, Ceil;
    match cfg.selection {
      case JointAbsolute =>
        return Totals(0, t.trajectories, Same(reps), Same(t.jointTokens * reps), Same(reps));
      case Absolute =>
        var inputs := AllAbsoluteInputTokens(t);
        if inputs == [] {
          return NOTHING;
        }
        var total := SumInts(inputs);
        var waves := CountAbsoluteWaves(|inputs|, cfg.maxWorkers, reps * o.perOrder);
        return Totals(0, |inputs|, Same(|inputs| * o.perOrder * reps), Same(total * reps), Same(waves));
      case Pairwise =>
        var inputs := AllPairInputTokens(t);
        if inputs == [] {
          return NOTHING;
        }
        totals := PlanPairs(cfg, o, t.trajectories, inputs);
    }
  }

  /** The fewest orders for the least, the most for the greatest, and between them what is expected, rounded up. */
  method InOrders(low: int, mean: int, high: int, o: Orders) returns (e: Estimate)
    ensures e == ByOrders(low, mean, high, o)
  {
    var best, worst := o.base * low, o.most * high;
    e := Estimate(best, Ceil(o.expected * mean as real), worst);
  }

  method PlanPairs(cfg: Config, o: Orders, n: nat, inputs: seq<nat>) returns (totals: Totals)
    requires inputs != []
    ensures totals == PairwiseTotals(cfg, o, n, Sum(inputs), |inputs|, Least(inputs), Greatest(inputs))
  {
    hide CeilDiv, Waves, Ceil, ByOrders;
    var pairMatches: int := |inputs|;
    var total := SumInts(inputs);
    var least, greatest := MinMaxInts(inputs);
    LeastIsUnique(least, Least(inputs), inputs);
    LeastIsUnique(greatest, Greatest(inputs), inputs);
    var average := CeilDiv(total, |inputs|);
    if cfg.singleElim {
      pairMatches := n - 1;
    }
    var calls := InOrders(pairMatches * o.perOrder, pairMatches * o.perOrder, pairMatches * o.perOrder, o);
    var input: Estimate;
    if cfg.singleElim {
      input := InOrders(least * pairMatches, average * pairMatches, greatest * pairMatches, o);
    } else {
      input := InOrders(total, total, total, o);
    }
    var best := CountWaves(n, cfg.singleElim, cfg.maxWorkers, o.base * o.perOrder);
    var expected := CountWaves(n, cfg.singleElim, cfg.maxWorkers, Ceil(o.expected) * o.perOrder);
    var worst := CountWaves(n, cfg.singleElim, cfg.maxWorkers, o.most * o.perOrder);
    totals := Totals(pairMatches, 0, calls, input, Estimate(best, expected, worst));
  }

  method BuildEvalPlan(tasks: seq<Task>, cfg: Config, criteria: nat, reps: int, bias: Bias) returns (plan: Option<Plan>)
    ensures plan == match OrdersOf(cfg, criteria, reps, bias)
                    case None => None
                    case Some(o) =>
                      var totals := AllTotals(cfg, o, Repetitions(cfg, reps), tasks);
                      Some(Plan(totals, Duration(cfg, totals.waves)))
  {
    hide TaskTotals, OrdersOf;
    var orders := PlanOrders(cfg, criteria, reps, bias);
    if orders.None? {
      return None;
    }
    var totals := NOTHING;
    var repetitions := reps;
    if reps <= 0 {
      repetitions := cfg.defaultReps;
    }
    for index := 0 to |tasks|
      invariant totals == AllTotals(cfg, orders.value, repetitions, tasks[..index])
    {
      var one := PlanTask(cfg, orders.value, repetitions, tasks[index]);
      assert tasks[..index + 1][..index] == tasks[..index];
      totals := Totals(
        totals.pairMatches + one.pairMatches, totals.candidateScores + one.candidateScores,
        Estimate(totals.calls.best + one.calls.best, totals.calls.expected + one.calls.expected, totals.calls.worst + one.calls.worst),
        Estimate(totals.input.best + one.input.best, totals.input.expected + one.input.expected, totals.input.worst + one.input.worst),
        Estimate(totals.waves.best + one.waves.best, totals.waves.expected + one.waves.expected, totals.waves.worst + one.waves.worst));
    }
    assert tasks[..|tasks|] == tasks;
    var half := cfg.timeoutSec / 2;
    if half < 1 {
      half := 1;
    }
    plan := Some(Plan(totals, Estimate(totals.waves.best, totals.waves.expected * half, totals.waves.worst * cfg.timeoutSec)));
  }

  /** Calls for one order, and the fewest, expected and most orders of a pair. */
  method PlanOrders(cfg: Config, criteria: nat, reps: int, bias: Bias) returns (orders: Option<Orders>)
    ensures orders == OrdersOf(cfg, criteria, reps, bias)
  {
    var repetitions := reps;
    if reps <= 0 {
      repetitions := cfg.defaultReps;
    }
    var perOrder := criteria;
    if cfg.bundle && criteria > 1 {
      perOrder := 1;
    }
    if perOrder == 0 {
      perOrder := 1;
    }
    var absolute := cfg.selection == Absolute;
    var adaptive := !absolute && cfg.selection != JointAbsolute && bias == Adaptive;
    if adaptive && perOrder > cfg.maxPairCalls {
      return None;
    }
    var base, most := repetitions, repetitions;
    if !absolute && bias == Both {
      base, most := base * 2, most * 2;
    }
    if adaptive {
      base, most := 1, cfg.maxPairCalls / perOrder;
      if most < 1 {
        most := 1;
      }
    }
    var expected := base as real;
    if adaptive && cfg.legacyEscalation {
      expected := expected + cfg.escalationRate * (most - base) as real;
    }
    assert adaptive ==> OrdersOf(cfg, criteria, reps, bias).value.expected == expected;
    orders := Some(Orders(perOrder, base, most, expected));
  }

  // ----- what a plan promises

  predicate OrderedTotals(t: Totals) {
    Ordered(t.calls) && Ordered(t.input) && Ordered(t.waves) && t.waves.best >= 0
  }

  lemma SomePairs(n: nat)
    requires PairsFrom(0, n) != []
    ensures n >= 2
  {
    PairsAreAll(0, n, PairsFrom(0, n)[0]);
  }

  lemma TaskIsOrdered(cfg: Config, o: Orders, reps: int, t: Task)
    requires SoundOrders(o) && reps >= 0
    ensures OrderedTotals(TaskTotals(cfg, o, reps, t))
  {
    hide CeilDiv, Waves, Ceil;
    if cfg.selection == Pairwise && PairInputs(t) != [] {
      var inputs := PairInputs(t);
      PairsAreCounted(0, t.trajectories);
      SumBetween(inputs, Least(inputs), Greatest(inputs));
      SomePairs(t.trajectories);
      PairwiseIsOrdered(cfg, o, t.trajectories, Sum(inputs), |inputs|, Least(inputs), Greatest(inputs));
      hide PairwiseTotals;
    } else if cfg.selection == Absolute {
      AbsoluteWavesPositive(t.trajectories, cfg.maxWorkers, reps * o.perOrder);
    }
  }

  lemma AbsoluteWavesPositive(candidates: nat, workers: int, calls: int)
    ensures AbsoluteScoreWaves(candidates, workers, calls) >= 0
  {
    if candidates >= 1 && calls >= 1 {
      TimesBoth(0, CeilDiv(candidates, AtLeastOne(workers)), 0, calls);
    }
  }

  lemma {:induction false} TotalsAreOrdered(cfg: Config, o: Orders, reps: int, tasks: seq<Task>)
    requires SoundOrders(o) && reps >= 0
    ensures OrderedTotals(AllTotals(cfg, o, reps, tasks))
  {
    hide TaskTotals;
    if tasks != [] {
      TotalsAreOrdered(cfg, o, reps, tasks[..|tasks| - 1]);
      TaskIsOrdered(cfg, o, reps, tasks[|tasks| - 1]);
    }
  }

  lemma DurationIsOrdered(cfg: Config, waves: Estimate)
    requires Ordered(waves) && waves.best >= 0 && cfg.timeoutSec >= 1
    ensures Ordered(Duration(cfg, waves))
  {
    var half := MaxInt(1, cfg.timeoutSec / 2);
    ProductGrows(waves.expected, 1, half);
    TimesBoth(waves.expected, waves.worst, half, cfg.timeoutSec);
  }

  /** Calls, input tokens and duration of every plan of a valid configuration: best <= expected <= worst. */
  lemma PlanIsOrdered(tasks: seq<Task>, cfg: Config, criteria: nat, reps: int, bias: Bias, o: Orders)
    requires OrdersOf(cfg, criteria, reps, bias) == Some(o)
    requires cfg.defaultReps >= 1 && 0.0 <= cfg.escalationRate <= 1.0 && cfg.timeoutSec >= 1
    ensures var t := AllTotals(cfg, o, Repetitions(cfg, reps), tasks);
            Ordered(t.calls) && Ordered(t.input) && Ordered(Duration(cfg, t.waves))
  {
    OrdersAreSound(cfg, criteria, reps, bias);
    TotalsAreOrdered(cfg, o, Repetitions(cfg, reps), tasks);
    DurationIsOrdered(cfg, AllTotals(cfg, o, Repetitions(cfg, reps), tasks).waves);
  }

  // ----- real tournaments

  /** The tokens of one match. */
  function MatchTokens(t: Task, m: Match): nat {
    if m.winner < m.loser then t.pairTokens(m.winner, m.loser) else t.pairTokens(m.loser, m.winner)
  }

  /** Real input of a list of asked pairs, each in some number of orders. */
  function RealInput(costs: seq<nat>, orders: seq<nat>): nat
    requires |costs| == |orders|
  {
    if costs == [] then 0 else costs[0] * orders[0] + RealInput(costs[1..], orders[1..])
  }

  lemma {:induction false} RealInputBetween(costs: seq<nat>, orders: seq<nat>, base: nat, most: nat)
    requires |costs| == |orders| && forall k | 0 <= k < |orders| :: base <= orders[k] <= most
    ensures Sum(costs) * base <= RealInput(costs, orders) <= Sum(costs) * most
  {
    if costs != [] {
      RealInputBetween(costs[1..], orders[1..], base, most);
      ProductGrows(costs[0], base, orders[0]);
      ProductGrows(costs[0], orders[0], most);
      Distributed(costs[0], Sum(costs[1..]), base);
      Distributed(costs[0], Sum(costs[1..]), most);
    }
  }

  function Costs(t: Task, matches: seq<Match>): seq<nat> {
    seq<nat>(|matches|, k requires 0 <= k < |matches| => MatchTokens(t, matches[k]))
  }

  function Entrants(n: nat): set<nat> {
    if n == 0 then {} else Entrants(n - 1) + {n - 1}
  }

  lemma {:induction false} EntrantsAre(n: nat)
    ensures |Entrants(n)| == n && forall i: nat :: i in Entrants(n) <==> i < n
  {
    if n > 0 {
      EntrantsAre(n - 1);
    }
  }

  lemma {:induction false} BracketPlaysPairs(n: nat, active: set<nat>, matches: seq<Match>, left: set<nat>, k: nat)
    requires PlayedDown(active, matches, left) && active <= Entrants(n) && k < |matches|
    ensures matches[k].winner < n && matches[k].loser < n && matches[k].winner != matches[k].loser
  {
    EntrantsAre(n);
    if k > 0 {
      BracketPlaysPairs(n, active - {matches[0].loser}, matches[1..], left, k - 1);
    }
  }

  lemma MatchIsPair(t: Task, m: Match)
    requires m.winner < t.trajectories && m.loser < t.trajectories && m.winner != m.loser
    ensures MatchTokens(t, m) in PairInputs(t)
  {
    var p := if m.winner < m.loser then (m.winner, m.loser) else (m.loser, m.winner);
    PairsAreAll(0, t.trajectories, p);
    var pairs := PairsFrom(0, t.trajectories);
    var k :| 0 <= k < |pairs| && pairs[k] == p;
    assert PairInputs(t)[k] == MatchTokens(t, m);
  }

  /** A bracket plays n - 1 matches, each one of the pairs. */
  lemma {:induction false} BracketCosts(t: Task, matches: seq<Match>, left: set<nat>)
    requires t.trajectories >= 2 && PlayedDown(Entrants(t.trajectories), matches, left) && |left| == 1
    ensures |matches| == t.trajectories - 1 && PairInputs(t) != []
    ensures forall k | 0 <= k < |matches| :: Least(PairInputs(t)) <= Costs(t, matches)[k] <= Greatest(PairInputs(t))
  {
    EntrantsAre(t.trajectories);
    AnyBracketHasAllMatches(Entrants(t.trajectories), matches, left);
    MatchIsPair(t, Match(0, 1));
    forall k | 0 <= k < |matches| ensures Least(PairInputs(t)) <= Costs(t, matches)[k] <= Greatest(PairInputs(t)) {
      BracketPlaysPairs(t.trajectories, Entrants(t.trajectories), matches, left, k);
      MatchIsPair(t, matches[k]);
    }
  }

  lemma InputWithin(costs: seq<nat>, orders: seq<nat>, o: Orders, least: nat, average: nat, greatest: nat)
    requires SoundOrders(o) && |orders| == |costs| && forall k | 0 <= k < |orders| :: o.base <= orders[k] <= o.most
    requires forall k | 0 <= k < |costs| :: least <= costs[k] <= greatest
    ensures var e := ByOrders(least * |costs|, average * |costs|, greatest * |costs|, o);
            e.best <= RealInput(costs, orders) <= e.worst
  {
    SumBetween(costs, least, greatest);
    RealInputBetween(costs, orders, o.base, o.most);
    Times(least * |costs|, Sum(costs), o.base);
    Times(Sum(costs), greatest * |costs|, o.most);
    hide Ceil, RealInput, Sum;
  }

  /**
   However a single-elimination bracket is drawn and decided, and in however many orders each match
   is asked within the plan's range, its input lies between the plan's best and worst.
   */
  lemma {:induction false} BracketWithinPlan(cfg: Config, o: Orders, reps: int, t: Task, matches: seq<Match>, left: set<nat>, orders: seq<nat>)
    requires cfg.selection == Pairwise && cfg.singleElim && SoundOrders(o) && t.trajectories >= 2
    requires PlayedDown(Entrants(t.trajectories), matches, left) && |left| == 1
    requires |orders| == |matches| && forall k | 0 <= k < |orders| :: o.base <= orders[k] <= o.most
    ensures |matches| == t.trajectories - 1 == TaskTotals(cfg, o, reps, t).pairMatches
    ensures TaskTotals(cfg, o, reps, t).input.best <= RealInput(Costs(t, matches), orders) <= TaskTotals(cfg, o, reps, t).input.worst
  {
    BracketCosts(t, matches, left);
    var inputs := PairInputs(t);
    InputWithin(Costs(t, matches), orders, o, Least(inputs), CeilDiv(Sum(inputs), |inputs|), Greatest(inputs));
    hide CeilDiv, ByOrders, WavesByOrders, RealInput, Sum, PairInputs, Least, Greatest, PlayedDown, SoundOrders;
  }

  /** The same for all pairs: whatever number of orders each pair is asked in, within the plan's range. */
  lemma {:induction false} AllPairsWithinPlan(cfg: Config, o: Orders, reps: int, t: Task, orders: seq<nat>)
    requires cfg.selection == Pairwise && !cfg.singleElim && SoundOrders(o)
    requires |orders| == |PairInputs(t)| && forall k | 0 <= k < |orders| :: o.base <= orders[k] <= o.most
    ensures 2 * TaskTotals(cfg, o, reps, t).pairMatches == t.trajectories * (t.trajectories - 1)
    ensures TaskTotals(cfg, o, reps, t).input.best <= RealInput(PairInputs(t), orders) <= TaskTotals(cfg, o, reps, t).input.worst
  {
    hide CeilDiv, Waves, Ceil;
    PairsAreCounted(0, t.trajectories);
    RealInputBetween(PairInputs(t), orders, o.base, o.most);
  }

  // ----- a whole evaluation

  /** What is played for one task: the matches of a bracket, if any, and how many orders each pair is asked in. */
  datatype Tournament = Tournament(matches: seq<Match>, left: set<nat>, orders: seq<nat>)

  /** The tokens of the pairs that are asked. */
  function Asked(cfg: Config, t: Task, g: Tournament): seq<nat> {
    if cfg.singleElim then Costs(t, g.matches) else PairInputs(t)
  }

  /** A tournament of this task: a bracket that leaves one, or all pairs; nothing with fewer than two trajectories. */
  ghost predicate IsTournament(cfg: Config, o: Orders, t: Task, g: Tournament) {
    && |g.orders| == |Asked(cfg, t, g)| && (forall k | 0 <= k < |g.orders| :: o.base <= g.orders[k] <= o.most)
    && (cfg.singleElim ==>
          if t.trajectories < 2 then g.matches == [] else PlayedDown(Entrants(t.trajectories), g.matches, g.left) && |g.left| == 1)
  }

  function InputOf(cfg: Config, t: Task, g: Tournament): nat {
    if |g.orders| == |Asked(cfg, t, g)| then RealInput(Asked(cfg, t, g), g.orders) else 0
  }

  /** The input tokens and the calls of all tournaments. */
  function WholeInput(cfg: Config, tasks: seq<Task>, gs: seq<Tournament>): nat
    requires |gs| == |tasks|
  {
    if tasks == [] then 0
    else WholeInput(cfg, tasks[..|tasks| - 1], gs[..|gs| - 1]) + InputOf(cfg, tasks[|tasks| - 1], gs[|gs| - 1])
  }

  function WholeCalls(o: Orders, gs: seq<Tournament>): int {
    if gs == [] then 0 else WholeCalls(o, gs[..|gs| - 1]) + Sum(gs[|gs| - 1].orders) * o.perOrder
  }

  lemma FewHaveNoPairs(t: Task)
    ensures t.trajectories < 2 <==> PairInputs(t) == []
  {
    PairsAreCounted(0, t.trajectories);
    if t.trajectories >= 2 {
      PairsAreAll(0, t.trajectories, (0, 1));
    }
  }

  lemma TournamentWithinTask(cfg: Config, o: Orders, reps: int, t: Task, g: Tournament)
    requires cfg.selection == Pairwise && SoundOrders(o) && IsTournament(cfg, o, t, g)
    ensures var totals := TaskTotals(cfg, o, reps, t);
            totals.input.best <= InputOf(cfg, t, g) <= totals.input.worst && totals.pairMatches == |g.orders|
  {
    FewHaveNoPairs(t);
    if t.trajectories < 2 {
      assert Asked(cfg, t, g) == [];
    } else if cfg.singleElim {
      BracketWithinPlan(cfg, o, reps, t, g.matches, g.left, g.orders);
    } else {
      AllPairsWithinPlan(cfg, o, reps, t, g.orders);
      hide CeilDiv, Waves, Ceil, Least, Greatest;
    }
  }

  lemma CallsWithinTask(cfg: Config, o: Orders, reps: int, t: Task, g: Tournament)
    requires cfg.selection == Pairwise && SoundOrders(o) && IsTournament(cfg, o, t, g)
    ensures var totals := TaskTotals(cfg, o, reps, t);
            totals.calls.best <= Sum(g.orders) * o.perOrder <= totals.calls.worst
  {
    TournamentWithinTask(cfg, o, reps, t, g);
    var n := |g.orders|;
    SumBetween(g.orders, o.base, o.most);
    Times(o.base * n, Sum(g.orders), o.perOrder);
    Times(Sum(g.orders), o.most * n, o.perOrder);
    Turned(o.base, n, o.perOrder);
    Turned(o.most, n, o.perOrder);
    CallsOfTask(cfg, o, reps, t);
    hide TaskTotals, IsTournament, Sum;
  }

  lemma Turned(orders: int, matches: int, perOrder: int)
    ensures orders * matches * perOrder == matches * perOrder * orders
  {
  }

  lemma CallsOfTask(cfg: Config, o: Orders, reps: int, t: Task)
    requires cfg.selection == Pairwise
    ensures var totals := TaskTotals(cfg, o, reps, t);
            totals.calls.best == totals.pairMatches * o.perOrder * o.base && totals.calls.worst == totals.pairMatches * o.perOrder * o.most
  {
    hide CeilDiv, Waves, Ceil, Least, Greatest, PairInputs;
  }

  /**
   However every tournament of a pairwise evaluation is drawn and decided, and in however many orders
   each pair is asked within the plan's range, the calls and the input tokens of the whole evaluation
   lie between the plan's best and worst, and as many pairs are asked as the plan says.
   */
  lemma {:induction false} EvaluationWithinPlan(cfg: Config, o: Orders, reps: int, tasks: seq<Task>, gs: seq<Tournament>)
    requires cfg.selection == Pairwise && SoundOrders(o) && |gs| == |tasks|
    requires forall k | 0 <= k < |tasks| :: IsTournament(cfg, o, tasks[k], gs[k])
    ensures var totals := AllTotals(cfg, o, reps, tasks);
            && totals.input.best <= WholeInput(cfg, tasks, gs) <= totals.input.worst
            && totals.calls.best <= WholeCalls(o, gs) <= totals.calls.worst
            && totals.pairMatches == AskedPairs(gs)
  {
    hide TaskTotals, IsTournament, InputOf, Sum, SoundOrders;
    if tasks != [] {
      var last := |tasks| - 1;
      EvaluationWithinPlan(cfg, o, reps, tasks[..last], gs[..last]);
      TournamentWithinTask(cfg, o, reps, tasks[last], gs[last]);
      CallsWithinTask(cfg, o, reps, tasks[last], gs[last]);
    }
  }

  function AskedPairs(gs: seq<Tournament>): nat {
    if gs == [] then 0 else AskedPairs(gs[..|gs| - 1]) + |gs[|gs| - 1].orders|
  }

  // ----- how often a pair is asked about

  /** One order asks about every criterion on its own, or about all of them at once; with none there still is one call. */
  ghost predicate CallsForOrder(cfg: Config, criteria: nat, calls: int) {
    if criteria <= 1 || cfg.bundle then calls == 1 else calls == criteria
  }

  /** The repetitions asked for, or the configured ones. */
  ghost predicate Repeated(cfg: Config, reps: int, n: int) {
    n == if reps >= 1 then reps else cfg.defaultReps
  }

  /**
   A pair is asked about in the repeated orders, in twice as many when both orders are asked, and
   adaptively in at least one and at most as many as fit the calls allowed for a pair. Only an adaptive
   pair for which not even one fits is refused.
   */
  lemma OrdersAskPairs(cfg: Config, criteria: nat, reps: int, bias: Bias, calls: int, n: int)
    requires cfg.selection == Pairwise && CallsForOrder(cfg, criteria, calls) && Repeated(cfg, reps, n)
    ensures OrdersOf(cfg, criteria, reps, bias).None? <==> bias == Adaptive && calls > cfg.maxPairCalls
    ensures OrdersOf(cfg, criteria, reps, bias).Some? ==>
              var o := OrdersOf(cfg, criteria, reps, bias).value;
              && o.perOrder == calls
              && match bias
                 case Single => o.base == o.most == n
                 case Both => o.base == o.most == 2 * n
                 case Adaptive => o.base == 1 && o.most * calls <= cfg.maxPairCalls < (o.most + 1) * calls
    ensures Repetitions(cfg, reps) == n
  {
    if bias == Adaptive && calls <= cfg.maxPairCalls {
      QuotientFits(cfg.maxPairCalls, calls);
    }
  }

  lemma QuotientFits(x: int, y: int)
    requires 1 <= y <= x
    ensures x / y >= 1 && (x / y) * y <= x < (x / y + 1) * y
  {
    assert x == (x / y) * y + x % y;
    Distributed(y, x / y, 1);
  }

  /** Between `base` and `most` orders for each asked pair. */
  lemma {:induction false} OrdersAreCounted(cfg: Config, o: Orders, tasks: seq<Task>, gs: seq<Tournament>)
    requires SoundOrders(o) && |gs| == |tasks|
    requires forall k | 0 <= k < |tasks| :: IsTournament(cfg, o, tasks[k], gs[k])
    ensures AskedPairs(gs) * o.base * o.perOrder <= WholeCalls(o, gs) <= AskedPairs(gs) * o.most * o.perOrder
  {
    hide IsTournament, Sum;
    if gs != [] {
      var last := |gs| - 1;
      OrdersAreCounted(cfg, o, tasks[..last], gs[..last]);
      OrdersOfOne(cfg, o, tasks[last], gs[last]);
      AddedTwice(AskedPairs(gs[..last]), |gs[last].orders|, o.base, o.perOrder);
      AddedTwice(AskedPairs(gs[..last]), |gs[last].orders|, o.most, o.perOrder);
    }
  }

  lemma OrdersOfOne(cfg: Config, o: Orders, t: Task, g: Tournament)
    requires SoundOrders(o) && IsTournament(cfg, o, t, g)
    ensures |g.orders| * o.base * o.perOrder <= Sum(g.orders) * o.perOrder <= |g.orders| * o.most * o.perOrder
  {
    SumBetween(g.orders, o.base, o.most);
    Times(|g.orders| * o.base, Sum(g.orders), o.perOrder);
    Times(Sum(g.orders), |g.orders| * o.most, o.perOrder);
  }

  lemma AddedTwice(a: int, b: int, x: int, y: int)
    ensures (a + b) * x * y == a * x * y + b * x * y
  {
    assert (a + b) * x == a * x + b * x;
  }

  /**
   What a pairwise evaluation really calls: for single orders the pairs it asks about times the calls and
   the repetitions, for both orders twice that, and adaptively no more than the calls allowed for each pair.
   */
  lemma EvaluationCalls(cfg: Config, criteria: nat, reps: int, bias: Bias, tasks: seq<Task>, gs: seq<Tournament>, calls: int, n: int)
    requires cfg.selection == Pairwise && cfg.defaultReps >= 1 && 0.0 <= cfg.escalationRate <= 1.0 && |gs| == |tasks|
    requires CallsForOrder(cfg, criteria, calls) && Repeated(cfg, reps, n)
    requires OrdersOf(cfg, criteria, reps, bias).Some?
    requires var o := OrdersOf(cfg, criteria, reps, bias).value; forall k | 0 <= k < |tasks| :: IsTournament(cfg, o, tasks[k], gs[k])
    ensures var made := WholeCalls(OrdersOf(cfg, criteria, reps, bias).value, gs);
            match bias
            case Single => made == AskedPairs(gs) * n * calls
            case Both => made == 2 * (AskedPairs(gs) * n * calls)
            case Adaptive => AskedPairs(gs) * calls <= made <= AskedPairs(gs) * cfg.maxPairCalls
  {
    hide *;
    var o := OrdersOf(cfg, criteria, reps, bias).value;
    OrdersAreSound(cfg, criteria, reps, bias);
    OrdersAskPairs(cfg, criteria, reps, bias, calls, n);
    OrdersAreCounted(cfg, o, tasks, gs);
    TwiceAsMany(AskedPairs(gs), n, calls);
    match bias {
      case Single =>
      case Both =>
      case Adaptive =>
        Times(o.most * calls, cfg.maxPairCalls, AskedPairs(gs));
        Turned(AskedPairs(gs), o.most, calls);
        OneOrder(AskedPairs(gs), calls);
    }
  }

  lemma OneOrder(pairs: int, calls: int)
    ensures pairs * 1 * calls == pairs * calls
  {
  }

  lemma TwiceAsMany(pairs: int, n: int, calls: int)
    ensures pairs * (2 * n) * calls == 2 * (pairs * n * calls)
  {
    assert pairs * (2 * n) == 2 * (pairs * n);
  }

  // ----- candidates on their own

  function Candidates(tasks: seq<Task>): nat {
    if tasks == [] then 0 else Candidates(tasks[..|tasks| - 1]) + tasks[|tasks| - 1].trajectories
  }

  /** Scoring candidates on their own calls for each of them, scoring them jointly once for each task. */
  lemma {:induction false} CandidatesAreCounted(cfg: Config, o: Orders, reps: int, tasks: seq<Task>)
    requires cfg.selection != Pairwise
    ensures var t := AllTotals(cfg, o, reps, tasks);
            && t.pairMatches == 0 && t.candidateScores == Candidates(tasks)
            && t.calls == Same(if cfg.selection == Absolute then Candidates(tasks) * o.perOrder * reps else |tasks| * reps)
  {
    hide TaskTotals;
    if tasks != [] {
      var last := |tasks| - 1;
      CandidatesAreCounted(cfg, o, reps, tasks[..last]);
      CandidatesOfTask(cfg, o, reps, tasks[last]);
      AddedTwice(Candidates(tasks[..last]), tasks[last].trajectories, o.perOrder, reps);
      Distributed(last, 1, reps);
    }
  }

  lemma CandidatesOfTask(cfg: Config, o: Orders, reps: int, t: Task)
    requires cfg.selection != Pairwise
    ensures var totals := TaskTotals(cfg, o, reps, t);
            && totals.pairMatches == 0 && totals.candidateScores == t.trajectories
            && totals.calls == Same(if cfg.selection == Absolute then t.trajectories * o.perOrder * reps else reps)
  {
    hide AbsoluteScoreWaves, Sum;
  }

  /** Candidates are scored in the fewest rounds of at most `workers` at a time. */
  lemma AbsoluteRounds(candidates: nat, workers: nat, calls: nat) returns (rounds: nat)
    requires candidates >= 1 && workers >= 1 && calls >= 1
    ensures AbsoluteScoreWaves(candidates, workers, calls) == rounds * calls
    ensures (rounds - 1) * workers < candidates <= rounds * workers
  {
    rounds := CeilDiv(candidates, workers);
  }

  /** If every wave takes between one second and the timeout, the whole takes between best and worst. */
  lemma RealDurationWithin(cfg: Config, waves: Estimate, seconds: seq<nat>)
    requires cfg.timeoutSec >= 1 && waves.best <= |seconds| <= waves.worst
    requires forall k | 0 <= k < |seconds| :: 1 <= seconds[k] <= cfg.timeoutSec
    ensures Duration(cfg, waves).best <= Sum(seconds) <= Duration(cfg, waves).worst
  {
    SumBetween(seconds, 1, cfg.timeoutSec);
    Times(|seconds|, waves.worst, cfg.timeoutSec);
  }
}
