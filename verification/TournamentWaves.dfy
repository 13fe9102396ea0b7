/**
 Concurrency waves of a tournament. Single elimination plays rounds of pairs until one is left; a
 round of m matches takes ceil(m / workers) waves.
 */
module TournamentWaves {

  /** The quotient rounded up. */
  function CeilDiv(a: nat, b: nat): (r: nat)
    requires b > 0
    ensures (r as int - 1) * b < a <= r * b
  {
    (a + b - 1) / b
  }

  lemma CeilDivIs(a: nat, b: nat, r: int)
    requires b > 0 && (r - 1) * b < a <= r * b
    ensures CeilDiv(a, b) == r
  {
    var q: int := CeilDiv(a, b);
    if q < r {
      Times(q, r - 1, b);
    }
    if r < q {
      Times(r, q - 1, b);
    }
  }

  lemma Times(a: int, b: int, c: int)
    requires a <= b && c >= 0
    ensures a * c <= b * c
  {
  }

  /** Rounding up two parts costs at least as much as rounding up their sum, and at most one more. */
  lemma CeilDivOfSum(a: nat, b: nat, w: nat)
    requires w > 0
    ensures CeilDiv(a + b, w) <= CeilDiv(a, w) + CeilDiv(b, w) <= CeilDiv(a + b, w) + 1
  {
    var p: int, q: int, r: int := CeilDiv(a, w), CeilDiv(b, w), CeilDiv(a + b, w);
    assert a + b <= (p + q) * w;
    if p + q < r {
      Times(p + q, r - 1, w);
    }
    assert (p + q - 2) * w == (p - 1) * w + (q - 1) * w;
    if r < p + q - 1 {
      Times(r, p + q - 2, w);
    }
  }

  lemma CeilDivByMore(a: nat, w: nat, v: nat)
    requires 0 < w <= v
    ensures CeilDiv(a, v) <= CeilDiv(a, w)
  {
    var p: int, q: int := CeilDiv(a, w), CeilDiv(a, v);
    if p < q {
      Times(p, q - 1, v);
      assert p * w <= p * v by { Times(w, v, p); }
    }
  }

  lemma CeilDivByOne(a: nat)
    ensures CeilDiv(a, 1) == a
  {
  }

  /** Waves of single elimination for one order. */
  function EliminationWaves(active: nat, workers: nat): nat
    requires workers > 0
  {
    if active <= 1 then 0 else CeilDiv(active / 2, workers) + EliminationWaves((active + 1) / 2, workers)
  }

  function Rounds(active: nat): nat {
    if active <= 1 then 0 else 1 + Rounds((active + 1) / 2)
  }

  function Matches(active: nat): nat {
    if active <= 1 then 0 else active / 2 + Matches((active + 1) / 2)
  }

  function Pow2(k: nat): nat {
    if k == 0 then 1 else 2 * Pow2(k - 1)
  }

  /** Rounds is the logarithm of base two, rounded up. */
  lemma {:induction false} RoundsIsLogarithm(n: nat)
    requires n >= 1
    ensures n <= Pow2(Rounds(n))
    ensures n > 1 ==> Pow2(Rounds(n) - 1) < n
  {
    if n > 1 {
      RoundsIsLogarithm((n + 1) / 2);
    }
  }

  /** The rounds together play one match less than there are entrants. */
  lemma {:induction false} EliminationMatches(n: nat)
    requires n >= 1
    ensures Matches(n) == n - 1
  {
    if n > 1 {
      EliminationMatches((n + 1) / 2);
    }
  }

  lemma {:induction false} OneWorker(n: nat)
    requires n >= 1
    ensures EliminationWaves(n, 1) == n - 1
  {
    if n > 1 {
      CeilDivByOne(n / 2);
      OneWorker((n + 1) / 2);
    }
  }

  lemma {:induction false} MoreWorkersFewerWaves(n: nat, w: nat, v: nat)
    requires 0 < w <= v
    ensures EliminationWaves(n, v) <= EliminationWaves(n, w)
  {
    if n > 1 {
      CeilDivByMore(n / 2, w, v);
      MoreWorkersFewerWaves((n + 1) / 2, w, v);
    }
  }

  lemma {:induction false} WavesCoverMatches(n: nat, w: nat)
    requires n >= 1 && w > 0
    ensures EliminationWaves(n, w) >= CeilDiv(n - 1, w) && EliminationWaves(n, w) >= Rounds(n)
  {
    if n > 1 {
      var rest := (n + 1) / 2;
      WavesCoverMatches(rest, w);
      CeilDivOfSum(n / 2, rest - 1, w);
      assert n / 2 + (rest - 1) == n - 1;
    } else {
      CeilDivIs(0, w, 0);
    }
  }

  lemma {:induction false} WavesWithinMatchesAndRounds(n: nat, w: nat)
    requires n >= 1 && w > 0
    ensures EliminationWaves(n, w) <= CeilDiv(n - 1, w) + Rounds(n)
  {
    if n > 1 {
      var rest := (n + 1) / 2;
      WavesWithinMatchesAndRounds(rest, w);
      CeilDivOfSum(n / 2, rest - 1, w);
      assert n / 2 + (rest - 1) == n - 1;
    }
  }

  // ----- the planner's counts

  function AtLeastOne(workers: int): (w: nat)
    ensures w > 0
  {
    if workers < 1 then 1 else workers
  }

  /** Waves of one tournament: all pairs in one go, or round by round. */
  function Waves(trajectories: int, singleElim: bool, workers: int, orders: int): nat {
    if trajectories < 2 || orders < 1 then 0
    else if !singleElim then CeilDiv(trajectories * (trajectories - 1) / 2, AtLeastOne(workers)) * orders
    else EliminationWaves(trajectories, AtLeastOne(workers)) * orders
  }

  method CountWaves(trajectories: int, singleElim: bool, workers: int, orders: int) returns (waves: int)
    ensures waves == Waves(trajectories, singleElim, workers, orders)
  {
    if trajectories < 2 || orders < 1 {
      return 0;
    }
    var w := if workers < 1 then 1 else workers;
    if !singleElim {
      var pairs := trajectories * (trajectories - 1) / 2;
      return CeilDiv(pairs, w) * orders;
    }
    waves := 0;
    var active := trajectories;
    while active > 1
      invariant active >= 1
      invariant waves + EliminationWaves(active, w) * orders == EliminationWaves(trajectories, w) * orders
    {
      var matches := active / 2;
      Distributed(CeilDiv(matches, w), EliminationWaves((active + 1) / 2, w), orders);
      waves := waves + CeilDiv(matches, w) * orders;
      active := (active + 1) / 2;
    }
  }

  lemma Distributed(a: int, b: int, c: int)
    ensures (a + b) * c == a * c + b * c
  {
  }

  /**
   Single elimination: one worker needs a wave for every match; more workers never need more; the waves
   lie between what the matches or the rounds alone demand and the two together.
   */
  lemma WavesAreBounded(n: int, w: int, v: int, orders: int)
    requires n >= 2 && orders >= 1
    ensures Waves(n, true, 1, orders) == (n - 1) * orders
    ensures AtLeastOne(w) <= AtLeastOne(v) ==> Waves(n, true, v, orders) <= Waves(n, true, w, orders)
    ensures Waves(n, true, w, orders) >= CeilDiv(n - 1, AtLeastOne(w)) * orders
    ensures Waves(n, true, w, orders) >= Rounds(n) * orders
    ensures Waves(n, true, w, orders) <= (CeilDiv(n - 1, AtLeastOne(w)) + Rounds(n)) * orders
  {
    var x, y := AtLeastOne(w), AtLeastOne(v);
    OneWorker(n);
    WavesCoverMatches(n, x);
    WavesWithinMatchesAndRounds(n, x);
    Times(CeilDiv(n - 1, x), EliminationWaves(n, x), orders);
    Times(Rounds(n), EliminationWaves(n, x), orders);
    Times(EliminationWaves(n, x), CeilDiv(n - 1, x) + Rounds(n), orders);
    if x <= y {
      MoreWorkersFewerWaves(n, x, y);
      Times(EliminationWaves(n, y), EliminationWaves(n, x), orders);
    }
  }

  /** Waves do not decrease with the orders. */
  lemma MoreOrdersMoreWaves(n: int, singleElim: bool, w: int, few: int, many: int)
    requires few <= many
    ensures Waves(n, singleElim, w, few) <= Waves(n, singleElim, w, many)
  {
    if n >= 2 && few >= 1 {
      if singleElim {
        ProductGrows(EliminationWaves(n, AtLeastOne(w)), few, many);
      } else {
        ProductGrows(CeilDiv(n * (n - 1) / 2, AtLeastOne(w)), few, many);
      }
    }
  }

  lemma ProductGrows(a: nat, b: int, c: int)
    requires b <= c
    ensures a * b <= a * c
  {
  }

  // ----- playing it out

  /** A match: who stays and who leaves. */
  datatype Match = Match(winner: nat, loser: nat)

  /** The matches, in order, leave `left` of the `active`. */
  predicate PlayedDown(active: set<nat>, matches: seq<Match>, left: set<nat>) {
    if matches == [] then active == left
    else
      && matches[0].winner in active && matches[0].loser in active && matches[0].winner != matches[0].loser
      && PlayedDown(active - {matches[0].loser}, matches[1..], left)
  }

  /** However the matches are drawn, leaving one of n takes n - 1 of them. */
  lemma {:induction false} AnyBracketHasAllMatches(active: set<nat>, matches: seq<Match>, left: set<nat>)
    requires PlayedDown(active, matches, left)
    ensures left <= active && |matches| == |active| - |left|
  {
    if matches != [] {
      AnyBracketHasAllMatches(active - {matches[0].loser}, matches[1..], left);
    }
  }
}
