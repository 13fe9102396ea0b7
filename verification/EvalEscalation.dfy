/**
 The summary of escalated pair decisions: counters and means, updated in place batch by batch. However
 the decisions are split into batches, the summary is that of all of them together.
 */
module EvalEscalation {

  datatype PairDecision = PairDecision(calls: int, inconsistent: bool, confidence: real, minimumValidMass: real)

  datatype Counters = Counters(
    pairs: nat, escalated: nat, totalCalls: int, one: nat, two: nat, three: nat, four: nat, other: nat,
    inconsistent: nat, strengthSum: real, massSum: real)

  function One(b: bool): nat {
    if b then 1 else 0
  }

  /** The counters after one more decision. */
  function OneMore(t: Counters, d: PairDecision): Counters {
    Counters(
      t.pairs + 1, t.escalated + One(d.calls > 1), t.totalCalls + d.calls,
      t.one + One(d.calls == 1), t.two + One(d.calls == 2), t.three + One(d.calls == 3), t.four + One(d.calls == 4),
      t.other + One(d.calls < 1 || d.calls > 4), t.inconsistent + One(d.inconsistent),
      t.strengthSum + d.confidence, t.massSum + d.minimumValidMass)
  }

  /** What all these decisions come to. */
  function Tally(decisions: seq<PairDecision>): Counters {
    if decisions == [] then Counters(0, 0, 0, 0, 0, 0, 0, 0, 0, 0.0, 0.0)
    else OneMore(Tally(decisions[..|decisions| - 1]), decisions[|decisions| - 1])
  }

  lemma TallyOneMore(decisions: seq<PairDecision>, d: PairDecision)
    ensures Tally(decisions + [d]) == OneMore(Tally(decisions), d)
  {
    assert (decisions + [d])[..|decisions|] == decisions;
  }

  class EscalationSummary {
    var counters: Counters
    var meanDecisionStrength: real
    var meanMinimumValidMass: real
    /** Every decision added so far. */
    ghost var seen: seq<PairDecision>

    ghost predicate Valid()
      reads this
    {
      && counters == Tally(seen)
      && (seen != [] ==>
            && meanDecisionStrength == counters.strengthSum / |seen| as real
            && meanMinimumValidMass == counters.massSum / |seen| as real)
    }

    constructor ()
      ensures Valid() && seen == []
    {
      counters := Counters(0, 0, 0, 0, 0, 0, 0, 0, 0, 0.0, 0.0);
      meanDecisionStrength, meanMinimumValidMass := 0.0, 0.0;
      seen := [];
    }

    /** One decision, counter by counter. */
    method Count(d: PairDecision)
      requires counters == Tally(seen)
      modifies this`counters, this`seen
      ensures seen == old(seen) + [d] && counters == Tally(seen)
    {
      TallyOneMore(seen, d);
      hide Tally;
      counters := counters.(pairs := counters.pairs + 1, totalCalls := counters.totalCalls + d.calls,
        strengthSum := counters.strengthSum + d.confidence, massSum := counters.massSum + d.minimumValidMass);
      if d.calls > 1 {
        counters := counters.(escalated := counters.escalated + 1);
      }
      if d.inconsistent {
        counters := counters.(inconsistent := counters.inconsistent + 1);
      }
      if d.calls == 1 {
        counters := counters.(one := counters.one + 1);
      } else if d.calls == 2 {
        counters := counters.(two := counters.two + 1);
      } else if d.calls == 3 {
        counters := counters.(three := counters.three + 1);
      } else if d.calls == 4 {
        counters := counters.(four := counters.four + 1);
      } else {
        counters := counters.(other := counters.other + 1);
      }
      seen := seen + [d];
    }

    /** A batch that is not empty: the decisions, then the means. */
    method Add(decisions: seq<PairDecision>)
      requires Valid() && decisions != []
      modifies this
      ensures Valid() && seen == old(seen) + decisions
    {
      for i := 0 to |decisions|
        invariant counters == Tally(seen) && seen == old(seen) + decisions[..i]
      {
        Count(decisions[i]);
        assert decisions[..i + 1] == decisions[..i] + [decisions[i]];
      }
      assert decisions[..|decisions|] == decisions;
      PairsAreSeen(seen);
      meanDecisionStrength := counters.strengthSum / counters.pairs as real;
      meanMinimumValidMass := counters.massSum / counters.pairs as real;
    }
  }

  /** A summary that may not exist yet; an empty batch leaves it as it is. */
  method AddEvalEscalation(summary: EscalationSummary?, decisions: seq<PairDecision>) returns (r: EscalationSummary?)
    requires summary != null ==> summary.Valid()
    modifies summary
    ensures r == null <==> summary == null && decisions == []
    ensures r != null ==> r.Valid() && r.seen == (if summary == null then [] else old(summary.seen)) + decisions
    ensures summary != null ==> r == summary
  {
    if decisions == [] {
      return summary;
    }
    r := summary;
    if r == null {
      r := new EscalationSummary();
    }
    r.Add(decisions);
  }

  lemma {:induction false} PairsAreSeen(decisions: seq<PairDecision>)
    ensures Tally(decisions).pairs == |decisions|
  {
    if decisions != [] {
      PairsAreSeen(decisions[..|decisions| - 1]);
    }
  }

  /**
   The pairs are split by their number of calls; those escalated are the ones with more than one call,
   at least those of two, three and four.
   */
  lemma {:induction false} CountersAreConserved(decisions: seq<PairDecision>)
    ensures var t := Tally(decisions);
            && t.one + t.two + t.three + t.four + t.other == t.pairs == |decisions|
            && t.two + t.three + t.four <= t.escalated <= t.pairs - t.one && t.inconsistent <= t.pairs
  {
    if decisions != [] {
      CountersAreConserved(decisions[..|decisions| - 1]);
    }
  }

  /** When every pair takes one to four calls, the counters tell the calls. */
  lemma {:induction false} CallsAreCounted(decisions: seq<PairDecision>)
    requires forall i | 0 <= i < |decisions| :: 1 <= decisions[i].calls <= 4
    ensures var t := Tally(decisions);
            t.other == 0 && t.totalCalls == t.one + 2 * t.two + 3 * t.three + 4 * t.four
  {
    if decisions != [] {
      var n := |decisions| - 1;
      assert forall i | 0 <= i < n :: decisions[..n][i] == decisions[i];
      CallsAreCounted(decisions[..n]);
    }
  }

  /** The sums keep the range of their terms, so the means of confidences are confidences. */
  lemma {:induction false} SumsKeepRange(decisions: seq<PairDecision>)
    requires forall i | 0 <= i < |decisions| :: 0.0 <= decisions[i].confidence <= 1.0 && 0.0 <= decisions[i].minimumValidMass <= 1.0
    ensures 0.0 <= Tally(decisions).strengthSum <= |decisions| as real
    ensures 0.0 <= Tally(decisions).massSum <= |decisions| as real
  {
    if decisions != [] {
      var n := |decisions| - 1;
      assert forall i | 0 <= i < n :: decisions[..n][i] == decisions[i];
      SumsKeepRange(decisions[..n]);
    }
  }
}
