/**
 What acceptance of score evidence implies: the order of the masses, the number of support
 entries, the range of the mean, the bounds of the variance (weighted Cauchy-Schwarz) and when it
 vanishes, and that the declared decimals are determined by the support.
 */
module ScoreProperties {
  import opened Basics
  import opened Ordering
  import opened Digits
  import opened CanonicalNumbers
  import opened Texts
  import opened ScoreEvidence

  // ----- masses

  /** Total probability of the alternatives whose rank is in `ranks`. */
  ghost function MassOf(alternatives: seq<Alternative>, ranks: iset<int>): real {
    if alternatives == [] then 0.0
    else
      MassOf(alternatives[..|alternatives| - 1], ranks)
      + if |alternatives| in ranks then MassAt(alternatives, |alternatives|) else 0.0
  }

  predicate Nonnegative(alternatives: seq<Alternative>) {
    forall r :: 1 <= r <= |alternatives| ==> MassAt(alternatives, r) >= 0.0
  }

  lemma FrontMass(alternatives: seq<Alternative>)
    requires alternatives != []
    ensures forall r :: r < |alternatives| ==> MassAt(alternatives[..|alternatives| - 1], r) == MassAt(alternatives, r)
    ensures Nonnegative(alternatives) ==> Nonnegative(alternatives[..|alternatives| - 1])
  {
    hide Rational;
    var front := alternatives[..|alternatives| - 1];
    if Nonnegative(alternatives) {
      forall r | 1 <= r <= |front| ensures MassAt(front, r) >= 0.0 {
        assert MassAt(alternatives, r) >= 0.0;
      }
    }
  }

  lemma {:induction false} MassOfGrows(alternatives: seq<Alternative>, some: iset<int>, more: iset<int>)
    requires Nonnegative(alternatives) && some <= more
    ensures MassOf(alternatives, some) <= MassOf(alternatives, more) <= AlternativeMass(alternatives)
  {
    hide Rational;
    if alternatives != [] {
      FrontMass(alternatives);
      MassOfGrows(alternatives[..|alternatives| - 1], some, more);
    }
  }

  lemma {:induction false} MassOfOneMore(alternatives: seq<Alternative>, ranks: iset<int>, rank: int)
    requires rank !in ranks
    ensures MassOf(alternatives, ranks + iset{rank}) == MassOf(alternatives, ranks) + MassAt(alternatives, rank)
  {
    hide Rational;
    if alternatives != [] {
      FrontMass(alternatives);
      MassOfOneMore(alternatives[..|alternatives| - 1], ranks, rank);
    }
  }

  /** The largest mass of a group is zero or the mass of one of its ranks. */
  lemma {:induction false} LargestIsAttained(alternatives: seq<Alternative>, ranks: seq<int>) returns (rank: int)
    ensures LargestMass(alternatives, ranks) == 0.0 || (rank in ranks && LargestMass(alternatives, ranks) == MassAt(alternatives, rank))
  {
    hide Rational;
    rank := 0;
    if ranks != [] {
      rank := LargestIsAttained(alternatives, ranks[..|ranks| - 1]);
      if LargestMass(alternatives, ranks) != LargestMass(alternatives, ranks[..|ranks| - 1]) {
        rank := ranks[|ranks| - 1];
      }
    }
  }

  ghost function RanksUsed(support: seq<Support>): iset<int> {
    iset r, i | 0 <= i < |support| && r in support[i].sourceRanks :: r
  }

  /** Each group counts once and no rank is shared, so the support never outweighs the ranks it uses. */
  lemma {:induction false} SupportWithinRanks(support: seq<Support>, alternatives: seq<Alternative>)
    requires EntriesOk(support, alternatives, |support|) && Nonnegative(alternatives)
    ensures Mass(support) <= MassOf(alternatives, RanksUsed(support))
  {
    hide Rational, Sort;
    if support == [] {
      MassOfGrows(alternatives, iset{}, RanksUsed(support));
      MassOfNothing(alternatives);
    } else {
      var n := |support| - 1;
      var front, s := support[..n], support[n];
      EntriesOfFront(support, alternatives);
      SupportWithinRanks(front, alternatives);
      var rank := LargestIsAttained(alternatives, s.sourceRanks);
      var used := RanksUsed(front);
      assert EntryOk(s, alternatives);
      if Rational(s.probability) == 0.0 {
        MassOfGrows(alternatives, used, RanksUsed(support));
      } else {
        assert rank !in used by {
          forall i | 0 <= i < n ensures rank !in front[i].sourceRanks {
            assert !SharesRank(support[i], support[n]);
          }
        }
        MassOfOneMore(alternatives, used, rank);
        MassOfGrows(alternatives, used + iset{rank}, RanksUsed(support));
      }
    }
  }

  lemma {:induction false} MassOfNothing(alternatives: seq<Alternative>)
    ensures MassOf(alternatives, iset{}) == 0.0
  {
    if alternatives != [] {
      MassOfNothing(alternatives[..|alternatives| - 1]);
    }
  }

  lemma EntriesOfFront(support: seq<Support>, alternatives: seq<Alternative>)
    requires support != [] && EntriesOk(support, alternatives, |support|)
    ensures var front := support[..|support| - 1];
            EntriesOk(front, alternatives, |front|) && RanksUsed(front) <= RanksUsed(support)
    ensures forall r | r in support[|support| - 1].sourceRanks :: r in RanksUsed(support)
  {
    hide EntryOk, LetterBefore, SharesRank;
    var front := support[..|support| - 1];
    forall r | r in RanksUsed(front) ensures r in RanksUsed(support) {
      var i :| 0 <= i < |front| && r in front[i].sourceRanks;
      assert r in support[i].sourceRanks;
    }
    forall i | 0 <= i < |front| ensures EntryOk(front[i], alternatives) {
      assert EntryOk(support[i], alternatives);
    }
    forall i, j | 0 <= i < j < |front| ensures LetterBefore(front[i], front[j]) && !SharesRank(front[i], front[j]) {
      assert LetterBefore(support[i], support[j]) && !SharesRank(support[i], support[j]);
    }
  }

  /** 0 < valid mass <= visible mass <= 1, and visible with unobserved mass is 1. */
  lemma MassesAreOrdered(e: Evidence)
    requires Accepted(e)
    ensures 0.0 < Rational(e.validMass) <= Rational(e.visibleMass) <= 1.0
    ensures Rational(e.visibleMass) + Rational(e.unobservedMass) == 1.0
  {
    hide Rational, Sort;
    var alternatives := e.alternatives.value;
    forall r | 1 <= r <= |alternatives| ensures MassAt(alternatives, r) >= 0.0 {
      assert AlternativeOk(alternatives[r - 1], r - 1);
    }
    SupportWithinRanks(e.support.value, alternatives);
    MassOfGrows(alternatives, RanksUsed(e.support.value), RanksUsed(e.support.value));
  }

  /** There are between 1 and 20 support entries: their letters strictly increase within A to T. */
  lemma SupportIsShort(e: Evidence)
    requires Accepted(e)
    ensures 1 <= |e.support.value| <= 20
  {
    hide Rational, Sort;
    var support, alternatives := e.support.value, e.alternatives.value;
    if |support| > 0 {
      LetterAtLeast(support, alternatives, |support| - 1);
      assert EntryOk(support[|support| - 1], alternatives);
    }
  }

  lemma {:induction false} LetterAtLeast(support: seq<Support>, alternatives: seq<Alternative>, i: nat)
    requires EntriesOk(support, alternatives, |support|) && i < |support|
    ensures ScoreLetter(support[i].letter) && support[i].letter[0] as int >= 'A' as int + i
  {
    hide Rational, Sort;
    assert EntryOk(support[i], alternatives);
    if i > 0 {
      LetterAtLeast(support, alternatives, i - 1);
      assert LetterBefore(support[i - 1], support[i]);
    }
  }

  // ----- moments

  /** Values and masses are probabilities. */
  predicate Weighted(support: seq<Support>) {
    forall i | 0 <= i < |support| :: 0.0 <= Rational(support[i].value) <= 1.0 && 0.0 <= Rational(support[i].probability)
  }

  lemma AcceptedIsWeighted(e: Evidence)
    requires Accepted(e)
    ensures Weighted(e.support.value)
  {
    hide Rational, Sort;
    var support := e.support.value;
    forall i | 0 <= i < |support|
      ensures 0.0 <= Rational(support[i].value) <= 1.0 && 0.0 <= Rational(support[i].probability)
    {
      assert EntryOk(support[i], e.alternatives.value);
    }
  }

  /** Mass-weighted squared distance of the values from `center`. */
  ghost function Deviation(support: seq<Support>, center: real): real {
    if support == [] then 0.0
    else
      var s := support[|support| - 1];
      Deviation(support[..|support| - 1], center) + Spread(Rational(s.value), Rational(s.probability), center)
  }

  /** Multiplication by name, so that proofs can treat a product as one term. */
  ghost function Product(a: real, b: real): real {
    a * b
  }

  ghost function Spread(value: real, mass: real, center: real): real {
    Product(mass, Product(value - center, value - center))
  }

  lemma SpreadExpands(x: real, m: real, c: real)
    ensures Spread(x, m, c) == x * x * m - 2.0 * c * (x * m) + c * c * m
  {
  }

  lemma SpreadSign(x: real, m: real, c: real)
    requires m >= 0.0
    ensures Spread(x, m, c) >= 0.0
    ensures Spread(x, m, c) > 0.0 <==> m > 0.0 && x != c
  {
    hide Product;
    SquareSign(x - c);
    ProductSign(m, Product(x - c, x - c));
  }

  lemma SquareSign(d: real)
    ensures Product(d, d) >= 0.0
    ensures Product(d, d) > 0.0 <==> d != 0.0
  {
    hide Product;
    if d > 0.0 {
      ProductGrows(d, d);
    } else if d < 0.0 {
      ProductShrinks(d, d);
    } else {
      TimesZero(d, d);
    }
  }

  lemma ProductSign(a: real, b: real)
    requires a >= 0.0 && b >= 0.0
    ensures Product(a, b) >= 0.0
    ensures Product(a, b) > 0.0 <==> a > 0.0 && b > 0.0
  {
    hide Product;
    if a > 0.0 && b > 0.0 {
      ProductGrows(a, b);
    } else if b == 0.0 {
      TimesZero(a, b);
    } else {
      ZeroTimes(a, b);
    }
  }

  lemma ProductGrows(a: real, b: real)
    requires a > 0.0 && b > 0.0
    ensures Product(a, b) > 0.0
  {
  }

  lemma ProductShrinks(a: real, b: real)
    requires a < 0.0 && b < 0.0
    ensures Product(a, b) > 0.0
  {
  }

  lemma ZeroTimes(a: real, b: real)
    requires a == 0.0
    ensures Product(a, b) == 0.0
  {
  }

  lemma TimesZero(a: real, b: real)
    requires b == 0.0
    ensures Product(a, b) == 0.0
  {
  }

  /** The deviation by its moments: second - 2 * c * first + c^2 * mass. */
  ghost function Expanded(second: real, first: real, mass: real, c: real): real {
    second - 2.0 * c * first + c * c * mass
  }

  lemma {:induction false} DeviationExpands(support: seq<Support>, center: real)
    ensures Deviation(support, center) == Expanded(SecondMoment(support), FirstMoment(support), Mass(support), center)
  {
    hide Rational, Spread, Expanded;
    if support == [] {
      NothingExpanded(center);
    } else {
      var s := support[|support| - 1];
      var front := support[..|support| - 1];
      DeviationExpands(front, center);
      var x, m := Rational(s.value), Rational(s.probability);
      OneMoreSpread(x, m, center, SecondMoment(front), FirstMoment(front), Mass(front));
      assert SecondMoment(support) == SecondMoment(front) + x * x * m;
      assert FirstMoment(support) == FirstMoment(front) + x * m;
    }
  }

  lemma NothingExpanded(c: real)
    ensures Expanded(0.0, 0.0, 0.0, c) == 0.0
  {
  }

  lemma OneMoreSpread(x: real, m: real, c: real, second: real, first: real, mass: real)
    ensures Expanded(second, first, mass, c) + Spread(x, m, c) == Expanded(second + x * x * m, first + x * m, mass + m, c)
  {
    SpreadExpands(x, m, c);
    Distributes(2.0 * c, first, x * m);
    Distributes(c * c, mass, m);
    hide Spread;
  }

  lemma Distributes(c: real, a: real, b: real)
    ensures c * (a + b) == c * a + c * b
  {
  }

  /** Every entry of positive mass has value `x`. */
  predicate AllMassAt(support: seq<Support>, x: real) {
    forall i | 0 <= i < |support| :: Rational(support[i].probability) > 0.0 ==> Rational(support[i].value) == x
  }

  lemma AllMassOfFront(support: seq<Support>, x: real)
    requires support != []
    ensures var s := support[|support| - 1];
            AllMassAt(support, x) <==>
            AllMassAt(support[..|support| - 1], x) && (Rational(s.probability) > 0.0 ==> Rational(s.value) == x)
    ensures Weighted(support) ==> Weighted(support[..|support| - 1])
  {
    hide Rational;
    var n := |support| - 1;
    assert forall i | 0 <= i < n :: support[..n][i] == support[i];
  }

  lemma {:induction false} DeviationSign(support: seq<Support>, center: real)
    requires Weighted(support)
    ensures Deviation(support, center) >= 0.0
    ensures Deviation(support, center) == 0.0 <==> AllMassAt(support, center)
  {
    hide Rational, Spread;
    if support != [] {
      var n := |support| - 1;
      AllMassOfFront(support, center);
      DeviationSign(support[..n], center);
      SpreadSign(Rational(support[n].value), Rational(support[n].probability), center);
      hide AllMassAt;
    }
  }

  lemma {:induction false} FirstMomentBetween(support: seq<Support>, low: real, high: real)
    requires Weighted(support)
    requires forall i | 0 <= i < |support| :: low <= Rational(support[i].value) <= high
    ensures Product(low, Mass(support)) <= FirstMoment(support) <= Product(high, Mass(support))
  {
    hide Rational, Product;
    TimesZero(low, 0.0);
    TimesZero(high, 0.0);
    if support != [] {
      var n := |support| - 1;
      var front, s := support[..n], support[n];
      assert forall i | 0 <= i < n :: front[i] == support[i];
      FirstMomentBetween(front, low, high);
      TermBetween(low, Rational(s.value), high, Rational(s.probability), Mass(front));
    }
  }

  lemma TermBetween(low: real, x: real, high: real, m: real, mass: real)
    requires low <= x <= high && m >= 0.0
    ensures Product(low, mass) + x * m >= Product(low, mass + m)
    ensures Product(high, mass) + x * m <= Product(high, mass + m)
  {
    ProductSign(m, x - low);
    ProductSign(m, high - x);
    Distributes(low, mass, m);
    Distributes(high, mass, m);
  }

  lemma {:induction false} SecondMomentBelowFirst(support: seq<Support>)
    requires Weighted(support)
    ensures SecondMoment(support) <= FirstMoment(support)
  {
    hide Rational;
    if support != [] {
      var n := |support| - 1;
      var front, s := support[..n], support[n];
      assert forall i | 0 <= i < n :: front[i] == support[i];
      SecondMomentBelowFirst(front);
      SquareBelow(Rational(s.value), Rational(s.probability));
    }
  }

  lemma SquareBelow(x: real, m: real)
    requires 0.0 <= x <= 1.0 && m >= 0.0
    ensures x * x * m <= x * m
  {
    ProductSign(x, 1.0 - x);
    ProductSign(x - x * x, m);
  }

  /** The mean of accepted evidence lies between any bounds of its support values. */
  lemma MeanLiesBetween(e: Evidence, low: real, high: real)
    requires Accepted(e)
    requires forall i | 0 <= i < |e.support.value| :: low <= Rational(e.support.value[i].value) <= high
    ensures low <= Rational(e.expectedScore) <= high
  {
    hide Rational, Sort, EntriesOk, AlternativesOk, ProvenanceOk, MomentsDeclared, Product;
    var support := e.support.value;
    AcceptedIsWeighted(e);
    MassesAreOrdered(e);
    FirstMomentBetween(support, low, high);
    DeclaredBetween(e, Mass(support), FirstMoment(support), SecondMoment(support), low, high);
  }

  lemma DeclaredBetween(e: Evidence, mass: real, first: real, second: real, low: real, high: real)
    requires MomentsDeclared(e, mass, first, second) && Rational(e.validMass) > 0.0
    requires Product(low, mass) <= first <= Product(high, mass)
    ensures low <= Rational(e.expectedScore) <= high
  {
    hide Rational, ParseDecimal;
    QuotientBetween(low, first, high, mass);
  }

  lemma QuotientTimes(a: real, m: real)
    requires m > 0.0
    ensures (a / m) * m == a
  {
  }

  lemma QuotientBetween(low: real, a: real, high: real, m: real)
    requires m > 0.0 && Product(low, m) <= a <= Product(high, m)
    ensures low <= a / m <= high
  {
    var q := a / m;
    QuotientTimes(a, m);
    if q < low { ProductGrows(low - q, m); }
    if q > high { ProductGrows(q - high, m); }
  }

  /** What the declared variance is: the mass-weighted mean of the squared distances from the mean. */
  lemma VarianceIsDeviation(e: Evidence)
    requires Accepted(e)
    ensures Mass(e.support.value) == Rational(e.validMass) > 0.0
    ensures Product(Rational(e.variance), Mass(e.support.value)) == Deviation(e.support.value, Rational(e.expectedScore))
  {
    hide Rational, Sort, Product, EntriesOk, AlternativesOk, ProvenanceOk, MomentsDeclared, Deviation, Expanded;
    MassesAreOrdered(e);
    var support := e.support.value;
    DeviationExpands(support, Rational(e.expectedScore));
    DeclaredCentered(e, Mass(support), FirstMoment(support), SecondMoment(support));
  }

  lemma DeclaredCentered(e: Evidence, mass: real, first: real, second: real)
    requires MomentsDeclared(e, mass, first, second) && Rational(e.validMass) > 0.0
    ensures mass == Rational(e.validMass)
    ensures Product(Rational(e.variance), mass) == Expanded(second, first, mass, Rational(e.expectedScore))
  {
    hide Rational, ParseDecimal, Product, Expanded;
    CenteredAtMean(first, second, mass, Rational(e.expectedScore), Rational(e.variance));
  }

  lemma CenteredAtMean(first: real, second: real, mass: real, mean: real, variance: real)
    requires mass > 0.0 && mean == first / mass && variance == second / mass - mean * mean
    ensures Product(variance, mass) == Expanded(second, first, mass, mean)
  {
    QuotientTimes(first, mass);
    QuotientTimes(second, mass);
    Centered(second / mass, mean, mass);
  }

  lemma Centered(q: real, mean: real, mass: real)
    ensures (q - mean * mean) * mass == Expanded(q * mass, mean * mass, mass, mean)
  {
  }

  /** Weighted Cauchy-Schwarz: 0 <= variance <= mean * (1 - mean) <= 1/4. */
  lemma VarianceIsBounded(e: Evidence)
    requires Accepted(e)
    ensures var mean, variance := Rational(e.expectedScore), Rational(e.variance);
            0.0 <= variance <= mean * (1.0 - mean) <= 0.25
  {
    hide Rational, Sort, EntriesOk, AlternativesOk, ProvenanceOk, Deviation, MomentsDeclared;
    var support := e.support.value;
    VarianceIsDeviation(e);
    AcceptedIsWeighted(e);
    DeviationSign(support, Rational(e.expectedScore));
    SecondMomentBelowFirst(support);
    DeclaredRange(e, Mass(support), FirstMoment(support), SecondMoment(support));
  }

  lemma DeclaredRange(e: Evidence, mass: real, first: real, second: real)
    requires MomentsDeclared(e, mass, first, second) && mass > 0.0
    requires Product(Rational(e.variance), mass) >= 0.0 && second <= first
    ensures var mean, variance := Rational(e.expectedScore), Rational(e.variance);
            0.0 <= variance <= mean * (1.0 - mean) <= 0.25
  {
    hide Rational, ParseDecimal;
    VarianceRange(first, second, mass, Rational(e.expectedScore), Rational(e.variance));
  }

  lemma VarianceRange(first: real, second: real, mass: real, mean: real, variance: real)
    requires mass > 0.0 && mean == first / mass && variance == second / mass - mean * mean
    requires Product(variance, mass) >= 0.0 && second <= first
    ensures 0.0 <= variance <= mean * (1.0 - mean) <= 0.25
  {
    if variance < 0.0 { ProductGrows(-variance, mass); }
    var q := second / mass;
    QuotientTimes(first, mass);
    QuotientTimes(second, mass);
    if q > mean { ProductGrows(q - mean, mass); }
    SquareSign(mean - 0.5);
  }

  /** All entries of positive mass have one value. */
  predicate OneMassiveValue(support: seq<Support>) {
    forall i, j | 0 <= i < |support| && 0 <= j < |support| ::
      Rational(support[i].probability) > 0.0 && Rational(support[j].probability) > 0.0
      ==> Rational(support[i].value) == Rational(support[j].value)
  }

  /** The variance vanishes exactly when all entries of positive mass have one value. */
  lemma VarianceVanishes(e: Evidence)
    requires Accepted(e)
    ensures Rational(e.variance) == 0.0 <==> OneMassiveValue(e.support.value)
  {
    hide Rational, Sort, EntriesOk, AlternativesOk, ProvenanceOk, Deviation, MomentsDeclared, Product, AllMassAt, OneMassiveValue;
    var support, mean, variance := e.support.value, Rational(e.expectedScore), Rational(e.variance);
    VarianceIsDeviation(e);
    VarianceIsNonnegative(e);
    AcceptedIsWeighted(e);
    DeviationSign(support, mean);
    ProductSign(variance, Mass(support));
    OneValueIsMean(e);
  }

  lemma VarianceIsNonnegative(e: Evidence)
    requires Accepted(e)
    ensures 0.0 <= Rational(e.variance)
  {
    hide Accepted, Rational;
    VarianceIsBounded(e);
  }

  lemma OneValueIsMean(e: Evidence)
    requires Accepted(e)
    ensures OneMassiveValue(e.support.value) <==> AllMassAt(e.support.value, Rational(e.expectedScore))
  {
    hide Rational, Sort, EntriesOk, AlternativesOk, ProvenanceOk, MomentsDeclared, Product, Mass, FirstMoment, SecondMoment;
    var support := e.support.value;
    if OneMassiveValue(support) {
      AcceptedIsWeighted(e);
      MassesAreOrdered(e);
      forall i | 0 <= i < |support| && Rational(support[i].probability) > 0.0
        ensures Rational(support[i].value) == Rational(e.expectedScore)
      {
        var x := Rational(support[i].value);
        MomentOfOneValue(support, x);
        DeclaredBetween(e, Mass(support), FirstMoment(support), SecondMoment(support), x, x);
      }
    }
  }

  lemma {:induction false} MomentOfOneValue(support: seq<Support>, x: real)
    requires Weighted(support) && AllMassAt(support, x)
    ensures FirstMoment(support) == Product(x, Mass(support))
  {
    hide Rational, Product;
    TimesZero(x, 0.0);
    if support != [] {
      var n := |support| - 1;
      var s := support[n];
      AllMassOfFront(support, x);
      MomentOfOneValue(support[..n], x);
      OneMoreOfValue(x, Mass(support[..n]), Rational(s.value), Rational(s.probability));
    }
  }

  lemma OneMoreOfValue(x: real, mass: real, value: real, m: real)
    requires m >= 0.0 && (m > 0.0 ==> value == x)
    ensures Product(x, mass) + value * m == Product(x, mass + m)
  {
    Distributes(x, mass, m);
    if m == 0.0 {
      TimesZero(value, m);
      TimesZero(x, m);
    }
  }

  /** The declared numbers are functions of the support and the alternatives, digit for digit. */
  lemma NumbersAreDetermined(e: Evidence, f: Evidence)
    requires Accepted(e) && Accepted(f) && e.support == f.support && e.alternatives == f.alternatives
    ensures e.validMass == f.validMass && e.expectedScore == f.expectedScore && e.variance == f.variance
    ensures e.visibleMass == f.visibleMass && e.unobservedMass == f.unobservedMass
  {
    hide Rational, Sort, EntriesOk, AlternativeOk, ProvenanceOk, MomentsDeclared, Mass, FirstMoment, SecondMoment, AlternativeMass;
    var support := e.support.value;
    SameMoments(e, f, Mass(support), FirstMoment(support), SecondMoment(support));
    SameNumber(e.validMass, f.validMass);
    SameNumber(e.visibleMass, f.visibleMass);
    SameNumber(e.unobservedMass, f.unobservedMass);
  }

  lemma SameMoments(e: Evidence, f: Evidence, mass: real, first: real, second: real)
    requires MomentsDeclared(e, mass, first, second) && MomentsDeclared(f, mass, first, second)
    ensures Rational(e.validMass) == Rational(f.validMass)
    ensures e.expectedScore == f.expectedScore && e.variance == f.variance
  {
    hide Rational, ParseDecimal;
    SameNumber(e.expectedScore, f.expectedScore);
    SameNumber(e.variance, f.variance);
  }

  lemma SameNumber(t: Bytes, u: Bytes)
    requires ParseDecimal(t).Some? && ParseDecimal(u).Some?
    ensures Rational(t) == Rational(u) ==> t == u
  {
    DecimalsAreUnique(t, u);
  }

  // ----- where accepted numbers come from

  /** An alternative the entry is drawn from: it stands at its rank and says the same as the entry, with no more mass. */
  predicate DrawnFrom(s: Support, a: Alternative, rank: int) {
    && a.rank == rank && a.letter == s.letter && a.value == s.value && a.sourceRanks == s.sourceRanks
    && Rational(a.probability) <= Rational(s.probability)
  }

  /**
   The value of an accepted entry is that of every alternative it names, its probability that of the
   likeliest of them, letter for letter, and its forms are their tokens.
   */
  lemma EntryIsOfAlternatives(e: Evidence, i: nat) returns (likeliest: int)
    requires Accepted(e) && i < |e.support.value|
    ensures var s, alternatives := e.support.value[i], e.alternatives.value;
            && likeliest in s.sourceRanks
            && (forall rank | rank in s.sourceRanks :: 1 <= rank <= |alternatives| && DrawnFrom(s, alternatives[rank - 1], rank))
            && alternatives[likeliest - 1].probability == s.probability
    ensures var s, alternatives := e.support.value[i], e.alternatives.value;
            multiset(s.sourceForms) == multiset(Forms(alternatives, s.sourceRanks))
  {
    hide Sort, Forms, MomentsOk, ProvenanceOk, Chosen, EntryOk, AlternativeOk, DrawnFrom;
    var s, alternatives := e.support.value[i], e.alternatives.value;
    assert EntryOk(s, alternatives);
    forall rank | rank in s.sourceRanks ensures 1 <= rank <= |alternatives| && DrawnFrom(s, alternatives[rank - 1], rank) {
      RankIsDrawn(s, alternatives, rank);
    }
    likeliest := Likeliest(s, alternatives);
    FormsAreTokens(s, alternatives);
  }

  lemma RankIsDrawn(s: Support, alternatives: seq<Alternative>, rank: int)
    requires EntryOk(s, alternatives) && rank in s.sourceRanks
    requires forall i | 0 <= i < |alternatives| :: AlternativeOk(alternatives[i], i)
    ensures 1 <= rank <= |alternatives| && DrawnFrom(s, alternatives[rank - 1], rank)
    ensures IsProbability(alternatives[rank - 1].probability) && IsProbability(s.probability)
  {
    hide Sort, Forms, Rational, IsProbability, LargestMass;
    var k :| 0 <= k < |s.sourceRanks| && s.sourceRanks[k] == rank;
    assert RankMatches(s, alternatives, s.sourceRanks[k]);
    assert AlternativeOk(alternatives[rank - 1], rank - 1);
    LargestIsLargest(alternatives, s.sourceRanks, rank);
  }

  lemma Likeliest(s: Support, alternatives: seq<Alternative>) returns (likeliest: int)
    requires EntryOk(s, alternatives)
    requires forall i | 0 <= i < |alternatives| :: AlternativeOk(alternatives[i], i)
    ensures likeliest in s.sourceRanks && 1 <= likeliest <= |alternatives| && alternatives[likeliest - 1].probability == s.probability
  {
    likeliest := LargestIsAttained(alternatives, s.sourceRanks);
    if LargestMass(alternatives, s.sourceRanks) == 0.0 {
      likeliest := s.sourceRanks[0];
    }
    hide Sort, Forms, LargestMass, AlternativeOk, RankMatches;
    RankIsDrawn(s, alternatives, likeliest);
    SameNumber(alternatives[likeliest - 1].probability, s.probability);
  }

  lemma FormsAreTokens(s: Support, alternatives: seq<Alternative>)
    requires EntryOk(s, alternatives)
    ensures multiset(s.sourceForms) == multiset(Forms(alternatives, s.sourceRanks))
  {
    hide Sort, Forms, Rational;
    SortSorts(Forms(alternatives, s.sourceRanks), Self);
  }

  lemma {:induction false} LargestIsLargest(alternatives: seq<Alternative>, ranks: seq<int>, rank: int)
    requires rank in ranks
    ensures MassAt(alternatives, rank) <= LargestMass(alternatives, ranks)
  {
    hide MassAt;
    var front := ranks[..|ranks| - 1];
    assert ranks == front + [ranks[|ranks| - 1]];
    if rank in front {
      LargestIsLargest(alternatives, front, rank);
    }
  }

  /** Exactly one alternative was chosen. */
  lemma OneIsChosen(e: Evidence) returns (k: nat)
    requires Accepted(e)
    ensures k < |e.alternatives.value| && forall i | 0 <= i < |e.alternatives.value| :: e.alternatives.value[i].chosen <==> i == k
  {
    k := OnlyChosen(e.alternatives.value);
  }

  lemma {:induction false} OnlyChosen(alternatives: seq<Alternative>) returns (k: nat)
    requires Chosen(alternatives) == 1
    ensures k < |alternatives| && forall i | 0 <= i < |alternatives| :: alternatives[i].chosen <==> i == k
  {
    var last := |alternatives| - 1;
    if alternatives[last].chosen {
      k := last;
      NoneChosen(alternatives[..last]);
    } else {
      k := OnlyChosen(alternatives[..last]);
    }
  }

  lemma {:induction false} NoneChosen(alternatives: seq<Alternative>)
    requires Chosen(alternatives) == 0
    ensures forall i | 0 <= i < |alternatives| :: !alternatives[i].chosen
  {
    if alternatives != [] {
      NoneChosen(alternatives[..|alternatives| - 1]);
    }
  }

  /** Evidence that is extracted must be exactly aligned, and other evidence need not; this is all the two fields decide. */
  lemma AlignmentDecides(e: Evidence, extracted: bool, alignmentStatus: Bytes)
    requires Accepted(e)
    ensures Accepted(e.(extracted := extracted, alignmentStatus := alignmentStatus)) <==> (extracted ==> alignmentStatus == "exact")
  {
    hide AlternativesOk, EntriesOk, MomentsDeclared, ProvenanceOk, IsProbability, Rational;
    var other := e.(extracted := extracted, alignmentStatus := alignmentStatus);
    assert AlternativesOk(other) by { SameAlternatives(e, other); }
    assert ProvenanceOk(other) by { SameProvenance(e, other); }
    assert MomentsOk(other) by { SameDeclaration(e, other); }
  }

  lemma SameAlternatives(e: Evidence, f: Evidence)
    requires e.alternatives.Some? && f.alternatives == e.alternatives && f.visibleMass == e.visibleMass && AlternativesOk(e)
    ensures AlternativesOk(f)
  {
  }

  lemma SameProvenance(e: Evidence, f: Evidence)
    requires e.degradations.Some? && e.routeLimitations.Some? && ProvenanceOk(e)
    requires f.degradations == e.degradations && f.routeLimitations == e.routeLimitations && f.requestFingerprint == e.requestFingerprint
    requires f.responseEvidenceDigest == e.responseEvidenceDigest && f.capabilityAttestationDigest == e.capabilityAttestationDigest
    requires f.requestedModel == e.requestedModel
    ensures ProvenanceOk(f)
  {
    hide ValidDigest, Identifier, SortedUniqueStrings;
  }

  lemma SameDeclaration(e: Evidence, f: Evidence)
    requires e.support.Some? && f.support == e.support && MomentsOk(e)
    requires f.validMass == e.validMass && f.expectedScore == e.expectedScore && f.variance == e.variance
    ensures MomentsOk(f)
  {
    hide Rational;
  }

  /** The letters of the scale are the first twenty. */
  lemma TwentyLetters(letter: Bytes)
    ensures ScoreLetter(letter) <==>
            |letter| == 1 && letter[0] in {'A', 'B', 'C', 'D', 'E', 'F', 'G', 'H', 'I', 'J', 'K', 'L', 'M', 'N', 'O', 'P', 'Q', 'R', 'S', 'T'}
  {
  }

  // ----- accepted evidence exists

  lemma OneAndZero()
    ensures ParseDecimal("1") == Some(Decimal(1, 0)) && Rational("1") == 1.0
    ensures ParseDecimal("0") == Some(Decimal(0, 0)) && Rational("0") == 0.0
  {
    assert DecimalText(Decimal(1, 0)) == "1";
    assert DecimalText(Decimal(0, 0)) == "0";
    DecimalParses(Decimal(1, 0));
    DecimalParses(Decimal(0, 0));
  }

  /** A verifier that is certain of one letter: its evidence is accepted, with mean 1 and variance 0. */
  lemma CertainEvidenceIsAccepted() returns (e: Evidence)
    ensures Accepted(e) && Rational(e.expectedScore) == 1.0 && Rational(e.variance) == 0.0
  {
    var a := Alternative(1, "A", "0", "1", true, "A", "1", [1]);
    var s := Support("A", "1", "1", [1], ["A"]);
    e := Evidence(SCORE_SCHEMA, "p", "t", "verifier", "exact", 1, 1, "1", "1", "0", Some([s]), Some([a]), "1", "0", true,
                  Some([]), "m", Some([]), Zeros(64), Zeros(64), "");
    OneAndZero();
    hide Rational, ParseDecimal;
    CertainHeader(e);
    CertainSums(a, s);
    CertainEntry(a, s);
    assert AlternativesOk(e);
    assert EntriesOk([s], [a], 1);
  }

  lemma CertainHeader(e: Evidence)
    requires e.schemaVersion == SCORE_SCHEMA && e.policyVersion == "p" && e.tag == "t" && e.extractionMode == "verifier"
    requires e.alignmentStatus == "exact" && e.requestedTopK == e.returnedTopK == 1 && e.support.Some?
    requires e.alternatives.Some? && |e.alternatives.value| == 1 && e.degradations == Some([]) && e.routeLimitations == Some([])
    requires e.visibleMass == "1" && e.validMass == "1" && e.unobservedMass == "0"
    requires e.requestFingerprint == e.responseEvidenceDigest == Zeros(64) && e.requestedModel == "m"
    requires e.capabilityAttestationDigest == ""
    ensures HeaderOk(e) && ProvenanceOk(e)
  {
    OneAndZero();
    hide Rational, ParseDecimal;
  }

  lemma CertainSums(a: Alternative, s: Support)
    requires a.probability == "1" && a.chosen && s.probability == "1" && s.value == "1"
    ensures AlternativeMass([a]) == 1.0 && Chosen([a]) == 1
    ensures Mass([s]) == 1.0 && FirstMoment([s]) == 1.0 && SecondMoment([s]) == 1.0
  {
    OneAndZero();
    hide Rational, ParseDecimal;
    assert [a][..0] == [] && [s][..0] == [];
  }

  lemma CertainEntry(a: Alternative, s: Support)
    requires a == Alternative(1, "A", "0", "1", true, "A", "1", [1]) && s == Support("A", "1", "1", [1], ["A"])
    ensures EntryOk(s, [a]) && AlternativeOk(a, 0)
  {
    OneAndZero();
    hide Rational, ParseDecimal;
    assert [1][..0] == [] && Forms([a], []) == [] && LargestMass([a], []) == 0.0;
    assert Forms([a], [1]) == ["A"];
    assert ["A"][1..] == [];
    assert LargestMass([a], [1]) == 1.0;
  }
}
