/** What one re-estimation step computes, said over all state paths: the new parameters are
    the Baum-Welch averages. */
module HmmBaumWelch {
  import opened Reals
  import opened Vectors
  import opened HmmPaths
  import opened HmmScaling
  import opened HmmReestimation
  import opened HmmParameters

  /** Total weight of all state paths that step from s to r, by time of the step. */
  ghost function StepMasses(h: Hmm, s: nat, r: nat): (v: Vec)
    requires h.Valid() && s < h.States() && r < h.States()
    ensures |v| == h.Length() - 1
  {
    seq(h.Length() - 1, t requires 0 <= t < h.Length() - 1 => TotalMass(h, Step(t, s, r)))
  }

  /** Total weight of all state paths that visit s, by time of the visit. */
  ghost function VisitMasses(h: Hmm, s: nat): (v: Vec)
    requires h.Valid() && s < h.States()
    ensures |v| == h.Length()
  {
    seq(h.Length(), t requires 0 <= t < h.Length() => TotalMass(h, At(t, s)))
  }

  lemma StepXiMass(h: Hmm, s: nat, r: nat)
    requires h.Weighted() && s < h.States() && r < h.States()
    ensures Sum(StepMasses(h, s, r)) == Mul(TotalMass(h, Anything), Sum(StepXi(h, s, r)))
  {
    hide Mul, TotalMass;
    var total := TotalMass(h, Anything);
    forall t | 0 <= t < h.Length() - 1
      ensures StepMasses(h, s, r)[t] == Scaled(total, StepXi(h, s, r))[t]
    {
      XiIsPosterior(h, t, s, r);
      MulCommutes(StepXi(h, s, r)[t], total);
    }
    assert StepMasses(h, s, r) == Scaled(total, StepXi(h, s, r));
    SumScaled(total, StepXi(h, s, r));
  }

  lemma StateGammaMass(h: Hmm, s: nat, k: nat)
    requires h.Weighted() && s < h.States() && k <= h.Length()
    ensures Sum(VisitMasses(h, s)[..k]) == Mul(TotalMass(h, Anything), Sum(StateGamma(h, s)[..k]))
  {
    hide Mul, TotalMass;
    var total := TotalMass(h, Anything);
    forall t | 0 <= t < k
      ensures VisitMasses(h, s)[t] == Scaled(total, StateGamma(h, s)[..k])[t]
    {
      GammaIsPosterior(h, t, s);
      MulCommutes(StateGamma(h, s)[t], total);
    }
    assert VisitMasses(h, s)[..k] == Scaled(total, StateGamma(h, s)[..k]);
    SumScaled(total, StateGamma(h, s)[..k]);
  }

  /** Steps out of s, whatever the next state, are visits to s before the last time. */
  lemma StepsAreVisits(h: Hmm, s: nat)
    requires h.Weighted() && s < h.States()
    ensures Sum(Steps(h, s)) == Sum(StateGamma(h, s)[..h.Length() - 1])
  {
    var n, m := h.States(), h.Length() - 1;
    var x := XiRows(h, s);
    var ones := Constant(m, 1.0);
    StepsAreColumnSums(h, s);
    DotOnes(Steps(h, s));
    Adjoint(ones, x, Constant(n, 1.0));
    XiRowSums(h, s);
    DotCommutes(ones, StateGamma(h, s)[..m]);
    DotOnes(StateGamma(h, s)[..m]);
  }

  /** xi[t, s] over time, for one state. */
  ghost function XiRows(h: Hmm, s: nat): (x: Mat)
    requires h.Valid() && s < h.States()
    ensures IsMatrix(x, h.Length() - 1, h.States())
  {
    seq(h.Length() - 1, t requires 0 <= t < h.Length() - 1 => Xi(h, t, s))
  }

  lemma StepsAreColumnSums(h: Hmm, s: nat)
    requires h.Valid() && s < h.States()
    ensures Steps(h, s) == VecMat(Constant(h.Length() - 1, 1.0), XiRows(h, s), h.States())
  {
    var ones, x := Constant(h.Length() - 1, 1.0), XiRows(h, s);
    forall r | 0 <= r < h.States()
      ensures Steps(h, s)[r] == VecMat(ones, x, h.States())[r]
    {
      assert Column(x, r) == StepXi(h, s, r);
      DotCommutes(ones, StepXi(h, s, r));
      DotOnes(StepXi(h, s, r));
    }
  }

  lemma XiRowSums(h: Hmm, s: nat)
    requires h.Weighted() && s < h.States()
    ensures MatVec(XiRows(h, s), Constant(h.States(), 1.0)) == StateGamma(h, s)[..h.Length() - 1]
  {
    var sums := MatVec(XiRows(h, s), Constant(h.States(), 1.0));
    forall t | 0 <= t < h.Length() - 1
      ensures sums[t] == StateGamma(h, s)[t]
    {
      DotOnes(Xi(h, t, s));
      XiSumsToGamma(h, t, s);
    }
  }

  // ---- transitions ----

  /** The new transition weight from s to r is the weight of all steps from s to r, as a
      share of all departures from s, over every state path. */
  lemma NewTransitionIsExpected(h: Hmm, data: Mat, d: nat, floor: real, s: nat, r: nat)
    requires h.Weighted() && |data| == h.Length() && IsData(data, d)
    requires s < h.States() && r < h.States()
    ensures var row := Reestimated(h, data, d, floor).transition[s];
            var departures := Sum(VisitMasses(h, s)[..h.Length() - 1]);
            if departures == 0.0 then row == h.transition[s]
            else Mul(departures, row[r]) == Sum(StepMasses(h, s, r))
  {
    hide TotalMass;
    var total := TotalMass(h, Anything);
    PossibleExactly(h);
    StepsAreVisits(h, s);
    StateGammaMass(h, s, h.Length() - 1);
    StepXiMass(h, s, r);
    if total > 0.0 {
      ShareOfShare(Steps(h, s)[r], Sum(Steps(h, s)), total);
    } else {
      ImpossibleVisits(h, s, h.Length() - 1);
    }
  }

  /** Impossible observations visit no state. */
  lemma ImpossibleVisits(h: Hmm, s: nat, k: nat)
    requires h.Weighted() && s < h.States() && k <= h.Length() && TotalMass(h, Anything) == 0.0
    ensures Sum(StateGamma(h, s)[..k]) == 0.0 && Sum(VisitMasses(h, s)[..k]) == 0.0
  {
    hide TotalMass, Gamma, VisitMasses;
    forall t | 0 <= t < k
      ensures Gamma(h, t)[s] == 0.0
    {
      GammaImpossible(h, t, s);
    }
    assert StateGamma(h, s)[..k] == Constant(k, 0.0);
    SumConstant(k, 0.0);
    StateGammaMass(h, s, k);
    ZeroTimes(Sum(StateGamma(h, s)[..k]));
  }

  lemma GammaImpossible(h: Hmm, t: nat, s: nat)
    requires h.Weighted() && t < h.Length() && s < h.States() && TotalMass(h, Anything) == 0.0
    ensures Gamma(h, t)[s] == 0.0
  {
    hide TotalMass, Gamma;
    GammaSums(h, t);
    SumZero(Gamma(h, t));
  }

  lemma ShareOfShare(x: real, c: real, total: real)
    requires total > 0.0
    ensures Mul(total, c) == 0.0 <==> c == 0.0
    ensures c != 0.0 ==> Mul(Mul(total, c), x / c) == Mul(total, x)
  {
    if c != 0.0 {
      ShareOfVisits(x, c, total);
    }
  }

  lemma ShareOfVisits(x: real, v: real, total: real)
    requires v != 0.0
    ensures Mul(Mul(total, v), x / v) == Mul(total, x)
  {
    assert v * (x / v) == x;
    assert (total * v) * (x / v) == total * (v * (x / v));
  }

  // ---- means and variances ----

  /** Averaging with gamma is averaging over the visits to s of all state paths. */
  lemma WeightedByVisits(h: Hmm, s: nat, x: Vec)
    requires h.Weighted() && s < h.States() && |x| == h.Length()
    ensures Sum(VisitMasses(h, s)) == Mul(TotalMass(h, Anything), Visits(h, s))
    ensures Dot(VisitMasses(h, s), x) == Mul(TotalMass(h, Anything), Dot(StateGamma(h, s), x))
  {
    hide TotalMass, Mul;
    var total, n := TotalMass(h, Anything), h.Length();
    StateGammaMass(h, s, n);
    assert StateGamma(h, s)[..n] == StateGamma(h, s) && VisitMasses(h, s)[..n] == VisitMasses(h, s);
    VisitsScaled(h, s);
    DotScaled(total, StateGamma(h, s), x);
  }

  lemma VisitsScaled(h: Hmm, s: nat)
    requires h.Weighted() && s < h.States()
    ensures VisitMasses(h, s) == Scaled(TotalMass(h, Anything), StateGamma(h, s))
  {
    hide Mul, TotalMass;
    forall t | 0 <= t < h.Length()
      ensures VisitMasses(h, s)[t] == Scaled(TotalMass(h, Anything), StateGamma(h, s))[t]
    {
      GammaIsPosterior(h, t, s);
      MulCommutes(StateGamma(h, s)[t], TotalMass(h, Anything));
    }
  }

  /** An average by gamma, times the weight of the visits, is the sum over the visits. */
  lemma AverageOverVisits(h: Hmm, s: nat, x: Vec)
    requires h.Weighted() && s < h.States() && |x| == h.Length()
    ensures Mul(Sum(VisitMasses(h, s)), Dot(StateGamma(h, s), x) / Positive(Visits(h, s))) == Dot(VisitMasses(h, s), x)
  {
    hide TotalMass, StateGamma, VisitMasses, NonNegative, Mul;
    var total, v, dot := TotalMass(h, Anything), Visits(h, s), Dot(StateGamma(h, s), x);
    WeightedByVisits(h, s, x);
    StateGammaNonNegative(h, s);
    if v > 0.0 {
      ShareOfVisits(dot, v, total);
    } else {
      SumZero(StateGamma(h, s));
      DotZero(StateGamma(h, s), x);
      MulCommutes(total, 0.0);
      ZeroTimes(total);
      ZeroTimes(0.0);
    }
  }

  /** The new mean of s is the average of the data over all visits to s, by path weight. */
  lemma NewMeanIsExpected(h: Hmm, data: Mat, d: nat, floor: real, s: nat, j: nat)
    requires h.Weighted() && |data| == h.Length() && IsData(data, d) && s < h.States() && j < d
    ensures Mul(Sum(VisitMasses(h, s)), Reestimated(h, data, d, floor).means[s][j]) ==
            Dot(VisitMasses(h, s), Column(data, j))
  {
    AverageOverVisits(h, s, Column(data, j));
  }

  /** The new variance of s is the average square of the distance to the new mean over all
      visits to s, or the floor when that is greater. */
  lemma NewVarianceIsExpected(h: Hmm, data: Mat, d: nat, floor: real, s: nat, j: nat) returns (average: real)
    requires h.Weighted() && |data| == h.Length() && IsData(data, d) && s < h.States() && j < d
    ensures var p := Reestimated(h, data, d, floor);
            && p.variances[s][j] == Max(average, floor)
            && Mul(Sum(VisitMasses(h, s)), average) ==
               Dot(VisitMasses(h, s), SquaresAround(Column(data, j), p.means[s][j]))
            && (Sum(VisitMasses(h, s)) == 0.0 ==> average == 0.0)
  {
    hide TotalMass, StateGamma, VisitMasses, NonNegative;
    var squares := SquaresAround(Column(data, j), NewMean(h, data, s, j));
    average := Dot(StateGamma(h, s), squares) / Positive(Visits(h, s));
    AverageOverVisits(h, s, squares);
    if Sum(VisitMasses(h, s)) == 0.0 {
      UnvisitedAverage(h, s, squares);
      assert average == 0.0;
    }
  }

  lemma UnvisitedAverage(h: Hmm, s: nat, x: Vec)
    requires h.Weighted() && s < h.States() && |x| == h.Length() && Sum(VisitMasses(h, s)) == 0.0
    ensures Dot(StateGamma(h, s), x) == 0.0
  {
    hide TotalMass, VisitMasses, StateGamma, NonNegative;
    VisitsVanish(h, s);
    StateGammaNonNegative(h, s);
    SumZero(StateGamma(h, s));
    DotZero(StateGamma(h, s), x);
  }

  lemma VisitsVanish(h: Hmm, s: nat)
    requires h.Weighted() && s < h.States() && Sum(VisitMasses(h, s)) == 0.0
    ensures Visits(h, s) == 0.0
  {
    hide TotalMass, VisitMasses, StateGamma, Mul;
    VisitMassTotal(h, s);
    PossibleExactly(h);
    if TotalMass(h, Anything) > 0.0 {
      ZeroFactor(TotalMass(h, Anything), Visits(h, s));
    } else {
      ImpossibleVisits(h, s, h.Length());
      assert StateGamma(h, s)[..h.Length()] == StateGamma(h, s);
    }
  }

  // ---- the start ----

  /** The new initial weight of s is the share of its visits made at time 0. That is the
      posterior probability of starting in s exactly when s is never a start, or is
      visited once in expectation. */
  lemma NewInitialIsShare(h: Hmm, data: Mat, d: nat, floor: real, s: nat)
    requires h.Weighted() && |data| == h.Length() && IsData(data, d) && s < h.States()
    ensures var w := Reestimated(h, data, d, floor).initial[s];
            && Mul(Sum(VisitMasses(h, s)), w) == TotalMass(h, At(0, s))
            && (w == Gamma(h, 0)[s] <==> Gamma(h, 0)[s] == 0.0 || Visits(h, s) == 1.0)
  {
    hide TotalMass, Gamma, StateGamma, Visits, VisitMasses, NonNegative, Mul;
    var total, g, v := TotalMass(h, Anything), Gamma(h, 0)[s], Visits(h, s);
    StateGammaNonNegative(h, s);
    VisitMassTotal(h, s);
    GammaIsPosterior(h, 0, s);
    MulCommutes(g, total);
    if v > 0.0 {
      ShareOfVisits(g, v, total);
      ShareCompared(g, v);
    } else {
      assert g / Positive(v) == 0.0;
      MulCommutes(total, 0.0);
      ZeroTimes(total);
      ZeroTimes(0.0);
    }
  }

  lemma VisitMassTotal(h: Hmm, s: nat)
    requires h.Weighted() && s < h.States()
    ensures Sum(VisitMasses(h, s)) == Mul(TotalMass(h, Anything), Visits(h, s))
  {
    StateGammaMass(h, s, h.Length());
    assert StateGamma(h, s)[..h.Length()] == StateGamma(h, s);
    assert VisitMasses(h, s)[..h.Length()] == VisitMasses(h, s);
  }

  lemma ShareCompared(g: real, v: real)
    requires 0.0 <= g <= v && v > 0.0
    ensures g / v == g <==> g == 0.0 || v == 1.0
    ensures v >= 1.0 ==> g / v <= g
    ensures v <= 1.0 ==> g / v >= g
  {
    var q := g / v;
    assert q * v == g && q >= 0.0;
    if q == g && g != 0.0 {
      Cancel(g, v);
    }
    if v >= 1.0 {
      ProductBetween(q, 1.0, v, v);
    } else {
      ProductBetween(q, v, v, 1.0);
    }
  }

  /** The sum of the new initial weights against 1, where the states that can start agree on
      the side of one expected visit they are on: it is 1 exactly when each of them is
      visited once in expectation. Impossible observations give weights that sum to 0. */
  lemma NewInitialSum(h: Hmm, data: Mat, d: nat, floor: real)
    requires h.Weighted() && |data| == h.Length() && IsData(data, d)
    ensures var sum := Sum(Reestimated(h, data, d, floor).initial);
            && (TotalMass(h, Anything) == 0.0 ==> sum == 0.0)
            && (TotalMass(h, Anything) > 0.0 && (StartsVisited(h, 1) || StartsVisited(h, -1)) ==>
                  (sum == 1.0 <==> StartsVisited(h, 0)))
            && (TotalMass(h, Anything) > 0.0 && StartsVisited(h, 1) ==> sum <= 1.0)
            && (TotalMass(h, Anything) > 0.0 && StartsVisited(h, -1) ==> sum >= 1.0)
  {
    hide TotalMass, Gamma, Visits;
    var initial, start := Reestimated(h, data, d, floor).initial, Gamma(h, 0);
    GammaSums(h, 0);
    forall s | 0 <= s < h.States()
      ensures StartCompared(initial[s], start[s], Visits(h, s))
    {
      NewStartCompared(h, data, d, floor, s);
    }
    if TotalMass(h, Anything) > 0.0 {
      if StartsVisited(h, 1) {
        SumCompared(initial, start);
      }
      if StartsVisited(h, -1) {
        SumCompared(start, initial);
      }
    } else {
      PossibleExactly(h);
      SumZero(start);
      assert initial == Constant(h.States(), 0.0);
      SumConstant(h.States(), 0.0);
    }
  }

  /** How a new initial weight stands to the posterior start g, with v expected visits. */
  ghost predicate StartCompared(w: real, g: real, v: real) {
    && 0.0 <= g <= v
    && (w == g <==> g == 0.0 || v == 1.0)
    && (g == 0.0 || v >= 1.0 ==> w <= g)
    && (g == 0.0 || v <= 1.0 ==> w >= g)
    && (g == 0.0 ==> w == 0.0)
  }

  lemma NewStartCompared(h: Hmm, data: Mat, d: nat, floor: real, s: nat)
    requires h.Weighted() && |data| == h.Length() && IsData(data, d) && s < h.States()
    ensures StartCompared(Reestimated(h, data, d, floor).initial[s], Gamma(h, 0)[s], Visits(h, s))
  {
    hide Gamma, Visits, StateGamma;
    StateGammaNonNegative(h, s);
    if Visits(h, s) > 0.0 {
      ShareCompared(Gamma(h, 0)[s], Visits(h, s));
    }
  }

  /** Every state that can start is visited once in expectation (side 0), at least once
      (side 1) or at most once (side -1). */
  ghost predicate StartsVisited(h: Hmm, side: int)
    requires h.Valid()
  {
    forall s | 0 <= s < h.States() && Gamma(h, 0)[s] > 0.0 ::
      && (side >= 0 ==> Visits(h, s) >= 1.0)
      && (side <= 0 ==> Visits(h, s) <= 1.0)
  }

  lemma {:induction false} SumCompared(u: Vec, v: Vec)
    requires |u| == |v| && forall i | 0 <= i < |u| :: u[i] <= v[i]
    ensures Sum(u) <= Sum(v)
    ensures Sum(u) == Sum(v) <==> forall i | 0 <= i < |u| :: u[i] == v[i]
  {
    if u != [] {
      var m := |u| - 1;
      SumCompared(u[..m], v[..m]);
      assert forall i | 0 <= i < m :: u[..m][i] == u[i] && v[..m][i] == v[i];
    }
  }

  /** The expected visits to all states together are one for every observation. */
  lemma VisitsTotal(h: Hmm)
    requires h.Weighted() && TotalMass(h, Anything) > 0.0
    ensures Sum(AllVisits(h)) == h.Length() as real
  {
    hide TotalMass, Gamma;
    var n, m, g := h.States(), h.Length(), GammaRows(h);
    var ones := Constant(m, 1.0);
    forall s | 0 <= s < n
      ensures AllVisits(h)[s] == VecMat(ones, g, n)[s]
    {
      assert Column(g, s) == StateGamma(h, s);
      DotCommutes(ones, StateGamma(h, s));
      DotOnes(StateGamma(h, s));
    }
    assert AllVisits(h) == VecMat(ones, g, n);
    DotOnes(AllVisits(h));
    Adjoint(ones, g, Constant(n, 1.0));
    forall t | 0 <= t < m
      ensures MatVec(g, Constant(n, 1.0))[t] == 1.0
    {
      DotOnes(g[t]);
      GammaSums(h, t);
    }
    assert MatVec(g, Constant(n, 1.0)) == ones;
    DotOnes(ones);
    SumConstant(m, 1.0);
    MulOne(m as real);
  }

  ghost function AllVisits(h: Hmm): (v: Vec)
    requires h.Valid()
    ensures |v| == h.States()
  {
    seq(h.States(), s requires 0 <= s < h.States() => Visits(h, s))
  }

  ghost function GammaRows(h: Hmm): (g: Mat)
    requires h.Valid()
    ensures IsMatrix(g, h.Length(), h.States())
  {
    seq(h.Length(), t requires 0 <= t < h.Length() => Gamma(h, t))
  }

  /** With more observations than states, any of which can start, the start does not stay a
      distribution unless some state is visited less than once in expectation. */
  lemma LongDataShrinksStart(h: Hmm, data: Mat, d: nat, floor: real)
    requires h.Weighted() && |data| == h.Length() && IsData(data, d) && TotalMass(h, Anything) > 0.0
    requires h.Length() > h.States()
    requires forall s | 0 <= s < h.States() :: Gamma(h, 0)[s] > 0.0 && Visits(h, s) >= 1.0
    ensures Sum(Reestimated(h, data, d, floor).initial) < 1.0
  {
    hide TotalMass, Gamma, Visits;
    NewInitialSum(h, data, d, floor);
    if StartsVisited(h, 0) {
      VisitsTotal(h);
      assert AllVisits(h) == Constant(h.States(), 1.0);
      SumConstant(h.States(), 1.0);
      MulOne(h.States() as real);
    }
  }

  /** When the posterior never changes and no state is ruled out, every new initial weight is one
      over the number of observations, however uneven the visits: so the weights sum to 1
      exactly when there are as many observations as states. */
  lemma UnchangingPosterior(h: Hmm, data: Mat, d: nat, floor: real)
    requires h.Weighted() && |data| == h.Length() && IsData(data, d)
    requires forall t | 0 <= t < h.Length() :: Gamma(h, t) == Gamma(h, 0)
    requires forall s | 0 <= s < h.States() :: Gamma(h, 0)[s] > 0.0
    ensures var sum := Sum(Reestimated(h, data, d, floor).initial);
            && Mul(h.Length() as real, sum) == h.States() as real
            && (sum == 1.0 <==> h.States() == h.Length())
  {
    hide Gamma, Mul, StateGamma, Visits, TotalMass;
    var m, n := h.Length() as real, h.States() as real;
    var initial := Reestimated(h, data, d, floor).initial;
    forall s | 0 <= s < h.States()
      ensures initial[s] == 1.0 / m
    {
      UnchangingVisits(h, s);
      EvenShare(m, Gamma(h, 0)[s]);
    }
    assert initial == Constant(h.States(), 1.0 / m);
    ConstantSum(h.States(), 1.0 / m);
    QuotientScaled(m, n);
  }

  lemma UnchangingVisits(h: Hmm, s: nat)
    requires h.Valid() && s < h.States() && forall t | 0 <= t < h.Length() :: Gamma(h, t) == Gamma(h, 0)
    ensures Visits(h, s) == Mul(h.Length() as real, Gamma(h, 0)[s])
  {
    hide Gamma;
    var g := Gamma(h, 0)[s];
    assert StateGamma(h, s) == Constant(h.Length(), g);
    ConstantSum(h.Length(), g);
  }

  lemma ConstantSum(n: nat, c: real)
    ensures Sum(Constant(n, c)) == Mul(n as real, c)
  {
    SumConstant(n, c);
  }

  lemma EvenShare(m: real, g: real)
    requires m > 0.0 && g > 0.0
    ensures Mul(m, g) > 0.0 && g / Mul(m, g) == 1.0 / m
  {
    MulSigns(m, g);
    var p := Mul(m, g);
    var q := g / p;
    assert q * p == g;
    Swap(m, q, g);
    MulCommutes(q, g);
    Reassociate(m, q, g);
    MulCommutes(Mul(m, q), g);
    MulOne(g);
    CancelFactor(g, Mul(m, q), 1.0);
    assert m * q == 1.0;
  }

  lemma QuotientScaled(m: real, n: real)
    requires m > 0.0
    ensures Mul(m, Mul(n, 1.0 / m)) == n
    ensures Mul(n, 1.0 / m) == 1.0 <==> n == m
  {
    assert m * (1.0 / m) == 1.0;
    assert m * (n * (1.0 / m)) == n * (m * (1.0 / m));
    assert n * (1.0 / m) == n / m;
  }

  /** Two states with a bias to stay, a uniform start, and three observations that move from
      where the first state is likelier to where the second is. */
  ghost const RISING := Hmm([0.5, 0.5], [[0.9, 0.1], [0.1, 0.9]], [[1.0, 0.5], [1.0, 1.0], [0.5, 1.0]])

  /** A start distribution need not survive a step: here its weights add up to two thirds. */
  lemma NewInitialNotADistribution()
    ensures RISING.Weighted() && Sum(RISING.initial) == 1.0
    ensures Sum(Reestimated(RISING, [[0.0], [0.5], [1.0]], 1, 0.0).initial) * 3.0 == 2.0
  {
    hide Gamma, StateGamma, Visits;
    RisingVisits();
    PairSum(0.5, 0.5);
    var a, b := 1.18 / 2.09, 0.91 / 2.09;
    assert Reestimated(RISING, [[0.0], [0.5], [1.0]], 1, 0.0).initial == [a / 1.5, b / 1.5];
    PairSum(a / 1.5, b / 1.5);
  }

  lemma RisingVisits()
    ensures Gamma(RISING, 0) == [1.18 / 2.09, 0.91 / 2.09]
    ensures Visits(RISING, 0) == 1.5 && Visits(RISING, 1) == 1.5
  {
    RisingGamma();
    hide Gamma;
    var h := RISING;
    var a, b := 1.18 / 2.09, 0.91 / 2.09;
    assert StateGamma(h, 0) == [a, 0.5, b] && StateGamma(h, 1) == [b, 0.5, a];
    SumOfThree(a, 0.5, b);
    SumOfThree(b, 0.5, a);
  }

  lemma RisingGamma()
    ensures Gamma(RISING, 0) == [1.18 / 2.09, 0.91 / 2.09]
    ensures Gamma(RISING, 1) == [0.5, 0.5]
    ensures Gamma(RISING, 2) == [0.91 / 2.09, 1.18 / 2.09]
  {
    RisingForward();
    RisingBackward();
    hide Alpha, Beta;
  }

  lemma SumOfThree(x: real, y: real, z: real)
    ensures Sum([x, y, z]) == x + y + z
  {
    assert [x, y, z][..2] == [x, y];
    PairSum(x, y);
  }

  /** One step of either pass with the transition matrix of RISING, which is symmetric. */
  lemma RisingStep(v: Vec)
    requires |v| == 2
    ensures VecMat(v, RISING.transition, 2) == [0.9 * v[0] + 0.1 * v[1], 0.1 * v[0] + 0.9 * v[1]]
    ensures MatVec(RISING.transition, v) == [0.9 * v[0] + 0.1 * v[1], 0.1 * v[0] + 0.9 * v[1]]
  {
    var x, y, a := v[0], v[1], RISING.transition;
    assert v == [x, y];
    assert Column(a, 0) == [0.9, 0.1] && Column(a, 1) == [0.1, 0.9];
    PairDot(x, y, 0.9, 0.1);
    PairDot(x, y, 0.1, 0.9);
    PairDot(0.9, 0.1, x, y);
    PairDot(0.1, 0.9, x, y);
  }

  lemma RisingForward()
    ensures Alpha(RISING, 0) == [2.0 / 3.0, 1.0 / 3.0]
    ensures Alpha(RISING, 1) == [1.9 / 3.0, 1.1 / 3.0] && Scale(RISING, 1) == 1.0
    ensures Alpha(RISING, 2) == [0.91 / 2.09, 1.18 / 2.09] && Scale(RISING, 2) == 2.09 / 3.0
  {
    var h := RISING;
    assert Unscaled(h, 0) == [0.5, 0.25];
    PairSum(0.5, 0.25);
    assert Alpha(h, 0) == [2.0 / 3.0, 1.0 / 3.0];
    RisingStep(Alpha(h, 0));
    assert Unscaled(h, 1) == [1.9 / 3.0, 1.1 / 3.0];
    PairSum(1.9 / 3.0, 1.1 / 3.0);
    assert Alpha(h, 1) == [1.9 / 3.0, 1.1 / 3.0];
    RisingStep(Alpha(h, 1));
    assert Unscaled(h, 2) == [0.91 / 3.0, 1.18 / 3.0];
    PairSum(0.91 / 3.0, 1.18 / 3.0);
  }

  lemma RisingBackward()
    ensures Beta(RISING, 2) == [1.0, 1.0]
    ensures Beta(RISING, 1) == [1.65 / 2.09, 2.85 / 2.09]
    ensures Beta(RISING, 0) == [1.77 / 2.09, 2.73 / 2.09]
  {
    RisingForward();
    hide Scale;
    var h := RISING;
    RisingLater();
    var b := Beta(h, 1);
    assert Times(h.emission[1], b) == b;
    RisingStep(b);
    BetaBefore(h, 0);
  }

  lemma RisingLater()
    ensures Beta(RISING, 2) == [1.0, 1.0]
    ensures Beta(RISING, 1) == [1.65 / 2.09, 2.85 / 2.09]
  {
    RisingForward();
    hide Scale;
    var h := RISING;
    assert Beta(h, 2) == [1.0, 1.0];
    assert Times(h.emission[2], Beta(h, 2)) == [0.5, 1.0];
    RisingStep([0.5, 1.0]);
    BetaBefore(h, 1);
  }
}
