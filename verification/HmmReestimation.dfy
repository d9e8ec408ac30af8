/** The log-likelihood the detector reports, and one Baum-Welch re-estimation step. */
module HmmReestimation {
  import opened Reals
  import opened Vectors
  import opened HmmPaths
  import opened HmmForwardBackward
  import opened HmmScaling

  // ---- log-likelihood ----

  ghost predicate IsLogarithm(log: real -> real) {
    && log(1.0) == 0.0
    && forall x: real, y: real | x > 0.0 && y > 0.0 :: log(Mul(x, y)) == log(x) + log(y)
  }

  /** The sum of the logarithms of the positive scales before time k. */
  ghost function LogScales(h: Hmm, log: real -> real, k: nat): real
    requires h.Valid() && k <= h.Length()
  {
    if k == 0 then 0.0
    else LogScales(h, log, k - 1) + if Scale(h, k - 1) > 0.0 then log(Scale(h, k - 1)) else 0.0
  }

  /** The total weight of all the state paths of the first t + 1 observations. */
  ghost function PrefixMass(h: Hmm, t: nat): real
    requires h.Valid() && t < h.Length()
  {
    MassBelow(h, t, Anything, h.States())
  }

  /** How many of the first k observations can be explained by some state path. */
  ghost function PossiblePrefix(h: Hmm, k: nat): (m: nat)
    requires h.Valid() && k <= h.Length()
    ensures m <= k
  {
    if k == 0 then 0 else if PrefixMass(h, k - 1) > 0.0 then k else PossiblePrefix(h, k - 1)
  }

  lemma PrefixMassSign(h: Hmm, t: nat)
    requires h.Weighted() && t < h.Length()
    ensures PrefixMass(h, t) > 0.0 <==> Scale(h, t) > 0.0
    ensures PrefixMass(h, t) == ScaleProduct(h, t)
  {
    hide MassBelow;
    ScalesMultiplyToMass(h, t);
    ScaleProductSign(h, t);
  }

  /** Observations that are possible have possible prefixes. */
  lemma PrefixMassShorter(h: Hmm, t: nat)
    requires h.Weighted() && 0 < t < h.Length() && PrefixMass(h, t) > 0.0
    ensures PrefixMass(h, t - 1) > 0.0
  {
    hide PrefixMass, Scale, ScaleProduct;
    PrefixMassSign(h, t);
    PrefixMassSign(h, t - 1);
    PositiveBefore(h, t, t - 1);
  }

  /** The reported log-likelihood is the logarithm of the weight of the longest prefix
      of the observations that some state path explains. */
  lemma {:induction false} LogScalesMeaning(h: Hmm, log: real -> real, k: nat)
    requires h.Weighted() && k <= h.Length() && IsLogarithm(log)
    ensures var m := PossiblePrefix(h, k);
            LogScales(h, log, k) == if m == 0 then 0.0 else log(PrefixMass(h, m - 1))
  {
    hide PrefixMass, Scale, ScaleProduct;
    if k > 0 {
      LogScalesMeaning(h, log, k - 1);
      PrefixMassSign(h, k - 1);
      if PrefixMass(h, k - 1) > 0.0 {
        LogOfPrefix(h, log, k - 1);
      }
    }
  }

  lemma LogOfPrefix(h: Hmm, log: real -> real, t: nat)
    requires h.Weighted() && t < h.Length() && IsLogarithm(log) && PrefixMass(h, t) > 0.0
    ensures t == 0 ==> log(PrefixMass(h, t)) == log(Scale(h, t))
    ensures t > 0 ==> PrefixMass(h, t - 1) > 0.0
    ensures t > 0 ==> log(PrefixMass(h, t)) == log(PrefixMass(h, t - 1)) + log(Scale(h, t))
  {
    hide PrefixMass, Scale;
    PrefixMassSign(h, t);
    if t > 0 {
      PrefixMassShorter(h, t);
      PrefixMassSign(h, t - 1);
    }
  }

  /** It is the log-likelihood of all the observations exactly when they are possible:
      otherwise the sum over positive scales silently stops at the last possible prefix. */
  lemma LogLikelihoodExactly(h: Hmm, log: real -> real)
    requires h.Weighted() && IsLogarithm(log)
    ensures TotalMass(h, Anything) > 0.0 ==> LogScales(h, log, h.Length()) == log(TotalMass(h, Anything))
    ensures TotalMass(h, Anything) > 0.0 <==> PossiblePrefix(h, h.Length()) == h.Length()
  {
    LogScalesMeaning(h, log, h.Length());
    WholePrefix(h);
  }

  lemma WholePrefix(h: Hmm)
    requires h.Valid()
    ensures PrefixMass(h, h.Length() - 1) == TotalMass(h, Anything)
  {
    assert AllPaths(h.States(), h.Length() - 1) == PathsBelow(h.States(), h.Length() - 1, h.States());
  }

  /** Two states that never change, a certain start in the first, and a second observation that
      only the second state explains. */
  ghost const BROKEN := Hmm([1.0, 0.0], [[1.0, 0.0], [0.0, 1.0]], [[0.5, 0.5], [0.0, 1.0]])

  /** Impossible data get the log-likelihood of a prefix: here that of the first observation. */
  lemma PrefixReported(log: real -> real)
    requires IsLogarithm(log)
    ensures BROKEN.Weighted() && TotalMass(BROKEN, Anything) == 0.0
    ensures LogScales(BROKEN, log, 2) == log(0.5)
  {
    BrokenScales();
    hide Scale, TotalMass;
    NothingExplains(BROKEN);
    assert LogScales(BROKEN, log, 1) == log(0.5);
  }

  lemma BrokenScales()
    ensures Scale(BROKEN, 0) == 0.5 && Scale(BROKEN, 1) == 0.0
  {
    BrokenStart();
    var h := BROKEN;
    hide Alpha;
    var v := VecMat([1.0, 0.0], h.transition, 2);
    assert Column(h.transition, 0) == [1.0, 0.0] && Column(h.transition, 1) == [0.0, 1.0];
    PairDot(1.0, 0.0, 1.0, 0.0);
    PairDot(1.0, 0.0, 0.0, 1.0);
    assert v == [1.0, 0.0];
    assert Unscaled(h, 1) == [0.0, 0.0];
    PairSum(0.0, 0.0);
  }

  lemma BrokenStart()
    ensures Scale(BROKEN, 0) == 0.5 && Alpha(BROKEN, 0) == [1.0, 0.0]
  {
    assert Unscaled(BROKEN, 0) == [0.5, 0.0];
    PairSum(0.5, 0.0);
  }

  lemma NothingExplains(h: Hmm)
    requires h.Weighted() && Scale(h, h.Length() - 1) == 0.0
    ensures TotalMass(h, Anything) == 0.0
  {
    hide TotalMass, Scale;
    PossibleExactly(h);
  }

  // ---- xi: the expected steps ----

  /** alpha[t, s] * transition[s, r] * emission[t + 1, r] * beta[t + 1, r], for every r. */
  ghost function JointRow(h: Hmm, t: nat, s: nat): (v: Vec)
    requires h.Valid() && t + 1 < h.Length() && s < h.States()
    ensures |v| == h.States()
  {
    Scaled(Alpha(h, t)[s], Times(h.transition[s], Times(h.emission[t + 1], Beta(h, t + 1))))
  }

  ghost function RowSums(h: Hmm, t: nat): (v: Vec)
    requires h.Valid() && t + 1 < h.Length()
    ensures |v| == h.States()
  {
    seq(h.States(), s requires 0 <= s < h.States() => Sum(JointRow(h, t, s)))
  }

  ghost function JointTotal(h: Hmm, t: nat): real
    requires h.Valid() && t + 1 < h.Length()
  {
    Sum(RowSums(h, t))
  }

  ghost function Xi(h: Hmm, t: nat, s: nat): (v: Vec)
    requires h.Valid() && t + 1 < h.Length() && s < h.States()
    ensures |v| == h.States()
  {
    Shrunk(JointRow(h, t, s), JointTotal(h, t))
  }

  lemma JointNonNegative(h: Hmm, t: nat, s: nat)
    requires h.Weighted() && t + 1 < h.Length() && s < h.States()
    ensures NonNegative(JointRow(h, t, s))
  {
    hide Mul;
    AlphaNonNegative(h, t);
    BetaNonNegative(h, t + 1);
    var b := Times(h.emission[t + 1], Beta(h, t + 1));
    assert NonNegative(h.emission[t + 1]) && NonNegative(h.transition[s]);
    TimesNonNegative(h.emission[t + 1], Beta(h, t + 1));
    TimesNonNegative(h.transition[s], b);
    ScaledNonNegative(Alpha(h, t)[s], Times(h.transition[s], b));
  }

  lemma ScaledNonNegative(c: real, v: Vec)
    requires c >= 0.0 && NonNegative(v)
    ensures NonNegative(Scaled(c, v))
  {
  }

  /** Row s of xi, before normalising, sums to gamma[t, s] times what beta was divided by. */
  lemma JointRowSum(h: Hmm, t: nat, s: nat)
    requires h.Weighted() && t + 1 < h.Length() && s < h.States()
    ensures Sum(JointRow(h, t, s)) == Mul(Positive(Scale(h, t + 1)), Gamma(h, t)[s])
  {
    var b := Times(h.emission[t + 1], Beta(h, t + 1));
    var row, c := h.transition[s], Positive(Scale(h, t + 1));
    SumScaled(Alpha(h, t)[s], Times(row, b));
    DotIsSum(row, b);
    var raw := MatVec(h.transition, b);
    ShrunkScales(raw, Scale(h, t + 1));
    assert raw[s] == Mul(c, Beta(h, t)[s]);
    Swap(c, Alpha(h, t)[s], Beta(h, t)[s]);
  }

  lemma RowSumsScaled(h: Hmm, t: nat)
    requires h.Weighted() && t + 1 < h.Length()
    ensures RowSums(h, t) == Scaled(Positive(Scale(h, t + 1)), Gamma(h, t))
  {
    hide JointRow, Gamma, Scale, Mul;
    forall s | 0 <= s < h.States()
      ensures RowSums(h, t)[s] == Scaled(Positive(Scale(h, t + 1)), Gamma(h, t))[s]
    {
      JointRowSum(h, t, s);
    }
  }

  lemma JointTotalIsScale(h: Hmm, t: nat)
    requires h.Weighted() && t + 1 < h.Length() && TotalMass(h, Anything) > 0.0
    ensures JointTotal(h, t) == Scale(h, t + 1) > 0.0
  {
    hide RowSums, Gamma, Scale, TotalMass;
    ScalePositive(h, t + 1);
    RowSumsScaled(h, t);
    SumScaled(Scale(h, t + 1), Gamma(h, t));
    GammaSums(h, t);
    MulOne(Scale(h, t + 1));
  }

  /** When no state path explains the observations, xi vanishes like gamma does. */
  lemma XiVanishes(h: Hmm, t: nat, s: nat)
    requires h.Weighted() && t + 1 < h.Length() && s < h.States() && TotalMass(h, Anything) == 0.0
    ensures Gamma(h, t)[s] == 0.0
    ensures forall r | 0 <= r < h.States() :: JointRow(h, t, s)[r] == 0.0 && Xi(h, t, s)[r] == 0.0
  {
    hide Gamma, JointRow, TotalMass, Scale, NonNegative;
    GammaSums(h, t);
    SumZero(Gamma(h, t));
    JointRowSum(h, t, s);
    MulCommutes(Positive(Scale(h, t + 1)), 0.0);
    ZeroTimes(Positive(Scale(h, t + 1)));
    JointNonNegative(h, t, s);
    SumZero(JointRow(h, t, s));
  }

  /** Conservation of xi: summed over next states it gives gamma. */
  lemma XiSumsToGamma(h: Hmm, t: nat, s: nat)
    requires h.Weighted() && t + 1 < h.Length() && s < h.States()
    ensures Sum(Xi(h, t, s)) == Gamma(h, t)[s]
  {
    hide Xi, TotalMass, JointRow;
    PossibleExactly(h);
    if TotalMass(h, Anything) > 0.0 {
      XiSumsWhenPossible(h, t, s);
    } else {
      XiVanishes(h, t, s);
      assert Xi(h, t, s) == Constant(h.States(), 0.0);
      SumConstant(h.States(), 0.0);
    }
  }

  lemma XiSumsWhenPossible(h: Hmm, t: nat, s: nat)
    requires h.Weighted() && t + 1 < h.Length() && s < h.States() && TotalMass(h, Anything) > 0.0
    ensures Sum(Xi(h, t, s)) == Gamma(h, t)[s]
  {
    JointTotalIsScale(h, t);
    JointRowSum(h, t, s);
    var c := Scale(h, t + 1);
    ShrunkScales(JointRow(h, t, s), c);
    SumScaled(c, Xi(h, t, s));
    CancelFactor(c, Sum(Xi(h, t, s)), Gamma(h, t)[s]);
  }

  /** xi[t, q, r] is the probability, over all state paths, of stepping from q to r at t. */
  lemma XiIsPosterior(h: Hmm, t: nat, q: nat, r: nat)
    requires h.Weighted() && t + 1 < h.Length() && q < h.States() && r < h.States()
    ensures Mul(Xi(h, t, q)[r], TotalMass(h, Anything)) == TotalMass(h, Step(t, q, r))
  {
    hide Mul, Xi, TotalMass, JointRow;
    PossibleExactly(h);
    if TotalMass(h, Anything) > 0.0 {
      XiPosteriorWhenPossible(h, t, q, r);
    } else {
      XiVanishes(h, t, q);
      StepMassVanishes(h, t, q, r);
      ZeroTimes(TotalMass(h, Anything));
    }
  }

  lemma XiPosteriorWhenPossible(h: Hmm, t: nat, q: nat, r: nat)
    requires h.Weighted() && t + 1 < h.Length() && q < h.States() && r < h.States()
    requires TotalMass(h, Anything) > 0.0
    ensures Mul(Xi(h, t, q)[r], TotalMass(h, Anything)) == TotalMass(h, Step(t, q, r))
  {
    hide Mul;
    StepMassScaled(h, t, q, r);
    TotalScaled(h, t);
    JointEntry(h, t, q, r);
    StepAlgebra(Alpha(h, t)[q], Beta(h, t + 1)[r], ScaleProduct(h, t), TailProduct(h, t + 1),
                StepWeight(h, t + 1, q, r), Scale(h, t + 1), Xi(h, t, q)[r]);
  }

  lemma StepMassVanishes(h: Hmm, t: nat, q: nat, r: nat)
    requires h.Weighted() && t + 1 < h.Length() && q < h.States() && r < h.States()
    requires TotalMass(h, Anything) == 0.0
    ensures TotalMass(h, Step(t, q, r)) == 0.0
  {
    hide Mul, TotalMass;
    StepMassScaled(h, t, q, r);
    XiVanishes(h, t, q);
    JointRowEntry(h, t, q, r);
    ZeroStep(Alpha(h, t)[q], Beta(h, t + 1)[r], ScaleProduct(h, t), TailProduct(h, t + 1), StepWeight(h, t + 1, q, r));
  }

  lemma ZeroStep(a: real, b: real, c: real, d: real, w: real)
    requires Mul(a, Mul(w, b)) == 0.0
    ensures Mul(Mul(Mul(c, a), w), Mul(d, b)) == 0.0
  {
    assert ((c * a) * w) * (d * b) == (c * d) * (a * (w * b));
  }

  lemma StepMassScaled(h: Hmm, t: nat, q: nat, r: nat)
    requires h.Weighted() && t + 1 < h.Length() && q < h.States() && r < h.States()
    ensures TotalMass(h, Step(t, q, r)) ==
            Mul(Mul(Mul(ScaleProduct(h, t), Alpha(h, t)[q]), StepWeight(h, t + 1, q, r)),
                Mul(TailProduct(h, t + 1), Beta(h, t + 1)[r]))
  {
    hide Mul;
    MassOfStep(h, t, q, r);
    AlphaIsForward(h, t);
    BetaIsBackward(h, t + 1);
    assert Forward(h, t)[q] == Scaled(ScaleProduct(h, t), Alpha(h, t))[q];
    assert Backward(h, t + 1)[r] == Scaled(TailProduct(h, t + 1), Beta(h, t + 1))[r];
  }

  lemma TotalScaled(h: Hmm, t: nat)
    requires h.Weighted() && t + 1 < h.Length() && TotalMass(h, Anything) > 0.0
    ensures TotalMass(h, Anything) == Mul(Mul(ScaleProduct(h, t), Scale(h, t + 1)), TailProduct(h, t + 1))
  {
    hide Mul;
    ProductsMeet(h, t + 1);
  }

  lemma JointRowEntry(h: Hmm, t: nat, q: nat, r: nat)
    requires h.Valid() && t + 1 < h.Length() && q < h.States() && r < h.States()
    ensures JointRow(h, t, q)[r] == Mul(Alpha(h, t)[q], Mul(StepWeight(h, t + 1, q, r), Beta(h, t + 1)[r]))
  {
    Reassociate(h.transition[q][r], h.emission[t + 1][r], Beta(h, t + 1)[r]);
  }

  lemma JointEntry(h: Hmm, t: nat, q: nat, r: nat)
    requires h.Weighted() && t + 1 < h.Length() && q < h.States() && r < h.States()
    requires TotalMass(h, Anything) > 0.0
    ensures Mul(Scale(h, t + 1), Xi(h, t, q)[r]) ==
            Mul(Alpha(h, t)[q], Mul(StepWeight(h, t + 1, q, r), Beta(h, t + 1)[r]))
  {
    JointTotalIsScale(h, t);
    ShrunkScales(JointRow(h, t, q), Scale(h, t + 1));
    assert JointRow(h, t, q)[r] == Scaled(Scale(h, t + 1), Xi(h, t, q))[r];
    JointRowEntry(h, t, q, r);
  }

  lemma StepAlgebra(a: real, b: real, c: real, d: real, w: real, k: real, x: real)
    requires Mul(k, x) == Mul(a, Mul(w, b))
    ensures Mul(x, Mul(Mul(c, k), d)) == Mul(Mul(Mul(c, a), w), Mul(d, b))
  {
    calc {
      x * (c * k * d);
      (k * x) * (c * d);
      (a * (w * b)) * (c * d);
      ((c * a) * w) * (d * b);
    }
  }
}
