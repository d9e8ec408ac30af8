/** The scaled passes of the detector: each row is divided by its sum as it is
    computed. Scaling must not change what the numbers mean. */
module HmmScaling {
  import opened Reals
  import opened Vectors
  import opened HmmPaths
  import opened HmmForwardBackward

  /** v / c when c is positive, v otherwise: how a row is guarded against a zero scale. */
  function Shrunk(v: Vec, c: real): (w: Vec)
    ensures |w| == |v|
  {
    if c > 0.0 then seq(|v|, i requires 0 <= i < |v| => v[i] / c) else v
  }

  function Positive(c: real): real {
    if c > 0.0 then c else 1.0
  }

  lemma ShrunkScales(v: Vec, c: real)
    ensures Scaled(Positive(c), Shrunk(v, c)) == v
  {
    forall i | 0 <= i < |v|
      ensures Scaled(Positive(c), Shrunk(v, c))[i] == v[i]
    {
      if c > 0.0 {
        assert c * (v[i] / c) == v[i];
      }
    }
  }

  lemma ShrunkNonNegative(v: Vec, c: real)
    requires NonNegative(v)
    ensures NonNegative(Shrunk(v, c))
  {
    if c > 0.0 {
      forall i | 0 <= i < |v|
        ensures v[i] / c >= 0.0
      {
      }
    }
  }

  // ---- the recursions as the code runs them ----

  /** Row t of alpha before it is divided. */
  ghost function Unscaled(h: Hmm, t: nat): (v: Vec)
    requires h.Valid() && t < h.Length()
    ensures |v| == h.States()
    decreases t, 0
  {
    if t == 0 then Times(h.initial, h.emission[0])
    else Times(VecMat(Alpha(h, t - 1), h.transition, h.States()), h.emission[t])
  }

  ghost function Scale(h: Hmm, t: nat): real
    requires h.Valid() && t < h.Length()
  {
    Sum(Unscaled(h, t))
  }

  ghost function Alpha(h: Hmm, t: nat): (v: Vec)
    requires h.Valid() && t < h.Length()
    ensures |v| == h.States()
    decreases t, 1
  {
    Shrunk(Unscaled(h, t), Sum(Unscaled(h, t)))
  }

  ghost function Beta(h: Hmm, t: nat): (v: Vec)
    requires h.Valid() && t < h.Length()
    ensures |v| == h.States()
    decreases h.Length() - t
  {
    if t == h.Length() - 1 then Constant(h.States(), 1.0)
    else Shrunk(MatVec(h.transition, Times(h.emission[t + 1], Beta(h, t + 1))), Scale(h, t + 1))
  }

  lemma BetaLast(h: Hmm)
    requires h.Valid()
    ensures Beta(h, h.Length() - 1) == Constant(h.States(), 1.0)
  {
  }

  lemma BetaBefore(h: Hmm, t: nat)
    requires h.Valid() && t + 1 < h.Length()
    ensures Beta(h, t) ==
            Shrunk(MatVec(h.transition, Times(h.emission[t + 1], Beta(h, t + 1))), Scale(h, t + 1))
  {
  }

  /** The product of the scales up to time t. */
  ghost function ScaleProduct(h: Hmm, t: nat): real
    requires h.Valid() && t < h.Length()
  {
    if t == 0 then Scale(h, 0) else Mul(ScaleProduct(h, t - 1), Scale(h, t))
  }

  /** The product of the positive scales after time t. */
  ghost function TailProduct(h: Hmm, t: nat): real
    requires h.Valid() && t < h.Length()
    decreases h.Length() - t
  {
    if t == h.Length() - 1 then 1.0 else Mul(Positive(Scale(h, t + 1)), TailProduct(h, t + 1))
  }

  // ---- signs ----

  lemma TimesNonNegative(u: Vec, v: Vec)
    requires |u| == |v| && NonNegative(u) && NonNegative(v)
    ensures NonNegative(Times(u, v))
  {
  }

  lemma {:induction false} AlphaNonNegative(h: Hmm, t: nat)
    requires h.Weighted() && t < h.Length()
    ensures NonNegative(Unscaled(h, t)) && NonNegative(Alpha(h, t)) && Scale(h, t) >= 0.0
  {
    assert NonNegative(h.emission[t]);
    if t == 0 {
      TimesNonNegative(h.initial, h.emission[0]);
    } else {
      AlphaNonNegative(h, t - 1);
      VecMatNonNegative(Alpha(h, t - 1), h.transition, h.States());
      TimesNonNegative(VecMat(Alpha(h, t - 1), h.transition, h.States()), h.emission[t]);
    }
    SumNonNegative(Unscaled(h, t));
    ShrunkNonNegative(Unscaled(h, t), Scale(h, t));
  }

  lemma {:induction false} BetaNonNegative(h: Hmm, t: nat)
    requires h.Weighted() && t < h.Length()
    ensures NonNegative(Beta(h, t))
    decreases h.Length() - t
  {
    hide MatVec, Times, Shrunk, Scale;
    if t < h.Length() - 1 {
      BetaNonNegative(h, t + 1);
      assert NonNegative(h.emission[t + 1]);
      var later := Times(h.emission[t + 1], Beta(h, t + 1));
      TimesNonNegative(h.emission[t + 1], Beta(h, t + 1));
      MatVecNonNegative(h.transition, later);
      ShrunkNonNegative(MatVec(h.transition, later), Scale(h, t + 1));
    }
  }

  /** Alpha's rows sum to one, or vanish together with their scale. */
  lemma AlphaRow(h: Hmm, t: nat)
    requires h.Weighted() && t < h.Length()
    ensures Scale(h, t) > 0.0 ==> Sum(Alpha(h, t)) == 1.0
    ensures Scale(h, t) == 0.0 ==> Alpha(h, t) == Constant(h.States(), 0.0)
    ensures Scaled(Scale(h, t), Alpha(h, t)) == Unscaled(h, t)
  {
    var v, c := Unscaled(h, t), Scale(h, t);
    AlphaNonNegative(h, t);
    if c > 0.0 {
      ShrunkScales(v, c);
      SumScaled(c, Alpha(h, t));
      Cancel(c, Sum(Alpha(h, t)));
    } else {
      SumZero(v);
      forall i | 0 <= i < |v|
        ensures Scaled(c, Alpha(h, t))[i] == v[i]
      {
      }
    }
  }

  lemma ScaledTwice(a: real, b: real, v: Vec)
    ensures Scaled(a, Scaled(b, v)) == Scaled(Mul(a, b), v)
  {
    forall i | 0 <= i < |v|
      ensures Scaled(a, Scaled(b, v))[i] == Scaled(Mul(a, b), v)[i]
    {
      Reassociate(a, b, v[i]);
    }
  }

  lemma TimesScaled(c: real, u: Vec, v: Vec)
    requires |u| == |v|
    ensures Times(Scaled(c, u), v) == Scaled(c, Times(u, v))
    ensures Times(u, Scaled(c, v)) == Scaled(c, Times(u, v))
  {
    forall i | 0 <= i < |v|
      ensures Times(Scaled(c, u), v)[i] == Scaled(c, Times(u, v))[i]
      ensures Times(u, Scaled(c, v))[i] == Scaled(c, Times(u, v))[i]
    {
      Reassociate(c, u[i], v[i]);
      Swap(c, u[i], v[i]);
    }
  }

  lemma ScaledByOne(v: Vec)
    ensures Scaled(1.0, v) == v
  {
  }

  // ---- scaling changes nothing ----

  lemma {:induction false} AlphaIsForward(h: Hmm, t: nat)
    requires h.Weighted() && t < h.Length()
    ensures Scaled(ScaleProduct(h, t), Alpha(h, t)) == Forward(h, t)
  {
    hide Mul, Times, VecMat, Scaled;
    AlphaRow(h, t);
    if t > 0 {
      var c, a := ScaleProduct(h, t - 1), Alpha(h, t - 1);
      AlphaIsForward(h, t - 1);
      VecMatScaled(c, a, h.transition, h.States());
      TimesScaled(c, VecMat(a, h.transition, h.States()), h.emission[t]);
      ScaledTwice(c, Scale(h, t), Alpha(h, t));
    }
  }

  lemma {:induction false} BetaIsBackward(h: Hmm, t: nat)
    requires h.Weighted() && t < h.Length()
    ensures Scaled(TailProduct(h, t), Beta(h, t)) == Backward(h, t)
    decreases h.Length() - t
  {
    hide Mul, Scale, MatVec, Times, Scaled, Shrunk;
    if t == h.Length() - 1 {
      ScaledByOne(Constant(h.States(), 1.0));
    } else {
      var c, b := TailProduct(h, t + 1), Beta(h, t + 1);
      var k := Positive(Scale(h, t + 1));
      BetaIsBackward(h, t + 1);
      TimesScaled(c, h.emission[t + 1], b);
      MatVecScaled(c, h.transition, Times(h.emission[t + 1], b));
      ShrunkScales(MatVec(h.transition, Times(h.emission[t + 1], b)), Scale(h, t + 1));
      ScaledTwice(c, k, Beta(h, t));
      MulCommutes(c, k);
    }
  }

  /** The scaled forward pass sums over every state path: undoing the scales up to t
      gives the total weight of all the paths of length t + 1 that end in s. */
  lemma ForwardPassSumsPaths(h: Hmm, t: nat, s: nat)
    requires h.Weighted() && t < h.Length() && s < h.States()
    ensures Mul(ScaleProduct(h, t), Alpha(h, t)[s]) == MassTo(h, t, s, Anything)
  {
    hide Mul;
    AlphaIsForward(h, t);
    ForwardIsMass(h, t);
    assert Scaled(ScaleProduct(h, t), Alpha(h, t))[s] == Mul(ScaleProduct(h, t), Alpha(h, t)[s]);
  }

  /** The scales up to t multiply to the total weight of the first t + 1 observations. */
  lemma ScalesMultiplyToMass(h: Hmm, t: nat)
    requires h.Weighted() && t < h.Length()
    ensures ScaleProduct(h, t) == Sum(Forward(h, t))
    ensures ScaleProduct(h, t) == MassBelow(h, t, Anything, h.States())
  {
    AlphaIsForward(h, t);
    AlphaRow(h, t);
    AlphaNonNegative(h, t);
    SumScaled(ScaleProduct(h, t), Alpha(h, t));
    if Scale(h, t) == 0.0 {
      SumConstant(h.States(), 0.0);
      assert ScaleProduct(h, t) == 0.0;
    }
    MassBelowAll(h, t, Anything, h.States());
    ForwardIsMass(h, t);
    assert MassesAt(h, t, Anything)[..h.States()] == MassesAt(h, t, Anything);
  }

  /** The product of all scales is the likelihood: the sum over all state paths. */
  lemma ScalesMultiplyToLikelihood(h: Hmm)
    requires h.Weighted()
    ensures ScaleProduct(h, h.Length() - 1) == TotalMass(h, Anything)
  {
    ScalesMultiplyToMass(h, h.Length() - 1);
  }

  // ---- impossible observations ----

  /** A zero scale stays zero, and empties its rows. */
  lemma ZeroScaleStays(h: Hmm, t: nat)
    requires h.Weighted() && t + 1 < h.Length() && Scale(h, t) == 0.0
    ensures Scale(h, t + 1) == 0.0
  {
    AlphaRow(h, t);
    var v := VecMat(Alpha(h, t), h.transition, h.States());
    var next := Unscaled(h, t + 1);
    forall j | 0 <= j < h.States()
      ensures next[j] == 0.0
    {
      DotZero(Alpha(h, t), Column(h.transition, j));
      assert v[j] == 0.0;
    }
    assert next == Constant(h.States(), 0.0);
    SumConstant(h.States(), 0.0);
  }

  lemma {:induction false} PositiveBefore(h: Hmm, t: nat, u: nat)
    requires h.Weighted() && u <= t < h.Length() && Scale(h, t) > 0.0
    ensures Scale(h, u) > 0.0
    decreases t - u
  {
    hide Scale, Unscaled, Alpha, NonNegative;
    if u < t {
      PositiveBefore(h, t, u + 1);
      AlphaNonNegative(h, u);
      if Scale(h, u) == 0.0 {
        ZeroScaleStays(h, u);
      }
    }
  }

  lemma {:induction false} ScaleProductSign(h: Hmm, t: nat)
    requires h.Weighted() && t < h.Length()
    ensures ScaleProduct(h, t) >= 0.0
    ensures ScaleProduct(h, t) > 0.0 <==> Scale(h, t) > 0.0
  {
    hide Mul, Scale, Unscaled, Alpha, NonNegative;
    AlphaNonNegative(h, t);
    if t > 0 {
      ScaleProductSign(h, t - 1);
      MulSigns(ScaleProduct(h, t - 1), Scale(h, t));
      if Scale(h, t) > 0.0 {
        PositiveBefore(h, t, t - 1);
      }
    }
  }

  /** Some state path explains the observations exactly when no scale is zero. */
  lemma PossibleExactly(h: Hmm)
    requires h.Weighted()
    ensures TotalMass(h, Anything) >= 0.0
    ensures TotalMass(h, Anything) > 0.0 <==> forall t | 0 <= t < h.Length() :: Scale(h, t) > 0.0
  {
    var last := h.Length() - 1;
    ScalesMultiplyToLikelihood(h);
    ScaleProductSign(h, last);
    if Scale(h, last) > 0.0 {
      forall t | 0 <= t < h.Length()
        ensures Scale(h, t) > 0.0
      {
        PositiveBefore(h, last, t);
      }
    }
  }

  lemma ScalePositive(h: Hmm, t: nat)
    requires h.Weighted() && t < h.Length() && TotalMass(h, Anything) > 0.0
    ensures Scale(h, t) > 0.0
  {
    PossibleExactly(h);
  }

  // ---- what the two passes say together ----

  /** Row t of gamma: the product of the two passes. */
  ghost function Gamma(h: Hmm, t: nat): (v: Vec)
    requires h.Valid() && t < h.Length()
    ensures |v| == h.States()
  {
    Times(Alpha(h, t), Beta(h, t))
  }

  lemma ProductsMeetStep(h: Hmm, t: nat)
    requires h.Valid() && t + 1 < h.Length() && Scale(h, t + 1) > 0.0
    ensures Mul(ScaleProduct(h, t), TailProduct(h, t)) == Mul(ScaleProduct(h, t + 1), TailProduct(h, t + 1))
  {
    hide Scale, Mul;
    Reassociate(ScaleProduct(h, t), Scale(h, t + 1), TailProduct(h, t + 1));
  }

  lemma {:induction false} ProductsConstant(h: Hmm, t: nat, u: nat)
    requires h.Valid() && t <= u < h.Length()
    requires forall v | t < v <= u :: Scale(h, v) > 0.0
    ensures Mul(ScaleProduct(h, t), TailProduct(h, t)) == Mul(ScaleProduct(h, u), TailProduct(h, u))
    decreases u - t
  {
    hide Mul, Scale, ScaleProduct, TailProduct;
    if t < u {
      ProductsMeetStep(h, t);
      ProductsConstant(h, t + 1, u);
    }
  }

  lemma ProductsMeet(h: Hmm, t: nat)
    requires h.Weighted() && t < h.Length() && TotalMass(h, Anything) > 0.0
    ensures Mul(ScaleProduct(h, t), TailProduct(h, t)) == TotalMass(h, Anything)
  {
    hide TotalMass, Mul, Scale, ScaleProduct;
    var last := h.Length() - 1;
    PossibleExactly(h);
    ProductsConstant(h, t, last);
    ScalesMultiplyToLikelihood(h);
    MulOne(ScaleProduct(h, last));
  }

  lemma {:induction false} TailProductPositive(h: Hmm, t: nat)
    requires h.Valid() && t < h.Length()
    ensures TailProduct(h, t) > 0.0
    decreases h.Length() - t
  {
    hide Mul, Scale;
    if t < h.Length() - 1 {
      TailProductPositive(h, t + 1);
      MulSigns(Positive(Scale(h, t + 1)), TailProduct(h, t + 1));
    }
  }

  /** Gamma, with the scales undone, is the total weight of the paths through s at t. */
  lemma GammaIsMass(h: Hmm, t: nat, s: nat)
    requires h.Weighted() && t < h.Length() && s < h.States()
    ensures TotalMass(h, At(t, s)) == Mul(Mul(ScaleProduct(h, t), TailProduct(h, t)), Gamma(h, t)[s])
  {
    MassOfState(h, t, s);
    AlphaIsForward(h, t);
    BetaIsBackward(h, t);
    assert Forward(h, t)[s] == Mul(ScaleProduct(h, t), Alpha(h, t)[s]);
    assert Backward(h, t)[s] == Mul(TailProduct(h, t), Beta(h, t)[s]);
    ProductOfScaled(ScaleProduct(h, t), Alpha(h, t)[s], TailProduct(h, t), Beta(h, t)[s]);
  }

  lemma {:induction false} ForwardDotBackward(h: Hmm, t: nat)
    requires h.Weighted() && t < h.Length()
    ensures Mul(Mul(ScaleProduct(h, t), TailProduct(h, t)), Sum(Gamma(h, t))) == TotalMass(h, Anything)
  {
    CutGivesTotal(h, t, Anything);
    ForwardIsMass(h, t);
    AlphaIsForward(h, t);
    BetaIsBackward(h, t);
    var a, b, c, d := Alpha(h, t), Beta(h, t), ScaleProduct(h, t), TailProduct(h, t);
    DotScaled(c, a, Scaled(d, b));
    DotCommutes(a, Scaled(d, b));
    DotScaled(d, b, a);
    DotCommutes(b, a);
    DotIsSum(a, b);
    Reassociate(c, d, Sum(Gamma(h, t)));
  }

  lemma GammaNonNegative(h: Hmm, t: nat)
    requires h.Weighted() && t < h.Length()
    ensures NonNegative(Gamma(h, t))
  {
    AlphaNonNegative(h, t);
    BetaNonNegative(h, t);
    TimesNonNegative(Alpha(h, t), Beta(h, t));
  }

  /** Conservation: at every time gamma is a probability distribution, unless the
      observations are impossible, and then it is zero. */
  lemma GammaSums(h: Hmm, t: nat)
    requires h.Weighted() && t < h.Length()
    ensures NonNegative(Gamma(h, t))
    ensures Sum(Gamma(h, t)) == if TotalMass(h, Anything) > 0.0 then 1.0 else 0.0
  {
    GammaNonNegative(h, t);
    if TotalMass(h, Anything) > 0.0 {
      ProductsMeet(h, t);
      ForwardDotBackward(h, t);
      Cancel(Mul(ScaleProduct(h, t), TailProduct(h, t)), Sum(Gamma(h, t)));
    } else {
      PossibleExactly(h);
      GammaVanishes(h, t);
    }
  }

  lemma GammaVanishes(h: Hmm, t: nat)
    requires h.Weighted() && t < h.Length() && TotalMass(h, Anything) == 0.0
    ensures Sum(Gamma(h, t)) == 0.0
  {
    AlphaNonNegative(h, t);
    if Scale(h, t) > 0.0 {
      ScaleProductSign(h, t);
      TailProductPositive(h, t);
      MulSigns(ScaleProduct(h, t), TailProduct(h, t));
      ForwardDotBackward(h, t);
      ZeroFactor(Mul(ScaleProduct(h, t), TailProduct(h, t)), Sum(Gamma(h, t)));
    } else {
      AlphaRow(h, t);
      DotIsSum(Alpha(h, t), Beta(h, t));
      DotZero(Alpha(h, t), Beta(h, t));
    }
  }

  /** The smoothed posterior: the probability, over all state paths, of being in s at t. */
  lemma GammaIsPosterior(h: Hmm, t: nat, s: nat)
    requires h.Weighted() && t < h.Length() && s < h.States()
    ensures Mul(Gamma(h, t)[s], TotalMass(h, Anything)) == TotalMass(h, At(t, s))
  {
    hide TotalMass, Mul, Gamma, ScaleProduct, TailProduct, NonNegative, Scale;
    GammaIsMass(h, t, s);
    if TotalMass(h, Anything) > 0.0 {
      ProductsMeet(h, t);
      MulCommutes(Gamma(h, t)[s], TotalMass(h, Anything));
    } else {
      PossibleExactly(h);
      GammaSums(h, t);
      SumZero(Gamma(h, t));
      var c := Mul(ScaleProduct(h, t), TailProduct(h, t));
      MulCommutes(c, 0.0);
      ZeroTimes(c);
      ZeroTimes(TotalMass(h, Anything));
    }
  }
}
