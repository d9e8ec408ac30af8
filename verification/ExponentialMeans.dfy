/** Exponentially weighted means: they read no later entry and stay within their input. */
module ExponentialMeans {
  import opened Reals
  import opened Wrappers
  import opened Columns

  /** The running state of an exponentially weighted mean: the mean so far, the weight
      it carries into the next entry, and how many entries were defined. */
  datatype Ewm = Ewm(mean: Option<real>, weight: real, count: nat)

  /** One entry more: a gap lets the old weight decay, a value resets it. */
  function EwmStep(e: Ewm, x: Option<real>, alpha: real): (r: Ewm)
    requires 0.0 < alpha <= 1.0 && e.weight >= 0.0
    ensures r.weight >= 0.0
  {
    var count := if x.Some? then e.count + 1 else e.count;
    if e.mean == None then Ewm(x, e.weight, count)
    else
      var kept := Decayed(e.weight, alpha);
      if x == None then Ewm(e.mean, kept, count)
      else if e.mean == x then Ewm(e.mean, 1.0, count)
      else Ewm(Some(Blend(kept, e.mean.value, alpha, x.value)), 1.0, count)
  }

  /** The mean of x and y with weights w and a. */
  function Blend(w: real, x: real, a: real, y: real): real
    requires w >= 0.0 && a > 0.0
  {
    (Mul(w, x) + Mul(a, y)) / (w + a)
  }

  function Decayed(weight: real, alpha: real): (r: real)
    requires 0.0 < alpha <= 1.0 && weight >= 0.0
    ensures r >= 0.0
  {
    weight * (1.0 - alpha)
  }

  function EwmAt(xs: Column, alpha: real, i: nat): (e: Ewm)
    requires 0.0 < alpha <= 1.0 && i < |xs|
    ensures e.weight >= 0.0
  {
    if i == 0 then Ewm(xs[0], 1.0, if xs[0].Some? then 1 else 0)
    else EwmStep(EwmAt(xs, alpha, i - 1), xs[i], alpha)
  }

  /** Defined once minPeriods entries have been. */
  function EwmMean(xs: Column, alpha: real, minPeriods: nat): (c: Column)
    requires 0.0 < alpha <= 1.0
    ensures |c| == |xs|
  {
    seq(|xs|, i requires 0 <= i < |xs| =>
      if EwmAt(xs, alpha, i).count >= minPeriods then EwmAt(xs, alpha, i).mean else None)
  }

  lemma {:induction false} EwmAtAgree(xs: Column, ys: Column, alpha: real, k: nat, i: nat)
    requires 0.0 < alpha <= 1.0 && AgreeTo(xs, ys, k) && i < k
    ensures EwmAt(xs, alpha, i) == EwmAt(ys, alpha, i)
  {
    AgreeAt(xs, ys, k, i);
    if i > 0 {
      EwmAtAgree(xs, ys, alpha, k, i - 1);
    }
  }

  lemma EwmMeanAgree(xs: Column, ys: Column, alpha: real, minPeriods: nat, k: nat)
    requires 0.0 < alpha <= 1.0 && AgreeTo(xs, ys, k)
    ensures AgreeTo(EwmMean(xs, alpha, minPeriods), EwmMean(ys, alpha, minPeriods), k)
  {
    forall i | 0 <= i < k
      ensures EwmMean(xs, alpha, minPeriods)[i] == EwmMean(ys, alpha, minPeriods)[i]
    {
      EwmAtAgree(xs, ys, alpha, k, i);
    }
  }

  /** A mix of two values with non-negative weights lies between their bounds. */
  lemma BlendWithin(w: real, x: real, a: real, y: real, lo: real, hi: real)
    requires w >= 0.0 && a > 0.0 && lo <= x <= hi && lo <= y <= hi
    ensures lo <= Blend(w, x, a, y) <= hi
  {
    hide Mul;
    ProductBetween(w, lo, x, hi);
    ProductBetween(a, lo, y, hi);
    Distribute(w, a, lo);
    Distribute(w, a, hi);
    QuotientBetween(w + a, lo, Mul(w, x) + Mul(a, y), hi);
  }

  lemma {:induction false} EwmAtWithin(xs: Column, alpha: real, i: nat, lo: real, hi: real)
    requires 0.0 < alpha <= 1.0 && i < |xs| && Within(xs, lo, hi)
    ensures var m := EwmAt(xs, alpha, i).mean; m.Some? ==> lo <= m.value <= hi
  {
    hide Blend, Decayed;
    if i > 0 {
      var e := EwmAt(xs, alpha, i - 1);
      EwmAtWithin(xs, alpha, i - 1, lo, hi);
      if e.mean.Some? && xs[i].Some? {
        BlendWithin(Decayed(e.weight, alpha), e.mean.value, alpha, xs[i].value, lo, hi);
      }
    }
  }

  /** A weighted mean stays within any bounds of its input. */
  lemma EwmMeanWithin(xs: Column, alpha: real, minPeriods: nat, lo: real, hi: real)
    requires 0.0 < alpha <= 1.0 && Within(xs, lo, hi)
    ensures Within(EwmMean(xs, alpha, minPeriods), lo, hi)
  {
    forall i | 0 <= i < |xs|
      ensures var m := EwmAt(xs, alpha, i).mean; m.Some? ==> lo <= m.value <= hi
    {
      EwmAtWithin(xs, alpha, i, lo, hi);
    }
  }

  function Reciprocal(period: nat): (alpha: real)
    requires period >= 2
    ensures 0.0 < alpha <= 1.0
  {
    1.0 / period as real
  }

  function SpanWeight(span: nat): (alpha: real)
    requires span >= 2
    ensures 0.0 < alpha <= 1.0
  {
    2.0 / (span as real + 1.0)
  }

  /** Exponential moving average by span. */
  function Ema(xs: Column, period: nat): (c: Column)
    requires period >= 2
    ensures |c| == |xs|
  {
    EwmMean(xs, SpanWeight(period), period)
  }

  /** Wilder's smoothing. */
  function Wilder(xs: Column, period: nat): (c: Column)
    requires period >= 2
    ensures |c| == |xs|
  {
    EwmMean(xs, Reciprocal(period), period)
  }

  /** Defined from position f on. */
  predicate DefinedFrom(xs: Column, f: nat) {
    forall j | 0 <= j < |xs| :: xs[j].Some? <==> j >= f
  }

  /** Without gaps the mean is the plain recurrence: alpha of the new value, the rest of the mean
      so far, begun at the first value. */
  lemma {:induction false} EwmRecurrence(xs: Column, alpha: real, f: nat, i: nat)
    requires 0.0 < alpha <= 1.0 && i < |xs| && DefinedFrom(xs, f)
    ensures EwmAt(xs, alpha, i).weight == 1.0
    ensures i < f ==> EwmAt(xs, alpha, i).mean == None && EwmAt(xs, alpha, i).count == 0
    ensures i >= f ==> EwmAt(xs, alpha, i).mean.Some? && EwmAt(xs, alpha, i).count == i - f + 1
    ensures i == f ==> EwmAt(xs, alpha, i).mean == xs[f]
    ensures i > f ==>
              var before := EwmAt(xs, alpha, i - 1).mean;
              before.Some? && EwmAt(xs, alpha, i).mean.value ==
                              Mul(1.0 - alpha, before.value) + Mul(alpha, xs[i].value)
  {
    if i > 0 {
      EwmRecurrence(xs, alpha, f, i - 1);
      if i > f {
        BlendOfOne(alpha, EwmAt(xs, alpha, i - 1).mean.value, xs[i].value);
      }
    }
  }

  lemma BlendOfOne(alpha: real, x: real, y: real)
    requires 0.0 < alpha <= 1.0
    ensures Blend(Decayed(1.0, alpha), x, alpha, y) == Mul(1.0 - alpha, x) + Mul(alpha, y)
    ensures Mul(1.0 - alpha, x) + Mul(alpha, x) == x
  {
  }

  function Power(b: real, n: nat): (p: real)
    requires b >= 0.0
    ensures p >= 0.0
  {
    if n == 0 then 1.0 else Mul(Power(b, n - 1), b)
  }

  lemma PowerStep(alpha: real, n: nat)
    requires 0.0 < alpha <= 1.0
    ensures Power(1.0 - alpha, n) == if n == 0 then 1.0 else Decayed(Power(1.0 - alpha, n - 1), alpha)
  {
  }

  /** A defined entry leaves a mean of full weight. */
  lemma {:induction false} EwmResets(xs: Column, alpha: real, i: nat)
    requires 0.0 < alpha <= 1.0 && i < |xs|
    ensures xs[i].Some? ==> EwmAt(xs, alpha, i).mean.Some?
    ensures xs[i].Some? || EwmAt(xs, alpha, i).mean == None ==> EwmAt(xs, alpha, i).weight == 1.0
  {
    hide Blend, Decayed;
    if i > 0 {
      EwmResets(xs, alpha, i - 1);
    }
  }

  /** Undefined entries leave the mean alone and let its weight decay. */
  lemma {:induction false} EwmWaits(xs: Column, alpha: real, i: nat, j: nat)
    requires 0.0 < alpha <= 1.0 && i <= j < |xs| && xs[i].Some?
    requires forall k | i < k <= j :: xs[k] == None
    ensures EwmAt(xs, alpha, i).mean.Some? && EwmAt(xs, alpha, j).mean == EwmAt(xs, alpha, i).mean
    ensures EwmAt(xs, alpha, j).weight == Power(1.0 - alpha, j - i)
  {
    hide Blend, Power, Decayed;
    PowerStep(alpha, j - i);
    if i < j {
      EwmWaits(xs, alpha, i, j - 1);
    } else {
      EwmResets(xs, alpha, i);
    }
  }

  /** The next defined entry j after i meets a mean that has lost one part in alpha at each step:
      the new mean is that of the old one and the new value, weighted (1 - alpha)^(j - i) to alpha. */
  lemma EwmOverGap(xs: Column, alpha: real, i: nat, j: nat)
    requires 0.0 < alpha <= 1.0 && i < j < |xs| && xs[i].Some? && xs[j].Some?
    requires forall k | i < k < j :: xs[k] == None
    ensures var kept := Power(1.0 - alpha, j - i);
            var before, after := EwmAt(xs, alpha, i).mean, EwmAt(xs, alpha, j).mean;
            && before.Some? && after.Some?
            && Mul(kept + alpha, after.value) == Mul(kept, before.value) + Mul(alpha, xs[j].value)
  {
    hide Blend, Mul, Decayed, EwmStep;
    EwmWaits(xs, alpha, i, j - 1);
    StepAfterGap(EwmAt(xs, alpha, j - 1), xs[j].value, alpha, Power(1.0 - alpha, j - i - 1));
  }

  lemma StepAfterGap(e: Ewm, x: real, alpha: real, weight: real)
    requires 0.0 < alpha <= 1.0 && e.mean.Some? && e.weight == weight >= 0.0
    ensures var kept, after := Mul(weight, 1.0 - alpha), EwmStep(e, Some(x), alpha).mean;
            && after.Some?
            && Mul(kept + alpha, after.value) == Mul(kept, e.mean.value) + Mul(alpha, x)
  {
    var kept := Mul(weight, 1.0 - alpha);
    assert Decayed(weight, alpha) == kept;
    hide Blend, Mul, Decayed;
    BlendTimesWeights(kept, e.mean.value, alpha, x);
    Distribute(kept, alpha, e.mean.value);
  }

  lemma BlendTimesWeights(w: real, x: real, a: real, y: real)
    requires w >= 0.0 && a > 0.0
    ensures Mul(w + a, Blend(w, x, a, y)) == Mul(w, x) + Mul(a, y)
  {
  }

  /** The mean is shown once there have been enough values. */
  lemma EwmShown(xs: Column, alpha: real, minPeriods: nat, f: nat, i: nat)
    requires 0.0 < alpha <= 1.0 && i < |xs| && DefinedFrom(xs, f) && minPeriods > 0
    ensures var m := EwmMean(xs, alpha, minPeriods)[i];
            && (m.Some? <==> i + 1 >= f + minPeriods)
            && (m.Some? ==> m == EwmAt(xs, alpha, i).mean)
  {
    EwmRecurrence(xs, alpha, f, i);
  }

  /** The mean of nothing but zeros is zero; one positive value among values that are not negative
      keeps it positive for good. */
  lemma {:induction false} EwmSign(xs: Column, alpha: real, f: nat, i: nat)
    requires 0.0 < alpha < 1.0 && f <= i < |xs| && DefinedFrom(xs, f)
    requires forall j | f <= j <= i :: xs[j].value >= 0.0
    ensures var m := EwmAt(xs, alpha, i).mean;
            && m.Some? && m.value >= 0.0
            && (m.value > 0.0 <==> exists j :: f <= j <= i && xs[j].value > 0.0)
  {
    hide EwmAt;
    EwmRecurrence(xs, alpha, f, i);
    if i > f {
      EwmSign(xs, alpha, f, i - 1);
      var before := EwmAt(xs, alpha, i - 1).mean.value;
      MulSigns(1.0 - alpha, before);
      MulSigns(alpha, xs[i].value);
    }
  }

  /** On a rising column a mean lags its input, and lags more the smaller its weight. */
  lemma {:induction false} EwmLags(xs: Column, slow: real, fast: real, f: nat, i: nat)
    requires 0.0 < slow <= fast <= 1.0 && f <= i < |xs| && DefinedFrom(xs, f)
    requires forall j | f < j <= i :: xs[j - 1].value <= xs[j].value
    ensures var a, b := EwmAt(xs, slow, i).mean, EwmAt(xs, fast, i).mean;
            a.Some? && b.Some? && a.value <= b.value <= xs[i].value
  {
    hide EwmAt;
    EwmRecurrence(xs, slow, f, i);
    EwmRecurrence(xs, fast, f, i);
    if i > f {
      EwmLags(xs, slow, fast, f, i - 1);
      assert xs[i - 1].value <= xs[i].value;
      LagStep(slow, fast, EwmAt(xs, slow, i - 1).mean.value, EwmAt(xs, fast, i - 1).mean.value, xs[i].value);
    }
  }

  lemma LagStep(slow: real, fast: real, a: real, b: real, x: real)
    requires 0.0 < slow <= fast <= 1.0 && a <= b <= x
    ensures Mul(1.0 - slow, a) + Mul(slow, x) <= Mul(1.0 - fast, b) + Mul(fast, x) <= x
  {
    ProductBetween(1.0 - slow, a, a, b);
    ProductBetween(fast - slow, b, b, x);
    ProductBetween(1.0 - fast, b, b, x);
    assert Mul(fast - slow, x) == Mul(fast, x) - Mul(slow, x);
    assert Mul(1.0 - slow, b) == Mul(1.0 - fast, b) + Mul(fast - slow, b);
    assert Mul(1.0 - fast, x) == x - Mul(fast, x);
  }
}
