/** The Gaussian hidden Markov model of the regime detector: the array code, proved
    against the path sums, the decoding specification and the re-estimation step. */
module HmmRegime {
  import opened Reals
  import opened Wrappers
  import opened Vectors
  import opened HmmPaths
  import opened HmmScaling
  import opened HmmReestimation
  import opened HmmParameters
  import opened HmmObservation
  import V = HmmViterbi

  datatype HmmError = NotFitted | TooFewRows

  function Row(a: array2<real>, t: nat): (v: Vec)
    requires t < a.Length0
    reads a
    ensures |v| == a.Length1
  {
    seq(a.Length1, s requires 0 <= s < a.Length1 reads a => a[t, s])
  }

  /** Divide a row by its scale when that is positive. */
  method DivideRow(a: array2<real>, t: nat, c: real)
    requires t < a.Length0
    modifies a
    ensures Row(a, t) == Shrunk(old(Row(a, t)), c)
    ensures forall u | 0 <= u < a.Length0 && u != t :: Row(a, u) == old(Row(a, u))
  {
    if c > 0.0 {
      forall s | 0 <= s < a.Length1 {
        a[t, s] := a[t, s] / c;
      }
    }
  }

  function Emission(k: Kernel, p: Parameters, n: nat, d: nat, x: Vec, s: nat): real
    requires p.Fits(n, d) && s < n && |x| == d
  {
    k.exp(LogPdf(k, x, p.means[s], p.variances[s]))
  }

  lemma UnscaledEntry(k: Kernel, p: Parameters, n: nat, d: nat, data: Mat, t: nat, s: nat)
    requires p.Fits(n, d) && IsData(data, d) && t < |data| && s < n
    ensures var h := Observe(k, p, n, d, data);
            Unscaled(h, t)[s] ==
            Mul(if t == 0 then p.initial[s] else Dot(Alpha(h, t - 1), Column(p.transition, s)),
                Emission(k, p, n, d, data[t], s))
  {
    hide LogPdf, Alpha, Dot;
  }

  /** alpha's row t before it is divided. */
  method FillForward(k: Kernel, p: Parameters, n: nat, d: nat, data: Mat, alpha: array2<real>, t: nat)
    requires p.Fits(n, d) && IsData(data, d) && t < |data|
    requires alpha.Length0 == |data| && alpha.Length1 == n
    requires t > 0 ==> Row(alpha, t - 1) == Alpha(Observe(k, p, n, d, data), t - 1)
    modifies alpha
    ensures Row(alpha, t) == Unscaled(Observe(k, p, n, d, data), t)
    ensures forall u | 0 <= u < |data| && u != t :: Row(alpha, u) == old(Row(alpha, u))
  {
    hide Observe, Unscaled, Alpha, Emission, Dot, Mul;
    ghost var h := Observe(k, p, n, d, data);
    if t == 0 {
      for s := 0 to n
        invariant forall r | 0 <= r < s :: alpha[0, r] == Unscaled(h, 0)[r]
        invariant forall u, r | 0 < u < |data| && 0 <= r < n :: alpha[u, r] == old(alpha[u, r])
      {
        UnscaledEntry(k, p, n, d, data, 0, s);
        alpha[0, s] := Mul(p.initial[s], Emission(k, p, n, d, data[0], s));
      }
    } else {
      var before := Row(alpha, t - 1);
      for s := 0 to n
        invariant forall r | 0 <= r < s :: alpha[t, r] == Unscaled(h, t)[r]
        invariant forall u, r | 0 <= u < |data| && u != t && 0 <= r < n :: alpha[u, r] == old(alpha[u, r])
      {
        UnscaledEntry(k, p, n, d, data, t, s);
        var prior := Dot(before, Column(p.transition, s));
        alpha[t, s] := Mul(prior, Emission(k, p, n, d, data[t], s));
      }
    }
    assert Row(alpha, t) == Unscaled(h, t);
  }

  /** The scaled forward pass. */
  method ForwardPass(k: Kernel, p: Parameters, n: nat, d: nat, data: Mat, alpha: array2<real>, scales: array<real>)
    requires p.Fits(n, d) && IsData(data, d)
    requires alpha.Length0 == |data| && alpha.Length1 == n && scales.Length == |data|
    modifies alpha, scales
    ensures var h := Observe(k, p, n, d, data);
            forall t | 0 <= t < |data| :: Row(alpha, t) == Alpha(h, t) && scales[t] == Scale(h, t)
  {
    hide Observe, Unscaled;
    ghost var h := Observe(k, p, n, d, data);
    for t := 0 to |data|
      invariant forall u | 0 <= u < t :: Row(alpha, u) == Alpha(h, u)
      invariant forall u | 0 <= u < t :: scales[u] == Scale(h, u)
    {
      FillForward(k, p, n, d, data, alpha, t);
      scales[t] := Sum(Row(alpha, t));
      DivideRow(alpha, t, scales[t]);
    }
  }

  /** The sum, over next states, that beta[t, s] is made of. */
  method BackwardSum(k: Kernel, p: Parameters, n: nat, d: nat, data: Mat, next: Vec, t: nat, s: nat)
    returns (forward: real)
    requires p.Fits(n, d) && IsData(data, d) && t + 1 < |data| && s < n && |next| == n
    ensures var h := Observe(k, p, n, d, data);
            forward == Dot(h.transition[s], Times(h.emission[t + 1], next))
  {
    ghost var h := Observe(k, p, n, d, data);
    ghost var later := Times(h.emission[t + 1], next);
    forward := 0.0;
    for r := 0 to n
      invariant forward == Dot(h.transition[s][..r], later[..r])
    {
      var e := Emission(k, p, n, d, data[t + 1], r);
      forward := forward + Mul(Mul(p.transition[s][r], e), next[r]);
      Reassociate(p.transition[s][r], e, next[r]);
      DotSnoc(h.transition[s], later, r + 1);
    }
    assert h.transition[s][..n] == h.transition[s] && later[..n] == later;
  }

  method FillBackward(k: Kernel, p: Parameters, n: nat, d: nat, data: Mat, beta: array2<real>, scale: real, t: nat)
    requires p.Fits(n, d) && IsData(data, d) && t + 1 < |data|
    requires beta.Length0 == |data| && beta.Length1 == n
    modifies beta
    ensures var h := Observe(k, p, n, d, data);
            Row(beta, t) == Shrunk(MatVec(h.transition, Times(h.emission[t + 1], old(Row(beta, t + 1)))), scale)
    ensures forall u | 0 <= u < |data| && u != t :: Row(beta, u) == old(Row(beta, u))
  {
    ghost var h := Observe(k, p, n, d, data);
    var next := Row(beta, t + 1);
    ghost var sums := Shrunk(MatVec(h.transition, Times(h.emission[t + 1], next)), scale);
    for s := 0 to n
      invariant forall r | 0 <= r < s :: beta[t, r] == sums[r]
      invariant forall u, r | 0 <= u < |data| && u != t && 0 <= r < n :: beta[u, r] == old(beta[u, r])
    {
      var forward := BackwardSum(k, p, n, d, data, next, t, s);
      beta[t, s] := if scale > 0.0 then forward / scale else forward;
    }
    assert Row(beta, t) == sums;
  }

  /** The scaled backward pass. */
  method BackwardPass(k: Kernel, p: Parameters, n: nat, d: nat, data: Mat, beta: array2<real>, scales: array<real>)
    requires p.Fits(n, d) && IsData(data, d)
    requires beta.Length0 == |data| && beta.Length1 == n && scales.Length == |data|
    requires var h := Observe(k, p, n, d, data); forall t | 0 <= t < |data| :: scales[t] == Scale(h, t)
    modifies beta
    ensures var h := Observe(k, p, n, d, data); forall t | 0 <= t < |data| :: Row(beta, t) == Beta(h, t)
  {
    hide Observe, Beta, Scale;
    ghost var h := Observe(k, p, n, d, data);
    var last := |data| - 1;
    BetaLast(h);
    forall s | 0 <= s < n {
      beta[last, s] := 1.0;
    }
    assert Row(beta, last) == Beta(h, last);
    for t := last downto 0
      invariant forall u | t <= u <= last :: Row(beta, u) == Beta(h, u)
    {
      FillBackward(k, p, n, d, data, beta, scales[t + 1], t);
      BetaBefore(h, t);
    }
  }

  /** The sum of the logarithms of the positive scales. */
  method SumLogs(k: Kernel, scales: array<real>, ghost h: Hmm) returns (total: real)
    requires h.Valid() && scales.Length == h.Length()
    requires forall t | 0 <= t < scales.Length :: scales[t] == Scale(h, t)
    ensures total == LogScales(h, k.log, h.Length())
  {
    total := 0.0;
    for t := 0 to scales.Length
      invariant total == LogScales(h, k.log, t)
    {
      if scales[t] > 0.0 {
        total := total + k.log(scales[t]);
      }
    }
  }

  /** Both passes, row by row, and the log-likelihood. */
  method ForwardBackward(k: Kernel, p: Parameters, n: nat, d: nat, data: Mat)
    returns (alpha: array2<real>, beta: array2<real>, logLikelihood: real)
    requires p.Fits(n, d) && IsData(data, d)
    ensures fresh(alpha) && fresh(beta)
    ensures alpha.Length0 == beta.Length0 == |data| && alpha.Length1 == beta.Length1 == n
    ensures var h := Observe(k, p, n, d, data);
            && (forall t | 0 <= t < |data| :: Row(alpha, t) == Alpha(h, t) && Row(beta, t) == Beta(h, t))
            && logLikelihood == LogScales(h, k.log, |data|)
  {
    hide Observe, Unscaled, Alpha, Beta, Scale;
    ghost var h := Observe(k, p, n, d, data);
    alpha, beta := new real[|data|, n], new real[|data|, n];
    var scales := new real[|data|];
    ForwardPass(k, p, n, d, data, alpha, scales);
    BackwardPass(k, p, n, d, data, beta, scales);
    logLikelihood := SumLogs(k, scales, h);
  }

  // ---- the maximisation step ----

  function Col(a: array2<real>, s: nat): (v: Vec)
    requires s < a.Length1
    reads a
    ensures |v| == a.Length0
  {
    seq(a.Length0, t requires 0 <= t < a.Length0 reads a => a[t, s])
  }

  function Line(a: array3<real>, t: nat, s: nat): (v: Vec)
    requires t < a.Length0 && s < a.Length1
    reads a
    ensures |v| == a.Length2
  {
    seq(a.Length2, r requires 0 <= r < a.Length2 reads a => a[t, s, r])
  }

  function Depth(a: array3<real>, s: nat, r: nat): (v: Vec)
    requires s < a.Length1 && r < a.Length2
    reads a
    ensures |v| == a.Length0
  {
    seq(a.Length0, t requires 0 <= t < a.Length0 reads a => a[t, s, r])
  }

  /** gamma = alpha * beta, entry by entry. */
  method Multiply(alpha: array2<real>, beta: array2<real>) returns (gamma: array2<real>)
    requires alpha.Length0 == beta.Length0 && alpha.Length1 == beta.Length1
    ensures fresh(gamma) && gamma.Length0 == alpha.Length0 && gamma.Length1 == alpha.Length1
    ensures forall t | 0 <= t < alpha.Length0 :: Row(gamma, t) == Times(Row(alpha, t), Row(beta, t))
  {
    gamma := new real[alpha.Length0, alpha.Length1];
    forall t, s | 0 <= t < alpha.Length0 && 0 <= s < alpha.Length1 {
      gamma[t, s] := Mul(alpha[t, s], beta[t, s]);
    }
  }

  lemma GammaRows(h: Hmm, alpha: array2<real>, beta: array2<real>, gamma: array2<real>)
    requires h.Valid()
    requires alpha.Length0 == beta.Length0 == gamma.Length0 == h.Length()
    requires alpha.Length1 == beta.Length1 == gamma.Length1 == h.States()
    requires forall t | 0 <= t < h.Length() :: Row(alpha, t) == Alpha(h, t) && Row(beta, t) == Beta(h, t)
    requires forall t | 0 <= t < h.Length() :: Row(gamma, t) == Times(Row(alpha, t), Row(beta, t))
    ensures forall t | 0 <= t < h.Length() :: Row(gamma, t) == Gamma(h, t)
  {
    hide Alpha, Beta;
  }

  /** Divides every row by its sum, or by one when that is not positive. */
  method NormaliseRows(gamma: array2<real>, ghost h: Hmm) returns (rows: Mat)
    requires h.Weighted() && gamma.Length0 == h.Length() && gamma.Length1 == h.States()
    requires forall t | 0 <= t < h.Length() :: Row(gamma, t) == Gamma(h, t)
    ensures IsMatrix(rows, h.Length(), h.States())
    ensures forall t | 0 <= t < h.Length() :: rows[t] == Gamma(h, t)
  {
    hide Gamma, TotalMass, NonNegative;
    rows := [];
    for t := 0 to gamma.Length0
      invariant |rows| == t
      invariant forall u | 0 <= u < t :: rows[u] == Gamma(h, u)
    {
      var guarded := Positive(Sum(Row(gamma, t)));
      GammaSums(h, t);
      assert guarded == 1.0;
      var row := seq(gamma.Length1, s requires 0 <= s < gamma.Length1 reads gamma => gamma[t, s] / guarded);
      assert row == Row(gamma, t);
      rows := rows + [row];
    }
  }

  lemma GammasArePosteriors(h: Hmm, rows: Mat)
    requires h.Weighted() && IsMatrix(rows, h.Length(), h.States())
    requires forall t | 0 <= t < h.Length() :: rows[t] == Gamma(h, t)
    ensures forall t, s | 0 <= t < h.Length() && 0 <= s < h.States() ::
      Mul(rows[t][s], TotalMass(h, Anything)) == TotalMass(h, At(t, s))
    ensures forall t | 0 <= t < h.Length() ::
      NonNegative(rows[t]) && Sum(rows[t]) == if TotalMass(h, Anything) > 0.0 then 1.0 else 0.0
  {
    hide Gamma, TotalMass, NonNegative;
    forall t, s | 0 <= t < h.Length() && 0 <= s < h.States()
      ensures Mul(rows[t][s], TotalMass(h, Anything)) == TotalMass(h, At(t, s))
    {
      GammaIsPosterior(h, t, s);
    }
    forall t | 0 <= t < h.Length()
      ensures NonNegative(rows[t])
      ensures Sum(rows[t]) == if TotalMass(h, Anything) > 0.0 then 1.0 else 0.0
    {
      GammaSums(h, t);
    }
  }

  /** One line of xi before normalising. */
  method FillJointLine(k: Kernel, p: Parameters, n: nat, d: nat, data: Mat, xi: array3<real>,
                       weight: real, next: Vec, t: nat, s: nat)
    requires p.Fits(n, d) && IsData(data, d) && t + 1 < |data| && s < n && |next| == n
    requires xi.Length0 == |data| - 1 && xi.Length1 == xi.Length2 == n
    modifies xi
    ensures var h := Observe(k, p, n, d, data);
            Line(xi, t, s) == Scaled(weight, Times(h.transition[s], Times(h.emission[t + 1], next)))
    ensures forall u, q | 0 <= u < |data| - 1 && 0 <= q < n && (u, q) != (t, s) :: Line(xi, u, q) == old(Line(xi, u, q))
  {
    ghost var h := Observe(k, p, n, d, data);
    ghost var target := Scaled(weight, Times(h.transition[s], Times(h.emission[t + 1], next)));
    for r := 0 to n
      invariant forall q | 0 <= q < r :: xi[t, s, q] == target[q]
      invariant forall u, q, w | 0 <= u < |data| - 1 && 0 <= q < n && 0 <= w < n && (u, q) != (t, s) ::
                  xi[u, q, w] == old(xi[u, q, w])
    {
      var e := Emission(k, p, n, d, data[t + 1], r);
      xi[t, s, r] := Mul(Mul(Mul(weight, p.transition[s][r]), e), next[r]);
      ReassociateFour(weight, p.transition[s][r], e, next[r]);
    }
    assert Line(xi, t, s) == target;
  }

  lemma ReassociateFour(w: real, x: real, y: real, z: real)
    ensures Mul(Mul(Mul(w, x), y), z) == Mul(w, Mul(x, Mul(y, z)))
  {
    Reassociate(w, x, y);
    Reassociate(w, Mul(x, y), z);
    Reassociate(x, y, z);
  }

  /** xi[t]: filled state by state, then divided by its sum when that is positive. */
  method FillXi(k: Kernel, p: Parameters, n: nat, d: nat, data: Mat, alpha: array2<real>, beta: array2<real>,
                xi: array3<real>, t: nat)
    requires p.Fits(n, d) && IsData(data, d) && t + 1 < |data|
    requires alpha.Length0 == beta.Length0 == |data| && alpha.Length1 == beta.Length1 == n
    requires var h := Observe(k, p, n, d, data); Row(alpha, t) == Alpha(h, t) && Row(beta, t + 1) == Beta(h, t + 1)
    requires xi.Length0 == |data| - 1 && xi.Length1 == xi.Length2 == n
    modifies xi
    ensures var h := Observe(k, p, n, d, data); forall s | 0 <= s < n :: Line(xi, t, s) == Xi(h, t, s)
    ensures forall u, q | 0 <= u < |data| - 1 && 0 <= q < n && u != t :: Line(xi, u, q) == old(Line(xi, u, q))
  {
    hide Observe, Alpha, Beta, Scaled, Times;
    ghost var h := Observe(k, p, n, d, data);
    var weights, next := Row(alpha, t), Row(beta, t + 1);
    assert h.transition == p.transition by { ObserveParts(k, p, n, d, data); }
    for s := 0 to n
      invariant forall q | 0 <= q < s :: Line(xi, t, q) == JointRow(h, t, q)
      invariant forall u, q | 0 <= u < |data| - 1 && 0 <= q < n && u != t :: Line(xi, u, q) == old(Line(xi, u, q))
    {
      FillJointLine(k, p, n, d, data, xi, weights[s], next, t, s);
    }
    var lines := seq(n, s requires 0 <= s < n reads xi => Sum(Line(xi, t, s)));
    assert lines == RowSums(h, t);
    var denominator := Sum(lines);
    DivideBlock(xi, t, denominator);
  }

  lemma ObserveParts(k: Kernel, p: Parameters, n: nat, d: nat, data: Mat)
    requires p.Fits(n, d) && IsData(data, d)
    ensures Observe(k, p, n, d, data).initial == p.initial
    ensures Observe(k, p, n, d, data).transition == p.transition
  {
  }

  method DivideBlock(a: array3<real>, t: nat, c: real)
    requires t < a.Length0
    modifies a
    ensures forall s | 0 <= s < a.Length1 :: Line(a, t, s) == Shrunk(old(Line(a, t, s)), c)
    ensures forall u, s | 0 <= u < a.Length0 && 0 <= s < a.Length1 && u != t :: Line(a, u, s) == old(Line(a, u, s))
  {
    if c > 0.0 {
      forall s, r | 0 <= s < a.Length1 && 0 <= r < a.Length2 {
        a[t, s, r] := a[t, s, r] / c;
      }
    }
  }

  /** gamma by state, and the expected steps: gamma's columns and xi summed over time. */
  method Expectations(k: Kernel, p: Parameters, n: nat, d: nat, data: Mat) returns (columns: Mat, counts: Mat)
    requires p.Fits(n, d) && IsData(data, d)
    ensures |columns| == |counts| == n
    ensures var h := Observe(k, p, n, d, data);
            forall s | 0 <= s < n :: columns[s] == StateGamma(h, s) && counts[s] == Steps(h, s)
  {
    hide Observe, Alpha, Beta, Xi, Times;
    ghost var h := Observe(k, p, n, d, data);
    var alpha, beta, _ := ForwardBackward(k, p, n, d, data);
    var gamma := Multiply(alpha, beta);
    assert forall t | 0 <= t < |data| :: Row(gamma, t) == Gamma(h, t);
    var xi := new real[|data| - 1, n, n];
    for t := 0 to |data| - 1
      invariant forall u | 0 <= u < |data| :: Row(alpha, u) == Alpha(h, u) && Row(beta, u) == Beta(h, u)
      invariant forall u | 0 <= u < |data| :: Row(gamma, u) == Gamma(h, u)
      invariant forall u, s | 0 <= u < t && 0 <= s < n :: Line(xi, u, s) == Xi(h, u, s)
    {
      FillXi(k, p, n, d, data, alpha, beta, xi, t);
    }
    columns := GammaColumns(gamma, h);
    counts := StepCounts(xi, h);
  }

  method GammaColumns(gamma: array2<real>, ghost h: Hmm) returns (columns: Mat)
    requires h.Valid() && gamma.Length0 == h.Length() && gamma.Length1 == h.States()
    requires forall t | 0 <= t < h.Length() :: Row(gamma, t) == Gamma(h, t)
    ensures |columns| == h.States() && forall s | 0 <= s < h.States() :: columns[s] == StateGamma(h, s)
  {
    columns := seq(gamma.Length1, s requires 0 <= s < gamma.Length1 reads gamma => Col(gamma, s));
    forall s | 0 <= s < h.States()
      ensures Col(gamma, s) == StateGamma(h, s)
    {
      forall t | 0 <= t < h.Length()
        ensures Col(gamma, s)[t] == StateGamma(h, s)[t]
      {
        assert Row(gamma, t)[s] == Gamma(h, t)[s];
      }
    }
  }

  method StepCounts(xi: array3<real>, ghost h: Hmm) returns (counts: Mat)
    requires h.Valid() && xi.Length0 == h.Length() - 1 && xi.Length1 == xi.Length2 == h.States()
    requires forall t, s | 0 <= t < h.Length() - 1 && 0 <= s < h.States() :: Line(xi, t, s) == Xi(h, t, s)
    ensures |counts| == h.States() && forall s | 0 <= s < h.States() :: counts[s] == Steps(h, s)
  {
    counts := seq(xi.Length1, s requires 0 <= s < xi.Length1 reads xi =>
                seq(xi.Length2, r requires 0 <= r < xi.Length2 reads xi => Sum(Depth(xi, s, r))));
    forall s, r | 0 <= s < h.States() && 0 <= r < h.States()
      ensures Depth(xi, s, r) == StepXi(h, s, r)
    {
      forall t | 0 <= t < h.Length() - 1
        ensures Depth(xi, s, r)[t] == StepXi(h, s, r)[t]
      {
        assert Line(xi, t, s)[r] == Xi(h, t, s)[r];
      }
    }
  }

  /** The re-estimated parameters, computed from the two passes. */
  method MaximisationStep(k: Kernel, p: Parameters, n: nat, d: nat, data: Mat, floor: real) returns (q: Parameters)
    requires p.Fits(n, d) && IsData(data, d)
    ensures q == Reestimated(Observe(k, p, n, d, data), data, d, floor)
  {
    hide Observe, Dot, Sum;
    ghost var h := Observe(k, p, n, d, data);
    ObserveParts(k, p, n, d, data);
    var columns, counts := Expectations(k, p, n, d, data);
    var totals := seq(n, s requires 0 <= s < n => Positive(Sum(columns[s])));
    var initial := seq(n, s requires 0 <= s < n => columns[s][0] / totals[s]);
    var transition := seq(n, s requires 0 <= s < n => RowFrom(counts[s], p.transition[s]));
    var means := seq(n, s requires 0 <= s < n =>
                   seq(d, j requires 0 <= j < d => Dot(columns[s], Column(data, j)) / totals[s]));
    var variances: Mat := [];
    for s := 0 to n
      invariant |variances| == s
      invariant forall u | 0 <= u < s :: variances[u] == Reestimated(h, data, d, floor).variances[u]
    {
      var squared := seq(d, j requires 0 <= j < d => Dot(columns[s], SquaresAround(Column(data, j), means[s][j])));
      var row := seq(d, j requires 0 <= j < d => Max(squared[j] / totals[s], floor));
      assert row == Reestimated(h, data, d, floor).variances[s];
      variances := variances + [row];
    }
    q := Parameters(initial, transition, means, variances);
    ghost var target := Reestimated(h, data, d, floor);
    assert initial == target.initial;
    assert transition == target.transition;
    forall s | 0 <= s < n
      ensures means[s] == target.means[s]
    {
    }
    assert means == target.means;
    assert variances == target.variances;
  }

  // ---- decoding ----

  lemma FirstDelta(k: Kernel, p: Parameters, n: nat, d: nat, data: Mat, s: nat)
    requires p.Fits(n, d) && IsData(data, d) && s < n
    ensures V.Delta(ObserveLogs(k, p, n, d, data), 0)[s] ==
            k.log(p.initial[s] + TINY) + LogPdf(k, data[0], p.means[s], p.variances[s])
  {
    hide LogPdf;
  }

  method FillFirstDelta(k: Kernel, p: Parameters, n: nat, d: nat, data: Mat, delta: array2<real>)
    requires p.Fits(n, d) && IsData(data, d)
    requires delta.Length0 == |data| && delta.Length1 == n
    modifies delta
    ensures Row(delta, 0) == V.Delta(ObserveLogs(k, p, n, d, data), 0)
  {
    hide LogPdf, ObserveLogs, V.Delta;
    ghost var target := V.Delta(ObserveLogs(k, p, n, d, data), 0);
    for s := 0 to n
      invariant forall r | 0 <= r < s :: delta[0, r] == target[r]
    {
      FirstDelta(k, p, n, d, data, s);
      delta[0, s] := k.log(p.initial[s] + TINY) + LogPdf(k, data[0], p.means[s], p.variances[s]);
    }
    assert Row(delta, 0) == target;
  }

  /** The best score of reaching s at time t, and the state before it. */
  method BestEntry(k: Kernel, p: Parameters, n: nat, d: nat, data: Mat, before: Vec, t: nat, s: nat)
    returns (score: real, pointer: nat)
    requires p.Fits(n, d) && IsData(data, d) && 0 < t < |data| && s < n
    requires before == V.Delta(ObserveLogs(k, p, n, d, data), t - 1)
    ensures score == V.Delta(ObserveLogs(k, p, n, d, data), t)[s]
    ensures pointer == V.Psi(ObserveLogs(k, p, n, d, data), t, s)
  {
    ghost var h := ObserveLogs(k, p, n, d, data);
    var column := seq(n, r requires 0 <= r < n => k.log(p.transition[r][s] + TINY));
    assert column == Column(h.transition, s);
    var scores := Plus(before, column);
    pointer := V.ArgMax(scores);
    score := LogPdf(k, data[t], p.means[s], p.variances[s]) + scores[pointer];
  }

  /** One later row of scores and back-pointers. */
  method FillDeltaRow(k: Kernel, p: Parameters, n: nat, d: nat, data: Mat, delta: array2<real>,
                      psi: array2<nat>, t: nat)
    requires p.Fits(n, d) && IsData(data, d) && 0 < t < |data|
    requires delta.Length0 == psi.Length0 == |data| && delta.Length1 == psi.Length1 == n
    requires Row(delta, t - 1) == V.Delta(ObserveLogs(k, p, n, d, data), t - 1)
    modifies delta, psi
    ensures Row(delta, t) == V.Delta(ObserveLogs(k, p, n, d, data), t)
    ensures forall s | 0 <= s < n :: psi[t, s] == V.Psi(ObserveLogs(k, p, n, d, data), t, s)
    ensures forall u | 0 <= u < |data| && u != t :: Row(delta, u) == old(Row(delta, u))
    ensures forall u, s | 0 <= u < |data| && 0 <= s < n && u != t :: psi[u, s] == old(psi[u, s])
  {
    hide ObserveLogs, V.Delta, V.Psi;
    ghost var h := ObserveLogs(k, p, n, d, data);
    ghost var target := V.Delta(h, t);
    var before := Row(delta, t - 1);
    for s := 0 to n
      invariant forall r | 0 <= r < s :: delta[t, r] == target[r] && psi[t, r] == V.Psi(h, t, r)
      invariant forall u, r | 0 <= u < |data| && 0 <= r < n && u != t :: delta[u, r] == old(delta[u, r])
      invariant forall u, r | 0 <= u < |data| && 0 <= r < n && u != t :: psi[u, r] == old(psi[u, r])
    {
      var score, pointer := BestEntry(k, p, n, d, data, before, t, s);
      delta[t, s], psi[t, s] := score, pointer;
    }
    assert Row(delta, t) == target;
  }

  /** Viterbi's scores and back-pointers. */
  method FillDelta(k: Kernel, p: Parameters, n: nat, d: nat, data: Mat) returns (delta: array2<real>, psi: array2<nat>)
    requires p.Fits(n, d) && IsData(data, d)
    ensures fresh(delta) && delta.Length0 == |data| && delta.Length1 == n
    ensures fresh(psi) && psi.Length0 == |data| && psi.Length1 == n
    ensures var h := ObserveLogs(k, p, n, d, data);
            && (forall t | 0 <= t < |data| :: Row(delta, t) == V.Delta(h, t))
            && (forall t, s | 0 < t < |data| && 0 <= s < n :: psi[t, s] == V.Psi(h, t, s))
  {
    hide ObserveLogs, V.Delta;
    ghost var h := ObserveLogs(k, p, n, d, data);
    delta := new real[|data|, n];
    psi := new nat[|data|, n];
    FillFirstDelta(k, p, n, d, data, delta);
    for t := 1 to |data|
      invariant forall u | 0 <= u < t :: Row(delta, u) == V.Delta(h, u)
      invariant forall u, s | 0 < u < t && 0 <= s < n :: psi[u, s] == V.Psi(h, u, s)
    {
      FillDeltaRow(k, p, n, d, data, delta, psi, t);
    }
  }

  /** Following the back-pointers from the last state. */
  method TraceBack(psi: array2<nat>, s: nat, ghost h: Hmm) returns (path: array<nat>)
    requires h.Valid() && s < h.States() && psi.Length0 == h.Length() && psi.Length1 == h.States()
    requires forall t, r | 0 < t < h.Length() && 0 <= r < h.States() :: psi[t, r] == V.Psi(h, t, r)
    ensures fresh(path) && path[..] == V.Trace(h, h.Length() - 1, s)
  {
    hide V.Trace, V.Psi;
    var last := psi.Length0 - 1;
    ghost var best := V.Trace(h, last, s);
    path := new nat[psi.Length0];
    path[last] := s;
    for t := last downto 0
      invariant forall u | t <= u <= last :: path[u] == best[u] < h.States()
    {
      path[t] := psi[t + 1, path[t + 1]];
      V.TraceFollowsPointers(h, last, s, t);
    }
    assert path[..] == best;
  }

  method Viterbi(k: Kernel, p: Parameters, n: nat, d: nat, data: Mat) returns (path: Path, score: real)
    requires p.Fits(n, d) && IsData(data, d)
    ensures V.IsViterbi(ObserveLogs(k, p, n, d, data), path, score)
  {
    hide ObserveLogs, V.Delta, V.Trace, V.IsViterbi;
    ghost var h := ObserveLogs(k, p, n, d, data);
    var delta, psi := FillDelta(k, p, n, d, data);
    var last := Row(delta, |data| - 1);
    var state := V.ArgMax(last);
    var states := TraceBack(psi, state, h);
    V.BestTraceIsViterbi(h);
    path, score := states[..], last[state];
  }

  // ---- the detector's model ----

  /** No variance falls below a small share of the data's own. */
  function VarianceFloor(data: Mat, d: nat): (floor: real)
    requires IsData(data, d)
    ensures floor >= 0.000000001
  {
    Max(Mean(seq(d, j requires 0 <= j < d => Variance(Column(data, j)))) * 0.001, 0.000000001)
  }

  ghost function ColumnVariances(data: Mat, d: nat): (v: Vec)
    requires IsData(data, d)
    ensures |v| == d
  {
    seq(d, j requires 0 <= j < d => Variance(Column(data, j)))
  }

  /** The floor is a thousandth of the mean variance of the columns, or a billionth if that is
      greater. */
  lemma VarianceFloorExactly(data: Mat, d: nat)
    requires IsData(data, d) && d > 0
    ensures var floor, spread := VarianceFloor(data, d), Sum(ColumnVariances(data, d));
            && floor >= 0.000000001
            && Mul(d as real, 1000.0 * floor) >= spread
            && (floor > 0.000000001 ==> Mul(d as real, 1000.0 * floor) == spread)
  {
    hide Mul, Mean, Variance, Column;
    var v, floor := ColumnVariances(data, d), VarianceFloor(data, d);
    MeanTimesCount(v);
    assert floor == Max(Mean(v) * 0.001, 0.000000001);
    ScaledMonotone(d as real, Mean(v), 1000.0 * floor);
  }

  lemma ScaledMonotone(c: real, x: real, y: real)
    requires c >= 0.0 && x <= y
    ensures Mul(c, x) <= Mul(c, y)
  {
    ProductBetween(c, x, x, y);
  }

  /** The parameters after a number of re-estimation steps. */
  ghost function Trained(k: Kernel, p: Parameters, n: nat, d: nat, data: Mat, floor: real, steps: nat): (q: Parameters)
    requires p.Fits(n, d) && IsData(data, d)
    ensures q.Fits(n, d)
  {
    if steps == 0 then p
    else Reestimated(Observe(k, Trained(k, p, n, d, data, floor, steps - 1), n, d, data), data, d, floor)
  }

  ghost function LogLikelihood(k: Kernel, p: Parameters, n: nat, d: nat, data: Mat): real
    requires p.Fits(n, d) && IsData(data, d)
  {
    LogScales(Observe(k, p, n, d, data), k.log, |data|)
  }

  /** Step i changed the log-likelihood by less than the tolerance. */
  ghost predicate Converged(k: Kernel, p: Parameters, n: nat, d: nat, data: Mat, floor: real, tolerance: real, i: nat)
    requires p.Fits(n, d) && IsData(data, d) && i > 0
  {
    Abs(LogLikelihood(k, Trained(k, p, n, d, data, floor, i), n, d, data)
        - LogLikelihood(k, Trained(k, p, n, d, data, floor, i - 1), n, d, data)) < tolerance
  }

  /** Training never leaves the well-formed models, however long it runs. */
  lemma {:induction false} TrainedWellFormed(k: Kernel, p: Parameters, n: nat, d: nat, data: Mat, floor: real,
                                             steps: nat)
    requires k.Valid() && p.WellFormed(n, d) && IsData(data, d)
    ensures Trained(k, p, n, d, data, floor, steps).WellFormed(n, d)
    ensures steps > 0 ==> forall s, j | 0 <= s < n && 0 <= j < d ::
                            Trained(k, p, n, d, data, floor, steps).variances[s][j] >= floor
  {
    hide Observe, Reestimated, Hmm.Weighted;
    if steps > 0 {
      var q := Trained(k, p, n, d, data, floor, steps - 1);
      TrainedWellFormed(k, p, n, d, data, floor, steps - 1);
      ObserveWeighted(k, q, n, d, data);
      ObserveParts(k, q, n, d, data);
      ReestimatedWellFormed(Observe(k, q, n, d, data), data, d, floor);
    }
  }

  class GaussianHmm {
    const kernel: Kernel
    const nStates: nat
    const nIter: nat
    const tolerance: real
    const dimension: nat
    var parameters: Option<Parameters>

    constructor (kernel: Kernel, nStates: nat, nIter: nat, tolerance: real, dimension: nat)
      requires nStates >= 2
      ensures this.kernel == kernel && this.nStates == nStates && this.nIter == nIter
      ensures this.tolerance == tolerance && this.dimension == dimension
      ensures parameters == None
    {
      this.kernel, this.nStates, this.nIter := kernel, nStates, nIter;
      this.tolerance, this.dimension := tolerance, dimension;
      parameters := None;
    }

    ghost predicate Valid()
      reads this
    {
      kernel.Valid() && nStates >= 2 && (parameters.Some? ==> parameters.value.WellFormed(nStates, dimension))
    }

    ghost function Model(data: Mat): (h: Hmm)
      requires Valid() && parameters.Some? && IsData(data, dimension)
      reads this
      ensures h.Weighted() && h.States() == nStates && h.Length() == |data|
    {
      ObserveWeighted(kernel, parameters.value, nStates, dimension, data);
      Observe(kernel, parameters.value, nStates, dimension, data)
    }

    /** Train from starting parameters drawn at random, until the log-likelihood settles or
        the iterations run out. */
    method Fit(data: Mat, drawn: Parameters) returns (r: Result<real, HmmError>, ghost steps: nat)
      requires Valid() && OfWidth(data, dimension) && drawn.WellFormed(nStates, dimension)
      modifies this`parameters
      ensures Valid()
      ensures |data| < 2 ==> r == Err(TooFewRows) && parameters == old(parameters)
      ensures |data| >= 2 ==>
                var floor := VarianceFloor(data, dimension);
                && parameters == Some(Trained(kernel, drawn, nStates, dimension, data, floor, steps))
                && r == Ok(LogScales(Model(data), kernel.log, |data|))
                && steps <= nIter
                && (steps < nIter ==>
                      steps > 0 && Converged(kernel, drawn, nStates, dimension, data, floor, tolerance, steps))
                && (forall i | 0 < i < steps ::
                      !Converged(kernel, drawn, nStates, dimension, data, floor, tolerance, i))
    {
      steps := 0;
      if |data| < 2 {
        return Err(TooFewRows), 0;
      }
      parameters := Some(drawn);
      var ll;
      ll, steps := RunEm(data, VarianceFloor(data, dimension));
      r := Ok(ll);
    }

    /** Re-estimate until the log-likelihood settles or the iterations run out. The
        log-likelihood returned is always that of the parameters left behind. */
    method RunEm(data: Mat, floor: real) returns (logLikelihood: real, ghost steps: nat)
      requires Valid() && parameters.Some? && IsData(data, dimension)
      modifies this`parameters
      ensures Valid() && parameters.Some?
      ensures parameters == Some(Trained(kernel, old(parameters).value, nStates, dimension, data, floor, steps))
      ensures logLikelihood == LogLikelihood(kernel, parameters.value, nStates, dimension, data)
      ensures steps <= nIter
      ensures steps < nIter ==>
                steps > 0 && Converged(kernel, old(parameters).value, nStates, dimension, data, floor, tolerance, steps)
      ensures forall i | 0 < i < steps ::
                !Converged(kernel, old(parameters).value, nStates, dimension, data, floor, tolerance, i)
    {
      hide Observe, LogScales, Reestimated, Abs;
      ghost var start := parameters.value;
      var previous: Option<real> := None;
      steps := 0;
      for i := 0 to nIter
        invariant steps == i
        invariant parameters == Some(Trained(kernel, start, nStates, dimension, data, floor, i))
        invariant i == 0 <==> previous == None
        invariant i > 0 ==>
                    var last := Trained(kernel, start, nStates, dimension, data, floor, i - 1);
                    previous == Some(LogLikelihood(kernel, last, nStates, dimension, data))
        invariant forall j | 0 < j < i :: !Converged(kernel, start, nStates, dimension, data, floor, tolerance, j)
      {
        TrainedWellFormed(kernel, start, nStates, dimension, data, floor, i);
        var _, _, ll := ForwardBackward(kernel, parameters.value, nStates, dimension, data);
        if previous.Some? && Abs(ll - previous.value) < tolerance {
          assert Converged(kernel, start, nStates, dimension, data, floor, tolerance, i);
          return ll, i;
        }
        previous := Some(ll);
        assert i > 0 ==> !Converged(kernel, start, nStates, dimension, data, floor, tolerance, i);
        var next := MaximisationStep(kernel, parameters.value, nStates, dimension, data, floor);
        parameters := Some(next);
        steps := steps + 1;
      }
      TrainedWellFormed(kernel, start, nStates, dimension, data, floor, nIter);
      var _, _, ll := ForwardBackward(kernel, parameters.value, nStates, dimension, data);
      logLikelihood := ll;
    }

    /** Smoothed posteriors: entry [t][s] is the share of the weight of all state paths
        that are in s at time t. Rows are distributions unless the data are impossible. */
    method Posterior(data: Mat) returns (r: Result<Mat, HmmError>)
      requires Valid() && IsData(data, dimension)
      ensures parameters == None ==> r == Err(NotFitted)
      ensures parameters.Some? ==> r.Ok? && IsMatrix(r.value, |data|, nStates)
      ensures parameters.Some? ==>
                forall t, s | 0 <= t < |data| && 0 <= s < nStates ::
                  Mul(r.value[t][s], TotalMass(Model(data), Anything)) == TotalMass(Model(data), At(t, s))
      ensures parameters.Some? ==>
                forall t | 0 <= t < |data| ::
                  NonNegative(r.value[t]) &&
                  Sum(r.value[t]) == if TotalMass(Model(data), Anything) > 0.0 then 1.0 else 0.0
    {
      hide Observe, TotalMass, Alpha, Beta, Gamma, NonNegative;
      if parameters == None {
        return Err(NotFitted);
      }
      ghost var h := Model(data);
      var alpha, beta, _ := ForwardBackward(kernel, parameters.value, nStates, dimension, data);
      var gamma := Multiply(alpha, beta);
      GammaRows(h, alpha, beta, gamma);
      var rows := NormaliseRows(gamma, h);
      GammasArePosteriors(h, rows);
      r := Ok(rows);
    }

    /** The Viterbi path and its score: no state sequence scores higher. */
    method Decode(data: Mat) returns (r: Result<(Path, real), HmmError>)
      requires Valid() && IsData(data, dimension)
      ensures parameters == None ==> r == Err(NotFitted)
      ensures parameters.Some? ==>
                r.Ok? && IsBest(kernel, parameters.value, nStates, dimension, data, r.value.0, r.value.1)
    {
      if parameters == None {
        return Err(NotFitted);
      }
      var path, score := Viterbi(kernel, parameters.value, nStates, dimension, data);
      BestOfParameters(kernel, parameters.value, nStates, dimension, data, path, score);
      r := Ok((path, score));
    }
  }
}
