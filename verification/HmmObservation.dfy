/** What a model says of observations, stated of its parameters: the score and the weight of a
    state sequence, term by term. */
module HmmObservation {
  import opened Reals
  import opened Vectors
  import opened HmmPaths
  import opened HmmParameters
  import V = HmmViterbi

  /** States 0 to n - 1, at least one of them and no more than there are observations. */
  predicate IsStates(n: nat, data: Mat, q: Path) {
    0 < |q| <= |data| && forall t | 0 <= t < |q| :: q[t] < n
  }

  /** The log-score of a state sequence: its start, its steps, and each row under its state. */
  function PathScore(k: Kernel, p: Parameters, n: nat, d: nat, data: Mat, q: Path): real
    requires p.Fits(n, d) && IsData(data, d) && IsStates(n, data, q)
  {
    var t := |q| - 1;
    var row := LogPdf(k, data[t], p.means[q[t]], p.variances[q[t]]);
    if t == 0 then k.log(p.initial[q[0]] + TINY) + row
    else PathScore(k, p, n, d, data, q[..t]) + k.log(p.transition[q[t - 1]][q[t]] + TINY) + row
  }

  /** The weight of a state sequence: its start, its steps, and each row's density in its state. */
  function PathWeight(k: Kernel, p: Parameters, n: nat, d: nat, data: Mat, q: Path): real
    requires p.Fits(n, d) && IsData(data, d) && IsStates(n, data, q)
  {
    var t := |q| - 1;
    var density := k.exp(LogPdf(k, data[t], p.means[q[t]], p.variances[q[t]]));
    if t == 0 then Mul(p.initial[q[0]], density)
    else Mul(PathWeight(k, p, n, d, data, q[..t]), Mul(p.transition[q[t - 1]][q[t]], density))
  }

  /** Decoding scores sequences so. */
  lemma {:induction false} ScoreOfPath(k: Kernel, p: Parameters, n: nat, d: nat, data: Mat, q: Path)
    requires p.Fits(n, d) && IsData(data, d) && IsStates(n, data, q)
    ensures var h := ObserveLogs(k, p, n, d, data);
            IsPath(h, q) && V.Score(h, q) == PathScore(k, p, n, d, data, q)
    decreases |q|
  {
    hide LogPdf;
    if |q| > 1 {
      ScoreOfPath(k, p, n, d, data, q[..|q| - 1]);
    }
  }

  /** Training and posteriors weigh sequences so. */
  lemma {:induction false} WeightOfPath(k: Kernel, p: Parameters, n: nat, d: nat, data: Mat, q: Path)
    requires p.Fits(n, d) && IsData(data, d) && IsStates(n, data, q)
    ensures var h := Observe(k, p, n, d, data);
            IsPath(h, q) && Weight(h, q) == PathWeight(k, p, n, d, data, q)
    decreases |q|
  {
    hide LogPdf;
    if |q| > 1 {
      hide Mul;
      WeightOfPath(k, p, n, d, data, q[..|q| - 1]);
    }
  }

  /** A state sequence for all rows with its score, that no other one beats; among equals it is
      the one with the smallest state at every time, latest first. */
  ghost predicate IsBest(k: Kernel, p: Parameters, n: nat, d: nat, data: Mat, path: Path, score: real)
    requires p.Fits(n, d) && IsData(data, d)
  {
    && |path| == |data| && IsStates(n, data, path)
    && PathScore(k, p, n, d, data, path) == score
    && (forall q: Path | |q| == |data| && IsStates(n, data, q) :: PathScore(k, p, n, d, data, q) <= score)
    && (forall q: Path | |q| == |data| && IsStates(n, data, q) && PathScore(k, p, n, d, data, q) == score ::
          q == path || V.ChosenBefore(path, q))
  }

  lemma BestOfParameters(k: Kernel, p: Parameters, n: nat, d: nat, data: Mat, path: Path, score: real)
    requires p.Fits(n, d) && IsData(data, d) && V.IsViterbi(ObserveLogs(k, p, n, d, data), path, score)
    ensures IsBest(k, p, n, d, data, path, score)
  {
    hide V.Score, PathScore, ObserveLogs, V.ChosenBefore;
    var h := ObserveLogs(k, p, n, d, data);
    ScoreOfPath(k, p, n, d, data, path);
    forall q: Path | |q| == |data| && IsStates(n, data, q)
      ensures IsPath(h, q) && V.Score(h, q) == PathScore(k, p, n, d, data, q)
    {
      ScoreOfPath(k, p, n, d, data, q);
    }
  }

  // ---- the density ----

  /** One coordinate's part of minus twice the log-density. */
  function CoordinateCost(k: Kernel, x: real, mean: real, variance: real): real
    requires variance > 0.0
  {
    k.log(k.twoPi) + k.log(variance) + SquaredError(x, mean, variance)
  }

  function CoordinateCosts(k: Kernel, x: Vec, mean: Vec, variance: Vec): (w: Vec)
    requires |x| == |mean| == |variance| && forall i | 0 <= i < |variance| :: variance[i] > 0.0
    ensures |w| == |x|
  {
    seq(|x|, i requires 0 <= i < |x| => CoordinateCost(k, x[i], mean[i], variance[i]))
  }

  /** Coordinates are independent: the log-density is minus half the sum of their costs, cut off
      at the least value allowed; a variance that is not positive gives that value at once. */
  lemma LogPdfByCoordinate(k: Kernel, x: Vec, mean: Vec, variance: Vec)
    requires |x| == |mean| == |variance|
    ensures (exists i :: 0 <= i < |variance| && variance[i] <= 0.0) ==> LogPdf(k, x, mean, variance) == MIN_LOG_PDF
    ensures (forall i | 0 <= i < |variance| :: variance[i] > 0.0) ==>
              LogPdf(k, x, mean, variance) == Max(-0.5 * Sum(CoordinateCosts(k, x, mean, variance)), MIN_LOG_PDF)
  {
    hide CoordinateCosts, SquaredErrors, Logs, Mul;
    if forall i | 0 <= i < |variance| :: variance[i] > 0.0 {
      CostsSum(k, x, mean, variance);
    }
  }

  lemma {:induction false} CostsSum(k: Kernel, x: Vec, mean: Vec, variance: Vec)
    requires |x| == |mean| == |variance| && forall i | 0 <= i < |variance| :: variance[i] > 0.0
    ensures Sum(CoordinateCosts(k, x, mean, variance)) ==
            Mul(|x| as real, k.log(k.twoPi)) + Sum(Logs(k, variance)) + Sum(SquaredErrors(x, mean, variance))
  {
    hide CoordinateCosts, SquaredErrors, Logs, Mul;
    if x == [] {
      ZeroTimes(k.log(k.twoPi));
    } else {
      var m := |x| - 1;
      CostsSum(k, x[..m], mean[..m], variance[..m]);
      CostsFront(k, x, mean, variance);
      Distribute(m as real, 1.0, k.log(k.twoPi));
      MulCommutes(1.0, k.log(k.twoPi));
      MulOne(k.log(k.twoPi));
    }
  }

  lemma CostsFront(k: Kernel, x: Vec, mean: Vec, variance: Vec)
    requires |x| == |mean| == |variance| > 0 && forall i | 0 <= i < |variance| :: variance[i] > 0.0
    ensures var m := |x| - 1;
            var costs, errors := CoordinateCosts(k, x, mean, variance), SquaredErrors(x, mean, variance);
            && costs[..m] == CoordinateCosts(k, x[..m], mean[..m], variance[..m])
            && Logs(k, variance)[..m] == Logs(k, variance[..m])
            && errors[..m] == SquaredErrors(x[..m], mean[..m], variance[..m])
            && costs[m] == k.log(k.twoPi) + Logs(k, variance)[m] + errors[m]
  {
    hide SquaredError;
  }

  /** A row no farther from the mean in any coordinate is no less likely. */
  lemma LogPdfNearer(k: Kernel, x: Vec, y: Vec, mean: Vec, variance: Vec)
    requires |x| == |y| == |mean| == |variance|
    requires forall i | 0 <= i < |x| :: Abs(x[i] - mean[i]) <= Abs(y[i] - mean[i])
    ensures LogPdf(k, x, mean, variance) >= LogPdf(k, y, mean, variance)
  {
    hide SquaredErrors, Logs;
    if forall i | 0 <= i < |variance| :: variance[i] > 0.0 {
      ErrorsMonotone(x, y, mean, variance);
    }
  }

  lemma ErrorsMonotone(x: Vec, y: Vec, mean: Vec, variance: Vec)
    requires |x| == |y| == |mean| == |variance| && forall i | 0 <= i < |variance| :: variance[i] > 0.0
    requires forall i | 0 <= i < |x| :: Abs(x[i] - mean[i]) <= Abs(y[i] - mean[i])
    ensures Sum(SquaredErrors(x, mean, variance)) <= Sum(SquaredErrors(y, mean, variance))
  {
    hide Abs;
    var u, v := SquaredErrors(x, mean, variance), SquaredErrors(y, mean, variance);
    forall i | 0 <= i < |x|
      ensures u[i] <= v[i]
    {
      NearerSquare(x[i] - mean[i], y[i] - mean[i], variance[i]);
    }
    SumMonotone(u, v);
  }

  lemma NearerSquare(a: real, b: real, variance: real)
    requires Abs(a) <= Abs(b) && variance > 0.0
    ensures a * a / variance <= b * b / variance
  {
    ProductBetween(Abs(a), 0.0, Abs(a), Abs(b));
    ProductBetween(Abs(b), 0.0, Abs(a), Abs(b));
    MulCommutes(Abs(a), Abs(b));
    SquareOfAbs(a);
    SquareOfAbs(b);
    DivideMonotone(a * a, b * b, variance);
  }

  lemma SquareOfAbs(a: real)
    ensures Mul(Abs(a), Abs(a)) == a * a
  {
  }

  lemma {:induction false} SumMonotone(u: Vec, v: Vec)
    requires |u| == |v| && forall i | 0 <= i < |u| :: u[i] <= v[i]
    ensures Sum(u) <= Sum(v)
  {
    if u != [] {
      SumMonotone(u[..|u| - 1], v[..|v| - 1]);
    }
  }
}
