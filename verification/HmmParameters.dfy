/** Model parameters, the Gaussian emission weights they give a data set, and the
    parameters one expectation-maximisation step replaces them with. */
module HmmParameters {
  import opened Reals
  import opened Vectors
  import opened HmmPaths
  import opened HmmScaling
  import opened HmmReestimation

  /** The elementary functions the densities are built from. */
  datatype Kernel = Kernel(exp: real -> real, log: real -> real, twoPi: real) {
    ghost predicate Valid() {
      forall x: real :: exp(x) >= 0.0
    }
  }

  datatype Parameters = Parameters(initial: Vec, transition: Mat, means: Mat, variances: Mat) {
    predicate Fits(n: nat, d: nat) {
      && n > 0
      && |initial| == n
      && IsMatrix(transition, n, n)
      && IsMatrix(means, n, d)
      && IsMatrix(variances, n, d)
    }

    /** What every step of training keeps. */
    predicate WellFormed(n: nat, d: nat) {
      && Fits(n, d)
      && (forall s | 0 <= s < n :: 0.0 <= initial[s] <= 1.0)
      && (forall s | 0 <= s < n :: NonNegative(transition[s]) && Sum(transition[s]) == 1.0)
    }
  }

  const MIN_LOG_PDF: real := -1000000000.0

  /** Added to a probability before its logarithm is taken. */
  const TINY: real := 1e-300

  function Logs(k: Kernel, v: Vec): (w: Vec)
    ensures |w| == |v|
  {
    seq(|v|, i requires 0 <= i < |v| => k.log(v[i]))
  }

  function SquaredError(x: real, mean: real, variance: real): real
    requires variance > 0.0
  {
    (x - mean) * (x - mean) / variance
  }

  function SquaredErrors(x: Vec, mean: Vec, variance: Vec): (w: Vec)
    requires |x| == |mean| == |variance|
    requires forall i | 0 <= i < |variance| :: variance[i] > 0.0
    ensures |w| == |x|
  {
    seq(|x|, i requires 0 <= i < |x| => SquaredError(x[i], mean[i], variance[i]))
  }

  function LogPdf(k: Kernel, x: Vec, mean: Vec, variance: Vec): real
    requires |x| == |mean| == |variance|
  {
    if exists i | 0 <= i < |variance| :: variance[i] <= 0.0 then MIN_LOG_PDF
    else
      var constants := Mul(|x| as real, k.log(k.twoPi)) + Sum(Logs(k, variance));
      Max(-0.5 * (constants + Sum(SquaredErrors(x, mean, variance))), MIN_LOG_PDF)
  }

  predicate OfWidth(data: Mat, d: nat) {
    forall t | 0 <= t < |data| :: |data[t]| == d
  }

  predicate IsData(data: Mat, d: nat) {
    |data| > 0 && OfWidth(data, d)
  }

  /** The model the parameters give for these observations. */
  function Observe(k: Kernel, p: Parameters, n: nat, d: nat, data: Mat): (h: Hmm)
    requires p.Fits(n, d) && IsData(data, d)
    ensures h.Valid() && h.States() == n && h.Length() == |data|
  {
    Hmm(p.initial, p.transition,
        seq(|data|, t requires 0 <= t < |data| =>
          seq(n, s requires 0 <= s < n => k.exp(LogPdf(k, data[t], p.means[s], p.variances[s])))))
  }

  /** The log-scores decoding adds up. */
  function ObserveLogs(k: Kernel, p: Parameters, n: nat, d: nat, data: Mat): (h: Hmm)
    requires p.Fits(n, d) && IsData(data, d)
    ensures h.Valid() && h.States() == n && h.Length() == |data|
  {
    Hmm(seq(n, s requires 0 <= s < n => k.log(p.initial[s] + TINY)),
        seq(n, r requires 0 <= r < n => seq(n, s requires 0 <= s < n => k.log(p.transition[r][s] + TINY))),
        seq(|data|, t requires 0 <= t < |data| =>
          seq(n, s requires 0 <= s < n => LogPdf(k, data[t], p.means[s], p.variances[s]))))
  }

  lemma ObserveWeighted(k: Kernel, p: Parameters, n: nat, d: nat, data: Mat)
    requires k.Valid() && p.WellFormed(n, d) && IsData(data, d)
    ensures Observe(k, p, n, d, data).Weighted()
  {
    var h := Observe(k, p, n, d, data);
    forall t | 0 <= t < |data|
      ensures NonNegative(h.emission[t])
    {
    }
  }

  // ---- one re-estimation step ----

  /** gamma[t, s] over time, for one state. */
  ghost function StateGamma(h: Hmm, s: nat): (v: Vec)
    requires h.Valid() && s < h.States()
    ensures |v| == h.Length()
  {
    seq(h.Length(), t requires 0 <= t < h.Length() => Gamma(h, t)[s])
  }

  /** The expected number of visits to s. */
  ghost function Visits(h: Hmm, s: nat): real
    requires h.Valid() && s < h.States()
  {
    Sum(StateGamma(h, s))
  }

  /** xi[t, s, r] over time, for one step. */
  ghost function StepXi(h: Hmm, s: nat, r: nat): (v: Vec)
    requires h.Valid() && s < h.States() && r < h.States()
    ensures |v| == h.Length() - 1
  {
    seq(h.Length() - 1, t requires 0 <= t < h.Length() - 1 => Xi(h, t, s)[r])
  }

  /** The expected number of steps out of s, by next state. */
  ghost function Steps(h: Hmm, s: nat): (v: Vec)
    requires h.Valid() && s < h.States()
    ensures |v| == h.States()
  {
    seq(h.States(), r requires 0 <= r < h.States() => Sum(StepXi(h, s, r)))
  }

  /** A row of counts made into probabilities; a row that cannot be divided is kept. */
  function RowFrom(counts: Vec, fallback: Vec): (v: Vec)
    requires |counts| == |fallback|
    ensures |v| == |counts|
  {
    if Sum(counts) == 0.0 then fallback
    else seq(|counts|, i requires 0 <= i < |counts| => counts[i] / Sum(counts))
  }

  ghost function NewMean(h: Hmm, data: Mat, s: nat, j: nat): real
    requires h.Valid() && s < h.States() && |data| == h.Length()
    requires forall t | 0 <= t < |data| :: j < |data[t]|
  {
    Dot(StateGamma(h, s), Column(data, j)) / Positive(Visits(h, s))
  }

  ghost function NewVariance(h: Hmm, data: Mat, floor: real, s: nat, j: nat): real
    requires h.Valid() && s < h.States() && |data| == h.Length()
    requires forall t | 0 <= t < |data| :: j < |data[t]|
  {
    Max(Dot(StateGamma(h, s), SquaresAround(Column(data, j), NewMean(h, data, s, j))) / Positive(Visits(h, s)), floor)
  }

  ghost function Reestimated(h: Hmm, data: Mat, d: nat, floor: real): (p: Parameters)
    requires h.Valid() && |data| == h.Length() && IsData(data, d)
    ensures p.Fits(h.States(), d)
  {
    var n := h.States();
    Parameters(
      seq(n, s requires 0 <= s < n => Gamma(h, 0)[s] / Positive(Visits(h, s))),
      seq(n, s requires 0 <= s < n => RowFrom(Steps(h, s), h.transition[s])),
      seq(n, s requires 0 <= s < n => seq(d, j requires 0 <= j < d => NewMean(h, data, s, j))),
      seq(n, s requires 0 <= s < n => seq(d, j requires 0 <= j < d => NewVariance(h, data, floor, s, j))))
  }

  // ---- every step keeps the model well formed ----

  lemma StateGammaNonNegative(h: Hmm, s: nat)
    requires h.Weighted() && s < h.States()
    ensures NonNegative(StateGamma(h, s))
    ensures 0.0 <= Gamma(h, 0)[s] <= Visits(h, s)
  {
    forall t | 0 <= t < h.Length()
      ensures StateGamma(h, s)[t] >= 0.0
    {
      GammaSums(h, t);
    }
    SumNonNegative(StateGamma(h, s));
    assert StateGamma(h, s)[0] == Gamma(h, 0)[s];
  }

  lemma ShareInUnit(x: real, total: real)
    requires 0.0 <= x <= total
    ensures 0.0 <= x / Positive(total) <= 1.0
  {
    if total > 0.0 {
      MulOne(total);
      MulCommutes(total, 0.0);
      ZeroTimes(total);
      QuotientBetween(total, 0.0, x, 1.0);
    }
  }

  lemma XiNonNegative(h: Hmm, t: nat, s: nat)
    requires h.Weighted() && t + 1 < h.Length() && s < h.States()
    ensures NonNegative(Xi(h, t, s))
  {
    JointNonNegative(h, t, s);
    ShrunkNonNegative(JointRow(h, t, s), JointTotal(h, t));
  }

  lemma StepsNonNegative(h: Hmm, s: nat)
    requires h.Weighted() && s < h.States()
    ensures NonNegative(Steps(h, s))
  {
    forall r | 0 <= r < h.States()
      ensures Steps(h, s)[r] >= 0.0
    {
      forall t | 0 <= t < h.Length() - 1
        ensures StepXi(h, s, r)[t] >= 0.0
      {
        XiNonNegative(h, t, s);
      }
      SumNonNegative(StepXi(h, s, r));
    }
  }

  /** A row of non-negative counts becomes a distribution, or stays the one it was. */
  lemma RowFromStochastic(counts: Vec, fallback: Vec)
    requires |counts| == |fallback| && NonNegative(counts)
    requires NonNegative(fallback) && Sum(fallback) == 1.0
    ensures NonNegative(RowFrom(counts, fallback)) && Sum(RowFrom(counts, fallback)) == 1.0
  {
    var c := Sum(counts);
    SumNonNegative(counts);
    if c != 0.0 {
      var row := RowFrom(counts, fallback);
      assert row == Shrunk(counts, c);
      ShrunkNonNegative(counts, c);
      ShrunkScales(counts, c);
      SumScaled(c, row);
      Cancel(c, Sum(row));
    }
  }

  /** A weighted average lies between any bounds of what it averages. */
  lemma {:induction false} AverageBetween(w: Vec, x: Vec, lo: real, hi: real)
    requires |w| == |x| && NonNegative(w)
    requires forall t | 0 <= t < |x| :: lo <= x[t] <= hi
    ensures Mul(Sum(w), lo) <= Dot(w, x) <= Mul(Sum(w), hi)
  {
    if w != [] {
      var m := |w| - 1;
      AverageBetween(w[..m], x[..m], lo, hi);
      ProductBetween(w[m], lo, x[m], hi);
      Distribute(Sum(w[..m]), w[m], lo);
      Distribute(Sum(w[..m]), w[m], hi);
    }
  }

  /** The re-estimated mean of a state that is ever visited stays inside the data. */
  lemma NewMeanInRange(h: Hmm, data: Mat, s: nat, j: nat, lo: real, hi: real)
    requires h.Weighted() && s < h.States() && |data| == h.Length()
    requires forall t | 0 <= t < |data| :: j < |data[t]| && lo <= data[t][j] <= hi
    requires Visits(h, s) > 0.0
    ensures lo <= NewMean(h, data, s, j) <= hi
  {
    StateGammaNonNegative(h, s);
    AverageBetween(StateGamma(h, s), Column(data, j), lo, hi);
    QuotientBetween(Visits(h, s), lo, Dot(StateGamma(h, s), Column(data, j)), hi);
  }

  /** The re-estimated mean of a state that is never visited is zero. */
  lemma NewMeanUnvisited(h: Hmm, data: Mat, s: nat, j: nat)
    requires h.Weighted() && s < h.States() && |data| == h.Length()
    requires forall t | 0 <= t < |data| :: j < |data[t]|
    requires Visits(h, s) == 0.0
    ensures NewMean(h, data, s, j) == 0.0
  {
    StateGammaNonNegative(h, s);
    SumZero(StateGamma(h, s));
    DotZero(StateGamma(h, s), Column(data, j));
  }

  /** One step of training keeps the model well formed and its variances above the floor. */
  lemma ReestimatedWellFormed(h: Hmm, data: Mat, d: nat, floor: real)
    requires h.Weighted() && |data| == h.Length() && IsData(data, d)
    requires forall s | 0 <= s < h.States() :: Sum(h.transition[s]) == 1.0
    ensures Reestimated(h, data, d, floor).WellFormed(h.States(), d)
    ensures forall s, j | 0 <= s < h.States() && 0 <= j < d :: Reestimated(h, data, d, floor).variances[s][j] >= floor
  {
    hide Gamma, Visits, Steps, RowFrom, NewMean, NewVariance, NonNegative;
    forall s | 0 <= s < h.States()
      ensures 0.0 <= Gamma(h, 0)[s] / Positive(Visits(h, s)) <= 1.0
      ensures NonNegative(RowFrom(Steps(h, s), h.transition[s]))
      ensures Sum(RowFrom(Steps(h, s), h.transition[s])) == 1.0
    {
      StateWellFormed(h, s);
    }
    forall s, j | 0 <= s < h.States() && 0 <= j < d
      ensures NewVariance(h, data, floor, s, j) >= floor
    {
      VarianceFloored(h, data, floor, s, j);
    }
  }

  lemma StateWellFormed(h: Hmm, s: nat)
    requires h.Weighted() && s < h.States() && Sum(h.transition[s]) == 1.0
    ensures 0.0 <= Gamma(h, 0)[s] / Positive(Visits(h, s)) <= 1.0
    ensures NonNegative(RowFrom(Steps(h, s), h.transition[s]))
    ensures Sum(RowFrom(Steps(h, s), h.transition[s])) == 1.0
  {
    hide Gamma, Visits, Steps, RowFrom, Positive, NonNegative;
    StateGammaNonNegative(h, s);
    ShareInUnit(Gamma(h, 0)[s], Visits(h, s));
    StepsNonNegative(h, s);
    assert NonNegative(h.transition[s]);
    RowFromStochastic(Steps(h, s), h.transition[s]);
  }

  lemma VarianceFloored(h: Hmm, data: Mat, floor: real, s: nat, j: nat)
    requires h.Valid() && s < h.States() && |data| == h.Length()
    requires forall t | 0 <= t < |data| :: j < |data[t]|
    ensures NewVariance(h, data, floor, s, j) >= floor
  {
    hide StateGamma, Visits, NewMean, Dot;
  }
}
