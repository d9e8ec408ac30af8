/** The technical indicators, column in and column out.

    A column may be computed over the whole frame at once, so every indicator comes
    with the two-run lemma that matters: columns that agree on their first k entries
    give results that agree on their first k entries. */
module Indicators {
  import opened Reals
  import Vectors
  import opened Wrappers
  import opened Columns
  import opened ExponentialMeans
  import opened RollingWindows

  // ---- differences ----

  function Diff(xs: seq<real>): (c: Column)
    ensures |c| == |xs|
  {
    seq(|xs|, i requires 0 <= i < |xs| => if i == 0 then None else Some(xs[i] - xs[i - 1]))
  }

  lemma DiffAgree(xs: seq<real>, ys: seq<real>, k: nat)
    requires AgreeTo(xs, ys, k)
    ensures AgreeTo(Diff(xs), Diff(ys), k)
  {
    forall i | 0 <= i < k
      ensures Diff(xs)[i] == Diff(ys)[i]
    {
      AgreeAt(xs, ys, k, i);
      if i > 0 {
        AgreeAt(xs, ys, k, i - 1);
      }
    }
  }

  function Clipped(xs: Column, f: real -> real): (c: Column)
    ensures |c| == |xs|
  {
    seq(|xs|, i requires 0 <= i < |xs| => if xs[i].Some? then Some(f(xs[i].value)) else None)
  }

  lemma ClippedAgree(xs: Column, ys: Column, f: real -> real, k: nat)
    requires AgreeTo(xs, ys, k)
    ensures AgreeTo(Clipped(xs, f), Clipped(ys, f), k)
  {
    forall i | 0 <= i < k
      ensures Clipped(xs, f)[i] == Clipped(ys, f)[i]
    {
      AgreeAt(xs, ys, k, i);
    }
  }

  // ---- RSI ----

  function RisePart(x: real): real {
    Max(x, 0.0)
  }

  function FallPart(x: real): real {
    -Min(x, 0.0)
  }

  function Gains(close: seq<real>): (c: Column)
    ensures |c| == |close|
    ensures forall i | 0 <= i < |c| && c[i].Some? :: c[i].value >= 0.0
  {
    Clipped(Diff(close), RisePart)
  }

  function Losses(close: seq<real>): (c: Column)
    ensures |c| == |close|
    ensures forall i | 0 <= i < |c| && c[i].Some? :: c[i].value >= 0.0
  {
    Clipped(Diff(close), FallPart)
  }

  /** No losses reads 100, no moves at all reads 50. */
  function RsiValue(gain: real, loss: real): Option<real> {
    if loss == 0.0 then Some(if gain == 0.0 then 50.0 else 100.0)
    else if 1.0 + gain / loss == 0.0 then None
    else Some(100.0 - 100.0 / (1.0 + gain / loss))
  }

  function Rsi(close: seq<real>, period: nat): (c: Column)
    requires period >= 2
    ensures |c| == |close|
  {
    Zip(RsiValue, Wilder(Gains(close), period), Wilder(Losses(close), period))
  }

  lemma RsiAgree(xs: seq<real>, ys: seq<real>, period: nat, k: nat)
    requires period >= 2 && AgreeTo(xs, ys, k)
    ensures AgreeTo(Rsi(xs, period), Rsi(ys, period), k)
  {
    DiffAgree(xs, ys, k);
    ClippedAgree(Diff(xs), Diff(ys), RisePart, k);
    ClippedAgree(Diff(xs), Diff(ys), FallPart, k);
    EwmMeanAgree(Gains(xs), Gains(ys), Reciprocal(period), period, k);
    EwmMeanAgree(Losses(xs), Losses(ys), Reciprocal(period), period, k);
    ZipAgree(RsiValue, Wilder(Gains(xs), period), Wilder(Losses(xs), period),
             Wilder(Gains(ys), period), Wilder(Losses(ys), period), k);
  }

  lemma PercentWithin(gain: real, loss: real)
    requires gain >= 0.0 && loss >= 0.0
    ensures RsiValue(gain, loss).Some? && 0.0 <= RsiValue(gain, loss).value <= 100.0
  {
    if loss > 0.0 {
      var r := gain / loss;
      DivideMonotone(0.0, gain, loss);
      assert 100.0 / (1.0 + r) <= 100.0;
    }
  }

  /** The documented range: every defined RSI lies between 0 and 100. */
  lemma RsiInRange(close: seq<real>, period: nat)
    requires period >= 2
    ensures Within(Rsi(close, period), 0.0, 100.0)
  {
    var g, l := Wilder(Gains(close), period), Wilder(Losses(close), period);
    WilderNonNegative(Gains(close), period);
    WilderNonNegative(Losses(close), period);
    forall i | 0 <= i < |close| && Rsi(close, period)[i].Some?
      ensures 0.0 <= Rsi(close, period)[i].value <= 100.0
    {
      PercentWithin(g[i].value, l[i].value);
    }
  }

  predicate NonNegativeColumn(xs: Column) {
    forall i | 0 <= i < |xs| && xs[i].Some? :: xs[i].value >= 0.0
  }

  /** Smoothing keeps a column non-negative. */
  lemma WilderNonNegative(xs: Column, period: nat)
    requires period >= 2 && NonNegativeColumn(xs)
    ensures NonNegativeColumn(Wilder(xs, period))
  {
    forall i | 0 <= i < |xs|
      ensures var m := EwmAt(xs, Reciprocal(period), i).mean; m.Some? ==> m.value >= 0.0
    {
      EwmAtNonNegative(xs, Reciprocal(period), i);
    }
  }

  lemma {:induction false} EwmAtNonNegative(xs: Column, alpha: real, i: nat)
    requires 0.0 < alpha <= 1.0 && i < |xs| && NonNegativeColumn(xs)
    ensures var m := EwmAt(xs, alpha, i).mean; m.Some? ==> m.value >= 0.0
  {
    hide Blend, Decayed;
    if i > 0 {
      var e := EwmAt(xs, alpha, i - 1);
      EwmAtNonNegative(xs, alpha, i - 1);
      if e.mean.Some? && xs[i].Some? {
        BlendWithin(Decayed(e.weight, alpha), e.mean.value, alpha, xs[i].value,
                    0.0, Max(e.mean.value, xs[i].value));
      }
    }
  }

  // ---- true range, ATR ----

  function Greatest(x: real, y: real, z: real): real {
    Max(Max(x, y), z)
  }

  /** Wilder's true range; the first bar has no previous close. */
  function TrueRange(high: seq<real>, low: seq<real>, close: seq<real>): (c: Column)
    requires |high| == |low| == |close|
    ensures |c| == |close|
    ensures NonNegativeColumn(c)
    ensures forall i | 0 <= i < |c| :: c[i].Some? <==> i > 0
  {
    seq(|close|, i requires 0 <= i < |close| =>
      if i == 0 then None
      else Some(Greatest(high[i] - low[i], Abs(high[i] - close[i - 1]), Abs(low[i] - close[i - 1]))))
  }

  lemma TrueRangeAgree(h: seq<real>, l: seq<real>, c: seq<real>, h': seq<real>, l': seq<real>, c': seq<real>, k: nat)
    requires |h| == |l| == |c| && |h'| == |l'| == |c'|
    requires AgreeTo(h, h', k) && AgreeTo(l, l', k) && AgreeTo(c, c', k)
    ensures AgreeTo(TrueRange(h, l, c), TrueRange(h', l', c'), k)
  {
    forall i | 0 <= i < k
      ensures TrueRange(h, l, c)[i] == TrueRange(h', l', c')[i]
    {
      AgreeAt(h, h', k, i);
      AgreeAt(l, l', k, i);
      if i > 0 {
        AgreeAt(c, c', k, i - 1);
      }
    }
  }

  function Atr(high: seq<real>, low: seq<real>, close: seq<real>, period: nat): (c: Column)
    requires |high| == |low| == |close| && period >= 2
    ensures |c| == |close|
  {
    Wilder(TrueRange(high, low, close), period)
  }

  lemma AtrAgree(h: seq<real>, l: seq<real>, c: seq<real>, h': seq<real>, l': seq<real>, c': seq<real>,
                 period: nat, k: nat)
    requires |h| == |l| == |c| && |h'| == |l'| == |c'| && period >= 2
    requires AgreeTo(h, h', k) && AgreeTo(l, l', k) && AgreeTo(c, c', k)
    ensures AgreeTo(Atr(h, l, c, period), Atr(h', l', c', period), k)
  {
    TrueRangeAgree(h, l, c, h', l', c', k);
    EwmMeanAgree(TrueRange(h, l, c), TrueRange(h', l', c'), Reciprocal(period), period, k);
  }

  lemma {:induction false} EwmCountsAfterFirst(xs: Column, alpha: real, i: nat)
    requires 0.0 < alpha <= 1.0 && i < |xs|
    requires forall j | 0 <= j < |xs| :: xs[j].Some? <==> j > 0
    ensures EwmAt(xs, alpha, i).count == i && (EwmAt(xs, alpha, i).mean.Some? <==> i > 0)
  {
    hide Blend, Decayed;
    if i > 0 {
      EwmCountsAfterFirst(xs, alpha, i - 1);
    }
  }

  /** ATR is undefined for exactly the first `period` bars, and never negative. */
  lemma AtrWarmup(h: seq<real>, l: seq<real>, c: seq<real>, period: nat)
    requires |h| == |l| == |c| && period >= 2
    ensures forall i | 0 <= i < |c| :: Atr(h, l, c, period)[i].Some? <==> i >= period
    ensures NonNegativeColumn(Atr(h, l, c, period))
  {
    var tr := TrueRange(h, l, c);
    forall i | 0 <= i < |c|
      ensures Atr(h, l, c, period)[i].Some? <==> i >= period
    {
      EwmCountsAfterFirst(tr, Reciprocal(period), i);
    }
    WilderNonNegative(tr, period);
  }

  // ---- ADX ----

  /** A directional move counts when it is positive and beats the other side's. */
  function Move(ours: Option<real>, theirs: Option<real>): real {
    if ours.Some? && theirs.Some? && ours.value > theirs.value && ours.value > 0.0 then ours.value else 0.0
  }

  function PlusMoves(high: seq<real>, low: seq<real>): (c: Column)
    requires |high| == |low|
    ensures |c| == |high| && NonNegativeColumn(c)
  {
    seq(|high|, i requires 0 <= i < |high| => Some(Move(Diff(high)[i], Negated(Diff(low)[i]))))
  }

  function MinusMoves(high: seq<real>, low: seq<real>): (c: Column)
    requires |high| == |low|
    ensures |c| == |high| && NonNegativeColumn(c)
  {
    seq(|high|, i requires 0 <= i < |high| => Some(Move(Negated(Diff(low)[i]), Diff(high)[i])))
  }

  function Negated(x: Option<real>): Option<real> {
    if x.Some? then Some(-x.value) else None
  }

  /** 100 * x / y, undefined when y is zero. */
  function Percent(x: real, y: real): Option<real> {
    if y == 0.0 then None else Some(100.0 * x / y)
  }

  function DirectionalIndex(plus: real, minus: real): Option<real> {
    Percent(Abs(plus - minus), plus + minus)
  }

  function Adx(high: seq<real>, low: seq<real>, close: seq<real>, period: nat): (c: Column)
    requires |high| == |low| == |close| && period >= 2
    ensures |c| == |close|
  {
    var atr := Atr(high, low, close, period);
    var plus := Zip(Percent, Wilder(PlusMoves(high, low), period), atr);
    var minus := Zip(Percent, Wilder(MinusMoves(high, low), period), atr);
    Wilder(Zip(DirectionalIndex, plus, minus), period)
  }

  lemma MovesAgree(h: seq<real>, l: seq<real>, h': seq<real>, l': seq<real>, k: nat)
    requires |h| == |l| && |h'| == |l'| && AgreeTo(h, h', k) && AgreeTo(l, l', k)
    ensures AgreeTo(PlusMoves(h, l), PlusMoves(h', l'), k)
    ensures AgreeTo(MinusMoves(h, l), MinusMoves(h', l'), k)
  {
    DiffAgree(h, h', k);
    DiffAgree(l, l', k);
    forall i | 0 <= i < k
      ensures PlusMoves(h, l)[i] == PlusMoves(h', l')[i]
      ensures MinusMoves(h, l)[i] == MinusMoves(h', l')[i]
    {
      AgreeAt(Diff(h), Diff(h'), k, i);
      AgreeAt(Diff(l), Diff(l'), k, i);
    }
  }

  lemma AdxAgree(h: seq<real>, l: seq<real>, c: seq<real>, h': seq<real>, l': seq<real>, c': seq<real>,
                 period: nat, k: nat)
    requires |h| == |l| == |c| && |h'| == |l'| == |c'| && period >= 2
    requires AgreeTo(h, h', k) && AgreeTo(l, l', k) && AgreeTo(c, c', k)
    ensures AgreeTo(Adx(h, l, c, period), Adx(h', l', c', period), k)
  {
    var a := Reciprocal(period);
    var atr, atr' := Atr(h, l, c, period), Atr(h', l', c', period);
    AtrAgree(h, l, c, h', l', c', period, k);
    MovesAgree(h, l, h', l', k);
    EwmMeanAgree(PlusMoves(h, l), PlusMoves(h', l'), a, period, k);
    EwmMeanAgree(MinusMoves(h, l), MinusMoves(h', l'), a, period, k);
    var up, up' := Wilder(PlusMoves(h, l), period), Wilder(PlusMoves(h', l'), period);
    var down, down' := Wilder(MinusMoves(h, l), period), Wilder(MinusMoves(h', l'), period);
    ZipAgree(Percent, up, atr, up', atr', k);
    ZipAgree(Percent, down, atr, down', atr', k);
    var plus, plus' := Zip(Percent, up, atr), Zip(Percent, up', atr');
    var minus, minus' := Zip(Percent, down, atr), Zip(Percent, down', atr');
    ZipAgree(DirectionalIndex, plus, minus, plus', minus', k);
    EwmMeanAgree(Zip(DirectionalIndex, plus, minus), Zip(DirectionalIndex, plus', minus'), a, period, k);
  }

  lemma PercentNonNegative(x: real, y: real)
    requires x >= 0.0 && y >= 0.0
    ensures Percent(x, y).Some? ==> Percent(x, y).value >= 0.0
  {
    if y > 0.0 {
      DivideMonotone(0.0, 100.0 * x, y);
    }
  }

  lemma DirectionalIndexWithin(plus: real, minus: real)
    requires plus >= 0.0 && minus >= 0.0
    ensures var d := DirectionalIndex(plus, minus); d.Some? ==> 0.0 <= d.value <= 100.0
  {
    var t := plus + minus;
    if t > 0.0 {
      DivideMonotone(0.0, 100.0 * Abs(plus - minus), t);
      DivideMonotone(100.0 * Abs(plus - minus), 100.0 * t, t);
      assert (100.0 * t) / t == 100.0;
    }
  }

  /** The documented range: every defined ADX lies between 0 and 100. */
  lemma AdxInRange(high: seq<real>, low: seq<real>, close: seq<real>, period: nat)
    requires |high| == |low| == |close| && period >= 2
    ensures Within(Adx(high, low, close, period), 0.0, 100.0)
  {
    var atr := Atr(high, low, close, period);
    var up, down := Wilder(PlusMoves(high, low), period), Wilder(MinusMoves(high, low), period);
    var plus, minus := Zip(Percent, up, atr), Zip(Percent, down, atr);
    WilderNonNegative(TrueRange(high, low, close), period);
    WilderNonNegative(PlusMoves(high, low), period);
    WilderNonNegative(MinusMoves(high, low), period);
    var dx := Zip(DirectionalIndex, plus, minus);
    forall i | 0 <= i < |dx| && dx[i].Some?
      ensures 0.0 <= dx[i].value <= 100.0
    {
      PercentNonNegative(up[i].value, atr[i].value);
      PercentNonNegative(down[i].value, atr[i].value);
      DirectionalIndexWithin(plus[i].value, minus[i].value);
    }
    EwmMeanWithin(dx, Reciprocal(period), period, 0.0, 100.0);
  }

  // ---- MACD, stochastic, Bollinger width ----

  function Difference(x: real, y: real): Option<real> {
    Some(x - y)
  }

  function MacdLine(close: Column, fast: nat, slow: nat): (c: Column)
    requires 2 <= fast < slow
    ensures |c| == |close|
  {
    Zip(Difference, Ema(close, fast), Ema(close, slow))
  }

  function MacdHistogram(close: Column, fast: nat, slow: nat, signal: nat): (c: Column)
    requires 2 <= fast < slow && signal >= 2
    ensures |c| == |close|
  {
    var line := MacdLine(close, fast, slow);
    Zip(Difference, line, Ema(line, signal))
  }

  lemma MacdAgree(xs: Column, ys: Column, fast: nat, slow: nat, signal: nat, k: nat)
    requires 2 <= fast < slow && signal >= 2 && AgreeTo(xs, ys, k)
    ensures AgreeTo(MacdHistogram(xs, fast, slow, signal), MacdHistogram(ys, fast, slow, signal), k)
  {
    EwmMeanAgree(xs, ys, SpanWeight(fast), fast, k);
    EwmMeanAgree(xs, ys, SpanWeight(slow), slow, k);
    ZipAgree(Difference, Ema(xs, fast), Ema(xs, slow), Ema(ys, fast), Ema(ys, slow), k);
    var u, v := MacdLine(xs, fast, slow), MacdLine(ys, fast, slow);
    EwmMeanAgree(u, v, SpanWeight(signal), signal, k);
    ZipAgree(Difference, u, Ema(u, signal), v, Ema(v, signal), k);
  }

  /** %K: the close's place in the range of the last bars. */
  function StochasticK(high: Column, low: Column, close: Column, period: nat): (c: Column)
    requires |high| == |low| == |close| && period >= 2
    ensures |c| == |close|
  {
    var lowest := Rolling(Lowest, low, period);
    var span := Zip(Difference, Rolling(Highest, high, period), lowest);
    Zip(Percent, Zip(Difference, close, lowest), span)
  }

  /** %D: the smoothed %K. */
  function StochasticD(k: Column, period: nat): (c: Column)
    requires period >= 2
    ensures |c| == |k|
  {
    Rolling(Vectors.Mean, k, period)
  }

  lemma StochasticAgree(h: Column, l: Column, c: Column, h': Column, l': Column, c': Column,
                        kPeriod: nat, dPeriod: nat, k: nat)
    requires |h| == |l| == |c| && |h'| == |l'| == |c'| && kPeriod >= 2 && dPeriod >= 2
    requires AgreeTo(h, h', k) && AgreeTo(l, l', k) && AgreeTo(c, c', k)
    ensures AgreeTo(StochasticK(h, l, c, kPeriod), StochasticK(h', l', c', kPeriod), k)
    ensures AgreeTo(StochasticD(StochasticK(h, l, c, kPeriod), dPeriod),
                    StochasticD(StochasticK(h', l', c', kPeriod), dPeriod), k)
  {
    var lo, lo' := Rolling(Lowest, l, kPeriod), Rolling(Lowest, l', kPeriod);
    var hi, hi' := Rolling(Highest, h, kPeriod), Rolling(Highest, h', kPeriod);
    RollingAgree(Lowest, l, l', kPeriod, k);
    RollingAgree(Highest, h, h', kPeriod, k);
    ZipAgree(Difference, hi, lo, hi', lo', k);
    ZipAgree(Difference, c, lo, c', lo', k);
    var place, place' := Zip(Difference, c, lo), Zip(Difference, c', lo');
    ZipAgree(Percent, place, Zip(Difference, hi, lo), place', Zip(Difference, hi', lo'), k);
    RollingAgree(Vectors.Mean, StochasticK(h, l, c, kPeriod), StochasticK(h', l', c', kPeriod), dPeriod, k);
  }

  /** (upper - lower) / middle of the Bollinger bands; the square root is given. */
  function BandWidth(sqrt: real -> real, deviations: real, w: seq<real>): real
    requires Vectors.Mean(w) != 0.0
  {
    var half := deviations * sqrt(Vectors.Variance(w));
    ((Vectors.Mean(w) + half) - (Vectors.Mean(w) - half)) / Vectors.Mean(w)
  }

  function BollingerWidth(sqrt: real -> real, deviations: real, close: Column, period: nat): (c: Column)
    requires period >= 2
    ensures |c| == |close|
  {
    seq(|close|, i requires 0 <= i < |close| =>
      var w := Window(close, period, i);
      if w.Some? && Vectors.Mean(w.value) != 0.0 then Some(BandWidth(sqrt, deviations, w.value)) else None)
  }

  lemma BollingerAgree(sqrt: real -> real, deviations: real, xs: Column, ys: Column, period: nat, k: nat)
    requires period >= 2 && AgreeTo(xs, ys, k)
    ensures AgreeTo(BollingerWidth(sqrt, deviations, xs, period), BollingerWidth(sqrt, deviations, ys, period), k)
  {
    forall i | 0 <= i < k
      ensures BollingerWidth(sqrt, deviations, xs, period)[i] == BollingerWidth(sqrt, deviations, ys, period)[i]
    {
      WindowAgree(xs, ys, period, k, i);
    }
  }

  // ---- Supertrend ----

  datatype Super = Super(upper: real, lower: real, trend: real)

  /** One bar of Supertrend: each band only moves in its trend's favour, and is reset
      when the previous close broke it. */
  function SuperStep(prev: Super, upper: real, lower: real, prevClose: real, close: real): Super {
    var fu := if upper < prev.upper || prevClose > prev.upper then upper else prev.upper;
    var fl := if lower > prev.lower || prevClose < prev.lower then lower else prev.lower;
    Super(fu, fl, if close > fu then 1.0 else if close < fl then -1.0 else prev.trend)
  }

  function UpperBand(high: real, low: real, multiplier: real, atr: real): real {
    (high + low) / 2.0 + multiplier * atr
  }

  function LowerBand(high: real, low: real, multiplier: real, atr: real): real {
    (high + low) / 2.0 - multiplier * atr
  }

  /** Supertrend at bar i: nothing until ATR is seeded, then an uptrend. */
  function SuperAt(high: seq<real>, low: seq<real>, close: seq<real>, atr: Column, multiplier: real,
                   i: nat): (r: Option<Super>)
    requires |high| == |low| == |close| == |atr| && i < |close|
    ensures r.Some? <==> atr[i].Some?
  {
    if atr[i] == None then None
    else
      var upper := UpperBand(high[i], low[i], multiplier, atr[i].value);
      var lower := LowerBand(high[i], low[i], multiplier, atr[i].value);
      if i == 0 || atr[i - 1] == None then Some(Super(upper, lower, 1.0))
      else
        var prev := SuperAt(high, low, close, atr, multiplier, i - 1);
        Some(SuperStep(prev.value, upper, lower, close[i - 1], close[i]))
  }

  lemma {:induction false} SuperAgree(h: seq<real>, l: seq<real>, c: seq<real>, a: Column,
                                      h': seq<real>, l': seq<real>, c': seq<real>, a': Column,
                                      multiplier: real, k: nat, i: nat)
    requires |h| == |l| == |c| == |a| && |h'| == |l'| == |c'| == |a'| && i < k
    requires AgreeTo(h, h', k) && AgreeTo(l, l', k) && AgreeTo(c, c', k) && AgreeTo(a, a', k)
    ensures SuperAt(h, l, c, a, multiplier, i) == SuperAt(h', l', c', a', multiplier, i)
  {
    AgreeAt(h, h', k, i);
    AgreeAt(l, l', k, i);
    AgreeAt(c, c', k, i);
    AgreeAt(a, a', k, i);
    if i > 0 {
      AgreeAt(c, c', k, i - 1);
      AgreeAt(a, a', k, i - 1);
      SuperAgree(h, l, c, a, h', l', c', a', multiplier, k, i - 1);
    }
  }

  function DirectionOf(st: Option<Super>): Option<real> {
    if st.Some? then Some(st.value.trend) else None
  }

  /** The active band: the lower one in an uptrend. */
  function LineOf(st: Option<Super>): Option<real> {
    if st == None then None else Some(if st.value.trend > 0.0 then st.value.lower else st.value.upper)
  }

  lemma SuperStarts(h: seq<real>, l: seq<real>, c: seq<real>, atr: Column, m: real, i: nat)
    requires |h| == |l| == |c| == |atr| && i < |c| && atr[i].Some? && (i > 0 ==> atr[i - 1] == None)
    ensures SuperAt(h, l, c, atr, m, i) ==
            Some(Super(UpperBand(h[i], l[i], m, atr[i].value), LowerBand(h[i], l[i], m, atr[i].value), 1.0))
  {
  }

  lemma SuperContinues(h: seq<real>, l: seq<real>, c: seq<real>, atr: Column, m: real, i: nat)
    requires |h| == |l| == |c| == |atr| && 0 < i < |c| && atr[i].Some? && atr[i - 1].Some?
    ensures SuperAt(h, l, c, atr, m, i) ==
            Some(SuperStep(SuperAt(h, l, c, atr, m, i - 1).value, UpperBand(h[i], l[i], m, atr[i].value),
                           LowerBand(h[i], l[i], m, atr[i].value), c[i - 1], c[i]))
  {
  }

  /** The active band and the trend's direction, per bar; None for exactly the bars
      before the ATR seed. */
  method Supertrend(high: seq<real>, low: seq<real>, close: seq<real>, period: nat, multiplier: real)
    returns (line: Column, direction: Column)
    requires |high| == |low| == |close| && period >= 2 && multiplier > 0.0
    ensures |line| == |direction| == |close|
    ensures var atr := Atr(high, low, close, period);
            forall i | 0 <= i < |close| ::
              var st := SuperAt(high, low, close, atr, multiplier, i);
              direction[i] == DirectionOf(st) && line[i] == LineOf(st)
    ensures forall i | 0 <= i < |close| :: direction[i].Some? <==> i >= period
  {
    hide Wilder, UpperBand, LowerBand, SuperAt, TrueRange, Atr;
    var atr := Atr(high, low, close, period);
    AtrWarmup(high, low, close, period);
    var n := |close|;
    var finalUpper, finalLower, trend := new real[n], new real[n], new real[n];
    var started := false;
    line, direction := [], [];
    for i := 0 to n
      invariant |line| == |direction| == i
      invariant started <==> i > period
      invariant started ==> SuperAt(high, low, close, atr, multiplier, i - 1) ==
                            Some(Super(finalUpper[i - 1], finalLower[i - 1], trend[i - 1]))
      invariant forall j | 0 <= j < i :: direction[j] == DirectionOf(SuperAt(high, low, close, atr, multiplier, j))
      invariant forall j | 0 <= j < i :: line[j] == LineOf(SuperAt(high, low, close, atr, multiplier, j))
    {
      if atr[i] == None {
        line, direction := line + [None], direction + [None];
      } else {
        var upper := UpperBand(high[i], low[i], multiplier, atr[i].value);
        var lower := LowerBand(high[i], low[i], multiplier, atr[i].value);
        if !started {
          finalUpper[i], finalLower[i], trend[i] := upper, lower, 1.0;
          started := true;
          SuperStarts(high, low, close, atr, multiplier, i);
        } else {
          var prevClose := close[i - 1];
          finalUpper[i] :=
            if upper < finalUpper[i - 1] || prevClose > finalUpper[i - 1] then upper else finalUpper[i - 1];
          finalLower[i] :=
            if lower > finalLower[i - 1] || prevClose < finalLower[i - 1] then lower else finalLower[i - 1];
          if close[i] > finalUpper[i] {
            trend[i] := 1.0;
          } else if close[i] < finalLower[i] {
            trend[i] := -1.0;
          } else {
            trend[i] := trend[i - 1];
          }
          SuperContinues(high, low, close, atr, multiplier, i);
        }
        assert SuperAt(high, low, close, atr, multiplier, i) == Some(Super(finalUpper[i], finalLower[i], trend[i]));
        direction := direction + [Some(trend[i])];
        line := line + [Some(if trend[i] > 0.0 then finalLower[i] else finalUpper[i])];
      }
    }
  }
}
