/** The feature columns and the six confirmation layers that score one bar. */
module Layers {
  import opened Wrappers
  import opened Reals
  import Vectors
  import opened Columns
  import opened ExponentialMeans
  import opened RollingWindows
  import opened Indicators
  import opened SwingLevels
  import opened SignalModels

  /** The numerical functions the columns are built with: the square root of a variance
      and the lower quintile of a slice. */
  datatype Numerics = Numerics(sqrt: real -> real, quintile: seq<real> -> real)

  datatype Features = Features(
    frame: Frame,
    emaFast: Column,
    emaSlow: Column,
    adx: Column,
    atr: Column,
    rsi: Column,
    macdHist: Column,
    stochK: Column,
    stochD: Column,
    superDirection: Column,
    bbWidth: Column,
    volumeMa: Column,
    swingHigh: Column,
    swingLow: Column)
  {
    predicate Shaped() {
      var n := |frame.bars|;
      && |emaFast| == |emaSlow| == |adx| == |atr| == |rsi| == |macdHist| == n
      && |stochK| == |stochD| == |superDirection| == |bbWidth| == |volumeMa| == n
      && |swingHigh| == |swingLow| == n
    }
  }

  function Closes(bars: seq<Bar>): (xs: seq<real>)
    ensures |xs| == |bars|
  {
    seq(|bars|, i requires 0 <= i < |bars| => bars[i].close)
  }

  function HighPrices(bars: seq<Bar>): (xs: seq<real>)
    ensures |xs| == |bars|
  {
    seq(|bars|, i requires 0 <= i < |bars| => bars[i].high)
  }

  function LowPrices(bars: seq<Bar>): (xs: seq<real>)
    ensures |xs| == |bars|
  {
    seq(|bars|, i requires 0 <= i < |bars| => bars[i].low)
  }

  function Volumes(bars: seq<Bar>): (xs: seq<real>)
    ensures |xs| == |bars|
  {
    seq(|bars|, i requires 0 <= i < |bars| => bars[i].volume)
  }

  function Undefined(n: nat): (c: Column)
    ensures |c| == n
  {
    seq(n, _ => None)
  }

  function SuperDirections(bars: seq<Bar>, period: nat): (c: Column)
    requires period >= 2
    ensures |c| == |bars|
  {
    var h, l, x := HighPrices(bars), LowPrices(bars), Closes(bars);
    seq(|bars|, i requires 0 <= i < |bars| => DirectionOf(SuperAt(h, l, x, Atr(h, l, x, period), 3.0, i)))
  }

  function LevelColumn(side: Side, xs: seq<real>, lookback: nat): (c: Column)
    ensures |c| == |xs|
  {
    seq(|xs|, i requires 0 <= i < |xs| => Level(side, xs, lookback, i))
  }

  function VolumeAverage(frame: Frame, period: nat): (c: Column)
    requires period >= 2
    ensures |c| == |frame.bars|
  {
    if frame.hasVolume then Sma(Known(Volumes(frame.bars)), period) else Undefined(|frame.bars|)
  }

  function FeaturesOf(frame: Frame, c: SignalConfig, num: Numerics): (f: Features)
    requires c.Valid()
    ensures f.Shaped() && f.frame == frame
  {
    var h, l, x := HighPrices(frame.bars), LowPrices(frame.bars), Closes(frame.bars);
    var close := Known(x);
    var k := StochasticK(Known(h), Known(l), close, 14);
    Features(
      frame,
      Ema(close, c.emaFast),
      Ema(close, c.emaSlow),
      Adx(h, l, x, c.adxPeriod),
      Atr(h, l, x, c.atrPeriod),
      Rsi(x, c.rsiPeriod),
      MacdHistogram(close, 12, 26, 9),
      k,
      StochasticD(k, 3),
      SuperDirections(frame.bars, c.atrPeriod),
      BollingerWidth(num.sqrt, c.bbStd, close, c.bbPeriod),
      VolumeAverage(frame, c.volumeMaPeriod),
      LevelColumn(Highs, h, c.srLookback),
      LevelColumn(Lows, l, c.srLookback))
  }

  /** Every column once, in one pass over the frame. */
  method BuildFeatures(frame: Frame, c: SignalConfig, num: Numerics) returns (f: Features)
    requires c.Valid()
    ensures f == FeaturesOf(frame, c, num)
  {
    hide Ema, Adx, Atr, Rsi, MacdHistogram, StochasticK, StochasticD, BollingerWidth, Level, SuperAt;
    var h, l, x := HighPrices(frame.bars), LowPrices(frame.bars), Closes(frame.bars);
    var close := Known(x);
    var k := StochasticK(Known(h), Known(l), close, 14);
    var _, direction := Supertrend(h, l, x, c.atrPeriod, 3.0);
    var highs := SwingColumn(Highs, h, c.srLookback, Price);
    var lows := SwingColumn(Lows, l, c.srLookback, Price);
    assert direction == SuperDirections(frame.bars, c.atrPeriod);
    assert highs == LevelColumn(Highs, h, c.srLookback);
    assert lows == LevelColumn(Lows, l, c.srLookback);
    f := Features(
      frame, Ema(close, c.emaFast), Ema(close, c.emaSlow), Adx(h, l, x, c.adxPeriod), Atr(h, l, x, c.atrPeriod),
      Rsi(x, c.rsiPeriod), MacdHistogram(close, 12, 26, 9), k, StochasticD(k, 3), direction,
      BollingerWidth(num.sqrt, c.bbStd, close, c.bbPeriod), VolumeAverage(frame, c.volumeMaPeriod), highs, lows);
  }

  // ---- the six layers ----

  /** A directional score, and whether the layer had the data to form one. */
  datatype LayerScore = LayerScore(score: real, evaluable: bool)

  const ABSTAIN := LayerScore(0.0, false)

  function Clip(x: real): (r: real)
    ensures -1.0 <= r <= 1.0
  {
    Min(1.0, Max(-1.0, x))
  }

  function Sign(x: real): (r: real)
    ensures -1.0 <= r <= 1.0
  {
    if x > 0.0 then 1.0 else if x < 0.0 then -1.0 else 0.0
  }

  /** A clipped quotient: an infinite one clips to its sign, and 0/0 counts as zero. */
  function ClipRatio(x: real, y: real): (r: real)
    ensures -1.0 <= r <= 1.0
  {
    if y == 0.0 then Sign(x) else Clip(x / y)
  }

  function TrendGap(fast: real, slow: real, close: real, atr: real): (r: real)
    requires atr > 0.0
    ensures -1.0 <= r <= 1.0
  {
    if slow == 0.0 then Clip(Sign(fast) * Sign(close))
    else Clip((fast - slow) / slow * close / atr / 2.0)
  }

  function ScoreTrend(f: Features, c: SignalConfig, pos: nat): LayerScore
    requires f.Shaped() && pos < |f.frame.bars|
  {
    if f.emaFast[pos] == None || f.emaSlow[pos] == None || f.adx[pos] == None then ABSTAIN
    else if f.adx[pos].value < c.adxTrendMin then ABSTAIN
    else if f.atr[pos] == None || f.atr[pos].value <= 0.0 then ABSTAIN
    else
      var score := TrendGap(f.emaFast[pos].value, f.emaSlow[pos].value, f.frame.bars[pos].close, f.atr[pos].value);
      var st := f.superDirection[pos];
      if st == None then LayerScore(score, true)
      else
        var vote := if st.value > 0.0 then 1.0 else -1.0;
        LayerScore(if Sign(score) != vote then vote else Clip(0.5 * score + 0.5 * vote), true)
  }

  function RsiVote(c: SignalConfig, rsi: real): real
    requires c.Valid()
  {
    var span := Max(c.rsiOverbought - c.rsiOversold, 1.0);
    if rsi <= c.rsiOversold then Clip(0.5 + Min((c.rsiOversold - rsi) / span, 1.0))
    else if rsi >= c.rsiOverbought then Clip(-0.5 - Min((rsi - c.rsiOverbought) / span, 1.0))
    else Clip((rsi - 50.0) / 50.0)
  }

  function ScoreMomentum(f: Features, c: SignalConfig, pos: nat): LayerScore
    requires c.Valid() && f.Shaped() && pos < |f.frame.bars|
  {
    if pos < 1 || f.rsi[pos] == None || f.macdHist[pos] == None then ABSTAIN
    else
      var hist := f.macdHist[pos].value;
      var slope := if f.macdHist[pos - 1].Some? then hist - f.macdHist[pos - 1].value else hist;
      var votes := [RsiVote(c, f.rsi[pos].value), ClipRatio(slope, f.frame.bars[pos].close * 0.002)];
      var k, d := f.stochK[pos], f.stochD[pos];
      var cross := if k.Some? && d.Some? then [if k.value > d.value then 0.3 else -0.3] else [];
      LayerScore(Clip(Vectors.Mean(votes + cross)), true)
  }

  function ScoreVolume(f: Features, c: SignalConfig, pos: nat): LayerScore
    requires f.Shaped() && pos < |f.frame.bars|
  {
    if !f.frame.hasVolume || pos == 0 || f.volumeMa[pos] == None || f.volumeMa[pos].value <= 0.0 then ABSTAIN
    else
      var current, previous := f.frame.bars[pos], f.frame.bars[pos - 1];
      var ratio := current.volume / f.volumeMa[pos].value;
      if ratio < c.volumeMult then LayerScore(0.0, true)
      else
        var magnitude := ClipRatio(ratio - 1.0, c.volumeMult - 1.0 + 0.000000001);
        var strength := if current.volume > previous.volume then 1.0 else 0.6;
        var direction := if current.close >= previous.close then 1.0 else -1.0;
        LayerScore(Clip(magnitude * strength * direction), true)
  }

  function Engulfing(bar: Bar, previous: Bar): bool {
    var body, prevBody := Abs(bar.close - bar.open), Abs(previous.close - previous.open);
    && body > prevBody > 0.0
    && ((bar.open <= previous.close && bar.close >= previous.open) ||
        (bar.open >= previous.close && bar.close <= previous.open))
    && (bar.close > bar.open) != (previous.close > previous.open)
  }

  /** +1 for a hammer, -1 for a shooting star. */
  function WickVotes(bar: Bar): seq<real> {
    var body := Abs(bar.close - bar.open);
    var upperWick := bar.high - Max(bar.open, bar.close);
    var lowerWick := Min(bar.open, bar.close) - bar.low;
    if body <= 0.0 then []
    else if lowerWick >= 2.0 * body && upperWick < body then [1.0]
    else if upperWick >= 2.0 * body && lowerWick < body then [-1.0]
    else []
  }

  function ScorePriceAction(f: Features, pos: nat): LayerScore
    requires f.Shaped() && pos < |f.frame.bars|
  {
    if pos < 1 then ABSTAIN
    else
      var bar, previous := f.frame.bars[pos], f.frame.bars[pos - 1];
      if bar.high - bar.low <= 0.0 then LayerScore(0.0, true)
      else
        var engulfing := if Engulfing(bar, previous) then [if bar.close > bar.open then 1.0 else -1.0] else [];
        LayerScore(Clip(Vectors.Mean(engulfing + WickVotes(bar))), true)
  }

  /** The defined entries of a slice. */
  function Defined(xs: Column): seq<real> {
    if xs == [] then []
    else Defined(xs[..|xs| - 1]) + if xs[|xs| - 1].Some? then [xs[|xs| - 1].value] else []
  }

  /** A band width in the lowest fifth of the up to 40 widths before it. */
  function Squeezed(f: Features, num: Numerics, pos: nat): bool
    requires f.Shaped() && pos < |f.frame.bars|
  {
    && f.bbWidth[pos].Some?
    && pos >= 40
    && var history := Defined(f.bbWidth[pos - 40..pos]);
       history != [] && f.bbWidth[pos].value <= num.quintile(history)
  }

  function ScoreVolatility(f: Features, c: SignalConfig, num: Numerics, pos: nat): LayerScore
    requires f.Shaped() && pos < |f.frame.bars|
  {
    if pos < 1 || f.atr[pos] == None || f.frame.bars[pos].close <= 0.0 then ABSTAIN
    else
      var close := f.frame.bars[pos].close;
      var ratio := f.atr[pos].value / close;
      if !(c.atrMinRatio <= ratio <= c.atrMaxRatio) then ABSTAIN
      else
        var direction := if close >= f.frame.bars[pos - 1].close then 1.0 else -1.0;
        LayerScore(Clip(direction * if Squeezed(f, num, pos) then 0.8 else 0.5), true)
  }

  /** The nearer of resistance and support; resistance when they are equally near. */
  function NearestLevel(close: real, resistance: Option<real>, support: Option<real>): (r: Option<(real, real)>) {
    if resistance.Some? && (support == None || Abs(resistance.value - close) <= Abs(support.value - close))
    then Some((resistance.value, -1.0))
    else if support.Some? then Some((support.value, 1.0))
    else None
  }

  /** A vote for the bounce, the stronger the nearer the level; within reach only. */
  function LevelVote(close: real, distance: real, price: real, direction: real): LayerScore
    requires distance > 0.0
  {
    var gap := Abs(close - price);
    if gap > distance then LayerScore(0.0, true)
    else LayerScore(Clip(direction * Max(1.0 - gap / distance, 0.3)), true)
  }

  function LevelScore(mult: real, atr: real, close: real, high: Option<real>, low: Option<real>): LayerScore
    requires mult > 0.0 && atr > 0.0
  {
    MulSigns(mult, atr);
    match NearestLevel(close, high, low)
    case None => ABSTAIN
    case Some((price, direction)) => LevelVote(close, Mul(mult, atr), price, direction)
  }

  function ScoreSupportResistance(f: Features, c: SignalConfig, pos: nat): LayerScore
    requires c.Valid() && f.Shaped() && pos < |f.frame.bars|
  {
    if pos < c.srLookback || f.atr[pos] == None || f.atr[pos].value <= 0.0 then ABSTAIN
    else LevelScore(c.srAtrMult, f.atr[pos].value, f.frame.bars[pos].close, f.swingHigh[pos], f.swingLow[pos])
  }

  function ScoreLayer(f: Features, c: SignalConfig, num: Numerics, layer: Layer, pos: nat): (s: LayerScore)
    requires c.Valid() && f.Shaped() && pos < |f.frame.bars|
  {
    match layer
    case Trend => ScoreTrend(f, c, pos)
    case Momentum => ScoreMomentum(f, c, pos)
    case Volume => ScoreVolume(f, c, pos)
    case PriceAction => ScorePriceAction(f, pos)
    case Volatility => ScoreVolatility(f, c, num, pos)
    case SupportResistance => ScoreSupportResistance(f, c, pos)
  }

  /** Every layer's score lies in [-1, 1], and a layer that abstains scores zero. */
  lemma ScoreInRange(f: Features, c: SignalConfig, num: Numerics, layer: Layer, pos: nat)
    requires c.Valid() && f.Shaped() && pos < |f.frame.bars|
    ensures var s := ScoreLayer(f, c, num, layer, pos);
            -1.0 <= s.score <= 1.0 && (!s.evaluable ==> s.score == 0.0)
  {
  }

  /** Where Supertrend is defined it decides the trend layer's direction. */
  lemma TrendFollowsSupertrend(f: Features, c: SignalConfig, pos: nat)
    requires f.Shaped() && pos < |f.frame.bars|
    requires ScoreTrend(f, c, pos).evaluable && f.superDirection[pos].Some?
    ensures f.superDirection[pos].value > 0.0 ==> ScoreTrend(f, c, pos).score >= 0.5
    ensures f.superDirection[pos].value <= 0.0 ==> ScoreTrend(f, c, pos).score <= -0.5
  {
    hide TrendGap;
  }

  predicate Reached(close: real, distance: real, level: Option<real>) {
    level.Some? && Abs(close - level.value) <= distance
  }

  predicate Nearer(close: real, level: Option<real>, other: Option<real>, strictly: bool) {
    && level.Some?
    && (other == None ||
        var a, b := Abs(level.value - close), Abs(other.value - close);
        if strictly then a < b else a <= b)
  }

  /** A level within reach votes for the bounce off it, never weaker than 0.3: a strictly
      nearer support for BUY, a resistance at least as near for SELL. */
  lemma LevelVotesForBounce(mult: real, atr: real, close: real, high: Option<real>, low: Option<real>)
    requires mult > 0.0 && atr > 0.0
    ensures var score := LevelScore(mult, atr, close, high, low).score;
            && (Reached(close, mult * atr, low) && Nearer(close, low, high, true) ==> 0.3 <= score <= 1.0)
            && (Reached(close, mult * atr, high) && Nearer(close, high, low, false) ==> -1.0 <= score <= -0.3)
            && (!Reached(close, mult * atr, low) && !Reached(close, mult * atr, high) ==> score == 0.0)
  {
    MulSigns(mult, atr);
  }

  // ---- no layer looks ahead ----

  ghost predicate FeaturesAgree(f: Features, g: Features, k: nat) {
    && f.Shaped() && g.Shaped()
    && f.frame.hasVolume == g.frame.hasVolume
    && AgreeTo(f.frame.bars, g.frame.bars, k)
    && AgreeTo(f.emaFast, g.emaFast, k) && AgreeTo(f.emaSlow, g.emaSlow, k)
    && AgreeTo(f.adx, g.adx, k) && AgreeTo(f.atr, g.atr, k) && AgreeTo(f.rsi, g.rsi, k)
    && AgreeTo(f.macdHist, g.macdHist, k) && AgreeTo(f.stochK, g.stochK, k) && AgreeTo(f.stochD, g.stochD, k)
    && AgreeTo(f.superDirection, g.superDirection, k) && AgreeTo(f.bbWidth, g.bbWidth, k)
    && AgreeTo(f.volumeMa, g.volumeMa, k) && AgreeTo(f.swingHigh, g.swingHigh, k) && AgreeTo(f.swingLow, g.swingLow, k)
  }

  lemma PricesAgree(xs: seq<Bar>, ys: seq<Bar>, k: nat)
    requires AgreeTo(xs, ys, k)
    ensures AgreeTo(HighPrices(xs), HighPrices(ys), k) && AgreeTo(LowPrices(xs), LowPrices(ys), k)
    ensures AgreeTo(Closes(xs), Closes(ys), k) && AgreeTo(Volumes(xs), Volumes(ys), k)
  {
    forall i | 0 <= i < k
      ensures xs[i] == ys[i]
    {
      AgreeAt(xs, ys, k, i);
    }
    AgreeFromEntries(HighPrices(xs), HighPrices(ys), k);
    AgreeFromEntries(LowPrices(xs), LowPrices(ys), k);
    AgreeFromEntries(Closes(xs), Closes(ys), k);
    AgreeFromEntries(Volumes(xs), Volumes(ys), k);
  }

  lemma SuperDirectionsAgree(xs: seq<Bar>, ys: seq<Bar>, period: nat, k: nat)
    requires period >= 2 && AgreeTo(xs, ys, k)
    ensures AgreeTo(SuperDirections(xs, period), SuperDirections(ys, period), k)
  {
    hide Atr, SuperAt;
    PricesAgree(xs, ys, k);
    var h, l, x := HighPrices(xs), LowPrices(xs), Closes(xs);
    var h', l', x' := HighPrices(ys), LowPrices(ys), Closes(ys);
    AtrAgree(h, l, x, h', l', x', period, k);
    forall i | 0 <= i < k
      ensures SuperDirections(xs, period)[i] == SuperDirections(ys, period)[i]
    {
      SuperAgree(h, l, x, Atr(h, l, x, period), h', l', x', Atr(h', l', x', period), 3.0, k, i);
    }
  }

  lemma LevelColumnAgree(side: Side, xs: seq<real>, ys: seq<real>, lookback: nat, k: nat)
    requires AgreeTo(xs, ys, k) && lookback >= 2
    ensures AgreeTo(LevelColumn(side, xs, lookback), LevelColumn(side, ys, lookback), k)
  {
    hide PivotAt;
    forall i | 0 <= i < k
      ensures LevelColumn(side, xs, lookback)[i] == LevelColumn(side, ys, lookback)[i]
    {
      LevelAgree(side, xs, ys, lookback, k, i);
    }
  }

  lemma VolumeAverageAgree(f: Frame, g: Frame, period: nat, k: nat)
    requires period >= 2 && f.hasVolume == g.hasVolume && AgreeTo(f.bars, g.bars, k)
    ensures AgreeTo(VolumeAverage(f, period), VolumeAverage(g, period), k)
  {
    PricesAgree(f.bars, g.bars, k);
    KnownAgree(Volumes(f.bars), Volumes(g.bars), k);
    RollingAgree(Vectors.Mean, Known(Volumes(f.bars)), Known(Volumes(g.bars)), period, k);
  }

  /** Frames that agree on their first k bars have features that agree on their first k
      rows, the forward-looking swing pivots included. */
  lemma FeaturesCausal(f: Frame, g: Frame, c: SignalConfig, num: Numerics, k: nat)
    requires c.Valid() && f.hasVolume == g.hasVolume && AgreeTo(f.bars, g.bars, k)
    ensures FeaturesAgree(FeaturesOf(f, c, num), FeaturesOf(g, c, num), k)
  {
    hide EwmMean, Adx, Atr, Rsi, MacdHistogram, StochasticK, StochasticD, BollingerWidth, Rolling,
         SuperDirections, LevelColumn, VolumeAverage;
    var h, l, x := HighPrices(f.bars), LowPrices(f.bars), Closes(f.bars);
    var h', l', x' := HighPrices(g.bars), LowPrices(g.bars), Closes(g.bars);
    PricesAgree(f.bars, g.bars, k);
    KnownAgree(x, x', k);
    KnownAgree(h, h', k);
    KnownAgree(l, l', k);
    EwmMeanAgree(Known(x), Known(x'), SpanWeight(c.emaFast), c.emaFast, k);
    EwmMeanAgree(Known(x), Known(x'), SpanWeight(c.emaSlow), c.emaSlow, k);
    AdxAgree(h, l, x, h', l', x', c.adxPeriod, k);
    AtrAgree(h, l, x, h', l', x', c.atrPeriod, k);
    RsiAgree(x, x', c.rsiPeriod, k);
    MacdAgree(Known(x), Known(x'), 12, 26, 9, k);
    StochasticAgree(Known(h), Known(l), Known(x), Known(h'), Known(l'), Known(x'), 14, 3, k);
    SuperDirectionsAgree(f.bars, g.bars, c.atrPeriod, k);
    BollingerAgree(num.sqrt, c.bbStd, Known(x), Known(x'), c.bbPeriod, k);
    VolumeAverageAgree(f, g, c.volumeMaPeriod, k);
    LevelColumnAgree(Highs, h, h', c.srLookback, k);
    LevelColumnAgree(Lows, l, l', c.srLookback, k);
  }

  /** No layer's score depends on a row after the one it scores. */
  lemma ScoreCausal(f: Features, g: Features, c: SignalConfig, num: Numerics, layer: Layer, k: nat, pos: nat)
    requires c.Valid() && FeaturesAgree(f, g, k) && pos < k
    ensures ScoreLayer(f, c, num, layer, pos) == ScoreLayer(g, c, num, layer, pos)
  {
    hide ScoreTrend, ScoreMomentum, ScoreVolume, ScorePriceAction, ScoreVolatility, ScoreSupportResistance,
         AgreeTo, SignalConfig.Valid, SameRow, Squeezed;
    RowsAgree(f, g, k, pos);
    SqueezedAgree(f, g, num, k, pos);
    if pos > 0 {
      RowsAgree(f, g, k, pos - 1);
    }
    DirectionsCausal(f, g, c, pos);
    BarsCausal(f, g, c, num, pos);
  }

  /** The layers that read indicators only. */
  lemma DirectionsCausal(f: Features, g: Features, c: SignalConfig, pos: nat)
    requires c.Valid() && SameRow(f, g, pos) && (pos > 0 ==> SameRow(f, g, pos - 1))
    ensures ScoreTrend(f, c, pos) == ScoreTrend(g, c, pos)
    ensures ScoreMomentum(f, c, pos) == ScoreMomentum(g, c, pos)
    ensures ScoreSupportResistance(f, c, pos) == ScoreSupportResistance(g, c, pos)
  {
    hide TrendGap, RsiVote, ClipRatio, Clip, Sign, Vectors.Mean, LevelScore, Abs, Max, Min, Mul;
  }

  /** The layers that read bars too. */
  lemma BarsCausal(f: Features, g: Features, c: SignalConfig, num: Numerics, pos: nat)
    requires c.Valid() && SameRow(f, g, pos) && (pos > 0 ==> SameRow(f, g, pos - 1))
    requires Squeezed(f, num, pos) == Squeezed(g, num, pos)
    ensures ScoreVolume(f, c, pos) == ScoreVolume(g, c, pos)
    ensures ScorePriceAction(f, pos) == ScorePriceAction(g, pos)
    ensures ScoreVolatility(f, c, num, pos) == ScoreVolatility(g, c, num, pos)
  {
    hide ClipRatio, Clip, Sign, Vectors.Mean, Engulfing, WickVotes, Squeezed, Abs, Max, Min, Mul, SignalConfig.Valid;
  }

  lemma SqueezedAgree(f: Features, g: Features, num: Numerics, k: nat, pos: nat)
    requires FeaturesAgree(f, g, k) && pos < k
    ensures Squeezed(f, num, pos) == Squeezed(g, num, pos)
  {
    hide Defined;
    AgreeAt(f.bbWidth, g.bbWidth, k, pos);
    if pos >= 40 {
      assert f.bbWidth[..k][pos - 40..pos] == f.bbWidth[pos - 40..pos];
      assert g.bbWidth[..k][pos - 40..pos] == g.bbWidth[pos - 40..pos];
    }
  }

  /** The two frames hold the same bar and the same features at position i. */
  predicate SameRow(f: Features, g: Features, i: nat) {
    && f.Shaped() && g.Shaped() && i < |f.frame.bars| && i < |g.frame.bars|
    && f.frame.hasVolume == g.frame.hasVolume && f.frame.bars[i] == g.frame.bars[i]
    && f.emaFast[i] == g.emaFast[i] && f.emaSlow[i] == g.emaSlow[i] && f.adx[i] == g.adx[i]
    && f.atr[i] == g.atr[i] && f.rsi[i] == g.rsi[i] && f.macdHist[i] == g.macdHist[i]
    && f.stochK[i] == g.stochK[i] && f.stochD[i] == g.stochD[i]
    && f.superDirection[i] == g.superDirection[i] && f.bbWidth[i] == g.bbWidth[i]
    && f.volumeMa[i] == g.volumeMa[i]
    && f.swingHigh[i] == g.swingHigh[i] && f.swingLow[i] == g.swingLow[i]
  }

  lemma RowsAgree(f: Features, g: Features, k: nat, i: nat)
    requires FeaturesAgree(f, g, k) && i < k
    ensures SameRow(f, g, i)
  {
    AgreeAt(f.frame.bars, g.frame.bars, k, i);
    AgreeAt(f.emaFast, g.emaFast, k, i);
    AgreeAt(f.emaSlow, g.emaSlow, k, i);
    AgreeAt(f.adx, g.adx, k, i);
    AgreeAt(f.atr, g.atr, k, i);
    AgreeAt(f.rsi, g.rsi, k, i);
    AgreeAt(f.macdHist, g.macdHist, k, i);
    AgreeAt(f.stochK, g.stochK, k, i);
    AgreeAt(f.stochD, g.stochD, k, i);
    AgreeAt(f.superDirection, g.superDirection, k, i);
    AgreeAt(f.bbWidth, g.bbWidth, k, i);
    AgreeAt(f.volumeMa, g.volumeMa, k, i);
    AgreeAt(f.swingHigh, g.swingHigh, k, i);
    AgreeAt(f.swingLow, g.swingLow, k, i);
  }
}
