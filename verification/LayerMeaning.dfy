/** What the six layers say, in terms of the prices, volumes and readings they look at. */
module LayerMeaning {
  import opened Reals
  import Vectors
  import opened Wrappers
  import opened Columns
  import opened ExponentialMeans
  import opened RollingWindows
  import opened Indicators
  import opened IndicatorMeaning
  import opened SwingLevels
  import opened SignalModels
  import opened Layers

  // ---- clipped shares ----

  /** v is x as a share of y, cut off at one on either side; a share of nothing is a sign. */
  ghost predicate IsShare(v: real, x: real, y: real) {
    if y == 0.0 then v == (if x > 0.0 then 1.0 else if x < 0.0 then -1.0 else 0.0)
    else if Abs(x) <= Abs(y) then Mul(v, y) == x
    else v == if (x > 0.0) == (y > 0.0) then 1.0 else -1.0
  }

  lemma ClippedIsShare(q: real, x: real, y: real)
    requires y != 0.0 && Mul(q, y) == x
    ensures IsShare(Clip(q), x, y)
  {
    if q > 1.0 {
      MulSigns(q - 1.0, Abs(y));
      MulSigns(q, Abs(y));
      assert Mul(q - 1.0, Abs(y)) == Mul(q, Abs(y)) - Abs(y);
      assert Mul(q, Abs(y)) == if y > 0.0 then x else -x;
    } else if q < -1.0 {
      MulSigns(-1.0 - q, Abs(y));
      MulSigns(-q, Abs(y));
      assert Mul(-1.0 - q, Abs(y)) == Mul(-q, Abs(y)) - Abs(y);
      assert Mul(-q, Abs(y)) == if y > 0.0 then -x else x;
    } else {
      ProductBetween(Abs(y), -1.0, q, 1.0);
      assert Mul(Abs(y), q) == if y > 0.0 then x else -x;
    }
  }

  lemma RatioIsShare(x: real, y: real)
    ensures IsShare(ClipRatio(x, y), x, y)
  {
    if y != 0.0 {
      hide Clip, IsShare, Sign;
      assert Mul(x / y, y) == x;
      ClippedIsShare(x / y, x, y);
    }
  }

  /** There is one such share. */
  lemma ShareUnique(v: real, w: real, x: real, y: real)
    requires IsShare(v, x, y) && IsShare(w, x, y)
    ensures v == w
  {
    if y != 0.0 && Abs(x) <= Abs(y) {
      MulCommutes(v, y);
      MulCommutes(w, y);
      CancelFactor(y, v, w);
    }
  }

  // ---- trend ----

  lemma GapIsShare(fast: real, slow: real, close: real, atr: real)
    requires atr > 0.0
    ensures IsShare(TrendGap(fast, slow, close, atr), Mul(fast - slow, close), Mul(2.0 * atr, slow))
  {
    if slow == 0.0 {
      SignOfProduct(fast, close);
    } else {
      var q := (fast - slow) / slow * close / atr / 2.0;
      assert q * 2.0 == (fast - slow) / slow * close / atr;
      assert q * 2.0 * atr == (fast - slow) / slow * close;
      assert (fast - slow) / slow * slow == fast - slow;
      assert (fast - slow) / slow * close * slow == (fast - slow) * close;
      assert Mul(q, Mul(2.0 * atr, slow)) == q * 2.0 * atr * slow;
      NonZeroProduct(2.0 * atr, slow);
      hide IsShare, Clip;
      ClippedIsShare(q, Mul(fast - slow, close), Mul(2.0 * atr, slow));
    }
  }

  lemma NonZeroProduct(x: real, y: real)
    requires x != 0.0 && y != 0.0
    ensures Mul(x, y) != 0.0
  {
  }

  lemma SignOfProduct(x: real, y: real)
    ensures Clip(Sign(x) * Sign(y)) == Sign(Mul(x, y))
  {
  }

  /** The trend layer has an opinion exactly when both averages, the strength and a positive range
      are there and the strength reaches its floor. The gap of the averages against twice the
      range, both relative to price, decides; Supertrend overrules an other sign and halves the way
      to its own otherwise. */
  lemma TrendExactly(f: Features, c: SignalConfig, pos: nat) returns (gap: real)
    requires f.Shaped() && pos < |f.frame.bars|
    ensures ScoreTrend(f, c, pos).evaluable <==>
            && f.emaFast[pos].Some? && f.emaSlow[pos].Some? && f.adx[pos].Some?
            && f.adx[pos].value >= c.adxTrendMin && f.atr[pos].Some? && f.atr[pos].value > 0.0
    ensures ScoreTrend(f, c, pos).evaluable ==>
              var fast, slow := f.emaFast[pos].value, f.emaSlow[pos].value;
              var score, super := ScoreTrend(f, c, pos).score, f.superDirection[pos];
              && IsShare(gap, Mul(fast - slow, f.frame.bars[pos].close), Mul(2.0 * f.atr[pos].value, slow))
              && score == (if super == None then gap
                           else if super.value > 0.0 then (if gap > 0.0 then (gap + 1.0) / 2.0 else 1.0)
                           else if gap < 0.0 then (gap - 1.0) / 2.0 else -1.0)
  {
    hide TrendGap;
    gap := 0.0;
    if ScoreTrend(f, c, pos).evaluable {
      var fast, slow := f.emaFast[pos].value, f.emaSlow[pos].value;
      gap := TrendGap(fast, slow, f.frame.bars[pos].close, f.atr[pos].value);
      hide IsShare;
      GapIsShare(fast, slow, f.frame.bars[pos].close, f.atr[pos].value);
    }
  }

  // ---- momentum ----

  /** The vote read off RSI: for a rise when oversold, for a fall when overbought, from one half
      upwards with the depth; its distance from the middle in between. */
  ghost predicate IsRsiVote(c: SignalConfig, rsi: real, vote: real) {
    var span := Max(c.rsiOverbought - c.rsiOversold, 1.0);
    if rsi <= c.rsiOversold then Mul(vote - 0.5, span) == Min(c.rsiOversold - rsi, 0.5 * span)
    else if rsi >= c.rsiOverbought then Mul(-0.5 - vote, span) == Min(rsi - c.rsiOverbought, 0.5 * span)
    else 50.0 * vote == rsi - 50.0
  }

  lemma RsiVoteIs(c: SignalConfig, rsi: real)
    requires c.Valid()
    ensures IsRsiVote(c, rsi, RsiVote(c, rsi))
    ensures rsi <= c.rsiOversold ==> 0.5 <= RsiVote(c, rsi) <= 1.0
    ensures rsi >= c.rsiOverbought ==> -1.0 <= RsiVote(c, rsi) <= -0.5
  {
    assert 0.0 < c.rsiOversold < c.rsiOverbought < 100.0;
    hide SignalConfig.Valid;
    var span := Max(c.rsiOverbought - c.rsiOversold, 1.0);
    if rsi <= c.rsiOversold {
      DepthVote(c.rsiOversold - rsi, span);
    } else if rsi >= c.rsiOverbought {
      DepthVote(rsi - c.rsiOverbought, span);
    }
  }

  lemma DepthVote(x: real, span: real)
    requires x >= 0.0 && span > 0.0
    ensures 0.5 <= Clip(0.5 + Min(x / span, 1.0)) <= 1.0
    ensures Clip(-0.5 - Min(x / span, 1.0)) == -Clip(0.5 + Min(x / span, 1.0))
    ensures Mul(Clip(0.5 + Min(x / span, 1.0)) - 0.5, span) == Min(x, 0.5 * span)
  {
    DivideMonotone(0.0, x, span);
    assert x / span * span == x;
    assert 0.5 * span / span == 0.5;
    if x <= 0.5 * span {
      DivideMonotone(x, 0.5 * span, span);
    } else {
      DivideMonotone(0.5 * span, x, span);
    }
  }

  lemma MeanOfTwo(a: real, b: real)
    ensures 2.0 * Vectors.Mean([a, b]) == a + b
  {
    var v := [a, b];
    assert v[..1] == [a] && v[..1][..0] == [];
    assert Vectors.Sum(v) == Vectors.Sum(v[..1]) + b;
  }

  lemma MeanOfThree(a: real, b: real, d: real)
    ensures 3.0 * Vectors.Mean([a, b, d]) == a + b + d
  {
    var v := [a, b, d];
    assert v[..2] == [a, b] && v[..2][..1] == [a] && v[..2][..1][..0] == [];
    assert Vectors.Sum(v) == Vectors.Sum(v[..2]) + d;
    assert Vectors.Sum(v[..2]) == Vectors.Sum(v[..2][..1]) + b;
  }

  /** Momentum is the mean of its votes: RSI's, the histogram's change as a share of 0.2% of the
      close, and 0.3 for the side of the stochastic cross when there is one. */
  lemma MomentumExactly(f: Features, c: SignalConfig, pos: nat) returns (rsiVote: real, slopeVote: real)
    requires c.Valid() && f.Shaped() && pos < |f.frame.bars|
    ensures ScoreMomentum(f, c, pos).evaluable <==> pos >= 1 && f.rsi[pos].Some? && f.macdHist[pos].Some?
    ensures ScoreMomentum(f, c, pos).evaluable ==>
              var before := if f.macdHist[pos - 1].Some? then f.macdHist[pos - 1].value else 0.0;
              var k, d, score := f.stochK[pos], f.stochD[pos], ScoreMomentum(f, c, pos).score;
              && IsRsiVote(c, f.rsi[pos].value, rsiVote)
              && IsShare(slopeVote, f.macdHist[pos].value - before, 0.002 * f.frame.bars[pos].close)
              && if k.Some? && d.Some?
                 then 3.0 * score == rsiVote + slopeVote + (if k.value > d.value then 0.3 else -0.3)
                 else 2.0 * score == rsiVote + slopeVote
  {
    hide RsiVote, Vectors.Mean, ClipRatio, IsShare, IsRsiVote, SignalConfig.Valid;
    rsiVote, slopeVote := 0.0, 0.0;
    if ScoreMomentum(f, c, pos).evaluable {
      var hist := f.macdHist[pos].value;
      var slope := if f.macdHist[pos - 1].Some? then hist - f.macdHist[pos - 1].value else hist;
      var reference := f.frame.bars[pos].close * 0.002;
      rsiVote, slopeVote := RsiVote(c, f.rsi[pos].value), ClipRatio(slope, reference);
      RsiVoteIs(c, f.rsi[pos].value);
      RsiVoteClipped(c, f.rsi[pos].value);
      RatioIsShare(slope, reference);
      var k, d := f.stochK[pos], f.stochD[pos];
      if k.Some? && d.Some? {
        var cross := if k.value > d.value then 0.3 else -0.3;
        MeanOfThree(rsiVote, slopeVote, cross);
        assert [rsiVote, slopeVote] + [cross] == [rsiVote, slopeVote, cross];
      } else {
        MeanOfTwo(rsiVote, slopeVote);
        assert [rsiVote, slopeVote] + [] == [rsiVote, slopeVote];
      }
    }
  }

  lemma RsiVoteClipped(c: SignalConfig, rsi: real)
    requires c.Valid()
    ensures -1.0 <= RsiVote(c, rsi) <= 1.0
  {
    hide SignalConfig.Valid, Max, Min;
  }

  // ---- volume ----

  /** Volume under the multiple of its average confirms nothing; from there on it confirms the
      direction of the close, in full when volume rises and at six tenths otherwise. */
  lemma VolumeExactly(f: Features, c: SignalConfig, pos: nat) returns (magnitude: real)
    requires f.Shaped() && pos < |f.frame.bars|
    ensures ScoreVolume(f, c, pos).evaluable <==>
            f.frame.hasVolume && pos > 0 && f.volumeMa[pos].Some? && f.volumeMa[pos].value > 0.0
    ensures ScoreVolume(f, c, pos).evaluable ==>
              var score, average := ScoreVolume(f, c, pos).score, f.volumeMa[pos].value;
              var bar, before := f.frame.bars[pos], f.frame.bars[pos - 1];
              if bar.volume < Mul(c.volumeMult, average) then score == 0.0
              else
                && IsShare(magnitude, bar.volume - average, Mul(c.volumeMult - 1.0 + 0.000000001, average))
                && score == (if bar.volume > before.volume then 1.0 else 0.6) *
                            (if bar.close >= before.close then magnitude else -magnitude)
  {
    hide ClipRatio, IsShare;
    magnitude := 0.0;
    if ScoreVolume(f, c, pos).evaluable {
      var average, volume := f.volumeMa[pos].value, f.frame.bars[pos].volume;
      var step := c.volumeMult - 1.0 + 0.000000001;
      BelowMultiple(volume, average, c.volumeMult);
      magnitude := ClipRatio(volume / average - 1.0, step);
      RatioIsShare(volume / average - 1.0, step);
      ShareScaled(magnitude, volume, average, step);
    }
  }

  lemma BelowMultiple(x: real, average: real, multiple: real)
    requires average > 0.0
    ensures x / average < multiple <==> x < Mul(multiple, average)
  {
    assert x / average * average == x;
    if x / average < multiple {
      MulSigns(multiple - x / average, average);
      assert Mul(multiple - x / average, average) == Mul(multiple, average) - x;
    } else {
      MulSigns(x / average - multiple, average);
      assert Mul(x / average - multiple, average) == x - Mul(multiple, average);
    }
  }

  lemma ShareScaled(v: real, x: real, average: real, step: real)
    requires average > 0.0 && IsShare(v, x / average - 1.0, step)
    ensures IsShare(v, x - average, Mul(step, average))
  {
    var ratio := x / average - 1.0;
    assert Mul(ratio, average) == x - average by {
      assert x / average * average == x;
    }
    SameSign(ratio, average);
    SameSign(step, average);
    if Abs(ratio) > Abs(step) {
      MulSigns(Abs(ratio) - Abs(step), average);
      assert Mul(Abs(ratio) - Abs(step), average) == Mul(Abs(ratio), average) - Mul(Abs(step), average);
    } else {
      MulSigns(Abs(step) - Abs(ratio), average);
      assert Mul(Abs(step) - Abs(ratio), average) == Mul(Abs(step), average) - Mul(Abs(ratio), average);
      Reassociate(v, step, average);
    }
  }

  lemma SameSign(x: real, y: real)
    requires y > 0.0
    ensures Mul(x, y) > 0.0 <==> x > 0.0
    ensures Mul(x, y) == 0.0 <==> x == 0.0
    ensures Abs(Mul(x, y)) == Mul(Abs(x), y)
  {
  }

  // ---- price action ----

  /** A rising bar whose body covers the falling body before it and is larger. */
  predicate EngulfsUp(bar: Bar, before: Bar) {
    && before.close < before.open && bar.open < bar.close
    && bar.open <= before.close && before.open <= bar.close
    && before.open - before.close < bar.close - bar.open
  }

  predicate EngulfsDown(bar: Bar, before: Bar) {
    && before.open < before.close && bar.close < bar.open
    && bar.close <= before.open && before.close <= bar.open
    && before.close - before.open < bar.open - bar.close
  }

  /** A body, a lower wick of at least twice its size and an upper one smaller than it. */
  predicate Hammer(bar: Bar) {
    var top, bottom := Max(bar.open, bar.close), Min(bar.open, bar.close);
    top > bottom && bottom - bar.low >= 2.0 * (top - bottom) && bar.high - top < top - bottom
  }

  predicate ShootingStar(bar: Bar) {
    var top, bottom := Max(bar.open, bar.close), Min(bar.open, bar.close);
    top > bottom && bar.high - top >= 2.0 * (top - bottom) && bottom - bar.low < top - bottom
  }

  /** The layer votes fully for a rise exactly when there is a pattern for one and none against,
      fully for a fall in the mirrored case, and not at all otherwise. */
  lemma PriceActionExactly(f: Features, pos: nat)
    requires f.Shaped() && pos < |f.frame.bars|
    ensures ScorePriceAction(f, pos).evaluable <==> pos >= 1
    ensures pos >= 1 ==>
              var bar, before := f.frame.bars[pos], f.frame.bars[pos - 1];
              var up, down := EngulfsUp(bar, before) || Hammer(bar), EngulfsDown(bar, before) || ShootingStar(bar);
              ScorePriceAction(f, pos).score == if bar.high <= bar.low || up == down then 0.0
                                                else if up then 1.0 else -1.0
  {
    if pos >= 1 {
      var bar, before := f.frame.bars[pos], f.frame.bars[pos - 1];
      EngulfingExactly(bar, before);
      WicksExactly(bar);
      hide Engulfing, WickVotes, EngulfsUp, EngulfsDown, Hammer, ShootingStar, Vectors.Mean;
      VotesMeet(if Engulfing(bar, before) then [if bar.close > bar.open then 1.0 else -1.0] else [], WickVotes(bar));
    }
  }

  lemma EngulfingExactly(bar: Bar, before: Bar)
    ensures Engulfing(bar, before) <==> EngulfsUp(bar, before) || EngulfsDown(bar, before)
    ensures !(EngulfsUp(bar, before) && EngulfsDown(bar, before))
    ensures EngulfsUp(bar, before) ==> bar.close > bar.open
    ensures EngulfsDown(bar, before) ==> bar.close < bar.open
  {
  }

  lemma WicksExactly(bar: Bar)
    ensures WickVotes(bar) == if Hammer(bar) then [1.0] else if ShootingStar(bar) then [-1.0] else []
    ensures !(Hammer(bar) && ShootingStar(bar))
  {
  }

  lemma VotesMeet(a: seq<real>, b: seq<real>)
    requires a in {[], [1.0], [-1.0]} && b in {[], [1.0], [-1.0]}
    ensures var up, down := a == [1.0] || b == [1.0], a == [-1.0] || b == [-1.0];
            Vectors.Mean(a + b) == if up == down then 0.0 else if up then 1.0 else -1.0
  {
    if a == [] || b == [] {
      assert a + b == (if a == [] then b else a);
      if a + b != [] {
        assert (a + b)[..0] == [];
      }
    } else {
      assert a + b == [a[0], b[0]];
      MeanOfTwo(a[0], b[0]);
    }
  }

  // ---- volatility ----

  /** The defined entries are found one entry at a time, in order. */
  lemma {:induction false} DefinedJoins(xs: Column, ys: Column)
    ensures Defined(xs + ys) == Defined(xs) + Defined(ys)
  {
    if ys == [] {
      assert xs + ys == xs;
    } else {
      var n := |ys| - 1;
      DefinedJoins(xs, ys[..n]);
      assert (xs + ys)[..|xs| + n] == xs + ys[..n];
    }
  }

  lemma {:induction false} DefinedOfKnown(xs: seq<real>)
    ensures Defined(Known(xs)) == xs
  {
    if xs != [] {
      DefinedOfKnown(xs[..|xs| - 1]);
      assert Known(xs)[..|xs| - 1] == Known(xs[..|xs| - 1]);
    }
  }

  /** The layer has an opinion exactly when the range is within its band of the close, and backs
      the bar's own direction: with eight tenths out of a squeeze, one half otherwise. */
  lemma VolatilityExactly(f: Features, c: SignalConfig, num: Numerics, pos: nat)
    requires f.Shaped() && pos < |f.frame.bars|
    ensures ScoreVolatility(f, c, num, pos).evaluable <==>
            var close := f.frame.bars[pos].close;
            && pos >= 1 && f.atr[pos].Some? && close > 0.0
            && Mul(c.atrMinRatio, close) <= f.atr[pos].value <= Mul(c.atrMaxRatio, close)
    ensures ScoreVolatility(f, c, num, pos).evaluable ==>
              var strength := if Squeezed(f, num, pos) then 0.8 else 0.5;
              ScoreVolatility(f, c, num, pos).score ==
              if f.frame.bars[pos].close >= f.frame.bars[pos - 1].close then strength else -strength
  {
    hide Squeezed, Mul;
    if pos >= 1 && f.atr[pos].Some? && f.frame.bars[pos].close > 0.0 {
      BelowMultiple(f.atr[pos].value, f.frame.bars[pos].close, c.atrMinRatio);
      AboveMultiple(f.atr[pos].value, f.frame.bars[pos].close, c.atrMaxRatio);
    }
  }

  lemma AboveMultiple(x: real, average: real, multiple: real)
    requires average > 0.0
    ensures x / average > multiple <==> x > Mul(multiple, average)
  {
    BelowMultiple(-x, average, -multiple);
    assert -x / average == -(x / average);
    assert Mul(-multiple, average) == -Mul(multiple, average);
  }

  /** A squeeze: forty bars have passed and the width is at most the lower quintile of those of
      them that are there. */
  lemma SqueezedExactly(f: Features, num: Numerics, pos: nat, widths: seq<real>)
    requires f.Shaped() && 40 <= pos < |f.frame.bars| && f.bbWidth[pos - 40..pos] == Known(widths)
    ensures Squeezed(f, num, pos) <==> f.bbWidth[pos].Some? && f.bbWidth[pos].value <= num.quintile(widths)
  {
    DefinedOfKnown(widths);
  }

  // ---- support and resistance ----

  /** The layer has an opinion exactly when the range is positive and some level is known; the
      nearer level's vote is one less its distance as a share of the reach, and 0.3 at least. */
  lemma LevelVoteExactly(f: Features, c: SignalConfig, pos: nat)
    requires c.Valid() && f.Shaped() && pos < |f.frame.bars|
    ensures ScoreSupportResistance(f, c, pos).evaluable <==>
            && pos >= c.srLookback && f.atr[pos].Some? && f.atr[pos].value > 0.0
            && (f.swingHigh[pos].Some? || f.swingLow[pos].Some?)
    ensures ScoreSupportResistance(f, c, pos).evaluable ==>
              var close, high, low := f.frame.bars[pos].close, f.swingHigh[pos], f.swingLow[pos];
              var reach, score := Mul(c.srAtrMult, f.atr[pos].value), ScoreSupportResistance(f, c, pos).score;
              if high.Some? && Nearer(close, high, low, false)
              then IsLevelVote(-score, Abs(close - high.value), reach)
              else low.Some? && IsLevelVote(score, Abs(close - low.value), reach)
  {
    assert c.srAtrMult > 0.0;
    hide SignalConfig.Valid, Mul, LevelVote, IsLevelVote;
    if pos >= c.srLookback && f.atr[pos].Some? && f.atr[pos].value > 0.0 {
      var close, high, low := f.frame.bars[pos].close, f.swingHigh[pos], f.swingLow[pos];
      MulSigns(c.srAtrMult, f.atr[pos].value);
      var reach := Mul(c.srAtrMult, f.atr[pos].value);
      if high.Some? {
        LevelVoteIs(close, reach, high.value);
      }
      if low.Some? {
        LevelVoteIs(close, reach, low.value);
      }
    }
  }

  predicate IsLevelVote(vote: real, gap: real, reach: real) {
    if gap > reach then vote == 0.0
    else if gap <= 0.7 * reach then Mul(1.0 - vote, reach) == gap
    else vote == 0.3
  }

  lemma LevelVoteIs(close: real, reach: real, price: real)
    requires reach > 0.0
    ensures LevelVote(close, reach, price, 1.0).evaluable && LevelVote(close, reach, price, -1.0).evaluable
    ensures IsLevelVote(LevelVote(close, reach, price, 1.0).score, Abs(close - price), reach)
    ensures IsLevelVote(-LevelVote(close, reach, price, -1.0).score, Abs(close - price), reach)
  {
    var gap := Abs(close - price);
    assert gap / reach * reach == gap;
    BelowMultiple(gap, reach, 0.7);
    AboveMultiple(gap, reach, 0.7);
    DivideMonotone(0.0, gap, reach);
  }

  // ---- whole frames ----

  /** From which bar on each column has a reading. */
  lemma FeaturesShown(frame: Frame, c: SignalConfig, num: Numerics, i: nat)
    requires c.Valid() && i < |frame.bars|
    ensures var f := FeaturesOf(frame, c, num);
            && (f.emaFast[i].Some? <==> i + 1 >= c.emaFast)
            && (f.emaSlow[i].Some? <==> i + 1 >= c.emaSlow)
            && (f.rsi[i].Some? <==> i >= c.rsiPeriod)
            && (f.atr[i].Some? <==> i >= c.atrPeriod)
            && (f.superDirection[i].Some? <==> i >= c.atrPeriod)
            && (f.macdHist[i].Some? <==> i + 2 >= 26 + 9)
            && (f.volumeMa[i].Some? <==> frame.hasVolume && i + 1 >= c.volumeMaPeriod)
            && (f.bbWidth[i].Some? ==> i + 1 >= c.bbPeriod)
  {
    hide EwmMean, Adx, Atr, Rsi, MacdHistogram, StochasticK, StochasticD, BollingerWidth, Rolling, LevelColumn, SuperAt;
    var h, l, x := HighPrices(frame.bars), LowPrices(frame.bars), Closes(frame.bars);
    KnownThroughout(x);
    EwmShown(Known(x), SpanWeight(c.emaFast), c.emaFast, 0, i);
    EwmShown(Known(x), SpanWeight(c.emaSlow), c.emaSlow, 0, i);
    RsiShare(x, c.rsiPeriod, i);
    AtrWarmup(h, l, x, c.atrPeriod);
    MacdHistogramRising(x, 12, 26, 9, i);
    RollingExactly(Vectors.Mean, Volumes(frame.bars), c.volumeMaPeriod, i);
    BandDistance(num.sqrt, c.bbStd, x, c.bbPeriod, i);
  }

  /** The volume average is the mean of the last volumes. */
  lemma VolumeAverageIs(frame: Frame, period: nat, i: nat)
    requires period >= 2 && frame.hasVolume && period <= i + 1 <= |frame.bars|
    ensures var average := VolumeAverage(frame, period)[i];
            && average.Some?
            && Mul(period as real, average.value) == Vectors.Sum(Volumes(frame.bars[i + 1 - period..i + 1]))
  {
    hide Rolling, Vectors.Mean, Vectors.Sum;
    RollingExactly(Vectors.Mean, Volumes(frame.bars), period, i);
    var w := Volumes(frame.bars)[i + 1 - period..i + 1];
    assert w == Volumes(frame.bars[i + 1 - period..i + 1]);
    Vectors.MeanTimesCount(w);
  }

  /** A frame whose closes never fall and rise at least once reads 100 on RSI, keeps the fast
      average at or above the slow one, and has the momentum layer's RSI vote for a fall. */
  lemma SteadyRise(frame: Frame, c: SignalConfig, num: Numerics, i: nat, rise: nat)
    requires c.Valid() && c.emaSlow <= i + 1 && c.rsiPeriod <= i < |frame.bars|
    requires forall j | 0 < j <= i :: frame.bars[j - 1].close <= frame.bars[j].close
    requires 0 < rise <= i && frame.bars[rise - 1].close < frame.bars[rise].close
    ensures var f := FeaturesOf(frame, c, num);
            && f.rsi[i] == Some(100.0)
            && -1.0 <= RsiVote(c, 100.0) <= -0.5
            && f.emaFast[i].Some? && f.emaSlow[i].Some? && f.emaFast[i].value >= f.emaSlow[i].value
  {
    hide EwmMean, Adx, Atr, Rsi, MacdHistogram, StochasticK, StochasticD, BollingerWidth, Rolling, LevelColumn,
         SuperDirections, VolumeAverage, RsiVote;
    var x := Closes(frame.bars);
    assert x[rise] > x[rise - 1];
    RsiExtremes(x, c.rsiPeriod, i);
    RsiVoteIs(c, 100.0);
    EmaOrder(x, c.emaFast, c.emaSlow, i);
  }

  /** And the mirror image. */
  lemma SteadyFall(frame: Frame, c: SignalConfig, num: Numerics, i: nat, fall: nat)
    requires c.Valid() && c.rsiPeriod <= i < |frame.bars|
    requires forall j | 0 < j <= i :: frame.bars[j - 1].close >= frame.bars[j].close
    requires 0 < fall <= i && frame.bars[fall - 1].close > frame.bars[fall].close
    ensures FeaturesOf(frame, c, num).rsi[i] == Some(0.0) && 0.5 <= RsiVote(c, 0.0) <= 1.0
  {
    hide EwmMean, Adx, Atr, Rsi, MacdHistogram, StochasticK, StochasticD, BollingerWidth, Rolling, LevelColumn,
         SuperDirections, VolumeAverage, RsiVote;
    var x := Closes(frame.bars);
    assert x[fall] < x[fall - 1];
    RsiExtremes(x, c.rsiPeriod, i);
    RsiVoteIs(c, 0.0);
  }

  /** Supertrend starts upwards at the first bar with a range, and reads upwards wherever the close
      is more than three ranges above the middle of its bar. */
  lemma SupertrendReads(frame: Frame, c: SignalConfig, num: Numerics, i: nat)
    requires c.Valid() && c.atrPeriod <= i < |frame.bars|
    ensures var f, bar := FeaturesOf(frame, c, num), frame.bars[i];
            && f.atr[i].Some?
            && (i == c.atrPeriod || bar.close > (bar.high + bar.low) / 2.0 + 3.0 * f.atr[i].value ==>
                  f.superDirection[i] == Some(1.0))
  {
    hide EwmMean, Adx, Atr, Rsi, MacdHistogram, StochasticK, StochasticD, BollingerWidth, Rolling, LevelColumn,
         SuperAt, VolumeAverage, SuperStep;
    var h, l, x := HighPrices(frame.bars), LowPrices(frame.bars), Closes(frame.bars);
    var atr := Atr(h, l, x, c.atrPeriod);
    AtrWarmup(h, l, x, c.atrPeriod);
    if i == c.atrPeriod {
      SuperStarts(h, l, x, atr, 3.0, i);
    } else {
      SuperContinues(h, l, x, atr, 3.0, i);
      var prev := SuperAt(h, l, x, atr, 3.0, i - 1).value;
      var upper, lower := UpperBand(h[i], l[i], 3.0, atr[i].value), LowerBand(h[i], l[i], 3.0, atr[i].value);
      BandsTighten(prev, upper, lower, x[i - 1], x[i]);
      TrendTurns(prev, upper, lower, x[i - 1], x[i]);
    }
  }

  /** hi is the highest high, lo the lowest low, of the last fourteen bars. */
  ghost predicate IsSpan(bars: seq<Bar>, i: nat, hi: real, lo: real)
    requires 14 <= i + 1 <= |bars|
  {
    && (forall j | i - 13 <= j <= i :: lo <= bars[j].low && bars[j].high <= hi)
    && (exists j :: i - 13 <= j <= i && bars[j].high == hi)
    && (exists j :: i - 13 <= j <= i && bars[j].low == lo)
  }

  lemma SpanIs(bars: seq<Bar>, i: nat, hi: real, lo: real)
    requires 14 <= i + 1 <= |bars| && IsSpan(bars, i, hi, lo)
    ensures IsGreatestOf(HighPrices(bars), i - 13, i + 1, hi) && IsLeastOf(LowPrices(bars), i - 13, i + 1, lo)
  {
    var j :| i - 13 <= j <= i && bars[j].high == hi;
    assert HighPrices(bars)[j] == hi;
    var k :| i - 13 <= k <= i && bars[k].low == lo;
    assert LowPrices(bars)[k] == lo;
  }

  /** The stochastic is taken over the last fourteen bars. */
  lemma StochasticReads(frame: Frame, c: SignalConfig, num: Numerics, i: nat, hi: real, lo: real)
    requires c.Valid() && 14 <= i + 1 <= |frame.bars| && IsSpan(frame.bars, i, hi, lo)
    ensures var k := FeaturesOf(frame, c, num).stochK[i];
            && (k.Some? <==> hi != lo)
            && (k.Some? ==> Mul(k.value, hi - lo) == 100.0 * (frame.bars[i].close - lo))
  {
    hide EwmMean, Adx, Atr, Rsi, MacdHistogram, StochasticK, StochasticD, BollingerWidth, Rolling, LevelColumn,
         SuperDirections, VolumeAverage, IsGreatestOf, IsLeastOf, IsSpan;
    SpanIs(frame.bars, i, hi, lo);
    StochasticPlace(HighPrices(frame.bars), LowPrices(frame.bars), Closes(frame.bars), 14, i, hi, lo);
  }

  /** And smoothed over three. */
  lemma StochasticSmoothed(frame: Frame, c: SignalConfig, num: Numerics, i: nat)
    requires c.Valid() && 3 <= i + 1 <= |frame.bars|
    ensures var k, d := FeaturesOf(frame, c, num).stochK, FeaturesOf(frame, c, num).stochD;
            k[i - 2].Some? && k[i - 1].Some? && k[i].Some? ==>
              d[i].Some? && 3.0 * d[i].value == k[i - 2].value + k[i - 1].value + k[i].value
  {
    hide EwmMean, Adx, Atr, Rsi, MacdHistogram, StochasticK, StochasticD, BollingerWidth, Rolling, LevelColumn,
         SuperDirections, VolumeAverage;
    var k := StochasticK(Known(HighPrices(frame.bars)), Known(LowPrices(frame.bars)), Known(Closes(frame.bars)), 14);
    if k[i - 2].Some? && k[i - 1].Some? && k[i].Some? {
      var w := [k[i - 2].value, k[i - 1].value, k[i].value];
      assert k[i - 2..i + 1] == Known(w);
      SmoothedPlace(k, 3, i, w);
      SumOfThree(w);
    }
  }

  lemma SumOfThree(w: seq<real>)
    requires |w| == 3
    ensures Vectors.Sum(w) == w[0] + w[1] + w[2]
  {
    assert w[..2][..1][..0] == [];
    assert Vectors.Sum(w[..2]) == Vectors.Sum(w[..2][..1]) + w[1];
  }

  /** The bar at p has a high above those of the bars on each side. */
  predicate IsSwingHigh(bars: seq<Bar>, lookback: nat, p: nat) {
    && lookback <= p && p + lookback < |bars|
    && forall j | p - lookback <= j <= p + lookback && j != p :: bars[j].high < bars[p].high
  }

  predicate IsSwingLow(bars: seq<Bar>, lookback: nat, p: nat) {
    && lookback <= p && p + lookback < |bars|
    && forall j | p - lookback <= j <= p + lookback && j != p :: bars[j].low > bars[p].low
  }

  /** Bar i is shown the high of the latest swing high that its lookback has confirmed by then, and
      the low of the latest swing low. */
  lemma LevelsShown(frame: Frame, c: SignalConfig, num: Numerics, i: nat)
    requires c.Valid() && i < |frame.bars|
    ensures match FeaturesOf(frame, c, num).swingHigh[i]
            case None => forall p: nat | p + c.srLookback <= i :: !IsSwingHigh(frame.bars, c.srLookback, p)
            case Some(x) =>
              exists p: nat | p + c.srLookback <= i && IsSwingHigh(frame.bars, c.srLookback, p) ::
                && frame.bars[p].high == x
                && forall q: nat | p < q && q + c.srLookback <= i :: !IsSwingHigh(frame.bars, c.srLookback, q)
    ensures match FeaturesOf(frame, c, num).swingLow[i]
            case None => forall p: nat | p + c.srLookback <= i :: !IsSwingLow(frame.bars, c.srLookback, p)
            case Some(x) =>
              exists p: nat | p + c.srLookback <= i && IsSwingLow(frame.bars, c.srLookback, p) ::
                && frame.bars[p].low == x
                && forall q: nat | p < q && q + c.srLookback <= i :: !IsSwingLow(frame.bars, c.srLookback, q)
  {
    hide EwmMean, Adx, Atr, Rsi, MacdHistogram, StochasticK, StochasticD, BollingerWidth, Rolling, SuperDirections,
         VolumeAverage, PivotAt, IsSwing, IsSwingHigh, IsSwingLow;
    var bars, n := frame.bars, c.srLookback;
    LevelExact(Highs, HighPrices(bars), n, i);
    LevelExact(Lows, LowPrices(bars), n, i);
    forall p: nat
      ensures IsSwing(Highs, HighPrices(bars), n, p) <==> IsSwingHigh(bars, n, p)
      ensures IsSwing(Lows, LowPrices(bars), n, p) <==> IsSwingLow(bars, n, p)
    {
      SwingsOfBars(bars, n, p);
    }
  }

  lemma SwingsOfBars(bars: seq<Bar>, lookback: nat, p: nat)
    ensures IsSwing(Highs, HighPrices(bars), lookback, p) <==> IsSwingHigh(bars, lookback, p)
    ensures IsSwing(Lows, LowPrices(bars), lookback, p) <==> IsSwingLow(bars, lookback, p)
  {
    if IsSwingHigh(bars, lookback, p) {
      assert IsSwing(Highs, HighPrices(bars), lookback, p);
    }
    if IsSwingLow(bars, lookback, p) {
      assert IsSwing(Lows, LowPrices(bars), lookback, p);
    }
    var h, l := HighPrices(bars), LowPrices(bars);
    if IsSwing(Highs, h, lookback, p) {
      forall j | p - lookback <= j <= p + lookback && j != p
        ensures bars[j].high < bars[p].high
      {
        assert Beats(Highs, h[p], h[j]);
      }
    }
    if IsSwing(Lows, l, lookback, p) {
      forall j | p - lookback <= j <= p + lookback && j != p
        ensures bars[j].low > bars[p].low
      {
        assert Beats(Lows, l[p], l[j]);
      }
    }
  }
}
