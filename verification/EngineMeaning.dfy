/** When a bar becomes a signal, and which: the engine's answer in terms of the layers' scores. */
module EngineMeaning {
  import opened Reals
  import opened Wrappers
  import opened ExponentialMeans
  import opened Indicators
  import opened IndicatorMeaning
  import opened SignalModels
  import opened Layers
  import opened LayerMeaning
  import opened SignalEngine

  // ---- one bar ----

  /** The layer's weight times its score; nothing for a layer that abstains. */
  function Weighed(c: SignalConfig, layer: Layer, s: LayerScore): real
    requires c.Valid()
  {
    if s.evaluable then Mul(c.weights[layer], s.score) else 0.0
  }

  function Present(c: SignalConfig, layer: Layer, s: LayerScore): real
    requires c.Valid()
  {
    if s.evaluable then c.weights[layer] else 0.0
  }

  /** All six layers are counted, each once, each with its own score. */
  lemma SixLayers(f: Features, c: SignalConfig, num: Numerics, pos: nat)
    requires c.Valid() && f.Shaped() && pos < |f.frame.bars|
    ensures WeightedScore(f, c, num, pos, LAYERS) ==
            Weighed(c, Trend, ScoreTrend(f, c, pos)) + Weighed(c, Momentum, ScoreMomentum(f, c, pos)) +
            Weighed(c, Volume, ScoreVolume(f, c, pos)) + Weighed(c, PriceAction, ScorePriceAction(f, pos)) +
            Weighed(c, Volatility, ScoreVolatility(f, c, num, pos)) +
            Weighed(c, SupportResistance, ScoreSupportResistance(f, c, pos))
    ensures AvailableWeight(f, c, num, pos, LAYERS) ==
            Present(c, Trend, ScoreTrend(f, c, pos)) + Present(c, Momentum, ScoreMomentum(f, c, pos)) +
            Present(c, Volume, ScoreVolume(f, c, pos)) + Present(c, PriceAction, ScorePriceAction(f, pos)) +
            Present(c, Volatility, ScoreVolatility(f, c, num, pos)) +
            Present(c, SupportResistance, ScoreSupportResistance(f, c, pos))
  {
    hide ScoreTrend, ScoreMomentum, ScoreVolume, ScorePriceAction, ScoreVolatility, ScoreSupportResistance, Mul,
         SignalConfig.Valid, WeightedScore, AvailableWeight;
    assert LAYERS[..5] == [Trend, Momentum, Volume, PriceAction, Volatility];
    assert LAYERS[..5][..4] == [Trend, Momentum, Volume, PriceAction];
    assert LAYERS[..5][..4][..3] == [Trend, Momentum, Volume];
    assert LAYERS[..5][..4][..3][..2] == [Trend, Momentum];
    assert LAYERS[..5][..4][..3][..2][..1] == [Trend];
    assert LAYERS[..5][..4][..3][..2][..1][..0] == [];
    LastLayer(f, c, num, pos, []);
    LastLayer(f, c, num, pos, [Trend]);
    LastLayer(f, c, num, pos, [Trend, Momentum]);
    LastLayer(f, c, num, pos, [Trend, Momentum, Volume]);
    LastLayer(f, c, num, pos, [Trend, Momentum, Volume, PriceAction]);
    LastLayer(f, c, num, pos, [Trend, Momentum, Volume, PriceAction, Volatility]);
    LastLayer(f, c, num, pos, LAYERS);
  }

  lemma LastLayer(f: Features, c: SignalConfig, num: Numerics, pos: nat, names: seq<Layer>)
    requires c.Valid() && f.Shaped() && pos < |f.frame.bars|
    ensures names == [] ==> WeightedScore(f, c, num, pos, names) == AvailableWeight(f, c, num, pos, names) == 0.0
    ensures names != [] ==>
              var n := |names| - 1;
              var s := ScoreLayer(f, c, num, names[n], pos);
              && WeightedScore(f, c, num, pos, names) ==
                 WeightedScore(f, c, num, pos, names[..n]) + Weighed(c, names[n], s)
              && AvailableWeight(f, c, num, pos, names) ==
                 AvailableWeight(f, c, num, pos, names[..n]) + Present(c, names[n], s)
  {
    hide ScoreLayer, Mul;
  }

  /** The confidence asked for: the explicit one, or that of the mode. */
  function Demanded(c: SignalConfig): real {
    match c.confidenceThreshold
    case Some(t) => t
    case None => match c.mode { case Aggressive => 0.40 case Balanced => 0.60 case Conservative => 0.75 }
  }

  /** A layer in the list speaks for the sign of the sum. */
  predicate Backs(s: LayerScore, sum: real) {
    s.evaluable && (if sum > 0.0 then s.score > 0.0 else s.score < 0.0)
  }

  /** A bar scores exactly when some weight is present, the sum is not negligible against it and
      reaches the confidence asked for, every mandatory layer speaks for its sign, and close and
      range are positive. The side is the sum's sign, the confidence its size over the weight
      present; stop and targets lie the configured multiples of the range from the close. */
  lemma ScoreBarExactly(f: Features, c: SignalConfig, num: Numerics, pos: nat)
    requires c.Valid() && f.Shaped() && pos < |f.frame.bars|
    ensures var sum := WeightedScore(f, c, num, pos, LAYERS);
            var weight := AvailableWeight(f, c, num, pos, LAYERS);
            var close, atr, r := f.frame.bars[pos].close, f.atr[pos], ScoreBar(f, c, num, pos);
            && (r.Some? <==>
                 && weight > 0.0
                 && Abs(sum) >= Mul(0.000000000001, weight) && Abs(sum) >= Mul(Demanded(c), weight)
                 && (forall layer | layer in c.mandatoryLayers :: Backs(ScoreLayer(f, c, num, layer, pos), sum))
                 && close > 0.0 && atr.Some? && atr.value > 0.0)
            && (r.Some? ==>
                 && r.value.action == (if sum > 0.0 then Buy else Sell)
                 && Mul(r.value.confidence, weight) == Abs(sum)
                 && r.value.price == close && r.value.atr == atr.value && r.value.position == pos
                 && Placed(c, r.value))
  {
    hide ScoreLayer, SignalConfig.Valid, WeightedScore, AvailableWeight, Placed, LevelsFor, Mul, ScoresOf;
    var sum, weight := WeightedScore(f, c, num, pos, LAYERS), AvailableWeight(f, c, num, pos, LAYERS);
    if weight > 0.0 {
      NormalisedInRange(f, c, num, pos);
      SizeOverWeight(sum, weight);
      BelowMultiple(Abs(sum), weight, 0.000000000001);
      BelowMultiple(Abs(sum), weight, Demanded(c));
      LevelsPlaced(c, if sum > 0.0 then Buy else Sell, f, num, pos, Abs(sum / weight));
    }
  }

  lemma SizeOverWeight(sum: real, weight: real)
    requires weight > 0.0
    ensures Abs(sum / weight) == Abs(sum) / weight && Mul(Abs(sum / weight), weight) == Abs(sum)
    ensures sum / weight > 0.0 <==> sum > 0.0
  {
    var q := sum / weight;
    assert q * weight == sum;
    assert Abs(q) * weight == Abs(sum);
    assert Abs(q) * weight / weight == Abs(q);
  }

  predicate Placed(c: SignalConfig, o: Outcome) {
    var side := if o.action == Buy then 1.0 else -1.0;
    && Mul(side, o.price - o.levels.sl) == Mul(c.atrSlMult, o.atr)
    && Mul(side, o.levels.tp1 - o.price) == Mul(c.atrTpMult, o.atr)
    && Mul(side, o.levels.tp2 - o.price) == Mul(c.atrTp2Mult, o.atr)
  }

  lemma LevelsPlaced(c: SignalConfig, action: Action, f: Features, num: Numerics, pos: nat, confidence: real)
    requires c.Valid() && f.Shaped() && pos < |f.frame.bars|
    ensures var o := PlaceLevels(f, c, num, pos, action, confidence);
            o.Some? ==> Placed(c, o.value)
  {
    hide SignalConfig.Valid, ScoresOf;
    var o := PlaceLevels(f, c, num, pos, action, confidence);
    if o.Some? {
      var p, a := o.value.price, o.value.atr;
      Sides(p, Mul(c.atrSlMult, a));
      Sides(p, Mul(c.atrTpMult, a));
      Sides(p, Mul(c.atrTp2Mult, a));
    }
  }

  lemma Sides(p: real, d: real)
    ensures Mul(1.0, p - (p - d)) == d && Mul(1.0, p + d - p) == d
    ensures Mul(-1.0, p - (p + d)) == d && Mul(-1.0, p - d - p) == d
  {
  }

  // ---- warmup ----

  /** The warmup is the greatest of the lengths asked for. At its last bar averages, RSI, range and
      volume have readings; MACD has one exactly when the warmup is 34 bars or more, and ADX none
      when it is shorter than twice the ADX period. */
  lemma WarmupExactly(frame: Frame, c: SignalConfig, num: Numerics, i: nat)
    requires c.Valid() && i + 1 == c.WarmupBars() <= |frame.bars|
    ensures IsGreatestIn(c.WarmupBars(), [c.emaSlow, c.emaFast + c.srLookback, c.bbPeriod, c.volumeMaPeriod,
                                          c.rsiPeriod + 1, c.atrPeriod + 1, 2 * c.srLookback + 1])
    ensures var f := FeaturesOf(frame, c, num);
            && f.emaFast[i].Some? && f.emaSlow[i].Some? && f.rsi[i].Some? && f.atr[i].Some?
            && (f.volumeMa[i].Some? <==> frame.hasVolume)
            && (f.macdHist[i].Some? <==> c.WarmupBars() >= 34)
            && (f.adx[i].Some? ==> c.WarmupBars() >= 2 * c.adxPeriod)
  {
    hide EwmMean, Adx, Atr, Rsi, MacdHistogram, StochasticK, StochasticD, BollingerWidth, LevelColumn,
         SuperDirections, VolumeAverage, SignalConfig.WarmupBars, IsGreatestIn;
    WarmupIsGreatest(c);
    WarmupCovers(c);
    FeaturesShown(frame, c, num, i);
    AdxNeeds(HighPrices(frame.bars), LowPrices(frame.bars), Closes(frame.bars), c.adxPeriod, i);
  }

  lemma WarmupIsGreatest(c: SignalConfig)
    ensures IsGreatestIn(c.WarmupBars(), [c.emaSlow, c.emaFast + c.srLookback, c.bbPeriod, c.volumeMaPeriod,
                                          c.rsiPeriod + 1, c.atrPeriod + 1, 2 * c.srLookback + 1])
  {
    hide MaxOf;
    var needs: seq<nat> := [c.emaSlow, c.emaFast + c.srLookback, c.bbPeriod, c.volumeMaPeriod, c.rsiPeriod + 1,
                            c.atrPeriod + 1, c.srLookback * 2 + 1];
    assert c.WarmupBars() == MaxOf(needs);
  }

  lemma WarmupCovers(c: SignalConfig)
    requires c.Valid()
    ensures c.WarmupBars() >= c.emaSlow > c.emaFast && c.WarmupBars() >= c.volumeMaPeriod
    ensures c.WarmupBars() > c.rsiPeriod && c.WarmupBars() > c.atrPeriod
  {
    hide SignalConfig.WarmupBars;
    WarmupIsGreatest(c);
    var needs: seq<nat> := [c.emaSlow, c.emaFast + c.srLookback, c.bbPeriod, c.volumeMaPeriod, c.rsiPeriod + 1,
                            c.atrPeriod + 1, 2 * c.srLookback + 1];
    assert needs[3] == c.volumeMaPeriod && needs[4] == c.rsiPeriod + 1 && needs[5] == c.atrPeriod + 1;
  }

  predicate IsGreatestIn(x: nat, needs: seq<nat>) {
    x in needs && forall i | 0 <= i < |needs| :: needs[i] <= x
  }

  // ---- which scored bars are kept ----

  /** The bars that count as closed: those whose time has come; without a clock all of them, or all
      but the last when closes must be confirmed. */
  lemma ClosedExactly(frame: Frame, c: SignalConfig, now: Option<int>)
    requires frame.Ordered()
    ensures var closed := ClosedCount(frame, c, now);
            match now
            case Some(t) => forall i | 0 <= i < |frame.bars| :: i < closed <==> frame.bars[i].time <= t
            case None => closed == if frame.bars != [] && c.confirmOnClose then |frame.bars| - 1 else |frame.bars|
  {
  }

  /** Too close to, or of the same side as, the bar kept before it. */
  predicate HeldBack(c: SignalConfig, o: Outcome, last: Outcome) {
    || o.position < last.position + c.minBarsBetweenSignals
    || (c.requireOppositeBeforeRepeat && o.action == last.action)
  }

  /** A closed bar past the warmup is kept exactly when it scores and the last bar kept before it,
      if there is one, does not hold it back; no other bar is kept. */
  lemma KeptExactly(frame: Frame, c: SignalConfig, num: Numerics, closed: nat, o: Outcome)
    requires c.Valid() && closed <= |frame.bars|
    ensures var kept := Kept(frame, c, num, closed);
            o in kept <==>
              && c.WarmupBars() <= o.position + 1 <= closed
              && ScoreBar(FeaturesOf(frame, c, num), c, num, o.position) == Some(o)
              && forall j | 0 <= j < |kept| && LastBefore(kept, j, o.position) :: !HeldBack(c, o, kept[j])
  {
    hide FeaturesOf, Survivors, Scored, ScoreBar, SignalConfig.Valid, SignalConfig.WarmupBars, HeldBack, LastBefore;
    WarmupIsLong(c);
    var from := c.WarmupBars() - 1;
    if from < closed {
      var f := FeaturesOf(frame, c, num);
      ScoredPositions(f, c, num, from, closed);
      SurvivorsWellSpaced(c, Scored(f, c, num, from, closed));
      if from <= o.position < closed && ScoreBar(f, c, num, o.position) == Some(o) {
        DecidedByTheLast(f, c, num, from, closed, o);
      }
    }
  }

  /** The entry at j is the last of those placed before p. */
  predicate LastBefore(kept: seq<Outcome>, j: nat, p: nat)
    requires j < |kept|
  {
    kept[j].position < p && (j + 1 < |kept| ==> p <= kept[j + 1].position)
  }

  lemma DecidedByTheLast(f: Features, c: SignalConfig, num: Numerics, from: nat, closed: nat, o: Outcome)
    requires c.Valid() && f.Shaped() && from <= o.position < closed <= |f.frame.bars|
    requires ScoreBar(f, c, num, o.position) == Some(o)
    ensures var kept := Survivors(c, Scored(f, c, num, from, closed));
            o in kept <==> forall j | 0 <= j < |kept| && LastBefore(kept, j, o.position) :: !HeldBack(c, o, kept[j])
  {
    hide Survivors, Scored, ScoreBar, SignalConfig.Valid, Blocked, HeldBack;
    var p := o.position;
    var xs, ys := Scored(f, c, num, from, p), Scored(f, c, num, p + 1, closed);
    ScoredThrough(f, c, num, from, closed, o);
    var kept, before := Survivors(c, xs + [o] + ys), Survivors(c, xs);
    ScoredPositions(f, c, num, from, p);
    ScoredPositions(f, c, num, p + 1, closed);
    SurvivorsWellSpaced(c, xs);
    SurvivorsAdded(c, xs + [o], ys);
    OneMore(c, xs, o);
    forall i | 0 <= i < |kept|
      ensures i < |before| <==> kept[i].position < p
    {
      if i < |before| {
        assert kept[i] == before[i] && before[i] in xs;
      } else {
        assert kept[i] == o || kept[i] in ys;
      }
    }
    TheLastOnly(kept, |before|, p);
    if !Blocked(c, before, o) {
      assert kept[|before|] == o;
    }
  }

  lemma TheLastOnly(kept: seq<Outcome>, n: nat, p: nat)
    requires n <= |kept| && forall i | 0 <= i < |kept| :: i < n <==> kept[i].position < p
    ensures forall j | 0 <= j < |kept| :: LastBefore(kept, j, p) <==> j + 1 == n
  {
  }

  lemma OneMore(c: SignalConfig, xs: seq<Outcome>, o: Outcome)
    ensures var before := Survivors(c, xs);
            && Survivors(c, xs + [o]) == (if Blocked(c, before, o) then before else before + [o])
            && (Blocked(c, before, o) <==> before != [] && HeldBack(c, o, before[|before| - 1]))
  {
    assert (xs + [o])[..|xs|] == xs;
  }

  lemma ScoredThrough(f: Features, c: SignalConfig, num: Numerics, from: nat, closed: nat, o: Outcome)
    requires c.Valid() && f.Shaped() && from <= o.position < closed <= |f.frame.bars|
    requires ScoreBar(f, c, num, o.position) == Some(o)
    ensures Scored(f, c, num, from, closed) ==
            Scored(f, c, num, from, o.position) + [o] + Scored(f, c, num, o.position + 1, closed)
  {
    hide ScoreBar, SignalConfig.Valid;
    ScoredSplit(f, c, num, from, o.position + 1, closed);
  }
}
