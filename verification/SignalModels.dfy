/** Bars, configuration and price levels of the bar-anchored signal engine. */
module SignalModels {
  import opened Wrappers
  import opened Reals

  /** One candle, labelled by its close time. */
  datatype Bar = Bar(time: int, open: real, high: real, low: real, close: real, volume: real)

  datatype Frame = Frame(bars: seq<Bar>, hasVolume: bool) {
    /** Strictly ascending close times: sorted and without duplicates. */
    predicate Ordered() {
      forall i, j | 0 <= i < j < |bars| :: bars[i].time < bars[j].time
    }
  }

  datatype Action = Buy | Sell

  datatype Mode = Aggressive | Balanced | Conservative

  datatype Layer = Trend | Momentum | Volume | PriceAction | Volatility | SupportResistance

  const LAYERS: seq<Layer> := [Trend, Momentum, Volume, PriceAction, Volatility, SupportResistance]

  function ModeThreshold(m: Mode): real {
    match m
    case Aggressive => 0.40
    case Balanced => 0.60
    case Conservative => 0.75
  }

  function WeightSum(weights: map<Layer, real>, names: seq<Layer>): real
    requires forall n | n in names :: n in weights
  {
    if names == [] then 0.0 else WeightSum(weights, names[..|names| - 1]) + weights[names[|names| - 1]]
  }

  datatype SignalConfig = SignalConfig(
    mode: Mode,
    confidenceThreshold: Option<real>,
    minBarsBetweenSignals: int,
    confirmOnClose: bool,
    requireOppositeBeforeRepeat: bool,
    mandatoryLayers: seq<Layer>,
    weights: map<Layer, real>,
    atrPeriod: nat,
    atrSlMult: real,
    atrTpMult: real,
    atrTp2Mult: real,
    emaFast: nat,
    emaSlow: nat,
    adxPeriod: nat,
    adxTrendMin: real,
    rsiPeriod: nat,
    rsiOversold: real,
    rsiOverbought: real,
    volumeMaPeriod: nat,
    volumeMult: real,
    atrMinRatio: real,
    atrMaxRatio: real,
    bbPeriod: nat,
    bbStd: real,
    srLookback: nat,
    srAtrMult: real)
  {
    function EffectiveThreshold(): real {
      if confidenceThreshold.Some? then confidenceThreshold.value else ModeThreshold(mode)
    }

    /** The configurations construction does not reject. */
    predicate Valid() {
      && (forall l: Layer :: l in weights)
      && Abs(WeightSum(weights, LAYERS) - 1.0) <= 0.000000001
      && (forall l | l in weights :: weights[l] >= 0.0)
      && 0.0 <= EffectiveThreshold() <= 1.0
      && minBarsBetweenSignals >= 0
      && atrPeriod >= 2 && emaFast >= 2 && emaSlow >= 2 && adxPeriod >= 2
      && rsiPeriod >= 2 && volumeMaPeriod >= 2 && bbPeriod >= 2 && srLookback >= 2
      && emaFast < emaSlow
      && 0.0 < rsiOversold < rsiOverbought < 100.0
      && volumeMult > 0.0
      && 0.0 < atrMinRatio < atrMaxRatio
      && srAtrMult > 0.0
      && atrSlMult > 0.0 && atrTpMult > 0.0 && atrTp2Mult > 0.0
      && atrTpMult < atrTp2Mult
    }

    /** Bars required before every layer can be evaluated. */
    function WarmupBars(): (n: nat)
      ensures n >= emaSlow && n >= srLookback * 2 + 1
    {
      var needs := [emaSlow, emaFast + srLookback, bbPeriod, volumeMaPeriod, rsiPeriod + 1, atrPeriod + 1,
                    srLookback * 2 + 1];
      assert needs[0] == emaSlow && needs[6] == srLookback * 2 + 1;
      MaxOf(needs)
    }
  }

  function MaxOf(s: seq<nat>): (m: nat)
    requires s != []
    ensures m in s && forall i | 0 <= i < |s| :: s[i] <= m
  {
    if |s| == 1 then s[0]
    else
      var m := MaxOf(s[..|s| - 1]);
      if m >= s[|s| - 1] then m else s[|s| - 1]
  }

  /** Stop loss and the two targets. */
  datatype Levels = Levels(sl: real, tp1: real, tp2: real)

  function LevelsFor(action: Action, price: real, atr: real, sl: real, tp: real, tp2: real): Levels {
    match action
    case Buy => Levels(price - Mul(sl, atr), price + Mul(tp, atr), price + Mul(tp2, atr))
    case Sell => Levels(price + Mul(sl, atr), price - Mul(tp, atr), price - Mul(tp2, atr))
  }

  /** Stop, entry and targets in order, on the sides the action demands. */
  predicate Bracketed(action: Action, price: real, l: Levels) {
    match action
    case Buy => l.sl < price < l.tp1 < l.tp2
    case Sell => l.tp2 < l.tp1 < price < l.sl
  }

  lemma LevelsBracketPrice(c: SignalConfig, action: Action, price: real, atr: real)
    requires c.Valid() && atr > 0.0
    ensures Bracketed(action, price, LevelsFor(action, price, atr, c.atrSlMult, c.atrTpMult, c.atrTp2Mult))
  {
    var sl, tp, tp2 := c.atrSlMult, c.atrTpMult, c.atrTp2Mult;
    assert 0.0 < sl && 0.0 < tp < tp2;
    hide SignalConfig.Valid, LevelsFor, Bracketed;
    OrderedBrackets(action, price, atr, sl, tp, tp2);
  }

  lemma OrderedBrackets(action: Action, price: real, atr: real, sl: real, tp: real, tp2: real)
    requires atr > 0.0 && 0.0 < sl && 0.0 < tp < tp2
    ensures Bracketed(action, price, LevelsFor(action, price, atr, sl, tp, tp2))
  {
    hide Mul;
    ZeroTimes(atr);
    ProductLess(0.0, sl, atr);
    ProductLess(0.0, tp, atr);
    ProductLess(tp, tp2, atr);
  }

  lemma ProductLess(x: real, y: real, z: real)
    requires x < y && z > 0.0
    ensures Mul(x, z) < Mul(y, z)
  {
  }
}
