/** The bar-anchored signal engine: scoring, suppression, and the promise that a signal,
    once shown, never changes. */
module SignalEngine {
  import opened Wrappers
  import opened Reals
  import opened Columns
  import opened SignalModels
  import opened SignalFrames
  import opened Layers

  /** A scored bar, before suppression. */
  datatype Outcome = Outcome(position: nat, action: Action, confidence: real, price: real, atr: real,
                             levels: Levels, scores: map<Layer, real>)

  datatype Signal = Signal(time: int, action: Action, price: real, entry: real, levels: Levels, atr: real,
                           confidence: real, layers: map<Layer, real>)

  datatype EngineError = EmptyFrame

  // ---- which bars count as closed ----

  /** The newest bar whose close time has passed, as an index; -1 when there is none.
      Without a clock the trailing bar is not trusted when closes must be confirmed. */
  function LastClosed(bars: seq<Bar>, now: Option<int>, confirmOnClose: bool): (i: int)
    ensures -1 <= i < |bars| || bars == []
  {
    if now == None then (if confirmOnClose then |bars| - 2 else |bars| - 1)
    else LastAtOrBefore(bars, now.value)
  }

  function LastAtOrBefore(bars: seq<Bar>, now: int): (i: int)
    ensures -1 <= i < |bars|
    ensures i >= 0 ==> bars[i].time <= now
    ensures forall j | i < j < |bars| :: bars[j].time > now
  {
    if bars == [] then -1
    else if bars[|bars| - 1].time <= now then |bars| - 1
    else LastAtOrBefore(bars[..|bars| - 1], now)
  }

  /** The first position every layer can be evaluated at, capped by the closed history. */
  function WarmupBound(c: SignalConfig, lastClosed: nat, total: nat): int
    requires c.Valid()
  {
    var bound := c.WarmupBars() - 1;
    if bound + 1 > lastClosed + 1 then lastClosed + 1 else if bound <= total then bound else total
  }

  // ---- scoring one bar ----

  function Clip01(x: real): (r: real)
    ensures 0.0 <= r <= 1.0
    ensures 0.0 <= x <= 1.0 ==> r == x
  {
    Min(1.0, Max(0.0, x))
  }

  /** Sum of weight * score over the evaluable layers listed. */
  function WeightedScore(f: Features, c: SignalConfig, num: Numerics, pos: nat, names: seq<Layer>): real
    requires c.Valid() && f.Shaped() && pos < |f.frame.bars|
  {
    if names == [] then 0.0
    else
      var name := names[|names| - 1];
      var s := ScoreLayer(f, c, num, name, pos);
      WeightedScore(f, c, num, pos, names[..|names| - 1]) + if s.evaluable then Mul(c.weights[name], s.score) else 0.0
  }

  /** Sum of the weights of the evaluable layers listed. */
  function AvailableWeight(f: Features, c: SignalConfig, num: Numerics, pos: nat, names: seq<Layer>): real
    requires c.Valid() && f.Shaped() && pos < |f.frame.bars|
  {
    if names == [] then 0.0
    else
      var name := names[|names| - 1];
      AvailableWeight(f, c, num, pos, names[..|names| - 1]) +
      if ScoreLayer(f, c, num, name, pos).evaluable then c.weights[name] else 0.0
  }

  /** Every mandatory layer has an opinion, and it is the chosen direction's. */
  predicate MandatoryAgree(f: Features, c: SignalConfig, num: Numerics, pos: nat, action: Action)
    requires c.Valid() && f.Shaped() && pos < |f.frame.bars|
  {
    forall name | name in c.mandatoryLayers ::
      var s := ScoreLayer(f, c, num, name, pos);
      s.evaluable && if action == Buy then s.score > 0.0 else s.score < 0.0
  }

  function ScoreBar(f: Features, c: SignalConfig, num: Numerics, pos: nat): Option<Outcome>
    requires c.Valid() && f.Shaped() && pos < |f.frame.bars|
  {
    if exists name | name in c.mandatoryLayers :: !ScoreLayer(f, c, num, name, pos).evaluable then None
    else
      var available := AvailableWeight(f, c, num, pos, LAYERS);
      if available <= 0.0 then None
      else
        var normalised := WeightedScore(f, c, num, pos, LAYERS) / available;
        if Abs(normalised) < 0.000000000001 then None
        else
          var action := if normalised > 0.0 then Buy else Sell;
          var confidence := Clip01(Abs(normalised));
          if !MandatoryAgree(f, c, num, pos, action) || confidence < c.EffectiveThreshold() then None
          else PlaceLevels(f, c, num, pos, action, confidence)
  }

  function PlaceLevels(f: Features, c: SignalConfig, num: Numerics, pos: nat, action: Action,
                       confidence: real): Option<Outcome>
    requires c.Valid() && f.Shaped() && pos < |f.frame.bars|
  {
    var close, atr := f.frame.bars[pos].close, f.atr[pos];
    if close <= 0.0 || atr == None || atr.value <= 0.0 then None
    else
      var levels := LevelsFor(action, close, atr.value, c.atrSlMult, c.atrTpMult, c.atrTp2Mult);
      Some(Outcome(pos, action, confidence, close, atr.value, levels, ScoresOf(f, c, num, pos)))
  }

  function ScoresOf(f: Features, c: SignalConfig, num: Numerics, pos: nat): (m: map<Layer, real>)
    requires c.Valid() && f.Shaped() && pos < |f.frame.bars|
  {
    map name: Layer | name in LAYERS :: ScoreLayer(f, c, num, name, pos).score
  }

  lemma WeightNonNegative(c: SignalConfig, name: Layer)
    requires c.Valid()
    ensures name in c.weights && c.weights[name] >= 0.0
  {
  }

  lemma TermBounded(w: real, s: real)
    requires w >= 0.0 && -1.0 <= s <= 1.0
    ensures -w <= Mul(w, s) <= w
  {
    ProductBetween(w, -1.0, s, 1.0);
  }

  lemma {:induction false} WeightedBounded(f: Features, c: SignalConfig, num: Numerics, pos: nat, names: seq<Layer>)
    requires c.Valid() && f.Shaped() && pos < |f.frame.bars|
    ensures Abs(WeightedScore(f, c, num, pos, names)) <= AvailableWeight(f, c, num, pos, names)
  {
    hide Mul, ScoreLayer, SignalConfig.Valid;
    if names != [] {
      var name := names[|names| - 1];
      WeightedBounded(f, c, num, pos, names[..|names| - 1]);
      ScoreInRange(f, c, num, name, pos);
      WeightNonNegative(c, name);
      TermBounded(c.weights[name], ScoreLayer(f, c, num, name, pos).score);
    }
  }

  /** Renormalising by the weight that is present keeps the aggregate in [-1, 1]. */
  lemma NormalisedInRange(f: Features, c: SignalConfig, num: Numerics, pos: nat)
    requires c.Valid() && f.Shaped() && pos < |f.frame.bars|
    requires AvailableWeight(f, c, num, pos, LAYERS) > 0.0
    ensures -1.0 <= WeightedScore(f, c, num, pos, LAYERS) / AvailableWeight(f, c, num, pos, LAYERS) <= 1.0
  {
    var w, s := AvailableWeight(f, c, num, pos, LAYERS), WeightedScore(f, c, num, pos, LAYERS);
    WeightedBounded(f, c, num, pos, LAYERS);
    QuotientBetween(w, -1.0, s, 1.0);
  }

  /** What every scored bar guarantees: a confidence in [threshold, 1] that is the whole
      weighted agreement, mandatory layers on its side, and levels that bracket the close. */
  lemma ScoreBarSound(f: Features, c: SignalConfig, num: Numerics, pos: nat)
    requires c.Valid() && f.Shaped() && pos < |f.frame.bars| && ScoreBar(f, c, num, pos).Some?
    ensures var o := ScoreBar(f, c, num, pos).value;
            var weight := AvailableWeight(f, c, num, pos, LAYERS);
            && o.position == pos
            && o.price == f.frame.bars[pos].close > 0.0
            && o.atr > 0.0
            && c.EffectiveThreshold() <= o.confidence <= 1.0
            && weight > 0.0
            && Mul(weight, if o.action == Buy then o.confidence else -o.confidence) ==
               WeightedScore(f, c, num, pos, LAYERS)
            && MandatoryAgree(f, c, num, pos, o.action)
            && Bracketed(o.action, o.price, o.levels)
            && o.scores.Keys == (set n | n in LAYERS)
            && forall n | n in LAYERS :: o.scores[n] == ScoreLayer(f, c, num, n, pos).score
  {
    var w, s := AvailableWeight(f, c, num, pos, LAYERS), WeightedScore(f, c, num, pos, LAYERS);
    NormalisedInRange(f, c, num, pos);
    assert Mul(w, s / w) == s;
    LevelsBracketPrice(c, ScoreBar(f, c, num, pos).value.action, f.frame.bars[pos].close, f.atr[pos].value);
  }

  // ---- suppression ----

  /** Too soon after the last kept bar, or its direction again before the opposite one. */
  predicate Blocked(c: SignalConfig, kept: seq<Outcome>, o: Outcome) {
    && kept != []
    && var last := kept[|kept| - 1];
       || o.position - last.position < c.minBarsBetweenSignals
       || (c.requireOppositeBeforeRepeat && o.action == last.action)
  }

  /** The scored bars that survive, oldest first. */
  function Survivors(c: SignalConfig, outcomes: seq<Outcome>): seq<Outcome> {
    if outcomes == [] then []
    else
      var kept := Survivors(c, outcomes[..|outcomes| - 1]);
      var o := outcomes[|outcomes| - 1];
      if Blocked(c, kept, o) then kept else kept + [o]
  }

  method ApplySuppression(c: SignalConfig, outcomes: seq<Outcome>) returns (kept: seq<Outcome>)
    ensures kept == Survivors(c, outcomes)
  {
    kept := [];
    var lastPosition: Option<nat> := None;
    var lastAction: Option<Action> := None;
    for i := 0 to |outcomes|
      invariant kept == Survivors(c, outcomes[..i])
      invariant lastPosition == if kept == [] then None else Some(kept[|kept| - 1].position)
      invariant lastAction == if kept == [] then None else Some(kept[|kept| - 1].action)
    {
      assert outcomes[..i + 1][..i] == outcomes[..i];
      var o := outcomes[i];
      if lastPosition.Some? && o.position - lastPosition.value < c.minBarsBetweenSignals {
        continue;
      }
      if c.requireOppositeBeforeRepeat && lastAction.Some? && o.action == lastAction.value {
        continue;
      }
      kept := kept + [o];
      lastPosition, lastAction := Some(o.position), Some(o.action);
    }
    assert outcomes[..|outcomes|] == outcomes;
  }

  /** Neighbours among the kept bars are far enough apart and, if asked for, alternate. */
  predicate WellSpaced(c: SignalConfig, kept: seq<Outcome>) {
    forall i | 0 < i < |kept| ::
      && kept[i].position - kept[i - 1].position >= c.minBarsBetweenSignals
      && (c.requireOppositeBeforeRepeat ==> kept[i].action != kept[i - 1].action)
  }

  lemma {:induction false} SurvivorsWellSpaced(c: SignalConfig, outcomes: seq<Outcome>)
    ensures WellSpaced(c, Survivors(c, outcomes))
    ensures forall o | o in Survivors(c, outcomes) :: o in outcomes
  {
    if outcomes != [] {
      hide WellSpaced;
      var init, o := outcomes[..|outcomes| - 1], outcomes[|outcomes| - 1];
      SurvivorsWellSpaced(c, init);
      if !Blocked(c, Survivors(c, init), o) {
        WellSpacedSnoc(c, Survivors(c, init), o);
      }
    } else {
      SurvivorsOfNone(c);
    }
  }

  lemma WellSpacedSnoc(c: SignalConfig, kept: seq<Outcome>, o: Outcome)
    requires WellSpaced(c, kept) && !Blocked(c, kept, o)
    ensures WellSpaced(c, kept + [o])
  {
  }

  /** Suppression decides each bar from the bars before it: more bars only add signals. */
  lemma {:induction false} SurvivorsGrow(c: SignalConfig, xs: seq<Outcome>, ys: seq<Outcome>)
    ensures Survivors(c, xs) <= Survivors(c, xs + ys)
    decreases |ys|
  {
    if ys == [] {
      assert xs + ys == xs;
    } else {
      assert (xs + ys)[..|xs + ys| - 1] == xs + ys[..|ys| - 1];
      SurvivorsGrow(c, xs, ys[..|ys| - 1]);
    }
  }

  predicate Ascending(outcomes: seq<Outcome>) {
    forall i, j | 0 <= i < j < |outcomes| :: outcomes[i].position < outcomes[j].position
  }

  /** Bars kept later were scored later. */
  lemma {:induction false} SurvivorsAdded(c: SignalConfig, xs: seq<Outcome>, ys: seq<Outcome>)
    ensures var a, b := Survivors(c, xs), Survivors(c, xs + ys);
            a <= b && forall i | |a| <= i < |b| :: b[i] in ys
    decreases |ys|
  {
    SurvivorsGrow(c, xs, ys);
    if ys == [] {
      assert xs + ys == xs;
    } else {
      assert (xs + ys)[..|xs + ys| - 1] == xs + ys[..|ys| - 1];
      SurvivorsAdded(c, xs, ys[..|ys| - 1]);
    }
  }

  lemma DroppedWhenScored(c: SignalConfig, xs: seq<Outcome>, o: Outcome, ys: seq<Outcome>)
    requires o !in Survivors(c, xs + [o] + ys)
    ensures Blocked(c, Survivors(c, xs), o) && Survivors(c, xs + [o]) == Survivors(c, xs)
  {
    assert (xs + [o])[..|xs|] == xs;
    SurvivorsAdded(c, xs + [o], ys);
    var grown := Survivors(c, xs + [o]);
    assert grown != [] ==> grown[|grown| - 1] in Survivors(c, xs + [o] + ys);
  }

  /** Nothing is dropped without cause: a scored bar that is not kept is blocked by the
      latest kept bar before it. */
  lemma DroppedIsBlocked(c: SignalConfig, xs: seq<Outcome>, o: Outcome, ys: seq<Outcome>)
    requires Ascending(xs + [o] + ys) && o !in Survivors(c, xs + [o] + ys)
    ensures var kept := Survivors(c, xs + [o] + ys);
            exists j | 0 < j <= |kept| ::
              && kept[j - 1].position < o.position
              && (j < |kept| ==> o.position < kept[j].position)
              && Blocked(c, kept[..j], o)
  {
    hide Blocked, Survivors;
    var all := xs + [o] + ys;
    var kept, before := Survivors(c, all), Survivors(c, xs);
    DroppedWhenScored(c, xs, o, ys);
    SurvivorsAdded(c, xs + [o], ys);
    SurvivorsWellSpaced(c, xs);
    BlockedNeedsKept(c, before, o);
    assert kept[..|before|] == before;
    var last := before[|before| - 1];
    assert last in before;
    var p :| 0 <= p < |xs| && xs[p] == last;
    assert all[p] == last && all[|xs|] == o;
    if |before| < |kept| {
      var q :| 0 <= q < |ys| && ys[q] == kept[|before|];
      assert all[|xs| + 1 + q] == ys[q];
    }
  }

  lemma BlockedNeedsKept(c: SignalConfig, kept: seq<Outcome>, o: Outcome)
    requires Blocked(c, kept, o)
    ensures kept != []
  {
  }

  // ---- the whole computation ----

  /** The scored bars at positions lo..hi. */
  function Scored(f: Features, c: SignalConfig, num: Numerics, lo: nat, hi: nat): seq<Outcome>
    requires c.Valid() && f.Shaped() && lo <= hi <= |f.frame.bars|
    decreases hi
  {
    if lo == hi then []
    else
      var o := ScoreBar(f, c, num, hi - 1);
      Scored(f, c, num, lo, hi - 1) + if o.Some? then [o.value] else []
  }

  function ToSignal(o: Outcome, bars: seq<Bar>): Signal
    requires o.position < |bars|
  {
    Signal(bars[o.position].time, o.action, o.price, o.price, o.levels, o.atr, o.confidence, o.scores)
  }

  function ToSignals(os: seq<Outcome>, bars: seq<Bar>): (ss: seq<Signal>)
    requires forall o | o in os :: o.position < |bars|
    ensures |ss| == |os|
  {
    seq(|os|, i requires 0 <= i < |os| => ToSignal(os[i], bars))
  }

  lemma {:induction false} ScoredPositions(f: Features, c: SignalConfig, num: Numerics, lo: nat, hi: nat)
    requires c.Valid() && f.Shaped() && lo <= hi <= |f.frame.bars|
    ensures forall o | o in Scored(f, c, num, lo, hi) ::
              lo <= o.position < hi && ScoreBar(f, c, num, o.position) == Some(o)
    decreases hi
  {
    hide ScoreBar;
    if lo < hi {
      ScoredPositions(f, c, num, lo, hi - 1);
      if ScoreBar(f, c, num, hi - 1).Some? {
        ScoreBarPosition(f, c, num, hi - 1);
      }
    }
  }

  lemma ScoreBarPosition(f: Features, c: SignalConfig, num: Numerics, pos: nat)
    requires c.Valid() && f.Shaped() && pos < |f.frame.bars| && ScoreBar(f, c, num, pos).Some?
    ensures ScoreBar(f, c, num, pos).value.position == pos
  {
  }

  /** The bars kept when `closed` bars have closed: scored from the warmup bound on. */
  ghost function Kept(frame: Frame, c: SignalConfig, num: Numerics, closed: nat): (os: seq<Outcome>)
    requires c.Valid() && closed <= |frame.bars|
  {
    var f := FeaturesOf(frame, c, num);
    var from := c.WarmupBars() - 1;
    if from >= closed then [] else Survivors(c, Scored(f, c, num, from, closed))
  }

  lemma KeptPositions(frame: Frame, c: SignalConfig, num: Numerics, closed: nat)
    requires c.Valid() && closed <= |frame.bars|
    ensures forall o | o in Kept(frame, c, num, closed) ::
              o.position < closed && ScoreBar(FeaturesOf(frame, c, num), c, num, o.position) == Some(o)
    ensures WellSpaced(c, Kept(frame, c, num, closed))
  {
    hide ScoreBar, FeaturesOf, Survivors, Scored, SignalConfig.Valid;
    var from := c.WarmupBars() - 1;
    if from < closed {
      var f := FeaturesOf(frame, c, num);
      ScoredPositions(f, c, num, from, closed);
      SurvivorsWellSpaced(c, Scored(f, c, num, from, closed));
    }
  }

  /** The number of bars treated as closed. */
  function ClosedCount(frame: Frame, c: SignalConfig, now: Option<int>): (k: nat)
    ensures k <= |frame.bars|
  {
    var i := LastClosed(frame.bars, now, c.confirmOnClose);
    if i < 0 then 0 else i + 1
  }

  /** The signals for a frame at a clock. */
  ghost function SignalsAt(frame: Frame, c: SignalConfig, num: Numerics, now: Option<int>): seq<Signal>
    requires c.Valid()
  {
    var closed := ClosedCount(frame, c, now);
    KeptPositions(frame, c, num, closed);
    ToSignals(Kept(frame, c, num, closed), frame.bars)
  }

  /** The signals of a frame as it comes: in any order, with any number of bars a time. */
  method Compute(raw: Frame, c: SignalConfig, num: Numerics, now: Option<int>)
    returns (r: Result<seq<Signal>, EngineError>)
    requires c.Valid()
    ensures r == if raw.bars == [] then Err(EmptyFrame) else Ok(SignalsAt(Prepared(raw), c, num, now))
  {
    hide FeaturesOf, ScoreBar, Survivors, SignalConfig.Valid, Prepared;
    if raw.bars == [] {
      return Err(EmptyFrame);
    }
    var frame := Prepared(raw);
    PreparedExactly(raw);
    var signals := ComputePrepared(frame, c, num, now);
    r := Ok(signals);
  }

  method ComputePrepared(frame: Frame, c: SignalConfig, num: Numerics, now: Option<int>) returns (ss: seq<Signal>)
    requires c.Valid() && frame.bars != []
    ensures ss == SignalsAt(frame, c, num, now)
  {
    hide FeaturesOf, ScoreBar, Survivors, SignalConfig.Valid, WellSpaced, ToSignal;
    var lastClosed := LastClosed(frame.bars, now, c.confirmOnClose);
    if lastClosed < 0 {
      return [];
    }
    var upper := WarmupBound(c, lastClosed, |frame.bars|);
    WarmupIsLong(c);
    assert upper > 0;  // so an early return for an upper bound of zero is never taken
    var features := BuildFeatures(frame, c, num);
    var outcomes: seq<Outcome> := [];
    for pos := upper to lastClosed + 1
      invariant outcomes == Scored(features, c, num, upper, pos)
    {
      var outcome := ScoreBar(features, c, num, pos);
      if outcome.Some? {
        outcomes := outcomes + [outcome.value];
      }
    }
    if outcomes == [] {
      SurvivorsOfNone(c);
      return [];
    }
    var kept := ApplySuppression(c, outcomes);
    KeptPositions(frame, c, num, lastClosed + 1);
    ss := ToSignals(kept, frame.bars);
  }

  lemma WarmupIsLong(c: SignalConfig)
    requires c.Valid()
    ensures c.WarmupBars() >= 5
  {
  }

  lemma SurvivorsOfNone(c: SignalConfig)
    ensures Survivors(c, []) == []
  {
  }

  // ---- what callers are promised ----

  lemma ScoreBarCausal(f: Features, g: Features, c: SignalConfig, num: Numerics, k: nat, pos: nat)
    requires c.Valid() && FeaturesAgree(f, g, k) && pos < k
    ensures ScoreBar(f, c, num, pos) == ScoreBar(g, c, num, pos)
  {
    hide ScoreLayer, AgreeTo, SignalConfig.Valid;
    RowsAgree(f, g, k, pos);
    assert pos < |f.frame.bars| && pos < |g.frame.bars| by { LongEnough(f.frame.bars, g.frame.bars, k); }
    forall name: Layer
      ensures ScoreLayer(f, c, num, name, pos) == ScoreLayer(g, c, num, name, pos)
    {
      ScoreCausal(f, g, c, num, name, k, pos);
    }
    SumsAgree(f, g, c, num, pos, LAYERS);
    assert ScoresOf(f, c, num, pos) == ScoresOf(g, c, num, pos);
    assert forall action :: MandatoryAgree(f, c, num, pos, action) == MandatoryAgree(g, c, num, pos, action);
  }

  lemma {:induction false} SumsAgree(f: Features, g: Features, c: SignalConfig, num: Numerics, pos: nat,
                                     names: seq<Layer>)
    requires c.Valid() && f.Shaped() && g.Shaped() && pos < |f.frame.bars| && pos < |g.frame.bars|
    requires forall name: Layer :: ScoreLayer(f, c, num, name, pos) == ScoreLayer(g, c, num, name, pos)
    ensures WeightedScore(f, c, num, pos, names) == WeightedScore(g, c, num, pos, names)
    ensures AvailableWeight(f, c, num, pos, names) == AvailableWeight(g, c, num, pos, names)
  {
    hide ScoreLayer, SignalConfig.Valid, Mul;
    if names != [] {
      SumsAgree(f, g, c, num, pos, names[..|names| - 1]);
    }
  }

  lemma {:induction false} ScoredCausal(f: Features, g: Features, c: SignalConfig, num: Numerics, lo: nat, hi: nat)
    requires c.Valid() && FeaturesAgree(f, g, hi) && lo <= hi
    ensures Scored(f, c, num, lo, hi) == Scored(g, c, num, lo, hi)
    decreases hi
  {
    hide ScoreBar;
    if lo < hi {
      FeaturesAgreeEarlier(f, g, hi);
      ScoredCausal(f, g, c, num, lo, hi - 1);
      ScoreBarCausal(f, g, c, num, hi, hi - 1);
    }
  }

  lemma LongEnough<T>(xs: seq<T>, ys: seq<T>, k: nat)
    requires AgreeTo(xs, ys, k)
    ensures k <= |xs| && k <= |ys|
  {
  }

  lemma AgreeEarlier<T>(xs: seq<T>, ys: seq<T>, k: nat)
    requires k > 0 && AgreeTo(xs, ys, k)
    ensures AgreeTo(xs, ys, k - 1)
  {
    assert xs[..k - 1] == xs[..k][..k - 1];
    assert ys[..k - 1] == ys[..k][..k - 1];
  }

  lemma FeaturesAgreeEarlier(f: Features, g: Features, k: nat)
    requires k > 0 && FeaturesAgree(f, g, k)
    ensures FeaturesAgree(f, g, k - 1)
  {
    hide AgreeTo;
    AgreeEarlier(f.frame.bars, g.frame.bars, k);
    AgreeEarlier(f.emaFast, g.emaFast, k);
    AgreeEarlier(f.emaSlow, g.emaSlow, k);
    AgreeEarlier(f.adx, g.adx, k);
    AgreeEarlier(f.atr, g.atr, k);
    AgreeEarlier(f.rsi, g.rsi, k);
    AgreeEarlier(f.macdHist, g.macdHist, k);
    AgreeEarlier(f.stochK, g.stochK, k);
    AgreeEarlier(f.stochD, g.stochD, k);
    AgreeEarlier(f.superDirection, g.superDirection, k);
    AgreeEarlier(f.bbWidth, g.bbWidth, k);
    AgreeEarlier(f.volumeMa, g.volumeMa, k);
    AgreeEarlier(f.swingHigh, g.swingHigh, k);
    AgreeEarlier(f.swingLow, g.swingLow, k);
  }

  lemma {:induction false} ScoredSplit(f: Features, c: SignalConfig, num: Numerics, lo: nat, mid: nat, hi: nat)
    requires c.Valid() && f.Shaped() && lo <= mid <= hi <= |f.frame.bars|
    ensures Scored(f, c, num, lo, hi) == Scored(f, c, num, lo, mid) + Scored(f, c, num, mid, hi)
    decreases hi
  {
    hide ScoreBar;
    if mid < hi {
      ScoredSplit(f, c, num, lo, mid, hi - 1);
    }
  }

  /** Bars kept with j closed bars stay kept with more, whatever the later bars hold. */
  lemma KeptGrows(f: Frame, g: Frame, c: SignalConfig, num: Numerics, j: nat, k: nat)
    requires c.Valid() && f.hasVolume == g.hasVolume && j <= k <= |g.bars| && AgreeTo(f.bars, g.bars, j)
    ensures Kept(f, c, num, j) <= Kept(g, c, num, k)
  {
    hide FeaturesOf, Scored, Survivors, FeaturesAgree;
    var from := c.WarmupBars() - 1;
    if from < j {
      var ff, gg := FeaturesOf(f, c, num), FeaturesOf(g, c, num);
      FeaturesCausal(f, g, c, num, j);
      ScoredCausal(ff, gg, c, num, from, j);
      ScoredSplit(gg, c, num, from, j, k);
      SurvivorsGrow(c, Scored(gg, c, num, from, j), Scored(gg, c, num, j, k));
    }
  }

  /** The bars closed by t, in an ordered frame. */
  function ClosedBy(frame: Frame, t: int): seq<Bar> {
    frame.bars[..LastAtOrBefore(frame.bars, t) + 1]
  }

  lemma LaterClosesMore(bars: seq<Bar>, t1: int, t2: int)
    requires t1 <= t2
    ensures LastAtOrBefore(bars, t1) <= LastAtOrBefore(bars, t2)
  {
  }

  /** Non-repainting. Take two frames with the same bars closed by t1, whatever follows.
      The signals of one at t1 are a prefix of the signals of the other at any later t2. */
  lemma NeverRepaints(f: Frame, g: Frame, c: SignalConfig, num: Numerics, t1: int, t2: int)
    requires c.Valid() && f.Ordered() && g.Ordered() && f.hasVolume == g.hasVolume
    requires ClosedBy(f, t1) == ClosedBy(g, t1) && t1 <= t2
    ensures SignalsAt(f, c, num, Some(t1)) <= SignalsAt(g, c, num, Some(t2))
  {
    hide Kept;
    var j, k := ClosedCount(f, c, Some(t1)), ClosedCount(g, c, Some(t2));
    assert |ClosedBy(f, t1)| == j && |ClosedBy(g, t1)| == ClosedCount(g, c, Some(t1));
    LaterClosesMore(g.bars, t1, t2);
    assert AgreeTo(f.bars, g.bars, j);
    KeptGrows(f, g, c, num, j, k);
    SignalsOfPrefix(f, g, c, num, j, k);
  }

  lemma SignalsOfPrefix(f: Frame, g: Frame, c: SignalConfig, num: Numerics, j: nat, k: nat)
    requires c.Valid() && j <= k <= |g.bars| && AgreeTo(f.bars, g.bars, j)
    requires Kept(f, c, num, j) <= Kept(g, c, num, k)
    ensures forall o | o in Kept(f, c, num, j) :: o.position < |f.bars|
    ensures forall o | o in Kept(g, c, num, k) :: o.position < |g.bars|
    ensures ToSignals(Kept(f, c, num, j), f.bars) <= ToSignals(Kept(g, c, num, k), g.bars)
  {
    hide Kept;
    var a, b := Kept(f, c, num, j), Kept(g, c, num, k);
    KeptPositions(f, c, num, j);
    KeptPositions(g, c, num, k);
    forall i | 0 <= i < |a|
      ensures ToSignals(a, f.bars)[i] == ToSignals(b, g.bars)[i]
    {
      assert a[i] == b[i] && a[i] in a;
      AgreeAt(f.bars, g.bars, j, a[i].position);
    }
  }

  /** At one clock, frames with the same closed bars give the same signals. */
  lemma SameBarsSameSignals(f: Frame, g: Frame, c: SignalConfig, num: Numerics, t: int)
    requires c.Valid() && f.Ordered() && g.Ordered() && f.hasVolume == g.hasVolume
    requires ClosedBy(f, t) == ClosedBy(g, t)
    ensures SignalsAt(f, c, num, Some(t)) == SignalsAt(g, c, num, Some(t))
  {
    NeverRepaints(f, g, c, num, t, t);
    NeverRepaints(g, f, c, num, t, t);
  }

  /** The last print of a time, as far as it has closed by t. */
  lemma ClosedPrints(frame: Frame, t: int, time: int)
    requires frame.Ordered()
    ensures Frame(ClosedBy(frame, t), true).Ordered()
    ensures LastPrint(ClosedBy(frame, t), time) == if time <= t then LastPrint(frame.bars, time) else None
  {
    var closed := ClosedBy(frame, t);
    PrintFound(closed, time);
    if time <= t {
      PrefixPrint(frame.bars, |closed|, time);
    }
  }

  lemma {:induction false} PrefixPrint(bars: seq<Bar>, k: nat, time: int)
    requires k <= |bars| && forall j | k <= j < |bars| :: bars[j].time != time
    ensures LastPrint(bars, time) == LastPrint(bars[..k], time)
  {
    if k < |bars| {
      var init := bars[..|bars| - 1];
      PrefixPrint(init, k, time);
      assert init[..k] == bars[..k];
    } else {
      assert bars[..k] == bars;
    }
  }

  /** Non-repainting for frames as they come: it is enough that the last bars given for the
      times up to t1 are the same, in whatever order and however often they were given. */
  lemma NeverRepaintsRaw(f: Frame, g: Frame, c: SignalConfig, num: Numerics, t1: int, t2: int)
    requires c.Valid() && f.hasVolume == g.hasVolume && t1 <= t2
    requires forall t | t <= t1 :: LastPrint(f.bars, t) == LastPrint(g.bars, t)
    ensures SignalsAt(Prepared(f), c, num, Some(t1)) <= SignalsAt(Prepared(g), c, num, Some(t2))
  {
    hide Prepared, SignalsAt, ClosedBy;
    var p, q := Prepared(f), Prepared(g);
    PreparedExactly(f);
    PreparedExactly(g);
    forall t
      ensures LastPrint(ClosedBy(p, t1), t) == LastPrint(ClosedBy(q, t1), t)
    {
      ClosedPrints(p, t1, t);
      ClosedPrints(q, t1, t);
    }
    ClosedPrints(p, t1, t1);
    ClosedPrints(q, t1, t1);
    PrintsDetermine(ClosedBy(p, t1), ClosedBy(q, t1));
    NeverRepaints(p, q, c, num, t1, t2);
  }

  /** Without a clock, confirming closes is the same as a clock at the bar before last:
      the trailing bar may still change freely. */
  lemma NoClockDistrustsLastBar(frame: Frame, c: SignalConfig, num: Numerics)
    requires c.Valid() && frame.Ordered() && c.confirmOnClose && |frame.bars| >= 2
    ensures SignalsAt(frame, c, num, None) == SignalsAt(frame, c, num, Some(frame.bars[|frame.bars| - 2].time))
  {
    hide Kept, ToSignals;
    var n := |frame.bars|;
    var t := frame.bars[n - 2].time;
    assert frame.bars[n - 1].time > t;
    assert LastAtOrBefore(frame.bars, t) == n - 2;
  }

  /** What every emitted list guarantees. */
  lemma SignalsWellFormed(frame: Frame, c: SignalConfig, num: Numerics, now: Option<int>)
    requires c.Valid() && frame.Ordered()
    ensures var kept := Kept(frame, c, num, ClosedCount(frame, c, now));
            var ss := SignalsAt(frame, c, num, now);
            && |ss| == |kept|
            && WellSpaced(c, kept)
            && (c.requireOppositeBeforeRepeat ==> forall i | 0 < i < |ss| :: ss[i].action != ss[i - 1].action)
            && forall i | 0 <= i < |ss| ::
                 && kept[i].position < ClosedCount(frame, c, now)
                 && ss[i].time == frame.bars[kept[i].position].time
                 && ss[i].action == kept[i].action && ss[i].layers == kept[i].scores
                 && ss[i].price == ss[i].entry == frame.bars[kept[i].position].close
                 && c.EffectiveThreshold() <= ss[i].confidence <= 1.0
                 && Bracketed(ss[i].action, ss[i].price, ss[i].levels)
  {
    hide Kept, ScoreBar, FeaturesOf, Bracketed;
    var closed := ClosedCount(frame, c, now);
    var kept := Kept(frame, c, num, closed);
    KeptPositions(frame, c, num, closed);
    forall i | 0 <= i < |kept|
      ensures var o := kept[i];
              && o.position < closed
              && o.price == frame.bars[o.position].close
              && c.EffectiveThreshold() <= o.confidence <= 1.0
              && Bracketed(o.action, o.price, o.levels)
    {
      assert kept[i] in kept;
      ScoreBarSound(FeaturesOf(frame, c, num), c, num, kept[i].position);
    }
  }
}
