/** What the indicators read, said of the prices themselves. */
module IndicatorMeaning {
  import opened Reals
  import Vectors
  import opened Wrappers
  import opened Columns
  import opened ExponentialMeans
  import opened RollingWindows
  import opened Indicators

  // ---- RSI ----

  /** By how much the close rose at each bar, or zero. */
  function Rises(close: seq<real>): (c: Column)
    ensures |c| == |close| && DefinedFrom(c, 1) && NonNegativeColumn(c)
  {
    seq(|close|, i requires 0 <= i < |close| =>
      if i == 0 then None else Some(if close[i] > close[i - 1] then close[i] - close[i - 1] else 0.0))
  }

  /** By how much the close fell at each bar, or zero. */
  function Falls(close: seq<real>): (c: Column)
    ensures |c| == |close| && DefinedFrom(c, 1) && NonNegativeColumn(c)
  {
    seq(|close|, i requires 0 <= i < |close| =>
      if i == 0 then None else Some(if close[i] < close[i - 1] then close[i - 1] - close[i] else 0.0))
  }

  lemma GainsAreRises(close: seq<real>)
    ensures Gains(close) == Rises(close) && Losses(close) == Falls(close)
  {
    forall i | 0 < i < |close|
      ensures Gains(close)[i] == Rises(close)[i] && Losses(close)[i] == Falls(close)[i]
    {
      var x := close[i] - close[i - 1];
      assert Diff(close)[i] == Some(x);
      assert Gains(close)[i] == Some(RisePart(x)) && Losses(close)[i] == Some(FallPart(x));
    }
  }

  /** RSI is the share, in percent, of the smoothed rises in the smoothed rises and falls together,
      50 when there are neither. It is above 50 exactly when the rises are the greater. */
  lemma RsiShare(close: seq<real>, period: nat, i: nat)
    requires period >= 2 && i < |close|
    ensures Rsi(close, period)[i].Some? <==> i >= period
    ensures i >= period ==>
              var u, d := Wilder(Rises(close), period)[i], Wilder(Falls(close), period)[i];
              var v := Rsi(close, period)[i].value;
              && u.Some? && d.Some? && u.value >= 0.0 && d.value >= 0.0
              && Mul(v, u.value + d.value) == 100.0 * u.value
              && (u.value + d.value == 0.0 ==> v == 50.0)
              && (v > 50.0 <==> u.value > d.value)
              && (v < 50.0 <==> u.value < d.value)
  {
    hide EwmMean, Rises, Falls, RsiValue;
    GainsAreRises(close);
    EwmShown(Rises(close), Reciprocal(period), period, 1, i);
    EwmShown(Falls(close), Reciprocal(period), period, 1, i);
    if i >= period {
      EwmAtNonNegative(Rises(close), Reciprocal(period), i);
      EwmAtNonNegative(Falls(close), Reciprocal(period), i);
      var u, d := Wilder(Rises(close), period)[i], Wilder(Falls(close), period)[i];
      ShareOfRises(u.value, d.value);
    }
  }

  lemma ShareOfRises(u: real, d: real)
    requires u >= 0.0 && d >= 0.0
    ensures RsiValue(u, d).Some?
    ensures var v := RsiValue(u, d).value;
            && Mul(v, u + d) == 100.0 * u
            && (u + d == 0.0 ==> v == 50.0)
            && (v > 50.0 <==> u > d) && (v < 50.0 <==> u < d)
  {
    PercentWithin(u, d);
    var v := RsiValue(u, d).value;
    if d > 0.0 {
      var r := u / d;
      assert r * d == u;
      var q := 100.0 / (1.0 + r);
      DivideMonotone(0.0, u, d);
      assert q * (1.0 + r) == 100.0;
      assert q * d + q * u == 100.0 * d by {
        assert q * (1.0 + r) * d == 100.0 * d;
        assert q * (1.0 + r) * d == q * d + q * (r * d);
      }
      assert Mul(v, u + d) == 100.0 * u;
    }
    HalfShare(v, u, d);
  }

  lemma HalfShare(v: real, u: real, d: real)
    requires u >= 0.0 && d >= 0.0 && Mul(v, u + d) == 100.0 * u && (u + d == 0.0 ==> v == 50.0)
    ensures (v > 50.0 <==> u > d) && (v < 50.0 <==> u < d)
  {
    var t := u + d;
    if t > 0.0 {
      assert Mul(v - 50.0, t) == 50.0 * (u - d);
      if v > 50.0 {
        MulSigns(v - 50.0, t);
      } else if v < 50.0 {
        MulSigns(50.0 - v, t);
        assert Mul(50.0 - v, t) == -Mul(v - 50.0, t);
      }
    }
  }

  lemma WilderSign(xs: Column, period: nat, i: nat)
    requires period >= 2 && period <= i < |xs| && DefinedFrom(xs, 1) && NonNegativeColumn(xs)
    ensures var m := Wilder(xs, period)[i];
            && m.Some? && m.value >= 0.0
            && (m.value > 0.0 <==> exists j :: 1 <= j <= i && xs[j].value > 0.0)
  {
    hide EwmAt, EwmMean;
    EwmShown(xs, Reciprocal(period), period, 1, i);
    ReciprocalSmall(period);
    EwmSign(xs, Reciprocal(period), 1, i);
  }

  lemma ReciprocalSmall(period: nat)
    requires period >= 2
    ensures Reciprocal(period) < 1.0
  {
  }

  /** Closes that never fell and rose at least once read 100; closes that never rose and fell at
      least once read 0; closes that never moved read 50. */
  lemma RsiExtremes(close: seq<real>, period: nat, i: nat)
    requires period >= 2 && period <= i < |close|
    ensures var v := Rsi(close, period)[i];
            var rose := exists j :: 1 <= j <= i && close[j] > close[j - 1];
            var fell := exists j :: 1 <= j <= i && close[j] < close[j - 1];
            && (v == Some(100.0) <==> rose && !fell)
            && (v == Some(0.0) <==> fell && !rose)
            && (!rose && !fell ==> v == Some(50.0))
  {
    hide Wilder, Rsi;
    RsiShare(close, period, i);
    WilderSign(Rises(close), period, i);
    WilderSign(Falls(close), period, i);
    var u, d := Wilder(Rises(close), period)[i].value, Wilder(Falls(close), period)[i].value;
    RiseSeen(close, i);
    ExtremeShare(Rsi(close, period)[i].value, u, d);
  }

  lemma RiseSeen(close: seq<real>, i: nat)
    requires i < |close|
    ensures (exists j :: 1 <= j <= i && Rises(close)[j].value > 0.0) <==>
            exists j :: 1 <= j <= i && close[j] > close[j - 1]
    ensures (exists j :: 1 <= j <= i && Falls(close)[j].value > 0.0) <==>
            exists j :: 1 <= j <= i && close[j] < close[j - 1]
  {
    if j :| 1 <= j <= i && close[j] > close[j - 1] {
      assert Rises(close)[j].value > 0.0;
    }
    if j :| 1 <= j <= i && close[j] < close[j - 1] {
      assert Falls(close)[j].value > 0.0;
    }
    if j :| 1 <= j <= i && Rises(close)[j].value > 0.0 {
      assert close[j] > close[j - 1];
    }
    if j :| 1 <= j <= i && Falls(close)[j].value > 0.0 {
      assert close[j] < close[j - 1];
    }
  }

  lemma ExtremeShare(v: real, u: real, d: real)
    requires u >= 0.0 && d >= 0.0 && Mul(v, u + d) == 100.0 * u && (u + d == 0.0 ==> v == 50.0)
    ensures v == 100.0 <==> u > 0.0 && d == 0.0
    ensures v == 0.0 <==> u == 0.0 && d > 0.0
    ensures u == 0.0 && d == 0.0 ==> v == 50.0
  {
    var t := u + d;
    if t > 0.0 {
      if u == 0.0 {
        MulCommutes(v, t);
        ZeroFactor(t, v);
      }
      if d == 0.0 {
        MulCommutes(v, t);
        MulCommutes(100.0, t);
        CancelFactor(t, v, 100.0);
      }
      if v == 0.0 {
        ZeroTimes(t);
      }
    }
  }

  function Mirrored(close: seq<real>): (c: seq<real>)
    ensures |c| == |close|
  {
    seq(|close|, i requires 0 <= i < |close| => -close[i])
  }

  /** Turning the prices upside down turns RSI around 50. */
  lemma RsiMirror(close: seq<real>, period: nat, i: nat)
    requires period >= 2 && period <= i < |close|
    ensures var v := Rsi(close, period)[i];
            v.Some? && Rsi(Mirrored(close), period)[i] == Some(100.0 - v.value)
  {
    hide Wilder, Rsi;
    RsiShare(close, period, i);
    RsiShare(Mirrored(close), period, i);
    assert Rises(Mirrored(close)) == Falls(close) && Falls(Mirrored(close)) == Rises(close);
    var u, d := Wilder(Rises(close), period)[i].value, Wilder(Falls(close), period)[i].value;
    ShareOfOthers(Rsi(close, period)[i].value, Rsi(Mirrored(close), period)[i].value, u, d);
  }

  lemma ShareOfOthers(v: real, w: real, u: real, d: real)
    requires Mul(v, u + d) == 100.0 * u && Mul(w, d + u) == 100.0 * d
    requires u + d == 0.0 ==> v == 50.0 && w == 50.0
    ensures w == 100.0 - v
  {
    var t := u + d;
    if t != 0.0 {
      assert Mul(t, v + w) == Mul(t, 100.0);
      CancelFactor(t, v + w, 100.0);
    }
  }

  // ---- true range ----

  /** On a bar with its low below its high, the true range spans the bar and the close before it. */
  lemma TrueRangeSpans(high: seq<real>, low: seq<real>, close: seq<real>, i: nat)
    requires |high| == |low| == |close| && 0 < i < |close| && low[i] <= high[i]
    ensures TrueRange(high, low, close)[i] == Some(Max(high[i], close[i - 1]) - Min(low[i], close[i - 1]))
  {
  }

  // ---- ADX ----

  /** A market whose highs and lows never fall, or never rise, is all trend: every defined ADX
      reads 100. */
  lemma AdxOneWay(high: seq<real>, low: seq<real>, close: seq<real>, period: nat)
    requires |high| == |low| == |close| && period >= 2
    requires (forall j | 0 < j < |high| :: high[j - 1] <= high[j] && low[j - 1] <= low[j]) ||
             (forall j | 0 < j < |high| :: high[j - 1] >= high[j] && low[j - 1] >= low[j])
    ensures Within(Adx(high, low, close, period), 100.0, 100.0)
  {
    hide Wilder, Atr, Zip;
    var atr := Atr(high, low, close, period);
    var p, m := Wilder(PlusMoves(high, low), period), Wilder(MinusMoves(high, low), period);
    WilderNonNegative(PlusMoves(high, low), period);
    WilderNonNegative(MinusMoves(high, low), period);
    AtrWarmup(high, low, close, period);
    if forall j | 0 < j < |high| :: high[j - 1] <= high[j] && low[j - 1] <= low[j] {
      OneSideMoves(high, low);
      WilderOfZero(MinusMoves(high, low), period);
    } else {
      OneSideMoves(high, low);
      WilderOfZero(PlusMoves(high, low), period);
    }
    OneSideIndex(p, m, atr);
    WilderWithin(Zip(DirectionalIndex, Zip(Percent, p, atr), Zip(Percent, m, atr)), period, 100.0);
  }

  lemma OneSideMoves(high: seq<real>, low: seq<real>)
    requires |high| == |low|
    ensures (forall j | 0 < j < |high| :: high[j - 1] <= high[j] && low[j - 1] <= low[j]) ==>
              Within(MinusMoves(high, low), 0.0, 0.0)
    ensures (forall j | 0 < j < |high| :: high[j - 1] >= high[j] && low[j - 1] >= low[j]) ==>
              Within(PlusMoves(high, low), 0.0, 0.0)
  {
  }

  lemma WilderOfZero(xs: Column, period: nat)
    requires period >= 2 && Within(xs, 0.0, 0.0)
    ensures Within(Wilder(xs, period), 0.0, 0.0)
  {
    EwmMeanWithin(xs, Reciprocal(period), period, 0.0, 0.0);
  }

  lemma WilderWithin(xs: Column, period: nat, v: real)
    requires period >= 2 && Within(xs, v, v)
    ensures Within(Wilder(xs, period), v, v)
  {
    EwmMeanWithin(xs, Reciprocal(period), period, v, v);
  }

  lemma OneSideIndex(p: Column, m: Column, atr: Column)
    requires |p| == |m| == |atr| && NonNegativeColumn(p) && NonNegativeColumn(m) && NonNegativeColumn(atr)
    requires Within(p, 0.0, 0.0) || Within(m, 0.0, 0.0)
    ensures Within(Zip(DirectionalIndex, Zip(Percent, p, atr), Zip(Percent, m, atr)), 100.0, 100.0)
  {
    var plus, minus := Zip(Percent, p, atr), Zip(Percent, m, atr);
    forall i | 0 <= i < |p| && plus[i].Some? && minus[i].Some? && DirectionalIndex(plus[i].value, minus[i].value).Some?
      ensures DirectionalIndex(plus[i].value, minus[i].value).value == 100.0
    {
      PercentNonNegative(p[i].value, atr[i].value);
      PercentNonNegative(m[i].value, atr[i].value);
      OneSidePercent(p[i].value, m[i].value, atr[i].value);
      OnlySide(plus[i].value, minus[i].value);
    }
  }

  lemma OneSidePercent(p: real, m: real, atr: real)
    requires atr != 0.0
    ensures p == 0.0 ==> Percent(p, atr) == Some(0.0)
    ensures m == 0.0 ==> Percent(m, atr) == Some(0.0)
  {
  }

  lemma OnlySide(plus: real, minus: real)
    requires plus >= 0.0 && minus >= 0.0 && (plus == 0.0 || minus == 0.0) && plus + minus != 0.0
    ensures DirectionalIndex(plus, minus) == Some(100.0)
  {
    var t := plus + minus;
    assert Abs(plus - minus) == t;
    hide Percent;
    PercentTimes(t, t);
    var v := Percent(t, t).value;
    MulCommutes(v, t);
    MulCommutes(100.0, t);
    CancelFactor(t, v, 100.0);
  }

  /** A bar moves one way at most: up by the rise of its high when that is positive and more than
      the fall of its low, down the other way round. */
  lemma MovesExactly(high: seq<real>, low: seq<real>, i: nat)
    requires |high| == |low| && 0 < i < |high|
    ensures var up, down := high[i] - high[i - 1], low[i - 1] - low[i];
            && PlusMoves(high, low)[i] == Some(if up > down then Max(up, 0.0) else 0.0)
            && MinusMoves(high, low)[i] == Some(if down > up then Max(down, 0.0) else 0.0)
  {
  }

  /** The range cancels: ADX smooths, in percent, the difference of the smoothed moves as a share of
      both together. */
  lemma AdxExactly(high: seq<real>, low: seq<real>, close: seq<real>, period: nat) returns (dx: Column)
    requires |high| == |low| == |close| && period >= 2
    ensures |dx| == |close| && Adx(high, low, close, period) == Wilder(dx, period)
    ensures var plus, minus := Wilder(PlusMoves(high, low), period), Wilder(MinusMoves(high, low), period);
            var atr := Atr(high, low, close, period);
            forall i | 0 <= i < |dx| ::
              && (dx[i].Some? ==> plus[i].Some? && minus[i].Some?)
              && (plus[i].Some? && minus[i].Some? ==>
                    && (dx[i].Some? <==>
                          atr[i].Some? && atr[i].value != 0.0 && plus[i].value + minus[i].value != 0.0)
                    && (dx[i].Some? ==>
                          Mul(dx[i].value, plus[i].value + minus[i].value) ==
                          100.0 * Abs(plus[i].value - minus[i].value)))
  {
    hide Wilder, Atr, Percent, DirectionalIndex, Mul, Abs, PlusMoves, MinusMoves;
    var plus, minus := Wilder(PlusMoves(high, low), period), Wilder(MinusMoves(high, low), period);
    var atr := Atr(high, low, close, period);
    AtrWarmup(high, low, close, period);
    var p, m := Zip(Percent, plus, atr), Zip(Percent, minus, atr);
    dx := Zip(DirectionalIndex, p, m);
    forall i | 0 <= i < |dx| && plus[i].Some? && minus[i].Some? && atr[i].Some?
      ensures var d := dx[i];
              && (d.Some? <==> atr[i].value != 0.0 && plus[i].value + minus[i].value != 0.0)
              && (d.Some? ==> Mul(d.value, plus[i].value + minus[i].value) ==
                              100.0 * Abs(plus[i].value - minus[i].value))
    {
      PercentTimes(plus[i].value, atr[i].value);
      PercentTimes(minus[i].value, atr[i].value);
      assert p[i] == Percent(plus[i].value, atr[i].value) && m[i] == Percent(minus[i].value, atr[i].value);
      if atr[i].value != 0.0 {
        assert dx[i] == DirectionalIndex(p[i].value, m[i].value);
        RangeCancels(plus[i].value, minus[i].value, atr[i].value);
      }
    }
  }

  lemma RangeCancels(p: real, m: real, atr: real)
    requires atr > 0.0
    ensures Percent(p, atr).Some? && Percent(m, atr).Some?
    ensures var d := DirectionalIndex(Percent(p, atr).value, Percent(m, atr).value);
            && (d.Some? <==> p + m != 0.0)
            && (d.Some? ==> Mul(d.value, p + m) == 100.0 * Abs(p - m))
  {
    PercentTimes(p, atr);
    PercentTimes(m, atr);
    hide Percent;
    var x, y := Percent(p, atr).value, Percent(m, atr).value;
    PercentTimes(Abs(x - y), x + y);
    SumAndGap(x, y, p, m, atr);
    if x + y != 0.0 {
      var d := DirectionalIndex(x, y).value;
      Reassociate(d, x + y, atr);
      ScaledShare(d, x, y, p, m, atr);
    }
  }

  lemma SumAndGap(x: real, y: real, p: real, m: real, atr: real)
    requires atr > 0.0 && Mul(x, atr) == 100.0 * p && Mul(y, atr) == 100.0 * m
    ensures Mul(x + y, atr) == 100.0 * (p + m) && Mul(Abs(x - y), atr) == 100.0 * Abs(p - m)
    ensures x + y == 0.0 <==> p + m == 0.0
  {
    assert Mul(x - y, atr) == 100.0 * (p - m);
    if x >= y {
      MulSigns(x - y, atr);
    } else {
      MulSigns(y - x, atr);
      assert Mul(y - x, atr) == -Mul(x - y, atr);
    }
    if p + m == 0.0 {
      MulCommutes(x + y, atr);
      ZeroFactor(atr, x + y);
    } else {
      ZeroTimes(atr);
    }
  }

  lemma ScaledShare(d: real, x: real, y: real, p: real, m: real, atr: real)
    requires atr > 0.0 && Mul(d, x + y) == 100.0 * Abs(x - y)
    requires Mul(Mul(d, x + y), atr) == Mul(d, Mul(x + y, atr))
    requires Mul(x + y, atr) == 100.0 * (p + m) && Mul(Abs(x - y), atr) == 100.0 * Abs(p - m)
    ensures Mul(d, p + m) == 100.0 * Abs(p - m)
  {
    var g := Abs(x - y);
    assert Mul(100.0 * g, atr) == 100.0 * Mul(g, atr);
    assert Mul(d, 100.0 * (p + m)) == 100.0 * Mul(d, p + m);
  }

  lemma DirectionalIndexEven(plus: real, minus: real)
    ensures DirectionalIndex(plus, minus) == DirectionalIndex(minus, plus)
  {
    assert Abs(plus - minus) == Abs(minus - plus);
  }

  /** Strength has no side: upside down, with highs and lows exchanged, the market has the same true
      range and the same ADX. */
  lemma AdxMirror(high: seq<real>, low: seq<real>, close: seq<real>, period: nat)
    requires |high| == |low| == |close| && period >= 2
    ensures TrueRange(Mirrored(low), Mirrored(high), Mirrored(close)) == TrueRange(high, low, close)
    ensures Adx(Mirrored(low), Mirrored(high), Mirrored(close), period) == Adx(high, low, close, period)
  {
    hide Wilder, DirectionalIndex, Percent;
    assert TrueRange(Mirrored(low), Mirrored(high), Mirrored(close)) == TrueRange(high, low, close);
    MirroredMoves(high, low);
    var atr := Atr(high, low, close, period);
    var plus := Zip(Percent, Wilder(PlusMoves(high, low), period), atr);
    var minus := Zip(Percent, Wilder(MinusMoves(high, low), period), atr);
    forall i | 0 <= i < |close|
      ensures Zip(DirectionalIndex, plus, minus)[i] == Zip(DirectionalIndex, minus, plus)[i]
    {
      if plus[i].Some? && minus[i].Some? {
        DirectionalIndexEven(plus[i].value, minus[i].value);
      }
    }
    assert Zip(DirectionalIndex, plus, minus) == Zip(DirectionalIndex, minus, plus);
  }

  lemma MirroredMoves(high: seq<real>, low: seq<real>)
    requires |high| == |low|
    ensures PlusMoves(Mirrored(low), Mirrored(high)) == MinusMoves(high, low)
    ensures MinusMoves(Mirrored(low), Mirrored(high)) == PlusMoves(high, low)
  {
  }

  /** ADX needs twice its period of bars. */
  lemma AdxNeeds(high: seq<real>, low: seq<real>, close: seq<real>, period: nat, i: nat)
    requires |high| == |low| == |close| && period >= 2 && i < |close|
    ensures Adx(high, low, close, period)[i].Some? ==> i + 1 >= 2 * period
  {
    hide Wilder, Percent, DirectionalIndex, Atr, PlusMoves, MinusMoves;
    var atr := Atr(high, low, close, period);
    var plus := Zip(Percent, Wilder(PlusMoves(high, low), period), atr);
    var minus := Zip(Percent, Wilder(MinusMoves(high, low), period), atr);
    AtrWarmup(high, low, close, period);
    WilderNeeds(Zip(DirectionalIndex, plus, minus), period, period, i);
  }

  lemma WilderNeeds(xs: Column, period: nat, f: nat, i: nat)
    requires period >= 2 && i < |xs| && forall j | 0 <= j < |xs| && xs[j].Some? :: j >= f
    ensures Wilder(xs, period)[i].Some? ==> i + 1 >= f + period
  {
    CountNeeds(xs, Reciprocal(period), f, i);
  }

  lemma {:induction false} CountNeeds(xs: Column, alpha: real, f: nat, i: nat)
    requires 0.0 < alpha <= 1.0 && i < |xs| && forall j | 0 <= j < |xs| && xs[j].Some? :: j >= f
    ensures EwmAt(xs, alpha, i).count <= if i < f then 0 else i - f + 1
  {
    if i > 0 {
      CountNeeds(xs, alpha, f, i - 1);
    }
  }

  // ---- MACD ----

  lemma KnownThroughout(xs: seq<real>)
    ensures DefinedFrom(Known(xs), 0)
    ensures forall j | 0 <= j < |xs| :: Known(xs)[j].value == xs[j]
  {
  }

  lemma DifferenceAt(xs: Column, ys: Column, i: nat)
    requires |xs| == |ys| && i < |xs|
    ensures Zip(Difference, xs, ys)[i] ==
            if xs[i].Some? && ys[i].Some? then Some(xs[i].value - ys[i].value) else None
  {
    if xs[i].Some? && ys[i].Some? {
      assert Zip(Difference, xs, ys)[i] == Difference(xs[i].value, ys[i].value);
    }
  }

  /** The line is the fast mean less the slow one, from the bar that fills the slow span. */
  lemma MacdLineAt(close: seq<real>, fast: nat, slow: nat, i: nat)
    requires 2 <= fast < slow && i < |close|
    ensures var c := Known(close);
            var quick, late := EwmAt(c, SpanWeight(fast), i).mean, EwmAt(c, SpanWeight(slow), i).mean;
            && quick.Some? && late.Some?
            && MacdLine(c, fast, slow)[i] == if i + 1 < slow then None else Some(quick.value - late.value)
  {
    hide EwmAt, EwmMean, Known, SpanWeight;
    var c := Known(close);
    KnownThroughout(close);
    EwmRecurrence(c, SpanWeight(fast), 0, i);
    EwmRecurrence(c, SpanWeight(slow), 0, i);
    EwmShown(c, SpanWeight(fast), fast, 0, i);
    EwmShown(c, SpanWeight(slow), slow, 0, i);
    DifferenceAt(Ema(c, fast), Ema(c, slow), i);
  }

  /** While closes do not fall, the MACD line is not negative: its fast mean is the one that lags
      less. */
  lemma MacdRising(close: seq<real>, fast: nat, slow: nat, i: nat)
    requires 2 <= fast < slow && i < |close|
    requires forall j | 0 < j <= i :: close[j - 1] <= close[j]
    ensures var v := MacdLine(Known(close), fast, slow)[i];
            && (v.Some? <==> i + 1 >= slow)
            && (v.Some? ==> v.value >= 0.0)
  {
    hide EwmAt, MacdLine, Known, SpanWeight;
    var c := Known(close);
    KnownThroughout(close);
    MacdLineAt(close, fast, slow, i);
    SpanWeightFalls(fast, slow);
    assert forall j | 0 < j <= i :: c[j - 1].value <= c[j].value;
    EwmLags(c, SpanWeight(slow), SpanWeight(fast), 0, i);
  }

  /** On closes that do not fall the average over the shorter span is never the lower one. */
  lemma EmaOrder(close: seq<real>, fast: nat, slow: nat, i: nat)
    requires 2 <= fast < slow <= i + 1 <= |close|
    requires forall j | 0 < j <= i :: close[j - 1] <= close[j]
    ensures var quick, late := Ema(Known(close), fast)[i], Ema(Known(close), slow)[i];
            quick.Some? && late.Some? && quick.value >= late.value
  {
    hide EwmAt, EwmMean, Known, SpanWeight;
    var c := Known(close);
    KnownThroughout(close);
    EwmShown(c, SpanWeight(fast), fast, 0, i);
    EwmShown(c, SpanWeight(slow), slow, 0, i);
    SpanWeightFalls(fast, slow);
    assert forall j | 0 < j <= i :: c[j - 1].value <= c[j].value;
    EwmLags(c, SpanWeight(slow), SpanWeight(fast), 0, i);
  }

  lemma SpanWeightFalls(fast: nat, slow: nat)
    requires 2 <= fast < slow
    ensures SpanWeight(slow) <= SpanWeight(fast)
  {
    var a, b := fast as real + 1.0, slow as real + 1.0;
    assert 2.0 / a * a == 2.0 && 2.0 / b * b == 2.0;
    if 2.0 / b > 2.0 / a {
      ProductBetween(b, 2.0 / a, 2.0 / a, 2.0 / b);
      ProductBetween(2.0 / a, a, a, b);
      assert 2.0 / b * b > 2.0 / a * b >= 2.0 / a * a;
    }
  }

  ghost predicate NeverFalls(xs: Column, from: nat, to: nat)
    requires to < |xs|
  {
    forall j, k | from <= j < k <= to :: xs[j].Some? && xs[k].Some? && xs[j].value <= xs[k].value
  }

  /** The histogram appears once the signal span is filled too, and is not negative while the line
      has never fallen. */
  lemma MacdHistogramRising(close: seq<real>, fast: nat, slow: nat, signal: nat, i: nat)
    requires 2 <= fast < slow && signal >= 2 && i < |close|
    ensures var v := MacdHistogram(Known(close), fast, slow, signal)[i];
            && (v.Some? <==> i + 2 >= slow + signal)
            && (v.Some? && NeverFalls(MacdLine(Known(close), fast, slow), slow - 1, i) ==> v.value >= 0.0)
  {
    hide EwmAt, EwmMean, MacdLine, SpanWeight, Known;
    var line := MacdLine(Known(close), fast, slow);
    forall j | 0 <= j < |close|
      ensures line[j].Some? <==> j >= slow - 1
    {
      MacdLineAt(close, fast, slow, j);
    }
    EwmShown(line, SpanWeight(signal), signal, slow - 1, i);
    DifferenceAt(line, Ema(line, signal), i);
    if i + 2 >= slow + signal && NeverFalls(line, slow - 1, i) {
      EwmLags(line, SpanWeight(signal), SpanWeight(signal), slow - 1, i);
    }
  }

  // ---- stochastic, Bollinger width ----

  ghost predicate IsGreatestOf(xs: seq<real>, from: nat, to: nat, x: real)
    requires from <= to <= |xs|
  {
    (exists j :: from <= j < to && xs[j] == x) && forall j | from <= j < to :: xs[j] <= x
  }

  ghost predicate IsLeastOf(xs: seq<real>, from: nat, to: nat, x: real)
    requires from <= to <= |xs|
  {
    (exists j :: from <= j < to && xs[j] == x) && forall j | from <= j < to :: x <= xs[j]
  }

  /** %K is the close's place, in percent, between the lowest low and the highest high of the last
      bars; nothing when they are the same. */
  lemma StochasticPlace(high: seq<real>, low: seq<real>, close: seq<real>, period: nat, i: nat, hi: real, lo: real)
    requires |high| == |low| == |close| && period >= 2 && period <= i + 1 <= |close|
    requires IsGreatestOf(high, i + 1 - period, i + 1, hi) && IsLeastOf(low, i + 1 - period, i + 1, lo)
    ensures var k := StochasticK(Known(high), Known(low), Known(close), period)[i];
            && (k.Some? <==> hi != lo)
            && (k.Some? ==> Mul(k.value, hi - lo) == 100.0 * (close[i] - lo))
  {
    hide Highest, Lowest, Rolling, IsGreatestOf, IsLeastOf, Percent;
    RollingExactly(Highest, high, period, i);
    RollingExactly(Lowest, low, period, i);
    HighestIs(high, i + 1 - period, i + 1, hi);
    LowestIs(low, i + 1 - period, i + 1, lo);
    var h, l, c := Rolling(Highest, Known(high), period), Rolling(Lowest, Known(low), period), Known(close);
    DifferenceAt(h, l, i);
    DifferenceAt(c, l, i);
    var place, span := Zip(Difference, c, l), Zip(Difference, h, l);
    assert Zip(Percent, place, span)[i] == Percent(close[i] - lo, hi - lo);
    PercentTimes(close[i] - lo, hi - lo);
  }

  /** %D is the mean of the last %K, once all of them are there. */
  lemma SmoothedPlace(k: Column, period: nat, i: nat, w: seq<real>)
    requires period >= 2 && period <= i + 1 <= |k| && k[i + 1 - period..i + 1] == Known(w)
    ensures var d := StochasticD(k, period)[i];
            d.Some? && Mul(period as real, d.value) == Vectors.Sum(w)
  {
    hide Vectors.Mean, Vectors.Sum;
    assert |w| == period;
    forall j | i + 1 - period <= j <= i
      ensures k[j] == Some(w[j - (i + 1 - period)])
    {
      assert k[j] == k[i + 1 - period..i + 1][j - (i + 1 - period)];
    }
    var v := Window(k, period, i);
    assert v.Some?;
    assert v.value == w;
    Vectors.MeanTimesCount(w);
  }

  lemma PercentTimes(x: real, y: real)
    ensures Percent(x, y).Some? <==> y != 0.0
    ensures Percent(x, y).Some? ==> Mul(Percent(x, y).value, y) == 100.0 * x
  {
  }

  lemma HighestIs(xs: seq<real>, from: nat, to: nat, x: real)
    requires from < to <= |xs| && IsGreatestOf(xs, from, to, x)
    ensures Highest(xs[from..to]) == x
  {
    hide Highest;
    var k := HighestIsGreatest(xs[from..to]);
    var j :| from <= j < to && xs[j] == x;
    assert xs[from..to][j - from] == x;
  }

  lemma LowestIs(xs: seq<real>, from: nat, to: nat, x: real)
    requires from < to <= |xs| && IsLeastOf(xs, from, to, x)
    ensures Lowest(xs[from..to]) == x
  {
    hide Lowest;
    var k := LowestIsLeast(xs[from..to]);
    var j :| from <= j < to && xs[j] == x;
    assert xs[from..to][j - from] == x;
  }

  /** Band width times the mean of the last closes is the distance of the bands: twice the
      deviations times the root of their variance. */
  lemma BandDistance(sqrt: real -> real, deviations: real, close: seq<real>, period: nat, i: nat)
    requires period >= 2 && i < |close|
    ensures var width := BollingerWidth(sqrt, deviations, Known(close), period)[i];
            if i + 1 < period then width == None
            else
              var w := close[i + 1 - period..i + 1];
              && (width.Some? <==> Vectors.Mean(w) != 0.0)
              && (width.Some? ==>
                    Mul(width.value, Vectors.Mean(w)) == 2.0 * Mul(deviations, sqrt(Vectors.Variance(w))))
  {
    hide Vectors.Mean, Vectors.Variance, Window;
    WindowExactly(close, period, i);
    if i + 1 >= period {
      var w := close[i + 1 - period..i + 1];
      if Vectors.Mean(w) != 0.0 {
        WidthTimesMean(deviations * sqrt(Vectors.Variance(w)), Vectors.Mean(w));
      }
    }
  }

  lemma WidthTimesMean(half: real, mean: real)
    requires mean != 0.0
    ensures Mul(((mean + half) - (mean - half)) / mean, mean) == 2.0 * half
  {
  }

  // ---- Supertrend ----

  /** Bands lie a multiple of the range above and below the middle of the bar. */
  lemma BandsAroundMiddle(high: real, low: real, multiplier: real, atr: real)
    ensures UpperBand(high, low, multiplier, atr) + LowerBand(high, low, multiplier, atr) == high + low
    ensures UpperBand(high, low, multiplier, atr) - LowerBand(high, low, multiplier, atr) == 2.0 * Mul(multiplier, atr)
  {
  }

  /** A band that the close before did not break only tightens; a broken one starts anew. */
  lemma BandsTighten(prev: Super, upper: real, lower: real, prevClose: real, close: real)
    ensures var s := SuperStep(prev, upper, lower, prevClose, close);
            && s.upper == (if prevClose <= prev.upper then Min(prev.upper, upper) else upper)
            && s.lower == (if prevClose >= prev.lower then Max(prev.lower, lower) else lower)
  {
  }

  /** The trend turns only when the close leaves the bands: up above the upper one, down below the
      lower one. */
  lemma TrendTurns(prev: Super, upper: real, lower: real, prevClose: real, close: real)
    ensures var s := SuperStep(prev, upper, lower, prevClose, close);
            && (close > s.upper ==> s.trend == 1.0)
            && (s.lower <= s.upper && close < s.lower ==> s.trend == -1.0)
            && (s.lower <= close <= s.upper ==> s.trend == prev.trend)
  {
  }

  /** In an uptrend the line trails below the close, in a downtrend above it, unless the bands have
      crossed. */
  lemma {:induction false} LineTrails(h: seq<real>, l: seq<real>, c: seq<real>, atr: Column, m: real, i: nat)
    requires |h| == |l| == |c| == |atr| && 0 < i < |c| && atr[i - 1].Some? && atr[i].Some?
    requires var s := SuperAt(h, l, c, atr, m, i).value; s.lower <= s.upper
    ensures var s := SuperAt(h, l, c, atr, m, i).value;
            && (s.trend == 1.0 || s.trend == -1.0)
            && (s.trend == 1.0 ==> LineOf(Some(s)) == Some(s.lower) && s.lower <= c[i])
            && (s.trend == -1.0 ==> LineOf(Some(s)) == Some(s.upper) && c[i] <= s.upper)
  {
    hide SuperStep, SuperAt, UpperBand, LowerBand;
    TrendIsOne(h, l, c, atr, m, i - 1);
    SuperContinues(h, l, c, atr, m, i);
    var prev := SuperAt(h, l, c, atr, m, i - 1).value;
    TrendTurns(prev, UpperBand(h[i], l[i], m, atr[i].value), LowerBand(h[i], l[i], m, atr[i].value), c[i - 1], c[i]);
  }

  lemma {:induction false} TrendIsOne(h: seq<real>, l: seq<real>, c: seq<real>, atr: Column, m: real, i: nat)
    requires |h| == |l| == |c| == |atr| && i < |c| && atr[i].Some?
    ensures var s := SuperAt(h, l, c, atr, m, i).value; s.trend == 1.0 || s.trend == -1.0
  {
    if i > 0 && atr[i - 1].Some? {
      TrendIsOne(h, l, c, atr, m, i - 1);
      SuperContinues(h, l, c, atr, m, i);
    }
  }

  /** As long as no close falls below it, the lower band never falls; as long as none rises above
      it, the upper band never rises. */
  lemma {:induction false} BandsRatchet(h: seq<real>, l: seq<real>, c: seq<real>, atr: Column, m: real, a: nat, b: nat)
    requires |h| == |l| == |c| == |atr| && a <= b < |c|
    requires forall j | a <= j <= b :: atr[j].Some?
    ensures (forall j | a <= j < b :: c[j] >= SuperAt(h, l, c, atr, m, j).value.lower) ==>
              SuperAt(h, l, c, atr, m, a).value.lower <= SuperAt(h, l, c, atr, m, b).value.lower
    ensures (forall j | a <= j < b :: c[j] <= SuperAt(h, l, c, atr, m, j).value.upper) ==>
              SuperAt(h, l, c, atr, m, a).value.upper >= SuperAt(h, l, c, atr, m, b).value.upper
    decreases b - a
  {
    hide SuperAt, SuperStep, UpperBand, LowerBand;
    if a < b {
      BandsRatchet(h, l, c, atr, m, a, b - 1);
      SuperContinues(h, l, c, atr, m, b);
      BandsTighten(SuperAt(h, l, c, atr, m, b - 1).value, UpperBand(h[b], l[b], m, atr[b].value),
                   LowerBand(h[b], l[b], m, atr[b].value), c[b - 1], c[b]);
    }
  }
}
