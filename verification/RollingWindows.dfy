/** Statistics of the last entries of a column: they read no later entry. */
module RollingWindows {
  import opened Reals
  import Vectors
  import opened Wrappers
  import opened Columns

  /** The last `period` entries up to i, when there are so many and all are defined. */
  function Window(xs: Column, period: nat, i: nat): (w: Option<seq<real>>)
    requires period > 0 && i < |xs|
    ensures w.Some? ==> |w.value| == period
  {
    if i + 1 < period || exists j | i + 1 - period <= j <= i :: xs[j] == None then None
    else Some(seq(period, j requires 0 <= j < period => xs[i + 1 - period + j].value))
  }

  function Rolling(f: seq<real> -> real, xs: Column, period: nat): (c: Column)
    requires period > 0
    ensures |c| == |xs|
  {
    seq(|xs|, i requires 0 <= i < |xs| =>
      var w := Window(xs, period, i);
      if w.Some? then Some(f(w.value)) else None)
  }

  function Highest(w: seq<real>): real {
    if |w| <= 1 then (if w == [] then 0.0 else w[0])
    else Max(Highest(w[..|w| - 1]), w[|w| - 1])
  }

  function Lowest(w: seq<real>): real {
    if |w| <= 1 then (if w == [] then 0.0 else w[0])
    else Min(Lowest(w[..|w| - 1]), w[|w| - 1])
  }

  lemma {:induction false} HighestIsGreatest(w: seq<real>) returns (k: nat)
    requires w != []
    ensures k < |w| && w[k] == Highest(w)
    ensures forall i | 0 <= i < |w| :: w[i] <= Highest(w)
  {
    k := |w| - 1;
    if |w| > 1 {
      var j := HighestIsGreatest(w[..k]);
      k := if w[j] >= w[k] then j else k;
    }
  }

  lemma {:induction false} LowestIsLeast(w: seq<real>) returns (k: nat)
    requires w != []
    ensures k < |w| && w[k] == Lowest(w)
    ensures forall i | 0 <= i < |w| :: w[i] >= Lowest(w)
  {
    k := |w| - 1;
    if |w| > 1 {
      var j := LowestIsLeast(w[..k]);
      k := if w[j] <= w[k] then j else k;
    }
  }

  function Sma(xs: Column, period: nat): (c: Column)
    requires period >= 2
    ensures |c| == |xs|
  {
    Rolling(Vectors.Mean, xs, period)
  }

  lemma WindowAgree(xs: Column, ys: Column, period: nat, k: nat, i: nat)
    requires period > 0 && AgreeTo(xs, ys, k) && i < k
    ensures Window(xs, period, i) == Window(ys, period, i)
  {
    forall j | 0 <= j <= i
      ensures xs[j] == ys[j]
    {
      AgreeAt(xs, ys, k, j);
    }
    var u, v := Window(xs, period, i), Window(ys, period, i);
    if u.Some? {
      assert v.Some?;
      assert u.value == v.value;
    } else if i + 1 >= period {
      var j :| i + 1 - period <= j <= i && xs[j] == None;
      assert ys[j] == None;
    }
  }

  lemma RollingAgree(f: seq<real> -> real, xs: Column, ys: Column, period: nat, k: nat)
    requires period > 0 && AgreeTo(xs, ys, k)
    ensures AgreeTo(Rolling(f, xs, period), Rolling(f, ys, period), k)
  {
    forall i | 0 <= i < k
      ensures Rolling(f, xs, period)[i] == Rolling(f, ys, period)[i]
    {
      WindowAgree(xs, ys, period, k, i);
    }
  }

  /** A window of known values is the last `period` of them. */
  lemma WindowExactly(xs: seq<real>, period: nat, i: nat)
    requires period > 0 && i < |xs|
    ensures Window(Known(xs), period, i) == if i + 1 < period then None else Some(xs[i + 1 - period..i + 1])
  {
    var c := Known(xs);
    if i + 1 >= period {
      assert forall j | i + 1 - period <= j <= i :: c[j].Some? && c[j].value == xs[j];
      var w := Window(c, period, i);
      assert w.Some?;
      assert w.value == xs[i + 1 - period..i + 1];
    }
  }

  /** A rolling statistic is that of the last `period` values. */
  lemma RollingExactly(f: seq<real> -> real, xs: seq<real>, period: nat, i: nat)
    requires period > 0 && i < |xs|
    ensures Rolling(f, Known(xs), period)[i] ==
            if i + 1 < period then None else Some(f(xs[i + 1 - period..i + 1]))
  {
    hide Window;
    WindowExactly(xs, period, i);
  }
}
