/** Confirmed swing pivots and the levels they leave behind.

    Pivots are found with a window that looks forward; they are only shown from the bar
    that confirms them. The level at a bar is proved to depend on no later bar. */
module SwingLevels {
  import opened Wrappers
  import opened Columns
  import opened RollingWindows

  datatype Side = Highs | Lows

  /** A pivot's price, known from its confirmation bar on. */
  datatype Pivot = Pivot(position: nat, confirm: nat, price: real)

  predicate Beats(side: Side, a: real, b: real) {
    match side
    case Highs => a > b
    case Lows => a < b
  }

  function Extreme(side: Side, w: seq<real>): real {
    match side
    case Highs => Highest(w)
    case Lows => Lowest(w)
  }

  // ---- as the code finds them ----

  /** The extreme of the `lookback` bars before p. */
  function Left(side: Side, xs: seq<real>, lookback: nat, p: nat): Option<real>
    requires p < |xs|
  {
    if p < lookback then None else Some(Extreme(side, xs[p - lookback..p]))
  }

  /** The extreme of the `lookback` bars after p. */
  function Right(side: Side, xs: seq<real>, lookback: nat, p: nat): Option<real>
    requires p < |xs|
  {
    if p + lookback >= |xs| then None else Some(Extreme(side, xs[p + 1..p + lookback + 1]))
  }

  predicate IsPivot(side: Side, xs: seq<real>, lookback: nat, p: nat)
    requires p < |xs|
  {
    var left, right := Left(side, xs, lookback, p), Right(side, xs, lookback, p);
    left.Some? && right.Some? && Beats(side, xs[p], left.value) && Beats(side, xs[p], right.value)
  }

  /** The confirmed pivots among the first k bars, oldest first. */
  function ConfirmedSwings(side: Side, xs: seq<real>, lookback: nat, k: nat): (ps: seq<Pivot>)
    requires k <= |xs|
  {
    if k == 0 then []
    else
      var before := ConfirmedSwings(side, xs, lookback, k - 1);
      if IsPivot(side, xs, lookback, k - 1) && k - 1 + lookback < |xs|
      then before + [Pivot(k - 1, k - 1 + lookback, xs[k - 1])] else before
  }

  /** The last listed pivot already confirmed at bar i. */
  function LastConfirmed(ps: seq<Pivot>, i: nat): Option<Pivot> {
    if ps == [] then None
    else if ps[|ps| - 1].confirm <= i then Some(ps[|ps| - 1])
    else LastConfirmed(ps[..|ps| - 1], i)
  }

  /** The attributes of a pivot that are shown bar by bar. */
  datatype Attribute = Position | Confirm | Price

  function Shown(attribute: Attribute, pivot: Option<Pivot>): Option<real> {
    match pivot
    case None => None
    case Some(p) =>
      match attribute {
        case Position => Some(p.position as real)
        case Confirm => Some(p.confirm as real)
        case Price => Some(p.price)
      }
  }

  /** Write an attribute of each pivot into every bar from its confirmation to the end. */
  method BroadcastPivot(ps: seq<Pivot>, n: nat, attribute: Attribute) returns (levels: Column)
    ensures |levels| == n
    ensures forall i | 0 <= i < n :: levels[i] == Shown(attribute, LastConfirmed(ps, i))
  {
    var values: array<Option<real>> := new Option<real>[n](_ => None);
    for j := 0 to |ps|
      invariant forall i | 0 <= i < n :: values[i] == Shown(attribute, LastConfirmed(ps[..j], i))
    {
      assert ps[..j + 1][..j] == ps[..j];
      var index := ps[j].confirm;
      var value := Shown(attribute, Some(ps[j]));
      if 0 <= index < n {
        forall i | index <= i < n {
          values[i] := value;
        }
      }
    }
    assert ps[..|ps|] == ps;
    levels := values[..];
  }

  // ---- what they mean ----

  /** A swing: strictly beyond every one of the `lookback` bars on each side. */
  predicate IsSwing(side: Side, xs: seq<real>, lookback: nat, p: nat) {
    && lookback <= p
    && p + lookback < |xs|
    && forall j | p - lookback <= j <= p + lookback && j != p :: Beats(side, xs[p], xs[j])
  }

  /** The latest swing among the first k bars that is confirmed by bar i. */
  ghost predicate IsLevelAmong(side: Side, xs: seq<real>, lookback: nat, k: nat, i: nat, pivot: Option<Pivot>) {
    match pivot
    case None => NoSwing(side, xs, lookback, 0, k, i)
    case Some(Pivot(p, confirm, price)) =>
      && p < k && p < |xs|
      && confirm == p + lookback <= i
      && IsSwing(side, xs, lookback, p)
      && price == xs[p]
      && NoSwing(side, xs, lookback, p + 1, k, i)
  }

  /** No bar in [from, to) is a swing confirmed by bar i. */
  predicate NoSwing(side: Side, xs: seq<real>, lookback: nat, from: nat, to: nat, i: nat) {
    forall q: nat | from <= q < to && q + lookback <= i :: !IsSwing(side, xs, lookback, q)
  }

  /** What bar i is shown: the latest swing confirmed by then, if any. */
  ghost predicate IsSwingLevel(side: Side, xs: seq<real>, lookback: nat, i: nat, pivot: Option<Pivot>) {
    IsLevelAmong(side, xs, lookback, |xs|, i, pivot)
  }

  lemma ExtremeBeaten(side: Side, w: seq<real>, x: real)
    requires w != []
    ensures Beats(side, x, Extreme(side, w)) <==> forall j | 0 <= j < |w| :: Beats(side, x, w[j])
  {
    var high := HighestIsGreatest(w);
    var low := LowestIsLeast(w);
  }

  /** The rolling windows find exactly the swings. */
  lemma PivotsAreSwings(side: Side, xs: seq<real>, lookback: nat, p: nat)
    requires p < |xs| && lookback >= 2
    ensures IsPivot(side, xs, lookback, p) <==> IsSwing(side, xs, lookback, p)
  {
    hide Extreme, Beats;
    if lookback <= p && p + lookback < |xs| {
      var before, after := xs[p - lookback..p], xs[p + 1..p + lookback + 1];
      ExtremeBeaten(side, before, xs[p]);
      ExtremeBeaten(side, after, xs[p]);
      assert forall j | 0 <= j < lookback :: before[j] == xs[p - lookback + j] && after[j] == xs[p + 1 + j];
      if IsPivot(side, xs, lookback, p) {
        forall j | p - lookback <= j <= p + lookback && j != p
          ensures Beats(side, xs[p], xs[j])
        {
          if j < p {
            assert before[j - (p - lookback)] == xs[j];
          } else {
            assert after[j - (p + 1)] == xs[j];
          }
        }
      }
    }
  }

  lemma LevelSkips(side: Side, xs: seq<real>, lookback: nat, k: nat, i: nat, pivot: Option<Pivot>)
    requires IsLevelAmong(side, xs, lookback, k, i, pivot)
    requires !(IsSwing(side, xs, lookback, k) && k + lookback <= i)
    ensures IsLevelAmong(side, xs, lookback, k + 1, i, pivot)
  {
  }

  /** What is broadcast at bar i is the level at bar i, among the first k bars' pivots. */
  lemma {:induction false} LastConfirmedMeaning(side: Side, xs: seq<real>, lookback: nat, k: nat, i: nat)
    requires k <= |xs| && lookback >= 2 && i < |xs|
    ensures IsLevelAmong(side, xs, lookback, k, i, LastConfirmed(ConfirmedSwings(side, xs, lookback, k), i))
  {
    hide IsSwing, IsPivot;
    if k > 0 {
      var p := k - 1;
      var ps := ConfirmedSwings(side, xs, lookback, p);
      LastConfirmedMeaning(side, xs, lookback, p, i);
      PivotsAreSwings(side, xs, lookback, p);
      if IsSwing(side, xs, lookback, p) && p + lookback <= i {
        assert NoSwing(side, xs, lookback, p + 1, k, i);
        assert LastConfirmed(ConfirmedSwings(side, xs, lookback, k), i) == Some(Pivot(p, p + lookback, xs[p]));
      } else {
        LevelSkips(side, xs, lookback, p, i, LastConfirmed(ps, i));
        UnconfirmedSkipped(side, xs, lookback, k, i);
      }
    }
  }

  lemma UnconfirmedSkipped(side: Side, xs: seq<real>, lookback: nat, k: nat, i: nat)
    requires 0 < k <= |xs| && lookback >= 2
    requires !(IsSwing(side, xs, lookback, k - 1) && k - 1 + lookback <= i)
    ensures LastConfirmed(ConfirmedSwings(side, xs, lookback, k), i) ==
            LastConfirmed(ConfirmedSwings(side, xs, lookback, k - 1), i)
  {
    hide IsSwing, IsPivot;
    PivotsAreSwings(side, xs, lookback, k - 1);
    var ps, qs := ConfirmedSwings(side, xs, lookback, k - 1), ConfirmedSwings(side, xs, lookback, k);
    if qs != ps {
      assert qs[..|qs| - 1] == ps;
    }
  }

  /** The pivot bar i is shown. */
  function PivotAt(side: Side, xs: seq<real>, lookback: nat, i: nat): Option<Pivot>
    requires i < |xs|
  {
    LastConfirmed(ConfirmedSwings(side, xs, lookback, |xs|), i)
  }

  function Level(side: Side, xs: seq<real>, lookback: nat, i: nat): Option<real>
    requires i < |xs|
  {
    Shown(Price, PivotAt(side, xs, lookback, i))
  }

  /** The pivot shown is exact. */
  lemma LevelExact(side: Side, xs: seq<real>, lookback: nat, i: nat)
    requires i < |xs| && lookback >= 2
    ensures IsSwingLevel(side, xs, lookback, i, PivotAt(side, xs, lookback, i))
  {
    LastConfirmedMeaning(side, xs, lookback, |xs|, i);
  }

  lemma LevelUnique(side: Side, xs: seq<real>, lookback: nat, i: nat, a: Option<Pivot>, b: Option<Pivot>)
    requires IsSwingLevel(side, xs, lookback, i, a) && IsSwingLevel(side, xs, lookback, i, b)
    ensures a == b
  {
  }

  lemma SwingAgree(side: Side, xs: seq<real>, ys: seq<real>, lookback: nat, k: nat, p: nat)
    requires AgreeTo(xs, ys, k) && p + lookback < k
    ensures IsSwing(side, xs, lookback, p) <==> IsSwing(side, ys, lookback, p)
  {
    forall j | 0 <= j <= p + lookback
      ensures xs[j] == ys[j]
    {
      AgreeAt(xs, ys, k, j);
    }
  }

  /** Non-repainting: the pivot shown at bar i is the same in any two series that agree up to
      and including bar i, although pivots are found looking forward. */
  lemma LevelAgree(side: Side, xs: seq<real>, ys: seq<real>, lookback: nat, k: nat, i: nat)
    requires AgreeTo(xs, ys, k) && i < k && lookback >= 2
    ensures PivotAt(side, xs, lookback, i) == PivotAt(side, ys, lookback, i)
  {
    var pivot := PivotAt(side, xs, lookback, i);
    LevelExact(side, xs, lookback, i);
    LevelExact(side, ys, lookback, i);
    LevelTransfers(side, xs, ys, lookback, k, i, pivot);
    LevelUnique(side, ys, lookback, i, pivot, PivotAt(side, ys, lookback, i));
  }

  lemma LevelTransfers(side: Side, xs: seq<real>, ys: seq<real>, lookback: nat, k: nat, i: nat, pivot: Option<Pivot>)
    requires AgreeTo(xs, ys, k) && i < k && IsSwingLevel(side, xs, lookback, i, pivot)
    ensures IsSwingLevel(side, ys, lookback, i, pivot)
  {
    hide IsSwing;
    forall p: nat | p + lookback <= i
      ensures IsSwing(side, xs, lookback, p) <==> IsSwing(side, ys, lookback, p)
    {
      SwingAgree(side, xs, ys, lookback, k, p);
    }
    if pivot.Some? {
      var p := pivot.value.position;
      AgreeAt(xs, ys, k, p);
      assert NoSwing(side, ys, lookback, p + 1, |ys|, i);
    }
  }

  /** The value is the attribute of what bar i is shown. */
  ghost predicate IsShown(side: Side, xs: seq<real>, lookback: nat, i: nat, attribute: Attribute, value: Option<real>) {
    exists pivot :: IsSwingLevel(side, xs, lookback, i, pivot) && value == Shown(attribute, pivot)
  }

  /** A column of one attribute of the pivots the rolling windows find. */
  method SwingColumn(side: Side, xs: seq<real>, lookback: nat, attribute: Attribute) returns (levels: Column)
    requires lookback >= 2
    ensures |levels| == |xs|
    ensures forall i | 0 <= i < |xs| :: IsShown(side, xs, lookback, i, attribute, levels[i])
    ensures attribute == Price ==> forall i | 0 <= i < |xs| :: levels[i] == Level(side, xs, lookback, i)
  {
    var ps := ConfirmedSwings(side, xs, lookback, |xs|);
    levels := BroadcastPivot(ps, |xs|, attribute);
    forall i | 0 <= i < |xs|
      ensures IsShown(side, xs, lookback, i, attribute, levels[i])
    {
      LevelExact(side, xs, lookback, i);
      assert levels[i] == Shown(attribute, PivotAt(side, xs, lookback, i));
    }
  }
}
