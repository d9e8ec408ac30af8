/** Normalising an input frame: sorted by close time, one bar a time, the last print kept. */
module SignalFrames {
  import opened Wrappers
  import opened SignalModels

  /** Puts a bar behind all bars that are not later. */
  function InsertByTime(bars: seq<Bar>, b: Bar): seq<Bar> {
    if bars == [] || bars[|bars| - 1].time <= b.time then bars + [b]
    else InsertByTime(bars[..|bars| - 1], b) + [bars[|bars| - 1]]
  }

  /** Sorted by time; bars of one time stay in the order they came in. */
  function SortByTime(bars: seq<Bar>): seq<Bar> {
    if bars == [] then [] else InsertByTime(SortByTime(bars[..|bars| - 1]), bars[|bars| - 1])
  }

  /** Drops every bar that has a later one of the same time. */
  function DropDuplicates(bars: seq<Bar>): seq<Bar> {
    if bars == [] then []
    else
      var rest := DropDuplicates(bars[1..]);
      if exists j | 0 < j < |bars| :: bars[j].time == bars[0].time then rest else [bars[0]] + rest
  }

  function Prepared(frame: Frame): Frame {
    Frame(DropDuplicates(SortByTime(frame.bars)), frame.hasVolume)
  }

  /** The last bar given for a close time. */
  function LastPrint(bars: seq<Bar>, t: int): Option<Bar> {
    if bars == [] then None
    else if bars[|bars| - 1].time == t then Some(bars[|bars| - 1])
    else LastPrint(bars[..|bars| - 1], t)
  }

  ghost predicate InTimeOrder(bars: seq<Bar>) {
    forall i, j | 0 <= i <= j < |bars| :: bars[i].time <= bars[j].time
  }

  lemma PrintSnoc(bars: seq<Bar>, b: Bar, t: int)
    ensures LastPrint(bars + [b], t) == if b.time == t then Some(b) else LastPrint(bars, t)
  {
    assert (bars + [b])[..|bars|] == bars;
  }

  lemma {:induction false} PrintFound(bars: seq<Bar>, t: int)
    ensures LastPrint(bars, t).Some? ==> LastPrint(bars, t).value.time == t
    ensures LastPrint(bars, t).Some? <==> exists i :: 0 <= i < |bars| && bars[i].time == t
  {
    if bars != [] {
      var init, last := bars[..|bars| - 1], |bars| - 1;
      PrintFound(init, t);
      if LastPrint(init, t).Some? {
        var i :| 0 <= i < |init| && init[i].time == t;
        assert bars[i].time == t;
      }
    }
  }

  lemma {:induction false} PrintCons(b: Bar, bars: seq<Bar>, t: int)
    ensures LastPrint([b] + bars, t) ==
            if LastPrint(bars, t).Some? then LastPrint(bars, t) else if b.time == t then Some(b) else None
  {
    if bars == [] {
      assert [b] + bars == [] + [b];
      PrintSnoc([], b, t);
    } else {
      var init, last := bars[..|bars| - 1], bars[|bars| - 1];
      assert [b] + bars == ([b] + init) + [last];
      PrintSnoc([b] + init, last, t);
      PrintCons(b, init, t);
    }
  }

  // ---- sorting ----

  lemma {:induction false} InsertKeepsOrder(bars: seq<Bar>, b: Bar)
    requires InTimeOrder(bars)
    ensures var r := InsertByTime(bars, b);
            && InTimeOrder(r) && |r| == |bars| + 1
            && (r[|r| - 1] == b || (bars != [] && r[|r| - 1] == bars[|bars| - 1]))
  {
    if bars != [] && bars[|bars| - 1].time > b.time {
      InsertKeepsOrder(bars[..|bars| - 1], b);
    }
  }

  lemma {:induction false} InsertPrints(bars: seq<Bar>, b: Bar, t: int)
    requires InTimeOrder(bars)
    ensures LastPrint(InsertByTime(bars, b), t) == if b.time == t then Some(b) else LastPrint(bars, t)
  {
    if bars == [] || bars[|bars| - 1].time <= b.time {
      PrintSnoc(bars, b, t);
    } else {
      var init, last := bars[..|bars| - 1], bars[|bars| - 1];
      InsertPrints(init, b, t);
      PrintSnoc(InsertByTime(init, b), last, t);
    }
  }

  lemma {:induction false} SortPrints(bars: seq<Bar>, t: int)
    ensures InTimeOrder(SortByTime(bars))
    ensures LastPrint(SortByTime(bars), t) == LastPrint(bars, t)
  {
    if bars != [] {
      var init, b := bars[..|bars| - 1], bars[|bars| - 1];
      SortPrints(init, t);
      InsertKeepsOrder(SortByTime(init), b);
      InsertPrints(SortByTime(init), b, t);
    }
  }

  // ---- dropping duplicates ----

  lemma {:induction false} DropPrints(bars: seq<Bar>, t: int)
    ensures LastPrint(DropDuplicates(bars), t) == LastPrint(bars, t)
  {
    if bars != [] {
      var b, tail := bars[0], bars[1..];
      assert bars == [b] + tail;
      DropPrints(tail, t);
      PrintCons(b, tail, t);
      PrintCons(b, DropDuplicates(tail), t);
      PrintFound(tail, t);
      if j :| 0 < j < |bars| && bars[j].time == b.time {
        assert tail[j - 1].time == b.time;
      }
    }
  }

  lemma {:induction false} DropOrders(bars: seq<Bar>)
    requires InTimeOrder(bars)
    ensures Frame(DropDuplicates(bars), true).Ordered()
    ensures forall i | 0 <= i < |DropDuplicates(bars)| ::
              exists k :: 0 <= k < |bars| && bars[k] == DropDuplicates(bars)[i]
  {
    if bars != [] {
      var tail := bars[1..];
      DropOrders(tail);
      var rest := DropDuplicates(tail);
      forall i | 0 <= i < |rest|
        ensures exists k :: 0 < k < |bars| && bars[k] == rest[i]
      {
        var k :| 0 <= k < |tail| && tail[k] == rest[i];
        assert bars[k + 1] == rest[i];
      }
      assert bars[0] == bars[0];
    }
  }

  /** What preparation promises: close times strictly ascend, and the bar kept for a time is
      the last one given for it. */
  lemma PreparedExactly(frame: Frame)
    ensures Prepared(frame).Ordered() && Prepared(frame).hasVolume == frame.hasVolume
    ensures forall t :: LastPrint(Prepared(frame).bars, t) == LastPrint(frame.bars, t)
    ensures Prepared(frame).bars == [] <==> frame.bars == []
  {
    hide SortByTime, DropDuplicates, LastPrint;
    var sorted := SortByTime(frame.bars);
    SortPrints(frame.bars, 0);
    DropOrders(sorted);
    forall t
      ensures LastPrint(Prepared(frame).bars, t) == LastPrint(frame.bars, t)
    {
      SortPrints(frame.bars, t);
      DropPrints(sorted, t);
    }
    SameEmptiness(Prepared(frame).bars, frame.bars);
  }

  lemma SameEmptiness(xs: seq<Bar>, ys: seq<Bar>)
    requires forall t :: LastPrint(xs, t) == LastPrint(ys, t)
    ensures xs == [] <==> ys == []
  {
    if xs != [] {
      PrintOfLast(xs);
    }
    if ys != [] {
      PrintOfLast(ys);
    }
  }

  lemma PrintOfLast(bars: seq<Bar>)
    requires bars != []
    ensures LastPrint(bars, bars[|bars| - 1].time) == Some(bars[|bars| - 1])
  {
  }

  // ---- strictly ascending bars are fixed by their last prints ----

  lemma PrintWithoutLast(bars: seq<Bar>, t: int)
    requires bars != [] && Frame(bars, true).Ordered()
    ensures LastPrint(bars[..|bars| - 1], t) == if t == bars[|bars| - 1].time then None else LastPrint(bars, t)
  {
    PrintFound(bars[..|bars| - 1], t);
  }

  lemma {:induction false} PrintsDetermine(xs: seq<Bar>, ys: seq<Bar>)
    requires Frame(xs, true).Ordered() && Frame(ys, true).Ordered()
    requires forall t :: LastPrint(xs, t) == LastPrint(ys, t)
    ensures xs == ys
    decreases |xs|
  {
    if xs == [] {
      if ys != [] {
        SameLast(ys, xs);
      }
    } else {
      SameLast(xs, ys);
      var xs', ys' := xs[..|xs| - 1], ys[..|ys| - 1];
      forall t
        ensures LastPrint(xs', t) == LastPrint(ys', t)
      {
        PrintWithoutLast(xs, t);
        PrintWithoutLast(ys, t);
      }
      PrintsDetermine(xs', ys');
      assert xs == xs' + [xs[|xs| - 1]] && ys == ys' + [ys[|ys| - 1]];
    }
  }

  lemma SameLast(xs: seq<Bar>, ys: seq<Bar>)
    requires Frame(xs, true).Ordered() && Frame(ys, true).Ordered() && xs != []
    requires forall t :: LastPrint(xs, t) == LastPrint(ys, t)
    ensures ys != [] && xs[|xs| - 1] == ys[|ys| - 1]
  {
    var x := xs[|xs| - 1];
    assert LastPrint(ys, x.time) == Some(x);
    PrintFound(ys, x.time);
    var y := ys[|ys| - 1];
    assert LastPrint(xs, y.time) == Some(y);
    PrintFound(xs, y.time);
  }

  /** A frame that is in order already is left as it is. */
  lemma PreparedIsStable(frame: Frame)
    requires frame.Ordered()
    ensures Prepared(frame) == frame
  {
    PreparedExactly(frame);
    PrintsDetermine(Prepared(frame).bars, frame.bars);
  }
}
