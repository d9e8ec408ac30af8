/** Support and resistance: swing pivots merged into levels, and the choice of the two
    that bracket the close. */
module KeyLevels {
  import opened Wrappers
  import opened Reals
  import opened Vectors
  import opened SwingLevels

  datatype Bar = Bar(high: real, low: real, close: real)

  datatype Cluster = Cluster(level: real, touches: nat)

  datatype Levels = Levels(support: real, resistance: real)

  const SWING_HALF: nat := 2

  const PIVOT_MERGE_ATR := 0.4

  function HighsOf(bars: seq<Bar>): (xs: seq<real>)
    ensures |xs| == |bars|
  {
    seq(|bars|, i requires 0 <= i < |bars| => bars[i].high)
  }

  function LowsOf(bars: seq<Bar>): (xs: seq<real>)
    ensures |xs| == |bars|
  {
    seq(|bars|, i requires 0 <= i < |bars| => bars[i].low)
  }

  // ---- pivots ----

  /** The prices of the swings among the first k bars, oldest first. */
  function SwingPrices(side: Side, xs: seq<real>, half: nat, k: nat): seq<real>
    requires k <= |xs|
  {
    if k == 0 then []
    else SwingPrices(side, xs, half, k - 1) + if IsSwing(side, xs, half, k - 1) then [xs[k - 1]] else []
  }

  /** Collects fractal highs and lows in one walk over the bars. */
  method SwingPivots(bars: seq<Bar>, half: nat) returns (highs: seq<real>, lows: seq<real>)
    ensures highs == SwingPrices(Highs, HighsOf(bars), half, |bars|)
    ensures lows == SwingPrices(Lows, LowsOf(bars), half, |bars|)
  {
    hide IsSwing, Collected;
    highs, lows := [], [];
    NoEarlySwings(Highs, HighsOf(bars), half);
    NoEarlySwings(Lows, LowsOf(bars), half);
    var index := half;
    while index < |bars| - half
      invariant half <= index && (index == half || index <= |bars| - half)
      invariant Collected(Highs, HighsOf(bars), half, index, highs)
      invariant Collected(Lows, LowsOf(bars), half, index, lows)
      decreases |bars| - half - index
    {
      NextBar(Highs, HighsOf(bars), half, index, highs);
      NextBar(Lows, LowsOf(bars), half, index, lows);
      if IsSwing(Highs, HighsOf(bars), half, index) {
        highs := highs + [bars[index].high];
      }
      if IsSwing(Lows, LowsOf(bars), half, index) {
        lows := lows + [bars[index].low];
      }
      index := index + 1;
    }
    NoLateSwings(Highs, HighsOf(bars), half, index, highs);
    NoLateSwings(Lows, LowsOf(bars), half, index, lows);
  }

  /** The prices are those of the swings among the first k bars; there may be fewer bars. */
  ghost predicate Collected(side: Side, xs: seq<real>, half: nat, k: nat, prices: seq<real>) {
    prices == if k <= |xs| then SwingPrices(side, xs, half, k) else []
  }

  /** The first `half` bars hold no swing. */
  lemma {:induction false} NoEarlySwings(side: Side, xs: seq<real>, half: nat)
    ensures Collected(side, xs, half, half, [])
  {
    if half <= |xs| {
      for k := 0 to half
        invariant SwingPrices(side, xs, half, k) == []
      {
      }
    }
  }

  lemma NextBar(side: Side, xs: seq<real>, half: nat, k: nat, prices: seq<real>)
    requires k < |xs| && Collected(side, xs, half, k, prices)
    ensures Collected(side, xs, half, k + 1, if IsSwing(side, xs, half, k) then prices + [xs[k]] else prices)
  {
    hide IsSwing;
  }

  /** Nor do the last `half` bars. */
  lemma NoLateSwings(side: Side, xs: seq<real>, half: nat, k: nat, prices: seq<real>)
    requires k + half >= |xs| && (k <= |xs| || k == half) && Collected(side, xs, half, k, prices)
    ensures prices == SwingPrices(side, xs, half, |xs|)
  {
    for m := if k <= |xs| then k else 0 to |xs|
      invariant SwingPrices(side, xs, half, m) == prices
    {
    }
  }

  // ---- sorting ----

  ghost predicate Ordered(xs: seq<real>) {
    forall i, j | 0 <= i <= j < |xs| :: xs[i] <= xs[j]
  }

  function InsertSorted(x: real, xs: seq<real>): seq<real> {
    if xs == [] || x <= xs[0] then [x] + xs else [xs[0]] + InsertSorted(x, xs[1..])
  }

  function Sort(xs: seq<real>): seq<real> {
    if xs == [] then [] else InsertSorted(xs[0], Sort(xs[1..]))
  }

  lemma OrderedCons(x: real, xs: seq<real>)
    requires Ordered(xs) && (xs == [] || x <= xs[0])
    ensures Ordered([x] + xs)
  {
  }

  lemma OrderedTail(xs: seq<real>)
    requires Ordered(xs) && xs != []
    ensures Ordered(xs[1..]) && (|xs| > 1 ==> xs[0] <= xs[1..][0])
  {
  }

  lemma {:induction false} InsertKeeps(x: real, xs: seq<real>)
    requires Ordered(xs)
    ensures var r := InsertSorted(x, xs);
            && Ordered(r) && |r| == |xs| + 1 && multiset(r) == multiset(xs) + multiset{x}
            && (r[0] == x || (xs != [] && r[0] == xs[0]))
  {
    hide Ordered;
    if xs == [] || x <= xs[0] {
      OrderedCons(x, xs);
    } else {
      var rest := xs[1..];
      assert xs == [xs[0]] + rest;
      OrderedTail(xs);
      InsertKeeps(x, rest);
      OrderedCons(xs[0], InsertSorted(x, rest));
    }
  }

  lemma {:induction false} SortSorts(xs: seq<real>)
    ensures Ordered(Sort(xs)) && |Sort(xs)| == |xs| && multiset(Sort(xs)) == multiset(xs)
  {
    if xs == [] {
      assert Ordered(Sort(xs));
    } else {
      hide Ordered, InsertSorted;
      SortSorts(xs[1..]);
      InsertKeeps(xs[0], Sort(xs[1..]));
      assert xs == [xs[0]] + xs[1..];
    }
  }

  // ---- clusters ----

  /** The runs of a sorted list whose neighbouring gaps are within the tolerance. */
  function Groups(xs: seq<real>, tolerance: real): (gs: seq<seq<real>>)
    ensures xs == [] <==> gs == []
    ensures gs != [] ==> gs[|gs| - 1] != []
  {
    if xs == [] then []
    else
      var before := Groups(xs[..|xs| - 1], tolerance);
      var x := xs[|xs| - 1];
      if |xs| > 1 && x - xs[|xs| - 2] <= tolerance
      then before[..|before| - 1] + [before[|before| - 1] + [x]]
      else before + [[x]]
  }

  function Summary(group: seq<real>): Cluster
    requires group != []
  {
    Cluster(Sum(group) / |group| as real, |group|)
  }

  function Summaries(gs: seq<seq<real>>): (cs: seq<Cluster>)
    requires forall i | 0 <= i < |gs| :: gs[i] != []
    ensures |cs| == |gs|
    ensures forall i | 0 <= i < |gs| :: cs[i] == Summary(gs[i])
  {
    seq(|gs|, i requires 0 <= i < |gs| => Summary(gs[i]))
  }

  function Flatten(gs: seq<seq<real>>): seq<real> {
    if gs == [] then [] else Flatten(gs[..|gs| - 1]) + gs[|gs| - 1]
  }

  /** Consecutive elements differ by at most the tolerance. */
  ghost predicate Chained(group: seq<real>, tolerance: real) {
    forall k | 0 <= k < |group| - 1 :: group[k + 1] - group[k] <= tolerance
  }

  /** The next group begins more than the tolerance above the end of this one. */
  ghost predicate Apart(a: seq<real>, b: seq<real>, tolerance: real) {
    a != [] && b != [] && b[0] - a[|a| - 1] > tolerance
  }

  ghost predicate AllChained(gs: seq<seq<real>>, tolerance: real) {
    forall i | 0 <= i < |gs| :: gs[i] != [] && Chained(gs[i], tolerance)
  }

  ghost predicate AllApart(gs: seq<seq<real>>, tolerance: real) {
    forall i | 0 <= i < |gs| - 1 :: Apart(gs[i], gs[i + 1], tolerance)
  }

  /** A division of a list into non-empty chained groups with wider gaps between them. */
  ghost predicate IsClustering(xs: seq<real>, tolerance: real, gs: seq<seq<real>>) {
    Flatten(gs) == xs && AllChained(gs, tolerance) && AllApart(gs, tolerance)
  }

  lemma FlattenSnoc(gs: seq<seq<real>>, g: seq<real>)
    ensures Flatten(gs + [g]) == Flatten(gs) + g
  {
    assert (gs + [g])[..|gs|] == gs;
  }

  lemma ChainedSnoc(group: seq<real>, x: real, tolerance: real)
    requires group != []
    ensures Chained(group + [x], tolerance) <==> Chained(group, tolerance) && x - group[|group| - 1] <= tolerance
  {
    var longer := group + [x];
    if Chained(longer, tolerance) {
      var k := |group| - 1;
      assert longer[k + 1] - longer[k] <= tolerance;
      assert forall k | 0 <= k < |group| - 1 :: group[k + 1] - group[k] == longer[k + 1] - longer[k];
    }
  }

  lemma AllChainedSnoc(gs: seq<seq<real>>, g: seq<real>, tolerance: real)
    ensures AllChained(gs + [g], tolerance) <==> AllChained(gs, tolerance) && g != [] && Chained(g, tolerance)
  {
    hide Chained;
    var longer := gs + [g];
    assert forall i | 0 <= i < |gs| :: longer[i] == gs[i];
    assert longer[|gs|] == g;
  }

  lemma AllApartSnoc(gs: seq<seq<real>>, g: seq<real>, tolerance: real)
    ensures AllApart(gs + [g], tolerance) <==>
            AllApart(gs, tolerance) && (gs != [] ==> Apart(gs[|gs| - 1], g, tolerance))
  {
    hide Apart;
    var longer := gs + [g];
    assert forall i | 0 <= i < |gs| :: longer[i] == gs[i];
    if AllApart(longer, tolerance) {
      assert forall i | 0 <= i < |gs| - 1 :: Apart(longer[i], longer[i + 1], tolerance);
      if gs != [] {
        assert Apart(longer[|gs| - 1], longer[|gs| - 1 + 1], tolerance);
      }
    }
  }

  lemma CancelSuffix(a: seq<real>, b: seq<real>, g: seq<real>)
    ensures a + g == b + g <==> a == b
  {
    if a + g == b + g {
      assert |a| == |b|;
      assert a == (a + g)[..|a|] && b == (b + g)[..|b|];
    }
  }

  lemma ClusteringSnoc(xs: seq<real>, tolerance: real, gs: seq<seq<real>>, g: seq<real>)
    ensures IsClustering(xs + g, tolerance, gs + [g]) <==>
            && IsClustering(xs, tolerance, gs) && g != [] && Chained(g, tolerance)
            && (gs != [] ==> Apart(gs[|gs| - 1], g, tolerance))
  {
    hide Chained, Apart, AllChained, AllApart, Flatten;
    FlattenSnoc(gs, g);
    CancelSuffix(Flatten(gs), xs, g);
    AllChainedSnoc(gs, g, tolerance);
    AllApartSnoc(gs, g, tolerance);
  }

  /** The last group of a clustering taken off. */
  lemma ClusteringFront(xs: seq<real>, tolerance: real, gs: seq<seq<real>>)
    requires IsClustering(xs, tolerance, gs) && gs != []
    ensures var m := |gs| - 1; var last := gs[m];
            && last != [] && |last| <= |xs|
            && xs == xs[..|xs| - |last|] + last && gs == gs[..m] + [last]
            && IsClustering(xs[..|xs| - |last|], tolerance, gs[..m]) && Chained(last, tolerance)
            && (m > 0 ==> Apart(gs[m - 1], last, tolerance))
  {
    hide Chained, Apart;
    var m := |gs| - 1;
    var last, front := gs[m], Flatten(gs[..m]);
    assert xs == front + last;
    assert front == xs[..|xs| - |last|];
    ClusteringSnoc(front, tolerance, gs[..m], last);
    assert gs == gs[..m] + [last];
    assert m > 0 ==> gs[..m][m - 1] == gs[m - 1];
  }

  lemma ClusteringEnd(xs: seq<real>, tolerance: real, gs: seq<seq<real>>)
    requires IsClustering(xs, tolerance, gs)
    ensures xs == [] <==> gs == []
    ensures gs != [] ==> gs[|gs| - 1] != [] && gs[|gs| - 1][|gs[|gs| - 1]| - 1] == xs[|xs| - 1]
  {
    if gs != [] {
      hide IsClustering;
      ClusteringFront(xs, tolerance, gs);
    }
  }

  lemma NewGroup(xs: seq<real>, x: real, tolerance: real, gs: seq<seq<real>>)
    requires IsClustering(xs, tolerance, gs) && (xs != [] ==> x - xs[|xs| - 1] > tolerance)
    ensures IsClustering(xs + [x], tolerance, gs + [[x]])
  {
    hide IsClustering;
    ClusteringEnd(xs, tolerance, gs);
    ClusteringSnoc(xs, tolerance, gs, [x]);
  }

  lemma LongerGroup(xs: seq<real>, x: real, tolerance: real, gs: seq<seq<real>>)
    requires IsClustering(xs, tolerance, gs) && gs != []
    requires xs != [] && x - xs[|xs| - 1] <= tolerance
    ensures IsClustering(xs + [x], tolerance, gs[..|gs| - 1] + [gs[|gs| - 1] + [x]])
  {
    hide IsClustering, Chained;
    var m := |gs| - 1;
    var last := gs[m];
    ClusteringFront(xs, tolerance, gs);
    ClusteringEnd(xs, tolerance, gs);
    ChainedSnoc(last, x, tolerance);
    var front := xs[..|xs| - |last|];
    ClusteringSnoc(front, tolerance, gs[..m], last + [x]);
    assert front + (last + [x]) == xs + [x];
  }

  lemma {:induction false} GroupsCluster(xs: seq<real>, tolerance: real)
    ensures IsClustering(xs, tolerance, Groups(xs, tolerance))
  {
    hide IsClustering, Flatten;
    if xs == [] {
      NothingClusters(tolerance);
    } else {
      var init, x := xs[..|xs| - 1], xs[|xs| - 1];
      GroupsCluster(init, tolerance);
      assert xs == init + [x];
      if |xs| > 1 && x - init[|init| - 1] <= tolerance {
        LongerGroup(init, x, tolerance, Groups(init, tolerance));
      } else {
        NewGroup(init, x, tolerance, Groups(init, tolerance));
      }
    }
  }

  lemma NothingClusters(tolerance: real)
    ensures IsClustering([], tolerance, [])
  {
  }

  /** The groups without the last element of the last of them. */
  function Fewer(gs: seq<seq<real>>): seq<seq<real>>
    requires gs != [] && gs[|gs| - 1] != []
  {
    var m := |gs| - 1;
    var last := gs[m];
    if |last| == 1 then gs[..m] else gs[..m] + [last[..|last| - 1]]
  }

  /** Without its last element, a clustering is one of the list without its last element. */
  lemma WithoutLast(xs: seq<real>, tolerance: real, gs: seq<seq<real>>)
    requires IsClustering(xs, tolerance, gs) && gs != []
    ensures xs != [] && gs[|gs| - 1] != [] && gs[|gs| - 1][|gs[|gs| - 1]| - 1] == xs[|xs| - 1]
    ensures var init := xs[..|xs| - 1];
            && IsClustering(init, tolerance, Fewer(gs))
            && (|gs[|gs| - 1]| > 1 <==> init != [] && xs[|xs| - 1] - init[|init| - 1] <= tolerance)
  {
    hide IsClustering, Chained, Apart;
    var m := |gs| - 1;
    var last := gs[m];
    ClusteringFront(xs, tolerance, gs);
    var front := xs[..|xs| - |last|];
    if |last| == 1 {
      assert xs[..|xs| - 1] == front;
      ClusteringEnd(front, tolerance, gs[..m]);
      if m > 0 {
        ApartMeans(gs[m - 1], gs[m], tolerance);
      }
    } else {
      var shorter, x := last[..|last| - 1], last[|last| - 1];
      assert last == shorter + [x];
      ChainedSnoc(shorter, x, tolerance);
      if m > 0 {
        ApartPrefix(gs[m - 1], shorter, x, tolerance);
      }
      ClusteringSnoc(front, tolerance, gs[..m], shorter);
      assert xs[..|xs| - 1] == front + shorter;
    }
  }

  lemma ApartPrefix(a: seq<real>, b: seq<real>, x: real, tolerance: real)
    requires b != []
    ensures Apart(a, b + [x], tolerance) <==> Apart(a, b, tolerance)
  {
  }

  lemma ApartMeans(a: seq<real>, b: seq<real>, tolerance: real)
    requires Apart(a, b, tolerance)
    ensures a != [] && b != [] && b[0] - a[|a| - 1] > tolerance
  {
  }

  /** There is no other such division. */
  lemma {:induction false} ClusteringUnique(xs: seq<real>, tolerance: real, gs: seq<seq<real>>)
    requires IsClustering(xs, tolerance, gs)
    ensures gs == Groups(xs, tolerance)
    decreases |xs|
  {
    hide IsClustering, Groups, Fewer;
    ClusteringEnd(xs, tolerance, gs);
    if gs != [] {
      WithoutLast(xs, tolerance, gs);
      var init, x := xs[..|xs| - 1], xs[|xs| - 1];
      assert xs == init + [x];
      ClusteringUnique(init, tolerance, Fewer(gs));
      Regrown(gs, x);
      GroupsSnoc(init, x, tolerance);
    }
  }

  /** Groups, with their last element taken off and put back. */
  lemma Regrown(gs: seq<seq<real>>, x: real)
    requires gs != [] && gs[|gs| - 1] != [] && gs[|gs| - 1][|gs[|gs| - 1]| - 1] == x
    ensures var before := Fewer(gs);
            if |gs[|gs| - 1]| == 1 then gs == before + [[x]]
            else before != [] && gs == before[..|before| - 1] + [before[|before| - 1] + [x]]
  {
    var m := |gs| - 1;
    var last := gs[m];
    assert last == last[..|last| - 1] + [x];
    assert gs == gs[..m] + [last];
  }

  lemma GroupsSnoc(xs: seq<real>, x: real, tolerance: real)
    ensures var before := Groups(xs, tolerance);
            Groups(xs + [x], tolerance) ==
            if xs != [] && x - xs[|xs| - 1] <= tolerance
            then before[..|before| - 1] + [before[|before| - 1] + [x]]
            else before + [[x]]
  {
    assert (xs + [x])[..|xs|] == xs;
  }

  /** Walks the sorted levels, closing a group at every gap wider than the tolerance. */
  method ClusterLevels(levels: seq<real>, tolerance: real) returns (clusters: seq<Cluster>)
    ensures clusters == ClustersOf(levels, tolerance)
  {
    hide ClustersOf, Groups, GroupsSoFar, Sort, Summary;
    SortSorts(levels);
    clusters := [];
    if levels == [] {
      NoLevels(tolerance);
    } else {
      var ordered := Sort(levels);
      var bucket := [ordered[0]];
      FirstGroup(ordered, tolerance);
      for i := 1 to |ordered|
        invariant GroupsSoFar(ordered[..i], tolerance, clusters, bucket)
      {
        LastOfBucket(ordered[..i], tolerance, clusters, bucket);
        NextGroup(ordered[..i], ordered[i], tolerance, clusters, bucket);
        assert ordered[..i + 1] == ordered[..i] + [ordered[i]];
        if ordered[i] - bucket[|bucket| - 1] <= tolerance {
          bucket := bucket + [ordered[i]];
        } else {
          clusters := clusters + [Summary(bucket)];
          bucket := [ordered[i]];
        }
      }
      assert ordered[..|ordered|] == ordered;
      LastOfBucket(ordered, tolerance, clusters, bucket);
      AllGroups(levels, tolerance, clusters, bucket);
      clusters := clusters + [Summary(bucket)];
    }
  }

  lemma NoLevels(tolerance: real)
    ensures ClustersOf([], tolerance) == []
  {
  }

  lemma FirstGroup(ordered: seq<real>, tolerance: real)
    requires ordered != []
    ensures GroupsSoFar(ordered[..1], tolerance, [], [ordered[0]])
  {
    assert ordered[..1][..0] == [];
    assert Groups(ordered[..1], tolerance) == [[ordered[0]]];
  }

  lemma AllGroups(levels: seq<real>, tolerance: real, clusters: seq<Cluster>, bucket: seq<real>)
    requires GroupsSoFar(Sort(levels), tolerance, clusters, bucket) && bucket != []
    ensures ClustersOf(levels, tolerance) == clusters + [Summary(bucket)]
  {
    hide Groups, Summary, Sort;
    GroupsNonEmpty(Sort(levels), tolerance);
  }

  ghost predicate GroupsSoFar(xs: seq<real>, tolerance: real, clusters: seq<Cluster>, bucket: seq<real>) {
    var gs := Groups(xs, tolerance);
    && xs != []
    && (forall i | 0 <= i < |gs| :: gs[i] != [])
    && |clusters| == |gs| - 1
    && clusters == Summaries(gs[..|gs| - 1])
    && bucket == gs[|gs| - 1]
  }

  lemma GroupsNonEmpty(xs: seq<real>, tolerance: real)
    ensures forall i | 0 <= i < |Groups(xs, tolerance)| :: Groups(xs, tolerance)[i] != []
  {
    GroupsCluster(xs, tolerance);
  }

  lemma LastOfBucket(xs: seq<real>, tolerance: real, clusters: seq<Cluster>, bucket: seq<real>)
    requires GroupsSoFar(xs, tolerance, clusters, bucket)
    ensures bucket != [] && bucket[|bucket| - 1] == xs[|xs| - 1]
  {
    hide IsClustering;
    GroupsCluster(xs, tolerance);
    ClusteringEnd(xs, tolerance, Groups(xs, tolerance));
  }

  lemma NextGroup(xs: seq<real>, x: real, tolerance: real, clusters: seq<Cluster>, bucket: seq<real>)
    requires GroupsSoFar(xs, tolerance, clusters, bucket) && bucket != []
    ensures if x - xs[|xs| - 1] <= tolerance
            then GroupsSoFar(xs + [x], tolerance, clusters, bucket + [x])
            else GroupsSoFar(xs + [x], tolerance, clusters + [Summary(bucket)], [x])
  {
    hide Groups, Summary;
    GroupsNonEmpty(xs + [x], tolerance);
    GroupsSnoc(xs, x, tolerance);
    var gs, gs' := Groups(xs, tolerance), Groups(xs + [x], tolerance);
    if x - xs[|xs| - 1] <= tolerance {
      assert gs'[..|gs'| - 1] == gs[..|gs| - 1];
    } else {
      assert gs'[..|gs'| - 1] == gs == gs[..|gs| - 1] + [bucket];
    }
  }

  /** The clusters of a list of pivots, lowest first. */
  function ClustersOf(levels: seq<real>, tolerance: real): seq<Cluster> {
    GroupsNonEmpty(Sort(levels), tolerance);
    Summaries(Groups(Sort(levels), tolerance))
  }

  // ---- what clusters keep ----

  function Touches(clusters: seq<Cluster>): nat {
    if clusters == [] then 0 else Touches(clusters[..|clusters| - 1]) + clusters[|clusters| - 1].touches
  }

  lemma {:induction false} TouchesCountMembers(gs: seq<seq<real>>)
    requires forall i | 0 <= i < |gs| :: gs[i] != []
    ensures Touches(Summaries(gs)) == |Flatten(gs)|
  {
    if gs != [] {
      var init := gs[..|gs| - 1];
      assert forall i | 0 <= i < |init| :: init[i] == gs[i];
      TouchesCountMembers(init);
      assert Summaries(gs)[..|gs| - 1] == Summaries(init);
    }
  }

  /** No pivot is lost or counted twice. */
  lemma TouchesConserved(levels: seq<real>, tolerance: real)
    ensures Touches(ClustersOf(levels, tolerance)) == |levels|
  {
    SortSorts(levels);
    GroupsCluster(Sort(levels), tolerance);
    TouchesCountMembers(Groups(Sort(levels), tolerance));
  }

  lemma {:induction false} SumBetween(xs: seq<real>, lo: real, hi: real)
    requires forall i | 0 <= i < |xs| :: lo <= xs[i] <= hi
    ensures Mul(|xs| as real, lo) <= Sum(xs) <= Mul(|xs| as real, hi)
  {
    if xs == [] {
      ZeroTimes(lo);
      ZeroTimes(hi);
    } else {
      var init := xs[..|xs| - 1];
      SumBetween(init, lo, hi);
      Distribute(|init| as real, 1.0, lo);
      Distribute(|init| as real, 1.0, hi);
      MulCommutes(1.0, lo);
      MulCommutes(1.0, hi);
      MulOne(lo);
      MulOne(hi);
    }
  }

  /** A cluster's level is the mean of its members: they add up to the level times the touches. */
  lemma LevelIsMean(group: seq<real>)
    requires group != []
    ensures Summary(group).touches == |group|
    ensures Mul(Summary(group).touches as real, Summary(group).level) == Sum(group)
  {
    assert (|group| as real) * (Sum(group) / |group| as real) == Sum(group);
  }

  /** A cluster's level lies between its lowest and its highest member. */
  lemma LevelWithin(group: seq<real>)
    requires group != [] && Ordered(group)
    ensures group[0] <= Summary(group).level <= group[|group| - 1]
  {
    SumBetween(group, group[0], group[|group| - 1]);
    QuotientBetween(|group| as real, group[0], Sum(group), group[|group| - 1]);
  }

  /** What bounds the whole list bounds each group's members. */
  lemma {:induction false} MembersBelow(gs: seq<seq<real>>, x: real, i: nat, a: nat)
    requires i < |gs| && a < |gs[i]|
    requires forall k | 0 <= k < |Flatten(gs)| :: Flatten(gs)[k] <= x
    ensures gs[i][a] <= x
  {
    var m := |gs| - 1;
    var front := Flatten(gs[..m]);
    assert Flatten(gs) == front + gs[m];
    if i < m {
      assert forall k | 0 <= k < |front| :: front[k] == Flatten(gs)[k];
      MembersBelow(gs[..m], x, i, a);
    } else {
      assert gs[i][a] == Flatten(gs)[|front| + a];
    }
  }

  /** Groups of a sorted list are sorted, and keep its order among themselves. */
  lemma {:induction false} MembersInOrder(gs: seq<seq<real>>, i: nat, a: nat, j: nat, b: nat)
    requires Ordered(Flatten(gs)) && i < j < |gs| && a < |gs[i]| && b < |gs[j]|
    ensures gs[i][a] <= gs[j][b]
  {
    var m := |gs| - 1;
    var front := Flatten(gs[..m]);
    assert Flatten(gs) == front + gs[m];
    assert forall k | 0 <= k < |front| :: front[k] == Flatten(gs)[k];
    if j < m {
      MembersInOrder(gs[..m], i, a, j, b);
    } else {
      assert gs[m][b] == Flatten(gs)[|front| + b];
      MembersBelow(gs[..m], gs[m][b], i, a);
    }
  }

  lemma {:induction false} GroupOrdered(gs: seq<seq<real>>, i: nat)
    requires Ordered(Flatten(gs)) && i < |gs|
    ensures Ordered(gs[i])
  {
    hide Ordered;
    var m := |gs| - 1;
    var front := Flatten(gs[..m]);
    assert Flatten(gs) == front + gs[m];
    OrderedParts(front, gs[m]);
    if i < m {
      GroupOrdered(gs[..m], i);
    }
  }

  lemma OrderedParts(a: seq<real>, b: seq<real>)
    requires Ordered(a + b)
    ensures Ordered(a) && Ordered(b)
  {
    assert forall k | 0 <= k < |a| :: a[k] == (a + b)[k];
    assert forall k | 0 <= k < |b| :: b[k] == (a + b)[|a| + k];
  }

  /** Members of different groups are more than the tolerance apart. */
  lemma GroupsApart(xs: seq<real>, tolerance: real, gs: seq<seq<real>>, i: nat, a: nat, j: nat, b: nat)
    requires IsClustering(xs, tolerance, gs) && Ordered(xs) && i < j < |gs| && a < |gs[i]| && b < |gs[j]|
    ensures gs[j][b] - gs[i][a] > tolerance
  {
    hide Ordered;
    assert Apart(gs[i], gs[i + 1], tolerance);
    GroupOrdered(gs, i);
    OrderedEnds(gs[i], a);
    if j == i + 1 {
      GroupOrdered(gs, j);
      OrderedEnds(gs[j], b);
    } else {
      MembersInOrder(gs, i + 1, 0, j, b);
    }
  }

  lemma OrderedEnds(group: seq<real>, a: nat)
    requires Ordered(group) && a < |group|
    ensures group[0] <= group[a] <= group[|group| - 1]
  {
  }

  /** Members of different clusters are more than the tolerance apart, and so are the levels;
      so levels strictly increase. */
  lemma ClustersApart(levels: seq<real>, tolerance: real, i: nat, j: nat)
    requires i < j < |ClustersOf(levels, tolerance)|
    ensures var gs := Groups(Sort(levels), tolerance);
            && |gs| == |ClustersOf(levels, tolerance)|
            && (forall a, b | 0 <= a < |gs[i]| && 0 <= b < |gs[j]| :: gs[j][b] - gs[i][a] > tolerance)
            && ClustersOf(levels, tolerance)[j].level - ClustersOf(levels, tolerance)[i].level > tolerance
  {
    hide IsClustering, Ordered, Sort, Groups, Summary;
    var xs := Sort(levels);
    var gs := Groups(xs, tolerance);
    SortSorts(levels);
    GroupsCluster(xs, tolerance);
    GroupsNonEmpty(xs, tolerance);
    OrderedGroups(xs, tolerance, gs, i);
    OrderedGroups(xs, tolerance, gs, j);
    forall a, b | 0 <= a < |gs[i]| && 0 <= b < |gs[j]|
      ensures gs[j][b] - gs[i][a] > tolerance
    {
      GroupsApart(xs, tolerance, gs, i, a, j, b);
    }
    LevelWithin(gs[i]);
    LevelWithin(gs[j]);
    GroupsApart(xs, tolerance, gs, i, |gs[i]| - 1, j, 0);
  }

  lemma OrderedGroups(xs: seq<real>, tolerance: real, gs: seq<seq<real>>, i: nat)
    requires IsClustering(xs, tolerance, gs) && Ordered(xs) && i < |gs|
    ensures Ordered(gs[i])
  {
    GroupOrdered(gs, i);
  }

  // ---- the choice ----

  /** Most touches first, then the level nearest to the close. */
  predicate Preferred(side: Side, a: Cluster, b: Cluster) {
    a.touches > b.touches || (a.touches == b.touches && Beats(side, b.level, a.level))
  }

  /** The preferred cluster strictly on its side of the close; the earliest listed on a tie. */
  function Best(side: Side, clusters: seq<Cluster>, close: real): Option<Cluster> {
    if clusters == [] then None
    else
      var before, c := Best(side, clusters[..|clusters| - 1], close), clusters[|clusters| - 1];
      if Beats(side, c.level, close) && (before.None? || Preferred(side, c, before.value)) then Some(c) else before
  }

  /** c stands on its side of the close, and no cluster there is preferred to it. */
  ghost predicate IsBest(side: Side, clusters: seq<Cluster>, close: real, c: Cluster) {
    && (exists k :: 0 <= k < |clusters| && clusters[k] == c)
    && Beats(side, c.level, close)
    && (forall k | 0 <= k < |clusters| && Beats(side, clusters[k].level, close) ::
          || clusters[k].touches < c.touches
          || (clusters[k].touches == c.touches && Abs(c.level - close) < Abs(clusters[k].level - close))
          || clusters[k] == c)
  }

  lemma {:induction false} BestExactly(side: Side, clusters: seq<Cluster>, close: real)
    ensures match Best(side, clusters, close)
            case Some(c) => IsBest(side, clusters, close, c)
            case None => forall k | 0 <= k < |clusters| :: !Beats(side, clusters[k].level, close)
  {
    if clusters != [] {
      var init, last := clusters[..|clusters| - 1], clusters[|clusters| - 1];
      BestExactly(side, init, close);
      assert forall k | 0 <= k < |init| :: init[k] == clusters[k];
      assert clusters[|clusters| - 1] == last;
    }
  }

  function Span(close: real, atr: Option<real>): (span: real)
    ensures span > 0.0
  {
    if atr.Some? && atr.value > 0.0 then atr.value else Max(close * 0.001, 0.5)
  }

  /** The merged swing levels of one side. */
  function LevelsOn(side: Side, bars: seq<Bar>, span: real): seq<Cluster> {
    var xs := if side.Highs? then HighsOf(bars) else LowsOf(bars);
    ClustersOf(SwingPrices(side, xs, SWING_HALF, |xs|), span * PIVOT_MERGE_ATR)
  }

  /** A level is the best one on its side of the close or, if that side has none, one span away. */
  ghost predicate IsKeyLevel(side: Side, bars: seq<Bar>, close: real, span: real, level: real) {
    var clusters := LevelsOn(side, bars, span);
    || (exists c :: IsBest(side, clusters, close, c) && level == c.level)
    || ((forall k | 0 <= k < |clusters| :: !Beats(side, clusters[k].level, close))
        && level == if side.Highs? then close + span else close - span)
  }

  /** Always brackets the close, whatever the bars, the close and the range. */
  method PickLevels(bars: seq<Bar>, close: real, atr: Option<real>) returns (levels: Levels)
    ensures levels.support < close < levels.resistance
    ensures var span := if atr.Some? && atr.value > 0.0 then atr.value else Max(close * 0.001, 0.5);
            && IsKeyLevel(Highs, bars, close, span, levels.resistance)
            && IsKeyLevel(Lows, bars, close, span, levels.support)
  {
    hide ClustersOf, SwingPrices, IsBest, Best;
    var span := Span(close, atr);
    var tolerance := span * PIVOT_MERGE_ATR;
    var highs, lows := SwingPivots(bars, SWING_HALF);
    var above := ClusterLevels(highs, tolerance);
    var below := ClusterLevels(lows, tolerance);
    var resistance, support := close + span, close - span;
    BestExactly(Highs, above, close);
    BestExactly(Lows, below, close);
    var top, bottom := Best(Highs, above, close), Best(Lows, below, close);
    BestIsBeyond(Highs, above, close);
    BestIsBeyond(Lows, below, close);
    if top.Some? {
      resistance := top.value.level;
    }
    if bottom.Some? {
      support := bottom.value.level;
    }
    if resistance <= close {
      resistance := close + Max(span, close * 0.0001);
    }
    if support >= close {
      support := close - Max(span, close * 0.0001);
    }
    levels := Levels(support, resistance);
  }

  lemma BestIsBeyond(side: Side, clusters: seq<Cluster>, close: real)
    ensures var best := Best(side, clusters, close); best.Some? ==> Beats(side, best.value.level, close)
  {
    BestExactly(side, clusters, close);
  }

  /** The chosen level is the only one the rules allow. */
  lemma KeyLevelUnique(side: Side, bars: seq<Bar>, close: real, span: real, a: real, b: real)
    requires IsKeyLevel(side, bars, close, span, a) && IsKeyLevel(side, bars, close, span, b)
    ensures a == b
  {
    hide LevelsOn;
  }
}
