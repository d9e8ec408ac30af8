/** The bounded candle store. It evicts as it goes, and still always holds the newest
    part of everything it was ever given. */
module OhlcStore {
  import opened Wrappers
  import opened Symbols

  datatype OhlcBar = OhlcBar(openTime: int, open: real, high: real, low: real, close: real, volume: real,
                             tickVolume: int, isOpen: bool)

  type Series = map<int, OhlcBar>

  type Key = (string, string)

  // ---- the N newest bars ----

  /** The keys strictly newer than k. */
  function Newer(s: set<int>, k: int): set<int> {
    set j | j in s && j > k
  }

  /** The `capacity` newest keys. */
  function TopKeys(s: set<int>, capacity: nat): set<int> {
    set k | k in s && |Newer(s, k)| < capacity
  }

  /** The `capacity` newest bars of a series, each as it is. */
  function Newest(h: Series, capacity: nat): Series {
    map k | k in TopKeys(h.Keys, capacity) :: h[k]
  }

  lemma NewerMonotone(s: set<int>, t: set<int>, k: int)
    requires s <= t
    ensures |Newer(s, k)| <= |Newer(t, k)|
  {
    CardinalityMonotone(Newer(s, k), Newer(t, k));
  }

  lemma HasMember(s: set<int>)
    requires s != {}
    ensures exists x :: x in s
  {
    if forall x: int :: x !in s {
      assert false;
    }
  }

  lemma {:induction false} CardinalityMonotone(s: set<int>, t: set<int>)
    requires s <= t
    ensures |s| <= |t|
  {
    if s != {} {
      HasMember(s);
      var x :| x in s;
      CardinalityMonotone(s - {x}, t - {x});
    }
  }

  lemma {:induction false} LeastExists(s: set<int>) returns (m: int)
    requires s != {}
    ensures m in s && forall x | x in s :: m <= x
    decreases |s|
  {
    HasMember(s);
    var c :| c in s;
    m := c;
    if s != {c} {
      var n := LeastExists(s - {c});
      m := if n < c then n else c;
      forall x | x in s
        ensures m <= x
      {
        assert x == c || x in s - {c};
      }
    }
  }

  /** A set with enough keys has exactly `capacity` newest ones; a smaller one keeps all. */
  lemma {:induction false} TopKeysCount(s: set<int>, capacity: nat)
    ensures |TopKeys(s, capacity)| == if |s| <= capacity then |s| else capacity
    ensures |s| <= capacity ==> TopKeys(s, capacity) == s
    decreases |s|
  {
    if s != {} {
      var m := LeastExists(s);
      var rest := s - {m};
      TopKeysCount(rest, capacity);
      assert Newer(s, m) == rest;
      forall k | k in rest
        ensures Newer(rest, k) == Newer(s, k)
      {
      }
      if |rest| < capacity {
        assert TopKeys(s, capacity) == s;
      } else {
        assert TopKeys(s, capacity) == TopKeys(rest, capacity);
      }
    } else {
      assert TopKeys(s, capacity) == {};
    }
  }

  /** A key dropped from the top has at least `capacity` kept keys above it. */
  lemma DroppedKeyHasNewer(s: set<int>, capacity: nat, k: int)
    requires k in s && k !in TopKeys(s, capacity)
    ensures |Newer(TopKeys(s, capacity), k)| >= capacity
  {
    var above := Newer(s, k);
    TopKeysCount(above, capacity);
    forall j | j in TopKeys(above, capacity)
      ensures j in Newer(TopKeys(s, capacity), k)
    {
      assert Newer(s, j) == Newer(above, j);
    }
    CardinalityMonotone(TopKeys(above, capacity), Newer(TopKeys(s, capacity), k));
  }

  /** Forgetting old keys before adding new ones does not change the newest keys. */
  lemma TopKeysAbsorb(s: set<int>, added: set<int>, capacity: nat)
    ensures TopKeys(TopKeys(s, capacity) + added, capacity) == TopKeys(s + added, capacity)
  {
    var bounded, all := TopKeys(s, capacity) + added, s + added;
    forall k
      ensures k in TopKeys(bounded, capacity) <==> k in TopKeys(all, capacity)
    {
      NewerMonotone(bounded, all, k);
      if k in TopKeys(all, capacity) && k !in bounded {
        NewerMonotone(s, all, k);
      }
      if k in TopKeys(bounded, capacity) && |Newer(all, k)| >= capacity {
        KeyLost(s, added, capacity, k);
      }
    }
  }

  lemma KeyLost(s: set<int>, added: set<int>, capacity: nat, k: int)
    requires |Newer(s + added, k)| >= capacity
    ensures |Newer(TopKeys(s, capacity) + added, k)| >= capacity
  {
    var bounded, all := TopKeys(s, capacity) + added, s + added;
    if Newer(bounded, k) != Newer(all, k) {
      var j :| j in Newer(all, k) && j !in Newer(bounded, k);
      DroppedKeyHasNewer(s, capacity, j);
      CardinalityMonotone(Newer(TopKeys(s, capacity), j), Newer(bounded, k));
    }
  }

  /** The law of the store: a bounded series absorbs an update exactly as the unbounded
      history does. */
  lemma NewestAbsorbs(h: Series, update: Series, capacity: nat)
    ensures Newest(Newest(h, capacity) + update, capacity) == Newest(h + update, capacity)
  {
    TopKeysAbsorb(h.Keys, update.Keys, capacity);
    assert (Newest(h, capacity) + update).Keys == TopKeys(h.Keys, capacity) + update.Keys;
    assert (h + update).Keys == h.Keys + update.Keys;
  }

  /** The newest `limit` of the newest `capacity` are the newest `limit` of all. */
  lemma NewestOfNewest(h: Series, limit: nat, capacity: nat)
    requires limit <= capacity
    ensures Newest(Newest(h, capacity), limit) == Newest(h, limit)
  {
    var top := TopKeys(h.Keys, capacity);
    assert Newest(h, capacity).Keys == top;
    forall k
      ensures k in TopKeys(top, limit) <==> k in TopKeys(h.Keys, limit)
    {
      NewerMonotone(top, h.Keys, k);
      if k in TopKeys(top, limit) && |Newer(h.Keys, k)| >= limit {
        TopAbove(h.Keys, limit, capacity, k);
      }
    }
  }

  lemma TopAbove(s: set<int>, limit: nat, capacity: nat, k: int)
    requires limit <= capacity && |Newer(s, k)| >= limit
    ensures |Newer(TopKeys(s, capacity), k)| >= limit
  {
    var above := Newer(s, k);
    TopKeysCount(above, limit);
    forall j | j in TopKeys(above, limit)
      ensures j in Newer(TopKeys(s, capacity), k)
    {
      assert Newer(s, j) == Newer(above, j);
    }
    CardinalityMonotone(TopKeys(above, limit), Newer(TopKeys(s, capacity), k));
  }

  // ---- ordered series ----

  /** The keys in ascending order. */
  function Sorted(s: set<int>): (ks: seq<int>)
    decreases |s|
  {
    if s == {} then []
    else
      LeastUnique(s);
      var m :| m in s && forall x | x in s :: m <= x;
      [m] + Sorted(s - {m})
  }

  lemma LeastUnique(s: set<int>)
    requires s != {}
    ensures exists m :: m in s && forall x | x in s :: m <= x
  {
    var m := LeastExists(s);
  }

  predicate Ascending(ks: seq<int>) {
    forall i, j | 0 <= i < j < |ks| :: ks[i] < ks[j]
  }

  /** ks lists the set once, in ascending order. */
  predicate Lists(s: set<int>, ks: seq<int>) {
    Ascending(ks) && |ks| == |s| && forall i | 0 <= i < |ks| :: ks[i] in s
  }

  lemma {:induction false} SortedLists(s: set<int>)
    ensures Lists(s, Sorted(s))
    decreases |s|
  {
    if s != {} {
      LeastUnique(s);
      var m := Sorted(s)[0];
      SortedLists(s - {m});
      assert Sorted(s) == [m] + Sorted(s - {m});
    }
  }

  lemma {:induction false} AscendingFits(s: set<int>, ks: seq<int>)
    requires Ascending(ks) && forall i | 0 <= i < |ks| :: ks[i] in s
    ensures |ks| <= |s|
    decreases |ks|
  {
    if ks != [] {
      var last := ks[|ks| - 1];
      AscendingFits(s - {last}, ks[..|ks| - 1]);
    }
  }

  lemma ListsCover(s: set<int>, ks: seq<int>, k: int)
    requires Lists(s, ks) && k in s
    ensures exists i | 0 <= i < |ks| :: ks[i] == k
  {
    if forall i | 0 <= i < |ks| :: ks[i] != k {
      AscendingFits(s - {k}, ks);
      assert false;
    }
  }

  lemma {:induction false} ListsUnique(s: set<int>, a: seq<int>, b: seq<int>)
    requires Lists(s, a) && Lists(s, b)
    ensures a == b
    decreases |a|
  {
    if a != [] {
      ListsCover(s, b, a[0]);
      ListsCover(s, a, b[0]);
      assert a[0] == b[0];
      ListsUnique(s - {a[0]}, a[1..], b[1..]);
      assert a == [a[0]] + a[1..] && b == [b[0]] + b[1..];
    }
  }

  function Ordered(h: Series): (bars: seq<OhlcBar>) {
    var ks := Sorted(h.Keys);
    SortedLists(h.Keys);
    BarsAt(h, ks)
  }

  function BarsAt(h: Series, ks: seq<int>): (bars: seq<OhlcBar>)
    requires forall i | 0 <= i < |ks| :: ks[i] in h
    ensures |bars| == |ks|
  {
    seq(|ks|, i requires 0 <= i < |ks| => h[ks[i]])
  }

  /** The i-th key in ascending order has all the later ones above it. */
  lemma {:induction false} NewerCount(s: set<int>, ks: seq<int>, i: nat)
    requires Lists(s, ks) && i < |ks|
    ensures |Newer(s, ks[i])| == |s| - 1 - i
    decreases |s|
  {
    var m := ks[0];
    var rest := s - {m};
    if i == 0 {
      forall k | k in rest
        ensures k > m
      {
        ListsCover(s, ks, k);
      }
      assert Newer(s, m) == rest;
    } else {
      NewerCount(rest, ks[1..], i - 1);
      assert Newer(s, ks[i]) == Newer(rest, ks[i]);
    }
  }

  function DroppedCount(count: nat, capacity: nat): nat {
    if count <= capacity then 0 else count - capacity
  }

  /** In ascending order, the keys dropped from the top come first. */
  lemma TopKeysAreSuffix(s: set<int>, ks: seq<int>, capacity: nat, i: nat)
    requires Lists(s, ks) && i < |ks|
    ensures ks[i] in TopKeys(s, capacity) <==> i >= DroppedCount(|ks|, capacity)
  {
    NewerCount(s, ks, i);
  }

  lemma SuffixKeys(s: set<int>, ks: seq<int>, capacity: nat)
    requires Lists(s, ks)
    ensures Lists(TopKeys(s, capacity), ks[DroppedCount(|ks|, capacity)..])
  {
    var n := DroppedCount(|ks|, capacity);
    TopKeysCount(s, capacity);
    forall i | 0 <= i < |ks| - n
      ensures ks[n..][i] in TopKeys(s, capacity)
    {
      TopKeysAreSuffix(s, ks, capacity, n + i);
    }
  }

  /** The newest `limit` bars, ascending, are the end of the ascending series. */
  lemma SuffixIsNewest(h: Series, limit: nat)
    requires limit <= |Ordered(h)|
    ensures Ordered(h)[|Ordered(h)| - limit..] == Ordered(Newest(h, limit))
  {
    hide TopKeys, Sorted, Lists, Newest, BarsAt;
    var ks := Sorted(h.Keys);
    var top := TopKeys(h.Keys, limit);
    var last := ks[|ks| - limit..];
    SortedLists(h.Keys);
    ListsIn(h.Keys, ks);
    SuffixKeys(h.Keys, ks, limit);
    SortedLists(top);
    ListsUnique(top, Sorted(top), last);
    ListsIn(top, last);
    BarsSuffix(h, ks, |ks| - limit);
    NewestBars(h, limit, last);
  }

  lemma BarsSuffix(h: Series, ks: seq<int>, n: nat)
    requires n <= |ks| && forall i | 0 <= i < |ks| :: ks[i] in h
    ensures forall i | 0 <= i < |ks[n..]| :: ks[n..][i] in h
    ensures BarsAt(h, ks)[n..] == BarsAt(h, ks[n..])
  {
  }

  lemma NewestBars(h: Series, capacity: nat, ks: seq<int>)
    requires forall i | 0 <= i < |ks| :: ks[i] in h && ks[i] in TopKeys(h.Keys, capacity)
    ensures Newest(h, capacity).Keys == TopKeys(h.Keys, capacity)
    ensures BarsAt(Newest(h, capacity), ks) == BarsAt(h, ks)
  {
    assert Newest(h, capacity).Keys == TopKeys(h.Keys, capacity);
  }

  lemma ListsIn(s: set<int>, ks: seq<int>)
    requires Lists(s, ks)
    ensures forall i | 0 <= i < |ks| :: ks[i] in s
  {
  }

  // ---- what the store was given ----

  /** Bars written in order, the last one for an open time winning. */
  function Written(bars: seq<OhlcBar>): Series {
    if bars == [] then map[] else Written(bars[..|bars| - 1])[bars[|bars| - 1].openTime := bars[|bars| - 1]]
  }

  function LogAt(m: map<Key, seq<OhlcBar>>, k: Key): seq<OhlcBar> {
    if k in m then m[k] else []
  }

  // ---- what is kept, by indices into all that was supplied ----

  /** The bar at index j is the last one supplied for its time. */
  ghost predicate IsLast(log: seq<OhlcBar>, j: nat)
    requires j < |log|
  {
    forall k | j < k < |log| :: log[k].openTime != log[j].openTime
  }

  ghost predicate Supplied(log: seq<OhlcBar>, t: int) {
    exists j :: 0 <= j < |log| && log[j].openTime == t
  }

  ghost predicate IsLastSupplied(log: seq<OhlcBar>, bar: OhlcBar) {
    exists j :: 0 <= j < |log| && log[j] == bar && IsLast(log, j)
  }

  /** Ascending in time, each bar the last one supplied for its time; and a supplied time that is
      missing is older than all n bars there are. */
  ghost predicate AreNewest(log: seq<OhlcBar>, n: nat, bars: seq<OhlcBar>) {
    && |bars| <= n
    && (forall i, j | 0 <= i < j < |bars| :: bars[i].openTime < bars[j].openTime)
    && (forall i | 0 <= i < |bars| :: IsLastSupplied(log, bars[i]))
    && (forall t | Supplied(log, t) :: Supplied(bars, t) || (|bars| == n && OlderThanAll(t, bars)))
  }

  ghost predicate OlderThanAll(t: int, bars: seq<OhlcBar>) {
    forall i | 0 <= i < |bars| :: t < bars[i].openTime
  }

  /** Writing keeps exactly the supplied times, each with its last bar. */
  lemma {:induction false} WrittenExactly(log: seq<OhlcBar>, t: int)
    ensures t in Written(log) <==> Supplied(log, t)
    ensures t in Written(log) ==> Written(log)[t].openTime == t && IsLastSupplied(log, Written(log)[t])
  {
    if log != [] {
      var m := |log| - 1;
      var init := log[..m];
      WrittenExactly(init, t);
      if log[m].openTime == t {
        assert IsLast(log, m);
      } else if Supplied(init, t) {
        var j :| 0 <= j < |init| && init[j] == Written(init)[t] && IsLast(init, j);
        assert log[j].openTime == t && IsLast(log, j);
      } else {
        assert !Supplied(log, t) by {
          assert forall j | 0 <= j < m :: init[j] == log[j];
        }
      }
    }
  }

  lemma {:induction false} WrittenJoin(a: seq<OhlcBar>, b: seq<OhlcBar>)
    ensures Written(a + b) == Written(a) + Written(b)
    decreases |b|
  {
    if b == [] {
      assert a + b == a;
    } else {
      assert (a + b)[..|a + b| - 1] == a + b[..|b| - 1];
      WrittenJoin(a, b[..|b| - 1]);
    }
  }

  /** The two descriptions of what is kept agree. */
  lemma NewestAreNewest(log: seq<OhlcBar>, n: nat)
    ensures AreNewest(log, n, Ordered(Newest(Written(log), n)))
  {
    hide Sorted, TopKeys, Written, Supplied, IsLastSupplied, Lists;
    var h := Written(log);
    var top := TopKeys(h.Keys, n);
    var kept := Newest(h, n);
    var ks, bars := Sorted(kept.Keys), Ordered(kept);
    KeptKeys(h, n);
    SortedLists(top);
    ListsMeaning(top, ks);
    TopKeysCount(h.Keys, n);
    forall i | 0 <= i < |bars|
      ensures bars[i].openTime == ks[i] && IsLastSupplied(log, bars[i])
    {
      WrittenExactly(log, ks[i]);
    }
    forall t | Supplied(log, t)
      ensures Supplied(bars, t) || (|bars| == n && OlderThanAll(t, bars))
    {
      WrittenExactly(log, t);
      if t in top {
        ListsCover(top, ks, t);
        var i :| 0 <= i < |ks| && ks[i] == t;
        SuppliedAt(bars, i);
      } else {
        forall i | 0 <= i < |bars|
          ensures t < bars[i].openTime
        {
          DroppedIsOlder(h.Keys, n, t, ks[i]);
        }
      }
    }
  }

  lemma KeptKeys(h: Series, n: nat)
    ensures Newest(h, n).Keys == TopKeys(h.Keys, n) <= h.Keys
    ensures forall k | k in Newest(h, n) :: k in h && Newest(h, n)[k] == h[k]
  {
  }

  lemma ListsMeaning(s: set<int>, ks: seq<int>)
    requires Lists(s, ks)
    ensures |ks| == |s| && (forall i | 0 <= i < |ks| :: ks[i] in s)
    ensures forall i, j | 0 <= i < j < |ks| :: ks[i] < ks[j]
  {
  }

  lemma SuppliedAt(bars: seq<OhlcBar>, i: nat)
    requires i < |bars|
    ensures Supplied(bars, bars[i].openTime)
  {
  }

  lemma DroppedIsOlder(s: set<int>, n: nat, t: int, k: int)
    requires t in s && t !in TopKeys(s, n) && k in TopKeys(s, n)
    ensures t < k
  {
    if k <= t {
      CardinalityMonotone(Newer(s, t), Newer(s, k));
    }
  }

  // ---- the store ----

  function SeriesAt(m: map<Key, Series>, k: Key): Series {
    if k in m then m[k] else map[]
  }

  /** A non-positive bound keeps nothing. */
  function Capacity(maxBars: int): nat {
    if maxBars < 0 then 0 else maxBars
  }

  function RemainingKeys(s: set<int>, ks: seq<int>, n: nat): set<int>
    requires n <= |ks|
  {
    set k | k in s && forall i | 0 <= i < n :: ks[i] != k
  }

  lemma NoneRemoved(s: set<int>, ks: seq<int>)
    ensures RemainingKeys(s, ks, 0) == s
  {
  }

  lemma IsNewest(r: Series, full: Series, capacity: nat)
    requires r.Keys == TopKeys(full.Keys, capacity) <= full.Keys
    requires forall k | k in r :: r[k] == full[k]
    ensures r == Newest(full, capacity)
  {
    var newest := Newest(full, capacity);
    assert newest.Keys == r.Keys;
    assert forall k | k in r :: k in newest && newest[k] == r[k];
  }

  lemma RemainingStep(s: set<int>, ks: seq<int>, n: nat)
    requires n < |ks|
    ensures RemainingKeys(s, ks, n + 1) == RemainingKeys(s, ks, n) - {ks[n]}
  {
  }

  lemma RemainingAreTop(s: set<int>, ks: seq<int>, capacity: nat)
    requires Lists(s, ks)
    ensures RemainingKeys(s, ks, DroppedCount(|ks|, capacity)) == TopKeys(s, capacity)
  {
    var n := DroppedCount(|ks|, capacity);
    forall k | k in s
      ensures k in RemainingKeys(s, ks, n) <==> k in TopKeys(s, capacity)
    {
      ListsCover(s, ks, k);
      var i :| 0 <= i < |ks| && ks[i] == k;
      TopKeysAreSuffix(s, ks, capacity, i);
    }
  }

  class OhlcStore {
    const maxBars: int
    var series: map<Key, Series>
    /** Every bar ever supplied, in order. */
    ghost var log: map<Key, seq<OhlcBar>>

    ghost predicate Valid()
      reads this
    {
      forall k: Key :: SeriesAt(series, k) == Newest(Written(LogAt(log, k)), Capacity(maxBars))
    }

    constructor (maxBars: int)
      ensures Valid() && this.maxBars == maxBars && series == map[] && log == map[]
    {
      this.maxBars := maxBars;
      series, log := map[], map[];
    }

    /** Write the bars, then drop the oldest beyond the bound. */
    method UpsertBucket(bucket: Series, bars: seq<OhlcBar>) returns (r: Series)
      ensures r == Newest(bucket + Written(bars), Capacity(maxBars))
    {
      r := WriteBars(bucket, bars);
      if |r| > maxBars {
        r := EvictOldest(r);
      } else {
        WholeIsNewest(r, maxBars);
      }
    }

    method WriteBars(bucket: Series, bars: seq<OhlcBar>) returns (r: Series)
      ensures r == bucket + Written(bars)
    {
      r := bucket;
      for i := 0 to |bars|
        invariant r == bucket + Written(bars[..i])
      {
        assert bars[..i + 1][..i] == bars[..i];
        r := r[bars[i].openTime := bars[i]];
      }
      assert bars[..|bars|] == bars;
    }

    method EvictOldest(full: Series) returns (r: Series)
      requires |full| > maxBars
      ensures r == Newest(full, Capacity(maxBars))
    {
      hide Sorted, TopKeys, RemainingKeys, Newest, Ascending;
      var ks := Sorted(full.Keys);
      SortedLists(full.Keys);
      NoneRemoved(full.Keys, ks);
      var oldest := ks[..if maxBars < 0 then |ks| else |full| - maxBars];
      r := full;
      for i := 0 to |oldest|
        invariant r.Keys == RemainingKeys(full.Keys, ks, i) <= full.Keys
        invariant forall k | k in r :: r[k] == full[k]
      {
        RemainingStep(full.Keys, ks, i);
        r := r - {oldest[i]};
      }
      RemainingAreTop(full.Keys, ks, Capacity(maxBars));
      IsNewest(r, full, Capacity(maxBars));
    }

    /** The bars of a series in order of time. */
    ghost function Contents(k: Key): seq<OhlcBar>
      reads this
    {
      Ordered(SeriesAt(series, k))
    }

    /** Persist bars: the series goes on holding the newest bars of all that was ever supplied for
        it, each as it was supplied last; no other series changes. */
    method Upsert(symbol: string, interval: string, bars: seq<OhlcBar>)
      requires Valid()
      modifies this
      ensures Valid()
      ensures var k := (Upper(symbol), interval);
              && log == old(log)[k := LogAt(old(log), k) + bars]
              && AreNewest(log[k], Capacity(maxBars), Contents(k))
              && forall k' | k' != k :: SeriesAt(series, k') == SeriesAt(old(series), k')
    {
      hide Newest, Written, AreNewest;
      var key := (Upper(symbol), interval);
      var bucket := if key in series then series[key] else map[];
      assert bucket == SeriesAt(series, key);
      var updated := UpsertBucket(bucket, bars);
      NewestAbsorbs(Written(LogAt(log, key)), Written(bars), Capacity(maxBars));
      WrittenJoin(LogAt(log, key), bars);
      ghost var before, past := series, log;
      series := series[key := updated];
      log := log[key := LogAt(log, key) + bars];
      forall k: Key
        ensures SeriesAt(series, k) == Newest(Written(LogAt(log, k)), Capacity(maxBars))
      {
        if k != key {
          assert SeriesAt(before, k) == Newest(Written(LogAt(past, k)), Capacity(maxBars));
        }
      }
      NewestAreNewest(log[key], Capacity(maxBars));
    }

    /** Merge bars and return the newest `limit` of all that was ever supplied, oldest first;
        without a positive limit, everything kept. */
    method Merge(symbol: string, interval: string, bars: seq<OhlcBar>, limit: Option<int>) returns (r: seq<OhlcBar>)
      requires Valid()
      modifies this
      ensures Valid()
      ensures var k := (Upper(symbol), interval);
              && log == old(log)[k := LogAt(old(log), k) + bars]
              && AreNewest(log[k], Capacity(maxBars), Contents(k))
              && (var bounded := limit.Some? && 0 < limit.value < maxBars;
              && AreNewest(log[k], if bounded then limit.value else Capacity(maxBars), r))
              && forall k' | k' != k :: SeriesAt(series, k') == SeriesAt(old(series), k')
    {
      hide Newest, Written, AreNewest, Ordered;
      Upsert(symbol, interval, bars);
      var key := (Upper(symbol), interval);
      var bucket := if key in series then series[key] else map[];
      assert bucket == SeriesAt(series, key);
      r := Latest(bucket, limit);
      LatestOfNewest(Written(log[key]), limit, maxBars);
      NewestAreNewest(log[key], if limit.Some? && 0 < limit.value < maxBars then limit.value else Capacity(maxBars));
    }
  }

  /** All the bars in order, or the last `limit` of them. */
  function Latest(bucket: Series, limit: Option<int>): seq<OhlcBar> {
    var ordered := Ordered(bucket);
    if limit.Some? && limit.value > 0 && |ordered| > limit.value then ordered[|ordered| - limit.value..] else ordered
  }

  lemma LatestOfNewest(h: Series, limit: Option<int>, maxBars: int)
    ensures Latest(Newest(h, Capacity(maxBars)), limit) ==
            Ordered(Newest(h, if limit.Some? && 0 < limit.value < maxBars then limit.value else Capacity(maxBars)))
  {
    var bucket := Newest(h, Capacity(maxBars));
    SortedLists(bucket.Keys);
    TopKeysCount(h.Keys, Capacity(maxBars));
    assert bucket.Keys == TopKeys(h.Keys, Capacity(maxBars));
    if limit.Some? && limit.value > 0 {
      if |Ordered(bucket)| > limit.value {
        SuffixIsNewest(bucket, limit.value);
        NewestOfNewest(h, limit.value, Capacity(maxBars));
      } else if limit.value < maxBars {
        WholeIsNewest(bucket, limit.value);
        NewestOfNewest(h, limit.value, Capacity(maxBars));
      }
    }
  }

  lemma WholeIsNewest(h: Series, limit: nat)
    requires |h| <= limit
    ensures Newest(h, limit) == h
  {
    TopKeysCount(h.Keys, limit);
  }
}
