/** The bot's table of stored signals: one row per symbol, timeframe, bar and action. */
module SignalTable {
  import opened Wrappers
  import opened Counting
  import opened Symbols

  /** The columns of UNIQUE(symbol, timeframe, timestamp, action). */
  datatype Key = Key(symbol: string, timeframe: string, timestamp: int, action: string)

  datatype Row = Row(key: Key, sentAt: int)

  datatype Pair = Pair(symbol: string, timeframe: string)

  datatype PairSettings = PairSettings(cooldownMinutes: int, maxPerHour: int, quietHours: seq<int>)

  /** What a pair without a settings row gets. */
  const DEFAULT_SETTINGS := PairSettings(30, 4, [])

  function PairOf(key: Key): Pair {
    Pair(key.symbol, key.timeframe)
  }

  predicate Holds(rows: seq<Row>, key: Key) {
    exists i :: 0 <= i < |rows| && rows[i].key == key
  }

  predicate UniqueKeys(rows: seq<Row>) {
    forall i, j | 0 <= i < j < |rows| :: rows[i].key != rows[j].key
  }

  /** INSERT OR IGNORE. */
  function Insert(rows: seq<Row>, row: Row): seq<Row> {
    if Holds(rows, row.key) then rows else rows + [row]
  }

  /** The newest bar among a pair's rows. */
  function LastTime(rows: seq<Row>, pair: Pair): Option<int> {
    if rows == [] then None
    else
      var earlier := LastTime(rows[..|rows| - 1], pair);
      var row := rows[|rows| - 1];
      if PairOf(row.key) != pair then earlier
      else if earlier.Some? && earlier.value > row.key.timestamp then earlier
      else Some(row.key.timestamp)
  }

  /** How many rows of a pair were sent at or after a time. */
  function CountSince(rows: seq<Row>, pair: Pair, since: int): nat {
    if rows == [] then 0
    else
      var row := rows[|rows| - 1];
      CountSince(rows[..|rows| - 1], pair, since) +
      if PairOf(row.key) == pair && row.sentAt >= since then 1 else 0
  }

  lemma {:induction false} LastTimeIsNewest(rows: seq<Row>, pair: Pair)
    ensures LastTime(rows, pair).None? <==> forall i | 0 <= i < |rows| :: PairOf(rows[i].key) != pair
    ensures forall i | 0 <= i < |rows| ::
      PairOf(rows[i].key) == pair ==> LastTime(rows, pair).Some? && rows[i].key.timestamp <= LastTime(rows, pair).value
    ensures LastTime(rows, pair).Some? ==>
              exists i :: 0 <= i < |rows| && PairOf(rows[i].key) == pair &&
                          rows[i].key.timestamp == LastTime(rows, pair).value
  {
    if rows != [] {
      var init, last := rows[..|rows| - 1], |rows| - 1;
      LastTimeIsNewest(init, pair);
      assert forall i | 0 <= i < last :: init[i] == rows[i];
      if PairOf(rows[last].key) != pair && LastTime(init, pair).Some? {
        var i :| 0 <= i < last && PairOf(init[i].key) == pair && init[i].key.timestamp == LastTime(init, pair).value;
        assert rows[i].key.timestamp == LastTime(rows, pair).value;
      }
    }
  }

  predicate IsRecent(row: Row, pair: Pair, since: int) {
    PairOf(row.key) == pair && row.sentAt >= since
  }

  /** The rows counted are those of the pair sent since then, each once. */
  lemma {:induction false} CountIsNumber(rows: seq<Row>, pair: Pair, since: int)
    ensures CountSince(rows, pair, since) == |set i | 0 <= i < |rows| && IsRecent(rows[i], pair, since)|
  {
    if rows != [] {
      var m := |rows| - 1;
      var init := rows[..m];
      CountIsNumber(init, pair, since);
      assert IsRecent(rows[m], pair, since) <==> PairOf(rows[m].key) == pair && rows[m].sentAt >= since;
      hide IsRecent;
      var few := set i | 0 <= i < m && IsRecent(init[i], pair, since);
      var all := set i | 0 <= i < |rows| && IsRecent(rows[i], pair, since);
      assert forall i :: i in all <==> i in few || (IsRecent(rows[m], pair, since) && i == m);
      OneMore(few, all, m, IsRecent(rows[m], pair, since));
    }
  }

  lemma CountSnoc(rows: seq<Row>, row: Row, pair: Pair, since: int)
    ensures CountSince(rows + [row], pair, since) ==
            CountSince(rows, pair, since) + if PairOf(row.key) == pair && row.sentAt >= since then 1 else 0
  {
    assert (rows + [row])[..|rows|] == rows;
  }

  lemma {:induction false} CountMonotone(rows: seq<Row>, pair: Pair, a: int, b: int)
    requires a <= b
    ensures CountSince(rows, pair, b) <= CountSince(rows, pair, a)
  {
    if rows != [] {
      CountMonotone(rows[..|rows| - 1], pair, a, b);
    }
  }

  class Database {
    var signals: seq<Row>
    const timeframes: map<Pair, PairSettings>

    ghost predicate Valid()
      reads this
    {
      UniqueKeys(signals)
    }

    constructor (timeframes: map<Pair, PairSettings>)
      ensures Valid() && signals == [] && this.timeframes == timeframes
    {
      this.timeframes := timeframes;
      signals := [];
    }

    /** Stores the row and answers true, unless its key is taken; then nothing changes. */
    method SaveSignal(symbol: string, timeframe: string, timestamp: int, action: string, sentAt: int)
      returns (inserted: bool)
      requires Valid()
      modifies this`signals
      ensures Valid()
      ensures inserted <==> !Holds(old(signals), Key(Upper(symbol), timeframe, timestamp, action))
      ensures signals == old(signals) +
                         if inserted then [Row(Key(Upper(symbol), timeframe, timestamp, action), sentAt)] else []
      ensures signals == Insert(old(signals), Row(Key(Upper(symbol), timeframe, timestamp, action), sentAt))
    {
      var row := Row(Key(Upper(symbol), timeframe, timestamp, action), sentAt);
      inserted := !Holds(signals, row.key);
      if inserted {
        signals := signals + [row];
      }
    }

    predicate HasSignal(symbol: string, timeframe: string, timestamp: int, action: string)
      reads this
    {
      Holds(signals, Key(Upper(symbol), timeframe, timestamp, action))
    }
  }

  function SettingsOf(timeframes: map<Pair, PairSettings>, pair: Pair): PairSettings {
    if pair in timeframes then timeframes[pair] else DEFAULT_SETTINGS
  }
}
