/** The scheduled pass over all pairs, and what it reports. While a pass waits for a pair's bars,
    other passes store signals in the same table. */
module Scanner {
  import opened Wrappers
  import opened SignalTable
  import opened DeliveryRules

  /** What fetching and computing one pair came to. */
  datatype Reading = Unavailable(text: string) | NoSignal | Found(signal: Signal, written: bool)

  datatype ScanResult = ScanResult(computed: seq<Signal>, delivered: seq<Signal>, stored: seq<Signal>,
                                   suppressed: map<Pair, Reason>, gated: set<Pair>, errors: map<Pair, string>)

  const NOTHING_YET := ScanResult([], [], [], map[], {}, map[])

  predicate IsDelivered(d: Decision) {
    d.Delivered?
  }

  predicate IsNew(d: Decision) {
    !d.Duplicate?
  }

  predicate IsAny(d: Decision) {
    true
  }

  /** A pass: the table it begins with, what it reads pair by pair, and the events of other
      passes during its wait for each pair. */
  datatype Pass = Pass(rules: Rules, rows: seq<Row>, readings: seq<Reading>, others: nat -> seq<Event>,
                       now: int, auto: bool)
  {
    /** The pass's own event for a pair, if it has a signal. */
    function Own(i: nat): seq<Event>
      requires i < |readings|
    {
      match readings[i]
      case Found(signal, written) => [Event(signal, now, auto, written)]
      case _ => []
    }

    /** All events, of this pass and of others, until n pairs are done. */
    function Events(n: nat): seq<Event>
      requires n <= |readings|
    {
      if n == 0 then [] else Events(n - 1) + others(n - 1) + Own(n - 1)
    }

    /** The table as pair i finds it. */
    function TableFor(i: nat): seq<Row>
      requires i < |readings|
    {
      RowsAfter(rows, Events(i) + others(i))
    }

    function DecisionFor(i: nat): Option<Decision>
      requires i < |readings|
    {
      if Own(i) == [] then None else Some(Decide(rules, TableFor(i), Own(i)[0]))
    }

    /** The pass's own signals among the first n pairs whose decision satisfies a test, in order. */
    function Picked(n: nat, test: Decision -> bool): seq<Signal>
      requires n <= |readings|
    {
      if n == 0 then []
      else
        var d := DecisionFor(n - 1);
        Picked(n - 1, test) + if d.Some? && test(d.value) then [Own(n - 1)[0].signal] else []
    }
  }

  /** The result with one more decided signal entered in it. */
  function Entered(before: ScanResult, pair: Pair, signal: Signal, d: Decision): ScanResult {
    ScanResult(before.computed + [signal],
               before.delivered + (if IsDelivered(d) then [signal] else []),
               before.stored + (if IsNew(d) then [signal] else []),
               if d.Suppressed? then before.suppressed[pair := d.reason] else before.suppressed,
               if d.Gated? then before.gated + {pair} else before.gated,
               before.errors)
  }

  /** The result after pair i. */
  ghost function NextResult(pass: Pass, i: nat, pair: Pair, before: ScanResult): ScanResult
    requires i < |pass.readings|
  {
    match pass.readings[i]
    case Unavailable(text) => before.(errors := before.errors[pair := text])
    case NoSignal => before
    case Found(signal, _) => Entered(before, pair, signal, pass.DecisionFor(i).value)
  }

  /** What the result says about one pair: the text of a failed fetch, the reason of a withheld
      signal, the fact of a gated one, and nothing else. */
  ghost predicate EntryIs(pass: Pass, i: nat, pair: Pair, result: ScanResult)
    requires i < |pass.readings|
  {
    var reading, d := pass.readings[i], pass.DecisionFor(i);
    && (reading.Unavailable? <==> pair in result.errors)
    && (reading.Unavailable? ==> result.errors[pair] == reading.text)
    && (d.Some? && d.value.Suppressed? <==> pair in result.suppressed)
    && (d.Some? && d.value.Suppressed? ==> result.suppressed[pair] == d.value.reason)
    && (d.Some? && d.value.Gated? <==> pair in result.gated)
  }

  class Scanner {
    const db: Database
    const config: BotConfig

    constructor (db: Database, config: BotConfig)
      ensures this.db == db && this.config == config
    {
      this.db, this.config := db, config;
    }

    function RulesNow(): Rules {
      Rules(config, db.timeframes)
    }

    /** Writes a signal, ignoring a duplicate and swallowing a database error. */
    method Record(signal: Signal, now: int, written: bool)
      requires db.Valid()
      modifies db`signals
      ensures db.Valid() && db.signals == After(old(db.signals), Event(signal, now, false, written))
    {
      if written {
        var inserted := db.SaveSignal(signal.symbol, signal.timeframe, signal.barTs, signal.action, now);
      }
    }

    /** Handles one computed signal; only its own pair's entries change. */
    method Process(pair: Pair, signal: Signal, written: bool, now: int, auto: bool, soFar: ScanResult)
      returns (result: ScanResult)
      requires db.Valid()
      modifies db`signals
      ensures db.Valid() && db.signals == After(old(db.signals), Event(signal, now, auto, written))
      ensures var d := Decide(RulesNow(), old(db.signals), Event(signal, now, auto, written));
              result == Entered(soFar, pair, signal, d)
    {
      hide SuppressionReason, Holds, PassesBroadcastGate;
      result := soFar.(computed := soFar.computed + [signal]);
      var seen := db.HasSignal(signal.symbol, signal.timeframe, signal.barTs, signal.action);
      SeenUnchanged(db.signals, signal, now, auto, written);
      if !seen {
        var reason := None;
        if auto {
          reason := SuppressionReason(RulesNow(), db.signals, PairOf(KeyOf(signal)), now);
        }
        Record(signal, now, written);
        result := result.(stored := result.stored + [signal]);
        if reason.Some? {
          result := result.(suppressed := result.suppressed[pair := reason.value]);
        } else if !PassesBroadcastGate(config, signal.strength, signal.confidence) {
          result := result.(gated := result.gated + {pair});
        } else {
          result := result.(delivered := result.delivered + [signal]);
        }
      }
    }

    /** Other passes store their signals while this one waits. */
    method Meanwhile(es: seq<Event>)
      requires db.Valid()
      modifies db`signals
      ensures db.Valid() && db.signals == RowsAfter(old(db.signals), es)
    {
      UniqueKept(db.signals, es);
      db.signals := RowsAfter(db.signals, es);
    }

    /** Waits for the bars of pair n, and handles what they give. */
    method ScanPair(ghost pass: Pass, pair: Pair, reading: Reading, others: seq<Event>, now: int, auto: bool, n: nat,
                    before: ScanResult) returns (result: ScanResult)
      requires db.Valid() && n < |pass.readings| && pass.rules == RulesNow()
      requires reading == pass.readings[n] && others == pass.others(n) && now == pass.now && auto == pass.auto
      requires db.signals == RowsAfter(pass.rows, pass.Events(n))
      modifies db`signals
      ensures db.Valid() && db.signals == RowsAfter(pass.rows, pass.Events(n + 1))
      ensures result == NextResult(pass, n, pair, before)
    {
      hide Decide, After, RowsAfter, Entered, UniqueKeys;
      Meanwhile(others);
      PairSteps(pass, n);
      match reading
      case Unavailable(text) =>
        result := before.(errors := before.errors[pair := text]);
      case NoSignal =>
        result := before;
      case Found(signal, written) =>
        result := Process(pair, signal, written, now, auto, before);
    }

    /** One pass over the pairs, whatever other passes do during its waits. The table is that of
        all events in order; the lists of the result are this pass's signals by their decisions;
        every new signal is accounted for exactly once, and every pair has its own entry. */
    method Scan(pairs: seq<Pair>, readings: seq<Reading>, others: nat -> seq<Event>, now: int, auto: bool)
      returns (result: ScanResult)
      requires db.Valid() && |pairs| == |readings|
      requires forall i, j | 0 <= i < j < |pairs| :: pairs[i] != pairs[j]
      modifies db`signals
      ensures var pass, n := Pass(RulesNow(), old(db.signals), readings, others, now, auto), |pairs|;
              && db.Valid() && db.signals == RowsAfter(old(db.signals), pass.Events(n))
              && result.computed == pass.Picked(n, IsAny)
              && result.stored == pass.Picked(n, IsNew)
              && result.delivered == pass.Picked(n, IsDelivered)
              && forall i | 0 <= i < n :: EntryIs(pass, i, pairs[i], result)
      ensures |result.stored| == |result.delivered| + |result.suppressed| + |result.gated|
      ensures !auto ==> result.suppressed == map[]
      ensures result.suppressed.Keys + result.gated + result.errors.Keys <= (set pair | pair in pairs)
    {
      hide Pass.Events, Pass.Picked, Pass.DecisionFor, RowsAfter, Tallied, Lists, EntryIs, NextResult, UniqueKeys;
      ghost var pass := Pass(RulesNow(), db.signals, readings, others, now, auto);
      result := NOTHING_YET;
      var n := 0;
      Beginning(pass, pairs);
      while n < |pairs|
        invariant 0 <= n <= |pairs| && db.Valid()
        invariant db.signals == RowsAfter(pass.rows, pass.Events(n))
        invariant Tallied(pairs, n, auto, result) && Lists(pass, n, result)
        invariant forall i | 0 <= i < n :: EntryIs(pass, i, pairs[i], result)
        decreases |pairs| - n
      {
        NextKept(pass, pairs, n, result);
        result := ScanPair(pass, pairs[n], readings[n], others(n), now, auto, n, result);
        n := n + 1;
      }
      TalliedKeys(pairs, auto, result);
      ListsMeaning(pass, n, result);
    }
  }

  lemma SeenUnchanged(rows: seq<Row>, signal: Signal, now: int, auto: bool, written: bool)
    ensures Holds(rows, KeyOf(signal)) ==> After(rows, Event(signal, now, auto, written)) == rows
  {
  }

  lemma {:induction false} RunJoin(rows: seq<Row>, a: seq<Event>, b: seq<Event>)
    ensures RowsAfter(rows, a + b) == RowsAfter(RowsAfter(rows, a), b)
    decreases |b|
  {
    if b == [] {
      assert a + b == a;
    } else {
      assert (a + b)[..|a + b| - 1] == a + b[..|b| - 1];
      RunJoin(rows, a, b[..|b| - 1]);
    }
  }

  /** How the table moves while pair n is waited for and handled. */
  lemma PairSteps(pass: Pass, n: nat)
    requires n < |pass.readings|
    ensures pass.TableFor(n) == RowsAfter(RowsAfter(pass.rows, pass.Events(n)), pass.others(n))
    ensures RowsAfter(pass.rows, pass.Events(n + 1)) ==
            if pass.Own(n) == [] then pass.TableFor(n) else After(pass.TableFor(n), pass.Own(n)[0])
  {
    hide After;
    var all := pass.Events(n) + pass.others(n);
    RunJoin(pass.rows, pass.Events(n), pass.others(n));
    if pass.Own(n) == [] {
      assert all + pass.Own(n) == all;
    } else {
      assert (all + pass.Own(n))[..|all|] == all;
    }
  }

  /** Every own event of a pass stands somewhere in the run of all events, and is decided there as
      it is in the pass: so what holds of runs holds of passes that overlap. */
  lemma OwnEventInRun(pass: Pass, i: nat, n: nat) returns (k: nat)
    requires i < n <= |pass.readings| && pass.Own(i) != []
    ensures k < |pass.Events(n)| && pass.Events(n)[k] == pass.Own(i)[0]
    ensures pass.DecisionFor(i) == Some(DecisionAt(pass.rules, pass.rows, pass.Events(n), k))
  {
    hide Decide, RowsAfter;
    var all := pass.Events(i) + pass.others(i);
    k := |all|;
    EventsGrow(pass, i + 1, n);
    assert pass.Events(i + 1) == all + pass.Own(i);
    assert pass.Events(n)[..k] == pass.Events(i + 1)[..k] == all;
  }

  lemma {:induction false} EventsGrow(pass: Pass, i: nat, n: nat)
    requires i <= n <= |pass.readings|
    ensures pass.Events(i) <= pass.Events(n)
  {
    if i < n {
      EventsGrow(pass, i, n - 1);
    }
  }

  // ---- the report ----

  /** The lists of a result are the signals of the first n pairs by their decisions. */
  ghost predicate Lists(pass: Pass, n: nat, result: ScanResult)
    requires n <= |pass.readings|
  {
    && result.computed == pass.Picked(n, IsAny)
    && result.stored == pass.Picked(n, IsNew)
    && result.delivered == pass.Picked(n, IsDelivered)
  }

  lemma ListsMeaning(pass: Pass, n: nat, result: ScanResult)
    requires n <= |pass.readings| && Lists(pass, n, result)
    ensures result.computed == pass.Picked(n, IsAny)
    ensures result.stored == pass.Picked(n, IsNew)
    ensures result.delivered == pass.Picked(n, IsDelivered)
  {
  }

  ghost predicate EarlierPair(pairs: seq<Pair>, n: nat, pair: Pair)
    requires n <= |pairs|
  {
    exists i :: 0 <= i < n && pairs[i] == pair
  }

  /** Only the first n pairs have entries, and every new signal has exactly one. */
  ghost predicate Tallied(pairs: seq<Pair>, n: nat, auto: bool, result: ScanResult)
    requires n <= |pairs|
  {
    && (forall pair | pair in result.suppressed || pair in result.gated || pair in result.errors ::
          EarlierPair(pairs, n, pair))
    && |result.stored| == |result.delivered| + |result.suppressed| + |result.gated|
    && (!auto ==> result.suppressed == map[])
  }

  lemma Beginning(pass: Pass, pairs: seq<Pair>)
    ensures RowsAfter(pass.rows, pass.Events(0)) == pass.rows
    ensures Tallied(pairs, 0, pass.auto, NOTHING_YET) && Lists(pass, 0, NOTHING_YET)
  {
  }

  lemma TalliedKeys(pairs: seq<Pair>, auto: bool, result: ScanResult)
    requires Tallied(pairs, |pairs|, auto, result)
    ensures |result.stored| == |result.delivered| + |result.suppressed| + |result.gated|
    ensures !auto ==> result.suppressed == map[]
    ensures result.suppressed.Keys + result.gated + result.errors.Keys <= (set pair | pair in pairs)
  {
    forall pair | pair in result.suppressed || pair in result.gated || pair in result.errors
      ensures pair in pairs
    {
      assert EarlierPair(pairs, |pairs|, pair);
    }
  }

  /** What one more pair keeps of the report. */
  lemma NextKept(pass: Pass, pairs: seq<Pair>, n: nat, before: ScanResult)
    requires n < |pairs| == |pass.readings|
    requires forall i, j | 0 <= i < j < |pairs| :: pairs[i] != pairs[j]
    requires Tallied(pairs, n, pass.auto, before) && Lists(pass, n, before)
    requires forall i | 0 <= i < n :: EntryIs(pass, i, pairs[i], before)
    ensures var after := NextResult(pass, n, pairs[n], before);
            && Tallied(pairs, n + 1, pass.auto, after) && Lists(pass, n + 1, after)
            && forall i | 0 <= i < n + 1 :: EntryIs(pass, i, pairs[i], after)
  {
    hide Tallied, Lists, EntryIs, NextResult;
    FreshPair(pairs, n, pass.auto, before);
    TalliedNext(pass, pairs, n, before);
    ListsNext(pass, n, pairs[n], before);
    FreshEntry(pass, n, pairs[n], before);
    forall i | 0 <= i < n
      ensures EntryIs(pass, i, pairs[i], NextResult(pass, n, pairs[n], before))
    {
      OtherEntry(pass, i, pairs[i], n, pairs[n], before);
    }
  }

  /** A pair met for the first time has no entry yet. */
  lemma FreshPair(pairs: seq<Pair>, n: nat, auto: bool, result: ScanResult)
    requires n < |pairs| && Tallied(pairs, n, auto, result)
    requires forall i, j | 0 <= i < j < |pairs| :: pairs[i] != pairs[j]
    ensures pairs[n] !in result.suppressed && pairs[n] !in result.gated && pairs[n] !in result.errors
  {
  }

  lemma ListsNext(pass: Pass, n: nat, pair: Pair, before: ScanResult)
    requires n < |pass.readings| && Lists(pass, n, before)
    ensures Lists(pass, n + 1, NextResult(pass, n, pair, before))
  {
    hide Decide, Pass.TableFor;
  }

  lemma FreshEntry(pass: Pass, n: nat, pair: Pair, before: ScanResult)
    requires n < |pass.readings|
    requires pair !in before.suppressed && pair !in before.gated && pair !in before.errors
    ensures EntryIs(pass, n, pair, NextResult(pass, n, pair, before))
  {
    hide Decide, Pass.TableFor;
  }

  lemma OtherEntry(pass: Pass, i: nat, pair: Pair, n: nat, pair': Pair, before: ScanResult)
    requires i < |pass.readings| && n < |pass.readings| && pair != pair' && EntryIs(pass, i, pair, before)
    ensures EntryIs(pass, i, pair, NextResult(pass, n, pair', before))
  {
    hide Pass.DecisionFor;
  }

  lemma ManualUnsuppressed(pass: Pass, n: nat)
    requires n < |pass.readings| && !pass.auto && pass.DecisionFor(n).Some?
    ensures !pass.DecisionFor(n).value.Suppressed?
  {
  }

  lemma EarlierGrows(pairs: seq<Pair>, n: nat)
    requires n < |pairs|
    ensures forall pair | EarlierPair(pairs, n, pair) :: EarlierPair(pairs, n + 1, pair)
    ensures EarlierPair(pairs, n + 1, pairs[n])
  {
  }

  lemma TalliedNext(pass: Pass, pairs: seq<Pair>, n: nat, before: ScanResult)
    requires n < |pairs| == |pass.readings| && Tallied(pairs, n, pass.auto, before)
    requires pairs[n] !in before.suppressed && pairs[n] !in before.gated
    ensures Tallied(pairs, n + 1, pass.auto, NextResult(pass, n, pairs[n], before))
  {
    hide Tallied, Entered, Pass.DecisionFor;
    match pass.readings[n]
    case Unavailable(text) =>
      TalliedError(pairs, n, pass.auto, before, text);
    case NoSignal =>
      TalliedMore(pairs, n, pass.auto, before);
    case Found(signal, _) =>
      OwnDecided(pass, n);
      TalliedEntered(pairs, n, pass.auto, before, signal, pass.DecisionFor(n).value);
  }

  lemma OwnDecided(pass: Pass, n: nat)
    requires n < |pass.readings| && pass.readings[n].Found?
    ensures pass.DecisionFor(n).Some? && (!pass.auto ==> !pass.DecisionFor(n).value.Suppressed?)
  {
    hide Pass.TableFor;
    if !pass.auto {
      ManualUnsuppressed(pass, n);
    }
  }

  lemma TalliedMore(pairs: seq<Pair>, n: nat, auto: bool, before: ScanResult)
    requires n < |pairs| && Tallied(pairs, n, auto, before)
    ensures Tallied(pairs, n + 1, auto, before)
  {
    hide EarlierPair;
    EarlierGrows(pairs, n);
  }

  lemma TalliedError(pairs: seq<Pair>, n: nat, auto: bool, before: ScanResult, text: string)
    requires n < |pairs| && Tallied(pairs, n, auto, before)
    ensures Tallied(pairs, n + 1, auto, before.(errors := before.errors[pairs[n] := text]))
  {
    hide EarlierPair;
    EarlierGrows(pairs, n);
  }

  lemma TalliedEntered(pairs: seq<Pair>, n: nat, auto: bool, before: ScanResult, signal: Signal, d: Decision)
    requires n < |pairs| && Tallied(pairs, n, auto, before)
    requires pairs[n] !in before.suppressed && pairs[n] !in before.gated
    requires !auto ==> !d.Suppressed?
    ensures Tallied(pairs, n + 1, auto, Entered(before, pairs[n], signal, d))
  {
    hide EarlierPair;
    EarlierGrows(pairs, n);
    OneEntryMore(before, pairs[n], signal, d);
  }

  lemma OneEntryMore(before: ScanResult, pair: Pair, signal: Signal, d: Decision)
    requires pair !in before.suppressed && pair !in before.gated
    ensures var after := Entered(before, pair, signal, d);
            |after.delivered| + |after.suppressed| + |after.gated| - |after.stored| ==
            |before.delivered| + |before.suppressed| + |before.gated| - |before.stored|
  {
  }
}
