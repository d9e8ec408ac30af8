/** The delivery rules: which computed signals are stored and which of them are sent, for one
    signal and over whole runs of passes. */
module DeliveryRules {
  import opened Wrappers
  import opened Symbols
  import opened SignalTable

  datatype Signal = Signal(symbol: string, timeframe: string, barTs: int, action: string,
                           strength: string, confidence: real)

  datatype BotConfig = BotConfig(quietHours: seq<int>, minStrength: string, minConfidence: real)

  /** Everything a decision reads besides the table of signals. */
  datatype Rules = Rules(config: BotConfig, timeframes: map<Pair, PairSettings>)

  datatype Reason = QuietHour | Cooldown(minutesLeft: int) | HourlyCap

  datatype Decision = Duplicate | Suppressed(reason: Reason) | Gated | Delivered

  /** One computed signal reaching the delivery rules. A manual pass has `auto` false;
      `written` says whether the database accepted the write. */
  datatype Event = Event(signal: Signal, now: int, auto: bool, written: bool)

  function KeyOf(s: Signal): Key {
    Key(Upper(s.symbol), s.timeframe, s.barTs, s.action)
  }

  // ---- the rules ----

  function UtcHour(ts: int): int {
    (ts / 3600) % 24
  }

  /** The position of a band in weakest-first order; None when it is not a band. */
  function BandIndex(band: string): Option<nat> {
    match band
    case "WEAK" => Some(0)
    case "MODERATE" => Some(1)
    case "STRONG" => Some(2)
    case _ => None
  }

  predicate PassesBroadcastGate(config: BotConfig, strength: string, confidence: real) {
    var threshold := BandIndex(Upper(config.minStrength));
    var band := BandIndex(Upper(strength));
    var bandOk := threshold.None? || (band.Some? && band.value >= threshold.value);
    bandOk || confidence >= config.minConfidence
  }

  /** Why an automatic pass must withhold this pair now. */
  function SuppressionReason(rules: Rules, rows: seq<Row>, pair: Pair, now: int): Option<Reason> {
    if UtcHour(now) in rules.config.quietHours then Some(QuietHour)
    else
      var settings := SettingsOf(rules.timeframes, pair);
      var cooldown := settings.cooldownMinutes;
      var last := LastTime(rows, pair);
      if last.Some? && cooldown > 0 && (now - last.value) as real / 60.0 < cooldown as real then
        Some(Cooldown((cooldown as real - (now - last.value) as real / 60.0).Floor))
      else if settings.maxPerHour > 0 && CountSince(rows, pair, now - 3600) >= settings.maxPerHour then Some(HourlyCap)
      else None
  }

  function Decide(rules: Rules, rows: seq<Row>, e: Event): Decision {
    if Holds(rows, KeyOf(e.signal)) then Duplicate
    else
      var reason := if e.auto then SuppressionReason(rules, rows, PairOf(KeyOf(e.signal)), e.now) else None;
      if reason.Some? then Suppressed(reason.value)
      else if PassesBroadcastGate(rules.config, e.signal.strength, e.signal.confidence) then Delivered
      else Gated
  }

  function After(rows: seq<Row>, e: Event): seq<Row> {
    if e.written then Insert(rows, Row(KeyOf(e.signal), e.now)) else rows
  }

  /** The table after a run of events. */
  function RowsAfter(rows: seq<Row>, es: seq<Event>): seq<Row> {
    if es == [] then rows else After(RowsAfter(rows, es[..|es| - 1]), es[|es| - 1])
  }

  function DecisionAt(rules: Rules, rows: seq<Row>, es: seq<Event>, k: nat): Decision
    requires k < |es|
  {
    Decide(rules, RowsAfter(rows, es[..k]), es[k])
  }

  // ---- one decision ----

  predicate IsBand(band: string) {
    band == "WEAK" || band == "MODERATE" || band == "STRONG"
  }

  /** The bands at or above a band. */
  predicate Reaches(band: string, floor: string) {
    match floor
    case "WEAK" => IsBand(band)
    case "MODERATE" => band == "MODERATE" || band == "STRONG"
    case "STRONG" => band == "STRONG"
    case _ => true
  }

  /** A signal passes exactly when it is confident enough or its band, in whatever case it is
      written, reaches the configured one; a configured band that is none lets everything pass. */
  lemma GateExactly(config: BotConfig, strength: string, confidence: real)
    ensures PassesBroadcastGate(config, strength, confidence) <==>
            confidence >= config.minConfidence || Reaches(Upper(strength), Upper(config.minStrength))
  {
    hide Upper;
  }

  /** The hour of the day, in UTC, that a moment falls in. */
  lemma HourExactly(t: int, hour: int)
    ensures UtcHour(t) == hour <==>
            0 <= hour < 24 && exists day :: 86400 * day + 3600 * hour <= t < 86400 * day + 3600 * (hour + 1)
  {
    var day := t / 3600 / 24;
    if UtcHour(t) == hour {
      assert 86400 * day + 3600 * hour <= t < 86400 * day + 3600 * (hour + 1);
    }
  }

  /** Which reason is given, the first that applies: the quiet hour; the cooldown, with the whole
      minutes that are left of it for the pair's newest bar; the hourly cap. */
  lemma ReasonExactly(rules: Rules, rows: seq<Row>, pair: Pair, now: int, newest: int)
    requires LastTime(rows, pair) == Some(newest)
    ensures var s := SettingsOf(rules.timeframes, pair);
            var left, quiet := 60 * s.cooldownMinutes - (now - newest), UtcHour(now) in rules.config.quietHours;
            match SuppressionReason(rules, rows, pair, now)
            case Some(QuietHour) => quiet
            case Some(Cooldown(m)) => !quiet && s.cooldownMinutes > 0 && left > 0 && 60 * m <= left < 60 * (m + 1)
            case Some(HourlyCap) =>
              && !quiet && (s.cooldownMinutes > 0 ==> left <= 0)
              && 0 < s.maxPerHour <= CountSince(rows, pair, now - 3600)
            case None => !quiet
  {
    hide CountSince, LastTime;
    var s := SettingsOf(rules.timeframes, pair);
    var age, cooldown := (now - newest) as real, s.cooldownMinutes as real;
    assert age / 60.0 < cooldown <==> now - newest < 60 * s.cooldownMinutes;
    var m := (cooldown - age / 60.0).Floor;
    assert m as real <= cooldown - age / 60.0 < m as real + 1.0;
    assert 60.0 * (m as real) <= 60.0 * cooldown - age < 60.0 * (m as real) + 60.0;
  }

  /** Every row of the pair is at least the cooldown older than now. */
  predicate Cooled(rows: seq<Row>, pair: Pair, now: int, cooldown: int) {
    forall i | 0 <= i < |rows| :: PairOf(rows[i].key) == pair ==> rows[i].key.timestamp <= now - 60 * cooldown
  }

  lemma SuppressedExactly(rules: Rules, rows: seq<Row>, pair: Pair, now: int)
    ensures SuppressionReason(rules, rows, pair, now).None? <==>
            && UtcHour(now) !in rules.config.quietHours
            && (var s := SettingsOf(rules.timeframes, pair);
                && (s.cooldownMinutes > 0 ==> Cooled(rows, pair, now, s.cooldownMinutes))
                && (s.maxPerHour > 0 ==> CountSince(rows, pair, now - 3600) < s.maxPerHour))
  {
    hide CountSince;
    LastTimeIsNewest(rows, pair);
    var last := LastTime(rows, pair);
    var cooldown := SettingsOf(rules.timeframes, pair).cooldownMinutes;
    if last.Some? {
      assert (now - last.value) as real / 60.0 < cooldown as real <==> now - last.value < 60 * cooldown;
    }
  }

  /** The exact condition for sending, and what stands behind each other answer. */
  lemma DeliveredExactly(rules: Rules, rows: seq<Row>, e: Event)
    ensures Decide(rules, rows, e).Duplicate? <==> exists i :: 0 <= i < |rows| && rows[i].key == KeyOf(e.signal)
    ensures Decide(rules, rows, e).Suppressed? ==>
              e.auto &&
              Some(Decide(rules, rows, e).reason) == SuppressionReason(rules, rows, PairOf(KeyOf(e.signal)), e.now)
    ensures Decide(rules, rows, e).Gated? ==>
              !PassesBroadcastGate(rules.config, e.signal.strength, e.signal.confidence)
    ensures Decide(rules, rows, e).Delivered? <==>
            && (forall i | 0 <= i < |rows| :: rows[i].key != KeyOf(e.signal))
            && PassesBroadcastGate(rules.config, e.signal.strength, e.signal.confidence)
            && (var pair := PairOf(KeyOf(e.signal));
                var s := SettingsOf(rules.timeframes, pair);
                e.auto ==>
                  && UtcHour(e.now) !in rules.config.quietHours
                  && (s.cooldownMinutes > 0 ==> Cooled(rows, pair, e.now, s.cooldownMinutes))
                  && (s.maxPerHour > 0 ==> CountSince(rows, pair, e.now - 3600) < s.maxPerHour))
  {
    hide SuppressionReason, CountSince, LastTime, PassesBroadcastGate, Cooled, SettingsOf, KeyOf, PairOf, UtcHour;
    SuppressedExactly(rules, rows, PairOf(KeyOf(e.signal)), e.now);
  }

  /** A pair's first signal never withholds itself outside quiet hours. */
  lemma FirstSignalNotSuppressed(rules: Rules, rows: seq<Row>, e: Event)
    requires forall i | 0 <= i < |rows| :: PairOf(rows[i].key) != PairOf(KeyOf(e.signal))
    requires UtcHour(e.now) !in rules.config.quietHours
    ensures Decide(rules, rows, e) == Delivered || Decide(rules, rows, e) == Gated
    ensures Decide(rules, rows, e) == Delivered <==>
            PassesBroadcastGate(rules.config, e.signal.strength, e.signal.confidence)
  {
    NoneCounted(rows, PairOf(KeyOf(e.signal)), e.now - 3600);
    SuppressedExactly(rules, rows, PairOf(KeyOf(e.signal)), e.now);
  }

  lemma {:induction false} NoneCounted(rows: seq<Row>, pair: Pair, since: int)
    requires forall i | 0 <= i < |rows| :: PairOf(rows[i].key) != pair
    ensures CountSince(rows, pair, since) == 0
  {
    if rows != [] {
      NoneCounted(rows[..|rows| - 1], pair, since);
    }
  }

  /** Only the global quiet hours are read. A pair's own are kept exactly when every hour of the
      day among them is a global one too. */
  lemma OwnQuietExactly(rules: Rules, pair: Pair)
    requires Upper(pair.symbol) == pair.symbol
    ensures OwnQuietKept(rules, pair) <==>
            forall q | q in SettingsOf(rules.timeframes, pair).quietHours && 0 <= q < 24 :: q in rules.config.quietHours
  {
    hide SuppressionReason, PassesBroadcastGate, Decide;
    var own := SettingsOf(rules.timeframes, pair).quietHours;
    if q :| q in own && 0 <= q < 24 && q !in rules.config.quietHours {
      var e := Event(Signal(pair.symbol, pair.timeframe, q * 3600, "BUY", "STRONG", 1.0), q * 3600, true, true);
      StrongPasses(rules.config, 1.0);
      FirstSignalNotSuppressed(rules, [], e);
      assert UtcHour(e.now) == q && PairOf(KeyOf(e.signal)) == pair;
    } else {
      forall rows: seq<Row>, e: Event | e.auto && PairOf(KeyOf(e.signal)) == pair && UtcHour(e.now) in own
        ensures !Decide(rules, rows, e).Delivered?
      {
        DeliveredExactly(rules, rows, e);
      }
    }
  }

  /** No automatic delivery of the pair falls in one of its own quiet hours, whatever is stored. */
  ghost predicate OwnQuietKept(rules: Rules, pair: Pair) {
    forall rows: seq<Row>, e: Event |
      e.auto && PairOf(KeyOf(e.signal)) == pair && UtcHour(e.now) in SettingsOf(rules.timeframes, pair).quietHours ::
      !Decide(rules, rows, e).Delivered?
  }

  lemma StrongPasses(config: BotConfig, confidence: real)
    ensures PassesBroadcastGate(config, "STRONG", confidence)
  {
    assert Upper("STRONG") == "STRONG";
  }

  /** Whether a repeat of a sent signal is sent again depends on the write alone: `record`
      swallows database errors, so an unrecorded signal goes out twice. */
  lemma SentAgainExactlyWhenUnrecorded(rules: Rules, rows: seq<Row>, e: Event)
    requires Decide(rules, rows, e).Delivered?
    ensures Decide(rules, After(rows, e), e).Delivered? <==> !e.written
  {
    if e.written {
      assert After(rows, e)[|rows|].key == KeyOf(e.signal);
    }
  }

  // ---- runs ----

  lemma AfterExtends(rows: seq<Row>, e: Event)
    ensures rows <= After(rows, e)
    ensures e.written ==> Holds(After(rows, e), KeyOf(e.signal))
    ensures forall key :: Holds(After(rows, e), key) <==> Holds(rows, key) || (e.written && key == KeyOf(e.signal))
  {
    var after := After(rows, e);
    assert forall i | 0 <= i < |rows| :: after[i] == rows[i];
    if e.written && !Holds(rows, KeyOf(e.signal)) {
      assert after[|rows|].key == KeyOf(e.signal);
    }
  }

  lemma {:induction false} UniqueKept(rows: seq<Row>, es: seq<Event>)
    requires UniqueKeys(rows)
    ensures UniqueKeys(RowsAfter(rows, es))
  {
    if es != [] {
      UniqueKept(rows, es[..|es| - 1]);
    }
  }

  /** The history is complete, whatever was withheld: a key is in the table exactly when it was
      there before or some recorded signal of the run carried it. */
  lemma {:induction false} HistoryComplete(rows: seq<Row>, es: seq<Event>, key: Key)
    ensures Holds(RowsAfter(rows, es), key) <==>
            Holds(rows, key) || exists j :: 0 <= j < |es| && es[j].written && KeyOf(es[j].signal) == key
  {
    if es != [] {
      var m := |es| - 1;
      var init := es[..m];
      HistoryComplete(rows, init, key);
      AfterExtends(RowsAfter(rows, init), es[m]);
      assert forall j | 0 <= j < m :: init[j] == es[j];
    }
  }

  /** A signal is sent at most once: nothing recorded earlier in the run, by an automatic or a
      manual pass, is ever sent again, and nothing that was in the table before is sent at all. */
  lemma SentAtMostOnce(rules: Rules, rows: seq<Row>, es: seq<Event>, k: nat)
    requires k < |es| && DecisionAt(rules, rows, es, k).Delivered?
    ensures !Holds(rows, KeyOf(es[k].signal))
    ensures forall j | 0 <= j < k :: es[j].written ==> KeyOf(es[j].signal) != KeyOf(es[k].signal)
  {
    var init := es[..k];
    HistoryComplete(rows, init, KeyOf(es[k].signal));
    forall j | 0 <= j < k && es[j].written
      ensures KeyOf(es[j].signal) != KeyOf(es[k].signal)
    {
      assert init[j] == es[j];
    }
  }

  lemma {:induction false} RowKept(rows: seq<Row>, es: seq<Event>, i: nat)
    requires i < |rows|
    ensures i < |RowsAfter(rows, es)| && RowsAfter(rows, es)[i] == rows[i]
  {
    if es != [] {
      RowKept(rows, es[..|es| - 1], i);
      AfterExtends(RowsAfter(rows, es[..|es| - 1]), es[|es| - 1]);
    }
  }

  /** An automatic delivery finds every earlier signal of its pair, sent or withheld, at least
      the cooldown older by its bar. */
  lemma CooldownRespected(rules: Rules, rows: seq<Row>, es: seq<Event>, k: nat)
    requires k < |es| && es[k].auto && DecisionAt(rules, rows, es, k).Delivered?
    requires SettingsOf(rules.timeframes, PairOf(KeyOf(es[k].signal))).cooldownMinutes > 0
    ensures var pair := PairOf(KeyOf(es[k].signal));
            var cooldown := SettingsOf(rules.timeframes, pair).cooldownMinutes;
            && Cooled(rows, pair, es[k].now, cooldown)
            && (forall j | 0 <= j < k ::
                  es[j].written && PairOf(KeyOf(es[j].signal)) == pair ==>
                    es[j].signal.barTs <= es[k].now - 60 * cooldown)
  {
    var pair := PairOf(KeyOf(es[k].signal));
    var cooldown := SettingsOf(rules.timeframes, pair).cooldownMinutes;
    var init := es[..k];
    var table := RowsAfter(rows, init);
    DeliveredExactly(rules, table, es[k]);
    assert Cooled(table, pair, es[k].now, cooldown);
    forall i | 0 <= i < |rows| && PairOf(rows[i].key) == pair
      ensures rows[i].key.timestamp <= es[k].now - 60 * cooldown
    {
      RowKept(rows, init, i);
      assert PairOf(table[i].key) == pair;
    }
    forall j | 0 <= j < k && es[j].written && PairOf(KeyOf(es[j].signal)) == pair
      ensures es[j].signal.barTs <= es[k].now - 60 * cooldown
    {
      assert init[j] == es[j];
      HistoryComplete(rows, init, KeyOf(es[j].signal));
      var i :| 0 <= i < |table| && table[i].key == KeyOf(es[j].signal);
      assert PairOf(table[i].key) == pair;
    }
  }

  // ---- how far apart deliveries are ----

  /** An automatic delivery comes a whole cooldown after the bar of any earlier recorded signal
      of its pair: so after the sending of it, a cooldown less the age its bar had by then. */
  lemma SpacingBound(rules: Rules, rows: seq<Row>, es: seq<Event>, j: nat, k: nat)
    requires j < k < |es| && es[j].written && es[k].auto && DecisionAt(rules, rows, es, k).Delivered?
    requires PairOf(KeyOf(es[j].signal)) == PairOf(KeyOf(es[k].signal))
    requires SettingsOf(rules.timeframes, PairOf(KeyOf(es[k].signal))).cooldownMinutes > 0
    ensures var cooldown := SettingsOf(rules.timeframes, PairOf(KeyOf(es[k].signal))).cooldownMinutes;
            es[k].now - es[j].now >= 60 * cooldown - (es[j].now - es[j].signal.barTs)
  {
    CooldownRespected(rules, rows, es, k);
  }

  /** From a table on, every automatic delivery of the pair at or after a time comes a whole
      cooldown after it, whatever events there are. */
  ghost predicate Spaced(rules: Rules, rows: seq<Row>, pair: Pair, sent: int) {
    forall later: seq<Event>, i: nat |
      i < |later| && later[i].auto && PairOf(KeyOf(later[i].signal)) == pair && later[i].now >= sent &&
      DecisionAt(rules, rows, later, i).Delivered? ::
      later[i].now >= sent + 60 * SettingsOf(rules.timeframes, pair).cooldownMinutes
  }

  /** A moment within a cooldown of a sending when a pass would not withhold the pair. */
  ghost predicate IsSlot(rules: Rules, rows: seq<Row>, pair: Pair, sent: int, t: int) {
    && sent <= t < sent + 60 * SettingsOf(rules.timeframes, pair).cooldownMinutes
    && SuppressionReason(rules, rows, pair, t).None?
  }

  lemma {:induction false} CountGrows(rows: seq<Row>, es: seq<Event>, pair: Pair, since: int)
    ensures CountSince(rows, pair, since) <= CountSince(RowsAfter(rows, es), pair, since)
  {
    if es != [] {
      var m := |es| - 1;
      var table := RowsAfter(rows, es[..m]);
      CountGrows(rows, es[..m], pair, since);
      CountSnoc(table, Row(KeyOf(es[m].signal), es[m].now), pair, since);
    }
  }

  /** More rows only withhold more. */
  lemma OpenEarlier(rules: Rules, rows: seq<Row>, es: seq<Event>, pair: Pair, t: int)
    requires SuppressionReason(rules, RowsAfter(rows, es), pair, t).None?
    ensures SuppressionReason(rules, rows, pair, t).None?
  {
    hide SuppressionReason, CountSince;
    var table := RowsAfter(rows, es);
    SuppressedExactly(rules, table, pair, t);
    SuppressedExactly(rules, rows, pair, t);
    CountGrows(rows, es, pair, t - 3600);
    var cooldown := SettingsOf(rules.timeframes, pair).cooldownMinutes;
    if Cooled(table, pair, t, cooldown) {
      forall i | 0 <= i < |rows| && PairOf(rows[i].key) == pair
        ensures rows[i].key.timestamp <= t - 60 * cooldown
      {
        RowKept(rows, es, i);
        assert PairOf(table[i].key) == pair;
      }
    }
  }

  /** Deliveries after an automatic one are a cooldown apart exactly when no such moment is
      left; a new bar at such a moment is sent. */
  lemma SpacedUnlessSlot(rules: Rules, before: seq<Row>, e: Event)
    requires e.auto && e.written && Decide(rules, before, e).Delivered?
    requires SettingsOf(rules.timeframes, PairOf(KeyOf(e.signal))).cooldownMinutes > 0
    ensures var pair := PairOf(KeyOf(e.signal));
            Spaced(rules, After(before, e), pair, e.now) <==>
            forall t :: !IsSlot(rules, After(before, e), pair, e.now, t)
  {
    hide Decide, SuppressionReason, After;
    var pair, rows := PairOf(KeyOf(e.signal)), After(before, e);
    if later: seq<Event>, i: nat :|
      i < |later| && later[i].auto && PairOf(KeyOf(later[i].signal)) == pair && later[i].now >= e.now &&
      DecisionAt(rules, rows, later, i).Delivered? &&
      later[i].now < e.now + 60 * SettingsOf(rules.timeframes, pair).cooldownMinutes
    {
      DeliveredUnsuppressed(rules, RowsAfter(rows, later[..i]), later[i]);
      OpenEarlier(rules, rows, later[..i], pair, later[i].now);
      assert IsSlot(rules, rows, pair, e.now, later[i].now);
    }
    if t :| IsSlot(rules, rows, pair, e.now, t) {
      var next := NewBar(rules, before, e, t);
      assert DecisionAt(rules, rows, [next], 0).Delivered?;
    }
  }

  lemma DeliveredUnsuppressed(rules: Rules, rows: seq<Row>, e: Event)
    requires e.auto && Decide(rules, rows, e).Delivered?
    ensures SuppressionReason(rules, rows, PairOf(KeyOf(e.signal)), e.now).None?
  {
  }

  /** A signal like one just sent, on a bar that closes at an open moment, is sent. */
  lemma NewBar(rules: Rules, before: seq<Row>, e: Event, t: int) returns (next: Event)
    requires e.auto && e.written && Decide(rules, before, e).Delivered?
    requires SettingsOf(rules.timeframes, PairOf(KeyOf(e.signal))).cooldownMinutes > 0
    requires IsSlot(rules, After(before, e), PairOf(KeyOf(e.signal)), e.now, t)
    ensures next.auto && next.now == t && PairOf(KeyOf(next.signal)) == PairOf(KeyOf(e.signal))
    ensures DecisionAt(rules, After(before, e), [next], 0).Delivered?
  {
    hide SuppressionReason, CountSince, PassesBroadcastGate, After;
    var rows, pair := After(before, e), PairOf(KeyOf(e.signal));
    next := Event(e.signal.(barTs := t), t, true, true);
    SuppressedExactly(rules, rows, pair, t);
    assert [next][..0] == [];
    assert RowsAfter(rows, []) == rows;
    forall i | 0 <= i < |rows|
      ensures rows[i].key != KeyOf(next.signal)
    {
      if PairOf(rows[i].key) == pair {
        assert rows[i].key.timestamp < t;
      }
    }
    assert Decide(rules, rows, next).Delivered?;
  }

  /** Spacing, in terms of the delivery itself. When neither quiet hours nor the cap step in
      during the cooldown, the next deliveries keep the distance exactly when this one was
      not sent later than its own bar. */
  lemma SpacedExactlyWhenPrompt(rules: Rules, before: seq<Row>, e: Event)
    requires e.auto && e.written && Decide(rules, before, e).Delivered?
    requires var s := SettingsOf(rules.timeframes, PairOf(KeyOf(e.signal))); s.cooldownMinutes > 0
    ensures var pair := PairOf(KeyOf(e.signal));
            e.now <= e.signal.barTs ==> Spaced(rules, After(before, e), pair, e.now)
    ensures var pair := PairOf(KeyOf(e.signal));
            Undisturbed(rules, After(before, e), pair, e.now) ==>
              (Spaced(rules, After(before, e), pair, e.now) <==> e.now <= e.signal.barTs)
  {
    hide Decide, SuppressionReason, Spaced, After;
    var rows, pair := After(before, e), PairOf(KeyOf(e.signal));
    var cooldown := SettingsOf(rules.timeframes, pair).cooldownMinutes;
    SpacedUnlessSlot(rules, before, e);
    AfterCooled(rules, before, e);
    if e.now <= e.signal.barTs {
      forall t
        ensures !IsSlot(rules, rows, pair, e.now, t)
      {
        SuppressedExactly(rules, rows, pair, t);
      }
    } else if Undisturbed(rules, rows, pair, e.now) {
      var newest := if e.signal.barTs > e.now - 60 * cooldown then e.signal.barTs else e.now - 60 * cooldown;
      var t := newest + 60 * cooldown;
      SuppressedExactly(rules, rows, pair, t);
      CountMonotone(rows, pair, e.now - 3600, t - 3600);
      assert Cooled(rows, pair, t, cooldown);
      assert IsSlot(rules, rows, pair, e.now, t);
    }
  }

  /** No quiet hour touches the cooldown after a sending, and the cap has room for one more. */
  ghost predicate Undisturbed(rules: Rules, rows: seq<Row>, pair: Pair, sent: int) {
    var s := SettingsOf(rules.timeframes, pair);
    && (forall t | sent <= t < sent + 60 * s.cooldownMinutes :: UtcHour(t) !in rules.config.quietHours)
    && (s.maxPerHour > 0 ==> CountSince(rows, pair, sent - 3600) < s.maxPerHour)
  }

  /** After a delivery the pair's bars are its own and others a cooldown older than the sending. */
  lemma AfterCooled(rules: Rules, before: seq<Row>, e: Event)
    requires e.auto && e.written && Decide(rules, before, e).Delivered?
    requires SettingsOf(rules.timeframes, PairOf(KeyOf(e.signal))).cooldownMinutes > 0
    ensures var pair, rows := PairOf(KeyOf(e.signal)), After(before, e);
            var cooldown := SettingsOf(rules.timeframes, pair).cooldownMinutes;
            && (exists i :: 0 <= i < |rows| && PairOf(rows[i].key) == pair && rows[i].key.timestamp == e.signal.barTs)
            && forall i | 0 <= i < |rows| :: PairOf(rows[i].key) == pair ==>
                 rows[i].key.timestamp == e.signal.barTs || rows[i].key.timestamp <= e.now - 60 * cooldown
  {
    hide SuppressionReason, PassesBroadcastGate, CountSince, Holds;
    DeliveredExactly(rules, before, e);
    NewRow(rules, before, e);
    var pair, rows := PairOf(KeyOf(e.signal)), After(before, e);
    assert PairOf(rows[|before|].key) == pair && rows[|before|].key.timestamp == e.signal.barTs;
    assert forall i | 0 <= i < |before| :: rows[i] == before[i];
  }

  lemma NewRow(rules: Rules, before: seq<Row>, e: Event)
    requires e.written && Decide(rules, before, e).Delivered?
    ensures After(before, e) == before + [Row(KeyOf(e.signal), e.now)]
  {
  }

  /** The configuration the bot starts with on a quarter-hour pair. */
  const FIRST_RUN := Rules(BotConfig([22, 23, 0, 1, 2], "MODERATE", 0.4),
                           map[Pair("XAUUSD", "15m") := PairSettings(45, 4, [22, 23, 0, 1, 2])])

  /** So a feed that is one bar late breaks the spacing. The quarter-hour pass at 12:15 still sees
      the bar of 12:00 and sends it; the pass at 12:30 finds no signal; the pass at 12:45 sends
      again, half an hour after the first and within the cooldown of 45 minutes. */
  lemma LateBarBreaksSpacing()
    ensures var e := Event(Signal("XAUUSD", "15m", 43200, "BUY", "MODERATE", 0.65), 44100, true, true);
            var next := Event(Signal("XAUUSD", "15m", 45900, "SELL", "MODERATE", 0.65), 45900, true, true);
            && DecisionAt(FIRST_RUN, [], [e, next], 0).Delivered?
            && DecisionAt(FIRST_RUN, [], [e, next], 1).Delivered?
            && next.now - e.now == 30 * 60 < 45 * 60
  {
    var e := Event(Signal("XAUUSD", "15m", 43200, "BUY", "MODERATE", 0.65), 44100, true, true);
    var next := Event(Signal("XAUUSD", "15m", 45900, "SELL", "MODERATE", 0.65), 45900, true, true);
    TickerUpper();
    hide Upper, SuppressionReason, Decide, CountSince;
    var es, pair := [e, next], Pair("XAUUSD", "15m");
    assert es[..0] == [];
    FirstSignalNotSuppressed(FIRST_RUN, [], e);
    var row := Row(KeyOf(e.signal), e.now);
    FirstRow(es, row);
    OneCounted(row, pair, next.now - 3600);
    DeliveredExactly(FIRST_RUN, [row], next);
  }

  lemma TickerUpper()
    ensures Upper("XAUUSD") == "XAUUSD" && Upper("MODERATE") == "MODERATE"
  {
  }

  lemma OneCounted(row: Row, pair: Pair, since: int)
    ensures CountSince([row], pair, since) <= 1
  {
    assert [] + [row] == [row];
    CountSnoc([], row, pair, since);
  }

  lemma FirstRow(es: seq<Event>, row: Row)
    requires |es| >= 1 && es[0].written && row == Row(KeyOf(es[0].signal), es[0].now)
    ensures RowsAfter([], es[..1]) == [row]
  {
    assert es[..1][..0] == [];
    assert !Holds([], row.key);
  }

  // ---- how many deliveries an hour ----

  /** How many recorded automatic deliveries of a pair fall in the closed interval [a, b]. */
  ghost function SentWithin(rules: Rules, rows: seq<Row>, es: seq<Event>, pair: Pair, a: int, b: int): nat {
    if es == [] then 0
    else
      var m := |es| - 1;
      SentWithin(rules, rows, es[..m], pair, a, b) +
      if es[m].auto && es[m].written && PairOf(KeyOf(es[m].signal)) == pair && a <= es[m].now <= b &&
         Decide(rules, RowsAfter(rows, es[..m]), es[m]).Delivered? then 1 else 0
  }

  /** Every recorded delivery leaves a row that the hourly count sees. */
  lemma {:induction false} SentAreCounted(rules: Rules, rows: seq<Row>, es: seq<Event>, pair: Pair, a: int, b: int)
    ensures SentWithin(rules, rows, es, pair, a, b) <= CountSince(RowsAfter(rows, es), pair, a)
  {
    if es != [] {
      var m := |es| - 1;
      var init, e := es[..m], es[m];
      SentAreCounted(rules, rows, init, pair, a, b);
      CountSnoc(RowsAfter(rows, init), Row(KeyOf(e.signal), e.now), pair, a);
    }
  }

  /** In no closed hour does a pair get more automatic deliveries than its cap, those apart
      whose write failed. Passes may overlap, be manual or carry clocks in any order. */
  lemma {:induction false} HourlyCapRespected(rules: Rules, rows: seq<Row>, es: seq<Event>, pair: Pair, t: int)
    requires SettingsOf(rules.timeframes, pair).maxPerHour > 0
    ensures SentWithin(rules, rows, es, pair, t - 3600, t) <= SettingsOf(rules.timeframes, pair).maxPerHour
  {
    if es != [] {
      var m := |es| - 1;
      var init, e := es[..m], es[m];
      var table := RowsAfter(rows, init);
      HourlyCapRespected(rules, rows, init, pair, t);
      if e.auto && PairOf(KeyOf(e.signal)) == pair && t - 3600 <= e.now <= t && Decide(rules, table, e).Delivered? {
        DeliveredExactly(rules, table, e);
        SentAreCounted(rules, rows, init, pair, t - 3600, t);
        CountMonotone(table, pair, e.now - 3600, t - 3600);
      }
    }
  }
}
