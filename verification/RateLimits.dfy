/** The sliding-window command limiter. Its event table is pruned on every call, and it
    still decides as a log that is never pruned would. */
module RateLimits {
  import opened Wrappers
  import opened Counting

  type UserId = int

  datatype Use = Use(user: UserId, command: string, time: int)

  const RATE_WINDOW_SECONDS: nat := 60

  const DEFAULT_RATE_LIMIT: int := 30

  /** Per-minute limits by command name. */
  function RateLimitFor(command: string): (limit: int)
    ensures limit >= 1
  {
    match command
    case "agenza-xauusd" => 1
    case "agenza-btcusd" => 1
    case "status" => 10
    case "performance" => 5
    case "confluence" => 5
    case "orderflow" => 5
    case "start" => 30
    case "help" => 30
    case _ => DEFAULT_RATE_LIMIT
  }

  /** How often a user ran a command at or after a time. */
  function UsesSince(log: seq<Use>, user: UserId, command: string, since: int): nat {
    if log == [] then 0
    else
      var u := log[|log| - 1];
      UsesSince(log[..|log| - 1], user, command, since) +
      if u.user == user && u.command == command && u.time >= since then 1 else 0
  }

  /** How often a user ran a command in the closed interval [a, b]. */
  function UsesWithin(log: seq<Use>, user: UserId, command: string, a: int, b: int): nat {
    if log == [] then 0
    else
      var u := log[|log| - 1];
      UsesWithin(log[..|log| - 1], user, command, a, b) +
      if u.user == user && u.command == command && a <= u.time <= b then 1 else 0
  }

  predicate IsUse(u: Use, user: UserId, command: string, a: int, b: int) {
    u.user == user && u.command == command && a <= u.time <= b
  }

  /** The uses counted are those of this user and command in the interval, each once. */
  lemma {:induction false} UsesAreCounted(log: seq<Use>, user: UserId, command: string, a: int, b: int)
    ensures UsesWithin(log, user, command, a, b) == |set i | 0 <= i < |log| && IsUse(log[i], user, command, a, b)|
  {
    if log != [] {
      var m := |log| - 1;
      var init := log[..m];
      UsesAreCounted(init, user, command, a, b);
      assert IsUse(log[m], user, command, a, b) <==>
             log[m].user == user && log[m].command == command && a <= log[m].time <= b;
      hide IsUse;
      var few := set i | 0 <= i < m && IsUse(init[i], user, command, a, b);
      var all := set i | 0 <= i < |log| && IsUse(log[i], user, command, a, b);
      assert forall i :: i in all <==> i in few || (IsUse(log[m], user, command, a, b) && i == m);
      OneMore(few, all, m, IsUse(log[m], user, command, a, b));
    }
  }

  /** DELETE FROM rate_limit_events WHERE used_at < cutoff. */
  function Pruned(log: seq<Use>, cutoff: int): seq<Use> {
    if log == [] then []
    else
      var u := log[|log| - 1];
      var kept := Pruned(log[..|log| - 1], cutoff);
      if u.time < cutoff then kept else kept + [u]
  }

  lemma UsesSnoc(log: seq<Use>, u: Use, user: UserId, command: string, since: int)
    ensures UsesSince(log + [u], user, command, since) ==
            UsesSince(log, user, command, since) +
            if u.user == user && u.command == command && u.time >= since then 1 else 0
  {
    assert (log + [u])[..|log|] == log;
  }

  lemma PruneSnoc(log: seq<Use>, u: Use, cutoff: int)
    ensures Pruned(log + [u], cutoff) == if u.time < cutoff then Pruned(log, cutoff) else Pruned(log, cutoff) + [u]
  {
    assert (log + [u])[..|log|] == log;
  }

  /** Uses as young as the cutoff survive pruning. */
  lemma {:induction false} PruningKeepsCounts(log: seq<Use>, cutoff: int, user: UserId, command: string, since: int)
    requires cutoff <= since
    ensures UsesSince(Pruned(log, cutoff), user, command, since) == UsesSince(log, user, command, since)
  {
    if log != [] {
      var init, u := log[..|log| - 1], log[|log| - 1];
      PruningKeepsCounts(init, cutoff, user, command, since);
      UsesSnoc(Pruned(init, cutoff), u, user, command, since);
    }
  }

  /** And nothing older does. */
  lemma {:induction false} PruningDropsOld(log: seq<Use>, cutoff: int)
    ensures forall u | u in Pruned(log, cutoff) :: u in log && u.time >= cutoff
  {
    if log != [] {
      PruningDropsOld(log[..|log| - 1], cutoff);
    }
  }

  lemma {:induction false} PruneTwice(log: seq<Use>, a: int, b: int)
    requires a <= b
    ensures Pruned(Pruned(log, a), b) == Pruned(log, b)
  {
    if log != [] {
      var init, u := log[..|log| - 1], log[|log| - 1];
      PruneTwice(init, a, b);
      PruneSnoc(Pruned(init, a), u, b);
    }
  }

  predicate InOrder(log: seq<Use>) {
    forall i, j | 0 <= i <= j < |log| :: log[i].time <= log[j].time
  }

  // ---- what admission guarantees ----

  /** Every admitted use found its trailing window below the limit. */
  predicate Admitted(log: seq<Use>, limitOf: string -> int, window: nat) {
    log == [] ||
    var init, u := log[..|log| - 1], log[|log| - 1];
    Admitted(init, limitOf, window) && UsesSince(init, u.user, u.command, u.time - window) < limitOf(u.command)
  }

  lemma {:induction false} WithinIsSince(log: seq<Use>, user: UserId, command: string, a: int, b: int)
    requires forall i | 0 <= i < |log| :: log[i].time <= b
    ensures UsesWithin(log, user, command, a, b) == UsesSince(log, user, command, a)
  {
    if log != [] {
      WithinIsSince(log[..|log| - 1], user, command, a, b);
    }
  }

  lemma {:induction false} SinceMonotone(log: seq<Use>, user: UserId, command: string, a: int, b: int)
    requires a <= b
    ensures UsesSince(log, user, command, b) <= UsesSince(log, user, command, a)
  {
    if log != [] {
      SinceMonotone(log[..|log| - 1], user, command, a, b);
    }
  }

  /** No closed interval as long as the window holds more admitted uses than the limit. */
  lemma {:induction false} EveryWindowWithinLimit(log: seq<Use>, limitOf: string -> int, window: nat,
                                                 user: UserId, command: string, a: int)
    requires Admitted(log, limitOf, window) && InOrder(log)
    ensures var n := UsesWithin(log, user, command, a, a + window); n == 0 || n <= limitOf(command)
  {
    if log != [] {
      var m := |log| - 1;
      var init, u := log[..m], log[m];
      assert InOrder(init);
      EveryWindowWithinLimit(init, limitOf, window, user, command, a);
      if u.user == user && u.command == command && a <= u.time <= a + window {
        WithinIsSince(init, user, command, a, a + window);
        SinceMonotone(init, user, command, u.time - window, a);
      }
    }
  }

  class RateLimiter {
    const window: nat
    const limitOf: string -> int
    /** Table rate_limit_events, in insertion order. */
    var events: seq<Use>
    /** Table rate_limits: the last use by user and command. */
    var lastUsed: map<(UserId, string), int>
    /** Every admitted use, never deleted. */
    ghost var log: seq<Use>
    ghost var clock: Option<int>

    ghost predicate Valid()
      reads this
    {
      && InOrder(log)
      && Admitted(log, limitOf, window)
      && (clock == None ==> log == [])
      && (clock.Some? && log != [] ==> log[|log| - 1].time <= clock.value)
      && events == (if clock == None then [] else Pruned(log, clock.value - window))
    }

    constructor (window: nat, limitOf: string -> int)
      ensures Valid() && log == [] && clock == None && this.window == window && this.limitOf == limitOf
    {
      this.window, this.limitOf := window, limitOf;
      events, lastUsed, log, clock := [], map[], [], None;
    }

    /** Allowed exactly when the unpruned log holds fewer than the limit in the trailing
        window; only an allowed use is recorded. */
    method CheckRateLimit(user: UserId, command: string, now: int) returns (allowed: bool)
      requires Valid() && (clock.Some? ==> clock.value <= now)
      modifies this
      ensures Valid() && clock == Some(now)
      ensures allowed <==> UsesSince(old(log), user, command, now - window) < limitOf(command)
      ensures log == old(log) + if allowed then [Use(user, command, now)] else []
      ensures lastUsed == if allowed then old(lastUsed)[(user, command) := now] else old(lastUsed)
    {
      hide UsesSince, Pruned, Admitted, InOrder;
      var cutoff := now - window;
      Prune(now);
      var used := UsesSince(events, user, command, cutoff);
      PruningKeepsCounts(log, cutoff, user, command, cutoff);
      allowed := used < limitOf(command);
      if allowed {
        Insert(Use(user, command, now));
      }
    }

    method Prune(now: int)
      requires Valid() && (clock.Some? ==> clock.value <= now)
      modifies this`events, this`clock
      ensures Valid() && clock == Some(now)
    {
      hide Pruned, Admitted, InOrder;
      var cutoff := now - window;
      EmptyPruned(cutoff);
      if clock.Some? {
        PruneTwice(log, clock.value - window, cutoff);
      }
      events := Pruned(events, cutoff);
      clock := Some(now);
    }

    method Insert(use: Use)
      requires Valid() && clock == Some(use.time)
      requires UsesSince(log, use.user, use.command, use.time - window) < limitOf(use.command)
      modifies this`events, this`lastUsed, this`log
      ensures Valid() && log == old(log) + [use]
      ensures lastUsed == old(lastUsed)[(use.user, use.command) := use.time]
    {
      hide UsesSince, Pruned, Admitted, InOrder;
      LogAccepts(log, use, limitOf, window);
      lastUsed := lastUsed[(use.user, use.command) := use.time];
      events := events + [use];
      log := log + [use];
    }
  }

  /** Nobody runs a command more often within a minute, both ends included, than its entry in
      the table says. */
  lemma CommandsPerMinute(log: seq<Use>, user: UserId, command: string, a: int)
    requires Admitted(log, RateLimitFor, RATE_WINDOW_SECONDS) && InOrder(log)
    ensures UsesWithin(log, user, command, a, a + 60) <= RateLimitFor(command)
  {
    EveryWindowWithinLimit(log, RateLimitFor, RATE_WINDOW_SECONDS, user, command, a);
  }

  /** What stands in front of the bot's commands: the limiter with the table of limits. */
  class CommandGate {
    const limiter: RateLimiter

    ghost predicate Valid()
      reads limiter
    {
      limiter.Valid() && limiter.window == RATE_WINDOW_SECONDS && limiter.limitOf == RateLimitFor
    }

    constructor ()
      ensures Valid() && fresh(limiter) && limiter.log == [] && limiter.clock == None
    {
      limiter := new RateLimiter(RATE_WINDOW_SECONDS, RateLimitFor);
    }

    /** A refused message gets no answer and leaves no trace; an admitted one is its user's use. */
    method Admit(user: UserId, command: string, now: int) returns (allowed: bool)
      requires Valid() && (limiter.clock.Some? ==> limiter.clock.value <= now)
      modifies limiter
      ensures Valid() && limiter.clock == Some(now)
      ensures allowed <==> UsesSince(old(limiter.log), user, command, now - 60) < RateLimitFor(command)
      ensures limiter.log == old(limiter.log) + if allowed then [Use(user, command, now)] else []
      ensures forall a, b | b == a + 60 :: UsesWithin(limiter.log, user, command, a, b) <= RateLimitFor(command)
    {
      hide UsesSince, UsesWithin, Admitted, InOrder, RateLimitFor;
      allowed := limiter.CheckRateLimit(user, command, now);
      forall a, b | b == a + 60
        ensures UsesWithin(limiter.log, user, command, a, b) <= RateLimitFor(command)
      {
        CommandsPerMinute(limiter.log, user, command, a);
      }
    }
  }

  lemma LogAccepts(log: seq<Use>, u: Use, limitOf: string -> int, window: nat)
    requires InOrder(log) && (log != [] ==> log[|log| - 1].time <= u.time)
    requires Admitted(log, limitOf, window)
    requires UsesSince(log, u.user, u.command, u.time - window) < limitOf(u.command)
    ensures InOrder(log + [u]) && Admitted(log + [u], limitOf, window)
    ensures Pruned(log + [u], u.time - window) == Pruned(log, u.time - window) + [u]
    ensures (log + [u])[|log + [u]| - 1] == u
  {
    hide UsesSince, Admitted, InOrder, Pruned;
    PruneSnoc(log, u, u.time - window);
    AdmittedSnoc(log, u, limitOf, window);
    InOrderSnoc(log, u);
  }

  lemma InOrderSnoc(log: seq<Use>, u: Use)
    requires InOrder(log) && (log != [] ==> log[|log| - 1].time <= u.time)
    ensures InOrder(log + [u])
  {
  }

  lemma EmptyPruned(cutoff: int)
    ensures Pruned([], cutoff) == []
  {
  }

  lemma AdmittedSnoc(log: seq<Use>, u: Use, limitOf: string -> int, window: nat)
    requires Admitted(log, limitOf, window)
    requires UsesSince(log, u.user, u.command, u.time - window) < limitOf(u.command)
    ensures Admitted(log + [u], limitOf, window)
  {
    assert (log + [u])[..|log|] == log;
  }
}
