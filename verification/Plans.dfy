/** Plan limits and the two usage windows: a UTC day and a billing period.

    Times are microseconds. Records are values: every operation returns a new user. */
module Plans {
  import opened Wrappers

  const DAY: int := 86_400_000_000

  datatype Plan = Free | Starter | Pro | Ultra

  /** -1 stands for unlimited. */
  datatype Settings = Settings(
    freeMonthly: int, starterMonthly: int, proMonthly: int, ultraMonthly: int,
    freeDaily: int, starterDaily: int, proDaily: int, ultraDaily: int,
    billingPeriodDays: int)

  datatype User = User(plan: Plan, expiresAt: Option<int>, used: int, periodStart: int, usedToday: int, dayStart: int)

  datatype Reason = DailyLimitReached(limit: int) | MonthlyLimitReached(limit: int)

  datatype ConsumeResult = ConsumeResult(user: User, allowed: bool, reason: Option<Reason>)

  datatype PlanError = NegativeCount | NotPurchasable

  function PlanLimit(p: Plan, s: Settings): int {
    match p
    case Free => s.freeMonthly
    case Starter => s.starterMonthly
    case Pro => s.proMonthly
    case Ultra => s.ultraMonthly
  }

  function PlanDailyLimit(p: Plan, s: Settings): int {
    match p
    case Free => s.freeDaily
    case Starter => s.starterDaily
    case Pro => s.proDaily
    case Ultra => s.ultraDaily
  }

  function UtcMidnight(t: int): int {
    t - t % DAY
  }

  function PeriodLength(s: Settings): int {
    s.billingPeriodDays * DAY
  }

  /** The start advanced by whole periods so that now falls inside the period. */
  function AdvancePeriod(start: int, s: Settings, now: int): int {
    var period := PeriodLength(s);
    if period <= 0 then now
    else if now < start then start
    else start + (now - start) / period * period
  }

  predicate Expired(u: User, now: int) {
    u.plan != Free && u.expiresAt.Some? && u.expiresAt.value <= now
  }

  /** Downgrade an expired plan, then roll both windows forward. */
  function Enforce(u: User, s: Settings, now: int): User {
    var u1 := if Expired(u, now) then User(Free, None, 0, now, 0, UtcMidnight(now)) else u;
    var start := AdvancePeriod(u1.periodStart, s, now);
    var u2 := if start != u1.periodStart then u1.(periodStart := start, used := 0) else u1;
    if UtcMidnight(u2.dayStart) < UtcMidnight(now) then u2.(dayStart := UtcMidnight(now), usedToday := 0) else u2
  }

  function QuotaRefusal(u: User, s: Settings, count: int): Option<Reason> {
    var daily, limit := PlanDailyLimit(u.plan, s), PlanLimit(u.plan, s);
    if daily != -1 && u.usedToday + count > daily then Some(DailyLimitReached(daily))
    else if limit != -1 && u.used + count > limit then Some(MonthlyLimitReached(limit))
    else None
  }

  function Check(u: User, s: Settings, count: int, now: int): Result<ConsumeResult, PlanError> {
    if count < 0 then Err(NegativeCount)
    else
      var e := Enforce(u, s, now);
      var reason := QuotaRefusal(e, s, count);
      Ok(ConsumeResult(e, reason == None, reason))
  }

  function ConsumeMany(u: User, s: Settings, count: int, now: int): Result<ConsumeResult, PlanError> {
    if count < 0 then Err(NegativeCount)
    else
      var e := Enforce(u, s, now);
      var reason := QuotaRefusal(e, s, count);
      if reason.Some? then Ok(ConsumeResult(e, false, reason))
      else Ok(ConsumeResult(e.(used := e.used + count, usedToday := e.usedToday + count), true, None))
  }

  function Activate(plan: Plan, s: Settings, now: int): Result<User, PlanError> {
    if plan == Free then Err(NotPurchasable)
    else Ok(User(plan, Some(now + PeriodLength(s)), 0, now, 0, UtcMidnight(now)))
  }

  // ---- whole periods ----

  lemma DivideShift(x: int, k: int, p: int)
    requires p > 0
    ensures (x - k * p) / p == x / p - k
  {
    var q, r := x / p, x % p;
    assert x == q * p + r;
    assert x - k * p == (q - k) * p + r by {
      assert (q - k) * p == q * p - k * p;
    }
    DivideUnique(x - k * p, p, q - k, r);
  }

  lemma DivideUnique(x: int, p: int, q: int, r: int)
    requires p > 0 && 0 <= r < p && x == q * p + r
    ensures x / p == q
  {
    var d := x / p - q;
    assert x == (x / p) * p + x % p;
    assert d * p == r - x % p by {
      assert d * p == (x / p) * p - q * p;
    }
    MultipleOutside(d, p);
  }

  lemma MultipleOutside(d: int, p: int)
    requires p > 0
    ensures d >= 1 ==> d * p >= p
    ensures d <= -1 ==> d * p <= -p
  {
  }

  lemma DivideNonNegative(x: int, p: int)
    requires p > 0 && x >= 0
    ensures x / p >= 0 && x / p * p <= x < x / p * p + p
    ensures x < p ==> x / p == 0
  {
    assert x == (x / p) * p + x % p;
    if x < p {
      DivideUnique(x, p, 0, x);
    }
  }

  lemma DivideMonotone(x: int, y: int, p: int)
    requires p > 0 && x <= y
    ensures x / p <= y / p
  {
    assert x == (x / p) * p + x % p && y == (y / p) * p + y % p;
    var d := x / p - y / p;
    MultipleOutside(d, p);
    assert d * p == (x / p) * p - (y / p) * p;
  }

  /** Advancing in two steps is advancing once. */
  lemma AdvanceTwice(start: int, s: Settings, t1: int, t2: int)
    requires t1 <= t2
    ensures AdvancePeriod(AdvancePeriod(start, s, t1), s, t2) == AdvancePeriod(start, s, t2)
    ensures PeriodLength(s) > 0 && AdvancePeriod(start, s, t2) == start ==> AdvancePeriod(start, s, t1) == start
  {
    var p := PeriodLength(s);
    if p > 0 && t1 >= start {
      var k1, k2 := (t1 - start) / p, (t2 - start) / p;
      DivideNonNegative(t1 - start, p);
      DivideShift(t2 - start, k1, p);
      DivideMonotone(t1 - start, t2 - start, p);
      assert start + k1 * p + (k2 - k1) * p == start + k2 * p by {
        assert k1 * p + (k2 - k1) * p == k2 * p;
      }
      if k2 * p == 0 {
        assert k2 == 0;
      }
    }
  }

  lemma MidnightMonotone(t1: int, t2: int)
    requires t1 <= t2
    ensures UtcMidnight(t1) <= UtcMidnight(t2)
    ensures UtcMidnight(UtcMidnight(t1)) == UtcMidnight(t1)
  {
  }

  // ---- enforcement over time ----

  /** After enforcement now lies inside the period, unless the start was in the future. */
  lemma EnforcedPeriodHoldsNow(u: User, s: Settings, now: int)
    requires PeriodLength(s) > 0 && (u.periodStart <= now || Expired(u, now))
    ensures var e := Enforce(u, s, now); e.periodStart <= now < e.periodStart + PeriodLength(s)
  {
    var start := if Expired(u, now) then now else u.periodStart;
    DivideNonNegative(now - start, PeriodLength(s));
  }

  lemma EnforceIdempotent(u: User, s: Settings, now: int)
    ensures Enforce(Enforce(u, s, now), s, now) == Enforce(u, s, now)
  {
    var start := if Expired(u, now) then now else u.periodStart;
    AdvanceTwice(start, s, now, now);
    MidnightMonotone(now, now);
  }

  /** The plan has not run out. */
  lemma EnforceComposesWhenLive(u: User, s: Settings, t1: int, t2: int)
    requires PeriodLength(s) > 0 && t1 <= t2 && !Expired(u, t1)
    ensures Enforce(Enforce(u, s, t1), s, t2) == Enforce(u, s, t2)
  {
    AdvanceTwice(u.periodStart, s, t1, t2);
    MidnightMonotone(t1, t2);
    MidnightMonotone(t2, t2);
  }

  lemma ExpiredThenEnforced(u: User, s: Settings, t1: int, t2: int)
    requires PeriodLength(s) > 0 && t1 <= t2 && Expired(u, t1)
    ensures Enforce(u, s, t2) == User(Free, None, 0, t2, 0, UtcMidnight(t2))
    ensures Enforce(Enforce(u, s, t1), s, t2) == User(Free, None, 0, AdvancePeriod(t1, s, t2), 0, UtcMidnight(t2))
  {
    DivideNonNegative(0, PeriodLength(s));
    MidnightMonotone(t1, t2);
  }

  /** Without a billing period every enforcement starts the period anew, and only a use
      recorded at the very start t2 can be lost on the way. */
  lemma EnforceComposesWithoutPeriod(u: User, s: Settings, t1: int, t2: int)
    requires PeriodLength(s) <= 0 && t1 <= t2
    ensures Enforce(Enforce(u, s, t1), s, t2) == Enforce(u, s, t2) <==>
            Expired(u, t2) || u.periodStart != t2 || t1 == t2 || u.used == 0
  {
    MidnightMonotone(t1, t2);
    MidnightMonotone(t2, t2);
  }

  /** Enforcing at t1 and again at t2 is enforcing once at t2 exactly when the plan had not
      expired by t1, or whole periods separate the two: a downgrade restarts the period at
      the moment it is noticed. */
  lemma EnforceComposesExactly(u: User, s: Settings, t1: int, t2: int)
    requires t1 <= t2
    ensures Enforce(Enforce(u, s, t1), s, t2) == Enforce(u, s, t2) <==>
            if PeriodLength(s) > 0 then !Expired(u, t1) || (t2 - t1) % PeriodLength(s) == 0
            else Expired(u, t2) || u.periodStart != t2 || t1 == t2 || u.used == 0
  {
    hide Enforce;
    var p := PeriodLength(s);
    if p <= 0 {
      EnforceComposesWithoutPeriod(u, s, t1, t2);
    } else if Expired(u, t1) {
      ExpiredThenEnforced(u, s, t1, t2);
      assert t2 - t1 == (t2 - t1) / p * p + (t2 - t1) % p;
    } else {
      EnforceComposesWhenLive(u, s, t1, t2);
    }
  }

  /** Checking and consuming agree about who is over quota. */
  lemma CheckAgreesWithConsume(u: User, s: Settings, count: int, now: int)
    ensures var a, b := Check(u, s, count, now), ConsumeMany(u, s, count, now);
            && (a.Err? <==> count < 0) && (b.Err? <==> count < 0)
            && (a.Ok? && b.Ok? ==>
                  && a.value.allowed == b.value.allowed && a.value.reason == b.value.reason
                  && (!a.value.allowed ==> a.value.user == b.value.user)
                  && a.value.user == Enforce(u, s, now))
  {
  }

  // ---- a counter that restarts with its window ----

  /** A usage counter and the index of the window it counts. */
  datatype Counter = Counter(window: int, used: int)

  function Roll(c: Counter, window: int): Counter {
    if c.window < window then Counter(window, 0) else c
  }

  function DayIndex(t: int): int {
    t / DAY
  }

  /** Periods are numbered from a fixed origin. */
  function PeriodIndex(origin: int, s: Settings, t: int): int
    requires PeriodLength(s) > 0
  {
    (t - origin) / PeriodLength(s)
  }

  function DayCounter(u: User): Counter {
    Counter(DayIndex(u.dayStart), u.usedToday)
  }

  function PeriodCounter(u: User, origin: int, s: Settings): Counter
    requires PeriodLength(s) > 0
  {
    Counter(PeriodIndex(origin, s, u.periodStart), u.used)
  }

  /** The user's period starts a whole number of periods after the origin. */
  predicate Aligned(u: User, origin: int, s: Settings)
    requires PeriodLength(s) > 0
  {
    u.periodStart == origin + PeriodIndex(origin, s, u.periodStart) * PeriodLength(s)
  }

  lemma MidnightIndex(t: int)
    ensures UtcMidnight(t) == DayIndex(t) * DAY
    ensures DayIndex(UtcMidnight(t)) == DayIndex(t)
  {
    assert t == (t / DAY) * DAY + t % DAY;
  }

  /** While the plan is live, enforcement is rolling both counters. */
  lemma EnforceRolls(u: User, origin: int, s: Settings, now: int)
    requires PeriodLength(s) > 0 && !Expired(u, now) && Aligned(u, origin, s)
    ensures var e := Enforce(u, s, now);
            && e.plan == u.plan && e.expiresAt == u.expiresAt
            && Aligned(e, origin, s)
            && DayCounter(e) == Roll(DayCounter(u), DayIndex(now))
            && PeriodCounter(e, origin, s) == Roll(PeriodCounter(u, origin, s), PeriodIndex(origin, s, now))
  {
    MidnightIndex(now);
    MidnightIndex(u.dayStart);
    PeriodRolls(u.periodStart, origin, s, now);
  }

  lemma PeriodRolls(start: int, origin: int, s: Settings, now: int)
    requires PeriodLength(s) > 0 && start == origin + PeriodIndex(origin, s, start) * PeriodLength(s)
    ensures var w, n := PeriodIndex(origin, s, start), PeriodIndex(origin, s, now);
            var next := AdvancePeriod(start, s, now);
            && (next != start <==> w < n)
            && PeriodIndex(origin, s, next) == (if w < n then n else w)
            && next == origin + PeriodIndex(origin, s, next) * PeriodLength(s)
  {
    var p := PeriodLength(s);
    var w, n := PeriodIndex(origin, s, start), PeriodIndex(origin, s, now);
    DivideShift(now - origin, w, p);
    assert now - origin - w * p == now - start;
    if now < start {
      DivideMonotone(now - origin, start - origin, p);
    } else {
      DivideNonNegative(now - start, p);
      var k := (now - start) / p;
      assert k == n - w;
      assert start + k * p == origin + n * p by {
        assert w * p + (n - w) * p == n * p;
      }
      DivideUnique(n * p, p, n, 0);
      if k > 0 {
        assert k * p > 0;
      }
    }
  }

  // ---- what a counter promises about a log of grants ----

  datatype Call = Call(time: int, count: int)

  /** The analyses a log grants in one window. */
  function GrantedIn(log: seq<Call>, index: int -> int, window: int): int {
    if log == [] then 0
    else
      var c := log[|log| - 1];
      GrantedIn(log[..|log| - 1], index, window) + if index(c.time) == window then c.count else 0
  }

  function Ceiling(limit: int): int {
    if limit < 0 then 0 else limit
  }

  /** The counter covers every grant of the latest window, and no window is over limit. */
  ghost predicate Covers(c: Counter, log: seq<Call>, index: int -> int, last: int, limit: int) {
    && c.used >= 0
    && (forall i | 0 <= i < |log| :: index(log[i].time) <= last)
    && (log != [] ==> last <= c.window)
    && GrantedIn(log, index, last) <= c.used
    && (limit != -1 ==> forall w :: GrantedIn(log, index, w) <= Ceiling(limit))
  }

  lemma {:induction false} NothingLater(log: seq<Call>, index: int -> int, last: int, window: int)
    requires last < window && forall i | 0 <= i < |log| :: index(log[i].time) <= last
    ensures GrantedIn(log, index, window) == 0
  {
    if log != [] {
      NothingLater(log[..|log| - 1], index, last, window);
    }
  }

  lemma CoversRolled(c: Counter, log: seq<Call>, index: int -> int, last: int, limit: int, now: int)
    requires Covers(c, log, index, last, limit) && (log != [] ==> last <= index(now))
    ensures Covers(Roll(c, index(now)), log, index, index(now), limit)
    ensures index(now) <= Roll(c, index(now)).window
  {
    if log != [] && last < index(now) {
      NothingLater(log, index, last, index(now));
    }
  }

  lemma CoversGranted(c: Counter, log: seq<Call>, index: int -> int, limit: int, call: Call)
    requires Covers(c, log, index, index(call.time), limit) && index(call.time) <= c.window && call.count >= 0
    requires limit == -1 || c.used + call.count <= limit
    ensures Covers(c.(used := c.used + call.count), log + [call], index, index(call.time), limit)
  {
    var more := log + [call];
    assert more[..|more| - 1] == log;
  }

  // ---- whole runs ----

  function DayOf(): int -> int {
    t => DayIndex(t)
  }

  function PeriodOf(origin: int, s: Settings): int -> int
    requires PeriodLength(s) > 0
  {
    t => PeriodIndex(origin, s, t)
  }

  /** The user after the calls, and the calls that were granted. */
  function Run(u: User, s: Settings, calls: seq<Call>): (User, seq<Call>)
    requires forall i | 0 <= i < |calls| :: calls[i].count >= 0
  {
    if calls == [] then (u, [])
    else
      var (v, log) := Run(u, s, calls[..|calls| - 1]);
      var c := calls[|calls| - 1];
      var r := ConsumeMany(v, s, c.count, c.time).value;
      (r.user, if r.allowed then log + [c] else log)
  }

  /** Calls at non-decreasing times, all while the user's plan is live. */
  predicate OnOnePlan(u: User, calls: seq<Call>) {
    && (forall i | 0 <= i < |calls| :: calls[i].count >= 0 && !Expired(u, calls[i].time))
    && (forall i, j | 0 <= i <= j < |calls| :: calls[i].time <= calls[j].time)
  }

  /** After the last call, both counters cover the log. */
  ghost predicate Accounted(v: User, log: seq<Call>, origin: int, s: Settings, now: int)
    requires PeriodLength(s) > 0
  {
    && Covers(DayCounter(v), log, DayOf(), DayIndex(now), PlanDailyLimit(v.plan, s))
    && Covers(PeriodCounter(v, origin, s), log, PeriodOf(origin, s), PeriodIndex(origin, s, now), PlanLimit(v.plan, s))
    && Aligned(v, origin, s)
  }

  lemma ConsumeAccounted(v: User, log: seq<Call>, origin: int, s: Settings, last: int, c: Call)
    requires PeriodLength(s) > 0 && c.count >= 0 && !Expired(v, c.time)
    requires Accounted(v, log, origin, s, last) && (log != [] ==> last <= c.time)
    ensures var r := ConsumeMany(v, s, c.count, c.time).value;
            && r.user.plan == v.plan && r.user.expiresAt == v.expiresAt
            && Accounted(r.user, if r.allowed then log + [c] else log, origin, s, c.time)
  {
    hide Covers, Enforce, Aligned;
    var e := Enforce(v, s, c.time);
    EnforceRolls(v, origin, s, c.time);
    if log != [] {
      DivideMonotone(last, c.time, DAY);
      DivideMonotone(last - origin, c.time - origin, PeriodLength(s));
    }
    CoversRolled(DayCounter(v), log, DayOf(), DayIndex(last), PlanDailyLimit(v.plan, s), c.time);
    CoversRolled(PeriodCounter(v, origin, s), log, PeriodOf(origin, s), PeriodIndex(origin, s, last),
                 PlanLimit(v.plan, s), c.time);
    if QuotaRefusal(e, s, c.count) == None {
      CoversGranted(DayCounter(e), log, DayOf(), PlanDailyLimit(v.plan, s), c);
      CoversGranted(PeriodCounter(e, origin, s), log, PeriodOf(origin, s), PlanLimit(v.plan, s), c);
      SameAlignment(e, e.(used := e.used + c.count, usedToday := e.usedToday + c.count), origin, s);
    }
  }

  lemma SameAlignment(u: User, v: User, origin: int, s: Settings)
    requires PeriodLength(s) > 0 && Aligned(u, origin, s) && v.periodStart == u.periodStart
    ensures Aligned(v, origin, s)
  {
  }

  lemma {:induction false} RunAccounted(u: User, s: Settings, calls: seq<Call>)
    requires PeriodLength(s) > 0 && OnOnePlan(u, calls) && calls != []
    requires u.used >= 0 && u.usedToday >= 0
    ensures var (v, log) := Run(u, s, calls);
            && v.plan == u.plan && v.expiresAt == u.expiresAt
            && Accounted(v, log, u.periodStart, s, calls[|calls| - 1].time)
  {
    var m := |calls| - 1;
    var init, c := calls[..m], calls[m];
    var (v, log) := Run(u, s, init);
    DivideUnique(0, PeriodLength(s), 0, 0);
    if m > 0 {
      RunAccounted(u, s, init);
      ConsumeAccounted(v, log, u.periodStart, s, init[m - 1].time, c);
    } else {
      ConsumeAccounted(u, [], u.periodStart, s, c.time, c);
    }
  }

  /** Quota safety. On one live plan, over any run of calls, the analyses granted in any
      UTC day never exceed the daily limit, nor those granted in any billing period the
      period limit, whatever the counters held at first. */
  lemma QuotaSafety(u: User, s: Settings, calls: seq<Call>)
    requires PeriodLength(s) > 0 && OnOnePlan(u, calls) && u.used >= 0 && u.usedToday >= 0
    ensures var log := Run(u, s, calls).1;
            && (PlanDailyLimit(u.plan, s) != -1 ==>
                  forall d :: GrantedIn(log, DayOf(), d) <= Ceiling(PlanDailyLimit(u.plan, s)))
            && (PlanLimit(u.plan, s) != -1 ==>
                  forall w :: GrantedIn(log, PeriodOf(u.periodStart, s), w) <= Ceiling(PlanLimit(u.plan, s)))
  {
    if calls != [] {
      RunAccounted(u, s, calls);
    }
  }

  // ---- refusals are never early ----

  /** The counter is exactly what the log grants in its window. */
  ghost predicate Counts(c: Counter, log: seq<Call>, index: int -> int) {
    && c.used == GrantedIn(log, index, c.window)
    && forall i | 0 <= i < |log| :: index(log[i].time) <= c.window
  }

  lemma CountsRolled(c: Counter, log: seq<Call>, index: int -> int, now: int)
    requires Counts(c, log, index)
    ensures Counts(Roll(c, index(now)), log, index)
  {
    if c.window < index(now) {
      NothingLater(log, index, c.window, index(now));
    }
  }

  lemma CountsGranted(c: Counter, log: seq<Call>, index: int -> int, call: Call)
    requires Counts(c, log, index) && c.window == index(call.time)
    ensures Counts(c.(used := c.used + call.count), log + [call], index)
  {
    assert (log + [call])[..|log|] == log;
  }

  /** A user nothing was used by yet, none of whose windows starts in the future. */
  predicate Fresh(u: User, now: int) {
    u.used == 0 && u.usedToday == 0 && u.periodStart <= now && DayIndex(u.dayStart) <= DayIndex(now)
  }

  ghost predicate Exact(v: User, log: seq<Call>, origin: int, s: Settings, now: int)
    requires PeriodLength(s) > 0
  {
    && Counts(DayCounter(v), log, DayOf()) && DayCounter(v).window <= DayIndex(now)
    && Counts(PeriodCounter(v, origin, s), log, PeriodOf(origin, s))
    && PeriodCounter(v, origin, s).window <= PeriodIndex(origin, s, now)
    && Aligned(v, origin, s)
  }

  /** Room for the call in a log, under a limit. */
  predicate HasRoom(log: seq<Call>, index: int -> int, call: Call, limit: int) {
    limit == -1 || GrantedIn(log, index, index(call.time)) + call.count <= limit
  }

  /** Why a call after these grants is refused: for want of room in its day before want of room in
      its period. */
  function ReasonFor(plan: Plan, log: seq<Call>, origin: int, s: Settings, c: Call): Option<Reason>
    requires PeriodLength(s) > 0
  {
    if !HasRoom(log, DayOf(), c, PlanDailyLimit(plan, s)) then Some(DailyLimitReached(PlanDailyLimit(plan, s)))
    else if !HasRoom(log, PeriodOf(origin, s), c, PlanLimit(plan, s)) then Some(MonthlyLimitReached(PlanLimit(plan, s)))
    else None
  }

  lemma ConsumeExact(v: User, log: seq<Call>, origin: int, s: Settings, c: Call)
    requires PeriodLength(s) > 0 && c.count >= 0 && !Expired(v, c.time) && Exact(v, log, origin, s, c.time)
    ensures var r := ConsumeMany(v, s, c.count, c.time).value;
            && r.user.plan == v.plan && r.user.expiresAt == v.expiresAt
            && (r.allowed <==> && HasRoom(log, DayOf(), c, PlanDailyLimit(v.plan, s))
                               && HasRoom(log, PeriodOf(origin, s), c, PlanLimit(v.plan, s)))
            && r.reason == ReasonFor(v.plan, log, origin, s, c)
            && Exact(r.user, if r.allowed then log + [c] else log, origin, s, c.time)
  {
    hide Counts, Enforce, Aligned, GrantedIn;
    var e := Enforce(v, s, c.time);
    EnforceRolls(v, origin, s, c.time);
    CountsRolled(DayCounter(v), log, DayOf(), c.time);
    CountsRolled(PeriodCounter(v, origin, s), log, PeriodOf(origin, s), c.time);
    CountIs(DayCounter(e), log, DayOf());
    CountIs(PeriodCounter(e, origin, s), log, PeriodOf(origin, s));
    if QuotaRefusal(e, s, c.count) == None {
      CountsGranted(DayCounter(e), log, DayOf(), c);
      CountsGranted(PeriodCounter(e, origin, s), log, PeriodOf(origin, s), c);
      SameAlignment(e, e.(used := e.used + c.count, usedToday := e.usedToday + c.count), origin, s);
    }
  }

  lemma CountIs(c: Counter, log: seq<Call>, index: int -> int)
    requires Counts(c, log, index)
    ensures c.used == GrantedIn(log, index, c.window)
  {
  }

  lemma ExactLater(v: User, log: seq<Call>, origin: int, s: Settings, t1: int, t2: int)
    requires PeriodLength(s) > 0 && Exact(v, log, origin, s, t1) && t1 <= t2
    ensures Exact(v, log, origin, s, t2)
  {
    DivideMonotone(t1, t2, DAY);
    DivideMonotone(t1 - origin, t2 - origin, PeriodLength(s));
  }

  lemma FreshExact(u: User, s: Settings, now: int)
    requires PeriodLength(s) > 0 && Fresh(u, now)
    ensures Exact(u, [], u.periodStart, s, now)
  {
    DivideUnique(0, PeriodLength(s), 0, 0);
    DivideMonotone(0, now - u.periodStart, PeriodLength(s));
  }

  lemma ActivatedIsFresh(plan: Plan, s: Settings, now: int)
    requires plan != Free
    ensures Fresh(Activate(plan, s, now).value, now)
    ensures PeriodLength(s) > 0 ==> !Expired(Activate(plan, s, now).value, now)
  {
    MidnightIndex(now);
  }

  /** Buying a plan gives that plan, with nothing used, for one billing period from now: it is in
      force at every time before the period is over and Free is from then on. Free is not sold. */
  lemma ActivationGives(plan: Plan, s: Settings, now: int, t: int)
    requires now <= t
    ensures plan == Free ==> Activate(plan, s, now) == Err(NotPurchasable)
    ensures plan != Free ==>
              && Activate(plan, s, now).Ok?
              && var u := Activate(plan, s, now).value;
                 && u.plan == plan && u.expiresAt == Some(now + s.billingPeriodDays * DAY)
                 && u.used == 0 && u.usedToday == 0 && u.periodStart == now && u.dayStart == now - now % DAY
                 && Enforce(u, s, t).plan == if t < now + s.billingPeriodDays * DAY then plan else Free
  {
  }

  /** The first call on a plan bought at now, any time before it runs out, is granted exactly when
      it fits that plan's own two limits. */
  lemma FirstCallFits(plan: Plan, s: Settings, now: int, c: Call)
    requires plan != Free && now <= c.time < now + PeriodLength(s) && c.count >= 0
    ensures ConsumeMany(Activate(plan, s, now).value, s, c.count, c.time).value.allowed <==>
            match plan
            case Free => Fits(c.count, s.freeDaily) && Fits(c.count, s.freeMonthly)
            case Starter => Fits(c.count, s.starterDaily) && Fits(c.count, s.starterMonthly)
            case Pro => Fits(c.count, s.proDaily) && Fits(c.count, s.proMonthly)
            case Ultra => Fits(c.count, s.ultraDaily) && Fits(c.count, s.ultraMonthly)
  {
    var u := Activate(plan, s, now).value;
    ActivatedIsFresh(plan, s, now);
    MidnightMonotone(now, c.time);
    DivideNonNegative(now - u.periodStart, PeriodLength(s));
    DivideNonNegative(c.time - u.periodStart, PeriodLength(s));
  }

  predicate Fits(count: int, limit: int) {
    limit == -1 || count <= limit
  }

  lemma {:induction false} RunExact(u: User, s: Settings, calls: seq<Call>, now: int)
    requires PeriodLength(s) > 0 && OnOnePlan(u, calls) && forall i | 0 <= i < |calls| :: calls[i].time <= now
    requires Fresh(u, if calls == [] then now else calls[0].time)
    ensures var (v, log) := Run(u, s, calls);
            && v.plan == u.plan && v.expiresAt == u.expiresAt
            && Exact(v, log, u.periodStart, s, now)
  {
    hide Exact, Fresh;
    if calls == [] {
      FreshExact(u, s, now);
    } else {
      var init, c := calls[..|calls| - 1], calls[|calls| - 1];
      var (v, log) := Run(u, s, init);
      RunExact(u, s, init, c.time);
      ConsumeExact(v, log, u.periodStart, s, c);
      var (w, more) := Run(u, s, calls);
      ExactLater(w, more, u.periodStart, s, c.time, now);
    }
  }

  /** A call after any run by a fresh user is granted exactly when what was granted before it, in
      its own UTC day and in its own billing period, leaves room for it; the reason given
      otherwise names the day's limit first. */
  lemma GrantedExactlyWhenRoom(u: User, s: Settings, calls: seq<Call>, c: Call)
    requires PeriodLength(s) > 0 && OnOnePlan(u, calls) && c.count >= 0 && !Expired(u, c.time)
    requires forall i | 0 <= i < |calls| :: calls[i].time <= c.time
    requires Fresh(u, if calls == [] then c.time else calls[0].time)
    ensures var (v, log) := Run(u, s, calls);
            ConsumeMany(v, s, c.count, c.time).value.allowed <==>
              && HasRoom(log, DayOf(), c, PlanDailyLimit(u.plan, s))
              && HasRoom(log, PeriodOf(u.periodStart, s), c, PlanLimit(u.plan, s))
    ensures var (v, log) := Run(u, s, calls);
            ConsumeMany(v, s, c.count, c.time).value.reason == ReasonFor(u.plan, log, u.periodStart, s, c)
  {
    hide Exact, Fresh, ReasonFor;
    var (v, log) := Run(u, s, calls);
    RunExact(u, s, calls, c.time);
    ConsumeExact(v, log, u.periodStart, s, c);
  }
}
