/** Chat completions in flight: every call is a chain of stretches of code between two waits,
    and all calls of the process add to the same counters. */
module LlmCalls {
  import opened Wrappers
  import opened Reals
  import opened LlmRetry

  /** Where a call stands while other code runs. */
  datatype Phase = Sent | Sleeping | Done(result: CallResult)

  /** A call between two stretches: its local variables, and what it has added to the counters. */
  datatype Run = Run(config: Config, begun: real, attempt: nat, lastReason: ErrorReason, lastStatus: Option<int>,
                     phase: Phase, own: Stats)

  const NONE := Stats(0, 0, 0, 0, 0, 0, 0)

  function Minus(a: Stats, b: Stats): Stats {
    Stats(a.calls - b.calls, a.attempts - b.attempts, a.retries - b.retries, a.rateLimited - b.rateLimited,
          a.budgetExhausted - b.budgetExhausted, a.timeouts - b.timeouts, a.failures - b.failures)
  }

  // ---- the stretches ----

  /** The head of the loop: give up, find the budget spent, or send the next attempt. */
  function Enter(r: Run, now: real): Run {
    if r.attempt >= Tries(r.config) then
      r.(phase := Done(Raised(LlmError(r.lastReason, r.attempt, r.lastStatus))),
         own := r.own.(failures := r.own.failures + 1))
    else if r.config.totalTimeout.Some? && now >= r.begun + r.config.totalTimeout.value then
      r.(phase := Done(Raised(LlmError(Budget, r.attempt, r.lastStatus))),
         own := r.own.(budgetExhausted := r.own.budgetExhausted + 1, failures := r.own.failures + 1))
    else
      r.(phase := Sent, own := r.own.(calls := r.own.calls + 1, attempts := r.own.attempts + 1))
  }

  function BeginCall(config: Config, now: real): Run {
    Enter(Run(config, now, 0, Http, None, Sleeping, NONE), now)
  }

  /** A transient reply counted, and what it says about the cause kept. */
  function Noted(r: Run, reply: Reply): Run {
    r.(attempt := r.attempt + 1,
       lastReason := ReasonAfter(reply, r.lastReason), lastStatus := StatusAfter(reply, r.lastStatus),
       own := r.own.(rateLimited := r.own.rateLimited + (if Is429(reply) then 1 else 0),
                     timeouts := r.own.timeouts + (if reply.TimedOut? then 1 else 0)))
  }

  /** From a reply to the next wait, or to the end. */
  function Receive(r: Run, reply: Reply, now: real): Run
    requires r.phase.Sent?
  {
    if !Transient(reply) then
      var v := Verdict(reply, r.attempt + 1);
      r.(phase := Done(v), own := r.own.(failures := r.own.failures + if v.Raised? then 1 else 0))
    else
      var noted := Noted(r, reply);
      if r.attempt < r.config.maxRetries then
        noted.(phase := Sleeping, own := noted.own.(retries := noted.own.retries + 1))
      else Enter(noted, now)
  }

  // ---- any number of calls ----

  datatype Pool = Pool(stats: Stats, runs: seq<Run>)

  datatype Happening =
    | Begins(config: Config, now: real)
    | Replies(i: nat, reply: Reply, now: real)
    | Wakes(i: nat, now: real)

  predicate CanHappen(p: Pool, h: Happening) {
    match h
    case Begins(_, _) => true
    case Replies(i, _, _) => i < |p.runs| && p.runs[i].phase.Sent?
    case Wakes(i, _) => i < |p.runs| && p.runs[i].phase.Sleeping?
  }

  /** One stretch of one call; the counters move by what that call adds. */
  function Next(p: Pool, h: Happening): Pool {
    if !CanHappen(p, h) then p
    else match h
    case Begins(config, now) => var r := BeginCall(config, now); Pool(Plus(p.stats, r.own), p.runs + [r])
    case Replies(i, reply, now) => Moved(p, i, Receive(p.runs[i], reply, now))
    case Wakes(i, now) => Moved(p, i, Enter(p.runs[i], now))
  }

  function Moved(p: Pool, i: nat, r: Run): Pool
    requires i < |p.runs|
  {
    Pool(Plus(p.stats, Minus(r.own, p.runs[i].own)), p.runs[i := r])
  }

  /** The pool after stretches of any calls in any order; what cannot happen does not. */
  function PoolAfter(hs: seq<Happening>): Pool {
    if hs == [] then Pool(NONE, []) else Next(PoolAfter(hs[..|hs| - 1]), hs[|hs| - 1])
  }

  function OwnTotal(runs: seq<Run>): Stats {
    if runs == [] then NONE else Plus(OwnTotal(runs[..|runs| - 1]), runs[|runs| - 1].own)
  }

  /** What one call has added, by where it stands. */
  predicate Balanced(r: Run) {
    && r.own.calls == r.own.attempts
    && (match r.phase
        case Sent => r.attempt < Tries(r.config) && r.own.attempts == r.own.retries + 1
        case Sleeping => r.attempt < Tries(r.config) && r.own.attempts == r.own.retries
        case Done(_) => r.own.attempts == r.own.retries + (if IsTryless(r) then 0 else 1) - r.own.budgetExhausted)
    && r.own.failures == (if r.phase.Done? && r.phase.result.Raised? then 1 else 0)
    && r.own.budgetExhausted == (if IsOutOfBudget(r) then 1 else 0)
    && r.lastReason != Budget
    && (IsTryless(r) ==> r.phase.Done?)
  }

  /** A call whose number of retries is negative makes no attempt at all. */
  predicate IsTryless(r: Run) {
    r.config.maxRetries < 0
  }

  predicate IsOutOfBudget(r: Run) {
    r.phase.Done? && r.phase.result.Raised? && r.phase.result.error.reason == Budget
  }

  function CountOf(runs: seq<Run>, test: Run -> bool): nat {
    if runs == [] then 0
    else CountOf(runs[..|runs| - 1], test) + if test(runs[|runs| - 1]) then 1 else 0
  }

  predicate IsSent(r: Run) {
    r.phase.Sent?
  }

  predicate IsDone(r: Run) {
    r.phase.Done?
  }

  predicate HasAnswered(r: Run) {
    r.phase.Done? && r.phase.result.Answer?
  }

  predicate HasEscaped(r: Run) {
    r.phase.Done? && r.phase.result.Escaped?
  }

  predicate HasRaised(r: Run) {
    r.phase.Done? && r.phase.result.Raised?
  }

  lemma EnterBalanced(r: Run, now: real)
    requires Balanced(r) && r.phase.Sleeping?
    ensures Balanced(Enter(r, now)) && Enter(r, now).config == r.config
  {
  }

  lemma ReceiveBalanced(r: Run, reply: Reply, now: real)
    requires Balanced(r) && r.phase.Sent?
    ensures Balanced(Receive(r, reply, now)) && Receive(r, reply, now).config == r.config
  {
    if !Transient(reply) {
      VerdictIsNotBudget(reply, r.attempt + 1);
    }
  }

  /** What every interleaving keeps. */
  ghost predicate Kept(p: Pool) {
    p.stats == OwnTotal(p.runs) && forall i | 0 <= i < |p.runs| :: Balanced(p.runs[i])
  }

  lemma {:induction false} OwnTotalMoved(runs: seq<Run>, i: nat, r: Run)
    requires i < |runs|
    ensures OwnTotal(runs[i := r]) == Plus(OwnTotal(runs), Minus(r.own, runs[i].own))
  {
    var m := |runs| - 1;
    if i < m {
      OwnTotalMoved(runs[..m], i, r);
      assert runs[i := r][..m] == runs[..m][i := r];
    } else {
      assert runs[i := r][..m] == runs[..m];
    }
  }

  lemma NextKept(p: Pool, h: Happening)
    requires Kept(p) && CanHappen(p, h)
    ensures Kept(Next(p, h))
  {
    hide Balanced, Enter, Receive, OwnTotal;
    match h
    case Begins(config, now) =>
      var r := BeginCall(config, now);
      BeginBalanced(config, now);
      OwnTotalSnoc(p.runs, r);
    case Replies(i, reply, now) =>
      ReceiveBalanced(p.runs[i], reply, now);
      OwnTotalMoved(p.runs, i, Receive(p.runs[i], reply, now));
    case Wakes(i, now) =>
      EnterBalanced(p.runs[i], now);
      OwnTotalMoved(p.runs, i, Enter(p.runs[i], now));
  }

  lemma BeginBalanced(config: Config, now: real)
    ensures Balanced(BeginCall(config, now))
  {
  }

  lemma OwnTotalSnoc(runs: seq<Run>, r: Run)
    ensures OwnTotal(runs + [r]) == Plus(OwnTotal(runs), r.own)
  {
    assert (runs + [r])[..|runs|] == runs;
  }

  lemma {:induction false} AlwaysKept(hs: seq<Happening>)
    ensures Kept(PoolAfter(hs))
  {
    if hs != [] {
      var p, h := PoolAfter(hs[..|hs| - 1]), hs[|hs| - 1];
      AlwaysKept(hs[..|hs| - 1]);
      if CanHappen(p, h) {
        NextKept(p, h);
      }
    }
  }

  lemma {:induction false} RunsBalance(runs: seq<Run>)
    requires forall i | 0 <= i < |runs| :: Balanced(runs[i])
    ensures var t := OwnTotal(runs);
            && t.calls == t.attempts
            && t.attempts + CountOf(runs, IsTryless) ==
               t.retries + CountOf(runs, IsDone) + CountOf(runs, IsSent) - t.budgetExhausted
            && t.failures == CountOf(runs, HasRaised)
            && t.budgetExhausted == CountOf(runs, IsOutOfBudget)
  {
    if runs != [] {
      var init := runs[..|runs| - 1];
      assert forall i | 0 <= i < |init| :: init[i] == runs[i];
      RunsBalance(init);
    }
  }

  /** Over every interleaving of any number of calls: attempts are retries, and calls finished,
      and attempts in flight, less the calls that found their budget spent, exactly when no call
      had a negative number of retries. Failures counts exactly the calls that raised LLMError;
      a finished call has answered, failed so, or escaped by an exception the loop does not name. */
  lemma InterleavingsBalance(hs: seq<Happening>)
    ensures var p := PoolAfter(hs);
            var t := p.stats;
            var balance := t.retries + CountOf(p.runs, IsDone) + CountOf(p.runs, IsSent) - t.budgetExhausted;
            && t.calls == t.attempts
            && t.attempts + CountOf(p.runs, IsTryless) == balance
            && (t.attempts == balance <==> forall i | 0 <= i < |p.runs| :: p.runs[i].config.maxRetries >= 0)
            && t.failures == CountOf(p.runs, HasRaised)
            && CountOf(p.runs, IsDone) == CountOf(p.runs, HasAnswered) + t.failures + CountOf(p.runs, HasEscaped)
            && t.budgetExhausted == CountOf(p.runs, IsOutOfBudget)
  {
    hide PoolAfter, Balanced, CountOf;
    var p := PoolAfter(hs);
    AlwaysKept(hs);
    RunsBalance(p.runs);
    FinishedCounted(p.runs);
    NoneCounted(p.runs, IsTryless);
  }

  lemma {:induction false} FinishedCounted(runs: seq<Run>)
    ensures CountOf(runs, IsDone) == CountOf(runs, HasAnswered) + CountOf(runs, HasRaised) + CountOf(runs, HasEscaped)
  {
    if runs != [] {
      FinishedCounted(runs[..|runs| - 1]);
    }
  }

  lemma {:induction false} NoneCounted(runs: seq<Run>, test: Run -> bool)
    ensures CountOf(runs, test) == 0 <==> forall i | 0 <= i < |runs| :: !test(runs[i])
  {
    if runs != [] {
      var init := runs[..|runs| - 1];
      NoneCounted(init, test);
      assert forall i | 0 <= i < |init| :: init[i] == runs[i];
    }
  }

  // ---- one call against its timetable ----

  /** What the counters of a call show when its attempt k is sent. */
  function SentStats(script: Script, k: nat): Stats {
    Stats(k + 1, k + 1, k, RateLimitsIn(script, k), 0, TimeoutsIn(script, k), 0)
  }

  /** All attempts before k were transient and in budget. */
  ghost predicate Arrives(config: Config, script: Script, k: nat) {
    k <= Tries(config) && forall j | 0 <= j < k :: !Exhausted(config, script, j) && Transient(script(j).reply)
  }

  /** The call waits for attempt k. */
  ghost predicate WaitsFor(config: Config, script: Script, begun: real, k: nat, r: Run) {
    && Arrives(config, script, k) && k < Tries(config) && !Exhausted(config, script, k)
    && r == Run(config, begun, k, LastReason(script, k), LastStatus(script, k), Sent, SentStats(script, k))
  }

  /** The call has ended as its timetable says. */
  ghost predicate Ended(config: Config, script: Script, r: Run) {
    r.phase == Done(ResultOf(config, script)) && r.own == Delta(config, script)
  }

  /** The call is about to send attempt k, or to give up. */
  ghost predicate Pauses(config: Config, script: Script, begun: real, k: nat, r: Run) {
    && Arrives(config, script, k)
    && r.config == config && r.begun == begun && r.attempt == k && !r.phase.Done?
    && r.lastReason == LastReason(script, k) && r.lastStatus == LastStatus(script, k)
    && r.own == Stats(k, k, if 0 < k && k == Tries(config) then k - 1 else k,
                      RateLimitsIn(script, k), 0, TimeoutsIn(script, k), 0)
  }

  lemma EnterOnTime(config: Config, script: Script, begun: real, k: nat, r: Run, now: real)
    requires Pauses(config, script, begun, k, r)
    requires k < Tries(config) ==> now == begun + StartOf(config, script, k)
    ensures var r' := Enter(r, now);
            WaitsFor(config, script, begun, k, r') ||
            (Ended(config, script, r') &&
             Stop(config, script) == k && (k < Tries(config) ==> Exhausted(config, script, k)))
  {
    hide StartOf, LastReason, LastStatus, RateLimitsIn, TimeoutsIn, Transient, StopFrom, Verdict;
    if k == Tries(config) {
      StopAtEnd(config, script);
    } else if Exhausted(config, script, k) {
      StopUnique(config, script, k);
    }
  }

  lemma BeginOnTime(config: Config, script: Script, begun: real)
    ensures var r := BeginCall(config, begun);
            WaitsFor(config, script, begun, 0, r) ||
            (Ended(config, script, r) &&
             Stop(config, script) == 0 && (0 < Tries(config) ==> Exhausted(config, script, 0)))
  {
    Beginning(config, script);
    EnterOnTime(config, script, begun, 0, Run(config, begun, 0, Http, None, Sleeping, NONE), begun);
  }

  lemma ReceiveOnTime(config: Config, script: Script, begun: real, k: nat, r: Run, now: real)
    requires WaitsFor(config, script, begun, k, r)
    ensures var r' := Receive(r, script(k).reply, now);
            if r'.phase.Sleeping? then Pauses(config, script, begun, k + 1, r') && k + 1 < Tries(config)
            else Ended(config, script, r') && Made(config, script) == k + 1 && !OutOfBudget(config, script)
  {
    hide StartOf, LastReason, LastStatus, RateLimitsIn, TimeoutsIn, Transient, StopFrom, Verdict;
    NextAttempt(config, script, k);
    if !Transient(script(k).reply) {
      StopUnique(config, script, k);
      VerdictIsNotBudget(script(k).reply, k + 1);
    } else if k + 1 == Tries(config) {
      StopAtEnd(config, script);
    }
  }

  // ---- the code ----

  /** The counters of the process, and its monotonic clock. */
  class Provider {
    var stats: Stats
    var clock: real

    constructor ()
      ensures stats == NONE
    {
      stats, clock := NONE, 0.0;
    }
  }

  /** One call in flight. Its methods are the stretches between two waits; what happens to the
      counters meanwhile is other calls' doing. */
  class LlmCall {
    const provider: Provider
    var run: Run

    constructor (provider: Provider, config: Config)
      modifies provider`stats
      ensures this.provider == provider && run == BeginCall(config, provider.clock)
      ensures Elsewhere() == old(provider.stats)
    {
      this.provider := provider;
      run := Run(config, provider.clock, 0, Http, None, Sleeping, NONE);
      new;
      EnterLoop();
    }

    /** What the counters hold besides this call's part. */
    ghost function Elsewhere(): Stats
      reads this, provider
    {
      Minus(provider.stats, run.own)
    }

    /** The head of the loop. */
    method EnterLoop()
      modifies this, provider`stats
      ensures run == Enter(old(run), provider.clock)
      ensures Elsewhere() == old(Elsewhere())
    {
      var config := run.config;
      if run.attempt >= Tries(config) {
        Count(NONE.(failures := 1));
        run := run.(phase := Done(Raised(LlmError(run.lastReason, run.attempt, run.lastStatus))));
      } else if config.totalTimeout.Some? && provider.clock >= run.begun + config.totalTimeout.value {
        Count(NONE.(budgetExhausted := 1, failures := 1));
        run := run.(phase := Done(Raised(LlmError(Budget, run.attempt, run.lastStatus))));
      } else {
        Count(NONE.(calls := 1, attempts := 1));
        run := run.(phase := Sent);
      }
    }

    method Count(more: Stats)
      modifies this`run, provider`stats
      ensures Elsewhere() == old(Elsewhere())
      ensures run == old(run).(own := Plus(old(run.own), more))
    {
      provider.stats := Plus(provider.stats, more);
      run := run.(own := Plus(run.own, more));
    }

    /** From a reply to the next wait, or to the end. */
    method OnReply(reply: Reply)
      requires run.phase.Sent?
      modifies this, provider`stats
      ensures run == Receive(old(run), reply, provider.clock)
      ensures Elsewhere() == old(Elsewhere())
    {
      hide Enter, Noted, Verdict, Plus, Minus, Transient;
      if !Transient(reply) {
        var v := Verdict(reply, run.attempt + 1);
        if v.Raised? {
          Count(NONE.(failures := 1));
        }
        PlusFields(old(run).own);
        run := run.(phase := Done(v));
      } else {
        var more := run.attempt < run.config.maxRetries;
        Note(reply);
        if more {
          PlusFields(run.own);
          Count(NONE.(retries := 1));
          run := run.(phase := Sleeping);
        } else {
          EnterLoop();
        }
      }
    }

    method Note(reply: Reply)
      modifies this, provider`stats
      ensures run == Noted(old(run), reply)
      ensures Elsewhere() == old(Elsewhere())
    {
      hide Minus;
      Count(NONE.(rateLimited := if Is429(reply) then 1 else 0, timeouts := if reply.TimedOut? then 1 else 0));
      run := run.(attempt := run.attempt + 1,
                  lastReason := ReasonAfter(reply, run.lastReason), lastStatus := StatusAfter(reply, run.lastStatus));
    }
  }

  lemma PlusFields(a: Stats)
    ensures Plus(a, NONE.(failures := 1)) == a.(failures := a.failures + 1)
    ensures Plus(a, NONE.(retries := 1)) == a.(retries := a.retries + 1)
  {
  }

  /** The sum of what other calls add during the first n waits. */
  ghost function OthersIn(others: nat -> Stats, n: nat): Stats {
    if n == 0 then NONE else Plus(OthersIn(others, n - 1), others(n - 1))
  }

  class LlmClient {
    const config: Config
    const provider: Provider

    constructor (provider: Provider, config: Config)
      ensures this.provider == provider && this.config == config
    {
      this.provider, this.config := provider, config;
    }

    /** Sends, waits and pauses until the call has ended, while other calls move the counters
        during every wait. */
    method AttemptLoop(script: Script, others: nat -> Stats) returns (result: CallResult)
      modifies provider
      ensures Concludes(config, script, result)
      ensures result == ResultOf(config, script)
      ensures provider.clock == old(provider.clock) + Elapsed(config, script)
      ensures var own := Delta(config, script);
              provider.stats == Plus(Plus(old(provider.stats), own), OthersIn(others, own.attempts + own.retries))
    {
      hide StartOf, LastReason, Ended, ResultOf, Delta, WaitsFor, Stop, StopFrom, OnTime, Plus, Minus, Concludes;
      var begun := provider.clock;
      var call := new LlmCall(provider, config);
      var attempt, waits := 0, 0;
      BeginFacts(config, script, begun, call.run);
      PlusNone(old(provider.stats));
      while call.run.phase.Sent?
        invariant call.provider == provider
        invariant OnTime(config, script, begun, attempt, waits, call.run, provider.clock)
        invariant call.Elsewhere() == Plus(old(provider.stats), OthersIn(others, waits))
        invariant call.run.phase.Sent? ==> attempt < Tries(config)
        decreases Tries(config) - attempt, if call.run.phase.Sent? then 1 else 0
      {
        ghost var waited := waits;
        attempt, waits := Round(call, script, others, begun, attempt, waits);
        OthersAdded(old(provider.stats), others, waited, waits);
      }
      EndedFacts(config, script, begun, attempt, waits, call.run, provider.clock);
      PlusMinus(old(provider.stats), provider.stats, call.run.own, OthersIn(others, waits));
      result := call.run.phase.result;
      ResultConcludes(config, script);
    }

    /** One attempt, and the pause after it if there is to be another. */
    method Round(call: LlmCall, script: Script, others: nat -> Stats, begun: real, attempt: nat, waits: nat)
      returns (attempt': nat, waits': nat)
      requires call.provider == provider && call.run.phase.Sent?
      requires OnTime(config, script, begun, attempt, waits, call.run, provider.clock)
      modifies call, provider
      ensures OnTime(config, script, begun, attempt', waits', call.run, provider.clock)
      ensures call.run.phase.Sent? ==> attempt' == attempt + 1 < Tries(config)
      ensures !call.run.phase.Sent? ==> attempt' <= Tries(config) && attempt' >= attempt
      ensures waits' == waits + 1 || waits' == waits + 2
      ensures call.Elsewhere() ==
              if waits' == waits + 1 then Plus(old(call.Elsewhere()), others(waits))
              else Plus(Plus(old(call.Elsewhere()), others(waits)), others(waits + 1))
    {
      hide StartOf, Enter, Receive, LastReason, Ended, ResultOf, Delta, WaitsFor, Pauses, Stop, StopFrom,
           Backoff, Plus, Minus, Exhausted;
      RoundFacts(config, script, begun, attempt, waits, call.run, provider.clock);
      provider.clock := provider.clock + script(attempt).duration;
      Meanwhile(call, others, waits);
      ReceiveOnTime(config, script, begun, attempt, call.run, provider.clock);
      call.OnReply(script(attempt).reply);
      attempt', waits' := attempt, waits + 1;
      if call.run.phase.Sleeping? {
        PauseFacts(config, script, begun, attempt + 1, call.run);
        Pause(attempt, begun);
        Meanwhile(call, others, waits');
        attempt', waits' := attempt + 1, waits + 2;
        EnterOnTime(config, script, begun, attempt', call.run, provider.clock);
        call.EnterLoop();
        WokenFacts(config, script, begun, attempt', call.run);
      } else {
        RepliedFacts(config, script, attempt);
        EndedDone(config, script, call.run);
      }
    }

    /** Other calls run while this one waits. */
    method Meanwhile(call: LlmCall, others: nat -> Stats, n: nat)
      requires call.provider == provider
      modifies provider`stats
      ensures provider.stats == Plus(old(provider.stats), others(n))
      ensures call.Elsewhere() == Plus(old(call.Elsewhere()), others(n))
    {
      provider.stats := Plus(provider.stats, others(n));
    }

    /** Sleeps before the next attempt, no longer than the budget that remains. */
    method Pause(attempt: nat, begun: real)
      modifies provider`clock
      ensures provider.clock == old(provider.clock) + Backoff(config, attempt, old(provider.clock) - begun)
      ensures config.totalTimeout == None ==> provider.clock == old(provider.clock) + 1.5 * (attempt + 1) as real
      ensures config.totalTimeout.Some? ==>
                var deadline := begun + config.totalTimeout.value;
                provider.clock == if old(provider.clock) >= deadline then old(provider.clock)
                                  else Min(deadline, old(provider.clock) + 1.5 * (attempt + 1) as real)
    {
      var delay := 1.5 * (attempt + 1) as real;
      if config.totalTimeout.Some? {
        delay := Min(delay, Max(0.0, begun + config.totalTimeout.value - provider.clock));
      }
      if delay > 0.0 {
        provider.clock := provider.clock + delay;
      }
    }
  }

  /** How often a call waits. */
  function WaitsOf(config: Config, script: Script): int {
    Delta(config, script).attempts + Delta(config, script).retries
  }

  /** A call waiting for attempt k, or ended, after so many waits and at this time. */
  ghost predicate OnTime(config: Config, script: Script, begun: real, k: nat, waits: nat, r: Run, now: real) {
    if r.phase.Sent?
    then WaitsFor(config, script, begun, k, r) && waits == 2 * k && now == begun + StartOf(config, script, k)
    else Ended(config, script, r) && waits == WaitsOf(config, script) && now == begun + Elapsed(config, script)
  }

  lemma BeginFacts(config: Config, script: Script, begun: real, r: Run)
    requires r == BeginCall(config, begun)
    ensures OnTime(config, script, begun, 0, 0, r, begun)
    ensures r.phase.Sent? ==> 0 < Tries(config)
  {
    hide LastReason, LastStatus, Delta, ResultOf, StopFrom, Exhausted, BeginCall;
    BeginOnTime(config, script, begun);
    if !r.phase.Sent? {
      NoWaits(config, script);
    }
  }

  lemma NoWaits(config: Config, script: Script)
    requires Stop(config, script) == 0 && (0 < Tries(config) ==> Exhausted(config, script, 0))
    ensures WaitsOf(config, script) == 0 && Elapsed(config, script) == 0.0
  {
    hide Exhausted, StopFrom;
  }

  lemma RoundFacts(config: Config, script: Script, begun: real, k: nat, waits: nat, r: Run, now: real)
    requires r.phase.Sent? && OnTime(config, script, begun, k, waits, r, now)
    ensures WaitsFor(config, script, begun, k, r) && k < Tries(config)
    ensures waits == 2 * k && now == begun + StartOf(config, script, k)
  {
  }

  lemma PauseFacts(config: Config, script: Script, begun: real, k: nat, r: Run)
    requires k > 0 && Pauses(config, script, begun, k, r)
    ensures r.config == config && r.begun == begun && r.attempt == k
    ensures var ended := StartOf(config, script, k - 1) + script(k - 1).duration;
            StartOf(config, script, k) == ended + Backoff(config, k - 1, ended)
  {
  }

  lemma WokenFacts(config: Config, script: Script, begun: real, k: nat, r: Run)
    requires 0 < k < Tries(config)
    requires WaitsFor(config, script, begun, k, r) ||
             (Ended(config, script, r) && Stop(config, script) == k && Exhausted(config, script, k))
    ensures r.phase.Sent? ==> WaitsFor(config, script, begun, k, r)
    ensures !r.phase.Sent? ==> Ended(config, script, r) && WaitsOf(config, script) == 2 * k &&
                               Elapsed(config, script) == StartOf(config, script, k)
    ensures r.phase.Sent? || r.phase.Done?
  {
    hide Exhausted, StopFrom, StartOf, ResultOf, LastReason, LastStatus;
  }

  lemma RepliedFacts(config: Config, script: Script, k: nat)
    requires Made(config, script) == k + 1 && !OutOfBudget(config, script)
    ensures WaitsOf(config, script) == 2 * k + 1
    ensures Elapsed(config, script) == StartOf(config, script, k) + script(k).duration
  {
  }

  lemma EndedDone(config: Config, script: Script, r: Run)
    requires Ended(config, script, r)
    ensures r.phase.Done?
  {
  }

  lemma EndedFacts(config: Config, script: Script, begun: real, k: nat, waits: nat, r: Run, now: real)
    requires !r.phase.Sent? && OnTime(config, script, begun, k, waits, r, now)
    ensures r.phase == Done(ResultOf(config, script)) && r.own == Delta(config, script)
    ensures waits == WaitsOf(config, script) && now == begun + Elapsed(config, script)
  {
  }

  lemma PlusNone(a: Stats)
    ensures Plus(a, NONE) == a
  {
  }

  lemma PlusMinus(a: Stats, all: Stats, own: Stats, rest: Stats)
    requires Minus(all, own) == Plus(a, rest)
    ensures all == Plus(Plus(a, own), rest)
  {
  }

  lemma OthersAdded(a: Stats, others: nat -> Stats, n: nat, m: nat)
    ensures m == n + 1 ==> Plus(Plus(a, OthersIn(others, n)), others(n)) == Plus(a, OthersIn(others, m))
    ensures m == n + 2 ==>
              Plus(Plus(Plus(a, OthersIn(others, n)), others(n)), others(n + 1)) == Plus(a, OthersIn(others, m))
  {
  }
}
