/** One chat completion: retries with a growing pause, under a budget of time. */
module LlmRetry {
  import opened Wrappers
  import opened Reals

  datatype ErrorReason = Timeout | RateLimited | Transport | Budget | Empty | Parse | Http

  datatype LlmError = LlmError(reason: ErrorReason, attempts: nat, status: Option<int>)

  /** A decoded body. Both texts are stripped, and empty where the field is absent or no string. */
  datatype Body = Message(content: string, reasoning: string) | Malformed | NotAnObject

  /** What the gateway does to one attempt. `Escapes` is an exception the loop does not name. */
  datatype Reply = Response(status: int, body: Body) | TimedOut | TransportFailed | OtherHttpError | Escapes

  datatype Attempt = Attempt(reply: Reply, duration: real)

  datatype CallResult = Answer(text: string) | Raised(error: LlmError) | Escaped

  datatype Stats = Stats(calls: int, attempts: int, retries: int, rateLimited: int,
                         budgetExhausted: int, timeouts: int, failures: int)

  datatype Config = Config(timeout: real, totalTimeout: Option<real>, maxRetries: int)

  /** How the gateway answers attempt 0, 1, 2, ... */
  type Script = nat -> Attempt

  predicate RetryableStatus(status: int) {
    status == 429 || status == 500 || status == 502 || status == 503 || status == 504
  }

  predicate Transient(reply: Reply) {
    reply.TimedOut? || reply.TransportFailed? || (reply.Response? && RetryableStatus(reply.status))
  }

  /** What a reply that is not retried comes to, as the given attempt. */
  function Verdict(reply: Reply, attempts: nat): CallResult
    requires !Transient(reply)
  {
    match reply
    case OtherHttpError => Raised(LlmError(Http, attempts, None))
    case Escapes => Escaped
    case Response(status, body) =>
      if !(200 <= status < 300) then Raised(LlmError(Http, attempts, None))
      else match body {
        case Malformed => Raised(LlmError(Parse, attempts, None))
        case NotAnObject => Escaped
        case Message(content, reasoning) =>
          if content != "" then Answer(content)
          else if reasoning != "" then Answer(reasoning)
          else Raised(LlmError(Empty, attempts, None))
      }
  }

  // ---- the timetable of a call ----

  function Tries(config: Config): nat {
    if config.maxRetries < 0 then 0 else config.maxRetries + 1
  }

  /** The pause after an attempt that ended at a given time since the call began. */
  function Backoff(config: Config, attempt: nat, elapsed: real): real {
    var delay := 1.5 * (attempt + 1) as real;
    match config.totalTimeout
    case None => delay
    case Some(total) => Min(delay, Max(0.0, total - elapsed))
  }

  /** When attempt k begins, counted from the beginning of the call. */
  function StartOf(config: Config, script: Script, k: nat): real {
    if k == 0 then 0.0
    else
      var ended := StartOf(config, script, k - 1) + script(k - 1).duration;
      ended + Backoff(config, k - 1, ended)
  }

  predicate Exhausted(config: Config, script: Script, k: nat) {
    config.totalTimeout.Some? && StartOf(config, script, k) >= config.totalTimeout.value
  }

  /** The first attempt from k on that is out of budget, is not to be retried or does not exist. */
  function StopFrom(config: Config, script: Script, k: nat): (s: nat)
    ensures s < Tries(config) ==> Exhausted(config, script, s) || !Transient(script(s).reply)
    decreases Tries(config) - k
  {
    if k >= Tries(config) || Exhausted(config, script, k) || !Transient(script(k).reply) then k
    else StopFrom(config, script, k + 1)
  }

  function Stop(config: Config, script: Script): nat {
    StopFrom(config, script, 0)
  }

  predicate OutOfBudget(config: Config, script: Script) {
    var s := Stop(config, script);
    s < Tries(config) && Exhausted(config, script, s)
  }

  /** How many attempts a call makes. */
  function Made(config: Config, script: Script): nat {
    var s := Stop(config, script);
    if s >= Tries(config) || Exhausted(config, script, s) then s else s + 1
  }

  predicate Is429(reply: Reply) {
    reply.Response? && reply.status == 429
  }

  function ReasonAfter(reply: Reply, before: ErrorReason): ErrorReason {
    match reply
    case TimedOut => Timeout
    case TransportFailed => Transport
    case _ => if Is429(reply) then RateLimited else before
  }

  /** The reason remembered after the first n attempts. */
  function LastReason(script: Script, n: nat): ErrorReason {
    if n == 0 then Http else ReasonAfter(script(n - 1).reply, LastReason(script, n - 1))
  }

  function LastStatus(script: Script, n: nat): Option<int> {
    if n == 0 then None
    else
      var reply := script(n - 1).reply;
      if reply.Response? && RetryableStatus(reply.status) then Some(reply.status) else LastStatus(script, n - 1)
  }

  function ResultOf(config: Config, script: Script): CallResult {
    var s := Stop(config, script);
    if s >= Tries(config) then Raised(LlmError(LastReason(script, s), s, LastStatus(script, s)))
    else if Exhausted(config, script, s) then Raised(LlmError(Budget, s, LastStatus(script, s)))
    else Verdict(script(s).reply, s + 1)
  }

  /** How long a call lasts. */
  function Elapsed(config: Config, script: Script): real {
    var n := Made(config, script);
    if n == 0 then 0.0
    else if OutOfBudget(config, script) then StartOf(config, script, n)
    else StartOf(config, script, n - 1) + script(n - 1).duration
  }

  function RateLimitsIn(script: Script, n: nat): nat {
    if n == 0 then 0
    else
      RateLimitsIn(script, n - 1) +
      if script(n - 1).reply.Response? && script(n - 1).reply.status == 429 then 1 else 0
  }

  function TimeoutsIn(script: Script, n: nat): nat {
    if n == 0 then 0 else TimeoutsIn(script, n - 1) + if script(n - 1).reply.TimedOut? then 1 else 0
  }

  /** What one call adds to the counters. */
  function Delta(config: Config, script: Script): Stats {
    var n := Made(config, script);
    Stats(n, n,
          if OutOfBudget(config, script) || n == 0 then n else n - 1,
          RateLimitsIn(script, n),
          if OutOfBudget(config, script) then 1 else 0,
          TimeoutsIn(script, n),
          if ResultOf(config, script).Raised? then 1 else 0)
  }

  function Plus(a: Stats, b: Stats): Stats {
    Stats(a.calls + b.calls, a.attempts + b.attempts, a.retries + b.retries, a.rateLimited + b.rateLimited,
          a.budgetExhausted + b.budgetExhausted, a.timeouts + b.timeouts, a.failures + b.failures)
  }

  // ---- where a call stops ----

  lemma {:induction false} StopFromIsFirst(config: Config, script: Script, k: nat)
    requires k <= Tries(config)
    ensures var s := StopFrom(config, script, k);
            && k <= s <= Tries(config)
            && (forall j | k <= j < s :: !Exhausted(config, script, j) && Transient(script(j).reply))
            && (s < Tries(config) ==> Exhausted(config, script, s) || !Transient(script(s).reply))
    decreases Tries(config) - k
  {
    hide Exhausted, Transient;
    if k < Tries(config) && !Exhausted(config, script, k) && Transient(script(k).reply) {
      StopFromIsFirst(config, script, k + 1);
    }
  }

  /** A call answers exactly when some attempt within the allowed number gets a text, and before
      it every attempt was transient and none, itself included, found the budget spent. The answer
      is that attempt's content, or its reasoning when the content is empty. */
  lemma AnswersExactly(config: Config, script: Script)
    ensures ResultOf(config, script).Answer? <==>
            exists s: nat :: IsAnswered(config, script, s)
    ensures forall s: nat | IsAnswered(config, script, s) ::
              var body := script(s).reply.body;
              ResultOf(config, script) == Answer(if body.content != "" then body.content else body.reasoning)
  {
    hide Transient;
    StopFromIsFirst(config, script, 0);
    var stop := Stop(config, script);
    if ResultOf(config, script).Answer? {
      StatusesApart();
      assert IsAnswered(config, script, stop);
    }
    forall s: nat | IsAnswered(config, script, s)
      ensures Stop(config, script) == s && !Transient(script(s).reply)
    {
      StatusesApart();
      StopUnique(config, script, s);
    }
  }

  /** No success is retried. */
  lemma StatusesApart()
    ensures forall reply: Reply | reply.Response? && 200 <= reply.status < 300 :: !Transient(reply)
  {
  }

  ghost predicate IsAnswered(config: Config, script: Script, s: nat) {
    && s < Tries(config)
    && (forall j | 0 <= j < s :: !Exhausted(config, script, j) && Transient(script(j).reply))
    && !Exhausted(config, script, s)
    && (var reply := script(s).reply;
        && reply.Response? && 200 <= reply.status < 300
        && reply.body.Message? && (reply.body.content != "" || reply.body.reasoning != ""))
  }

  /** The attempts up to k are made or, for k itself, about to be: those before were transient,
      and none found the budget spent. */
  ghost predicate GetsTo(config: Config, script: Script, k: nat) {
    && k <= Tries(config)
    && (forall j | 0 <= j < k :: !Exhausted(config, script, j) && Transient(script(j).reply))
  }

  /** What a reply that is not retried comes to, as the n-th attempt: a bad status or another
      transport error is an HTTP error, a body that does not decode a parse error, one without any
      text an empty response; an object of another kind escapes as an exception. */
  ghost predicate ReplySays(reply: Reply, n: nat, result: CallResult) {
    match reply
    case OtherHttpError => result == Raised(LlmError(Http, n, None))
    case Escapes => result == Escaped
    case TimedOut => false
    case TransportFailed => false
    case Response(status, body) =>
      && (status < 200 || status >= 300 ==> result == Raised(LlmError(Http, n, None)))
      && (200 <= status < 300 ==>
            match body
            case Malformed => result == Raised(LlmError(Parse, n, None))
            case NotAnObject => result == Escaped
            case Message(content, reasoning) =>
              && (content != "" ==> result == Answer(content))
              && (content == "" && reasoning != "" ==> result == Answer(reasoning))
              && (content == "" && reasoning == "" ==> result == Raised(LlmError(Empty, n, None))))
  }

  /** How a call ends: at the first attempt that is not begun for want of time, at the first reply
      that is not retried, or with its tries used up. */
  ghost predicate Concludes(config: Config, script: Script, result: CallResult) {
    forall k: nat | GetsTo(config, script, k) ::
      && (k == Tries(config) ==> result == Raised(LlmError(LastReason(script, k), k, LastStatus(script, k))))
      && (k < Tries(config) && Exhausted(config, script, k) ==>
            result == Raised(LlmError(Budget, k, LastStatus(script, k))))
      && (k < Tries(config) && !Exhausted(config, script, k) && !Transient(script(k).reply) ==>
            ReplySays(script(k).reply, k + 1, result))
  }

  lemma ResultConcludes(config: Config, script: Script)
    ensures Concludes(config, script, ResultOf(config, script))
  {
    hide Transient, Exhausted, StopFrom, LastReason, LastStatus;
    var result := ResultOf(config, script);
    forall k: nat | GetsTo(config, script, k)
      ensures k == Tries(config) ==> result == Raised(LlmError(LastReason(script, k), k, LastStatus(script, k)))
      ensures k < Tries(config) && Exhausted(config, script, k) ==>
                result == Raised(LlmError(Budget, k, LastStatus(script, k)))
      ensures k < Tries(config) && !Exhausted(config, script, k) && !Transient(script(k).reply) ==>
                ReplySays(script(k).reply, k + 1, result)
    {
      if k == Tries(config) {
        StopAtEnd(config, script);
      } else if Exhausted(config, script, k) {
        StopUnique(config, script, k);
      } else if !Transient(script(k).reply) {
        StopUnique(config, script, k);
        VerdictSays(script(k).reply, k + 1);
      }
    }
  }

  lemma VerdictSays(reply: Reply, n: nat)
    requires !Transient(reply)
    ensures ReplySays(reply, n, Verdict(reply, n))
  {
  }

  /** Attempt k is made exactly when all before it were transient and neither they nor it found
      the budget spent. */
  lemma MadeExactly(config: Config, script: Script, k: nat)
    ensures k < Made(config, script) <==>
            k < Tries(config) && GetsTo(config, script, k) && !Exhausted(config, script, k)
  {
    hide Transient, Exhausted, StopFrom;
    StopFromIsFirst(config, script, 0);
    var stopping := script(Stop(config, script)).reply;
  }

  /** Each made attempt that is transient and not the last allowed is retried, and no other. */
  lemma RetriesExactly(config: Config, script: Script)
    ensures Delta(config, script).retries == |set k: nat | k < Made(config, script) && Transient(script(k).reply) &&
                                                          k < config.maxRetries|
  {
    hide Exhausted, StopFrom, RateLimitsIn, TimeoutsIn, Verdict, LastReason, LastStatus;
    StopFromIsFirst(config, script, 0);
    var n, r := Made(config, script), Delta(config, script).retries;
    var retried := set k: nat | k < n && Transient(script(k).reply) && k < config.maxRetries;
    assert retried == UpTo(r);
  }

  /** The numbers below n. */
  function UpTo(n: nat): (s: set<nat>)
    ensures |s| == n && forall k: nat :: k in s <==> k < n
  {
    if n == 0 then {} else UpTo(n - 1) + {n - 1}
  }

  /** The counters of rate limits and timeouts count the attempts that were so. */
  lemma {:induction false} RateLimitsAreCounted(script: Script, n: nat)
    ensures RateLimitsIn(script, n) == |set k: nat | k < n && Is429(script(k).reply)|
  {
    hide Is429;
    if n > 0 {
      RateLimitsAreCounted(script, n - 1);
      SameRateLimit(script(n - 1).reply);
      var before := set k: nat | k < n - 1 && Is429(script(k).reply);
      assert (set k: nat | k < n && Is429(script(k).reply)) ==
             before + if Is429(script(n - 1).reply) then {n - 1} else {};
    }
  }

  lemma SameRateLimit(reply: Reply)
    ensures Is429(reply) <==> reply.Response? && reply.status == 429
  {
  }

  lemma {:induction false} TimeoutsAreCounted(script: Script, n: nat)
    ensures TimeoutsIn(script, n) == |set k: nat | k < n && script(k).reply.TimedOut?|
  {
    if n > 0 {
      TimeoutsAreCounted(script, n - 1);
      var before := set k: nat | k < n - 1 && script(k).reply.TimedOut?;
      assert (set k: nat | k < n && script(k).reply.TimedOut?) ==
             before + if script(n - 1).reply.TimedOut? then {n - 1} else {};
    }
  }

  lemma StopUnique(config: Config, script: Script, s: nat)
    requires s < Tries(config)
    requires forall j | 0 <= j < s :: !Exhausted(config, script, j) && Transient(script(j).reply)
    requires Exhausted(config, script, s) || !Transient(script(s).reply)
    ensures Stop(config, script) == s
  {
    hide Exhausted, Transient, StopFrom;
    StopFromIsFirst(config, script, 0);
  }

  // ---- time ----

  /** No attempt outlasts the timeout the client gives it. */
  ghost predicate InTime(config: Config, script: Script) {
    forall k: nat :: 0.0 <= script(k).duration <= config.timeout
  }

  /** The time for k attempts and the pauses after them. */
  function Allowance(timeout: real, k: nat): real {
    Mul(k as real, timeout) + 0.75 * Mul(k as real, (k + 1) as real)
  }

  lemma AllowanceStep(timeout: real, k: nat)
    ensures Allowance(timeout, k + 1) == Allowance(timeout, k) + timeout + 1.5 * (k + 1) as real
  {
    var x := k as real;
    assert (x + 1.0) * (x + 2.0) == x * (x + 1.0) + 2.0 * (x + 1.0);
    assert (x + 1.0) * timeout == x * timeout + timeout;
  }

  lemma {:induction false} AllowanceGrows(timeout: real, k: nat, r: nat)
    requires k <= r && timeout >= 0.0
    ensures Allowance(timeout, k) <= Allowance(timeout, r)
  {
    if k < r {
      AllowanceGrows(timeout, k, r - 1);
      AllowanceStep(timeout, r - 1);
    }
  }

  lemma {:induction false} StartBound(config: Config, script: Script, k: nat)
    requires InTime(config, script)
    ensures 0.0 <= StartOf(config, script, k) <= Allowance(config.timeout, k)
  {
    hide Allowance;
    AllowanceAtZero(config.timeout);
    if k > 0 {
      StartBound(config, script, k - 1);
      AllowanceStep(config.timeout, k - 1);
      assert 0.0 <= script(k - 1).duration <= config.timeout;
    }
  }

  lemma AllowanceAtZero(timeout: real)
    ensures Allowance(timeout, 0) == 0.0
  {
  }

  /** With or without a budget, a call lasts no longer than R + 1 attempts and R pauses of 1.5
      seconds, 3 seconds and so on. */
  lemma ElapsedBound(config: Config, script: Script)
    requires InTime(config, script) && config.maxRetries >= 0
    ensures var r := config.maxRetries;
            0.0 <= Elapsed(config, script) <= (r + 1) as real * config.timeout + 0.75 * (r as real * (r + 1) as real)
  {
    var r := config.maxRetries;
    ElapsedWithin(config, script, r);
    var x := r as real;
    assert (x + 1.0) * config.timeout == x * config.timeout + config.timeout;
  }

  lemma ElapsedWithin(config: Config, script: Script, r: nat)
    requires InTime(config, script) && config.maxRetries == r
    ensures 0.0 <= Elapsed(config, script) <= Allowance(config.timeout, r) + config.timeout
  {
    hide Allowance, StartOf, Exhausted, Transient, StopFrom;
    StopFromIsFirst(config, script, 0);
    var n := Made(config, script);
    var last := if n == 0 then 0 else if OutOfBudget(config, script) then n else n - 1;
    assert 0.0 <= script(last).duration <= config.timeout;
    StartBound(config, script, last);
    AllowanceGrows(config.timeout, last, r);
  }

  /** An attempt begun in budget, and the pause after it, end within one timeout of the deadline. */
  lemma BegunInBudget(config: Config, script: Script, k: nat)
    requires InTime(config, script) && config.timeout > 0.0 && config.totalTimeout.Some?
    requires !Exhausted(config, script, k)
    ensures var latest := config.totalTimeout.value + config.timeout;
            && StartOf(config, script, k) + script(k).duration < latest
            && StartOf(config, script, k + 1) < latest
  {
    assert 0.0 <= script(k).duration <= config.timeout;
    var ended := StartOf(config, script, k) + script(k).duration;
    assert StartOf(config, script, k + 1) == ended + Backoff(config, k, ended);
  }

  /** A positive budget is overrun by less than one timeout, whatever the number of retries; a
      budget that is not positive is spent before the first attempt. */
  lemma BudgetBound(config: Config, script: Script)
    requires InTime(config, script) && config.timeout > 0.0 && config.totalTimeout.Some?
    ensures config.totalTimeout.value > 0.0 ==> Elapsed(config, script) < config.totalTimeout.value + config.timeout
    ensures config.totalTimeout.value <= 0.0 ==> Made(config, script) == 0 && Elapsed(config, script) == 0.0
  {
    hide StopFrom, Transient, StartOf, Exhausted, InTime;
    StopFromIsFirst(config, script, 0);
    ExhaustedAtStart(config, script);
    var n := Made(config, script);
    if n > 0 {
      BegunInBudget(config, script, n - 1);
    }
  }

  lemma ExhaustedAtStart(config: Config, script: Script)
    requires config.totalTimeout.Some?
    ensures Exhausted(config, script, 0) <==> config.totalTimeout.value <= 0.0
  {
  }

  // ---- the counters ----

  /** Attempts balance retries and calls, except that a call without any try counts none. */
  lemma CallBalances(config: Config, script: Script)
    ensures var d := Delta(config, script);
            && d.calls == d.attempts
            && 0 <= d.retries <= d.attempts <= Tries(config)
            && (d.attempts == d.retries + 1 - d.budgetExhausted <==> config.maxRetries >= 0)
            && d.rateLimited + d.timeouts <= d.attempts
            && (d.failures == 1 <==> ResultOf(config, script).Raised?)
            && (d.budgetExhausted == 1 <==>
                ResultOf(config, script).Raised? && ResultOf(config, script).error.reason == Budget)
  {
    StopFromIsFirst(config, script, 0);
    TransientCounts(script, Made(config, script));
    LastReasonIsNotBudget(script, Stop(config, script));
  }

  lemma {:induction false} TransientCounts(script: Script, n: nat)
    ensures RateLimitsIn(script, n) + TimeoutsIn(script, n) <= n
  {
    if n > 0 {
      TransientCounts(script, n - 1);
    }
  }

  lemma {:induction false} LastReasonIsNotBudget(script: Script, n: nat)
    ensures LastReason(script, n) != Budget
  {
    if n > 0 {
      LastReasonIsNotBudget(script, n - 1);
    }
  }

  // ---- the reported reason ----

  /** The replies that set a reason. */
  predicate SetsReason(reply: Reply) {
    reply.TimedOut? || reply.TransportFailed? || Is429(reply)
  }

  /** What a reply says by itself about the cause of a failure. */
  function OwnReason(reply: Reply): ErrorReason {
    ReasonAfter(reply, Http)
  }

  function OwnStatus(reply: Reply): Option<int> {
    if reply.Response? then Some(reply.status) else None
  }

  lemma {:induction false} NoReasonSet(script: Script, n: nat)
    ensures LastReason(script, n) == Http <==> forall j | 0 <= j < n :: !SetsReason(script(j).reply)
  {
    if n > 0 {
      NoReasonSet(script, n - 1);
    }
  }

  lemma {:induction false} NoStatusSet(script: Script, n: nat)
    requires forall j | 0 <= j < n :: Transient(script(j).reply)
    ensures LastStatus(script, n) == None <==> forall j | 0 <= j < n :: !script(j).reply.Response?
  {
    if n > 0 {
      NoStatusSet(script, n - 1);
    }
  }

  /** A reason is that of the last attempt that set one. */
  lemma {:induction false} ReasonIsLastSet(script: Script, n: nat, k: nat)
    requires k < n && SetsReason(script(k).reply)
    requires forall j | k < j < n :: !SetsReason(script(j).reply)
    ensures LastReason(script, n) == OwnReason(script(k).reply)
  {
    if k < n - 1 {
      ReasonIsLastSet(script, n - 1, k);
    }
  }

  /** A call that uses up its tries blames the last attempt exactly when that one set a reason
      or none before it did; and it reports the last attempt's status exactly when that one
      had a status or none before it had. */
  lemma ReasonIsLastAttempts(config: Config, script: Script)
    requires Tries(config) > 0 && Stop(config, script) == Tries(config)
    ensures ResultOf(config, script).Raised?
    ensures var error, n := ResultOf(config, script).error, Tries(config);
            var last := script(n - 1).reply;
            && (error.reason == OwnReason(last) <==>
                SetsReason(last) || forall j | 0 <= j < n - 1 :: !SetsReason(script(j).reply))
            && (error.status == OwnStatus(last) <==>
                last.Response? || forall j | 0 <= j < n - 1 :: !script(j).reply.Response?)
  {
    hide StopFrom, Exhausted;
    var n := Tries(config);
    StopFromIsFirst(config, script, 0);
    assert Transient(script(n - 1).reply);
    NoReasonSet(script, n - 1);
    NoStatusSet(script, n - 1);
  }

  /** So a call that ends on a 503 can report itself rate limited. */
  lemma ReasonCanBeStale(config: Config)
    requires config.maxRetries == 1 && config.totalTimeout.None?
    ensures exists script: Script ::
              ResultOf(config, script) == Raised(LlmError(RateLimited, 2, Some(503)))
  {
    var script: Script := (k: nat) => Attempt(Response(if k == 0 then 429 else 503, Malformed), 0.0);
    StopFromIsFirst(config, script, 0);
    assert Stop(config, script) == 2;
    assert LastReason(script, 1) == RateLimited;
    assert ResultOf(config, script) == Raised(LlmError(RateLimited, 2, Some(503)));
  }

  function StatusAfter(reply: Reply, before: Option<int>): Option<int> {
    if reply.Response? then Some(reply.status) else before
  }

  lemma Beginning(config: Config, script: Script)
    ensures LastReason(script, 0) == Http && LastStatus(script, 0) == None
    ensures RateLimitsIn(script, 0) == 0 && TimeoutsIn(script, 0) == 0 && StartOf(config, script, 0) == 0.0
  {
  }

  lemma NextAttempt(config: Config, script: Script, k: nat)
    ensures Transient(script(k).reply) ==>
              && LastReason(script, k + 1) == ReasonAfter(script(k).reply, LastReason(script, k))
              && LastStatus(script, k + 1) == StatusAfter(script(k).reply, LastStatus(script, k))
    ensures RateLimitsIn(script, k + 1) == RateLimitsIn(script, k) + if Is429(script(k).reply) then 1 else 0
    ensures TimeoutsIn(script, k + 1) == TimeoutsIn(script, k) + if script(k).reply.TimedOut? then 1 else 0
    ensures !Transient(script(k).reply) ==> !Is429(script(k).reply) && !script(k).reply.TimedOut?
    ensures var ended := StartOf(config, script, k) + script(k).duration;
            StartOf(config, script, k + 1) == ended + Backoff(config, k, ended)
  {
  }

  lemma VerdictIsNotBudget(reply: Reply, attempts: nat)
    requires !Transient(reply)
    ensures var v := Verdict(reply, attempts); v.Raised? ==> v.error.reason != Budget
  {
  }

  lemma StopAtEnd(config: Config, script: Script)
    requires forall j | 0 <= j < Tries(config) :: !Exhausted(config, script, j) && Transient(script(j).reply)
    ensures Stop(config, script) == Tries(config)
  {
    StopFromIsFirst(config, script, 0);
  }
}
