/** The lazy agent pool: when it is woken, which wake results it accepts, and how long it
  waits after a failed wake. */
module PoolLifecycle {
  import opened Wrappers

  const U32_MAX := 0xFFFF_FFFF
  const U64_MAX := 0xFFFF_FFFF_FFFF_FFFF
  const SECOND := 1_000_000_000
  const INITIAL_RETRY_DELAY := 5
  const MAX_RETRY_DELAY := 300

  type U32 = n: nat | n <= U32_MAX

  function SaturatingNext(n: U32): U32 {
    if n == U32_MAX then n else n + 1
  }

  function Pow2(n: nat): (p: nat)
    ensures p > 0
  {
    if n == 0 then 1 else 2 * Pow2(n - 1)
  }

  /** `retry_delay`, in seconds, with the widths and the saturation of the program. */
  function RetryDelay(attempt: U32): nat {
    var exponent := Min(if attempt == 0 then 0 else attempt - 1, 63);
    var multiplier := Pow2(exponent) % (U64_MAX + 1);
    Min(Min(INITIAL_RETRY_DELAY * multiplier, U64_MAX), MAX_RETRY_DELAY)
  }

  lemma {:induction false} Pow2Rises(a: nat, b: nat)
    requires a <= b
    ensures Pow2(a) <= Pow2(b)
    decreases b
  {
    if a < b {
      Pow2Rises(a, b - 1);
    }
  }

  lemma Pow2Values()
    ensures Pow2(6) == 64 && Pow2(63) == 0x8000_0000_0000_0000
  {
    assert Pow2(6) == 64 && Pow2(7) == 128;
    hide Pow2;
    Pow2Byte(7);
    Pow2Byte(15);
    Pow2Byte(23);
    Pow2Byte(31);
    Pow2Byte(39);
    Pow2Byte(47);
    Pow2Byte(55);
  }

  lemma Pow2Byte(n: nat)
    ensures Pow2(n + 8) == 256 * Pow2(n)
  {
    assert Pow2(n + 2) == 4 * Pow2(n);
    assert Pow2(n + 4) == 4 * Pow2(n + 2);
    assert Pow2(n + 6) == 4 * Pow2(n + 4);
    assert Pow2(n + 8) == 4 * Pow2(n + 6);
  }

  /** No multiplication or shift loses a bit. */
  lemma NothingSaturates(attempt: U32)
    requires attempt >= 1
    ensures RetryDelay(attempt) == Min(INITIAL_RETRY_DELAY * Pow2(Min(attempt - 1, 63)), MAX_RETRY_DELAY)
  {
    hide Pow2;
    Pow2Values();
    Pow2Rises(Min(attempt - 1, 63), 63);
    assert Pow2(Min(attempt - 1, 63)) % (U64_MAX + 1) == Pow2(Min(attempt - 1, 63));
  }

  /** The delay doubles from five seconds up to five minutes, and no width cuts it short. */
  lemma RetryDelayDoubles(attempt: U32)
    ensures attempt >= 1 ==> RetryDelay(attempt) == Min(5 * Pow2(attempt - 1), 300)
    ensures attempt >= 7 ==> RetryDelay(attempt) == 300
  {
    if attempt >= 1 {
      NothingSaturates(attempt);
    }
    if attempt >= 7 {
      Pow2Values();
      Pow2Rises(6, attempt - 1);
      Pow2Rises(6, Min(attempt - 1, 63));
    }
    hide Pow2, RetryDelay;
  }

  // ---------------------------------------------------------------- the machine

  datatype State<P> =
    | Listening
    | Waking(attempt: U32)
    | Ready(pool: P)
    | Failed(attempt: U32, retryAt: nat, error: string)

  /** The attempt that a wake would start with now, if one is due. */
  function DueAttempt<P>(s: State<P>, hasPendingWork: bool, now: nat): Option<U32> {
    if !hasPendingWork then None
    else
      match s
      case Listening => Some(1)
      case Failed(attempt, retryAt, _) => if now >= retryAt then Some(SaturatingNext(attempt)) else None
      case _ => None
  }

  function Accepts<P>(s: State<P>, attempt: U32): bool {
    s.Waking? && s.attempt == attempt
  }

  function Completed<P>(attempt: U32, result: Result<P, string>, now: nat): State<P> {
    match result
    case Ok(pool) => Ready(pool)
    case Err(error) => Failed(attempt, now + RetryDelay(attempt) * SECOND, error)
  }

  class PoolLifecycle<P> {
    var state: State<P>

    constructor ()
      ensures state == Listening
    {
      state := Listening;
    }

    method StartWakeIfDue(hasPendingWork: bool, now: nat) returns (token: Option<U32>)
      modifies this
      ensures token == DueAttempt(old(state), hasPendingWork, now)
      ensures state == if token.Some? then Waking(token.value) else old(state)
    {
      if !hasPendingWork {
        return None;
      }
      var nextAttempt := None;
      match state {
        case Listening =>
          nextAttempt := Some(1);
        case Failed(attempt, retryAt, _) =>
          if now >= retryAt {
            nextAttempt := Some(SaturatingNext(attempt));
          }
        case _ =>
      }
      if nextAttempt.Some? {
        state := Waking(nextAttempt.value);
      }
      return nextAttempt;
    }

    method TakeReady() returns (pool: Option<P>)
      modifies this
      ensures pool == if old(state).Ready? then Some(old(state).pool) else None
      ensures state == if old(state).Ready? then Listening else old(state)
    {
      var before := state;
      state := Listening;
      if before.Ready? {
        return Some(before.pool);
      }
      state := before;
      return None;
    }

    /** A result of another attempt, or one that comes when no wake is out, changes nothing. */
    method CompleteWake(attempt: U32, result: Result<P, string>, now: nat) returns (done: Result<(), string>)
      modifies this
      ensures done.Ok? <==> Accepts(old(state), attempt)
      ensures state == if done.Ok? then Completed(attempt, result, now) else old(state)
      ensures done.Err? ==> done.error == (if old(state).Waking? then "wake result attempt did not match Waking attempt"
                                           else "wake completed while lifecycle was not Waking")
    {
      if !state.Waking? {
        return Err("wake completed while lifecycle was not Waking");
      }
      if state.attempt != attempt {
        return Err("wake result attempt did not match Waking attempt");
      }
      match result {
        case Ok(pool) => state := Ready(pool);
        case Err(error) => state := Failed(attempt, now + RetryDelay(attempt) * SECOND, error);
      }
      return Ok(());
    }

    method CancelWake(attempt: U32, error: string, now: nat) returns (cancelled: bool)
      modifies this
      ensures cancelled <==> Accepts(old(state), attempt)
      ensures state == if cancelled then Completed(attempt, Err(error), now) else old(state)
    {
      var done := CompleteWake(attempt, Err(error), now);
      return done.Ok?;
    }
  }

  // ---------------------------------------------------------------- runs

  /** A call, with the time that has passed since the one before. */
  datatype Op<P> =
    | Start(elapsed: nat, hasPendingWork: bool)
    | Take(elapsed: nat)
    | Complete(elapsed: nat, token: U32, result: Result<P, string>)

  /** What a run shows: wakes started, results accepted, pools taken. */
  datatype Event =
    | Started(token: U32, at: nat)
    | Accepted(token: U32, good: bool, at: nat)
    | Taken(at: nat)

  datatype History<P> = History(state: State<P>, now: nat, log: seq<Event>)

  function Step<P>(h: History<P>, op: Op<P>): History<P> {
    var now := h.now + op.elapsed;
    match op
    case Start(_, pending) =>
      var due := DueAttempt(h.state, pending, now);
      if due.Some? then History(Waking(due.value), now, h.log + [Started(due.value, now)]) else h.(now := now)
    case Take(_) =>
      if h.state.Ready? then History(Listening, now, h.log + [Taken(now)]) else h.(now := now)
    case Complete(_, token, result) =>
      if Accepts(h.state, token) then
        History(Completed(token, result, now), now, h.log + [Accepted(token, result.Ok?, now)])
      else h.(now := now)
  }

  function Run<P>(ops: seq<Op<P>>): History<P> {
    if ops == [] then History(Listening, 0, []) else Step(Run(ops[..|ops| - 1]), ops[|ops| - 1])
  }

  /** What may come after an event, and no earlier than when. */
  predicate Follows(before: Event, after: Event) {
    before.at <= after.at &&
    match before
    case Started(token, _) => after.Accepted? && after.token == token
    case Accepted(token, good, at) =>
      if good then after.Taken?
      else after.Started? && after.token == SaturatingNext(token) && after.at >= at + RetryDelay(token) * SECOND
    case Taken(_) => after.Started? && after.token == 1
  }

  ghost predicate Legal(log: seq<Event>) {
    && (log != [] ==> log[0].Started? && log[0].token == 1)
    && forall i | 0 < i < |log| :: Follows(log[i - 1], log[i])
  }

  /** The state is told by the last event. */
  ghost predicate Told<P>(h: History<P>) {
    if h.log == [] then h.state == Listening
    else
      var last := h.log[|h.log| - 1];
      last.at <= h.now &&
      match last
      case Started(token, _) => h.state == Waking(token)
      case Accepted(token, good, at) =>
        if good then h.state.Ready?
        else h.state.Failed? && h.state.attempt == token && h.state.retryAt == at + RetryDelay(token) * SECOND
      case Taken(_) => h.state == Listening
  }

  /** In every run, whatever the callers do, a wake is started only when none is out, each
    result accepted is that of the wake started just before it, and a failed wake is
    followed by the next attempt no earlier than its delay allows. */
  lemma {:induction false} EveryRunIsLegal<P>(ops: seq<Op<P>>)
    ensures Legal(Run(ops).log) && Told(Run(ops))
    decreases |ops|
  {
    hide RetryDelay, SaturatingNext;
    if ops != [] {
      EveryRunIsLegal(ops[..|ops| - 1]);
      StepKeeps(Run(ops[..|ops| - 1]), ops[|ops| - 1]);
    }
  }

  lemma StepKeeps<P>(h: History<P>, op: Op<P>)
    requires Legal(h.log) && Told(h)
    ensures Legal(Step(h, op).log) && Told(Step(h, op))
  {
    hide RetryDelay, SaturatingNext;
    var log := Step(h, op).log;
    if |log| > |h.log| && h.log != [] {
      assert log[|log| - 2] == h.log[|h.log| - 1];
    }
  }

  /** A wake that follows the last event may start now: at the beginning and after a pool was
    taken at once, after a failure when its delay is over, and otherwise not. */
  predicate MayStart(log: seq<Event>, now: nat) {
    log == [] ||
    match log[|log| - 1]
    case Started(_, _) => false
    case Accepted(token, good, at) => !good && now >= at + RetryDelay(token) * 1_000_000_000
    case Taken(_) => true
  }

  function NextToken(log: seq<Event>): U32
    requires log != [] && log[|log| - 1].Accepted?
  {
    var token := log[|log| - 1].token;
    if token < 0xFFFF_FFFF then token + 1 else token
  }

  /** After any run, a wake is started when there is work and one may start, and never
    otherwise; its token is one more than that of the failure before it, up to the
    largest u32, or 1. */
  lemma WakesExactly<P>(ops: seq<Op<P>>, elapsed: nat, pending: bool)
    ensures var h, next := Run(ops), Run(ops + [Start(elapsed, pending)]);
            var now := h.now + elapsed;
            && next.now == now
            && if pending && MayStart(h.log, now) then
                 var token := if h.log != [] && h.log[|h.log| - 1].Accepted? then NextToken(h.log) else 1;
                 next.state == Waking(token) && next.log == h.log + [Started(token, now)]
               else next.state == h.state && next.log == h.log
  {
    hide Run, RetryDelay;
    EveryRunIsLegal(ops);
    RunStep(ops, Start(elapsed, pending));
  }

  /** The pool came with the result of operation `i`, which was accepted, and since then
    nothing was started, accepted or taken. */
  ghost predicate CameWith<P>(ops: seq<Op<P>>, i: int, pool: P) {
    && 0 <= i < |ops| && ops[i].Complete? && ops[i].result == Ok(pool)
    && Run(ops[..i]).state == Waking(ops[i].token)
    && Run(ops[..i + 1]).log == Run(ops).log
  }

  /** A pool that is ready to be taken is the one the last accepted result brought. */
  lemma {:induction false} ReadyPoolCame<P>(ops: seq<Op<P>>, pool: P)
    requires Run(ops).state == Ready(pool)
    ensures exists i :: CameWith(ops, i, pool)
    decreases |ops|
  {
    var n := |ops| - 1;
    assert ops == ops[..n] + [ops[n]];
    RunStep(ops[..n], ops[n]);
    hide Run, RetryDelay, DueAttempt;
    if Run(ops[..n]).state == Ready(pool) && Run(ops[..n]).log == Run(ops).log {
      ReadyPoolCame(ops[..n], pool);
      var i :| CameWith(ops[..n], i, pool);
      assert ops[..n][..i] == ops[..i] && ops[..n][..i + 1] == ops[..i + 1];
      assert CameWith(ops, i, pool);
    } else {
      assert ops[..n + 1] == ops;
      assert CameWith(ops, n, pool);
    }
  }

  // ---------------------------------------------------------------- tokens

  ghost predicate OneEpoch(log: seq<Event>, i: nat, j: nat) {
    i <= j < |log| && forall k | i <= k <= j :: !log[k].Taken?
  }

  /** Within one epoch, that is until a pool is taken, the tokens of wakes and of accepted
    results count up, so below the largest u32 no token is given or accepted twice. */
  lemma {:induction false} TokensCountUp(log: seq<Event>, i: nat, j: nat)
    requires Legal(log) && i < j && OneEpoch(log, i, j)
    ensures log[i].token <= log[j].token
    ensures log[i].Started? == log[j].Started? ==> log[i].token < log[j].token || log[i].token == U32_MAX
    decreases j
  {
    assert Follows(log[j - 1], log[j]) && !log[j - 1].Taken? && !log[j].Taken?;
    if i < j - 1 {
      TokensCountUp(log, i, j - 1);
      if i < j - 2 {
        assert Follows(log[j - 2], log[j - 1]) && !log[j - 2].Taken?;
        TokensCountUp(log, i, j - 2);
      } else {
        assert Follows(log[i], log[i + 1]) && !log[i].Taken?;
      }
    }
  }

  /** Between two wakes a result is accepted: no two are ever out together. */
  lemma OneWakeOut(log: seq<Event>, i: nat, j: nat)
    requires Legal(log) && i < j < |log| && log[i].Started? && log[j].Started?
    ensures i + 1 < j && log[i + 1].Accepted? && log[i + 1].token == log[i].token
  {
    assert Follows(log[i], log[i + 1]);
  }

  lemma RunStep<P>(ops: seq<Op<P>>, op: Op<P>)
    ensures Run(ops + [op]) == Step(Run(ops), op)
  {
    assert (ops + [op])[..|ops|] == ops;
  }

  /** Tokens start over when a pool is taken: the epoch before it used token 1 as well, and
    whatever is returned with that token to the first wake after it is accepted. */
  lemma TokensStartOver<P>(ops: seq<Op<P>>, result: Result<P, string>)
    requires Run(ops).state.Ready?
    ensures Run(ops).log != [] && Run(ops).log[0] == Started(1, Run(ops).log[0].at)
    ensures var again := ops + [Take(0)] + [Start(0, true)];
            Run(again).state == Waking(1) && Run(again + [Complete(0, 1, result)]).state == Completed(1, result, Run(ops).now)
  {
    hide Run, RetryDelay;
    EveryRunIsLegal(ops);
    RunStep(ops, Take(0));
    RunStep(ops + [Take(0)], Start(0, true));
    RunStep(ops + [Take(0)] + [Start(0, true)], Complete(0, 1, result));
  }

  /** A pool can become ready, so a run like the one above exists. */
  lemma ReadyIsReached<P>(pool: P)
    ensures Run<P>([Start(0, true)] + [Complete(0, 1, Ok(pool))]).state == Ready(pool)
  {
    hide Run, RetryDelay;
    var first: Op<P> := Start(0, true);
    RunBegins<P>();
    RunStep([], first);
    assert [] + [first] == [first];
    RunStep([first], Complete(0, 1, Ok(pool)));
  }

  // ---------------------------------------------------------------- which results are accepted

  /** Wakes started since a pool was last taken. */
  function EpochWakes(log: seq<Event>): nat {
    if log == [] then 0
    else
      var before, last := log[..|log| - 1], log[|log| - 1];
      if last.Taken? then 0 else EpochWakes(before) + if last.Started? then 1 else 0
  }

  /** The last event tells how many wakes its epoch has seen. */
  lemma {:induction false} TokenIsCount(log: seq<Event>)
    requires Legal(log) && log != []
    ensures !log[|log| - 1].Taken? ==> log[|log| - 1].token == Min(EpochWakes(log), U32_MAX) && EpochWakes(log) > 0
    decreases |log|
  {
    hide RetryDelay;
    var n := |log| - 1;
    if n > 0 {
      assert Follows(log[n - 1], log[n]);
      assert log[..n][n - 1] == log[n - 1];
      PrefixIsLegal(log, n);
      TokenIsCount(log[..n]);
    } else {
      assert EpochWakes(log[..0]) == 0;
    }
  }

  lemma PrefixIsLegal(log: seq<Event>, n: nat)
    requires Legal(log) && n <= |log|
    ensures Legal(log[..n])
  {
    hide Follows;
    forall i | 0 < i < n ensures Follows(log[..n][i - 1], log[..n][i]) {
      assert Follows(log[i - 1], log[i]);
    }
  }

  /** After any run a result is accepted exactly while a wake is out, and if its token is the
    number of wakes started since a pool was last taken, up to the largest u32. */
  lemma AcceptedExactly<P>(ops: seq<Op<P>>, token: U32)
    ensures var log := Run(ops).log;
            Accepts(Run(ops).state, token) <==>
            (log != [] && log[|log| - 1].Started? && token == Min(EpochWakes(log), U32_MAX))
  {
    hide Run, RetryDelay;
    EveryRunIsLegal(ops);
    if Run(ops).log != [] {
      TokenIsCount(Run(ops).log);
    }
  }

  /** The result of an older wake, the one started as event `i`, is accepted exactly if a
    wake is out that is of the same number in its own epoch, numbers from the largest u32
    on counting as one. */
  lemma OlderResultAcceptedExactly<P>(ops: seq<Op<P>>, i: nat)
    requires i + 1 < |Run(ops).log| && Run(ops).log[i].Started?
    ensures var log := Run(ops).log;
            Accepts(Run(ops).state, log[i].token) <==>
            (log[|log| - 1].Started? && Min(EpochWakes(log[..i + 1]), U32_MAX) == Min(EpochWakes(log), U32_MAX))
  {
    hide Run, RetryDelay;
    EveryRunIsLegal(ops);
    var log := Run(ops).log;
    AcceptedExactly(ops, log[i].token);
    PrefixIsLegal(log, i + 1);
    TokenIsCount(log[..i + 1]);
  }

  /** Within one epoch an older result is refused, if its token is below the largest u32. */
  lemma StaleRejected<P>(ops: seq<Op<P>>, i: nat)
    requires i + 1 < |Run(ops).log| && OneEpoch(Run(ops).log, i, |Run(ops).log| - 1)
    requires Run(ops).log[i].Started? && Run(ops).log[i].token < U32_MAX
    ensures !Accepts(Run(ops).state, Run(ops).log[i].token)
  {
    hide Run, RetryDelay;
    EveryRunIsLegal(ops);
    TokensCountUp(Run(ops).log, i, |Run(ops).log| - 1);
  }

  /** `n` wakes in a row that fail, each after the longest delay. */
  function Failing<P>(n: nat): seq<Op<P>> {
    if n == 0 then []
    else Failing(n - 1) + [Start(MAX_RETRY_DELAY * SECOND, true)] + [Complete(0, Min(n, U32_MAX), Err(""))]
  }

  lemma {:induction false} FailingRuns<P>(n: nat)
    ensures var h := Run<P>(Failing(n));
            && |h.log| == 2 * n && OneEpochSoFar(h.log)
            && (n == 0 ==> h.state == Listening)
            && (n > 0 ==> h.state.Failed? && h.state.attempt == Min(n, U32_MAX) && h.state.retryAt <= h.now + MAX_RETRY_DELAY * SECOND
                          && h.log[2 * n - 2].Started? && h.log[2 * n - 2].token == Min(n, U32_MAX))
    decreases n
  {
    hide Run, RetryDelay;
    RunBegins<P>();
    if n > 0 {
      FailingRuns<P>(n - 1);
      DelayIsBounded(Min(n, U32_MAX));
      RunStep<P>(Failing(n - 1), Start(MAX_RETRY_DELAY * SECOND, true));
      RunStep<P>(Failing(n - 1) + [Start(MAX_RETRY_DELAY * SECOND, true)], Complete(0, Min(n, U32_MAX), Err("")));
    }
  }

  lemma RunBegins<P>()
    ensures Run<P>([]) == History(Listening, 0, [])
  {
  }

  lemma DelayIsBounded(attempt: U32)
    ensures RetryDelay(attempt) <= MAX_RETRY_DELAY
  {
  }

  ghost predicate OneEpochSoFar(log: seq<Event>) {
    forall k | 0 <= k < |log| :: !log[k].Taken?
  }

  /** At the largest u32 that bound is needed: after that many failures and one more wake an
    older result of the same epoch is accepted. */
  lemma SaturatedTokenAccepted<P>()
    ensures var ops := Failing<P>(U32_MAX) + [Start(MAX_RETRY_DELAY * SECOND, true)];
            var log, i := Run(ops).log, 2 * U32_MAX - 2;
            && i + 1 < |log| && OneEpoch(log, i, |log| - 1) && log[i].Started?
            && Accepts(Run(ops).state, log[i].token)
  {
    hide Run, RetryDelay, Failing;
    FailingRuns<P>(U32_MAX);
    RunStep<P>(Failing(U32_MAX), Start(MAX_RETRY_DELAY * SECOND, true));
  }

  // ---------------------------------------------------------------- back-off

  /** Seconds that the failures of attempts 1 to `n` keep the pool asleep. */
  function TotalDelay(n: nat): nat
    requires n <= U32_MAX
  {
    if n == 0 then 0 else TotalDelay(n - 1) + RetryDelay(n)
  }

  lemma {:induction false} TotalDelayIs(n: nat)
    requires 6 <= n <= U32_MAX
    ensures TotalDelay(n) == 315 + 300 * (n - 6)
    decreases n
  {
    if n == 6 {
      FirstDelays();
    } else {
      TotalDelayIs(n - 1);
      RetryDelayDoubles(n);
    }
  }

  lemma FirstDelays()
    ensures TotalDelay(6) == 315
  {
    RetryDelayDoubles(1);
    RetryDelayDoubles(2);
    RetryDelayDoubles(3);
    RetryDelayDoubles(4);
    RetryDelayDoubles(5);
    RetryDelayDoubles(6);
    assert Pow2(1) == 2 && Pow2(2) == 4 && Pow2(3) == 8 && Pow2(4) == 16 && Pow2(5) == 32;
    hide RetryDelay, Pow2;
    assert TotalDelay(1) == 5;
    assert TotalDelay(2) == 15;
    assert TotalDelay(3) == 35;
    assert TotalDelay(4) == 75;
    assert TotalDelay(5) == 155;
  }

  /** In an epoch that begins at `i`, each wake waits out all the failures before it. */
  lemma {:induction false} WakesWait(log: seq<Event>, i: nat, n: nat)
    requires Legal(log) && i + 2 * n < |log| && n < U32_MAX && OneEpoch(log, i, i + 2 * n)
    requires log[i].Started? && log[i].token == 1
    ensures log[i + 2 * n].Started? && log[i + 2 * n].token == n + 1
    ensures log[i + 2 * n].at >= log[i].at + TotalDelay(n) * SECOND
    decreases n
  {
    hide RetryDelay;
    if n > 0 {
      WakesWait(log, i, n - 1);
      var k := i + 2 * n - 1;
      assert Follows(log[k - 1], log[k]) && Follows(log[k], log[k + 1]) && !log[k + 1].Taken?;
      assert log[k].token == n;
      assert TotalDelay(n) * SECOND == TotalDelay(n - 1) * SECOND + RetryDelay(n) * SECOND;
    }
  }

  /** When wakes keep failing, the n-th of them (n at least 7) starts no earlier than
    315 + 300 (n - 7) seconds after the first. */
  lemma BackOff<P>(ops: seq<Op<P>>, i: nat, n: nat)
    requires 7 <= n <= U32_MAX && i + 2 * (n - 1) < |Run(ops).log| && OneEpoch(Run(ops).log, i, i + 2 * (n - 1))
    requires Run(ops).log[i].Started? && Run(ops).log[i].token == 1
    ensures var nth := Run(ops).log[i + 2 * (n - 1)];
            && nth.Started? && nth.token == n
            && nth.at >= Run(ops).log[i].at + (315 + 300 * (n - 7)) * SECOND
  {
    hide Run, RetryDelay, TotalDelay;
    EveryRunIsLegal(ops);
    WakesWait(Run(ops).log, i, n - 1);
    TotalDelayIs(n - 1);
  }
}
