/** What a write call does under each retry strategy, against an arbitrary environment: the
    attempts it makes, on which shards, its pauses, and its result. */
module Strategies {
  import opened Words
  import opened Values

  datatype Strategy =
    | SleepBackoff | NextShard | RandomShard | AdaptiveBackoff | SpinThenYield | Hybrid | AutoAdaptive
    | Unknown(code: int)

  /** Durations are in nanoseconds. */
  datatype Config = Config(
    strategy: Strategy, maxRetries: int, backoffDuration: int, maxBackoffs: int, maxBackoffDuration: int,
    backoffMultiplier: real, adaptiveIdleIterations: int, adaptiveWarmupIterations: int, adaptiveSleepDuration: int)
  {
    function Multiplier(): real { if backoffMultiplier == 0.0 then 2.0 else backoffMultiplier }

    function Cap(): int { if maxBackoffDuration == 0 then 10_000_000 else maxBackoffDuration }

    function IdleLimit(): int { if adaptiveIdleIterations == 0 then 100_000 else adaptiveIdleIterations }

    function Warmup(): int { if adaptiveWarmupIterations == 0 then 1_000 else adaptiveWarmupIterations }

    function IdleSleep(): int { if adaptiveSleepDuration == 0 then 100_000 else adaptiveSleepDuration }

    /** The call gives up when its count of backoffs reaches the limit, if there is one. */
    predicate GivesUp(backoffCount: int) { maxBackoffs > 0 && backoffCount >= maxBackoffs }
  }

  datatype Mode = YieldMode | SleepMode

  /** The state a writer keeps from one call to the next. */
  datatype State = State(currentBackoff: int, backoffCount: int, mode: Mode, idle: int, warmup: int)

  datatype Event = Attempt(shard: nat, value: Any, ok: bool) | Draw(number: nat) | Sleep(duration: int) | Yield

  type Trace = seq<Event>

  /** Everything a writer does not decide, as functions of how many events it has seen: whether an
      attempt on a shard is accepted, the random numbers, and the jitter factors. */
  datatype Env = Env(accepts: (nat, nat) -> bool, draw: nat -> nat, jitter: nat -> real)

  /** A call's result, `None` while it is still running after the rounds watched. */
  datatype Outcome = Outcome(done: Option<bool>, st: State, trace: Trace)

  function Resolve(s: Strategy): Strategy {
    if s.Unknown? then SleepBackoff else s
  }

  predicate OnOneShard(s: Strategy) {
    !s.NextShard? && !s.RandomShard? && !s.Hybrid?
  }

  predicate Exponential(s: Strategy) {
    s.AdaptiveBackoff? || s.Hybrid?
  }

  function Fresh(cfg: Config): State {
    State(cfg.backoffDuration, 0, YieldMode, 0, 0)
  }

  /** Conversion of a duration from floating point drops the fraction. */
  function Truncate(x: real): int {
    if x >= 0.0 then x.Floor else -((-x).Floor)
  }

  /** A duration times a factor. */
  function Scale(d: int, factor: real): int {
    Truncate(d as real * factor)
  }

  // ---------------------------------------------------------------- one round

  /** Up to `left` attempts on one shard. */
  function Retry(env: Env, v: Any, trace: Trace, j: nat, left: int): (bool, Trace)
    decreases left
  {
    if left <= 0 then (false, trace) else
    var ok := env.accepts(|trace|, j);
    var t := trace + [Attempt(j, v, ok)];
    if ok then (true, t) else Retry(env, v, t, j, left - 1)
  }

  /** All shards in cyclic order, from the i-th after `start` on. */
  function Sweep(env: Env, v: Any, trace: Trace, start: nat, i: nat, n: nat, retries: int): (bool, Trace)
    requires 0 < n && i <= n
    decreases n - i
  {
    if i == n then (false, trace) else
    var (ok, t) := Retry(env, v, trace, Cyclic(start, i, n), retries);
    if ok then (true, t) else Sweep(env, v, t, start, i + 1, n, retries)
  }

  /** The shard for a random number: never the home shard if there is another. */
  function RandomPick(draw: nat, home: nat, n: nat): (j: nat)
    requires 0 < n
    ensures j < n
  {
    var j := Place(draw, n);
    if j == home then Place(j + 1, n) else j
  }

  function RandomTries(env: Env, v: Any, trace: Trace, home: nat, n: nat, left: int, retries: int): (bool, Trace)
    requires 0 < n
    decreases left
  {
    if left <= 0 then (false, trace) else
    var d := env.draw(|trace|);
    var (ok, t) := Retry(env, v, trace + [Draw(d)], RandomPick(d, home, n), retries);
    if ok then (true, t) else RandomTries(env, v, t, home, n, left - 1, retries)
  }

  /** The attempts of one round, before any backoff. */
  function Round(s: Strategy, cfg: Config, n: nat, producer: nat, env: Env, v: Any, trace: Trace): (bool, Trace)
    requires 0 < n
  {
    var home := Place(producer, n);
    match s
    case NextShard => Sweep(env, v, trace, home, 0, n, cfg.maxRetries)
    case Hybrid => Sweep(env, v, trace, home, 0, n, cfg.maxRetries)
    case RandomShard =>
      var (ok, t) := Retry(env, v, trace, home, cfg.maxRetries);
      if ok then (true, t) else RandomTries(env, v, t, home, n, n - 1, cfg.maxRetries)
    case _ => Retry(env, v, trace, home, cfg.maxRetries)
  }

  function Accepted(s: Strategy, cfg: Config, st: State): State {
    if s.AutoAdaptive? then st.(idle := 0, warmup := cfg.Warmup(), mode := YieldMode) else st
  }

  /** The next backoff: grown by the multiplier, and capped. */
  function Grow(cfg: Config, backoff: int): int {
    var b := Scale(backoff, cfg.Multiplier());
    if b > cfg.Cap() then cfg.Cap() else b
  }

  function Jittered(cfg: Config, env: Env, st: State, trace: Trace): (State, Event) {
    (st.(currentBackoff := Grow(cfg, st.currentBackoff)),
     Sleep(Scale(st.currentBackoff, env.jitter(|trace|))))
  }

  /** The pause after a failed round, and its effect on the state. */
  function Pause(s: Strategy, cfg: Config, env: Env, st: State, trace: Trace): (State, Event) {
    match s
    case AdaptiveBackoff => Jittered(cfg, env, st, trace)
    case Hybrid => Jittered(cfg, env, st, trace)
    case SpinThenYield => (st, Yield)
    case AutoAdaptive =>
      if st.mode.SleepMode? then (st, Sleep(cfg.IdleSleep()))
      else if st.warmup > 0 then (st.(warmup := st.warmup - 1), Yield)
      else (st.(idle := st.idle + 1, mode := if st.idle + 1 > cfg.IdleLimit() then SleepMode else YieldMode), Yield)
    case _ => (st, Sleep(cfg.backoffDuration))
  }

  // ---------------------------------------------------------------- calls

  /** A write call, watched for at most `rounds` rounds. */
  function Call(
    s: Strategy, cfg: Config, n: nat, producer: nat, env: Env, v: Any, st: State, trace: Trace, rounds: nat): Outcome
    requires 0 < n
    decreases rounds
  {
    if rounds == 0 then Outcome(None, st, trace) else
    var (ok, t) := Round(s, cfg, n, producer, env, v, trace);
    if ok then Outcome(Some(true), Accepted(s, cfg, st), t) else
    var failed := st.(backoffCount := st.backoffCount + 1);
    if cfg.GivesUp(failed.backoffCount) then Outcome(Some(false), failed, t) else
    var (next, pause) := Pause(s, cfg, env, failed, t);
    Call(s, cfg, n, producer, env, v, next, t + [pause], rounds - 1)
  }

  predicate IsPause(e: Event) {
    e.Sleep? || e.Yield?
  }

  function Pauses(trace: Trace): nat {
    if trace == [] then 0 else Pauses(trace[..|trace| - 1]) + if IsPause(trace[|trace| - 1]) then 1 else 0
  }

  lemma PausesStep(trace: Trace, e: Event)
    ensures Pauses(trace + [e]) == Pauses(trace) + if IsPause(e) then 1 else 0
  {
    assert (trace + [e])[..|trace|] == trace;
  }

  lemma PauseIsPause(s: Strategy, cfg: Config, env: Env, st: State, trace: Trace)
    ensures IsPause(Pause(s, cfg, env, st, trace).1)
    ensures Pause(s, cfg, env, st, trace).0.backoffCount == st.backoffCount
  {
  }

  // ---------------------------------------------------------------- the shape of a call

  /** What the attempts of a call from `trace` to `after` look like: with the call's value, on shards
      the strategy may pick, all refused but, when the call is accepted, the last. */
  ghost predicate Shape(s: Strategy, n: nat, producer: nat, v: Any, trace: Trace, after: Trace, accepted: bool)
    requires 0 < n
  {
    && trace <= after
    && (accepted ==> |trace| < |after| && after[|after| - 1].Attempt? && after[|after| - 1].ok)
    && forall i :: |trace| <= i < |after| && after[i].Attempt? ==>
         && after[i].shard < n && after[i].value == v
         && (OnOneShard(s) ==> after[i].shard == Place(producer, n))
         && (after[i].ok ==> accepted && i == |after| - 1)
  }

  /** The attempts on one shard. */
  lemma {:induction false} RetryShape(env: Env, v: Any, trace: Trace, j: nat, left: int)
    ensures var (ok, t) := Retry(env, v, trace, j, left);
            && trace <= t && Pauses(t) == Pauses(trace)
            && (ok ==> |trace| < |t| && t[|t| - 1] == Attempt(j, v, true))
            && forall i :: |trace| <= i < |t| ==> t[i] == Attempt(j, v, ok && i == |t| - 1)
    decreases left
  {
    if left <= 0 {
    } else {
      var ok := env.accepts(|trace|, j);
      var t := trace + [Attempt(j, v, ok)];
      assert t[..|t| - 1] == trace;
      if !ok { RetryShape(env, v, t, j, left - 1); }
    }
  }

  lemma {:induction false} SweepShape(env: Env, v: Any, trace: Trace, start: nat, i: nat, n: nat, retries: int)
    requires 0 < n && i <= n
    ensures var (ok, t) := Sweep(env, v, trace, start, i, n, retries);
            Shape(NextShard, n, 0, v, trace, t, ok) && Pauses(t) == Pauses(trace)
    decreases n - i
  {
    if i == n {
    } else {
      RetryShape(env, v, trace, Cyclic(start, i, n), retries);
      var (ok, t) := Retry(env, v, trace, Cyclic(start, i, n), retries);
      if !ok { SweepShape(env, v, t, start, i + 1, n, retries); }
    }
  }

  /** Two parts of a call, the first without an accepted attempt. */
  lemma ShapeJoins(s: Strategy, n: nat, producer: nat, v: Any, a: Trace, b: Trace, c: Trace, accepted: bool)
    requires 0 < n && Shape(s, n, producer, v, a, b, false) && Shape(s, n, producer, v, b, c, accepted)
    ensures Shape(s, n, producer, v, a, c, accepted)
  {
  }

  lemma DrawnShape(env: Env, v: Any, trace: Trace, d: nat, j: nat, n: nat, retries: int)
    requires j < n
    ensures var (ok, t) := Retry(env, v, trace + [Draw(d)], j, retries);
            Shape(RandomShard, n, 0, v, trace, t, ok) && Pauses(t) == Pauses(trace)
  {
    var drawn := trace + [Draw(d)];
    assert drawn[..|drawn| - 1] == trace;
    RetryShape(env, v, drawn, j, retries);
  }

  lemma {:induction false} RandomTriesShape(env: Env, v: Any, trace: Trace, home: nat, n: nat, left: int, retries: int)
    requires 0 < n
    ensures var (ok, t) := RandomTries(env, v, trace, home, n, left, retries);
            Shape(RandomShard, n, 0, v, trace, t, ok) && Pauses(t) == Pauses(trace)
    decreases left
  {
    if left <= 0 {
    } else {
      var d := env.draw(|trace|);
      DrawnShape(env, v, trace, d, RandomPick(d, home, n), n, retries);
      var (ok, t) := Retry(env, v, trace + [Draw(d)], RandomPick(d, home, n), retries);
      if !ok {
        RandomTriesShape(env, v, t, home, n, left - 1, retries);
        var (ok, after) := RandomTries(env, v, t, home, n, left - 1, retries);
        ShapeJoins(RandomShard, n, 0, v, trace, t, after, ok);
      }
    }
  }

  lemma RandomRoundShape(cfg: Config, n: nat, producer: nat, env: Env, v: Any, trace: Trace)
    requires 0 < n
    ensures var (ok, t) := Round(RandomShard, cfg, n, producer, env, v, trace);
            Shape(RandomShard, n, producer, v, trace, t, ok) && Pauses(t) == Pauses(trace)
  {
    var home := Place(producer, n);
    RetryShape(env, v, trace, home, cfg.maxRetries);
    var (ok, t) := Retry(env, v, trace, home, cfg.maxRetries);
    if !ok {
      RandomTriesShape(env, v, t, home, n, n - 1, cfg.maxRetries);
      var (ok, after) := RandomTries(env, v, t, home, n, n - 1, cfg.maxRetries);
      ShapeJoins(RandomShard, n, producer, v, trace, t, after, ok);
    }
  }

  lemma RoundShape(s: Strategy, cfg: Config, n: nat, producer: nat, env: Env, v: Any, trace: Trace)
    requires 0 < n
    ensures var (ok, t) := Round(s, cfg, n, producer, env, v, trace);
            Shape(s, n, producer, v, trace, t, ok) && Pauses(t) == Pauses(trace)
  {
    var home := Place(producer, n);
    match s
    case NextShard => SweepShape(env, v, trace, home, 0, n, cfg.maxRetries);
    case Hybrid => SweepShape(env, v, trace, home, 0, n, cfg.maxRetries);
    case RandomShard => RandomRoundShape(cfg, n, producer, env, v, trace);
    case _ => RetryShape(env, v, trace, home, cfg.maxRetries);
  }

  /** A round makes no pause. */
  lemma RoundKeepsPauses(s: Strategy, cfg: Config, n: nat, producer: nat, env: Env, v: Any, trace: Trace)
    requires 0 < n
    ensures trace <= Round(s, cfg, n, producer, env, v, trace).1
    ensures Pauses(Round(s, cfg, n, producer, env, v, trace).1) == Pauses(trace)
  {
    RoundShape(s, cfg, n, producer, env, v, trace);
  }

  /** Every call, under every strategy: attempts only with its own value and on shards the strategy
      may pick, which for the one-shard strategies is the producer's own; it returns true exactly when its last attempt
      was accepted, and no other attempt of it was. */
  lemma {:induction false} CallShape(
    s: Strategy, cfg: Config, n: nat, producer: nat, env: Env, v: Any, st: State, trace: Trace, rounds: nat)
    requires 0 < n
    ensures var out := Call(s, cfg, n, producer, env, v, st, trace, rounds);
            Shape(s, n, producer, v, trace, out.trace, out.done == Some(true))
    decreases rounds
  {
    if rounds == 0 {
    } else {
      RoundShape(s, cfg, n, producer, env, v, trace);
      var (ok, t) := Round(s, cfg, n, producer, env, v, trace);
      var failed := st.(backoffCount := st.backoffCount + 1);
      if !ok && !cfg.GivesUp(failed.backoffCount) {
        var (next, pause) := Pause(s, cfg, env, failed, t);
        CallShape(s, cfg, n, producer, env, v, next, t + [pause], rounds - 1);
        assert Shape(s, n, producer, v, t, t + [pause], false);
        var out := Call(s, cfg, n, producer, env, v, next, t + [pause], rounds - 1);
        ShapeJoins(s, n, producer, v, trace, t, t + [pause], false);
        ShapeJoins(s, n, producer, v, trace, t + [pause], out.trace, out.done == Some(true));
      }
    }
  }

  /** Attempts to write `v`, all refused but possibly the last. */
  ghost predicate OneAccepted(events: Trace, n: nat, v: Any) {
    forall i :: 0 <= i < |events| && events[i].Attempt? ==>
      events[i].shard < n && events[i].value == v && (events[i].ok ==> i == |events| - 1)
  }

  predicate EndsAccepted(events: Trace) {
    events != [] && events[|events| - 1].Attempt? && events[|events| - 1].ok
  }

  lemma OneAcceptedLater(events: Trace, n: nat, v: Any)
    requires events != [] && OneAccepted(events, n, v) && !(events[0].Attempt? && events[0].ok)
    ensures OneAccepted(events[1..], n, v) && EndsAccepted(events[1..]) == EndsAccepted(events)
    ensures EndsAccepted(events) ==> events[1..][|events[1..]| - 1] == events[|events| - 1]
  {
    assert forall i :: 0 < i < |events| ==> events[i] == events[1..][i - 1];
  }

  /** The events that make `trace` into `after`. */
  function Since(trace: Trace, after: Trace): Trace {
    if |trace| <= |after| then after[|trace|..] else []
  }

  /** The events of one call. */
  lemma EventsOfCall(
    s: Strategy, cfg: Config, n: nat, producer: nat, v: Any, env: Env, st: State, trace: Trace, rounds: nat)
    requires 0 < n
    ensures var out := Call(s, cfg, n, producer, env, v, st, trace, rounds);
            var events := Since(trace, out.trace);
            && trace <= out.trace && out.trace == trace + events
            && OneAccepted(events, n, v) && (EndsAccepted(events) <==> out.done == Some(true))
  {
    CallShape(s, cfg, n, producer, env, v, st, trace, rounds);
    var out := Call(s, cfg, n, producer, env, v, st, trace, rounds);
    var events := Since(trace, out.trace);
    assert forall i :: 0 <= i < |events| ==> events[i] == out.trace[|trace| + i];
  }

  /** The pick is the shard the number falls on, or the next one if that is the home shard; so every
      other shard is the pick of some number. */
  lemma RandomPickFollowsDraw(draw: nat, home: nat, n: nat)
    requires home < n
    ensures draw % n != home ==> RandomPick(draw, home, n) == draw % n
    ensures draw % n == home ==> RandomPick(draw, home, n) == if home + 1 == n then 0 else home + 1
    ensures forall j :: 0 <= j < n && j != home ==> RandomPick(j, home, n) == j
  {
    PlaceIsRemainder(draw, n);
    if home + 1 == n {
      PlaceNextLap(0, n);
    }
  }

  /** With at least two shards, a random pick is another shard than the home shard. */
  lemma RandomPickAvoidsHome(draw: nat, home: nat, n: nat)
    requires 2 <= n && home < n
    ensures RandomPick(draw, home, n) != home
  {
    if home + 1 < n {
    } else {
      PlaceNextLap(0, n);
    }
  }

  /** The pauses a strategy may make. */
  predicate PauseFits(s: Strategy, cfg: Config, e: Event) {
    match s
    case AdaptiveBackoff => e.Sleep?
    case Hybrid => e.Sleep?
    case SpinThenYield => e == Yield
    case AutoAdaptive => e == Yield || e == Sleep(cfg.IdleSleep())
    case _ => e == Sleep(cfg.backoffDuration)
  }

  ghost predicate PausesFit(s: Strategy, cfg: Config, trace: Trace, after: Trace) {
    trace <= after && forall i :: |trace| <= i < |after| && IsPause(after[i]) ==> PauseFits(s, cfg, after[i])
  }

  /** Events that add nothing to the count of pauses are no pauses. */
  lemma {:induction false} EqualCountNoPause(trace: Trace, after: Trace)
    requires trace <= after
    ensures Pauses(trace) <= Pauses(after)
    ensures Pauses(after) == Pauses(trace) ==> forall i :: |trace| <= i < |after| ==> !IsPause(after[i])
    decreases |after|
  {
    if trace == after {
    } else {
      EqualCountNoPause(trace, after[..|after| - 1]);
    }
  }

  lemma RoundPausesNot(s: Strategy, cfg: Config, n: nat, producer: nat, env: Env, v: Any, trace: Trace)
    requires 0 < n
    ensures PausesFit(s, cfg, trace, Round(s, cfg, n, producer, env, v, trace).1)
  {
    RoundKeepsPauses(s, cfg, n, producer, env, v, trace);
    EqualCountNoPause(trace, Round(s, cfg, n, producer, env, v, trace).1);
  }

  /** Every pause of a call is one its strategy may make: the configured sleep, a yield, or, for the
      exponential strategies, a sleep of some length. */
  lemma {:induction false} CallPauses(
    s: Strategy, cfg: Config, n: nat, producer: nat, env: Env, v: Any, st: State, trace: Trace, rounds: nat)
    requires 0 < n
    ensures PausesFit(s, cfg, trace, Call(s, cfg, n, producer, env, v, st, trace, rounds).trace)
    decreases rounds
  {
    if rounds == 0 {
    } else {
      RoundPausesNot(s, cfg, n, producer, env, v, trace);
      var (ok, t) := Round(s, cfg, n, producer, env, v, trace);
      var failed := st.(backoffCount := st.backoffCount + 1);
      if !ok && !cfg.GivesUp(failed.backoffCount) {
        var (next, pause) := Pause(s, cfg, env, failed, t);
        CallPauses(s, cfg, n, producer, env, v, next, t + [pause], rounds - 1);
      }
    }
  }

  // ---------------------------------------------------------------- how many attempts

  function Attempts(trace: Trace): nat {
    if trace == [] then 0 else Attempts(trace[..|trace| - 1]) + if trace[|trace| - 1].Attempt? then 1 else 0
  }

  function Tries(cfg: Config): nat {
    if cfg.maxRetries > 0 then cfg.maxRetries else 0
  }

  /** The attempts of a round nobody accepts. */
  function PerRound(s: Strategy, cfg: Config, n: nat): nat {
    if OnOneShard(s) then Tries(cfg) else n * Tries(cfg)
  }

  lemma AttemptsStep(trace: Trace, e: Event)
    ensures Attempts(trace + [e]) == Attempts(trace) + if e.Attempt? then 1 else 0
  {
    assert (trace + [e])[..|trace|] == trace;
  }

  /** A series of attempts that ends with the last of at most `most`, or earlier by acceptance. */
  ghost predicate Made(trace: Trace, after: Trace, most: nat, ok: bool) {
    if ok then Attempts(trace) < Attempts(after) <= Attempts(trace) + most
    else Attempts(after) == Attempts(trace) + most
  }

  lemma {:induction false} RetryAttempts(env: Env, v: Any, trace: Trace, j: nat, left: nat)
    ensures Made(trace, Retry(env, v, trace, j, left).1, left, Retry(env, v, trace, j, left).0)
    decreases left
  {
    if left == 0 {
    } else {
      var ok := env.accepts(|trace|, j);
      AttemptsStep(trace, Attempt(j, v, ok));
      RetryAttempts(env, v, trace + [Attempt(j, v, ok)], j, left - 1);
    }
  }

  /** A product as a sum, which is what the loops add up. */
  function Times(k: nat, each: nat): nat {
    if k == 0 then 0 else each + Times(k - 1, each)
  }

  lemma {:induction false} TimesIsProduct(k: nat, each: nat)
    ensures Times(k, each) == k * each
  {
    if k == 0 {
    } else {
      TimesIsProduct(k - 1, each);
      assert k * each == each + (k - 1) * each;
    }
  }

  lemma {:induction false} SweepAttempts(env: Env, v: Any, trace: Trace, start: nat, i: nat, n: nat, retries: nat)
    requires 0 < n && i <= n
    ensures var (ok, t) := Sweep(env, v, trace, start, i, n, retries);
            Made(trace, t, Times(n - i, retries), ok)
    decreases n - i
  {
    if i == n {
    } else {
      RetryAttempts(env, v, trace, Cyclic(start, i, n), retries);
      var (ok, t) := Retry(env, v, trace, Cyclic(start, i, n), retries);
      if !ok { SweepAttempts(env, v, t, start, i + 1, n, retries); }
    }
  }

  lemma {:induction false} RandomTriesAttempts(
    env: Env, v: Any, trace: Trace, home: nat, n: nat, left: nat, retries: nat)
    requires 0 < n
    ensures var (ok, t) := RandomTries(env, v, trace, home, n, left, retries);
            Made(trace, t, Times(left, retries), ok)
    decreases left
  {
    if left == 0 {
    } else {
      var d := env.draw(|trace|);
      AttemptsStep(trace, Draw(d));
      RetryAttempts(env, v, trace + [Draw(d)], RandomPick(d, home, n), retries);
      var (ok, t) := Retry(env, v, trace + [Draw(d)], RandomPick(d, home, n), retries);
      if !ok { RandomTriesAttempts(env, v, t, home, n, left - 1, retries); }
    }
  }

  lemma {:induction false} NoSweep(env: Env, v: Any, trace: Trace, start: nat, i: nat, n: nat, retries: int)
    requires 0 < n && i <= n && retries < 0
    ensures Sweep(env, v, trace, start, i, n, retries) == (false, trace)
    decreases n - i
  {
    if i == n {
    } else {
      NoSweep(env, v, trace, start, i + 1, n, retries);
    }
  }

  lemma {:induction false} NoRandomTries(env: Env, v: Any, trace: Trace, home: nat, n: nat, left: int, retries: int)
    requires 0 < n && retries < 0
    ensures var (ok, t) := RandomTries(env, v, trace, home, n, left, retries);
            !ok && Attempts(t) == Attempts(trace)
    decreases left
  {
    if left <= 0 {
    } else {
      var d := env.draw(|trace|);
      AttemptsStep(trace, Draw(d));
      NoRandomTries(env, v, trace + [Draw(d)], home, n, left - 1, retries);
    }
  }

  /** A negative limit means no attempts, like the limit zero. */
  lemma NoRetries(env: Env, v: Any, trace: Trace, home: nat, n: nat, retries: int)
    requires 0 < n && retries < 0
    ensures Sweep(env, v, trace, home, 0, n, retries) == (false, trace)
    ensures var (ok, t) := RandomTries(env, v, trace, home, n, n - 1, retries);
            !ok && Attempts(t) == Attempts(trace)
  {
    NoSweep(env, v, trace, home, 0, n, retries);
    NoRandomTries(env, v, trace, home, n, n - 1, retries);
  }

  lemma MadeJoins(a: Trace, b: Trace, c: Trace, first: nat, second: nat, ok: bool)
    requires Made(a, b, first, false) && Made(b, c, second, ok)
    ensures Made(a, c, first + second, ok)
  {
  }

  lemma RandomRoundAttempts(cfg: Config, n: nat, home: nat, env: Env, v: Any, trace: Trace)
    requires 0 < n && 0 <= cfg.maxRetries
    ensures var (ok, t) := Retry(env, v, trace, home, cfg.maxRetries);
            if ok then Made(trace, t, Times(n, cfg.maxRetries), true)
            else var (ok, t) := RandomTries(env, v, t, home, n, n - 1, cfg.maxRetries);
                 Made(trace, t, Times(n, cfg.maxRetries), ok)
  {
    RetryAttempts(env, v, trace, home, cfg.maxRetries);
    var (ok, t) := Retry(env, v, trace, home, cfg.maxRetries);
    if !ok {
      RandomTriesAttempts(env, v, t, home, n, n - 1, cfg.maxRetries);
      var (ok, after) := RandomTries(env, v, t, home, n, n - 1, cfg.maxRetries);
      MadeJoins(trace, t, after, cfg.maxRetries, Times(n - 1, cfg.maxRetries), ok);
    }
  }

  lemma RoundAttempts(s: Strategy, cfg: Config, n: nat, producer: nat, env: Env, v: Any, trace: Trace)
    requires 0 < n
    ensures var (ok, t) := Round(s, cfg, n, producer, env, v, trace);
            Made(trace, t, PerRound(s, cfg, n), ok)
  {
    var home := Place(producer, n);
    if cfg.maxRetries < 0 {
      NoRetries(env, v, trace, home, n, cfg.maxRetries);
      assert n * 0 == 0;
    } else {
      TimesIsProduct(n, cfg.maxRetries);
      match s
      case NextShard => SweepAttempts(env, v, trace, home, 0, n, cfg.maxRetries);
      case Hybrid => SweepAttempts(env, v, trace, home, 0, n, cfg.maxRetries);
      case RandomShard => RandomRoundAttempts(cfg, n, home, env, v, trace);
      case _ => RetryAttempts(env, v, trace, home, cfg.maxRetries);
    }
  }

  /** How the attempts made by a call, with `each` in a round nobody accepts, go with its pauses. */
  predicate Counted(done: Option<bool>, paused: int, made: int, each: nat) {
    && paused >= 0
    && match done
       case Some(true) => paused * each < made <= (paused + 1) * each
       case Some(false) => made == (paused + 1) * each
       case None => made == paused * each
  }

  lemma OneMoreRound(done: Option<bool>, paused: int, made: int, each: nat)
    requires Counted(done, paused, made, each)
    ensures Counted(done, paused + 1, each + made, each)
  {
    assert (paused + 1) * each == paused * each + each;
    assert (paused + 1 + 1) * each == (paused + 1) * each + each;
  }

  lemma LastRound(ok: bool, made: nat, each: nat)
    requires if ok then 0 < made <= each else made == each
    ensures Counted(Some(ok), 0, made, each)
  {
  }

  /** The counts after a refused round and a pause. */
  lemma RoundThenPause(trace: Trace, t: Trace, pause: Event, each: nat)
    requires Made(trace, t, each, false) && Pauses(t) == Pauses(trace) && IsPause(pause)
    ensures Attempts(t + [pause]) == Attempts(trace) + each
    ensures Pauses(t + [pause]) == Pauses(trace) + 1
  {
    PausesStep(t, pause);
    AttemptsStep(t, pause);
  }

  ghost predicate CountedSince(trace: Trace, out: Outcome, each: nat) {
    Counted(out.done, Pauses(out.trace) - Pauses(trace), Attempts(out.trace) - Attempts(trace), each)
  }

  lemma CountedFromEarlier(trace: Trace, later: Trace, out: Outcome, each: nat)
    requires Attempts(later) == Attempts(trace) + each && Pauses(later) == Pauses(trace) + 1
    requires CountedSince(later, out, each)
    ensures CountedSince(trace, out, each)
  {
    OneMoreRound(
      out.done, Pauses(out.trace) - Pauses(later), Attempts(out.trace) - Attempts(later), each);
  }

  /** A call that is not accepted has made, in each of its rounds, MaxRetries attempts on every
      shard of its round: the producer's own, or as many as there are shards. An accepted call has
      made that many in each round before the last, and at least one in the last. */
  lemma {:induction false} CallAttempts(
    s: Strategy, cfg: Config, n: nat, producer: nat, env: Env, v: Any, st: State, trace: Trace, rounds: nat)
    requires 0 < n
    ensures CountedSince(trace, Call(s, cfg, n, producer, env, v, st, trace, rounds), PerRound(s, cfg, n))
    decreases rounds
  {
    var each := PerRound(s, cfg, n);
    if rounds > 0 {
      RoundKeepsPauses(s, cfg, n, producer, env, v, trace);
      RoundAttempts(s, cfg, n, producer, env, v, trace);
      var (ok, t) := Round(s, cfg, n, producer, env, v, trace);
      var failed := st.(backoffCount := st.backoffCount + 1);
      if ok || cfg.GivesUp(failed.backoffCount) {
        LastRound(ok, Attempts(t) - Attempts(trace), each);
      } else {
        var (next, pause) := Pause(s, cfg, env, failed, t);
        PauseIsPause(s, cfg, env, failed, t);
        RoundThenPause(trace, t, pause, each);
        CallAttempts(s, cfg, n, producer, env, v, next, t + [pause], rounds - 1);
        CountedFromEarlier(
          trace, t + [pause], Call(s, cfg, n, producer, env, v, next, t + [pause], rounds - 1), each);
      }
    }
  }

  /** Outside the exponential and the adaptive strategies, the count of backoffs is all that a call
      takes from the writer's state. */
  lemma {:induction false} CountDecides(
    s: Strategy, cfg: Config, n: nat, producer: nat, env: Env, v: Any, a: State, b: State, trace: Trace, rounds: nat)
    requires 0 < n && !Exponential(s) && !s.AutoAdaptive? && a.backoffCount == b.backoffCount
    ensures var first := Call(s, cfg, n, producer, env, v, a, trace, rounds);
            var second := Call(s, cfg, n, producer, env, v, b, trace, rounds);
            first.done == second.done && first.trace == second.trace
    decreases rounds
  {
    if rounds == 0 {
    } else {
      var (ok, t) := Round(s, cfg, n, producer, env, v, trace);
      var fa, fb := a.(backoffCount := a.backoffCount + 1), b.(backoffCount := b.backoffCount + 1);
      if !ok && !cfg.GivesUp(fa.backoffCount) {
        var (next, pause) := Pause(s, cfg, env, fa, t);
        CountDecides(s, cfg, n, producer, env, v, next, Pause(s, cfg, env, fb, t).0, t + [pause], rounds - 1);
      }
    }
  }

  // ---------------------------------------------------------------- the budget of backoffs

  function PausesLeft(cfg: Config, st: State): nat {
    if cfg.maxBackoffs - 1 - st.backoffCount > 0 then cfg.maxBackoffs - 1 - st.backoffCount else 0
  }

  /** How the count of backoffs kept in the state, the pauses and the limit go together in a call from
      state `st` that was watched for `rounds` rounds. */
  predicate Budgeted(cfg: Config, st: State, paused: int, out: Outcome, rounds: nat) {
    && 0 <= paused
    && out.st.backoffCount == st.backoffCount + paused + (if out.done == Some(false) then 1 else 0)
    && (out.done == None ==> paused == rounds)
    && (cfg.maxBackoffs <= 0 ==> out.done != Some(false))
    && (cfg.maxBackoffs > 0 ==>
          && paused <= PausesLeft(cfg, st)
          && (out.done == Some(false) ==> paused == PausesLeft(cfg, st))
          && (rounds > PausesLeft(cfg, st) ==> out.done.Some?))
  }

  lemma BudgetedFromEarlier(cfg: Config, st: State, next: State, paused: int, out: Outcome, rounds: nat)
    requires next.backoffCount == st.backoffCount + 1 && !cfg.GivesUp(next.backoffCount)
    requires Budgeted(cfg, next, paused, out, rounds)
    ensures Budgeted(cfg, st, paused + 1, out, rounds + 1)
  {
  }

  lemma BudgetedAtEnd(s: Strategy, cfg: Config, st: State, t: Trace, ok: bool, rounds: nat)
    requires ok || cfg.GivesUp(st.backoffCount + 1)
    ensures Budgeted(cfg, st, 0, if ok then Outcome(Some(true), Accepted(s, cfg, st), t)
                                 else Outcome(Some(false), st.(backoffCount := st.backoffCount + 1), t), rounds)
  {
  }

  /** The count kept in the state is the count of pauses, and one more for a call that gave up. With
      a limit, a call that gives up has paused exactly as often as the limit left room for, any other
      call at most that often, and the limit ends every call after one more round than that. */
  lemma {:induction false} BackoffBudget(
    s: Strategy, cfg: Config, n: nat, producer: nat, env: Env, v: Any, st: State, trace: Trace, rounds: nat)
    requires 0 < n
    ensures var out := Call(s, cfg, n, producer, env, v, st, trace, rounds);
            Budgeted(cfg, st, Pauses(out.trace) - Pauses(trace), out, rounds)
    decreases rounds
  {
    if rounds == 0 {
    } else {
      RoundKeepsPauses(s, cfg, n, producer, env, v, trace);
      var (ok, t) := Round(s, cfg, n, producer, env, v, trace);
      var failed := st.(backoffCount := st.backoffCount + 1);
      if ok || cfg.GivesUp(failed.backoffCount) {
        BudgetedAtEnd(s, cfg, st, t, ok, rounds);
      } else {
        PauseIsPause(s, cfg, env, failed, t);
        var (next, pause) := Pause(s, cfg, env, failed, t);
        PausesStep(t, pause);
        BackoffBudget(s, cfg, n, producer, env, v, next, t + [pause], rounds - 1);
        var out := Call(s, cfg, n, producer, env, v, next, t + [pause], rounds - 1);
        BudgetedFromEarlier(cfg, st, next, Pauses(out.trace) - Pauses(t + [pause]), out, rounds - 1);
      }
    }
  }
}
