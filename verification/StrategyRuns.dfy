/** What the retry strategies do over several calls of one writer, between two resets. */
module StrategyRuns {
  import opened Bits
  import opened Words
  import opened Values
  import opened Strategies

  /** The state and events after some calls, and how many of them were accepted. */
  datatype Stretch = Stretch(st: State, trace: Trace, accepted: nat)

  /** Calls that write the given values one after the other; a call still running after `rounds`
      rounds is the last. */
  function Calls(
    s: Strategy, cfg: Config, n: nat, producer: nat, env: Env, values: seq<Any>, st: State, trace: Trace,
    rounds: nat): Stretch
    requires 0 < n
    decreases values
  {
    if values == [] then Stretch(st, trace, 0) else
    var out := Call(s, cfg, n, producer, env, values[0], st, trace, rounds);
    if out.done.None? then Stretch(out.st, out.trace, 0) else
    var rest := Calls(s, cfg, n, producer, env, values[1..], out.st, out.trace, rounds);
    rest.(accepted := rest.accepted + if out.done == Some(true) then 1 else 0)
  }

  /** A writer with a limit of M pauses at most M - 1 times in its whole life between resets, over
      all its calls together. */
  lemma {:induction false} LifetimeBudget(
    s: Strategy, cfg: Config, n: nat, producer: nat, env: Env, values: seq<Any>, st: State, trace: Trace,
    rounds: nat)
    requires 0 < n && cfg.maxBackoffs > 0
    ensures var after := Calls(s, cfg, n, producer, env, values, st, trace, rounds);
            && 0 <= Pauses(after.trace) - Pauses(trace) <= PausesLeft(cfg, st)
            && (st == Fresh(cfg) ==> Pauses(after.trace) - Pauses(trace) <= cfg.maxBackoffs - 1)
    decreases values
  {
    if values == [] {
    } else {
      BackoffBudget(s, cfg, n, producer, env, values[0], st, trace, rounds);
      var out := Call(s, cfg, n, producer, env, values[0], st, trace, rounds);
      if out.done.Some? {
        LifetimeBudget(s, cfg, n, producer, env, values[1..], out.st, out.trace, rounds);
      }
    }
  }

  // ---------------------------------------------------------------- the pauses, one by one

  /** A pause, and how many events came before it. */
  datatype Paused = Paused(at: nat, event: Event)

  /** The events that are pauses. */
  function PauseList(trace: Trace): (ps: seq<Paused>)
    ensures |ps| == Pauses(trace)
  {
    if trace == [] then [] else
    var at := |trace| - 1;
    PauseList(trace[..at]) + if IsPause(trace[at]) then [Paused(at, trace[at])] else []
  }

  lemma PauseListStep(trace: Trace, e: Event)
    ensures PauseList(trace + [e]) == PauseList(trace) + if IsPause(e) then [Paused(|trace|, e)] else []
  {
    assert (trace + [e])[..|trace|] == trace;
  }

  /** A longer trace with no more pauses has the same ones. */
  lemma {:induction false} SameCountSameList(trace: Trace, after: Trace)
    requires trace <= after && Pauses(after) == Pauses(trace)
    ensures PauseList(after) == PauseList(trace)
    decreases |after|
  {
    if trace == after {
    } else {
      var init := after[..|after| - 1];
      EqualCountNoPause(trace, init);
      SameCountSameList(trace, init);
    }
  }

  /** The backoff after `k` pauses. */
  function Grown(cfg: Config, backoff: int, k: nat): int {
    if k == 0 then backoff else Grow(cfg, Grown(cfg, backoff, k - 1))
  }

  /** The jitter factor is drawn from 0.75 up to but not including 1.25. */
  ghost predicate JitterInRange(env: Env) {
    forall k :: 0.75 <= env.jitter(k) < 1.25
  }

  predicate Growable(cfg: Config) {
    cfg.maxBackoffDuration >= 0 && cfg.Multiplier() >= 0.0
  }

  lemma ProductNonNegative(x: real, a: real)
    requires x >= 0.0 && a >= 0.0
    ensures x * a >= 0.0
  {
  }

  lemma GrowNonNegative(cfg: Config, backoff: int)
    requires backoff >= 0 && Growable(cfg)
    ensures Grow(cfg, backoff) >= 0
  {
    ProductNonNegative(backoff as real, cfg.Multiplier());
  }

  lemma {:induction false} GrownNonNegative(cfg: Config, backoff: int, k: nat)
    requires backoff >= 0 && Growable(cfg)
    ensures Grown(cfg, backoff, k) >= 0
  {
    if k == 0 {
    } else {
      GrownNonNegative(cfg, backoff, k - 1);
      GrowNonNegative(cfg, Grown(cfg, backoff, k - 1));
    }
  }

  function Positive(x: int): nat {
    if x > 0 then x else 0
  }

  /** How many idle pauses, after the warmup, are still yields. */
  function IdleYields(cfg: Config): nat {
    Positive(cfg.IdleLimit()) + 1
  }

  /** The state after `m` pauses without an accepted write, from a warmup of `w0`. */
  ghost predicate AfterPauses(cfg: Config, st: State, w0: int, m: nat) {
    var w, q := Positive(w0), IdleYields(cfg);
    && st.warmup == (if m <= w then w0 - m else if w0 > 0 then 0 else w0)
    && st.idle == (if m <= w then 0 else if m - w <= q then m - w else q)
    && st.mode == (if m - w >= q then SleepMode else YieldMode)
  }

  /** What the pauses of a writer have to follow: sleeps around a backoff that grows from a first
      one, or yields for a warmup and the idle limit and then sleeps. */
  datatype Plan = Growing(backoff: int) | Idling(warmup: int)

  predicate Plans(s: Strategy, plan: Plan) {
    if plan.Growing? then Exponential(s) else s.AutoAdaptive?
  }

  /** The state a writer is in after `m` pauses of the plan. */
  ghost predicate Stands(cfg: Config, plan: Plan, st: State, m: nat) {
    match plan
    case Growing(backoff) => st.currentBackoff == Grown(cfg, backoff, m)
    case Idling(warmup) => AfterPauses(cfg, st, warmup, m)
  }

  /** The pause with index `m` of the plan. */
  predicate Fits(cfg: Config, env: Env, plan: Plan, m: nat, p: Paused) {
    match plan
    case Growing(backoff) => p.event == Sleep(Scale(Grown(cfg, backoff, m), env.jitter(p.at)))
    case Idling(warmup) =>
      p.event == if m < Positive(warmup) + IdleYields(cfg) then Yield else Sleep(cfg.IdleSleep())
  }

  ghost predicate Follows(cfg: Config, env: Env, plan: Plan, m: nat, pauses: seq<Paused>) {
    forall i :: 0 <= i < |pauses| ==> Fits(cfg, env, plan, m + i, pauses[i])
  }

  lemma FollowsJoin(cfg: Config, env: Env, plan: Plan, m: nat, a: seq<Paused>, b: seq<Paused>)
    requires Follows(cfg, env, plan, m, a) && Follows(cfg, env, plan, m + |a|, b)
    ensures Follows(cfg, env, plan, m, a + b)
  {
    forall i | 0 <= i < |a + b| ensures Fits(cfg, env, plan, m + i, (a + b)[i]) {
      if i >= |a| {
        assert Fits(cfg, env, plan, m + |a| + (i - |a|), b[i - |a|]);
      }
    }
  }

  function Tail(p: seq<Paused>, q: seq<Paused>): seq<Paused> {
    if |p| <= |q| then q[|p|..] else []
  }

  lemma TailJoin(p: seq<Paused>, q: seq<Paused>, r: seq<Paused>)
    requires p <= q <= r
    ensures Tail(p, r) == Tail(p, q) + Tail(q, r)
  {
  }

  /** The pauses among the events that make `trace` into `after`. */
  function NewPauses(trace: Trace, after: Trace): seq<Paused> {
    Tail(PauseList(trace), PauseList(after))
  }

  ghost predicate Extends(cfg: Config, env: Env, plan: Plan, m: nat, p: seq<Paused>, q: seq<Paused>) {
    p <= q && Follows(cfg, env, plan, m, Tail(p, q))
  }

  lemma ExtendsJoin(
    cfg: Config, env: Env, plan: Plan, m: nat, l: nat, p: seq<Paused>, q: seq<Paused>, r: seq<Paused>)
    requires Extends(cfg, env, plan, m, p, q) && Extends(cfg, env, plan, l, q, r) && l == m + (|q| - |p|)
    ensures Extends(cfg, env, plan, m, p, r)
  {
    TailJoin(p, q, r);
    FollowsJoin(cfg, env, plan, m, Tail(p, q), Tail(q, r));
  }

  /** The pauses from `trace` to `after` are those of the plan from its m-th on. */
  ghost predicate PausesFollow(cfg: Config, env: Env, plan: Plan, m: nat, trace: Trace, after: Trace) {
    Extends(cfg, env, plan, m, PauseList(trace), PauseList(after))
  }

  /** A round without pauses, then the plan's next pause. */
  lemma OneRound(cfg: Config, env: Env, plan: Plan, m: nat, trace: Trace, t: Trace, pause: Event)
    requires trace <= t && Pauses(t) == Pauses(trace) && IsPause(pause)
    requires Fits(cfg, env, plan, m, Paused(|t|, pause))
    ensures PausesFollow(cfg, env, plan, m, trace, t + [pause])
    ensures Pauses(t + [pause]) == Pauses(trace) + 1
  {
    SameCountSameList(trace, t);
    PauseListStep(t, pause);
    PausesStep(t, pause);
    assert NewPauses(trace, t + [pause]) == [Paused(|t|, pause)];
  }

  lemma NoPauses(cfg: Config, env: Env, plan: Plan, m: nat, trace: Trace, t: Trace)
    requires trace <= t && Pauses(t) == Pauses(trace)
    ensures PausesFollow(cfg, env, plan, m, trace, t)
  {
    SameCountSameList(trace, t);
  }

  lemma PlanPause(s: Strategy, cfg: Config, env: Env, st: State, trace: Trace, plan: Plan, m: nat)
    requires Plans(s, plan) && Stands(cfg, plan, st, m)
    ensures var (next, pause) := Pause(s, cfg, env, st, trace);
            Stands(cfg, plan, next, m + 1) && Fits(cfg, env, plan, m, Paused(|trace|, pause)) && IsPause(pause)
  {
  }

  /** Where a call that started at the m-th pause of a plan leaves the writer: further on by its
      pauses; or, for an accepted AutoAdaptive call, at the start of a plan with the full warmup. */
  ghost predicate Lands(s: Strategy, cfg: Config, plan: Plan, m: nat, trace: Trace, out: Outcome) {
    && Pauses(out.trace) >= Pauses(trace)
    && if s.AutoAdaptive? && out.done == Some(true) then Stands(cfg, Idling(cfg.Warmup()), out.st, 0)
       else Stands(cfg, plan, out.st, m + (Pauses(out.trace) - Pauses(trace)))
  }

  ghost predicate Continues(
    s: Strategy, cfg: Config, env: Env, plan: Plan, m: nat, trace: Trace, out: Outcome)
  {
    PausesFollow(cfg, env, plan, m, trace, out.trace) && Lands(s, cfg, plan, m, trace, out)
  }

  /** What comes after `later`, taken from `trace` on. */
  lemma FromEarlier(
    s: Strategy, cfg: Config, env: Env, plan: Plan, m: nat, l: nat, trace: Trace, later: Trace, out: Outcome)
    requires PausesFollow(cfg, env, plan, m, trace, later) && l == m + (Pauses(later) - Pauses(trace))
    requires Pauses(later) >= Pauses(trace)
    requires Continues(s, cfg, env, plan, l, later, out)
    ensures Continues(s, cfg, env, plan, m, trace, out)
  {
    ExtendsJoin(cfg, env, plan, m, l, PauseList(trace), PauseList(later), PauseList(out.trace));
    assert m + (Pauses(out.trace) - Pauses(trace)) == l + (Pauses(out.trace) - Pauses(later));
  }

  /** A call that ends with its first round makes no pause. */
  lemma EndsWithRound(
    s: Strategy, cfg: Config, env: Env, plan: Plan, m: nat, st: State, trace: Trace, t: Trace, ok: bool)
    requires Plans(s, plan) && Stands(cfg, plan, st, m) && trace <= t && Pauses(t) == Pauses(trace)
    ensures Continues(s, cfg, env, plan, m, trace,
                      if ok then Outcome(Some(true), Accepted(s, cfg, st), t)
                      else Outcome(Some(false), st.(backoffCount := st.backoffCount + 1), t))
  {
    NoPauses(cfg, env, plan, m, trace, t);
  }

  lemma NoRound(s: Strategy, cfg: Config, env: Env, plan: Plan, m: nat, st: State, trace: Trace)
    requires Plans(s, plan) && Stands(cfg, plan, st, m)
    ensures Continues(s, cfg, env, plan, m, trace, Outcome(None, st, trace))
  {
    NoPauses(cfg, env, plan, m, trace, trace);
  }

  /** What comes after a refused round and a pause, taken from before the round. */
  lemma FromNextRound(
    s: Strategy, cfg: Config, env: Env, plan: Plan, m: nat, st: State, trace: Trace, t: Trace, pause: Event,
    out: Outcome)
    requires trace <= t && Pauses(t) == Pauses(trace) && IsPause(pause)
    requires Fits(cfg, env, plan, m, Paused(|t|, pause))
    requires Continues(s, cfg, env, plan, m + 1, t + [pause], out)
    ensures Continues(s, cfg, env, plan, m, trace, out)
  {
    OneRound(cfg, env, plan, m, trace, t, pause);
    FromEarlier(s, cfg, env, plan, m, m + 1, trace, t + [pause], out);
  }

  /** The pauses of one call continue the plan. */
  lemma {:induction false} CallFollowsPlan(
    s: Strategy, cfg: Config, n: nat, producer: nat, env: Env, v: Any, st: State, trace: Trace, rounds: nat,
    plan: Plan, m: nat)
    requires 0 < n && Plans(s, plan) && Stands(cfg, plan, st, m)
    ensures Continues(s, cfg, env, plan, m, trace, Call(s, cfg, n, producer, env, v, st, trace, rounds))
    decreases rounds
  {
    if rounds == 0 {
      NoRound(s, cfg, env, plan, m, st, trace);
    } else {
      RoundKeepsPauses(s, cfg, n, producer, env, v, trace);
      var (ok, t) := Round(s, cfg, n, producer, env, v, trace);
      var failed := st.(backoffCount := st.backoffCount + 1);
      if ok || cfg.GivesUp(failed.backoffCount) {
        EndsWithRound(s, cfg, env, plan, m, st, trace, t, ok);
      } else {
        PlanPause(s, cfg, env, failed, t, plan, m);
        var (next, pause) := Pause(s, cfg, env, failed, t);
        CallFollowsPlan(s, cfg, n, producer, env, v, next, t + [pause], rounds - 1, plan, m + 1);
        FromNextRound(s, cfg, env, plan, m, st, trace, t, pause,
                      Call(s, cfg, n, producer, env, v, next, t + [pause], rounds - 1));
      }
    }
  }

  /** The pauses of any number of calls continue the plan; for the exponential strategies whatever
      the results of the calls, for AutoAdaptive as long as none is accepted. */
  lemma {:induction false} CallsFollowPlan(
    s: Strategy, cfg: Config, n: nat, producer: nat, env: Env, values: seq<Any>, st: State, trace: Trace,
    rounds: nat, plan: Plan, m: nat)
    requires 0 < n && Plans(s, plan) && Stands(cfg, plan, st, m)
    requires s.AutoAdaptive? ==> Calls(s, cfg, n, producer, env, values, st, trace, rounds).accepted == 0
    ensures var after := Calls(s, cfg, n, producer, env, values, st, trace, rounds);
            Continues(s, cfg, env, plan, m, trace, Outcome(None, after.st, after.trace))
    decreases values
  {
    if values == [] {
      NoRound(s, cfg, env, plan, m, st, trace);
    } else {
      CallFollowsPlan(s, cfg, n, producer, env, values[0], st, trace, rounds, plan, m);
      var out := Call(s, cfg, n, producer, env, values[0], st, trace, rounds);
      if out.done.Some? {
        var l := m + (Pauses(out.trace) - Pauses(trace));
        CallsFollowPlan(s, cfg, n, producer, env, values[1..], out.st, out.trace, rounds, plan, l);
        var rest := Calls(s, cfg, n, producer, env, values[1..], out.st, out.trace, rounds);
        FromEarlier(s, cfg, env, plan, m, l, trace, out.trace, Outcome(None, rest.st, rest.trace));
      }
    }
  }

  // ---------------------------------------------------------------- exponential backoff

  /** The kept backoff depends on the number of pauses only, not on how calls or acceptances are
      spread among them. */
  lemma CallsGrow(
    s: Strategy, cfg: Config, n: nat, producer: nat, env: Env, values: seq<Any>, st: State, trace: Trace,
    rounds: nat)
    requires 0 < n && Exponential(s)
    ensures var after := Calls(s, cfg, n, producer, env, values, st, trace, rounds);
            Pauses(after.trace) >= Pauses(trace) &&
            after.st.currentBackoff == Grown(cfg, st.currentBackoff, Pauses(after.trace) - Pauses(trace))
  {
    CallsFollowPlan(s, cfg, n, producer, env, values, st, trace, rounds, Growing(st.currentBackoff), 0);
  }

  function Min(a: int, b: int): int {
    if a < b then a else b
  }

  lemma DoubleExact(b: int)
    ensures Scale(b, 2.0) == 2 * b
  {
    assert b as real * 2.0 == (2 * b) as real;
  }

  lemma DoubledProduct(backoff: int, k: nat)
    requires k > 0
    ensures backoff * Pow2(k) == 2 * (backoff * Pow2(k - 1))
  {
  }

  lemma NonPositiveProduct(a: int, p: nat)
    requires a <= 0 && p >= 1
    ensures a * p <= a
  {
  }

  /** The value that a field of the configuration stands for: its default when it is zero. */
  predicate Effective(field: int, default: int, value: int) {
    value == if field == 0 then default else field
  }

  predicate EffectiveMultiplier(cfg: Config, m: real) {
    m == if cfg.backoffMultiplier == 0.0 then 2.0 else cfg.backoffMultiplier
  }

  predicate EffectiveCap(cfg: Config, cap: int) {
    Effective(cfg.maxBackoffDuration, 10_000_000, cap)
  }

  /** `d` is `x` without its fraction. */
  predicate Truncated(x: real, d: int) {
    if x >= 0.0 then d as real <= x < d as real + 1.0 else d as real - 1.0 < x <= d as real
  }

  lemma TruncateDropsFraction(x: real)
    ensures Truncated(x, Truncate(x))
  {
  }

  /** `d` is the duration `b` times the factor, without its fraction. */
  predicate Scaled(b: int, factor: real, d: int) {
    Truncated(b as real * factor, d)
  }

  lemma ScaleIsScaled(b: int, factor: real)
    ensures Scaled(b, factor, Scale(b, factor))
  {
    TruncateDropsFraction(b as real * factor);
  }

  lemma GrowIsCapped(cfg: Config, backoff: int)
    ensures Grow(cfg, backoff) == Min(Scale(backoff, cfg.Multiplier()), cfg.Cap())
  {
  }

  /** Each backoff is the one before times the multiplier, the fraction dropped, or the cap if that is
      less; the first is the one the writer had. */
  lemma GrownStep(cfg: Config, backoff: int, k: nat, m: real, cap: int) returns (product: int)
    requires EffectiveMultiplier(cfg, m) && EffectiveCap(cfg, cap)
    ensures Scaled(Grown(cfg, backoff, k), m, product)
    ensures Grown(cfg, backoff, k + 1) == Min(product, cap) && Grown(cfg, backoff, 0) == backoff
  {
    var b := Grown(cfg, backoff, k);
    product := Scale(b, cfg.Multiplier());
    ScaleIsScaled(b, cfg.Multiplier());
    GrowIsCapped(cfg, b);
  }

  /** With the multiplier 2 and a backoff within the cap, k pauses double it k times, up to the cap. */
  lemma {:induction false} GrownDoubles(cfg: Config, backoff: int, k: nat, cap: int)
    requires EffectiveMultiplier(cfg, 2.0) && EffectiveCap(cfg, cap) && backoff <= cap
    ensures Grown(cfg, backoff, k) == Min(backoff * Pow2(k), cap)
  {
    if k == 0 {
    } else {
      GrownDoubles(cfg, backoff, k - 1, cap);
      DoubleExact(Grown(cfg, backoff, k - 1));
      var b := backoff * Pow2(k - 1);
      DoubledProduct(backoff, k);
      if b > cap && backoff <= 0 {
        NonPositiveProduct(backoff, Pow2(k - 1));
      }
    }
  }

  /** The i-th pause is a sleep of the i-th backoff times the factor drawn for it, the fraction dropped. */
  predicate Jitters(cfg: Config, env: Env, backoff: int, i: nat, p: Paused) {
    p.event.Sleep? && Scaled(Grown(cfg, backoff, i), env.jitter(p.at), p.event.duration)
  }

  lemma FollowsGrowing(cfg: Config, env: Env, backoff: int, pauses: seq<Paused>)
    requires Follows(cfg, env, Growing(backoff), 0, pauses)
    ensures forall i :: 0 <= i < |pauses| ==> Jitters(cfg, env, backoff, i, pauses[i])
  {
    forall i | 0 <= i < |pauses| ensures Jitters(cfg, env, backoff, i, pauses[i]) {
      assert Fits(cfg, env, Growing(backoff), 0 + i, pauses[i]);
      ScaleIsScaled(Grown(cfg, backoff, i), env.jitter(pauses[i].at));
    }
  }

  /** The i-th pause of any calls, accepted or not, is a sleep of the i-th backoff times its factor. */
  lemma SleepsFollowFactors(
    s: Strategy, cfg: Config, n: nat, producer: nat, env: Env, values: seq<Any>, st: State, trace: Trace,
    rounds: nat)
    requires 0 < n && Exponential(s)
    ensures var after := Calls(s, cfg, n, producer, env, values, st, trace, rounds).trace;
            var pauses := NewPauses(trace, after);
            && |pauses| == Pauses(after) - Pauses(trace)
            && forall i :: 0 <= i < |pauses| ==> Jitters(cfg, env, st.currentBackoff, i, pauses[i])
  {
    CallsFollowPlan(s, cfg, n, producer, env, values, st, trace, rounds, Growing(st.currentBackoff), 0);
    FollowsGrowing(cfg, env, st.currentBackoff,
                   NewPauses(trace, Calls(s, cfg, n, producer, env, values, st, trace, rounds).trace));
  }

  /** 3/4 to 5/4 of the backoff, the fraction dropped. */
  predicate Near(d: int, backoff: int) {
    3 * backoff - 4 < 4 * d <= 5 * backoff
  }

  ghost predicate Jitterable(cfg: Config, env: Env, backoff: int) {
    JitterInRange(env) && Growable(cfg) && backoff >= 0
  }

  lemma TruncationNear(b: int, y: real, d: int)
    requires y >= 0.0 && b as real * 0.75 <= y <= b as real * 1.25 && Truncated(y, d)
    ensures Near(d, b)
  {
    assert (4 * d) as real <= (5 * b) as real && (3 * b) as real < (4 * d + 4) as real;
  }

  lemma ProductBounds(b: int, j: real, d: int)
    requires b >= 0 && 0.75 <= j < 1.25 && Scaled(b, j, d)
    ensures Near(d, b)
  {
    var x := b as real;
    var y := x * j;
    ProductNonNegative(x, j - 0.75);
    ProductNonNegative(x, 1.25 - j);
    ProductNonNegative(x, j);
    assert x * (j - 0.75) == y - x * 0.75 && x * (1.25 - j) == x * 1.25 - y;
    TruncationNear(b, y, d);
  }

  lemma JittersNear(cfg: Config, env: Env, backoff: int, i: nat, p: Paused)
    requires Jitterable(cfg, env, backoff) && Jitters(cfg, env, backoff, i, p)
    ensures Near(p.event.duration, Grown(cfg, backoff, i))
  {
    GrownNonNegative(cfg, backoff, i);
    ProductBounds(Grown(cfg, backoff, i), env.jitter(p.at), p.event.duration);
  }

  ghost predicate SleepsNear(cfg: Config, backoff: int, pauses: seq<Paused>) {
    forall i :: 0 <= i < |pauses| ==>
      pauses[i].event.Sleep? && Near(pauses[i].event.duration, Grown(cfg, backoff, i))
  }

  /** So every sleep is 3/4 to 5/4 of its backoff; and whatever the multiplier, only the first may be
      longer than 5/4 of the cap. */
  lemma SleepsGrow(
    s: Strategy, cfg: Config, n: nat, producer: nat, env: Env, values: seq<Any>, st: State, trace: Trace,
    rounds: nat, cap: int)
    requires 0 < n && Exponential(s) && Jitterable(cfg, env, st.currentBackoff) && EffectiveCap(cfg, cap)
    ensures var pauses := NewPauses(trace, Calls(s, cfg, n, producer, env, values, st, trace, rounds).trace);
            && SleepsNear(cfg, st.currentBackoff, pauses)
            && forall i :: 0 < i < |pauses| ==> pauses[i].event.Sleep? && 4 * pauses[i].event.duration <= 5 * cap
  {
    SleepsFollowFactors(s, cfg, n, producer, env, values, st, trace, rounds);
    var pauses := NewPauses(trace, Calls(s, cfg, n, producer, env, values, st, trace, rounds).trace);
    forall i | 0 <= i < |pauses|
      ensures pauses[i].event.Sleep? && Near(pauses[i].event.duration, Grown(cfg, st.currentBackoff, i))
    {
      JittersNear(cfg, env, st.currentBackoff, i, pauses[i]);
    }
    forall i | 0 < i < |pauses| ensures Grown(cfg, st.currentBackoff, i) <= cap {
      GrowIsCapped(cfg, Grown(cfg, st.currentBackoff, i - 1));
    }
  }

  /** The length of all sleeps together. */
  function Slept(pauses: seq<Paused>): int {
    if pauses == [] then 0 else
    var e := pauses[|pauses| - 1].event;
    Slept(pauses[..|pauses| - 1]) + if e.Sleep? then e.duration else 0
  }

  /** The sum of the first `k` backoffs. */
  function BackoffSum(cfg: Config, backoff: int, k: nat): int {
    if k == 0 then 0 else BackoffSum(cfg, backoff, k - 1) + Grown(cfg, backoff, k - 1)
  }

  lemma {:induction false} SleptBounds(cfg: Config, backoff: int, pauses: seq<Paused>)
    requires SleepsNear(cfg, backoff, pauses)
    ensures 3 * BackoffSum(cfg, backoff, |pauses|) - 4 * |pauses| <= 4 * Slept(pauses)
    ensures 4 * Slept(pauses) <= 5 * BackoffSum(cfg, backoff, |pauses|)
    decreases |pauses|
  {
    if pauses == [] {
    } else {
      SleptBounds(cfg, backoff, pauses[..|pauses| - 1]);
      assert Near(pauses[|pauses| - 1].event.duration, Grown(cfg, backoff, |pauses| - 1));
    }
  }

  /** The sleeps of any calls are, in all, at most 5/4 of the sum of as many backoffs, and at least
      3/4 of it up to rounding. */
  lemma CallsSleepBounds(
    s: Strategy, cfg: Config, n: nat, producer: nat, env: Env, values: seq<Any>, st: State, trace: Trace,
    rounds: nat)
    requires 0 < n && Exponential(s) && Jitterable(cfg, env, st.currentBackoff)
    ensures var pauses := NewPauses(trace, Calls(s, cfg, n, producer, env, values, st, trace, rounds).trace);
            var sum := BackoffSum(cfg, st.currentBackoff, |pauses|);
            3 * sum - 4 * |pauses| <= 4 * Slept(pauses) <= 5 * sum
  {
    var pauses := NewPauses(trace, Calls(s, cfg, n, producer, env, values, st, trace, rounds).trace);
    SleepsGrow(s, cfg, n, producer, env, values, st, trace, rounds, cfg.Cap());
    SleptBounds(cfg, st.currentBackoff, pauses);
  }

  /** A duration doubled `k` times. */
  function Doubled(b: int, k: nat): int {
    if k == 0 then b else 2 * Doubled(b, k - 1)
  }

  lemma {:induction false} DoubledIsProduct(b: int, k: nat)
    ensures Doubled(b, k) == b * Pow2(k)
  {
    if k == 0 {
    } else {
      DoubledIsProduct(b, k - 1);
      DoubledProduct(b, k);
    }
  }

  lemma GrownIsDoubled(cfg: Config, backoff: int, k: nat, cap: int)
    requires EffectiveMultiplier(cfg, 2.0) && EffectiveCap(cfg, cap) && backoff <= cap
    ensures Grown(cfg, backoff, k) == Min(Doubled(backoff, k), cap)
  {
    GrownDoubles(cfg, backoff, k, cap);
    DoubledIsProduct(backoff, k);
  }

  /** The sleeps are 3/4 to 5/4 of the duration doubled once for each pause before, or of the cap. */
  ghost predicate SleepsDouble(backoff: int, cap: int, pauses: seq<Paused>) {
    forall i :: 0 <= i < |pauses| ==>
      pauses[i].event.Sleep? && Near(pauses[i].event.duration, Min(Doubled(backoff, i), cap))
  }

  /** A new or reset writer starts its backoff at the configured duration: with the multiplier 2 and a
      duration within the cap, it stands after k pauses, over any calls, at the duration doubled k
      times or at the cap, and its i-th sleep is 3/4 to 5/4 of the duration doubled i times or of the
      cap. */
  lemma FreshGrows(
    s: Strategy, cfg: Config, n: nat, producer: nat, env: Env, values: seq<Any>, trace: Trace, rounds: nat, cap: int)
    requires 0 < n && Exponential(s)
    requires EffectiveMultiplier(cfg, 2.0) && EffectiveCap(cfg, cap) && cfg.backoffDuration <= cap
    ensures var after := Calls(s, cfg, n, producer, env, values, Fresh(cfg), trace, rounds);
            var pauses := NewPauses(trace, after.trace);
            && after.st.currentBackoff == Min(Doubled(cfg.backoffDuration, |pauses|), cap)
            && (Jitterable(cfg, env, cfg.backoffDuration) ==> SleepsDouble(cfg.backoffDuration, cap, pauses))
  {
    var st := Fresh(cfg);
    var after := Calls(s, cfg, n, producer, env, values, st, trace, rounds);
    var pauses := NewPauses(trace, after.trace);
    CallsGrow(s, cfg, n, producer, env, values, st, trace, rounds);
    SleepsFollowFactors(s, cfg, n, producer, env, values, st, trace, rounds);
    GrownIsDoubled(cfg, cfg.backoffDuration, |pauses|, cap);
    if Jitterable(cfg, env, cfg.backoffDuration) {
      SleepsGrow(s, cfg, n, producer, env, values, st, trace, rounds, cap);
      forall i | 0 <= i < |pauses|
        ensures Near(pauses[i].event.duration, Min(Doubled(cfg.backoffDuration, i), cap))
      {
        GrownIsDoubled(cfg, cfg.backoffDuration, i, cap);
      }
    }
  }

  /** A new or reset writer starts its count of backoffs at zero: with a limit M, its first call, if it
      gives up, has paused exactly M - 1 times, and it is over after M rounds. */
  lemma FreshGivesUp(
    s: Strategy, cfg: Config, n: nat, producer: nat, env: Env, v: Any, trace: Trace, rounds: nat)
    requires 0 < n && cfg.maxBackoffs > 0
    ensures var out := Call(s, cfg, n, producer, env, v, Fresh(cfg), trace, rounds);
            && (out.done == Some(false) ==> Pauses(out.trace) - Pauses(trace) == cfg.maxBackoffs - 1)
            && (rounds >= cfg.maxBackoffs ==> out.done.Some?)
  {
    BackoffBudget(s, cfg, n, producer, env, v, Fresh(cfg), trace, rounds);
  }

  // ---------------------------------------------------------------- the adaptive modes

  /** Yields as long as the warmup and the idle limit last, and sleeps from then on. */
  ghost predicate YieldThenSleep(pauses: seq<Paused>, warmup: int, limit: int, sleep: int) {
    forall i :: 0 <= i < |pauses| ==>
      pauses[i].event == if i < Positive(warmup) + Positive(limit) + 1 then Yield else Sleep(sleep)
  }

  /** Counted from a state that has not idled yet, with a warmup of `w0`, the i-th pause of calls that
      are not accepted is a yield for i below warmup plus idle limit plus one, and a sleep from then
      on. */
  lemma YieldsThenSleeps(
    cfg: Config, n: nat, producer: nat, env: Env, values: seq<Any>, st: State, trace: Trace, rounds: nat, w0: int,
    limit: int, sleep: int)
    requires 0 < n && AfterPauses(cfg, st, w0, 0)
    requires Effective(cfg.adaptiveIdleIterations, 100_000, limit)
    requires Effective(cfg.adaptiveSleepDuration, 100_000, sleep)
    requires Calls(AutoAdaptive, cfg, n, producer, env, values, st, trace, rounds).accepted == 0
    ensures var after := Calls(AutoAdaptive, cfg, n, producer, env, values, st, trace, rounds).trace;
            && |NewPauses(trace, after)| == Pauses(after) - Pauses(trace)
            && YieldThenSleep(NewPauses(trace, after), w0, limit, sleep)
  {
    CallsFollowPlan(AutoAdaptive, cfg, n, producer, env, values, st, trace, rounds, Idling(w0), 0);
    var after := Calls(AutoAdaptive, cfg, n, producer, env, values, st, trace, rounds).trace;
    forall i | 0 <= i < |NewPauses(trace, after)|
      ensures Fits(cfg, env, Idling(w0), i, NewPauses(trace, after)[i])
    {
      assert Fits(cfg, env, Idling(w0), 0 + i, NewPauses(trace, after)[i]);
    }
  }

  /** From a new or reset writer: with an idle limit of I, the first I + 1 pauses of calls that are not
      accepted are yields, and all later ones sleeps. */
  lemma FreshYields(
    cfg: Config, n: nat, producer: nat, env: Env, values: seq<Any>, trace: Trace, rounds: nat, limit: int, sleep: int)
    requires 0 < n
    requires Effective(cfg.adaptiveIdleIterations, 100_000, limit)
    requires Effective(cfg.adaptiveSleepDuration, 100_000, sleep)
    requires Calls(AutoAdaptive, cfg, n, producer, env, values, Fresh(cfg), trace, rounds).accepted == 0
    ensures var after := Calls(AutoAdaptive, cfg, n, producer, env, values, Fresh(cfg), trace, rounds).trace;
            && |NewPauses(trace, after)| == Pauses(after) - Pauses(trace)
            && YieldThenSleep(NewPauses(trace, after), 0, limit, sleep)
  {
    YieldsThenSleeps(cfg, n, producer, env, values, Fresh(cfg), trace, rounds, 0, limit, sleep);
  }

  /** An accepted call leaves the writer in yield mode, with the full warmup and nothing counted. */
  lemma {:induction false} AcceptanceRestarts(
    cfg: Config, n: nat, producer: nat, env: Env, v: Any, st: State, trace: Trace, rounds: nat, warmup: int)
    requires 0 < n && Effective(cfg.adaptiveWarmupIterations, 1_000, warmup)
    ensures var out := Call(AutoAdaptive, cfg, n, producer, env, v, st, trace, rounds);
            out.done == Some(true) ==> out.st.mode.YieldMode? && out.st.idle == 0 && out.st.warmup == warmup
    decreases rounds
  {
    if rounds == 0 {
    } else {
      var (ok, t) := Round(AutoAdaptive, cfg, n, producer, env, v, trace);
      var failed := st.(backoffCount := st.backoffCount + 1);
      if !ok && !cfg.GivesUp(failed.backoffCount) {
        var (next, pause) := Pause(AutoAdaptive, cfg, env, failed, t);
        AcceptanceRestarts(cfg, n, producer, env, v, next, t + [pause], rounds - 1, warmup);
      }
    }
  }

  /** After an accepted call: with a warmup of W and an idle limit of I, the first W + I + 1 pauses of
      further calls, none of them accepted, are yields, and all later ones sleeps. */
  lemma YieldsAfterAcceptance(
    cfg: Config, n: nat, producer: nat, env: Env, v: Any, values: seq<Any>, st: State, trace: Trace, rounds: nat,
    warmup: int, limit: int, sleep: int)
    requires 0 < n && Effective(cfg.adaptiveWarmupIterations, 1_000, warmup)
    requires Effective(cfg.adaptiveIdleIterations, 100_000, limit)
    requires Effective(cfg.adaptiveSleepDuration, 100_000, sleep)
    requires var out := Call(AutoAdaptive, cfg, n, producer, env, v, st, trace, rounds);
             && out.done == Some(true)
             && Calls(AutoAdaptive, cfg, n, producer, env, values, out.st, out.trace, rounds).accepted == 0
    ensures var out := Call(AutoAdaptive, cfg, n, producer, env, v, st, trace, rounds);
            var after := Calls(AutoAdaptive, cfg, n, producer, env, values, out.st, out.trace, rounds).trace;
            && |NewPauses(out.trace, after)| == Pauses(after) - Pauses(out.trace)
            && YieldThenSleep(NewPauses(out.trace, after), warmup, limit, sleep)
  {
    var out := Call(AutoAdaptive, cfg, n, producer, env, v, st, trace, rounds);
    AcceptanceRestarts(cfg, n, producer, env, v, st, trace, rounds, warmup);
    YieldsThenSleeps(cfg, n, producer, env, values, out.st, out.trace, rounds, warmup, limit, sleep);
  }

  lemma SleepModeMeans(cfg: Config, st: State, w: int, m: nat, limit: int)
    requires AfterPauses(cfg, st, w, m) && st.mode.SleepMode?
    requires Effective(cfg.adaptiveIdleIterations, 100_000, limit)
    ensures st.warmup <= 0 && st.idle == Positive(limit) + 1
  {
  }

  /** The point of the plan after one call: further on, or at the start of one with the full warmup. */
  lemma NextPoint(
    cfg: Config, n: nat, producer: nat, env: Env, v: Any, st: State, trace: Trace, rounds: nat, w: int, m: nat,
    warmup: int)
    returns (w1: int, m1: nat)
    requires 0 < n && AfterPauses(cfg, st, w, m) && Effective(cfg.adaptiveWarmupIterations, 1_000, warmup)
    ensures w1 in {w, warmup}
    ensures AfterPauses(cfg, Call(AutoAdaptive, cfg, n, producer, env, v, st, trace, rounds).st, w1, m1)
  {
    CallFollowsPlan(AutoAdaptive, cfg, n, producer, env, v, st, trace, rounds, Idling(w), m);
    var out := Call(AutoAdaptive, cfg, n, producer, env, v, st, trace, rounds);
    w1, m1 := if out.done == Some(true) then warmup else w,
              if out.done == Some(true) then 0 else m + (Pauses(out.trace) - Pauses(trace));
  }

  lemma {:induction false} ReachedPoint(
    cfg: Config, n: nat, producer: nat, env: Env, values: seq<Any>, st: State, trace: Trace, rounds: nat, w: int,
    m: nat, warmup: int)
    returns (w1: int, m1: nat)
    requires 0 < n && AfterPauses(cfg, st, w, m) && Effective(cfg.adaptiveWarmupIterations, 1_000, warmup)
    ensures w1 in {w, warmup}
    ensures AfterPauses(cfg, Calls(AutoAdaptive, cfg, n, producer, env, values, st, trace, rounds).st, w1, m1)
    decreases values
  {
    w1, m1 := w, m;
    if values != [] {
      w1, m1 := NextPoint(cfg, n, producer, env, values[0], st, trace, rounds, w, m, warmup);
      var out := Call(AutoAdaptive, cfg, n, producer, env, values[0], st, trace, rounds);
      if out.done.Some? {
        w1, m1 := ReachedPoint(
          cfg, n, producer, env, values[1..], out.st, out.trace, rounds, w1, m1, warmup);
      }
    }
  }

  /** In every state a writer reaches, whatever its calls' results, the adaptive fields are those of
      some point of a schedule that began with a reset or an accepted write; in particular sleep mode
      means that the warmup is used up and the idle count stands at one above the limit. */
  lemma AdaptiveInvariant(
    cfg: Config, n: nat, producer: nat, env: Env, values: seq<Any>, st: State, trace: Trace, rounds: nat, w: int,
    m: nat, limit: int, warmup: int)
    returns (w1: int, m1: nat)
    requires 0 < n && AfterPauses(cfg, st, w, m)
    requires Effective(cfg.adaptiveIdleIterations, 100_000, limit)
    requires Effective(cfg.adaptiveWarmupIterations, 1_000, warmup)
    ensures var after := Calls(AutoAdaptive, cfg, n, producer, env, values, st, trace, rounds).st;
            && w1 in {w, warmup} && AfterPauses(cfg, after, w1, m1)
            && (after.mode.SleepMode? ==> after.warmup <= 0 && after.idle == Positive(limit) + 1)
  {
    w1, m1 := ReachedPoint(cfg, n, producer, env, values, st, trace, rounds, w, m, warmup);
    var after := Calls(AutoAdaptive, cfg, n, producer, env, values, st, trace, rounds).st;
    if after.mode.SleepMode? {
      SleepModeMeans(cfg, after, w1, m1, limit);
    }
  }

  /** A call that starts in sleep mode ends in it unless it is accepted, and an accepted call ends
      in yield mode. */
  lemma {:induction false} AcceptanceWakes(
    cfg: Config, n: nat, producer: nat, env: Env, v: Any, st: State, trace: Trace, rounds: nat)
    requires 0 < n && st.mode.SleepMode?
    ensures var out := Call(AutoAdaptive, cfg, n, producer, env, v, st, trace, rounds);
            out.st.mode.YieldMode? <==> out.done == Some(true)
    decreases rounds
  {
    if rounds == 0 {
    } else {
      var (ok, t) := Round(AutoAdaptive, cfg, n, producer, env, v, trace);
      var failed := st.(backoffCount := st.backoffCount + 1);
      if !ok && !cfg.GivesUp(failed.backoffCount) {
        var (next, pause) := Pause(AutoAdaptive, cfg, env, failed, t);
        AcceptanceWakes(cfg, n, producer, env, v, next, t + [pause], rounds - 1);
      }
    }
  }

  /** Only an accepted write, or a reset, takes a writer out of sleep mode. */
  lemma {:induction false} OnlyAcceptanceWakes(
    cfg: Config, n: nat, producer: nat, env: Env, values: seq<Any>, st: State, trace: Trace, rounds: nat)
    requires 0 < n && st.mode.SleepMode?
    ensures var after := Calls(AutoAdaptive, cfg, n, producer, env, values, st, trace, rounds);
            after.st.mode.YieldMode? ==> after.accepted > 0
    decreases values
  {
    if values == [] {
    } else {
      AcceptanceWakes(cfg, n, producer, env, values[0], st, trace, rounds);
      var out := Call(AutoAdaptive, cfg, n, producer, env, values[0], st, trace, rounds);
      if out.done.Some? && !out.done.value {
        OnlyAcceptanceWakes(cfg, n, producer, env, values[1..], out.st, out.trace, rounds);
      }
    }
  }

  lemma FreshStartsSchedule(cfg: Config)
    ensures AfterPauses(cfg, Fresh(cfg), 0, 0)
  {
  }

  // ---------------------------------------------------------------- trying every shard

  /** Every attempt from `trace` to `after` was accepted exactly if its shard has room. */
  ghost predicate AnsweredByRoom(room: seq<bool>, trace: Trace, after: Trace) {
    forall i :: |trace| <= i < |after| && after[i].Attempt? && after[i].shard < |room| ==>
      (after[i].ok <==> room[after[i].shard])
  }

  /** `i` is the first step of the cyclic order from `start` at a shard with room. */
  ghost predicate FirstRoom(room: seq<bool>, start: nat, i: nat) {
    && i < |room| && room[Cyclic(start, i, |room|)]
    && forall k :: 0 <= k < i ==> !room[Cyclic(start, k, |room|)]
  }

  lemma QuietRetry(env: Env, v: Any, room: seq<bool>, trace: Trace, j: nat, left: int)
    requires j < |room| && left > 0 && AnsweredByRoom(room, trace, Retry(env, v, trace, j, left).1)
    ensures Retry(env, v, trace, j, left).0 <==> room[j]
    ensures room[j] ==> Retry(env, v, trace, j, left).1 == trace + [Attempt(j, v, true)]
  {
    var ok := env.accepts(|trace|, j);
    var t := trace + [Attempt(j, v, ok)];
    RetryShape(env, v, trace, j, left);
    RetryShape(env, v, t, j, left - 1);
    assert Retry(env, v, trace, j, left).1[|trace|] == t[|trace|];
  }

  lemma {:induction false} QuietSweep(
    env: Env, v: Any, room: seq<bool>, trace: Trace, start: nat, i: nat, retries: int)
    requires 0 < |room| && i <= |room| && retries > 0
    requires AnsweredByRoom(room, trace, Sweep(env, v, trace, start, i, |room|, retries).1)
    requires forall k :: 0 <= k < i ==> !room[Cyclic(start, k, |room|)]
    ensures var (ok, t) := Sweep(env, v, trace, start, i, |room|, retries);
            if ok
            then t != [] && exists k: nat ::
              FirstRoom(room, start, k) && t[|t| - 1] == Attempt(Cyclic(start, k, |room|), v, true)
            else forall k :: 0 <= k < |room| ==> !room[Cyclic(start, k, |room|)]
    decreases |room| - i
  {
    if i == |room| {
    } else {
      var j := Cyclic(start, i, |room|);
      var (ok, t) := Retry(env, v, trace, j, retries);
      RetryShape(env, v, trace, j, retries);
      SweepShape(env, v, t, start, i + 1, |room|, retries);
      QuietRetry(env, v, room, trace, j, retries);
      if room[j] {
        assert FirstRoom(room, start, i);
      } else {
        QuietSweep(env, v, room, t, start, i + 1, retries);
      }
    }
  }

  lemma RoundIsPrefix(
    s: Strategy, cfg: Config, n: nat, producer: nat, env: Env, v: Any, st: State, trace: Trace, rounds: nat)
    requires 0 < n && rounds > 0
    ensures trace <= Round(s, cfg, n, producer, env, v, trace).1
         <= Call(s, cfg, n, producer, env, v, st, trace, rounds).trace
  {
    RoundShape(s, cfg, n, producer, env, v, trace);
    var (ok, t) := Round(s, cfg, n, producer, env, v, trace);
    var failed := st.(backoffCount := st.backoffCount + 1);
    if !ok && !cfg.GivesUp(failed.backoffCount) {
      var (next, pause) := Pause(s, cfg, env, failed, t);
      CallShape(s, cfg, n, producer, env, v, next, t + [pause], rounds - 1);
    }
  }

  /** NextShard and Hybrid in a quiet ring: the call is accepted exactly when some shard has room,
      by the first such shard in cyclic order from the producer's own; it gives up only when every
      shard is full. */
  lemma QuietCallIsComplete(
    s: Strategy, cfg: Config, room: seq<bool>, producer: nat, env: Env, v: Any, st: State, trace: Trace, rounds: nat)
    requires s.NextShard? || s.Hybrid?
    requires 0 < |room| && cfg.maxRetries > 0 && rounds > 0
    requires AnsweredByRoom(room, trace, Call(s, cfg, |room|, producer, env, v, st, trace, rounds).trace)
    ensures var out := Call(s, cfg, |room|, producer, env, v, st, trace, rounds);
            && (out.done == Some(true) <==> exists j :: 0 <= j < |room| && room[j])
            && (out.done == Some(true) ==> out.trace != [] && exists k: nat ::
                  && FirstRoom(room, Place(producer, |room|), k)
                  && out.trace[|out.trace| - 1] == Attempt(Cyclic(Place(producer, |room|), k, |room|), v, true))
            && (out.done == Some(false) ==> forall j :: 0 <= j < |room| ==> !room[j])
    decreases rounds
  {
    var n, home := |room|, Place(producer, |room|);
    RoundIsPrefix(s, cfg, n, producer, env, v, st, trace, rounds);
    QuietSweep(env, v, room, trace, home, 0, cfg.maxRetries);
    var (ok, t) := Round(s, cfg, n, producer, env, v, trace);
    if !ok {
      forall j | 0 <= j < n ensures !room[j] {
        var k := CyclicReaches(home, j, n);
        assert !room[Cyclic(home, k, n)];
      }
      var failed := st.(backoffCount := st.backoffCount + 1);
      if !cfg.GivesUp(failed.backoffCount) && rounds > 1 {
        var (next, pause) := Pause(s, cfg, env, failed, t);
        QuietCallIsComplete(s, cfg, room, producer, env, v, next, t + [pause], rounds - 1);
      }
    }
  }
}
