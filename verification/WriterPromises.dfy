/** What a write call promises under the strategy that the configuration names. */
module WriterPromises {
  import opened Words
  import opened Values
  import opened Strategies
  import opened StrategyRuns
  import opened StrategyLayout

  /** The fields that a strategy does not use stay as they were. */
  predicate KeepsOthers(s: Strategy, before: State, after: State) {
    && (!Exponential(s) ==> after.currentBackoff == before.currentBackoff)
    && (!s.AutoAdaptive? ==> after.mode == before.mode && after.idle == before.idle && after.warmup == before.warmup)
  }

  lemma {:induction false} CallKeepsOthers(
    s: Strategy, cfg: Config, n: nat, producer: nat, env: Env, v: Any, st: State, trace: Trace, rounds: nat)
    requires 0 < n
    ensures KeepsOthers(s, st, Call(s, cfg, n, producer, env, v, st, trace, rounds).st)
    decreases rounds
  {
    if rounds == 0 {
    } else {
      var (ok, t) := Round(s, cfg, n, producer, env, v, trace);
      var failed := st.(backoffCount := st.backoffCount + 1);
      if !ok && !cfg.GivesUp(failed.backoffCount) {
        var (next, pause) := Pause(s, cfg, env, failed, t);
        CallKeepsOthers(s, cfg, n, producer, env, v, next, t + [pause], rounds - 1);
      }
    }
  }

  /** The exponential strategies go on with the kept backoff, AutoAdaptive with its mode and counters,
      wherever on their plan they stand. */
  ghost predicate GoesOn(s: Strategy, cfg: Config, env: Env, st: State, trace: Trace, out: Outcome) {
    && (Exponential(s) ==> Continues(s, cfg, env, Growing(st.currentBackoff), 0, trace, out))
    && (s.AutoAdaptive? ==>
          forall w: int, m: nat :: AfterPauses(cfg, st, w, m) ==> Continues(s, cfg, env, Idling(w), m, trace, out))
  }

  lemma CallGoesOn(
    s: Strategy, cfg: Config, n: nat, producer: nat, env: Env, v: Any, st: State, trace: Trace, rounds: nat)
    requires 0 < n
    ensures GoesOn(s, cfg, env, st, trace, Call(s, cfg, n, producer, env, v, st, trace, rounds))
  {
    if Exponential(s) {
      CallFollowsPlan(s, cfg, n, producer, env, v, st, trace, rounds, Growing(st.currentBackoff), 0);
    }
    if s.AutoAdaptive? {
      forall w: int, m: nat | AfterPauses(cfg, st, w, m)
        ensures Continues(s, cfg, env, Idling(w), m, trace, Call(s, cfg, n, producer, env, v, st, trace, rounds))
      {
        CallFollowsPlan(s, cfg, n, producer, env, v, st, trace, rounds, Idling(w), m);
      }
    }
  }

  /** The attempts, their order and number, the pauses and the state of a call under strategy `s`. */
  ghost predicate Keeps(
    s: Strategy, cfg: Config, n: nat, producer: nat, env: Env, v: Any, st: State, trace: Trace, out: Outcome)
    requires 0 < n
  {
    && Shape(s, n, producer, v, trace, out.trace, out.done == Some(true))
    && Laid(s, cfg, n, Place(producer, n), env, trace, out.trace)
    && CountedSince(trace, out, PerRound(s, cfg, n))
    && PausesFit(s, cfg, trace, out.trace)
    && GoesOn(s, cfg, env, st, trace, out)
    && KeepsOthers(s, st, out.st)
  }

  lemma CallKeeps(
    s: Strategy, cfg: Config, n: nat, producer: nat, env: Env, v: Any, st: State, trace: Trace, rounds: nat)
    requires 0 < n
    ensures Keeps(s, cfg, n, producer, env, v, st, trace, Call(s, cfg, n, producer, env, v, st, trace, rounds))
  {
    CallShape(s, cfg, n, producer, env, v, st, trace, rounds);
    CallIsLaid(s, cfg, n, producer, env, v, st, trace, rounds);
    CallAttempts(s, cfg, n, producer, env, v, st, trace, rounds);
    CallPauses(s, cfg, n, producer, env, v, st, trace, rounds);
    CallGoesOn(s, cfg, n, producer, env, v, st, trace, rounds);
    CallKeepsOthers(s, cfg, n, producer, env, v, st, trace, rounds);
  }

  /** A strategy that is not known keeps what SleepBackoff keeps. */
  lemma UnknownKeeps(
    code: int, cfg: Config, n: nat, producer: nat, env: Env, v: Any, st: State, trace: Trace, out: Outcome)
    requires 0 < n && Keeps(SleepBackoff, cfg, n, producer, env, v, st, trace, out)
    ensures Keeps(Unknown(code), cfg, n, producer, env, v, st, trace, out)
  {
    forall i | |trace| <= i < |out.trace|
      ensures LaidAt(Unknown(code), cfg, n, Place(producer, n), env, |trace|, out.trace, i)
    {
      assert LaidAt(SleepBackoff, cfg, n, Place(producer, n), env, |trace|, out.trace, i);
    }
  }

  /** The strategy chosen for a configuration keeps the promises of the one that it names. */
  lemma ResolvedKeeps(
    cfg: Config, n: nat, producer: nat, env: Env, v: Any, st: State, trace: Trace, rounds: nat)
    requires 0 < n
    ensures Keeps(cfg.strategy, cfg, n, producer, env, v, st, trace,
                  Call(Resolve(cfg.strategy), cfg, n, producer, env, v, st, trace, rounds))
  {
    CallKeeps(Resolve(cfg.strategy), cfg, n, producer, env, v, st, trace, rounds);
    if cfg.strategy.Unknown? {
      UnknownKeeps(cfg.strategy.code, cfg, n, producer, env, v, st, trace,
                   Call(SleepBackoff, cfg, n, producer, env, v, st, trace, rounds));
    }
  }
}
