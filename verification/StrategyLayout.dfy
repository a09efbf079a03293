/** Where every event of a write call stands: which shard each attempt goes to, when a random number
    is drawn, when a round ends in a pause, and that the answers are those of the environment. */
module StrategyLayout {
  import opened Words
  import opened Values
  import opened Strategies

  /** The event is what the environment gives at this point. */
  predicate Genuine(env: Env, i: nat, e: Event) {
    match e
    case Attempt(j, _, ok) => ok == env.accepts(i, j)
    case Draw(d) => d == env.draw(i)
    case _ => true
  }

  predicate AttemptOn(e: Event, j: nat) {
    e.Attempt? && e.shard == j
  }

  /** The number of events of a round that nobody accepts. */
  function RoundLength(s: Strategy, cfg: Config, n: nat): nat
    requires 0 < n
  {
    var tries := Tries(cfg);
    match s
    case NextShard => Times(n, tries)
    case Hybrid => Times(n, tries)
    case RandomShard => tries + Times(n - 1, tries + 1)
    case _ => tries
  }

  /** The searching strategies make their tries on one shard after the other, in cyclic order from the
      home shard. */
  ghost predicate Swept(n: nat, home: nat, tries: nat, start: nat, i: nat, e: Event)
    requires 0 < n
  {
    e.Attempt? && forall b: nat ::
      start + Times(b, tries) <= i < start + Times(b, tries) + tries ==> e.shard == Cyclic(home, b, n)
  }

  predicate ScatteredIn(n: nat, home: nat, tries: nat, env: Env, start: nat, b: nat, i: nat, e: Event)
    requires 0 < n
  {
    var at := start + tries + Times(b, tries + 1);
    && (i == at ==> e.Draw?)
    && (at < i <= at + tries ==> AttemptOn(e, RandomPick(env.draw(at), home, n)))
  }

  /** RandomShard makes its tries on the home shard; and then, as often as there are other shards, it
      draws a number and makes its tries on the shard that the number picks. */
  ghost predicate Scattered(n: nat, home: nat, tries: nat, env: Env, start: nat, i: nat, e: Event)
    requires 0 < n
  {
    && (i < start + tries ==> AttemptOn(e, home))
    && forall b: nat :: ScatteredIn(n, home, tries, env, start, b, i, e)
  }

  /** The event at index `i` of a round that started at index `start`. */
  ghost predicate InPlace(
    s: Strategy, cfg: Config, n: nat, home: nat, env: Env, start: nat, i: nat, e: Event)
    requires 0 < n
  {
    match s
    case NextShard => Swept(n, home, Tries(cfg), start, i, e)
    case Hybrid => Swept(n, home, Tries(cfg), start, i, e)
    case RandomShard => Scattered(n, home, Tries(cfg), env, start, i, e)
    case _ => AttemptOn(e, home)
  }

  // ---------------------------------------------------------------- one shard

  ghost predicate AllGenuine(env: Env, trace: Trace, after: Trace) {
    trace <= after && forall i :: |trace| <= i < |after| ==> Genuine(env, i, after[i])
  }

  lemma GenuineJoin(env: Env, a: Trace, b: Trace, c: Trace)
    requires AllGenuine(env, a, b) && AllGenuine(env, b, c)
    ensures AllGenuine(env, a, c)
  {
  }

  /** As many events as the round has room for, exactly if it was refused. */
  predicate Fills(trace: Trace, after: Trace, length: nat, ok: bool) {
    |after| <= |trace| + length && (!ok ==> |after| == |trace| + length)
  }

  lemma {:induction false} RetryPlaced(env: Env, v: Any, trace: Trace, j: nat, left: nat)
    ensures var (ok, t) := Retry(env, v, trace, j, left);
            && AllGenuine(env, trace, t) && Fills(trace, t, left, ok)
            && forall i :: |trace| <= i < |t| ==> AttemptOn(t[i], j)
    decreases left
  {
    if left == 0 {
    } else {
      var ok := env.accepts(|trace|, j);
      var t := trace + [Attempt(j, v, ok)];
      if !ok {
        RetryPlaced(env, v, t, j, left - 1);
        GenuineJoin(env, trace, t, Retry(env, v, t, j, left - 1).1);
      }
    }
  }

  lemma {:induction false} TimesMonotone(a: nat, b: nat, each: nat)
    requires a < b
    ensures Times(a, each) + each <= Times(b, each)
    decreases b
  {
    if a + 1 == b {
    } else {
      TimesMonotone(a, b - 1, each);
    }
  }

  /** An index lies in one block only. */
  lemma OneBlock(a: nat, b: nat, each: nat, x: nat)
    requires Times(a, each) <= x < Times(a, each) + each && Times(b, each) <= x < Times(b, each) + each
    ensures a == b
  {
    if a < b { TimesMonotone(a, b, each); }
    if b < a { TimesMonotone(b, a, each); }
  }

  // ---------------------------------------------------------------- all shards in order

  ghost predicate AllSwept(n: nat, home: nat, tries: nat, start: nat, trace: Trace, after: Trace)
    requires 0 < n
  {
    trace <= after && forall i :: |trace| <= i < |after| ==> Swept(n, home, tries, start, i, after[i])
  }

  lemma BlockSwept(n: nat, home: nat, tries: nat, start: nat, k: nat, trace: Trace, after: Trace)
    requires 0 < n && trace <= after && |trace| == start + Times(k, tries) && |after| <= |trace| + tries
    requires forall i :: |trace| <= i < |after| ==> AttemptOn(after[i], Cyclic(home, k, n))
    ensures AllSwept(n, home, tries, start, trace, after)
  {
    forall i | |trace| <= i < |after| ensures Swept(n, home, tries, start, i, after[i]) {
      assert AttemptOn(after[i], Cyclic(home, k, n));
      forall b: nat | start + Times(b, tries) <= i < start + Times(b, tries) + tries
        ensures after[i].shard == Cyclic(home, b, n)
      {
        OneBlock(b, k, tries, i - start);
      }
    }
  }

  lemma SweptJoin(n: nat, home: nat, tries: nat, start: nat, a: Trace, b: Trace, c: Trace)
    requires 0 < n && AllSwept(n, home, tries, start, a, b) && AllSwept(n, home, tries, start, b, c)
    ensures AllSwept(n, home, tries, start, a, c)
  {
  }

  lemma {:induction false} SweepPlaced(
    env: Env, v: Any, trace: Trace, home: nat, k: nat, n: nat, tries: nat, start: nat)
    requires 0 < n && k <= n && |trace| == start + Times(k, tries)
    ensures var (ok, t) := Sweep(env, v, trace, home, k, n, tries);
            && AllGenuine(env, trace, t) && AllSwept(n, home, tries, start, trace, t)
            && |t| <= start + Times(n, tries) && (!ok ==> |t| == start + Times(n, tries))
    decreases n - k
  {
    if k == n {
    } else {
      var j := Cyclic(home, k, n);
      var (ok, t) := Retry(env, v, trace, j, tries);
      RetryPlaced(env, v, trace, j, tries);
      BlockSwept(n, home, tries, start, k, trace, t);
      TimesMonotone(k, n, tries);
      if !ok {
        SweepPlaced(env, v, t, home, k + 1, n, tries, start);
        var after := Sweep(env, v, t, home, k + 1, n, tries).1;
        GenuineJoin(env, trace, t, after);
        SweptJoin(n, home, tries, start, trace, t, after);
      }
    }
  }

  // ---------------------------------------------------------------- random shards

  ghost predicate AllScattered(n: nat, home: nat, tries: nat, env: Env, start: nat, trace: Trace, after: Trace)
    requires 0 < n
  {
    trace <= after && forall i :: |trace| <= i < |after| ==> Scattered(n, home, tries, env, start, i, after[i])
  }

  lemma ScatteredJoin(n: nat, home: nat, tries: nat, env: Env, start: nat, a: Trace, b: Trace, c: Trace)
    requires 0 < n && AllScattered(n, home, tries, env, start, a, b) && AllScattered(n, home, tries, env, start, b, c)
    ensures AllScattered(n, home, tries, env, start, a, c)
  {
  }

  lemma HomeScattered(n: nat, home: nat, tries: nat, env: Env, trace: Trace, after: Trace)
    requires 0 < n && trace <= after && |after| <= |trace| + tries
    requires forall i :: |trace| <= i < |after| ==> AttemptOn(after[i], home)
    ensures AllScattered(n, home, tries, env, |trace|, trace, after)
  {
  }

  /** One drawn block: the number, and the tries on the shard it picks. */
  lemma BlockScattered(n: nat, home: nat, tries: nat, env: Env, start: nat, k: nat, trace: Trace, after: Trace)
    requires 0 < n && |trace| == start + tries + Times(k, tries + 1)
    requires trace <= after && |trace| < |after| <= |trace| + tries + 1 && after[|trace|].Draw?
    requires forall i :: |trace| < i < |after| ==> AttemptOn(after[i], RandomPick(env.draw(|trace|), home, n))
    ensures AllScattered(n, home, tries, env, start, trace, after)
  {
    forall i | |trace| <= i < |after| ensures Scattered(n, home, tries, env, start, i, after[i]) {
      forall b: nat ensures ScatteredIn(n, home, tries, env, start, b, i, after[i]) {
        var at := start + tries + Times(b, tries + 1);
        if at <= i <= at + tries {
          OneBlock(b, k, tries + 1, i - (start + tries));
        }
      }
    }
  }

  lemma DrawnPlaced(env: Env, v: Any, trace: Trace, home: nat, k: nat, n: nat, tries: nat, start: nat)
    requires 0 < n && |trace| == start + tries + Times(k, tries + 1)
    ensures var d := env.draw(|trace|);
            var (ok, t) := Retry(env, v, trace + [Draw(d)], RandomPick(d, home, n), tries);
            && AllGenuine(env, trace, t) && AllScattered(n, home, tries, env, start, trace, t)
            && Fills(trace, t, tries + 1, ok)
  {
    var d := env.draw(|trace|);
    var drawn := trace + [Draw(d)];
    var t := Retry(env, v, drawn, RandomPick(d, home, n), tries).1;
    RetryPlaced(env, v, drawn, RandomPick(d, home, n), tries);
    GenuineJoin(env, trace, drawn, t);
    assert t[|trace|] == drawn[|trace|];
    BlockScattered(n, home, tries, env, start, k, trace, t);
  }

  lemma {:induction false} RandomTriesPlaced(
    env: Env, v: Any, trace: Trace, home: nat, k: nat, n: nat, tries: nat, start: nat)
    requires 0 < n && k <= n - 1 && |trace| == start + tries + Times(k, tries + 1)
    ensures var (ok, t) := RandomTries(env, v, trace, home, n, n - 1 - k, tries);
            && AllGenuine(env, trace, t) && AllScattered(n, home, tries, env, start, trace, t)
            && |t| <= start + tries + Times(n - 1, tries + 1)
            && (!ok ==> |t| == start + tries + Times(n - 1, tries + 1))
    decreases n - k
  {
    if k == n - 1 {
    } else {
      var d := env.draw(|trace|);
      var (ok, t) := Retry(env, v, trace + [Draw(d)], RandomPick(d, home, n), tries);
      DrawnPlaced(env, v, trace, home, k, n, tries, start);
      TimesMonotone(k, n - 1, tries + 1);
      if !ok {
        RandomTriesPlaced(env, v, t, home, k + 1, n, tries, start);
        var after := RandomTries(env, v, t, home, n, n - 1 - (k + 1), tries).1;
        GenuineJoin(env, trace, t, after);
        ScatteredJoin(n, home, tries, env, start, trace, t, after);
      }
    }
  }

  // ---------------------------------------------------------------- rounds

  /** A negative limit means no attempts, like the limit zero. */
  lemma {:induction false} SweepWithTries(env: Env, v: Any, trace: Trace, home: nat, k: nat, n: nat, cfg: Config)
    requires 0 < n && k <= n
    ensures Sweep(env, v, trace, home, k, n, cfg.maxRetries) == Sweep(env, v, trace, home, k, n, Tries(cfg))
    decreases n - k
  {
    if k == n {
    } else {
      SweepWithTries(env, v, Retry(env, v, trace, Cyclic(home, k, n), Tries(cfg)).1, home, k + 1, n, cfg);
    }
  }

  lemma {:induction false} RandomTriesWithTries(
    env: Env, v: Any, trace: Trace, home: nat, n: nat, left: nat, cfg: Config)
    requires 0 < n
    ensures RandomTries(env, v, trace, home, n, left, cfg.maxRetries)
         == RandomTries(env, v, trace, home, n, left, Tries(cfg))
    decreases left
  {
    if left == 0 {
    } else {
      var d := env.draw(|trace|);
      RandomTriesWithTries(
        env, v, Retry(env, v, trace + [Draw(d)], RandomPick(d, home, n), Tries(cfg)).1, home, n, left - 1, cfg);
    }
  }

  /** A round from `trace` to `t`: its events stand in place, and it is complete unless accepted. */
  ghost predicate RoundLaid(
    s: Strategy, cfg: Config, n: nat, home: nat, env: Env, trace: Trace, t: Trace, ok: bool)
    requires 0 < n
  {
    && AllGenuine(env, trace, t) && Fills(trace, t, RoundLength(s, cfg, n), ok)
    && forall i :: |trace| <= i < |t| ==> InPlace(s, cfg, n, home, env, |trace|, i, t[i])
  }

  lemma SweepLaid(s: Strategy, cfg: Config, n: nat, home: nat, env: Env, v: Any, trace: Trace)
    requires 0 < n && (s.NextShard? || s.Hybrid?)
    ensures var (ok, t) := Sweep(env, v, trace, home, 0, n, cfg.maxRetries);
            RoundLaid(s, cfg, n, home, env, trace, t, ok)
  {
    SweepWithTries(env, v, trace, home, 0, n, cfg);
    SweepPlaced(env, v, trace, home, 0, n, Tries(cfg), |trace|);
  }

  lemma OneShardLaid(s: Strategy, cfg: Config, n: nat, home: nat, env: Env, v: Any, trace: Trace)
    requires 0 < n && OnOneShard(s)
    ensures var (ok, t) := Retry(env, v, trace, home, cfg.maxRetries);
            RoundLaid(s, cfg, n, home, env, trace, t, ok)
  {
    RetryPlaced(env, v, trace, home, Tries(cfg));
  }

  lemma RandomLaid(cfg: Config, n: nat, producer: nat, env: Env, v: Any, trace: Trace)
    requires 0 < n
    ensures var (ok, t) := Round(RandomShard, cfg, n, producer, env, v, trace);
            RoundLaid(RandomShard, cfg, n, Place(producer, n), env, trace, t, ok)
  {
    var home, tries := Place(producer, n), Tries(cfg);
    var (ok, t) := Retry(env, v, trace, home, tries);
    RetryPlaced(env, v, trace, home, tries);
    HomeScattered(n, home, tries, env, trace, t);
    if !ok {
      RandomTriesWithTries(env, v, t, home, n, n - 1, cfg);
      RandomTriesPlaced(env, v, t, home, 0, n, tries, |trace|);
      var after := RandomTries(env, v, t, home, n, n - 1, tries).1;
      GenuineJoin(env, trace, t, after);
      ScatteredJoin(n, home, tries, env, |trace|, trace, t, after);
    }
  }

  lemma RoundIsLaid(s: Strategy, cfg: Config, n: nat, producer: nat, env: Env, v: Any, trace: Trace)
    requires 0 < n
    ensures var (ok, t) := Round(s, cfg, n, producer, env, v, trace);
            RoundLaid(s, cfg, n, Place(producer, n), env, trace, t, ok)
  {
    var home := Place(producer, n);
    match s
    case NextShard => SweepLaid(s, cfg, n, home, env, v, trace);
    case Hybrid => SweepLaid(s, cfg, n, home, env, v, trace);
    case RandomShard => RandomLaid(cfg, n, producer, env, v, trace);
    case _ => OneShardLaid(s, cfg, n, home, env, v, trace);
  }

  // ---------------------------------------------------------------- calls

  /** Where the round that the event at index `i` belongs to started: after the last pause before it,
      or with the call. */
  function RoundStart(base: nat, after: Trace, i: nat): (start: nat)
    requires base <= i <= |after|
    ensures base <= start <= i
    decreases i
  {
    if i == base || IsPause(after[i - 1]) then i else RoundStart(base, after, i - 1)
  }

  /** The event at index `i` of a call that began at index `base`: in its place in the round, or a
      pause right after a complete round. */
  ghost predicate LaidAt(s: Strategy, cfg: Config, n: nat, home: nat, env: Env, base: nat, after: Trace, i: nat)
    requires 0 < n && base <= i < |after|
  {
    var start := RoundStart(base, after, i);
    && Genuine(env, i, after[i])
    && if IsPause(after[i]) then i == start + RoundLength(s, cfg, n)
       else InPlace(s, cfg, n, home, env, start, i, after[i])
  }

  ghost predicate Laid(s: Strategy, cfg: Config, n: nat, home: nat, env: Env, trace: Trace, after: Trace)
    requires 0 < n
  {
    trace <= after && forall i :: |trace| <= i < |after| ==> LaidAt(s, cfg, n, home, env, |trace|, after, i)
  }

  lemma {:induction false} SameStart(base: nat, after: Trace, i: nat)
    requires base <= i <= |after| && forall k :: base <= k < i ==> !IsPause(after[k])
    ensures RoundStart(base, after, i) == base
    decreases i
  {
    if i == base {
    } else {
      SameStart(base, after, i - 1);
    }
  }

  lemma {:induction false} StartAfterPause(base: nat, at: nat, after: Trace, i: nat)
    requires base <= at < i <= |after| && IsPause(after[at])
    ensures RoundStart(base, after, i) == RoundStart(at + 1, after, i)
    decreases i
  {
    if i == at + 1 {
    } else {
      StartAfterPause(base, at, after, i - 1);
    }
  }

  lemma LaidInRound(
    s: Strategy, cfg: Config, n: nat, home: nat, env: Env, trace: Trace, t: Trace, ok: bool, after: Trace, i: nat)
    requires 0 < n && RoundLaid(s, cfg, n, home, env, trace, t, ok) && t <= after && |trace| <= i < |t|
    requires forall k :: |trace| <= k < |t| ==> !IsPause(t[k])
    ensures LaidAt(s, cfg, n, home, env, |trace|, after, i)
  {
    SameStart(|trace|, after, i);
    assert after[i] == t[i] && Genuine(env, i, t[i]);
  }

  lemma LaidAtPause(
    s: Strategy, cfg: Config, n: nat, home: nat, env: Env, trace: Trace, t: Trace, pause: Event, after: Trace)
    requires 0 < n && RoundLaid(s, cfg, n, home, env, trace, t, false) && IsPause(pause) && t + [pause] <= after
    requires forall k :: |trace| <= k < |t| ==> !IsPause(t[k])
    ensures LaidAt(s, cfg, n, home, env, |trace|, after, |t|)
  {
    forall k | |trace| <= k < |t| ensures !IsPause(after[k]) {
      assert after[k] == t[k];
    }
    SameStart(|trace|, after, |t|);
    assert after[|t|] == pause;
  }

  lemma LaidJoin(
    s: Strategy, cfg: Config, n: nat, home: nat, env: Env, trace: Trace, t: Trace, pause: Event, after: Trace)
    requires 0 < n && RoundLaid(s, cfg, n, home, env, trace, t, false) && IsPause(pause)
    requires forall k :: |trace| <= k < |t| ==> !IsPause(t[k])
    requires Laid(s, cfg, n, home, env, t + [pause], after)
    ensures Laid(s, cfg, n, home, env, trace, after)
  {
    forall i | |trace| <= i < |after| ensures LaidAt(s, cfg, n, home, env, |trace|, after, i) {
      if i < |t| {
        LaidInRound(s, cfg, n, home, env, trace, t, false, after, i);
      } else if i == |t| {
        LaidAtPause(s, cfg, n, home, env, trace, t, pause, after);
      } else {
        assert after[|t|] == (t + [pause])[|t|];
        assert LaidAt(s, cfg, n, home, env, |t| + 1, after, i);
        StartAfterPause(|trace|, |t|, after, i);
      }
    }
  }

  lemma LastLaid(
    s: Strategy, cfg: Config, n: nat, home: nat, env: Env, trace: Trace, t: Trace, ok: bool)
    requires 0 < n && RoundLaid(s, cfg, n, home, env, trace, t, ok)
    requires forall k :: |trace| <= k < |t| ==> !IsPause(t[k])
    ensures Laid(s, cfg, n, home, env, trace, t)
  {
    forall i | |trace| <= i < |t| ensures LaidAt(s, cfg, n, home, env, |trace|, t, i) {
      LaidInRound(s, cfg, n, home, env, trace, t, ok, t, i);
    }
  }

  lemma RoundHasNoPause(s: Strategy, cfg: Config, n: nat, producer: nat, env: Env, v: Any, trace: Trace)
    requires 0 < n
    ensures var t := Round(s, cfg, n, producer, env, v, trace).1;
            trace <= t && forall k :: |trace| <= k < |t| ==> !IsPause(t[k])
  {
    RoundKeepsPauses(s, cfg, n, producer, env, v, trace);
    EqualCountNoPause(trace, Round(s, cfg, n, producer, env, v, trace).1);
  }

  /** Every event of every call of every strategy stands in its place: each attempt is on the shard that
      the strategy tries at that point of its round and is answered by the environment, numbers are
      drawn where RandomShard draws them, and a pause comes exactly after each complete round. */
  lemma {:induction false} CallIsLaid(
    s: Strategy, cfg: Config, n: nat, producer: nat, env: Env, v: Any, st: State, trace: Trace, rounds: nat)
    requires 0 < n
    ensures Laid(s, cfg, n, Place(producer, n), env, trace,
                 Call(s, cfg, n, producer, env, v, st, trace, rounds).trace)
    decreases rounds
  {
    if rounds == 0 {
    } else {
      var home := Place(producer, n);
      RoundIsLaid(s, cfg, n, producer, env, v, trace);
      RoundHasNoPause(s, cfg, n, producer, env, v, trace);
      var (ok, t) := Round(s, cfg, n, producer, env, v, trace);
      var failed := st.(backoffCount := st.backoffCount + 1);
      if ok || cfg.GivesUp(failed.backoffCount) {
        LastLaid(s, cfg, n, home, env, trace, t, ok);
      } else {
        PauseIsPause(s, cfg, env, failed, t);
        var (next, pause) := Pause(s, cfg, env, failed, t);
        CallIsLaid(s, cfg, n, producer, env, v, next, t + [pause], rounds - 1);
        LaidJoin(s, cfg, n, home, env, trace, t, pause,
                 Call(s, cfg, n, producer, env, v, next, t + [pause], rounds - 1).trace);
      }
    }
  }
}
