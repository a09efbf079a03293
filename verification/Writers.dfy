/** Writers as the program runs them: the seven strategy loops and the direct write with backoff,
    updating the writer's state in place, against everything else in the system as a World. */
module Writers {
  import opened Bits
  import opened Words
  import opened Values
  import opened Strategies
  import opened WriterPromises

  /** What a writer acts on: the ring's shards, the scheduler and the clock, and the random
      numbers. It answers from its environment and records each event. */
  class World {
    const env: Env
    const numShards: nat
    const mask: nat
    var trace: Trace

    ghost predicate Valid() {
      0 < numShards < TWO64 && IsPowerOfTwo(numShards) && mask == numShards - 1
    }

    constructor (env: Env, numShards: nat)
      requires 0 < numShards < TWO64 && IsPowerOfTwo(numShards)
      ensures Valid() && this.env == env && this.numShards == numShards && trace == []
    {
      this.env, this.numShards, mask, trace := env, numShards, numShards - 1, [];
    }

    /** What a write call that goes on for `rounds` more rounds, with the writer in state `st`, will
        come to. */
    ghost function Ahead(
      s: Strategy, config: Config, producerID: nat, value: Any, st: State, rounds: nat): Outcome
      requires Valid()
      reads this
    {
      Call(s, config, numShards, producerID, env, value, st, trace, rounds)
    }

    /** The shard of a producer: its ID masked by the number of shards less one. */
    method Home(producerID: uint64) returns (shard: uint64)
      requires Valid()
      ensures shard == Place(producerID, numShards)
    {
      MaskIsPlace(producerID, numShards);
      shard := BitAnd(producerID, mask);
    }

    /** The shard `offset` steps after `start`. */
    method Step(start: uint64, offset: nat) returns (shard: nat)
      requires Valid()
      ensures shard == Cyclic(start, offset, numShards)
    {
      ShardIndexIsCyclic(numShards, start, offset);
      shard := BitAnd(Wrap(start + offset), mask);
    }

    /** One of the masked random numbers, moved on by one if it is the home shard. */
    method RandomShard(home: nat) returns (shard: nat)
      requires Valid()
      modifies this
      ensures var d := env.draw(|old(trace)|);
              trace == old(trace) + [Draw(d)] && shard == RandomPick(d, home, numShards)
    {
      var d := env.draw(|trace|);
      trace := trace + [Draw(d)];
      MaskIsPlace(d, numShards);
      shard := BitAnd(d, mask);
      if shard == home {
        MaskIsPlace(shard + 1, numShards);
        shard := BitAnd(shard + 1, mask);
      }
    }

    method Write(shard: nat, value: Any) returns (ok: bool)
      modifies this
      ensures trace == old(trace) + [Attempt(shard, value, ok)] && ok == env.accepts(|old(trace)|, shard)
    {
      ok := env.accepts(|trace|, shard);
      trace := trace + [Attempt(shard, value, ok)];
    }

    /** A jitter factor, 0.75 + rand.Float64() * 0.5. */
    method Jitter() returns (factor: real)
      ensures factor == env.jitter(|trace|)
    {
      factor := env.jitter(|trace|);
    }

    method Pause(e: Event)
      modifies this
      ensures trace == old(trace) + [e]
    {
      trace := trace + [e];
    }
  }

  class WriterState {
    var currentBackoff: int
    var backoffCount: int
    var adaptiveMode: Mode
    var idleIterations: int
    var warmupRemaining: int

    constructor (backoffDuration: int)
      ensures Value() == State(backoffDuration, 0, YieldMode, 0, 0)
    {
      currentBackoff, backoffCount := backoffDuration, 0;
      adaptiveMode, idleIterations, warmupRemaining := YieldMode, 0, 0;
    }

    ghost function Value(): State
      reads this
    {
      State(currentBackoff, backoffCount, adaptiveMode, idleIterations, warmupRemaining)
    }
  }

  /** The loop every strategy has inside: attempts on one shard until one is accepted. */
  method RetryShard(world: World, shard: nat, value: Any, maxRetries: int) returns (ok: bool)
    modifies world
    ensures (ok, world.trace) == Retry(world.env, value, old(world.trace), shard, maxRetries)
  {
    var retry := 0;
    while retry < maxRetries
      invariant Retry(world.env, value, world.trace, shard, maxRetries - retry)
             == Retry(world.env, value, old(world.trace), shard, maxRetries)
    {
      var accepted := world.Write(shard, value);
      if accepted {
        return true;
      }
      retry := retry + 1;
    }
    return false;
  }

  /** A NextShard or Hybrid round: the loop over all shards. */
  method SweepShards(
    world: World, producerID: uint64, startShard: uint64, value: Any, config: Config, ghost s: Strategy)
    returns (ok: bool)
    requires world.Valid() && startShard == Place(producerID, world.numShards) && (s.NextShard? || s.Hybrid?)
    modifies world
    ensures (ok, world.trace) == Round(s, config, world.numShards, producerID, world.env, value, old(world.trace))
  {
    var offset := 0;
    while offset < world.numShards
      invariant 0 <= offset <= world.numShards
      invariant Sweep(world.env, value, world.trace, startShard, offset, world.numShards, config.maxRetries)
             == Sweep(world.env, value, old(world.trace), startShard, 0, world.numShards, config.maxRetries)
    {
      var shard := world.Step(startShard, offset);
      var accepted := RetryShard(world, shard, value, config.maxRetries);
      if accepted {
        return true;
      }
      offset := offset + 1;
    }
    return false;
  }

  method WriteWithSleepBackoff(
    world: World, producerID: uint64, value: Any, config: Config, state: WriterState, rounds: nat)
    returns (done: Option<bool>)
    requires world.Valid()
    modifies world, state
    ensures Outcome(done, state.Value(), world.trace)
         == old(world.Ahead(SleepBackoff, config, producerID, value, state.Value(), rounds))
  {
    var shard := world.Home(producerID);
    var left := rounds;
    while left > 0
      invariant world.Ahead(SleepBackoff, config, producerID, value, state.Value(), left)
             == old(world.Ahead(SleepBackoff, config, producerID, value, state.Value(), rounds))
    {
      var accepted := RetryShard(world, shard, value, config.maxRetries);
      if accepted {
        return Some(true);
      }
      state.backoffCount := state.backoffCount + 1;
      if config.GivesUp(state.backoffCount) {
        return Some(false);
      }
      world.Pause(Sleep(config.backoffDuration));
      left := left - 1;
    }
    return None;
  }

  method WriteWithNextShard(
    world: World, producerID: uint64, value: Any, config: Config, state: WriterState, rounds: nat)
    returns (done: Option<bool>)
    requires world.Valid()
    modifies world, state
    ensures Outcome(done, state.Value(), world.trace)
         == old(world.Ahead(NextShard, config, producerID, value, state.Value(), rounds))
  {
    var startShard := world.Home(producerID);
    var left := rounds;
    while left > 0
      invariant world.Ahead(NextShard, config, producerID, value, state.Value(), left)
             == old(world.Ahead(NextShard, config, producerID, value, state.Value(), rounds))
    {
      var accepted := SweepShards(world, producerID, startShard, value, config, NextShard);
      if accepted {
        return Some(true);
      }
      state.backoffCount := state.backoffCount + 1;
      if config.GivesUp(state.backoffCount) {
        return Some(false);
      }
      world.Pause(Sleep(config.backoffDuration));
      left := left - 1;
    }
    return None;
  }

  /** The random part of a RandomShard round: one draw for each shard other than the home shard. */
  method TryRandomShards(world: World, affinityShard: nat, value: Any, maxRetries: int) returns (ok: bool)
    requires world.Valid() && affinityShard < world.numShards
    modifies world
    ensures
      (ok, world.trace) == RandomTries(
        world.env, value, old(world.trace), affinityShard, world.numShards, world.numShards - 1, maxRetries)
  {
    var attempt := 0;
    while attempt < world.numShards - 1
      invariant 0 <= attempt <= world.numShards - 1
      invariant
        RandomTries(
          world.env, value, world.trace, affinityShard, world.numShards, world.numShards - 1 - attempt, maxRetries)
        == RandomTries(
             world.env, value, old(world.trace), affinityShard, world.numShards, world.numShards - 1, maxRetries)
    {
      var randomIdx := world.RandomShard(affinityShard);
      var accepted := RetryShard(world, randomIdx, value, maxRetries);
      if accepted {
        return true;
      }
      attempt := attempt + 1;
    }
    return false;
  }

  /** A RandomShard round: the affinity shard first. */
  method RandomRound(world: World, producerID: uint64, affinityShard: nat, value: Any, config: Config)
    returns (ok: bool)
    requires world.Valid() && affinityShard == Place(producerID, world.numShards)
    modifies world
    ensures (ok, world.trace)
         == Round(RandomShard, config, world.numShards, producerID, world.env, value, old(world.trace))
  {
    ok := RetryShard(world, affinityShard, value, config.maxRetries);
    if !ok {
      ok := TryRandomShards(world, affinityShard, value, config.maxRetries);
    }
  }

  method WriteWithRandomShard(
    world: World, producerID: uint64, value: Any, config: Config, state: WriterState, rounds: nat)
    returns (done: Option<bool>)
    requires world.Valid()
    modifies world, state
    ensures Outcome(done, state.Value(), world.trace)
         == old(world.Ahead(RandomShard, config, producerID, value, state.Value(), rounds))
  {
    var affinityShard := world.Home(producerID);
    var left := rounds;
    while left > 0
      invariant world.Ahead(RandomShard, config, producerID, value, state.Value(), left)
             == old(world.Ahead(RandomShard, config, producerID, value, state.Value(), rounds))
    {
      var accepted := RandomRound(world, producerID, affinityShard, value, config);
      if accepted {
        return Some(true);
      }
      state.backoffCount := state.backoffCount + 1;
      if config.GivesUp(state.backoffCount) {
        return Some(false);
      }
      world.Pause(Sleep(config.backoffDuration));
      left := left - 1;
    }
    return None;
  }

  /** The backoff of AdaptiveBackoff and Hybrid: a jittered sleep, then the capped increase. */
  method SleepAndGrow(
    world: World, state: WriterState, config: Config, multiplier: real, maxBackoff: int, ghost s: Strategy)
    requires Exponential(s) && multiplier == config.Multiplier() && maxBackoff == config.Cap()
    modifies world, state
    ensures var (next, pause) := Pause(s, config, world.env, old(state.Value()), old(world.trace));
            state.Value() == next && world.trace == old(world.trace) + [pause]
  {
    var jitter := world.Jitter();
    world.Pause(Sleep(Scale(state.currentBackoff, jitter)));
    state.currentBackoff := Scale(state.currentBackoff, multiplier);
    if state.currentBackoff > maxBackoff {
      state.currentBackoff := maxBackoff;
    }
  }

  method WriteWithAdaptiveBackoff(
    world: World, producerID: uint64, value: Any, config: Config, state: WriterState, rounds: nat)
    returns (done: Option<bool>)
    requires world.Valid()
    modifies world, state
    ensures Outcome(done, state.Value(), world.trace)
         == old(world.Ahead(AdaptiveBackoff, config, producerID, value, state.Value(), rounds))
  {
    var shard := world.Home(producerID);
    var multiplier := if config.backoffMultiplier == 0.0 then 2.0 else config.backoffMultiplier;
    var maxBackoff := if config.maxBackoffDuration == 0 then 10_000_000 else config.maxBackoffDuration;
    var left := rounds;
    while left > 0
      invariant world.Ahead(AdaptiveBackoff, config, producerID, value, state.Value(), left)
             == old(world.Ahead(AdaptiveBackoff, config, producerID, value, state.Value(), rounds))
    {
      var accepted := RetryShard(world, shard, value, config.maxRetries);
      if accepted {
        return Some(true);
      }
      state.backoffCount := state.backoffCount + 1;
      if config.GivesUp(state.backoffCount) {
        return Some(false);
      }
      SleepAndGrow(world, state, config, multiplier, maxBackoff, AdaptiveBackoff);
      left := left - 1;
    }
    return None;
  }

  method WriteWithSpinYield(
    world: World, producerID: uint64, value: Any, config: Config, state: WriterState, rounds: nat)
    returns (done: Option<bool>)
    requires world.Valid()
    modifies world, state
    ensures Outcome(done, state.Value(), world.trace)
         == old(world.Ahead(SpinThenYield, config, producerID, value, state.Value(), rounds))
  {
    var shard := world.Home(producerID);
    var left := rounds;
    while left > 0
      invariant world.Ahead(SpinThenYield, config, producerID, value, state.Value(), left)
             == old(world.Ahead(SpinThenYield, config, producerID, value, state.Value(), rounds))
    {
      var accepted := RetryShard(world, shard, value, config.maxRetries);
      if accepted {
        return Some(true);
      }
      state.backoffCount := state.backoffCount + 1;
      if config.GivesUp(state.backoffCount) {
        return Some(false);
      }
      world.Pause(Yield);
      left := left - 1;
    }
    return None;
  }

  method WriteWithHybrid(
    world: World, producerID: uint64, value: Any, config: Config, state: WriterState, rounds: nat)
    returns (done: Option<bool>)
    requires world.Valid()
    modifies world, state
    ensures Outcome(done, state.Value(), world.trace)
         == old(world.Ahead(Hybrid, config, producerID, value, state.Value(), rounds))
  {
    var startShard := world.Home(producerID);
    var multiplier := if config.backoffMultiplier == 0.0 then 2.0 else config.backoffMultiplier;
    var maxBackoff := if config.maxBackoffDuration == 0 then 10_000_000 else config.maxBackoffDuration;
    var left := rounds;
    while left > 0
      invariant world.Ahead(Hybrid, config, producerID, value, state.Value(), left)
             == old(world.Ahead(Hybrid, config, producerID, value, state.Value(), rounds))
    {
      var accepted := SweepShards(world, producerID, startShard, value, config, Hybrid);
      if accepted {
        return Some(true);
      }
      state.backoffCount := state.backoffCount + 1;
      if config.GivesUp(state.backoffCount) {
        return Some(false);
      }
      SleepAndGrow(world, state, config, multiplier, maxBackoff, Hybrid);
      left := left - 1;
    }
    return None;
  }

  /** The backoff of AutoAdaptive, by mode. */
  method YieldOrSleep(world: World, state: WriterState, config: Config, idleIterations: int, sleepDuration: int)
    requires idleIterations == config.IdleLimit() && sleepDuration == config.IdleSleep()
    modifies world, state
    ensures var (next, pause) := Pause(AutoAdaptive, config, world.env, old(state.Value()), old(world.trace));
            state.Value() == next && world.trace == old(world.trace) + [pause]
  {
    match state.adaptiveMode {
    case YieldMode =>
      if state.warmupRemaining > 0 {
        state.warmupRemaining := state.warmupRemaining - 1;
      } else {
        state.idleIterations := state.idleIterations + 1;
        if state.idleIterations > idleIterations {
          state.adaptiveMode := SleepMode;
        }
      }
      world.Pause(Yield);
    case SleepMode =>
      world.Pause(Sleep(sleepDuration));
    }
  }

  method WriteWithAutoAdaptive(
    world: World, producerID: uint64, value: Any, config: Config, state: WriterState, rounds: nat)
    returns (done: Option<bool>)
    requires world.Valid()
    modifies world, state
    ensures Outcome(done, state.Value(), world.trace)
         == old(world.Ahead(AutoAdaptive, config, producerID, value, state.Value(), rounds))
  {
    var shard := world.Home(producerID);
    var idleIterations := if config.adaptiveIdleIterations == 0 then 100_000 else config.adaptiveIdleIterations;
    var warmupIterations := if config.adaptiveWarmupIterations == 0 then 1_000 else config.adaptiveWarmupIterations;
    var sleepDuration := if config.adaptiveSleepDuration == 0 then 100_000 else config.adaptiveSleepDuration;
    var left := rounds;
    while left > 0
      invariant world.Ahead(AutoAdaptive, config, producerID, value, state.Value(), left)
             == old(world.Ahead(AutoAdaptive, config, producerID, value, state.Value(), rounds))
    {
      var accepted := RetryShard(world, shard, value, config.maxRetries);
      if accepted {
        state.idleIterations := 0;
        state.warmupRemaining := warmupIterations;
        state.adaptiveMode := YieldMode;
        return Some(true);
      }
      state.backoffCount := state.backoffCount + 1;
      if config.GivesUp(state.backoffCount) {
        return Some(false);
      }
      YieldOrSleep(world, state, config, idleIterations, sleepDuration);
      left := left - 1;
    }
    return None;
  }

  /** The direct write of the ring keeps its count of backoffs to itself, so each call behaves like
      the first SleepBackoff call of a fresh writer. */
  method WriteWithBackoff(world: World, producerID: uint64, value: Any, config: Config, rounds: nat)
    returns (done: Option<bool>)
    requires world.Valid()
    modifies world
    ensures var first := old(world.Ahead(SleepBackoff, config, producerID, value, Fresh(config), rounds));
            done == first.done && world.trace == first.trace
  {
    var shard := world.Home(producerID);
    var backoffCount := 0;
    ghost var st := Fresh(config);
    var left := rounds;
    while left > 0
      invariant st.backoffCount == backoffCount
      invariant world.Ahead(SleepBackoff, config, producerID, value, st, left)
             == old(world.Ahead(SleepBackoff, config, producerID, value, Fresh(config), rounds))
    {
      var accepted := RetryShard(world, shard, value, config.maxRetries);
      if accepted {
        return Some(true);
      }
      backoffCount := backoffCount + 1;
      st := st.(backoffCount := backoffCount);
      if config.GivesUp(backoffCount) {
        return Some(false);
      }
      world.Pause(Sleep(config.backoffDuration));
      left := left - 1;
    }
    return None;
  }

  class Writer {
    const world: World
    const config: Config
    const producerID: uint64
    const writeFunc: Strategy
    const state: WriterState

    ghost predicate Valid() {
      world.Valid() && writeFunc == Resolve(config.strategy)
    }

    constructor (world: World, producerID: uint64, config: Config)
      requires world.Valid()
      ensures this.world == world && this.producerID == producerID && this.config == config
      ensures fresh(state) && state.Value() == Fresh(config) && Valid()
      ensures state.Value() == State(config.backoffDuration, 0, YieldMode, 0, 0)
    {
      this.world, this.producerID, this.config := world, producerID, config;
      writeFunc := Resolve(config.strategy);
      state := new WriterState(config.backoffDuration);
    }

    /** Calls the strategy chosen at creation, and so keeps what the strategy that the configuration
        names promises; an unknown strategy is SleepBackoff. */
    method Write(value: Any, rounds: nat) returns (done: Option<bool>)
      requires Valid()
      modifies world, state
      ensures Outcome(done, state.Value(), world.trace)
           == old(world.Ahead(Resolve(config.strategy), config, producerID, value, state.Value(), rounds))
      ensures Keeps(config.strategy, config, world.numShards, producerID, world.env, value, old(state.Value()),
                    old(world.trace), Outcome(done, state.Value(), world.trace))
    {
      ResolvedKeeps(config, world.numShards, producerID, world.env, value, state.Value(), world.trace, rounds);
      match writeFunc
      case NextShard => done := WriteWithNextShard(world, producerID, value, config, state, rounds);
      case RandomShard => done := WriteWithRandomShard(world, producerID, value, config, state, rounds);
      case AdaptiveBackoff => done := WriteWithAdaptiveBackoff(world, producerID, value, config, state, rounds);
      case SpinThenYield => done := WriteWithSpinYield(world, producerID, value, config, state, rounds);
      case Hybrid => done := WriteWithHybrid(world, producerID, value, config, state, rounds);
      case AutoAdaptive => done := WriteWithAutoAdaptive(world, producerID, value, config, state, rounds);
      case SleepBackoff => done := WriteWithSleepBackoff(world, producerID, value, config, state, rounds);
    }

    method Reset()
      modifies state
      ensures state.Value() == Fresh(config)
      ensures state.Value() == State(config.backoffDuration, 0, YieldMode, 0, 0)
    {
      state.currentBackoff := config.backoffDuration;
      state.backoffCount := 0;
      state.adaptiveMode := YieldMode;
      state.idleIterations := 0;
      state.warmupRemaining := 0;
    }
  }
}
