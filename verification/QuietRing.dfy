/** A write call of NextShard or Hybrid on a real ring that nobody else changes meanwhile. */
module QuietRing {
  import opened Words
  import opened Values
  import opened ShardModel
  import opened RingModel
  import opened Strategies
  import opened StrategyRuns

  /** The shards answer the attempts themselves, one after the other: each attempt is the write of
      its value to its shard, as the attempts before it left that shard. */
  ghost predicate Answered(shards: seq<Shard>, events: Trace)
    decreases events
  {
    events == [] ||
    var e := events[0];
    if e.Attempt?
    then && e.shard < |shards| && shards[e.shard].WellFormed()
         && e.ok == shards[e.shard].Write(e.value).1
         && Answered(shards[e.shard := shards[e.shard].Write(e.value).0], events[1..])
    else Answered(shards, events[1..])
  }

  /** The shards after the attempts among the events. */
  ghost function Left(shards: seq<Shard>, events: Trace): seq<Shard>
    requires Answered(shards, events)
    decreases events
  {
    if events == [] then shards else
    var e := events[0];
    Left(if e.Attempt? then shards[e.shard := shards[e.shard].Write(e.value).0] else shards, events[1..])
  }

  ghost function Room(shards: seq<Shard>, queues: seq<seq<Any>>): (room: seq<bool>)
    requires |shards| == |queues|
    ensures |room| == |queues|
    ensures forall j :: 0 <= j < |queues| ==> (room[j] <==> |queues[j]| < shards[j].size)
  {
    seq(|queues|, j requires 0 <= j < |queues| => |queues[j]| < shards[j].size)
  }

  /** A write to one shard of the ring. */
  lemma WriteOne(shards: seq<Shard>, heads: seq<nat>, queues: seq<seq<Any>>, j: nat, v: Any, budget: nat)
    requires RingHolds(shards, heads, queues, budget + 1) && j < |shards|
    ensures shards[j].Write(v).1 <==> |queues[j]| < shards[j].size
    ensures !shards[j].Write(v).1 ==> shards[j := shards[j].Write(v).0] == shards
    ensures shards[j].Write(v).1 ==>
      RingHolds(shards[j := shards[j].Write(v).0], heads, queues[j := queues[j] + [v]], budget)
  {
    SoundWrite(shards[j], heads[j], queues[j], v, budget);
  }

  lemma AnsweredFromNext(room: seq<bool>, events: Trace)
    requires events != [] && AnsweredByRoom(room, [], events[1..])
    requires events[0].Attempt? && events[0].shard < |room| ==> (events[0].ok <==> room[events[0].shard])
    ensures AnsweredByRoom(room, [], events)
  {
    assert forall i :: 0 < i < |events| ==> events[i] == events[1..][i - 1];
  }

  /** Refused attempts leave the shards as they were, so every attempt is answered by the ring as the
      call found it; an accepted one appends the value to its queue. */
  lemma {:induction false} AttemptsOnRing(
    shards: seq<Shard>, heads: seq<nat>, queues: seq<seq<Any>>, events: Trace, v: Any, budget: nat)
    requires RingHolds(shards, heads, queues, budget + 1) && Answered(shards, events)
    requires OneAccepted(events, |shards|, v)
    ensures AnsweredByRoom(Room(shards, queues), [], events)
    ensures RingHolds(Left(shards, events), heads,
                      if EndsAccepted(events)
                      then var j := events[|events| - 1].shard; queues[j := queues[j] + [v]]
                      else queues, budget)
    decreases events
  {
    if events == [] {
    } else {
      var e := events[0];
      if e.Attempt? {
        WriteOne(shards, heads, queues, e.shard, v, budget);
      }
      if e.Attempt? && e.ok {
        assert events[1..] == [] && Left(shards, events) == shards[e.shard := shards[e.shard].Write(v).0];
      } else {
        OneAcceptedLater(events, |shards|, v);
        AttemptsOnRing(shards, heads, queues, events[1..], v, budget);
        AnsweredFromNext(Room(shards, queues), events);
      }
    }
  }

  /** The shard the value goes to: the first with room, in cyclic order from the producer's own. */
  ghost predicate Lands(shards: seq<Shard>, queues: seq<seq<Any>>, home: nat, j: nat) {
    |shards| == |queues| && exists k: nat :: FirstRoom(Room(shards, queues), home, k) && j == Cyclic(home, k, |queues|)
  }

  lemma AnsweredFromStart(room: seq<bool>, trace: Trace, events: Trace)
    requires AnsweredByRoom(room, [], events)
    ensures AnsweredByRoom(room, trace, trace + events)
  {
  }

  lemma FullIfRefused(shards: seq<Shard>, heads: seq<nat>, queues: seq<seq<Any>>, room: seq<bool>, budget: nat)
    requires RingHolds(shards, heads, queues, budget) && room == Room(shards, queues)
    ensures forall j :: 0 <= j < |queues| && !room[j] ==> |queues[j]| == shards[j].size
  {
  }

  /** How a call of a searching strategy ends: accepted exactly when some queue has room, by the first
      such queue in cyclic order, which gets the value at its end while no other queue changes; given
      up only when the whole ring is full. */
  ghost predicate Placed(
    shards: seq<Shard>, heads: seq<nat>, queues: seq<seq<Any>>, producer: nat, v: Any, trace: Trace, out: Outcome,
    budget: nat, j: nat)
    requires 0 < |shards| == |queues| && Answered(shards, Since(trace, out.trace))
  {
    && (out.done == Some(true) <==> exists i :: 0 <= i < |queues| && |queues[i]| < shards[i].size)
    && (out.done == Some(false) ==> forall i :: 0 <= i < |queues| ==> |queues[i]| == shards[i].size)
    && (out.done == Some(true) ==> Lands(shards, queues, Place(producer, |shards|), j) && j < |shards|)
    && RingHolds(Left(shards, Since(trace, out.trace)), heads,
                 if out.done == Some(true) then queues[j := queues[j] + [v]] else queues, budget)
  }

  /** NextShard and Hybrid on a ring that nobody else changes during the call: the call is accepted
      exactly when some queue has room, and then the value is appended to the first such queue in
      cyclic order and to no other; it gives up only when the whole ring is full. */
  lemma CallOnQuietRing(
    s: Strategy, cfg: Config, shards: seq<Shard>, heads: seq<nat>, queues: seq<seq<Any>>, producer: nat, v: Any,
    env: Env, st: State, trace: Trace, rounds: nat, budget: nat)
    returns (j: nat)
    requires s.NextShard? || s.Hybrid?
    requires 0 < |shards| && RingHolds(shards, heads, queues, budget + 1)
    requires cfg.maxRetries > 0 && rounds > 0
    requires Answered(shards, Since(trace, Call(s, cfg, |shards|, producer, env, v, st, trace, rounds).trace))
    ensures Placed(shards, heads, queues, producer, v, trace,
                   Call(s, cfg, |shards|, producer, env, v, st, trace, rounds), budget, j)
  {
    var n, home, room := |shards|, Place(producer, |shards|), Room(shards, queues);
    var out := Call(s, cfg, n, producer, env, v, st, trace, rounds);
    var events := Since(trace, out.trace);
    EventsOfCall(s, cfg, n, producer, v, env, st, trace, rounds);
    AttemptsOnRing(shards, heads, queues, events, v, budget);
    AnsweredFromStart(room, trace, events);
    QuietCallIsComplete(s, cfg, room, producer, env, v, st, trace, rounds);
    j := 0;
    if out.done == Some(true) {
      var k: nat :| FirstRoom(room, home, k) && out.trace[|out.trace| - 1] == Attempt(Cyclic(home, k, n), v, true);
      j := Cyclic(home, k, n);
      assert events[|events| - 1] == out.trace[|out.trace| - 1];
    } else {
      FullIfRefused(shards, heads, queues, room, budget + 1);
    }
  }

  /** The same of a writer whose configuration names NextShard or Hybrid. */
  lemma WriterOnQuietRing(
    cfg: Config, shards: seq<Shard>, heads: seq<nat>, queues: seq<seq<Any>>, producer: nat, v: Any,
    env: Env, st: State, trace: Trace, rounds: nat, budget: nat)
    returns (j: nat)
    requires cfg.strategy.NextShard? || cfg.strategy.Hybrid?
    requires 0 < |shards| && RingHolds(shards, heads, queues, budget + 1)
    requires cfg.maxRetries > 0 && rounds > 0
    requires Answered(
      shards, Since(trace, Call(Resolve(cfg.strategy), cfg, |shards|, producer, env, v, st, trace, rounds).trace))
    ensures Placed(shards, heads, queues, producer, v, trace,
                   Call(Resolve(cfg.strategy), cfg, |shards|, producer, env, v, st, trace, rounds), budget, j)
  {
    j := CallOnQuietRing(
      Resolve(cfg.strategy), cfg, shards, heads, queues, producer, v, env, st, trace, rounds, budget);
  }
}
