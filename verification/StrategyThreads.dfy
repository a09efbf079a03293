/** The calls of the retry strategies as calls of the ring's writing threads: each attempt is a call of
    shard.write, one access at a time, with steps of the other threads and of the reader anywhere in
    between. */
module StrategyThreads {
  import opened Words
  import opened Values
  import P = ShardProtocol
  import SR = ShardRuns
  import S = Strategies
  import opened R = RingProtocol
  import opened RingRuns

  /** The shards a strategy may pick for a producer. */
  predicate MayPick(s: S.Strategy, n: nat, producer: nat, j: nat)
    requires 0 < n
  {
    j < n && (S.OnOneShard(s) ==> j == Place(producer, n))
  }

  /** Any step but one that starts or ends a call or an attempt of thread `t`. */
  predicate WithinAttempt(a: Step, t: nat) {
    match a
    case Call(u, _) => u != t
    case Try(u, _) => u != t
    case Access(u) => true
    case Return(u) => u != t
    case GiveUp(u) => u != t
    case _ => true
  }

  /** A step of another thread, or of the reader. */
  predicate ByOthers(a: Step, t: nat) {
    WithinAttempt(a, t) && a != Access(t)
  }

  /** What happens around one attempt: steps of others before it, and then the accesses of the write
      call with steps of others anywhere between them. */
  datatype Turn = Turn(before: seq<Step>, during: seq<Step>)

  ghost predicate AnswersOne(r: Ring, t: nat, e: S.Event, turn: Turn)
    requires e.Attempt?
  {
    && (forall a :: a in turn.before ==> ByOthers(a, t))
    && (forall a :: a in turn.during ==> WithinAttempt(a, t))
    && Legal(r, turn.before)
    && var r1 := After(r, turn.before);
       R.Enabled(r1, Try(t, e.shard)) ==>
         var r2 := R.Next(r1, Try(t, e.shard));
         && Legal(r2, turn.during)
         && var r3 := After(r2, turn.during);
            R.Enabled(r3, Return(t)) && (e.ok <==> r3.shards[r3.threads[t].attempt.shard].producers[t].pc.Wrote?)
  }

  ghost function AfterTurn(r: Ring, t: nat, e: S.Event, turn: Turn): Ring
    requires e.Attempt? && AnswersOne(r, t, e, turn)
    requires R.Enabled(After(r, turn.before), Try(t, e.shard))
  {
    R.Next(After(R.Next(After(r, turn.before), Try(t, e.shard)), turn.during), Return(t))
  }

  /** The ring gives the recorded answers: in each turn the write call, once begun, comes to its end,
      and was accepted or refused as the event says. */
  ghost predicate Answers(r: Ring, t: nat, events: S.Trace, turns: seq<Turn>)
    decreases events
  {
    if events == [] then turns == []
    else if !events[0].Attempt? then Answers(r, t, events[1..], turns)
    else turns != [] && AnswersOne(r, t, events[0], turns[0])
         && (R.Enabled(After(r, turns[0].before), Try(t, events[0].shard)) ==>
               Answers(AfterTurn(r, t, events[0], turns[0]), t, events[1..], turns[1..]))
  }

  function TurnSteps(t: nat, e: S.Event, turn: Turn): seq<Step>
    requires e.Attempt?
  {
    turn.before + ([Try(t, e.shard)] + (turn.during + [Return(t)]))
  }

  /** The steps of the attempts; the other events are none of the ring's. */
  function Steps(t: nat, events: S.Trace, turns: seq<Turn>): seq<Step>
    decreases events
  {
    if events == [] then []
    else if !events[0].Attempt? || turns == [] then Steps(t, events[1..], turns)
    else TurnSteps(t, events[0], turns[0]) + Steps(t, events[1..], turns[1..])
  }

  // ---------------------------------------------------------------- runs

  lemma {:induction false} RunsJoin(r: Ring, a: seq<Step>, b: seq<Step>)
    requires Legal(r, a) && Legal(After(r, a), b)
    ensures Legal(r, a + b) && After(r, a + b) == After(After(r, a), b)
    decreases a
  {
    if a == [] {
      assert a + b == b;
    } else {
      RunsJoin(R.Next(r, a[0]), a[1..], b);
      assert (a + b)[1..] == a[1..] + b;
    }
  }

  lemma OneStep(r: Ring, a: Step)
    requires R.Enabled(r, a)
    ensures Legal(r, [a]) && After(r, [a]) == R.Next(r, a)
  {
    assert [a][1..] == [];
  }

  /** The thread's own record and the shape of the ring are not changed by steps of others, or by the
      accesses within an attempt. */
  lemma {:induction false} ThreadKept(r: Ring, run: seq<Step>, t: nat)
    requires R.Inv(r) && Legal(r, run) && t < |r.threads|
    requires forall a :: a in run ==> WithinAttempt(a, t)
    ensures var r' := After(r, run);
            && R.Inv(r') && |r'.threads| == |r.threads| && |r'.shards| == |r.shards|
            && r'.threads[t] == r.threads[t]
    decreases run
  {
    if run == [] {
    } else {
      assert WithinAttempt(run[0], t);
      R.NextInv(r, run[0]);
      ThreadKept(R.Next(r, run[0]), run[1..], t);
    }
  }

  /** A thread that has had an attempt accepted, or refused. */
  ghost predicate Tried(before: Thread, after: Thread, j: nat, ok: bool) {
    if ok
    then exists p: nat ::
      after == before.(results := before.results + [Accepted(j, p)], attempt := Between)
    else after == before
  }

  lemma TurnResult(r1: Ring, t: nat, e: S.Event, r3: Ring)
    requires t < |r1.threads| == |r3.threads| && r1.threads[t].attempt.Trying? && e.Attempt?
    requires r3.threads[t] == r1.threads[t].(attempt := Attempting(e.shard)) && R.Enabled(r3, Return(t))
    requires e.ok <==> r3.shards[e.shard].producers[t].pc.Wrote?
    ensures Tried(r1.threads[t], R.Next(r3, Return(t)).threads[t], e.shard, e.ok)
  {
    var p := r3.shards[e.shard].producers[t].pos;
    var after := R.Next(r3, Return(t)).threads[t];
    if e.ok {
      assert after == r1.threads[t].(results := r1.threads[t].results + [Accepted(e.shard, p)], attempt := Between);
    }
  }

  lemma TurnJoins(r: Ring, t: nat, e: S.Event, turn: Turn)
    requires e.Attempt? && AnswersOne(r, t, e, turn) && R.Enabled(After(r, turn.before), Try(t, e.shard))
    ensures Legal(r, TurnSteps(t, e, turn)) && After(r, TurnSteps(t, e, turn)) == AfterTurn(r, t, e, turn)
  {
    var r1 := After(r, turn.before);
    var r2 := R.Next(r1, Try(t, e.shard));
    var r3 := After(r2, turn.during);
    OneStep(r3, Return(t));
    RunsJoin(r2, turn.during, [Return(t)]);
    OneStep(r1, Try(t, e.shard));
    RunsJoin(r1, [Try(t, e.shard)], turn.during + [Return(t)]);
    RunsJoin(r, turn.before, [Try(t, e.shard)] + (turn.during + [Return(t)]));
  }

  /** One attempt: a thread in a call may always begin it, and then the turn is a legal run. */
  lemma TurnIsRun(r: Ring, t: nat, e: S.Event, turn: Turn)
    requires R.Inv(r) && t < |r.threads| && r.threads[t].attempt.Trying?
    requires e.Attempt? && e.shard < |r.shards| && e.shard in r.threads[t].choices
    requires AnswersOne(r, t, e, turn)
    ensures R.Enabled(After(r, turn.before), Try(t, e.shard))
    ensures Legal(r, TurnSteps(t, e, turn)) && After(r, TurnSteps(t, e, turn)) == AfterTurn(r, t, e, turn)
    ensures var r' := AfterTurn(r, t, e, turn);
            && R.Inv(r') && |r'.threads| == |r.threads| && |r'.shards| == |r.shards|
            && Tried(r.threads[t], r'.threads[t], e.shard, e.ok)
  {
    var r1 := After(r, turn.before);
    ThreadKept(r, turn.before, t);
    NeverStuck(r1, t, e.shard);
    var r2 := R.Next(r1, Try(t, e.shard));
    R.NextInv(r1, Try(t, e.shard));
    var r3 := After(r2, turn.during);
    ThreadKept(r2, turn.during, t);
    R.NextInv(r3, Return(t));
    TurnJoins(r, t, e, turn);
    TurnResult(r1, t, e, r3);
  }

  // ---------------------------------------------------------------- calls

  /** The thread at the end of its attempts. */
  ghost predicate AttemptsDone(before: Thread, after: Thread, events: S.Trace) {
    if S.EndsAccepted(events) then Tried(before, after, events[|events| - 1].shard, true) else after == before
  }

  /** The attempts of a call, all refused but possibly the last, are a legal run of the ring. */
  lemma {:induction false} AttemptsAreRun(r: Ring, t: nat, events: S.Trace, turns: seq<Turn>, v: Any)
    requires R.Inv(r) && t < |r.threads| && r.threads[t].attempt.Trying?
    requires S.OneAccepted(events, |r.shards|, v) && Answers(r, t, events, turns)
    requires forall i :: 0 <= i < |events| && events[i].Attempt? ==> events[i].shard in r.threads[t].choices
    ensures Legal(r, Steps(t, events, turns))
    ensures var r' := After(r, Steps(t, events, turns));
            && R.Inv(r') && |r'.threads| == |r.threads|
            && AttemptsDone(r.threads[t], r'.threads[t], events)
    decreases events
  {
    if events == [] {
    } else if !events[0].Attempt? {
      S.OneAcceptedLater(events, |r.shards|, v);
      AttemptsAreRun(r, t, events[1..], turns, v);
    } else {
      TurnIsRun(r, t, events[0], turns[0]);
      var r1 := AfterTurn(r, t, events[0], turns[0]);
      if events[0].ok {
        assert |events| == 1 && events[1..] == [];
        assert Steps(t, events, turns) == TurnSteps(t, events[0], turns[0]);
      } else {
        S.OneAcceptedLater(events, |r.shards|, v);
        AttemptsAreRun(r1, t, events[1..], turns[1..], v);
        RunsJoin(r, TurnSteps(t, events[0], turns[0]), Steps(t, events[1..], turns[1..]));
      }
    }
  }

  /** The steps of a whole call. */
  function CallSteps(t: nat, v: Any, out: S.Outcome, turns: seq<Turn>): seq<Step> {
    [Call(t, v)] + (Steps(t, out.trace, turns) + if out.done == Some(true) then [] else [GiveUp(t)])
  }

  lemma CallJoins(r: Ring, t: nat, v: Any, out: S.Outcome, turns: seq<Turn>)
    requires R.Enabled(r, Call(t, v)) && Legal(R.Next(r, Call(t, v)), Steps(t, out.trace, turns))
    requires out.done != Some(true) ==>
      R.Enabled(After(R.Next(r, Call(t, v)), Steps(t, out.trace, turns)), GiveUp(t))
    ensures Legal(r, CallSteps(t, v, out, turns))
    ensures var r1 := After(R.Next(r, Call(t, v)), Steps(t, out.trace, turns));
            After(r, CallSteps(t, v, out, turns)) == if out.done == Some(true) then r1 else R.Next(r1, GiveUp(t))
  {
    var r0, steps := R.Next(r, Call(t, v)), Steps(t, out.trace, turns);
    OneStep(r, Call(t, v));
    if out.done == Some(true) {
      assert steps + [] == steps;
      RunsJoin(r, [Call(t, v)], steps);
    } else {
      OneStep(After(r0, steps), GiveUp(t));
      RunsJoin(r0, steps, [GiveUp(t)]);
      RunsJoin(r, [Call(t, v)], steps + [GiveUp(t)]);
    }
  }

  /** A thread that has made one more call: its value, and a result that says which shard accepted it,
      the one of the call's last attempt, or that none did. */
  ghost predicate CallDone(before: Thread, after: Thread, v: Any, out: S.Outcome) {
    && after.attempt.Between? && after.choices == before.choices && after.args == before.args + [v]
    && |after.results| == |before.results| + 1 && before.results <= after.results
    && var result := after.results[|before.results|];
       if out.done == Some(true)
       then S.EndsAccepted(out.trace) && result.Accepted? && result.shard == out.trace[|out.trace| - 1].shard
       else result.Rejected?
  }

  lemma CallResult(r: Ring, t: nat, v: Any, out: S.Outcome, r1: Ring)
    requires t < |r.threads| == |r1.threads| && r.threads[t].attempt.Between?
    requires S.EndsAccepted(out.trace) <==> out.done == Some(true)
    requires AttemptsDone(R.Next(r, Call(t, v)).threads[t], r1.threads[t], out.trace)
    ensures out.done == Some(true) ==> CallDone(r.threads[t], r1.threads[t], v, out)
    ensures out.done != Some(true) ==>
      R.Enabled(r1, GiveUp(t)) && CallDone(r.threads[t], R.Next(r1, GiveUp(t)).threads[t], v, out)
  {
  }

  /** Every finished call of every strategy is a call of a thread of the ring: whatever the other
      threads and the reader do, if its attempts are answered as they are by the ring, its steps are a
      legal run; the thread's record then ends with its value and its result. */
  lemma CallIsRun(
    s: S.Strategy, cfg: S.Config, producer: nat, env: S.Env, v: Any, st: S.State, rounds: nat,
    r: Ring, t: nat, turns: seq<Turn>)
    requires R.Inv(r) && t < |r.threads| && r.threads[t].attempt.Between?
    requires forall j: nat :: MayPick(s, |r.shards|, producer, j) ==> j in r.threads[t].choices
    requires S.Call(s, cfg, |r.shards|, producer, env, v, st, [], rounds).done.Some?
    requires Answers(R.Next(r, Call(t, v)), t, S.Call(s, cfg, |r.shards|, producer, env, v, st, [], rounds).trace,
                     turns)
    ensures var out := S.Call(s, cfg, |r.shards|, producer, env, v, st, [], rounds);
            && Legal(r, CallSteps(t, v, out, turns))
            && |After(r, CallSteps(t, v, out, turns)).threads| == |r.threads|
            && CallDone(r.threads[t], After(r, CallSteps(t, v, out, turns)).threads[t], v, out)
  {
    var out := S.Call(s, cfg, |r.shards|, producer, env, v, st, [], rounds);
    var r0 := R.Next(r, Call(t, v));
    R.NextInv(r, Call(t, v));
    OneStep(r, Call(t, v));
    S.CallShape(s, cfg, |r.shards|, producer, env, v, st, [], rounds);
    S.EventsOfCall(s, cfg, |r.shards|, producer, v, env, st, [], rounds);
    forall i | 0 <= i < |out.trace| && out.trace[i].Attempt? ensures out.trace[i].shard in r0.threads[t].choices {
      assert MayPick(s, |r.shards|, producer, out.trace[i].shard);
    }
    AttemptsAreRun(r0, t, out.trace, turns, v);
    CallResult(r, t, v, out, After(r0, Steps(t, out.trace, turns)));
    CallJoins(r, t, v, out, turns);
  }

  // ---------------------------------------------------------------- attempts that nobody interrupts

  lemma AccessAlone(r: Ring, t: nat, j: nat)
    requires R.Inv(r) && t < |r.threads| && j < |r.shards| && r.threads[t].attempt == Attempting(j)
    requires P.InCall(r.shards[j].producers[t])
    ensures R.Enabled(r, Access(t)) && R.Inv(R.Next(r, Access(t)))
    ensures R.Next(r, Access(t)) == r.(shards := r.shards[j := P.ProducerStep(r.shards[j], t)])
  {
    R.NextInv(r, Access(t));
  }

  /** Up to `k` accesses of thread `t` with no other step between them. */
  lemma {:induction false} AccessesAlone(r: Ring, t: nat, j: nat, k: nat) returns (run: seq<Step>)
    requires R.Inv(r) && t < |r.threads| && j < |r.shards| && r.threads[t].attempt == Attempting(j)
    ensures forall a :: a in run ==> a == Access(t)
    ensures Legal(r, run)
    ensures After(r, run) == r.(shards := r.shards[j := SR.Alone(r.shards[j], t, k)]) && R.Inv(After(r, run))
    decreases k
  {
    run := [];
    if k > 0 && P.InCall(r.shards[j].producers[t]) {
      var r' := R.Next(r, Access(t));
      AccessAlone(r, t, j);
      var rest := AccessesAlone(r', t, j, k - 1);
      run := [Access(t)] + rest;
      OneStep(r, Access(t));
      RunsJoin(r, [Access(t)], rest);
    }
  }

  /** An attempt that nobody interrupts is such a turn, and is accepted exactly when its shard has room. */
  lemma AloneTurn(r: Ring, t: nat, j: nat, v: Any) returns (turn: Turn)
    requires R.Inv(r) && R.Enabled(r, Try(t, j))
    ensures var ok := r.shards[j].writePos < r.shards[j].Released() + r.shards[j].size;
            AnswersOne(r, t, S.Attempt(j, v, ok), turn)
  {
    var r' := R.Next(r, Try(t, j));
    R.NextInv(r, Try(t, j));
    var th := r.threads[t];
    SR.UninterruptedWrite(r.shards[j], t, P.Entry(t, Current(th), th.args[Current(th)]));
    var during := AccessesAlone(r', t, j, 5);
    turn := Turn([], during);
  }
}
