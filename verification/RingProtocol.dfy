/** The whole ring under any number of writing threads and one reading thread. Each thread runs
    write calls of any retry strategy: a call tries shards of the thread's choice, as often as it
    likes, until one accepts the value or the call gives up. The reader runs the loops of TryRead
    and ReadBatchInto. Steps are single accesses to shared memory. */
module RingProtocol {
  import opened Words
  import opened Values
  import opened P = ShardProtocol

  datatype Result = Accepted(shard: nat, pos: nat) | Rejected

  datatype Attempt = Between | Trying | Attempting(shard: nat)

  /** A writing thread: the shards its strategy may pick, the values of its calls, the results of
      the calls that have returned, and where it is in the current call. */
  datatype Thread = Thread(choices: set<nat>, args: seq<Any>, results: seq<Result>, attempt: Attempt)

  /** A value handed to the reading thread's caller, and where it came from. */
  datatype Item = Item(shard: nat, pos: nat, value: Any)

  /** The reading thread: `i` shards done and `got` items of at most `max` in the current call. */
  datatype Reader = Idling | Scanning(start: uint64, i: nat, got: nat, max: int)

  datatype Ring = Ring(
    shards: seq<Shard>, threads: seq<Thread>, reader: Reader, readStart: uint64, calls: nat, output: seq<Item>)

  function Current(t: Thread): nat {
    |t.results|
  }

  /** The reading loops go on: there are shards left and room for items. */
  predicate Probing(r: Ring) {
    r.reader.Scanning? && r.reader.i < |r.shards| && r.reader.got < r.reader.max
  }

  function ProbedShard(r: Ring): (j: nat)
    requires Probing(r)
    ensures j < |r.shards|
  {
    Cyclic(r.reader.start, r.reader.i, |r.shards|)
  }

  datatype Step =
    | Call(t: nat, value: Any)
    | Try(t: nat, shard: nat)
    | Access(t: nat)
    | Return(t: nat)
    | GiveUp(t: nat)
    | StartRead(max: int)
    | Consume
    | EndRead

  // ---------------------------------------------------------------- steps

  ghost predicate Sized(s: Shard) {
    s.size > 0 && |s.slots| == s.size
  }

  /** Thread `t` is inside shard.write. */
  ghost predicate Working(r: Ring, t: nat) {
    && t < |r.threads| && r.threads[t].attempt.Attempting?
    && var j := r.threads[t].attempt.shard;
       j < |r.shards| && t < |r.shards[j].producers| && Sized(r.shards[j])
  }

  ghost predicate Enabled(r: Ring, a: Step) {
    match a
    case Call(t, _) => t < |r.threads| && r.threads[t].attempt.Between?
    case Try(t, j) =>
      && t < |r.threads| && r.threads[t].attempt.Trying? && |r.threads[t].args| == Current(r.threads[t]) + 1
      && j in r.threads[t].choices && j < |r.shards|
      && t < |r.shards[j].producers| && r.shards[j].producers[t].pc.Idle?
    case Access(t) => Working(r, t) && InCall(r.shards[r.threads[t].attempt.shard].producers[t])
    case Return(t) =>
      Working(r, t) && var pc := r.shards[r.threads[t].attempt.shard].producers[t].pc; pc.Wrote? || pc.Refused?
    case GiveUp(t) => t < |r.threads| && r.threads[t].attempt.Trying?
    case StartRead(_) => r.reader.Idling?
    case Consume => Probing(r) && Sized(r.shards[ProbedShard(r)])
    case EndRead => r.reader.Scanning? && !Probing(r)
  }

  ghost function Next(r: Ring, a: Step): Ring
    requires Enabled(r, a)
  {
    match a
    case Call(t, v) =>
      var th := r.threads[t];
      r.(threads := r.threads[t := th.(args := th.args + [v], attempt := Trying)])
    case Try(t, j) =>
      var th := r.threads[t];
      r.(shards := r.shards[j := Begin(r.shards[j], t, P.Entry(t, Current(th), th.args[Current(th)]))],
         threads := r.threads[t := th.(attempt := Attempting(j))])
    case Access(t) =>
      var j := r.threads[t].attempt.shard;
      r.(shards := r.shards[j := ProducerStep(r.shards[j], t)])
    case Return(t) =>
      var th, j := r.threads[t], r.threads[t].attempt.shard;
      var p := r.shards[j].producers[t];
      r.(shards := r.shards[j := Finish(r.shards[j], t)],
         threads := r.threads[t :=
           if p.pc.Wrote? then th.(results := th.results + [Accepted(j, p.pos)], attempt := Between)
           else th.(attempt := Trying)])
    case GiveUp(t) =>
      var th := r.threads[t];
      r.(threads := r.threads[t := th.(results := th.results + [Rejected], attempt := Between)])
    case StartRead(max) =>
      r.(reader := Scanning(r.readStart, 0, 0, max), readStart := Wrap(r.readStart + 1), calls := r.calls + 1)
    case Consume =>
      var j := ProbedShard(r);
      var c, s := r.shards[j].consumer, ConsumerStep(r.shards[j]);
      var read := r.(shards := r.shards[j := s]);
      if c.CheckSeq? && s.consumer.Rest? then
        read.(reader := r.reader.(i := r.reader.i + 1))
      else if c.Advance? then
        read.(reader := r.reader.(got := r.reader.got + 1), output := r.output + [Item(j, c.pos, c.value)])
      else
        read
    case EndRead =>
      r.(reader := Idling)
  }

  /** A new ring of `n` shards of `size` slots, for threads with the given choices of shards. */
  function Init(n: nat, size: nat, choices: seq<set<nat>>): Ring {
    Ring(seq(n, j => P.Init(size, |choices|)),
         seq(|choices|, t requires 0 <= t < |choices| => Thread(choices[t], [], [], Between)),
         Idling, 0, 0, [])
  }

  // ---------------------------------------------------------------- the invariant

  ghost predicate Base(r: Ring) {
    && 0 < |r.shards|
    && forall j :: 0 <= j < |r.shards| ==> P.Inv(r.shards[j]) && |r.shards[j].producers| == |r.threads|
  }

  /** The producer of thread `t` at shard `j` is busy only while the thread attempts that shard,
      and then with the thread's current call. */
  ghost predicate ProducerMatches(r: Ring, t: nat, j: nat)
    requires t < |r.threads| && j < |r.shards| && t < |r.shards[j].producers|
  {
    var th, p := r.threads[t], r.shards[j].producers[t];
    if th.attempt == Attempting(j)
    then !p.pc.Idle? && Current(th) < |th.args| && p.entry == P.Entry(t, Current(th), th.args[Current(th)])
    else p.pc.Idle?
  }

  ghost predicate ThreadOk(r: Ring, t: nat)
    requires t < |r.threads|
  {
    var th := r.threads[t];
    && |th.args| == Current(th) + (if th.attempt.Between? then 0 else 1)
    && (th.attempt.Attempting? ==> th.attempt.shard < |r.shards| && th.attempt.shard in th.choices)
  }

  /** An accepted call claimed the position it reports, with its own value. */
  ghost predicate ResultOk(r: Ring, t: nat, k: nat)
    requires t < |r.threads| && k < |r.threads[t].results|
  {
    var th := r.threads[t];
    k < |th.args| &&
    match th.results[k]
    case Rejected => true
    case Accepted(j, p) =>
      j in th.choices && j < |r.shards| && p < |r.shards[j].log| && r.shards[j].log[p] == P.Entry(t, k, th.args[k])
  }

  ghost predicate HasClaimed(p: Producer) {
    p.pc.StoreValue? || p.pc.StoreSeq? || p.pc.Wrote?
  }

  /** A claim belongs to a call that reported it, or to a current call that has claimed just it. */
  ghost predicate ClaimOk(r: Ring, j: nat, p: nat)
    requires j < |r.shards| && p < |r.shards[j].log|
  {
    var e := r.shards[j].log[p];
    && e.thread < |r.threads| && e.thread < |r.shards[j].producers|
    && var th, pr := r.threads[e.thread], r.shards[j].producers[e.thread];
       if e.call < |th.results| then th.results[e.call] == Accepted(j, p)
       else e.call == Current(th) && th.attempt == Attempting(j) && HasClaimed(pr) && pr.pos == p
  }

  /** The claims one thread makes at a shard are in the order of its calls. */
  ghost predicate InCallOrder(log: seq<Entry>) {
    forall p, q :: 0 <= p < q < |log| && log[p].thread == log[q].thread ==> log[p].call < log[q].call
  }

  /** The items of the output that came from shard `j`. */
  function FromShard(output: seq<Item>, j: nat): seq<Item> {
    if output == [] then []
    else
      var last := output[|output| - 1];
      FromShard(output[..|output| - 1], j) + if last.shard == j then [last] else []
  }

  function ItemsOf(j: nat, values: seq<Any>): (items: seq<Item>)
    ensures |items| == |values|
    ensures forall p :: 0 <= p < |values| ==> items[p] == Item(j, p, values[p])
  {
    seq(|values|, p requires 0 <= p < |values| => Item(j, p, values[p]))
  }

  ghost predicate ReaderOk(r: Ring) {
    && r.readStart == Wrap(r.calls)
    && (r.reader.Scanning? ==> r.calls > 0 && r.reader.start == Wrap(r.calls - 1))
    && forall j :: 0 <= j < |r.shards| && !r.shards[j].consumer.Rest? ==> Probing(r) && ProbedShard(r) == j
  }

  ghost predicate ThreadsOk(r: Ring)
    requires Base(r)
  {
    && (forall t :: 0 <= t < |r.threads| ==> ThreadOk(r, t))
    && (forall t, j :: 0 <= t < |r.threads| && 0 <= j < |r.shards| ==> ProducerMatches(r, t, j))
  }

  ghost predicate ResultsOk(r: Ring) {
    forall t, k {:trigger ResultOk(r, t, k)} ::
      0 <= t < |r.threads| && 0 <= k < |r.threads[t].results| ==> ResultOk(r, t, k)
  }

  ghost predicate ClaimsOk(r: Ring) {
    forall j, p {:trigger ClaimOk(r, j, p)} :: 0 <= j < |r.shards| && 0 <= p < |r.shards[j].log| ==> ClaimOk(r, j, p)
  }

  ghost predicate LogsOk(r: Ring) {
    forall j :: 0 <= j < |r.shards| ==> InCallOrder(r.shards[j].log)
  }

  ghost predicate OutputOk(r: Ring) {
    && (forall a :: 0 <= a < |r.output| ==> r.output[a].shard < |r.shards|)
    && forall j :: 0 <= j < |r.shards| ==> FromShard(r.output, j) == ItemsOf(j, r.shards[j].out)
  }

  ghost predicate Inv(r: Ring) {
    Base(r) && ThreadsOk(r) && ResultsOk(r) && ClaimsOk(r) && LogsOk(r) && OutputOk(r) && ReaderOk(r)
  }

  lemma InitInv(n: nat, size: nat, choices: seq<set<nat>>)
    requires n > 0 && size >= 2
    ensures Inv(Init(n, size, choices))
    ensures var r := Init(n, size, choices);
            && |r.shards| == n && |r.threads| == |choices| && r.output == [] && r.reader.Idling?
            && (forall j :: 0 <= j < n ==> r.shards[j].size == size && r.shards[j].log == [])
            && forall t :: 0 <= t < |choices| ==>
              r.threads[t].choices == choices[t] && r.threads[t].args == [] && r.threads[t].attempt.Between?
  {
    P.InitInv(size, |choices|);
  }

  // ---------------------------------------------------------------- the invariant is kept

  /** A thread may start a call, or reject one, while it is at no shard. */
  lemma ThreadOnly(r: Ring, r': Ring, t: nat)
    requires Inv(r) && t < |r.threads| && |r'.threads| == |r.threads|
    requires r' == r.(threads := r.threads[t := r'.threads[t]])
    requires var th, th' := r.threads[t], r'.threads[t];
             && !th.attempt.Attempting? && !th'.attempt.Attempting? && ThreadOk(r', t)
             && th'.choices == th.choices && th.args <= th'.args
             && (th'.results == th.results || th'.results == th.results + [Rejected])
    ensures Inv(r')
  {
    forall u, j | 0 <= u < |r.threads| && 0 <= j < |r.shards| ensures ProducerMatches(r', u, j) {
      assert ProducerMatches(r, u, j);
    }
    forall u | 0 <= u < |r.threads| ensures ThreadOk(r', u) {
      assert ThreadOk(r, u);
    }
    forall u, k | 0 <= u < |r.threads| && 0 <= k < |r'.threads[u].results| ensures ResultOk(r', u, k) {
      if k < |r.threads[u].results| { assert ResultOk(r, u, k); }
    }
    forall j, p | 0 <= j < |r.shards| && 0 <= p < |r'.shards[j].log| ensures ClaimOk(r', j, p) {
      assert ClaimOk(r, j, p);
    }
  }

  lemma CallInv(r: Ring, t: nat, v: Any)
    requires Inv(r) && Enabled(r, Call(t, v))
    ensures Inv(Next(r, Call(t, v)))
  {
    assert ThreadOk(r, t);
    ThreadOnly(r, Next(r, Call(t, v)), t);
  }

  lemma GiveUpInv(r: Ring, t: nat)
    requires Inv(r) && Enabled(r, GiveUp(t))
    ensures Inv(Next(r, GiveUp(t)))
  {
    assert ThreadOk(r, t);
    ThreadOnly(r, Next(r, GiveUp(t)), t);
  }

  /** A step of thread `t` at shard `j` that adds no claim and no result keeps the claims' order. */
  lemma SameClaims(r: Ring, r': Ring, t: nat, j: nat)
    requires Inv(r) && t < |r.threads| && j < |r.shards|
    requires |r'.shards| == |r.shards| && |r'.threads| == |r.threads|
    requires r'.shards == r.shards[j := r'.shards[j]] && r'.shards[j].log == r.shards[j].log
    requires |r'.shards[j].producers| == |r.shards[j].producers| == |r.threads|
    requires forall u :: 0 <= u < |r.threads| && u != t ==> r'.shards[j].producers[u] == r.shards[j].producers[u]
    requires r'.threads == r.threads[t := r'.threads[t]]
    requires r'.threads[t] == r.threads[t].(attempt := r'.threads[t].attempt)
    requires r'.threads[t].attempt == r.threads[t].attempt || !r.threads[t].attempt.Attempting?
             || !HasClaimed(r.shards[j].producers[t])
    requires r.threads[t].attempt.Attempting? ==> r.threads[t].attempt.shard == j
    requires HasClaimed(r.shards[j].producers[t]) ==>
      HasClaimed(r'.shards[j].producers[t]) && r'.shards[j].producers[t].pos == r.shards[j].producers[t].pos
    ensures ResultsOk(r') && ClaimsOk(r') && LogsOk(r')
  {
    forall u, k | 0 <= u < |r.threads| && 0 <= k < |r'.threads[u].results| ensures ResultOk(r', u, k) {
      assert ResultOk(r, u, k);
    }
    forall i, p | 0 <= i < |r.shards| && 0 <= p < |r'.shards[i].log| ensures ClaimOk(r', i, p) {
      assert ClaimOk(r, i, p);
    }
  }

  lemma TryInv(r: Ring, t: nat, j: nat)
    requires Inv(r) && Enabled(r, Try(t, j))
    ensures Inv(Next(r, Try(t, j)))
  {
    var r' := Next(r, Try(t, j));
    var th := r.threads[t];
    BeginInv(r.shards[j], t, P.Entry(t, Current(th), th.args[Current(th)]));
    assert ThreadOk(r, t);
    forall u, i | 0 <= u < |r.threads| && 0 <= i < |r.shards| ensures ProducerMatches(r', u, i) {
      assert ProducerMatches(r, u, i);
    }
    forall u | 0 <= u < |r.threads| ensures ThreadOk(r', u) {
      assert ThreadOk(r, u);
    }
    SameClaims(r, r', t, j);
  }

  /** What an access of a producer leaves alone, and how the record of its claim changes. */
  lemma ProducerStepEffect(s: Shard, i: nat)
    requires P.Inv(s) && i < |s.producers| && InCall(s.producers[i])
    ensures var s', p := ProducerStep(s, i), s.producers[i];
            && s' == s.(slots := s'.slots, writePos := s'.writePos, producers := s'.producers, log := s'.log,
                        pending := s'.pending)
            && |s'.producers| == |s.producers|
            && (forall k :: 0 <= k < |s.producers| && k != i ==> s'.producers[k] == s.producers[k])
            && var p' := s'.producers[i];
               && p'.entry == p.entry && !p'.pc.Idle?
               && if HasClaimed(p') && !HasClaimed(p)
                  then s'.log == s.log + [p.entry] && p'.pos == |s.log|
                  else s'.log == s.log && (HasClaimed(p) ==> HasClaimed(p') && p'.pos == p.pos)
  {
    assert ProducerOk(s, i);
  }

  /** The current call of thread `t` claims the next position of shard `j`. */
  lemma NewClaim(r: Ring, r': Ring, t: nat, j: nat)
    requires Inv(r) && t < |r.threads| && j < |r.shards| && r.threads[t].attempt == Attempting(j)
    requires |r'.shards| == |r.shards| && r'.threads == r.threads
    requires r'.shards == r.shards[j := r'.shards[j]]
    requires |r'.shards[j].producers| == |r.shards[j].producers| == |r.threads|
    requires forall u :: 0 <= u < |r.threads| && u != t ==> r'.shards[j].producers[u] == r.shards[j].producers[u]
    requires r'.shards[j].log == r.shards[j].log + [r.shards[j].producers[t].entry]
    requires !HasClaimed(r.shards[j].producers[t])
    requires HasClaimed(r'.shards[j].producers[t]) && r'.shards[j].producers[t].pos == |r.shards[j].log|
    ensures ResultsOk(r') && ClaimsOk(r') && LogsOk(r')
  {
    var log' := r'.shards[j].log;
    assert ProducerMatches(r, t, j);
    forall u, k | 0 <= u < |r.threads| && 0 <= k < |r'.threads[u].results| ensures ResultOk(r', u, k) {
      assert ResultOk(r, u, k);
    }
    forall i, p | 0 <= i < |r.shards| && 0 <= p < |r'.shards[i].log| ensures ClaimOk(r', i, p) {
      if p < |r.shards[i].log| { assert ClaimOk(r, i, p); }
    }
    forall p, q | 0 <= p < q < |log'| && log'[p].thread == log'[q].thread
      ensures log'[p].call < log'[q].call
    {
      assert ClaimOk(r, j, p);
    }
  }

  lemma AccessInv(r: Ring, t: nat)
    requires Inv(r) && Enabled(r, Access(t))
    ensures Inv(Next(r, Access(t)))
  {
    var r' := Next(r, Access(t));
    var j := r.threads[t].attempt.shard;
    var s, s' := r.shards[j], r'.shards[j];
    ProducerStepInv(s, t);
    ProducerStepEffect(s, t);
    assert ProducerMatches(r, t, j);
    forall u, i | 0 <= u < |r.threads| && 0 <= i < |r.shards| ensures ProducerMatches(r', u, i) {
      assert ProducerMatches(r, u, i);
    }
    forall u | 0 <= u < |r.threads| ensures ThreadOk(r', u) {
      assert ThreadOk(r, u);
    }
    if s'.log == s.log {
      SameClaims(r, r', t, j);
    } else {
      NewClaim(r, r', t, j);
    }
  }

  /** An accepted call reports the position it claimed. */
  lemma NewResult(r: Ring, t: nat)
    requires Inv(r) && Enabled(r, Return(t)) && r.shards[r.threads[t].attempt.shard].producers[t].pc.Wrote?
    ensures ResultsOk(Next(r, Return(t))) && ClaimsOk(Next(r, Return(t))) && LogsOk(Next(r, Return(t)))
  {
    var r' := Next(r, Return(t));
    var j := r.threads[t].attempt.shard;
    assert ProducerMatches(r, t, j) && ThreadOk(r, t) && ProducerOk(r.shards[j], t);
    forall u, k | 0 <= u < |r.threads| && 0 <= k < |r'.threads[u].results| ensures ResultOk(r', u, k) {
      if k < |r.threads[u].results| { assert ResultOk(r, u, k); }
    }
    forall i, p | 0 <= i < |r.shards| && 0 <= p < |r'.shards[i].log| ensures ClaimOk(r', i, p) {
      assert ClaimOk(r, i, p);
    }
  }

  lemma ReturnInv(r: Ring, t: nat)
    requires Inv(r) && Enabled(r, Return(t))
    ensures Inv(Next(r, Return(t)))
  {
    var r' := Next(r, Return(t));
    var j := r.threads[t].attempt.shard;
    FinishInv(r.shards[j], t);
    assert ProducerMatches(r, t, j) && ThreadOk(r, t) && ProducerOk(r.shards[j], t);
    forall u, i | 0 <= u < |r.threads| && 0 <= i < |r.shards| ensures ProducerMatches(r', u, i) {
      assert ProducerMatches(r, u, i);
    }
    forall u | 0 <= u < |r.threads| ensures ThreadOk(r', u) {
      assert ThreadOk(r, u);
    }
    if r.shards[j].producers[t].pc.Wrote? {
      NewResult(r, t);
    } else {
      SameClaims(r, r', t, j);
    }
  }

  /** The claims and the threads do not depend on what the reader does. */
  lemma ReaderOnly(r: Ring, r': Ring)
    requires Inv(r) && r'.threads == r.threads && |r'.shards| == |r.shards|
    requires forall j :: 0 <= j < |r.shards| ==> P.Inv(r'.shards[j])
    requires forall j :: 0 <= j < |r.shards| ==>
      r'.shards[j].producers == r.shards[j].producers && r'.shards[j].log == r.shards[j].log
    ensures Base(r') && ThreadsOk(r') && ResultsOk(r') && ClaimsOk(r') && LogsOk(r')
  {
    forall u, i | 0 <= u < |r.threads| && 0 <= i < |r.shards| ensures ProducerMatches(r', u, i) {
      assert ProducerMatches(r, u, i);
    }
    forall u | 0 <= u < |r.threads| ensures ThreadOk(r', u) {
      assert ThreadOk(r, u);
    }
    forall u, k | 0 <= u < |r.threads| && 0 <= k < |r'.threads[u].results| ensures ResultOk(r', u, k) {
      assert ResultOk(r, u, k);
    }
    forall i, p | 0 <= i < |r.shards| && 0 <= p < |r'.shards[i].log| ensures ClaimOk(r', i, p) {
      assert ClaimOk(r, i, p);
    }
  }

  lemma ReaderStepInv(r: Ring, a: Step)
    requires Inv(r) && (a.StartRead? || a.EndRead?) && Enabled(r, a)
    ensures Inv(Next(r, a))
  {
    WrapStep(r.calls, 1);
    ReaderOnly(r, Next(r, a));
  }

  lemma ConsumeOutput(r: Ring)
    requires Inv(r) && Enabled(r, Consume)
    ensures OutputOk(Next(r, Consume))
  {
    var r' := Next(r, Consume);
    var j := ProbedShard(r);
    var s, s' := r.shards[j], r'.shards[j];
    assert ConsumerOk(s);
    forall i | 0 <= i < |r.shards| ensures FromShard(r'.output, i) == ItemsOf(i, r'.shards[i].out) {
      if s.consumer.Advance? {
        assert r'.output[..|r'.output| - 1] == r.output;
      }
    }
  }

  lemma ConsumeInv(r: Ring)
    requires Inv(r) && Enabled(r, Consume)
    ensures Inv(Next(r, Consume))
  {
    var r' := Next(r, Consume);
    ConsumerStepInv(r.shards[ProbedShard(r)]);
    ReaderOnly(r, r');
    ConsumeOutput(r);
  }

  lemma NextInv(r: Ring, a: Step)
    requires Inv(r) && Enabled(r, a)
    ensures Inv(Next(r, a))
  {
    match a
    case Call(t, v) => CallInv(r, t, v);
    case Try(t, j) => TryInv(r, t, j);
    case Access(t) => AccessInv(r, t);
    case Return(t) => ReturnInv(r, t);
    case GiveUp(t) => GiveUpInv(r, t);
    case StartRead(_) => ReaderStepInv(r, a);
    case EndRead => ReaderStepInv(r, a);
    case Consume => ConsumeInv(r);
  }
}
