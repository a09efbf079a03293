/** The sharded ring used by one thread at a time, as a value, and the family of FIFO queues
    it stands for. */
module RingModel {
  import opened Bits
  import opened Words
  import opened Values
  import opened ShardModel

  datatype Ring = Ring(shards: seq<Shard>, readStart: uint64)
  {
    ghost predicate WellFormed() {
      && 0 < |shards| < TWO64
      && forall j :: 0 <= j < |shards| ==> shards[j].WellFormed()
    }
  }

  // ---------------------------------------------------------------- the reading loops

  /** tryRead on one shard until it refuses or `room` items are taken. */
  function DrainShard(s: Shard, room: int): (r: (Shard, seq<Any>))
    requires s.WellFormed()
    ensures r.0.WellFormed() && r.0.size == s.size
    decreases room
  {
    if room <= 0 then (s, []) else
    var (t, item) := s.TryRead();
    if item.None? then (t, []) else
    var (u, more) := DrainShard(t, room - 1);
    (u, [item.value] + more)
  }

  /** tryRead on the i-th shard after `start`. */
  function ProbeAt(shards: seq<Shard>, start: uint64, i: nat): (r: (seq<Shard>, Option<Any>))
    requires Ring(shards, start).WellFormed() && i < |shards|
    ensures Ring(r.0, start).WellFormed() && |r.0| == |shards|
  {
    var j := Cyclic(start, i, |shards|);
    var (t, item) := shards[j].TryRead();
    (shards[j := t], item)
  }

  /** The loop that drains the i-th shard after `start`. */
  function DrainAt(shards: seq<Shard>, start: uint64, i: nat, room: int): (r: (seq<Shard>, seq<Any>))
    requires Ring(shards, start).WellFormed() && i < |shards|
    ensures Ring(r.0, start).WellFormed() && |r.0| == |shards|
  {
    var j := Cyclic(start, i, |shards|);
    var (t, items) := DrainShard(shards[j], room);
    (shards[j := t], items)
  }

  /** The outer loop of a batch read from its i-th shard on. */
  function BatchFrom(shards: seq<Shard>, start: uint64, i: nat, room: int): (r: (seq<Shard>, seq<Any>))
    requires Ring(shards, start).WellFormed() && i <= |shards|
    ensures Ring(r.0, start).WellFormed() && |r.0| == |shards|
    decreases |shards| - i
  {
    if i == |shards| || room <= 0 then (shards, []) else
    var (next, items) := DrainAt(shards, start, i, room);
    var (rest, more) := BatchFrom(next, start, i + 1, room - |items|);
    (rest, items + more)
  }

  /** The loop of a single read from its i-th shard on. */
  function TryReadFrom(shards: seq<Shard>, start: uint64, i: nat): (r: (seq<Shard>, Option<Any>))
    requires Ring(shards, start).WellFormed() && i <= |shards|
    ensures Ring(r.0, start).WellFormed() && |r.0| == |shards|
    decreases |shards| - i
  {
    if i == |shards| then (shards, None) else
    var (next, item) := ProbeAt(shards, start, i);
    if item.Some? then (next, item) else TryReadFrom(next, start, i + 1)
  }

  lemma TryReadUnfolds(shards: seq<Shard>, start: uint64, i: nat)
    requires Ring(shards, start).WellFormed() && i < |shards|
    ensures var (next, item) := ProbeAt(shards, start, i);
            TryReadFrom(shards, start, i) == if item.Some? then (next, item) else TryReadFrom(next, start, i + 1)
  {
  }

  lemma TryReadEnds(shards: seq<Shard>, start: uint64, i: nat)
    requires Ring(shards, start).WellFormed() && i == |shards|
    ensures TryReadFrom(shards, start, i) == (shards, None)
  {
  }

  /** What a batch read of at most `most` items comes to that has taken the items `done` and is at its
      i-th shard, and, next, what draining that shard comes to. */
  function BatchOnward(done: seq<Any>, shards: seq<Shard>, start: uint64, i: nat, most: int): (seq<Shard>, seq<Any>)
    requires Ring(shards, start).WellFormed() && i <= |shards|
  {
    var (rest, more) := BatchFrom(shards, start, i, most - |done|);
    (rest, done + more)
  }

  function DrainOnward(done: seq<Any>, shards: seq<Shard>, start: uint64, i: nat, most: int)
    : (r: (seq<Shard>, seq<Any>))
    requires Ring(shards, start).WellFormed() && i < |shards|
    ensures Ring(r.0, start).WellFormed() && |r.0| == |shards|
  {
    var (next, items) := DrainAt(shards, start, i, most - |done|);
    (next, done + items)
  }

  lemma DrainUnfolds(done: seq<Any>, shards: seq<Shard>, start: uint64, i: nat, most: int)
    requires Ring(shards, start).WellFormed() && i < |shards| && |done| < most
    ensures var (next, item) := ProbeAt(shards, start, i);
            DrainOnward(done, shards, start, i, most)
              == if item.Some? then DrainOnward(done + [item.value], next, start, i, most) else (next, done)
  {
    var j := Cyclic(start, i, |shards|);
    var (t, item) := shards[j].TryRead();
    if item.Some? {
      var (u, more) := DrainShard(t, most - |done| - 1);
      assert done + ([item.value] + more) == (done + [item.value]) + more;
      assert shards[j := t][j := u] == shards[j := u];
    } else {
      assert done + [] == done;
    }
  }

  lemma DrainEnds(done: seq<Any>, shards: seq<Shard>, start: uint64, i: nat, most: int)
    requires Ring(shards, start).WellFormed() && i < |shards| && most <= |done|
    ensures DrainOnward(done, shards, start, i, most) == (shards, done)
  {
    var j := Cyclic(start, i, |shards|);
    assert done + [] == done && shards[j := shards[j]] == shards;
  }

  lemma BatchBegins(shards: seq<Shard>, start: uint64, most: int)
    requires Ring(shards, start).WellFormed()
    ensures BatchOnward([], shards, start, 0, most) == BatchFrom(shards, start, 0, most)
  {
    var more := BatchFrom(shards, start, 0, most).1;
    assert [] + more == more;
  }

  lemma BatchUnfolds(done: seq<Any>, shards: seq<Shard>, start: uint64, i: nat, most: int)
    requires Ring(shards, start).WellFormed() && i < |shards| && |done| < most
    ensures var (next, taken) := DrainOnward(done, shards, start, i, most);
            BatchOnward(done, shards, start, i, most) == BatchOnward(taken, next, start, i + 1, most)
  {
    var (next, items) := DrainAt(shards, start, i, most - |done|);
    var more := BatchFrom(next, start, i + 1, most - |done| - |items|).1;
    assert done + (items + more) == (done + items) + more;
  }

  lemma BatchEnds(done: seq<Any>, shards: seq<Shard>, start: uint64, i: nat, most: int)
    requires Ring(shards, start).WellFormed() && i <= |shards| && (i == |shards| || most <= |done|)
    ensures BatchOnward(done, shards, start, i, most) == (shards, done)
  {
    assert done + [] == done;
  }

  // ---------------------------------------------------------------- the queues

  ghost predicate RingHolds(shards: seq<Shard>, heads: seq<nat>, queues: seq<seq<Any>>, budget: nat) {
    && |shards| == |heads| == |queues|
    && forall j :: 0 <= j < |shards| ==> Sound(shards[j], heads[j], queues[j], budget)
  }

  /** The queues one after the other in cyclic order, from the i-th after `start`. */
  function Line(queues: seq<seq<Any>>, start: nat, i: nat): seq<Any>
    requires i <= |queues|
    decreases |queues| - i
  {
    if i == |queues| then [] else queues[Cyclic(start, i, |queues|)] + Line(queues, start, i + 1)
  }

  /** How many items a request for `room` items gets from `available` ones. */
  function Granted(room: int, available: nat): (k: nat)
    ensures k <= available
  {
    if room <= 0 then 0 else if room < available then room else available
  }

  lemma GrantNext(queue: seq<Any>, room: int)
    requires queue != [] && room > 0
    ensures var k, l := Granted(room, |queue|), Granted(room - 1, |queue[1..]|);
            && k == l + 1
            && queue[..k] == [queue[0]] + queue[1..][..l] && queue[k..] == queue[1..][l..]
  {
  }

  lemma DrainStep(s: Shard, room: int)
    requires s.WellFormed() && room > 0
    ensures var (t, item) := s.TryRead();
            if item.None? then DrainShard(s, room) == (t, [])
            else var (u, more) := DrainShard(t, room - 1); DrainShard(s, room) == (u, [item.value] + more)
  {
  }

  /** Draining takes the longest prefix of the queue that fits and leaves the rest. */
  ghost predicate DrainedPrefix(after: Shard, items: seq<Any>, head: nat, queue: seq<Any>, room: int, budget: nat) {
    var k := Granted(room, |queue|);
    items == queue[..k] && Sound(after, head + k, queue[k..], budget)
  }

  lemma NothingDrained(s: Shard, head: nat, queue: seq<Any>, room: int, budget: nat)
    requires Sound(s, head, queue, budget) && Granted(room, |queue|) == 0
    ensures DrainedPrefix(s, [], head, queue, room, budget)
  {
    assert queue[..0] == [] && queue[0..] == queue;
  }

  lemma DrainedNext(after: Shard, more: seq<Any>, head: nat, queue: seq<Any>, room: int, budget: nat)
    requires queue != [] && room > 0 && DrainedPrefix(after, more, head + 1, queue[1..], room - 1, budget)
    ensures DrainedPrefix(after, [queue[0]] + more, head, queue, room, budget)
  {
    GrantNext(queue, room);
  }

  lemma {:induction false} DrainTakesPrefix(s: Shard, head: nat, queue: seq<Any>, room: int, budget: nat)
    requires Sound(s, head, queue, budget + 1)
    ensures var (after, items) := DrainShard(s, room); DrainedPrefix(after, items, head, queue, room, budget + 1)
    decreases room
  {
    if room <= 0 {
      NothingDrained(s, head, queue, room, budget + 1);
    } else {
      SoundRead(s, head, queue, budget);
      DrainStep(s, room);
      if queue == [] {
        NothingDrained(s, head, queue, room, budget + 1);
      } else {
        var t := s.TryRead().0;
        DrainTakesPrefix(t, head + 1, queue[1..], room - 1, budget);
        var (after, more) := DrainShard(t, room - 1);
        DrainedNext(after, more, head, queue, room, budget + 1);
      }
    }
  }

  /** A queue already passed does not occur later in the line. */
  lemma {:induction false} LineFrame(queues: seq<seq<Any>>, start: nat, k: nat, i: nat, q: seq<Any>)
    requires k < i <= |queues|
    ensures Line(queues[Cyclic(start, k, |queues|) := q], start, i) == Line(queues, start, i)
    decreases |queues| - i
  {
    if i == |queues| {
    } else {
      CyclicDistinct(start, k, i, |queues|);
      LineFrame(queues, start, k, i + 1, q);
    }
  }

  /** Granting from a concatenation is granting from its first part and then from the second. */
  lemma GrantSplit(a: seq<Any>, b: seq<Any>, room: int)
    requires room > 0
    ensures var g, h := Granted(room, |a|), Granted(room - Granted(room, |a|), |b|);
            a[..g] + b[..h] == (a + b)[..Granted(room, |a + b|)] && a[g..] + b[h..] == (a + b)[Granted(room, |a + b|)..]
  {
  }

  /** Each queue of `after` is what a queue of `before` keeps when items are taken from its front. */
  ghost predicate Suffixes(after: seq<seq<Any>>, newHeads: seq<nat>, before: seq<seq<Any>>, heads: seq<nat>) {
    && |after| == |newHeads| == |before| == |heads|
    && forall j :: 0 <= j < |before| ==>
      heads[j] <= newHeads[j] <= heads[j] + |before[j]| && after[j] == before[j][newHeads[j] - heads[j]..]
  }

  lemma SuffixesStep(after: seq<seq<Any>>, newHeads: seq<nat>, before: seq<seq<Any>>, heads: seq<nat>, j: nat, g: nat)
    requires |heads| == |before| && j < |before| && g <= |before[j]|
    requires Suffixes(after, newHeads, before[j := before[j][g..]], heads[j := heads[j] + g])
    ensures Suffixes(after, newHeads, before, heads)
  {
    var b, h := before[j := before[j][g..]], heads[j := heads[j] + g];
    forall k | 0 <= k < |before|
      ensures heads[k] <= newHeads[k] <= heads[k] + |before[k]| && after[k] == before[k][newHeads[k] - heads[k]..]
    {
      assert h[k] <= newHeads[k] <= h[k] + |b[k]| && after[k] == b[k][newHeads[k] - h[k]..];
    }
  }

  /** Draining one shard of the ring. */
  lemma DrainOne(
    shards: seq<Shard>, heads: seq<nat>, queues: seq<seq<Any>>, start: uint64, i: nat, room: int, budget: nat)
    requires Ring(shards, start).WellFormed() && i < |shards|
    requires RingHolds(shards, heads, queues, budget + 1)
    ensures var j := Cyclic(start, i, |shards|);
            var g := Granted(room, |queues[j]|);
            && DrainAt(shards, start, i, room).1 == queues[j][..g]
            && RingHolds(DrainAt(shards, start, i, room).0, heads[j := heads[j] + g],
                         queues[j := queues[j][g..]], budget + 1)
  {
    var j := Cyclic(start, i, |shards|);
    DrainTakesPrefix(shards[j], heads[j], queues[j], room, budget);
  }

  /** What a batch read from its i-th shard on does to the queues: it takes the longest fitting
      prefix of their cyclic line, and the rest of the line stays. */
  ghost predicate TakesPrefix(
    items: seq<Any>, after: seq<seq<Any>>, before: seq<seq<Any>>, start: nat, i: nat, room: int)
  {
    && |after| == |before| && i <= |before|
    && var line := Line(before, start, i);
       items == line[..Granted(room, |line|)] && Line(after, start, i) == line[Granted(room, |line|)..]
  }

  ghost predicate SameBefore(after: seq<seq<Any>>, before: seq<seq<Any>>, start: nat, i: nat) {
    && |after| == |before|
    && forall k :: 0 <= k < i < |before| + 1 ==>
      after[Cyclic(start, k, |before|)] == before[Cyclic(start, k, |before|)]
  }

  lemma TakesPrefixStep(
    items: seq<Any>, after: seq<seq<Any>>, before: seq<seq<Any>>, start: nat, i: nat, room: int, j: nat, g: nat)
    requires room > 0 && i < |before| && j == Cyclic(start, i, |before|) && g == Granted(room, |before[j]|)
    requires TakesPrefix(items, after, before[j := before[j][g..]], start, i + 1, room - g)
    requires SameBefore(after, before[j := before[j][g..]], start, i + 1)
    ensures TakesPrefix(before[j][..g] + items, after, before, start, i, room)
    ensures SameBefore(after, before, start, i)
  {
    LineFrame(before, start, i, i + 1, before[j][g..]);
    GrantSplit(before[j], Line(before, start, i + 1), room);
    assert after[Cyclic(start, i, |before|)] == before[j][g..];
    forall k | 0 <= k < i
      ensures after[Cyclic(start, k, |before|)] == before[Cyclic(start, k, |before|)]
    {
      CyclicDistinct(start, k, i, |before|);
    }
  }

  lemma BatchStep(shards: seq<Shard>, start: uint64, i: nat, room: int)
    requires Ring(shards, start).WellFormed() && i < |shards| && room > 0
    ensures var (next, items) := DrainAt(shards, start, i, room);
            var (rest, more) := BatchFrom(next, start, i + 1, room - |items|);
            BatchFrom(shards, start, i, room) == (rest, items + more)
  {
  }

  lemma BatchStops(shards: seq<Shard>, start: uint64, i: nat, room: int)
    requires Ring(shards, start).WellFormed() && i <= |shards| && (i == |shards| || room <= 0)
    ensures BatchFrom(shards, start, i, room) == (shards, [])
  {
  }

  /** The queue that a read with room starts with loses its first item, if it has one. */
  ghost predicate FirstLoses(
    newHeads: seq<nat>, heads: seq<nat>, queues: seq<seq<Any>>, start: nat, i: nat, room: int)
  {
    |newHeads| == |heads| == |queues| &&
    (i < |queues| && room > 0 && queues[Cyclic(start, i, |queues|)] != [] ==>
       newHeads[Cyclic(start, i, |queues|)] > heads[Cyclic(start, i, |queues|)])
  }

  lemma FirstLosesNext(
    newQueues: seq<seq<Any>>, newHeads: seq<nat>, heads: seq<nat>, queues: seq<seq<Any>>, start: nat, i: nat,
    room: int, j: nat, g: nat)
    requires i < |queues| == |heads| && room > 0 && j == Cyclic(start, i, |queues|) && g == Granted(room, |queues[j]|)
    requires Suffixes(newQueues, newHeads, queues[j := queues[j][g..]], heads[j := heads[j] + g])
    ensures FirstLoses(newHeads, heads, queues, start, i, room)
  {
    assert heads[j := heads[j] + g][j] <= newHeads[j];
  }

  /** What a batch read from its i-th shard on leaves: shards that hold the new queues, which are suffixes
      of the old ones; and, as result, the longest fitting prefix of the cyclic line. */
  ghost predicate BatchLeaves(
    after: seq<Shard>, items: seq<Any>, heads: seq<nat>, queues: seq<seq<Any>>, start: nat, i: nat, room: int,
    budget: nat, newHeads: seq<nat>, newQueues: seq<seq<Any>>)
  {
    && RingHolds(after, newHeads, newQueues, budget)
    && Suffixes(newQueues, newHeads, queues, heads)
    && TakesPrefix(items, newQueues, queues, start, i, room)
    && SameBefore(newQueues, queues, start, i)
  }

  lemma NothingTaken(heads: seq<nat>, queues: seq<seq<Any>>, start: nat, i: nat, room: int)
    requires i <= |queues| == |heads| && (i == |queues| || room <= 0)
    ensures Suffixes(queues, heads, queues, heads) && TakesPrefix([], queues, queues, start, i, room)
    ensures SameBefore(queues, queues, start, i)
  {
  }

  /** A batch read returns the longest fitting prefix of the cyclic line of queues; every queue
      keeps a suffix, and together they are the rest of the line. */
  lemma {:induction false} BatchTakesLinePrefix(
    shards: seq<Shard>, heads: seq<nat>, queues: seq<seq<Any>>, start: uint64, i: nat, room: int, budget: nat)
    returns (newHeads: seq<nat>, newQueues: seq<seq<Any>>)
    requires Ring(shards, start).WellFormed() && i <= |shards|
    requires RingHolds(shards, heads, queues, budget + 1)
    ensures var (after, items) := BatchFrom(shards, start, i, room);
            BatchLeaves(after, items, heads, queues, start, i, room, budget + 1, newHeads, newQueues)
    ensures FirstLoses(newHeads, heads, queues, start, i, room)
    decreases |shards| - i
  {
    if i == |shards| || room <= 0 {
      newHeads, newQueues := heads, queues;
      BatchStops(shards, start, i, room);
      NothingTaken(heads, queues, start, i, room);
    } else {
      var j := Cyclic(start, i, |shards|);
      var g := Granted(room, |queues[j]|);
      DrainOne(shards, heads, queues, start, i, room, budget);
      BatchStep(shards, start, i, room);
      var next := DrainAt(shards, start, i, room).0;
      newHeads, newQueues := BatchTakesLinePrefix(
        next, heads[j := heads[j] + g], queues[j := queues[j][g..]], start, i + 1, room - g, budget);
      FirstLosesNext(newQueues, newHeads, heads, queues, start, i, room, j, g);
      SuffixesStep(newQueues, newHeads, queues, heads, j, g);
      TakesPrefixStep(BatchFrom(next, start, i + 1, room - g).1, newQueues, queues, start, i, room, j, g);
    }
  }

  /** A single read and a batch read of one item, both from the i-th shard on, do the same. */
  ghost predicate SameAsBatchOfOne(shards: seq<Shard>, start: uint64, i: nat)
    requires Ring(shards, start).WellFormed() && i <= |shards|
  {
    var (after, item) := TryReadFrom(shards, start, i);
    BatchFrom(shards, start, i, 1) == (after, match item case None => [] case Some(v) => [v])
  }

  lemma DrainOfOne(s: Shard)
    requires s.WellFormed()
    ensures var (t, item) := s.TryRead();
            DrainShard(s, 1) == (t, match item case None => [] case Some(v) => [v])
  {
    DrainStep(s, 1);
    var (t, item) := s.TryRead();
    assert DrainShard(t, 0) == (t, []);
    if item.Some? {
      assert [item.value] + [] == [item.value];
    }
  }

  lemma SameWhenRead(shards: seq<Shard>, start: uint64, i: nat)
    requires Ring(shards, start).WellFormed() && i < |shards|
    requires shards[Cyclic(start, i, |shards|)].TryRead().1.Some?
    ensures SameAsBatchOfOne(shards, start, i)
  {
    var j := Cyclic(start, i, |shards|);
    var (t, item) := shards[j].TryRead();
    TryReadUnfolds(shards, start, i);
    DrainOfOne(shards[j]);
    BatchStep(shards, start, i, 1);
    BatchStops(shards[j := t], start, i + 1, 0);
    assert [item.value] + [] == [item.value];
  }

  lemma SameWhenEmpty(shards: seq<Shard>, start: uint64, i: nat)
    requires Ring(shards, start).WellFormed() && i < |shards|
    requires shards[Cyclic(start, i, |shards|)].TryRead().1.None?
    requires SameAsBatchOfOne(shards[Cyclic(start, i, |shards|) := shards[Cyclic(start, i, |shards|)].TryRead().0],
                              start, i + 1)
    ensures SameAsBatchOfOne(shards, start, i)
  {
    var j := Cyclic(start, i, |shards|);
    TryReadUnfolds(shards, start, i);
    DrainOfOne(shards[j]);
    BatchStep(shards, start, i, 1);
    var more := BatchFrom(shards[j := shards[j].TryRead().0], start, i + 1, 1).1;
    assert [] + more == more;
  }

  /** A single read is a batch read of one item. */
  lemma {:induction false} TryReadIsBatchOfOne(shards: seq<Shard>, start: uint64, i: nat)
    requires Ring(shards, start).WellFormed() && i <= |shards|
    ensures SameAsBatchOfOne(shards, start, i)
    decreases |shards| - i
  {
    if i == |shards| {
      TryReadEnds(shards, start, i);
      BatchStops(shards, start, i, 1);
    } else {
      var j := Cyclic(start, i, |shards|);
      if shards[j].TryRead().1.Some? {
        SameWhenRead(shards, start, i);
      } else {
        TryReadIsBatchOfOne(shards[j := shards[j].TryRead().0], start, i + 1);
        SameWhenEmpty(shards, start, i);
      }
    }
  }

  lemma {:induction false} LineCovers(queues: seq<seq<Any>>, start: nat, i: nat, k: nat)
    requires i <= k < |queues| && Line(queues, start, i) == []
    ensures queues[Cyclic(start, k, |queues|)] == []
    decreases k - i
  {
    if i == k {
    } else {
      LineCovers(queues, start, i + 1, k);
    }
  }

  lemma {:induction false} EmptyLine(queues: seq<seq<Any>>, start: nat, i: nat)
    requires i <= |queues|
    ensures (forall j :: 0 <= j < |queues| ==> queues[j] == []) ==> Line(queues, start, i) == []
    decreases |queues| - i
  {
    if i == |queues| {
    } else {
      EmptyLine(queues, start, i + 1);
    }
  }

  /** The line is empty exactly when every queue is: a short batch means an empty ring. */
  lemma {:induction false} LineEmptyIff(queues: seq<seq<Any>>, start: nat)
    requires |queues| > 0
    ensures Line(queues, start, 0) == [] <==> forall j :: 0 <= j < |queues| ==> queues[j] == []
  {
    if Line(queues, start, 0) == [] {
      forall j | 0 <= j < |queues| ensures queues[j] == [] {
        var i := CyclicReaches(start, j, |queues|);
        LineCovers(queues, start, 0, i);
      }
    } else {
      EmptyLine(queues, start, 0);
    }
  }

  // ---------------------------------------------------------------- the ring's operations

  function Write(r: Ring, producer: uint64, value: Any): (w: (Ring, bool))
    requires r.WellFormed()
    ensures w.0.WellFormed() && |w.0.shards| == |r.shards|
  {
    var j := Place(producer, |r.shards|);
    var (t, ok) := r.shards[j].Write(value);
    (r.(shards := r.shards[j := t]), ok)
  }

  function TryRead(r: Ring): (Ring, Option<Any>)
    requires r.WellFormed()
  {
    var (shards, item) := TryReadFrom(r.shards, r.readStart, 0);
    (Ring(shards, Wrap(r.readStart + 1)), item)
  }

  function ReadBatch(r: Ring, maxItems: int): (Ring, seq<Any>)
    requires r.WellFormed()
  {
    var (shards, items) := BatchFrom(r.shards, r.readStart, 0, maxItems);
    (Ring(shards, Wrap(r.readStart + 1)), items)
  }

  /** The number of items `Len` counts for a shard. */
  function LenTerm(s: Shard): nat {
    if s.writePos > s.readPos then s.writePos - s.readPos else 0
  }

  /** The sum of the first `k` terms, in 64-bit words. */
  function LenUpTo(shards: seq<Shard>, k: nat): uint64
    requires k <= |shards|
  {
    if k == 0 then 0 else Wrap(LenUpTo(shards, k - 1) + LenTerm(shards[k - 1]))
  }

  /** A producer's items go to the queue of one shard, at its end, when that queue has room; no
      other queue changes. */
  lemma WriteAppendsToAffinityQueue(
    r: Ring, heads: seq<nat>, queues: seq<seq<Any>>, producer: uint64, v: Any, budget: nat)
    requires r.WellFormed() && RingHolds(r.shards, heads, queues, budget + 1)
    ensures var j := Place(producer, |queues|);
            var room := |queues[j]| < r.shards[j].size;
            && Write(r, producer, v).1 == room
            && RingHolds(Write(r, producer, v).0.shards, heads,
                         if room then queues[j := queues[j] + [v]] else queues, budget)
  {
    var j := Place(producer, |queues|);
    SoundWrite(r.shards[j], heads[j], queues[j], v, budget);
  }

  lemma PrefixAndRest(
    items: seq<Any>, after: seq<seq<Any>>, before: seq<seq<Any>>, start: nat, i: nat, room: int)
    requires TakesPrefix(items, after, before, start, i, room)
    ensures items + Line(after, start, i) == Line(before, start, i)
    ensures |items| == Granted(room, |Line(before, start, i)|)
    ensures |items| < room ==> Line(after, start, i) == []
  {
  }

  /** A batch read of at most `maxItems` returns the first items of the line of queues that starts
      at the rotating shard, as many as there are up to `maxItems`; what stays in the queues is the
      rest of that line, so a short batch leaves every queue empty. */
  lemma ReadBatchIsLinePrefix(r: Ring, heads: seq<nat>, queues: seq<seq<Any>>, maxItems: int, budget: nat)
    returns (newHeads: seq<nat>, newQueues: seq<seq<Any>>)
    requires r.WellFormed() && RingHolds(r.shards, heads, queues, budget + 1)
    ensures RingHolds(ReadBatch(r, maxItems).0.shards, newHeads, newQueues, budget + 1)
    ensures Suffixes(newQueues, newHeads, queues, heads)
    ensures FirstLoses(newHeads, heads, queues, r.readStart, 0, maxItems)
    ensures ReadBatch(r, maxItems).1 + Line(newQueues, r.readStart, 0) == Line(queues, r.readStart, 0)
    ensures |ReadBatch(r, maxItems).1| == Granted(maxItems, |Line(queues, r.readStart, 0)|)
    ensures |ReadBatch(r, maxItems).1| < maxItems ==> forall j :: 0 <= j < |newQueues| ==> newQueues[j] == []
  {
    newHeads, newQueues := BatchTakesLinePrefix(r.shards, heads, queues, r.readStart, 0, maxItems, budget);
    PrefixAndRest(ReadBatch(r, maxItems).1, newQueues, queues, r.readStart, 0, maxItems);
    LineEmptyIff(newQueues, r.readStart);
  }

  /** A single read returns the first item of the same line, and nothing only when every queue is
      empty. */
  lemma TryReadIsLineHead(r: Ring, heads: seq<nat>, queues: seq<seq<Any>>, budget: nat)
    returns (newHeads: seq<nat>, newQueues: seq<seq<Any>>)
    requires r.WellFormed() && RingHolds(r.shards, heads, queues, budget + 1)
    ensures RingHolds(TryRead(r).0.shards, newHeads, newQueues, budget + 1)
    ensures Suffixes(newQueues, newHeads, queues, heads)
    ensures FirstLoses(newHeads, heads, queues, r.readStart, 0, 1)
    ensures match TryRead(r).1
            case Some(v) => [v] + Line(newQueues, r.readStart, 0) == Line(queues, r.readStart, 0)
            case None => newQueues == queues && forall j :: 0 <= j < |queues| ==> queues[j] == []
  {
    newHeads, newQueues := ReadBatchIsLinePrefix(r, heads, queues, 1, budget);
    TryReadIsBatchOfOne(r.shards, r.readStart, 0);
    if TryRead(r).1.None? {
      LineEmptyIff(queues, r.readStart);
      assert newQueues == queues;
    }
  }

  // ---------------------------------------------------------------- several reads

  /** A request to read: one item, or a batch. */
  datatype Request = One | Batch(most: int)

  function Room(q: Request): int {
    match q case One => 1 case Batch(most) => most
  }

  function Read(r: Ring, q: Request): (a: (Ring, seq<Any>))
    requires r.WellFormed()
    ensures a.0.WellFormed() && |a.0.shards| == |r.shards|
  {
    match q
    case One => var (s, item) := TryRead(r); (s, match item case None => [] case Some(v) => [v])
    case Batch(most) => ReadBatch(r, most)
  }

  /** The ring after some reads. */
  function AfterReads(r: Ring, qs: seq<Request>): (s: Ring)
    requires r.WellFormed()
    ensures s.WellFormed() && |s.shards| == |r.shards|
    decreases |qs|
  {
    if qs == [] then r else Read(AfterReads(r, qs[..|qs| - 1]), qs[|qs| - 1]).0
  }

  /** What a read does to the queues when its line starts at `start`. */
  ghost predicate Serves(
    items: seq<Any>, newHeads: seq<nat>, newQueues: seq<seq<Any>>, heads: seq<nat>, queues: seq<seq<Any>>,
    start: nat, room: int)
  {
    && Suffixes(newQueues, newHeads, queues, heads)
    && items + Line(newQueues, start, 0) == Line(queues, start, 0)
    && |items| == Granted(room, |Line(queues, start, 0)|)
    && FirstLoses(newHeads, heads, queues, start, 0, room)
  }

  lemma ReadServes(r: Ring, heads: seq<nat>, queues: seq<seq<Any>>, q: Request, budget: nat)
    returns (newHeads: seq<nat>, newQueues: seq<seq<Any>>)
    requires r.WellFormed() && RingHolds(r.shards, heads, queues, budget + 1)
    ensures RingHolds(Read(r, q).0.shards, newHeads, newQueues, budget + 1)
    ensures Serves(Read(r, q).1, newHeads, newQueues, heads, queues, r.readStart, Room(q))
  {
    match q
    case Batch(most) => newHeads, newQueues := ReadBatchIsLinePrefix(r, heads, queues, most, budget);
    case One =>
      newHeads, newQueues := TryReadIsLineHead(r, heads, queues, budget);
      LineEmptyIff(queues, r.readStart);
  }

  /** Two starts at the same shard begin the same line. */
  lemma {:induction false} LineFromShard(queues: seq<seq<Any>>, a: nat, b: nat, i: nat)
    requires i <= |queues| && (queues == [] || Place(a, |queues|) == Place(b, |queues|))
    ensures Line(queues, a, i) == Line(queues, b, i)
    decreases |queues| - i
  {
    if i == |queues| {
    } else {
      PlaceSum(a, i, |queues|);
      PlaceSum(b, i, |queues|);
      LineFromShard(queues, a, b, i + 1);
    }
  }

  /** The start moves on by one shard with every read, also when its word overflows. */
  lemma {:induction false} StartRotates(r: Ring, qs: seq<Request>)
    requires r.WellFormed()
    ensures AfterReads(r, qs).readStart == Wrap(r.readStart + |qs|)
    decreases |qs|
  {
    if qs == [] {
      WrapSmall(r.readStart);
    } else {
      StartRotates(r, qs[..|qs| - 1]);
      WrapStep(r.readStart + (|qs| - 1), 1);
    }
  }

  /** After k reads, the next one takes from the line that starts k shards further on. */
  lemma NextReadServes(r: Ring, qs: seq<Request>, heads: seq<nat>, queues: seq<seq<Any>>, q: Request, budget: nat)
    returns (newHeads: seq<nat>, newQueues: seq<seq<Any>>)
    requires r.WellFormed() && IsPowerOfTwo(|r.shards|)
    requires RingHolds(AfterReads(r, qs).shards, heads, queues, budget + 1)
    ensures RingHolds(AfterReads(r, qs + [q]).shards, newHeads, newQueues, budget + 1)
    ensures Serves(Read(AfterReads(r, qs), q).1, newHeads, newQueues, heads, queues,
                   Cyclic(r.readStart, |qs|, |r.shards|), Room(q))
  {
    var s, n := AfterReads(r, qs), |r.shards|;
    newHeads, newQueues := ReadServes(s, heads, queues, q, budget);
    StartRotates(r, qs);
    AlwaysAlignedIff(n);
    assert Aligned(r.readStart + |qs|, n);
    PlaceIdempotent(r.readStart + |qs|, n);
    LineFromShard(queues, s.readStart, Cyclic(r.readStart, |qs|, n), 0);
    LineFromShard(newQueues, s.readStart, Cyclic(r.readStart, |qs|, n), 0);
    assert (qs + [q])[..|qs|] == qs;
  }

  ghost predicate AllAsk(qs: seq<Request>) {
    forall k :: 0 <= k < |qs| ==> Room(qs[k]) >= 1
  }

  ghost predicate Lost(newHeads: seq<nat>, heads: seq<nat>, queues: seq<seq<Any>>, j: nat) {
    j < |queues| == |heads| == |newHeads| && (queues[j] != [] ==> newHeads[j] > heads[j])
  }

  /** The first `k` queues in cyclic order have lost their first item, if they had one. */
  ghost predicate AllLost(newHeads: seq<nat>, heads: seq<nat>, queues: seq<seq<Any>>, start: nat, k: nat) {
    forall i :: 0 <= i < k && i < |queues| ==> Lost(newHeads, heads, queues, Cyclic(start, i, |queues|))
  }

  lemma SuffixesJoin(
    a: seq<seq<Any>>, ha: seq<nat>, b: seq<seq<Any>>, hb: seq<nat>, c: seq<seq<Any>>, hc: seq<nat>)
    requires Suffixes(b, hb, a, ha) && Suffixes(c, hc, b, hb)
    ensures Suffixes(c, hc, a, ha)
  {
    forall j | 0 <= j < |a|
      ensures ha[j] <= hc[j] <= ha[j] + |a[j]| && c[j] == a[j][hc[j] - ha[j]..]
    {
      assert hb[j] <= hc[j] <= hb[j] + |b[j]| && c[j] == b[j][hc[j] - hb[j]..];
      assert ha[j] <= hb[j] <= ha[j] + |a[j]| && b[j] == a[j][hb[j] - ha[j]..];
    }
  }

  lemma StartLost(
    heads: seq<nat>, queues: seq<seq<Any>>, midHeads: seq<nat>, midQueues: seq<seq<Any>>, newHeads: seq<nat>,
    newQueues: seq<seq<Any>>, j: nat)
    requires Suffixes(midQueues, midHeads, queues, heads) && Suffixes(newQueues, newHeads, midQueues, midHeads)
    requires j < |queues| && (midQueues[j] != [] ==> newHeads[j] > midHeads[j])
    ensures Lost(newHeads, heads, queues, j)
  {
    assert midHeads[j] <= newHeads[j];
    assert heads[j] <= midHeads[j] && midQueues[j] == queues[j][midHeads[j] - heads[j]..];
  }

  lemma AllLostNext(
    k: nat, heads: seq<nat>, queues: seq<seq<Any>>, midHeads: seq<nat>, newHeads: seq<nat>, start: nat)
    requires AllLost(midHeads, heads, queues, start, k) && |queues| > 0
    requires |heads| == |midHeads| == |newHeads| == |queues|
    requires forall j :: 0 <= j < |queues| ==> midHeads[j] <= newHeads[j]
    requires Lost(newHeads, heads, queues, Cyclic(start, k, |queues|))
    ensures AllLost(newHeads, heads, queues, start, k + 1)
  {
    forall i | 0 <= i < k + 1 && i < |queues| ensures Lost(newHeads, heads, queues, Cyclic(start, i, |queues|)) {
      if i < k {
        assert Lost(midHeads, heads, queues, Cyclic(start, i, |queues|));
      }
    }
  }

  /** What some reads leave: shards that hold suffixes of the queues, and without its first item each
      queue at which one of the reads started. */
  ghost predicate ReadsLeave(
    after: seq<Shard>, heads: seq<nat>, queues: seq<seq<Any>>, start: nat, k: nat, budget: nat,
    newHeads: seq<nat>, newQueues: seq<seq<Any>>)
  {
    && RingHolds(after, newHeads, newQueues, budget)
    && Suffixes(newQueues, newHeads, queues, heads)
    && AllLost(newHeads, heads, queues, start, k)
  }

  lemma {:induction false} ReadsServe(r: Ring, heads: seq<nat>, queues: seq<seq<Any>>, qs: seq<Request>, budget: nat)
    returns (newHeads: seq<nat>, newQueues: seq<seq<Any>>)
    requires r.WellFormed() && IsPowerOfTwo(|r.shards|) && RingHolds(r.shards, heads, queues, budget + 1)
    requires AllAsk(qs)
    ensures ReadsLeave(AfterReads(r, qs).shards, heads, queues, r.readStart, |qs|, budget + 1, newHeads, newQueues)
    decreases |qs|
  {
    if qs == [] {
      newHeads, newQueues := heads, queues;
    } else {
      var k, n := |qs| - 1, |r.shards|;
      var init, q := qs[..k], qs[k];
      var midHeads, midQueues := ReadsServe(r, heads, queues, init, budget);
      newHeads, newQueues := NextReadServes(r, init, midHeads, midQueues, q, budget);
      assert init + [q] == qs;
      SuffixesJoin(queues, heads, midQueues, midHeads, newQueues, newHeads);
      PlaceIdempotent(r.readStart + k, n);
      StartLost(heads, queues, midHeads, midQueues, newHeads, newQueues, Cyclic(r.readStart, k, n));
      AllLostNext(k, heads, queues, midHeads, newHeads, r.readStart);
    }
  }

  /** No shard starves: as many reads in a row as there are shards, single or batches that ask for at
      least one item, take from every queue that was not empty before them. */
  lemma ReadsReachEveryShard(r: Ring, heads: seq<nat>, queues: seq<seq<Any>>, qs: seq<Request>, budget: nat)
    returns (newHeads: seq<nat>, newQueues: seq<seq<Any>>)
    requires r.WellFormed() && IsPowerOfTwo(|r.shards|) && RingHolds(r.shards, heads, queues, budget + 1)
    requires AllAsk(qs) && |qs| >= |r.shards|
    ensures RingHolds(AfterReads(r, qs).shards, newHeads, newQueues, budget + 1)
    ensures Suffixes(newQueues, newHeads, queues, heads)
    ensures forall j :: 0 <= j < |queues| && queues[j] != [] ==> newHeads[j] > heads[j]
  {
    newHeads, newQueues := ReadsServe(r, heads, queues, qs, budget);
    forall j | 0 <= j < |queues| && queues[j] != [] ensures newHeads[j] > heads[j] {
      var k := CyclicReaches(r.readStart, j, |queues|);
      assert Lost(newHeads, heads, queues, Cyclic(r.readStart, k, |queues|));
    }
  }

  // ---------------------------------------------------------------- the length

  /** The live positions of a shard reach a multiple of 2^64. */
  ghost predicate Straddles(head: nat, queue: seq<Any>) {
    Wrap(head) + |queue| >= TWO64
  }

  /** `Len` counts a shard's items exactly, unless its live positions straddle a multiple of 2^64;
      then it counts none of them. */
  lemma LenTermExact(s: Shard, head: nat, queue: seq<Any>)
    requires Holds(s, head, queue)
    ensures LenTerm(s) == if Straddles(head, queue) then 0 else |queue|
  {
    WrapStep(head, |queue|);
  }

  function Total(queues: seq<seq<Any>>, k: nat): nat
    requires k <= |queues|
  {
    if k == 0 then 0 else Total(queues, k - 1) + |queues[k - 1]|
  }

  ghost predicate NoneStraddles(heads: seq<nat>, queues: seq<seq<Any>>, k: nat)
    requires k <= |heads| == |queues|
  {
    forall j :: 0 <= j < k ==> !Straddles(heads[j], queues[j])
  }

  lemma LenStep(len: uint64, total: nat, items: nat, all: bool, counted: bool)
    requires all ==> len == Wrap(total)
    requires total < TWO64 ==> len <= total && (len == total <==> all)
    requires !counted ==> items > 0
    ensures var next := Wrap(len + if counted then items else 0);
            && (all && counted ==> next == Wrap(total + items))
            && (total + items < TWO64 ==> next <= total + items && (next == total + items <==> all && counted))
  {
    WrapStep(total, items);
    if total + items < TWO64 {
      WrapSmall(len);
      WrapSmall(len + items);
    }
  }

  /** `Len` never counts too many of fewer than 2^64 items, and counts all of them exactly when no
      shard straddles; without a bound on the items, it is then their number as a 64-bit word. */
  lemma {:induction false} LenIsTotal(shards: seq<Shard>, heads: seq<nat>, queues: seq<seq<Any>>, k: nat)
    requires |shards| == |heads| == |queues| && k <= |shards|
    requires forall j :: 0 <= j < |shards| ==> Holds(shards[j], heads[j], queues[j])
    ensures NoneStraddles(heads, queues, k) ==> LenUpTo(shards, k) == Wrap(Total(queues, k))
    ensures Total(queues, k) < TWO64 ==>
      && LenUpTo(shards, k) <= Total(queues, k)
      && (LenUpTo(shards, k) == Total(queues, k) <==> NoneStraddles(heads, queues, k))
    decreases k
  {
    if k == 0 {
    } else {
      LenIsTotal(shards, heads, queues, k - 1);
      LenTermExact(shards[k - 1], heads[k - 1], queues[k - 1]);
      LenStep(LenUpTo(shards, k - 1), Total(queues, k - 1), |queues[k - 1]|, NoneStraddles(heads, queues, k - 1),
              !Straddles(heads[k - 1], queues[k - 1]));
      assert NoneStraddles(heads, queues, k)
        <==> NoneStraddles(heads, queues, k - 1) && !Straddles(heads[k - 1], queues[k - 1]);
    }
  }

  /** A straddling shard is reached: after 2^64 - 1 writes and as many reads, taken in turns, one
      more write leaves an item that `Len` does not count, whatever the size. */
  lemma LenMissesAnItem(size: nat)
    requires 2 <= size < TWO64
    ensures var s := After(New(size), PingPong(TWO64 - 1));
            Holds(s, TWO64 - 1, [Nil]) && Straddles(TWO64 - 1, [Nil]) && LenTerm(s) == 0
  {
    NewIsEmpty(size);
    PingPongHolds(New(size), 0, TWO64 - 1);
    LenTermExact(After(New(size), PingPong(TWO64 - 1)), TWO64 - 1, [Nil]);
    WrapSmall(TWO64 - 1);
  }
}
