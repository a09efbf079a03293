/** One shard used by one thread at a time, as a value: the slots with their sequence numbers
    and the two positions, all in wrapping 64-bit words. The plain bounded FIFO queue is its
    specification. */
module ShardModel {
  import opened Bits
  import opened Words
  import opened Values

  datatype Slot = Slot(seqNo: uint64, value: Any)

  datatype Shard = Shard(size: nat, slots: seq<Slot>, writePos: uint64, readPos: uint64)
  {
    ghost predicate WellFormed() {
      0 < size < TWO64 && |slots| == size
    }

    /** The shard after one write call, and what the call returns. */
    function Write(value: Any): (r: (Shard, bool))
      requires WellFormed()
      ensures r.0.WellFormed() && r.0.size == size
    {
      var idx := Place(writePos, size);
      if slots[idx].seqNo != writePos then
        (this, false)
      else
        (this.(slots := slots[idx := Slot(Wrap(writePos + 1), value)], writePos := Wrap(writePos + 1)), true)
    }

    /** The shard after one tryRead call, and what the call returns. */
    function TryRead(): (r: (Shard, Option<Any>))
      requires WellFormed()
      ensures r.0.WellFormed() && r.0.size == size
    {
      var idx := Place(readPos, size);
      if slots[idx].seqNo != Wrap(readPos + 1) then
        (this, None)
      else
        (this.(slots := slots[idx := Slot(Wrap(readPos + size), Nil)], readPos := Wrap(readPos + 1)),
         Some(slots[idx].value))
    }
  }

  /** A new shard: each slot is marked free for the position equal to its index. */
  function New(size: nat): (s: Shard)
    requires 0 < size < TWO64
    ensures s.WellFormed()
  {
    Shard(size, seq(size, i requires 0 <= i < size => Slot(i, Nil)), 0, 0)
  }

  // ---------------------------------------------------------------- the queue a shard stands for

  /** The slot contents for position `p` of the window that starts at `head`. */
  function Cell(p: nat, head: nat, queue: seq<Any>): Slot
    requires head <= p
  {
    if p - head < |queue| then Slot(Wrap(p + 1), queue[p - head]) else Slot(Wrap(p), Nil)
  }

  /** `s` holds `queue`, of which `head` items have been taken before. */
  ghost predicate Holds(s: Shard, head: nat, queue: seq<Any>) {
    && s.WellFormed()
    && |queue| <= s.size
    && s.readPos == Wrap(head)
    && s.writePos == Wrap(head + |queue|)
    && forall p: nat :: head <= p < head + s.size ==> s.slots[Place(p, s.size)] == Cell(p, head, queue)
  }

  lemma NewIsEmpty(size: nat)
    requires 0 < size < TWO64
    ensures Holds(New(size), 0, [])
  {
    var s := New(size);
    forall p: nat | p < size ensures s.slots[Place(p, size)] == Cell(p, 0, []) {
      WrapSmall(p);
    }
    WrapSmall(0);
  }

  lemma AlignedBelow2To64(p: nat, size: nat)
    requires p < TWO64 && size > 0
    ensures Aligned(p, size)
  {
  }

  lemma CellsAppend(p: nat, head: nat, queue: seq<Any>, v: Any)
    requires head <= p
    ensures var tail := head + |queue|;
            Cell(p, head, queue + [v]) == if p == tail then Slot(Wrap(tail + 1), v) else Cell(p, head, queue)
  {
  }

  lemma StoredSlot(s: Shard, head: nat, queue: seq<Any>, v: Any)
    requires Holds(s, head, queue) && |queue| < s.size && Aligned(head + |queue|, s.size)
    ensures var tail := head + |queue|;
            s.Write(v) == (s.(slots := s.slots[Place(tail, s.size) := Slot(Wrap(tail + 1), v)],
                              writePos := Wrap(tail + 1)), true)
  {
    var tail := head + |queue|;
    assert s.slots[Place(tail, s.size)] == Cell(tail, head, queue);
    WrapStep(tail, 1);
  }

  lemma WriteWithRoom(s: Shard, head: nat, queue: seq<Any>, v: Any)
    requires Holds(s, head, queue) && |queue| < s.size && Aligned(head + |queue|, s.size)
    ensures s.Write(v).1 && Holds(s.Write(v).0, head, queue + [v])
  {
    var tail := head + |queue|;
    StoredSlot(s, head, queue, v);
    var t := s.Write(v).0;
    forall p: nat | head <= p < head + s.size
      ensures t.slots[Place(p, s.size)] == Cell(p, head, queue + [v])
    {
      CellsAppend(p, head, queue, v);
      assert s.slots[Place(p, s.size)] == Cell(p, head, queue);
      if p < tail { PlaceDistinct(p, tail, s.size); }
      if tail < p { PlaceDistinct(tail, p, s.size); }
    }
  }

  lemma WriteWhenFull(s: Shard, head: nat, queue: seq<Any>, v: Any)
    requires Holds(s, head, queue) && |queue| == s.size >= 2 && Aligned(head + |queue|, s.size)
    ensures s.Write(v) == (s, false)
  {
    PlaceNextLap(head, s.size);
    assert s.slots[Place(head, s.size)] == Cell(head, head, queue);
    WrapDistinct(head + 1, head + s.size);
  }

  /** A write succeeds exactly when the queue has room, appends, and otherwise changes nothing. */
  lemma WriteAppends(s: Shard, head: nat, queue: seq<Any>, v: Any)
    requires Holds(s, head, queue) && s.size >= 2 && Aligned(head + |queue|, s.size)
    ensures s.Write(v).1 <==> |queue| < s.size
    ensures s.Write(v).1 ==> Holds(s.Write(v).0, head, queue + [v])
    ensures !s.Write(v).1 ==> s.Write(v).0 == s
  {
    if |queue| < s.size {
      WriteWithRoom(s, head, queue, v);
    } else {
      WriteWhenFull(s, head, queue, v);
    }
  }

  lemma ReadWhenEmpty(s: Shard, head: nat)
    requires Holds(s, head, []) && s.size >= 2 && Aligned(head, s.size)
    ensures s.TryRead() == (s, None)
  {
    assert s.slots[Place(head, s.size)] == Cell(head, head, []);
    WrapStep(head, 1);
    WrapDistinct(head, head + 1);
  }

  lemma CellsAdvance(p: nat, head: nat, queue: seq<Any>)
    requires queue != [] && head < p
    ensures Cell(p, head + 1, queue[1..]) == Cell(p, head, queue)
  {
  }

  lemma TakenSlot(s: Shard, head: nat, queue: seq<Any>)
    requires Holds(s, head, queue) && queue != [] && Aligned(head, s.size)
    ensures s.TryRead() == (s.(slots := s.slots[Place(head, s.size) := Slot(Wrap(head + s.size), Nil)],
                               readPos := Wrap(head + 1)), Some(queue[0]))
  {
    assert s.slots[Place(head, s.size)] == Cell(head, head, queue);
    WrapStep(head, 1);
    WrapStep(head, s.size);
  }

  lemma ReadFirst(s: Shard, head: nat, queue: seq<Any>)
    requires Holds(s, head, queue) && queue != [] && Aligned(head, s.size)
    ensures s.TryRead().1 == Some(queue[0]) && Holds(s.TryRead().0, head + 1, queue[1..])
  {
    TakenSlot(s, head, queue);
    var t := s.TryRead().0;
    forall p: nat | head + 1 <= p < head + 1 + s.size
      ensures t.slots[Place(p, s.size)] == Cell(p, head + 1, queue[1..])
    {
      if p == head + s.size {
        PlaceNextLap(head, s.size);
      } else {
        assert s.slots[Place(p, s.size)] == Cell(p, head, queue);
        CellsAdvance(p, head, queue);
        PlaceDistinct(head, p, s.size);
      }
    }
  }

  /** A read succeeds exactly when the queue is not empty, takes its first item, and otherwise
      changes nothing. */
  lemma ReadTakes(s: Shard, head: nat, queue: seq<Any>)
    requires Holds(s, head, queue) && s.size >= 2 && Aligned(head, s.size)
    ensures queue == [] ==> s.TryRead() == (s, None)
    ensures queue != [] ==> s.TryRead().1 == Some(queue[0]) && Holds(s.TryRead().0, head + 1, queue[1..])
  {
    if queue == [] {
      ReadWhenEmpty(s, head);
    } else {
      ReadFirst(s, head, queue);
    }
  }

  // ---------------------------------------------------------------- whole runs

  datatype Op = Put(value: Any) | Take

  datatype Response = Stored(ok: bool) | Taken(item: Option<Any>)

  function Step(s: Shard, op: Op): (r: (Shard, Response))
    requires s.WellFormed()
    ensures r.0.WellFormed() && r.0.size == s.size
  {
    match op
    case Put(v) => var (t, ok) := s.Write(v); (t, Stored(ok))
    case Take => var (t, item) := s.TryRead(); (t, Taken(item))
  }

  function Responses(s: Shard, ops: seq<Op>): seq<Response>
    requires s.WellFormed()
    decreases ops
  {
    if ops == [] then [] else
    var (t, r) := Step(s, ops[0]);
    [r] + Responses(t, ops[1..])
  }

  /** The shard after the operations. */
  function After(s: Shard, ops: seq<Op>): (t: Shard)
    requires s.WellFormed()
    ensures t.WellFormed() && t.size == s.size
    decreases ops
  {
    if ops == [] then s else After(Step(s, ops[0]).0, ops[1..])
  }

  /** The bounded FIFO queue. */
  function QueueStep(size: nat, queue: seq<Any>, op: Op): (seq<Any>, Response) {
    match op
    case Put(v) => if |queue| < size then (queue + [v], Stored(true)) else (queue, Stored(false))
    case Take => if queue == [] then (queue, Taken(None)) else (queue[1..], Taken(Some(queue[0])))
  }

  function QueueResponses(size: nat, queue: seq<Any>, ops: seq<Op>): seq<Response>
    decreases ops
  {
    if ops == [] then [] else
    var (q, r) := QueueStep(size, queue, ops[0]);
    [r] + QueueResponses(size, q, ops[1..])
  }

  /** No run of operations tells a new shard of this size from the queue. */
  ghost predicate RefinesQueue(size: nat)
    requires 0 < size < TWO64
  {
    forall ops :: Responses(New(size), ops) == QueueResponses(size, [], ops)
  }

  /** The shard works as its queue does for the next `budget` operations: it has two slots, and
      its size is a power of two or its positions stay below 2^64 that long. */
  ghost predicate Sound(s: Shard, head: nat, queue: seq<Any>, budget: nat) {
    && Holds(s, head, queue)
    && s.size >= 2
    && (AlwaysAligned(s.size) || head + |queue| + budget <= TWO64)
  }

  lemma SoundAligned(s: Shard, head: nat, queue: seq<Any>, budget: nat, p: nat)
    requires Sound(s, head, queue, budget + 1) && p <= head + |queue|
    ensures Aligned(p, s.size)
  {
    if !AlwaysAligned(s.size) {
      AlignedBelow2To64(p, s.size);
    }
  }

  /** A write on a sound shard stores exactly when the queue has room, and else changes nothing. */
  lemma SoundWrite(s: Shard, head: nat, queue: seq<Any>, v: Any, budget: nat)
    requires Sound(s, head, queue, budget + 1)
    ensures s.Write(v).1 <==> |queue| < s.size
    ensures !s.Write(v).1 ==> s.Write(v).0 == s
    ensures Sound(s.Write(v).0, head, if |queue| < s.size then queue + [v] else queue, budget)
  {
    SoundAligned(s, head, queue, budget, head + |queue|);
    WriteAppends(s, head, queue, v);
  }

  /** A read on a sound shard takes the first item of the queue, if there is one. */
  lemma SoundRead(s: Shard, head: nat, queue: seq<Any>, budget: nat)
    requires Sound(s, head, queue, budget + 1)
    ensures queue == [] ==> s.TryRead() == (s, None)
    ensures queue != [] ==> s.TryRead().1 == Some(queue[0])
    ensures queue != [] ==> Sound(s.TryRead().0, head + 1, queue[1..], budget + 1)
  {
    SoundAligned(s, head, queue, budget, head);
    ReadTakes(s, head, queue);
  }

  /** One operation answers as the queue does and leaves a sound shard. */
  lemma StepRefines(s: Shard, head: nat, queue: seq<Any>, op: Op, budget: nat) returns (newHead: nat)
    requires Sound(s, head, queue, budget + 1)
    ensures Step(s, op).1 == QueueStep(s.size, queue, op).1
    ensures Sound(Step(s, op).0, newHead, QueueStep(s.size, queue, op).0, budget)
  {
    newHead := head;
    match op
    case Put(v) =>
      SoundWrite(s, head, queue, v, budget);
    case Take =>
      SoundRead(s, head, queue, budget);
      newHead := if queue == [] then head else head + 1;
  }

  /** From a sound shard, a run answers as the queue does. */
  lemma {:induction false} RunRefines(s: Shard, head: nat, queue: seq<Any>, ops: seq<Op>)
    requires Sound(s, head, queue, |ops|)
    ensures Responses(s, ops) == QueueResponses(s.size, queue, ops)
    decreases ops
  {
    if ops == [] {
    } else {
      var newHead := StepRefines(s, head, queue, ops[0], |ops| - 1);
      RunRefines(Step(s, ops[0]).0, newHead, QueueStep(s.size, queue, ops[0]).0, ops[1..]);
    }
  }

  /** For every size of at least 2, the first 2^64 operations on a new shard answer as the queue does. */
  lemma RefinesQueueBelow2To64(size: nat, ops: seq<Op>)
    requires 2 <= size < TWO64 && |ops| <= TWO64
    ensures Responses(New(size), ops) == QueueResponses(size, [], ops)
  {
    NewIsEmpty(size);
    RunRefines(New(size), 0, [], ops);
  }

  /** A shard of one slot accepts a second item while it is full. */
  lemma OneSlotOverwrites(a: Any, b: Any)
    ensures Responses(New(1), [Put(a), Put(b)]) == [Stored(true), Stored(true)]
    ensures QueueResponses(1, [], [Put(a), Put(b)]) == [Stored(true), Stored(false)]
    ensures !RefinesQueue(1)
  {
    var ops := [Put(a), Put(b)];
    assert ops[1..] == [Put(b)] && [Put(b)][1..] == [];
    var s := New(1);
    var t := s.Write(a).0;
    assert Place(s.writePos, 1) == 0 && Place(t.writePos, 1) == 0;
    assert Responses(t, [Put(b)]) == [Stored(true)];
    assert QueueResponses(1, [] + [a], [Put(b)]) == [Stored(false)];
  }

  /** When 2^64 is not on slot 0, an empty shard at position 2^64 refuses a write: its position
      word is 0, but slot 0 is marked for a later position. */
  lemma MisalignedRefusal(s: Shard, v: Any)
    requires Holds(s, TWO64, []) && !Aligned(TWO64, s.size)
    ensures !s.Write(v).1
  {
    var size := s.size;
    var r := Place(TWO64, size);
    var p := TWO64 - r + size;
    PlaceMinus(TWO64, size);
    PlaceNextLap(TWO64 - r, size);
    assert s.slots[Place(p, size)] == Cell(p, TWO64, []);
    WrapStep(TWO64, size - r);
    WrapSmall(size - r);
  }

  /** `n` rounds of one write and one read, then a write. */
  function PingPong(n: nat): seq<Op> {
    if n == 0 then [Put(Nil)] else [Put(Nil), Take] + PingPong(n - 1)
  }

  lemma LastPutDiffers(s: Shard)
    requires Holds(s, TWO64, []) && !Aligned(TWO64, s.size)
    ensures Responses(s, PingPong(0)) != QueueResponses(s.size, [], PingPong(0))
  {
    MisalignedRefusal(s, Nil);
    assert Responses(s, PingPong(0))[0] == Stored(false);
    assert QueueResponses(s.size, [], PingPong(0))[0] == Stored(true);
  }

  lemma FirstWrite(s: Shard, head: nat)
    requires Holds(s, head, []) && s.size >= 2 && head < TWO64
    ensures Holds(s.Write(Nil).0, head, [Nil])
  {
    AlignedBelow2To64(head, s.size);
    WriteAppends(s, head, [], Nil);
    assert [] + [Nil] == [Nil];
  }

  lemma PingPongRound(s: Shard, head: nat) returns (u: Shard)
    requires Holds(s, head, []) && s.size >= 2 && head < TWO64
    ensures u == Step(Step(s, Put(Nil)).0, Take).0 && u.size == s.size && Holds(u, head + 1, [])
  {
    FirstWrite(s, head);
    AlignedBelow2To64(head, s.size);
    assert [Nil][1..] == [];
    ReadTakes(s.Write(Nil).0, head, [Nil]);
    u := Step(Step(s, Put(Nil)).0, Take).0;
  }

  lemma FirstStep(s: Shard, ops: seq<Op>)
    requires s.WellFormed() && ops != []
    ensures var (t, r) := Step(s, ops[0]); Responses(s, ops) == [r] + Responses(t, ops[1..])
  {
  }

  lemma WithoutTwo(a: Response, b: Response, rest: seq<Response>)
    ensures |[a] + ([b] + rest)| >= 2 && ([a] + ([b] + rest))[2..] == rest
  {
  }

  lemma TwoSteps(s: Shard, ops: seq<Op>)
    requires s.WellFormed() && |ops| >= 2
    ensures |Responses(s, ops)| >= 2
    ensures Responses(s, ops)[2..] == Responses(Step(Step(s, ops[0]).0, ops[1]).0, ops[1..][1..])
  {
    var (t, a) := Step(s, ops[0]);
    var (u, b) := Step(t, ops[1..][0]);
    FirstStep(s, ops);
    FirstStep(t, ops[1..]);
    WithoutTwo(a, b, Responses(u, ops[1..][1..]));
  }

  lemma QueueTwoSteps(size: nat, queue: seq<Any>, ops: seq<Op>)
    requires |ops| >= 2
    ensures |QueueResponses(size, queue, ops)| >= 2
    ensures QueueResponses(size, queue, ops)[2..]
         == QueueResponses(size, QueueStep(size, QueueStep(size, queue, ops[0]).0, ops[1]).0, ops[1..][1..])
  {
    var q := QueueStep(size, queue, ops[0]).0;
    var r := QueueStep(size, q, ops[1]);
    assert QueueResponses(size, q, ops[1..]) == [r.1] + QueueResponses(size, r.0, ops[1..][1..]);
  }

  lemma PingPongSteps(s: Shard, n: nat)
    requires s.WellFormed() && n > 0
    ensures var u := Step(Step(s, Put(Nil)).0, Take).0;
            |Responses(s, PingPong(n))| >= 2 && Responses(s, PingPong(n))[2..] == Responses(u, PingPong(n - 1))
  {
    var ops := PingPong(n);
    assert ops[0] == Put(Nil) && ops[1..] == [Take] + PingPong(n - 1) && ops[1..][1..] == PingPong(n - 1);
    TwoSteps(s, ops);
  }

  lemma QueuePingPongSteps(size: nat, n: nat)
    requires n > 0 && size >= 2
    ensures var rs := QueueResponses(size, [], PingPong(n));
            |rs| >= 2 && rs[2..] == QueueResponses(size, [], PingPong(n - 1))
  {
    var ops := PingPong(n);
    assert ops[0] == Put(Nil) && ops[1..] == [Take] + PingPong(n - 1) && ops[1..][1..] == PingPong(n - 1);
    QueueTwoSteps(size, [], ops);
    assert QueueStep(size, QueueStep(size, [], Put(Nil)).0, Take).0 == [];
  }

  ghost predicate Differs(s: Shard, n: nat)
    requires s.WellFormed()
  {
    Responses(s, PingPong(n)) != QueueResponses(s.size, [], PingPong(n))
  }

  lemma DiffersEarlier(s: Shard, u: Shard, n: nat)
    requires s.WellFormed() && s.size >= 2 && n > 0 && u == Step(Step(s, Put(Nil)).0, Take).0
    requires Differs(u, n - 1)
    ensures Differs(s, n)
  {
    PingPongSteps(s, n);
    QueuePingPongSteps(s.size, n);
  }

  /** At position 2^64 the last write of the rounds is answered differently. */
  ghost predicate LastDiffers(size: nat) {
    forall t: Shard :: t.size == size && Holds(t, TWO64, []) ==> Differs(t, 0)
  }

  lemma {:induction false} PingPongDiffers(s: Shard, head: nat, n: nat)
    requires Holds(s, head, []) && s.size >= 2 && head + n == TWO64 && LastDiffers(s.size)
    ensures Differs(s, n)
    decreases n
  {
    if n == 0 {
    } else {
      var u := PingPongRound(s, head);
      PingPongDiffers(u, head + 1, n - 1);
      DiffersEarlier(s, u, n);
    }
  }

  lemma AfterLastPut(s: Shard)
    requires s.WellFormed()
    ensures After(s, PingPong(0)) == s.Write(Nil).0
  {
    assert PingPong(0)[1..] == [];
  }

  lemma AfterPingPong(s: Shard, n: nat)
    requires s.WellFormed() && n > 0
    ensures After(s, PingPong(n)) == After(Step(Step(s, Put(Nil)).0, Take).0, PingPong(n - 1))
  {
    var ops, t := PingPong(n), Step(s, Put(Nil)).0;
    assert ops[0] == Put(Nil) && ops[1..] == [Take] + PingPong(n - 1) && ops[1..][1..] == PingPong(n - 1);
    assert After(t, ops[1..]) == After(Step(t, ops[1..][0]).0, ops[1..][1..]);
  }

  /** After n rounds and a write, one item is queued. */
  lemma {:induction false} PingPongHolds(s: Shard, head: nat, n: nat)
    requires Holds(s, head, []) && s.size >= 2 && head + n < TWO64
    ensures Holds(After(s, PingPong(n)), head + n, [Nil])
    decreases n
  {
    if n == 0 {
      FirstWrite(s, head);
      AfterLastPut(s);
    } else {
      var u := PingPongRound(s, head);
      PingPongHolds(u, head + 1, n - 1);
      AfterPingPong(s, n);
    }
  }

  /** A shard is a bounded FIFO queue over all runs, however long, exactly when its size is a
      power of two other than 1. */
  lemma RefinesQueueIff(size: nat)
    requires 0 < size < TWO64
    ensures RefinesQueue(size) <==> size >= 2 && IsPowerOfTwo(size)
  {
    AlwaysAlignedIff(size);
    NewIsEmpty(size);
    if size == 1 {
      OneSlotOverwrites(Nil, Nil);
    } else if AlwaysAligned(size) {
      forall ops ensures Responses(New(size), ops) == QueueResponses(size, [], ops) {
        RunRefines(New(size), 0, [], ops);
      }
    } else {
      forall t: Shard | t.size == size && Holds(t, TWO64, []) ensures Differs(t, 0) {
        LastPutDiffers(t);
      }
      PingPongDiffers(New(size), 0, TWO64);
    }
  }
}
