/** One shard under any number of producers and one consumer, as a machine whose steps are the
    single loads, stores and compare-and-swaps of the program. Positions and sequence numbers are
    unbounded counts here; memory is sequentially consistent. */
module ShardProtocol {
  import opened Words
  import opened Values

  datatype Slot = Slot(seqNo: nat, value: Any)

  /** The claim of a position: which call, of which thread, claimed it, and its value. */
  datatype Entry = Entry(thread: nat, call: nat, value: Any)

  /** What a producer does next: its place in the write call, or how the call ended. */
  datatype PC = Idle | LoadPos | LoadSeq | Swap | StoreValue | StoreSeq | Wrote | Refused

  /** A producer in a write call: the position it loaded, and, for the record, `writePos` when the
      call began, its failed swaps, and its accesses to shared memory so far. */
  datatype Producer = Producer(pc: PC, entry: Entry, pos: nat, began: nat, retries: nat, accesses: nat)

  datatype Consumer =
    | Rest
    | CheckSeq(pos: nat)
    | ReadValue(pos: nat)
    | Clear(pos: nat, value: Any)
    | Release(pos: nat, value: Any)
    | Advance(pos: nat, value: Any)

  /** The shared memory, the threads, and the record of the run: the claims in claim order, the
      claimed positions not yet published with the producer that owns each, and the values read. */
  datatype Shard = Shard(
    size: nat, slots: seq<Slot>, writePos: nat, readPos: nat,
    producers: seq<Producer>, consumer: Consumer,
    log: seq<Entry>, pending: map<nat, nat>, out: seq<Any>)
  {
    /** How many positions the consumer has released; `readPos` lags this by one step. */
    function Released(): nat {
      if consumer.Advance? then readPos + 1 else readPos
    }

    /** The value at `p` has been stored and its sequence number announces it. */
    predicate Published(p: nat) {
      p < writePos && p !in pending
    }

    predicate InWindow(p: nat) {
      Released() <= p < Released() + size
    }

    function At(p: nat): Slot
      requires size > 0 && |slots| == size
    {
      slots[Place(p, size)]
    }

    predicate Claiming(i: nat)
      requires i < |producers|
    {
      producers[i].pc.StoreValue? || producers[i].pc.StoreSeq?
    }
  }

  function Init(size: nat, threads: nat): Shard {
    Shard(size, seq(size, i requires 0 <= i < size => Slot(i, Nil)), 0, 0,
          seq(threads, i => Producer(Idle, Entry(0, 0, Nil), 0, 0, 0, 0)), Rest, [], map[], [])
  }

  // ---------------------------------------------------------------- steps

  predicate InCall(p: Producer) {
    !p.pc.Idle? && !p.pc.Wrote? && !p.pc.Refused?
  }

  /** A producer calls write. */
  function Begin(s: Shard, i: nat, entry: Entry): Shard
    requires i < |s.producers|
  {
    s.(producers := s.producers[i := Producer(LoadPos, entry, 0, s.writePos, 0, 0)])
  }

  /** A producer takes note of the result of its call. */
  function Finish(s: Shard, i: nat): Shard
    requires i < |s.producers|
  {
    s.(producers := s.producers[i := s.producers[i].(pc := Idle)])
  }

  /** One access to shared memory of a producer in a write call. */
  function ProducerStep(s: Shard, i: nat): Shard
    requires i < |s.producers| && InCall(s.producers[i])
    requires s.size > 0 && |s.slots| == s.size
  {
    var p := s.producers[i].(accesses := s.producers[i].accesses + 1);
    var idx := Place(p.pos, s.size);
    match p.pc
    case LoadPos =>
      s.(producers := s.producers[i := p.(pc := LoadSeq, pos := s.writePos)])
    case LoadSeq =>
      s.(producers := s.producers[i := p.(pc := if s.slots[idx].seqNo == p.pos then Swap else Refused)])
    case Swap =>
      if s.writePos == p.pos then
        s.(writePos := p.pos + 1, log := s.log + [p.entry], pending := s.pending[p.pos := i],
           producers := s.producers[i := p.(pc := StoreValue)])
      else
        s.(producers := s.producers[i := p.(pc := LoadPos, retries := p.retries + 1)])
    case StoreValue =>
      s.(slots := s.slots[idx := s.slots[idx].(value := p.entry.value)],
         producers := s.producers[i := p.(pc := StoreSeq)])
    case StoreSeq =>
      s.(slots := s.slots[idx := s.slots[idx].(seqNo := p.pos + 1)], pending := s.pending - {p.pos},
         producers := s.producers[i := p.(pc := Wrote)])
  }

  /** One access to shared memory of the consumer in a tryRead call. */
  function ConsumerStep(s: Shard): Shard
    requires s.size > 0 && |s.slots| == s.size
  {
    match s.consumer
    case Rest =>
      s.(consumer := CheckSeq(s.readPos))
    case CheckSeq(pos) =>
      s.(consumer := if s.At(pos).seqNo == pos + 1 then ReadValue(pos) else Rest)
    case ReadValue(pos) =>
      s.(consumer := Clear(pos, s.At(pos).value))
    case Clear(pos, v) =>
      s.(slots := s.slots[Place(pos, s.size) := s.At(pos).(value := Nil)], consumer := Release(pos, v))
    case Release(pos, v) =>
      s.(slots := s.slots[Place(pos, s.size) := s.At(pos).(seqNo := pos + s.size)], consumer := Advance(pos, v))
    case Advance(pos, v) =>
      s.(readPos := pos + 1, consumer := Rest, out := s.out + [v])
  }

  // ---------------------------------------------------------------- the invariant

  /** What slot Place(p) must hold while `p` is in the window. */
  ghost predicate SlotOk(s: Shard, p: nat)
    requires s.size > 0 && |s.slots| == s.size && |s.log| == s.writePos
  {
    var sl := s.At(p);
    && sl.seqNo == (if s.Published(p) then p + 1 else p)
    && (p >= s.writePos ==> sl.value == Nil)
    && (s.Published(p) ==> sl.value == if s.consumer.Release? && p == s.readPos then Nil else s.log[p].value)
    && (p in s.pending && p < s.writePos ==>
          && s.pending[p] < |s.producers|
          && sl.value == if s.producers[s.pending[p]].pc.StoreSeq? then s.log[p].value else Nil)
  }

  /** Producer `i` is the one that claimed its position and has not published it. */
  ghost predicate Owns(s: Shard, i: nat)
    requires i < |s.producers| && |s.log| == s.writePos
  {
    var p := s.producers[i];
    p.pos in s.pending && s.pending[p.pos] == i && p.pos < s.writePos && s.log[p.pos] == p.entry
    && p.began + p.retries <= p.pos
  }

  ghost predicate ProducerOk(s: Shard, i: nat)
    requires i < |s.producers| && |s.log| == s.writePos
  {
    var p := s.producers[i];
    match p.pc
    case Idle => true
    case LoadPos => p.began + p.retries <= s.writePos && p.accesses == 3 * p.retries
    case LoadSeq => p.began + p.retries <= p.pos <= s.writePos && p.accesses == 3 * p.retries + 1
    case Swap => p.began + p.retries <= p.pos <= s.writePos && p.pos < s.Released() + s.size
                 && p.accesses == 3 * p.retries + 2
    case StoreValue => Owns(s, i) && p.accesses == 3 * p.retries + 3
    case StoreSeq => Owns(s, i) && p.accesses == 3 * p.retries + 4
    case Wrote => p.began + p.retries <= p.pos && s.Published(p.pos) && s.log[p.pos] == p.entry
                  && p.accesses == 3 * p.retries + 5
    case Refused => p.began + p.retries <= p.pos <= s.writePos && p.accesses == 3 * p.retries + 2
  }

  ghost predicate PendingOk(s: Shard, p: nat)
    requires p in s.pending
  {
    && s.Released() <= p < s.writePos
    && s.pending[p] < |s.producers|
    && s.Claiming(s.pending[p])
    && s.producers[s.pending[p]].pos == p
  }

  ghost predicate ConsumerOk(s: Shard)
    requires |s.log| == s.writePos
  {
    && s.readPos <= s.writePos
    && |s.out| == s.readPos
    && (forall k :: 0 <= k < s.readPos ==> s.out[k] == s.log[k].value)
    && match s.consumer
       case Rest => true
       case CheckSeq(pos) => pos == s.readPos
       case ReadValue(pos) => pos == s.readPos && s.Published(pos)
       case Clear(pos, v) => pos == s.readPos && s.Published(pos) && v == s.log[pos].value
       case Release(pos, v) => pos == s.readPos && s.Published(pos) && v == s.log[pos].value
       case Advance(pos, v) => pos == s.readPos && s.Published(pos) && v == s.log[pos].value
  }

  ghost predicate Shape(s: Shard) {
    && s.size >= 2 && |s.slots| == s.size && |s.log| == s.writePos
    && s.Released() <= s.writePos <= s.Released() + s.size
  }

  ghost predicate Inv(s: Shard) {
    && Shape(s)
    && ConsumerOk(s)
    && (forall p :: p in s.pending ==> PendingOk(s, p))
    && (forall i :: 0 <= i < |s.producers| ==> ProducerOk(s, i))
    && (forall p: nat :: s.InWindow(p) ==> SlotOk(s, p))
  }

  lemma InitInv(size: nat, threads: nat)
    requires size >= 2
    ensures Inv(Init(size, threads))
    ensures var s := Init(size, threads);
            && s.size == size && |s.producers| == threads && s.log == [] && s.out == [] && s.consumer.Rest?
            && forall i :: 0 <= i < threads ==> s.producers[i].pc.Idle?
  {
    var s := Init(size, threads);
    forall p: nat | s.InWindow(p) ensures SlotOk(s, p) {
    }
  }

  /** A step of producer `i` that changes only its own record, outside a claim, keeps the rest. */
  lemma KeepSlots(s: Shard, t: Shard, i: nat)
    requires Inv(s) && i < |s.producers| && !s.Claiming(i)
    requires |t.producers| == |s.producers| && t == s.(producers := s.producers[i := t.producers[i]])
    requires !t.Claiming(i) && ProducerOk(t, i)
    ensures Inv(t)
  {
    forall p | p in t.pending ensures PendingOk(t, p) {
      assert PendingOk(s, p);
    }
    forall k | 0 <= k < |t.producers| ensures ProducerOk(t, k) {
      assert ProducerOk(s, k);
    }
    forall p: nat | t.InWindow(p) ensures SlotOk(t, p) {
      assert s.InWindow(p) && SlotOk(s, p);
      if p in s.pending { assert PendingOk(s, p); }
    }
  }

  lemma BeginInv(s: Shard, i: nat, entry: Entry)
    requires Inv(s) && i < |s.producers| && s.producers[i].pc.Idle?
    ensures Inv(Begin(s, i, entry))
  {
    KeepSlots(s, Begin(s, i, entry), i);
  }

  lemma FinishInv(s: Shard, i: nat)
    requires Inv(s) && i < |s.producers| && (s.producers[i].pc.Wrote? || s.producers[i].pc.Refused?)
    ensures Inv(Finish(s, i))
  {
    KeepSlots(s, Finish(s, i), i);
  }

  lemma ClaimInv(s: Shard, i: nat)
    requires Inv(s) && i < |s.producers| && s.producers[i].pc.Swap? && s.writePos == s.producers[i].pos
    ensures Inv(ProducerStep(s, i))
  {
    var t, pos := ProducerStep(s, i), s.writePos;
    assert ProducerOk(s, i);
    assert pos !in s.pending;
    forall p | p in t.pending ensures PendingOk(t, p) {
      if p != pos { assert PendingOk(s, p); }
    }
    forall k | 0 <= k < |t.producers| ensures ProducerOk(t, k) {
      assert ProducerOk(s, k);
    }
    forall p: nat | t.InWindow(p) ensures SlotOk(t, p) {
      assert s.InWindow(p) && SlotOk(s, p);
      if p in s.pending { assert PendingOk(s, p); }
    }
  }

  /** The places of two positions of the window differ. */
  lemma WindowPlaces(s: Shard, p: nat, q: nat)
    requires s.size > 0 && s.InWindow(p) && s.InWindow(q) && p != q
    ensures Place(p, s.size) != Place(q, s.size)
  {
    if p < q { PlaceDistinct(p, q, s.size); } else { PlaceDistinct(q, p, s.size); }
  }

  lemma StoreValueInv(s: Shard, i: nat)
    requires Inv(s) && i < |s.producers| && s.producers[i].pc.StoreValue?
    ensures Inv(ProducerStep(s, i))
  {
    var t, pos := ProducerStep(s, i), s.producers[i].pos;
    assert ProducerOk(s, i) && PendingOk(s, pos) && s.InWindow(pos);
    forall p | p in t.pending ensures PendingOk(t, p) {
      assert PendingOk(s, p);
    }
    forall k | 0 <= k < |t.producers| ensures ProducerOk(t, k) {
      assert ProducerOk(s, k);
    }
    forall p: nat | t.InWindow(p) ensures SlotOk(t, p) {
      assert s.InWindow(p) && SlotOk(s, p);
      if p in s.pending { assert PendingOk(s, p); }
      if p != pos { WindowPlaces(s, p, pos); }
    }
  }

  lemma StoreSeqInv(s: Shard, i: nat)
    requires Inv(s) && i < |s.producers| && s.producers[i].pc.StoreSeq?
    ensures Inv(ProducerStep(s, i))
  {
    var t, pos := ProducerStep(s, i), s.producers[i].pos;
    assert ProducerOk(s, i) && PendingOk(s, pos) && s.InWindow(pos);
    forall p | p in t.pending ensures PendingOk(t, p) {
      assert PendingOk(s, p);
    }
    forall k | 0 <= k < |t.producers| ensures ProducerOk(t, k) {
      assert ProducerOk(s, k);
    }
    forall p: nat | t.InWindow(p) ensures SlotOk(t, p) {
      assert s.InWindow(p) && SlotOk(s, p);
      if p in s.pending { assert PendingOk(s, p); }
      if p != pos { WindowPlaces(s, p, pos); }
    }
  }

  /** Every position before a window has a later one on the same slot inside it. */
  lemma {:induction false} LapInWindow(p: nat, low: nat, size: nat) returns (q: nat)
    requires size > 0 && p < low
    ensures low <= q < low + size && Place(q, size) == Place(p, size)
    decreases low - p
  {
    PlaceNextLap(p, size);
    if p + size >= low {
      q := p + size;
    } else {
      q := LapInWindow(p + size, low, size);
    }
  }

  /** A write call is refused at its sequence load exactly when the shard is full at the newest
      position, or another call has published at the position it loaded; otherwise that position is
      free, or being filled, in the window. */
  lemma RefusedIff(s: Shard, i: nat)
    requires Inv(s) && i < |s.producers| && s.producers[i].pc.LoadSeq?
    ensures var pos := s.producers[i].pos;
            ProducerStep(s, i).producers[i].pc.Refused? <==>
              (pos == s.writePos == s.Released() + s.size) || s.Published(pos)
    ensures !ProducerStep(s, i).producers[i].pc.Refused? ==> s.producers[i].pos < s.Released() + s.size
  {
    var pos := s.producers[i].pos;
    assert ProducerOk(s, i);
    if s.InWindow(pos) {
      assert SlotOk(s, pos);
    } else if pos == s.Released() + s.size {
      PlaceNextLap(s.Released(), s.size);
      assert SlotOk(s, s.Released());
    } else {
      var q := LapInWindow(pos, s.Released(), s.size);
      assert SlotOk(s, q);
    }
  }

  /** Why a write call is refused at this point: at the position it loaded, the newest, the shard is
      full; or another call has published there, so that `writePos` has moved on. */
  ghost predicate Refusing(s: Shard, i: nat)
    requires i < |s.producers|
  {
    var pos := s.producers[i].pos;
    && s.producers[i].pc.LoadSeq?
    && ((pos == s.writePos == s.Released() + s.size) || s.Published(pos))
  }

  /** Of all the accesses of a call only a sequence load refuses it, and that exactly when the call has
      reason to be refused; a call that loses its swap loads the position again. */
  lemma AccessOutcome(s: Shard, i: nat)
    requires Inv(s) && i < |s.producers| && InCall(s.producers[i])
    ensures ProducerStep(s, i).producers[i].pc.Refused? <==> Refusing(s, i)
    ensures s.producers[i].pc.Swap? && s.writePos != s.producers[i].pos ==>
      ProducerStep(s, i) == s.(producers := ProducerStep(s, i).producers) &&
      ProducerStep(s, i).producers[i].pc.LoadPos?
  {
    assert ProducerOk(s, i);
    if s.producers[i].pc.LoadSeq? {
      RefusedIff(s, i);
    }
  }

  /** Every access of a producer keeps the invariant. */
  lemma ProducerStepInv(s: Shard, i: nat)
    requires Inv(s) && i < |s.producers| && InCall(s.producers[i])
    ensures Inv(ProducerStep(s, i))
  {
    assert ProducerOk(s, i);
    match s.producers[i].pc
    case StoreValue => StoreValueInv(s, i);
    case StoreSeq => StoreSeqInv(s, i);
    case LoadPos => KeepSlots(s, ProducerStep(s, i), i);
    case LoadSeq =>
      RefusedIff(s, i);
      KeepSlots(s, ProducerStep(s, i), i);
    case Swap =>
      if s.writePos == s.producers[i].pos {
        ClaimInv(s, i);
      } else {
        KeepSlots(s, ProducerStep(s, i), i);
      }
  }

  // ---------------------------------------------------------------- the consumer

  /** A step of the consumer that touches no slot keeps the rest. */
  lemma KeepConsumer(s: Shard, t: Shard)
    requires Inv(s) && t == s.(consumer := t.consumer, readPos := t.readPos, out := t.out)
    requires t.Released() == s.Released() && ConsumerOk(t)
    requires t.consumer.Release? == s.consumer.Release? == false
    ensures Inv(t)
  {
    forall p | p in t.pending ensures PendingOk(t, p) {
      assert PendingOk(s, p);
    }
    forall k | 0 <= k < |t.producers| ensures ProducerOk(t, k) {
      assert ProducerOk(s, k);
    }
    forall p: nat | t.InWindow(p) ensures SlotOk(t, p) {
      assert s.InWindow(p) && SlotOk(s, p);
    }
  }

  lemma ClearInv(s: Shard)
    requires Inv(s) && s.consumer.Clear?
    ensures Inv(ConsumerStep(s))
  {
    var t, pos := ConsumerStep(s), s.readPos;
    assert s.InWindow(pos);
    forall p | p in t.pending ensures PendingOk(t, p) {
      assert PendingOk(s, p);
    }
    forall k | 0 <= k < |t.producers| ensures ProducerOk(t, k) {
      assert ProducerOk(s, k);
    }
    forall p: nat | t.InWindow(p) ensures SlotOk(t, p) {
      assert s.InWindow(p) && SlotOk(s, p);
      if p != pos { WindowPlaces(s, p, pos); }
    }
  }

  lemma ReleaseInv(s: Shard)
    requires Inv(s) && s.consumer.Release?
    ensures Inv(ConsumerStep(s))
  {
    var t, pos := ConsumerStep(s), s.readPos;
    assert s.InWindow(pos) && SlotOk(s, pos);
    forall p | p in t.pending ensures PendingOk(t, p) {
      assert PendingOk(s, p);
    }
    forall k | 0 <= k < |t.producers| ensures ProducerOk(t, k) {
      assert ProducerOk(s, k);
    }
    forall p: nat | t.InWindow(p) ensures SlotOk(t, p) {
      if p == pos + s.size {
        PlaceNextLap(pos, s.size);
        if p in s.pending { assert false; }
      } else {
        assert s.InWindow(p) && SlotOk(s, p);
        WindowPlaces(s, p, pos);
      }
    }
  }

  /** The consumer's check succeeds exactly when its position is published. */
  lemma LoadedHead(s: Shard)
    requires Inv(s) && s.consumer.CheckSeq?
    ensures s.At(s.readPos).seqNo == s.readPos + 1 <==> s.Published(s.readPos)
    ensures ConsumerStep(s).consumer == if s.Published(s.readPos) then ReadValue(s.readPos) else Rest
  {
    assert s.InWindow(s.readPos) && SlotOk(s, s.readPos);
  }

  /** Every access of the consumer keeps the invariant. */
  lemma ConsumerStepInv(s: Shard)
    requires Inv(s)
    ensures Inv(ConsumerStep(s))
  {
    match s.consumer
    case Clear(_, _) => ClearInv(s);
    case Release(_, _) => ReleaseInv(s);
    case CheckSeq(pos) =>
      LoadedHead(s);
      KeepConsumer(s, ConsumerStep(s));
    case ReadValue(pos) =>
      assert s.InWindow(pos) && SlotOk(s, pos);
      KeepConsumer(s, ConsumerStep(s));
    case Rest =>
      KeepConsumer(s, ConsumerStep(s));
    case Advance(_, _) =>
      KeepConsumer(s, ConsumerStep(s));
  }

  /** What never goes back: claims are only added at the end, values read likewise, a published
      position stays published. */
  ghost predicate Grows(s: Shard, t: Shard) {
    && t.size == s.size && |t.producers| == |s.producers|
    && s.log <= t.log && s.out <= t.out
    && s.writePos <= t.writePos && s.readPos <= t.readPos && s.Released() <= t.Released()
    && forall p: nat :: s.Published(p) ==> t.Published(p)
  }

  lemma ProducerGrows(s: Shard, i: nat)
    requires Inv(s) && i < |s.producers| && InCall(s.producers[i])
    ensures Grows(s, ProducerStep(s, i))
  {
    assert ProducerOk(s, i);
  }

  lemma ConsumerGrows(s: Shard)
    requires Inv(s)
    ensures Grows(s, ConsumerStep(s))
  {
  }

  // ---------------------------------------------------------------- what the invariant gives

  /** Race freedom of the plain value field: two producers between claim and publication are on
      different slots, and so is the consumer between its check and its release. */
  lemma SlotExclusive(s: Shard, i: nat, j: nat)
    requires Inv(s) && i < |s.producers| && j < |s.producers| && s.Claiming(i)
    ensures s.Claiming(j) && i != j ==> Place(s.producers[i].pos, s.size) != Place(s.producers[j].pos, s.size)
    ensures s.consumer.ReadValue? || s.consumer.Clear? || s.consumer.Release? ==>
      Place(s.producers[i].pos, s.size) != Place(s.consumer.pos, s.size)
  {
    assert ProducerOk(s, i) && PendingOk(s, s.producers[i].pos);
    if s.Claiming(j) && i != j {
      assert ProducerOk(s, j) && PendingOk(s, s.producers[j].pos);
      WindowPlaces(s, s.producers[i].pos, s.producers[j].pos);
    }
    if s.consumer.ReadValue? || s.consumer.Clear? || s.consumer.Release? {
      assert s.InWindow(s.consumer.pos);
      WindowPlaces(s, s.producers[i].pos, s.consumer.pos);
    }
  }

  /** Each slot serves one position of the window; a slot whose position is not claimed holds nil. */
  lemma SlotServesWindow(s: Shard, j: nat) returns (p: nat)
    requires Inv(s) && j < s.size
    ensures s.InWindow(p) && Place(p, s.size) == j
    ensures forall q: nat :: s.InWindow(q) && Place(q, s.size) == j ==> q == p
    ensures s.slots[j].seqNo == if s.Published(p) then p + 1 else p
    ensures p >= s.writePos ==> s.slots[j].value == Nil
  {
    if j < s.Released() {
      p := LapInWindow(j, s.Released(), s.size);
    } else {
      p := j;
    }
    assert SlotOk(s, p);
    forall q: nat | s.InWindow(q) && q != p ensures Place(q, s.size) != j { WindowPlaces(s, q, p); }
  }

  /** A claimed and unpublished position has exactly one producer working on it. */
  lemma PendingOwner(s: Shard, p: nat)
    requires Inv(s) && p < s.writePos && !s.Published(p)
    ensures exists i: nat :: i < |s.producers| && s.Claiming(i) && s.producers[i].pos == p
    ensures forall i, j | 0 <= i < |s.producers| && 0 <= j < |s.producers| && s.Claiming(i) && s.Claiming(j)
              && s.producers[i].pos == p == s.producers[j].pos :: i == j
  {
    assert PendingOk(s, p);
    forall i, j | 0 <= i < |s.producers| && 0 <= j < |s.producers| && s.Claiming(i) && s.Claiming(j)
      && s.producers[i].pos == p == s.producers[j].pos
      ensures i == j
    {
      assert ProducerOk(s, i) && ProducerOk(s, j);
    }
  }

  /** Every failed swap of a call is paid for by a claim another producer made during the call, so
      a call makes at most three accesses for each of those claims and five more. */
  lemma RetriesArePaidFor(s: Shard, i: nat)
    requires Inv(s) && i < |s.producers| && !s.producers[i].pc.Idle?
    ensures s.producers[i].began + s.producers[i].retries <= s.writePos
    ensures s.producers[i].accesses <= 3 * (s.writePos - s.producers[i].began) + 5
  {
    assert ProducerOk(s, i);
  }

  /** Claimed minus read is at most the capacity, and one more exactly when the consumer has
      released a slot and not yet advanced, and the producers have filled the shard again. */
  lemma Occupancy(s: Shard)
    requires Inv(s)
    ensures s.readPos <= s.writePos <= s.readPos + s.size + if s.consumer.Advance? then 1 else 0
    ensures s.writePos - s.readPos == s.size + 1 <==> s.consumer.Advance? && s.writePos == s.Released() + s.size
  {
  }

  function ValuesOf(log: seq<Entry>): (vs: seq<Any>)
    ensures |vs| == |log|
    ensures forall k :: 0 <= k < |log| ==> vs[k] == log[k].value
  {
    if log == [] then [] else ValuesOf(log[..|log| - 1]) + [log[|log| - 1].value]
  }
}
