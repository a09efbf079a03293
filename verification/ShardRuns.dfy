/** Whole runs of one shard's machine: any number of producers, one consumer, any interleaving. */
module ShardRuns {
  import opened ShardProtocol

  datatype Step = Call(i: nat, entry: Entry) | Access(i: nat) | Return(i: nat) | Consume

  ghost predicate Enabled(s: Shard, a: Step) {
    && s.size > 0 && |s.slots| == s.size
    && match a
       case Call(i, _) => i < |s.producers| && s.producers[i].pc.Idle?
       case Access(i) => i < |s.producers| && InCall(s.producers[i])
       case Return(i) => i < |s.producers| && (s.producers[i].pc.Wrote? || s.producers[i].pc.Refused?)
       case Consume => true
  }

  ghost function Next(s: Shard, a: Step): Shard
    requires Enabled(s, a)
  {
    match a
    case Call(i, entry) => Begin(s, i, entry)
    case Access(i) => ProducerStep(s, i)
    case Return(i) => Finish(s, i)
    case Consume => ConsumerStep(s)
  }

  /** Each step of the run is possible when its turn comes. */
  ghost predicate Legal(s: Shard, run: seq<Step>)
    decreases run
  {
    run == [] || (Enabled(s, run[0]) && Legal(Next(s, run[0]), run[1..]))
  }

  ghost function After(s: Shard, run: seq<Step>): Shard
    requires Legal(s, run)
    decreases run
  {
    if run == [] then s else After(Next(s, run[0]), run[1..])
  }

  lemma NextInv(s: Shard, a: Step)
    requires Inv(s) && Enabled(s, a)
    ensures Inv(Next(s, a))
  {
    match a
    case Call(i, entry) => BeginInv(s, i, entry);
    case Access(i) => ProducerStepInv(s, i);
    case Return(i) => FinishInv(s, i);
    case Consume => ConsumerStepInv(s);
  }

  lemma {:induction false} RunInv(s: Shard, run: seq<Step>)
    requires Inv(s) && Legal(s, run)
    ensures Inv(After(s, run))
    decreases run
  {
    if run == [] {
    } else {
      NextInv(s, run[0]);
      RunInv(Next(s, run[0]), run[1..]);
    }
  }

  /** The slot-window invariant holds after every run of any number of producers and one consumer
      on a new shard of at least two slots. */
  lemma ReachableInv(size: nat, threads: nat, run: seq<Step>)
    requires size >= 2 && Legal(Init(size, threads), run)
    ensures Inv(After(Init(size, threads), run))
  {
    InitInv(size, threads);
    RunInv(Init(size, threads), run);
  }

  lemma NextGrows(s: Shard, a: Step)
    requires Inv(s) && Enabled(s, a)
    ensures Grows(s, Next(s, a))
  {
    match a
    case Call(i, entry) =>
    case Access(i) => ProducerGrows(s, i);
    case Return(i) =>
    case Consume => ConsumerGrows(s);
  }

  lemma {:induction false} RunGrows(s: Shard, run: seq<Step>)
    requires Inv(s) && Legal(s, run)
    ensures Grows(s, After(s, run))
    decreases run
  {
    if run == [] {
    } else {
      NextInv(s, run[0]);
      NextGrows(s, run[0]);
      RunGrows(Next(s, run[0]), run[1..]);
    }
  }

  /** Exactly-once FIFO: after every run, the values read are the values of the first claims in
      claim order, and both records were only extended at their ends along the way. */
  lemma ExactlyOnceFifo(size: nat, threads: nat, before: seq<Step>, after: seq<Step>)
    requires size >= 2 && Legal(Init(size, threads), before)
    requires Legal(After(Init(size, threads), before), after)
    ensures var s := After(Init(size, threads), before);
            var t := After(s, after);
            && t.readPos <= |t.log| && t.out == ValuesOf(t.log[..t.readPos])
            && s.log <= t.log && s.out <= t.out
  {
    ReachableInv(size, threads, before);
    var s := After(Init(size, threads), before);
    RunInv(s, after);
    RunGrows(s, after);
    var t := After(s, after);
    assert ConsumerOk(t);
  }

  /** The two loads of `Len`, with any run of steps between them, give a term of at most one more
      than the capacity, and at most the capacity when the consumer is the caller. */
  lemma LenTermBound(s: Shard, run: seq<Step>)
    requires Inv(s) && Legal(s, run)
    ensures s.writePos - After(s, run).readPos <= s.size + 1
    ensures s.consumer.Rest? ==> s.writePos - After(s, run).readPos <= s.size
  {
    RunGrows(s, run);
  }

  /** A published head is not missed: whatever happens before the consumer's check, the check
      finds it, as long as it has not been read already. */
  lemma HeadIsFound(s: Shard, run: seq<Step>)
    requires Inv(s) && Legal(s, run) && s.Published(s.readPos)
    requires After(s, run).readPos == s.readPos && After(s, run).consumer.CheckSeq?
    ensures Enabled(After(s, run), Consume) && Next(After(s, run), Consume).consumer == ReadValue(s.readPos)
  {
    RunInv(s, run);
    RunGrows(s, run);
    LoadedHead(After(s, run));
  }

  // ---------------------------------------------------------------- calls that run alone

  /** Up to `k` accesses of producer `i` with no other step between them. */
  ghost function Alone(s: Shard, i: nat, k: nat): Shard
    requires s.size > 0 && |s.slots| == s.size && i < |s.producers|
    decreases k
  {
    if k == 0 || !InCall(s.producers[i]) then s else Alone(ProducerStep(s, i), i, k - 1)
  }

  lemma AloneStep(s: Shard, i: nat, k: nat)
    requires Inv(s) && i < |s.producers| && InCall(s.producers[i]) && k > 0
    ensures Inv(ProducerStep(s, i)) && Alone(s, i, k) == Alone(ProducerStep(s, i), i, k - 1)
  {
    ProducerStepInv(s, i);
  }

  lemma FinishAlone(c: Shard, i: nat, entry: Entry)
    requires Inv(c) && i < |c.producers| && c.producers[i].pc.Swap?
    requires c.producers[i].pos == c.writePos && c.producers[i].entry == entry
    ensures var t := Alone(c, i, 3);
            Inv(t) && t.producers[i].pc.Wrote? && t.log == c.log + [entry] && t.Published(c.writePos)
  {
    AloneStep(c, i, 3);
    var d := ProducerStep(c, i);
    AloneStep(d, i, 2);
    var e := ProducerStep(d, i);
    AloneStep(e, i, 1);
    assert d.producers[i].pc.StoreValue? && e.producers[i].pc.StoreSeq?;
  }

  /** A write call that nobody interrupts returns true exactly when the shard is not full, whatever
      other producers have left half done; it then claims and publishes the next position. */
  lemma UninterruptedWrite(s: Shard, i: nat, entry: Entry)
    requires Inv(s) && i < |s.producers| && s.producers[i].pc.Idle?
    ensures var t := Alone(Begin(s, i, entry), i, 5);
            && Inv(t)
            && if s.writePos < s.Released() + s.size
               then t.producers[i].pc.Wrote? && t.log == s.log + [entry] && t.Published(s.writePos)
               else t.producers[i].pc.Refused? && t.log == s.log && t.slots == s.slots
  {
    BeginInv(s, i, entry);
    var a := Begin(s, i, entry);
    AloneStep(a, i, 5);
    var b := ProducerStep(a, i);
    AloneStep(b, i, 4);
    RefusedIff(b, i);
    var c := ProducerStep(b, i);
    if s.writePos < s.Released() + s.size {
      assert !b.Published(b.writePos);
      FinishAlone(c, i, entry);
    }
  }

  predicate PastSwap(p: Producer) {
    p.pc.StoreValue? || p.pc.StoreSeq? || p.pc.Wrote? || p.pc.Refused? || p.pc.Idle?
  }

  /** A call claims at most one position, and none once it is past its swap. */
  lemma {:induction false} AtMostOneClaim(s: Shard, i: nat, k: nat)
    requires Inv(s) && i < |s.producers|
    ensures Alone(s, i, k).writePos <= s.writePos + if PastSwap(s.producers[i]) then 0 else 1
    decreases k
  {
    if k > 0 && InCall(s.producers[i]) {
      AloneStep(s, i, k);
      AtMostOneClaim(ProducerStep(s, i), i, k - 1);
    }
  }

  /** What the accesses of producer `i` leave alone. */
  lemma {:induction false} AloneKeeps(s: Shard, i: nat, k: nat)
    requires Inv(s) && i < |s.producers|
    ensures var t := Alone(s, i, k);
            && |t.producers| == |s.producers| && t.size == s.size && t.writePos <= s.writePos + 1
            && t.consumer == s.consumer && t.readPos == s.readPos
            && forall j :: 0 <= j < |s.producers| && j != i ==> t.producers[j] == s.producers[j]
    decreases k
  {
    if k > 0 && InCall(s.producers[i]) {
      AloneStep(s, i, k);
      AloneKeeps(ProducerStep(s, i), i, k - 1);
      AtMostOneClaim(s, i, k);
    }
  }

  /** A call is refused with room left: in every state where a producer has just loaded the newest
      position and another starts and finishes a write, the first one's check then fails, although
      the shard has room for at least one more value. */
  lemma RefusedWithRoom(s: Shard, i: nat, j: nat, entry: Entry)
    requires Inv(s) && i < |s.producers| && j < |s.producers| && i != j
    requires s.producers[i].pc.LoadSeq? && s.producers[i].pos == s.writePos && s.producers[j].pc.Idle?
    requires s.writePos + 1 < s.Released() + s.size
    ensures var t := Alone(Begin(s, j, entry), j, 5);
            && Inv(t) && t.producers[j].pc.Wrote? && t.producers[i] == s.producers[i]
            && ProducerStep(t, i).producers[i].pc.Refused? && t.writePos < t.Released() + t.size
  {
    UninterruptedWrite(s, j, entry);
    BeginInv(s, j, entry);
    AloneKeeps(Begin(s, j, entry), j, 5);
    var t := Alone(Begin(s, j, entry), j, 5);
    RefusedIff(t, i);
  }

  // ---------------------------------------------------------------- why calls are refused

  /** A step of the call that producer `i` is in. */
  predicate OwnStep(a: Step, i: nat) {
    a == Access(i) || a == Return(i) || (a.Call? && a.i == i)
  }

  lemma RefusalStays(s: Shard, a: Step, i: nat)
    requires Inv(s) && Enabled(s, a) && i < |s.producers| && s.producers[i].pc.Refused? && a != Return(i)
    ensures !OwnStep(a, i) && Next(s, a).producers[i].pc.Refused?
    ensures |Next(s, a).producers| == |s.producers|
  {
  }

  lemma {:induction false} RefusalLasts(s: Shard, run: seq<Step>, i: nat)
    requires Inv(s) && Legal(s, run) && i < |s.producers| && s.producers[i].pc.Refused?
    requires Return(i) !in run
    ensures forall a :: a in run ==> !OwnStep(a, i)
    decreases run
  {
    if run == [] {
    } else {
      RefusalStays(s, run[0], i);
      NextInv(s, run[0]);
      RefusalLasts(Next(s, run[0]), run[1..], i);
    }
  }

  /** Only an access with reason refuses a call. */
  lemma RefusalBegins(s: Shard, a: Step, i: nat)
    requires Inv(s) && Enabled(s, a) && i < |s.producers| && !s.producers[i].pc.Refused?
    ensures |Next(s, a).producers| == |s.producers|
    ensures Next(s, a).producers[i].pc.Refused? ==> a == Access(i) && Refusing(s, i)
  {
    if a == Access(i) {
      AccessOutcome(s, i);
    }
  }

  /** The k-th step of the run is the sequence load that refused the call of producer `i`: there was
      reason to refuse it then, and the call made no access after it. */
  ghost predicate RefusedAt(s: Shard, run: seq<Step>, i: nat, k: nat) {
    && k < |run| && run[k] == Access(i)
    && Legal(s, run[..k]) && i < |After(s, run[..k]).producers| && Refusing(After(s, run[..k]), i)
    && forall m :: k < m < |run| ==> !OwnStep(run[m], i)
  }

  lemma RefusedAtLater(s: Shard, run: seq<Step>, i: nat, k: nat)
    requires run != [] && Enabled(s, run[0]) && RefusedAt(Next(s, run[0]), run[1..], i, k)
    ensures RefusedAt(s, run, i, k + 1)
  {
    assert run[..k + 1][1..] == run[1..][..k] && run[..k + 1][0] == run[0];
    forall m | k + 1 < m < |run| ensures !OwnStep(run[m], i) {
      assert run[m] == run[1..][m - 1];
    }
  }

  /** Whatever the others do, and however many swaps the call has lost: a call is refused only by a
      sequence load that finds the shard full at the newest position, or published by another call at
      the position it loaded. */
  lemma {:induction false} RefusedOnlyIf(s: Shard, run: seq<Step>, i: nat) returns (k: nat)
    requires Inv(s) && Legal(s, run) && i < |s.producers| && !s.producers[i].pc.Refused?
    requires Return(i) !in run && |After(s, run).producers| == |s.producers|
    requires After(s, run).producers[i].pc.Refused?
    ensures RefusedAt(s, run, i, k)
    decreases run
  {
    if run == [] {
      assert false;
    } else {
      var t := Next(s, run[0]);
      RefusalBegins(s, run[0], i);
      NextInv(s, run[0]);
      if t.producers[i].pc.Refused? {
        RefusalLasts(t, run[1..], i);
        k := 0;
        assert run[..0] == [] && forall m :: 0 < m < |run| ==> run[m] in run[1..];
      } else {
        var l := RefusedOnlyIf(t, run[1..], i);
        RefusedAtLater(s, run, i, l);
        k := l + 1;
      }
    }
  }

  // ---------------------------------------------------------------- states that are reached

  lemma {:induction false} RunsJoin(s: Shard, a: seq<Step>, b: seq<Step>)
    requires Legal(s, a) && Legal(After(s, a), b)
    ensures Legal(s, a + b) && After(s, a + b) == After(After(s, a), b)
    decreases a
  {
    if a == [] {
      assert a + b == b;
    } else {
      RunsJoin(Next(s, a[0]), a[1..], b);
      assert (a + b)[1..] == a[1..] + b;
    }
  }

  lemma OneStep(s: Shard, a: Step)
    requires Enabled(s, a)
    ensures Legal(s, [a]) && After(s, [a]) == Next(s, a)
  {
    assert [a][1..] == [];
  }

  lemma {:induction false} AloneIsRun(s: Shard, i: nat, k: nat) returns (run: seq<Step>)
    requires Inv(s) && i < |s.producers|
    ensures Legal(s, run) && After(s, run) == Alone(s, i, k)
    decreases k
  {
    run := [];
    if k > 0 && InCall(s.producers[i]) {
      AloneStep(s, i, k);
      var rest := AloneIsRun(ProducerStep(s, i), i, k - 1);
      run := [Access(i)] + rest;
      OneStep(s, Access(i));
      RunsJoin(s, [Access(i)], rest);
    }
  }

  /** A whole write call that nobody interrupts, up to its last access, as a run. */
  lemma CallRun(s: Shard, i: nat, entry: Entry) returns (run: seq<Step>)
    requires Inv(s) && i < |s.producers| && s.producers[i].pc.Idle? && s.writePos < s.Released() + s.size
    ensures Legal(s, run) && After(s, run) == Alone(Begin(s, i, entry), i, 5)
  {
    BeginInv(s, i, entry);
    OneStep(s, Call(i, entry));
    var rest := AloneIsRun(Begin(s, i, entry), i, 5);
    run := [Call(i, entry)] + rest;
    RunsJoin(s, [Call(i, entry)], rest);
  }

  /** What writing leaves as it was, with `k` more positions claimed. */
  ghost predicate Written(s: Shard, t: Shard, k: nat) {
    && Inv(t) && t.size == s.size && |t.producers| == |s.producers|
    && t.consumer == s.consumer && t.readPos == s.readPos && t.writePos == s.writePos + k
    && forall j :: 0 <= j < |s.producers| && s.producers[j].pc.Idle? ==> t.producers[j].pc.Idle?
  }

  lemma WriteRun(s: Shard, i: nat, entry: Entry) returns (run: seq<Step>)
    requires Inv(s) && i < |s.producers| && s.producers[i].pc.Idle? && s.writePos < s.Released() + s.size
    ensures Legal(s, run) && Written(s, After(s, run), 1) && After(s, run).Published(s.writePos)
  {
    var call := CallRun(s, i, entry);
    UninterruptedWrite(s, i, entry);
    BeginInv(s, i, entry);
    AloneKeeps(Begin(s, i, entry), i, 5);
    var t := After(s, call);
    OneStep(t, Return(i));
    FinishInv(t, i);
    run := call + [Return(i)];
    RunsJoin(s, call, [Return(i)]);
  }

  /** A producer that goes on writing fills the shard. */
  lemma {:induction false} FillRun(s: Shard, i: nat, entry: Entry, k: nat) returns (run: seq<Step>)
    requires Inv(s) && i < |s.producers| && s.producers[i].pc.Idle? && s.writePos + k <= s.Released() + s.size
    ensures Legal(s, run) && Written(s, After(s, run), k)
    ensures forall p: nat :: s.writePos <= p < s.writePos + k ==> After(s, run).Published(p)
    decreases k
  {
    run := [];
    if k > 0 {
      var one := WriteRun(s, i, entry);
      var t := After(s, one);
      var rest := FillRun(t, i, entry, k - 1);
      RunGrows(t, rest);
      run := one + rest;
      RunsJoin(s, one, rest);
    }
  }

  /** A consumer that finds a value releases its slot in five accesses, before it advances. */
  lemma ReleaseRun(s: Shard) returns (run: seq<Step>)
    requires Inv(s) && s.consumer.Rest? && s.Published(s.readPos)
    ensures Legal(s, run)
    ensures var t := After(s, run);
            && Inv(t) && t.consumer.Advance? && t.size == s.size && t.producers == s.producers
            && t.writePos == s.writePos && t.readPos == s.readPos
  {
    var a := Next(s, Consume);
    ConsumerStepInv(s);
    LoadedHead(a);
    run := [Consume, Consume, Consume, Consume, Consume];
    var b := Next(a, Consume);
    ConsumerStepInv(a);
    var c := Next(b, Consume);
    ConsumerStepInv(b);
    var d := Next(c, Consume);
    ConsumerStepInv(c);
    var e := Next(d, Consume);
    ConsumerStepInv(d);
    assert run[1..] == [Consume, Consume, Consume, Consume] && run[1..][1..] == [Consume, Consume, Consume];
    assert [Consume, Consume, Consume][1..] == [Consume, Consume] && [Consume, Consume][1..] == [Consume];
    OneStep(d, Consume);
    assert After(c, [Consume, Consume]) == e;
  }

  /** Claimed minus read does exceed the capacity: in every state where the consumer has released a
      slot and not yet advanced, and one position is free, a write call brings it to one more. */
  lemma WriteBeforeAdvance(s: Shard, i: nat, entry: Entry)
    requires Inv(s) && i < |s.producers| && s.producers[i].pc.Idle?
    requires s.consumer.Advance? && s.writePos == s.readPos + s.size
    ensures var t := Alone(Begin(s, i, entry), i, 5);
            Inv(t) && t.writePos - t.readPos == t.size + 1
  {
    UninterruptedWrite(s, i, entry);
    BeginInv(s, i, entry);
    AloneKeeps(Begin(s, i, entry), i, 5);
  }

  /** Such a state is reached on every new shard of at least two slots: its one producer fills it,
      the consumer releases the first slot, and the producer writes again. */
  lemma OccupancyPeaks(size: nat, threads: nat, entry: Entry) returns (run: seq<Step>)
    requires size >= 2 && threads >= 1
    ensures Legal(Init(size, threads), run)
    ensures var t := After(Init(size, threads), run);
            t.writePos - t.readPos == size + 1
  {
    var s := Init(size, threads);
    InitInv(size, threads);
    var fill := FillRun(s, 0, entry, size);
    var full := After(s, fill);
    var release := ReleaseRun(full);
    var released := After(full, release);
    var call := CallRun(released, 0, entry);
    WriteBeforeAdvance(released, 0, entry);
    RunsJoin(full, release, call);
    RunsJoin(s, fill, release + call);
    run := fill + (release + call);
  }

  /** And a refusal with room left is reached on every new shard of at least two slots with two
      producers: the first loads the position and is overtaken by the second. */
  lemma RefusedWithRoomReached(size: nat, threads: nat, entry: Entry, other: Entry) returns (run: seq<Step>)
    requires size >= 2 && threads >= 2
    ensures Legal(Init(size, threads), run)
    ensures var t := After(Init(size, threads), run);
            |t.producers| == threads && t.producers[0].pc.Refused? && t.writePos < t.Released() + t.size
  {
    var s := Init(size, threads);
    InitInv(size, threads);
    OneStep(s, Call(0, entry));
    var a := Begin(s, 0, entry);
    BeginInv(s, 0, entry);
    OneStep(a, Access(0));
    var b := ProducerStep(a, 0);
    ProducerStepInv(a, 0);
    var overtake := CallRun(b, 1, other);
    RefusedWithRoom(b, 0, 1, other);
    var c := After(b, overtake);
    OneStep(c, Access(0));
    RunsJoin(b, overtake, [Access(0)]);
    RunsJoin(a, [Access(0)], overtake + [Access(0)]);
    RunsJoin(s, [Call(0, entry)], [Access(0)] + (overtake + [Access(0)]));
    run := [Call(0, entry)] + ([Access(0)] + (overtake + [Access(0)]));
  }
}
