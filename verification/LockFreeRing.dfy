/** The ring as the program runs it: shards and the sharded ring as objects that their methods
    update in place, used by one thread at a time. Each method is tied to the value model. */
module LockFreeRing {
  import opened Bits
  import opened Words
  import opened Values
  import M = ShardModel
  import R = RingModel

  datatype Error = NotPowerOfTwo | InvalidSize

  datatype Result<+T> = Ok(value: T) | Err(error: Error)

  class Shard {
    const size: nat
    const buffer: array<M.Slot>
    var writePos: uint64
    var readPos: uint64

    /** Speaks of fields fixed at creation only, so no method can invalidate it. */
    ghost predicate Valid() {
      0 < size < TWO64 && buffer.Length == size
    }

    ghost function Model(): (s: M.Shard)
      requires Valid()
      reads this, buffer
      ensures s.WellFormed() && s.size == size
    {
      M.Shard(size, buffer[..], writePos, readPos)
    }

    /** A new shard, each slot marked free for the position equal to its index. */
    constructor (capacity: nat)
      requires 0 < capacity < TWO64
      ensures Valid() && fresh(buffer) && size == capacity
      ensures Model() == M.New(capacity)
    {
      size := capacity;
      buffer := new M.Slot[capacity](i => M.Slot(0, Nil));
      writePos, readPos := 0, 0;
      new;
      var j := 0;
      while j < capacity
        invariant 0 <= j <= capacity
        invariant writePos == readPos == 0 && size == buffer.Length == capacity
        invariant fresh(buffer)
        invariant forall i :: 0 <= i < j ==> buffer[i] == M.Slot(i, Nil)
        invariant forall i :: j <= i < capacity ==> buffer[i] == M.Slot(0, Nil)
      {
        buffer[j] := buffer[j].(seqNo := j);
        j := j + 1;
      }
      assert buffer[..] == M.New(capacity).slots;
    }

    /** With a single thread the compare-and-swap that claims the position cannot fail, so the
        retry loop runs its body once. */
    method Write(value: Any) returns (ok: bool)
      requires Valid()
      modifies this`writePos, buffer
      ensures (Model(), ok) == old(Model()).Write(value)
    {
      var pos := writePos;
      PlaceIsRemainder(pos, size);
      var idx := pos % size;
      if buffer[idx].seqNo != pos {
        return false;
      }
      writePos := Wrap(pos + 1);
      buffer[idx] := buffer[idx].(value := value);
      buffer[idx] := buffer[idx].(seqNo := Wrap(pos + 1));
      assert buffer[..] == old(buffer[..])[idx := M.Slot(Wrap(pos + 1), value)];
      return true;
    }

    method TryRead() returns (item: Option<Any>)
      requires Valid()
      modifies this`readPos, buffer
      ensures (Model(), item) == old(Model()).TryRead()
    {
      var pos := readPos;
      PlaceIsRemainder(pos, size);
      var idx := pos % size;
      if buffer[idx].seqNo != Wrap(pos + 1) {
        return None;
      }
      var value := buffer[idx].value;
      buffer[idx] := buffer[idx].(value := Nil);
      buffer[idx] := buffer[idx].(seqNo := Wrap(pos + size));
      readPos := Wrap(pos + 1);
      assert buffer[..] == old(buffer[..])[idx := M.Slot(Wrap(pos + size), Nil)];
      return Some(value);
    }
  }

  /** The two shards share nothing. */
  ghost predicate Apart(s: Shard, t: Shard) {
    s != t && s.buffer != t.buffer
  }

  ghost predicate AllApart(shards: seq<Shard>) {
    forall i, j {:trigger Apart(shards[i], shards[j])} ::
      0 <= i < |shards| && 0 <= j < |shards| && i != j ==> Apart(shards[i], shards[j])
  }

  ghost function Models(shards: seq<Shard>): (ms: seq<M.Shard>)
    requires forall s :: s in shards ==> s.Valid()
    reads shards, set s | s in shards :: s.buffer
    ensures |ms| == |shards| && forall m :: m in ms ==> m.WellFormed()
  {
    if shards == [] then [] else
    Models(shards[..|shards| - 1]) + [shards[|shards| - 1].Model()]
  }

  lemma {:induction false} ModelAt(shards: seq<Shard>, j: nat)
    requires j < |shards| && forall s :: s in shards ==> s.Valid()
    ensures Models(shards)[j] == shards[j].Model()
  {
    if j < |shards| - 1 {
      ModelAt(shards[..|shards| - 1], j);
    }
  }

  /** After a call on shard `idx`, only its model differs. */
  lemma OneChanged(shards: seq<Shard>, before: seq<M.Shard>, idx: nat)
    requires forall s :: s in shards ==> s.Valid()
    requires idx < |shards| == |before|
    requires forall j :: 0 <= j < |shards| && j != idx ==> shards[j].Model() == before[j]
    ensures Models(shards) == before[idx := shards[idx].Model()]
  {
    forall j | 0 <= j < |shards| ensures Models(shards)[j] == before[idx := shards[idx].Model()][j] {
      ModelAt(shards, j);
    }
  }

  lemma QuotientBounds(total: nat, n: nat)
    requires 0 < n <= total
    ensures 0 < total / n <= total
  {
    var q := total / n;
    assert total == n * q + total % n;
    if q > 0 && n > 1 { MulGrows(q, 1, n); }
  }

  class ShardedRing {
    const shards: seq<Shard>
    const numShards: nat
    const mask: nat
    var readStartShard: uint64

    /** Speaks of fields fixed at creation only, so no method can invalidate it. */
    ghost predicate Valid() {
      && 0 < numShards < TWO64 && IsPowerOfTwo(numShards)
      && |shards| == numShards && mask == numShards - 1
      && (forall s :: s in shards ==> s.Valid())
      && AllApart(shards)
    }

    /** How many items fit into the first `k` shards. */
    ghost function Fits(k: nat): nat
      requires k <= |shards|
    {
      if k == 0 then 0 else Fits(k - 1) + shards[k - 1].size
    }

    /** How many items fit into the ring. */
    ghost function Capacity(): nat {
      Fits(|shards|)
    }

    ghost function Footprint(): set<object> {
      (set s: Shard | s in shards :: s as object) + (set s: Shard | s in shards :: s.buffer as object)
    }

    /** The values of the shards. */
    ghost function Contents(): (ms: seq<M.Shard>)
      requires Valid()
      reads shards, set s | s in shards :: s.buffer
      ensures |ms| == numShards && forall j :: 0 <= j < |ms| ==> ms[j].WellFormed()
    {
      Models(shards)
    }

    ghost function Model(): (r: R.Ring)
      requires Valid()
      reads this, shards, set s | s in shards :: s.buffer
      ensures r.WellFormed() && |r.shards| == numShards
    {
      R.Ring(Contents(), readStartShard)
    }

    constructor (shards: seq<Shard>)
      requires 0 < |shards| < TWO64 && IsPowerOfTwo(|shards|)
      requires forall s :: s in shards ==> s.Valid()
      requires AllApart(shards)
      ensures Valid() && this.shards == shards && readStartShard == 0
    {
      this.shards := shards;
      numShards, mask := |shards|, |shards| - 1;
      readStartShard := 0;
    }

    /** Builds a ring, or reports which of the two arguments is unusable. The capacity is rounded
        down to a multiple of the number of shards. */
    static method New(totalCapacity: uint64, numShards: uint64) returns (r: Result<ShardedRing>)
      ensures !IsPowerOfTwo(numShards) <==> r == Err(NotPowerOfTwo)
      ensures IsPowerOfTwo(numShards) && totalCapacity < numShards <==> r == Err(InvalidSize)
      ensures r.Ok? ==> fresh(r.value) && r.value.Valid() && r.value.numShards == numShards
      ensures r.Ok? ==> fresh(r.value.Footprint())
      ensures r.Ok? ==> r.value.readStartShard == 0
      ensures r.Ok? ==> forall s :: s in r.value.shards ==> s.Model() == M.New(totalCapacity / numShards)
      ensures r.Ok? ==>
        && r.value.Uniform() && r.value.Capacity() <= totalCapacity
        && (r.value.Capacity() == totalCapacity <==> totalCapacity % numShards == 0)
    {
      if !IsPowerOfTwo(numShards) {
        return Err(NotPowerOfTwo);
      }
      if totalCapacity == 0 || totalCapacity < numShards {
        return Err(InvalidSize);
      }
      var shardCapacity := totalCapacity / numShards;
      QuotientBounds(totalCapacity, numShards);
      var shards: seq<Shard> := [];
      while |shards| < numShards
        invariant |shards| <= numShards
        invariant fresh(set s | s in shards) && fresh(set s | s in shards :: s.buffer)
        invariant forall s :: s in shards ==> s.Valid() && s.Model() == M.New(shardCapacity)
        invariant AllApart(shards)
      {
        var shard := new Shard(shardCapacity);
        shards := shards + [shard];
      }
      var ring := new ShardedRing(shards);
      CapacityRoundsDown(ring, totalCapacity);
      return Ok(ring);
    }

    /** Writes to the producer's shard. */
    method Write(producerID: uint64, value: Any) returns (ok: bool)
      requires Valid()
      modifies shards, set s | s in shards :: s.buffer
      ensures (Model(), ok) == R.Write(old(Model()), producerID, value)
    {
      MaskIsPlace(producerID, numShards);
      var idx := BitAnd(producerID, mask);
      ghost var before := Models(shards);
      assert forall j :: 0 <= j < numShards && j != idx ==> Apart(shards[idx], shards[j]);
      forall j | 0 <= j < numShards ensures before[j] == shards[j].Model() {
        ModelAt(shards, j);
      }
      ok := shards[idx].Write(value);
      OneChanged(shards, before, idx);
    }

    /** One tryRead on the shard that is `i` steps after `start`. */
    method Probe(start: uint64, i: nat) returns (item: Option<Any>)
      requires Valid() && i < numShards
      modifies shards, set s | s in shards :: s.buffer
      ensures (Contents(), item) == R.ProbeAt(old(Contents()), start, i)
    {
      ShardIndexIsCyclic(numShards, start, i);
      var idx := BitAnd(Wrap(start + i), mask);
      ghost var before := Contents();
      assert forall j :: 0 <= j < numShards && j != idx ==> Apart(shards[idx], shards[j]);
      forall j | 0 <= j < numShards ensures before[j] == shards[j].Model() {
        ModelAt(shards, j);
      }
      item := shards[idx].TryRead();
      OneChanged(shards, before, idx);
    }

    /** The loop of a single read. */
    method ProbeShards(start: uint64) returns (item: Option<Any>)
      requires Valid()
      modifies shards, set s | s in shards :: s.buffer
      ensures (Contents(), item) == R.TryReadFrom(old(Contents()), start, 0)
    {
      ghost var whole := R.TryReadFrom(Contents(), start, 0);
      var i := 0;
      while i < numShards
        invariant 0 <= i <= numShards
        invariant R.TryReadFrom(Contents(), start, i) == whole
      {
        R.TryReadUnfolds(Contents(), start, i);
        var val := Probe(start, i);
        if val.Some? {
          return val;
        }
        i := i + 1;
      }
      R.TryReadEnds(Contents(), start, i);
      return None;
    }

    method TryRead() returns (item: Option<Any>)
      requires Valid()
      modifies this`readStartShard, shards, set s | s in shards :: s.buffer
      ensures (Model(), item) == R.TryRead(old(Model()))
    {
      var start := readStartShard;
      readStartShard := Wrap(readStartShard + 1);
      item := ProbeShards(start);
    }

    /** The inner loop of a batch read: appends what one shard yields, up to `maxItems` in all. */
    method DrainInto(start: uint64, i: nat, taken: seq<Any>, maxItems: int) returns (result: seq<Any>)
      requires Valid() && i < numShards
      modifies shards, set s | s in shards :: s.buffer
      ensures (Contents(), result) == R.DrainOnward(taken, old(Contents()), start, i, maxItems)
    {
      result := taken;
      ghost var whole := R.DrainOnward(taken, Contents(), start, i, maxItems);
      while |result| < maxItems
        invariant R.DrainOnward(result, Contents(), start, i, maxItems) == whole
        decreases maxItems - |result|
      {
        R.DrainUnfolds(result, Contents(), start, i, maxItems);
        var val := Probe(start, i);
        if val.None? {
          return;
        }
        result := result + [val.value];
      }
      R.DrainEnds(result, Contents(), start, i, maxItems);
    }

    /** The outer loop of a batch read. */
    method ReadShards(start: uint64, maxItems: int) returns (result: seq<Any>)
      requires Valid()
      modifies shards, set s | s in shards :: s.buffer
      ensures (Contents(), result) == R.BatchFrom(old(Contents()), start, 0, maxItems)
    {
      result := [];
      ghost var whole := R.BatchFrom(Contents(), start, 0, maxItems);
      R.BatchBegins(Contents(), start, maxItems);
      var i := 0;
      while i < numShards && |result| < maxItems
        invariant 0 <= i <= numShards
        invariant R.BatchOnward(result, Contents(), start, i, maxItems) == whole
      {
        R.BatchUnfolds(result, Contents(), start, i, maxItems);
        result := DrainInto(start, i, result, maxItems);
        i := i + 1;
      }
      R.BatchEnds(result, Contents(), start, i, maxItems);
    }

    /** The buffer argument only lends its storage, so the call returns a fresh sequence. */
    method ReadBatchInto(maxItems: int) returns (result: seq<Any>)
      requires Valid()
      modifies this`readStartShard, shards, set s | s in shards :: s.buffer
      ensures (Model(), result) == R.ReadBatch(old(Model()), maxItems)
    {
      var start := readStartShard;
      readStartShard := Wrap(readStartShard + 1);
      result := ReadShards(start, maxItems);
    }

    /** Counts claimed positions minus read positions, shard by shard. */
    method Len() returns (total: uint64)
      requires Valid()
      ensures total == R.LenUpTo(Model().shards, numShards)
    {
      total := 0;
      var k := 0;
      while k < |shards|
        invariant 0 <= k <= |shards|
        invariant total == R.LenUpTo(Models(shards), k)
      {
        ModelAt(shards, k);
        var writePos := shards[k].writePos;
        var readPos := shards[k].readPos;
        if writePos > readPos {
          total := Wrap(total + (writePos - readPos));
        }
        k := k + 1;
      }
    }

    /** All shards are of the first one's size, as in every ring from New. */
    ghost predicate Uniform() {
      forall s :: s in shards ==> s.size == shards[0].size
    }

    /** For a ring from New, the number of items that fit: at most the capacity asked for, and that
        itself exactly when the number of shards divides it. */
    method Cap() returns (c: nat)
      requires Valid() && Uniform()
      ensures c == Wrap(Capacity())
    {
      UniformCapacity(this, |shards|);
      c := Wrap(shards[0].size * numShards);
    }
  }

  lemma {:induction false} UniformCapacity(ring: ShardedRing, k: nat)
    requires ring.Uniform() && k <= |ring.shards|
    ensures ring.Fits(k) == if k == 0 then 0 else ring.shards[0].size * k
    decreases k
  {
    if k == 0 {
    } else {
      UniformCapacity(ring, k - 1);
      assert ring.shards[k - 1] in ring.shards;
      var size := ring.shards[0].size;
      assert size * k == size * (k - 1) + size;
    }
  }

  /** A ring made for a capacity holds that many items exactly when the number of shards divides it,
      and otherwise fewer. */
  lemma CapacityRoundsDown(ring: ShardedRing, total: nat)
    requires ring.Valid() && forall s :: s in ring.shards ==> s.size == total / ring.numShards
    ensures ring.Uniform() && ring.Capacity() <= total
    ensures ring.Capacity() == total <==> total % ring.numShards == 0
  {
    UniformCapacity(ring, |ring.shards|);
    var n := ring.numShards;
    var q := total / n;
    assert total == n * q + total % n;
    assert ring.shards[0] in ring.shards;
    assert q * n == n * q;
  }
}
