/** Unsigned 64-bit words, and positions reduced to a slot of a circular buffer. */
module Words {
  import opened Bits

  const TWO64: nat := 0x1_0000_0000_0000_0000

  type uint64 = x: nat | x < TWO64

  /** What a 64-bit word keeps of an unbounded count. */
  function Wrap(x: nat): uint64 {
    x % TWO64
  }

  /** The slot of a circular buffer that a position falls on, by going round the buffer;
      PlaceIsRemainder shows that this is the remainder the program computes. */
  function Place(p: nat, size: nat): (i: nat)
    requires size > 0
    ensures i < size
  {
    if p < size then p else Place(p - size, size)
  }

  lemma {:induction false} PlaceIsRemainder(p: nat, size: nat)
    requires size > 0
    ensures Place(p, size) == p % size
  {
    if p >= size {
      PlaceIsRemainder(p - size, size);
      var k, r := (p - size) / size, (p - size) % size;
      assert p == size * (k + 1) + r;
      DivModUnique(p, size, k + 1, r);
    } else {
      DivModUnique(p, size, 0, p);
    }
  }

  lemma TwoTo64()
    ensures Pow2(64) == TWO64
  {
    assert Pow2(8) == 256;
    Pow2Sum(8, 8);
    Pow2Sum(16, 16);
    Pow2Sum(32, 32);
  }

  lemma WrapStep(x: nat, d: nat)
    ensures Wrap(Wrap(x) + d) == Wrap(x + d)
  {
  }

  lemma WrapSmall(x: nat)
    requires x < TWO64
    ensures Wrap(x) == x
  {
  }

  /** Two different counts closer than 2^64 wrap to different words. */
  lemma WrapDistinct(a: nat, b: nat)
    requires a < b < a + TWO64
    ensures Wrap(a) != Wrap(b)
  {
  }

  /** Two positions of one window fall on different slots. */
  lemma {:induction false} PlaceDistinct(a: nat, b: nat, size: nat)
    requires size > 0 && a < b < a + size
    ensures Place(a, size) != Place(b, size)
  {
    if a >= size {
      PlaceDistinct(a - size, b - size, size);
    }
  }

  lemma PlaceNextLap(p: nat, size: nat)
    requires size > 0
    ensures Place(p + size, size) == Place(p, size)
  {
  }

  lemma {:induction false} PlaceIdempotent(p: nat, size: nat)
    requires size > 0
    ensures Place(Place(p, size), size) == Place(p, size)
  {
    if p >= size {
      PlaceIdempotent(p - size, size);
    }
  }

  lemma {:induction false} PlaceMinus(p: nat, size: nat)
    requires size > 0
    ensures Place(p, size) <= p && Place(p - Place(p, size), size) == 0
  {
    if p >= size {
      PlaceMinus(p - size, size);
    }
  }

  /** The word of a position still names the position's slot. */
  ghost predicate Aligned(p: nat, size: nat)
    requires size > 0
  {
    Place(Wrap(p), size) == Place(p, size)
  }

  ghost predicate AlwaysAligned(size: nat)
    requires size > 0
  {
    forall p: nat :: Aligned(p, size)
  }

  lemma Pow2DividesWord(k: nat)
    requires Pow2(k) < TWO64
    ensures TWO64 % Pow2(k) == 0
  {
    TwoTo64();
    if 64 < k { Pow2Monotone(64, k); assert false; }
    Pow2Divides(k, 64);
  }

  lemma DivisorOfWord(size: nat) returns (e: nat)
    requires 0 < size && TWO64 % size == 0
    ensures size == Pow2(e)
  {
    TwoTo64();
    var q := TWO64 / size;
    assert TWO64 == size * q + TWO64 % size;
    e := DivisorIsPow2(size, q, 64);
  }

  /** A size divides 2^64 exactly when it is a power of two. */
  lemma PowerOfTwoDivides(size: nat)
    requires 0 < size < TWO64
    ensures IsPowerOfTwo(size) <==> TWO64 % size == 0
  {
    IsPowerOfTwoIff(size);
    if IsPowerOfTwo(size) {
      var k: nat :| size == Pow2(k);
      Pow2DividesWord(k);
    }
    if TWO64 % size == 0 {
      var e := DivisorOfWord(size);
    }
  }

  lemma WordMultiple(size: nat, q: nat, k: nat, a: nat, r: nat)
    ensures (size * q) * k + (size * a + r) == size * (q * k + a) + r
  {
  }

  /** When the size divides 2^64, wrapping a position does not move it to another slot. */
  lemma WrapKeepsPlace(p: nat, size: nat)
    requires size > 0 && TWO64 % size == 0
    ensures Aligned(p, size)
  {
    var q, k, w := TWO64 / size, p / TWO64, Wrap(p);
    var a, r := w / size, w % size;
    WordMultiple(size, q, k, a, r);
    assert p == TWO64 * k + w;
    DivModUnique(p, size, q * k + a, r);
    PlaceIsRemainder(p, size);
    PlaceIsRemainder(w, size);
  }

  /** Exactly the powers of two keep every position aligned. */
  lemma AlwaysAlignedIff(size: nat)
    requires 0 < size < TWO64
    ensures AlwaysAligned(size) <==> IsPowerOfTwo(size)
    ensures Aligned(TWO64, size) <==> IsPowerOfTwo(size)
  {
    PowerOfTwoDivides(size);
    if TWO64 % size == 0 {
      forall p: nat ensures Aligned(p, size) { WrapKeepsPlace(p, size); }
    }
    PlaceIsRemainder(TWO64, size);
    assert AlwaysAligned(size) ==> Aligned(TWO64, size);
  }

  // ---------------------------------------------------------------- picking shards

  /** The index the program computes for the i-th probe from `start`: word addition, then the mask. */
  function ShardIndex(n: nat, start: uint64, i: nat): nat
    requires n > 0
  {
    BitAnd(Wrap(start + i), n - 1)
  }

  /** The i-th shard from `start` in cyclic order. */
  function Cyclic(start: nat, i: nat, n: nat): (j: nat)
    requires n > 0
    ensures j < n
  {
    Place(start + i, n)
  }

  /** Masking a word with n - 1 picks its slot among n shards. */
  lemma MaskIsPlace(x: nat, n: nat)
    requires n > 0 && IsPowerOfTwo(n)
    ensures BitAnd(x, n - 1) == Place(x, n)
  {
    IsPowerOfTwoIff(n);
    var k: nat :| n == Pow2(k);
    MaskIsMod(x, k);
    PlaceIsRemainder(x, n);
  }

  /** Probing visits the shards in cyclic order, also when the start word overflows. */
  lemma ShardIndexIsCyclic(n: nat, start: uint64, i: nat)
    requires 0 < n < TWO64 && IsPowerOfTwo(n)
    ensures ShardIndex(n, start, i) == Cyclic(start, i, n)
  {
    MaskIsPlace(Wrap(start + i), n);
    AlwaysAlignedIff(n);
    assert Aligned(start + i, n);
  }

  /** n consecutive probes visit n different shards ... */
  lemma CyclicDistinct(start: nat, i: nat, k: nat, n: nat)
    requires i < k < n
    ensures Cyclic(start, i, n) != Cyclic(start, k, n)
  {
    PlaceDistinct(start + i, start + k, n);
  }

  lemma {:induction false} PlaceSum(a: nat, b: nat, n: nat)
    requires n > 0
    ensures Place(a + b, n) == Place(Place(a, n) + b, n)
  {
    if a >= n {
      PlaceSum(a - n, b, n);
    }
  }

  /** ... so each shard is visited, at one place of the order. */
  lemma CyclicReaches(start: nat, j: nat, n: nat) returns (i: nat)
    requires j < n
    ensures i < n && Cyclic(start, i, n) == j
  {
    var s := Place(start, n);
    i := if s <= j then j - s else j + n - s;
    PlaceSum(start, i, n);
  }

  /** After how many steps of the cyclic order from `start` shard `j` comes. */
  function Offset(start: nat, j: nat, n: nat): (i: nat)
    requires j < n
    ensures i < n
  {
    var s := Place(start, n);
    if s <= j then j - s else j + n - s
  }

  lemma OffsetOfCyclic(start: nat, i: nat, n: nat)
    requires i < n
    ensures Offset(start, Cyclic(start, i, n), n) == i
  {
    var j := Cyclic(start, i, n);
    var k := Offset(start, j, n);
    PlaceSum(start, k, n);
    if i < k { CyclicDistinct(start, i, k, n); }
    if k < i { CyclicDistinct(start, k, i, n); }
  }
}
