/** The shard-count helper of the integration tests: rounding a 64-bit int up to a power of
    two by smearing its top bit downwards. */
module NextPowerOfTwo {
  import opened Bits

  const INT64_MAX: int := 0x7fff_ffff_ffff_ffff
  const INT64_MIN: int := -0x8000_0000_0000_0000

  /** Two's-complement wrap of a sum of two ints. */
  function WrapInt64(x: int): int {
    if x > INT64_MAX then x - 0x1_0000_0000_0000_0000 else x
  }

  ghost predicate HasBitIn(m: nat, lo: nat, hi: nat) {
    exists b: nat :: lo <= b < hi && Bit(m, b)
  }

  /** `x` has bit i exactly when `m` has one of the bits i .. i+w-1. */
  ghost predicate Smeared(m: nat, x: nat, w: nat) {
    forall i: nat :: Bit(x, i) <==> HasBitIn(m, i, i + w)
  }

  /** Below its top set bit, `m` has no `w` consecutive zero bits. */
  ghost predicate NoZeroRun(m: nat, w: nat) {
    forall i: nat :: Pow2(i) <= m ==> HasBitIn(m, i, i + w)
  }

  ghost predicate IsLeastPowerOfTwo(r: int, n: int) {
    && (exists k: nat :: r == Pow2(k))
    && n <= r
    && forall k: nat :: n <= Pow2(k) ==> r <= Pow2(k)
  }

  /** One shift-or doubles the width of the smear. */
  lemma SmearDoubles(m: nat, x: nat, w: nat)
    requires Smeared(m, x, w)
    ensures Smeared(m, BitOr(x, ShiftRight(x, w)), 2 * w)
  {
    var y := BitOr(x, ShiftRight(x, w));
    forall i: nat ensures Bit(y, i) <==> HasBitIn(m, i, i + 2 * w) {
      BitOfOr(x, ShiftRight(x, w), i);
      BitOfShift(x, w, i);
      assert Bit(y, i) <==> HasBitIn(m, i, i + w) || HasBitIn(m, i + w, i + w + w);
      if b: nat :| i <= b < i + 2 * w && Bit(m, b) {
        assert b < i + w ==> HasBitIn(m, i, i + w);
        assert i + w <= b ==> HasBitIn(m, i + w, i + w + w);
      }
    }
  }

  lemma SmearOne(m: nat)
    ensures Smeared(m, m, 1)
  {
    forall i: nat ensures Bit(m, i) <==> HasBitIn(m, i, i + 1) {
    }
  }

  /** The smear of `m` has the same number of digits, `len`, as `m`. */
  lemma SmearKeepsLength(m: nat, x: nat, w: nat, len: nat)
    requires Smeared(m, x, w) && w > 0 && len > 0
    requires Pow2(len - 1) <= m < Pow2(len) && Bit(m, len - 1)
    ensures Bit(x, len - 1) && x < Pow2(len)
  {
    assert HasBitIn(m, len - 1, len - 1 + w);
    forall i: nat | len <= i ensures !Bit(x, i) {
      forall b: nat | i <= b ensures !Bit(m, b) { BitsBelow(m, len, b); }
    }
    NoBitsAbove(x, len);
  }

  /** The smear is all ones exactly when no run of zeros in `m` is as long as the smear is wide. */
  lemma AllOnesIffNoZeroRun(m: nat, x: nat, w: nat, len: nat)
    requires Smeared(m, x, w) && w > 0 && len > 0
    requires Pow2(len - 1) <= m < Pow2(len) && Bit(m, len - 1)
    ensures x == Pow2(len) - 1 <==> NoZeroRun(m, w)
  {
    AllOnesIff(x, len);
    SmearKeepsLength(m, x, w, len);
    forall i: nat ensures Pow2(i) <= m <==> i < len {
      if i < len - 1 { Pow2Monotone(i, len - 1); }
      if len < i { Pow2Monotone(len, i); }
    }
    forall i: nat | len <= i ensures !Bit(x, i) { BitsBelow(x, len, i); }
    if NoZeroRun(m, w) {
      forall i: nat | i < len ensures Bit(x, i) {
        assert Pow2(i) <= m;
      }
    }
    if BitsAreBelow(x, len) {
      forall i: nat | Pow2(i) <= m ensures HasBitIn(m, i, i + w) {
        assert i < len;
        assert Bit(x, i);
      }
    }
  }

  /** A number of `len` digits is one less than a power of two only if that power is 2^len. */
  lemma OnePastIsPow2(x: nat, len: nat, k: nat)
    requires len > 0 && Pow2(len - 1) <= x < Pow2(len)
    requires x + 1 == Pow2(k)
    ensures k == len
  {
    if k < len {
      if k < len - 1 { Pow2Monotone(k, len - 1); }
      assert false;
    } else if len < k {
      Pow2Monotone(len, k);
      assert false;
    }
  }

  lemma Pow2IsLeast(len: nat, n: nat)
    requires len > 0 && Pow2(len - 1) < n <= Pow2(len)
    ensures IsLeastPowerOfTwo(Pow2(len), n)
  {
    forall k: nat | n <= Pow2(k) ensures Pow2(len) <= Pow2(k) {
      if k < len {
        if k < len - 1 { Pow2Monotone(k, len - 1); }
        assert false;
      }
      if len < k { Pow2Monotone(len, k); }
    }
  }

  lemma BitGivesPow2(x: nat, len: nat)
    requires Bit(x, len)
    ensures Pow2(len) <= x
  {
    if x < Pow2(len) { BitsBelow(x, len, len); }
  }

  lemma Pow2Of31()
    ensures Pow2(31) == 0x8000_0000
  {
    assert Pow2(8) == 256 && Pow2(7) == 128;
    Pow2Sum(8, 8);
    Pow2Sum(16, 8);
    Pow2Sum(24, 7);
  }

  lemma Pow2Of62()
    ensures Pow2(62) == 0x4000_0000_0000_0000 && Pow2(63) == 2 * Pow2(62)
  {
    Pow2Of31();
    Pow2Sum(31, 31);
  }

  lemma LengthWithin63(m: nat, len: nat)
    requires len > 0 && Pow2(len - 1) <= m < Pow2(len) && m < INT64_MAX
    ensures len <= 63
  {
    Pow2Of62();
    if 63 < len {
      if 63 < len - 1 { Pow2Monotone(63, len - 1); }
      assert false;
    }
  }

  lemma SmallSmearedResult(n: nat, x: nat, w: nat, len: nat)
    requires len > 0 && 1 < n && Pow2(len - 1) <= n - 1 < Pow2(len) <= Pow2(62)
    requires Pow2(len - 1) <= x < Pow2(len)
    requires x == Pow2(len) - 1 <==> NoZeroRun(n - 1, w)
    ensures IsLeastPowerOfTwo(WrapInt64(x + 1), n) <==> n <= Pow2(62) && NoZeroRun(n - 1, w)
  {
    Pow2Of62();
    Pow2IsLeast(len, n);
    if IsLeastPowerOfTwo(x + 1, n) {
      var k: nat :| x + 1 == Pow2(k);
      OnePastIsPow2(x, len, k);
    }
  }

  lemma LargeSmearedResult(n: nat, x: nat)
    requires Pow2(62) <= n - 1 && Pow2(62) <= x < Pow2(63)
    ensures !IsLeastPowerOfTwo(WrapInt64(x + 1), n)
  {
    Pow2Of62();
    if IsLeastPowerOfTwo(x + 1, n) {
      var k: nat :| x + 1 == Pow2(k);
      OnePastIsPow2(x, 63, k);
    }
  }

  /** What a smear of width `w`, plus one in 64-bit arithmetic, has to do with the least power
      of two: it is that power exactly when the input fits below 2^62 and has no long zero run. */
  lemma SmearedResult(n: nat, x: nat, w: nat)
    requires 1 < n <= INT64_MAX && w > 0
    requires Smeared(n - 1, x, w)
    ensures IsLeastPowerOfTwo(WrapInt64(x + 1), n) <==> n <= Pow2(62) && NoZeroRun(n - 1, w)
    ensures x <= INT64_MAX
  {
    var m := n - 1;
    var len := Length(m);
    AllOnesIffNoZeroRun(m, x, w, len);
    SmearKeepsLength(m, x, w, len);
    BitGivesPow2(x, len - 1);
    Pow2Of62();
    LengthWithin63(m, len);
    if len <= 62 {
      if len < 62 { Pow2Monotone(len, 62); }
      SmallSmearedResult(n, x, w, len);
    } else {
      assert len == 63;
      LargeSmearedResult(n, x);
    }
  }

  /** Inputs small enough for the width of the smear have no long zero run: with j doubling
      shifts the width is 2^j, so every n <= 2^(2^j) is rounded correctly. */
  lemma NoZeroRunBelow(m: nat, w: nat)
    requires m < Pow2(w)
    ensures NoZeroRun(m, w)
  {
    if m > 0 {
      var len := Length(m);
      if w < len {
        if w < len - 1 { Pow2Monotone(w, len - 1); }
        assert false;
      }
      forall i: nat | Pow2(i) <= m ensures HasBitIn(m, i, i + w) {
        if len <= i && len < i { Pow2Monotone(len, i); }
        assert i <= len - 1 < i + w;
      }
    }
  }

  lemma LeastIsRecognised(n: int, r: int)
    requires IsLeastPowerOfTwo(r, n)
    ensures r > 0 && IsPowerOfTwo(r)
  {
    var k: nat :| r == Pow2(k);
    Pow2IsPowerOfTwo(k);
  }

  lemma SmallInputRounds(n: nat, r: int, w: nat)
    requires 1 < n <= Pow2(w) && w < 62
    requires IsLeastPowerOfTwo(r, n) <==> n <= Pow2(62) && NoZeroRun(n - 1, w)
    ensures IsLeastPowerOfTwo(r, n) && r > 0 && IsPowerOfTwo(r)
  {
    Pow2Monotone(w, 62);
    NoZeroRunBelow(n - 1, w);
    LeastIsRecognised(n, r);
  }

  lemma OneIsLeast(n: int)
    requires n <= 1
    ensures IsLeastPowerOfTwo(1, n) && IsPowerOfTwo(1)
  {
    assert Pow2(0) == 1;
  }

  /** One more than the smear of `m` of width 32, which overflows when all 63 bits are set. */
  ghost predicate OnePastSmear(m: nat, r: int) {
    exists x: nat :: Smeared(m, x, 32) && r == if x == INT64_MAX then INT64_MIN else x + 1
  }

  /** Rounds up to a power of two: one more than the predecessor with each of its bits smeared over the
      31 below it, in 64-bit arithmetic. The rounding is right for every n up to 1 and, above that,
      exactly for those n <= 2^62 whose predecessor has no run of 32 zero bits below its top bit;
      for every n up to 2^32 the result passes the ring's shard-count check. */
  method NextPowerOf2(n: int) returns (r: int)
    requires INT64_MIN <= n <= INT64_MAX
    ensures IsLeastPowerOfTwo(r, n) <==> n <= 1 || (n <= Pow2(62) && NoZeroRun(n - 1, 32))
    ensures n <= Pow2(32) ==> IsLeastPowerOfTwo(r, n) && r > 0 && IsPowerOfTwo(r)
    ensures n > 1 ==> OnePastSmear(n - 1, r)
  {
    if n <= 1 {
      OneIsLeast(n);
      return 1;
    }
    ghost var m: nat := n - 1;
    var x: nat := n - 1;
    SmearOne(m);
    SmearDoubles(m, x, 1);
    x := BitOr(x, ShiftRight(x, 1));
    SmearDoubles(m, x, 2);
    x := BitOr(x, ShiftRight(x, 2));
    SmearDoubles(m, x, 4);
    x := BitOr(x, ShiftRight(x, 4));
    SmearDoubles(m, x, 8);
    x := BitOr(x, ShiftRight(x, 8));
    SmearDoubles(m, x, 16);
    x := BitOr(x, ShiftRight(x, 16));
    SmearedResult(n, x, 32);
    r := WrapInt64(x + 1);
    if n <= Pow2(32) {
      SmallInputRounds(n, r, 32);
    }
  }

  lemma {:induction false} PowerBits(k: nat, b: nat)
    ensures Bit(Pow2(k), b) <==> b == k
    decreases k
  {
    if k == 0 {
      if b > 0 { ZeroHasNoBits(b - 1); }
    } else if b > 0 {
      PowerBits(k - 1, b - 1);
    }
  }

  /** The predecessor of 2^32 + 1 has a run of 32 zero bits. */
  lemma TooWideExample()
    ensures !NoZeroRun(Pow2(32), 32)
  {
    var m := Pow2(32);
    Pow2Monotone(0, 32);
    assert Pow2(0) == 1;
    forall b: nat | b < 32 ensures !Bit(m, b) {
      PowerBits(32, b);
    }
    assert !HasBitIn(m, 0, 32);
  }

  lemma FitsInt64(w: nat)
    requires w < 62
    ensures 1 < Pow2(w) + 1 <= INT64_MAX
  {
    Pow2Of62();
    Pow2Monotone(w, 62);
  }

  /** 2^32 + 1 is the first input that is rounded wrongly. */
  method FirstWrongInput() returns (r: int)
    ensures !IsLeastPowerOfTwo(r, Pow2(32) + 1)
  {
    FitsInt64(32);
    TooWideExample();
    r := NextPowerOf2(Pow2(32) + 1);
  }
}
