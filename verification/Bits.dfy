/** Binary arithmetic on natural numbers: the bitwise operators the ring uses, defined
    digit by digit, and what they mean in terms of powers of two. */
module Bits {
  function Pow2(k: nat): (r: nat)
    ensures r >= 1
  {
    if k == 0 then 1 else 2 * Pow2(k - 1)
  }

  function BitAnd(x: nat, y: nat): nat {
    if x == 0 || y == 0 then 0
    else (if x % 2 == 1 && y % 2 == 1 then 1 else 0) + 2 * BitAnd(x / 2, y / 2)
  }

  function BitOr(x: nat, y: nat): nat
    decreases x + y
  {
    if x == 0 && y == 0 then 0
    else (if x % 2 == 1 || y % 2 == 1 then 1 else 0) + 2 * BitOr(x / 2, y / 2)
  }

  /** Each step drops one binary digit. */
  function ShiftRight(x: nat, k: nat): nat {
    if k == 0 then x else ShiftRight(x / 2, k - 1)
  }

  /** The binary digit of `x` with weight 2^i. */
  predicate Bit(x: nat, i: nat) {
    if i == 0 then x % 2 == 1 else Bit(x / 2, i - 1)
  }

  predicate IsPowerOfTwo(n: nat) {
    n > 0 && BitAnd(n, n - 1) == 0
  }

  // ---------------------------------------------------------------- powers of two

  lemma {:induction false} AndSelf(x: nat)
    ensures BitAnd(x, x) == x
  {
    if x == 0 {
    } else {
      AndSelf(x / 2);
    }
  }

  /** The bit trick n & (n-1) == 0 recognises exactly the powers of two. */
  lemma {:induction false} IsPowerOfTwoIff(n: nat)
    ensures IsPowerOfTwo(n) <==> exists k: nat :: n == Pow2(k)
  {
    if n <= 1 {
      assert Pow2(0) == 1;
    } else if n % 2 == 1 {
      AndSelf(n / 2);
      assert n / 2 == (n - 1) / 2;
      forall k: nat ensures n != Pow2(k) {
        assert k == 0 ==> Pow2(k) == 1;
      }
    } else {
      IsPowerOfTwoIff(n / 2);
      assert (n - 1) / 2 == n / 2 - 1;
      assert IsPowerOfTwo(n) <==> IsPowerOfTwo(n / 2);
      if IsPowerOfTwo(n) {
        var k: nat :| n / 2 == Pow2(k);
        assert n == Pow2(k + 1);
      } else {
        forall k: nat ensures n != Pow2(k) {
          assert k > 0 ==> n / 2 != Pow2(k - 1);
        }
      }
    }
  }

  lemma Pow2IsPowerOfTwo(k: nat)
    ensures IsPowerOfTwo(Pow2(k))
  {
    var n := Pow2(k);
    IsPowerOfTwoIff(n);
    assert n == Pow2(k);
  }

  lemma AndOddMask(x: nat, h: nat)
    requires h > 0
    ensures BitAnd(x, 2 * h - 1) == x % 2 + 2 * BitAnd(x / 2, h - 1)
  {
    var m := 2 * h - 1;
    assert m % 2 == 1 && m / 2 == h - 1;
  }

  lemma MulGrows(d: int, a: int, b: int)
    requires d > 0 && a < b
    ensures d * a + d <= d * b
  {
    assert d * b == d * a + d * (b - a);
    assert d * (b - a) >= d by {
      var k := b - a;
      assert d * k - d == d * (k - 1);
    }
  }

  lemma QuotientUnique(d: int, a: int, b: int, q: int, r: int)
    requires 0 <= b < d && 0 <= r < d && d * a + b == d * q + r
    ensures a == q && b == r
  {
    if a > q {
      MulGrows(d, q, a);
    } else if a < q {
      MulGrows(d, a, q);
    }
  }

  lemma DivModUnique(x: int, d: int, q: int, r: int)
    requires d > 0 && 0 <= r < d && x == d * q + r
    ensures x / d == q && x % d == r
  {
    QuotientUnique(d, x / d, x % d, q, r);
  }

  lemma ModDouble(x: nat, h: nat)
    requires h > 0
    ensures x % (2 * h) == 2 * ((x / 2) % h) + x % 2
  {
    var q, r := (x / 2) / h, (x / 2) % h;
    assert x / 2 == h * q + r;
    assert x == (2 * h) * q + (2 * r + x % 2);
    DivModUnique(x, 2 * h, q, 2 * r + x % 2);
  }

  /** Masking with 2^k - 1 is reduction modulo 2^k. */
  lemma {:induction false} MaskIsMod(x: nat, k: nat)
    ensures BitAnd(x, Pow2(k) - 1) == x % Pow2(k)
  {
    if k == 0 {
    } else {
      var h := Pow2(k - 1);
      MaskIsMod(x / 2, k - 1);
      ModDouble(x, h);
      AndOddMask(x, h);
    }
  }

  lemma {:induction false} Pow2Sum(a: nat, b: nat)
    ensures Pow2(a + b) == Pow2(a) * Pow2(b)
  {
    if a == 0 {
    } else {
      Pow2Sum(a - 1, b);
      assert Pow2(a + b) == 2 * Pow2(a - 1 + b);
      assert Pow2(a) * Pow2(b) == 2 * (Pow2(a - 1) * Pow2(b));
    }
  }

  lemma {:induction false} Pow2Monotone(a: nat, b: nat)
    requires a < b
    ensures 2 * Pow2(a) <= Pow2(b)
  {
    if a + 1 < b {
      Pow2Monotone(a, b - 1);
    }
  }

  /** A power of two reduces modulo a smaller power of two to nothing. */
  lemma Pow2Divides(a: nat, b: nat)
    requires a <= b
    ensures Pow2(b) % Pow2(a) == 0
  {
    Pow2Sum(a, b - a);
    DivModUnique(Pow2(b), Pow2(a), Pow2(b - a), 0);
  }

  lemma FactorOfOne(d: nat, q: nat)
    requires d * q == 1
    ensures d == 1
  {
    if d > 1 && q > 0 {
      MulGrows(d, 0, q);
    }
  }

  lemma OddProduct(a: nat, b: nat)
    ensures (2 * a + 1) * (2 * b + 1) == 2 * (2 * (a * b) + a + b) + 1
  {
  }

  lemma EvenProduct(d: nat, q: nat, h: nat)
    requires d * q == 2 * h
    ensures d % 2 == 0 ==> (d / 2) * q == h
    ensures d % 2 == 1 ==> q % 2 == 0 && d * (q / 2) == h
  {
    var a, b := d / 2, q / 2;
    if d % 2 == 0 {
      assert (2 * a) * q == 2 * (a * q);
    } else if q % 2 == 0 {
      assert d * (2 * b) == 2 * (d * b);
    } else {
      OddProduct(a, b);
    }
  }

  /** Every divisor of a power of two is a power of two. */
  lemma {:induction false} DivisorIsPow2(d: nat, q: nat, k: nat) returns (e: nat)
    requires d * q == Pow2(k)
    ensures e <= k && d == Pow2(e)
    decreases k
  {
    if k == 0 {
      e := 0;
      FactorOfOne(d, q);
    } else {
      EvenProduct(d, q, Pow2(k - 1));
      if d % 2 == 0 {
        e := DivisorIsPow2(d / 2, q, k - 1);
        e := e + 1;
      } else {
        e := DivisorIsPow2(d, q / 2, k - 1);
      }
    }
  }

  // ---------------------------------------------------------------- digits

  lemma {:induction false} ZeroHasNoBits(i: nat)
    ensures !Bit(0, i)
  {
    if i == 0 {
    } else {
      ZeroHasNoBits(i - 1);
    }
  }

  lemma OrDigits(x: nat, y: nat)
    ensures BitOr(x, y) % 2 == (if x % 2 == 1 || y % 2 == 1 then 1 else 0)
    ensures BitOr(x, y) / 2 == BitOr(x / 2, y / 2)
  {
  }

  lemma {:induction false} BitOfOr(x: nat, y: nat, i: nat)
    ensures Bit(BitOr(x, y), i) <==> Bit(x, i) || Bit(y, i)
    decreases i
  {
    if x == 0 && y == 0 {
      ZeroHasNoBits(i);
    } else {
      OrDigits(x, y);
      if i > 0 { BitOfOr(x / 2, y / 2, i - 1); }
    }
  }

  lemma {:induction false} BitOfShift(x: nat, k: nat, i: nat)
    ensures Bit(ShiftRight(x, k), i) <==> Bit(x, i + k)
    decreases k
  {
    if k == 0 {
    } else {
      BitOfShift(x / 2, k - 1, i);
    }
  }

  /** The bits of a number below 2^k all have index below k. */
  lemma {:induction false} BitsBelow(x: nat, k: nat, i: nat)
    requires x < Pow2(k) && k <= i
    ensures !Bit(x, i)
    decreases k
  {
    if k == 0 {
      ZeroHasNoBits(i);
    } else {
      BitsBelow(x / 2, k - 1, i - 1);
    }
  }

  lemma {:induction false} HasBit(x: nat) returns (i: nat)
    requires x > 0
    ensures Bit(x, i)
  {
    if x % 2 == 1 {
      i := 0;
    } else {
      i := HasBit(x / 2);
      i := i + 1;
    }
  }

  lemma {:induction false} NoBitsAbove(x: nat, k: nat)
    requires forall i: nat :: k <= i ==> !Bit(x, i)
    ensures x < Pow2(k)
    decreases x
  {
    if x == 0 {
    } else {
      if k == 0 {
        var i := HasBit(x);
        assert false;
      }
      forall i: nat | k - 1 <= i ensures !Bit(x / 2, i) {
        assert !Bit(x, i + 1);
      }
      NoBitsAbove(x / 2, k - 1);
    }
  }

  ghost predicate BitsAreBelow(x: nat, k: nat) {
    forall i: nat :: Bit(x, i) <==> i < k
  }

  /** A number is 2^k - 1 exactly when its set bits are those below k. */
  lemma {:induction false} AllOnesIff(x: nat, k: nat)
    ensures x == Pow2(k) - 1 <==> BitsAreBelow(x, k)
    decreases k
  {
    if k == 0 {
      if x == 0 {
        forall i: nat ensures !Bit(x, i) { ZeroHasNoBits(i); }
      } else {
        var i := HasBit(x);
      }
    } else {
      AllOnesIff(x / 2, k - 1);
      if x == Pow2(k) - 1 {
        forall i: nat ensures Bit(x, i) <==> i < k {
          assert i > 0 ==> (Bit(x / 2, i - 1) <==> i - 1 < k - 1);
        }
      } else if BitsAreBelow(x, k) {
        assert Bit(x, 0);
        forall i: nat ensures Bit(x / 2, i) <==> i < k - 1 {
          assert Bit(x, i + 1) <==> i + 1 < k;
        }
        assert BitsAreBelow(x / 2, k - 1);
      }
    }
  }

  /** The number of binary digits of a positive number. */
  lemma {:induction false} Length(x: nat) returns (n: nat)
    requires x > 0
    ensures n > 0 && Pow2(n - 1) <= x < Pow2(n) && Bit(x, n - 1)
  {
    if x == 1 {
      n := 1;
      assert Pow2(1) == 2 * Pow2(0);
    } else {
      n := Length(x / 2);
      n := n + 1;
      assert Pow2(n - 1) == 2 * Pow2(n - 2);
    }
  }
}
