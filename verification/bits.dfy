/** Bit counting on non-negative integers, as the metric suite uses it:
    hamming_weight (app/utils/crypto_metrics.py) counts the ones of the
    binary form, and the Walsh spectrum weighs entry x for mask u by the
    parity of the ones of u AND x. */
module Bits {
  import opened Butterfly

  /** The number of one bits of a non-negative integer. */
  function Popcount(n: nat): nat
  {
    if n == 0 then 0 else n % 2 + Popcount(n / 2)
  }

  /** hamming_weight: the ones of the binary form; the binary form of a
      negative number is its magnitude's behind a minus sign. */
  function HammingWeight(n: int): nat
  {
    if n < 0 then Popcount(-n) else Popcount(n)
  }

  /** Below 2^k there are at most k ones. */
  lemma {:induction false} PopcountBound(n: nat, k: nat)
    requires n < Pow2(k)
    ensures Popcount(n) <= k
  {
    if n > 0 {
      PopcountBound(n / 2, k - 1);
    }
  }

  /** A positive number has a one bit. */
  lemma {:induction false} PopcountPositive(n: nat)
    requires n > 0
    ensures Popcount(n) >= 1
  {
    if n % 2 == 0 {
      PopcountPositive(n / 2);
    }
  }

  /** Adding a power of two above n sets one more bit. */
  lemma {:induction false} PopcountHigh(n: nat, h: int)
    requires IsPow2(h) && n < h
    ensures Popcount(n + h) == Popcount(n) + 1
    decreases h
  {
    if h > 1 {
      PopcountHigh(n / 2, h / 2);
      assert (n + h) / 2 == n / 2 + h / 2;
    }
  }

  /** Bitwise AND of two non-negative integers. */
  function AndBits(u: nat, x: nat): (r: nat)
  {
    if u == 0 || x == 0 then 0
    else 2 * AndBits(u / 2, x / 2) + (if u % 2 == 1 && x % 2 == 1 then 1 else 0)
  }

  /** For u and x below the power of two h, the bit h of u or of x alone
      does not reach the AND; in both it adds h. */
  lemma {:induction false} AndBitsHigh(u: nat, x: nat, h: int)
    requires IsPow2(h) && u < h && x < h
    ensures AndBits(u, x) < h
    ensures AndBits(u, x + h) == AndBits(u, x)
    ensures AndBits(u + h, x) == AndBits(u, x)
    ensures AndBits(u + h, x + h) == AndBits(u, x) + h
    decreases h
  {
    if h > 1 {
      AndBitsHigh(u / 2, x / 2, h / 2);
      assert (x + h) / 2 == x / 2 + h / 2 && (x + h) % 2 == x % 2;
      assert (u + h) / 2 == u / 2 + h / 2 && (u + h) % 2 == u % 2;
    }
  }

  /** Bitwise exclusive or of two non-negative integers. */
  function XorBits(u: nat, x: nat): nat
    decreases u + x
  {
    if u == 0 && x == 0 then 0
    else 2 * XorBits(u / 2, x / 2) + (u % 2 + x % 2) % 2
  }

  /** The exclusive or of two numbers below the power of two h is below h. */
  lemma {:induction false} XorBitsBelow(u: nat, x: nat, h: int)
    requires IsPow2(h) && u < h && x < h
    ensures XorBits(u, x) < h
    decreases h
  {
    if h > 1 {
      XorBitsBelow(u / 2, x / 2, h / 2);
    }
  }

  /** The recursive step of XorBits, for u = 2a + r and x = 2b + t with
      the low bits r and t. */
  lemma XorBitsStep(u: nat, x: nat, a: nat, b: nat, r: nat, t: nat)
    requires r < 2 && t < 2 && u == 2 * a + r && x == 2 * b + t
    ensures XorBits(u, x) == 2 * XorBits(a, b) + (r + t) % 2
  {
    assert u / 2 == a && u % 2 == r && x / 2 == b && x % 2 == t;
  }

  /** The arithmetic that closes the steps below: two numbers with the
      same low bit whose halves differ by m differ by h = 2m. */
  lemma ShiftClose(whole: int, shifted: int, half: int, halfShifted: int, low: int, m: int, h: int)
    requires whole == 2 * half + low && shifted == 2 * halfShifted + low
    requires halfShifted == half + m && h == 2 * m
    ensures shifted == whole + h
  {
  }

  /** For u and x below the power of two h, the bit h of u or of x alone
      is the bit h of the exclusive or; in both it cancels. */
  lemma XorBitsHigh(u: nat, x: nat, h: int)
    requires IsPow2(h) && u < h && x < h
    ensures XorBits(u, x + h) == XorBits(u, x) + h
    ensures XorBits(u + h, x) == XorBits(u, x) + h
    ensures XorBits(u + h, x + h) == XorBits(u, x)
  {
    XorBitsHighRight(u, x, h);
    XorBitsHighLeft(u, x, h);
    XorBitsHighBoth(u, x, h);
  }

  /** The bit h of x alone. */
  lemma {:induction false} XorBitsHighRight(u: nat, x: nat, h: int)
    requires IsPow2(h) && u < h && x < h
    ensures XorBits(u, x + h) == XorBits(u, x) + h
    decreases h
  {
    if h > 1 {
      var m := h / 2;
      assert h == 2 * m && IsPow2(m);
      var a, b, r, t := u / 2, x / 2, u % 2, x % 2;
      assert u == 2 * a + r && x == 2 * b + t && a < m && b < m;
      XorBitsHighRight(a, b, m);
      RightStep(u, x, h, a, b, r, t, m);
    }
  }

  lemma RightStep(u: nat, x: nat, h: int, a: nat, b: nat, r: nat, t: nat, m: nat)
    requires r < 2 && t < 2 && u == 2 * a + r && x == 2 * b + t && h == 2 * m
    requires XorBits(a, b + m) == XorBits(a, b) + m
    ensures XorBits(u, x + h) == XorBits(u, x) + h
  {
    XorBitsStep(u, x, a, b, r, t);
    XorBitsStep(u, x + h, a, b + m, r, t);
    ShiftClose(XorBits(u, x), XorBits(u, x + h), XorBits(a, b), XorBits(a, b + m), (r + t) % 2, m, h);
  }

  /** The bit h of u alone. */
  lemma {:induction false} XorBitsHighLeft(u: nat, x: nat, h: int)
    requires IsPow2(h) && u < h && x < h
    ensures XorBits(u + h, x) == XorBits(u, x) + h
    decreases h
  {
    if h > 1 {
      var m := h / 2;
      assert h == 2 * m && IsPow2(m);
      var a, b, r, t := u / 2, x / 2, u % 2, x % 2;
      assert u == 2 * a + r && x == 2 * b + t && a < m && b < m;
      XorBitsHighLeft(a, b, m);
      LeftStep(u, x, h, a, b, r, t, m);
    }
  }

  lemma LeftStep(u: nat, x: nat, h: int, a: nat, b: nat, r: nat, t: nat, m: nat)
    requires r < 2 && t < 2 && u == 2 * a + r && x == 2 * b + t && h == 2 * m
    requires XorBits(a + m, b) == XorBits(a, b) + m
    ensures XorBits(u + h, x) == XorBits(u, x) + h
  {
    XorBitsStep(u, x, a, b, r, t);
    XorBitsStep(u + h, x, a + m, b, r, t);
    ShiftClose(XorBits(u, x), XorBits(u + h, x), XorBits(a, b), XorBits(a + m, b), (r + t) % 2, m, h);
  }

  /** The bit h of both. */
  lemma {:induction false} XorBitsHighBoth(u: nat, x: nat, h: int)
    requires IsPow2(h) && u < h && x < h
    ensures XorBits(u + h, x + h) == XorBits(u, x)
    decreases h
  {
    if h > 1 {
      var m := h / 2;
      assert h == 2 * m && IsPow2(m);
      var a, b, r, t := u / 2, x / 2, u % 2, x % 2;
      assert u == 2 * a + r && x == 2 * b + t && a < m && b < m;
      XorBitsHighBoth(a, b, m);
      BothStep(a, b, r, t, m);
      assert u + h == 2 * (a + m) + r && x + h == 2 * (b + m) + t;
    }
  }

  lemma BothStep(a: nat, b: nat, r: nat, t: nat, m: nat)
    requires r < 2 && t < 2
    requires XorBits(a + m, b + m) == XorBits(a, b)
    ensures XorBits(2 * (a + m) + r, 2 * (b + m) + t) == XorBits(2 * a + r, 2 * b + t)
  {
    XorBitsStep(2 * a + r, 2 * b + t, a, b, r, t);
    XorBitsStep(2 * (a + m) + r, 2 * (b + m) + t, a + m, b + m, r, t);
  }

  /** Exclusive or with a nonzero number changes u. */
  lemma {:induction false} XorBitsChanges(u: nat, d: nat)
    requires d > 0
    ensures XorBits(u, d) != u
    decreases d
  {
    var low := (u % 2 + d % 2) % 2;
    assert XorBits(u, d) == 2 * XorBits(u / 2, d / 2) + low;
    if d % 2 == 0 {
      XorBitsChanges(u / 2, d / 2);
      assert low == u % 2;
    } else {
      assert low != u % 2;
    }
  }

  /** The ones of u AND x are odd in number. */
  predicate OddOverlap(u: nat, x: nat)
  {
    Popcount(AndBits(u, x)) % 2 == 1
  }

  /** The parity of the overlap, for u and x below h, with the bit h added
      to one or both of them. */
  lemma OddOverlapHigh(u: nat, x: nat, h: int)
    requires IsPow2(h) && u < h && x < h
    ensures OddOverlap(u, x + h) == OddOverlap(u, x)
    ensures OddOverlap(u + h, x) == OddOverlap(u, x)
    ensures OddOverlap(u + h, x + h) == !OddOverlap(u, x)
  {
    AndBitsHigh(u, x, h);
    var a := AndBits(u, x);
    PopcountHigh(a, h);
    ParityNext(Popcount(a));
  }

  /** One more flips the parity. */
  lemma ParityNext(k: nat)
    ensures ((k + 1) % 2 == 1) == (k % 2 != 1)
  {
  }
}
