/** The correlation of two tables and its transform, for the transparency
    order of the metric suite (app/utils/crypto_metrics.py, calculate_to):
    the transform of the product of two Walsh-Hadamard transforms is the
    length times the correlation sum over p of x[p] * y[p XOR u], the
    Wiener-Khinchin relation that calculate_to uses to get the
    autocorrelation from the power spectrum. */
module WalshCorrelation {
  import opened Butterfly
  import opened Bits
  import opened WalshTransform

  /** The entry by entry products of two tables. */
  function Products(x: seq<int>, y: seq<int>): (r: seq<int>)
    requires |y| == |x|
    ensures |r| == |x|
  {
    seq(|x|, p requires 0 <= p < |x| => x[p] * y[p])
  }

  /** The term x[p] * y[p XOR u] of the correlation of x and y at u. */
  function CorrTerm(x: seq<int>, y: seq<int>, u: nat, p: nat): int
    requires IsPow2(|x|) && |y| == |x| && u < |x| && p < |x|
  {
    XorBitsBelow(p, u, |x|);
    x[p] * y[XorBits(p, u)]
  }

  /** The terms s, s + 1, ..., s + m - 1, summed. */
  function CorrSum(x: seq<int>, y: seq<int>, u: nat, s: nat, m: nat): int
    requires IsPow2(|x|) && |y| == |x| && u < |x| && s + m <= |x|
  {
    if m == 0 then 0 else CorrSum(x, y, u, s, m - 1) + CorrTerm(x, y, u, s + m - 1)
  }

  /** The correlation of x and y at the shift u: the sum over p of
      x[p] * y[p XOR u]. With y = x it is the autocorrelation of x. */
  function Correlation(x: seq<int>, y: seq<int>, u: nat): int
    requires IsPow2(|x|) && |y| == |x| && u < |x|
  {
    CorrSum(x, y, u, 0, |x|)
  }

  /** A correlation sum splits at h. */
  lemma {:induction false} CorrSumSplit(x: seq<int>, y: seq<int>, u: nat, h: nat, m: nat)
    requires IsPow2(|x|) && |y| == |x| && u < |x| && h + m <= |x|
    ensures CorrSum(x, y, u, 0, h + m) == CorrSum(x, y, u, 0, h) + CorrSum(x, y, u, h, m)
  {
    if m > 0 {
      CorrSumSplit(x, y, u, h, m - 1);
    }
  }

  /** Sums whose terms agree one by one agree. */
  lemma {:induction false} CorrSumMatch(x: seq<int>, y: seq<int>, u: nat, s: nat,
                                        x': seq<int>, y': seq<int>, k: nat, m: nat)
    requires IsPow2(|x|) && |y| == |x| && u < |x| && s + m <= |x|
    requires IsPow2(|x'|) && |y'| == |x'| && k < |x'| && m <= |x'|
    requires forall q :: 0 <= q < m ==> CorrTerm(x, y, u, s + q) == CorrTerm(x', y', k, q)
    ensures CorrSum(x, y, u, s, m) == CorrSum(x', y', k, 0, m)
  {
    if m > 0 {
      CorrSumMatch(x, y, u, s, x', y', k, m - 1);
      assert CorrTerm(x, y, u, s + (m - 1)) == CorrTerm(x', y', k, m - 1);
    }
  }

  /** The terms of the two halves, for a shift below the half: term q of
      the lower half is that of the lower half on its own. */
  lemma {:induction false} TermLowLower(x: seq<int>, y: seq<int>, u: nat, q: nat, h: nat)
    requires IsPow2(|x|) && |x| == 2 * h && IsPow2(h) && |y| == |x| && u < h && q < h
    ensures CorrTerm(x, y, u, q) == CorrTerm(x[..h], y[..h], u, q)
  {
    XorBitsBelow(q, u, h);
    var r := XorBits(q, u);
    assert CorrTerm(x, y, u, q) == x[q] * y[r];
    assert x[..h][q] == x[q] && y[..h][r] == y[r];
  }

  /** Term h + q of the upper half is term q of the upper half on its own. */
  lemma {:induction false} TermLowUpper(x: seq<int>, y: seq<int>, u: nat, q: nat, h: nat)
    requires IsPow2(|x|) && |x| == 2 * h && IsPow2(h) && |y| == |x| && u < h && q < h
    ensures CorrTerm(x, y, u, h + q) == CorrTerm(x[h..], y[h..], u, q)
  {
    XorBitsBelow(q, u, h);
    var r := XorBits(q, u);
    assert XorBits(h + q, u) == r + h by {
      XorBitsHighLeft(q, u, h);
      assert q + h == h + q;
    }
    assert CorrTerm(x, y, u, h + q) == x[h + q] * y[r + h];
    assert x[h..][q] == x[h + q] && y[h..][r] == y[r + h];
  }

  /** For a shift u = h + k, term q of the lower half is that of the lower
      half against the upper half at k. */
  lemma {:induction false} TermHighLower(x: seq<int>, y: seq<int>, u: nat, q: nat, h: nat)
    requires IsPow2(|x|) && |x| == 2 * h && IsPow2(h) && |y| == |x| && h <= u < |x| && q < h
    ensures CorrTerm(x, y, u, q) == CorrTerm(x[..h], y[h..], u - h, q)
  {
    var k := u - h;
    XorBitsBelow(q, k, h);
    var r := XorBits(q, k);
    assert XorBits(q, u) == r + h by {
      XorBitsHighRight(q, k, h);
      assert k + h == u;
    }
    assert CorrTerm(x, y, u, q) == x[q] * y[r + h];
    assert x[..h][q] == x[q] && y[h..][r] == y[r + h];
  }

  /** Term h + q of the upper half is that of the upper half against the
      lower half at k. */
  lemma {:induction false} TermHighUpper(x: seq<int>, y: seq<int>, u: nat, q: nat, h: nat)
    requires IsPow2(|x|) && |x| == 2 * h && IsPow2(h) && |y| == |x| && h <= u < |x| && q < h
    ensures CorrTerm(x, y, u, h + q) == CorrTerm(x[h..], y[..h], u - h, q)
  {
    var k := u - h;
    XorBitsBelow(q, k, h);
    var r := XorBits(q, k);
    assert XorBits(h + q, u) == r by {
      XorBitsHighBoth(q, k, h);
      assert q + h == h + q && k + h == u;
    }
    assert CorrTerm(x, y, u, h + q) == x[h + q] * y[r];
    assert x[h..][q] == x[h + q] && y[..h][r] == y[r];
  }

  /** The correlation of the whole, from those of the halves: for a shift
      below the half, each half correlates with itself. */
  lemma {:induction false} CorrelationLowShift(x: seq<int>, y: seq<int>, u: nat)
    requires IsPow2(|x|) && |x| > 1 && |y| == |x| && u < |x| / 2
    ensures IsPow2(|x| / 2)
    ensures Correlation(x, y, u) == Correlation(x[..|x| / 2], y[..|x| / 2], u)
                                    + Correlation(x[|x| / 2..], y[|x| / 2..], u)
  {
    var h := |x| / 2;
    assert IsPow2(h) && |x| == 2 * h;
    var xl, xh, yl, yh := x[..h], x[h..], y[..h], y[h..];
    forall q | 0 <= q < h
      ensures CorrTerm(x, y, u, 0 + q) == CorrTerm(xl, yl, u, q)
      ensures CorrTerm(x, y, u, h + q) == CorrTerm(xh, yh, u, q)
    {
      TermLowLower(x, y, u, q, h);
      TermLowUpper(x, y, u, q, h);
    }
    CorrSumMatch(x, y, u, 0, xl, yl, u, h);
    CorrSumMatch(x, y, u, h, xh, yh, u, h);
    assert |x| == h + h;
    CorrSumSplit(x, y, u, h, h);
  }

  /** For a shift h + k, each half correlates with the other at k. */
  lemma {:induction false} CorrelationHighShift(x: seq<int>, y: seq<int>, h: nat, k: nat)
    requires IsPow2(|x|) && |x| == 2 * h && IsPow2(h) && |y| == |x| && k < h
    ensures Correlation(x, y, h + k) == Correlation(x[..h], y[h..], k) + Correlation(x[h..], y[..h], k)
  {
    var u := h + k;
    var xl, xh, yl, yh := x[..h], x[h..], y[..h], y[h..];
    forall q | 0 <= q < h
      ensures CorrTerm(x, y, u, 0 + q) == CorrTerm(xl, yh, k, q)
      ensures CorrTerm(x, y, u, h + q) == CorrTerm(xh, yl, k, q)
    {
      TermHighLower(x, y, u, q, h);
      TermHighUpper(x, y, u, q, h);
    }
    CorrSumMatch(x, y, u, 0, xl, yh, k, h);
    CorrSumMatch(x, y, u, h, xh, yl, k, h);
    assert |x| == h + h;
    CorrSumSplit(x, y, u, h, h);
  }

  /** The products of sums and of differences, multiplied out. */
  lemma Expand(a: int, b: int, c: int, d: int)
    ensures (a + b) * (c + d) == a * c + a * d + b * c + b * d
    ensures (a - b) * (c - d) == a * c - a * d - b * c + b * d
  {
  }

  /** The transform of a table that is entry by entry a + b + c + d is the
      sum of the four transforms. */
  lemma {:induction false} CoefFourSum(a: seq<int>, b: seq<int>, c: seq<int>, d: seq<int>, z: seq<int>, u: int)
    requires IsPow2(|a|) && |b| == |a| && |c| == |a| && |d| == |a| && |z| == |a| && 0 <= u < |a|
    requires forall p :: 0 <= p < |a| ==> z[p] == a[p] + b[p] + c[p] + d[p]
    ensures Coef(z, u) == Coef(a, u) + Coef(b, u) + Coef(c, u) + Coef(d, u)
  {
    var e := Zip(Plus, a, d);
    var f := Zip(Plus, b, c);
    CoefSum(a, d, e, u);
    CoefSum(b, c, f, u);
    CoefSum(e, f, z, u);
  }

  /** The same for a - b - c + d. */
  lemma {:induction false} CoefFourDiff(a: seq<int>, b: seq<int>, c: seq<int>, d: seq<int>, z: seq<int>, u: int)
    requires IsPow2(|a|) && |b| == |a| && |c| == |a| && |d| == |a| && |z| == |a| && 0 <= u < |a|
    requires forall p :: 0 <= p < |a| ==> z[p] == a[p] - b[p] - c[p] + d[p]
    ensures Coef(z, u) == Coef(a, u) - Coef(b, u) - Coef(c, u) + Coef(d, u)
  {
    var e := Zip(Plus, a, d);
    var f := Zip(Plus, b, c);
    CoefSum(a, d, e, u);
    CoefSum(b, c, f, u);
    CoefDiff(e, f, z, u);
  }

  /** The arithmetic that closes the step of WalshProduct for a shift
      below the half: the lower and upper transforms of the products add
      up to |x| times the correlation. */
  lemma CloseLow(n: int, h: int, sum: int, diff: int, ll: int, lh: int, hl: int, hh: int,
                 n1: int, c1: int, n2: int, c2: int, corr: int)
    requires n == 2 * h && n1 == h && n2 == h && ll == n1 * c1 && hh == n2 * c2 && corr == c1 + c2
    requires sum == ll + lh + hl + hh && diff == ll - lh - hl + hh
    ensures sum + diff == n * corr
  {
  }

  /** The same for a shift h + k: the difference of the two. */
  lemma CloseHigh(n: int, h: int, sum: int, diff: int, ll: int, lh: int, hl: int, hh: int,
                  n1: int, c1: int, n2: int, c2: int, corr: int)
    requires n == 2 * h && n1 == h && n2 == h && lh == n1 * c1 && hl == n2 * c2 && corr == c1 + c2
    requires sum == ll + lh + hl + hh && diff == ll - lh - hl + hh
    ensures sum - diff == n * corr
  {
  }

  /** Entries p and h + p of the products of the transforms of x and y:
      with L and H the transforms of the lower and the upper halves, they
      are (Lx + Hx)(Ly + Hy) and (Lx - Hx)(Ly - Hy), multiplied out. */
  lemma {:induction false} ProductEntry(x: seq<int>, y: seq<int>, p: nat)
    requires IsPow2(|x|) && |x| > 1 && |y| == |x| && p < |x| / 2
    ensures IsPow2(|x| / 2)
    ensures var h := |x| / 2;
            var P := Products(Walsh(x), Walsh(y));
            var Xl, Xh, Yl, Yh := Walsh(x[..h]), Walsh(x[h..]), Walsh(y[..h]), Walsh(y[h..]);
            P[..h][p] == Xl[p] * Yl[p] + Xl[p] * Yh[p] + Xh[p] * Yl[p] + Xh[p] * Yh[p]
            && P[h..][p] == Xl[p] * Yl[p] - Xl[p] * Yh[p] - Xh[p] * Yl[p] + Xh[p] * Yh[p]
  {
    var h := |x| / 2;
    WalshHalves(x);
    WalshHalves(y);
    var a, b := Walsh(x[..h])[p], Walsh(x[h..])[p];
    var c, d := Walsh(y[..h])[p], Walsh(y[h..])[p];
    assert Walsh(x)[p] == a + b && Walsh(x)[h + p] == a - b by {
      assert Walsh(x)[..h][p] == a + b && Walsh(x)[h..][p] == a - b;
    }
    assert Walsh(y)[p] == c + d && Walsh(y)[h + p] == c - d by {
      assert Walsh(y)[..h][p] == c + d && Walsh(y)[h..][p] == c - d;
    }
    Expand(a, b, c, d);
  }

  /** The same for every p below the half. */
  lemma {:induction false} ProductEntries(x: seq<int>, y: seq<int>)
    requires IsPow2(|x|) && |x| > 1 && |y| == |x|
    ensures IsPow2(|x| / 2)
    ensures var h := |x| / 2;
            var P := Products(Walsh(x), Walsh(y));
            var Xl, Xh, Yl, Yh := Walsh(x[..h]), Walsh(x[h..]), Walsh(y[..h]), Walsh(y[h..]);
            forall p :: 0 <= p < h ==>
              P[..h][p] == Xl[p] * Yl[p] + Xl[p] * Yh[p] + Xh[p] * Yl[p] + Xh[p] * Yh[p]
              && P[h..][p] == Xl[p] * Yl[p] - Xl[p] * Yh[p] - Xh[p] * Yl[p] + Xh[p] * Yh[p]
  {
    var h := |x| / 2;
    forall p | 0 <= p < h
      ensures var P := Products(Walsh(x), Walsh(y));
              var Xl, Xh, Yl, Yh := Walsh(x[..h]), Walsh(x[h..]), Walsh(y[..h]), Walsh(y[h..]);
              P[..h][p] == Xl[p] * Yl[p] + Xl[p] * Yh[p] + Xh[p] * Yl[p] + Xh[p] * Yh[p]
              && P[h..][p] == Xl[p] * Yl[p] - Xl[p] * Yh[p] - Xh[p] * Yl[p] + Xh[p] * Yh[p]
    {
      ProductEntry(x, y, p);
    }
  }

  /** The transforms at k of the two halves of those products. */
  lemma {:induction false} ProductHalves(x: seq<int>, y: seq<int>, k: nat)
    requires IsPow2(|x|) && |x| > 1 && |y| == |x| && k < |x| / 2
    ensures IsPow2(|x| / 2)
    ensures var h := |x| / 2;
            var P := Products(Walsh(x), Walsh(y));
            var LL := Products(Walsh(x[..h]), Walsh(y[..h]));
            var LH := Products(Walsh(x[..h]), Walsh(y[h..]));
            var HL := Products(Walsh(x[h..]), Walsh(y[..h]));
            var HH := Products(Walsh(x[h..]), Walsh(y[h..]));
            Coef(P[..h], k) == Coef(LL, k) + Coef(LH, k) + Coef(HL, k) + Coef(HH, k)
            && Coef(P[h..], k) == Coef(LL, k) - Coef(LH, k) - Coef(HL, k) + Coef(HH, k)
  {
    var h := |x| / 2;
    var P := Products(Walsh(x), Walsh(y));
    ProductEntries(x, y);
    var Xl, Xh, Yl, Yh := Walsh(x[..h]), Walsh(x[h..]), Walsh(y[..h]), Walsh(y[h..]);
    var LL, LH, HL, HH := Products(Xl, Yl), Products(Xl, Yh), Products(Xh, Yl), Products(Xh, Yh);
    CoefFourSum(LL, LH, HL, HH, P[..h], k);
    CoefFourDiff(LL, LH, HL, HH, P[h..], k);
  }

  /** The product of two transforms is the transform of the correlation:
      entry u of the transform of Walsh(x) * Walsh(y) is |x| times the
      correlation of x and y at u. With y = x this is the Wiener-Khinchin
      relation between the power spectrum and the autocorrelation. */
  lemma {:induction false} WalshProduct(x: seq<int>, y: seq<int>, u: nat)
    requires IsPow2(|x|) && |y| == |x| && u < |x|
    ensures Coef(Products(Walsh(x), Walsh(y)), u) == |x| * Correlation(x, y, u)
    decreases |x|, 1
  {
    if |x| == 1 {
      assert u == 0 && Walsh(x)[0] == x[0] && Walsh(y)[0] == y[0];
      assert Correlation(x, y, u) == CorrSum(x, y, 0, 0, 0) + CorrTerm(x, y, 0, 0);
      assert XorBits(0, 0) == 0;
    } else if u < |x| / 2 {
      WalshProductLow(x, y, u);
    } else {
      var h := |x| / 2;
      assert |x| == 2 * h && IsPow2(h) && u == h + (u - h);
      WalshProductHigh(x, y, h, u - h);
    }
  }

  /** Entry u of a transform from the transforms of the halves at u mod
      the half: their sum below the half and their difference above it. */
  lemma CoefHalves(v: seq<int>, u: int)
    requires IsPow2(|v|) && |v| > 1 && 0 <= u < |v|
    ensures u < |v| / 2 ==> Coef(v, u) == Coef(v[..|v| / 2], u) + Coef(v[|v| / 2..], u)
    ensures u >= |v| / 2 ==> Coef(v, u) == Coef(v[..|v| / 2], u - |v| / 2) - Coef(v[|v| / 2..], u - |v| / 2)
  {
  }

  /** The second case of CoefHalves, for an entry written h + k. */
  lemma CoefUpperHalf(v: seq<int>, h: nat, k: nat)
    requires IsPow2(|v|) && |v| == 2 * h && k < h
    ensures Coef(v, h + k) == Coef(v[..h], k) - Coef(v[h..], k)
  {
    CoefHalves(v, h + k);
  }

  /** The step of WalshProduct for a shift below the half. */
  lemma {:induction false} WalshProductLow(x: seq<int>, y: seq<int>, u: nat)
    requires IsPow2(|x|) && |x| > 1 && |y| == |x| && u < |x| / 2
    ensures Coef(Products(Walsh(x), Walsh(y)), u) == |x| * Correlation(x, y, u)
    decreases |x|, 0
  {
    var h := |x| / 2;
    var P := Products(Walsh(x), Walsh(y));
    var xl, xh, yl, yh := x[..h], x[h..], y[..h], y[h..];
    var Xl, Xh, Yl, Yh := Walsh(xl), Walsh(xh), Walsh(yl), Walsh(yh);
    assert |x| == 2 * h && |xl| == h && |xh| == h;
    ProductHalves(x, y, u);
    WalshProduct(xl, yl, u);
    WalshProduct(xh, yh, u);
    CorrelationLowShift(x, y, u);
    CoefHalves(P, u);
    CloseLow(|x|, h, Coef(P[..h], u), Coef(P[h..], u),
             Coef(Products(Xl, Yl), u), Coef(Products(Xl, Yh), u),
             Coef(Products(Xh, Yl), u), Coef(Products(Xh, Yh), u),
             |xl|, Correlation(xl, yl, u), |xh|, Correlation(xh, yh, u), Correlation(x, y, u));
  }

  /** The step of WalshProduct for a shift h + k. */
  lemma {:induction false} WalshProductHigh(x: seq<int>, y: seq<int>, h: nat, k: nat)
    requires IsPow2(|x|) && |x| == 2 * h && IsPow2(h) && |y| == |x| && k < h
    ensures Coef(Products(Walsh(x), Walsh(y)), h + k) == |x| * Correlation(x, y, h + k)
    decreases |x|, 0
  {
    var P := Products(Walsh(x), Walsh(y));
    var xl, xh, yl, yh := x[..h], x[h..], y[..h], y[h..];
    var Xl, Xh, Yl, Yh := Walsh(xl), Walsh(xh), Walsh(yl), Walsh(yh);
    assert |x| > 1 && |x| / 2 == h && |xl| == h && |xh| == h;
    ProductHalves(x, y, k);
    WalshProduct(xl, yh, k);
    WalshProduct(xh, yl, k);
    CorrelationHighShift(x, y, h, k);
    CoefUpperHalf(P, h, k);
    CloseHigh(|x|, h, Coef(P[..h], k), Coef(P[h..], k),
              Coef(Products(Xl, Yl), k), Coef(Products(Xl, Yh), k),
              Coef(Products(Xh, Yl), k), Coef(Products(Xh, Yh), k),
              |xl|, Correlation(xl, yh, k), |xh|, Correlation(xh, yl, k), Correlation(x, y, h + k));
  }
}
