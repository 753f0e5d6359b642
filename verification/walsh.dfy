/** The fast Walsh-Hadamard transform of the metric suite
    (app/utils/crypto_metrics.py, fwht). Walsh is the transform in Sylvester
    order, defined by halves; Fwht is the in-place butterfly loop that
    computes it, and the lemmas give its linearity, its inverse (applying it
    twice multiplies by the length) and the bound on the spectrum of a
    table of signs. */
module WalshTransform {
  import opened Butterfly
  import opened Bits

  function Plus(x: int, y: int): int { x + y }

  function Minus(x: int, y: int): int { x - y }

  /** Entry u of the Walsh-Hadamard transform of v: below the half h it is
      the sum of entry u of the transforms of the two halves, above it the
      difference of their entries u - h. */
  function Coef(v: seq<int>, u: int): int
    requires IsPow2(|v|) && 0 <= u < |v|
    decreases |v|
  {
    if |v| == 1 then v[0]
    else
      var h := |v| / 2;
      if u < h then Coef(v[..h], u) + Coef(v[h..], u)
      else Coef(v[..h], u - h) - Coef(v[h..], u - h)
  }

  /** The Walsh-Hadamard transform, as a table. */
  function Walsh(v: seq<int>): (r: seq<int>)
    requires IsPow2(|v|)
    ensures |r| == |v|
  {
    seq(|v|, u requires 0 <= u < |v| => Coef(v, u))
  }

  /** Coef is entry u of the butterfly transform with the sum and the difference. */
  lemma {:induction false} TransformCoef(v: seq<int>, u: int)
    requires IsPow2(|v|) && 0 <= u < |v|
    ensures Transform(Plus, Minus, v)[u] == Coef(v, u)
    decreases |v|
  {
    if |v| > 1 {
      var h := |v| / 2;
      var lo := Transform(Plus, Minus, v[..h]);
      var hi := Transform(Plus, Minus, v[h..]);
      if u < h {
        TransformCoef(v[..h], u);
        TransformCoef(v[h..], u);
        assert Transform(Plus, Minus, v)[u] == Plus(lo[u], hi[u]);
      } else {
        TransformCoef(v[..h], u - h);
        TransformCoef(v[h..], u - h);
        assert Transform(Plus, Minus, v)[u] == Minus(lo[u - h], hi[u - h]);
      }
    }
  }

  /** The butterfly transform with the sum and the difference is the
      Walsh-Hadamard transform. */
  lemma TransformIsWalsh(v: seq<int>)
    requires IsPow2(|v|)
    ensures Transform(Plus, Minus, v) == Walsh(v)
  {
    forall u | 0 <= u < |v| ensures Transform(Plus, Minus, v)[u] == Walsh(v)[u] {
      TransformCoef(v, u);
    }
  }

  /** The innermost loop of fwht: the butterflies of the block of 2h
      entries at i. Entry p of the lower half becomes x + y and entry p + h
      becomes x - y, where x and y are their old values; nothing else
      changes. */
  method BlockButterflies(a0: seq<int>, i: int, h: int) returns (a: seq<int>)
    requires 0 < h && 0 <= i && i + 2 * h <= |a0|
    ensures |a| == |a0|
    ensures forall p :: i <= p < i + h ==> a[p] == a0[p] + a0[p + h]
    ensures forall p :: i + h <= p < i + 2 * h ==> a[p] == a0[p - h] - a0[p]
    ensures forall p :: 0 <= p < i || i + 2 * h <= p < |a0| ==> a[p] == a0[p]
  {
    a := a0;
    for j := i to i + h
      invariant |a| == |a0|
      invariant forall p :: i <= p < j ==> a[p] == a0[p] + a0[p + h]
      invariant forall p :: i + h <= p < j + h ==> a[p] == a0[p - h] - a0[p]
      invariant forall p :: 0 <= p < i || j <= p < i + h || j + h <= p < |a0| ==> a[p] == a0[p]
    {
      var x := a[j];
      var y := a[j + h];
      a := a[j := x + y][j + h := x - y];
    }
  }

  /** The entries of one block after its butterflies are those of the pass. */
  lemma PassBlock(a0: seq<int>, a: seq<int>, h: int, i: int)
    requires IsPow2(h) && Multiple(|a0|, 2 * h) && Multiple(i, 2 * h) && i + 2 * h <= |a0| && |a| == |a0|
    requires forall p :: i <= p < i + h ==> a[p] == a0[p] + a0[p + h]
    requires forall p :: i + h <= p < i + 2 * h ==> a[p] == a0[p - h] - a0[p]
    ensures forall p :: i <= p < i + 2 * h ==> a[p] == Pass(Plus, Minus, a0, h)[p]
  {
    forall p | i <= p < i + 2 * h ensures a[p] == Pass(Plus, Minus, a0, h)[p] {
      PassEntry(Plus, Minus, a0, h, i, p);
    }
  }

  /** One pass of fwht: the butterflies of every block of 2h entries. */
  method WalshPass(a0: seq<int>, h: int) returns (a: seq<int>)
    requires IsPow2(h) && Multiple(|a0|, 2 * h)
    ensures a == Pass(Plus, Minus, a0, h)
  {
    a := a0;
    var i := 0;
    while i < |a|
      invariant 0 <= i <= |a| && |a| == |a0| && Multiple(i, 2 * h)
      invariant forall p {:trigger a[p]} :: 0 <= p < i ==> a[p] == Pass(Plus, Minus, a0, h)[p]
      invariant forall p {:trigger a[p]} :: i <= p < |a| ==> a[p] == a0[p]
      decreases |a| - i
    {
      MultipleGap(i, |a|, 2 * h);
      ghost var before := a;
      a := BlockButterflies(a, i, h);
      forall p | i <= p < i + h
        ensures a[p] == a0[p] + a0[p + h] && a[p + h] == a0[p] - a0[p + h]
      {
        assert before[p] == a0[p] && before[p + h] == a0[p + h];
      }
      PassBlock(a0, a, h, i);
      i := i + 2 * h;
    }
  }

  /** fwht: on a copy of the input, passes with half-block h = 1, 2, 4, ...
      while h is below the length. */
  method Fwht(a0: seq<int>) returns (a: seq<int>)
    requires IsPow2(|a0|)
    ensures a == Walsh(a0)
  {
    a := a0;
    var h := 1;
    BlockTOne(Plus, Minus, a0);
    while h < |a|
      invariant |a| == |a0| && IsPow2(h) && h <= |a|
      invariant Multiple(|a|, h) && a == BlockT(Plus, Minus, a0, h)
      decreases |a| - h
    {
      Pow2Multiple(|a|, h);
      Pow2Gap(h, |a|);
      PassBlocks(Plus, Minus, a0, h);
      a := WalshPass(a, h);
      h := h * 2;
    }
    BlockTWhole(Plus, Minus, a0);
    TransformIsWalsh(a0);
  }

  /** The transform is linear: a table that is entry by entry the sum of
      two tables has as transform the sum of theirs. */
  lemma {:induction false} CoefSum(x: seq<int>, y: seq<int>, z: seq<int>, u: int)
    requires IsPow2(|x|) && |y| == |x| && |z| == |x| && 0 <= u < |x|
    requires forall p :: 0 <= p < |x| ==> z[p] == x[p] + y[p]
    ensures Coef(z, u) == Coef(x, u) + Coef(y, u)
    decreases |x|
  {
    if |x| > 1 {
      var h := |x| / 2;
      var k := if u < h then u else u - h;
      assert forall p :: 0 <= p < h ==> z[..h][p] == x[..h][p] + y[..h][p];
      assert forall p :: 0 <= p < h ==> z[h..][p] == x[h..][p] + y[h..][p];
      CoefSum(x[..h], y[..h], z[..h], k);
      CoefSum(x[h..], y[h..], z[h..], k);
    }
  }

  /** The same for differences: x is the sum of z and y. */
  lemma CoefDiff(x: seq<int>, y: seq<int>, z: seq<int>, u: int)
    requires IsPow2(|x|) && |y| == |x| && |z| == |x| && 0 <= u < |x|
    requires forall p :: 0 <= p < |x| ==> z[p] == x[p] - y[p]
    ensures Coef(z, u) == Coef(x, u) - Coef(y, u)
  {
    CoefSum(z, y, x, u);
  }


  /** The halves of the transform are the sum and the difference of the
      transforms of the halves. */
  lemma WalshHalves(v: seq<int>)
    requires IsPow2(|v|) && |v| > 1
    ensures IsPow2(|v| / 2)
    ensures forall p :: 0 <= p < |v| / 2 ==>
      Walsh(v)[..|v| / 2][p] == Walsh(v[..|v| / 2])[p] + Walsh(v[|v| / 2..])[p]
    ensures forall p :: 0 <= p < |v| / 2 ==>
      Walsh(v)[|v| / 2..][p] == Walsh(v[..|v| / 2])[p] - Walsh(v[|v| / 2..])[p]
  {
    var h := |v| / 2;
    forall p | 0 <= p < h
      ensures Walsh(v)[..h][p] == Walsh(v[..h])[p] + Walsh(v[h..])[p]
      ensures Walsh(v)[h..][p] == Walsh(v[..h])[p] - Walsh(v[h..])[p]
    {
      assert Walsh(v)[..h][p] == Coef(v, p);
      assert Walsh(v)[h..][p] == Coef(v, p + h);
    }
  }

  /** Applying the transform twice multiplies every entry by the length:
      the transform is its own inverse up to that factor. */
  lemma {:induction false} WalshTwice(v: seq<int>, u: int)
    requires IsPow2(|v|) && 0 <= u < |v|
    ensures Coef(Walsh(v), u) == |v| * v[u]
    decreases |v|
  {
    if |v| > 1 {
      var h := |v| / 2;
      var k := if u < h then u else u - h;
      var lo := v[..h];
      var hi := v[h..];
      var w := Walsh(v);
      WalshHalves(v);
      CoefSum(Walsh(lo), Walsh(hi), w[..h], k);
      CoefDiff(Walsh(lo), Walsh(hi), w[h..], k);
      WalshTwice(lo, k);
      WalshTwice(hi, k);
      var sum := Coef(w[..h], k);
      var diff := Coef(w[h..], k);
      assert sum == h * lo[k] + h * hi[k];
      assert diff == h * lo[k] - h * hi[k];
      assert |v| == 2 * h;
      HalvesCombine(h, lo[k], hi[k]);
      if u < h {
        assert Coef(w, u) == sum + diff;
      } else {
        assert Coef(w, u) == sum - diff;
        assert v[u] == hi[k];
      }
    }
  }

  /** The sum and the difference of h x + h y and h x - h y. */
  lemma HalvesCombine(h: int, x: int, y: int)
    ensures (h * x + h * y) + (h * x - h * y) == (2 * h) * x
    ensures (h * x + h * y) - (h * x - h * y) == (2 * h) * y
  {
  }


  /** A table of entries between -1 and 1 has every entry of its transform
      between minus and plus its length. */
  lemma {:induction false} WalshBound(v: seq<int>, u: int)
    requires IsPow2(|v|) && 0 <= u < |v| && forall x :: 0 <= x < |v| ==> -1 <= v[x] <= 1
    ensures -|v| <= Coef(v, u) <= |v|
    decreases |v|
  {
    if |v| > 1 {
      var h := |v| / 2;
      var k := if u < h then u else u - h;
      WalshBound(v[..h], k);
      WalshBound(v[h..], k);
    }
  }

  /** Entry x of v with the sign (-1)^popcount(u AND x). */
  function SignedEntry(v: seq<int>, u: nat, x: int): int
    requires 0 <= x < |v|
  {
    if OddOverlap(u, x) then -v[x] else v[x]
  }

  /** The signed entries s, s + 1, ..., s + m - 1, summed. */
  function SignedSum(v: seq<int>, u: nat, s: nat, m: nat): int
    requires s + m <= |v|
  {
    if m == 0 then 0 else SignedSum(v, u, s, m - 1) + SignedEntry(v, u, s + m - 1)
  }

  /** A sum splits at h. */
  lemma {:induction false} SignedSumSplit(v: seq<int>, u: nat, h: nat, m: nat)
    requires h + m <= |v|
    ensures SignedSum(v, u, 0, h + m) == SignedSum(v, u, 0, h) + SignedSum(v, u, h, m)
  {
    if m > 0 {
      SignedSumSplit(v, u, h, m - 1);
    }
  }

  /** Sums of entries that agree, or are opposite, one by one agree, or are
      opposite. */
  lemma {:induction false} SignedSumMatch(v: seq<int>, u: nat, s: nat, w: seq<int>, k: nat, m: nat, neg: bool)
    requires s + m <= |v| && m <= |w|
    requires forall x :: 0 <= x < m ==>
      SignedEntry(v, u, s + x) == if neg then -SignedEntry(w, k, x) else SignedEntry(w, k, x)
    ensures SignedSum(v, u, s, m) == if neg then -SignedSum(w, k, 0, m) else SignedSum(w, k, 0, m)
  {
    if m > 0 {
      SignedSumMatch(v, u, s, w, k, m - 1, neg);
    }
  }

  /** The signed entries of the two halves, against those of the whole. */
  lemma SignedEntryHalves(v: seq<int>, u: nat, x: nat)
    requires IsPow2(|v|) && |v| > 1 && u < |v| && x < |v| / 2
    ensures var h := |v| / 2;
            var k := if u < h then u else u - h;
            SignedEntry(v, u, x) == SignedEntry(v[..h], k, x)
            && SignedEntry(v, u, h + x) == if u < h then SignedEntry(v[h..], k, x) else -SignedEntry(v[h..], k, x)
  {
    var h := |v| / 2;
    var k := if u < h then u else u - h;
    assert IsPow2(h);
    OddOverlapHigh(k, x, h);
    assert v[..h][x] == v[x] && v[h..][x] == v[h + x];
  }

  /** The signed sums over the two halves, against those of the halves
      on their own. */
  lemma HalfSums(v: seq<int>, u: nat)
    requires IsPow2(|v|) && |v| > 1 && u < |v|
    ensures var h := |v| / 2;
            var k := if u < h then u else u - h;
            SignedSum(v, u, 0, h) == SignedSum(v[..h], k, 0, h)
            && SignedSum(v, u, h, h) == if u < h then SignedSum(v[h..], k, 0, h) else -SignedSum(v[h..], k, 0, h)
  {
    var h := |v| / 2;
    var k := if u < h then u else u - h;
    forall x | 0 <= x < h
      ensures SignedEntry(v, u, 0 + x) == SignedEntry(v[..h], k, x)
      ensures SignedEntry(v, u, h + x) == if u >= h then -SignedEntry(v[h..], k, x) else SignedEntry(v[h..], k, x)
    {
      SignedEntryHalves(v, u, x);
    }
    SignedSumMatch(v, u, 0, v[..h], k, h, false);
    SignedSumMatch(v, u, h, v[h..], k, h, u >= h);
  }

  /** The transform is the sum of the entries, each with the sign
      (-1)^popcount(u AND x): entry u of Walsh(v) is sum over x of
      v[x] * (-1)^popcount(u AND x). */
  lemma {:induction false} WalshIsSignedSum(v: seq<int>, u: nat)
    requires IsPow2(|v|) && u < |v|
    ensures Coef(v, u) == SignedSum(v, u, 0, |v|)
    decreases |v|
  {
    if |v| == 1 {
      assert AndBits(u, 0) == 0 && Popcount(0) == 0;
      assert SignedSum(v, u, 0, 1) == SignedEntry(v, u, 0);
    } else {
      var h := |v| / 2;
      var k := if u < h then u else u - h;
      var total := SignedSum(v, u, 0, |v|);
      assert total == SignedSum(v, u, 0, h) + SignedSum(v, u, h, h) by {
        assert |v| == h + h;
        SignedSumSplit(v, u, h, h);
      }
      HalfSums(v, u);
      WalshIsSignedSum(v[..h], k);
      WalshIsSignedSum(v[h..], k);
    }
  }
}
