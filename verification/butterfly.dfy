/** Butterfly transforms on tables whose length is a power of two, the shape
    shared by the fast Walsh-Hadamard transform and the Moebius transform of
    the metric suite. The transform of a table is defined by halves: both
    halves are transformed, then position t of the result is f of the two
    halves' entries at t, and position h + t is g of them. The in-place
    loops compute it bottom up, block size 1, 2, 4, ...; BlockT describes
    the table after the blocks of one size are done. */
module Butterfly {

  /** n is 1, 2, 4, 8, ... */
  predicate IsPow2(n: int)
    decreases if n > 0 then n else 0
  {
    n == 1 || (n > 1 && n % 2 == 0 && IsPow2(n / 2))
  }

  /** n is 2 to the k. */
  function Pow2(k: nat): (n: int)
    ensures n >= 1 && IsPow2(n)
  {
    if k == 0 then 1 else 2 * Pow2(k - 1)
  }

  /** i is a multiple of m (i = 0, m, 2m, ...), by repeated subtraction. */
  predicate Multiple(i: int, m: int)
    requires m > 0
    decreases if i > 0 then i else 0
  {
    i == 0 || (i >= m && Multiple(i - m, m))
  }

  lemma {:induction false} MultipleAdd(x: int, y: int, m: int)
    requires m > 0 && Multiple(x, m) && Multiple(y, m)
    ensures Multiple(x + y, m)
    decreases if y > 0 then y else 0
  {
    if y != 0 {
      MultipleAdd(x, y - m, m);
    }
  }

  /** A multiple of 2m is a multiple of m. */
  lemma {:induction false} MultipleHalf(i: int, m: int)
    requires m > 0 && Multiple(i, 2 * m)
    ensures Multiple(i, m)
    decreases if i > 0 then i else 0
  {
    if i != 0 {
      MultipleHalf(i - 2 * m, m);
      assert Multiple(i - m, m);
    }
  }

  /** Between two multiples of m there is room for a block of m. */
  lemma {:induction false} MultipleGap(i: int, n: int, m: int)
    requires m > 0 && Multiple(i, m) && Multiple(n, m) && i < n
    ensures i + m <= n
    decreases if i > 0 then i else 0
  {
    if i != 0 {
      MultipleGap(i - m, n - m, m);
    }
  }

  /** Powers of two grow with the exponent. */
  lemma {:induction false} Pow2Monotone(i: nat, j: nat)
    requires i <= j
    ensures Pow2(i) <= Pow2(j)
    decreases j
  {
    if i < j {
      Pow2Monotone(i, j - 1);
    }
  }

  /** No power of two lies strictly between m and 2m. */
  lemma {:induction false} Pow2Gap(m: int, h: int)
    requires IsPow2(m) && IsPow2(h) && m < h
    ensures 2 * m <= h
    decreases h
  {
    if m != 1 {
      Pow2Gap(m / 2, h / 2);
    }
  }

  /** A smaller power of two, doubled, divides a larger one. */
  lemma {:induction false} Pow2Multiple(n: int, h: int)
    requires IsPow2(n) && IsPow2(h) && h < n
    ensures Multiple(n, 2 * h)
    decreases n
  {
    var m := n / 2;
    Pow2Gap(h, n);
    if h < m {
      Pow2Multiple(m, h);
      MultipleAdd(m, m, 2 * h);
    } else {
      assert n - 2 * h == 0;
    }
  }

  /** Entry by entry f of two tables of the same length. */
  function Zip<T>(f: (T, T) -> T, x: seq<T>, y: seq<T>): (r: seq<T>)
    requires |x| == |y|
    ensures |r| == |x| && forall t {:trigger r[t]} :: 0 <= t < |x| ==> r[t] == f(x[t], y[t])
  {
    seq(|x|, t requires 0 <= t < |x| => f(x[t], y[t]))
  }

  /** The transform: halves first, then f and g across them. */
  function Transform<T>(f: (T, T) -> T, g: (T, T) -> T, v: seq<T>): (r: seq<T>)
    requires IsPow2(|v|)
    ensures |r| == |v|
    decreases |v|
  {
    if |v| == 1 then v
    else
      var h := |v| / 2;
      var lo := Transform(f, g, v[..h]);
      var hi := Transform(f, g, v[h..]);
      seq(|v|, p requires 0 <= p < |v| => if p < h then f(lo[p], hi[p]) else g(lo[p - h], hi[p - h]))
  }

  /** Entry u of the transform of more than one entry: f or g of entry u
      of the transformed halves, u taken modulo the half. */
  lemma TransformEntry<T>(f: (T, T) -> T, g: (T, T) -> T, v: seq<T>, u: int)
    requires IsPow2(|v|) && |v| > 1 && 0 <= u < |v|
    ensures var h := |v| / 2;
            var lo := Transform(f, g, v[..h]);
            var hi := Transform(f, g, v[h..]);
            Transform(f, g, v)[u] == if u < h then f(lo[u], hi[u]) else g(lo[u - h], hi[u - h])
  {
  }

  /** The table with every block of m entries transformed on its own. */
  function BlockT<T>(f: (T, T) -> T, g: (T, T) -> T, v: seq<T>, m: int): (r: seq<T>)
    requires IsPow2(m) && Multiple(|v|, m)
    ensures |r| == |v|
    decreases |v|
  {
    if |v| == 0 then [] else Transform(f, g, v[..m]) + BlockT(f, g, v[m..], m)
  }

  /** Blocks of one entry: nothing has been transformed yet. */
  lemma {:induction false} BlockTOne<T>(f: (T, T) -> T, g: (T, T) -> T, v: seq<T>)
    ensures Multiple(|v|, 1) && BlockT(f, g, v, 1) == v
    decreases |v|
  {
    if |v| > 0 {
      BlockTOne(f, g, v[1..]);
      assert v == v[..1] + v[1..];
    }
  }

  /** One block as long as the table: the whole transform. */
  lemma BlockTWhole<T>(f: (T, T) -> T, g: (T, T) -> T, v: seq<T>)
    requires IsPow2(|v|)
    ensures Multiple(|v|, |v|) && BlockT(f, g, v, |v|) == Transform(f, g, v)
  {
    assert Multiple(|v| - |v|, |v|);
    assert v[..|v|] == v;
  }

  /** The transform of a table of 2h entries, by its halves. */
  lemma TransformSplit<T>(f: (T, T) -> T, g: (T, T) -> T, b: seq<T>, h: int)
    requires IsPow2(h) && |b| == 2 * h
    ensures IsPow2(|b|)
    ensures Transform(f, g, b)
         == Zip(f, Transform(f, g, b[..h]), Transform(f, g, b[h..])) + Zip(g, Transform(f, g, b[..h]), Transform(f, g, b[h..]))
  {
    assert |b| / 2 == h;
    var lo := Transform(f, g, b[..h]);
    var hi := Transform(f, g, b[h..]);
    assert Transform(f, g, b) == Zip(f, lo, hi) + Zip(g, lo, hi);
  }

  /** The offset of position p inside its block of m entries (p mod m, by
      repeated subtraction). */
  function Offset(p: int, m: int): (o: int)
    requires p >= 0 && m > 0
    ensures 0 <= o < m && o <= p
    decreases p
  {
    if p < m then p else Offset(p - m, m)
  }

  /** The block of p starts at a multiple of m. */
  lemma {:induction false} OffsetStart(p: int, m: int)
    requires p >= 0 && m > 0
    ensures Multiple(p - Offset(p, m), m)
    decreases p
  {
    if p >= m {
      OffsetStart(p - m, m);
      assert p - Offset(p, m) == (p - m - Offset(p - m, m)) + m;
      MultipleAdd(p - m - Offset(p - m, m), m, m);
    }
  }

  /** Position t of the block of m entries that starts at i has offset t. */
  lemma {:induction false} OffsetInBlock(i: int, t: int, m: int)
    requires m > 0 && Multiple(i, m) && 0 <= t < m
    ensures Offset(i + t, m) == t
    decreases if i > 0 then i else 0
  {
    if i != 0 {
      OffsetInBlock(i - m, t, m);
    }
  }

  /** The block of 2h entries that holds p lies inside the table. */
  lemma PassIndex(n: int, h: int, p: int)
    requires h > 0 && Multiple(n, 2 * h) && 0 <= p < n
    ensures Offset(p, 2 * h) < h ==> p + h < n
    ensures Offset(p, 2 * h) >= h ==> p - h >= 0
  {
    OffsetStart(p, 2 * h);
    MultipleGap(p - Offset(p, 2 * h), n, 2 * h);
  }

  /** One pass of the in-place loops with half-block h: in every block of
      2h entries, entry t becomes f and entry h + t becomes g of the old
      entries t and h + t. */
  function Pass<T>(f: (T, T) -> T, g: (T, T) -> T, a: seq<T>, h: int): (r: seq<T>)
    requires h > 0 && Multiple(|a|, 2 * h)
    ensures |r| == |a|
  {
    seq(|a|, p requires 0 <= p < |a| =>
      PassIndex(|a|, h, p);
      if Offset(p, 2 * h) < h then f(a[p], a[p + h]) else g(a[p - h], a[p]))
  }

  /** Entry p of a pass, for p in the block of 2h entries at i. */
  lemma PassEntry<T>(f: (T, T) -> T, g: (T, T) -> T, a: seq<T>, h: int, i: int, p: int)
    requires h > 0 && Multiple(|a|, 2 * h) && Multiple(i, 2 * h) && i + 2 * h <= |a|
    requires i <= p < i + 2 * h
    ensures Pass(f, g, a, h)[p] == if p < i + h then f(a[p], a[p + h]) else g(a[p - h], a[p])
  {
    OffsetInBlock(i, p - i, 2 * h);
  }

  /** The first block of BlockT and the blocks after it. */
  lemma BlockTFront<T>(f: (T, T) -> T, g: (T, T) -> T, v: seq<T>, m: int)
    requires IsPow2(m) && Multiple(|v|, m) && |v| > 0
    ensures m <= |v| && Multiple(|v[m..]|, m)
    ensures BlockT(f, g, v, m) == Transform(f, g, v[..m]) + BlockT(f, g, v[m..], m)
  {
  }

  /** The first two blocks of h entries of BlockT, when 2h divides the length. */
  lemma BlockTTwo<T>(f: (T, T) -> T, g: (T, T) -> T, v: seq<T>, h: int)
    requires IsPow2(h) && Multiple(|v|, 2 * h) && |v| > 0
    ensures Multiple(|v|, h) && Multiple(|v[2 * h..]|, h)
    ensures BlockT(f, g, v, h)
         == Transform(f, g, v[..2 * h][..h]) + Transform(f, g, v[..2 * h][h..]) + BlockT(f, g, v[2 * h..], h)
  {
    MultipleHalf(|v|, h);
    BlockTFront(f, g, v, h);
    BlockTFront(f, g, v[h..], h);
    TwoBlockSlices(v, h);
    AppendAssociates(Transform(f, g, v[..h]), Transform(f, g, v[h..][..h]), BlockT(f, g, v[h..][h..], h));
  }

  lemma AppendAssociates<T>(a: seq<T>, b: seq<T>, c: seq<T>)
    ensures a + (b + c) == a + b + c
  {
  }

  /** The slices of the first two blocks of h entries. */
  lemma TwoBlockSlices<T>(v: seq<T>, h: int)
    requires 0 <= h && 2 * h <= |v|
    ensures v[h..][h..] == v[2 * h..]
    ensures v[h..][..h] == v[..2 * h][h..]
    ensures v[..h] == v[..2 * h][..h]
  {
  }

  /** A pass starts with the butterflies of its first block. */
  lemma PassFront<T>(f: (T, T) -> T, g: (T, T) -> T, x: seq<T>, y: seq<T>, rest: seq<T>, h: int)
    requires h > 0 && |x| == h && |y| == h && Multiple(|rest|, 2 * h)
    ensures Multiple(|x + y + rest|, 2 * h)
    ensures Pass(f, g, x + y + rest, h) == Zip(f, x, y) + Zip(g, x, y) + Pass(f, g, rest, h)
  {
    var cur := x + y + rest;
    assert |cur| - 2 * h == |rest|;
    var lhs := Pass(f, g, cur, h);
    var rhs := Zip(f, x, y) + Zip(g, x, y) + Pass(f, g, rest, h);
    forall p | 0 <= p < |cur| ensures lhs[p] == rhs[p] {
      if p >= 2 * h {
        assert Offset(p, 2 * h) == Offset(p - 2 * h, 2 * h);
        assert rhs[p] == Pass(f, g, rest, h)[p - 2 * h];
      }
    }
  }

  /** A pass over blocks transformed with h entries gives the blocks
      transformed with 2h entries. */
  lemma {:induction false} PassBlocks<T>(f: (T, T) -> T, g: (T, T) -> T, v: seq<T>, h: int)
    requires IsPow2(h) && Multiple(|v|, 2 * h)
    ensures Multiple(|v|, h) && IsPow2(2 * h)
    ensures Pass(f, g, BlockT(f, g, v, h), h) == BlockT(f, g, v, 2 * h)
    decreases |v|
  {
    MultipleHalf(|v|, h);
    assert IsPow2(2 * h);
    if |v| > 0 {
      var w := v[2 * h..];
      var b := v[..2 * h];
      BlockTTwo(f, g, v, h);
      var x := Transform(f, g, b[..h]);
      var y := Transform(f, g, b[h..]);
      PassFront(f, g, x, y, BlockT(f, g, w, h), h);
      PassBlocks(f, g, w, h);
      TransformSplit(f, g, b, h);
      assert BlockT(f, g, v, 2 * h) == Transform(f, g, b) + BlockT(f, g, w, 2 * h);
    }
  }
}
