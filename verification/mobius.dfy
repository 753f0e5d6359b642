/** The Moebius transform of the algebraic-degree metric
    (app/utils/crypto_metrics.py, calculate_ad): it turns the truth table of
    a Boolean function into the coefficients of its algebraic normal form.
    The 0 and 1 entries of the tables calculate_ad builds are false and true
    here, and its exclusive or on them is inequality. Anf is the transform defined by
    halves, Mobius the in-place butterfly loop that computes it; the lemmas
    give its linearity, that it is its own inverse, and that coefficient u
    is the parity of the table over the subsets x of u. */
module Mobius {
  import opened Butterfly
  import opened Bits

  function Keep(x: bool, y: bool): bool { x }

  function Xor(x: bool, y: bool): bool { x != y }

  /** Coefficient u of the algebraic normal form of the table v: below the
      half h it is coefficient u of the lower half, above it the exclusive
      or of coefficient u - h of both halves. */
  function AnfCoef(v: seq<bool>, u: int): bool
    requires IsPow2(|v|) && 0 <= u < |v|
    decreases |v|
  {
    if |v| == 1 then v[0]
    else
      var h := |v| / 2;
      if u < h then AnfCoef(v[..h], u)
      else AnfCoef(v[..h], u - h) != AnfCoef(v[h..], u - h)
  }

  /** The algebraic normal form, as a table of coefficients. */
  function Anf(v: seq<bool>): (r: seq<bool>)
    requires IsPow2(|v|)
    ensures |r| == |v|
  {
    seq(|v|, u requires 0 <= u < |v| => AnfCoef(v, u))
  }

  /** AnfCoef is entry u of the butterfly transform that keeps the lower
      entry and adds it into the upper one. */
  lemma {:induction false} TransformAnf(v: seq<bool>, u: int)
    requires IsPow2(|v|) && 0 <= u < |v|
    ensures Transform(Keep, Xor, v)[u] == AnfCoef(v, u)
    decreases |v|
  {
    if |v| > 1 {
      var h := |v| / 2;
      TransformEntry(Keep, Xor, v, u);
      if u < h {
        TransformAnf(v[..h], u);
      } else {
        TransformAnf(v[..h], u - h);
        TransformAnf(v[h..], u - h);
      }
    }
  }

  /** The innermost loop of the transform: in the block of 2h entries at i,
      entry p + h of the upper half becomes the exclusive or of itself and
      entry p; nothing else changes. */
  method BlockXors(a0: seq<bool>, i: int, h: int) returns (a: seq<bool>)
    requires 0 < h && 0 <= i && i + 2 * h <= |a0|
    ensures |a| == |a0|
    ensures forall p :: i + h <= p < i + 2 * h ==> a[p] == (a0[p - h] != a0[p])
    ensures forall p :: 0 <= p < i + h || i + 2 * h <= p < |a0| ==> a[p] == a0[p]
  {
    a := a0;
    for k := i to i + h
      invariant |a| == |a0|
      invariant forall p :: i + h <= p < k + h ==> a[p] == (a0[p - h] != a0[p])
      invariant forall p :: 0 <= p < i + h || k + h <= p < |a0| ==> a[p] == a0[p]
    {
      a := a[k + h := a[k + h] != a[k]];
    }
  }

  /** The entries of one block after its exclusive ors are those of the pass. */
  lemma PassBlock(a0: seq<bool>, a: seq<bool>, h: int, i: int)
    requires IsPow2(h) && Multiple(|a0|, 2 * h) && Multiple(i, 2 * h) && i + 2 * h <= |a0| && |a| == |a0|
    requires forall p :: i <= p < i + h ==> a[p] == a0[p]
    requires forall p :: i + h <= p < i + 2 * h ==> a[p] == (a0[p - h] != a0[p])
    ensures forall p :: i <= p < i + 2 * h ==> a[p] == Pass(Keep, Xor, a0, h)[p]
  {
    forall p | i <= p < i + 2 * h ensures a[p] == Pass(Keep, Xor, a0, h)[p] {
      PassEntry(Keep, Xor, a0, h, i, p);
      if p < i + h {
        assert Pass(Keep, Xor, a0, h)[p] == Keep(a0[p], a0[p + h]);
      } else {
        assert Pass(Keep, Xor, a0, h)[p] == Xor(a0[p - h], a0[p]);
      }
    }
  }

  /** One pass, for step h: the exclusive ors of every block of 2h entries. */
  method MobiusPass(a0: seq<bool>, h: int) returns (a: seq<bool>)
    requires IsPow2(h) && Multiple(|a0|, 2 * h)
    ensures a == Pass(Keep, Xor, a0, h)
  {
    a := a0;
    var j := 0;
    while j < |a|
      invariant 0 <= j <= |a| && |a| == |a0| && Multiple(j, 2 * h)
      invariant forall p {:trigger a[p]} :: 0 <= p < j ==> a[p] == Pass(Keep, Xor, a0, h)[p]
      invariant forall p {:trigger a[p]} :: j <= p < |a| ==> a[p] == a0[p]
      decreases |a| - j
    {
      MultipleGap(j, |a|, 2 * h);
      a := BlockXors(a, j, h);
      PassBlock(a0, a, h, j);
      j := j + 2 * h;
    }
  }

  /** Pass i of the transform of a 256-entry table, with step 1 << i:
      it takes the blocks of 1 << i entries to those of twice as many. */
  method MobiusStep(a0: seq<bool>, a: seq<bool>, i: nat) returns (b: seq<bool>)
    requires |a0| == 256 && i < 8 && IsPow2(|a0|)
    requires Multiple(256, Pow2(i)) && a == BlockT(Keep, Xor, a0, Pow2(i))
    ensures Multiple(256, Pow2(i + 1)) && b == BlockT(Keep, Xor, a0, Pow2(i + 1))
  {
    var step := Pow2(i);
    assert step < 256 by {
      Pow2Monotone(i, 7);
    }
    Pow2Multiple(256, step);
    Pow2Gap(step, 256);
    PassBlocks(Keep, Xor, a0, step);
    b := MobiusPass(a, step);
  }

  /** The transform of a 256-entry table as calculate_ad runs it: on the
      table itself, passes with step 1 << i for i = 0, ..., 7. */
  method MobiusTransform(a0: seq<bool>) returns (a: seq<bool>)
    requires |a0| == 256
    ensures a == Anf(a0)
  {
    assert Pow2(8) == 256;
    a := a0;
    BlockTOne(Keep, Xor, a0);
    for i := 0 to 8
      invariant Multiple(256, Pow2(i)) && a == BlockT(Keep, Xor, a0, Pow2(i))
    {
      a := MobiusStep(a0, a, i);
    }
    BlockTWhole(Keep, Xor, a0);
    forall u | 0 <= u < 256 ensures a[u] == Anf(a0)[u] {
      TransformAnf(a0, u);
    }
  }

  /** The transform is linear over GF(2): a table that is entry by entry
      the exclusive or of two tables has as coefficients the exclusive or
      of theirs. */
  lemma {:induction false} AnfXor(x: seq<bool>, y: seq<bool>, z: seq<bool>, u: int)
    requires IsPow2(|x|) && |y| == |x| && |z| == |x| && 0 <= u < |x|
    requires forall p :: 0 <= p < |x| ==> z[p] == (x[p] != y[p])
    ensures AnfCoef(z, u) == (AnfCoef(x, u) != AnfCoef(y, u))
    decreases |x|
  {
    if |x| > 1 {
      var h := |x| / 2;
      if u < h {
        AnfXor(x[..h], y[..h], z[..h], u);
      } else {
        AnfXor(x[..h], y[..h], z[..h], u - h);
        AnfXor(x[h..], y[h..], z[h..], u - h);
      }
    }
  }

  /** The halves of the coefficient table: the lower half is the table of
      the lower half, the upper half the exclusive or of both halves'. */
  lemma AnfHalves(v: seq<bool>)
    requires IsPow2(|v|) && |v| > 1
    ensures IsPow2(|v| / 2)
    ensures forall p :: 0 <= p < |v| / 2 ==>
      Anf(v)[..|v| / 2][p] == Anf(v[..|v| / 2])[p]
    ensures forall p :: 0 <= p < |v| / 2 ==>
      Anf(v)[|v| / 2..][p] == (Anf(v[..|v| / 2])[p] != Anf(v[|v| / 2..])[p])
  {
  }

  /** Tables that agree entry by entry have the same coefficients. */
  lemma AnfSame(x: seq<bool>, y: seq<bool>, u: int)
    requires IsPow2(|x|) && |y| == |x| && 0 <= u < |x|
    requires forall p :: 0 <= p < |x| ==> x[p] == y[p]
    ensures AnfCoef(x, u) == AnfCoef(y, u)
  {
    assert x == y;
  }

  /** The transform is its own inverse: the coefficients of the
      coefficients are the truth table again. */
  lemma {:induction false} AnfTwice(v: seq<bool>, u: int)
    requires IsPow2(|v|) && 0 <= u < |v|
    ensures AnfCoef(Anf(v), u) == v[u]
    decreases |v|
  {
    if |v| > 1 {
      var h := |v| / 2;
      var k := if u < h then u else u - h;
      var lo := v[..h];
      var hi := v[h..];
      var w := Anf(v);
      AnfHalves(v);
      AnfTwice(lo, k);
      AnfSame(w[..h], Anf(lo), k);
      if u >= h {
        AnfXor(Anf(lo), Anf(hi), w[h..], k);
        AnfTwice(hi, k);
        assert v[u] == hi[k];
      }
    }
  }

  /** The whole table, as the inverse statement on sequences. */
  lemma AnfInvolution(v: seq<bool>)
    requires IsPow2(|v|)
    ensures Anf(Anf(v)) == v
  {
    forall u | 0 <= u < |v| ensures Anf(Anf(v))[u] == v[u] {
      AnfTwice(v, u);
    }
  }

  /** x is a subset of u: every bit of x is a bit of u. */
  predicate Below(x: nat, u: nat)
  {
    AndBits(x, u) == x
  }

  /** Entry x of v when x is a subset of u, and false otherwise. */
  function SubsetTerm(v: seq<bool>, u: nat, x: int): bool
    requires 0 <= x < |v|
  {
    v[x] && Below(x, u)
  }

  /** The parity of the entries s, s + 1, ..., s + m - 1 of v whose index
      is a subset of u. */
  function SubsetParity(v: seq<bool>, u: nat, s: nat, m: nat): bool
    requires s + m <= |v|
  {
    if m == 0 then false
    else SubsetParity(v, u, s, m - 1) != SubsetTerm(v, u, s + m - 1)
  }

  /** A parity splits at h. */
  lemma {:induction false} SubsetParitySplit(v: seq<bool>, u: nat, h: nat, m: nat)
    requires h + m <= |v|
    ensures SubsetParity(v, u, 0, h + m) == (SubsetParity(v, u, 0, h) != SubsetParity(v, u, h, m))
  {
    if m > 0 {
      SubsetParitySplit(v, u, h, m - 1);
    }
  }

  /** Parities of terms that agree one by one agree. */
  lemma {:induction false} SubsetParityMatch(v: seq<bool>, u: nat, s: nat, w: seq<bool>, k: nat, m: nat)
    requires s + m <= |v| && m <= |w|
    requires forall x :: 0 <= x < m ==> SubsetTerm(v, u, s + x) == SubsetTerm(w, k, x)
    ensures SubsetParity(v, u, s, m) == SubsetParity(w, k, 0, m)
  {
    if m > 0 {
      SubsetParityMatch(v, u, s, w, k, m - 1);
    }
  }

  /** The parity of terms that are all false is false. */
  lemma {:induction false} SubsetParityNone(v: seq<bool>, u: nat, s: nat, m: nat)
    requires s + m <= |v|
    requires forall x :: s <= x < s + m ==> !SubsetTerm(v, u, x)
    ensures !SubsetParity(v, u, s, m)
  {
    if m > 0 {
      SubsetParityNone(v, u, s, m - 1);
    }
  }

  /** For x and u below the power of two h: adding h to u alone keeps x
      below it, x + h is never below u, and adding h to both keeps the
      relation. */
  lemma BelowHigh(x: nat, u: nat, h: int)
    requires IsPow2(h) && x < h && u < h
    ensures Below(x, u + h) == Below(x, u)
    ensures !Below(x + h, u)
    ensures Below(x + h, u + h) == Below(x, u)
  {
    AndBitsHigh(x, u, h);
  }

  /** The terms of the two halves, against those of the halves alone. */
  lemma SubsetTermHalves(v: seq<bool>, u: nat, x: nat)
    requires IsPow2(|v|) && |v| > 1 && u < |v| && x < |v| / 2
    ensures var h := |v| / 2;
            var k := if u < h then u else u - h;
            SubsetTerm(v, u, x) == SubsetTerm(v[..h], k, x)
            && SubsetTerm(v, u, h + x) == if u < h then false else SubsetTerm(v[h..], k, x)
  {
    var h := |v| / 2;
    var k := if u < h then u else u - h;
    assert IsPow2(h);
    BelowHigh(x, k, h);
    assert h + x == x + h;
    assert v[..h][x] == v[x] && v[h..][x] == v[h + x];
  }

  /** The parities over the two halves, against those of the halves alone. */
  lemma HalfParities(v: seq<bool>, u: nat)
    requires IsPow2(|v|) && |v| > 1 && u < |v|
    ensures var h := |v| / 2;
            var k := if u < h then u else u - h;
            SubsetParity(v, u, 0, h) == SubsetParity(v[..h], k, 0, h)
            && SubsetParity(v, u, h, h) == if u < h then false else SubsetParity(v[h..], k, 0, h)
  {
    var h := |v| / 2;
    var k := if u < h then u else u - h;
    forall x | 0 <= x < h ensures SubsetTerm(v, u, 0 + x) == SubsetTerm(v[..h], k, x) {
      SubsetTermHalves(v, u, x);
    }
    SubsetParityMatch(v, u, 0, v[..h], k, h);
    if u < h {
      forall x | h <= x < h + h ensures !SubsetTerm(v, u, x) {
        SubsetTermHalves(v, u, x - h);
      }
      SubsetParityNone(v, u, h, h);
    } else {
      forall x | 0 <= x < h ensures SubsetTerm(v, u, h + x) == SubsetTerm(v[h..], k, x) {
        SubsetTermHalves(v, u, x);
      }
      SubsetParityMatch(v, u, h, v[h..], k, h);
    }
  }

  /** Coefficient u of the algebraic normal form is the parity of the
      table over the indices x that are subsets of u. */
  lemma {:induction false} AnfIsSubsetParity(v: seq<bool>, u: nat)
    requires IsPow2(|v|) && u < |v|
    ensures AnfCoef(v, u) == SubsetParity(v, u, 0, |v|)
    decreases |v|
  {
    if |v| == 1 {
      assert AndBits(0, u) == 0;
      assert SubsetParity(v, u, 0, 1) == SubsetTerm(v, u, 0);
    } else {
      var h := |v| / 2;
      var k := if u < h then u else u - h;
      var total := SubsetParity(v, u, 0, |v|);
      assert total == (SubsetParity(v, u, 0, h) != SubsetParity(v, u, h, h)) by {
        assert |v| == h + h;
        SubsetParitySplit(v, u, h, h);
      }
      HalfParities(v, u);
      AnfIsSubsetParity(v[..h], k);
      AnfIsSubsetParity(v[h..], k);
    }
  }
}
