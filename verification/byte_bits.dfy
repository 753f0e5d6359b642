/** A byte as the list of its eight bits, least significant first, the way
    app/utils/math_gf2.py reads a byte (`(x >> i) & 1` for i = 0 .. 7) and
    builds one back (`result |= 1 << row`). Vectors over GF(2) are lists of
    bv1 values; their sum is the entrywise exclusive or. */
module ByteBits {

  lemma Bv1Cases(b: bv1)
    ensures b == 0 || b == 1
  {}

  /** Bit k of x. */
  function Bit(x: bv8, k: bv3): bv1 {
    ((x >> k) & 1) as bv1
  }

  /** Bit i + 1 of x is bit i of x shifted right by one. */
  lemma BitOfShift(x: bv8, i: nat)
    requires i < 7
    ensures Bit(x, (i + 1) as bv3) == Bit(x >> 1, i as bv3)
  {
  }

  /** The bits of x, least significant first. */
  function Bits(x: bv8): (v: seq<bv1>)
    ensures |v| == 8
  {
    seq(8, i requires 0 <= i < 8 => Bit(x, i as bv3))
  }

  /** The byte whose bit i is v[i]. */
  function FromBits(v: seq<bv1>): bv8
    requires |v| == 8
  {
    (v[0] as bv8) | ((v[1] as bv8) << 1) | ((v[2] as bv8) << 2) | ((v[3] as bv8) << 3)
    | ((v[4] as bv8) << 4) | ((v[5] as bv8) << 5) | ((v[6] as bv8) << 6) | ((v[7] as bv8) << 7)
  }

  /** Entrywise sum over GF(2). */
  function XorRows(a: seq<bv1>, b: seq<bv1>): (r: seq<bv1>)
    requires |a| == |b|
    ensures |r| == |a| && forall j :: 0 <= j < |a| ==> r[j] == a[j] ^ b[j]
  {
    seq(|a|, j requires 0 <= j < |a| => a[j] ^ b[j])
  }

  const Zeros: seq<bv1> := [0, 0, 0, 0, 0, 0, 0, 0]

  lemma BitsOfFromBits(v: seq<bv1>)
    requires |v| == 8
    ensures Bits(FromBits(v)) == v
  {
    var b := Bits(FromBits(v));
    assert b[0] == v[0] && b[1] == v[1] && b[2] == v[2] && b[3] == v[3];
    assert b[4] == v[4] && b[5] == v[5] && b[6] == v[6] && b[7] == v[7];
  }

  /** A byte is determined by its bits. */
  lemma BitsInjective(a: bv8, b: bv8)
    ensures Bits(a) == Bits(b) <==> a == b
  {
    if Bits(a) == Bits(b) {
      assert Bits(a)[0] == Bits(b)[0] && Bits(a)[1] == Bits(b)[1] && Bits(a)[2] == Bits(b)[2] && Bits(a)[3] == Bits(b)[3];
      assert Bits(a)[4] == Bits(b)[4] && Bits(a)[5] == Bits(b)[5] && Bits(a)[6] == Bits(b)[6] && Bits(a)[7] == Bits(b)[7];
    }
  }

  lemma BitOfXor(a: bv8, b: bv8, k: bv3)
    ensures Bit(a ^ b, k) == Bit(a, k) ^ Bit(b, k)
  {}

  /** The bits of a sum are the sums of the bits. */
  lemma BitsOfXor(a: bv8, b: bv8)
    ensures Bits(a ^ b) == XorRows(Bits(a), Bits(b))
  {
    forall i | 0 <= i < 8 ensures Bits(a ^ b)[i] == XorRows(Bits(a), Bits(b))[i] {
      BitOfXor(a, b, i as bv3);
    }
  }

  lemma BitsOfZero()
    ensures Bits(0) == Zeros
  {}

  lemma SetBitAt(r: bv8, k: bv3, j: bv3)
    ensures Bit(r | (1 << k), j) == if j == k then 1 else Bit(r, j)
  {}

  /** Setting bit `row` changes that bit and no other. */
  lemma SetBit(r: bv8, row: nat, k: nat)
    requires row < 8 && k < 8
    ensures Bits(r | (1 << row))[k] == if k == row then 1 else Bits(r)[k]
  {
    var kk := k as bv3;
    assert Bits(r | (1 << row))[k] == Bit(r | (1 << row), kk);
    assert Bits(r)[k] == Bit(r, kk);
    var rr: bv3 := row as bv3;
    assert (1 as bv8) << row == (1 as bv8) << rr by {
      if row == 0 {} else if row == 1 {} else if row == 2 {} else if row == 3 {}
      else if row == 4 {} else if row == 5 {} else if row == 6 {} else {}
    }
    SetBitAt(r, rr, kk);
    assert (kk == rr) == (k == row) by {
      if row == 0 {} else if row == 1 {} else if row == 2 {} else if row == 3 {}
      else if row == 4 {} else if row == 5 {} else if row == 6 {} else {}
    }
  }

  /** `(x >> i) & 1` with an integer shift is bit i of x. */
  lemma ShiftedBit(x: bv8, i: nat)
    requires i < 8
    ensures ((x >> i) & 1) as bv1 == Bits(x)[i]
  {
    var ii := i as bv3;
    assert Bits(x)[i] == Bit(x, ii);
    assert x >> i == x >> ii by {
      if i == 0 {} else if i == 1 {} else if i == 2 {} else if i == 3 {}
      else if i == 4 {} else if i == 5 {} else if i == 6 {} else {}
    }
  }
}
