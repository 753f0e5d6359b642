/** app/utils/math_gf2.py: the multiplicative inverse in GF(2^8) by
    exhaustive search, the precomputed inverse table, the invertibility test
    of an 8x8 matrix over GF(2) by Gaussian elimination, and the affine map
    B(x) = M.x + 0x63 of the S-box construction (section 5.1.1 of FIPS 197,
    with an arbitrary matrix M in place of the standard circulant one).
    Bytes are bv8; the matrix entries, drawn by the random generator as 0 or
    1, are bv1. */
module MathGF2 {
  import opened GF256
  import opened GF256Inverse
  import opened Tables
  import opened ByteBits
  import opened GF2Matrix

  /** The additive constant of the affine map (app/core/constants.py:8). */
  const AffineConstant: bv8 := 0x63

  /** The affine map on bit vectors: M.v plus the bits of 0x63. */
  function AffineVec(m: Matrix, v: seq<bv1>): (r: seq<bv1>)
    requires IsMatrix(m) && |v| == 8
    ensures |r| == 8
  {
    XorRows(MulVec(m, v), Bits(AffineConstant))
  }

  /** The affine map of the S-box construction on a byte: bit `row` of the
      result is row `row` of M times the bits of x, plus bit `row` of 0x63. */
  function Affine(x: bv8, m: Matrix): (r: bv8)
    requires IsMatrix(m)
    ensures Bits(r) == AffineVec(m, Bits(x))
    ensures forall row :: 0 <= row < 8 ==> Bits(r)[row] == Dot(m[row], Bits(x), 8) ^ Bits(AffineConstant)[row]
  {
    BitsOfFromBits(AffineVec(m, Bits(x)));
    FromBits(AffineVec(m, Bits(x)))
  }

  /** apply_affine_transform: one row of the matrix at a time, each product
      bit accumulated with exclusive or, then the constant bit added and the
      result bit set. */
  method ApplyAffineTransform(byteVal: bv8, matrix: Matrix) returns (result: bv8)
    requires IsMatrix(matrix)
    ensures result == Affine(byteVal, matrix)
  {
    ghost var target := AffineVec(matrix, Bits(byteVal));
    result := 0;
    BitsOfZero();
    var bits := Bits(byteVal);
    for row := 0 to 8
      invariant forall k :: 0 <= k < 8 ==> Bits(result)[k] == if k < row then target[k] else 0
    {
      var val: bv1 := 0;
      for col := 0 to 8
        invariant val == Dot(matrix[row], bits, col)
      {
        val := val ^ (matrix[row][col] & bits[col]);
      }
      ShiftedBit(AffineConstant, row);
      val := val ^ ((AffineConstant >> row) & 1) as bv1;
      assert val == target[row];
      if val == 1 {
        forall k | 0 <= k < 8 ensures Bits(result | (1 << row))[k] == if k == row then 1 else Bits(result)[k] {
          SetBit(result, row, k);
        }
        result := result | (1 << row);
      }
    }
    assert Bits(result) == Bits(Affine(byteVal, matrix));
    BitsInjective(result, Affine(byteVal, matrix));
  }

  /** The image of 0 is the constant 0x63, whatever the matrix. */
  lemma AffineOfZero(m: Matrix)
    requires IsMatrix(m)
    ensures Affine(0, m) == AffineConstant
  {
    BitsOfZero();
    MulVecIsLinear(m, Zeros, Zeros);
    assert Bits(Affine(0, m)) == Bits(AffineConstant);
    BitsInjective(Affine(0, m), AffineConstant);
  }

  lemma XorCancel(p: seq<bv1>, q: seq<bv1>, c: seq<bv1>)
    requires |p| == |q| == |c|
    ensures XorRows(XorRows(XorRows(p, c), XorRows(q, c)), c) == XorRows(XorRows(p, q), c)
    ensures XorRows(p, c) == XorRows(q, c) ==> p == q
  {
    if XorRows(p, c) == XorRows(q, c) {
      forall i | 0 <= i < |p| ensures p[i] == q[i] {
        assert XorRows(p, c)[i] == XorRows(q, c)[i];
      }
    }
  }

  lemma BitsOfAffineOfSum(m: Matrix, x: bv8, y: bv8)
    requires IsMatrix(m)
    ensures Bits(Affine(x ^ y, m)) == XorRows(XorRows(MulVec(m, Bits(x)), MulVec(m, Bits(y))), Bits(AffineConstant))
  {
    BitsOfXor(x, y);
    MulVecIsLinear(m, Bits(x), Bits(y));
  }

  lemma BitsOfSumOfAffine(m: Matrix, x: bv8, y: bv8)
    requires IsMatrix(m)
    ensures Bits(Affine(x, m) ^ Affine(y, m) ^ AffineConstant)
         == XorRows(XorRows(MulVec(m, Bits(x)), MulVec(m, Bits(y))), Bits(AffineConstant))
  {
    var a, b := Affine(x, m), Affine(y, m);
    BitsOfXor(a, b);
    BitsOfXor(a ^ b, AffineConstant);
    XorCancel(MulVec(m, Bits(x)), MulVec(m, Bits(y)), Bits(AffineConstant));
  }

  /** The map is affine: the images of x, y and x ^ y differ by the constant. */
  lemma AffineIsAffine(m: Matrix, x: bv8, y: bv8)
    requires IsMatrix(m)
    ensures Affine(x ^ y, m) == Affine(x, m) ^ Affine(y, m) ^ AffineConstant
  {
    BitsOfAffineOfSum(m, x, y);
    BitsOfSumOfAffine(m, x, y);
    BitsInjective(Affine(x ^ y, m), Affine(x, m) ^ Affine(y, m) ^ AffineConstant);
  }

  /** With an invertible matrix, distinct bytes have distinct images. */
  lemma AffineInjective(m: Matrix, x: bv8, y: bv8)
    requires IsMatrix(m) && Invertible(m)
    ensures Affine(x, m) == Affine(y, m) <==> x == y
  {
    if Affine(x, m) == Affine(y, m) {
      XorCancel(MulVec(m, Bits(x)), MulVec(m, Bits(y)), Bits(AffineConstant));
      InvertibleIsInjective(m, Bits(x), Bits(y));
      BitsInjective(x, y);
    }
  }

  /** The affine map on all 256 bytes, as a table. */
  function AffineTable(m: Matrix): (t: seq<bv8>)
    requires IsMatrix(m)
    ensures |t| == 256 && forall x :: 0 <= x < 256 ==> t[x] == Affine(x as bv8, m)
  {
    seq(256, x requires 0 <= x < 256 => Affine(x as bv8, m))
  }

  /** With an invertible matrix the affine map is a bijection on the bytes. */
  lemma AffineBijective(m: Matrix)
    requires IsMatrix(m) && Invertible(m)
    ensures IsPermutation(AffineTable(m))
  {
    var t := AffineTable(m);
    forall i, j | 0 <= i < j < 256 ensures t[i] != t[j] {
      ByteCastInjective(i, j);
      AffineInjective(m, i as bv8, j as bv8);
    }
  }

  /** The pivot search of is_invertible_gf2: the first row at or below col
      with a one in column col, or -1 when there is none. */
  method FindPivot(m: Matrix, col: nat) returns (pivot: int)
    requires IsMatrix(m) && col < 8
    ensures pivot == -1 || col <= pivot < 8
    ensures pivot == -1 ==> forall r :: col <= r < 8 ==> m[r][col] != 1
    ensures pivot != -1 ==> m[pivot][col] == 1 && forall r :: col <= r < pivot ==> m[r][col] != 1
  {
    pivot := -1;
    var row := col;
    while row < 8
      invariant col <= row <= 8
      invariant forall r :: col <= r < row ==> m[r][col] != 1
    {
      if m[row][col] == 1 {
        pivot := row;
        break;
      }
      row := row + 1;
    }
  }

  /** The elimination step of is_invertible_gf2: `m[row][k] ^= m[col][k]`
      for every k. */
  method AddRow(m: Matrix, row: nat, col: nat) returns (s: Matrix)
    requires IsMatrix(m) && row < 8 && col < 8 && row != col
    ensures s == AddRowTo(m, row, col)
  {
    s := m;
    for k := 0 to 8
      invariant |s| == 8 && forall r :: 0 <= r < 8 && r != row ==> s[r] == m[r]
      invariant |s[row]| == 8
      invariant forall j :: 0 <= j < 8 ==> s[row][j] == if j < k then m[row][j] ^ m[col][j] else m[row][j]
    {
      s := s[row := s[row][k := s[row][k] ^ s[col][k]]];
    }
    AddRowByEntries(m, s, row, col);
  }

  /** is_invertible_gf2: Gaussian elimination over GF(2) on a copy of the
      matrix, true exactly when every column finds a pivot. The matrix is a
      value here, so the caller's matrix is left as it was, as the copy
      that is_invertible_gf2 eliminates on guarantees. */
  method IsInvertibleGf2(matrix: Matrix) returns (ok: bool)
    requires IsMatrix(matrix)
    ensures ok <==> Invertible(matrix)
  {
    var m := matrix;
    for col := 0 to 8
      invariant IsMatrix(m) && SameKernel(m, matrix)
      invariant ReducedUpTo(m, col)
    {
      var pivot := FindPivot(m, col);
      if pivot == -1 {
        NoPivotMeansSingular(m, col);
        return false;
      }
      SwapStep(m, col, pivot);
      SameKernelTransitive(SwapRows(m, col, pivot), m, matrix);
      m := m[col := m[pivot]][pivot := m[col]];
      for row := 0 to 8
        invariant IsMatrix(m) && SameKernel(m, matrix)
        invariant ReducedUpTo(m, col) && m[col][col] == 1
        invariant forall r :: 0 <= r < row && r != col ==> m[r][col] == 0
      {
        if row != col && m[row][col] == 1 {
          EliminateStep(m, row, col);
          SameKernelTransitive(AddRowTo(m, row, col), m, matrix);
          ghost var before := m;
          m := AddRow(m, row, col);
          assert m[row][col] == 0;
          assert forall r :: 0 <= r < 8 && r != row ==> m[r] == before[r];
        } else if row != col {
          Bv1Cases(m[row][col]);
        }
      }
      ReducedNextColumn(m, col);
    }
    ReducedIsInvertible(m);
    return true;
  }

  // ---------------------------------------------------------------------
  // The inverse table

  /** One round of the loop in gmul_inverse, on Python integers that are the
      bytes a, b and p: it is one round of MulRounds. Reducing by 0x11B
      whenever bit 7 was set before the shift keeps a below 256. */
  lemma ShiftAndReduceStep(a: bv8, b: bv8, p: bv8)
    ensures var p' := if (b as bv16) & 1 != 0 then (p as bv16) ^ (a as bv16) else p as bv16;
            var a' := if (a as bv16) & 0x80 != 0 then ((a as bv16) << 1) ^ ReductionPoly else (a as bv16) << 1;
            var b' := (b as bv16) >> 1;
            a' == Xtime(a) as bv16 && b' == (b >> 1) as bv16 && p' == (p ^ (a & (0 - (b & 1)))) as bv16
  {}

  /** The product loop inside gmul_inverse (lines 10-16), run for n rounds:
      shift-and-add on Python integers, reducing by 0x11B. The registers stay
      below 256, so each holds one byte. */
  method ShiftAndReduceRounds(val: bv8, i: bv16, n: nat) returns (p: bv16)
    requires i < 256
    ensures p < 256 && p as bv8 == MulRounds(val, i as bv8, 0, n)
  {
    var a: bv16, b: bv16 := val as bv16, i;
    p := 0;
    // The bytes the three integers hold.
    ghost var a8: bv8, b8: bv8, p8: bv8 := val, i as bv8, 0;
    for k := 0 to n
      invariant a == a8 as bv16 && b == b8 as bv16 && p == p8 as bv16
      invariant MulRounds(a8, b8, p8, n - k) == MulRounds(val, i as bv8, 0, n)
    {
      ShiftAndReduceStep(a8, b8, p8);
      if b & 1 != 0 {
        p := p ^ a;
      }
      var hiBit := a & 0x80;
      a := a << 1;
      if hiBit != 0 {
        a := a ^ ReductionPoly;
      }
      b := b >> 1;
      a8, b8, p8 := Xtime(a8), b8 >> 1, p8 ^ (a8 & (0 - (b8 & 1)));
    }
  }

  /** The eight rounds gmul_inverse runs compute the field product. */
  method ShiftAndReduce(val: bv8, i: bv16) returns (p: bv16)
    requires i < 256
    ensures p < 256 && p as bv8 == Mul(val, i as bv8)
  {
    p := ShiftAndReduceRounds(val, i, 8);
  }

  /** One candidate of the search: its product with v is 1 exactly when it
      is the inverse of v. */
  method TryCandidate(v: bv8, i: bv16) returns (p: bv16)
    requires v != 0 && i < 256
    ensures p < 256
    ensures p == 1 <==> i as bv8 == Inverse(v)
  {
    p := ShiftAndReduce(v, i);
  }

  /** gmul_inverse: the first i in 1 .. 255 whose product with v is 1; 0 for
      0. Every nonzero byte has one, so the final `return 0` is never reached. */
  method GmulInverse(v: bv8) returns (r: bv8)
    ensures v == 0 ==> r == 0
    ensures v != 0 ==> r == Inverse(v)
  {
    if v == 0 {
      return 0;
    }
    var i: bv16 := 1;
    while i < 256
      invariant 1 <= i <= Inverse(v) as bv16
    {
      var p := TryCandidate(v, i);
      if p % 256 == 1 {
        return i as bv8;
      }
      i := i + 1;
    }
    assert false;
  }

  /** INVERSE_TABLE: gmul_inverse of every byte, in order. */
  method InverseTable() returns (table: seq<bv8>)
    ensures |table| == 256
    ensures forall x :: 0 <= x < 256 ==> table[x] == Inverse(x as bv8)
  {
    table := [];
    for x := 0 to 256
      invariant |table| == x
      invariant forall y :: 0 <= y < x ==> table[y] == Inverse(y as bv8)
    {
      var inv := GmulInverse(x as bv8);
      table := table + [inv];
    }
  }

  /** The inverse table maps 0 to 0 and is an involution, hence a permutation. */
  lemma InverseTableIsInvolution(table: seq<bv8>)
    requires |table| == 256 && forall x :: 0 <= x < 256 ==> table[x] == Inverse(x as bv8)
    ensures table[0] == 0
    ensures forall x :: 0 <= x < 256 ==> table[table[x] as int] == x as bv8
    ensures IsPermutation(table)
  {
    forall x | 0 <= x < 256 ensures table[table[x] as int] == x as bv8 {
      InverseIsInvolution(x as bv8);
      ByteRoundTrip(table[x]);
    }
    forall i, j | 0 <= i < j < 256 ensures table[i] != table[j] {
      ByteCastInjective(i, j);
      assert table[table[i] as int] == i as bv8 && table[table[j] as int] == j as bv8;
    }
  }
}
