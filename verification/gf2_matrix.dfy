/** 8x8 matrices over GF(2), the linear part of the S-box affine map. A
    matrix is a list of 8 rows of 8 entries, each 0 or 1; the product of a
    row with a vector is the exclusive or of the entrywise products. A matrix
    is invertible when its kernel holds only the zero vector, which over a
    field is the same as having rank 8. */
module GF2Matrix {
  import opened ByteBits

  type Matrix = seq<seq<bv1>>

  ghost predicate IsMatrix(m: Matrix) {
    |m| == 8 && forall r :: 0 <= r < 8 ==> |m[r]| == 8
  }

  /** The sum over GF(2) of row[j] * v[j] for j < n, accumulated left to right. */
  function Dot(row: seq<bv1>, v: seq<bv1>, n: nat): bv1
    requires n <= |row| && n <= |v|
  {
    if n == 0 then 0 else Dot(row, v, n - 1) ^ (row[n - 1] & v[n - 1])
  }

  /** The product of m with the column vector v. */
  function MulVec(m: Matrix, v: seq<bv1>): (r: seq<bv1>)
    requires IsMatrix(m) && |v| == 8
    ensures |r| == 8 && forall i :: 0 <= i < 8 ==> r[i] == Dot(m[i], v, 8)
  {
    seq(8, i requires 0 <= i < 8 => Dot(m[i], v, 8))
  }

  lemma {:induction false} DotAddsRows(a: seq<bv1>, b: seq<bv1>, v: seq<bv1>, n: nat)
    requires |a| == |b| && n <= |a| && n <= |v|
    ensures Dot(XorRows(a, b), v, n) == Dot(a, v, n) ^ Dot(b, v, n)
  {
    if n > 0 {
      DotAddsRows(a, b, v, n - 1);
    }
  }

  lemma {:induction false} DotAddsVectors(a: seq<bv1>, v: seq<bv1>, w: seq<bv1>, n: nat)
    requires |v| == |w| && n <= |a| && n <= |v|
    ensures Dot(a, XorRows(v, w), n) == Dot(a, v, n) ^ Dot(a, w, n)
  {
    if n > 0 {
      DotAddsVectors(a, v, w, n - 1);
    }
  }

  lemma {:induction false} DotZeros(a: seq<bv1>, n: nat)
    requires n <= |a| && n <= 8
    ensures Dot(a, Zeros, n) == 0
  {
    if n > 0 {
      DotZeros(a, n - 1);
    }
  }

  /** The product is linear in the vector. */
  lemma MulVecIsLinear(m: Matrix, v: seq<bv1>, w: seq<bv1>)
    requires IsMatrix(m) && |v| == 8 && |w| == 8
    ensures MulVec(m, XorRows(v, w)) == XorRows(MulVec(m, v), MulVec(m, w))
    ensures MulVec(m, Zeros) == Zeros
  {
    forall i | 0 <= i < 8 ensures MulVec(m, XorRows(v, w))[i] == XorRows(MulVec(m, v), MulVec(m, w))[i] {
      DotAddsVectors(m[i], v, w, 8);
    }
    forall i | 0 <= i < 8 ensures MulVec(m, Zeros)[i] == 0 {
      DotZeros(m[i], 8);
    }
  }

  /** v is in the kernel of m: every row of m times v is 0. */
  ghost predicate InKernel(m: Matrix, v: seq<bv1>)
    requires IsMatrix(m) && |v| == 8
  {
    forall r :: 0 <= r < 8 ==> Dot(m[r], v, 8) == 0
  }

  /** m is invertible over GF(2): its kernel is {0}. */
  ghost predicate Invertible(m: Matrix)
    requires IsMatrix(m)
  {
    forall v :: |v| == 8 && InKernel(m, v) ==> v == Zeros
  }

  /** Two matrices with the same kernel. */
  ghost predicate SameKernel(m: Matrix, n: Matrix)
    requires IsMatrix(m) && IsMatrix(n)
  {
    forall v :: |v| == 8 ==> (InKernel(m, v) <==> InKernel(n, v))
  }

  lemma SameKernelTransitive(a: Matrix, b: Matrix, c: Matrix)
    requires IsMatrix(a) && IsMatrix(b) && IsMatrix(c)
    requires SameKernel(a, b) && SameKernel(b, c)
    ensures SameKernel(a, c)
  {}

  /** An invertible matrix is injective on vectors. */
  lemma InvertibleIsInjective(m: Matrix, v: seq<bv1>, w: seq<bv1>)
    requires IsMatrix(m) && Invertible(m) && |v| == 8 && |w| == 8
    requires MulVec(m, v) == MulVec(m, w)
    ensures v == w
  {
    MulVecIsLinear(m, v, w);
    var d := XorRows(v, w);
    forall r | 0 <= r < 8 ensures Dot(m[r], d, 8) == 0 {
      assert MulVec(m, d)[r] == MulVec(m, v)[r] ^ MulVec(m, w)[r];
    }
    assert d == Zeros;
    forall i | 0 <= i < 8 ensures v[i] == w[i] {
      assert d[i] == 0;
    }
  }

  /** Columns 0 .. col-1 of m are the unit columns of the identity. */
  ghost predicate ReducedUpTo(m: Matrix, col: nat)
    requires IsMatrix(m) && col <= 8
  {
    forall r, c :: 0 <= r < 8 && 0 <= c < col ==> m[r][c] == if r == c then 1 else 0
  }

  lemma {:induction false} DotWithUnitRow(m: Matrix, r: nat, v: seq<bv1>, n: nat)
    requires IsMatrix(m) && r < 8 && |v| == 8 && n <= 8
    requires forall c :: 0 <= c < n ==> m[r][c] == if r == c then 1 else 0
    ensures Dot(m[r], v, n) == if r < n then v[r] else 0
  {
    if n > 0 {
      DotWithUnitRow(m, r, v, n - 1);
    }
  }

  /** A fully reduced matrix (the identity) is invertible. */
  lemma ReducedIsInvertible(m: Matrix)
    requires IsMatrix(m) && ReducedUpTo(m, 8)
    ensures Invertible(m)
  {
    forall v | |v| == 8 && InKernel(m, v) ensures v == Zeros {
      forall r | 0 <= r < 8 ensures v[r] == 0 {
        DotWithUnitRow(m, r, v, 8);
      }
    }
  }

  /** The kernel vector that a missing pivot exhibits: column col equals the
      sum of the unit columns before it that it has ones in. */
  function PivotlessWitness(m: Matrix, col: nat): (v: seq<bv1>)
    requires IsMatrix(m) && col < 8
    ensures |v| == 8 && v[col] == 1
  {
    seq(8, j requires 0 <= j < 8 => if j < col then m[j][col] else if j == col then 1 else 0)
  }

  lemma {:induction false} DotWithWitness(m: Matrix, col: nat, r: nat, n: nat)
    requires IsMatrix(m) && col < 8 && ReducedUpTo(m, col) && r < 8 && n <= col
    ensures Dot(m[r], PivotlessWitness(m, col), n) == if r < n then m[r][col] else 0
  {
    if n > 0 {
      DotWithWitness(m, col, r, n - 1);
    }
  }

  lemma {:induction false} DotWithWitnessTail(m: Matrix, col: nat, r: nat, n: nat)
    requires IsMatrix(m) && col < n <= 8 && r < 8
    ensures Dot(m[r], PivotlessWitness(m, col), n) == Dot(m[r], PivotlessWitness(m, col), col + 1)
  {
    if n > col + 1 {
      DotWithWitnessTail(m, col, r, n - 1);
    }
  }

  /** When the columns before col are reduced and column col has no one on or
      below the diagonal, the matrix is singular. */
  lemma NoPivotMeansSingular(m: Matrix, col: nat)
    requires IsMatrix(m) && col < 8 && ReducedUpTo(m, col)
    requires forall r :: col <= r < 8 ==> m[r][col] != 1
    ensures InKernel(m, PivotlessWitness(m, col))
    ensures PivotlessWitness(m, col) != Zeros
  {
    var v := PivotlessWitness(m, col);
    forall r | 0 <= r < 8 ensures Dot(m[r], v, 8) == 0 {
      DotWithWitness(m, col, r, col);
      DotWithWitnessTail(m, col, r, 8);
    }
    assert v[col] != Zeros[col];
  }

  /** The matrix with rows i and j exchanged. */
  function SwapRows(m: Matrix, i: nat, j: nat): (s: Matrix)
    requires IsMatrix(m) && i < 8 && j < 8
    ensures IsMatrix(s)
  {
    m[i := m[j]][j := m[i]]
  }

  /** Exchanging two rows keeps the kernel. */
  lemma SwapKeepsKernel(m: Matrix, i: nat, j: nat)
    requires IsMatrix(m) && i < 8 && j < 8
    ensures SameKernel(SwapRows(m, i, j), m)
  {
    var s := SwapRows(m, i, j);
    forall v | |v| == 8 ensures InKernel(s, v) <==> InKernel(m, v) {
      if InKernel(s, v) {
        forall r | 0 <= r < 8 ensures Dot(m[r], v, 8) == 0 {
          var k := if r == i then j else if r == j then i else r;
          assert s[k] == m[r];
        }
      }
      if InKernel(m, v) {
        forall r | 0 <= r < 8 ensures Dot(s[r], v, 8) == 0 {
          var k := if r == i then j else if r == j then i else r;
          assert s[r] == m[k];
        }
      }
    }
  }

  /** The swap that brings a pivot at or below the diagonal into row col keeps
      the reduced columns and puts a one on the diagonal. */
  lemma SwapStep(m: Matrix, col: nat, pivot: nat)
    requires IsMatrix(m) && col <= pivot < 8 && ReducedUpTo(m, col) && m[pivot][col] == 1
    ensures SameKernel(SwapRows(m, col, pivot), m)
    ensures ReducedUpTo(SwapRows(m, col, pivot), col)
    ensures SwapRows(m, col, pivot)[col][col] == 1
  {
    SwapKeepsKernel(m, col, pivot);
  }

  /** The matrix with row src added to row dst. */
  function AddRowTo(m: Matrix, dst: nat, src: nat): (s: Matrix)
    requires IsMatrix(m) && dst < 8 && src < 8
    ensures IsMatrix(s)
  {
    m[dst := XorRows(m[dst], m[src])]
  }

  /** Adding one row to another keeps the kernel. */
  lemma AddRowKeepsKernel(m: Matrix, dst: nat, src: nat)
    requires IsMatrix(m) && dst < 8 && src < 8 && dst != src
    ensures SameKernel(AddRowTo(m, dst, src), m)
  {
    var s := AddRowTo(m, dst, src);
    forall v | |v| == 8 ensures InKernel(s, v) <==> InKernel(m, v) {
      DotAddsRows(m[dst], m[src], v, 8);
      assert s[src] == m[src];
      if InKernel(s, v) {
        forall r | 0 <= r < 8 ensures Dot(m[r], v, 8) == 0 {
          assert Dot(s[r], v, 8) == 0 && Dot(s[src], v, 8) == 0;
        }
      }
      if InKernel(m, v) {
        forall r | 0 <= r < 8 ensures Dot(s[r], v, 8) == 0 {
          assert Dot(m[r], v, 8) == 0 && Dot(m[src], v, 8) == 0;
        }
      }
    }
  }

  /** Clearing the one in column col of another row, by adding the pivot row,
      keeps the kernel and the reduced columns. */
  lemma EliminateStep(m: Matrix, row: nat, col: nat)
    requires IsMatrix(m) && row < 8 && col < 8 && row != col
    requires ReducedUpTo(m, col) && m[col][col] == 1 && m[row][col] == 1
    ensures SameKernel(AddRowTo(m, row, col), m)
    ensures ReducedUpTo(AddRowTo(m, row, col), col)
    ensures AddRowTo(m, row, col)[row][col] == 0
  {
    AddRowKeepsKernel(m, row, col);
  }

  /** Once column col is a unit column too, the reduced part grows by one. */
  lemma ReducedNextColumn(m: Matrix, col: nat)
    requires IsMatrix(m) && col < 8 && ReducedUpTo(m, col)
    requires m[col][col] == 1 && forall r :: 0 <= r < 8 && r != col ==> m[r][col] == 0
    ensures ReducedUpTo(m, col + 1)
  {}

  /** The entry-by-entry update of row dst gives the row sum. */
  lemma AddRowByEntries(before: Matrix, m: Matrix, dst: nat, src: nat)
    requires IsMatrix(before) && dst < 8 && src < 8
    requires |m| == 8 && forall r :: 0 <= r < 8 && r != dst ==> m[r] == before[r]
    requires |m[dst]| == 8 && forall j :: 0 <= j < 8 ==> m[dst][j] == before[dst][j] ^ before[src][j]
    ensures m == AddRowTo(before, dst, src)
  {
    assert m[dst] == XorRows(before[dst], before[src]);
  }

  /** The zero matrix is singular. */
  lemma ZeroMatrixIsSingular()
    ensures IsMatrix(seq(8, r => Zeros))
    ensures !Invertible(seq(8, r => Zeros))
  {
    var z := seq(8, r => Zeros);
    var v: seq<bv1> := [1, 0, 0, 0, 0, 0, 0, 0];
    forall r | 0 <= r < 8 ensures Dot(z[r], v, 8) == 0 {
      DotZeros(v, 8);
    }
    assert InKernel(z, v) && v != Zeros;
  }

  /** The identity matrix is invertible. */
  lemma IdentityIsInvertible()
    ensures IsMatrix(seq(8, r => seq(8, c => if r == c then 1 else 0)))
    ensures Invertible(seq(8, r => seq(8, c => if r == c then 1 else 0)))
  {
    ReducedIsInvertible(seq(8, r => seq(8, c => if r == c then 1 else 0)));
  }
}
