/** find_valid_sbox: draw candidate matrices until one is invertible over
    GF(2), then build the S-box x -> B(INVERSE_TABLE[x]) with the affine map
    of that matrix. The random generator is replaced by a given sequence of
    candidates; the endless retry loop becomes a pass over that sequence,
    with None when none of them is invertible. */
module SboxGenerator {
  import opened Wrappers
  import opened Tables
  import opened ByteBits
  import opened GF2Matrix
  import opened GF256Inverse
  import opened MathGF2
  import opened Validation

  /** The dictionary find_valid_sbox returns. */
  datatype SboxInfo = SboxInfo(
    affineMatrix: Matrix,
    affineVector: seq<bv1>,
    sbox: seq<bv8>,
    isBijective: bool,
    isBalanced: bool)

  /** The S-box built from matrix m: the affine image of each inverse. */
  ghost function SboxTable(m: Matrix): (t: seq<bv8>)
    requires IsMatrix(m)
    ensures |t| == 256 && forall x :: 0 <= x < 256 ==> t[x] == Affine(Inverse(x as bv8), m)
  {
    seq(256, x requires 0 <= x < 256 => Affine(Inverse(x as bv8), m))
  }

  /** The construction loop: one affine image of an inverse per input byte,
      appended in order. */
  method BuildSbox(m: Matrix, inverseTable: seq<bv8>) returns (sbox: seq<bv8>)
    requires IsMatrix(m)
    requires |inverseTable| == 256 && forall x :: 0 <= x < 256 ==> inverseTable[x] == Inverse(x as bv8)
    ensures sbox == SboxTable(m)
  {
    ghost var table := SboxTable(m);
    sbox := [];
    for x := 0 to 256
      invariant sbox == table[..x]
    {
      var inv := inverseTable[x];
      var val := ApplyAffineTransform(inv, m);
      assert val == table[x];
      sbox := sbox + [val];
    }
    assert table[..256] == table;
  }

  /** The retry loop of find_valid_sbox over the candidates: the first
      invertible one, if any. */
  method FirstInvertible(candidates: seq<Matrix>) returns (found: bool, k: int)
    requires forall k :: 0 <= k < |candidates| ==> IsMatrix(candidates[k])
    ensures found ==> 0 <= k < |candidates| && Invertible(candidates[k])
    ensures found ==> forall j :: 0 <= j < k ==> !Invertible(candidates[j])
    ensures !found ==> forall j :: 0 <= j < |candidates| ==> !Invertible(candidates[j])
  {
    for i := 0 to |candidates|
      invariant forall j :: 0 <= j < i ==> !Invertible(candidates[j])
    {
      var ok := IsInvertibleGf2(candidates[i]);
      if ok {
        return true, i;
      }
    }
    return false, 0;
  }

  /** The dictionary find_valid_sbox returns for an invertible matrix m:
      m, the bits of 0x63, the S-box of m, and both flags set. */
  method SboxInfoFor(m: Matrix, inverseTable: seq<bv8>) returns (info: SboxInfo)
    requires IsMatrix(m)
    requires |inverseTable| == 256 && forall x :: 0 <= x < 256 ==> inverseTable[x] == Inverse(x as bv8)
    ensures info.affineMatrix == m && info.sbox == SboxTable(m)
    ensures info.affineVector == [1, 1, 0, 0, 0, 1, 1, 0]
    ensures info.isBijective && info.isBalanced
  {
    var sbox := BuildSbox(m, inverseTable);
    AffineVectorBits();
    info := SboxInfo(m, Bits(AffineConstant), sbox, true, true);
  }

  /** find_valid_sbox over a finite supply of candidate matrices: the first
      invertible candidate and its S-box, with the bits of 0x63 and both flags
      set. */
  method FindValidSbox(candidates: seq<Matrix>) returns (r: Option<SboxInfo>)
    requires forall k :: 0 <= k < |candidates| ==> IsMatrix(candidates[k])
    ensures r.None? <==> forall k :: 0 <= k < |candidates| ==> !Invertible(candidates[k])
    ensures r.Some? ==> exists k :: 0 <= k < |candidates| && r.value.affineMatrix == candidates[k]
                                 && Invertible(candidates[k])
                                 && forall j :: 0 <= j < k ==> !Invertible(candidates[j])
    ensures r.Some? ==> IsMatrix(r.value.affineMatrix) && r.value.sbox == SboxTable(r.value.affineMatrix)
    ensures r.Some? ==> r.value.affineVector == [1, 1, 0, 0, 0, 1, 1, 0]
    ensures r.Some? ==> r.value.isBijective && r.value.isBalanced
  {
    var found, k := FirstInvertible(candidates);
    if found {
      var inverseTable := InverseTable();
      var info := SboxInfoFor(candidates[k], inverseTable);
      r := Some(info);
    } else {
      r := None;
    }
  }

  /** affine_vector lists the bits of 0x63, least significant first. */
  lemma AffineVectorBits()
    ensures Bits(AffineConstant) == [1, 1, 0, 0, 0, 1, 1, 0]
  {
    assert Bit(0x63, 0) == 1 && Bit(0x63, 1) == 1 && Bit(0x63, 2) == 0 && Bit(0x63, 3) == 0;
    assert Bit(0x63, 4) == 0 && Bit(0x63, 5) == 1 && Bit(0x63, 6) == 1 && Bit(0x63, 7) == 0;
  }

  /** With an invertible matrix the S-box is a permutation: the inverse is an
      involution and the affine map a bijection. */
  lemma SboxIsPermutation(m: Matrix)
    requires IsMatrix(m) && Invertible(m)
    ensures IsPermutation(SboxTable(m))
  {
    var t := SboxTable(m);
    forall i, j | 0 <= i < j < 256 ensures t[i] != t[j] {
      ByteCastInjective(i, j);
      InverseIsInvolution(i as bv8);
      InverseIsInvolution(j as bv8);
      AffineInjective(m, Inverse(i as bv8), Inverse(j as bv8));
    }
  }

  /** A byte permutation read as integers is a permutation of 0 .. 255. */
  lemma PermutationAsInts(t: seq<bv8>)
    requires IsPermutation(t)
    ensures PermutesBytes(AsInts(t))
  {
    var s := AsInts(t);
    forall i, j | 0 <= i < j < |s| ensures s[i] != s[j] {
      assert t[i] != t[j];
    }
  }

  /** The flags find_valid_sbox hard-codes are what check_sbox would report
      for the S-box it returns: bijective, and every bit set in 128 entries. */
  lemma FlagsAreTruthful(m: Matrix)
    requires IsMatrix(m) && Invertible(m)
    ensures CoversBytes(AsInts(SboxTable(m)))
    ensures forall i :: 0 <= i < 8 ==> CountBit(AsInts(SboxTable(m)), i) == 128
  {
    SboxIsPermutation(m);
    PermutationAsInts(SboxTable(m));
    PermutationPassesCheck(AsInts(SboxTable(m)));
  }

  /** The circulant matrix of section 5.1.1 of FIPS 197: row i has ones in
      columns i, i+4, i+5, i+6 and i+7 (mod 8). */
  function AesMatrix(): (m: Matrix)
    ensures IsMatrix(m)
  {
    [[1, 0, 0, 0, 1, 1, 1, 1],
     [1, 1, 0, 0, 0, 1, 1, 1],
     [1, 1, 1, 0, 0, 0, 1, 1],
     [1, 1, 1, 1, 0, 0, 0, 1],
     [1, 1, 1, 1, 1, 0, 0, 0],
     [0, 1, 1, 1, 1, 1, 0, 0],
     [0, 0, 1, 1, 1, 1, 1, 0],
     [0, 0, 0, 1, 1, 1, 1, 1]]
  }

  /** The worked example of section 5.1.1 of FIPS 197: with the standard
      matrix, the S-box sends 0x53, whose inverse is 0xCA, to 0xED. */
  lemma AesMatrixExample()
    ensures SboxTable(AesMatrix())[0x53] == 0xED
  {
    InverseOf53();
    var m := AesMatrix();
    BitsOfCA();
    BitsOfED();
    AffineVectorBits();
    assert MulVec(m, Bits(0xCA)) == [0, 1, 1, 1, 0, 0, 0, 1];
    assert Bits(Affine(0xCA, m)) == Bits(0xED);
    BitsInjective(Affine(0xCA, m), 0xED);
  }

  lemma BitsOfCA()
    ensures Bits(0xCA) == [0, 1, 0, 1, 0, 0, 1, 1]
  {
    assert Bit(0xCA, 0) == 0 && Bit(0xCA, 1) == 1 && Bit(0xCA, 2) == 0 && Bit(0xCA, 3) == 1;
    assert Bit(0xCA, 4) == 0 && Bit(0xCA, 5) == 0 && Bit(0xCA, 6) == 1 && Bit(0xCA, 7) == 1;
  }

  lemma BitsOfED()
    ensures Bits(0xED) == [1, 0, 1, 1, 0, 1, 1, 1]
  {
    assert Bit(0xED, 0) == 1 && Bit(0xED, 1) == 0 && Bit(0xED, 2) == 1 && Bit(0xED, 3) == 1;
    assert Bit(0xED, 4) == 0 && Bit(0xED, 5) == 1 && Bit(0xED, 6) == 1 && Bit(0xED, 7) == 1;
  }

  /** Whatever the matrix, the S-box sends 0, which is its own inverse, to
      0x63; in particular the standard one does, as in FIPS 197. */
  lemma AesSboxOfZero()
    ensures SboxTable(AesMatrix())[0] == 0x63
  {
    AffineOfZero(AesMatrix());
  }

}
