/** check_sbox: the bijectivity test (a set / min / max expression) and the
    per-bit balance counts (a counter list incremented in nested loops).
    The request schema lets any Python integers through, so entries are
    `int`; bit i of an entry is Python's `(v >> i) & 1`, which floors. */
module Validation {
  import opened Tables
  import opened Butterfly
  import ByteBits

  /** Python's `(v >> i) & 1`: an arithmetic shift, which halves v i times
      rounding down, then the low bit. */
  function BitOf(v: int, i: nat): (r: int)
    ensures r == 0 || r == 1
    decreases i
  {
    if i == 0 then v % 2 else BitOf(v / 2, i - 1)
  }

  /** For a byte, halving is a right shift by one. */
  lemma HalveByte(v: int)
    requires 0 <= v < 256
    ensures (v as bv8) >> 1 == (v / 2) as bv8
  {
  }

  /** For a byte, the remainder modulo 2 is bit 0. */
  lemma LowBit(v: int)
    requires 0 <= v < 256
    ensures ByteBits.Bit(v as bv8, 0) as int == v % 2
  {
    assert (v as bv8) & 1 == (v % 2) as bv8;
  }

  /** On the byte values 0 .. 255, BitOf is bit i of the byte. */
  lemma {:induction false} BitOfByte(v: int, i: nat)
    requires 0 <= v < 256 && i < 8
    ensures BitOf(v, i) == ByteBits.Bit(v as bv8, i as bv3) as int
  {
    if i == 0 {
      LowBit(v);
    } else {
      HalveByte(v);
      BitOfByte(v / 2, i - 1);
      ByteBits.BitOfShift(v as bv8, i - 1);
    }
  }

  /** The number of entries of s whose bit i is 1. */
  function CountBit(s: seq<int>, i: nat): (r: nat)
    ensures r <= |s|
  {
    if s == [] then 0
    else CountBit(s[..|s| - 1], i) + (if BitOf(s[|s| - 1], i) == 1 then 1 else 0)
  }

  /** Smallest entry of a non-empty sequence. */
  function SeqMin(s: seq<int>): (r: int)
    requires |s| > 0
    ensures r in s && forall k :: 0 <= k < |s| ==> r <= s[k]
  {
    if |s| == 1 then s[0]
    else var m := SeqMin(s[1..]); if s[0] <= m then s[0] else m
  }

  /** Largest entry of a non-empty sequence. */
  function SeqMax(s: seq<int>): (r: int)
    requires |s| > 0
    ensures r in s && forall k :: 0 <= k < |s| ==> s[k] <= r
  {
    if |s| == 1 then s[0]
    else var m := SeqMax(s[1..]); if s[0] >= m then s[0] else m
  }

  /** The report check_sbox returns. */
  datatype Report = Report(isBijective: bool, isBalanced: bool, bitCounts: seq<int>)

  /** Every byte value 0 .. 255 occurs, and nothing else. */
  ghost predicate CoversBytes(s: seq<int>) {
    Values(s) == Range(256)
  }

  /** Entries are pairwise distinct and in 0 .. 255, 256 of them. */
  ghost predicate PermutesBytes(s: seq<int>) {
    |s| == 256 && Distinct(s) && forall k :: 0 <= k < |s| ==> 0 <= s[k] < 256
  }

  /** check_sbox. The bijectivity expression evaluates min and max only
      once the set of values has 256 elements, so the list is then non-empty. */
  method CheckSbox(sbox: seq<int>) returns (r: Report)
    ensures r.isBijective <==> CoversBytes(sbox)
    ensures |r.bitCounts| == 8 && forall i :: 0 <= i < 8 ==> r.bitCounts[i] == CountBit(sbox, i)
    ensures r.isBalanced <==> forall i :: 0 <= i < 8 ==> CountBit(sbox, i) == 128
  {
    var uniqueValues := set v | v in sbox;
    NonEmptyOfValues(sbox);
    var isBijective := |uniqueValues| == 256 && SeqMin(sbox) == 0 && SeqMax(sbox) == 255;
    BijectiveTest(sbox);

    var bitCounts := BitCounts(sbox);
    var isBalanced := forall i :: 0 <= i < 8 ==> bitCounts[i] == 128;
    r := Report(isBijective, isBalanced, bitCounts);
  }

  /** The counting loops of check_sbox: bit_counts[i] ends as the number of
      entries whose bit i is 1. */
  method BitCounts(sbox: seq<int>) returns (bitCounts: seq<int>)
    ensures |bitCounts| == 8 && forall i :: 0 <= i < 8 ==> bitCounts[i] == CountBit(sbox, i)
  {
    bitCounts := [0, 0, 0, 0, 0, 0, 0, 0];
    for n := 0 to |sbox|
      invariant |bitCounts| == 8
      invariant forall i :: 0 <= i < 8 ==> bitCounts[i] == CountBit(sbox[..n], i)
    {
      var val := sbox[n];
      for i := 0 to 8
        invariant |bitCounts| == 8
        invariant forall j :: 0 <= j < i ==> bitCounts[j] == CountBit(sbox[..n + 1], j)
        invariant forall j :: i <= j < 8 ==> bitCounts[j] == CountBit(sbox[..n], j)
      {
        CountBitStep(sbox, n, i);
        if BitOf(val, i) == 1 {
          bitCounts := bitCounts[i := bitCounts[i] + 1];
        }
      }
    }
    assert sbox[..|sbox|] == sbox;
  }

  lemma CountBitStep(s: seq<int>, n: nat, i: nat)
    requires n < |s|
    ensures CountBit(s[..n + 1], i) == CountBit(s[..n], i) + (if BitOf(s[n], i) == 1 then 1 else 0)
  {
    assert s[..n + 1][..n] == s[..n];
  }

  /** A list with 256 distinct values is not empty. */
  lemma NonEmptyOfValues(s: seq<int>)
    ensures |Values(s)| == 256 ==> |s| > 0
  {
    if s == [] {
      assert Values(s) == {};
    }
  }

  /** The bijectivity expression holds exactly when the values are 0 .. 255. */
  lemma BijectiveTest(s: seq<int>)
    ensures |Values(s)| == 256 ==> |s| > 0
    ensures (|Values(s)| == 256 && SeqMin(s) == 0 && SeqMax(s) == 255) <==> CoversBytes(s)
  {
    NonEmptyOfValues(s);
    if |Values(s)| == 256 && SeqMin(s) == 0 && SeqMax(s) == 255 {
      assert Values(s) <= Range(256);
      SubsetOfSameSize(Values(s), Range(256));
    }
    if CoversBytes(s) {
      assert 0 in Values(s) && 255 in Values(s);
    }
  }

  /** A subset of a finite set with as many elements is the set itself. */
  lemma SubsetOfSameSize(a: set<int>, b: set<int>)
    requires a <= b && |a| == |b|
    ensures a == b
  {
    assert |b - a| == |b| - |a|;
  }

  /** For the 256 entries the schema demands, covering 0 .. 255 means being a
      permutation of 0 .. 255. */
  lemma CoversIffPermutes(s: seq<int>)
    requires |s| == 256
    ensures CoversBytes(s) <==> PermutesBytes(s)
  {
    if CoversBytes(s) {
      if !Distinct(s) {
        DuplicateValuesCard(s);
      }
      assert forall k :: 0 <= k < |s| ==> s[k] in Values(s);
    }
    if PermutesBytes(s) {
      DistinctInRangeIsOnto(s);
      assert Values(s) == Range(256);
    }
  }

  /** Two equal entries in a 256-entry list make it fail the bijectivity test. */
  lemma DuplicateIsNotBijective(s: seq<int>, i: int, j: int)
    requires |s| == 256 && 0 <= i < j < 256 && s[i] == s[j]
    ensures !CoversBytes(s)
  {
    DuplicateValuesCard(s);
  }

  // ---- Balance of permutations --------------------------------------------

  lemma {:induction false} CountBitConcat(a: seq<int>, b: seq<int>, i: nat)
    ensures CountBit(a + b, i) == CountBit(a, i) + CountBit(b, i)
  {
    if b != [] {
      var b' := b[..|b| - 1];
      assert (a + b)[..|a + b| - 1] == a + b';
      assert (a + b)[|a + b| - 1] == b[|b| - 1];
      CountBitConcat(a, b', i);
    } else {
      assert a + b == a;
    }
  }

  /** The count depends only on the multiset of entries. */
  lemma {:induction false} CountBitMultiset(s: seq<int>, t: seq<int>, i: nat)
    requires multiset(s) == multiset(t)
    ensures CountBit(s, i) == CountBit(t, i)
  {
    if s == [] {
      assert |t| == |multiset(t)| == 0;
    } else {
      var x := s[|s| - 1];
      var s' := s[..|s| - 1];
      assert s == s' + [x];
      assert x in multiset(t);
      var j :| 0 <= j < |t| && t[j] == x;
      var t' := t[..j] + t[j + 1..];
      assert t == t[..j] + [x] + t[j + 1..];
      assert multiset(t') == multiset(t) - multiset{x};
      CountBitMultiset(s', t', i);
      CountBitConcat(t[..j], [x], i);
      CountBitConcat(t[..j] + [x], t[j + 1..], i);
      CountBitConcat(t[..j], t[j + 1..], i);
      assert [x][..0] == [];
    }
  }

  /** A sequence without repetitions holds each of its values once. */
  lemma {:induction false} DistinctMultiplicity(s: seq<int>, v: int)
    requires Distinct(s)
    ensures multiset(s)[v] == if v in s then 1 else 0
  {
    if s != [] {
      var s' := s[..|s| - 1];
      assert s == s' + [s[|s| - 1]];
      assert Distinct(s');
      DistinctMultiplicity(s', v);
      assert s[|s| - 1] !in s' by {
        forall k | 0 <= k < |s'| ensures s'[k] != s[|s| - 1] {
          assert s'[k] == s[k];
        }
      }
    }
  }

  /** Two permutations of 0 .. 255 hold the same multiset. */
  lemma PermutationsSameMultiset(s: seq<int>, t: seq<int>)
    requires PermutesBytes(s) && PermutesBytes(t)
    ensures multiset(s) == multiset(t)
  {
    DistinctInRangeIsOnto(s);
    DistinctInRangeIsOnto(t);
    forall v ensures multiset(s)[v] == multiset(t)[v] {
      DistinctMultiplicity(s, v);
      DistinctMultiplicity(t, v);
      assert v in s <==> 0 <= v < 256;
      assert v in t <==> 0 <= v < 256;
    }
  }

  /** The number with bit i toggled. */
  function Flip(x: int, i: nat): int
    decreases i
  {
    if i == 0 then (if x % 2 == 1 then x - 1 else x + 1)
    else 2 * Flip(x / 2, i - 1) + x % 2
  }

  /** Toggling bit i < n keeps a number below 2^n below it, toggles that
      bit and undoes itself. */
  lemma {:induction false} FlipFacts(x: int, i: nat, n: nat)
    requires 0 <= x < Pow2(n) && i < n
    ensures 0 <= Flip(x, i) < Pow2(n)
    ensures BitOf(Flip(x, i), i) == 1 - BitOf(x, i)
    ensures Flip(Flip(x, i), i) == x
    decreases i
  {
    if i > 0 {
      FlipFacts(x / 2, i - 1, n - 1);
      var y := Flip(x, i);
      assert y / 2 == Flip(x / 2, i - 1) && y % 2 == x % 2;
    }
  }

  function FlipAll(s: seq<int>, i: nat): (r: seq<int>)
    ensures |r| == |s| && forall k :: 0 <= k < |s| ==> r[k] == Flip(s[k], i)
  {
    seq(|s|, k requires 0 <= k < |s| => Flip(s[k], i))
  }

  /** Toggling bit i everywhere turns the ones of bit i into zeros and back. */
  lemma {:induction false} CountBitOfFlipAll(s: seq<int>, i: nat)
    requires i < 8 && forall k :: 0 <= k < |s| ==> 0 <= s[k] < 256
    ensures CountBit(FlipAll(s, i), i) == |s| - CountBit(s, i)
  {
    if s != [] {
      var s' := s[..|s| - 1];
      assert FlipAll(s, i)[..|s| - 1] == FlipAll(s', i);
      CountBitOfFlipAll(s', i);
      FlipFacts(s[|s| - 1], i, 8);
      assert 0 <= BitOf(s[|s| - 1], i) < 2;
    }
  }

  /** Toggling bit i of every entry of a permutation gives a permutation. */
  lemma FlipAllPermutes(s: seq<int>, i: nat)
    requires i < 8 && PermutesBytes(s)
    ensures PermutesBytes(FlipAll(s, i))
  {
    var t := FlipAll(s, i);
    forall k | 0 <= k < 256 ensures 0 <= t[k] < 256 {
      FlipFacts(s[k], i, 8);
    }
    forall j, k | 0 <= j < k < 256 ensures t[j] != t[k] {
      FlipFacts(s[j], i, 8);
      FlipFacts(s[k], i, 8);
    }
  }

  /** Every permutation of 0 .. 255 is balanced: each bit is 1 in exactly 128
      entries. */
  lemma PermutationIsBalanced(s: seq<int>, i: nat)
    requires i < 8 && PermutesBytes(s)
    ensures CountBit(s, i) == 128
  {
    FlipAllPermutes(s, i);
    PermutationsSameMultiset(s, FlipAll(s, i));
    CountBitMultiset(s, FlipAll(s, i), i);
    CountBitOfFlipAll(s, i);
  }

  /** A permutation of 0 .. 255 passes both checks with all counts 128. */
  lemma PermutationPassesCheck(s: seq<int>)
    requires PermutesBytes(s)
    ensures CoversBytes(s)
    ensures forall i :: 0 <= i < 8 ==> CountBit(s, i) == 128
  {
    CoversIffPermutes(s);
    forall i | 0 <= i < 8 ensures CountBit(s, i) == 128 {
      PermutationIsBalanced(s, i);
    }
  }
}
