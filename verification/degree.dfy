/** The algebraic-degree metric of app/utils/crypto_metrics.py
    (calculate_ad): the truth table of each output bit goes through the
    Moebius transform to the coefficients of its algebraic normal form, the
    degree of a bit is the largest number of ones of a monomial index whose
    coefficient is 1, and the metric is the largest degree over the 8 bits. */
module Degree {
  import opened Butterfly
  import opened Bits
  import opened MetricTables
  import opened Mobius

  /** Output bit `bit` of the S-box over the 256 inputs, 1 as true. */
  function BitValues(sbox: seq<bv8>, bit: nat): (t: seq<bool>)
    requires |sbox| == 256 && bit < 8
    ensures |t| == 256
  {
    seq(256, x requires 0 <= x < 256 => OutputBit(sbox[x], bit))
  }

  /** The largest number of ones of an index x < n whose coefficient is 1,
      and 0 when there is none. */
  function Degree(anf: seq<bool>, n: int): (r: nat)
    requires 0 <= n <= |anf|
    ensures forall x :: 0 <= x < n && anf[x] ==> HammingWeight(x) <= r
    ensures r == 0 || exists x :: 0 <= x < n && anf[x] && HammingWeight(x) == r
    decreases n
  {
    if n == 0 then 0
    else
      var before := Degree(anf, n - 1);
      if anf[n - 1] && HammingWeight(n - 1) > before then HammingWeight(n - 1) else before
  }

  /** The loop of calculate_ad over the coefficients: the degree of the
      algebraic normal form. */
  method AnfDegree(anf: seq<bool>) returns (currentDeg: int)
    requires |anf| == 256
    ensures currentDeg == Degree(anf, |anf|)
  {
    currentDeg := 0;
    for x := 0 to 256
      invariant currentDeg == Degree(anf, x)
    {
      if anf[x] {
        var deg := HammingWeight(x);
        if deg > currentDeg {
          currentDeg := deg;
        }
      }
    }
  }

  /** The degree of a function of 8 variables is at most 8. */
  lemma DegreeAtMost8(anf: seq<bool>)
    requires |anf| == 256
    ensures Degree(anf, |anf|) <= 8
  {
    var d := Degree(anf, |anf|);
    if d > 0 {
      var x :| 0 <= x < 256 && anf[x] && HammingWeight(x) == d;
      assert Pow2(8) == 256;
      PopcountBound(x, 8);
    }
  }

  /** Only 2^k - 1 has k ones below 2^k. */
  lemma {:induction false} PopcountFull(n: nat, k: nat)
    requires n < Pow2(k) && Popcount(n) == k
    ensures n == Pow2(k) - 1
  {
    if k > 0 {
      PopcountBound(n / 2, k - 1);
      PopcountFull(n / 2, k - 1);
    }
  }

  /** When the coefficient of x0 x1 ... x7 is 0, the degree is at most 7. */
  lemma DegreeWithoutTop(anf: seq<bool>)
    requires |anf| == 256 && !anf[255]
    ensures Degree(anf, |anf|) <= 7
  {
    var d := Degree(anf, |anf|);
    DegreeAtMost8(anf);
    if d == 8 {
      var x :| 0 <= x < 256 && anf[x] && HammingWeight(x) == d;
      assert Pow2(8) == 256;
      PopcountFull(x, 8);
      assert false;
    }
  }

  /** The degree of output bit `bit`: that of the algebraic normal form of
      its truth table. */
  function BitDegree(sbox: seq<bv8>, bit: nat): int
    requires |sbox| == 256 && bit < 8
  {
    Degree(Anf(BitValues(sbox, bit)), |sbox|)
  }

  /** One pass of the outer loop of calculate_ad: truth table, Moebius
      transform, degree. */
  method BitAnfDegree(sbox: seq<bv8>, bit: nat) returns (currentDeg: int)
    requires |sbox| == 256 && bit < 8
    ensures currentDeg == BitDegree(sbox, bit)
    ensures 0 <= currentDeg <= 8
  {
    var truthTable := BitValues(sbox, bit);
    var anf := MobiusTransform(truthTable);
    currentDeg := AnfDegree(anf);
    DegreeAtMost8(anf);
  }

  /** The degrees of the 8 output bits, in order. */
  function BitDegrees(sbox: seq<bv8>): (r: seq<int>)
    requires |sbox| == 256
    ensures |r| == 8
  {
    seq(8, bit requires 0 <= bit < 8 => BitDegree(sbox, bit))
  }

  /** Every output bit has a degree in 0 .. 8. */
  lemma BitDegreesRange(sbox: seq<bv8>)
    requires |sbox| == 256
    ensures forall bit :: 0 <= bit < 8 ==> 0 <= BitDegrees(sbox)[bit] <= 8
  {
    forall bit | 0 <= bit < 8
      ensures 0 <= BitDegrees(sbox)[bit] <= 8
    {
      DegreeAtMost8(Anf(BitValues(sbox, bit)));
    }
  }

  /** One pass of the outer loop of calculate_ad. */
  method DegreeRound(sbox: seq<bv8>, bit: nat, before: int) returns (after: int)
    requires |sbox| == 256 && bit < 8 && before == RunningMax(BitDegrees(sbox), bit)
    ensures after == RunningMax(BitDegrees(sbox), bit + 1)
  {
    var currentDeg := BitAnfDegree(sbox, bit);
    after := before;
    if currentDeg > after {
      after := currentDeg;
    }
  }

  /** calculate_ad: the largest algebraic degree of the 8 output bits. */
  method CalculateAd(sbox: seq<bv8>) returns (maxDegree: int)
    requires |sbox| == 256
    ensures forall bit :: 0 <= bit < 8 ==> BitDegree(sbox, bit) <= maxDegree
    ensures exists bit :: 0 <= bit < 8 && maxDegree == BitDegree(sbox, bit)
    ensures 0 <= maxDegree <= 8
  {
    maxDegree := 0;
    ghost var degrees := BitDegrees(sbox);
    // the 8 output bits, written as |sbox| / 32 so that the bound is not a
    // literal the verifier unfolds RunningMax to
    var outputBits := |sbox| / 32;
    for bit := 0 to outputBits
      invariant maxDegree == RunningMax(degrees, bit)
    {
      maxDegree := DegreeRound(sbox, bit, maxDegree);
    }
    BitDegreesRange(sbox);
    RunningMaxIsMax(degrees, outputBits, 8);
    assert forall bit :: 0 <= bit < 8 ==> degrees[bit] == BitDegree(sbox, bit);
  }

  /** The number of true entries among the first n. */
  function TrueCount(v: seq<bool>, n: int): (r: nat)
    requires 0 <= n <= |v|
    ensures r <= n
  {
    if n == 0 then 0 else TrueCount(v, n - 1) + (if v[n - 1] then 1 else 0)
  }

  /** Every x below 2^k lies under the mask 2^k - 1. */
  lemma {:induction false} BelowAllOnes(x: nat, k: nat)
    requires x < Pow2(k)
    ensures Below(x, Pow2(k) - 1)
  {
    if k > 0 && x > 0 {
      BelowAllOnes(x / 2, k - 1);
      assert (Pow2(k) - 1) / 2 == Pow2(k - 1) - 1 && (Pow2(k) - 1) % 2 == 1;
    }
  }

  /** Over inputs that all lie under u, the subset parity is the parity of
      the number of true entries. */
  lemma {:induction false} ParityOfAll(v: seq<bool>, u: nat, n: int)
    requires 0 <= n <= |v|
    requires forall x :: 0 <= x < n ==> Below(x, u)
    ensures SubsetParity(v, u, 0, n) == (TrueCount(v, n) % 2 == 1)
  {
    if n > 0 {
      ParityOfAll(v, u, n - 1);
    }
  }

  /** A function of 8 variables that is 1 on an even number of inputs, in
      particular a balanced one, has degree at most 7: the coefficient of
      x0 x1 ... x7 is the parity of its truth table. */
  lemma EvenWeightDegree(v: seq<bool>)
    requires |v| == 256 && TrueCount(v, 256) % 2 == 0
    ensures Degree(Anf(v), 256) <= 7
  {
    assert Pow2(8) == 256;
    forall x | 0 <= x < 256
      ensures Below(x, 255)
    {
      BelowAllOnes(x, 8);
    }
    AnfIsSubsetParity(v, 255);
    ParityOfAll(v, 255, 256);
    DegreeWithoutTop(Anf(v));
  }

  /** An output bit that is 1 on 128 of the 256 inputs has degree at most 7. */
  lemma BalancedBitDegree(sbox: seq<bv8>, bit: nat)
    requires |sbox| == 256 && bit < 8 && TrueCount(BitValues(sbox, bit), 256) == 128
    ensures BitDegree(sbox, bit) <= 7
  {
    EvenWeightDegree(BitValues(sbox, bit));
  }
}
