/** The metrics of app/utils/crypto_metrics.py that read the Walsh spectrum
    of a truth table: nonlinearity (calculate_nl), the linear approximation
    probability (calculate_lap), correlation immunity (calculate_ci) and the
    transparency order (calculate_to). The S-box is a sequence of 256 bytes;
    the float results of these Python functions are `real`. */
module Spectral {
  import opened Butterfly
  import opened Bits
  import opened WalshTransform
  import opened MetricTables

  /** A table of the sign of a bit has only the entries 1 and -1. */
  lemma BitSignsAreSigns(sbox: seq<bv8>, bit: nat)
    requires |sbox| == 256 && bit < 8
    ensures IsSignTable(BitSigns(sbox, bit))
  {
  }

  lemma ComponentSignsAreSigns(sbox: seq<bv8>, v: int)
    requires |sbox| == 256 && 0 <= v < 256
    ensures IsSignTable(ComponentSigns(sbox, v))
  {
  }

  /** The nonlinearity of output bit `bit`: 128 - max|W| / 2. */
  function BitNl(sbox: seq<bv8>, bit: nat): int
    requires |sbox| == 256 && bit < 8
  {
    TableNl(BitSigns(sbox, bit))
  }

  /** The nonlinearity of each of the 8 output bits, in order; each lies
      in 0 .. 128. */
  function BitNls(sbox: seq<bv8>): (r: seq<int>)
    requires |sbox| == 256
    ensures |r| == 8
  {
    seq(8, bit requires 0 <= bit < 8 => BitNl(sbox, bit))
  }

  lemma BitNlsRange(sbox: seq<bv8>)
    requires |sbox| == 256
    ensures forall bit :: 0 <= bit < 8 ==> 0 <= BitNls(sbox)[bit] <= 128
  {
    forall bit | 0 <= bit < 8
      ensures 0 <= BitNls(sbox)[bit] <= 128
    {
      BitSignsAreSigns(sbox, bit);
      TableNlRange(BitSigns(sbox, bit));
    }
  }

  /** calculate_nl: the smallest nonlinearity of the eight output bits,
      which lies in 0 .. 128. */
  method CalculateNl(sbox: seq<bv8>) returns (minNl: int)
    requires |sbox| == 256
    ensures forall bit :: 0 <= bit < 8 ==> minNl <= BitNl(sbox, bit)
    ensures exists bit :: 0 <= bit < 8 && minNl == BitNl(sbox, bit)
    ensures 0 <= minNl <= 128
  {
    minNl := 256;
    ghost var nls := BitNls(sbox);
    // the 8 output bits, written as |sbox| / 32 so that the bound is not a
    // literal the verifier unfolds RunningMin to
    var outputBits := |sbox| / 32;
    for bit := 0 to outputBits
      invariant minNl == RunningMin(nls, bit, 256)
    {
      var truthTable := BitTable(sbox, bit);
      var nl := SignTableNl(truthTable);
      assert nl == nls[bit];
      if nl < minNl {
        minNl := nl;
      }
    }
    BitNlsRange(sbox);
    RunningMinIsMin(nls, outputBits, 0, 256);
    assert forall bit :: 0 <= bit < 8 ==> nls[bit] == BitNl(sbox, bit);
  }

  /** The largest |W(u)| of the component functions v . S(x) over the
      masks v in 1 .. n - 1 and u in 1 .. 255, or 0 when n is 1. */
  function MaxBias(sbox: seq<bv8>, n: int): (r: nat)
    requires |sbox| == 256 && 1 <= n <= 256
    ensures forall v, u :: 1 <= v < n && 1 <= u < 256 ==> Abs(Walsh(ComponentSigns(sbox, v))[u]) <= r
    ensures r == 0 || exists v, u :: 1 <= v < n && 1 <= u < 256 && Abs(Walsh(ComponentSigns(sbox, v))[u]) == r
    ensures r <= 256
    decreases n
  {
    if n == 1 then 0
    else
      var m := MaxBias(sbox, n - 1);
      ComponentSignsAreSigns(sbox, n - 1);
      SpectrumBound(ComponentSigns(sbox, n - 1));
      var p := Peak(Walsh(ComponentSigns(sbox, n - 1)), 1);
      if p > m then p else m
  }

  /** calculate_lap: the largest bias max|W| over the nonzero masks, over
      256, so it lies in [0, 1]. */
  method CalculateLap(sbox: seq<bv8>) returns (lap: real)
    requires |sbox| == 256
    ensures lap == MaxBias(sbox, |sbox|) as real / 256.0
    ensures 0.0 <= lap <= 1.0
  {
    var maxBias := 0;
    for v := 1 to 256
      invariant maxBias == MaxBias(sbox, v)
    {
      maxBias := LapRound(sbox, v, maxBias);
    }
    lap := maxBias as real / 256.0;
  }

  /** One round of the outer loop of calculate_lap: the output mask v
      raises the largest bias so far to the largest over the masks up to v. */
  method LapRound(sbox: seq<bv8>, v: int, before: int) returns (maxBias: int)
    requires |sbox| == 256 && 1 <= v < 256 && before == MaxBias(sbox, v)
    ensures maxBias == MaxBias(sbox, v + 1)
  {
    var truthTable := ComponentTable(sbox, v);
    var spectrum := Fwht(truthTable);
    maxBias := RaiseBias(spectrum, before);
  }

  /** The inner loop of calculate_lap: the running maximum raised to
      every |W(u)| with u in 1 .. 255. */
  method RaiseBias(spectrum: seq<int>, before: int) returns (maxBias: int)
    requires |spectrum| == 256 && before >= 0
    ensures maxBias == if Peak(spectrum, 1) > before then Peak(spectrum, 1) else before
  {
    maxBias := before;
    for u := 1 to 256
      invariant maxBias == if Peak(spectrum[..u], 1) > before then Peak(spectrum[..u], 1) else before
    {
      assert spectrum[..u + 1][..u] == spectrum[..u];
      var val := Abs(spectrum[u]);
      if val > maxBias {
        maxBias := val;
      }
    }
    assert spectrum[..256] == spectrum;
  }

  /** Every mask w in 1 .. 255 with `order` ones has a zero coefficient. */
  predicate ImmuneAt(spectrum: seq<int>, order: int)
    requires |spectrum| == 256
  {
    forall w :: 1 <= w < 256 && HammingWeight(w) == order ==> spectrum[w] == 0
  }

  /** The largest m in from .. 8 such that the orders from + 1 .. m are all
      immune. */
  function Immunity(spectrum: seq<int>, from: nat): (r: nat)
    requires |spectrum| == 256 && from <= 8
    ensures from <= r <= 8
    ensures forall order :: from < order <= r ==> ImmuneAt(spectrum, order)
    ensures r == 8 || !ImmuneAt(spectrum, r + 1)
    decreases 8 - from
  {
    if from < 8 && ImmuneAt(spectrum, from + 1) then Immunity(spectrum, from + 1) else from
  }

  /** The search over the masks of one order, which stops at the first
      nonzero coefficient. */
  method CheckOrder(spectrum: seq<int>, order: int) returns (isImmune: bool)
    requires |spectrum| == 256
    ensures isImmune <==> ImmuneAt(spectrum, order)
  {
    isImmune := true;
    for w := 1 to 256
      invariant isImmune
      invariant forall w' :: 1 <= w' < w && HammingWeight(w') == order ==> spectrum[w'] == 0
    {
      if HammingWeight(w) == order {
        if spectrum[w] != 0 {
          isImmune := false;
          break;
        }
      }
    }
  }

  /** The orders 1, 2, ... of one spectrum, up to the first that is not
      immune. */
  method SpectrumCi(spectrum: seq<int>) returns (currentCi: int)
    requires |spectrum| == 256
    ensures currentCi == Immunity(spectrum, 0)
  {
    currentCi := 0;
    for order := 1 to 9
      invariant currentCi == order - 1
      invariant Immunity(spectrum, 0) == Immunity(spectrum, currentCi)
    {
      var isImmune := CheckOrder(spectrum, order);
      if isImmune {
        currentCi := order;
      } else {
        assert Immunity(spectrum, currentCi) == currentCi;
        break;
      }
    }
  }

  /** The correlation immunity of output bit `bit`. */
  function BitCi(sbox: seq<bv8>, bit: nat): nat
    requires |sbox| == 256 && bit < 8
  {
    Immunity(Walsh(BitSigns(sbox, bit)), 0)
  }

  /** The correlation immunity of each of the 8 output bits, in order. */
  function BitCis(sbox: seq<bv8>): (r: seq<int>)
    requires |sbox| == 256
    ensures |r| == 8 && forall bit :: 0 <= bit < 8 ==> 0 <= r[bit] <= 8
  {
    seq(8, bit requires 0 <= bit < 8 => BitCi(sbox, bit))
  }

  /** One round of the loop of calculate_ci: the truth table of output bit
      `bit`, its spectrum and the orders it is immune at. */
  method BitImmunity(sbox: seq<bv8>, bit: nat) returns (currentCi: int)
    requires |sbox| == 256 && bit < 8
    ensures currentCi == BitCi(sbox, bit)
  {
    var truthTable := BitTable(sbox, bit);
    var spectrum := Fwht(truthTable);
    currentCi := SpectrumCi(spectrum);
  }

  /** One pass of the loop of calculate_ci: the immunity of output bit
      `bit` lowers the running minimum. */
  method CiRound(sbox: seq<bv8>, bit: nat, before: int) returns (after: int)
    requires |sbox| == 256 && bit < 8 && before == RunningMin(BitCis(sbox), bit, 8)
    ensures after == RunningMin(BitCis(sbox), bit + 1, 8)
  {
    var currentCi := BitImmunity(sbox, bit);
    after := before;
    if currentCi < after {
      after := currentCi;
    }
  }

  /** calculate_ci: the smallest correlation immunity of the eight output
      bits, in 0 .. 8; it is 0 as soon as one output bit has a nonzero
      coefficient at a mask with a single one. */
  method CalculateCi(sbox: seq<bv8>) returns (minCi: int)
    requires |sbox| == 256
    ensures forall bit :: 0 <= bit < 8 ==> minCi <= BitCi(sbox, bit)
    ensures exists bit :: 0 <= bit < 8 && minCi == BitCi(sbox, bit)
    ensures 0 <= minCi <= 8
  {
    minCi := 8;
    ghost var cis := BitCis(sbox);
    // the 8 output bits, written as |sbox| / 32 so that the bound is not a
    // literal the verifier unfolds RunningMin to
    var outputBits := |sbox| / 32;
    for bit := 0 to outputBits
      invariant minCi == RunningMin(cis, bit, 8)
    {
      minCi := CiRound(sbox, bit, minCi);
    }
    RunningMinIsMin(cis, outputBits, 0, 8);
    assert forall bit :: 0 <= bit < 8 ==> cis[bit] == BitCi(sbox, bit);
  }

  /** A nonzero coefficient at a mask with one bit set makes the
      correlation immunity of that output bit, and so the minimum, 0. */
  lemma CiZero(sbox: seq<bv8>, bit: nat, w: int, ci: int)
    requires |sbox| == 256 && bit < 8 && 1 <= w < 256 && HammingWeight(w) == 1
    requires Walsh(BitSigns(sbox, bit))[w] != 0
    requires 0 <= ci <= BitCi(sbox, bit)
    ensures ci == 0
  {
    assert !ImmuneAt(Walsh(BitSigns(sbox, bit)), 1);
  }

  /** The squares of the entries: the power spectrum. */
  function Squares(s: seq<int>): (r: seq<int>)
    ensures |r| == |s|
  {
    seq(|s|, i requires 0 <= i < |s| => s[i] * s[i])
  }

  /** The entries divided by n, rounding down as Python's // does for a
      positive divisor. */
  function DivideAll(s: seq<int>, n: int): (r: seq<int>)
    requires n > 0
    ensures |r| == |s|
  {
    seq(|s|, i requires 0 <= i < |s| => s[i] / n)
  }

  /** The autocorrelation table of a truth table: the transform of its
      power spectrum, over 256. */
  function Autocorrelation(t: seq<int>): (r: seq<int>)
    requires |t| == 256
    ensures |r| == 256
  {
    DivideAll(Walsh(Squares(Walsh(t))), 256)
  }

  /** The sum of |s[a]| for lo <= a < |s|. */
  function SumAbs(s: seq<int>, lo: nat): nat
    decreases |s|
  {
    if |s| <= lo then 0 else SumAbs(s[..|s| - 1], lo) + Abs(s[|s| - 1])
  }

  /** The value calculate_to computes for the output mask beta:
      |8 - 2 wt(beta)| minus the sum of |AC(a)| over a in 1 .. 255, over
      65280. */
  function BetaTerm(sbox: seq<bv8>, beta: int): real
    requires |sbox| == 256 && 0 <= beta < 256
  {
    Abs(8 - 2 * HammingWeight(beta)) as real
      - SumAbs(Autocorrelation(ComponentSigns(sbox, beta)), 1) as real / 65280.0
  }

  /** No term exceeds 8: wt(beta) is between 0 and 8 and the subtracted
      sum is not negative. */
  lemma BetaTermBound(sbox: seq<bv8>, beta: int)
    requires |sbox| == 256 && 0 <= beta < 256
    ensures BetaTerm(sbox, beta) <= 8.0
  {
    ByteWeight(beta);
  }

  /** The largest term over beta in 1 .. n - 1, and 0 when none is
      positive. */
  function MaxTerm(sbox: seq<bv8>, n: int): (r: real)
    requires |sbox| == 256 && 1 <= n <= 256
    ensures 0.0 <= r <= 8.0
    ensures forall beta :: 1 <= beta < n ==> BetaTerm(sbox, beta) <= r
    ensures r == 0.0 || exists beta :: 1 <= beta < n && BetaTerm(sbox, beta) == r
    decreases n
  {
    if n == 1 then 0.0
    else
      var m := MaxTerm(sbox, n - 1);
      var t := BetaTerm(sbox, n - 1);
      BetaTermBound(sbox, n - 1);
      if t > m then t else m
  }

  /** One round of the loop of calculate_to: the term of the output mask
      beta. */
  method BetaValue(sbox: seq<bv8>, beta: int) returns (currentVal: real)
    requires |sbox| == 256 && 1 <= beta < 256
    ensures currentVal == BetaTerm(sbox, beta)
  {
    var truthTable := ComponentTable(sbox, beta);
    var spectrum := Fwht(truthTable);
    var powerSpectrum := Squares(spectrum);
    var acRaw := Fwht(powerSpectrum);
    var autocorrelation := DivideAll(acRaw, 256);
    var sumAbsAc := SumAbs(autocorrelation, 1);
    var term1 := Abs(8 - 2 * HammingWeight(beta));
    var normalization := 65280;
    currentVal := term1 as real - sumAbsAc as real / normalization as real;
    assert currentVal == BetaTerm(sbox, beta);
  }

  /** calculate_to: the largest term over the nonzero output masks, or 0;
      it lies in [0, 8]. */
  method CalculateTo(sbox: seq<bv8>) returns (maxBetaVal: real)
    requires |sbox| == 256
    ensures maxBetaVal == MaxTerm(sbox, |sbox|)
    ensures 0.0 <= maxBetaVal <= 8.0
  {
    maxBetaVal := 0.0;
    for beta := 1 to 256
      invariant maxBetaVal == MaxTerm(sbox, beta)
    {
      var currentVal := BetaValue(sbox, beta);
      if currentVal > maxBetaVal {
        maxBetaVal := currentVal;
      }
    }
  }
}
