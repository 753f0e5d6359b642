/** What the autocorrelation table of calculate_to (app/utils/crypto_metrics.py)
    holds. calculate_to does not sum t[x] * t[x XOR a] directly: it takes the
    transform of the squared Walsh spectrum and divides by 256. By the
    Wiener-Khinchin relation that transform is exactly 256 times the
    correlation, so the floor division loses nothing. Entry 0 is 256, every
    entry lies in [-256, 256], and so the sum over the 255 nonzero shifts is
    at most 65280, the normalisation of calculate_to. */
module AutocorrelationTable {
  import opened Butterfly
  import opened Bits
  import opened WalshTransform
  import opened WalshCorrelation
  import opened MetricTables
  import opened Spectral

  /** Exclusive or with 0 leaves a number as it is. */
  lemma {:induction false} XorBitsZero(p: nat)
    ensures XorBits(p, 0) == p
    decreases p
  {
    if p != 0 {
      XorBitsZero(p / 2);
    }
  }

  /** The correlation of a table with itself at every shift, summed directly. */
  function SelfCorrelation(t: seq<int>): (r: seq<int>)
    requires IsPow2(|t|)
    ensures |r| == |t|
  {
    seq(|t|, a requires 0 <= a < |t| => Correlation(t, t, a))
  }

  /** Entry a of the autocorrelation table is the sum over x of
      t[x] * t[x XOR a]: the transform of the power spectrum is 256 times
      it, so the division by 256 in calculate_to is exact. */
  lemma AutocorrelationIsCorrelation(t: seq<int>, a: int)
    requires |t| == 256 && 0 <= a < 256
    ensures Walsh(Squares(Walsh(t)))[a] == 256 * Correlation(t, t, a)
    ensures Walsh(Squares(Walsh(t)))[a] % 256 == 0
    ensures Autocorrelation(t)[a] == Correlation(t, t, a)
  {
    var w := Walsh(t);
    assert Squares(w) == Products(w, w);
    WalshProduct(t, t, a);
  }

  /** The same for the whole table. */
  lemma AutocorrelationTableIsCorrelation(t: seq<int>)
    requires |t| == 256
    ensures Autocorrelation(t) == SelfCorrelation(t)
  {
    forall a | 0 <= a < 256
      ensures Autocorrelation(t)[a] == SelfCorrelation(t)[a]
    {
      AutocorrelationIsCorrelation(t, a);
    }
  }

  /** For a table of signs, the first m terms at shift 0 are squares of
      signs, each 1. */
  lemma {:induction false} SignSumAtZero(x: seq<int>, m: nat)
    requires IsPow2(|x|) && IsSignTable(x) && m <= |x|
    ensures CorrSum(x, x, 0, 0, m) == m
  {
    if m > 0 {
      SignSumAtZero(x, m - 1);
      XorBitsZero(m - 1);
      assert CorrTerm(x, x, 0, m - 1) == x[m - 1] * x[m - 1];
    }
  }

  /** For tables of signs, m terms sum to at most m in absolute value. */
  lemma {:induction false} SignSumBound(x: seq<int>, y: seq<int>, u: nat, m: nat)
    requires IsPow2(|x|) && |y| == |x| && IsSignTable(x) && IsSignTable(y) && u < |x| && m <= |x|
    ensures -(m as int) <= CorrSum(x, y, u, 0, m) <= m
  {
    if m > 0 {
      SignSumBound(x, y, u, m - 1);
      XorBitsBelow(m - 1, u, |x|);
      var r := XorBits(m - 1, u);
      assert CorrTerm(x, y, u, m - 1) == x[m - 1] * y[r];
      assert y[r] == 1 || y[r] == -1;
    }
  }

  /** The autocorrelation of a table of signs is 256 at shift 0. */
  lemma AutocorrelationAtZero(t: seq<int>)
    requires |t| == 256 && IsSignTable(t)
    ensures Autocorrelation(t)[0] == 256
  {
    AutocorrelationIsCorrelation(t, 0);
    SignSumAtZero(t, 256);
  }

  /** Every entry of the autocorrelation of a table of signs lies in
      [-256, 256]. */
  lemma AutocorrelationBound(t: seq<int>, a: int)
    requires |t| == 256 && IsSignTable(t) && 0 <= a < 256
    ensures Abs(Autocorrelation(t)[a]) <= 256
  {
    AutocorrelationIsCorrelation(t, a);
    SignSumBound(t, t, a, 256);
  }

  /** The sum of |s[a]| over lo <= a < |s| is at most bound times the
      number of entries when each is at most bound. */
  lemma {:induction false} SumAbsBound(s: seq<int>, lo: nat, bound: nat)
    requires lo <= |s|
    requires forall a :: lo <= a < |s| ==> Abs(s[a]) <= bound
    ensures SumAbs(s, lo) <= (|s| - lo) * bound
    decreases |s|
  {
    if |s| > lo {
      var s' := s[..|s| - 1];
      assert forall a :: lo <= a < |s'| ==> s'[a] == s[a];
      SumAbsBound(s', lo, bound);
      var n := |s'| - lo;
      assert SumAbs(s, lo) == SumAbs(s', lo) + Abs(s[|s| - 1]);
      assert (n + 1) * bound == n * bound + bound;
    }
  }

  /** The term of calculate_to for beta, from the autocorrelation summed
      directly: |8 - 2 wt(beta)| minus the sum of |AC(a)| over a != 0, with
      AC(a) the sum over x of f(x) f(x XOR a), over 65280. */
  lemma BetaTermOfCorrelation(sbox: seq<bv8>, beta: int)
    requires |sbox| == 256 && 0 <= beta < 256
    ensures BetaTerm(sbox, beta)
            == Abs(8 - 2 * HammingWeight(beta)) as real
               - SumAbs(SelfCorrelation(ComponentSigns(sbox, beta)), 1) as real / 65280.0
  {
    AutocorrelationTableIsCorrelation(ComponentSigns(sbox, beta));
  }

  /** The subtracted part of the term lies in [0, 1]: 255 entries of at most
      256, and 255 * 256 = 65280. So each term lies between
      |8 - 2 wt(beta)| - 1 and |8 - 2 wt(beta)|. */
  lemma BetaTermRange(sbox: seq<bv8>, beta: int)
    requires |sbox| == 256 && 0 <= beta < 256
    ensures Abs(8 - 2 * HammingWeight(beta)) as real - 1.0 <= BetaTerm(sbox, beta)
    ensures BetaTerm(sbox, beta) <= Abs(8 - 2 * HammingWeight(beta)) as real
  {
    var t := ComponentSigns(sbox, beta);
    ComponentSignsAreSigns(sbox, beta);
    forall a | 1 <= a < 256
      ensures Abs(Autocorrelation(t)[a]) <= 256
    {
      AutocorrelationBound(t, a);
    }
    SumAbsBound(Autocorrelation(t), 1, 256);
    assert SumAbs(Autocorrelation(t), 1) <= 65280;
  }
}
