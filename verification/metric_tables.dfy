/** The tables the metric suite (app/utils/crypto_metrics.py) builds from an
    S-box of 256 bytes: the truth tables of its output bits, of the
    exclusive or of two output bits and of the component functions
    v . S(x), written as signs 1 and -1, and the largest magnitude in a
    stretch of a spectrum. */
module MetricTables {
  import opened Butterfly
  import opened Bits
  import opened WalshTransform
  import ByteBits

  function Abs(n: int): nat
  {
    if n < 0 then -n else n
  }

  /** `(b >> bit) & 1` is 1. */
  function OutputBit(b: bv8, bit: nat): bool
    requires bit < 8
  {
    (b >> bit) & 1 == 1
  }

  /** OutputBit is the bit of ByteBits on the indices 0 .. 7. */
  lemma OutputBitIsBit(b: bv8, bit: nat)
    requires bit < 8
    ensures OutputBit(b, bit) <==> ByteBits.Bit(b, bit as bv3) == 1
  {
  }

  /** The truth-table sign of a bit: 1 for 0 and -1 for 1. */
  function Sign(one: bool): int
  {
    if one then -1 else 1
  }

  /** x ^ d on integers in 0 .. 255, an index into the S-box. */
  function XorIndex(x: int, d: int): (r: int)
    requires 0 <= x < 256 && 0 <= d < 256
    ensures 0 <= r < 256
    ensures d > 0 ==> r != x
  {
    XorBitsBelow(x, d, 256);
    if d > 0 then XorBitsChanges(x, d); XorBits(x, d) else XorBits(x, d)
  }

  /** 1 << i, the mask of input bit i. */
  function Mask(i: nat): (r: int)
    requires i < 8
    ensures 1 <= r < 256
  {
    Pow2Monotone(i, 7);
    Pow2(i)
  }

  /** Bit `bit` of the output, as a sign table over the 256 inputs. */
  function BitSigns(sbox: seq<bv8>, bit: nat): (t: seq<int>)
    requires |sbox| == 256 && bit < 8
    ensures |t| == 256
  {
    seq(256, x requires 0 <= x < 256 => Sign(OutputBit(sbox[x], bit)))
  }

  /** The exclusive or of output bits j and k, as a sign table. */
  function PairSigns(sbox: seq<bv8>, j: nat, k: nat): (t: seq<int>)
    requires |sbox| == 256 && j < 8 && k < 8
    ensures |t| == 256
  {
    seq(256, x requires 0 <= x < 256 => Sign(OutputBit(sbox[x], j) != OutputBit(sbox[x], k)))
  }

  /** The parity of the ones of b & v: the GF(2) dot product of the output
      b with the mask v. */
  function Dot(b: bv8, v: int): bool
    requires 0 <= v < 256
  {
    HammingWeight((b & (v as bv8)) as int) % 2 == 1
  }

  /** The component function v . S(x), as a sign table. */
  function ComponentSigns(sbox: seq<bv8>, v: int): (t: seq<int>)
    requires |sbox| == 256 && 0 <= v < 256
    ensures |t| == 256
  {
    seq(256, x requires 0 <= x < 256 => Sign(Dot(sbox[x], v)))
  }

  /** Every entry is 1 or -1. */
  predicate IsSignTable(t: seq<int>)
  {
    forall x :: 0 <= x < |t| ==> t[x] == 1 || t[x] == -1
  }

  /** The truth table of output bit `bit`, as the loop of calculate_nl and
      calculate_ci builds it. */
  method BitTable(sbox: seq<bv8>, bit: nat) returns (t: seq<int>)
    requires |sbox| == 256 && bit < 8
    ensures t == BitSigns(sbox, bit) && IsSignTable(t)
  {
    t := [];
    for x := 0 to 256
      invariant |t| == x && forall y :: 0 <= y < x ==> t[y] == BitSigns(sbox, bit)[y]
      invariant IsSignTable(t)
    {
      var one := OutputBit(sbox[x], bit);
      t := t + [if !one then 1 else -1];
    }
  }

  /** The truth table of f_j XOR f_k, as the loop of calculate_bic builds it. */
  method PairTable(sbox: seq<bv8>, j: nat, k: nat) returns (t: seq<int>)
    requires |sbox| == 256 && j < 8 && k < 8
    ensures t == PairSigns(sbox, j, k) && IsSignTable(t)
  {
    t := [];
    for x := 0 to 256
      invariant |t| == x && forall y :: 0 <= y < x ==> t[y] == PairSigns(sbox, j, k)[y]
      invariant IsSignTable(t)
    {
      var xorVal := OutputBit(sbox[x], j) != OutputBit(sbox[x], k);
      t := t + [if !xorVal then 1 else -1];
    }
  }

  /** The truth table of v . S(x), as the loops of calculate_lap and
      calculate_to build it. */
  method ComponentTable(sbox: seq<bv8>, v: int) returns (t: seq<int>)
    requires |sbox| == 256 && 0 <= v < 256
    ensures t == ComponentSigns(sbox, v) && IsSignTable(t)
  {
    t := [];
    for x := 0 to 256
      invariant |t| == x && forall y :: 0 <= y < x ==> t[y] == ComponentSigns(sbox, v)[y]
      invariant IsSignTable(t)
    {
      var odd := Dot(sbox[x], v);
      t := t + [if !odd then 1 else -1];
    }
  }

  /** The largest |s[i]| for lo <= i < |s|, and 0 when there is none. */
  function Peak(s: seq<int>, lo: nat): (r: nat)
    ensures forall i :: lo <= i < |s| ==> Abs(s[i]) <= r
    ensures r == 0 || exists i :: lo <= i < |s| && Abs(s[i]) == r
    decreases |s|
  {
    if |s| <= lo then 0
    else
      var m := Peak(s[..|s| - 1], lo);
      assert forall i :: lo <= i < |s| - 1 ==> s[..|s| - 1][i] == s[i];
      if Abs(s[|s| - 1]) > m then Abs(s[|s| - 1]) else m
  }

  /** The spectrum of a sign table of 256 entries lies between -256 and 256. */
  lemma SpectrumBound(t: seq<int>)
    requires |t| == 256 && IsSignTable(t)
    ensures forall u :: 0 <= u < 256 ==> Abs(Walsh(t)[u]) <= 256
  {
    forall u | 0 <= u < 256 ensures Abs(Walsh(t)[u]) <= 256 {
      WalshBound(t, u);
    }
  }

  /** 128 - max|W| / 2, the nonlinearity of one sign table. */
  function TableNl(t: seq<int>): int
    requires |t| == 256
  {
    128 - Peak(Walsh(t), 0) / 2
  }

  /** The nonlinearity of a sign table lies in 0 .. 128. */
  lemma TableNlRange(t: seq<int>)
    requires |t| == 256 && IsSignTable(t)
    ensures 0 <= TableNl(t) <= 128
  {
    SpectrumBound(t);
  }

  /** The nonlinearity step that calculate_nl and calculate_bic share: the
      spectrum of the table, its largest magnitude and 128 less half of it. */
  method SignTableNl(t: seq<int>) returns (nl: int)
    requires |t| == 256 && IsSignTable(t)
    ensures nl == TableNl(t)
    ensures 0 <= nl <= 128
  {
    var spectrum := Fwht(t);
    var maxAbs: int := Peak(spectrum, 0);
    nl := 128 - maxAbs / 2;
    TableNlRange(t);
  }

  /** No two inputs share an output. */
  predicate Injective(sbox: seq<bv8>)
  {
    forall x, y :: 0 <= x < |sbox| && 0 <= y < |sbox| && x != y ==> sbox[x] != sbox[y]
  }

  /** Two different bytes differ in some bit. */
  lemma XorOfDistinct(a: bv8, b: bv8)
    requires a != b
    ensures a ^ b != 0
  {
  }

  /** The sum of the entries of a sequence. */
  function Sum(s: seq<int>): int
    decreases |s|
  {
    if s == [] then 0 else Sum(s[..|s| - 1]) + s[|s| - 1]
  }

  /** The sum of a prefix one entry longer. */
  lemma SumStep(s: seq<int>, i: int)
    requires 0 <= i < |s|
    ensures Sum(s[..i + 1]) == Sum(s[..i]) + s[i]
  {
    assert s[..i + 1][..i] == s[..i];
  }

  /** The whole sequence as a prefix of itself. */
  lemma SumWhole(s: seq<int>)
    ensures Sum(s[..|s|]) == Sum(s)
  {
    assert s[..|s|] == s;
  }

  /** One more at entry k makes the sum one more. */
  lemma {:induction false} SumIncrement(s: seq<int>, k: int)
    requires 0 <= k < |s|
    ensures Sum(s[k := s[k] + 1]) == Sum(s) + 1
    decreases |s|
  {
    var t := s[k := s[k] + 1];
    var n := |s| - 1;
    if k == n {
      assert t[..n] == s[..n];
    } else {
      assert t[..n] == s[..n][k := s[k] + 1];
      SumIncrement(s[..n], k);
    }
  }

  /** Entries between lo and hi give a sum between |s| lo and |s| hi. */
  lemma {:induction false} SumBounds(s: seq<int>, lo: int, hi: int)
    requires forall i :: 0 <= i < |s| ==> lo <= s[i] <= hi
    ensures lo * |s| <= Sum(s) <= hi * |s|
    decreases |s|
  {
    if s != [] {
      var t := s[..|s| - 1];
      assert forall i :: 0 <= i < |t| ==> t[i] == s[i];
      SumBounds(t, lo, hi);
      assert lo * |s| == lo * |t| + lo && hi * |s| == hi * |t| + hi;
    }
  }

  /** The running minimum of a loop that starts at `start` and lowers it
      to each of the first n entries that is smaller. */
  function RunningMin(s: seq<int>, n: int, start: int): (r: int)
    requires 0 <= n <= |s|
    ensures r <= start
    decreases n
  {
    if n == 0 then start
    else
      var before := RunningMin(s, n - 1, start);
      if s[n - 1] < before then s[n - 1] else before
  }

  /** With entries between lo and start, RunningMin is the smallest of the
      first n entries, and start before any. */
  lemma {:induction false} RunningMinIsMin(s: seq<int>, n: int, lo: int, start: int)
    requires 0 <= n <= |s| && lo <= start
    requires forall i :: 0 <= i < |s| ==> lo <= s[i] <= start
    ensures forall i :: 0 <= i < n ==> RunningMin(s, n, start) <= s[i]
    ensures n > 0 ==> exists i :: 0 <= i < n && RunningMin(s, n, start) == s[i]
    ensures n == 0 ==> RunningMin(s, n, start) == start
    ensures lo <= RunningMin(s, n, start) <= start
    decreases n
  {
    if n > 0 {
      RunningMinIsMin(s, n - 1, lo, start);
      if n - 1 > 0 && s[n - 1] >= RunningMin(s, n - 1, start) {
        var i :| 0 <= i < n - 1 && RunningMin(s, n - 1, start) == s[i];
        assert RunningMin(s, n, start) == s[i];
      }
    }
  }

  /** Entries lo .. hi - 1 that are at least `start` leave the running
      minimum where it was. */
  lemma {:induction false} RunningMinSkips(s: seq<int>, lo: int, hi: int, start: int)
    requires 0 <= lo <= hi <= |s|
    requires forall i :: lo <= i < hi ==> start <= s[i]
    ensures RunningMin(s, hi, start) == RunningMin(s, lo, start)
    decreases hi
  {
    if hi > lo {
      RunningMinSkips(s, lo, hi - 1, start);
    }
  }

  /** The running maximum of a loop that starts at 0 and raises it to each
      of the first n entries that is larger. */
  function RunningMax(s: seq<int>, n: int): int
    requires 0 <= n <= |s|
    decreases n
  {
    if n == 0 then 0
    else
      var before := RunningMax(s, n - 1);
      if s[n - 1] > before then s[n - 1] else before
  }

  /** Over non-negative entries, RunningMax is the largest of the first n,
      and 0 before any. */
  lemma {:induction false} RunningMaxIsMax(s: seq<int>, n: int, hi: int)
    requires 0 <= n <= |s|
    requires forall i :: 0 <= i < |s| ==> 0 <= s[i] <= hi
    ensures forall i :: 0 <= i < n ==> s[i] <= RunningMax(s, n)
    ensures n > 0 ==> exists i :: 0 <= i < n && RunningMax(s, n) == s[i]
    ensures n == 0 ==> RunningMax(s, n) == 0
    ensures 0 <= RunningMax(s, n) && (n > 0 ==> RunningMax(s, n) <= hi)
    decreases n
  {
    if n > 0 {
      RunningMaxIsMax(s, n - 1, hi);
      if n - 1 > 0 && s[n - 1] <= RunningMax(s, n - 1) {
        var i :| 0 <= i < n - 1 && RunningMax(s, n - 1) == s[i];
        assert RunningMax(s, n) == s[i];
      }
    }
  }

  /** A byte has at most 8 ones. */
  lemma ByteWeight(n: int)
    requires 0 <= n < 256
    ensures HammingWeight(n) <= 8
  {
    assert Pow2(8) == 256;
    PopcountBound(n, 8);
  }
}
