/** The avalanche metrics of app/utils/crypto_metrics.py: the strict
    avalanche criterion (calculate_sac) and the bit independence criterion
    (calculate_bic). Both flip one input bit at a time and count the output
    bits that change. */
module Avalanche {
  import opened Bits
  import opened MetricTables

  /** The number of output bits that change when input bit i of x is
      flipped. */
  function FlipWeight(sbox: seq<bv8>, i: nat, x: int): (r: nat)
    requires |sbox| == 256 && i < 8 && 0 <= x < 256
    ensures r <= 8
  {
    var diff := sbox[x] ^ sbox[XorIndex(x, Mask(i))];
    ByteWeight(diff as int);
    HammingWeight(diff as int)
  }

  /** The changed output bits over the inputs x < n, flipping input bit i. */
  function FlipRow(sbox: seq<bv8>, i: nat, n: int): (r: nat)
    requires |sbox| == 256 && i < 8 && 0 <= n <= 256
    ensures r <= 8 * n
    decreases n
  {
    if n == 0 then 0 else FlipRow(sbox, i, n - 1) + FlipWeight(sbox, i, n - 1)
  }

  /** The changed output bits for each of the 8 flipped input bits. */
  function FlipRows(sbox: seq<bv8>): (r: seq<int>)
    requires |sbox| == 256
    ensures |r| == 8
  {
    seq(8, i requires 0 <= i < 8 => FlipRow(sbox, i, |sbox|))
  }

  /** The inner loop of calculate_sac: the 256 inputs with input bit i
      flipped, each adding its changed bits to the total and 8 to the count. */
  method AddFlips(sbox: seq<bv8>, i: nat, flipMask: int, total0: int, count0: int)
    returns (total: int, count: int)
    requires |sbox| == 256 && i < 8 && flipMask == Mask(i)
    ensures total == total0 + FlipRow(sbox, i, |sbox|)
    ensures count == count0 + 2048
  {
    total, count := total0, count0;
    for x := 0 to 256
      invariant total == total0 + FlipRow(sbox, i, x)
      invariant count == count0 + 8 * x
    {
      var y1 := sbox[x];
      var y2 := sbox[XorIndex(x, flipMask)];
      var diff := y1 ^ y2;
      var hw := HammingWeight(diff as int);
      total := total + hw;
      count := count + 8;
    }
  }

  /** The total of the 8 rows lies in 0 .. 16384. */
  lemma SacTotalRange(sbox: seq<bv8>)
    requires |sbox| == 256
    ensures 0 <= Sum(FlipRows(sbox)) <= 16384
  {
    SumBounds(FlipRows(sbox), 0, 2048);
  }

  /** The loops of calculate_sac: every input bit flipped at every input,
      the changed output bits added up and 8 counted per input. */
  method SacCounts(sbox: seq<bv8>) returns (totalSac: int, count: int)
    requires |sbox| == 256
    ensures totalSac == Sum(FlipRows(sbox))
    ensures count == 16384
  {
    totalSac := 0;
    count := 0;
    ghost var rows := FlipRows(sbox);
    for i := 0 to 8
      invariant totalSac == Sum(rows[..i])
      invariant count == 2048 * i
    {
      var flipMask := Mask(i);
      totalSac, count := AddFlips(sbox, i, flipMask, totalSac, count);
      SumStep(rows, i);
    }
    SumWhole(rows);
  }

  /** calculate_sac: the changed output bits over the 8 flips of the 256
      inputs, over the 8 * 8 * 256 output bits looked at, so in [0, 1]. */
  method CalculateSac(sbox: seq<bv8>) returns (sac: real)
    requires |sbox| == 256
    ensures sac == Sum(FlipRows(sbox)) as real / 16384.0
    ensures 0.0 <= sac <= 1.0
  {
    var totalSac, count := SacCounts(sbox);
    SacTotalRange(sbox);
    assert count == 16384;
    sac := totalSac as real / 16384.0;
  }

  /** Flipping an input bit of an injective S-box changes its output. */
  lemma {:induction false} FlipRowOfInjective(sbox: seq<bv8>, i: nat, n: int)
    requires |sbox| == 256 && i < 8 && 0 <= n <= 256 && Injective(sbox)
    ensures FlipRow(sbox, i, n) >= n
    decreases n
  {
    if n > 0 {
      FlipRowOfInjective(sbox, i, n - 1);
      FlipWeightOfInjective(sbox, i, n - 1);
    }
  }

  /** With no two inputs sharing an output, flipping a bit of x changes at
      least one output bit. */
  lemma FlipWeightOfInjective(sbox: seq<bv8>, i: nat, x: int)
    requires |sbox| == 256 && i < 8 && 0 <= x < 256 && Injective(sbox)
    ensures FlipWeight(sbox, i, x) >= 1
  {
    var y := XorIndex(x, Mask(i));
    var diff := sbox[x] ^ sbox[y];
    XorOfDistinct(sbox[x], sbox[y]);
    PopcountPositive(diff as int);
    assert FlipWeight(sbox, i, x) == HammingWeight(diff as int);
  }

  /** For a bijective S-box every flip changes at least one output bit, so
      the SAC is at least 1/8. */
  lemma SacOfInjective(sbox: seq<bv8>)
    requires |sbox| == 256 && Injective(sbox)
    ensures Sum(FlipRows(sbox)) as real / 16384.0 >= 0.125
  {
    var rows := FlipRows(sbox);
    forall i | 0 <= i < 8
      ensures 256 <= rows[i] <= 2048
    {
      FlipRowOfInjective(sbox, i, 256);
    }
    SumBounds(rows, 256, 2048);
  }

  /** Output bits j and k of b, exclusive-ored. */
  function PairBit(b: bv8, j: nat, k: nat): bool
    requires j < 8 && k < 8
  {
    OutputBit(b, j) != OutputBit(b, k)
  }

  /** The inputs x < n at which flipping input bit i changes f_j XOR f_k. */
  function PairFlipRow(sbox: seq<bv8>, j: nat, k: nat, i: nat, n: int): (r: nat)
    requires |sbox| == 256 && j < 8 && k < 8 && i < 8 && 0 <= n <= 256
    ensures r <= n
    decreases n
  {
    if n == 0 then 0
    else
      var x := n - 1;
      var changed := PairBit(sbox[x], j, k) != PairBit(sbox[XorIndex(x, Mask(i))], j, k);
      PairFlipRow(sbox, j, k, i, n - 1) + (if changed then 1 else 0)
  }

  /** The changes of f_j XOR f_k for each of the 8 flipped input bits. */
  function PairRows(sbox: seq<bv8>, j: nat, k: nat): (r: seq<int>)
    requires |sbox| == 256 && j < 8 && k < 8
    ensures |r| == 8
  {
    seq(8, i requires 0 <= i < 8 => PairFlipRow(sbox, j, k, i, |sbox|))
  }

  /** The avalanche count of f_j XOR f_k lies in 0 .. 2048. */
  lemma PairAvalancheRange(sbox: seq<bv8>, j: nat, k: nat)
    requires |sbox| == 256 && j < 8 && k < 8
    ensures 0 <= Sum(PairRows(sbox, j, k)) <= 2048
  {
    SumBounds(PairRows(sbox, j, k), 0, 256);
  }

  /** The nonlinearity of f_j XOR f_k. */
  function PairNl(sbox: seq<bv8>, j: nat, k: nat): int
    requires |sbox| == 256 && j < 8 && k < 8
  {
    TableNl(PairSigns(sbox, j, k))
  }

  /** The table of f_j XOR f_k has only the entries 1 and -1, so its
      nonlinearity lies in 0 .. 128. */
  lemma PairNlRange(sbox: seq<bv8>, j: nat, k: nat)
    requires |sbox| == 256 && j < 8 && k < 8
    ensures 0 <= PairNl(sbox, j, k) <= 128
  {
    assert IsSignTable(PairSigns(sbox, j, k));
    TableNlRange(PairSigns(sbox, j, k));
  }

  /** The nonlinearities of the pairs (j, k) in the order calculate_bic
      visits them: entry 8 j + k. An entry with k <= j is not a pair and
      holds 256, above every nonlinearity, so that it never lowers the
      running minimum. */
  function PairNlTable(sbox: seq<bv8>): (t: seq<int>)
    requires |sbox| == 256
    ensures |t| == 64
  {
    seq(64, i requires 0 <= i < 64 => if i / 8 < i % 8 then PairNl(sbox, i / 8, i % 8) else 256)
  }

  /** (j, k) names an entry of the 8 x 8 table. */
  ghost predicate Cell(j: int, k: int) {
    0 <= j < 8 && 0 <= k < 8
  }

  /** `nls` holds the entries of PairNlTable. The BIC loops are proved
      against any such table, so that their proofs unfold PairNl only for
      the pair at hand. */
  ghost predicate TabulatesPairNl(sbox: seq<bv8>, nls: seq<int>)
    requires |sbox| == 256
  {
    && |nls| == 64
    && forall j, k {:trigger Cell(j, k)} :: Cell(j, k) ==> nls[8 * j + k] == if j < k then PairNl(sbox, j, k) else 256
  }

  /** PairNlTable is such a table. */
  lemma PairNlTableTabulates(sbox: seq<bv8>)
    requires |sbox| == 256
    ensures TabulatesPairNl(sbox, PairNlTable(sbox))
  {
    var t := PairNlTable(sbox);
    forall j, k | Cell(j, k)
      ensures t[8 * j + k] == if j < k then PairNl(sbox, j, k) else 256
    {
      var i := 8 * j + k;
      assert i / 8 == j && i % 8 == k;
    }
  }

  /** Every entry of such a table lies in 0 .. 256. */
  lemma TabulatedRange(sbox: seq<bv8>, nls: seq<int>)
    requires |sbox| == 256 && TabulatesPairNl(sbox, nls)
    ensures forall i :: 0 <= i < |nls| ==> 0 <= nls[i] <= 256
  {
    forall i | 0 <= i < |nls|
      ensures 0 <= nls[i] <= 256
    {
      var j, k := i / 8, i % 8;
      assert i == 8 * j + k && Cell(j, k);
      if j < k {
        PairNlRange(sbox, j, k);
      }
    }
  }

  /** The running minimum of the table's first 8 j entries is at or below
      the nonlinearity of every pair in the rows before j. */
  lemma BicMinBelowPairs(sbox: seq<bv8>, nls: seq<int>, j: int)
    requires |sbox| == 256 && TabulatesPairNl(sbox, nls) && 0 <= j <= 8
    ensures forall a, b :: 0 <= a < b < 8 && a < j ==> RunningMin(nls, 8 * j, 256) <= PairNl(sbox, a, b)
  {
    TabulatedRange(sbox, nls);
    RunningMinIsMin(nls, 8 * j, 0, 256);
    forall a, b | 0 <= a < b < 8 && a < j
      ensures RunningMin(nls, 8 * j, 256) <= PairNl(sbox, a, b)
    {
      assert Cell(a, b);
    }
  }

  /** Once row 0 has been seen, that running minimum is the nonlinearity
      of a pair in the rows before j, and so lies in 0 .. 128. */
  lemma BicMinIsPair(sbox: seq<bv8>, nls: seq<int>, j: int)
    requires |sbox| == 256 && TabulatesPairNl(sbox, nls) && 0 < j <= 8
    ensures exists a, b :: 0 <= a < b < 8 && a < j && RunningMin(nls, 8 * j, 256) == PairNl(sbox, a, b)
    ensures 0 <= RunningMin(nls, 8 * j, 256) <= 128
  {
    var m := RunningMin(nls, 8 * j, 256);
    TabulatedRange(sbox, nls);
    RunningMinIsMin(nls, 8 * j, 0, 256);
    assert Cell(0, 1);
    PairNlRange(sbox, 0, 1);
    assert m <= nls[1] <= 128;
    var i :| 0 <= i < 8 * j && m == nls[i];
    var a, b := i / 8, i % 8;
    assert i == 8 * a + b && Cell(a, b);
  }

  /** The entries of row j that are not pairs, 8 j .. 8 j + j, leave the
      running minimum where it was. */
  lemma BicRowStart(sbox: seq<bv8>, nls: seq<int>, j: nat)
    requires |sbox| == 256 && TabulatesPairNl(sbox, nls) && j < 8
    ensures RunningMin(nls, 8 * j + j + 1, 256) == RunningMin(nls, 8 * j, 256)
  {
    forall i | 8 * j <= i < 8 * j + j + 1
      ensures 256 <= nls[i]
    {
      assert Cell(j, i - 8 * j);
    }
    RunningMinSkips(nls, 8 * j, 8 * j + j + 1, 256);
  }

  /** The avalanche counts of the pairs (j, k), k = j + 1 .. 7, in order. */
  function RowCounts(sbox: seq<bv8>, j: nat): (r: seq<int>)
    requires |sbox| == 256 && j < 8
    ensures |r| == 7 - j
  {
    seq(7 - j, t requires 0 <= t < 7 - j => Sum(PairRows(sbox, j, j + 1 + t)))
  }

  /** `row` holds the entries of RowCounts(sbox, j). BicRow is proved
      against any such row, so that its proof does not unfold the counts. */
  ghost predicate CountsRow(sbox: seq<bv8>, j: nat, row: seq<int>)
    requires |sbox| == 256 && j < 8
  {
    && |row| == 7 - j
    && forall k {:trigger Cell(j, k)} :: Cell(j, k) && j < k ==> row[k - j - 1] == Sum(PairRows(sbox, j, k))
  }

  /** RowCounts(sbox, j) is such a row. */
  lemma RowCountsIsCountsRow(sbox: seq<bv8>, j: nat)
    requires |sbox| == 256 && j < 8
    ensures CountsRow(sbox, j, RowCounts(sbox, j))
  {
  }

  /** The total avalanche count of each row j = 0 .. 7. */
  function BicCounts(sbox: seq<bv8>): (r: seq<int>)
    requires |sbox| == 256
    ensures |r| == 8
  {
    seq(8, j requires 0 <= j < 8 => Sum(RowCounts(sbox, j)))
  }

  /** A row of 7 - j pairs counts at most 2048 (7 - j) changes. */
  lemma RowCountsRange(sbox: seq<bv8>, j: nat)
    requires |sbox| == 256 && j < 8
    ensures 0 <= Sum(RowCounts(sbox, j)) <= 2048 * (7 - j)
  {
    var row := RowCounts(sbox, j);
    forall t | 0 <= t < 7 - j
      ensures 0 <= row[t] <= 2048
    {
      PairAvalancheRange(sbox, j, j + 1 + t);
    }
    SumBounds(row, 0, 2048);
  }

  /** The rows before j count at most 2048 changes per pair. */
  lemma {:induction false} BicPrefixRange(sbox: seq<bv8>, j: int)
    requires |sbox| == 256 && 0 <= j <= 8
    ensures 0 <= Sum(BicCounts(sbox)[..j]) <= 2048 * PairsBefore(j)
    decreases j
  {
    if j > 0 {
      BicPrefixRange(sbox, j - 1);
      SumStep(BicCounts(sbox), j - 1);
      RowCountsRange(sbox, j - 1);
    }
  }

  /** The 28 pairs count at most 2048 * 28 changes. */
  lemma BicCountsRange(sbox: seq<bv8>)
    requires |sbox| == 256
    ensures 0 <= Sum(BicCounts(sbox)) <= 2048 * 28
  {
    BicPrefixRange(sbox, 8);
    SumWhole(BicCounts(sbox));
  }

  /** The innermost loop of calculate_bic: the inputs at which flipping
      input bit i changes f_j XOR f_k, added to the count so far. */
  method AddPairFlips(sbox: seq<bv8>, j: nat, k: nat, i: nat, flipMask: int, count0: int)
    returns (count: int)
    requires |sbox| == 256 && j < 8 && k < 8 && i < 8 && flipMask == Mask(i)
    ensures count == count0 + PairFlipRow(sbox, j, k, i, |sbox|)
  {
    count := count0;
    for x := 0 to 256
      invariant count == count0 + PairFlipRow(sbox, j, k, i, x)
    {
      var yOrig := PairBit(sbox[x], j, k);
      var yFlip := PairBit(sbox[XorIndex(x, flipMask)], j, k);
      if yOrig != yFlip {
        count := count + 1;
      }
    }
  }

  /** The avalanche loop of calculate_bic for the pair (j, k). */
  method PairSac(sbox: seq<bv8>, j: nat, k: nat) returns (sacSumPair: int)
    requires |sbox| == 256 && j < 8 && k < 8
    ensures sacSumPair == Sum(PairRows(sbox, j, k))
  {
    sacSumPair := 0;
    ghost var rows := PairRows(sbox, j, k);
    for i := 0 to 8
      invariant sacSumPair == Sum(rows[..i])
    {
      var flipMask := Mask(i);
      sacSumPair := AddPairFlips(sbox, j, k, i, flipMask, sacSumPair);
      SumStep(rows, i);
    }
    SumWhole(rows);
  }

  /** One pair (j, k) of calculate_bic: the nonlinearity of f_j XOR f_k and
      its avalanche count. */
  method BicPair(sbox: seq<bv8>, j: nat, k: nat) returns (nlPair: int, sacSumPair: int)
    requires |sbox| == 256 && j < 8 && k < 8
    ensures nlPair == PairNl(sbox, j, k) && 0 <= nlPair <= 128
    ensures sacSumPair == Sum(PairRows(sbox, j, k))
  {
    var truthTable := PairTable(sbox, j, k);
    nlPair := SignTableNl(truthTable);
    sacSumPair := PairSac(sbox, j, k);
  }

  /** The update of the running minimum of calculate_bic by the pair at
      entry `pos` of the table. */
  method LowerMin(ghost nls: seq<int>, ghost pos: nat, nlPair: int, before: int) returns (after: int)
    requires pos < |nls| && nlPair == nls[pos] && before == RunningMin(nls, pos, 256)
    ensures after == RunningMin(nls, pos + 1, 256)
  {
    after := before;
    if nlPair < after {
      after := nlPair;
    }
  }

  /** BicPair, with the nonlinearity read as entry 8 j + k of the table
      and the avalanche count as entry k - j - 1 of the row. */
  method BicPairAt(sbox: seq<bv8>, j: nat, k: nat, ghost nls: seq<int>, ghost row: seq<int>)
    returns (nlPair: int, sacSumPair: int)
    requires |sbox| == 256 && j < k < 8 && TabulatesPairNl(sbox, nls) && CountsRow(sbox, j, row)
    ensures nlPair == nls[8 * j + k]
    ensures sacSumPair == row[k - j - 1]
  {
    nlPair, sacSumPair := BicPair(sbox, j, k);
    assert Cell(j, k);
  }

  /** The inner loop of calculate_bic: the pairs (j, k) with j < k < 8. The
      running minimum falls to the smallest nonlinearity of the row, the
      running sum grows by the row's averages, the count by its pairs. */
  method BicRow(sbox: seq<bv8>, j: nat, minNl0: int, sum0: real, count0: int, ghost nls: seq<int>, ghost row: seq<int>)
    returns (minBicNl: int, sumBicSac: real, pairCount: int)
    requires |sbox| == 256 && j < 8 && TabulatesPairNl(sbox, nls) && CountsRow(sbox, j, row)
    requires minNl0 == RunningMin(nls, 8 * j, 256)
    ensures minBicNl == RunningMin(nls, 8 * (j + 1), 256)
    ensures sumBicSac == sum0 + Sum(row) as real / 2048.0
    ensures pairCount == count0 + (7 - j)
  {
    minBicNl, sumBicSac, pairCount := minNl0, sum0, count0;
    BicRowStart(sbox, nls, j);
    ghost var base := 8 * j;
    for k := j + 1 to 8
      invariant minBicNl == RunningMin(nls, base + k, 256)
      invariant sumBicSac == sum0 + Sum(row[..k - j - 1]) as real / 2048.0
      invariant pairCount == count0 + (k - j - 1)
    {
      var nlPair, sacSumPair := BicPairAt(sbox, j, k, nls, row);
      minBicNl := LowerMin(nls, base + k, nlPair, minBicNl);
      var avgSacPair := sacSumPair as real / 2048.0;
      sumBicSac := sumBicSac + avgSacPair;
      pairCount := pairCount + 1;
      SumStep(row, k - j - 1);
    }
    SumWhole(row);
  }

  /** The number of pairs j' < k < 8 with j' < j: 7 + 6 + ... */
  function PairsBefore(j: int): (r: nat)
    requires 0 <= j <= 8
  {
    if j == 0 then 0 else PairsBefore(j - 1) + (8 - j)
  }

  /** The two results of calculate_bic. */
  datatype BicResult = BicResult(bicNl: int, bicSac: real)

  /** The loop of calculate_bic over the output bits j: the smallest pair
      nonlinearity, the sum of the pair SAC averages and the pair count. */
  method BicTotals(sbox: seq<bv8>, ghost nls: seq<int>) returns (minBicNl: int, sumBicSac: real, pairCount: int)
    requires |sbox| == 256 && TabulatesPairNl(sbox, nls)
    ensures minBicNl == RunningMin(nls, |nls|, 256)
    ensures sumBicSac == Sum(BicCounts(sbox)) as real / 2048.0
    ensures pairCount == 28
  {
    minBicNl := 256;
    sumBicSac := 0.0;
    pairCount := 0;
    ghost var counts := BicCounts(sbox);
    // the 8 output bits, written as |sbox| / 32 so that the bound is not a
    // literal the verifier unfolds PairsBefore to
    var outputBits := |sbox| / 32;
    for j := 0 to outputBits
      invariant minBicNl == RunningMin(nls, 8 * j, 256)
      invariant sumBicSac == Sum(counts[..j]) as real / 2048.0
      invariant pairCount == PairsBefore(j)
    {
      RowCountsIsCountsRow(sbox, j);
      minBicNl, sumBicSac, pairCount := BicRow(sbox, j, minBicNl, sumBicSac, pairCount, nls, RowCounts(sbox, j));
      SumStep(counts, j);
    }
    SumWhole(counts);
  }

  /** After all 64 entries the running minimum is the smallest pair
      nonlinearity. */
  lemma BicMinOfAll(sbox: seq<bv8>, nls: seq<int>)
    requires |sbox| == 256 && TabulatesPairNl(sbox, nls)
    ensures forall j, k :: 0 <= j < k < 8 ==> RunningMin(nls, |nls|, 256) <= PairNl(sbox, j, k)
    ensures exists j, k :: 0 <= j < k < 8 && RunningMin(nls, |nls|, 256) == PairNl(sbox, j, k)
    ensures 0 <= RunningMin(nls, |nls|, 256) <= 128
  {
    BicMinBelowPairs(sbox, nls, 8);
    BicMinIsPair(sbox, nls, 8);
  }

  /** A count of at most 2048 changes for each of the 28 pairs gives a
      mean fraction in 0 .. 1. */
  lemma PairMeanRange(total: int)
    requires 0 <= total <= 2048 * 28
    ensures 0.0 <= total as real / 2048.0 / 28.0 <= 1.0
  {
  }

  /** calculate_bic: over the 28 pairs j < k of output bits, the smallest
      nonlinearity of f_j XOR f_k, and the mean over the pairs of the
      fraction of the 2048 flips that change f_j XOR f_k. */
  method CalculateBic(sbox: seq<bv8>) returns (r: BicResult)
    requires |sbox| == 256
    ensures forall j, k :: 0 <= j < k < 8 ==> r.bicNl <= PairNl(sbox, j, k)
    ensures exists j, k :: 0 <= j < k < 8 && r.bicNl == PairNl(sbox, j, k)
    ensures 0 <= r.bicNl <= 128
    ensures r.bicSac == Sum(BicCounts(sbox)) as real / 2048.0 / 28.0
    ensures 0.0 <= r.bicSac <= 1.0
  {
    ghost var nls := PairNlTable(sbox);
    PairNlTableTabulates(sbox);
    var minBicNl, sumBicSac, pairCount := BicTotals(sbox, nls);
    BicMinOfAll(sbox, nls);
    BicCountsRange(sbox);
    PairMeanRange(Sum(BicCounts(sbox)));
    var bicSac := 0.0;
    if pairCount > 0 {
      bicSac := sumBicSac / 28.0;
    }
    r := BicResult(minBicNl, bicSac);
  }
}
