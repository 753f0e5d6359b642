/** The differential metrics of app/utils/crypto_metrics.py: the
    difference distribution table (DDT) of an S-box, its largest entry over
    the nonzero input differences (calculate_du, the differential
    uniformity) and that entry over 256 (calculate_dap). */
module Differential {
  import opened MetricTables
  import Validation

  /** The output difference S(x) ^ S(x ^ dx), as an index 0 .. 255. */
  function Diff(sbox: seq<bv8>, dx: int, x: int): (r: int)
    requires |sbox| == 256 && 0 <= dx < 256 && 0 <= x < 256
    ensures 0 <= r < 256
  {
    (sbox[x] ^ sbox[XorIndex(x, dx)]) as int
  }

  /** The number of inputs x < n whose output difference for dx is dy. */
  function Ddt(sbox: seq<bv8>, dx: int, dy: int, n: int): (r: nat)
    requires |sbox| == 256 && 0 <= dx < 256 && 0 <= n <= 256
    ensures r <= n
    decreases n
  {
    if n == 0 then 0
    else Ddt(sbox, dx, dy, n - 1) + (if Diff(sbox, dx, n - 1) == dy then 1 else 0)
  }

  /** The counts of the 256 output differences over the inputs x < n: row
      dx of the DDT once n is 256. */
  function DdtCounts(sbox: seq<bv8>, dx: int, n: int): (r: seq<int>)
    requires |sbox| == 256 && 0 <= dx < 256 && 0 <= n <= 256
    ensures |r| == 256
  {
    seq(256, dy => Ddt(sbox, dx, dy, n))
  }

  /** Input n adds one to the count of its own output difference. */
  lemma DdtCountsStep(sbox: seq<bv8>, dx: int, n: int)
    requires |sbox| == 256 && 0 <= dx < 256 && 0 <= n < 256
    ensures var d := Diff(sbox, dx, n);
            DdtCounts(sbox, dx, n + 1) == DdtCounts(sbox, dx, n)[d := DdtCounts(sbox, dx, n)[d] + 1]
  {
  }

  /** Every row of the DDT counts each of the inputs once: its entries add
      up to the number of inputs. */
  lemma {:induction false} DdtCountsSum(sbox: seq<bv8>, dx: int, n: int)
    requires |sbox| == 256 && 0 <= dx < 256 && 0 <= n <= 256
    ensures Sum(DdtCounts(sbox, dx, n)) == n
    decreases n
  {
    if n == 0 {
      SumBounds(DdtCounts(sbox, dx, 0), 0, 0);
    } else {
      DdtCountsSum(sbox, dx, n - 1);
      DdtCountsStep(sbox, dx, n - 1);
      SumIncrement(DdtCounts(sbox, dx, n - 1), Diff(sbox, dx, n - 1));
    }
  }

  /** For an S-box with no repeated output, a nonzero input difference
      never gives output difference 0. */
  lemma {:induction false} DdtZeroOfInjective(sbox: seq<bv8>, dx: int, n: int)
    requires |sbox| == 256 && 0 < dx < 256 && 0 <= n <= 256 && Injective(sbox)
    ensures Ddt(sbox, dx, 0, n) == 0
    decreases n
  {
    if n > 0 {
      DdtZeroOfInjective(sbox, dx, n - 1);
      var x := n - 1;
      var y := XorIndex(x, dx);
      assert sbox[x] != sbox[y];
      XorOfDistinct(sbox[x], sbox[y]);
    }
  }

  /** The inner loop of calculate_du and calculate_dap: the histogram of
      the output differences S(x) ^ S(x ^ dx) over the 256 inputs. */
  method DiffCounts(sbox: seq<bv8>, dx: int) returns (diffCounts: seq<int>)
    requires |sbox| == 256 && 0 <= dx < 256
    ensures diffCounts == DdtCounts(sbox, dx, |sbox|)
  {
    diffCounts := seq(256, _ => 0);
    assert diffCounts == DdtCounts(sbox, dx, 0);
    for x := 0 to 256
      invariant diffCounts == DdtCounts(sbox, dx, x)
    {
      var y1 := sbox[x];
      var y2 := sbox[XorIndex(x, dx)];
      var dy := (y1 ^ y2) as int;
      DdtCountsStep(sbox, dx, x);
      diffCounts := diffCounts[dy := diffCounts[dy] + 1];
    }
  }

  /** The largest entry of DDT row dx. */
  function RowMax(sbox: seq<bv8>, dx: int): int
    requires |sbox| == 256 && 0 <= dx < 256
  {
    Validation.SeqMax(DdtCounts(sbox, dx, |sbox|))
  }

  /** RowMax is the largest entry of row dx; it is at least 1, since the
      256 entries add up to 256, and at most 256. */
  lemma RowMaxIsMax(sbox: seq<bv8>, dx: int)
    requires |sbox| == 256 && 0 <= dx < 256
    ensures forall dy :: 0 <= dy < 256 ==> Ddt(sbox, dx, dy, |sbox|) <= RowMax(sbox, dx)
    ensures exists dy :: 0 <= dy < 256 && RowMax(sbox, dx) == Ddt(sbox, dx, dy, |sbox|)
    ensures 1 <= RowMax(sbox, dx) <= 256
  {
    var row := DdtCounts(sbox, dx, |sbox|);
    assert forall dy :: 0 <= dy < 256 ==> row[dy] == Ddt(sbox, dx, dy, |sbox|);
    DdtCountsSum(sbox, dx, |sbox|);
    if RowMax(sbox, dx) < 1 {
      SumBounds(row, 0, 0);
    }
  }

  /** The running maximum of calculate_du after the input differences
      1 .. n - 1: 0 raised to the largest entry of each row. */
  function MaxDdt(sbox: seq<bv8>, n: int): (r: int)
    requires |sbox| == 256 && 1 <= n <= 256
    decreases n
  {
    if n == 1 then 0
    else
      var before := MaxDdt(sbox, n - 1);
      var currentMax := RowMax(sbox, n - 1);
      if currentMax > before then currentMax else before
  }

  /** MaxDdt is the largest DDT entry over the input differences
      1 .. n - 1 and all output differences, and lies in 1 .. 256 once a
      row has been seen. */
  lemma {:induction false} MaxDdtIsMax(sbox: seq<bv8>, n: int)
    requires |sbox| == 256 && 1 <= n <= 256
    ensures forall dx, dy :: 1 <= dx < n && 0 <= dy < 256 ==> Ddt(sbox, dx, dy, |sbox|) <= MaxDdt(sbox, n)
    ensures n == 1 ==> MaxDdt(sbox, n) == 0
    ensures n > 1 ==> 1 <= MaxDdt(sbox, n) <= 256
    ensures n > 1 ==> exists dx, dy :: 1 <= dx < n && 0 <= dy < 256 && MaxDdt(sbox, n) == Ddt(sbox, dx, dy, |sbox|)
    decreases n
  {
    if n > 1 {
      MaxDdtIsMax(sbox, n - 1);
      RowMaxIsMax(sbox, n - 1);
      var before := MaxDdt(sbox, n - 1);
      var currentMax := RowMax(sbox, n - 1);
      assert before <= MaxDdt(sbox, n) && currentMax <= MaxDdt(sbox, n);
      forall dx, dy | 1 <= dx < n && 0 <= dy < 256
        ensures Ddt(sbox, dx, dy, |sbox|) <= MaxDdt(sbox, n)
      {
        if dx < n - 1 {
          assert Ddt(sbox, dx, dy, |sbox|) <= before;
        } else {
          assert Ddt(sbox, dx, dy, |sbox|) <= currentMax;
        }
      }
      if currentMax >= MaxDdt(sbox, n) {
        var dy :| 0 <= dy < 256 && currentMax == Ddt(sbox, n - 1, dy, |sbox|);
        assert MaxDdt(sbox, n) == Ddt(sbox, n - 1, dy, |sbox|);
      }
    }
  }

  /** One pass of the outer loop of calculate_du: the histogram of dx, its
      largest entry, and the maximum raised to it. */
  method DuRound(sbox: seq<bv8>, dx: int, before: int) returns (after: int)
    requires |sbox| == 256 && 1 <= dx < 256 && before == MaxDdt(sbox, dx)
    ensures after == MaxDdt(sbox, dx + 1)
  {
    var diffCounts := DiffCounts(sbox, dx);
    var currentMax := Validation.SeqMax(diffCounts);
    after := before;
    if currentMax > after {
      after := currentMax;
    }
  }

  /** calculate_du: the differential uniformity, the largest entry of the
      DDT over the nonzero input differences. */
  method CalculateDu(sbox: seq<bv8>) returns (maxDu: int)
    requires |sbox| == 256
    ensures maxDu == MaxDdt(sbox, |sbox|)
    ensures forall dx, dy :: 1 <= dx < 256 && 0 <= dy < 256 ==> Ddt(sbox, dx, dy, |sbox|) <= maxDu
    ensures exists dx, dy :: 1 <= dx < 256 && 0 <= dy < 256 && maxDu == Ddt(sbox, dx, dy, |sbox|)
    ensures 1 <= maxDu <= 256
  {
    maxDu := 0;
    // the input differences 1 .. 255, bounded by |sbox| so that the bound
    // is not a literal the verifier unfolds MaxDdt to
    for dx := 1 to |sbox|
      invariant maxDu == MaxDdt(sbox, dx)
    {
      maxDu := DuRound(sbox, dx, maxDu);
    }
    MaxDdtIsMax(sbox, |sbox|);
  }

  /** calculate_dap: the largest DDT entry over the nonzero input
      differences, as a probability over the 256 inputs. */
  method CalculateDap(sbox: seq<bv8>) returns (dap: real)
    requires |sbox| == 256
    ensures dap == MaxDdt(sbox, |sbox|) as real / 256.0
    ensures 1.0 / 256.0 <= dap <= 1.0
  {
    var maxCount := CalculateDu(sbox);
    dap := maxCount as real / 256.0;
  }
}
