/** Byte tables shared by every component: a 256-entry table maps each byte
    value x (the index) to the byte at position x. S-boxes, the GF(2^8)
    inverse table and the affine map restricted to bytes are all such tables. */
module Tables {

  /** The set of indices 0 .. n-1. */
  function Range(n: nat): (r: set<int>)
    ensures forall k :: k in r <==> 0 <= k < n
    ensures |r| == n
  {
    if n == 0 then {} else Range(n - 1) + {n - 1}
  }

  /** No value occurs twice. */
  ghost predicate Distinct(s: seq<int>) {
    forall i, j :: 0 <= i < j < |s| ==> s[i] != s[j]
  }

  /** The values of s, as a set. */
  function Values(s: seq<int>): (r: set<int>)
    ensures forall v :: v in r <==> v in s
  {
    set v | v in s
  }

  lemma {:induction false} DistinctValuesCard(s: seq<int>)
    requires Distinct(s)
    ensures |Values(s)| == |s|
  {
    if s != [] {
      var t := s[..|s| - 1];
      DistinctValuesCard(t);
      assert Values(s) == Values(t) + {s[|s| - 1]};
      forall i | 0 <= i < |t| ensures t[i] != s[|s| - 1] {
        assert t[i] == s[i];
      }
    }
  }

  lemma {:induction false} DuplicateValuesCard(s: seq<int>)
    requires !Distinct(s)
    ensures |Values(s)| < |s|
  {
    var i, j :| 0 <= i < j < |s| && s[i] == s[j];
    ValuesCardBound(s[..j]);
    ValuesCardBound(s[j + 1..]);
    assert s == s[..j] + [s[j]] + s[j + 1..];
    assert Values(s) == Values(s[..j]) + Values(s[j + 1..]) by {
      forall v | v in Values(s) ensures v in Values(s[..j]) + Values(s[j + 1..]) {
        var k :| 0 <= k < |s| && s[k] == v;
        if k < j {
          assert s[..j][k] == v;
        } else if k > j {
          assert s[j + 1..][k - j - 1] == v;
        } else {
          assert s[..j][i] == v;
        }
      }
    }
  }

  lemma {:induction false} ValuesCardBound(s: seq<int>)
    ensures |Values(s)| <= |s|
  {
    if s != [] {
      var t := s[..|s| - 1];
      ValuesCardBound(t);
      assert Values(s) == Values(t) + {s[|s| - 1]};
    }
  }

  /** Pigeonhole: n distinct values drawn from 0 .. n-1 take every value of that range. */
  lemma DistinctInRangeIsOnto(s: seq<int>)
    requires Distinct(s)
    requires forall i :: 0 <= i < |s| ==> 0 <= s[i] < |s|
    ensures forall v :: 0 <= v < |s| ==> v in s
  {
    DistinctValuesCard(s);
    var missing := Range(|s|) - Values(s);
    assert Values(s) <= Range(|s|);
    assert |Range(|s|)| == |Values(s)| + |missing| by {
      assert Range(|s|) == Values(s) + missing;
    }
    assert Values(s) == Range(|s|);
  }

  /** A table of 256 bytes whose entries are pairwise distinct: a permutation of the byte values. */
  ghost predicate IsPermutation(t: seq<bv8>) {
    |t| == 256 && forall i, j :: 0 <= i < j < 256 ==> t[i] != t[j]
  }

  /** Distinct indices of a permutation hold distinct bytes. */
  lemma PermutationDistinct(t: seq<bv8>, i: int, j: int)
    requires IsPermutation(t) && 0 <= i < 256 && 0 <= j < 256
    ensures i != j ==> t[i] as int != t[j] as int
  {
    if i < j {
      assert t[i] != t[j];
    } else if j < i {
      assert t[j] != t[i];
    }
  }

  /** An index below 256 survives the round trip through a byte. */
  lemma ByteCast(i: int)
    requires 0 <= i < 256
    ensures (i as bv8) as int == i
  {
    assert i % 256 == i;
  }

  /** A byte survives the round trip through an index. */
  lemma ByteRoundTrip(b: bv8)
    ensures (b as int) as bv8 == b
  {}

  /** Distinct indices below 256 give distinct bytes. */
  lemma ByteCastInjective(i: int, j: int)
    requires 0 <= i < 256 && 0 <= j < 256 && i != j
    ensures i as bv8 != j as bv8
  {
    ByteCast(i);
    ByteCast(j);
  }

  /** The entries of a byte table as integers. */
  function AsInts(t: seq<bv8>): (r: seq<int>)
    ensures |r| == |t|
    ensures forall i :: 0 <= i < |t| ==> r[i] == t[i] as int
  {
    seq(|t|, i requires 0 <= i < |t| => t[i] as int)
  }

  /** Every byte value is the entry of a permutation at exactly one index. */
  lemma PermutationIsOnto(t: seq<bv8>, v: bv8)
    requires IsPermutation(t)
    ensures exists i :: 0 <= i < 256 && t[i] == v
  {
    var s := AsInts(t);
    assert Distinct(s) by {
      forall i, j | 0 <= i < j < |s| ensures s[i] != s[j] {
        assert t[i] != t[j];
      }
    }
    DistinctInRangeIsOnto(s);
    assert v as int in s;
    var i :| 0 <= i < 256 && s[i] == v as int;
    assert t[i] == v;
  }
}
