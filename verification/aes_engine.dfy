/** The AES-128 engine with a caller-supplied S-box: an object holding the key,
    the S-box, its inverse, the round constants and the expanded round keys,
    and encrypting or decrypting one 16-byte block by updating a 4x4 state in
    place. Every step is proved against the value-level definitions of module
    AesSpec. */
module AesEngine {
  import opened Wrappers
  import opened GF256
  import opened Tables
  import AesSpec

  /** The entries of a 4x4 state array as a grid. */
  function Contents(st: array2<bv8>): (g: AesSpec.Grid)
    reads st
    requires st.Length0 == 4 && st.Length1 == 4
    ensures AesSpec.IsGrid(g)
    ensures forall r, c :: 0 <= r < 4 && 0 <= c < 4 ==> g[r][c] == st[r, c]
  {
    seq(4, r requires 0 <= r < 4 reads st => seq(4, c requires 0 <= c < 4 reads st => st[r, c]))
  }

  /** Row r of a 4x4 state array. */
  function RowOf(st: array2<bv8>, r: int): (q: Char2.Quad<bv8>)
    reads st
    requires st.Length0 == 4 && st.Length1 == 4 && 0 <= r < 4
    ensures q == Char2.Quad(st[r, 0], st[r, 1], st[r, 2], st[r, 3])
  {
    Char2.Quad(st[r, 0], st[r, 1], st[r, 2], st[r, 3])
  }

  /** Column c of a 4x4 state array. */
  function ColumnOf(st: array2<bv8>, c: int): (q: Char2.Quad<bv8>)
    reads st
    requires st.Length0 == 4 && st.Length1 == 4 && 0 <= c < 4
    ensures q == Char2.Quad(st[0, c], st[1, c], st[2, c], st[3, c])
  {
    Char2.Quad(st[0, c], st[1, c], st[2, c], st[3, c])
  }

  /** The simultaneous assignment of the four entries of row r. */
  method SetRow(st: array2<bv8>, r: int, t0: bv8, t1: bv8, t2: bv8, t3: bv8)
    requires st.Length0 == 4 && st.Length1 == 4 && 0 <= r < 4
    modifies st
    ensures RowOf(st, r) == Char2.Quad(t0, t1, t2, t3)
    ensures forall i :: 0 <= i < 4 && i != r ==> RowOf(st, i) == old(RowOf(st, i))
  {
    st[r, 0], st[r, 1], st[r, 2], st[r, 3] := t0, t1, t2, t3;
  }

  /** The assignment of the four entries of column c, top to bottom. */
  method SetColumn(st: array2<bv8>, c: int, t0: bv8, t1: bv8, t2: bv8, t3: bv8)
    requires st.Length0 == 4 && st.Length1 == 4 && 0 <= c < 4
    modifies st
    ensures ColumnOf(st, c) == Char2.Quad(t0, t1, t2, t3)
    ensures forall i :: 0 <= i < 4 && i != c ==> ColumnOf(st, i) == old(ColumnOf(st, i))
  {
    st[0, c] := t0;
    st[1, c] := t1;
    st[2, c] := t2;
    st[3, c] := t3;
  }

  /** A state array whose four rows are those of g holds g. */
  lemma RowsGiveContents(st: array2<bv8>, g: AesSpec.Grid)
    requires st.Length0 == 4 && st.Length1 == 4 && AesSpec.IsGrid(g)
    requires RowOf(st, 0) == Char2.Quad(g[0][0], g[0][1], g[0][2], g[0][3])
    requires RowOf(st, 1) == Char2.Quad(g[1][0], g[1][1], g[1][2], g[1][3])
    requires RowOf(st, 2) == Char2.Quad(g[2][0], g[2][1], g[2][2], g[2][3])
    requires RowOf(st, 3) == Char2.Quad(g[3][0], g[3][1], g[3][2], g[3][3])
    ensures Contents(st) == g
  {
    forall r, c | 0 <= r < 4 && 0 <= c < 4 ensures st[r, c] == g[r][c] {
      if r == 0 {
        assert RowOf(st, 0) == Char2.Quad(g[0][0], g[0][1], g[0][2], g[0][3]);
      } else if r == 1 {
        assert RowOf(st, 1) == Char2.Quad(g[1][0], g[1][1], g[1][2], g[1][3]);
      } else if r == 2 {
        assert RowOf(st, 2) == Char2.Quad(g[2][0], g[2][1], g[2][2], g[2][3]);
      } else {
        assert RowOf(st, 3) == Char2.Quad(g[3][0], g[3][1], g[3][2], g[3][3]);
      }
    }
    AesSpec.GridExt(Contents(st), g);
  }

  /** A state array whose four columns are those of g holds g. */
  lemma ColumnsGiveContents(st: array2<bv8>, g: AesSpec.Grid)
    requires st.Length0 == 4 && st.Length1 == 4 && AesSpec.IsGrid(g)
    requires forall c :: 0 <= c < 4 ==> ColumnOf(st, c) == AesSpec.Column(g, c)
    ensures Contents(st) == g
  {
    forall r, c | 0 <= r < 4 && 0 <= c < 4 ensures st[r, c] == g[r][c] {
      assert ColumnOf(st, c) == AesSpec.Column(g, c);
    }
    AesSpec.GridExt(Contents(st), g);
  }

  /** The column indices 0 .. 3; it only marks where ColumnsMapped is used. */
  ghost predicate ColumnIndex(c: int) {
    0 <= c < 4
  }

  /** Every column of h is f applied to the same column of g. */
  ghost predicate ColumnsMapped(f: Char2.Quad<bv8> -> Char2.Quad<bv8>, g: AesSpec.Grid, h: AesSpec.Grid)
    requires AesSpec.IsGrid(g) && AesSpec.IsGrid(h)
  {
    forall c {:trigger ColumnIndex(c)} :: ColumnIndex(c) ==> AesSpec.Column(h, c) == f(AesSpec.Column(g, c))
  }

  /** MapColumns maps every column. */
  lemma MapColumnsMapped(f: Char2.Quad<bv8> -> Char2.Quad<bv8>, g: AesSpec.Grid)
    requires AesSpec.IsGrid(g)
    ensures ColumnsMapped(f, g, AesSpec.MapColumns(f, g))
  {
    var h := AesSpec.MapColumns(f, g);
    forall c | ColumnIndex(c) ensures AesSpec.Column(h, c) == f(AesSpec.Column(g, c)) {
    }
  }

  /** The index that _generate_inv_sbox stores for value v after its first n
      steps: the last index below n holding v (later writes win), or 0, the
      initial entry, when no index below n holds v. */
  function LastIndex(sbox: seq<bv8>, v: int, n: nat): (k: int)
    requires n <= |sbox|
    ensures 0 <= k && (k < n || k == 0)
    ensures forall i :: 0 <= i < n && sbox[i] as int == v ==> sbox[k] as int == v && i <= k
    ensures (forall i :: 0 <= i < n ==> sbox[i] as int != v) ==> k == 0
  {
    if n == 0 then 0
    else if sbox[n - 1] as int == v then n - 1
    else LastIndex(sbox, v, n - 1)
  }

  /** The table built by _generate_inv_sbox. */
  ghost predicate InverseTableOf(sbox: seq<bv8>, inv: seq<bv8>)
    requires |sbox| == 256
  {
    |inv| == 256 &&
    forall v {:trigger LastIndex(sbox, v, 256)} :: 0 <= v < 256 ==> inv[v] as int == LastIndex(sbox, v, 256)
  }

  /** The table _generate_inv_sbox builds, as a value. */
  function InverseTable(sbox: seq<bv8>): (inv: seq<bv8>)
    requires |sbox| == 256
    ensures InverseTableOf(sbox, inv)
  {
    var inv := seq(256, v requires 0 <= v < 256 => LastIndex(sbox, v, 256) as bv8);
    forall v | 0 <= v < 256 ensures inv[v] as int == LastIndex(sbox, v, 256) {
      ByteCast(LastIndex(sbox, v, 256));
    }
    inv
  }

  /** _generate_inv_sbox has one outcome per S-box. */
  lemma InverseTableUnique(sbox: seq<bv8>, inv: seq<bv8>)
    requires |sbox| == 256 && InverseTableOf(sbox, inv)
    ensures inv == InverseTable(sbox)
  {
    var t := InverseTable(sbox);
    forall v | 0 <= v < 256 ensures inv[v] == t[v] {
      assert inv[v] as int == LastIndex(sbox, v, 256) == t[v] as int;
    }
  }

  /** For an S-box that is a permutation, the table maps each S-box entry back to its index. */
  lemma InverseTableLeft(sbox: seq<bv8>, inv: seq<bv8>, x: int)
    requires IsPermutation(sbox) && InverseTableOf(sbox, inv) && 0 <= x < 256
    ensures inv[sbox[x] as int] == x as bv8
  {
    var y := LastIndex(sbox, sbox[x] as int, 256);
    assert 0 <= y < 256 && sbox[y] as int == sbox[x] as int;
    PermutationDistinct(sbox, x, y);
    ByteCast(x);
  }

  /** For an S-box that is a permutation, the S-box maps each table entry back to its index. */
  lemma InverseTableRight(sbox: seq<bv8>, inv: seq<bv8>, v: int)
    requires IsPermutation(sbox) && InverseTableOf(sbox, inv) && 0 <= v < 256
    ensures sbox[inv[v] as int] == v as bv8
  {
    PermutationIsOnto(sbox, v as bv8);
    var i :| 0 <= i < 256 && sbox[i] == v as bv8;
    ByteCast(v);
    assert sbox[i] as int == v;
    assert sbox[LastIndex(sbox, v, 256)] as int == v;
  }

  /** For an S-box that is a permutation, that table is its inverse on both sides. */
  lemma InverseTableInverts(sbox: seq<bv8>, inv: seq<bv8>)
    requires IsPermutation(sbox) && InverseTableOf(sbox, inv)
    ensures AesSpec.Inverts(inv, sbox) && AesSpec.Inverts(sbox, inv)
  {
    forall x | 0 <= x < 256 ensures inv[sbox[x] as int] == x as bv8 {
      InverseTableLeft(sbox, inv, x);
    }
    forall v | 0 <= v < 256 ensures sbox[inv[v] as int] == v as bv8 {
      InverseTableRight(sbox, inv, v);
    }
  }

  /** The low byte of a 16-bit register. */
  function Low(x: bv16): bv8 {
    (x & 0xff) as bv8
  }

  // One round of _gmul seen on the low bytes of the registers: the register
  // bits above bit 7 never reach the low byte, so the low bytes follow one
  // round of MulRounds.

  /** The conditional addition of a to p. */
  lemma GmulAddStep(a: bv16, b: bv16, p: bv16, p': bv16, a8: bv8, b8: bv8)
    requires Low(a) == a8 && b == b8 as bv16
    requires p' == if b & 1 != 0 then p ^ a else p
    ensures Low(p') == Low(p) ^ (a8 & (0 - (b8 & 1)))
  {}

  /** The shift of a with the reduction by 0x1b. */
  lemma GmulXtimeStep(a: bv16, a': bv16, a8: bv8)
    requires Low(a) == a8
    requires a' == if a & 0x80 != 0 then (a << 1) ^ 0x1b else a << 1
    ensures Low(a') == Xtime(a8)
  {}

  /** The shift of b. */
  lemma GmulShiftStep(b: bv16, b': bv16, b8: bv8)
    requires b == b8 as bv16
    requires b' == b >> 1
    ensures b' == (b8 >> 1) as bv16
  {}

  /** One round of the loop of _gmul on the registers a, b and p, seen on
      their low bytes a8, b8 and p8: one round of MulRounds. */
  method GmulRound(a: bv16, b: bv16, p: bv16, ghost a8: bv8, ghost b8: bv8, ghost p8: bv8)
    returns (a': bv16, b': bv16, p': bv16)
    requires Low(a) == a8 && b == b8 as bv16 && Low(p) == p8
    ensures Low(a') == Xtime(a8) && b' == (b8 >> 1) as bv16
    ensures Low(p') == p8 ^ (a8 & (0 - (b8 & 1)))
  {
    p' := p;
    if b & 1 != 0 {
      p' := p ^ a;
    }
    GmulAddStep(a, b, p, p', a8, b8);
    var hiBit := a & 0x80;
    a' := a << 1;
    if hiBit != 0 {
      a' := a' ^ 0x1b;
    }
    GmulXtimeStep(a, a', a8);
    b' := b >> 1;
    GmulShiftStep(b, b', b8);
  }

  /** n rounds of the loop of _gmul. The Python integer a grows by one bit per
      round and is reduced by 0x1b only (not 0x11b), so its high bits are never
      cleared; only the low bytes of the registers reach the result. */
  method GmulRounds(a0: bv8, b0: bv8, n: nat) returns (r: bv8)
    ensures r == MulRounds(a0, b0, 0, n)
  {
    var a: bv16, b: bv16, p: bv16 := a0 as bv16, b0 as bv16, 0;
    // The low bytes of the registers.
    ghost var a8: bv8, b8: bv8, p8: bv8 := a0, b0, 0;
    for k := 0 to n
      invariant Low(a) == a8 && b == b8 as bv16 && Low(p) == p8
      invariant MulRounds(a8, b8, p8, n - k) == MulRounds(a0, b0, 0, n)
    {
      a, b, p := GmulRound(a, b, p, a8, b8, p8);
      a8, b8, p8 := Xtime(a8), b8 >> 1, p8 ^ (a8 & (0 - (b8 & 1)));
    }
    r := Low(p);
  }

  // The four bytes of one column after MixColumns and after InvMixColumns, in
  // terms of the products the engine computes, one row at a time.

  lemma MixRow0(s0: bv8, s1: bv8, s2: bv8, s3: bv8, m0: bv8, m1: bv8)
    requires m0 == Mul(s0, 2) && m1 == Mul(s1, 3)
    ensures m0 ^ m1 ^ s2 ^ s3 == MixColumn(Char2.Quad(s0, s1, s2, s3)).a0
  {
    assert MixColumn(Char2.Quad(s0, s1, s2, s3)).a0 == Char2.Sum4(Add, Mul2(s0), Mul3(s1), s2, s3);
  }

  lemma MixRow1(s0: bv8, s1: bv8, s2: bv8, s3: bv8, m1: bv8, m2: bv8)
    requires m1 == Mul(s1, 2) && m2 == Mul(s2, 3)
    ensures s0 ^ m1 ^ m2 ^ s3 == MixColumn(Char2.Quad(s0, s1, s2, s3)).a1
  {
    assert MixColumn(Char2.Quad(s0, s1, s2, s3)).a1 == Char2.Sum4(Add, s0, Mul2(s1), Mul3(s2), s3);
  }

  lemma MixRow2(s0: bv8, s1: bv8, s2: bv8, s3: bv8, m2: bv8, m3: bv8)
    requires m2 == Mul(s2, 2) && m3 == Mul(s3, 3)
    ensures s0 ^ s1 ^ m2 ^ m3 == MixColumn(Char2.Quad(s0, s1, s2, s3)).a2
  {
    assert MixColumn(Char2.Quad(s0, s1, s2, s3)).a2 == Char2.Sum4(Add, s0, s1, Mul2(s2), Mul3(s3));
  }

  lemma MixRow3(s0: bv8, s1: bv8, s2: bv8, s3: bv8, m0: bv8, m3: bv8)
    requires m0 == Mul(s0, 3) && m3 == Mul(s3, 2)
    ensures m0 ^ s1 ^ s2 ^ m3 == MixColumn(Char2.Quad(s0, s1, s2, s3)).a3
  {
    assert MixColumn(Char2.Quad(s0, s1, s2, s3)).a3 == Char2.Sum4(Add, Mul3(s0), s1, s2, Mul2(s3));
  }

  lemma InvMixRow0(s0: bv8, s1: bv8, s2: bv8, s3: bv8, m0: bv8, m1: bv8, m2: bv8, m3: bv8)
    requires m0 == Mul(s0, 14) && m1 == Mul(s1, 11) && m2 == Mul(s2, 13) && m3 == Mul(s3, 9)
    ensures m0 ^ m1 ^ m2 ^ m3 == InvMixColumn(Char2.Quad(s0, s1, s2, s3)).a0
  {
    assert InvMixColumn(Char2.Quad(s0, s1, s2, s3)).a0 == Char2.Sum4(Add, Mul14(s0), Mul11(s1), Mul13(s2), Mul9(s3));
  }

  lemma InvMixRow1(s0: bv8, s1: bv8, s2: bv8, s3: bv8, m0: bv8, m1: bv8, m2: bv8, m3: bv8)
    requires m0 == Mul(s0, 9) && m1 == Mul(s1, 14) && m2 == Mul(s2, 11) && m3 == Mul(s3, 13)
    ensures m0 ^ m1 ^ m2 ^ m3 == InvMixColumn(Char2.Quad(s0, s1, s2, s3)).a1
  {
    assert InvMixColumn(Char2.Quad(s0, s1, s2, s3)).a1 == Char2.Sum4(Add, Mul9(s0), Mul14(s1), Mul11(s2), Mul13(s3));
  }

  lemma InvMixRow2(s0: bv8, s1: bv8, s2: bv8, s3: bv8, m0: bv8, m1: bv8, m2: bv8, m3: bv8)
    requires m0 == Mul(s0, 13) && m1 == Mul(s1, 9) && m2 == Mul(s2, 14) && m3 == Mul(s3, 11)
    ensures m0 ^ m1 ^ m2 ^ m3 == InvMixColumn(Char2.Quad(s0, s1, s2, s3)).a2
  {
    assert InvMixColumn(Char2.Quad(s0, s1, s2, s3)).a2 == Char2.Sum4(Add, Mul13(s0), Mul9(s1), Mul14(s2), Mul11(s3));
  }

  lemma InvMixRow3(s0: bv8, s1: bv8, s2: bv8, s3: bv8, m0: bv8, m1: bv8, m2: bv8, m3: bv8)
    requires m0 == Mul(s0, 11) && m1 == Mul(s1, 13) && m2 == Mul(s2, 9) && m3 == Mul(s3, 14)
    ensures m0 ^ m1 ^ m2 ^ m3 == InvMixColumn(Char2.Quad(s0, s1, s2, s3)).a3
  {
    assert InvMixColumn(Char2.Quad(s0, s1, s2, s3)).a3 == Char2.Sum4(Add, Mul11(s0), Mul13(s1), Mul9(s2), Mul14(s3));
  }

  class AESEngine {
    var key: seq<bv8>
    var sbox: seq<bv8>
    var invSbox: seq<bv8>
    var rcon: seq<bv8>
    var roundKeys: seq<AesSpec.Grid>

    /** What the constructor establishes and no method changes. */
    ghost predicate Valid()
      reads this
    {
      |key| == 16 && |sbox| == 256 && InverseTableOf(sbox, invSbox) &&
      rcon == AesSpec.Rcon && roundKeys == AesSpec.RoundKeys(sbox, key)
    }

    /** The shapes the block operations rely on; implied by Valid(). */
    ghost predicate Ready()
      reads this
    {
      |sbox| == 256 && |invSbox| == 256 && AesSpec.IsSchedule(roundKeys)
    }

    /** The engine for a 16-byte key and a 256-entry S-box; Create below is
        the entry point that also handles a key of the wrong length. */
    constructor(key: seq<bv8>, sbox: seq<bv8>)
      requires |key| == 16 && |sbox| == 256
      ensures Valid()
      ensures this.key == key && this.sbox == sbox
    {
      this.key := key;
      this.sbox := sbox;
      new;
      invSbox := GenerateInvSbox(sbox);
      rcon := [0x00, 0x01, 0x02, 0x04, 0x08, 0x10, 0x20, 0x40, 0x80, 0x1b, 0x36];
      roundKeys := KeyExpansion(key);
    }

    /** The inverse table: for each index i in order, entry sbox[i] is set to i. */
    static method GenerateInvSbox(sbox: seq<bv8>) returns (inv: seq<bv8>)
      requires |sbox| == 256
      ensures InverseTableOf(sbox, inv)
    {
      inv := seq(256, _ => 0);
      for i := 0 to 256
        invariant |inv| == 256
        invariant forall v :: 0 <= v < 256 ==> inv[v] as int == LastIndex(sbox, v, i)
      {
        ByteCast(i);
        inv := inv[sbox[i] as int := i as bv8];
      }
    }

    /** Word i of the schedule from the words before it: the previous word,
        rotated, substituted and XORed with the round constant when i is a
        multiple of 4, XORed with the word four places back. */
    method NextKeyWord(keyColumns: seq<seq<bv8>>) returns (newWord: seq<bv8>)
      requires |sbox| == 256 && rcon == AesSpec.Rcon
      requires 4 <= |keyColumns| < 44 && AesSpec.IsWords(keyColumns)
      ensures newWord == AesSpec.NextWord(sbox, keyColumns)
    {
      var i := |keyColumns|;
      var temp := keyColumns[i - 1];
      if i % 4 == 0 {
        temp := RotSubWord(temp, i);
      }
      var prev := keyColumns[i - 4];
      newWord := seq(4, j requires 0 <= j < 4 => temp[j] ^ prev[j]);
      AesSpec.XorWordsByEntries(newWord, temp, prev);
      AesSpec.NextWordFrom(sbox, keyColumns, temp);
    }

    /** The branch of _key_expansion for a word index i that is a multiple
        of 4: the previous word rotated, substituted and XORed in its first
        byte with round constant i / 4. */
    method RotSubWord(word: seq<bv8>, i: int) returns (temp: seq<bv8>)
      requires |sbox| == 256 && rcon == AesSpec.Rcon && |word| == 4 && 0 <= i < 44
      ensures var sub := AesSpec.SubWord(sbox, AesSpec.RotWord(word));
              temp == sub[0 := sub[0] ^ AesSpec.Rcon[i / 4]]
    {
      temp := word[1..] + word[..1];
      assert temp == AesSpec.RotWord(word);
      temp := [sbox[temp[0] as int], sbox[temp[1] as int], sbox[temp[2] as int], sbox[temp[3] as int]];
      temp := temp[0 := temp[0] ^ rcon[i / 4]];
    }

    /** The key schedule: 44 four-byte words, the first four taken from the
        key, then regrouped as eleven 4x4 round keys whose column c is word 4r + c. */
    method KeyExpansion(key: seq<bv8>) returns (keys: seq<AesSpec.Grid>)
      requires |key| == 16 && |sbox| == 256 && rcon == AesSpec.Rcon
      ensures keys == AesSpec.RoundKeys(sbox, key)
    {
      var keyColumns: seq<seq<bv8>> := [];
      for i := 0 to 4
        invariant |keyColumns| == i
        invariant forall j :: 0 <= j < i ==> keyColumns[j] == key[4 * j..4 * j + 4]
      {
        keyColumns := keyColumns + [[key[4 * i], key[4 * i + 1], key[4 * i + 2], key[4 * i + 3]]];
      }
      assert keyColumns == AesSpec.ExpandKey(sbox, key, 4);
      var i := 4;
      while i < 44
        invariant 4 <= i <= 44 && keyColumns == AesSpec.ExpandKey(sbox, key, i)
      {
        var newWord := NextKeyWord(keyColumns);
        keyColumns := keyColumns + [newWord];
        i := i + 1;
      }
      keys := [];
      for r := 0 to 11
        invariant |keys| == r
        invariant forall k :: 0 <= k < r ==> keys[k] == AesSpec.RoundKey(keyColumns, k)
      {
        var matrix := RoundKeyMatrix(keyColumns, r);
        keys := keys + [matrix];
      }
    }

    /** Round key r: a 4x4 matrix whose column c is word 4r + c. */
    static method RoundKeyMatrix(keyColumns: seq<seq<bv8>>, r: int) returns (matrix: AesSpec.Grid)
      requires |keyColumns| == 44 && AesSpec.IsWords(keyColumns) && 0 <= r < 11
      ensures matrix == AesSpec.RoundKey(keyColumns, r)
    {
      matrix := [[0, 0, 0, 0], [0, 0, 0, 0], [0, 0, 0, 0], [0, 0, 0, 0]];
      for c := 0 to 4
        invariant AesSpec.IsGrid(matrix)
        invariant forall row, j :: 0 <= row < 4 && 0 <= j < 4 ==>
          matrix[row][j] == if j < c then keyColumns[4 * r + j][row] else 0
      {
        var word := keyColumns[4 * r + c];
        for row := 0 to 4
          invariant AesSpec.IsGrid(matrix)
          invariant forall ro, j :: 0 <= ro < 4 && 0 <= j < 4 ==>
            matrix[ro][j] == if j < c || (j == c && ro < row) then keyColumns[4 * r + j][ro] else 0
        {
          matrix := matrix[row := matrix[row][c := word[row]]];
        }
      }
      AesSpec.GridExt(matrix, AesSpec.RoundKey(keyColumns, r));
    }

    /** Multiplication in GF(2^8) by shift-and-add, returning the low byte. */
    static method Gmul(a: bv8, b: bv8) returns (r: bv8)
      ensures r == Mul(a, b)
    {
      r := GmulRounds(a, b, 8);
    }

    method SubBytes(state: array2<bv8>)
      requires |sbox| == 256 && state.Length0 == 4 && state.Length1 == 4
      modifies state
      ensures Contents(state) == AesSpec.SubBytes(sbox, old(Contents(state)))
    {
      ghost var g := Contents(state);
      for r := 0 to 4
        invariant forall i, j :: 0 <= i < r && 0 <= j < 4 ==> state[i, j] == sbox[g[i][j] as int]
        invariant forall i, j :: r <= i < 4 && 0 <= j < 4 ==> state[i, j] == g[i][j]
      {
        for c := 0 to 4
          invariant forall i, j :: 0 <= i < r && 0 <= j < 4 ==> state[i, j] == sbox[g[i][j] as int]
          invariant forall j :: 0 <= j < c ==> state[r, j] == sbox[g[r][j] as int]
          invariant forall j :: c <= j < 4 ==> state[r, j] == g[r][j]
          invariant forall i, j :: r < i < 4 && 0 <= j < 4 ==> state[i, j] == g[i][j]
        {
          state[r, c] := sbox[state[r, c] as int];
        }
      }
      AesSpec.GridExt(Contents(state), AesSpec.SubBytes(sbox, g));
    }

    method InvSubBytes(state: array2<bv8>)
      requires |invSbox| == 256 && state.Length0 == 4 && state.Length1 == 4
      modifies state
      ensures Contents(state) == AesSpec.SubBytes(invSbox, old(Contents(state)))
    {
      ghost var g := Contents(state);
      for r := 0 to 4
        invariant forall i, j :: 0 <= i < r && 0 <= j < 4 ==> state[i, j] == invSbox[g[i][j] as int]
        invariant forall i, j :: r <= i < 4 && 0 <= j < 4 ==> state[i, j] == g[i][j]
      {
        for c := 0 to 4
          invariant forall i, j :: 0 <= i < r && 0 <= j < 4 ==> state[i, j] == invSbox[g[i][j] as int]
          invariant forall j :: 0 <= j < c ==> state[r, j] == invSbox[g[r][j] as int]
          invariant forall j :: c <= j < 4 ==> state[r, j] == g[r][j]
          invariant forall i, j :: r < i < 4 && 0 <= j < 4 ==> state[i, j] == g[i][j]
        {
          state[r, c] := invSbox[state[r, c] as int];
        }
      }
      AesSpec.GridExt(Contents(state), AesSpec.SubBytes(invSbox, g));
    }

    static method ShiftRows(state: array2<bv8>)
      requires state.Length0 == 4 && state.Length1 == 4
      modifies state
      ensures Contents(state) == AesSpec.ShiftRows(old(Contents(state)))
    {
      ghost var g := Contents(state);
      ghost var target := AesSpec.ShiftRows(g);
      ghost var q0, q2, q3 := RowOf(state, 0), RowOf(state, 2), RowOf(state, 3);
      SetRow(state, 1, state[1, 1], state[1, 2], state[1, 3], state[1, 0]);
      ghost var q1 := RowOf(state, 1);
      assert RowOf(state, 2) == q2 && RowOf(state, 3) == q3;
      SetRow(state, 2, state[2, 2], state[2, 3], state[2, 0], state[2, 1]);
      q2 := RowOf(state, 2);
      assert RowOf(state, 3) == q3;
      SetRow(state, 3, state[3, 3], state[3, 0], state[3, 1], state[3, 2]);
      assert RowOf(state, 0) == q0 == Char2.Quad(target[0][0], target[0][1], target[0][2], target[0][3]);
      assert RowOf(state, 1) == q1 == Char2.Quad(target[1][0], target[1][1], target[1][2], target[1][3]);
      assert RowOf(state, 2) == q2 == Char2.Quad(target[2][0], target[2][1], target[2][2], target[2][3]);
      assert RowOf(state, 3) == Char2.Quad(target[3][0], target[3][1], target[3][2], target[3][3]);
      RowsGiveContents(state, target);
    }

    static method InvShiftRows(state: array2<bv8>)
      requires state.Length0 == 4 && state.Length1 == 4
      modifies state
      ensures Contents(state) == AesSpec.InvShiftRows(old(Contents(state)))
    {
      ghost var g := Contents(state);
      ghost var target := AesSpec.InvShiftRows(g);
      ghost var q0, q2, q3 := RowOf(state, 0), RowOf(state, 2), RowOf(state, 3);
      SetRow(state, 1, state[1, 3], state[1, 0], state[1, 1], state[1, 2]);
      ghost var q1 := RowOf(state, 1);
      assert RowOf(state, 2) == q2 && RowOf(state, 3) == q3;
      SetRow(state, 2, state[2, 2], state[2, 3], state[2, 0], state[2, 1]);
      q2 := RowOf(state, 2);
      assert RowOf(state, 3) == q3;
      SetRow(state, 3, state[3, 1], state[3, 2], state[3, 3], state[3, 0]);
      assert RowOf(state, 0) == q0 == Char2.Quad(target[0][0], target[0][1], target[0][2], target[0][3]);
      assert RowOf(state, 1) == q1 == Char2.Quad(target[1][0], target[1][1], target[1][2], target[1][3]);
      assert RowOf(state, 2) == q2 == Char2.Quad(target[2][0], target[2][1], target[2][2], target[2][3]);
      assert RowOf(state, 3) == Char2.Quad(target[3][0], target[3][1], target[3][2], target[3][3]);
      RowsGiveContents(state, target);
    }

    /** One pass of the loop of _mix_columns: column i is read into s0..s3 and
        replaced by its product with the MixColumns matrix. */
    static method MixOneColumn(state: array2<bv8>, i: int, ghost g: AesSpec.Grid, ghost target: AesSpec.Grid)
      requires state.Length0 == 4 && state.Length1 == 4 && 0 <= i < 4
      requires AesSpec.IsGrid(g) && AesSpec.IsGrid(target) && ColumnsMapped(MixColumn, g, target)
      requires ColumnOf(state, i) == AesSpec.Column(g, i)
      modifies state
      ensures ColumnOf(state, i) == AesSpec.Column(target, i)
      ensures forall c :: 0 <= c < 4 && c != i ==> ColumnOf(state, c) == old(ColumnOf(state, c))
    {
      assert ColumnIndex(i);
      var s0, s1, s2, s3 := state[0, i], state[1, i], state[2, i], state[3, i];
      var m0 := Gmul(s0, 2);
      var m1 := Gmul(s1, 3);
      var t0 := m0 ^ m1 ^ s2 ^ s3;
      MixRow0(s0, s1, s2, s3, m0, m1);
      m1 := Gmul(s1, 2);
      var m2 := Gmul(s2, 3);
      var t1 := s0 ^ m1 ^ m2 ^ s3;
      MixRow1(s0, s1, s2, s3, m1, m2);
      m2 := Gmul(s2, 2);
      var m3 := Gmul(s3, 3);
      var t2 := s0 ^ s1 ^ m2 ^ m3;
      MixRow2(s0, s1, s2, s3, m2, m3);
      m0 := Gmul(s0, 3);
      m3 := Gmul(s3, 2);
      var t3 := m0 ^ s1 ^ s2 ^ m3;
      MixRow3(s0, s1, s2, s3, m0, m3);
      SetColumn(state, i, t0, t1, t2, t3);
    }

    /** One pass of the loop of _inv_mix_columns. */
    static method InvMixOneColumn(state: array2<bv8>, i: int, ghost g: AesSpec.Grid, ghost target: AesSpec.Grid)
      requires state.Length0 == 4 && state.Length1 == 4 && 0 <= i < 4
      requires AesSpec.IsGrid(g) && AesSpec.IsGrid(target) && ColumnsMapped(InvMixColumn, g, target)
      requires ColumnOf(state, i) == AesSpec.Column(g, i)
      modifies state
      ensures ColumnOf(state, i) == AesSpec.Column(target, i)
      ensures forall c :: 0 <= c < 4 && c != i ==> ColumnOf(state, c) == old(ColumnOf(state, c))
    {
      assert ColumnIndex(i);
      var s0, s1, s2, s3 := state[0, i], state[1, i], state[2, i], state[3, i];
      var m0 := Gmul(s0, 0x0e);
      var m1 := Gmul(s1, 0x0b);
      var m2 := Gmul(s2, 0x0d);
      var m3 := Gmul(s3, 0x09);
      var t0 := m0 ^ m1 ^ m2 ^ m3;
      InvMixRow0(s0, s1, s2, s3, m0, m1, m2, m3);
      m0 := Gmul(s0, 0x09);
      m1 := Gmul(s1, 0x0e);
      m2 := Gmul(s2, 0x0b);
      m3 := Gmul(s3, 0x0d);
      var t1 := m0 ^ m1 ^ m2 ^ m3;
      InvMixRow1(s0, s1, s2, s3, m0, m1, m2, m3);
      m0 := Gmul(s0, 0x0d);
      m1 := Gmul(s1, 0x09);
      m2 := Gmul(s2, 0x0e);
      m3 := Gmul(s3, 0x0b);
      var t2 := m0 ^ m1 ^ m2 ^ m3;
      InvMixRow2(s0, s1, s2, s3, m0, m1, m2, m3);
      m0 := Gmul(s0, 0x0b);
      m1 := Gmul(s1, 0x0d);
      m2 := Gmul(s2, 0x09);
      m3 := Gmul(s3, 0x0e);
      var t3 := m0 ^ m1 ^ m2 ^ m3;
      InvMixRow3(s0, s1, s2, s3, m0, m1, m2, m3);
      SetColumn(state, i, t0, t1, t2, t3);
    }

    static method MixColumns(state: array2<bv8>)
      requires state.Length0 == 4 && state.Length1 == 4
      modifies state
      ensures Contents(state) == AesSpec.MixColumns(old(Contents(state)))
    {
      ghost var g := Contents(state);
      MapColumnsMapped(MixColumn, g);
      MixColumnsTo(state, g, AesSpec.MixColumns(g));
    }

    /** The loop of _mix_columns, column by column, towards a state target
        whose columns are those of g, each transformed. */
    static method MixColumnsTo(state: array2<bv8>, ghost g: AesSpec.Grid, ghost target: AesSpec.Grid)
      requires state.Length0 == 4 && state.Length1 == 4
      requires AesSpec.IsGrid(g) && AesSpec.IsGrid(target) && ColumnsMapped(MixColumn, g, target)
      requires Contents(state) == g
      modifies state
      ensures Contents(state) == target
    {
      forall c | 0 <= c < 4 ensures ColumnOf(state, c) == AesSpec.Column(g, c) {
      }
      for i := 0 to 4
        invariant forall c :: 0 <= c < i ==> ColumnOf(state, c) == AesSpec.Column(target, c)
        invariant forall c :: i <= c < 4 ==> ColumnOf(state, c) == AesSpec.Column(g, c)
      {
        MixOneColumn(state, i, g, target);
      }
      ColumnsGiveContents(state, target);
    }

    static method InvMixColumns(state: array2<bv8>)
      requires state.Length0 == 4 && state.Length1 == 4
      modifies state
      ensures Contents(state) == AesSpec.InvMixColumns(old(Contents(state)))
    {
      ghost var g := Contents(state);
      MapColumnsMapped(InvMixColumn, g);
      InvMixColumnsTo(state, g, AesSpec.InvMixColumns(g));
    }

    /** The loop of _inv_mix_columns, column by column, towards a state target
        whose columns are those of g, each transformed. */
    static method InvMixColumnsTo(state: array2<bv8>, ghost g: AesSpec.Grid, ghost target: AesSpec.Grid)
      requires state.Length0 == 4 && state.Length1 == 4
      requires AesSpec.IsGrid(g) && AesSpec.IsGrid(target) && ColumnsMapped(InvMixColumn, g, target)
      requires Contents(state) == g
      modifies state
      ensures Contents(state) == target
    {
      forall c | 0 <= c < 4 ensures ColumnOf(state, c) == AesSpec.Column(g, c) {
      }
      for i := 0 to 4
        invariant forall c :: 0 <= c < i ==> ColumnOf(state, c) == AesSpec.Column(target, c)
        invariant forall c :: i <= c < 4 ==> ColumnOf(state, c) == AesSpec.Column(g, c)
      {
        InvMixOneColumn(state, i, g, target);
      }
      ColumnsGiveContents(state, target);
    }

    static method AddRoundKey(state: array2<bv8>, roundKey: AesSpec.Grid)
      requires state.Length0 == 4 && state.Length1 == 4 && AesSpec.IsGrid(roundKey)
      modifies state
      ensures Contents(state) == AesSpec.AddRoundKey(old(Contents(state)), roundKey)
    {
      ghost var g := Contents(state);
      for r := 0 to 4
        invariant forall i, j :: 0 <= i < 4 && 0 <= j < 4 ==>
          state[i, j] == if i < r then g[i][j] ^ roundKey[i][j] else g[i][j]
      {
        for c := 0 to 4
          invariant forall i, j :: 0 <= i < 4 && 0 <= j < 4 ==>
            state[i, j] == if i < r || (i == r && j < c) then g[i][j] ^ roundKey[i][j] else g[i][j]
        {
          state[r, c] := state[r, c] ^ roundKey[r][c];
        }
      }
      AesSpec.GridExt(Contents(state), AesSpec.AddRoundKey(g, roundKey));
    }

    /** The state of a block: entry [r][c] is byte r + 4c. */
    static method LoadState(block: seq<bv8>) returns (state: array2<bv8>)
      requires |block| >= 16
      ensures fresh(state) && state.Length0 == 4 && state.Length1 == 4
      ensures Contents(state) == AesSpec.Load(block)
    {
      state := new bv8[4, 4];
      for r := 0 to 4
        invariant forall i, j :: 0 <= i < r && 0 <= j < 4 ==> state[i, j] == block[i + 4 * j]
      {
        for c := 0 to 4
          invariant forall i, j :: 0 <= i < r && 0 <= j < 4 ==> state[i, j] == block[i + 4 * j]
          invariant forall j :: 0 <= j < c ==> state[r, j] == block[r + 4 * j]
        {
          state[r, c] := block[r + 4 * c];
        }
      }
      AesSpec.GridExt(Contents(state), AesSpec.Load(block));
    }

    /** The bytes of a state, column by column, each column top to bottom. */
    static method StoreState(state: array2<bv8>) returns (output: seq<bv8>)
      requires state.Length0 == 4 && state.Length1 == 4
      ensures output == AesSpec.Store(Contents(state))
    {
      output := [];
      for c := 0 to 4
        invariant |output| == 4 * c
        invariant forall i, j :: 0 <= i < 4 && 0 <= j < c ==> output[i + 4 * j] == state[i, j]
      {
        for r := 0 to 4
          invariant |output| == 4 * c + r
          invariant forall i, j :: 0 <= i < 4 && 0 <= j < c ==> output[i + 4 * j] == state[i, j]
          invariant forall i :: 0 <= i < r ==> output[i + 4 * c] == state[i, c]
        {
          output := output + [state[r, c]];
        }
      }
      AesSpec.StoreByEntries(output, Contents(state));
    }

    /** The body of the round loop of encrypt_block. */
    method EncryptRound(state: array2<bv8>, round: int)
      requires Ready() && state.Length0 == 4 && state.Length1 == 4 && 1 <= round <= 9
      modifies state
      ensures Contents(state) == AesSpec.EncRound(sbox, roundKeys[round], old(Contents(state)))
    {
      SubBytes(state);
      ShiftRows(state);
      MixColumns(state);
      AddRoundKey(state, roundKeys[round]);
    }

    /** The body of the round loop of decrypt_block. */
    method DecryptRound(state: array2<bv8>, round: int)
      requires Ready() && state.Length0 == 4 && state.Length1 == 4 && 1 <= round <= 9
      modifies state
      ensures Contents(state) == AesSpec.DecRound(invSbox, roundKeys[round], old(Contents(state)))
    {
      InvShiftRows(state);
      InvSubBytes(state);
      AddRoundKey(state, roundKeys[round]);
      InvMixColumns(state);
    }

    /** The last round of encrypt_block, without MixColumns. */
    method EncryptLastRound(state: array2<bv8>)
      requires Ready() && state.Length0 == 4 && state.Length1 == 4
      modifies state
      ensures Contents(state) == AesSpec.AddRoundKey(AesSpec.ShiftRows(AesSpec.SubBytes(sbox, old(Contents(state)))), roundKeys[10])
    {
      SubBytes(state);
      ShiftRows(state);
      AddRoundKey(state, roundKeys[10]);
    }

    /** The last round of decrypt_block, without InvMixColumns. */
    method DecryptLastRound(state: array2<bv8>)
      requires Ready() && state.Length0 == 4 && state.Length1 == 4
      modifies state
      ensures Contents(state) == AesSpec.AddRoundKey(AesSpec.SubBytes(invSbox, AesSpec.InvShiftRows(old(Contents(state)))), roundKeys[0])
    {
      InvShiftRows(state);
      InvSubBytes(state);
      AddRoundKey(state, roundKeys[0]);
    }

    /** The nine full rounds of encrypt_block. */
    method EncryptRounds(state: array2<bv8>)
      requires Ready() && state.Length0 == 4 && state.Length1 == 4
      modifies state
      ensures Contents(state) == AesSpec.EncRounds(sbox, roundKeys, old(Contents(state)), |roundKeys| - 2)
    {
      ghost var start := Contents(state);
      for round := 1 to 10
        invariant Contents(state) == AesSpec.EncRounds(sbox, roundKeys, start, round - 1)
      {
        EncryptRound(state, round);
      }
    }

    /** The nine full rounds of decrypt_block, from round 9 down to round 1. */
    method DecryptRounds(state: array2<bv8>)
      requires Ready() && state.Length0 == 4 && state.Length1 == 4
      modifies state
      ensures Contents(state) == AesSpec.DecRounds(invSbox, roundKeys, old(Contents(state)), |roundKeys| - 10)
    {
      ghost var start := Contents(state);
      for round := 10 downto 1
        invariant Contents(state) == AesSpec.DecRounds(invSbox, roundKeys, start, round)
      {
        DecryptRound(state, round);
      }
    }

    /** encrypt_block: the first 16 bytes of the input through the cipher with
        this engine's S-box and round keys. */
    method EncryptBlock(plaintext: seq<bv8>) returns (ciphertext: seq<bv8>)
      requires Ready() && |plaintext| >= 16
      ensures ciphertext == AesSpec.Cipher(sbox, roundKeys, plaintext)
    {
      var state := LoadState(plaintext);
      AddRoundKey(state, roundKeys[0]);
      EncryptRounds(state);
      EncryptLastRound(state);
      ciphertext := StoreState(state);
    }

    /** decrypt_block: the first 16 bytes of the input through the inverse
        cipher with this engine's inverse table and round keys. */
    method DecryptBlock(ciphertext: seq<bv8>) returns (plaintext: seq<bv8>)
      requires Ready() && |ciphertext| >= 16
      ensures plaintext == AesSpec.InvCipher(invSbox, roundKeys, ciphertext)
    {
      var state := LoadState(ciphertext);
      AddRoundKey(state, roundKeys[10]);
      DecryptRounds(state);
      DecryptLastRound(state);
      plaintext := StoreState(state);
    }
  }

  /** The constructor's key check: a key of any length other than 16 bytes is
      refused; otherwise the engine is built. */
  method Create(key: seq<bv8>, sbox: seq<bv8>) returns (r: Result<AESEngine, string>)
    requires |sbox| == 256
    ensures r.Err? <==> |key| != 16
    ensures r.Ok? ==> fresh(r.value) && r.value.Valid() && r.value.key == key && r.value.sbox == sbox
  {
    if |key| != 16 {
      return Err("Key harus 16 bytes (128-bit) untuk implementasi ini.");
    }
    var engine := new AESEngine(key, sbox);
    return Ok(engine);
  }

  /** With an S-box that is a permutation, an engine's decrypt_block undoes its
      encrypt_block on every 16-byte block. */
  lemma DecryptUndoesEncrypt(sbox: seq<bv8>, invSbox: seq<bv8>, key: seq<bv8>, block: seq<bv8>)
    requires IsPermutation(sbox) && InverseTableOf(sbox, invSbox) && |key| == 16 && |block| == 16
    ensures var keys := AesSpec.RoundKeys(sbox, key);
            AesSpec.InvCipher(invSbox, keys, AesSpec.Cipher(sbox, keys, block)) == block
  {
    InverseTableInverts(sbox, invSbox);
    AesSpec.InvCipherUndoesCipher(sbox, invSbox, AesSpec.RoundKeys(sbox, key), block);
  }
}
