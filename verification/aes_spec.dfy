/** The AES-128 transformations as functions on values: the 4x4 state grid
    (row r, column c), the round functions and their inverses, the key schedule
    and the whole cipher. The in-place engine of module AesEngine is proved
    against these definitions. */
module AesSpec {
  import opened Char2
  import opened GF256
  import opened Tables

  /** The state: four rows of four bytes, indexed [row][column]. */
  type Grid = seq<seq<bv8>>

  ghost predicate IsGrid(g: Grid) {
    |g| == 4 && forall r :: 0 <= r < 4 ==> |g[r]| == 4
  }

  /** Two grids with the same entries are the same grid. */
  lemma GridExt(g: Grid, h: Grid)
    requires IsGrid(g) && IsGrid(h)
    requires forall r, c :: 0 <= r < 4 && 0 <= c < 4 ==> g[r][c] == h[r][c]
    ensures g == h
  {
    forall r | 0 <= r < 4 ensures g[r] == h[r] {
      assert forall c :: 0 <= c < 4 ==> g[r][c] == h[r][c];
    }
  }

  /** The grid whose entry [r][c] is f(r, c). */
  function Tabulate(f: (int, int) -> bv8): (g: Grid)
    ensures IsGrid(g)
    ensures forall r, c :: 0 <= r < 4 && 0 <= c < 4 ==> g[r][c] == f(r, c)
  {
    seq(4, r => seq(4, c => f(r, c)))
  }

  // ---------------------------------------------------------------------------
  // Loading a block into the state and reading it back, column by column.

  /** The state of a block: byte r + 4c goes to row r, column c. */
  function Load(block: seq<bv8>): (g: Grid)
    requires |block| >= 16
    ensures IsGrid(g)
    ensures forall r, c :: 0 <= r < 4 && 0 <= c < 4 ==> g[r][c] == block[r + 4 * c]
  {
    Tabulate((r, c) => if 0 <= r < 4 && 0 <= c < 4 then block[r + 4 * c] else 0)
  }

  /** The block of a state, columns in order, each column top to bottom. */
  function Store(g: Grid): (block: seq<bv8>)
    requires IsGrid(g)
    ensures |block| == 16
    ensures forall r, c :: 0 <= r < 4 && 0 <= c < 4 ==> block[r + 4 * c] == g[r][c]
  {
    [g[0][0], g[1][0], g[2][0], g[3][0]] +
    [g[0][1], g[1][1], g[2][1], g[3][1]] +
    [g[0][2], g[1][2], g[2][2], g[3][2]] +
    [g[0][3], g[1][3], g[2][3], g[3][3]]
  }

  /** Storing a loaded block gives the block back. */
  lemma StoreLoad(block: seq<bv8>)
    requires |block| == 16
    ensures Store(Load(block)) == block
  {
    var g := Load(block);
    assert Store(g) == [g[0][0], g[1][0], g[2][0], g[3][0], g[0][1], g[1][1], g[2][1], g[3][1],
                        g[0][2], g[1][2], g[2][2], g[3][2], g[0][3], g[1][3], g[2][3], g[3][3]];
  }

  /** A 16-byte block is the stored form of a state when it agrees with it entry by entry. */
  lemma StoreByEntries(block: seq<bv8>, g: Grid)
    requires IsGrid(g) && |block| == 16
    requires forall r, c :: 0 <= r < 4 && 0 <= c < 4 ==> block[r + 4 * c] == g[r][c]
    ensures block == Store(g)
  {
    forall k | 0 <= k < 16 ensures block[k] == Store(g)[k] {
      var r, c := k % 4, k / 4;
      assert k == r + 4 * c;
    }
  }

  /** Loading a stored state gives the state back. */
  lemma LoadStore(g: Grid)
    requires IsGrid(g)
    ensures Load(Store(g)) == g
  {
    GridExt(Load(Store(g)), g);
  }

  // ---------------------------------------------------------------------------
  // The round transformations.

  /** SubBytes with an arbitrary substitution table (InvSubBytes when the table is the inverse S-box). */
  function SubBytes(box: seq<bv8>, g: Grid): (h: Grid)
    requires |box| == 256 && IsGrid(g)
    ensures IsGrid(h)
    ensures forall r, c :: 0 <= r < 4 && 0 <= c < 4 ==> h[r][c] == box[g[r][c] as int]
  {
    Tabulate((r, c) => if 0 <= r < 4 && 0 <= c < 4 then box[g[r][c] as int] else 0)
  }

  /** A column index taken modulo 4, for indices below 8. */
  function Wrap(i: int): int {
    if i >= 4 then i - 4 else i
  }

  /** Row r is rotated left by r places: entry [r][c] comes from column (c + r) mod 4. */
  function ShiftRows(g: Grid): (h: Grid)
    requires IsGrid(g)
    ensures IsGrid(h)
    ensures forall r, c :: 0 <= r < 4 && 0 <= c < 4 ==> h[r][c] == g[r][Wrap(c + r)]
  {
    Tabulate((r, c) => if 0 <= r < 4 && 0 <= c < 4 then g[r][Wrap(c + r)] else 0)
  }

  /** Row r is rotated right by r places: entry [r][c] comes from column (c - r) mod 4. */
  function InvShiftRows(g: Grid): (h: Grid)
    requires IsGrid(g)
    ensures IsGrid(h)
    ensures forall r, c :: 0 <= r < 4 && 0 <= c < 4 ==> h[r][c] == g[r][Wrap(c + 4 - r)]
  {
    Tabulate((r, c) => if 0 <= r < 4 && 0 <= c < 4 then g[r][Wrap(c + 4 - r)] else 0)
  }

  /** Column c of a state, top to bottom. */
  function Column(g: Grid, c: int): Quad<bv8>
    requires IsGrid(g) && 0 <= c < 4
  {
    Quad(g[0][c], g[1][c], g[2][c], g[3][c])
  }

  /** Element r of a column. */
  function Entry(q: Quad<bv8>, r: int): bv8 {
    if r == 0 then q.a0 else if r == 1 then q.a1 else if r == 2 then q.a2 else q.a3
  }

  /** The state whose column c is f applied to column c of g: every column is
      transformed on its own. */
  function MapColumns(f: Quad<bv8> -> Quad<bv8>, g: Grid): (h: Grid)
    requires IsGrid(g)
    ensures IsGrid(h)
    ensures forall c :: 0 <= c < 4 ==> Column(h, c) == f(Column(g, c))
  {
    var h := Tabulate((r, c) => if 0 <= c < 4 then Entry(f(Column(g, c)), r) else 0);
    assert forall c :: 0 <= c < 4 ==> Column(h, c) == f(Column(g, c));
    h
  }

  /** A column map followed by its inverse, applied to every column, gives the state back. */
  lemma MapColumnsInverse(f: Quad<bv8> -> Quad<bv8>, f': Quad<bv8> -> Quad<bv8>, g: Grid)
    requires IsGrid(g)
    requires forall q :: f'(f(q)) == q
    ensures MapColumns(f', MapColumns(f, g)) == g
  {
    var h := MapColumns(f', MapColumns(f, g));
    forall r, c | 0 <= r < 4 && 0 <= c < 4 ensures h[r][c] == g[r][c] {
      assert Column(h, c) == Column(g, c);
    }
    GridExt(h, g);
  }

  /** Each column is multiplied by the circulant matrix (2, 3, 1, 1). */
  function MixColumns(g: Grid): (h: Grid)
    requires IsGrid(g)
    ensures IsGrid(h)
  {
    MapColumns(MixColumn, g)
  }

  /** Each column is multiplied by the circulant matrix (14, 11, 13, 9). */
  function InvMixColumns(g: Grid): (h: Grid)
    requires IsGrid(g)
    ensures IsGrid(h)
  {
    MapColumns(InvMixColumn, g)
  }

  /** Every entry is combined with the round key by exclusive or. */
  function AddRoundKey(g: Grid, k: Grid): (h: Grid)
    requires IsGrid(g) && IsGrid(k)
    ensures IsGrid(h)
    ensures forall r, c :: 0 <= r < 4 && 0 <= c < 4 ==> h[r][c] == g[r][c] ^ k[r][c]
  {
    Tabulate((r, c) => if 0 <= r < 4 && 0 <= c < 4 then g[r][c] ^ k[r][c] else 0)
  }

  // ---------------------------------------------------------------------------
  // Each transformation and its inverse.

  /** ShiftRows and InvShiftRows undo each other, and ShiftRows leaves row 0 alone. */
  lemma ShiftRowsInverse(g: Grid)
    requires IsGrid(g)
    ensures InvShiftRows(ShiftRows(g)) == g
    ensures ShiftRows(InvShiftRows(g)) == g
    ensures ShiftRows(g)[0] == g[0]
  {
    var h, h' := InvShiftRows(ShiftRows(g)), ShiftRows(InvShiftRows(g));
    forall r, c | 0 <= r < 4 && 0 <= c < 4 ensures h[r][c] == g[r][c] && h'[r][c] == g[r][c] {
      assert Wrap(Wrap(c + 4 - r) + r) == c;
      assert Wrap(Wrap(c + r) + 4 - r) == c;
    }
    GridExt(h, g);
    GridExt(h', g);
  }

  /** The entries of a 256-entry table, as a relation between a table and its inverse. */
  ghost predicate Inverts(inv: seq<bv8>, box: seq<bv8>) {
    |inv| == 256 && |box| == 256 &&
    forall x :: 0 <= x < 256 ==> inv[box[x] as int] == x as bv8
  }

  /** Substituting with a table and then with its inverse gives the state back. */
  lemma SubBytesInverse(box: seq<bv8>, inv: seq<bv8>, g: Grid)
    requires Inverts(inv, box) && IsGrid(g)
    ensures SubBytes(inv, SubBytes(box, g)) == g
  {
    forall r, c | 0 <= r < 4 && 0 <= c < 4 ensures SubBytes(inv, SubBytes(box, g))[r][c] == g[r][c] {
      ByteRoundTrip(g[r][c]);
    }
    GridExt(SubBytes(inv, SubBytes(box, g)), g);
  }

  /** InvMixColumns undoes MixColumns. */
  lemma MixColumnsInverse(g: Grid)
    requires IsGrid(g)
    ensures InvMixColumns(MixColumns(g)) == g
  {
    forall q ensures InvMixColumn(MixColumn(q)) == q {
      InvMixColumnUndoesMixColumn(q);
    }
    MapColumnsInverse(MixColumn, InvMixColumn, g);
  }

  /** Adding the same round key twice gives the state back. */
  lemma AddRoundKeyTwice(g: Grid, k: Grid)
    requires IsGrid(g) && IsGrid(k)
    ensures AddRoundKey(AddRoundKey(g, k), k) == g
  {
    GridExt(AddRoundKey(AddRoundKey(g, k), k), g);
  }

  // ---------------------------------------------------------------------------
  // The cipher (section 5.1 of FIPS 197) and the inverse cipher (section 5.3).

  /** Eleven round keys. */
  ghost predicate IsSchedule(keys: seq<Grid>) {
    |keys| == 11 && forall r :: 0 <= r < 11 ==> IsGrid(keys[r])
  }

  /** One of rounds 1 to 9 of the cipher. */
  function EncRound(box: seq<bv8>, k: Grid, g: Grid): (h: Grid)
    requires |box| == 256 && IsGrid(k) && IsGrid(g)
    ensures IsGrid(h)
  {
    AddRoundKey(MixColumns(ShiftRows(SubBytes(box, g))), k)
  }

  /** The state after rounds 1 to n of the cipher, starting from g. */
  function EncRounds(box: seq<bv8>, keys: seq<Grid>, g: Grid, n: nat): (h: Grid)
    requires |box| == 256 && IsSchedule(keys) && IsGrid(g) && n <= 9
    ensures IsGrid(h)
  {
    if n == 0 then g else EncRound(box, keys[n], EncRounds(box, keys, g, n - 1))
  }

  /** The cipher on one 16-byte block. */
  function Cipher(box: seq<bv8>, keys: seq<Grid>, block: seq<bv8>): (out: seq<bv8>)
    requires |box| == 256 && IsSchedule(keys) && |block| >= 16
    ensures |out| == 16
  {
    // rounds 1 .. 9, the count written |keys| - 2 so that it is not a
    // literal the verifier unfolds EncRounds to at every use of Cipher
    var g := EncRounds(box, keys, AddRoundKey(Load(block), keys[0]), |keys| - 2);
    Store(AddRoundKey(ShiftRows(SubBytes(box, g)), keys[10]))
  }

  /** One of rounds 9 down to 1 of the inverse cipher. */
  function DecRound(inv: seq<bv8>, k: Grid, g: Grid): (h: Grid)
    requires |inv| == 256 && IsGrid(k) && IsGrid(g)
    ensures IsGrid(h)
  {
    InvMixColumns(AddRoundKey(SubBytes(inv, InvShiftRows(g)), k))
  }

  /** The state after rounds 9 down to n of the inverse cipher, starting from g. */
  function DecRounds(inv: seq<bv8>, keys: seq<Grid>, g: Grid, n: nat): (h: Grid)
    requires |inv| == 256 && IsSchedule(keys) && IsGrid(g) && 1 <= n <= 10
    ensures IsGrid(h)
    decreases 10 - n
  {
    if n == 10 then g else DecRound(inv, keys[n], DecRounds(inv, keys, g, n + 1))
  }

  /** The inverse cipher on one 16-byte block. */
  function InvCipher(inv: seq<bv8>, keys: seq<Grid>, block: seq<bv8>): (out: seq<bv8>)
    requires |inv| == 256 && IsSchedule(keys) && |block| >= 16
    ensures |out| == 16
  {
    // rounds 9 down to 1, the last written |keys| - 10 for the same reason
    var g := DecRounds(inv, keys, AddRoundKey(Load(block), keys[10]), |keys| - 10);
    Store(AddRoundKey(SubBytes(inv, InvShiftRows(g)), keys[0]))
  }

  /** One inverse round undoes one round, seen after the SubBytes and ShiftRows of the next. */
  lemma DecRoundUndoesEncRound(box: seq<bv8>, inv: seq<bv8>, k: Grid, g: Grid)
    requires Inverts(inv, box) && IsGrid(k) && IsGrid(g)
    ensures DecRound(inv, k, ShiftRows(SubBytes(box, EncRound(box, k, g)))) == ShiftRows(SubBytes(box, g))
  {
    var e := EncRound(box, k, g);
    ShiftRowsInverse(SubBytes(box, e));
    SubBytesInverse(box, inv, e);
    AddRoundKeyTwice(MixColumns(ShiftRows(SubBytes(box, g))), k);
    MixColumnsInverse(ShiftRows(SubBytes(box, g)));
  }

  /** Inverse rounds 9 down to n undo cipher rounds 9 down to n. */
  lemma {:induction false} DecRoundsUndoEncRounds(box: seq<bv8>, inv: seq<bv8>, keys: seq<Grid>, g: Grid, n: nat)
    requires Inverts(inv, box) && IsSchedule(keys) && IsGrid(g) && 1 <= n <= 10
    ensures DecRounds(inv, keys, ShiftRows(SubBytes(box, EncRounds(box, keys, g, 9))), n)
         == ShiftRows(SubBytes(box, EncRounds(box, keys, g, n - 1)))
    decreases 10 - n
  {
    if n < 10 {
      DecRoundsUndoEncRounds(box, inv, keys, g, n + 1);
      DecRoundUndoesEncRound(box, inv, keys[n], EncRounds(box, keys, g, n - 1));
    }
  }

  /** Decryption inverts encryption: for a substitution table and its inverse,
      and any eleven round keys, every 16-byte block comes back. */
  lemma InvCipherUndoesCipher(box: seq<bv8>, inv: seq<bv8>, keys: seq<Grid>, block: seq<bv8>)
    requires Inverts(inv, box) && IsSchedule(keys) && |block| == 16
    ensures InvCipher(inv, keys, Cipher(box, keys, block)) == block
  {
    var start := AddRoundKey(Load(block), keys[0]);
    var last := ShiftRows(SubBytes(box, EncRounds(box, keys, start, 9)));
    var out := AddRoundKey(last, keys[10]);
    LoadStore(out);
    AddRoundKeyTwice(last, keys[10]);
    DecRoundsUndoEncRounds(box, inv, keys, start, 1);
    ShiftRowsInverse(SubBytes(box, start));
    SubBytesInverse(box, inv, start);
    AddRoundKeyTwice(Load(block), keys[0]);
    StoreLoad(block);
  }

  // ---------------------------------------------------------------------------
  // The key schedule (section 5.2 of FIPS 197), with an arbitrary substitution table.

  /** The round constants; entry i is used for word 4i. */
  const Rcon: seq<bv8> := [0x00, 0x01, 0x02, 0x04, 0x08, 0x10, 0x20, 0x40, 0x80, 0x1b, 0x36]

  ghost predicate IsWords(w: seq<seq<bv8>>) {
    forall i :: 0 <= i < |w| ==> |w[i]| == 4
  }

  /** A word rotated left by one byte. */
  function RotWord(w: seq<bv8>): (r: seq<bv8>)
    requires |w| == 4
    ensures |r| == 4 && forall j :: 0 <= j < 4 ==> r[j] == w[(j + 1) % 4]
  {
    [w[1], w[2], w[3], w[0]]
  }

  /** Each byte of a word replaced through the substitution table. */
  function SubWord(box: seq<bv8>, w: seq<bv8>): (r: seq<bv8>)
    requires |box| == 256 && |w| == 4
    ensures |r| == 4 && forall j :: 0 <= j < 4 ==> r[j] == box[w[j] as int]
  {
    [box[w[0] as int], box[w[1] as int], box[w[2] as int], box[w[3] as int]]
  }

  /** The bytewise exclusive or of two words. */
  function XorWords(u: seq<bv8>, v: seq<bv8>): (r: seq<bv8>)
    requires |u| == 4 && |v| == 4
    ensures |r| == 4
  {
    [u[0] ^ v[0], u[1] ^ v[1], u[2] ^ v[2], u[3] ^ v[3]]
  }

  /** A word agreeing with the bytewise exclusive or entry by entry is that word. */
  lemma XorWordsByEntries(w: seq<bv8>, u: seq<bv8>, v: seq<bv8>)
    requires |w| == 4 && |u| == 4 && |v| == 4
    requires forall j :: 0 <= j < 4 ==> w[j] == u[j] ^ v[j]
    ensures w == XorWords(u, v)
  {
    assert w == [w[0], w[1], w[2], w[3]];
  }

  /** Word i of the schedule, from the words before it. */
  function NextWord(box: seq<bv8>, w: seq<seq<bv8>>): (next: seq<bv8>)
    requires |box| == 256 && 4 <= |w| < 44 && IsWords(w)
    ensures |next| == 4
  {
    var i := |w|;
    var temp :=
      if i % 4 == 0 then
        var sub := SubWord(box, RotWord(w[i - 1]));
        sub[0 := sub[0] ^ Rcon[i / 4]]
      else w[i - 1];
    XorWords(temp, w[i - 4])
  }

  /** The next word is the XOR of the word four places back with the
      transformed previous word. */
  lemma NextWordFrom(box: seq<bv8>, w: seq<seq<bv8>>, temp: seq<bv8>)
    requires |box| == 256 && 4 <= |w| < 44 && IsWords(w)
    requires |w| % 4 == 0 ==>
      var sub := SubWord(box, RotWord(w[|w| - 1]));
      temp == sub[0 := sub[0] ^ Rcon[|w| / 4]]
    requires |w| % 4 != 0 ==> temp == w[|w| - 1]
    ensures NextWord(box, w) == XorWords(temp, w[|w| - 4])
  {}

  /** The first n words of the schedule of a 16-byte key. */
  function ExpandKey(box: seq<bv8>, key: seq<bv8>, n: nat): (w: seq<seq<bv8>>)
    requires |box| == 256 && |key| == 16 && 4 <= n <= 44
    ensures |w| == n && IsWords(w)
  {
    if n == 4 then [key[0..4], key[4..8], key[8..12], key[12..16]]
    else
      var w := ExpandKey(box, key, n - 1);
      w + [NextWord(box, w)]
  }

  /** The schedule grows by appending: a shorter schedule is a prefix of a longer one. */
  lemma {:induction false} ExpandKeyPrefix(box: seq<bv8>, key: seq<bv8>, m: nat, n: nat)
    requires |box| == 256 && |key| == 16 && 4 <= m <= n <= 44
    ensures ExpandKey(box, key, n)[..m] == ExpandKey(box, key, m)
    decreases n
  {
    if m < n {
      ExpandKeyPrefix(box, key, m, n - 1);
      assert ExpandKey(box, key, n)[..n - 1] == ExpandKey(box, key, n - 1);
      assert ExpandKey(box, key, n)[..m] == ExpandKey(box, key, n - 1)[..m];
    }
  }

  /** The words of the full schedule: the first four are the key bytes four at a
      time, and every later word follows from the ones before it. */
  lemma KeyWords(box: seq<bv8>, key: seq<bv8>)
    requires |box| == 256 && |key| == 16
    ensures forall i :: 0 <= i < 4 ==> ExpandKey(box, key, 44)[i] == key[4 * i..4 * i + 4]
    ensures forall i :: 4 <= i < 44 ==> ExpandKey(box, key, 44)[i] == NextWord(box, ExpandKey(box, key, 44)[..i])
  {
    var w := ExpandKey(box, key, 44);
    forall i | 0 <= i < 4 ensures w[i] == key[4 * i..4 * i + 4] {
      ExpandKeyPrefix(box, key, 4, 44);
      assert w[i] == w[..4][i];
    }
    forall i | 4 <= i < 44 ensures w[i] == NextWord(box, w[..i]) {
      ExpandKeyPrefix(box, key, i + 1, 44);
      ExpandKeyPrefix(box, key, i, 44);
      assert w[i] == w[..i + 1][i];
    }
  }

  /** Round key r: its column c is word 4r + c. */
  function RoundKey(w: seq<seq<bv8>>, r: int): (k: Grid)
    requires |w| == 44 && IsWords(w) && 0 <= r < 11
    ensures IsGrid(k)
    ensures forall row, c :: 0 <= row < 4 && 0 <= c < 4 ==> k[row][c] == w[4 * r + c][row]
  {
    Tabulate((row, c) => if 0 <= row < 4 && 0 <= c < 4 then w[4 * r + c][row] else 0)
  }

  /** The eleven round keys of a 16-byte key. */
  function RoundKeys(box: seq<bv8>, key: seq<bv8>): (keys: seq<Grid>)
    requires |box| == 256 && |key| == 16
    ensures IsSchedule(keys)
  {
    var w := ExpandKey(box, key, 44);
    seq(11, r requires 0 <= r < 11 => RoundKey(w, r))
  }

  /** The first round key is the key itself, laid out like a block. */
  lemma FirstRoundKeyIsKey(box: seq<bv8>, key: seq<bv8>)
    requires |box| == 256 && |key| == 16
    ensures RoundKeys(box, key)[0] == Load(key)
  {
    KeyWords(box, key);
    var w := ExpandKey(box, key, 44);
    forall row, c | 0 <= row < 4 && 0 <= c < 4 ensures RoundKeys(box, key)[0][row][c] == Load(key)[row][c] {
      assert w[c] == key[4 * c..4 * c + 4];
      assert w[c][row] == key[row + 4 * c];
    }
    GridExt(RoundKeys(box, key)[0], Load(key));
  }
}
