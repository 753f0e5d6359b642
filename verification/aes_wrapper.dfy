/** The byte-level framing around the engine: the key brought to 16 bytes,
    the PKCS#7 padding of section 6.3 of RFC 5652 with its lax removal, and
    the block-by-block (ECB) encryption and decryption of a byte string, with
    and without padding. */
module AesWrapper {
  import opened Wrappers
  import opened Tables
  import AesSpec
  import AesEngine

  /** _normalize_key on the key's bytes: at most 16 bytes are kept, and a
      shorter key is filled up with zero bytes. */
  function NormalizeKey(k: seq<bv8>): (r: seq<bv8>)
    ensures |r| == 16
    ensures |k| >= 16 ==> r == k[..16]
    ensures |k| < 16 ==> r[..|k|] == k && forall i :: |k| <= i < 16 ==> r[i] == 0
  {
    if |k| > 16 then k[..16] else k + seq(16 - |k|, _ => 0)
  }

  /** A key that already has 16 bytes is used as it is, so normalizing twice
      changes nothing. */
  lemma NormalizeKeyIdempotent(k: seq<bv8>)
    ensures |k| == 16 ==> NormalizeKey(k) == k
    ensures NormalizeKey(NormalizeKey(k)) == NormalizeKey(k)
  {
    assert NormalizeKey(k)[..16] == NormalizeKey(k);
  }

  /** The number of padding bytes pad appends: 1 to 16, so that the total is
      a multiple of 16. */
  function PadLength(n: nat): (p: int)
    ensures 1 <= p <= 16 && (n + p) % 16 == 0
  {
    16 - n % 16
  }

  /** pad: the data followed by p copies of the byte p, p = PadLength. */
  function Pad(d: seq<bv8>): (r: seq<bv8>)
    ensures |r| % 16 == 0 && |d| < |r| <= |d| + 16
    ensures r[..|d|] == d
    ensures forall i :: |d| <= i < |r| ==> r[i] as int == |r| - |d|
  {
    var p := PadLength(|d|);
    ByteCast(p);
    d + seq(p, _ => p as bv8)
  }

  /** unpad: the last byte n says how many bytes to drop. A value above 16 is
      not padding and the data comes back unchanged; otherwise the last n
      bytes are dropped, which leaves nothing when n is 0 (the slice
      data[:-0] is empty) or when n is at least the length. Empty data has
      no last byte: unpad fails there with an IndexError, None here. */
  function Unpad(d: seq<bv8>): (r: Option<seq<bv8>>)
    ensures r.None? <==> |d| == 0
    ensures r.Some? && d[|d| - 1] as int > 16 ==> r.value == d
    ensures r.Some? && d[|d| - 1] as int <= 16 ==> r.value <= d
    ensures r.Some? && d[|d| - 1] == 0 ==> r.value == []
    ensures r.Some? && 0 < d[|d| - 1] as int <= 16 ==>
              |r.value| == if d[|d| - 1] as int >= |d| then 0 else |d| - d[|d| - 1] as int
  {
    if |d| == 0 then None
    else
      var n := d[|d| - 1] as int;
      if n > 16 then Some(d)
      else if n == 0 || n >= |d| then Some([])
      else Some(d[..|d| - n])
  }

  /** unpad undoes pad on every byte string. */
  lemma UnpadPad(d: seq<bv8>)
    ensures Unpad(Pad(d)) == Some(d)
  {
    var r := Pad(d);
    assert r[|r| - 1] as int == |r| - |d|;
    assert r[..|d|] == d;
  }

  /** A block map that keeps the length of a 16-byte block. */
  ghost predicate KeepsBlocks(f: seq<bv8> -> seq<bv8>) {
    forall b :: |b| == 16 ==> |f(b)| == 16
  }

  /** The first n 16-byte blocks of data, each through f, joined in order. */
  function EcbBlocks(f: seq<bv8> -> seq<bv8>, data: seq<bv8>, n: nat): (r: seq<bv8>)
    requires KeepsBlocks(f) && 16 * n <= |data|
    ensures |r| == 16 * n
  {
    if n == 0 then [] else EcbBlocks(f, data, n - 1) + f(data[16 * (n - 1)..16 * n])
  }

  /** Electronic codebook mode: all the 16-byte blocks of data, each through
      f, joined in order. */
  function Ecb(f: seq<bv8> -> seq<bv8>, data: seq<bv8>): (r: seq<bv8>)
    requires KeepsBlocks(f) && |data| % 16 == 0
    ensures |r| == |data|
  {
    EcbBlocks(f, data, |data| / 16)
  }

  /** One more block: the next block through f, appended. */
  lemma EcbBlocksNext(f: seq<bv8> -> seq<bv8>, data: seq<bv8>, k: nat)
    requires KeepsBlocks(f) && 16 * k + 16 <= |data|
    ensures EcbBlocks(f, data, k + 1) == EcbBlocks(f, data, k) + f(data[16 * k..16 * k + 16])
  {
  }

  /** A slice within the front of a concatenation is a slice of the front. */
  lemma SliceOfFront(a: seq<bv8>, b: seq<bv8>, i: int, j: int)
    requires 0 <= i <= j <= |a|
    ensures (a + b)[i..j] == a[i..j]
  {
  }

  /** Blocks are independent: output block k is f of input block k alone. */
  lemma {:induction false} EcbBlock(f: seq<bv8> -> seq<bv8>, data: seq<bv8>, n: nat, k: int)
    requires KeepsBlocks(f) && 16 * n <= |data| && 0 <= k < n
    ensures EcbBlocks(f, data, n)[16 * k..16 * k + 16] == f(data[16 * k..16 * k + 16])
  {
    var front := EcbBlocks(f, data, n - 1);
    if k < n - 1 {
      EcbBlock(f, data, n - 1, k);
      SliceOfFront(front, f(data[16 * (n - 1)..16 * n]), 16 * k, 16 * k + 16);
    }
  }

  /** When g undoes f on every block, the first m blocks through g of the
      blocks through f are the first m blocks of the data. */
  lemma {:induction false} EcbBlocksInverse(f: seq<bv8> -> seq<bv8>, g: seq<bv8> -> seq<bv8>, data: seq<bv8>, n: nat, m: nat)
    requires KeepsBlocks(f) && KeepsBlocks(g) && 16 * n <= |data| && m <= n
    requires forall b {:trigger g(f(b))} :: |b| == 16 ==> g(f(b)) == b
    ensures EcbBlocks(g, EcbBlocks(f, data, n), m) == data[..16 * m]
  {
    if m > 0 {
      var e := EcbBlocks(f, data, n);
      EcbBlocksInverse(f, g, data, n, m - 1);
      EcbBlock(f, data, n, m - 1);
      var block := data[16 * (m - 1)..16 * m];
      assert e[16 * (m - 1)..16 * m] == f(block);
      assert g(f(block)) == block;
      assert data[..16 * m] == data[..16 * (m - 1)] + block;
    }
  }

  /** When g undoes f on every block, ECB with g undoes ECB with f. */
  lemma EcbInverse(f: seq<bv8> -> seq<bv8>, g: seq<bv8> -> seq<bv8>, data: seq<bv8>)
    requires KeepsBlocks(f) && KeepsBlocks(g) && |data| % 16 == 0
    requires forall b {:trigger g(f(b))} :: |b| == 16 ==> g(f(b)) == b
    ensures Ecb(g, Ecb(f, data)) == data
  {
    var n := |data| / 16;
    EcbBlocksInverse(f, g, data, n, n);
    assert data[..16 * n] == data;
  }

  /** encrypt_block of an engine with S-box box and round keys keys, as a block map. */
  function CipherOf(box: seq<bv8>, keys: seq<AesSpec.Grid>): (f: seq<bv8> -> seq<bv8>)
    requires |box| == 256 && AesSpec.IsSchedule(keys)
    ensures KeepsBlocks(f)
  {
    b => if |b| >= 16 then AesSpec.Cipher(box, keys, b) else b
  }

  /** decrypt_block of an engine with inverse table inv and round keys keys, as a block map. */
  function InvCipherOf(inv: seq<bv8>, keys: seq<AesSpec.Grid>): (f: seq<bv8> -> seq<bv8>)
    requires |inv| == 256 && AesSpec.IsSchedule(keys)
    ensures KeepsBlocks(f)
  {
    b => if |b| >= 16 then AesSpec.InvCipher(inv, keys, b) else b
  }

  /** When inv inverts box, the inverse cipher undoes the cipher on every block. */
  lemma {:induction false} InvCipherOfUndoesCipherOf(box: seq<bv8>, inv: seq<bv8>, keys: seq<AesSpec.Grid>)
    requires AesSpec.Inverts(inv, box) && AesSpec.IsSchedule(keys)
    ensures forall b {:trigger InvCipherOf(inv, keys)(CipherOf(box, keys)(b))} :: |b| == 16 ==> InvCipherOf(inv, keys)(CipherOf(box, keys)(b)) == b
  {
    forall b | |b| == 16 {
      BlockRoundTrip(box, inv, keys, b);
    }
  }

  /** The same for one block. */
  lemma BlockRoundTrip(box: seq<bv8>, inv: seq<bv8>, keys: seq<AesSpec.Grid>, b: seq<bv8>)
    requires AesSpec.Inverts(inv, box) && AesSpec.IsSchedule(keys) && |b| == 16
    ensures InvCipherOf(inv, keys)(CipherOf(box, keys)(b)) == b
  {
    var c := CipherOf(box, keys)(b);
    assert c == AesSpec.Cipher(box, keys, b);
    assert InvCipherOf(inv, keys)(c) == AesSpec.InvCipher(inv, keys, c);
    AesSpec.InvCipherUndoesCipher(box, inv, keys, b);
  }

  /** The round keys of the engine for a key string's bytes. */
  function KeysFor(sbox: seq<bv8>, key: seq<bv8>): (keys: seq<AesSpec.Grid>)
    requires |sbox| == 256
    ensures AesSpec.IsSchedule(keys)
  {
    AesSpec.RoundKeys(sbox, NormalizeKey(key))
  }

  /** A 16-byte block, the input of encrypt_block and decrypt_block in the
      loops below. */
  ghost predicate IsBlock(b: seq<bv8>) {
    |b| == 16
  }

  /** f agrees with the cipher on every 16-byte block. Spelled out only for
      the blocks a proof names as IsBlock, so that a proof about the loop
      itself does not unfold the cipher. */
  ghost predicate Enciphers(f: seq<bv8> -> seq<bv8>, box: seq<bv8>, keys: seq<AesSpec.Grid>)
    requires |box| == 256 && AesSpec.IsSchedule(keys)
  {
    forall b {:trigger IsBlock(b)} :: IsBlock(b) ==> f(b) == AesSpec.Cipher(box, keys, b)
  }

  /** f agrees with the inverse cipher on every 16-byte block. */
  ghost predicate Deciphers(f: seq<bv8> -> seq<bv8>, inv: seq<bv8>, keys: seq<AesSpec.Grid>)
    requires |inv| == 256 && AesSpec.IsSchedule(keys)
  {
    forall b {:trigger IsBlock(b)} :: IsBlock(b) ==> f(b) == AesSpec.InvCipher(inv, keys, b)
  }

  /** CipherOf is the block map of the cipher. */
  lemma CipherOfEnciphers(box: seq<bv8>, keys: seq<AesSpec.Grid>)
    requires |box| == 256 && AesSpec.IsSchedule(keys)
    ensures Enciphers(CipherOf(box, keys), box, keys)
  {
  }

  /** InvCipherOf is the block map of the inverse cipher. */
  lemma InvCipherOfDeciphers(inv: seq<bv8>, keys: seq<AesSpec.Grid>)
    requires |inv| == 256 && AesSpec.IsSchedule(keys)
    ensures Deciphers(InvCipherOf(inv, keys), inv, keys)
  {
  }

  /** encrypt_block on one 16-byte block, seen through a block map that
      agrees with the engine's cipher. */
  method EncryptBlockBy(engine: AesEngine.AESEngine, block: seq<bv8>, ghost f: seq<bv8> -> seq<bv8>)
    returns (encrypted: seq<bv8>)
    requires engine.Ready() && IsBlock(block) && Enciphers(f, engine.sbox, engine.roundKeys)
    ensures encrypted == f(block)
  {
    encrypted := engine.EncryptBlock(block);
  }

  /** decrypt_block on one 16-byte block, seen through a block map that
      agrees with the engine's inverse cipher. */
  method DecryptBlockBy(engine: AesEngine.AESEngine, block: seq<bv8>, ghost f: seq<bv8> -> seq<bv8>)
    returns (decrypted: seq<bv8>)
    requires engine.Ready() && IsBlock(block) && Deciphers(f, engine.invSbox, engine.roundKeys)
    ensures decrypted == f(block)
  {
    decrypted := engine.DecryptBlock(block);
  }

  /** One turn of the loop of aes_encrypt_bytes: the block at offset 16 k
      through encrypt_block, appended to the blocks before it. */
  method EncryptAt(engine: AesEngine.AESEngine, data: seq<bv8>, k: nat, before: seq<bv8>, ghost f: seq<bv8> -> seq<bv8>)
    returns (after: seq<bv8>)
    requires engine.Ready() && 16 * k + 16 <= |data|
    requires KeepsBlocks(f) && Enciphers(f, engine.sbox, engine.roundKeys)
    requires before == EcbBlocks(f, data, k)
    ensures after == EcbBlocks(f, data, k + 1)
  {
    var block := data[16 * k..16 * k + 16];
    var encrypted := EncryptBlockBy(engine, block, f);
    EcbBlocksNext(f, data, k);
    after := before + encrypted;
  }

  /** The loop of aes_encrypt_bytes over data of whole blocks: block k starts
      at offset 16 k, and the blocks through encrypt_block are joined in
      order. f is the cipher as a block map. */
  method EncryptBlocks(engine: AesEngine.AESEngine, data: seq<bv8>, ghost f: seq<bv8> -> seq<bv8>) returns (out: seq<bv8>)
    requires engine.Ready() && |data| % 16 == 0
    requires KeepsBlocks(f) && Enciphers(f, engine.sbox, engine.roundKeys)
    ensures out == Ecb(f, data)
  {
    out := [];
    for k := 0 to |data| / 16
      invariant out == EcbBlocks(f, data, k)
    {
      out := EncryptAt(engine, data, k, out, f);
    }
  }

  /** One turn of the loop of aes_decrypt_bytes: the block at offset 16 k
      through decrypt_block, appended to the blocks before it. */
  method DecryptAt(engine: AesEngine.AESEngine, data: seq<bv8>, k: nat, before: seq<bv8>, ghost f: seq<bv8> -> seq<bv8>)
    returns (after: seq<bv8>)
    requires engine.Ready() && 16 * k + 16 <= |data|
    requires KeepsBlocks(f) && Deciphers(f, engine.invSbox, engine.roundKeys)
    requires before == EcbBlocks(f, data, k)
    ensures after == EcbBlocks(f, data, k + 1)
  {
    var block := data[16 * k..16 * k + 16];
    var decrypted := DecryptBlockBy(engine, block, f);
    EcbBlocksNext(f, data, k);
    after := before + decrypted;
  }

  /** The loop of aes_decrypt_bytes over data of whole blocks, with f the
      inverse cipher as a block map. */
  method DecryptBlocks(engine: AesEngine.AESEngine, data: seq<bv8>, ghost f: seq<bv8> -> seq<bv8>) returns (out: seq<bv8>)
    requires engine.Ready() && |data| % 16 == 0
    requires KeepsBlocks(f) && Deciphers(f, engine.invSbox, engine.roundKeys)
    ensures out == Ecb(f, data)
  {
    out := [];
    for k := 0 to |data| / 16
      invariant out == EcbBlocks(f, data, k)
    {
      out := DecryptAt(engine, data, k, out, f);
    }
  }

  /** aes_encrypt_bytes: the padded data, block by block through the cipher
      of an engine built from the normalized key. */
  method EncryptBytes(data: seq<bv8>, key: seq<bv8>, sbox: seq<bv8>) returns (out: seq<bv8>)
    requires |sbox| == 256
    ensures out == Ecb(CipherOf(sbox, KeysFor(sbox, key)), Pad(data))
  {
    var engine := new AesEngine.AESEngine(NormalizeKey(key), sbox);
    var padded := Pad(data);
    CipherOfEnciphers(sbox, engine.roundKeys);
    out := EncryptBlocks(engine, padded, CipherOf(sbox, engine.roundKeys));
  }

  /** aes_decrypt_bytes: the data block by block through the inverse cipher
      of an engine built from the normalized key, then unpadded. A last block
      shorter than 16 bytes fails on indexing in decrypt_block, and empty
      data fails in unpad: both are None. */
  method DecryptBytes(data: seq<bv8>, key: seq<bv8>, sbox: seq<bv8>) returns (out: Option<seq<bv8>>)
    requires |sbox| == 256
    ensures out.None? <==> |data| == 0 || |data| % 16 != 0
    ensures |data| % 16 == 0 ==>
              out == Unpad(Ecb(InvCipherOf(AesEngine.InverseTable(sbox), KeysFor(sbox, key)), data))
  {
    var engine := new AesEngine.AESEngine(NormalizeKey(key), sbox);
    AesEngine.InverseTableUnique(sbox, engine.invSbox);
    if |data| % 16 != 0 {
      return None;
    }
    InvCipherOfDeciphers(engine.invSbox, engine.roundKeys);
    var decrypted := DecryptBlocks(engine, data, InvCipherOf(engine.invSbox, engine.roundKeys));
    out := Unpad(decrypted);
  }

  /** The length of the whole blocks of a byte string. */
  function WholeBlocks(n: nat): (m: nat)
    ensures m <= n && m % 16 == 0 && n - m < 16
  {
    n - n % 16
  }

  /** aes_encrypt_bytes_no_pad: the whole blocks through the cipher, the tail
      of fewer than 16 bytes passed through unchanged. */
  method EncryptBytesNoPad(data: seq<bv8>, key: seq<bv8>, sbox: seq<bv8>) returns (out: seq<bv8>)
    requires |sbox| == 256
    ensures var m := WholeBlocks(|data|);
            out == Ecb(CipherOf(sbox, KeysFor(sbox, key)), data[..m]) + data[m..]
  {
    var engine := new AesEngine.AESEngine(NormalizeKey(key), sbox);
    var fullLen := WholeBlocks(|data|);
    CipherOfEnciphers(sbox, engine.roundKeys);
    var encrypted := EncryptBlocks(engine, data[..fullLen], CipherOf(sbox, engine.roundKeys));
    out := encrypted + data[fullLen..];
  }

  /** aes_decrypt_bytes_no_pad: the whole blocks through the inverse cipher,
      the tail passed through unchanged. */
  method DecryptBytesNoPad(data: seq<bv8>, key: seq<bv8>, sbox: seq<bv8>) returns (out: seq<bv8>)
    requires |sbox| == 256
    ensures var m := WholeBlocks(|data|);
            out == Ecb(InvCipherOf(AesEngine.InverseTable(sbox), KeysFor(sbox, key)), data[..m]) + data[m..]
  {
    var engine := new AesEngine.AESEngine(NormalizeKey(key), sbox);
    AesEngine.InverseTableUnique(sbox, engine.invSbox);
    var fullLen := WholeBlocks(|data|);
    InvCipherOfDeciphers(engine.invSbox, engine.roundKeys);
    var decrypted := DecryptBlocks(engine, data[..fullLen], InvCipherOf(engine.invSbox, engine.roundKeys));
    out := decrypted + data[fullLen..];
  }

  /** The value aes_encrypt_bytes returns. */
  function EncryptBytesValue(data: seq<bv8>, key: seq<bv8>, sbox: seq<bv8>): (r: seq<bv8>)
    requires |sbox| == 256
    ensures |r| == |Pad(data)| && |r| % 16 == 0 && |data| < |r| <= |data| + 16
  {
    Ecb(CipherOf(sbox, KeysFor(sbox, key)), Pad(data))
  }

  /** aes_decrypt_bytes undoes aes_encrypt_bytes with the same key and a
      permutation S-box. */
  lemma DecryptBytesUndoesEncryptBytes(data: seq<bv8>, key: seq<bv8>, sbox: seq<bv8>)
    requires IsPermutation(sbox)
    ensures var c := EncryptBytesValue(data, key, sbox);
            |c| > 0 && |c| % 16 == 0 &&
            Unpad(Ecb(InvCipherOf(AesEngine.InverseTable(sbox), KeysFor(sbox, key)), c)) == Some(data)
  {
    var inv := AesEngine.InverseTable(sbox);
    AesEngine.InverseTableInverts(sbox, inv);
    InvCipherOfUndoesCipherOf(sbox, inv, KeysFor(sbox, key));
    EcbInverse(CipherOf(sbox, KeysFor(sbox, key)), InvCipherOf(inv, KeysFor(sbox, key)), Pad(data));
    UnpadPad(data);
  }

  /** The value aes_encrypt_bytes_no_pad returns. */
  function EncryptBytesNoPadValue(data: seq<bv8>, key: seq<bv8>, sbox: seq<bv8>): (r: seq<bv8>)
    requires |sbox| == 256
    ensures |r| == |data|
    ensures r[WholeBlocks(|data|)..] == data[WholeBlocks(|data|)..]
  {
    var m := WholeBlocks(|data|);
    var r := Ecb(CipherOf(sbox, KeysFor(sbox, key)), data[..m]) + data[m..];
    assert r[m..] == data[m..];
    r
  }

  /** aes_decrypt_bytes_no_pad undoes aes_encrypt_bytes_no_pad with the same
      key and a permutation S-box, whatever the length. */
  lemma DecryptNoPadUndoesEncryptNoPad(data: seq<bv8>, key: seq<bv8>, sbox: seq<bv8>)
    requires IsPermutation(sbox)
    ensures var c := EncryptBytesNoPadValue(data, key, sbox);
            var m := WholeBlocks(|c|);
            Ecb(InvCipherOf(AesEngine.InverseTable(sbox), KeysFor(sbox, key)), c[..m]) + c[m..] == data
  {
    var inv := AesEngine.InverseTable(sbox);
    var keys := KeysFor(sbox, key);
    var m := WholeBlocks(|data|);
    var c := EncryptBytesNoPadValue(data, key, sbox);
    assert c[..m] == Ecb(CipherOf(sbox, keys), data[..m]);
    AesEngine.InverseTableInverts(sbox, inv);
    InvCipherOfUndoesCipherOf(sbox, inv, keys);
    EcbInverse(CipherOf(sbox, keys), InvCipherOf(inv, keys), data[..m]);
    assert data == data[..m] + data[m..];
  }
}
