# AES S-box affine-matrix exploration, modelled in Dafny

AESSbox-AffineMatrixExploration is a small Python service. It generates AES
S-boxes as S(x) = A · x⁻¹ ⊕ 0x63. Here x⁻¹ is the inverse in GF(2⁸) modulo
the AES polynomial 0x11B, and A is an 8×8 matrix over GF(2). The service
keeps A only when it is invertible. It checks the table for bijectivity and
balance, and encrypts and decrypts with AES-128 using the generated S-box
in place of the standard one. It also scores the table with the usual
S-box metrics:

- nonlinearity (NL);
- strict avalanche (SAC);
- bit independence (BIC);
- the linear and differential approximation probabilities (LAP, DAP);
- differential uniformity (DU);
- algebraic degree (AD);
- correlation immunity (CI);
- transparency order (TO).

This project models that core in Dafny and proves what each operation
computes. The modules follow the Python files:

| Python file | Dafny modules |
|---|---|
| app/utils/math_gf2.py | `MathGF2`, backed by `GF256`, `GF256Inverse`, `GF2Matrix`, `ByteBits` |
| app/services/sbox_generator.py | `SboxGenerator` |
| app/services/validation.py | `Validation`, backed by `Tables` |
| app/utils/aes_engine.py | `AesEngine` (the `AESEngine` class, over `array2` state) |
| app/services/aes_wrapper.py | `AesWrapper` |
| app/utils/crypto_metrics.py | `WalshTransform`, `Mobius`, `Butterfly`, `Bits`, `MetricTables`, `Spectral`, `WalshCorrelation`, `AutocorrelationTable`, `Avalanche`, `Differential`, `Degree` |

Some modules are specifications rather than code:

- `AesSpec` is a value-level AES-128 (FIPS 197). The engine's methods are
  proved against it.
- `Char2` holds the ring identities that make InvMixColumns undo
  MixColumns.
- `Wrappers` holds Option/Result.

The proved properties include:

- The two multiplicative-inverse tables invert every nonzero byte. Their
  functions are involutions.
- The Gaussian elimination answers "invertible" exactly when the matrix has
  a trivial kernel.
- Every invertible candidate matrix gives a permutation S-box, so the
  generator's `is_bijective`/`is_balanced` flags are true.
- `check_sbox` reports bijective exactly when the table covers 0..255.
  Every permutation passes it.
- Decrypting undoes encrypting, for every permutation S-box and every key:
  - block by block;
  - through the padded wrapper;
  - through the unpadded wrapper.
- PKCS#7-style padding round-trips.
- The fast Walsh–Hadamard and Möbius transforms compute their textbook
  definitions. Applying either twice gives back the input (scaled by the
  length, for Walsh).
- The autocorrelation that calculate_to reads off the power spectrum is
  exactly the sum over x of f(x)·f(x XOR a), the Wiener–Khinchin relation.
  The division by 256 is therefore exact, and each transparency term lies
  within 1 below \|8 - 2 wt(beta)\|.
- Each metric is the extremum it is meant to be. It is attained, and it
  lies in its range.

## Model

| member | source | states |
|---|---|---|
| GF256Inverse.Inverse | app/utils/math_gf2.py:6-18 | 0 maps to 0; every other byte maps to its unique multiplicative inverse modulo 0x11B |
| GF256Inverse.HasUniqueInverse | app/utils/math_gf2.py:6-18 | every nonzero byte has exactly one inverse, so the search loop of gmul_inverse always succeeds |
| GF256Inverse.InverseIsInvolution | app/utils/math_gf2.py:21 | the inverse of the inverse is the byte itself |
| MathGF2.ShiftAndReduce | app/utils/math_gf2.py:10-16 | the shift-and-reduce loop of gmul_inverse computes the GF(2⁸) product of val and i |
| MathGF2.TryCandidate | app/utils/math_gf2.py:10-16 | the product of v and candidate i is 1 exactly when i is the inverse of v |
| MathGF2.GmulInverse | app/utils/math_gf2.py:6-18 | returns 0 for 0 and the multiplicative inverse otherwise |
| MathGF2.InverseTable | app/utils/math_gf2.py:21 | INVERSE_TABLE has 256 entries; entry x is the inverse of x |
| MathGF2.InverseTableIsInvolution | app/utils/math_gf2.py:21 | INVERSE_TABLE maps 0 to 0, is its own inverse, and is a permutation of the bytes |
| MathGF2.FindPivot | app/utils/math_gf2.py:32-37 | returns the first row at or below col with a 1 in column col, or -1 when there is none |
| MathGF2.AddRow | app/utils/math_gf2.py:39-42 | XORs row col into row `row` and leaves the other rows unchanged |
| MathGF2.IsInvertibleGf2 | app/utils/math_gf2.py:27-43 | returns True exactly when the matrix's only kernel vector is zero, i.e. when it is invertible over GF(2) |
| GF2Matrix.NoPivotMeansSingular | app/utils/math_gf2.py:36-37 | a column with no pivot yields a nonzero kernel vector, so the early `return False` is correct |
| GF2Matrix.ReducedIsInvertible | app/utils/math_gf2.py:43 | a matrix reduced to the identity has a trivial kernel, so the final `return True` is correct |
| GF2Matrix.SwapKeepsKernel | app/utils/math_gf2.py:38 | swapping in the pivot row keeps the kernel and the columns already reduced |
| GF2Matrix.AddRowKeepsKernel | app/utils/math_gf2.py:39-42 | eliminating with the pivot row keeps the kernel and clears the entry |
| GF2Matrix.MulVecIsLinear | app/utils/math_gf2.py:45-55 | the matrix-vector product over GF(2) distributes over XOR and maps 0 to 0 |
| MathGF2.Affine | app/utils/math_gf2.py:45-55 | output bit row is the GF(2) dot product of matrix row `row` with the input bits, XOR bit `row` of 0x63 |
| MathGF2.ApplyAffineTransform | app/utils/math_gf2.py:45-55 | the bit loop computes the affine map A·x ⊕ 0x63, least-significant bit first |
| MathGF2.AffineOfZero | app/utils/math_gf2.py:45-55 | the affine map sends 0 to the constant 0x63 |
| MathGF2.AffineIsAffine | app/utils/math_gf2.py:45-55 | f(x ⊕ y) = f(x) ⊕ f(y) ⊕ 0x63 for all bytes x and y |
| MathGF2.AffineInjective | app/utils/math_gf2.py:45-55 | for an invertible matrix, two bytes have the same image exactly when they are equal |
| MathGF2.AffineBijective | app/utils/math_gf2.py:45-55 | for an invertible matrix, the affine map permutes the 256 bytes |
| SboxGenerator.SboxTable | app/services/sbox_generator.py:24-28 | entry x of the generated S-box is Affine(INVERSE_TABLE[x]) |
| SboxGenerator.BuildSbox | app/services/sbox_generator.py:24-28 | the construction loop yields exactly SboxTable(matrix) |
| SboxGenerator.FirstInvertible | app/services/sbox_generator.py:16-21 | finds the first invertible candidate (all before it are singular), or reports that none is invertible |
| SboxGenerator.SboxInfoFor | app/services/sbox_generator.py:31-37 | the result holds the matrix, its S-box, the vector [1,1,0,0,0,1,1,0] (0x63, LSB first) and both flags set |
| SboxGenerator.FindValidSbox | app/services/sbox_generator.py:10-37 | returns None exactly when no candidate is invertible; otherwise it returns a candidate's matrix with its S-box, vector and flags |
| SboxGenerator.AffineVectorBits | app/services/sbox_generator.py:33 | the bits of AES_CONSTANT, least-significant first, are [1,1,0,0,0,1,1,0] |
| SboxGenerator.SboxIsPermutation | app/services/sbox_generator.py:20-28 | an invertible matrix gives an S-box that is a permutation of the bytes |
| SboxGenerator.FlagsAreTruthful | app/services/sbox_generator.py:35-36 | for an invertible matrix the S-box really is bijective and balanced (every output bit set 128 times), as the hard-coded flags claim |
| SboxGenerator.AesMatrixExample | app/services/sbox_generator.py:24-28 | with the AES matrix, entry 0x53 is 0xED (the FIPS 197 worked example) |
| SboxGenerator.AesSboxOfZero | app/services/sbox_generator.py:24-28 | with the AES matrix, entry 0 is 0x63 |
| Validation.BitOfByte | app/services/validation.py:17 | shifting a byte right by i and masking with 1 gives bit i of that byte |
| Validation.BitCounts | app/services/validation.py:14-18 | bit_counts[i] is the number of entries whose bit i is 1 |
| Validation.CheckSbox | app/services/validation.py:4-27 | is_bijective iff the entries cover 0..255; bit_counts as above; is_balanced iff every count is 128 (an empty list is not bijective) |
| Validation.BijectiveTest | app/services/validation.py:8-11 | 256 distinct values with minimum 0 and maximum 255 holds iff the list covers 0..255 |
| Validation.CoversIffPermutes | app/services/validation.py:8-11 | for 256 entries, covering 0..255 is the same as being a permutation of 0..255 |
| Validation.DuplicateIsNotBijective | app/services/validation.py:8-11 | a 256-entry list with a repeated value is not bijective |
| Validation.CountBitMultiset | app/services/validation.py:14-18 | the bit counts depend only on the multiset of entries |
| Validation.PermutationIsBalanced | app/services/validation.py:21 | every permutation of 0..255 has each bit set in exactly 128 entries |
| Validation.PermutationPassesCheck | app/services/validation.py:4-27 | every permutation of 0..255 is reported bijective and balanced |
| AesEngine.AESEngine.constructor | app/utils/aes_engine.py:9-19 | stores key and S-box, builds the inverse S-box and the 11 round keys; the object is ready to encrypt |
| AesEngine.Create | app/utils/aes_engine.py:10-11 | construction fails exactly when the key is not 16 bytes long |
| AesEngine.InverseTable | app/utils/aes_engine.py:21-25 | inv[v] is the last index whose S-box entry is v, and 0 when no entry is v |
| AesEngine.LastIndex | app/utils/aes_engine.py:23-24 | a later assignment overwrites an earlier one: the last matching index wins |
| AesEngine.InverseTableInverts | app/utils/aes_engine.py:21-25 | for a permutation S-box, the inverse table is its two-sided inverse |
| AesEngine.AESEngine.GenerateInvSbox | app/utils/aes_engine.py:21-25 | the loop builds the inverse table as specified |
| AesEngine.AESEngine.SubBytes | app/utils/aes_engine.py:28-31 | every state byte is replaced by its S-box entry |
| AesEngine.AESEngine.InvSubBytes | app/utils/aes_engine.py:33-36 | every state byte is replaced by its inverse-S-box entry |
| AesEngine.AESEngine.ShiftRows | app/utils/aes_engine.py:38-41 | row r is rotated left by r |
| AesEngine.AESEngine.InvShiftRows | app/utils/aes_engine.py:43-46 | row r is rotated right by r |
| AesEngine.GmulRounds | app/utils/aes_engine.py:48-57 | eight shift-and-add rounds on 16-bit locals give the GF(2⁸) product |
| AesEngine.AESEngine.Gmul | app/utils/aes_engine.py:48-57 | returns the product of a and b modulo 0x11B |
| AesEngine.AESEngine.MixOneColumn | app/utils/aes_engine.py:60-68 | column i becomes MixColumn of its old value; the other columns are unchanged |
| AesEngine.AESEngine.MixColumns | app/utils/aes_engine.py:59-68 | the state becomes FIPS 197 MixColumns of the old state |
| AesEngine.AESEngine.MixColumnsTo | app/utils/aes_engine.py:60-68 | the loop over the four columns reaches the column-wise target |
| AesEngine.AESEngine.InvMixOneColumn | app/utils/aes_engine.py:71-79 | column i becomes InvMixColumn of its old value; the other columns are unchanged |
| AesEngine.AESEngine.InvMixColumns | app/utils/aes_engine.py:70-79 | the state becomes InvMixColumns of the old state |
| AesEngine.AESEngine.InvMixColumnsTo | app/utils/aes_engine.py:71-79 | the loop over the four columns reaches the column-wise target |
| AesEngine.AESEngine.AddRoundKey | app/utils/aes_engine.py:81-84 | every state byte is XORed with the round key byte at the same position |
| AesEngine.AESEngine.RotSubWord | app/utils/aes_engine.py:97-103 | RotWord, then SubWord, then XOR of Rcon into the first byte |
| AesEngine.AESEngine.NextKeyWord | app/utils/aes_engine.py:96-108 | the next key-schedule word is w[i-4] XOR (the transformed w[i-1] when i is a multiple of 4, else w[i-1]) |
| AesEngine.AESEngine.KeyExpansion | app/utils/aes_engine.py:87-120 | returns the 11 round keys of the FIPS 197 schedule, built with this engine's S-box |
| AesEngine.AESEngine.RoundKeyMatrix | app/utils/aes_engine.py:112-119 | round key r has row `row`, column c equal to byte `row` of word 4r + c |
| AesEngine.AESEngine.LoadState | app/utils/aes_engine.py:124-127 | state[r][c] is block[r + 4c], column-major |
| AesEngine.AESEngine.StoreState | app/utils/aes_engine.py:141-145 | output byte r + 4c is state[r][c] |
| AesEngine.AESEngine.EncryptRound | app/utils/aes_engine.py:132-135 | one middle round: SubBytes, ShiftRows, MixColumns, AddRoundKey |
| AesEngine.AESEngine.EncryptRounds | app/utils/aes_engine.py:131-135 | rounds 1..9 in order |
| AesEngine.AESEngine.EncryptLastRound | app/utils/aes_engine.py:137-139 | the last round without MixColumns, with round key 10 |
| AesEngine.AESEngine.EncryptBlock | app/utils/aes_engine.py:123-145 | the ciphertext is AES-128 Cipher of the first 16 bytes under this engine's S-box and round keys |
| AesEngine.AESEngine.DecryptRound | app/utils/aes_engine.py:156-159 | one middle round: InvShiftRows, InvSubBytes, AddRoundKey, InvMixColumns |
| AesEngine.AESEngine.DecryptRounds | app/utils/aes_engine.py:155-159 | rounds 9 down to 1 in order |
| AesEngine.AESEngine.DecryptLastRound | app/utils/aes_engine.py:161-163 | InvShiftRows, InvSubBytes, then round key 0 |
| AesEngine.AESEngine.DecryptBlock | app/utils/aes_engine.py:147-169 | the plaintext is the inverse cipher of the first 16 bytes under the inverse S-box |
| AesEngine.DecryptUndoesEncrypt | app/utils/aes_engine.py:123-169 | for a permutation S-box and its inverse table, decrypting the encryption of a block gives back the block |
| AesSpec.InvCipherUndoesCipher | app/utils/aes_engine.py:123-169 | the inverse cipher undoes the cipher for any key schedule, when the inverse S-box inverts the S-box |
| AesSpec.ShiftRowsInverse | app/utils/aes_engine.py:38-46 | InvShiftRows and ShiftRows undo each other |
| AesSpec.SubBytesInverse | app/utils/aes_engine.py:28-36 | SubBytes with the inverse table undoes SubBytes |
| AesSpec.MixColumnsInverse | app/utils/aes_engine.py:59-79 | InvMixColumns undoes MixColumns |
| AesSpec.AddRoundKeyTwice | app/utils/aes_engine.py:81-84 | adding the same round key twice is the identity |
| AesSpec.StoreLoad | app/utils/aes_engine.py:124-145 | storing the loaded state of a 16-byte block gives back the block |
| AesSpec.LoadStore | app/utils/aes_engine.py:124-145 | loading a stored state gives back the state |
| AesSpec.KeyWords | app/utils/aes_engine.py:87-108 | the first 4 schedule words are the key; every later word is NextWord of those before it |
| AesSpec.FirstRoundKeyIsKey | app/utils/aes_engine.py:112-119 | round key 0 is the key laid out as a state |
| GF256.InvMixColumnUndoesMixColumn | app/utils/aes_engine.py:59-79 | the coefficients 9, 11, 13, 14 invert the coefficients 2, 3, 1, 1 on every column |
| AesWrapper.NormalizeKey | app/services/aes_wrapper.py:5-9 | the key is 16 bytes: a longer key is truncated; a shorter one is kept and zero-filled |
| AesWrapper.NormalizeKeyIdempotent | app/services/aes_wrapper.py:5-9 | normalising a 16-byte key, or a normalised key, changes nothing |
| AesWrapper.Pad | app/services/aes_wrapper.py:11-14 | appends 1..16 bytes, each equal to the pad length, so that the length is a multiple of 16; the data is a prefix |
| AesWrapper.Unpad | app/services/aes_wrapper.py:16-20 | empty input has no last byte (an error); a last byte above 16 leaves the data unchanged; otherwise that many bytes are dropped (0 or a length at least the data's leaves nothing) |
| AesWrapper.UnpadPad | app/services/aes_wrapper.py:11-20 | unpad(pad(d)) == d for every byte string d |
| AesWrapper.EcbBlock | app/services/aes_wrapper.py:61-64 | block k of the ECB output is the block function applied to block k of the input |
| AesWrapper.EcbInverse | app/services/aes_wrapper.py:58-74 | ECB with g undoes ECB with f whenever g undoes f on every block |
| AesWrapper.InvCipherOfUndoesCipherOf | app/services/aes_wrapper.py:58-74 | the engine's block decryption undoes its block encryption when the inverse table inverts the S-box |
| AesWrapper.CipherOfEnciphers | app/services/aes_wrapper.py:61-64 | the block function used in the ECB specification is the engine's encrypt_block on 16-byte blocks |
| AesWrapper.InvCipherOfDeciphers | app/services/aes_wrapper.py:69-72 | the block function used in the ECB specification is the engine's decrypt_block on 16-byte blocks |
| AesWrapper.EncryptBlockBy | app/services/aes_wrapper.py:63 | one call of encrypt_block on a 16-byte block computes the block function |
| AesWrapper.DecryptBlockBy | app/services/aes_wrapper.py:71 | one call of decrypt_block on a 16-byte block computes the block function |
| AesWrapper.EncryptBlocks | app/services/aes_wrapper.py:61-64 | the block loop produces the ECB encryption of the data |
| AesWrapper.DecryptBlocks | app/services/aes_wrapper.py:69-72 | the block loop produces the ECB decryption of the data |
| AesWrapper.EncryptBytes | app/services/aes_wrapper.py:58-65 | output is ECB AES-128 of pad(data) under the normalised key |
| AesWrapper.DecryptBytes | app/services/aes_wrapper.py:67-74 | fails exactly when the input is empty or not a whole number of blocks; otherwise it returns unpad of the ECB decryption |
| AesWrapper.EncryptBytesNoPad | app/services/aes_wrapper.py:76-84 | the whole blocks are ECB-encrypted; the trailing partial block is copied unchanged |
| AesWrapper.DecryptBytesNoPad | app/services/aes_wrapper.py:86-94 | the whole blocks are ECB-decrypted; the trailing partial block is copied unchanged |
| AesWrapper.EncryptBytesValue | app/services/aes_wrapper.py:58-65 | the ciphertext is 1..16 bytes longer than the data and a multiple of 16 |
| AesWrapper.DecryptBytesUndoesEncryptBytes | app/services/aes_wrapper.py:58-74 | for any permutation S-box, key and data, decrypting the padded encryption gives back the data |
| AesWrapper.EncryptBytesNoPadValue | app/services/aes_wrapper.py:76-84 | the output has the data's length and ends with the data's partial block |
| AesWrapper.DecryptNoPadUndoesEncryptNoPad | app/services/aes_wrapper.py:76-94 | for any permutation S-box, key and data, the unpadded decryption undoes the unpadded encryption |
| Bits.PopcountBound | app/utils/crypto_metrics.py:21-22 | a number below 2^k has at most k ones |
| MetricTables.ByteWeight | app/utils/crypto_metrics.py:21-22 | a byte has Hamming weight at most 8 |
| WalshTransform.WalshPass | app/utils/crypto_metrics.py:11-16 | one pass of butterflies with half-width h computes the specified pass |
| WalshTransform.Fwht | app/utils/crypto_metrics.py:3-18 | the in-place butterfly passes compute the Walsh–Hadamard transform of the input |
| WalshTransform.TransformIsWalsh | app/utils/crypto_metrics.py:3-18 | the butterfly pass sequence equals the recursive Walsh definition |
| WalshTransform.WalshIsSignedSum | app/utils/crypto_metrics.py:3-18 | coefficient u is the sum over x of (-1)^popcount(u AND x) · v[x] |
| WalshTransform.WalshTwice | app/utils/crypto_metrics.py:3-18 | transforming twice multiplies by the length: the transform is its own inverse up to scaling |
| WalshTransform.WalshBound | app/utils/crypto_metrics.py:3-18 | a ±1 table has every coefficient between -length and length |
| MetricTables.BitTable | app/utils/crypto_metrics.py:33-36 | the truth table of output bit `bit` is +1 where the bit is 0 and -1 where it is 1 |
| MetricTables.SignTableNl | app/utils/crypto_metrics.py:39-45 | nl = 128 - max|spectrum| / 2, and lies in 0..128 |
| Spectral.CalculateNl | app/utils/crypto_metrics.py:24-49 | the nonlinearity is no greater than any output bit's, equals one of them, and lies in 0..128 |
| Spectral.MaxBias | app/utils/crypto_metrics.py:126-161 | the largest |Walsh coefficient| over the nonzero masks is bounded and attained, and is at most 256 |
| Spectral.LapRound | app/utils/crypto_metrics.py:136-152 | one component mask raises the running maximum to the peak of its spectrum |
| Spectral.CalculateLap | app/utils/crypto_metrics.py:126-161 | LAP is MaxBias / 256 and lies in [0, 1] |
| Spectral.CheckOrder | app/utils/crypto_metrics.py:272-278 | a weight is immune exactly when every nonzero mask of that Hamming weight has a zero Walsh coefficient |
| Spectral.Immunity | app/utils/crypto_metrics.py:271-283 | the order stops at the first failing weight: all weights below it pass, and it lies in 0..8 |
| Spectral.SpectrumCi | app/utils/crypto_metrics.py:271-283 | the order loop computes Immunity of the spectrum |
| Spectral.BitImmunity | app/utils/crypto_metrics.py:261-283 | the immunity order of one output bit |
| Spectral.CalculateCi | app/utils/crypto_metrics.py:251-288 | CI is no greater than any output bit's order, equals one of them, and lies in 0..8 |
| Spectral.CiZero | app/utils/crypto_metrics.py:274-278 | a nonzero coefficient at a weight-1 mask forces that bit's immunity to 0 |
| Spectral.BetaValue | app/utils/crypto_metrics.py:314-346 | the term for mask beta is BetaTerm: \|8 - 2 wt(beta)\| minus the sum of \|AC(a)\| over a in 1..255, over 65280, with AC the table that AutocorrelationIsCorrelation characterises |
| Spectral.BetaTermBound | app/utils/crypto_metrics.py:314-346 | every term is at most 8 |
| Spectral.MaxTerm | app/utils/crypto_metrics.py:291-351 | the largest term over beta in 1..n-1 is bounded, attained (unless 0), and lies in [0, 8] |
| Spectral.CalculateTo | app/utils/crypto_metrics.py:291-351 | TO is MaxTerm over all nonzero masks and lies in [0, 8] |
| WalshCorrelation.WalshProduct | app/utils/crypto_metrics.py:320-330 | entry u of the transform of Walsh(x)·Walsh(y) is \|x\| times the correlation sum over p of x[p]·y[p XOR u] (the Wiener–Khinchin relation calculate_to relies on) |
| AutocorrelationTable.AutocorrelationIsCorrelation | app/utils/crypto_metrics.py:324-330 | entry a of fwht(power spectrum) is 256 times the sum over x of f(x)·f(x XOR a), so it is a multiple of 256, `// N` is exact, and AC(a) is that sum |
| AutocorrelationTable.AutocorrelationTableIsCorrelation | app/utils/crypto_metrics.py:324-330 | the whole autocorrelation table equals the directly summed correlation table |
| AutocorrelationTable.AutocorrelationAtZero | app/utils/crypto_metrics.py:317-330 | for a ±1 truth table AC(0) is 256 |
| AutocorrelationTable.AutocorrelationBound | app/utils/crypto_metrics.py:317-330 | for a ±1 truth table every \|AC(a)\| is at most 256 |
| AutocorrelationTable.SumAbsBound | app/utils/crypto_metrics.py:333 | a sum of \|s[a]\| over lo..\|s\|-1 with every entry at most a bound is at most the count times the bound |
| AutocorrelationTable.BetaTermOfCorrelation | app/utils/crypto_metrics.py:314-346 | the term of beta equals \|8 - 2 wt(beta)\| minus the sum over a in 1..255 of \|sum over x of f(x)·f(x XOR a)\|, over 65280 |
| AutocorrelationTable.BetaTermRange | app/utils/crypto_metrics.py:333-346 | the subtracted part lies in [0, 1], since 65280 = 255 · 256 bounds the sum: each term lies between \|8 - 2 wt(beta)\| - 1 and \|8 - 2 wt(beta)\| |
| Avalanche.SacCounts | app/utils/crypto_metrics.py:57-71 | the total is the sum of the flipped-output Hamming weights over all i, x; count is 16384 |
| Avalanche.CalculateSac | app/utils/crypto_metrics.py:51-72 | SAC is total / 16384 and lies in [0, 1] |
| Avalanche.SacOfInjective | app/utils/crypto_metrics.py:51-72 | an injective S-box has SAC at least 1/8, since every flip changes at least one output bit |
| Avalanche.PairSac | app/utils/crypto_metrics.py:106-115 | the pair loop counts the input flips that change bit j XOR bit k |
| Avalanche.BicPair | app/utils/crypto_metrics.py:91-115 | the pair's nonlinearity is PairNl, in 0..128, and its SAC count is as specified |
| Avalanche.BicTotals | app/utils/crypto_metrics.py:84-119 | the minimum runs over the 28 pairs j < k, the SAC sum adds each pair's count / 2048, and there are 28 pairs |
| Avalanche.BicMinOfAll | app/utils/crypto_metrics.py:91-102 | the running minimum is at most every pair's nonlinearity, equals one of them, and lies in 0..128 |
| Avalanche.CalculateBic | app/utils/crypto_metrics.py:74-124 | BIC-NL is the smallest pair nonlinearity (attained, in 0..128); BIC-SAC is the mean pair avalanche, in [0, 1] |
| Differential.DiffCounts | app/utils/crypto_metrics.py:199-204 | the histogram of S(x) ⊕ S(x ⊕ dx) is DDT row dx |
| Differential.DdtCountsSum | app/utils/crypto_metrics.py:199-204 | every DDT row adds up to 256 |
| Differential.DdtZeroOfInjective | app/utils/crypto_metrics.py:199-204 | for an injective S-box a nonzero input difference never gives output difference 0 |
| Differential.RowMaxIsMax | app/utils/crypto_metrics.py:206-209 | the row maximum bounds every entry, is attained, and lies in 1..256 |
| Differential.MaxDdtIsMax | app/utils/crypto_metrics.py:190-211 | the running maximum bounds every entry of the rows seen, is attained, and lies in 1..256 |
| Differential.CalculateDu | app/utils/crypto_metrics.py:190-211 | DU is the largest DDT entry over nonzero input differences, attained, in 1..256 |
| Differential.CalculateDap | app/utils/crypto_metrics.py:163-187 | DAP is that largest entry / 256, in [1/256, 1] |
| Mobius.MobiusPass | app/utils/crypto_metrics.py:231-235 | one pass of XOR butterflies computes the specified pass |
| Mobius.MobiusTransform | app/utils/crypto_metrics.py:231-235 | the in-place passes compute the algebraic normal form of the truth table |
| Mobius.AnfIsSubsetParity | app/utils/crypto_metrics.py:231-235 | ANF coefficient u is the parity of the truth-table entries at indices x whose bits lie under u |
| Mobius.AnfInvolution | app/utils/crypto_metrics.py:231-235 | the Möbius transform is its own inverse |
| Degree.AnfDegree | app/utils/crypto_metrics.py:238-243 | the degree loop finds the largest Hamming weight of a monomial with coefficient 1 |
| Degree.DegreeAtMost8 | app/utils/crypto_metrics.py:238-243 | a function of 8 variables has degree at most 8 |
| Degree.BitAnfDegree | app/utils/crypto_metrics.py:227-243 | one output bit: truth table, Möbius transform, degree; the result is in 0..8 |
| Degree.CalculateAd | app/utils/crypto_metrics.py:214-248 | AD is at least every bit's degree, equals one of them, and lies in 0..8 |
| Degree.BalancedBitDegree | app/utils/crypto_metrics.py:214-248 | a balanced output bit has degree at most 7 |

## Left out

- S-box entries are modelled as bytes (`bv8`). A Python list can hold ints
  outside 0..255, and the request schemas in app/schemas/cipher.py check
  only the list length. With such entries, `_generate_inv_sbox` raises
  IndexError for an entry of 256 or more. For a negative entry v it writes
  position 256 + v through Python's negative indexing. Neither behaviour is
  modelled. Validation.CheckSbox is the exception: it takes arbitrary
  integers, as check_sbox does.
- AesWrapper.Unpad and AesWrapper.DecryptBytes return None where the
  Python code raises IndexError. That happens on an empty input to unpad,
  and in decrypt_block on a trailing partial block of the ciphertext.
- The floating-point results of calculate_sac, calculate_bic (its SAC
  part), calculate_lap, calculate_dap and calculate_to are modelled as
  exact `real` values. IEEE-754 rounding is not modelled.
- aes_encrypt_custom and aes_decrypt_custom are not modelled. They wrap
  the byte functions in UTF-8 and hex codecs, and Dafny has no codec
  library.
- The key given to the byte functions is modelled as bytes. The UTF-8
  encoding of the key string in _normalize_key is not modelled.
- SboxGenerator.FindValidSbox: generate_random_affine_matrix and the
  unbounded `while True` retry loop become a finite list of candidate
  matrices, and the result becomes None when none of them is invertible.
  Randomness is not modelled, and the Python function never returns when
  it finds no invertible matrix.
- AesEngine.AESEngine.EncryptBlock and AesEngine.AESEngine.DecryptBlock
  require at least 16 bytes. Python raises IndexError on a shorter block.
  The wrappers always pass exactly 16 bytes.
- AesEngine.AESEngine.constructor and AesEngine.Create require a 256-entry
  S-box. With a shorter list the Python constructor raises IndexError
  while it builds the inverse S-box or expands the key. A longer list is
  not modelled either; Python ignores its extra entries.
- WalshTransform.Fwht requires a power-of-two length, and
  Mobius.MobiusTransform a length of 256. Every caller passes 256 entries.
  Other lengths, including the empty list that fwht returns unchanged,
  are not modelled.
- The metric functions require 256 entries, as their callers and the API
  schema guarantee. Python raises IndexError on a shorter list. A longer
  list is not modelled either; Python ignores its extra entries, since
  every loop runs over range(256).
- Mobius.MobiusTransform: the 0/1 ints of the truth table and the ANF
  coefficients are modelled as booleans.
- Differential.CalculateDap: its loop is the same as that of calculate_du.
  The model computes DU and divides by 256 instead of repeating the loop.
- SboxGenerator.AesMatrixExample proves only entries 0x53 and 0 of the
  S-box built from the AES matrix. Three things are not proved, because
  evaluating every entry or a whole cipher exceeds the verifier's resource
  limit:
  - that the whole table equals the FIPS 197 S-box;
  - the FIPS 197 appendix C.1 encryption vector;
  - the AES S-box's metric values (NL = 112, DU = 4, CI = 0).
- The FastAPI routes, schemas, file export and constants module
  (app/api, app/schemas, app/utils/file_handlers.py, app/main.py) are not
  part of this model.
