# Verified model of the vscode-wipeout binary codecs

This project models, in Dafny, the byte-level decoders that the WipEout
asset viewer uses to open textures, fonts, archives and audio banks, and
proves what each of them promises. Every source file of the core has one
module:

- `Bc7Bits`, `Bc7Tables`, `Bc7Layout`, `Bc7Endpoints`, `Bc7`
  (`core/utils/bcn.ts`, the active decoder from line 425 on): the BPTC /
  BC7 block decoder. The bit reader is MSB-first inside each byte, as the
  code has it. The model covers mode detection, the partition and anchor
  tables, endpoint and P-bit reading, shift-and-replicate expansion,
  6-bit weight interpolation, channel rotation and the scatter of each
  4×4 tile into the RGBA image.
- `Xtea` (`core/utils/xtea.ts`): the XTEA block cipher on 32-bit words,
  its ECB, CBC and CTR chaining (NIST SP 800-38A sections 6.1, 6.2 and
  6.5), PKCS#7 padding (RFC 5652 section 6.3) and the `doBlocks`,
  `encrypt` and `decrypt` entry points. Decryption is proved to invert
  encryption for every key, IV, mode and round count.
- `Lzss` (`src/core/utils/lzss.ts`): the MSB-first bit view and the LZSS
  decompressor with its 0x2000-byte ring buffer, including the way a read
  past the end of the input ends decoding without an error.
- `Crc32` (`src/core/utils/crc32.ts`): the reflected-table CRC-32 with
  polynomial 0x04C11DB7, initial value 0 and final XOR 0xFFFFFFFF.
- `PspGu` (`core/utils/pspgu.ts`): the PSP GU vertex-layout decoder
  (`strideInfo`, `strideSize`) and the colour packing helpers.
- `Pct` (`core/formats/pct/index.ts`): the PS2 texture loader (GIF
  transfer scan, CLUT swizzle, 4- and 8-bpp palette lookup, pixel
  unswizzle and the in-place vertical flip).
- `Fnt` (`core/formats/fnt/index.ts`): the font loader (endianness sniff,
  charset and glyph scans, the embedded 4-bpp image and its PSP tile
  unswizzle).
- `Bnk` (`core/formats/bnk/index.ts`): the SCREAM sound bank (SBlk
  header versions, grain and wave tables, wave deduplication, sorting by
  offset, the offset-to-index map and the grain chain of a sound).
- `Gnm` (`core/formats/gnf/gnm.ts`): the PS4 GNM texture descriptor, its
  eight little-endian registers and their bit-field getters, with an
  encoder that packs a descriptor so the getters read every field back.
- `Range` (`core/utils/range.ts`): `BufferRange`, the window over a
  byte buffer that every parser reads through, as a class whose setters
  update its fields.

`Wrappers` (Option and Result) and `Bytes` (bytes, powers of two,
little- and big-endian word reads, 32-bit signed conversion) are shared
helpers.

`Bc7Tables` also holds one small lemma per partition table,
`TwoSubsetWellFormed0` to `TwoSubsetWellFormed63` and
`ThreeSubsetWellFormed0` to `ThreeSubsetWellFormed63`. Each checks a
single table, so the solver never has to read all 128 tables at once.
`Bc7Tables.TwoSubsetsWellFormed` and `Bc7Tables.ThreeSubsetsWellFormed`
combine them and carry the model rows.

JavaScript numbers appear as unbounded integers. A shift or mask on a
32-bit value is written as division and remainder by a power of two,
with `>>>`'s unsigned and `>>`'s signed reading made explicit wherever
the sign can differ. A `DataView` read that would throw `RangeError`
becomes a `Failure(RangeError)` result.

Where the code and its comments disagree, the model follows the code:
GNM's `mType1` comment names bit 27 but the getter reads bit 31, and the
`pitch` comment says bits 13-27 while the getter takes 14 bits from bit 13.

## Model

| member | source | states |
|---|---|---|
| Crc32.Reflect | src/core/utils/crc32.ts:7-15 | the loop leaves `b` equal to the low `n` bits of `x` in reverse order (`Reversed`) |
| Crc32.ReversedBit | src/core/utils/crc32.ts:7-15 | bit k of `reflect(x, n)` is bit n - 1 - k of x, for every k < n |
| Crc32.DivisionSteps | src/core/utils/crc32.ts:19-21 | the inner loop performs eight shift-and-XOR division steps, each truncated to 32 bits |
| Crc32.ComputeEntry | src/core/utils/crc32.ts:18-22 | table entry i is the reflected byte placed in the top 8 bits, divided eight times and reflected over 32 bits |
| Crc32.BuildTable | src/core/utils/crc32.ts:17-23 | the two nested loops fill all 256 slots, slot k holding entry k for the given polynomial |
| Crc32.TableFromEntries | src/core/utils/crc32.ts:17-23 | any 256-slot table agreeing entry by entry with the reference entries is the reference table |
| Crc32.Slot | src/core/utils/crc32.ts:28 | the table slot `crc % 256 ^ c` is below 256, and is undefined exactly when a negative register leaves a non-zero JavaScript remainder |
| Crc32.Step | src/core/utils/crc32.ts:29 | one register update `((crc >>> 8) ^ table[j]) >>> 0` always yields a 32-bit unsigned value |
| Crc32.Fold | src/core/utils/crc32.ts:25-30 | feeding no bytes leaves the register alone; feeding at least one leaves an unsigned 32-bit register |
| Crc32.FoldAppend | src/core/utils/crc32.ts:25-30 | feeding s1 + s2 is feeding s1, then s2 from the register s1 left |
| Crc32.FoldSnoc | src/core/utils/crc32.ts:25-30 | feeding one more byte is one more register step |
| Crc32.Codes | src/core/utils/crc32.ts:26-27 | the character codes fail with a RangeError exactly when some character code exceeds 255, and otherwise are the codes in order |
| Crc32.CodesOf | src/core/utils/crc32.ts:26-27 | a sequence of byte-sized codes matching the string character by character is what `Codes` returns |
| Crc32.Checksum | src/core/utils/crc32.ts:1-33 | `crc32` throws exactly when some character code exceeds 255, and otherwise returns an unsigned 32-bit value |
| Crc32.ChecksumFails | src/core/utils/crc32.ts:26-27 | one character above 255 anywhere in the input makes the whole checksum a RangeError |
| Crc32.Crc32 | src/core/utils/crc32.ts:1-33 | the imperative `crc32` (table loops, then the character loop) returns the reference `Checksum` |
| Crc32.EmptyChecksumIsFinalXor | src/core/utils/crc32.ts:2-32 | the empty string hashes to the initial value XORed with the final XOR value |
| Crc32.EmptyChecksum | src/core/utils/crc32.ts:1-32 | with the default parameters the empty string hashes to 0xFFFFFFFF |
| Crc32.ChecksumAppend | src/core/utils/crc32.ts:25-32 | the checksum of s1 + s2 is obtained by continuing the register that s1 leaves, then applying the final XOR |
| Crc32.CodesAppend | src/core/utils/crc32.ts:25-27 | the character codes of s1 + s2 are the codes of s1 followed by those of s2 |
| Lzss.GetBit | src/core/utils/lzss.ts:31-35 | `getBit` succeeds exactly when the bit lies inside the buffer, and then returns bit 7 - offset % 8 of byte offset / 8 |
| Lzss.GetUint | src/core/utils/lzss.ts:37-47 | `getUint(offset, size)` succeeds exactly when all of its bits lie inside the buffer (or size is 0) and returns a value below 2^size |
| Lzss.UintSplit | src/core/utils/lzss.ts:44-47 | reading a + b bits is reading a bits and then b more bits below them |
| Lzss.UintBit | src/core/utils/lzss.ts:44-47 | the bits are read most-significant first: stream bit offset + i is bit size - 1 - i of the result |
| Lzss.Start | src/core/utils/lzss.ts:52-58 | decoding starts at bit 0 with an empty output, ring index 0 and a zero-filled 0x2000-byte ring |
| Lzss.Emit | src/core/utils/lzss.ts:65-67 | emitting a byte appends it to the output, stores it at the ring index and advances the index modulo 0x2000 |
| Lzss.RingByte | src/core/utils/lzss.ts:74 | a back-reference read at position p >= 0 reads ring slot p mod 0x2000; position -1 reads `undefined`, stored as 0 |
| Lzss.Copy | src/core/utils/lzss.ts:73-78 | a back-reference appends exactly `count` bytes and keeps the output before it |
| Lzss.TokenShape | src/core/utils/lzss.ts:60-79 | a literal token consumes 9 bits and emits one byte; a back-reference consumes 18 bits and emits 3 + length bytes |
| Lzss.TokenFits | src/core/utils/lzss.ts:59-79 | a token fails to decode exactly when its flag bit, or the 8 or 17 bits after it, run past the buffer |
| Lzss.Run | src/core/utils/lzss.ts:56-81 | the token loop only ever extends the output it started with |
| Lzss.RunStops | src/core/utils/lzss.ts:56-81 | the loop ends only where the next token does not fit (the swallowed RangeError) or the guard `offset < length * 32` fails |
| Lzss.EmitMirrors | src/core/utils/lzss.ts:65-67 | emitting a byte keeps every one of the last 0x2000 output bytes at ring slot (its position mod 0x2000) |
| Lzss.CopyMirrors | src/core/utils/lzss.ts:73-78 | a back-reference keeps that ring invariant |
| Lzss.TokenMirrors | src/core/utils/lzss.ts:60-79 | every decoded token keeps that ring invariant |
| Lzss.RunMirrors | src/core/utils/lzss.ts:56-81 | the whole token loop keeps that ring invariant |
| Lzss.DecodedMirrors | src/core/utils/lzss.ts:51-81 | the ring holds the last 0x2000 output bytes at the end of decoding, so back-references read earlier output |
| Lzss.Truncate | src/core/utils/lzss.ts:83 | a positive expected size shortens a longer output to exactly that many bytes and leaves a shorter one alone; 0 keeps it; a negative size is the RangeError of setting a negative length |
| Lzss.Decompressed | src/core/utils/lzss.ts:51-86 | with a positive expected size the result never exceeds it |
| Lzss.Decompress | src/core/utils/lzss.ts:51-86 | the imperative decoder (ring as an array updated in place) returns the reference `Decompressed` |
| Lzss.DecodeToken | src/core/utils/lzss.ts:60-79 | one pass of the loop body leaves the state the reference `Token` gives, or reports the read past the end |
| Lzss.DecodeLiteral | src/core/utils/lzss.ts:62-67 | a token with flag bit 1 reads 8 bits and emits them as one byte |
| Lzss.DecodeMatch | src/core/utils/lzss.ts:68-79 | a token with flag bit 0 reads a 13-bit position and a 4-bit length and copies 3 + length bytes |
| Lzss.EmitByte | src/core/utils/lzss.ts:65-67 | the ring array changes only at the current index, and the output grows by that byte |
| Lzss.CopyMatch | src/core/utils/lzss.ts:73-78 | the inner copy loop leaves the ring array and output the reference `Copy` gives |
| Lzss.CopyStep | src/core/utils/lzss.ts:74-77 | one pass of the copy loop leaves the ring array, its index and the output exactly as emitting the ring byte at the source position does |
| Lzss.MatchStopped | src/core/utils/lzss.ts:68-72 | when the 13-bit position or the 4-bit length runs past the buffer, no token decodes and the loop leaves the state as it was |
| Xtea.SumClosedForm | core/utils/xtea.ts:40-46 | `sum`, started at 0 and stepped i times by `(sum + DELTA) >>> 0`, equals i * DELTA modulo 2^32, the form `limit` is computed in |
| Xtea.RoundsSum | core/utils/xtea.ts:41 | `(DELTA * rounds) >>> 0`, the `limit` of `encipher` and the starting `sum` of `decipher`, is the sum after `rounds` steps |
| Xtea.SumStep | core/utils/xtea.ts:46-62 | adding DELTA (modulo 2^32) steps from sum i to sum i + 1, and subtracting DELTA steps back |
| Xtea.SumInjective | core/utils/xtea.ts:41-43 | the first 2^32 sums are distinct, so `while (sum !== limit)` stops after exactly `rounds` rounds when rounds < 2^32 |
| Xtea.SignedShiftKey | core/utils/xtea.ts:47-60 | `decipher`'s signed `(sum >> 11) & 3` selects the same key word as `encipher`'s unsigned `(sum >>> 11) & 3` |
| Xtea.RoundInverse | core/utils/xtea.ts:43-65 | one `decipher` round undoes one `encipher` round with the same sum, and vice versa |
| Xtea.DecipherEnciphered | core/utils/xtea.ts:37-68 | deciphering n rounds undoes enciphering n rounds, for any pair of half-round functions |
| Xtea.EncipherDeciphered | core/utils/xtea.ts:37-68 | enciphering n rounds undoes deciphering n rounds: the cipher permutes blocks |
| Xtea.CipherRoundTrip | core/utils/xtea.ts:37-68 | under any key and round count, `decipher` inverts `encipher` and `encipher` inverts `decipher` |
| Xtea.Encipher | core/utils/xtea.ts:37-52 | `encipher` overwrites v with the cipher of its old contents under k |
| Xtea.EncipherLoop | core/utils/xtea.ts:43-49 | the `while (sum !== limit)` loop runs exactly `rounds` rounds |
| Xtea.Decipher | core/utils/xtea.ts:54-68 | `decipher` overwrites v with the inverse cipher of its old contents under k |
| Xtea.DecipherLoop | core/utils/xtea.ts:57-65 | the `while (sum)` loop counts sum down from DELTA * rounds to 0, running exactly `rounds` rounds |
| Xtea.XorBlockTwice | core/utils/xtea.ts:81-101 | XORing the same chaining words twice restores the block |
| Xtea.NextCounter | core/utils/xtea.ts:102-110 | the CTR counter step keeps `iv[0]`, adds 1 to `iv[1]` and wraps 0xFFFFFFFF to 0 |
| Xtea.DecryptedEncrypted | core/utils/xtea.ts:72-111 | in each of ECB, CBC and CTR, the decrypting mode function restores the block that the encrypting one processed, and leaves the same chaining value |
| Xtea.EncipherEcb | core/utils/xtea.ts:72-74 | ECB encryption enciphers the block and leaves the IV alone |
| Xtea.DecipherEcb | core/utils/xtea.ts:76-78 | ECB decryption deciphers the block and leaves the IV alone |
| Xtea.EncipherCbc | core/utils/xtea.ts:80-86 | CBC encryption XORs in the IV, enciphers, and makes the ciphertext the next IV |
| Xtea.DecipherCbc | core/utils/xtea.ts:88-95 | CBC decryption deciphers, XORs in the IV, and makes the ciphertext the next IV |
| Xtea.EncipherCtr | core/utils/xtea.ts:97-103 | CTR XORs the block with the enciphered counter and advances the counter |
| Xtea.DecipherCtr | core/utils/xtea.ts:105-111 | CTR decryption is the same operation as CTR encryption |
| Xtea.Increment | core/utils/xtea.ts:102-110 | the in-place counter step matches `NextCounter` |
| Xtea.ApplyMode | core/utils/xtea.ts:134-152 | the `MODES` lookup runs the chosen mode function in the chosen direction |
| Xtea.ReadWrittenWord | core/utils/xtea.ts:32-33 | `readUInt32LE` reads back what `writeUInt32LE` wrote |
| Xtea.WriteReadWord | core/utils/xtea.ts:32-33 | `writeUInt32LE` writes back the four bytes `readUInt32LE` read |
| Xtea.BlocksOfSerialize | core/utils/xtea.ts:187-194 | splitting the bytes of a sequence of blocks into blocks gives the blocks back |
| Xtea.SerializeBlocksOf | core/utils/xtea.ts:187-194 | writing back the blocks read from a whole number of blocks gives the same bytes |
| Xtea.ChainRoundTrip | core/utils/xtea.ts:173-196 | running a mode in the decrypting direction over the encrypted blocks, from the same IV, restores every block and ends with the same chaining value |
| Xtea.ChainPrefix | core/utils/xtea.ts:173-196 | the chained output of a prefix of the blocks is the prefix of the chained output |
| Xtea.PadLength | core/utils/xtea.ts:154 | `8 - (length & 7)` is between 1 and 8 and brings the length to a multiple of 8 |
| Xtea.Padded | core/utils/xtea.ts:175-185 | PKCS#7 padding keeps the message and appends `pad` bytes of value `pad`, giving a whole number of blocks |
| Xtea.Unpadded | core/utils/xtea.ts:200-201 | `out.slice(0, length - last)` drops `last` bytes when `last` <= length; a larger `last` gives a negative end that slice counts from the end; past twice the length, or on empty output, the result is empty |
| Xtea.UnpadPadded | core/utils/xtea.ts:175-201 | removing the padding that encryption added gives back the message |
| Xtea.ModeOf | core/utils/xtea.ts:141-150 | no mode means ECB; an unknown mode name is the "Unimplemented mode" error |
| Xtea.RoundsOf | core/utils/xtea.ts:142 | a zero or missing round count becomes 32; any other count is kept |
| Xtea.KeyWords | core/utils/xtea.ts:118-120 | the key is four little-endian words read from bytes 0, 4, 8 and 12 |
| Xtea.InputOf | core/utils/xtea.ts:156-189 | the bytes the loop reads are the padded message when padding, and the message itself otherwise |
| Xtea.Processed | core/utils/xtea.ts:140-202 | `doBlocks` fails with the unimplemented-mode error exactly when the mode is unknown, fails with the alignment error exactly when it must not pad and the length is not a multiple of 8, and otherwise fails only on a short key or IV |
| Xtea.EncryptedLength | core/utils/xtea.ts:154-163 | with padding, encryption yields a multiple of 8 bytes that is 1 to 8 bytes longer than the message; with `skippad` the length is kept |
| Xtea.EncryptDecrypt | core/utils/xtea.ts:140-256 | decrypting what `encrypt` produced, with the same key, mode, IV, padding choice and rounds, gives back the message |
| Xtea.R32 | core/utils/xtea.ts:32 | `readUInt32LE` succeeds exactly when four bytes remain and then reads the little-endian word; otherwise it throws a RangeError |
| Xtea.ReadKey | core/utils/xtea.ts:171 | the key loop succeeds exactly when the key has at least 16 bytes and then fills `k` with the key words |
| Xtea.ReadIv | core/utils/xtea.ts:144-169 | reading the IV words succeeds exactly when the IV has at least 8 bytes |
| Xtea.WriteWord | core/utils/xtea.ts:193-194 | writing a word stores its four bytes at the offset and changes nothing else |
| Xtea.WriteBlock | core/utils/xtea.ts:193-194 | writing a block stores its eight bytes at the offset and changes nothing else |
| Xtea.BlockProcessed | core/utils/xtea.ts:113-130 | `doBlock` throws a RangeError exactly when the key is shorter than 16 bytes or the block shorter than 8, and otherwise returns 8 bytes |
| Xtea.DecryptEncryptBlock | core/utils/xtea.ts:211-224 | `decryptBlock` of `encryptBlock(block, key)` is the first eight bytes of the block |
| Xtea.DoBlock | core/utils/xtea.ts:113-130 | the imperative `doBlock` returns the reference `BlockProcessed` |
| Xtea.EncryptBlock | core/utils/xtea.ts:211-213 | `encryptBlock` is `doBlock` with `encipher` and 32 rounds |
| Xtea.DecryptBlock | core/utils/xtea.ts:222-224 | `decryptBlock` is `doBlock` with `decipher` and 32 rounds |
| Xtea.ReadBlock | core/utils/xtea.ts:175-189 | the loop body reads block i of the (padded) input, the tail block being the rest of the message plus padding |
| Xtea.ChainStep | core/utils/xtea.ts:174-196 | one pass of the loop writes block i of the reference chained output and advances the chaining value |
| Xtea.ChainLoop | core/utils/xtea.ts:174-196 | the block loop fills the output with the expected serialized chain and leaves the chaining value after the last block |
| Xtea.WriteExpected | core/utils/xtea.ts:193-194 | writing one block as two little-endian words, as `writeUInt32LE` stores them, extends the expected prefix of the output by its 8 bytes |
| Xtea.ChainBlocks | core/utils/xtea.ts:173-196 | the whole loop writes the serialized chained output of every input block |
| Xtea.RunBlocks | core/utils/xtea.ts:163-201 | the loop followed by the unpadding step returns the reference `Output` |
| Xtea.DoBlocks | core/utils/xtea.ts:140-202 | the imperative `doBlocks` returns the reference `Processed` |
| Xtea.Encrypt | core/utils/xtea.ts:238-240 | `encrypt` is `doBlocks` in the encrypting direction |
| Xtea.Decrypt | core/utils/xtea.ts:254-256 | `decrypt` is `doBlocks` in the decrypting direction |
| Range.BufferRange.constructor | core/utils/range.ts:12-18 | an omitted begin is 0, an omitted end is the buffer length, and the byte order is the one given |
| Range.BufferRange.Clone | core/utils/range.ts:20-22 | a clone is a new range over the same buffer, with the same bounds and byte order |
| Range.BufferRange.Slice | core/utils/range.ts:24-28 | both slice bounds are relative to this window's begin; an omitted end keeps this window's end |
| Range.SliceTwice | core/utils/range.ts:24-28 | `slice(a).slice(b)` starts a + b bytes into the window and keeps its end |
| Range.BufferRange.Reset | core/utils/range.ts:30-32 | reset bounds are absolute over the same buffer, defaulting to the whole buffer |
| Range.BufferRange.Size | core/utils/range.ts:50-52 | begin + size == end |
| Range.BufferRange.SetEnd | core/utils/range.ts:46-48 | the end setter stores the new end as given |
| Range.BufferRange.SetLe | core/utils/range.ts:58-60 | the byte-order setter stores the new byte order |
| Range.BufferRange.SetSize | core/utils/range.ts:62-70 | a size that would move the end past the current end is refused and leaves the end alone; any other size moves the end to begin + size |
| Range.BufferRange.Bytes | core/utils/range.ts:34-36 | when the window lies inside the buffer, the `buffer` getter gives exactly its bytes |
| Range.BufferRange.GetUint8Array | core/utils/range.ts:183-186 | when the requested bytes lie inside the buffer, the result is exactly those bytes, taken relative to begin; it never exceeds the buffer |
| Range.BufferRange.GetUint8 | core/utils/range.ts:94-98 | the read succeeds exactly when the absolute position lies inside the whole buffer (not the window), and gives that byte |
| Range.BufferRange.GetInt8 | core/utils/range.ts:88-92 | the same bounds; the signed value is in [-128, 128) and congruent to the byte modulo 256 |
| Range.BufferRange.GetUint16 | core/utils/range.ts:106-110 | two bytes inside the buffer are needed; the value is little- or big-endian according to the range's byte order |
| Range.BufferRange.GetInt16 | core/utils/range.ts:100-104 | the signed 16-bit reading is in [-2^15, 2^15) and congruent to the unsigned one modulo 2^16 |
| Range.BufferRange.GetUint32 | core/utils/range.ts:122-126 | four bytes inside the buffer are needed; the value is the little- or big-endian word, below 2^32 |
| Range.BufferRange.GetInt32 | core/utils/range.ts:116-120 | the signed 32-bit reading is in [-2^31, 2^31) and congruent to the unsigned one modulo 2^32 |
| Range.SignedShiftRight8 | core/utils/range.ts:113 | `>> 8` on an unsigned 32-bit word is its quotient by 256 below 2^31, and that quotient less 2^24 from 2^31 up |
| Range.BufferRange.GetUint24 | core/utils/range.ts:112-114 | the signed shift `>> 8` gives the top three bytes of the word when its top bit is clear; when it is set, those three bytes sign-extended, i.e. less 2^24, a negative value |
| Range.BufferRange.GetUint40 | core/utils/range.ts:128-134 | as written: five bytes are needed, and the result is the 32-bit `v << 8` (top byte lost, possibly negative) plus the fifth byte |
| Range.BufferRange.GetUint48 | core/utils/range.ts:136-142 | as written: six bytes are needed, and the big-endian 16-bit word is added to the 32-bit word without any shift |
| Range.BufferRange.GetUint40Corrected | core/utils/range.ts:128-134 | the intended 40-bit value: the 32-bit word in the top bits and the fifth byte below it, below 2^40 |
| Range.BufferRange.GetUint48Corrected | core/utils/range.ts:136-142 | the intended 48-bit value: the 32-bit word in the low bits and the 16-bit word above it, below 2^48 |
| Range.GetUint40LosesTopByte | core/utils/range.ts:131-133 | on the bytes 00 00 00 01 00 the as-written getter returns 0, while the intended value is 2^32 |
| Range.GetUint48AddsHighWordUnshifted | core/utils/range.ts:139-141 | on the bytes 00 00 00 00 00 01 the as-written getter returns 1, while the intended value is 2^32 |
| PspGu.ElementSize | core/utils/pspgu.ts:361-394 | a texture, normal or position field of 0 means the component is absent, 3 means a 4-byte float, and 1 or 2 is the byte size |
| PspGu.ColorSize | core/utils/pspgu.ts:368 | a colour field of 0 means no colour, 7 (8888) takes 4 bytes, and every other format takes 2 |
| PspGu.Padding | core/utils/pspgu.ts:370-397 | the padding before a component larger than one byte is less than its size and makes its offset a multiple of it; one-byte and absent components get none |
| PspGu.StrideInfoOf | core/utils/pspgu.ts:356-435 | each component's kind is its bit field of `vtxdef`; sizes follow those fields; counts are 2, 1, 3 and the vertex count field (0 meaning 3 positions, or none when positions are absent); each component starts where the previous ends plus its padding, aligned to its size |
| PspGu.ComponentsInOrder | core/utils/pspgu.ts:356-435 | texture, colour, normal and position never overlap and come in that order |
| PspGu.StrideSize | core/utils/pspgu.ts:437-443 | the stride is the end of the position component, rounded up to the smallest multiple of `align` when `align` > 1 |
| PspGu.AlignUp | core/utils/pspgu.ts:441 | rounding up adds less than `align` and reaches a multiple of it when `align` > 1, and changes nothing otherwise |
| PspGu.VerticesField | core/utils/pspgu.ts:93-95 | `VERTICES(n)` sets only bits 18-20, and `strideInfo` reads back (n - 1) mod 8 from them |
| PspGu.WeightsField | core/utils/pspgu.ts:89-91 | `WEIGHTS(n)` sets only bits 14-16, holding (n - 1) mod 8 |
| PspGu.Abgr | core/utils/pspgu.ts:309-311 | the packed colour is a signed 32-bit value with r in bits 0-7, g in 8-15, b in 16-23 and a in 24-31 |
| PspGu.ChannelsOf | core/utils/pspgu.ts:309-311 | each channel can be read back from the signed packed value, even when alpha sets the sign bit |
| PspGu.Argb | core/utils/pspgu.ts:312-314 | `ARGB` only reorders its parameters: the channels land in the same bits as for `ABGR` |
| PspGu.Rgba | core/utils/pspgu.ts:315-317 | `RGBA` also puts red in bits 0-7 and alpha in bits 24-31 |
| Pct.ClutSourceBits | core/formats/pct/index.ts:47-50 | palette entry i is taken from i + 8 when bits 3-4 of i are 01, from i - 8 when they are 10, and from i itself otherwise; the source stays in the same group of 32 and keeps the position within its group of 8 |
| Pct.ClutSourceInvolution | core/formats/pct/index.ts:43-50 | the palette reordering swaps block pairs: applying the source map twice gives the entry back |
| Pct.UnswizzledClut | core/formats/pct/index.ts:45-57 | the unswizzled palette has the same length as the raw one |
| Pct.UnswizzleClut8 | core/formats/pct/index.ts:45-57 | the loop fills a fresh array with the reference `UnswizzledClut` |
| Pct.CopyClutEntry | core/formats/pct/index.ts:51-54 | one loop turn fills the four bytes of entry i and leaves later entries zero |
| Pct.UnswizzleClutTwice | core/formats/pct/index.ts:45-57 | on a full 256-entry palette, unswizzling twice gives the palette back |
| Pct.Alpha | core/formats/pct/index.ts:110-123 | `Math.min(alpha * 2, 255)` doubles a PS2 alpha up to 0x7F and saturates 0x80 and above to 255 |
| Pct.Indexed | core/formats/pct/index.ts:102-113 | `decodeIndexed` yields exactly 4 bytes per texel |
| Pct.DecodeIndexed | core/formats/pct/index.ts:102-113 | the loop fills a fresh array with the reference `Indexed`: texel i is palette entry `pixels[i]` with alpha scaled, and 0 past the end of either input |
| Pct.Nibble | core/formats/pct/index.ts:118-119 | the 4-bit index of texel i is below 16 |
| Pct.NibblesOfByte | core/formats/pct/index.ts:118-119 | the even texel is the low nibble and the odd one the high nibble: together they give the packed byte back |
| Pct.Decoded4bpp | core/formats/pct/index.ts:115-126 | `decode4bpp` yields exactly 4 bytes per texel |
| Pct.Decode4bpp | core/formats/pct/index.ts:115-126 | the loop fills a fresh array with the reference `Decoded4bpp` |
| Pct.Decode4bppIsIndexed | core/formats/pct/index.ts:102-126 | decoding 4-bit data is decoding the sequence of its nibbles as 8-bit indices |
| Pct.SourceIndex | core/formats/pct/index.ts:69-80 | the PSMT8 read position of texel (x, y) is never negative |
| Pct.Write | core/formats/pct/index.ts:78-83 | one inner-loop turn keeps the output length |
| Pct.Unswizzled8 | core/formats/pct/index.ts:62-87 | `unswizzle8` yields width * height bytes |
| Pct.Unswizzle8 | core/formats/pct/index.ts:62-87 | the two nested loops fill a fresh array with the reference `Unswizzled8` |
| Pct.WriteTexel | core/formats/pct/index.ts:69-83 | one inner-loop turn writes the source texel to its target when both indices are in range, and nothing otherwise |
| Pct.TargetInvolution | core/formats/pct/index.ts:70-79 | the destination map undoes itself: applying it twice to (x, y) gives (x, y) back |
| Pct.TargetInGrid | core/formats/pct/index.ts:77-82 | on a grid of whole 8 x 4 tiles the destination stays on the grid |
| Pct.TargetInjective | core/formats/pct/index.ts:77-82 | on such a grid no two texels share a destination, so no write overwrites another |
| Pct.WriteGathers | core/formats/pct/index.ts:78-83 | after a write, every texel visited so far holds its source byte at its destination and every other byte is still 0 |
| Pct.RowWritesGather | core/formats/pct/index.ts:68-84 | the inner loop keeps that invariant over a row |
| Pct.RowsGather | core/formats/pct/index.ts:67-85 | the outer loop keeps that invariant over the rows |
| Pct.Unswizzle8Gathers | core/formats/pct/index.ts:62-87 | on whole 8 x 4 tiles, output byte `TargetIndex(x, y)` is input byte `SourceIndex(x, y)` (0 past the input's end): the output is a reordering of the texels read |
| Pct.Flipped | core/formats/pct/index.ts:89-100 | the flipped image has the same length |
| Pct.FlippedAt | core/formats/pct/index.ts:89-100 | byte c of row r of the flipped image is byte c of row height - 1 - r |
| Pct.FlipTwice | core/formats/pct/index.ts:89-100 | flipping twice gives the image back |
| Pct.FlipY | core/formats/pct/index.ts:90-100 | the in-place row swaps leave the array holding `Flipped` of its old contents |
| Pct.SwapRows | core/formats/pct/index.ts:94-98 | one turn through the temporary row exchanges the two byte ranges and changes nothing else |
| Pct.SwappedRows | core/formats/pct/index.ts:94-98 | exchanging the byte ranges of rows a and b exchanges the rows |
| Pct.FlipStep | core/formats/pct/index.ts:93-99 | after y + 1 swaps, every row holds the row the partial flip assigns it |
| Pct.FlipDone | core/formats/pct/index.ts:93-99 | after `height >> 1` swaps the array is the flipped image, the middle row of an odd height staying put |
| Pct.TransfersWellFormed | core/formats/pct/index.ts:175-200 | every transfer found lies inside the data, holds whole 16-byte units (fewer than 0x8000), follows a TRXPOS/TRXREG/TRXDIR header, has the size `(tag & 0x7fff) * 16` of the IMAGE tag word 16 bytes before its data, and starts 64 bytes after the previous one ends, the first one 64 bytes after the stream offset 0x8D |
| Pct.TransfersInside | core/formats/pct/index.ts:179-195 | each transfer lies inside the data in whole 16-byte units, after its three register blocks |
| Pct.TransfersTagged | core/formats/pct/index.ts:188-191 | each transfer's size is the low 15 bits of the IMAGE tag word at its data offset - 16, times 16 |
| Pct.TransfersChained | core/formats/pct/index.ts:190-196 | the first transfer starts 64 bytes after the scan offset and each later one 64 bytes after the previous one ends |
| Pct.ParseTransfers | core/formats/pct/index.ts:175-200 | the scanning loop returns the reference `Transfers` of the range's bytes from offset 0x8D |
| Pct.ScanTransfer | core/formats/pct/index.ts:181-195 | one loop turn either ends the scan (wrong register byte or data past the end) or yields the transfer that heads the reference list, strictly past the offset |
| Pct.ReadHeader | core/formats/pct/index.ts:181-188 | the three register bytes are read at +8, +24 and +40 of the header, and the IMAGE tag word at +48 |
| Pct.Image | core/formats/pct/index.ts:156-169 | the decoded image has 4 bytes per texel |
| Pct.DecodeImage | core/formats/pct/index.ts:156-169 | the 4-bit or 8-bit decode, then the flip, yield the reference `Image` |
| Pct.Loaded | core/formats/pct/index.ts:133-173 | `PCT.load` throws exactly when the file is shorter than 8 bytes; otherwise height and width are the little-endian words at bytes 4 and 6 |
| Pct.TextureOf | core/formats/pct/index.ts:143-172 | an image is built exactly when at least two transfers exist and the pixel data has 4 or 8 bits per texel; it then has the header's dimensions and 4 bytes per texel |
| Pct.Load | core/formats/pct/index.ts:133-173 | the imperative `load` returns the reference `Loaded` |
| Pct.Build | core/formats/pct/index.ts:143-172 | the rest of `load` after the header reads returns the reference `TextureOf` |
| Fnt.GlyphAt | core/formats/fnt/index.ts:20-32 | a glyph record loads exactly when its 14 bytes lie inside the file; its codepoint is the 16-bit word at its start in the file's byte order, and `advanceX` is a signed byte |
| Fnt.ImageHeaderAt | core/formats/fnt/index.ts:42-49 | the image header loads exactly when its first 7 bytes lie inside the file; width and height are 16-bit, and swizzle is set exactly when byte 6 is 1 |
| Fnt.HeaderOf | core/formats/fnt/index.ts:62-71 | the header loads exactly when the file holds 28 bytes; its fields are unsigned 32-bit words (the word at 20 is skipped) |
| Fnt.CharsetScan | core/formats/fnt/index.ts:122-127 | the charset has at most `glyphs` entries, none of them 0, each the codepoint at its place; when it stops short, the codepoint after its last entry is 0 |
| Fnt.Glyphs | core/formats/fnt/index.ts:132-138 | as written: the glyph loop loads at most `glyphs` entries; when it stops short of them and not at the charset test, the offset-table entry after the last glyph is read and its 18-byte record would end past the file |
| Fnt.CharsetNeverEnds | core/formats/fnt/index.ts:125-134 | the charset the loop builds never holds 0, and an index past its end reads `undefined`, so the test `charset[i] === 0` never stops the glyph loop |
| Fnt.GlyphWithoutCodepoint | core/formats/fnt/index.ts:111-138 | `FNT.load` of a 32-byte little-endian file whose header counts one glyph and whose charset is empty succeeds with an empty charset and one glyph as written; the corrected loop loads none for that file |
| Fnt.GlyphsCorrected | core/formats/fnt/index.ts:130-138 | the glyph loop as its comment intends: no more glyphs than the header counts and no more than the charset holds |
| Fnt.GlyphsInFile | core/formats/fnt/index.ts:133-138 | every glyph loaded is the record at the offset read from entry i of the offset table, lying wholly inside the file |
| Fnt.Place | core/formats/fnt/index.ts:90 | `output.set(src, offset)` succeeds exactly when the source fits, and keeps the output length |
| Fnt.PlaceAt | core/formats/fnt/index.ts:90 | after a successful `set`, each byte is the source byte over it, or the old byte |
| Fnt.Steps | core/formats/fnt/index.ts:84-92 | the partial output keeps the input's length |
| Fnt.UnswizzledGray4 | core/formats/fnt/index.ts:77-95 | a successful unswizzle has the input's length |
| Fnt.UnswizzleGray4 | core/formats/fnt/index.ts:77-95 | the nested loops fail exactly when the reference `UnswizzledGray4` does, and otherwise fill a fresh array with it |
| Fnt.TilesCount | core/formats/fnt/index.ts:84 | `b < length / 128` holds exactly for the tiles the reference visits |
| Fnt.CopyTile | core/formats/fnt/index.ts:85-91 | one outer-loop turn places the eight rows of a tile, or reports the `set` that throws |
| Fnt.CopyTiles | core/formats/fnt/index.ts:84-92 | the outer tile loop reaches the reference state after all tiles, or reports the `set` that throws, which stays thrown |
| Fnt.CopyTileRow | core/formats/fnt/index.ts:88-90 | one inner-loop turn places one 16-byte tile row at its destination, or reports the RangeError |
| Fnt.SetAt | core/formats/fnt/index.ts:90 | the in-place `set` succeeds exactly when the reference `Place` does, and leaves the array unchanged when it throws |
| Fnt.StepsStayFailed | core/formats/fnt/index.ts:84-92 | once a `set` has thrown, the whole unswizzle has |
| Fnt.TileDstRowMajor | core/formats/fnt/index.ts:85-89 | when a row holds whole tiles, tile b goes to tile row b / perRow and tile column b % perRow, the fractional `blocksPerRow` arithmetic being exact |
| Fnt.TileInBounds | core/formats/fnt/index.ts:84-90 | on whole tile rows, every visited tile row is read whole from the input and lands inside the output |
| Fnt.TileDisjoint | core/formats/fnt/index.ts:88-90 | different tile rows land on disjoint bytes |
| Fnt.TileRowsSeparated | core/formats/fnt/index.ts:84-92 | on whole tile rows, all the tile rows visited are in bounds and pairwise disjoint |
| Fnt.StepsGather | core/formats/fnt/index.ts:84-92 | under that separation no `set` throws, and every byte placed so far stays at its destination |
| Fnt.UnswizzleGray4Gathers | core/formats/fnt/index.ts:77-95 | on whole tile rows the unswizzle does not throw, and byte j of tile row t is found at its row-major destination |
| Fnt.ImageWithWellFormed | core/formats/fnt/index.ts:145-154 | the mipmap has the header's dimensions and at most `size` bytes, exactly `size` when the file holds them |
| Fnt.ImageWellFormed | core/formats/fnt/index.ts:141-155 | the mipmap has at most (width * height) / 2 bytes, exactly that many when the file holds them |
| Fnt.LoadedWellFormed | core/formats/fnt/index.ts:107-158 | a loaded font comes from a file of at least 28 bytes; the byte order is little-endian exactly when the first byte is 1; the charset and glyphs number at most the header's count; the charset holds no 0; the image is present exactly when the image offset lies inside the file |
| Fnt.LoadedShortFile | core/formats/fnt/index.ts:62-119 | a file shorter than the 28 header bytes throws a RangeError |
| Fnt.Load | core/formats/fnt/index.ts:111-158 | the imperative `FNT.load` returns the reference `Loaded` |
| Fnt.LoadImage | core/formats/fnt/index.ts:141-155 | the image part of `load` returns the reference `ImageAt` |
| Fnt.LoadImageData | core/formats/fnt/index.ts:146-154 | reading the image data and unswizzling it returns the reference `ImageWith` |
| Fnt.ScanCharset | core/formats/fnt/index.ts:122-127 | the charset loop returns the reference `Charset` |
| Fnt.ScanGlyphs | core/formats/fnt/index.ts:132-138 | the glyph loop returns the reference `Glyphs` |
| Fnt.ReadGlyph | core/formats/fnt/index.ts:134-137 | one glyph-loop turn stops at a zero charset entry, reports a read past the end, or reads the glyph that heads the reference list |
| Bnk.U32 | core/utils/range.ts:122-126 | a 32-bit read succeeds exactly when its four bytes are in the buffer, and yields a value below 2^32 |
| Bnk.U16 | core/utils/range.ts:106-110 | a 16-bit read succeeds exactly when its two bytes are in the buffer, and yields a value below 2^16 |
| Bnk.LoadHeader | core/formats/bnk/index.ts:34-44 | the header loads exactly when the buffer holds its 0x18 bytes; the SBlk offset, the data offset and the data size are the little-endian words at 8, 0x10 and 0x14 |
| Bnk.SBlkExtent | core/formats/bnk/index.ts:76-126 | every layout reads at least the version word, 8 bytes from the SBlk start |
| Bnk.LoadSBlk | core/formats/bnk/index.ts:76-126 | the SBlk loads exactly when the version word and every field its version reads are in the buffer; counts are 16-bit; version 1 reuses table 2's offset for table 3 and has no table 4, SPU base or RAM size; an unknown version leaves every count and offset 0 |
| Bnk.LoadGrain | core/formats/bnk/index.ts:166-178 | a grain loads exactly when its 8 bytes are in the buffer; its type is the byte at +3 and its wave offset the little-endian 16-bit word at +0 |
| Bnk.LoadWave | core/formats/bnk/index.ts:204-220 | a wave loads exactly when its 0x18 bytes are in the buffer; it loops exactly when the byte at +9 is non-zero; volume and pan are the bytes at +0x0a and +0x0b |
| Bnk.SampleCountBlocks | core/formats/bnk/index.ts:230-232 | the sample count is 7/4 of the data size: 28 per whole 16-byte block, and not a whole number when the size is not a multiple of 4 |
| Bnk.SevenQuartersNotWhole | core/formats/bnk/index.ts:230-232 | seven times a size that is not a multiple of 4 is never a multiple of 4 |
| Bnk.LoadSound | core/formats/bnk/index.ts:246-253 | a sound loads exactly when the bytes up to its grain-table word at +8 are in the buffer; that offset is 16-bit |
| Bnk.SoundsTable | core/formats/bnk/index.ts:305-308 | the sound table holds one sound per count, the k-th loaded 0x0c bytes after the previous |
| Bnk.LoadSounds | core/formats/bnk/index.ts:305-308 | the sound loop yields the sound table (a failed read fails the load) |
| Bnk.ScannedWaves | core/formats/bnk/index.ts:316-326 | the grain scan loads at most one wave per offset, each from table 3 at that offset |
| Bnk.ScannedOffsets | core/formats/bnk/index.ts:316-326 | the scanned offsets are exactly the offsets of the wave grains among the first n grains |
| Bnk.ScannedStaysFailed | core/formats/bnk/index.ts:319-320 | once a grain read fails, the scan of every longer prefix fails |
| Bnk.OffsetSetAppend | core/formats/bnk/index.ts:322-324 | appending an entry adds exactly its offset to the set of offsets |
| Bnk.IndexedKeys | core/formats/bnk/index.ts:321 | an offset is a key of the offset-to-index map exactly when it is among the entries' offsets |
| Bnk.ScanStateAppend | core/formats/bnk/index.ts:321-325 | recording a new offset keeps offsets, waves and map in step with the entries |
| Bnk.ScanWaves | core/formats/bnk/index.ts:316-326 | the grain loop succeeds exactly when the scan does, and its offsets and waves pair up to the scan's entries in order |
| Bnk.ScanGrain | core/formats/bnk/index.ts:320-325 | one loop step succeeds exactly when the scan over one more grain does, and keeps offsets, waves and map in step |
| Bnk.ConsIncreasing | core/formats/bnk/index.ts:330 | an entry below every entry of an increasing list keeps it increasing at the front |
| Bnk.InsertIncreasing | core/formats/bnk/index.ts:330 | inserting an entry with a new offset into an increasing list keeps it increasing |
| Bnk.InsertPermutes | core/formats/bnk/index.ts:330 | insertion adds exactly that entry to the multiset |
| Bnk.SortByOffsetPermutes | core/formats/bnk/index.ts:330 | sorting by offset permutes the entries |
| Bnk.InsertAbove | core/formats/bnk/index.ts:330 | insertion keeps a lower bound on the offsets |
| Bnk.OffsetSetOfPermutation | core/formats/bnk/index.ts:330 | permuted entries have the same offsets |
| Bnk.SortByOffsetSorts | core/formats/bnk/index.ts:330 | entries with distinct offsets sort into increasing offset order with the same offsets |
| Bnk.SortByOffsetIncreasing | core/formats/bnk/index.ts:330 | entries with distinct offsets sort into strictly increasing offsets |
| Bnk.LastOffsetIsNew | core/formats/bnk/index.ts:330 | with distinct offsets, the last entry's offset is missing from the sorted rest |
| Bnk.WavesOf | core/formats/bnk/index.ts:331 | one wave per entry |
| Bnk.IndexOffsets | core/formats/bnk/index.ts:332-333 | the rebuilt map sends each sorted entry's offset to its position |
| Bnk.LoadedEntries | core/formats/bnk/index.ts:297-336 | a loaded bank's entries are the grain scan sorted by offset |
| Bnk.LoadedIncreasing | core/formats/bnk/index.ts:328-333 | a loaded bank's waves are in strictly increasing table 3 offset order |
| Bnk.SortedFromTable3 | core/formats/bnk/index.ts:328-331 | sorting keeps every entry's wave the one loaded from table 3 at its offset |
| Bnk.LoadedFromTable3 | core/formats/bnk/index.ts:297-336 | every wave of a loaded bank is the one loaded from table 3 at its offset |
| Bnk.LoadedOffsets | core/formats/bnk/index.ts:297-336 | a loaded bank's offsets are exactly those of the wave grains of table 2 |
| Bnk.LoadedWaves | core/formats/bnk/index.ts:297-336 | a loaded bank has one wave per distinct wave-grain offset, loaded from table 3 at that offset, in increasing offset order |
| Bnk.EntriesIndexed | core/formats/bnk/index.ts:328-333 | increasing entries from table 3 and their offset index give waves that the map finds by offset |
| Bnk.LoadedIndexed | core/formats/bnk/index.ts:297-336 | the map rebuilt after sorting finds every loaded wave by its offset |
| Bnk.Bnk.constructor | core/formats/bnk/index.ts:298-303 | a new bank holds the buffer, header and SBlk, with no sounds, waves or map entries |
| Bnk.Bnk.Load | core/formats/bnk/index.ts:297-336 | loading succeeds exactly when header, SBlk, sound table and grain scan read in bounds; the bank then holds the loaded sounds, the sorted waves and an offset-to-index map consistent with them |
| Bnk.Bnk.GrainAt | core/formats/bnk/index.ts:339-341 | the grain is read at the byte offset into table 2 |
| Bnk.Bnk.WaveIndexForGrain | core/formats/bnk/index.ts:366-369 | -1 exactly when the grain is not a wave or its offset is unknown; otherwise the index of the wave loaded from table 3 at the grain's offset |
| Bnk.Bnk.WaveForGrain | core/formats/bnk/index.ts:360-363 | a wave exactly when the grain is a wave grain with a known offset, and then the one loaded from table 3 at that offset |
| Bnk.Bnk.GrainsForSound | core/formats/bnk/index.ts:344-357 | the loop yields the sound's grain chain with the guard of 64 |
| Bnk.GrainChainStep | core/formats/bnk/index.ts:348-355 | a grain that does not chain ends the chain; one that chains is followed by the chain 8 bytes on with one guard step fewer |
| Bnk.GrainChainShape | core/formats/bnk/index.ts:344-357 | a chain holds 1 to 64 grains read 8 bytes apart from the sound's offset; every grain but the last chains, and the last does not unless the guard cut the chain |
| Bnk.Bnk.AudioRange | core/formats/bnk/index.ts:372-375 | the audio range starts at the data section plus the wave's data offset and spans its data size |
| Gnm.Load | core/formats/gnf/gnm.ts:74-81 | the descriptor loads exactly when the range's first 0x20 bytes lie in the buffer; register i is then the little-endian 32-bit word at offset 4i |
| Gnm.GnmTexture.BaseAddress | core/formats/gnf/gnm.ts:84-88 | the base address is register 0, a 32-bit value |
| Gnm.GnmTexture.MinLod | core/formats/gnf/gnm.ts:98-101 | min LOD is a 12-bit field of register 1; with Register1Decodes it is bits 8-19 |
| Gnm.GnmTexture.DataFormat | core/formats/gnf/gnm.ts:103-106 | the data format is a 6-bit field of register 1; with Register1Decodes it is bits 20-25 |
| Gnm.GnmTexture.NumFormat | core/formats/gnf/gnm.ts:108-111 | the number format is a 4-bit field of register 1; with Register1Decodes it is bits 26-29 |
| Gnm.GnmTexture.ChannelType | core/formats/gnf/gnm.ts:125-128 | the channel type is the number format: both read bits 26-29 of register 1 |
| Gnm.GnmTexture.MType1 | core/formats/gnf/gnm.ts:119-123 | the signed shift by 31 is non-zero exactly when register 1 is at least 2^31, i.e. bit 31 is set |
| Gnm.GnmTexture.Width | core/formats/gnf/gnm.ts:130-133 | the width is a 14-bit field plus one, so 1 to 0x4000 |
| Gnm.GnmTexture.Height | core/formats/gnf/gnm.ts:135-138 | the height is a 14-bit field plus one, so 1 to 0x4000 |
| Gnm.GnmTexture.PerfMod | core/formats/gnf/gnm.ts:140-143 | perfmod is a 3-bit field of register 2 |
| Gnm.GnmTexture.Interlaced | core/formats/gnf/gnm.ts:145-148 | interlaced holds exactly when bit 31 of register 2 is set |
| Gnm.GnmTexture.DstSelX | core/formats/gnf/gnm.ts:150-153 | the x destination select is a 3-bit field of register 3 |
| Gnm.GnmTexture.DstSelY | core/formats/gnf/gnm.ts:155-158 | the y destination select is a 3-bit field of register 3 |
| Gnm.GnmTexture.DstSelZ | core/formats/gnf/gnm.ts:160-163 | the z destination select is a 3-bit field of register 3 |
| Gnm.GnmTexture.DstSelW | core/formats/gnf/gnm.ts:165-168 | the w destination select is a 3-bit field of register 3 |
| Gnm.GnmTexture.BaseLevel | core/formats/gnf/gnm.ts:170-173 | the base level is a 4-bit field of register 3 |
| Gnm.GnmTexture.LastLevel | core/formats/gnf/gnm.ts:175-179 | the last level is a 4-bit field of register 3 |
| Gnm.GnmTexture.TilingIndex | core/formats/gnf/gnm.ts:181-184 | the tiling index is a 5-bit field of register 3 |
| Gnm.GnmTexture.TextureType | core/formats/gnf/gnm.ts:201-204 | the texture type is a 4-bit field of register 3 (bits 28-31) |
| Gnm.GnmTexture.Depth | core/formats/gnf/gnm.ts:206-209 | the depth is a 13-bit field plus one, so 1 to 0x2000 |
| Gnm.GnmTexture.Pitch | core/formats/gnf/gnm.ts:211-214 | the pitch is a 14-bit field plus one, so 1 to 0x4000 |
| Gnm.GnmTexture.Metadata | core/formats/gnf/gnm.ts:252-255 | the metadata address is register 7, a 32-bit value |
| Gnm.GnmTexture.Decode | core/formats/gnf/gnm.ts:83-255 | reading every getter of a valid descriptor gives fields within the widths the layout gives them |
| Gnm.Register1 | core/formats/gnf/gnm.ts:98-123 | min LOD, data format, number format and the two memory-type flags packed at bits 8, 20, 26, 30 and 31 fit a 32-bit register |
| Gnm.Register1Digits | core/formats/gnf/gnm.ts:98-123 | each register-1 field is the bit field its getter reads, so no two fields overlap |
| Gnm.Register2 | core/formats/gnf/gnm.ts:130-148 | width - 1, height - 1, perfmod and interlaced packed at bits 0, 14, 28 and 31 fit a 32-bit register |
| Gnm.Register2Digits | core/formats/gnf/gnm.ts:130-148 | each register-2 field is the bit field its getter reads |
| Gnm.Register3 | core/formats/gnf/gnm.ts:150-204 | the destination selects, levels, tiling index, the three flags and the texture type packed from bit 0 up fit a 32-bit register |
| Gnm.Register3LowDigits | core/formats/gnf/gnm.ts:150-179 | the destination selects and the base and last level are the bit fields their getters read |
| Gnm.Register3HighDigits | core/formats/gnf/gnm.ts:181-204 | the tiling index, pow2pad, mtype2, atc and the texture type are the bit fields at bits 20, 25, 26, 27 and 28 |
| Gnm.Register4 | core/formats/gnf/gnm.ts:206-214 | depth - 1 and pitch - 1 packed at bits 0 and 13 fit a 32-bit register |
| Gnm.Register4Digits | core/formats/gnf/gnm.ts:206-214 | depth - 1 and pitch - 1 are the bit fields their getters read |
| Gnm.Register6 | core/formats/gnf/gnm.ts:227-250 | the five register-6 flags at bits 20-24 fit a 32-bit register |
| Gnm.Register6Digits | core/formats/gnf/gnm.ts:227-250 | each register-6 flag is the bit its getter reads |
| Gnm.Encode | core/formats/gnf/gnm.ts:74-255 | a valid descriptor encodes to eight 32-bit registers |
| Gnm.Register1Decodes | core/formats/gnf/gnm.ts:98-123 | min LOD, data format, number format, mType0 and mType1 read back what Encode stored |
| Gnm.Register2Decodes | core/formats/gnf/gnm.ts:130-148 | width, height, perfmod and interlaced read back what Encode stored |
| Gnm.Register3Decodes | core/formats/gnf/gnm.ts:150-204 | the register-3 getters, with the three flags read from register 3, read back what Encode stored |
| Gnm.Register4Decodes | core/formats/gnf/gnm.ts:206-214 | depth and pitch read back what Encode stored |
| Gnm.Register6Decodes | core/formats/gnf/gnm.ts:227-250 | the five register-6 flags read back what Encode stored |
| Gnm.DecodeEncode | core/formats/gnf/gnm.ts:83-255 | decoding an encoded descriptor gives it back: every getter reads its own field and the fields do not overlap |
| Gnm.Register1FormatBits | core/formats/gnf/gnm.ts:186-199 | bits 25, 26 and 27 of register 1 are the top bit of the data format and the two low bits of the number format |
| Gnm.FlagsReadFromFormat | core/formats/gnf/gnm.ts:186-199 | as written, pow2pad reports the data format's top bit, and mtype2 and atc report the number format's two low bits |
| Gnm.FlagsReadFromWrongRegister | core/formats/gnf/gnm.ts:186-199 | a descriptor with the three flags set in register 3 and register 1 zero: the getters as written report none of them, the corrected ones all three |
| Bc7Bits.Bit | core/utils/bcn.ts:1226-1232 | bit o of a byte buffer, counted from the most significant bit of byte o / 8, is 0 or 1; a bit past the end is 0 |
| Bc7Bits.Uint | core/utils/bcn.ts:1241-1244 | the n bits from o, first bit most significant, form a number below 2^n |
| Bc7Bits.Bits | core/utils/bcn.ts:1234-1239 | the n bits from o, in reading order: exactly n of them |
| Bc7Bits.FromBitsUint | core/utils/bcn.ts:1241-1244 | folding the bits with (r << 1) + bit gives the same number as Uint: the reduce in getUint agrees with the reference reading |
| Bc7Bits.UintSplit | core/utils/bcn.ts:1241-1244 | reading a + b bits is reading a bits, shifting by b, and adding the next b bits |
| Bc7Bits.UintBit | core/utils/bcn.ts:1241-1244 | bit n - 1 - i of an n-bit read is the i-th bit read |
| Bc7Bits.UintHighBits | core/utils/bcn.ts:1226-1244 | reading n <= 8 bits at a byte boundary gives the top n bits of that byte |
| Bc7Bits.UintByte | core/utils/bcn.ts:1226-1244 | reading 8 bits at a byte boundary gives the byte |
| Bc7Bits.UintPastEnd | core/utils/bcn.ts:1226-1232 | bits read past the end of the buffer are 0 (the byte read is undefined, which masks to 0) |
| Bc7Bits.BitReader.constructor | core/utils/bcn.ts:1221-1224 | a reader starts at bit 0 of its buffer |
| Bc7Bits.BitReader.GetBit | core/utils/bcn.ts:1226-1232 | returns the bit at the offset and advances the offset by one |
| Bc7Bits.BitReader.GetBits | core/utils/bcn.ts:1234-1239 | returns the count bits from the offset, in order, and advances the offset by count |
| Bc7Bits.BitReader.GetUint | core/utils/bcn.ts:1241-1244 | returns the size-bit number at the offset, most significant bit first, and advances the offset by size |
| Bc7Tables.Weights | core/utils/bcn.ts:1207-1209 | the weight table for 2 index bits has 4 entries, for 3 bits 8 and otherwise 16; each runs from 0 to 64 and no weight exceeds 64 |
| Bc7Tables.WeightsIncrease | core/utils/bcn.ts:1207-1209 | every weight table increases strictly |
| Bc7Tables.SubsetOf | core/utils/bcn.ts:1421-1422 | the subset number of a partition entry, its low two bits, is below 4 |
| Bc7Tables.EntryFields | core/utils/bcn.ts:1406-1422 | for an entry of an n-subset table, masking with 0x03 gives its subset, below n, and bit 0x80 is set exactly on anchor entries |
| Bc7Tables.WellFormedEntries | core/utils/bcn.ts:430-1206 | a well-formed table holds a valid entry at every one of its 4 x 4 positions |
| Bc7Tables.AnchorsIn | core/utils/bcn.ts:1399-1411 | the number of anchors among the first k texels is at most k |
| Bc7Tables.AnchorBit | core/utils/bcn.ts:1406 | for a valid entry, bit 7 is set exactly when it is one of the anchor codes 0x80, 0x81 or 0x82 |
| Bc7Tables.RowAnchorBits | core/utils/bcn.ts:430-1206 | the anchor bits of a table row count its anchors |
| Bc7Tables.AnchorsInTable | core/utils/bcn.ts:430-1206 | a well-formed n-subset table has exactly n anchor texels, one per subset |
| Bc7Tables.AnchorsInRows | core/utils/bcn.ts:1399-1411 | the anchors of a table are the sum of the anchors of its four rows |
| Bc7Tables.PartitionSetsWellFormed | core/utils/bcn.ts:430-1206 | each of the 64 two-subset and 64 three-subset partition tables is 4 x 4, uses only subsets below its subset count, and has exactly one anchor per subset |
| Bc7Tables.TwoSubsetsWellFormed | core/utils/bcn.ts:431-817 | every two-subset partition table is well formed for 2 subsets |
| Bc7Tables.ThreeSubsetsWellFormed | core/utils/bcn.ts:818-1205 | every three-subset partition table is well formed for 3 subsets |
| Bc7Layout.LeadingZeros | core/utils/bcn.ts:1267-1268 | counting clear bits from bit m stops at 8 at the latest and never goes back |
| Bc7Layout.ModeOf | core/utils/bcn.ts:1267-1268 | the mode is the number of clear bits before the first set bit, at most 8 |
| Bc7Layout.ModeIsFirstSetBit | core/utils/bcn.ts:1267-1268 | the mode is m exactly when bits 0 .. m-1 are clear and, for m < 8, bit m is set |
| Bc7Layout.LeadingZerosAt | core/utils/bcn.ts:1267-1268 | counting from s gives m exactly when bits s .. m-1 are clear and, for m < 8, bit m is set |
| Bc7Layout.Subsets | core/utils/bcn.ts:1280-1285 | every mode has 1, 2 or 3 subsets |
| Bc7Layout.HeaderOf | core/utils/bcn.ts:1280-1296 | the header after the mode bits: the partition is a 4-bit (mode 0) or 6-bit field and 0 in modes without partitions; rotation is 2 bits in modes 4 and 5 and 0 otherwise; the selection bit exists only in mode 4 |
| Bc7Layout.EndpointCount | core/utils/bcn.ts:1287 | two endpoints per subset: 2 to 6 |
| Bc7Layout.PBitFlag | core/utils/bcn.ts:1356 | the p-bit flag taken from 0b11001011 is 0 or 1 |
| Bc7Layout.IndexBits | core/utils/bcn.ts:1383 | primary indices have 3 bits in modes 0 and 1, 4 in mode 6, 2 otherwise |
| Bc7Layout.IndexBits2 | core/utils/bcn.ts:1384 | secondary indices have 3 bits in mode 4, 2 in mode 5, none otherwise |
| Bc7Layout.PartitionTableWellFormed | core/utils/bcn.ts:1401 | the table the decoder consults, the one-subset placeholder or a partition table, is 4 x 4, has one anchor per subset, an anchor at texel (0, 0), and subsets below the mode's count |
| Bc7Layout.SingleSubsetShape | core/utils/bcn.ts:1401 | the one-subset placeholder (128 at (0, 0), 0 elsewhere) is 4 x 4, marks (0, 0) as an anchor and puts every texel in subset 0 |
| Bc7Layout.SingleSubsetAnchors | core/utils/bcn.ts:1401 | the one-subset placeholder holds exactly one anchor |
| Bc7Layout.PartitionSetsShaped | core/utils/bcn.ts:1401 | every table the decoder can consult is 4 x 4 |
| Bc7Layout.IndexWidth | core/utils/bcn.ts:1403-1410 | a primary index is stored with one bit less exactly at an anchor texel |
| Bc7Layout.IndexOffsetAnchors | core/utils/bcn.ts:1399-1411 | the first k primary indices take k times the index width, less one bit per anchor among them |
| Bc7Layout.IndexStreamBits | core/utils/bcn.ts:1399-1411 | the 16 primary indices take 16 times the index width less the number of subsets |
| Bc7Layout.FirstIndexShort | core/utils/bcn.ts:1401-1410 | texel (0, 0) is always an anchor, so its primary index is one bit short |
| Bc7Layout.Index2OffsetIs | core/utils/bcn.ts:1435 | the secondary indices before texel k > 0 take k times their width less one bit, the first being one bit short |
| Bc7Layout.BlockIs128Bits | core/utils/bcn.ts:1267-1435 | in every mode and partition, the mode, header, endpoints, p-bits and both index streams fill exactly the 128 bits of a block |
| Bc7Layout.IndexStartOf | core/utils/bcn.ts:1267-1352 | the primary indices start at bit 83, 82, 99, 98, 50, 66, 65 or 98 for modes 0 to 7 |
| Bc7Endpoints.OrZero | core/utils/bcn.ts:1338-1348 | or-ing in 0 changes nothing |
| Bc7Endpoints.OrDisjoint | core/utils/bcn.ts:1338-1362 | or-ing a value below 2^n into a multiple of 2^n is adding it |
| Bc7Endpoints.OrBound | core/utils/bcn.ts:1338-1362 | or-ing two values below 2^n stays below 2^n |
| Bc7Endpoints.ExpandBelow256 | core/utils/bcn.ts:1360-1371 | expanding a p-bit value, p <= 8, to 8 bits gives a byte |
| Bc7Endpoints.ExpandReplicates | core/utils/bcn.ts:1360-1371 | expanding a p-bit value, 4 <= p <= 8, shifts it to the top and fills the low bits with its own top bits, so shifting back recovers it |
| Bc7Endpoints.PBitOf | core/utils/bcn.ts:1332-1351 | the p-bit of an endpoint is 0 or 1 |
| Bc7Endpoints.Precision | core/utils/bcn.ts:1356-1366 | a component's precision, stored bits plus the p-bit, is at most 8 |
| Bc7Endpoints.PBitFlagOf | core/utils/bcn.ts:1356 | bit mode of 0b11001011 is set exactly in the modes that have p-bits |
| Bc7Endpoints.Endpoint | core/utils/bcn.ts:1354-1380 | every fully decoded endpoint component is a byte |
| Bc7Endpoints.WithPBitBelow | core/utils/bcn.ts:1323-1352 | a component with its p-bit appended fits its precision |
| Bc7Endpoints.EndpointReplicatesStored | core/utils/bcn.ts:1354-1371 | every stored component has 5 to 8 bits; the decoded byte is it shifted to the top with its top bits replicated below, and shifting back recovers it |
| Bc7Endpoints.StoredIsWithPBit | core/utils/bcn.ts:1323-1371 | the value the expansion works on is the component with its p-bit, within its precision |
| Bc7Endpoints.OpaqueAlpha | core/utils/bcn.ts:1374-1380 | an endpoint's alpha is 255 exactly when the mode stores no alpha or the stored alpha is all ones |
| Bc7Endpoints.Updated | core/utils/bcn.ts:1311-1317 | writing one endpoint component changes that entry only |
| Bc7Endpoints.ColorPosNext | core/utils/bcn.ts:1309-1313 | each colour component read advances the bit position by the mode's colour width |
| Bc7Endpoints.AlphaPosNext | core/utils/bcn.ts:1315-1319 | each alpha component read advances the bit position by the mode's alpha width |
| Bc7Endpoints.ReadEndpoints | core/utils/bcn.ts:1309-1319 | reads R, G and B of every endpoint, then alpha when the mode has it, each at its bit position; unread components stay 0 and the reader ends at the p-bits |
| Bc7Endpoints.ReadComponent | core/utils/bcn.ts:1309-1313 | one pass of the colour loop reads component i of every endpoint and keeps the others |
| Bc7Endpoints.ApplyPBits | core/utils/bcn.ts:1321-1352 | in p-bit modes every component is shifted left and gets its p-bit (shared per subset in mode 1, one per endpoint otherwise); other modes are unchanged; the reader ends at the indices |
| Bc7Endpoints.SharedPBits | core/utils/bcn.ts:1332-1342 | mode 1 reads two p-bits and ors the first into the RGB of endpoints 0 and 1, the second into endpoints 2 and 3 |
| Bc7Endpoints.ShiftEndpoints | core/utils/bcn.ts:1324-1329 | every component is doubled |
| Bc7Endpoints.OrPBits | core/utils/bcn.ts:1343-1350 | modes with one p-bit per endpoint read it and or it into all four components |
| Bc7Endpoints.ExpandEndpoints | core/utils/bcn.ts:1354-1380 | every component is expanded to 8 bits from its precision and alpha is 255 when the mode has none |
| Bc7Endpoints.ExpandComponent | core/utils/bcn.ts:1360-1362 | shifting left by 8 - j and or-ing in the value shifted right by j is Expand |
| Bc7.Interpolate | core/utils/bcn.ts:1414-1416 | (a(64 - w) + bw + 32) >>> 6 lies between the two endpoints, is a at weight 0 and b at weight 64 |
| Bc7.MixBetween | core/utils/bcn.ts:1414-1416 | the weighted blend of two values lies between them and hits each at the extreme weights |
| Bc7.MixRising | core/utils/bcn.ts:1414-1416 | the blend of a <= b lies in [a, b], a at weight 0 and b at weight 64 |
| Bc7.MeanBounds | core/utils/bcn.ts:1415 | rounding a weighted sum by (s + 32) >>> 6 stays between the endpoints |
| Bc7.Endpoints | core/utils/bcn.ts:1307-1380 | the decoded endpoint table: six endpoints of four byte-sized components |
| Bc7.PartitionTablePartitions | core/utils/bcn.ts:1401-1422 | every table the decoder consults gives each texel a subset below the mode's subset count |
| Bc7.PrimaryIndex | core/utils/bcn.ts:1403-1410 | a primary index picks an entry of the mode's weight table |
| Bc7.PrimaryIndices | core/utils/bcn.ts:1390-1412 | the primary indices form four rows |
| Bc7.PrimaryIndexList | core/utils/bcn.ts:1399-1412 | pass 1 reads sixteen primary indices |
| Bc7.PrimaryIndexListAt | core/utils/bcn.ts:1403-1410 | entry k of the list is the primary index of texel k |
| Bc7.PrimaryIndicesRow | core/utils/bcn.ts:1399-1412 | row i of the table holds texels 4i to 4i + 3 in order |
| Bc7.PrimaryIndicesAt | core/utils/bcn.ts:1390-1412 | indices[i][j] is the primary index of texel 4i + j |
| Bc7.PrimaryIndicesTable | core/utils/bcn.ts:1390-1412 | the primary indices are a 4 x 4 table of valid weight positions |
| Bc7.SecondaryIndex | core/utils/bcn.ts:1435 | a secondary index picks an entry of the secondary weight table |
| Bc7.BlendBetween | core/utils/bcn.ts:1429-1451 | every blended channel lies between that channel of the two endpoints |
| Bc7.BlendExtremes | core/utils/bcn.ts:1429-1451 | index 0 gives the first endpoint and the last index the second |
| Bc7.RotatedFrom | core/utils/bcn.ts:1453-1466 | each output channel comes from one of the four channels |
| Bc7.RotateChannels | core/utils/bcn.ts:1453-1466 | rotation 1, 2 or 3 swaps alpha with red, green or blue, any other value swaps nothing; rotating twice restores the texel |
| Bc7.BlockTexels | core/utils/bcn.ts:1418-1470 | a block decodes to 16 texels |
| Bc7.DecodeBlock | core/utils/bcn.ts:1262-1470 | every 16-byte block decodes to 16 texels |
| Bc7.TexelAtBetween | core/utils/bcn.ts:1418-1466 | each channel of a texel lies between the matching channel of its subset's two endpoints, the channel the rotation took it from |
| Bc7.TexelBetweenEndpoints | core/utils/bcn.ts:1262-1470 | in a block with a valid mode, each channel of texel k lies between the decoded endpoints of its subset, for the channel the rotation names |
| Bc7.NoModeIffZeroByte | core/utils/bcn.ts:1267-1278 | no mode is found exactly when the first byte is 0 (or missing), and such a block decodes to transparent black |
| Bc7.UintZero | core/utils/bcn.ts:1241-1244 | an n-bit read is 0 exactly when all its bits are clear |
| Bc7.Put | core/utils/bcn.ts:1257-1263 | storing a byte keeps the image size |
| Bc7.PutTexel | core/utils/bcn.ts:1257-1263 | storing a texel keeps the image size |
| Bc7.PaintTile | core/utils/bcn.ts:1419-1470 | storing texels keeps the image size |
| Bc7.Tile | core/utils/bcn.ts:1419-1470 | storing a block's 16 texels keeps the image size |
| Bc7.BlockImage | core/utils/bcn.ts:1255-1471 | decoding a block into an image keeps its size |
| Bc7.PutTexelFrame | core/utils/bcn.ts:1257-1263 | storing a texel changes only its own four bytes |
| Bc7.PaintTileFrame | core/utils/bcn.ts:1419-1470 | texels that do not land on a byte leave it as it was |
| Bc7.TilePositionInjective | core/utils/bcn.ts:1468 | in an image at least 4 wide, the 16 texels of a block land on 16 distinct pixels |
| Bc7.TileWritesOwnPixels | core/utils/bcn.ts:1419-1470 | a block changes only the pixels of its tile, and each pixel of the tile holds its texel |
| Bc7.TileStoresTexel | core/utils/bcn.ts:1468 | the pixel of texel k holds texel k |
| Bc7.WriteImage | core/utils/bcn.ts:1257-1263 | writes r, g, b, a at pixel (y + yy) * width + (x + xx) and nothing else |
| Bc7.TexelNumber | core/utils/bcn.ts:1468 | texel 4i + j is written at row y + j, column x + i: the texel from pass (i, j) lands transposed |
| Bc7.PaintStep | core/utils/bcn.ts:1419-1470 | writing texel (i, j) extends the painted tile by one texel |
| Bc7.ReadMode | core/utils/bcn.ts:1267-1268 | the mode loop reads up to the first set bit and yields ModeOf, consuming mode + 1 bits (8 when there is none) |
| Bc7.PartitionEntry | core/utils/bcn.ts:1401 | the partition entry looked up for texel (i, j) |
| Bc7.ReadIndices | core/utils/bcn.ts:1390-1412 | pass 1 reads the 16 primary indices, anchors one bit short, and leaves the reader at the secondary indices |
| Bc7.ReadIndexRow | core/utils/bcn.ts:1400-1411 | reads row i of primary indices: the indices of texels 4i to 4i + 3 in order, ending at the bit offset after texel 4i + 3 |
| Bc7.ReadIndex | core/utils/bcn.ts:1403-1410 | reads the primary index of texel k with the width its anchor bit gives, and moves the cursor just past it |
| Bc7.ReadIndexStep | core/utils/bcn.ts:1401-1410 | one inner pass-1 turn appends the primary index of texel 4i + j and moves the cursor past it |
| Bc7.ReadHeader | core/utils/bcn.ts:1280-1296 | reads the partition, rotation and selection bits of the mode and leaves the reader at the endpoints |
| Bc7.DecodeTexel | core/utils/bcn.ts:1421-1466 | decodes texel (i, j): reads its secondary index when the mode has one, blends and rotates |
| Bc7.BlendTexel | core/utils/bcn.ts:1421-1451 | reads the secondary index when the mode has one and blends the subset's endpoints into the texel before rotation |
| Bc7.SelectBlend | core/utils/bcn.ts:1429-1451 | picks the weights and index for colour and alpha by the mode's secondary index and the selection bit |
| Bc7.UnrotatedIs | core/utils/bcn.ts:1421-1451 | the texel before rotation is the blend of its subset's endpoints with the indices the selection bit assigns |
| Bc7.ReadIndex2 | core/utils/bcn.ts:1435 | reads the secondary index of texel k, one bit short for texel 0 |
| Bc7.WriteTexels | core/utils/bcn.ts:1418-1470 | pass 2 writes every texel of the block into its tile |
| Bc7.WriteTexelRow | core/utils/bcn.ts:1420-1469 | writes the four texels of one pass-2 row |
| Bc7.WriteTexel | core/utils/bcn.ts:1421-1468 | decodes texel (i, j) and paints it, extending the painted tile by one texel |
| Bc7.ClearTile | core/utils/bcn.ts:1271-1278 | a block without a valid mode writes transparent black over its tile |
| Bc7.DecompressBlock | core/utils/bcn.ts:1255-1471 | decoding a block writes the tile of BlockImage for the block's 16 bytes and changes nothing else |
| Bc7.ClearRow | core/utils/bcn.ts:1272-1276 | one row of the mode-less block clear paints four more texels transparent black |
| Bc7.DecodeTexels | core/utils/bcn.ts:1280-1470 | after the mode bits, a block's header, endpoints and indices decode to BlockImage |
| Bc7.ReadColours | core/utils/bcn.ts:1307-1380 | reads and decodes the endpoints, leaving the reader at the primary indices |
| Bc7.RealLoopBound | core/utils/bcn.ts:1474-1481 | i < n / 4 in floating point holds exactly for i below ceil(n / 4) |
| Bc7.BlockTexelsOf | core/utils/bcn.ts:1479-1483 | block b of the data decodes to 16 texels |
| Bc7.TileOfBlock | core/utils/bcn.ts:1479-1483 | the tile function gives each block's texels |
| Bc7.RowImage | core/utils/bcn.ts:1481-1484 | painting a row of blocks keeps the image size |
| Bc7.RowImageStep | core/utils/bcn.ts:1481-1484 | painting the next block of a row extends the row image |
| Bc7.RowsImage | core/utils/bcn.ts:1480-1485 | the image has width * height * 4 bytes |
| Bc7.DecodedImage | core/utils/bcn.ts:1473-1488 | the decoded image has width * height * 4 bytes |
| Bc7.TileAt | core/utils/bcn.ts:1256-1262 | storing a block's texels at (4i, 4j) changes exactly the pixels with X / 4 == i and Y / 4 == j; channel c of pixel (X, Y) becomes channel c of texel 4 * (X % 4) + Y % 4, since `writeImage(j, i, …)` stores texel (i, j) transposed |
| Bc7.RowImageAt | core/utils/bcn.ts:1481-1484 | once the first i blocks of block row j are painted, a pixel of that row with X / 4 < i holds its texel of block `first + X / 4`; every other byte is unchanged |
| Bc7.RowsImageStepIn | core/utils/bcn.ts:1480-1485 | painting block row j - 1 gives each pixel of that row its texel of block (Y / 4) * (width / 4) + X / 4 |
| Bc7.RowsImageStepOut | core/utils/bcn.ts:1480-1485 | painting block row j - 1 leaves the pixels of every other row unchanged |
| Bc7.RowsImageAt | core/utils/bcn.ts:1480-1485 | after block rows 0 to j - 1, a pixel with Y / 4 < j holds its texel of block (Y / 4) * (width / 4) + X / 4, and every other byte is still 0 |
| Bc7.DecodedImageAt | core/utils/bcn.ts:1473-1488 | with width and height multiples of 4, byte c of pixel (X, Y) of the decompressed image is channel c of texel 4 * (X % 4) + Y % 4 of block (Y / 4) * (width / 4) + X / 4 |
| Bc7.Decompress | core/utils/bcn.ts:1473-1488 | returns a fresh image equal to DecodedImage: block j * across + i painted at (4i, 4j) in row-major block order |
| Bc7.NextRowStart | core/utils/bcn.ts:1480-1484 | the next block row starts across blocks later |
| Bc7.DecompressRow | core/utils/bcn.ts:1481-1484 | decodes one row of blocks and advances the range by 16 bytes per block |
| Bc7.DecompressOne | core/utils/bcn.ts:1482 | decodes one block into its tile |
| Bc7.DecompressStep | core/utils/bcn.ts:1482-1483 | one inner-loop turn paints the next block of the row and advances the range by 16 bytes |
| Bc7.SizeIsBlockData | core/utils/bcn.ts:1250-1254 | for sizes below 4 or multiples of 4, BC7.size is 16 bytes per 4 x 4 block |

## Left out

- File and host I/O: the loaders take the file's bytes as a `seq` of bytes. `ArrayBuffer`, `DataView` and the typed-array views are modelled by what they read, not as host objects.
- Floating point: `BufferRange.getFloat16` and `getFloat32`, and every reader of float data, are not part of this model.
- Text: `getString`, BNK's name entries (table 4) and the BNK header's four-character magic are not read. No property of the core depends on them.
- `BufferRange`'s typed-array getters other than `getUint8Array` are not modelled. Only the 8-bit view is used by the core.
- `console.warn` for an unknown BNK SBlk version is a log line with no effect on the result. `Bnk.LoadSBlk` models the zeroed counts that follow it.
- Bnk.SortByOffset: models `Array.prototype.sort` as a stable insertion sort. The model proves the result is sorted by offset and a permutation of its input. The engine's actual algorithm is not modelled, and offsets are distinct here, so every stable sort gives the same order.
- Xtea.Encrypt, Xtea.Decrypt, Xtea.DoBlocks, Xtea.Processed: require at most 2^21 rounds. `sum = DELTA * rounds` is computed in float64, which is exact only below that bound, so larger round counts are not modelled.
- Xtea.Encipher, Xtea.Decipher: carry the same round bound for the same reason. Their `rounds` is also a `nat`: a negative round count, which the source accepts and wraps through `>>> 0`, is not modelled.
- Pct.ParseTransfers, Pct.ReadHeader, Pct.ScanTransfer: require a little-endian range that lies inside its buffer. That is how `PCT.load`, their only caller, builds it.
- Pct.FlipY: requires an RGBA buffer of exactly 4·width·height bytes. `PCT.load`, its only caller, allocates it that way.
- Pct.Build: requires the range to span the whole little-endian file, as `PCT.load` constructs it.
- Pct.Texture: the mipmap's constant `type: "RGBA"` tag is not carried. Every mipmap `PCT.load` builds is RGBA.
- Fnt.Mipmap: the mipmap's constant `type: "Gray4"` tag is not carried. Every mipmap `FNT.load` builds is Gray4.
- Fnt.LoadImage, Fnt.LoadImageData, Fnt.ScanCharset, Fnt.ScanGlyphs: require a range that starts at offset 0, as the one `FNT.load` builds over the whole file.
- Fnt.Load: `FNT.load` is `async`. The model is the synchronous computation it performs, since it never awaits anything.
- Lzss.Decompressed: `expected_size` is a parameter with no default. The source's default of 0 is the no-truncation case `Lzss.Truncate` states.
- JavaScript shifts and masks on values known to fit in 32 bits are written as division and remainder by powers of two. Where a signed shift can see bit 31 set, the model states the signed result explicitly.
- Bc7Bits.FromBits: reads a bit list by doubling, the reference the bit reader's `getUint` fold is proved against. It is not a separate source operation.
- Bc7Endpoints.Or: models JavaScript `|` only on the non-negative operands the decoder passes it.
- Bc7.Interpolate: requires a weight of at most 64, which every entry of the `aWeight` tables meets (`Bc7Tables.Weights`).
- Bc7.DecompressBlock: looks up the block's `partition_sets` row once, not once per texel. The entries read are the same.
- Bc7.Size: is stated for every size but proved equal to the decoded data only when each dimension is below 4 or a multiple of 4. For other sizes the source's float division gives a fractional byte count.
- Gnm: register 5 (`basearray`, `lastarray`) and register 6 bits 0-19 (`minlodwarn`, `counterbankid`) have no getter in the source and are not decoded.
- Gnm.Load: returns `Failure(RangeError)` where the source's `getUint32` would throw a `RangeError`.
- Gnm.DecodeEncode: is one-directional. `Encode` then `Decode` gives back every field, but a register set holding bits no getter reads does not survive `Decode` then `Encode`.
- Gnm.GnmTexture.MType0, Gnm.GnmTexture.Pow2Pad, Gnm.GnmTexture.MType2, Gnm.GnmTexture.Atc: single-bit getters with no contract of their own. They are covered by `Gnm.DecodeEncode` and by the two flag lemmas under Findings.
- Gnm.GnmTexture.Pow2PadCorrected, Gnm.GnmTexture.MType2Corrected, Gnm.GnmTexture.AtcCorrected: the corrected register-3 flag getters have no contract of their own. `Gnm.Register3Decodes` and `Gnm.DecodeEncode` state what they read back.
- Gnm.GnmTexture.LodHdwCntEn, Gnm.GnmTexture.CompressionEn, Gnm.GnmTexture.AlphaIsOnMsb, Gnm.GnmTexture.ColorTransform, Gnm.GnmTexture.AltTileMode: the register-6 flag getters (core/formats/gnf/gnm.ts:227-250) have no contract of their own. `Gnm.Register6Digits` and `Gnm.Register6Decodes` state which bit each reads.
- Concurrency, the VS Code webviews, the three.js scene and the command-line scripts are outside the core.

## Findings

| source | as written | input that shows it | evidently intended | confidence | as-written member | corrected member |
|---|---|---|---|---|---|---|
| core/formats/gnf/gnm.ts:186-199 | `pow2pad`, `mtype2` and `atc` read bits 25-27 of register 1, which are the top bit of `dataFormat` and the low two bits of `numFormat` | registers `[0,0,0,0x0E000000,0,0,0,0]`: all three getters return false | read bits 25-27 of register 3, as the comments on the getters say | high, not executed | Gnm.FlagsReadFromWrongRegister | Gnm.GnmTexture.Pow2PadCorrected |
| core/utils/range.ts:128-134 | `getUint40` shifts the 32-bit word left by 8 with the 32-bit `<<`, which drops its top byte and can turn negative | bytes `00 00 00 01 00` read little-endian: returns 0 instead of 2^32 | the 40-bit value, the word times 2^8 plus the fifth byte | high, not executed | Range.GetUint40LosesTopByte | Range.BufferRange.GetUint40Corrected |
| core/utils/range.ts:136-142 | `getUint48` shifts the 16-bit word by 32 with `<<`, which JavaScript reduces to a shift by 0 | bytes `00 00 00 00 00 01`: returns 1 instead of 2^32 | the 48-bit value with the 16-bit word above the 32-bit word | high, not executed | Range.GetUint48AddsHighWordUnshifted | Range.BufferRange.GetUint48Corrected |
| core/formats/fnt/index.ts:134 | the glyph loop's `charset[i] === 0` stop can never fire: the charset holds no 0 and an index past its end reads `undefined` | the 32-byte file `01 00 00 00 01 00 00 00 1C 00 00 00 1C 00 00 00`, eight bytes 00, then `20 00 00 00 00 00 00 00` (little-endian, one glyph, charset and offset table at 28, no image): `FNT.load` returns an empty charset and one glyph | stop the glyph scan at the end of the charset | medium, not executed | Fnt.GlyphWithoutCodepoint | Fnt.GlyphsCorrected |
