/** XTEA with ECB, CBC and CTR chaining (NIST SP 800-38A sections 6.1, 6.2
    and 6.5) and PKCS#7 padding (RFC 5652 section 6.3), on little-endian
    32-bit words. */
module Xtea {
  import opened Wrappers
  import opened Bytes

  const ROUNDS: nat := 32
  const DELTA: nat := 0x9E37_79B9
  /** `DELTA * rounds` is an exact double, so `(DELTA * rounds) >>> 0` is
      the product modulo 2^32, only while it stays below 2^53. */
  const MAX_ROUNDS: nat := 0x20_0000

  type Word = w: int | 0 <= w < TWO_32

  /** The two halves `v[0]`, `v[1]` of a 64-bit block. */
  datatype Block = Block(y: Word, z: Word)

  // ----------------------------------------------------------------- rounds

  /** The value of `sum` after i passes of `sum = (sum + DELTA) >>> 0` from 0;
      on the non-negative sum `>>> 0` is the remainder mod 2^32. */
  function SumAt(i: nat): Word
  {
    if i == 0 then 0 else (SumAt(i - 1) + DELTA) % TWO_32
  }

  /** After i steps `sum` is the product i * DELTA modulo 2^32, which is how
      `limit` is computed. */
  lemma {:induction false} SumClosedForm(i: nat)
    ensures SumAt(i) == (i * DELTA) % TWO_32
  {
    if i > 0 {
      SumClosedForm(i - 1);
      ProductStep(i - 1);
    }
  }

  /** Adding DELTA to i * DELTA modulo 2^32 gives (i + 1) * DELTA modulo 2^32. */
  lemma ProductStep(i: nat)
    ensures ToUint32((i * DELTA) % TWO_32 + DELTA) == ((i + 1) * DELTA) % TWO_32
  {
    var s := (i * DELTA) % TWO_32;
    var q := (i * DELTA) / TWO_32;
    var t := (s + DELTA) / TWO_32;
    assert (i + 1) * DELTA == (q + t) * TWO_32 + ToUint32(s + DELTA);
    DivModUnique((i + 1) * DELTA, TWO_32, q + t, ToUint32(s + DELTA));
  }

  /** `(((z << 4) >>> 0) ^ (z >>> 5)) + z`. */
  function Mix(z: Word): int {
    JsXor((z * 16) % TWO_32, z / 32) + z
  }

  /** The amount one half-round adds to the other word:
      `Mix(z) ^ (sum + key)`. */
  function Feistel(z: Word, sum: Word, key: Word): int {
    JsXor(Mix(z), sum + key)
  }

  /** The key word for the first half-round, `k[sum & 3]`. */
  function LowKey(k: seq<Word>, sum: Word): Word
    requires |k| == 4
  {
    k[sum % 4]
  }

  /** The key word for the second half-round, `k[(sum >>> 11) & 3]`; the
      signed `>>` of the decipher loop selects the same two bits. */
  function HighKey(k: seq<Word>, sum: Word): Word
    requires |k| == 4
  {
    k[(sum / 0x800) % 4]
  }

  /** `(sum >> 11) & 3` in `decipher`: the signed shift of the int32 view of
      sum keeps bits 11 and 12, so it picks the same key word as the
      unsigned `>>>` of `encipher`. */
  lemma SignedShiftKey(sum: Word)
    ensures (ToInt32(sum) / 0x800) % 4 == (sum / 0x800) % 4
  {
    if sum >= 0x8000_0000 {
      DivModUnique(sum - TWO_32, 0x800, sum / 0x800 - 0x20_0000, sum % 0x800);
      DivModUnique(sum / 0x800 - 0x20_0000, 4, sum / 0x800 / 4 - 0x8_0000, (sum / 0x800) % 4);
    }
  }

  /** The amount a half-round adds to one word, as a function of the other
      word and the current `sum`. */
  type HalfRound = (Word, Word) -> int

  /** The first half-round of the cipher: `Mix(z) ^ (sum + k[sum & 3])`. */
  function LowHalf(k: seq<Word>): HalfRound
    requires |k| == 4
  {
    (z: Word, sum: Word) => Feistel(z, sum, LowKey(k, sum))
  }

  /** The second half-round: `Mix(y) ^ (sum + k[(sum >>> 11) & 3])`. */
  function HighHalf(k: seq<Word>): HalfRound
    requires |k| == 4
  {
    (y: Word, sum: Word) => Feistel(y, sum, HighKey(k, sum))
  }

  /** Round i of the cipher, which starts with `sum` = SumAt(i). */
  function EncipherRound(b: Block, f: HalfRound, g: HalfRound, i: nat): (r: Block)
  {
    var y := ToUint32(b.y + f(b.z, SumAt(i)));
    var z := ToUint32(b.z + g(y, SumAt(i + 1)));
    Block(y, z)
  }

  /** The decipher loop's body when it starts with `sum` = SumAt(i + 1). */
  function DecipherRound(b: Block, f: HalfRound, g: HalfRound, i: nat): (r: Block)
  {
    var z := ToUint32(b.z - g(b.y, SumAt(i + 1)));
    var y := ToUint32(b.y - f(z, SumAt(i)));
    Block(y, z)
  }

  /** n rounds of the cipher. */
  function Enciphered(b: Block, f: HalfRound, g: HalfRound, n: nat): Block
    decreases n
  {
    if n == 0 then b else EncipherRound(Enciphered(b, f, g, n - 1), f, g, n - 1)
  }

  /** n rounds of the inverse cipher, starting from `sum` = SumAt(n). */
  function Deciphered(b: Block, f: HalfRound, g: HalfRound, n: nat): Block
    decreases n
  {
    if n == 0 then b else Deciphered(DecipherRound(b, f, g, n - 1), f, g, n - 1)
  }

  /** Adding and then subtracting the same amount modulo 2^32. */
  lemma AddThenSub(x: Word, f: int)
    ensures ToUint32(ToUint32(x + f) - f) == x
    ensures ToUint32(ToUint32(x - f) + f) == x
  {
    var q1 := (x + f) / TWO_32;
    DivModUnique(x - q1 * TWO_32, TWO_32, -q1, x);
    var q2 := (x - f) / TWO_32;
    DivModUnique(x - q2 * TWO_32, TWO_32, -q2, x);
  }

  /** One round of the inverse cipher undoes one round of the cipher, and
      the other way round. */
  lemma RoundInverse(b: Block, f: HalfRound, g: HalfRound, i: nat)
    ensures DecipherRound(EncipherRound(b, f, g, i), f, g, i) == b
    ensures EncipherRound(DecipherRound(b, f, g, i), f, g, i) == b
  {
    DecipherUndoesRound(b, f, g, i);
    EncipherUndoesRound(b, f, g, i);
  }

  lemma DecipherUndoesRound(b: Block, f: HalfRound, g: HalfRound, i: nat)
    ensures DecipherRound(EncipherRound(b, f, g, i), f, g, i) == b
  {
    var e := EncipherRound(b, f, g, i);
    AddThenSub(b.z, g(e.y, SumAt(i + 1)));
    AddThenSub(b.y, f(b.z, SumAt(i)));
  }

  lemma EncipherUndoesRound(b: Block, f: HalfRound, g: HalfRound, i: nat)
    ensures EncipherRound(DecipherRound(b, f, g, i), f, g, i) == b
  {
    var d := DecipherRound(b, f, g, i);
    AddThenSub(b.y, f(d.z, SumAt(i)));
    AddThenSub(b.z, g(b.y, SumAt(i + 1)));
  }

  /** Deciphering with the same half-rounds and round count undoes
      enciphering. */
  lemma {:induction false} DecipherEnciphered(b: Block, f: HalfRound, g: HalfRound, n: nat)
    ensures Deciphered(Enciphered(b, f, g, n), f, g, n) == b
    decreases n
  {
    if n > 0 {
      DecipherEnciphered(b, f, g, n - 1);
      RoundInverse(Enciphered(b, f, g, n - 1), f, g, n - 1);
    }
  }

  /** Enciphering undoes deciphering: the cipher is a permutation of blocks. */
  lemma {:induction false} EncipherDeciphered(b: Block, f: HalfRound, g: HalfRound, n: nat)
    ensures Enciphered(Deciphered(b, f, g, n), f, g, n) == b
    decreases n
  {
    if n > 0 {
      var d := DecipherRound(b, f, g, n - 1);
      EncipherDeciphered(d, f, g, n - 1);
      RoundInverse(b, f, g, n - 1);
    }
  }

  /** `sum = (sum + DELTA) >>> 0` steps from SumAt(i) to SumAt(i + 1), and
      `(sum - DELTA) >>> 0` steps back. */
  lemma SumStep(i: nat)
    ensures ToUint32(SumAt(i) + DELTA) == SumAt(i + 1)
    ensures ToUint32(SumAt(i + 1) - DELTA) == SumAt(i)
  {
    AddThenSub(SumAt(i), DELTA);
  }

  /** DELTA is odd, so the first 2^32 multiples of it are distinct modulo
      2^32: the loops stop after exactly `rounds` rounds. */
  lemma SumInjective(i: nat, j: nat)
    requires i < TWO_32 && j < TWO_32 && SumAt(i) == SumAt(j)
    ensures i == j
  {
    SumClosedForm(i);
    SumClosedForm(j);
    var qi, qj := (i * 0x9E37_79B9) / 0x1_0000_0000, (j * 0x9E37_79B9) / 0x1_0000_0000;
    assert i * 0x9E37_79B9 == qi * 0x1_0000_0000 + SumAt(i);
    assert j * 0x9E37_79B9 == qj * 0x1_0000_0000 + SumAt(j);
    var e, q := i - j, qi - qj;
    assert e * 0x9E37_79B9 == q * 0x1_0000_0000;
    Cancel(e, q);
    MultipleOfModulus(e, q * 0x144C_BC89 - e * 0xC8B_C280, 0x1_0000_0000);
  }

  /** Multiplying e * DELTA = q * 2^32 by the inverse of DELTA. */
  lemma Cancel(e: int, q: int)
    requires e * 0x9E37_79B9 == q * 0x1_0000_0000
    ensures e == (q * 0x144C_BC89 - e * 0xC8B_C280) * 0x1_0000_0000
  {
    assert 0x9E37_79B9 * 0x144C_BC89 == 1 + 0xC8B_C280 * 0x1_0000_0000;
    assert e * 0x9E37_79B9 * 0x144C_BC89 == q * 0x1_0000_0000 * 0x144C_BC89;
  }

  lemma MultipleOfModulus(d: int, k: int, m: int)
    requires m > 0 && -m < d < m && d == k * m
    ensures d == 0
  {
    if k >= 1 {
      MulAtLeast(k, m);
    } else if k <= -1 {
      MulAtLeast(-k, m);
    }
  }

  // ------------------------------------------------- encipher and decipher

  /** The cipher under key k: `Mix(z) ^ (sum + k[sum & 3])` for the first
      half-round and `Mix(y) ^ (sum + k[(sum >>> 11) & 3])` for the second. */
  function Cipher(b: Block, k: seq<Word>, rounds: nat): Block
    requires |k| == 4
  {
    Enciphered(b, LowHalf(k), HighHalf(k), rounds)
  }

  function InverseCipher(b: Block, k: seq<Word>, rounds: nat): Block
    requires |k| == 4
  {
    Deciphered(b, LowHalf(k), HighHalf(k), rounds)
  }

  /** `decipher(encipher(v, k, r), k, r)` gives v back, for every key and
      round count, and the other way round. */
  lemma CipherRoundTrip(b: Block, k: seq<Word>, rounds: nat)
    requires |k| == 4
    ensures InverseCipher(Cipher(b, k, rounds), k, rounds) == b
    ensures Cipher(InverseCipher(b, k, rounds), k, rounds) == b
  {
    DecipherEnciphered(b, LowHalf(k), HighHalf(k), rounds);
    EncipherDeciphered(b, LowHalf(k), HighHalf(k), rounds);
  }

  /** `encipher(v, k, rounds)`: overwrites v with its cipher under k. */
  method Encipher(v: array<Word>, k: seq<Word>, rounds: nat)
    requires v.Length == 2 && |k| == 4 && rounds <= MAX_ROUNDS
    modifies v
    ensures Block(v[0], v[1]) == Cipher(Block(old(v[0]), old(v[1])), k, rounds)
  {
    EncipherLoop(v, LowHalf(k), HighHalf(k), rounds);
  }

  /** `(DELTA * rounds) >>> 0`: the value of `sum` after `rounds` rounds. */
  method RoundsSum(rounds: nat) returns (sum: Word)
    ensures sum == SumAt(rounds)
  {
    sum := (DELTA * rounds) % TWO_32;
    SumClosedForm(rounds);
  }

  /** The loop of `encipher`, with its two half-round expressions passed as
      f and g: it runs rounds until `sum` reaches `(DELTA * rounds) >>> 0`. */
  method EncipherLoop(v: array<Word>, f: HalfRound, g: HalfRound, rounds: nat)
    requires v.Length == 2 && rounds <= MAX_ROUNDS
    modifies v
    ensures Block(v[0], v[1]) == Enciphered(Block(old(v[0]), old(v[1])), f, g, rounds)
  {
    var y: Word, z: Word := v[0], v[1];
    ghost var b := Block(y, z);
    var sum: Word := 0;
    var limit := RoundsSum(rounds);
    ghost var i: nat := 0;
    while sum != limit
      invariant i <= rounds && sum == SumAt(i)
      invariant Block(y, z) == Enciphered(b, f, g, i)
      decreases rounds - i
    {
      y, z, sum := EncipherStep(y, z, f, g, sum, i);
      i := i + 1;
    }
    SumInjective(i, rounds);
    v[0], v[1] := y, z;
  }

  /** `decipher(v, k, rounds)`: overwrites v with its inverse cipher under k. */
  method Decipher(v: array<Word>, k: seq<Word>, rounds: nat)
    requires v.Length == 2 && |k| == 4 && rounds <= MAX_ROUNDS
    modifies v
    ensures Block(v[0], v[1]) == InverseCipher(Block(old(v[0]), old(v[1])), k, rounds)
  {
    DecipherLoop(v, LowHalf(k), HighHalf(k), rounds);
  }

  /** The encipher loop's body: one round, and `sum` steps on by DELTA. */
  method EncipherStep(y: Word, z: Word, f: HalfRound, g: HalfRound, sum: Word, ghost i: nat)
    returns (y': Word, z': Word, sum': Word)
    requires sum == SumAt(i)
    ensures sum' == SumAt(i + 1) && Block(y', z') == EncipherRound(Block(y, z), f, g, i)
  {
    y' := ToUint32(y + f(z, sum));
    SumStep(i);
    sum' := ToUint32(sum + DELTA);
    z' := ToUint32(z + g(y', sum'));
  }

  /** The loop of `decipher`: it starts from `(DELTA * rounds) >>> 0` and runs
      rounds until `sum` is 0. */
  method DecipherLoop(v: array<Word>, f: HalfRound, g: HalfRound, rounds: nat)
    requires v.Length == 2 && rounds <= MAX_ROUNDS
    modifies v
    ensures Block(v[0], v[1]) == Deciphered(Block(old(v[0]), old(v[1])), f, g, rounds)
  {
    var y: Word, z: Word := v[0], v[1];
    ghost var target := Deciphered(Block(y, z), f, g, rounds);
    var sum := RoundsSum(rounds);
    ghost var i: nat := rounds;
    while sum != 0
      invariant i <= rounds && sum == SumAt(i)
      invariant Deciphered(Block(y, z), f, g, i) == target
      decreases i
    {
      y, z, sum := DecipherStep(y, z, f, g, sum, i);
      i := i - 1;
    }
    SumInjective(i, 0);
    v[0], v[1] := y, z;
  }

  /** The decipher loop's body: one round backwards, and `sum` steps back
      by DELTA. */
  method DecipherStep(y: Word, z: Word, f: HalfRound, g: HalfRound, sum: Word, ghost i: nat)
    returns (y': Word, z': Word, sum': Word)
    requires sum != 0 && sum == SumAt(i)
    ensures i > 0 && sum' == SumAt(i - 1) && Block(y', z') == DecipherRound(Block(y, z), f, g, i - 1)
    ensures Deciphered(Block(y', z'), f, g, i - 1) == Deciphered(Block(y, z), f, g, i)
  {
    z' := ToUint32(z - g(y, sum));
    SumStep(i - 1);
    sum' := ToUint32(sum - DELTA);
    y' := ToUint32(y - f(z', sum'));
  }

  // ------------------------------------------------------- modes of operation

  datatype Mode = Ecb | Cbc | Ctr

  /** A block's output and the chaining value `iv` left for the next block. */
  datatype Chained = Chained(out: Block, iv: Block)

  /** Word-wise XOR, as `v[i] ^= w[i]` stores it in a Uint32Array. */
  function XorBlock(a: Block, b: Block): Block {
    Block(Xor32(a.y, b.y), Xor32(a.z, b.z))
  }

  lemma XorBlockTwice(a: Block, b: Block)
    ensures XorBlock(XorBlock(a, b), b) == a
  {
    Xor32Twice(a.y, b.y);
    Xor32Twice(a.z, b.z);
  }

  /** The counter step `iv[1] = iv[1] + 1`, wrapping in the Uint32Array. */
  function NextCounter(iv: Block): (r: Block)
    ensures r.y == iv.y
    ensures iv.z < TWO_32 - 1 ==> r.z == iv.z + 1
    ensures iv.z == TWO_32 - 1 ==> r.z == 0
  {
    Block(iv.y, ToUint32(iv.z + 1))
  }

  /** The encrypting mode functions: ECB enciphers the block, CBC enciphers
      it XOR the chaining value and chains the result, CTR XORs the block
      with the enciphered counter and increments the counter. */
  function Encrypted(mode: Mode, b: Block, k: seq<Word>, iv: Block, rounds: nat): Chained
    requires |k| == 4
  {
    match mode
    case Ecb => Chained(Cipher(b, k, rounds), iv)
    case Cbc => var c := Cipher(XorBlock(b, iv), k, rounds); Chained(c, c)
    case Ctr => Chained(XorBlock(b, Cipher(iv, k, rounds)), NextCounter(iv))
  }

  /** The decrypting mode functions; CTR decryption is CTR encryption. */
  function Decrypted(mode: Mode, c: Block, k: seq<Word>, iv: Block, rounds: nat): Chained
    requires |k| == 4
  {
    match mode
    case Ecb => Chained(InverseCipher(c, k, rounds), iv)
    case Cbc => Chained(XorBlock(InverseCipher(c, k, rounds), iv), c)
    case Ctr => Encrypted(Ctr, c, k, iv, rounds)
  }

  /** Decrypting a block that was encrypted with the same chaining value
      gives the block back, and leaves the same chaining value. */
  lemma DecryptedEncrypted(mode: Mode, b: Block, k: seq<Word>, iv: Block, rounds: nat)
    requires |k| == 4
    ensures var e := Encrypted(mode, b, k, iv, rounds);
            Decrypted(mode, e.out, k, iv, rounds) == Chained(b, e.iv)
  {
    match mode
    case Ecb =>
      CipherRoundTrip(b, k, rounds);
    case Cbc =>
      CipherRoundTrip(XorBlock(b, iv), k, rounds);
      XorBlockTwice(b, iv);
    case Ctr =>
      XorBlockTwice(b, Cipher(iv, k, rounds));
  }

  function Step(mode: Mode, encryption: bool, b: Block, k: seq<Word>, iv: Block, rounds: nat): Chained
    requires |k| == 4
  {
    if encryption then Encrypted(mode, b, k, iv, rounds) else Decrypted(mode, b, k, iv, rounds)
  }

  /** `encipher_ecb` */
  method EncipherEcb(v: array<Word>, k: seq<Word>, iv: array<Word>, rounds: nat)
    requires v.Length == 2 && iv.Length == 2 && v != iv && |k| == 4 && rounds <= MAX_ROUNDS
    modifies v, iv
    ensures Chained(Block(v[0], v[1]), Block(iv[0], iv[1]))
            == Encrypted(Ecb, Block(old(v[0]), old(v[1])), k, Block(old(iv[0]), old(iv[1])), rounds)
  {
    Encipher(v, k, rounds);
  }

  /** `decipher_ecb` */
  method DecipherEcb(v: array<Word>, k: seq<Word>, iv: array<Word>, rounds: nat)
    requires v.Length == 2 && iv.Length == 2 && v != iv && |k| == 4 && rounds <= MAX_ROUNDS
    modifies v, iv
    ensures Chained(Block(v[0], v[1]), Block(iv[0], iv[1]))
            == Decrypted(Ecb, Block(old(v[0]), old(v[1])), k, Block(old(iv[0]), old(iv[1])), rounds)
  {
    Decipher(v, k, rounds);
  }

  /** `encipher_cbc` */
  method EncipherCbc(v: array<Word>, k: seq<Word>, iv: array<Word>, rounds: nat)
    requires v.Length == 2 && iv.Length == 2 && v != iv && |k| == 4 && rounds <= MAX_ROUNDS
    modifies v, iv
    ensures Chained(Block(v[0], v[1]), Block(iv[0], iv[1]))
            == Encrypted(Cbc, Block(old(v[0]), old(v[1])), k, Block(old(iv[0]), old(iv[1])), rounds)
  {
    v[0] := Xor32(v[0], iv[0]);
    v[1] := Xor32(v[1], iv[1]);
    Encipher(v, k, rounds);
    iv[0] := v[0];
    iv[1] := v[1];
  }

  /** `decipher_cbc`: the ciphertext block, kept in `tmp`, becomes the next
      chaining value. */
  method DecipherCbc(v: array<Word>, k: seq<Word>, iv: array<Word>, rounds: nat)
    requires v.Length == 2 && iv.Length == 2 && v != iv && |k| == 4 && rounds <= MAX_ROUNDS
    modifies v, iv
    ensures Chained(Block(v[0], v[1]), Block(iv[0], iv[1]))
            == Decrypted(Cbc, Block(old(v[0]), old(v[1])), k, Block(old(iv[0]), old(iv[1])), rounds)
  {
    var tmp := new Word[2] [v[0], v[1]];
    Decipher(v, k, rounds);
    v[0] := Xor32(v[0], iv[0]);
    v[1] := Xor32(v[1], iv[1]);
    iv[0] := tmp[0];
    iv[1] := tmp[1];
  }

  /** `encipher_ctr`: enciphers a copy of the counter. */
  method EncipherCtr(v: array<Word>, k: seq<Word>, iv: array<Word>, rounds: nat)
    requires v.Length == 2 && iv.Length == 2 && v != iv && |k| == 4 && rounds <= MAX_ROUNDS
    modifies v, iv
    ensures Chained(Block(v[0], v[1]), Block(iv[0], iv[1]))
            == Encrypted(Ctr, Block(old(v[0]), old(v[1])), k, Block(old(iv[0]), old(iv[1])), rounds)
  {
    var tmp := new Word[2] [iv[0], iv[1]];
    Encipher(tmp, k, rounds);
    v[0] := Xor32(v[0], tmp[0]);
    v[1] := Xor32(v[1], tmp[1]);
    Increment(iv);
  }

  /** `iv[1] = iv[1] + 1` on a Uint32Array, which wraps. */
  method Increment(iv: array<Word>)
    requires iv.Length == 2
    modifies iv
    ensures Block(iv[0], iv[1]) == NextCounter(Block(old(iv[0]), old(iv[1])))
  {
    iv[1] := ToUint32((iv[1] as int) + 1);
  }

  /** `decipher_ctr` has the same body as `encipher_ctr`. */
  method DecipherCtr(v: array<Word>, k: seq<Word>, iv: array<Word>, rounds: nat)
    requires v.Length == 2 && iv.Length == 2 && v != iv && |k| == 4 && rounds <= MAX_ROUNDS
    modifies v, iv
    ensures Chained(Block(v[0], v[1]), Block(iv[0], iv[1]))
            == Decrypted(Ctr, Block(old(v[0]), old(v[1])), k, Block(old(iv[0]), old(iv[1])), rounds)
  {
    EncipherCtr(v, k, iv, rounds);
  }

  /** `MODES[mode][encryption ? "encrypt" : "decrypt"](v, k, iv, rounds)`. */
  method ApplyMode(mode: Mode, encryption: bool, v: array<Word>, k: seq<Word>, iv: array<Word>, rounds: nat)
    requires v.Length == 2 && iv.Length == 2 && v != iv && |k| == 4 && rounds <= MAX_ROUNDS
    modifies v, iv
    ensures Chained(Block(v[0], v[1]), Block(iv[0], iv[1]))
            == Step(mode, encryption, Block(old(v[0]), old(v[1])), k, Block(old(iv[0]), old(iv[1])), rounds)
  {
    match mode
    case Ecb =>
      if encryption { EncipherEcb(v, k, iv, rounds); } else { DecipherEcb(v, k, iv, rounds); }
    case Cbc =>
      if encryption { EncipherCbc(v, k, iv, rounds); } else { DecipherCbc(v, k, iv, rounds); }
    case Ctr =>
      if encryption { EncipherCtr(v, k, iv, rounds); } else { DecipherCtr(v, k, iv, rounds); }
  }

  // ------------------------------------------------------ bytes and blocks

  datatype Error = UnimplementedMode(mode: string) | NotAligned | RangeError

  /** `writeUInt32LE(w)`: the four bytes of w, least significant first. */
  function WordBytes(w: Word): (r: seq<Byte>)
    ensures |r| == 4
  {
    var w1 := w / 0x100;
    var w2 := w1 / 0x100;
    [w % 0x100, w1 % 0x100, w2 % 0x100, w2 / 0x100]
  }

  /** `readUInt32LE` reads back what `writeUInt32LE` wrote. */
  lemma ReadWrittenWord(w: Word)
    ensures Le32At(WordBytes(w), 0) == w
  {
  }

  /** `writeUInt32LE` writes back the bytes `readUInt32LE` read. */
  lemma WriteReadWord(s: seq<Byte>, i: nat)
    requires i + 4 <= |s|
    ensures WordBytes(Le32At(s, i)) == s[i..i + 4]
  {
    var w := Le32At(s, i);
    var b1, b2, b3: int := s[i + 1], s[i + 2], s[i + 3];
    DivModUnique(w, 0x100, b1 + 0x100 * b2 + 0x1_0000 * b3, s[i]);
    DivModUnique(w / 0x100, 0x100, b2 + 0x100 * b3, s[i + 1]);
    DivModUnique(w / 0x100 / 0x100, 0x100, s[i + 3], s[i + 2]);
  }

  /** The block `v[0] = R32(s, offset)`, `v[1] = R32(s, offset + 4)`. */
  function BlockAt(s: seq<Byte>, offset: nat): Block
    requires offset + 8 <= |s|
  {
    Block(Le32At(s, offset), Le32At(s, offset + 4))
  }

  /** The eight bytes `W32(out, v[0], offset)`, `W32(out, v[1], offset + 4)`
      write. */
  function BlockBytes(b: Block): (r: seq<Byte>)
    ensures |r| == 8
  {
    WordBytes(b.y) + WordBytes(b.z)
  }

  /** The whole blocks of s. */
  function BlocksOf(s: seq<Byte>): (r: seq<Block>)
    ensures |r| == |s| / 8
  {
    seq(|s| / 8, i requires 0 <= i < |s| / 8 => BlockAt(s, 8 * i))
  }

  /** The bytes of a sequence of blocks. */
  function Serialize(bs: seq<Block>): (r: seq<Byte>)
    ensures |r| == 8 * |bs|
  {
    if bs == [] then [] else Serialize(bs[..|bs| - 1]) + BlockBytes(bs[|bs| - 1])
  }

  /** Bytes 8i to 8i + 8 of the serialized blocks are the bytes of block i. */
  lemma {:induction false} SerializedBlock(bs: seq<Block>, i: nat)
    requires i < |bs|
    ensures Serialize(bs)[8 * i..8 * i + 8] == BlockBytes(bs[i])
  {
    var n := |bs| - 1;
    var front := Serialize(bs[..n]);
    assert Serialize(bs) == front + BlockBytes(bs[n]);
    if i < n {
      SerializedBlock(bs[..n], i);
      assert Serialize(bs)[8 * i..8 * i + 8] == front[8 * i..8 * i + 8];
    } else {
      assert Serialize(bs)[8 * i..8 * i + 8] == Serialize(bs)[|front|..];
    }
  }

  lemma BlocksOfSerialize(bs: seq<Block>)
    ensures BlocksOf(Serialize(bs)) == bs
  {
    forall i | 0 <= i < |bs|
      ensures BlocksOf(Serialize(bs))[i] == bs[i]
    {
      BlockAtSerialize(bs, i);
    }
  }

  lemma BlockAtSerialize(bs: seq<Block>, i: nat)
    requires i < |bs|
    ensures BlockAt(Serialize(bs), 8 * i) == bs[i]
  {
    SerializeAt(bs, i, 0);
    SerializeAt(bs, i, 1);
    SerializeAt(bs, i, 2);
    SerializeAt(bs, i, 3);
    SerializeAt(bs, i, 4);
    SerializeAt(bs, i, 5);
    SerializeAt(bs, i, 6);
    SerializeAt(bs, i, 7);
    ReadWrittenWord(bs[i].y);
    ReadWrittenWord(bs[i].z);
  }

  /** Byte t of block i. */
  lemma SerializeAt(bs: seq<Block>, i: nat, t: nat)
    requires i < |bs| && t < 8
    ensures Serialize(bs)[8 * i + t] == BlockBytes(bs[i])[t]
  {
    SerializedBlock(bs, i);
    assert Serialize(bs)[8 * i + t] == Serialize(bs)[8 * i..8 * i + 8][t];
  }

  lemma SerializeBlocksOf(s: seq<Byte>)
    requires |s| % 8 == 0
    ensures Serialize(BlocksOf(s)) == s
  {
    var bs := BlocksOf(s);
    forall j | 0 <= j < |s|
      ensures Serialize(bs)[j] == s[j]
    {
      var i := j / 8;
      SerializeAt(bs, i, j % 8);
      WriteReadWord(s, 8 * i);
      WriteReadWord(s, 8 * i + 4);
      assert BlockBytes(bs[i]) == s[8 * i..8 * i + 8];
    }
  }

  // --------------------------------------------------------------- chaining

  /** The outputs of the mode over a sequence of blocks, each block chained
      from the value the previous one left. */
  function Chain(mode: Mode, encryption: bool, bs: seq<Block>, k: seq<Word>, iv: Block, rounds: nat): (r: seq<Block>)
    requires |k| == 4
    ensures |r| == |bs|
    decreases |bs|
  {
    if bs == [] then []
    else
      var n := |bs| - 1;
      Chain(mode, encryption, bs[..n], k, iv, rounds)
        + [Step(mode, encryption, bs[n], k, IvAfter(mode, encryption, bs[..n], k, iv, rounds), rounds).out]
  }

  /** The chaining value after a sequence of blocks. */
  function IvAfter(mode: Mode, encryption: bool, bs: seq<Block>, k: seq<Word>, iv: Block, rounds: nat): Block
    requires |k| == 4
    decreases |bs|
  {
    if bs == [] then iv
    else
      var n := |bs| - 1;
      Step(mode, encryption, bs[n], k, IvAfter(mode, encryption, bs[..n], k, iv, rounds), rounds).iv
  }

  /** A prefix of a prefix is a prefix. */
  lemma PrefixOfPrefix<T>(s: seq<T>, m: nat, n: nat)
    requires m <= n <= |s|
    ensures s[..n][..m] == s[..m]
  {
  }

  /** A non-empty sequence is its prefix followed by its last element. */
  lemma ButLastThenLast<T>(s: seq<T>)
    requires |s| > 0
    ensures s[..|s| - 1] + [s[|s| - 1]] == s
  {
  }

  /** Decrypting the chain of encrypted blocks with the same key, starting
      chaining value and round count gives the blocks back. */
  lemma {:induction false} ChainRoundTrip(mode: Mode, bs: seq<Block>, k: seq<Word>, iv: Block, rounds: nat)
    requires |k| == 4
    ensures Chain(mode, false, Chain(mode, true, bs, k, iv, rounds), k, iv, rounds) == bs
    ensures IvAfter(mode, false, Chain(mode, true, bs, k, iv, rounds), k, iv, rounds)
            == IvAfter(mode, true, bs, k, iv, rounds)
    decreases |bs|
  {
    if bs != [] {
      var n := |bs| - 1;
      var c := Chain(mode, true, bs, k, iv, rounds);
      var before := IvAfter(mode, true, bs[..n], k, iv, rounds);
      var e := Step(mode, true, bs[n], k, before, rounds);
      assert c == Chain(mode, true, bs[..n], k, iv, rounds) + [e.out];
      assert c[..n] == Chain(mode, true, bs[..n], k, iv, rounds) && c[n] == e.out;
      ChainRoundTrip(mode, bs[..n], k, iv, rounds);
      DecryptedEncrypted(mode, bs[n], k, before, rounds);
      var d := Step(mode, false, c[n], k, IvAfter(mode, false, c[..n], k, iv, rounds), rounds);
      assert d == Chained(bs[n], e.iv);
      assert Chain(mode, false, c, k, iv, rounds) == bs[..n] + [d.out];
      ButLastThenLast(bs);
    }
  }

  /** Block i of the chain, and the chaining value it leaves. */
  lemma ChainAt(mode: Mode, encryption: bool, bs: seq<Block>, k: seq<Word>, iv: Block, rounds: nat, i: nat)
    requires |k| == 4 && i < |bs|
    ensures var s := Step(mode, encryption, bs[i], k, IvAfter(mode, encryption, bs[..i], k, iv, rounds), rounds);
            Chain(mode, encryption, bs, k, iv, rounds)[i] == s.out &&
            IvAfter(mode, encryption, bs[..i + 1], k, iv, rounds) == s.iv
  {
    ChainPrefix(mode, encryption, bs, k, iv, rounds, i + 1);
    PrefixOfPrefix(bs, i, i + 1);
  }

  /** The chain of a prefix is the prefix of the chain. */
  lemma {:induction false} ChainPrefix(mode: Mode, encryption: bool, bs: seq<Block>, k: seq<Word>, iv: Block, rounds: nat, m: nat)
    requires |k| == 4 && m <= |bs|
    ensures Chain(mode, encryption, bs, k, iv, rounds)[..m] == Chain(mode, encryption, bs[..m], k, iv, rounds)
    decreases |bs|
  {
    if m < |bs| {
      var n := |bs| - 1;
      ChainPrefix(mode, encryption, bs[..n], k, iv, rounds, m);
      assert bs[..n][..m] == bs[..m];
    } else {
      assert bs[..m] == bs;
    }
  }

  // ---------------------------------------------------------------- padding

  /** `8 - (length & 7)`: from 1 to 8 bytes, up to the next multiple of 8. */
  function PadLength(length: nat): (pad: nat)
    ensures 1 <= pad <= 8 && (length + pad) % 8 == 0
  {
    8 - length % 8
  }

  /** The message followed by `pad` bytes of value `pad` (PKCS#7). */
  function Padded(msg: seq<Byte>): (r: seq<Byte>)
    ensures |r| == |msg| + PadLength(|msg|) && |r| % 8 == 0
    ensures r[..|msg|] == msg
    ensures forall i :: |msg| <= i < |r| ==> r[i] == PadLength(|msg|)
  {
    var pad: Byte := PadLength(|msg|);
    msg + seq(pad, _ => pad)
  }

  /** `out.slice(0, out.length - out[out.length - 1])`: drops as many bytes
      as the last byte says, without checking them. A negative end counts
      from the end; an empty output stays empty. */
  function Unpadded(out: seq<Byte>): (r: seq<Byte>)
    ensures |out| > 0 && out[|out| - 1] <= |out| ==> r == out[..|out| - out[|out| - 1]]
    ensures |out| > 0 && |out| < out[|out| - 1] <= 2 * |out| ==> r == out[..2 * |out| - out[|out| - 1]]
    ensures |out| == 0 || out[|out| - 1] > 2 * |out| ==> r == []
  {
    if |out| == 0 then [] else ClampedSlice(out, 0, |out| - out[|out| - 1])
  }

  lemma UnpadPadded(msg: seq<Byte>)
    ensures Unpadded(Padded(msg)) == msg
  {
    var p := Padded(msg);
    assert p[|p| - 1] == PadLength(|msg|);
  }

  // --------------------------------------------------------------- doBlocks

  /** `if (!mode) mode = "ecb"` and the lookup in `MODES`. */
  function ModeOf(mode: Option<string>): (r: Result<Mode, Error>)
    ensures r.Failure? ==> mode.Some? && r.error == UnimplementedMode(mode.value)
    ensures mode.None? ==> r == Success(Ecb)
  {
    var name := if mode.None? || mode.value == "" then "ecb" else mode.value;
    if name == "ecb" then Success(Ecb)
    else if name == "cbc" then Success(Cbc)
    else if name == "ctr" then Success(Ctr)
    else Failure(UnimplementedMode(name))
  }

  /** `if (!rounds) rounds = ROUNDS`. */
  function RoundsOf(rounds: nat): (r: nat)
    ensures r > 0 && (rounds > 0 ==> r == rounds)
  {
    if rounds == 0 then ROUNDS else rounds
  }

  /** The IV bytes: eight zero bytes when none is given. */
  function IvBytes(iv: Option<seq<Byte>>): seq<Byte> {
    if iv.None? then seq(8, _ => 0) else iv.value
  }

  /** The four little-endian key words. */
  function KeyWords(key: seq<Byte>): (r: seq<Word>)
    requires |key| >= 16
    ensures |r| == 4 && forall i :: 0 <= i < 4 ==> r[i] == Le32At(key, 4 * i)
  {
    [Le32At(key, 0), Le32At(key, 4), Le32At(key, 8), Le32At(key, 12)]
  }

  /** Whether `doBlocks` neither pads nor unpads: when decrypting, or when
      the caller asks to skip the padding. */
  predicate Unpadding(encryption: bool, skippad: bool) {
    skippad || !encryption
  }

  /** The bytes the `doBlocks` loop reads: the message, padded when
      encrypting with padding. */
  function InputOf(msg: seq<Byte>, padding: bool): (r: seq<Byte>)
    ensures padding ==> r == Padded(msg)
    ensures !padding ==> r == msg
  {
    if padding then Padded(msg) else msg
  }

  /** What `doBlocks(encryption, msg, key, mode, iv, skippad, rounds)`
      returns or throws. */
  function Processed(encryption: bool, msg: seq<Byte>, key: seq<Byte>, mode: Option<string>,
                     iv: Option<seq<Byte>>, skippad: bool, rounds: nat): (r: Result<seq<Byte>, Error>)
    requires rounds <= MAX_ROUNDS
    // the errors: an unknown mode first, then a misaligned input when it
    // does not pad, then a short IV or key
    ensures r.Failure? && r.error.UnimplementedMode? <==> ModeOf(mode).Failure?
    ensures r == Failure(NotAligned) <==> ModeOf(mode).Success? && Unpadding(encryption, skippad) && |msg| % 8 != 0
    ensures r.Success? <==> ModeOf(mode).Success? && (!Unpadding(encryption, skippad) || |msg| % 8 == 0) &&
                            |IvBytes(iv)| >= 8 && |key| >= 16
  {
    var m :- ModeOf(mode);
    var ivBytes := IvBytes(iv);
    if Unpadding(encryption, skippad) && |msg| % 8 != 0 then Failure(NotAligned)
    else if |ivBytes| < 8 || |key| < 16 then Failure(RangeError)
    else
      Success(Output(m, encryption, skippad, msg, KeyWords(key), BlockAt(ivBytes, 0), RoundsOf(rounds)))
  }

  /** The bytes `doBlocks` returns once its checks have passed: the mode run
      over the blocks of the (padded) input, then unpadded when decrypting
      with padding. */
  function Output(m: Mode, encryption: bool, skippad: bool, msg: seq<Byte>, k: seq<Word>, iv: Block, rounds: nat): seq<Byte>
    requires |k| == 4
  {
    var out := Serialize(Chain(m, encryption, BlocksOf(InputOf(msg, !Unpadding(encryption, skippad))), k, iv, rounds));
    if skippad || encryption then out else Unpadded(out)
  }

  /** Encrypting with padding gives a whole number of blocks, one to eight
      bytes longer than the message; without padding the length is kept. */
  lemma EncryptedLength(msg: seq<Byte>, key: seq<Byte>, mode: Option<string>,
                        iv: Option<seq<Byte>>, skippad: bool, rounds: nat)
    requires rounds <= MAX_ROUNDS
    requires Processed(true, msg, key, mode, iv, skippad, rounds).Success?
    ensures var out := Processed(true, msg, key, mode, iv, skippad, rounds).value;
            |out| % 8 == 0 && (skippad ==> |out| == |msg|) &&
            (!skippad ==> |out| == |msg| + PadLength(|msg|) && |msg| < |out| <= |msg| + 8)
  {
    var m := ModeOf(mode).value;
    var input := if skippad then msg else Padded(msg);
    var c := Chain(m, true, BlocksOf(input), KeyWords(key), BlockAt(IvBytes(iv), 0), RoundsOf(rounds));
    assert Processed(true, msg, key, mode, iv, skippad, rounds).value == Serialize(c);
    WholeBlocks(|input|, |c|);
  }

  lemma WholeBlocks(n: nat, blocks: nat)
    requires n % 8 == 0 && blocks == n / 8
    ensures 8 * blocks == n
  {
  }

  /** Decrypting what was encrypted with the same key, mode, IV, padding
      choice and round count gives the message back. */
  lemma EncryptDecrypt(msg: seq<Byte>, key: seq<Byte>, mode: Option<string>,
                       iv: Option<seq<Byte>>, skippad: bool, rounds: nat)
    requires rounds <= MAX_ROUNDS
    requires Processed(true, msg, key, mode, iv, skippad, rounds).Success?
    ensures Processed(false, Processed(true, msg, key, mode, iv, skippad, rounds).value,
                      key, mode, iv, skippad, rounds) == Success(msg)
  {
    var m := ModeOf(mode).value;
    var k := KeyWords(key);
    var iv0 := BlockAt(IvBytes(iv), 0);
    var r := RoundsOf(rounds);
    var input := if skippad then msg else Padded(msg);
    var blocks := BlocksOf(input);
    var c := Chain(m, true, blocks, k, iv0, r);
    assert Processed(true, msg, key, mode, iv, skippad, rounds).value == Serialize(c);
    BlocksOfSerialize(c);
    ChainRoundTrip(m, blocks, k, iv0, r);
    SerializeBlocksOf(input);
    if !skippad {
      UnpadPadded(msg);
    }
  }

  // ------------------------------------------------------------- doBlock

  /** `readUInt32LE(s, offset)`: throws a RangeError past the end. */
  function R32(s: seq<Byte>, offset: nat): (r: Result<Word, Error>)
    ensures r.Success? <==> offset + 4 <= |s|
    ensures r.Failure? ==> r.error == RangeError
    ensures r.Success? ==> r.value == Le32At(s, offset)
  {
    if offset + 4 <= |s| then Success(Le32At(s, offset)) else Failure(RangeError)
  }

  /** `for (i = 0; i < 4; ++i) k[i] = R32(key, i * 4)`: stops with a
      RangeError at the first word past the end of the key. */
  method ReadKey(key: seq<Byte>, k: array<Word>) returns (r: Result<(), Error>)
    requires k.Length == 4
    modifies k
    ensures r.Success? <==> |key| >= 16
    ensures r.Failure? ==> r.error == RangeError
    ensures r.Success? ==> k[..] == KeyWords(key)
  {
    for i := 0 to 4
      invariant 4 * i <= |key|
      invariant forall j :: 0 <= j < i ==> k[j] == Le32At(key, 4 * j)
    {
      var w := R32(key, i * 4);
      if w.Failure? {
        return Failure(w.error);
      }
      k[i] := w.value;
    }
    return Success(());
  }

  /** `_iv[0] = R32(iv, 0)`, `_iv[1] = R32(iv, 4)`: a RangeError when the IV
      is shorter than a block. */
  method ReadIv(iv: seq<Byte>, chain: array<Word>) returns (r: Result<(), Error>)
    requires chain.Length == 2
    modifies chain
    ensures r.Success? <==> |iv| >= 8
    ensures r.Failure? ==> r.error == RangeError
    ensures r.Success? ==> Block(chain[0], chain[1]) == BlockAt(iv, 0)
  {
    var y := R32(iv, 0);
    var z := R32(iv, 4);
    if y.Failure? || z.Failure? {
      return Failure(RangeError);
    }
    chain[0], chain[1] := y.value, z.value;
    return Success(());
  }

  /** `writeUInt32LE(out, w, offset)`: the bytes of w at offset, nothing
      else changed. */
  method WriteWord(out: array<Byte>, w: Word, offset: nat)
    requires offset + 4 <= out.Length
    modifies out
    ensures out[offset..offset + 4] == WordBytes(w)
    ensures forall j :: 0 <= j < out.Length && !(offset <= j < offset + 4) ==> out[j] == old(out[j])
  {
    var w1 := w / 0x100;
    var w2 := w1 / 0x100;
    out[offset] := w % 0x100;
    out[offset + 1] := w1 % 0x100;
    out[offset + 2] := w2 % 0x100;
    out[offset + 3] := w2 / 0x100;
  }

  /** `W32(out, v[0], offset)` and `W32(out, v[1], offset + 4)`. */
  method WriteBlock(out: array<Byte>, b: Block, offset: nat)
    requires offset + 8 <= out.Length
    modifies out
    ensures out[offset..offset + 8] == BlockBytes(b)
    ensures forall j :: 0 <= j < out.Length && !(offset <= j < offset + 8) ==> out[j] == old(out[j])
    ensures out[..offset] == old(out[..offset])
  {
    WriteWord(out, b.y, offset);
    ghost var low := out[offset..offset + 4];
    WriteWord(out, b.z, offset + 4);
    assert out[offset..offset + 4] == low;
    assert out[offset..offset + 8] == out[offset..offset + 4] + out[offset + 4..offset + 8];
  }

  /** What `doBlock(encipher or decipher, block, key, rounds)` returns or
      throws: one block, with no chaining. */
  function BlockProcessed(encryption: bool, block: seq<Byte>, key: seq<Byte>, rounds: nat): (r: Result<seq<Byte>, Error>)
    ensures r.Success? <==> |key| >= 16 && |block| >= 8
    ensures r.Failure? ==> r.error == RangeError
    ensures r.Success? ==> |r.value| == 8
  {
    if |key| < 16 || |block| < 8 then Failure(RangeError)
    else
      var b := BlockAt(block, 0);
      var k := KeyWords(key);
      Success(BlockBytes(if encryption then Cipher(b, k, rounds) else InverseCipher(b, k, rounds)))
  }

  /** Deciphering what `doBlock` enciphered, with the same key and round
      count, gives back the first eight bytes of the block; so
      `decryptBlock(encryptBlock(block, key), key)` does. */
  lemma DecryptEncryptBlock(block: seq<Byte>, key: seq<Byte>, rounds: nat)
    requires |key| >= 16 && |block| >= 8
    ensures BlockProcessed(false, BlockProcessed(true, block, key, rounds).value, key, rounds) == Success(block[..8])
  {
    var b := BlockAt(block, 0);
    var k := KeyWords(key);
    var c := Cipher(b, k, rounds);
    var e := BlockBytes(c);
    assert BlockProcessed(true, block, key, rounds) == Success(e);
    BlockAtBytes(c);
    assert BlockAt(e, 0) == c;
    CipherRoundTrip(b, k, rounds);
    assert BlockProcessed(false, e, key, rounds) == Success(BlockBytes(b));
    BytesOfBlockAt(block);
  }

  /** The bytes of the block read from the start of s are its first eight. */
  lemma BytesOfBlockAt(s: seq<Byte>)
    requires |s| >= 8
    ensures BlockBytes(BlockAt(s, 0)) == s[..8]
  {
    WriteReadWord(s, 0);
    WriteReadWord(s, 4);
    assert s[..8] == s[0..4] + s[4..8];
  }

  /** The block read back from its own eight bytes. */
  lemma BlockAtBytes(b: Block)
    ensures BlockAt(BlockBytes(b), 0) == b
  {
    ReadWrittenWord(b.y);
    ReadWrittenWord(b.z);
    assert BlockBytes(b)[4..8] == WordBytes(b.z);
  }

  /** `doBlock(method, block, key, rounds)`: reads the key, then the two
      words of the block, runs the cipher and writes the two words back. */
  method DoBlock(encryption: bool, block: seq<Byte>, key: seq<Byte>, rounds: nat) returns (r: Result<seq<Byte>, Error>)
    requires rounds <= MAX_ROUNDS
    ensures r == BlockProcessed(encryption, block, key, rounds)
  {
    var k := new Word[4];
    var v := new Word[2];
    var out := new Byte[8];
    var keyRead := ReadKey(key, k);
    if keyRead.Failure? {
      return Failure(keyRead.error);
    }
    var y := R32(block, 0);
    var z := R32(block, 4);
    if y.Failure? || z.Failure? {
      return Failure(RangeError);
    }
    v[0], v[1] := y.value, z.value;
    if encryption {
      Encipher(v, k[..], rounds);
    } else {
      Decipher(v, k[..], rounds);
    }
    WriteBlock(out, Block(v[0], v[1]), 0);
    assert out[..] == out[0..8];
    return Success(out[..]);
  }

  /** `encryptBlock(block, key)`. */
  method EncryptBlock(block: seq<Byte>, key: seq<Byte>) returns (r: Result<seq<Byte>, Error>)
    ensures r == BlockProcessed(true, block, key, ROUNDS)
  {
    r := DoBlock(true, block, key, ROUNDS);
  }

  /** `decryptBlock(block, key)`. */
  method DecryptBlock(block: seq<Byte>, key: seq<Byte>) returns (r: Result<seq<Byte>, Error>)
    ensures r == BlockProcessed(false, block, key, ROUNDS)
  {
    r := DoBlock(false, block, key, ROUNDS);
  }

  // ------------------------------------------------------------- doBlocks

  /** Bytes 8i to 8i + 8 of the serialized chain are the output of step i,
      and that step leaves the chaining value for the next one. */
  lemma ChainBlockBytes(mode: Mode, encryption: bool, bs: seq<Block>, k: seq<Word>, iv: Block, rounds: nat, i: nat,
                        s: Chained)
    requires |k| == 4 && i < |bs|
    requires s == Step(mode, encryption, bs[i], k, IvAfter(mode, encryption, bs[..i], k, iv, rounds), rounds)
    ensures Serialize(Chain(mode, encryption, bs, k, iv, rounds))[8 * i..8 * i + 8] == BlockBytes(s.out)
    ensures IvAfter(mode, encryption, bs[..i + 1], k, iv, rounds) == s.iv
  {
    ChainAt(mode, encryption, bs, k, iv, rounds, i);
    SerializedBlock(Chain(mode, encryption, bs, k, iv, rounds), i);
  }

  /** While eight bytes of the message remain, the block `doBlocks` reads is
      block offset / 8 of the message, padded or not. */
  lemma WholeBlockAt(msg: seq<Byte>, offset: nat)
    requires offset % 8 == 0 && offset + 8 <= |msg|
    ensures BlocksOf(msg)[offset / 8] == BlockAt(msg, offset)
    ensures BlocksOf(Padded(msg))[offset / 8] == BlockAt(msg, offset)
  {
    var p := Padded(msg);
    assert p[offset..offset + 8] == msg[offset..offset + 8];
  }

  /** The last, partial block: the rest of the message followed by the
      padding bytes is the last block of the padded message. */
  lemma TailBlockAt(msg: seq<Byte>, offset: nat)
    requires offset % 8 == 0 && offset <= |msg| < offset + 8
    ensures var pad: Byte := PadLength(|msg|);
            var buf := msg[offset..] + seq(pad, _ => pad);
            |buf| == 8 && offset + 8 == |Padded(msg)| && BlocksOf(Padded(msg))[offset / 8] == BlockAt(buf, 0)
  {
    var pad: Byte := PadLength(|msg|);
    var buf := msg[offset..] + seq(pad, _ => pad);
    assert buf == Padded(msg)[offset..];
  }

  /** Two sequences that agree on their first n elements and on the m after
      them agree on the first n + m. */
  lemma PrefixExtend(a: seq<Byte>, b: seq<Byte>, n: nat, m: nat)
    requires n + m <= |a| && n + m <= |b|
    requires a[..n] == b[..n] && a[n..n + m] == b[n..n + m]
    ensures a[..n + m] == b[..n + m]
  {
    assert a[..n + m] == a[..n] + a[n..n + m];
    assert b[..n + m] == b[..n] + b[n..n + m];
  }

  /** The loop body's read: `R32(msg, offset)` and `R32(msg, offset + 4)`
      while eight bytes remain, else the same reads from the rest of the
      message followed by `pad` bytes of value `pad`. */
  method ReadBlock(msg: seq<Byte>, padding: bool, pad: nat, offset: nat, ghost i: nat, v: array<Word>)
    requires v.Length == 2 && offset == 8 * i && offset <= |msg|
    requires padding ==> pad == PadLength(|msg|)
    requires !padding ==> |msg| % 8 == 0 && offset + 8 <= |msg|
    modifies v
    ensures i < |BlocksOf(InputOf(msg, padding))|
    ensures Block(v[0], v[1]) == BlocksOf(InputOf(msg, padding))[i]
    ensures offset + 8 <= |msg| || (padding && offset + 8 == |InputOf(msg, padding)|)
  {
    assert offset / 8 == i;
    if |msg| - offset < 8 {
      var buf := msg[offset..] + seq(pad, _ => pad as Byte);
      TailBlockAt(msg, offset);
      v[0], v[1] := Le32At(buf, 0), Le32At(buf, 4);
    } else {
      WholeBlockAt(msg, offset);
      v[0], v[1] := Le32At(msg, offset), Le32At(msg, offset + 4);
    }
  }

  /** The chaining values before each block: entry j is the value the
      first j blocks leave. */
  function IvTrace(mode: Mode, encryption: bool, bs: seq<Block>, k: seq<Word>, iv: Block, rounds: nat): (r: seq<Block>)
    requires |k| == 4
    ensures |r| == |bs| + 1
  {
    seq(|bs| + 1, j requires 0 <= j <= |bs| => IvAfter(mode, encryption, bs[..j], k, iv, rounds))
  }

  /** `ivs` and `expected` record, block by block, what the mode does: block
      j chained from ivs[j] leaves ivs[j + 1] and writes bytes 8j to 8j + 8
      of `expected`. The quantifier is triggered only by the step itself. */
  ghost predicate Traced(mode: Mode, encryption: bool, bs: seq<Block>, k: seq<Word>, rounds: nat,
                         ivs: seq<Block>, expected: seq<Byte>)
    requires |k| == 4
  {
    |ivs| == |bs| + 1 && |expected| == 8 * |bs| &&
    forall j {:trigger Step(mode, encryption, bs[j], k, ivs[j], rounds)} :: 0 <= j < |bs| ==>
      ivs[j + 1] == Step(mode, encryption, bs[j], k, ivs[j], rounds).iv &&
      expected[8 * j..8 * j + 8] == BlockBytes(Step(mode, encryption, bs[j], k, ivs[j], rounds).out)
  }

  /** The chain and its chaining values are such a record. */
  lemma TracedChain(mode: Mode, encryption: bool, bs: seq<Block>, k: seq<Word>, iv: Block, rounds: nat)
    requires |k| == 4
    ensures Traced(mode, encryption, bs, k, rounds, IvTrace(mode, encryption, bs, k, iv, rounds),
                   Serialize(Chain(mode, encryption, bs, k, iv, rounds)))
  {
    var ivs := IvTrace(mode, encryption, bs, k, iv, rounds);
    forall j | 0 <= j < |bs|
      ensures ivs[j + 1] == Step(mode, encryption, bs[j], k, ivs[j], rounds).iv
      ensures Serialize(Chain(mode, encryption, bs, k, iv, rounds))[8 * j..8 * j + 8]
              == BlockBytes(Step(mode, encryption, bs[j], k, ivs[j], rounds).out)
    {
      ChainBlockBytes(mode, encryption, bs, k, iv, rounds, j, Step(mode, encryption, bs[j], k, ivs[j], rounds));
    }
  }

  /** One pass of the `doBlocks` loop body: reads block i, runs the mode on
      it and writes the output block at its offset. */
  method ChainStep(m: Mode, encryption: bool, padding: bool, msg: seq<Byte>, pad: nat,
                   k: seq<Word>, chain: array<Word>, v: array<Word>, rounds: nat, out: array<Byte>,
                   offset: nat, ghost i: nat, ghost blocks: seq<Block>, ghost ivs: seq<Block>, ghost expected: seq<Byte>)
    requires |k| == 4 && chain.Length == 2 && v.Length == 2 && v != chain
    requires rounds <= MAX_ROUNDS
    requires padding ==> pad == PadLength(|msg|)
    requires !padding ==> |msg| % 8 == 0 && offset + 8 <= |msg|
    requires blocks == BlocksOf(InputOf(msg, padding))
    requires Traced(m, encryption, blocks, k, rounds, ivs, expected)
    requires offset == 8 * i && offset <= |msg| && out.Length == |InputOf(msg, padding)| && i <= |blocks|
    requires Block(chain[0], chain[1]) == ivs[i]
    requires out[..offset] == expected[..offset]
    modifies v, chain, out
    ensures i < |blocks| && offset + 8 <= out.Length
    ensures Block(chain[0], chain[1]) == ivs[i + 1]
    ensures out[..offset + 8] == expected[..offset + 8]
    ensures offset + 8 <= |msg| || (padding && offset + 8 == out.Length)
  {
    ReadBlock(msg, padding, pad, offset, i, v);
    ApplyMode(m, encryption, v, k, chain, rounds);
    ghost var s := Step(m, encryption, blocks[i], k, ivs[i], rounds);
    assert Block(chain[0], chain[1]) == s.iv && Block(v[0], v[1]) == s.out;
    WriteExpected(out, Block(v[0], v[1]), offset, expected);
  }

  /** Writes a block whose bytes are the next eight expected ones, extending
      the expected prefix of `out` by eight bytes. */
  method WriteExpected(out: array<Byte>, b: Block, offset: nat, ghost expected: seq<Byte>)
    requires offset + 8 <= out.Length && offset + 8 <= |expected|
    requires expected[offset..offset + 8] == BlockBytes(b) && out[..offset] == expected[..offset]
    modifies out
    ensures out[..offset + 8] == expected[..offset + 8]
  {
    WriteBlock(out, b, offset);
    PrefixExtend(out[..], expected, offset, 8);
  }

  /** The input is a whole number of blocks, at most one block longer than
      the message. */
  lemma BlockCount(msg: seq<Byte>, padding: bool)
    requires !padding ==> |msg| % 8 == 0
    ensures var input := InputOf(msg, padding);
            8 * |BlocksOf(input)| == |input| && (if padding then |input| <= |msg| + 8 else |input| == |msg|)
  {
  }

  /** The loop of `doBlocks`, against a record of what the mode does to each
      block: leaves the last recorded chaining value in `chain` and the
      recorded bytes in `out`. */
  method ChainLoop(m: Mode, encryption: bool, padding: bool, msg: seq<Byte>, pad: nat,
                   k: seq<Word>, chain: array<Word>, rounds: nat, out: array<Byte>,
                   ghost blocks: seq<Block>, ghost ivs: seq<Block>, ghost expected: seq<Byte>)
    requires |k| == 4 && chain.Length == 2 && rounds <= MAX_ROUNDS
    requires padding ==> pad == PadLength(|msg|)
    requires !padding ==> |msg| % 8 == 0
    requires out.Length == |InputOf(msg, padding)|
    requires blocks == BlocksOf(InputOf(msg, padding))
    requires Traced(m, encryption, blocks, k, rounds, ivs, expected)
    requires Block(chain[0], chain[1]) == ivs[0]
    modifies chain, out
    ensures out[..] == expected && Block(chain[0], chain[1]) == ivs[|blocks|]
  {
    var v := new Word[2];
    var length := |msg|;
    var offset := 0;
    ghost var i := 0;
    BlockCount(msg, padding);
    while offset <= length
      invariant offset == 8 * i && i <= |blocks| && |InputOf(msg, padding)| == out.Length
      invariant 8 * |blocks| == out.Length && (if padding then out.Length <= length + 8 else out.Length == length)
      invariant Block(chain[0], chain[1]) == ivs[i]
      invariant out[..offset] == expected[..offset]
      decreases length + 8 - offset
    {
      if length - offset < 8 && !padding {
        break;
      }
      ChainStep(m, encryption, padding, msg, pad, k, chain, v, rounds, out, offset, i, blocks, ivs, expected);
      offset := offset + 8;
      i := i + 1;
    }
    assert out[..] == out[..offset];
  }

  /** `doBlocks`' loop over the blocks of the input: runs the mode from the
      chaining value in `chain`, writing each output block at its offset,
      and leaves the last chaining value in `chain`. */
  method ChainBlocks(m: Mode, encryption: bool, padding: bool, msg: seq<Byte>, pad: nat,
                     k: seq<Word>, chain: array<Word>, rounds: nat, out: array<Byte>)
    requires |k| == 4 && chain.Length == 2 && rounds <= MAX_ROUNDS
    requires padding ==> pad == PadLength(|msg|)
    requires !padding ==> |msg| % 8 == 0
    requires out.Length == |InputOf(msg, padding)|
    modifies chain, out
    ensures var bs := BlocksOf(InputOf(msg, padding));
            var iv := Block(old(chain[0]), old(chain[1]));
            out[..] == Serialize(Chain(m, encryption, bs, k, iv, rounds)) &&
            Block(chain[0], chain[1]) == IvAfter(m, encryption, bs, k, iv, rounds)
  {
    ghost var blocks := BlocksOf(InputOf(msg, padding));
    ghost var iv0 := Block(chain[0], chain[1]);
    ghost var ivs := IvTrace(m, encryption, blocks, k, iv0, rounds);
    TracedChain(m, encryption, blocks, k, iv0, rounds);
    assert ivs[0] == iv0 by { assert blocks[..0] == []; }
    ChainLoop(m, encryption, padding, msg, pad, k, chain, rounds, out, blocks, ivs,
              Serialize(Chain(m, encryption, blocks, k, iv0, rounds)));
    assert blocks[..|blocks|] == blocks;
  }

  /** `doBlocks(encryption, msg, key, mode, iv, skippad, rounds)`: checks the
      mode and the alignment, reads the IV and the key, runs the mode over
      every block (the last one padded when encrypting with padding) and, when
      decrypting with padding, drops the padding. */
  method DoBlocks(encryption: bool, msg: seq<Byte>, key: seq<Byte>, mode: Option<string>,
                  iv: Option<seq<Byte>>, skippad: bool, rounds: nat) returns (r: Result<seq<Byte>, Error>)
    requires rounds <= MAX_ROUNDS
    ensures r == Processed(encryption, msg, key, mode, iv, skippad, rounds)
  {
    var m :- ModeOf(mode);
    var n := RoundsOf(rounds);
    var ivBytes := IvBytes(iv);
    var length := |msg|;
    var pad := PadLength(length);
    if skippad || !encryption {
      if pad != 8 {
        return Failure(NotAligned);
      }
      pad := 0;
    }
    var out := new Byte[length + pad];
    var k := new Word[4];
    var chain := new Word[2];
    var ivRead := ReadIv(ivBytes, chain);
    if ivRead.Failure? {
      return Failure(ivRead.error);
    }
    var keyRead := ReadKey(key, k);
    if keyRead.Failure? {
      return Failure(keyRead.error);
    }
    var output := RunBlocks(m, encryption, skippad, msg, pad, k[..], chain, n, out);
    return Success(output);
  }

  /** The tail of `doBlocks`: the block loop, then the unpadding of the
      output when decrypting with padding. */
  method RunBlocks(m: Mode, encryption: bool, skippad: bool, msg: seq<Byte>, pad: nat,
                   k: seq<Word>, chain: array<Word>, rounds: nat, out: array<Byte>) returns (r: seq<Byte>)
    requires |k| == 4 && chain.Length == 2 && rounds <= MAX_ROUNDS
    requires !Unpadding(encryption, skippad) ==> pad == PadLength(|msg|)
    requires Unpadding(encryption, skippad) ==> |msg| % 8 == 0
    requires out.Length == |InputOf(msg, !Unpadding(encryption, skippad))|
    modifies chain, out
    ensures r == Output(m, encryption, skippad, msg, k, old(Block(chain[0], chain[1])), rounds)
  {
    ChainBlocks(m, encryption, !Unpadding(encryption, skippad), msg, pad, k, chain, rounds, out);
    if skippad || encryption {
      return out[..];
    }
    if out.Length == 0 {
      return [];
    }
    var pad2 := out[out.Length - 1];
    return ClampedSlice(out[..], 0, out.Length - pad2);
  }

  /** `encrypt(msg, key, mode, iv, skippad, rounds)`. */
  method Encrypt(msg: seq<Byte>, key: seq<Byte>, mode: Option<string>, iv: Option<seq<Byte>>,
                 skippad: bool, rounds: nat) returns (r: Result<seq<Byte>, Error>)
    requires rounds <= MAX_ROUNDS
    ensures r == Processed(true, msg, key, mode, iv, skippad, rounds)
  {
    r := DoBlocks(true, msg, key, mode, iv, skippad, rounds);
  }

  /** `decrypt(msg, key, mode, iv, skippad, rounds)`. */
  method Decrypt(msg: seq<Byte>, key: seq<Byte>, mode: Option<string>, iv: Option<seq<Byte>>,
                 skippad: bool, rounds: nat) returns (r: Result<seq<Byte>, Error>)
    requires rounds <= MAX_ROUNDS
    ensures r == Processed(false, msg, key, mode, iv, skippad, rounds)
  {
    r := DoBlocks(false, msg, key, mode, iv, skippad, rounds);
  }
}
