/** SHA-256 as FIPS 180-4 defines it, on byte strings: padding (section 5.1.1), the message schedule and the
    compression of one block (section 6.2.2), and the digest. */
module Fips180 {
  import opened BitOps

  datatype Byte = Byte(bits: bv8)

  /** A 32-bit word. */
  datatype Word = Word(bits: bv32)

  /** The eight working variables a to h, or the eight words of a hash value. */
  type Hash = s: seq<Word> | |s| == 8 witness seq(8, _ => Word(0))

  /** Addition modulo 2^32. */
  function Plus(x: Word, y: Word): Word {
    Word(x.bits + y.bits)
  }

  // ---- section 4.1.2 ----

  function Ch(x: Word, y: Word, z: Word): Word {
    Word((x.bits & y.bits) ^ (!x.bits & z.bits))
  }

  function Maj(x: Word, y: Word, z: Word): Word {
    Word((x.bits & y.bits) ^ (x.bits & z.bits) ^ (y.bits & z.bits))
  }

  function BigSigma0(x: Word): Word {
    Word(x.bits.RotateRight(2) ^ x.bits.RotateRight(13) ^ x.bits.RotateRight(22))
  }

  function BigSigma1(x: Word): Word {
    Word(x.bits.RotateRight(6) ^ x.bits.RotateRight(11) ^ x.bits.RotateRight(25))
  }

  function SmallSigma0(x: Word): Word {
    Word(x.bits.RotateRight(7) ^ x.bits.RotateRight(18) ^ (x.bits >> 3))
  }

  function SmallSigma1(x: Word): Word {
    Word(x.bits.RotateRight(17) ^ x.bits.RotateRight(19) ^ (x.bits >> 10))
  }

  // ---- section 4.2.2: the constants, whose derivation is checked in Sha256Constants ----

  const K_ROWS: seq<seq<bv32>> := [
    [0x428a2f98, 0x71374491, 0xb5c0fbcf, 0xe9b5dba5, 0x3956c25b, 0x59f111f1, 0x923f82a4, 0xab1c5ed5],
    [0xd807aa98, 0x12835b01, 0x243185be, 0x550c7dc3, 0x72be5d74, 0x80deb1fe, 0x9bdc06a7, 0xc19bf174],
    [0xe49b69c1, 0xefbe4786, 0x0fc19dc6, 0x240ca1cc, 0x2de92c6f, 0x4a7484aa, 0x5cb0a9dc, 0x76f988da],
    [0x983e5152, 0xa831c66d, 0xb00327c8, 0xbf597fc7, 0xc6e00bf3, 0xd5a79147, 0x06ca6351, 0x14292967],
    [0x27b70a85, 0x2e1b2138, 0x4d2c6dfc, 0x53380d13, 0x650a7354, 0x766a0abb, 0x81c2c92e, 0x92722c85],
    [0xa2bfe8a1, 0xa81a664b, 0xc24b8b70, 0xc76c51a3, 0xd192e819, 0xd6990624, 0xf40e3585, 0x106aa070],
    [0x19a4c116, 0x1e376c08, 0x2748774c, 0x34b0bcb5, 0x391c0cb3, 0x4ed8aa4a, 0x5b9cca4f, 0x682e6ff3],
    [0x748f82ee, 0x78a5636f, 0x84c87814, 0x8cc70208, 0x90befffa, 0xa4506ceb, 0xbef9a3f7, 0xc67178f2]
  ]

  function K(t: nat): Word
    requires t < 64
  {
    Word(K_ROWS[t / 8][t % 8])
  }

  // ---- section 5.3.3 ----

  const INITIAL_WORDS: seq<bv32> := [
    0x6a09e667, 0xbb67ae85, 0x3c6ef372, 0xa54ff53a, 0x510e527f, 0x9b05688c, 0x1f83d9ab, 0x5be0cd19
  ]

  function InitialHash(): Hash {
    seq(8, i requires 0 <= i < 8 => Word(INITIAL_WORDS[i]))
  }

  // ---- section 5.1.1: a one bit, the fewest zero bits that leave room for the length, the length in 64 bits ----

  /** Zero bytes after the byte that starts with the one bit. */
  function ZeroBytes(length: nat): (z: nat)
    ensures z < 64 && (length + 1 + z + 8) % 64 == 0
  {
    (55 - length) % 64
  }

  function Zeros(n: nat): (s: seq<Byte>)
    ensures |s| == n && forall i :: 0 <= i < n ==> s[i] == Byte(0)
  {
    seq(n, _ => Byte(0))
  }

  /** The low n bytes of a number, most significant first. */
  function BigEndian(x: nat, n: nat): (s: seq<Byte>)
    ensures |s| == n
  {
    if n == 0 then [] else BigEndian(x / 256, n - 1) + [Byte((x % 256) as bv8)]
  }

  function Padding(length: nat): (s: seq<Byte>)
    ensures (length + |s|) % 64 == 0
  {
    [Byte(0x80)] + Zeros(ZeroBytes(length)) + BigEndian(8 * length, 8)
  }

  function Pad(message: seq<Byte>): (s: seq<Byte>)
    ensures |s| % 64 == 0
  {
    message + Padding(|message|)
  }

  // ---- section 6.2.2 ----

  function WordOf(b0: Byte, b1: Byte, b2: Byte, b3: Byte): Word {
    Word(((b0.bits as bv32) << 24) | ((b1.bits as bv32) << 16) | ((b2.bits as bv32) << 8) | (b3.bits as bv32))
  }

  /** The message schedule. */
  function W(block: seq<Byte>, t: nat): Word
    requires |block| == 64
  {
    if t < 16 then WordOf(block[4 * t], block[4 * t + 1], block[4 * t + 2], block[4 * t + 3])
    else
      Plus(Plus(Plus(SmallSigma1(W(block, t - 2)), W(block, t - 7)), SmallSigma0(W(block, t - 15))), W(block, t - 16))
  }

  function Round(s: Hash, k: Word, w: Word): Hash {
    var t1 := Plus(Plus(Plus(Plus(s[7], BigSigma1(s[4])), Ch(s[4], s[5], s[6])), k), w);
    var t2 := Plus(BigSigma0(s[0]), Maj(s[0], s[1], s[2]));
    [Plus(t1, t2), s[0], s[1], s[2], Plus(s[3], t1), s[4], s[5], s[6]]
  }

  function Rounds(s: Hash, block: seq<Byte>, t: nat): Hash
    requires |block| == 64 && t <= 64
  {
    if t == 0 then s else Round(Rounds(s, block, t - 1), K(t - 1), W(block, t - 1))
  }

  function Add(x: Hash, y: Hash): Hash {
    seq(8, i requires 0 <= i < 8 => Plus(x[i], y[i]))
  }

  function Compress(s: Hash, block: seq<Byte>): Hash
    requires |block| == 64
  {
    Add(s, Rounds(s, block, 64))
  }

  /** A compression function, of any kind: what is said about hashing block by block does not depend on which. */
  type Compression = (Hash, seq<Byte>) -> Hash

  function Compressed(s: Hash, block: seq<Byte>): Hash {
    if |block| == 64 then Compress(s, block) else s
  }

  ghost predicate IsCompress(f: Compression) {
    forall s, block {:trigger Compress(s, block)} :: |block| == 64 ==> f(s, block) == Compress(s, block)
  }

  /** The hash value after the first n blocks of a padded message. */
  function HashBlocks(f: Compression, s: Hash, message: seq<Byte>, n: nat): Hash
    requires 64 * n <= |message|
  {
    if n == 0 then s else f(HashBlocks(f, s, message, n - 1), Block(message, n - 1))
  }

  function Block(message: seq<Byte>, i: nat): (block: seq<Byte>)
    requires 64 * (i + 1) <= |message|
    ensures |block| == 64
  {
    message[64 * i..64 * i + 64]
  }

  function LowByte(w: Word): Byte {
    Byte((w.bits & 0xff) as bv8)
  }

  /** The four bytes of a word, most significant first. */
  function WordBytes(w: Word): (s: seq<Byte>)
    ensures |s| == 4
  {
    [LowByte(Word(w.bits >> 24)), LowByte(Word(w.bits >> 16)), LowByte(Word(w.bits >> 8)), LowByte(w)]
  }

  /** The bytes of a list of words, in order. */
  function Digest(s: seq<Word>): (d: seq<Byte>)
    ensures |d| == 4 * |s|
  {
    if s == [] then [] else Digest(s[..|s| - 1]) + WordBytes(s[|s| - 1])
  }

  function Sha256(message: seq<Byte>): (d: seq<Byte>)
    ensures |d| == 32
  {
    Digest(HashBlocks(Compressed, InitialHash(), Pad(message), |Pad(message)| / 64))
  }

  // ---- what the definitions above mean ----

  /** The padding adds the fewest zero bits k with l + 1 + k = 448 modulo 512: seven of them share the byte 0x80. */
  lemma FewestZeroBits(length: nat, k: nat)
    ensures var zeroBits := 7 + 8 * ZeroBytes(length);
      && (8 * length + 1 + zeroBits) % 512 == 448
      && ((8 * length + 1 + k) % 512 == 448 ==> zeroBits <= k)
  {
    var z, q := ZeroBytes(length), (55 - length) / 64;
    assert 8 * length + 1 + (7 + 8 * z) == 512 * (-q) + 448;
    ModOf512(-q);
    var r := (8 * length + 1 + k) / 512;
    assert (8 * length + 1 + k) % 512 == 448 ==> k - (7 + 8 * z) == 512 * (r + q);
  }

  lemma ModOf512(q: int)
    ensures (512 * q + 448) % 512 == 448
  {
  }

  function FromBigEndian(s: seq<Byte>): nat {
    if s == [] then 0 else 256 * FromBigEndian(s[..|s| - 1]) + s[|s| - 1].bits as nat
  }

  /** `BigEndian` writes the bytes that are read back as its argument: every byte string is the writing of its value. */
  lemma {:induction false} BigEndianOfValue(s: seq<Byte>)
    ensures BigEndian(FromBigEndian(s), |s|) == s
  {
    if s != [] {
      var front, last := s[..|s| - 1], s[|s| - 1];
      BigEndianOfValue(front);
      ByteQuotient(FromBigEndian(front), last);
      assert s == front + [last];
    }
  }

  lemma ByteQuotient(x: nat, b: Byte)
    ensures (256 * x + b.bits as nat) / 256 == x && Byte(((256 * x + b.bits as nat) % 256) as bv8) == b
  {
    DivModUnique(256 * x + b.bits as nat, x, b.bits as nat, 256);
  }

  /** Splitting a word into bytes and assembling them again, in either order. */
  lemma WordRoundTrip(w: Word, b0: Byte, b1: Byte, b2: Byte, b3: Byte)
    ensures var s := WordBytes(w); WordOf(s[0], s[1], s[2], s[3]) == w
    ensures WordBytes(WordOf(b0, b1, b2, b3)) == [b0, b1, b2, b3]
  {
  }

  /** The hash value after n blocks depends on these blocks only. */
  lemma {:induction false} HashBlocksOfBlocks(f: Compression, s: Hash, a: seq<Byte>, b: seq<Byte>, n: nat)
    requires 64 * n <= |a| && 64 * n <= |b|
    requires forall i :: 0 <= i < n ==> Block(a, i) == Block(b, i)
    ensures HashBlocks(f, s, a, n) == HashBlocks(f, s, b, n)
  {
    if n > 0 {
      HashBlocksOfBlocks(f, s, a, b, n - 1);
    }
  }
}
