/** The in-place SHA-256 and HMAC of the authentication library, proved against FIPS 180-4 and FIPS 198-1. */
module Crypto {
  import opened BitOps
  import opened Fips180
  import opened Fips198

  // The rotation macro is two shifts, or-ed; it is written out for each distance.

  function Sum0(x: Word): Word {
    Word(((x.bits >> 2) | (x.bits << 30)) ^ ((x.bits >> 13) | (x.bits << 19)) ^ ((x.bits >> 22) | (x.bits << 10)))
  }

  function Sum1(x: Word): Word {
    Word(((x.bits >> 6) | (x.bits << 26)) ^ ((x.bits >> 11) | (x.bits << 21)) ^ ((x.bits >> 25) | (x.bits << 7)))
  }

  function Sigma0(x: Word): Word {
    Word(((x.bits >> 7) | (x.bits << 25)) ^ ((x.bits >> 18) | (x.bits << 14)) ^ (x.bits >> 3))
  }

  function Sigma1(x: Word): Word {
    Word(((x.bits >> 17) | (x.bits << 15)) ^ ((x.bits >> 19) | (x.bits << 13)) ^ (x.bits >> 10))
  }

  /** Two shifts or-ed are a rotation, so the macros are the functions of section 4.1.2. */
  lemma MacrosAreSigmas(x: Word)
    ensures Sum0(x) == BigSigma0(x)
    ensures Sum1(x) == BigSigma1(x)
    ensures Sigma0(x) == SmallSigma0(x)
    ensures Sigma1(x) == SmallSigma1(x)
  {
    RotationBits(x.bits);
  }

  lemma RotationBits(x: bv32)
    ensures ((x >> 2) | (x << 30)) ^ ((x >> 13) | (x << 19)) ^ ((x >> 22) | (x << 10))
         == x.RotateRight(2) ^ x.RotateRight(13) ^ x.RotateRight(22)
    ensures ((x >> 6) | (x << 26)) ^ ((x >> 11) | (x << 21)) ^ ((x >> 25) | (x << 7))
         == x.RotateRight(6) ^ x.RotateRight(11) ^ x.RotateRight(25)
    ensures ((x >> 7) | (x << 25)) ^ ((x >> 18) | (x << 14)) ^ (x >> 3)
         == x.RotateRight(7) ^ x.RotateRight(18) ^ (x >> 3)
    ensures ((x >> 17) | (x << 15)) ^ ((x >> 19) | (x << 13)) ^ (x >> 10)
         == x.RotateRight(17) ^ x.RotateRight(19) ^ (x >> 10)
  {
  }

  /** Fills the message schedule: sixteen words read from the chunk, the others computed from earlier ones. */
  method FillSchedule(chunk: seq<Byte>, startIndex: nat, w: array<Word>)
    requires startIndex + 64 <= |chunk| && w.Length == 64
    modifies w
    ensures forall t :: 0 <= t < 64 ==> w[t] == W(chunk[startIndex..startIndex + 64], t)
  {
    ghost var block := chunk[startIndex..startIndex + 64];
    for i := 0 to 16
      invariant forall t :: 0 <= t < i ==> w[t] == W(block, t)
    {
      var j := startIndex + 4 * i;
      w[i] := WordOf(chunk[j], chunk[j + 1], chunk[j + 2], chunk[j + 3]);
    }
    for i := 16 to 64
      invariant forall t :: 0 <= t < i ==> w[t] == W(block, t)
    {
      MacrosAreSigmas(w[i - 2]);
      MacrosAreSigmas(w[i - 15]);
      w[i] := Plus(Plus(Plus(Sigma1(w[i - 2]), w[i - 7]), Sigma0(w[i - 15])), w[i - 16]);
    }
  }

  /** Moves every entry down one place, with new values for the fifth and the first. */
  method ShiftDown(v: array<Word>, fifth: Word, first: Word)
    requires v.Length == 8
    modifies v
    ensures v[..] == old([first, v[0], v[1], v[2], fifth, v[4], v[5], v[6]])
  {
    ghost var s := v[..];
    v[7] := v[6];
    v[6] := v[5];
    v[5] := v[4];
    v[4] := fifth;
    v[3] := v[2];
    v[2] := v[1];
    v[1] := v[0];
    v[0] := first;
    assert v[0] == first && v[1] == s[0] && v[2] == s[1] && v[3] == s[2];
    assert v[4] == fifth && v[5] == s[4] && v[6] == s[5] && v[7] == s[6];
  }

  /** One round: the working variables move down one place, two of them with new values. */
  method RoundInPlace(v: array<Word>, k: Word, w: Word)
    requires v.Length == 8
    modifies v
    ensures v[..] == Round(old(v[..]), k, w)
  {
    MacrosAreSigmas(v[4]);
    MacrosAreSigmas(v[0]);
    var t1 := Plus(Plus(Plus(Plus(v[7], Sum1(v[4])), Ch(v[4], v[5], v[6])), k), w);
    var t2 := Plus(Sum0(v[0]), Maj(v[0], v[1], v[2]));
    ShiftDown(v, Plus(v[3], t1), Plus(t1, t2));
  }

  method CopyWords(from: array<Word>, to: array<Word>)
    requires from.Length == to.Length && from != to
    modifies to
    ensures to[..] == from[..]
  {
    for i := 0 to from.Length
      invariant forall j :: 0 <= j < i ==> to[j] == from[j]
    {
      to[i] := from[i];
    }
  }

  method AllRounds(hashValue: array<Word>, w: array<Word>, ghost block: seq<Byte>) returns (v: array<Word>)
    requires hashValue.Length == 8 && w.Length == 64 && |block| == 64
    requires forall t :: 0 <= t < 64 ==> w[t] == W(block, t)
    ensures fresh(v) && v.Length == 8 && v[..] == Rounds(hashValue[..], block, 64)
  {
    v := new Word[8];
    CopyWords(hashValue, v);
    for i := 0 to 64
      modifies v
      invariant v[..] == Rounds(hashValue[..], block, i)
    {
      RoundInPlace(v, K(i), w[i]);
    }
  }

  method AddInPlace(hashValue: array<Word>, workingVar: array<Word>)
    requires hashValue.Length == 8 && workingVar.Length == 8 && hashValue != workingVar
    modifies hashValue
    ensures hashValue[..] == Add(old(hashValue[..]), workingVar[..])
  {
    for i := 0 to 8
      invariant forall j :: 0 <= j < i ==> hashValue[j] == Plus(old(hashValue[j]), workingVar[j])
      invariant forall j :: i <= j < 8 ==> hashValue[j] == old(hashValue[j])
    {
      hashValue[i] := Plus(hashValue[i], workingVar[i]);
    }
  }

  /** Compresses the 64 bytes at startIndex into the hash value. */
  method Sha256Transform(chunk: seq<Byte>, startIndex: nat, hashValue: array<Word>)
    requires startIndex + 64 <= |chunk| && hashValue.Length == 8
    modifies hashValue
    ensures hashValue[..] == Compress(old(hashValue[..]), chunk[startIndex..startIndex + 64])
  {
    var w := new Word[64];
    FillSchedule(chunk, startIndex, w);
    var workingVar := AllRounds(hashValue, w, chunk[startIndex..startIndex + 64]);
    AddInPlace(hashValue, workingVar);
  }

  // ---- the padded tail of the message ----

  method FillWithZeros(s: seq<Byte>, length: nat) returns (r: seq<Byte>)
    requires |s| <= length
    ensures r == s + Zeros(length - |s|)
  {
    r := s;
    for i := |s| to length
      invariant r == s + Zeros(i - |s|)
    {
      r := r + [Byte(0)];
    }
  }

  /** Pushes the eight bytes of a 64-bit number, the most significant first. */
  method AppendLength(s: seq<Byte>, x: nat) returns (r: seq<Byte>)
    requires x < TWO_64
    ensures r == s + BigEndian(x, 8)
  {
    r := s;
    var i := 8;
    LeadingByte(x);
    while i > 0
      invariant 0 <= i <= 8
      invariant r == s + BigEndian(Shr(x, 8 * i), 8 - i)
    {
      var b := LengthByte(x, i);
      AppendByte(s, BigEndian(Shr(x, 8 * i), 8 - i), b);
      r := r + [b];
      i := i - 1;
    }
    NoShift(x);
  }

  lemma NoShift(x: nat)
    ensures Shr(x, 8 * 0) == x
  {
  }

  lemma AppendByte(s: seq<Byte>, bytes: seq<Byte>, b: Byte)
    ensures (s + bytes) + [b] == s + (bytes + [b])
  {
  }

  /** The byte of a number that is `i` places from its end. */
  method LengthByte(x: nat, i: nat) returns (b: Byte)
    requires 0 < i <= 8
    ensures BigEndian(Shr(x, 8 * (i - 1)), 9 - i) == BigEndian(Shr(x, 8 * i), 8 - i) + [b]
  {
    NextByte(x, i);
    b := Byte(And(Shr(x, (i - 1) * 8), 0xff) as bv8);
  }

  lemma LeadingByte(x: nat)
    ensures BigEndian(Shr(x, 64), 0) == []
  {
  }

  lemma NextByte(x: nat, i: nat)
    requires 0 < i <= 8
    ensures var y := Shr(x, (i - 1) * 8);
      && And(y, 0xff) < 256
      && BigEndian(y, 9 - i) == BigEndian(Shr(x, 8 * i), 8 - i) + [Byte(And(y, 0xff) as bv8)]
  {
    var y := Shr(x, (i - 1) * 8);
    ShrShr(x, (i - 1) * 8, 8);
    LowIsMod(y, 8);
    AndMask(y, 8);
    assert Pow2(8) == 256;
  }

  function Concat(chunks: seq<seq<Byte>>): seq<Byte> {
    if chunks == [] then [] else Concat(chunks[..|chunks| - 1]) + chunks[|chunks| - 1]
  }

  /** The one or two chunks after the last full block: what is left of the message, and its padding. */
  method TailChunks(src: seq<Byte>) returns (chunks: seq<seq<Byte>>)
    requires |src| < 0x2000_0000_0000_0000
    ensures forall i :: 0 <= i < |chunks| ==> |chunks[i]| == 64
    ensures src[..|src| / 64 * 64] + Concat(chunks) == Pad(src)
  {
    var length := |src|;
    var chunksCount := length / 64;
    var lastChunkSize := length % 64;
    var rest := src[chunksCount * 64..];
    var srcLength := length * 8 % TWO_64;
    LengthBits(length);
    if lastChunkSize < 56 {
      var lastChunk := LastChunk(rest + [Byte(0x80)], srcLength);
      chunks := [lastChunk];
      ConcatOne(lastChunk);
      ShortTail(rest, length, lastChunk);
    } else {
      var secondLastChunk := FillWithZeros(rest + [Byte(0x80)], 64);
      var lastChunk := LastChunk([], srcLength);
      chunks := [secondLastChunk] + [lastChunk];
      ConcatTwo(secondLastChunk, lastChunk);
      LongTail(rest, length, secondLastChunk, lastChunk);
    }
    PadInTwo(src, rest, Concat(chunks));
  }

  lemma LengthBits(length: nat)
    requires length < 0x2000_0000_0000_0000
    ensures length * 8 % TWO_64 == 8 * length < TWO_64
  {
  }

  /** Zeros up to the last eight bytes of the chunk, then the length. */
  method LastChunk(start: seq<Byte>, srcLength: nat) returns (chunk: seq<Byte>)
    requires |start| <= 56 && srcLength < TWO_64
    ensures chunk == start + Zeros(56 - |start|) + BigEndian(srcLength, 8)
  {
    chunk := FillWithZeros(start, 56);
    chunk := AppendLength(chunk, srcLength);
  }

  lemma ConcatOne(c: seq<Byte>)
    ensures Concat([]) == [] && Concat([c]) == c
  {
    assert [c][..0] == [];
  }

  lemma ConcatTwo(c: seq<Byte>, d: seq<Byte>)
    ensures Concat([c] + [d]) == c + d
  {
    ConcatOne(c);
    assert ([c] + [d])[..1] == [c];
  }

  /** The number of zero bytes, from the length modulo 64. */
  lemma ZeroBytesFromRest(length: nat)
    ensures var r := length % 64;
      ZeroBytes(length) == if r < 56 then 55 - r else 119 - r
  {
    var q, r := length / 64, length % 64;
    ModOf64(-q, 55 - r);
    ModOf64(-q - 1, 119 - r);
  }

  lemma ModOf64(q: int, a: int)
    ensures 0 <= a < 64 ==> (64 * q + a) % 64 == a
  {
  }

  lemma ShortTail(rest: seq<Byte>, length: nat, lastChunk: seq<Byte>)
    requires |rest| == length % 64 < 56
    requires lastChunk == (rest + [Byte(0x80)]) + Zeros(55 - |rest|) + BigEndian(8 * length, 8)
    ensures lastChunk == rest + Padding(length)
  {
    ZeroBytesFromRest(length);
    Regroup(rest, [Byte(0x80)], Zeros(55 - |rest|), BigEndian(8 * length, 8));
  }

  lemma LongTail(rest: seq<Byte>, length: nat, secondLastChunk: seq<Byte>, lastChunk: seq<Byte>)
    requires |rest| == length % 64 >= 56
    requires secondLastChunk == (rest + [Byte(0x80)]) + Zeros(63 - |rest|)
    requires lastChunk == [] + Zeros(56) + BigEndian(8 * length, 8)
    ensures secondLastChunk + lastChunk == rest + Padding(length)
  {
    ZeroBytesFromRest(length);
    var one, z1, z2, l := [Byte(0x80)], Zeros(63 - |rest|), Zeros(56), BigEndian(8 * length, 8);
    assert [] + z2 == z2;
    assert z1 + z2 == Zeros(119 - |rest|);
    assert ((rest + one) + z1) + (z2 + l) == (rest + one) + (z1 + z2) + l;
    Regroup(rest, one, z1 + z2, l);
  }

  lemma Regroup(a: seq<Byte>, b: seq<Byte>, c: seq<Byte>, d: seq<Byte>)
    ensures (a + b) + c + d == a + (b + c + d)
  {
  }

  lemma PadInTwo(src: seq<Byte>, rest: seq<Byte>, tail: seq<Byte>)
    requires rest == src[|src| / 64 * 64..] && tail == rest + Padding(|src|)
    ensures src[..|src| / 64 * 64] + tail == Pad(src)
  {
    var front := src[..|src| / 64 * 64];
    assert src == front + rest;
    assert front + (rest + Padding(|src|)) == (front + rest) + Padding(|src|);
  }

  // ---- the digest ----

  /** Shifts a word down byte by byte, then pushes the four bytes in the opposite order. */
  method AppendWord(s: seq<Byte>, word: Word) returns (r: seq<Byte>)
    ensures r == s + WordBytes(word)
  {
    ShiftTwice(word.bits);
    var value := word;
    var v3 := LowByte(value);
    value := Word(value.bits >> 8);
    var v2 := LowByte(value);
    value := Word(value.bits >> 8);
    var v1 := LowByte(value);
    value := Word(value.bits >> 8);
    r := s + [LowByte(value)] + [v1] + [v2] + [v3];
  }

  lemma ShiftTwice(x: bv32)
    ensures ((x >> 8) >> 8) == x >> 16 && (((x >> 8) >> 8) >> 8) == x >> 24
  {
  }

  method Sha256(src: seq<Byte>) returns (ret: seq<Byte>)
    requires |src| < 0x2000_0000_0000_0000
    ensures ret == Fips180.Sha256(src)
  {
    var hashValue := Sha256Init();
    var chunks := TailChunks(src);
    HashPadded(src, chunks, hashValue, Compressed);
    ret := WriteDigest(hashValue);
  }

  /** The full blocks of the message in place, then the padded tail. */
  method HashPadded(src: seq<Byte>, chunks: seq<seq<Byte>>, hashValue: array<Word>, ghost f: Compression)
    requires hashValue.Length == 8 && IsCompress(f)
    requires forall i :: 0 <= i < |chunks| ==> |chunks[i]| == 64
    requires src[..|src| / 64 * 64] + Concat(chunks) == Pad(src)
    modifies hashValue
    ensures hashValue[..] == HashBlocks(f, old(hashValue[..]), Pad(src), |Pad(src)| / 64)
  {
    var chunksCount := |src| / 64;
    ghost var start, padded := hashValue[..], Pad(src);
    PaddedBlocks(src, chunksCount, chunks, padded);
    HashFullBlocks(src, chunksCount, hashValue, f);
    HashBlocksOfBlocks(f, start, src, padded, chunksCount);
    HashChunks(start, padded, chunksCount, chunks, hashValue, f);
  }

  /** The blocks of the padded message are the full blocks of the message and the chunks after them. */
  lemma PaddedBlocks(src: seq<Byte>, n: nat, chunks: seq<seq<Byte>>, padded: seq<Byte>)
    requires 64 * n <= |src| && src[..64 * n] + Concat(chunks) == padded
    requires forall i :: 0 <= i < |chunks| ==> |chunks[i]| == 64
    ensures |padded| == 64 * (n + |chunks|)
    ensures forall i :: 0 <= i < n ==> Block(src, i) == Block(padded, i)
    ensures forall i :: 0 <= i < |chunks| ==> chunks[i] == Block(padded, n + i)
  {
    ConcatLength(chunks);
    forall i | 0 <= i < n
      ensures Block(src, i) == Block(padded, i)
    {
      BlockOfFront(src, n, Concat(chunks), i);
    }
    forall i | 0 <= i < |chunks|
      ensures chunks[i] == Block(padded, n + i)
    {
      ConcatBlock(chunks, i);
      BlockOfTail(src[..64 * n], n, Concat(chunks), i);
    }
  }

  lemma BlockOfFront(src: seq<Byte>, n: nat, tail: seq<Byte>, i: nat)
    requires i < n && 64 * n <= |src|
    ensures Block(src, i) == Block(src[..64 * n] + tail, i)
  {
  }

  lemma BlockOfTail(front: seq<Byte>, n: nat, tail: seq<Byte>, i: nat)
    requires |front| == 64 * n && 64 * (i + 1) <= |tail|
    ensures Block(front + tail, n + i) == Block(tail, i)
  {
  }

  lemma {:induction false} ConcatLength(chunks: seq<seq<Byte>>)
    requires forall i :: 0 <= i < |chunks| ==> |chunks[i]| == 64
    ensures |Concat(chunks)| == 64 * |chunks|
  {
    if chunks != [] {
      ConcatLength(chunks[..|chunks| - 1]);
    }
  }

  lemma {:induction false} ConcatBlock(chunks: seq<seq<Byte>>, i: nat)
    requires i < |chunks| && forall j :: 0 <= j < |chunks| ==> |chunks[j]| == 64
    ensures |Concat(chunks)| == 64 * |chunks| && Block(Concat(chunks), i) == chunks[i]
    decreases |chunks|
  {
    var front, last := chunks[..|chunks| - 1], chunks[|chunks| - 1];
    ConcatLength(chunks);
    ConcatLength(front);
    if i < |front| {
      ConcatBlock(front, i);
      assert Concat(front) == Concat(front)[..64 * |front|];
      BlockOfFront(Concat(front), |front|, last, i);
    } else {
      BlockOfTail(Concat(front), |front|, last, 0);
      WholeBlock(last);
    }
  }

  lemma WholeBlock(block: seq<Byte>)
    requires |block| == 64
    ensures block[0..64] == block && Block(block, 0) == block
  {
  }

  method Sha256Init() returns (hashValue: array<Word>)
    ensures fresh(hashValue) && hashValue.Length == 8 && hashValue[..] == InitialHash()
  {
    var initial := InitialHash();
    hashValue := new Word[8](i requires 0 <= i < 8 => initial[i]);
  }

  method WriteDigest(hashValue: array<Word>) returns (ret: seq<Byte>)
    ensures ret == Digest(hashValue[..])
  {
    ret := [];
    for i := 0 to hashValue.Length
      invariant ret == Digest(hashValue[..i])
    {
      ret := AppendWord(ret, hashValue[i]);
      assert hashValue[..i + 1][..i] == hashValue[..i];
    }
    assert hashValue[..hashValue.Length] == hashValue[..];
  }

  method HashFullBlocks(src: seq<Byte>, chunksCount: nat, hashValue: array<Word>, ghost f: Compression)
    requires chunksCount * 64 <= |src| && hashValue.Length == 8 && IsCompress(f)
    modifies hashValue
    ensures hashValue[..] == HashBlocks(f, old(hashValue[..]), src, chunksCount)
  {
    ghost var start := hashValue[..];
    for i := 0 to chunksCount
      invariant hashValue[..] == HashBlocks(f, start, src, i)
    {
      HashBlock(src, i * 64, hashValue, f);
    }
  }

  /** The compression of one block of a message. */
  method HashBlock(src: seq<Byte>, startIndex: nat, hashValue: array<Word>, ghost f: Compression)
    requires startIndex + 64 <= |src| && hashValue.Length == 8 && IsCompress(f)
    modifies hashValue
    ensures hashValue[..] == f(old(hashValue[..]), src[startIndex..startIndex + 64])
  {
    Sha256Transform(src, startIndex, hashValue);
  }

  /** The chunks are hashed as the blocks of a message from `first` on. */
  method HashChunks(ghost start: Hash, ghost message: seq<Byte>, ghost first: nat, chunks: seq<seq<Byte>>, hashValue: array<Word>,
                    ghost f: Compression)
    requires 64 * (first + |chunks|) <= |message| && hashValue.Length == 8 && IsCompress(f)
    requires forall i :: 0 <= i < |chunks| ==> chunks[i] == Block(message, first + i)
    requires hashValue[..] == HashBlocks(f, start, message, first)
    modifies hashValue
    ensures hashValue[..] == HashBlocks(f, start, message, first + |chunks|)
  {
    for i := 0 to |chunks|
      invariant hashValue[..] == HashBlocks(f, start, message, first + i)
    {
      WholeBlock(chunks[i]);
      HashBlock(chunks[i], 0, hashValue, f);
    }
  }

  // ---- HMAC ----

  method XorWith(k0: seq<Byte>, pad: Byte) returns (r: seq<Byte>)
    ensures r == XorPad(k0, pad)
  {
    r := [];
    for i := 0 to |k0|
      invariant r == XorPad(k0[..i], pad)
    {
      r := r + [XorByte(k0[i], pad)];
    }
    assert k0[..|k0|] == k0;
  }

  /** Steps 1 to 3: the key, or its hash, filled up to the block length. */
  method KeyBlock(key: seq<Byte>) returns (k0: seq<Byte>)
    requires |key| < 0x2000_0000_0000_0000
    ensures k0 == K0(key)
  {
    k0 := key;
    if |key| > BLOCK_BYTES {
      k0 := Sha256(key);
    }
    k0 := FillWithZeros(k0, BLOCK_BYTES);
  }

  /** The hash of the padded key and a text: steps 4 to 6, and 7 to 9. */
  method KeyedHash(k0: seq<Byte>, pad: Byte, text: seq<Byte>) returns (hash: seq<Byte>)
    requires |k0| == BLOCK_BYTES && |text| + BLOCK_BYTES < 0x2000_0000_0000_0000
    ensures hash == Fips180.Sha256(XorPad(k0, pad) + text)
  {
    var padded := XorWith(k0, pad);
    hash := Sha256(padded + text);
  }

  /** The keyed hash of the authentication header. */
  method HmacSha256(key: seq<Byte>, message: seq<Byte>) returns (mac: seq<Byte>)
    requires |key| < 0x2000_0000_0000_0000 && |message| + BLOCK_BYTES < 0x2000_0000_0000_0000
    ensures mac == Hmac(key, message)
  {
    var k0 := KeyBlock(key);
    var innerHash := KeyedHash(k0, Byte(0x36), message);
    mac := KeyedHash(k0, Byte(0x5c), innerHash);
  }
}
