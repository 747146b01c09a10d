/** HMAC with SHA-256 as FIPS 198-1 section 4 defines it. */
module Fips198 {
  import opened BitOps
  import opened Fips180

  const BLOCK_BYTES: nat := 64

  /** Steps 1 to 3: the key, hashed if it is longer than a block, filled with zeros to a block. */
  function K0(key: seq<Byte>): (k: seq<Byte>)
    ensures |k| == BLOCK_BYTES
  {
    var short := if |key| > BLOCK_BYTES then Sha256(key) else key;
    short + Zeros(BLOCK_BYTES - |short|)
  }

  function XorByte(a: Byte, b: Byte): Byte {
    Byte(a.bits ^ b.bits)
  }

  function XorPad(s: seq<Byte>, pad: Byte): (r: seq<Byte>)
    ensures |r| == |s| && forall i :: 0 <= i < |s| ==> r[i] == XorByte(s[i], pad)
  {
    seq(|s|, i requires 0 <= i < |s| => XorByte(s[i], pad))
  }

  /** H((K0 xor opad) || H((K0 xor ipad) || text)). */
  function Hmac(key: seq<Byte>, text: seq<Byte>): seq<Byte> {
    Sha256(XorPad(K0(key), Byte(0x5c)) + Sha256(XorPad(K0(key), Byte(0x36)) + text))
  }
}
