/** Percent-encoding of byte strings, and the decoder that also reads '+' as a space. */
module Url {

  /** Characters are bytes; the terminating byte of a C++ string can be read at index size(). */
  type Byte = x: int | 0 <= x < 256

  const PERCENT: Byte := '%' as int
  const PLUS: Byte := '+' as int
  const SPACE: Byte := ' ' as int

  // ---- the character classes ----

  /** A byte as the signed character the comparisons see. */
  function Signed(b: Byte): int {
    if b < 128 then b else b - 256
  }

  /** The condition of the escaping branch, on signed characters. */
  predicate MustEscape(b: Byte) {
    var c := Signed(b);
    && (c < 'a' as int || c > 'z' as int)
    && (c < 'A' as int || c > 'Z' as int)
    && (c < '0' as int || c > '9' as int)
    && c != '.' as int && c != '-' as int && c != '~' as int && c != '_' as int
  }

  /** Section 2.3 of RFC 3986: letters, digits, hyphen, period, underscore, tilde. */
  predicate IsUnreserved(b: Byte) {
    || 'a' as int <= b <= 'z' as int || 'A' as int <= b <= 'Z' as int || '0' as int <= b <= '9' as int
    || b == '-' as int || b == '.' as int || b == '_' as int || b == '~' as int
  }

  lemma EscapesAllButUnreserved(b: Byte)
    ensures MustEscape(b) <==> !IsUnreserved(b)
  {
  }

  predicate IsHexDigit(b: Byte) {
    '0' as int <= b <= '9' as int || 'A' as int <= b <= 'F' as int || 'a' as int <= b <= 'f' as int
  }

  predicate IsUpperHexDigit(b: Byte) {
    '0' as int <= b <= '9' as int || 'A' as int <= b <= 'F' as int
  }

  function HexValue(b: Byte): (v: nat)
    requires IsHexDigit(b)
    ensures v < 16
  {
    if b <= '9' as int then b - '0' as int
    else if b <= 'F' as int then b - 'A' as int + 10
    else b - 'a' as int + 10
  }

  function HexDigit(v: nat): (b: Byte)
    requires v < 16
    ensures IsUpperHexDigit(b) && HexValue(b) == v
  {
    if v < 10 then '0' as int + v else 'A' as int + v - 10
  }

  // ---- encoding ----

  function EncodedByte(b: Byte): seq<Byte> {
    if MustEscape(b) then [PERCENT, HexDigit(b / 16), HexDigit(b % 16)] else [b]
  }

  function Encoded(s: seq<Byte>): seq<Byte> {
    if s == [] then [] else EncodedByte(s[0]) + Encoded(s[1..])
  }

  lemma {:induction false} EncodedAppend(s: seq<Byte>, b: Byte)
    ensures Encoded(s + [b]) == Encoded(s) + EncodedByte(b)
  {
    if s == [] {
      assert [b][1..] == [];
    } else {
      assert (s + [b])[1..] == s[1..] + [b];
      EncodedAppend(s[1..], b);
    }
  }

  method Encode(s: seq<Byte>) returns (out: seq<Byte>)
    ensures out == Encoded(s)
  {
    out := [];
    for i := 0 to |s|
      invariant out == Encoded(s[..i])
    {
      EncodedAppend(s[..i], s[i]);
      assert s[..i] + [s[i]] == s[..i + 1];
      if MustEscape(s[i]) {
        out := out + [PERCENT, HexDigit(s[i] / 16), HexDigit(s[i] % 16)];
      } else {
        out := out + [s[i]];
      }
    }
    assert s[..|s|] == s;
  }

  // ---- decoding ----

  predicate StartsEscape(s: seq<Byte>) {
    |s| >= 3 && s[0] == PERCENT && IsHexDigit(s[1]) && IsHexDigit(s[2])
  }

  function Decoded(s: seq<Byte>): seq<Byte> {
    if s == [] then []
    else if StartsEscape(s) then [16 * HexValue(s[1]) + HexValue(s[2])] + Decoded(s[3..])
    else [if s[0] == PLUS then SPACE else s[0]] + Decoded(s[1..])
  }

  /** `s[i]`, where the index may be one past the end. */
  function CharAt(s: seq<Byte>, i: nat): Byte {
    if i < |s| then s[i] else 0
  }

  /** The reading position is a 32-bit counter, so longer strings are excluded; `size() - 2` wraps for short ones. */
  method Decode(s: seq<Byte>) returns (out: seq<Byte>)
    requires |s| < 0x1_0000_0000
    ensures out == Decoded(s)
  {
    var readIdx := 0;
    out := [];
    while readIdx < |s|
      invariant 0 <= readIdx <= |s|
      invariant out + Decoded(s[readIdx..]) == Decoded(s)
    {
      DecodedAt(s, readIdx);
      ghost var done, tail := out, Decoded(s[readIdx..]);
      if readIdx < (|s| - 2) % 0x1_0000_0000_0000_0000 && s[readIdx] == PERCENT
         && IsHexDigit(CharAt(s, readIdx + 1)) && IsHexDigit(CharAt(s, readIdx + 2))
      {
        var high := s[readIdx + 1];
        var low := s[readIdx + 2];
        out := out + [16 * HexValue(high) + HexValue(low)];
        readIdx := readIdx + 2;
      } else if s[readIdx] == PLUS {
        out := out + [SPACE];
      } else {
        out := out + [s[readIdx]];
      }
      readIdx := readIdx + 1;
      AppendFirst(done, tail, out, Decoded(s[readIdx..]));
    }
  }

  lemma AppendFirst(done: seq<Byte>, tail: seq<Byte>, done': seq<Byte>, tail': seq<Byte>)
    requires exists b :: done' == done + [b] && tail == [b] + tail'
    ensures done + tail == done' + tail'
  {
  }

  predicate EscapeAt(s: seq<Byte>, i: nat) {
    i + 2 < |s| && s[i] == PERCENT && IsHexDigit(s[i + 1]) && IsHexDigit(s[i + 2])
  }

  /** One decoding step at position i. */
  lemma DecodedAt(s: seq<Byte>, i: nat)
    requires i < |s|
    ensures EscapeAt(s, i) ==> Decoded(s[i..]) == [16 * HexValue(s[i + 1]) + HexValue(s[i + 2])] + Decoded(s[i + 3..])
    ensures !EscapeAt(s, i) ==> Decoded(s[i..]) == [if s[i] == PLUS then SPACE else s[i]] + Decoded(s[i + 1..])
  {
    var rest := s[i..];
    assert rest[1..] == s[i + 1..];
    if i + 2 < |s| {
      assert rest[1] == s[i + 1] && rest[2] == s[i + 2] && rest[3..] == s[i + 3..];
    }
  }

  // ---- the round trip ----

  /** Decoding undoes encoding on every byte string. */
  lemma {:induction false} RoundTrip(s: seq<Byte>)
    ensures Decoded(Encoded(s)) == s
  {
    if s != [] {
      var head, tail := EncodedByte(s[0]), Encoded(s[1..]);
      RoundTrip(s[1..]);
      DecodeOne(s[0], tail);
    }
  }

  lemma DecodeOne(b: Byte, tail: seq<Byte>)
    ensures Decoded(EncodedByte(b) + tail) == [b] + Decoded(tail)
  {
    var t := EncodedByte(b) + tail;
    if MustEscape(b) {
      assert t[3..] == tail;
    } else {
      assert t[1..] == tail && b != PERCENT && b != PLUS;
    }
  }

  lemma EncodeInjective(s: seq<Byte>, t: seq<Byte>)
    requires Encoded(s) == Encoded(t)
    ensures s == t
  {
    RoundTrip(s);
    RoundTrip(t);
  }

  /** Unreserved characters, and upper-case escapes (section 2.1 of RFC 3986) of the other bytes. */
  predicate IsCanonical(t: seq<Byte>) {
    if t == [] then true
    else if IsUnreserved(t[0]) then IsCanonical(t[1..])
    else
      && |t| >= 3 && t[0] == PERCENT && IsUpperHexDigit(t[1]) && IsUpperHexDigit(t[2])
      && !IsUnreserved(16 * HexValue(t[1]) + HexValue(t[2]))
      && IsCanonical(t[3..])
  }

  lemma {:induction false} EncodedIsCanonical(s: seq<Byte>)
    ensures IsCanonical(Encoded(s))
  {
    if s != [] {
      var b, tail := s[0], Encoded(s[1..]);
      EncodedIsCanonical(s[1..]);
      EscapesAllButUnreserved(b);
      var t := EncodedByte(b) + tail;
      if MustEscape(b) {
        assert t[3..] == tail;
        EscapesAllButUnreserved(PERCENT);
      } else {
        assert t[1..] == tail;
      }
    }
  }

  lemma {:induction false} CanonicalIsEncoded(t: seq<Byte>)
    requires IsCanonical(t)
    ensures Encoded(Decoded(t)) == t
  {
    if t != [] {
      EscapesAllButUnreserved(t[0]);
      if IsUnreserved(t[0]) {
        CanonicalIsEncoded(t[1..]);
        assert Decoded(t)[1..] == Decoded(t[1..]);
        assert t == [t[0]] + t[1..];
      } else {
        var b := 16 * HexValue(t[1]) + HexValue(t[2]);
        EscapesAllButUnreserved(b);
        CanonicalIsEncoded(t[3..]);
        assert Decoded(t)[1..] == Decoded(t[3..]);
        EscapeOf(t[1], t[2]);
        assert t == [t[0], t[1], t[2]] + t[3..];
      }
    }
  }

  lemma EscapeOf(high: Byte, low: Byte)
    requires IsUpperHexDigit(high) && IsUpperHexDigit(low)
    ensures var b := 16 * HexValue(high) + HexValue(low);
      HexDigit(b / 16) == high && HexDigit(b % 16) == low
  {
  }

  /** The encoder's outputs are exactly the canonical strings, which are exactly those that decoding can be undone on. */
  lemma EncodeAfterDecodeIff(t: seq<Byte>)
    ensures Encoded(Decoded(t)) == t <==> IsCanonical(t)
  {
    EncodedIsCanonical(Decoded(t));
    if IsCanonical(t) {
      CanonicalIsEncoded(t);
    }
  }
}
