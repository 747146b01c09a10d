/** The constants of SHA-256, checked against their derivation in FIPS 180-4 sections 4.2.2 and 5.3.3: the first
    32 bits of the fractional parts of the cube roots of the first 64 primes, and of the square roots of the first 8. */
module Sha256Constants {
  import opened BitOps
  import opened Fips180

  const TWO_96: int := 0x1_0000_0000_0000_0000_0000_0000

  const PRIME_ROWS: seq<seq<nat>> := [
    [2, 3, 5, 7, 11, 13, 17, 19],
    [23, 29, 31, 37, 41, 43, 47, 53],
    [59, 61, 67, 71, 73, 79, 83, 89],
    [97, 101, 103, 107, 109, 113, 127, 131],
    [137, 139, 149, 151, 157, 163, 167, 173],
    [179, 181, 191, 193, 197, 199, 211, 223],
    [227, 229, 233, 239, 241, 251, 257, 263],
    [269, 271, 277, 281, 283, 293, 307, 311]
  ]

  /** The first 64 prime numbers in order, from 2 at index 0. */
  function Prime(i: nat): nat
    requires i < 64
  {
    PRIME_ROWS[i / 8][i % 8]
  }

  /** `whole`, followed by `k` as 32 binary places, is the cube root of `p` cut off after 32 places. */
  predicate IsCubeRoot(p: nat, whole: nat, k: nat) {
    var c := whole * TWO_32 + k;
    c * c * c <= p * TWO_96 < (c + 1) * (c + 1) * (c + 1)
  }

  predicate IsSquareRoot(p: nat, whole: nat, k: nat) {
    var c := whole * TWO_32 + k;
    c * c <= p * TWO_64 < (c + 1) * (c + 1)
  }

  ghost predicate CubeRootPlaces(p: nat, k: nat) {
    exists whole: nat :: IsCubeRoot(p, whole, k)
  }

  ghost predicate SquareRootPlaces(p: nat, k: nat) {
    exists whole: nat :: IsSquareRoot(p, whole, k)
  }

  /** Every round constant and every word of the initial hash value. */
  lemma ConstantsAreDerived(i: nat)
    requires i < 64
    ensures CubeRootPlaces(Prime(i), K(i).bits as nat)
    ensures i < 8 ==> SquareRootPlaces(Prime(i), INITIAL_WORDS[i] as nat)
  {
    if i < 8 {
      CubeRoots0(i);
      SquareRoots(i);
    } else if i < 16 {
      CubeRoots8(i);
    } else if i < 24 {
      CubeRoots16(i);
    } else if i < 32 {
      CubeRoots24(i);
    } else if i < 40 {
      CubeRoots32(i);
    } else if i < 48 {
      CubeRoots40(i);
    } else if i < 56 {
      CubeRoots48(i);
    } else {
      CubeRoots56(i);
    }
  }

  lemma CubeRoot(i: nat, p: nat, whole: nat, k: nat)
    requires i < 64 && Prime(i) == p && K(i).bits as nat == k && IsCubeRoot(p, whole, k)
    ensures CubeRootPlaces(Prime(i), K(i).bits as nat)
  {
  }

  lemma SquareRoot(i: nat, p: nat, whole: nat, k: nat)
    requires i < 8 && Prime(i) == p && INITIAL_WORDS[i] as nat == k && IsSquareRoot(p, whole, k)
    ensures SquareRootPlaces(Prime(i), INITIAL_WORDS[i] as nat)
  {
  }

  lemma CubeRoots0(i: nat)
    requires 0 <= i < 8
    ensures CubeRootPlaces(Prime(i), K(i).bits as nat)
  {
    CubeRoot(0, 2, 1, 0x428a2f98);
    CubeRoot(1, 3, 1, 0x71374491);
    CubeRoot(2, 5, 1, 0xb5c0fbcf);
    CubeRoot(3, 7, 1, 0xe9b5dba5);
    CubeRoot(4, 11, 2, 0x3956c25b);
    CubeRoot(5, 13, 2, 0x59f111f1);
    CubeRoot(6, 17, 2, 0x923f82a4);
    CubeRoot(7, 19, 2, 0xab1c5ed5);
  }

  lemma CubeRoots8(i: nat)
    requires 8 <= i < 16
    ensures CubeRootPlaces(Prime(i), K(i).bits as nat)
  {
    CubeRoot(8, 23, 2, 0xd807aa98);
    CubeRoot(9, 29, 3, 0x12835b01);
    CubeRoot(10, 31, 3, 0x243185be);
    CubeRoot(11, 37, 3, 0x550c7dc3);
    CubeRoot(12, 41, 3, 0x72be5d74);
    CubeRoot(13, 43, 3, 0x80deb1fe);
    CubeRoot(14, 47, 3, 0x9bdc06a7);
    CubeRoot(15, 53, 3, 0xc19bf174);
  }

  lemma CubeRoots16(i: nat)
    requires 16 <= i < 24
    ensures CubeRootPlaces(Prime(i), K(i).bits as nat)
  {
    CubeRoot(16, 59, 3, 0xe49b69c1);
    CubeRoot(17, 61, 3, 0xefbe4786);
    CubeRoot(18, 67, 4, 0x0fc19dc6);
    CubeRoot(19, 71, 4, 0x240ca1cc);
    CubeRoot(20, 73, 4, 0x2de92c6f);
    CubeRoot(21, 79, 4, 0x4a7484aa);
    CubeRoot(22, 83, 4, 0x5cb0a9dc);
    CubeRoot(23, 89, 4, 0x76f988da);
  }

  lemma CubeRoots24(i: nat)
    requires 24 <= i < 32
    ensures CubeRootPlaces(Prime(i), K(i).bits as nat)
  {
    CubeRoot(24, 97, 4, 0x983e5152);
    CubeRoot(25, 101, 4, 0xa831c66d);
    CubeRoot(26, 103, 4, 0xb00327c8);
    CubeRoot(27, 107, 4, 0xbf597fc7);
    CubeRoot(28, 109, 4, 0xc6e00bf3);
    CubeRoot(29, 113, 4, 0xd5a79147);
    CubeRoot(30, 127, 5, 0x06ca6351);
    CubeRoot(31, 131, 5, 0x14292967);
  }

  lemma CubeRoots32(i: nat)
    requires 32 <= i < 40
    ensures CubeRootPlaces(Prime(i), K(i).bits as nat)
  {
    CubeRoot(32, 137, 5, 0x27b70a85);
    CubeRoot(33, 139, 5, 0x2e1b2138);
    CubeRoot(34, 149, 5, 0x4d2c6dfc);
    CubeRoot(35, 151, 5, 0x53380d13);
    CubeRoot(36, 157, 5, 0x650a7354);
    CubeRoot(37, 163, 5, 0x766a0abb);
    CubeRoot(38, 167, 5, 0x81c2c92e);
    CubeRoot(39, 173, 5, 0x92722c85);
  }

  lemma CubeRoots40(i: nat)
    requires 40 <= i < 48
    ensures CubeRootPlaces(Prime(i), K(i).bits as nat)
  {
    CubeRoot(40, 179, 5, 0xa2bfe8a1);
    CubeRoot(41, 181, 5, 0xa81a664b);
    CubeRoot(42, 191, 5, 0xc24b8b70);
    CubeRoot(43, 193, 5, 0xc76c51a3);
    CubeRoot(44, 197, 5, 0xd192e819);
    CubeRoot(45, 199, 5, 0xd6990624);
    CubeRoot(46, 211, 5, 0xf40e3585);
    CubeRoot(47, 223, 6, 0x106aa070);
  }

  lemma CubeRoots48(i: nat)
    requires 48 <= i < 56
    ensures CubeRootPlaces(Prime(i), K(i).bits as nat)
  {
    CubeRoot(48, 227, 6, 0x19a4c116);
    CubeRoot(49, 229, 6, 0x1e376c08);
    CubeRoot(50, 233, 6, 0x2748774c);
    CubeRoot(51, 239, 6, 0x34b0bcb5);
    CubeRoot(52, 241, 6, 0x391c0cb3);
    CubeRoot(53, 251, 6, 0x4ed8aa4a);
    CubeRoot(54, 257, 6, 0x5b9cca4f);
    CubeRoot(55, 263, 6, 0x682e6ff3);
  }

  lemma CubeRoots56(i: nat)
    requires 56 <= i < 64
    ensures CubeRootPlaces(Prime(i), K(i).bits as nat)
  {
    CubeRoot(56, 269, 6, 0x748f82ee);
    CubeRoot(57, 271, 6, 0x78a5636f);
    CubeRoot(58, 277, 6, 0x84c87814);
    CubeRoot(59, 281, 6, 0x8cc70208);
    CubeRoot(60, 283, 6, 0x90befffa);
    CubeRoot(61, 293, 6, 0xa4506ceb);
    CubeRoot(62, 307, 6, 0xbef9a3f7);
    CubeRoot(63, 311, 6, 0xc67178f2);
  }

  lemma SquareRoots(i: nat)
    requires i < 8
    ensures SquareRootPlaces(Prime(i), INITIAL_WORDS[i] as nat)
  {
    SquareRoot(0, 2, 1, 0x6a09e667);
    SquareRoot(1, 3, 1, 0xbb67ae85);
    SquareRoot(2, 5, 2, 0x3c6ef372);
    SquareRoot(3, 7, 2, 0xa54ff53a);
    SquareRoot(4, 11, 3, 0x510e527f);
    SquareRoot(5, 13, 3, 0x9b05688c);
    SquareRoot(6, 17, 4, 0x1f83d9ab);
    SquareRoot(7, 19, 4, 0x5be0cd19);
  }

  // ---- the numbers are the first 64 primes ----

  ghost predicate IsPrime(n: nat) {
    n >= 2 && forall d :: 2 <= d < n ==> n % d != 0
  }

  /** Divided by no prime below 19 but itself. */
  predicate IsCoarse(n: nat) {
    && n >= 2
    && (n == 2 || n % 2 != 0) && (n == 3 || n % 3 != 0) && (n == 5 || n % 5 != 0) && (n == 7 || n % 7 != 0)
    && (n == 11 || n % 11 != 0) && (n == 13 || n % 13 != 0) && (n == 17 || n % 17 != 0)
  }

  lemma SmallDivisor(n: nat, s: nat)
    requires 2 <= s <= 18 && s < n && n % s == 0
    ensures !IsCoarse(n)
  {
    var t := n / s;
    assert n == s * t;
    if s % 2 == 0 {
      Multiple(n, 2, s / 2, t);
    } else if s % 3 == 0 {
      Multiple(n, 3, s / 3, t);
    } else {
      assert s == 5 || s == 7 || s == 11 || s == 13 || s == 17;
    }
  }

  lemma Multiple(n: nat, q: nat, u: nat, t: nat)
    requires q > 0 && n == q * u * t
    ensures n % q == 0
  {
    assert n == q * (u * t);
    DivModUnique(n, u * t, 0, q);
  }

  lemma SmallerFactor(n: nat, d: nat) returns (s: nat)
    requires n < 361 && 2 <= d < n && n % d == 0
    ensures 2 <= s <= 18 && s < n && n % s == 0
  {
    var e := n / d;
    assert n == d * e;
    if d <= 18 {
      s := d;
    } else {
      s := e;
      TimesMonotone(19, d, e);
      DivModUnique(n, d, 0, e);
    }
  }

  /** Below 19 squared these are the primes. */
  lemma CoarseIsPrime(n: nat)
    requires n < 361
    ensures IsCoarse(n) <==> IsPrime(n)
  {
    if IsCoarse(n) && !IsPrime(n) {
      var d :| 2 <= d < n && n % d == 0;
      var s := SmallerFactor(n, d);
      SmallDivisor(n, s);
    }
  }

  // ---- the table ----

  ghost predicate IsListed(n: nat) {
    exists i :: 0 <= i < 64 && Prime(i) == n
  }

  /** The table has exactly the prime numbers up to 311 ... */
  lemma ListedIffPrime(n: nat)
    requires n <= 311
    ensures IsListed(n) <==> IsPrime(n)
  {
    CoarseIsPrime(n);
    if IsListed(n) {
      var i :| 0 <= i < 64 && Prime(i) == n;
      ListedIsCoarse(i);
    }
    if IsCoarse(n) {
      CoarseIsListed(n);
    }
  }

  lemma CoarseIsListed(n: nat)
    requires n <= 311 && IsCoarse(n)
    ensures IsListed(n)
  {
    if n < 90 {
      if n < 20 { Sieve0(n); } else if n < 54 { Sieve8(n); } else { Sieve16(n); }
    } else if n < 174 {
      if n < 132 { Sieve24(n); } else { Sieve32(n); }
    } else {
      if n < 224 { Sieve40(n); } else if n < 264 { Sieve48(n); } else { Sieve56(n); }
    }
  }

  /** ... in order. */
  lemma PrimesIncrease(i: nat, j: nat)
    requires i < j < 64
    ensures Prime(i) < Prime(j)
    decreases j
  {
    Next(j - 1);
    if i < j - 1 {
      PrimesIncrease(i, j - 1);
    }
  }

  lemma Next(i: nat)
    requires i < 63
    ensures Prime(i) < Prime(i + 1)
  {
    if i / 8 < 2 {
    } else if i / 8 < 4 {
    } else if i / 8 < 6 {
    } else {
    }
  }

  lemma ListedIsCoarse(i: nat)
    requires i < 64
    ensures IsCoarse(Prime(i))
  {
    if i < 32 {
    } else {
    }
  }

  lemma Sieve0(n: nat)
    requires 0 <= n < 20 && IsCoarse(n)
    ensures IsListed(n)
  {
    assert n in {2, 3, 5, 7, 11, 13, 17, 19};
    assert Prime(0) == 2 && Prime(1) == 3 && Prime(2) == 5 && Prime(3) == 7 && Prime(4) == 11 && Prime(5) == 13 && Prime(6) == 17 && Prime(7) == 19;
  }

  lemma Sieve8(n: nat)
    requires 20 <= n < 54 && IsCoarse(n)
    ensures IsListed(n)
  {
    var q := n / 6;
    assert (n == 6 * q + 1 || n == 6 * q + 5) && 3 <= q <= 8;
    assert n in {23, 29, 31, 37, 41, 43, 47, 53};
    assert Prime(8) == 23 && Prime(9) == 29 && Prime(10) == 31 && Prime(11) == 37 && Prime(12) == 41 && Prime(13) == 43 && Prime(14) == 47 && Prime(15) == 53;
  }

  lemma Sieve16(n: nat)
    requires 54 <= n < 90 && IsCoarse(n)
    ensures IsListed(n)
  {
    var q := n / 6;
    assert (n == 6 * q + 1 || n == 6 * q + 5) && 9 <= q <= 14;
    assert n in {59, 61, 67, 71, 73, 79, 83, 89};
    assert Prime(16) == 59 && Prime(17) == 61 && Prime(18) == 67 && Prime(19) == 71 && Prime(20) == 73 && Prime(21) == 79 && Prime(22) == 83 && Prime(23) == 89;
  }

  lemma Sieve24(n: nat)
    requires 90 <= n < 132 && IsCoarse(n)
    ensures IsListed(n)
  {
    var q := n / 6;
    assert (n == 6 * q + 1 || n == 6 * q + 5) && 15 <= q <= 21;
    assert n in {97, 101, 103, 107, 109, 113, 127, 131};
    assert Prime(24) == 97 && Prime(25) == 101 && Prime(26) == 103 && Prime(27) == 107 && Prime(28) == 109 && Prime(29) == 113 && Prime(30) == 127 && Prime(31) == 131;
  }

  lemma Sieve32(n: nat)
    requires 132 <= n < 174 && IsCoarse(n)
    ensures IsListed(n)
  {
    var q := n / 6;
    assert (n == 6 * q + 1 || n == 6 * q + 5) && 22 <= q <= 28;
    assert n in {137, 139, 149, 151, 157, 163, 167, 173};
    assert Prime(32) == 137 && Prime(33) == 139 && Prime(34) == 149 && Prime(35) == 151 && Prime(36) == 157 && Prime(37) == 163 && Prime(38) == 167 && Prime(39) == 173;
  }

  lemma Sieve40(n: nat)
    requires 174 <= n < 224 && IsCoarse(n)
    ensures IsListed(n)
  {
    var q := n / 6;
    assert (n == 6 * q + 1 || n == 6 * q + 5) && 29 <= q <= 37;
    assert n in {179, 181, 191, 193, 197, 199, 211, 223};
    assert Prime(40) == 179 && Prime(41) == 181 && Prime(42) == 191 && Prime(43) == 193 && Prime(44) == 197 && Prime(45) == 199 && Prime(46) == 211 && Prime(47) == 223;
  }

  lemma Sieve48(n: nat)
    requires 224 <= n < 264 && IsCoarse(n)
    ensures IsListed(n)
  {
    var q := n / 6;
    assert (n == 6 * q + 1 || n == 6 * q + 5) && 37 <= q <= 43;
    assert n in {227, 229, 233, 239, 241, 251, 257, 263};
    assert Prime(48) == 227 && Prime(49) == 229 && Prime(50) == 233 && Prime(51) == 239 && Prime(52) == 241 && Prime(53) == 251 && Prime(54) == 257 && Prime(55) == 263;
  }

  lemma Sieve56(n: nat)
    requires 264 <= n < 312 && IsCoarse(n)
    ensures IsListed(n)
  {
    var q := n / 6;
    assert (n == 6 * q + 1 || n == 6 * q + 5) && 44 <= q <= 51;
    assert n in {269, 271, 277, 281, 283, 293, 307, 311};
    assert Prime(56) == 269 && Prime(57) == 271 && Prime(58) == 277 && Prime(59) == 281 && Prime(60) == 283 && Prime(61) == 293 && Prime(62) == 307 && Prime(63) == 311;
  }
}
