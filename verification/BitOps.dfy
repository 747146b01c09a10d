/** Machine-word bit operations on natural numbers: shifts, masks, "or" and "and", defined one bit at a time. */
module BitOps {

  const TWO_32: int := 0x1_0000_0000
  const TWO_62: int := 0x4000_0000_0000_0000
  const TWO_64: int := 0x1_0000_0000_0000_0000

  function Pow2(n: nat): (p: nat)
    ensures p >= 1
  {
    if n == 0 then 1 else 2 * Pow2(n - 1)
  }

  function Pow4(n: nat): (p: nat)
    ensures p >= 1
  {
    if n == 0 then 1 else 4 * Pow4(n - 1)
  }

  /** `x << n`, before any truncation to the width of a word. */
  function Shl(x: nat, n: nat): nat {
    if n == 0 then x else 2 * Shl(x, n - 1)
  }

  /** `x >> n`. */
  function Shr(x: nat, n: nat): nat {
    if n == 0 then x else Shr(x / 2, n - 1)
  }

  /** The low `n` bits of `x`. */
  function Low(x: nat, n: nat): nat {
    if n == 0 then 0 else 2 * Low(x / 2, n - 1) + x % 2
  }

  /** `a | b`. */
  function Or(a: nat, b: nat): nat {
    if a == 0 && b == 0 then 0
    else 2 * Or(a / 2, b / 2) + (if a % 2 == 1 || b % 2 == 1 then 1 else 0)
  }

  /** `a & b`. */
  function And(a: nat, b: nat): nat {
    if a == 0 || b == 0 then 0
    else 2 * And(a / 2, b / 2) + (if a % 2 == 1 && b % 2 == 1 then 1 else 0)
  }

  lemma {:induction false} OrZero(a: nat)
    ensures Or(a, 0) == a && Or(0, a) == a
  {
    if a != 0 {
      OrZero(a / 2);
    }
  }

  /** Or-ing a value below 2^n into a value whose low n bits are clear is addition. */
  lemma {:induction false} OrIsPlus(a: nat, b: nat, n: nat)
    requires b < Pow2(n)
    ensures Or(Shl(a, n), b) == Shl(a, n) + b
    ensures Or(b, Shl(a, n)) == Shl(a, n) + b
    decreases n
  {
    if n == 0 {
      OrZero(a);
    } else {
      OrIsPlus(a, b / 2, n - 1);
      if Shl(a, n) == 0 && b == 0 {
      } else {
        assert Shl(a, n) / 2 == Shl(a, n - 1);
      }
    }
  }

  lemma {:induction false} ShlIsTimes(x: nat, n: nat)
    ensures Shl(x, n) == x * Pow2(n)
  {
    if n > 0 {
      ShlIsTimes(x, n - 1);
    }
  }

  /** Shifting the two-bit-extended value: `(2a + b) << n == (a << (n + 1)) + b * 2^n`. */
  lemma {:induction false} ShlPush(a: nat, b: nat, n: nat)
    ensures Shl(2 * a + b, n) == Shl(a, n + 1) + Shl(b, n)
  {
    if n > 0 {
      ShlPush(a, b, n - 1);
    }
  }

  lemma {:induction false} ShlPlus(a: nat, b: nat, n: nat)
    ensures Shl(a + b, n) == Shl(a, n) + Shl(b, n)
  {
    if n > 0 {
      ShlPlus(a, b, n - 1);
    }
  }

  lemma {:induction false} ShlShl(x: nat, m: nat, n: nat)
    ensures Shl(Shl(x, m), n) == Shl(x, m + n)
  {
    if n > 0 {
      ShlShl(x, m, n - 1);
    }
  }

  lemma {:induction false} ShlOne(n: nat)
    ensures Shl(1, n) == Pow2(n) && Shl(0, n) == 0
  {
    if n > 0 {
      ShlOne(n - 1);
    }
  }

  lemma {:induction false} ShlLess(a: nat, b: nat, n: nat)
    requires a < b
    ensures Shl(a, n) + Pow2(n) <= Shl(b, n)
  {
    if n > 0 {
      ShlLess(a, b, n - 1);
    }
  }

  lemma {:induction false} ShrShr(x: nat, m: nat, n: nat)
    ensures Shr(Shr(x, m), n) == Shr(x, m + n)
  {
    if m > 0 {
      ShrShr(x / 2, m - 1, n);
    }
  }

  lemma ShlTwo(x: nat, n: nat)
    ensures Shl(x, n + 2) == 4 * Shl(x, n)
  {
    assert Shl(x, n + 2) == 2 * Shl(x, n + 1);
  }

  lemma ShrTwo(x: nat, n: nat)
    ensures Shr(x, n + 2) == Shr(x / 4, n)
  {
    assert Shr(x, n + 2) == Shr(x / 2, n + 1) == Shr(x / 2 / 2, n);
  }

  /** Every value splits at bit n into its shifted-out and its low part. */
  lemma {:induction false} Split(x: nat, n: nat)
    ensures x == Shl(Shr(x, n), n) + Low(x, n)
    ensures Low(x, n) < Pow2(n)
  {
    if n > 0 {
      Split(x / 2, n - 1);
    }
  }

  /** ... and the split is unique. */
  lemma {:induction false} SplitUnique(a: nat, b: nat, n: nat)
    requires b < Pow2(n)
    ensures Shr(Shl(a, n) + b, n) == a
    ensures Low(Shl(a, n) + b, n) == b
  {
    if n > 0 {
      SplitUnique(a, b / 2, n - 1);
      assert (Shl(a, n) + b) / 2 == Shl(a, n - 1) + b / 2;
    }
  }

  lemma {:induction false} ShrMonotone(a: nat, b: nat, n: nat)
    requires a <= b
    ensures Shr(a, n) <= Shr(b, n)
  {
    if n > 0 {
      ShrMonotone(a / 2, b / 2, n - 1);
    }
  }

  lemma {:induction false} LowIsMod(x: nat, n: nat)
    ensures Shr(x, n) == x / Pow2(n) && Low(x, n) == x % Pow2(n)
  {
    Split(x, n);
    ShlIsTimes(Shr(x, n), n);
    DivModUnique(x, Shr(x, n), Low(x, n), Pow2(n));
  }

  lemma DivModUnique(x: nat, q: nat, r: nat, d: nat)
    requires x == q * d + r && r < d
    ensures x / d == q && x % d == r
  {
    var q' := x / d;
    assert x == q' * d + x % d;
    TimesMonotone(q' + 1, q, d);
    TimesMonotone(q + 1, q', d);
  }

  lemma TimesMonotone(a: nat, b: nat, d: nat)
    ensures a <= b ==> a * d <= b * d
  {
    if a <= b {
      assert (b - a) * d >= 0;
    }
  }

  /** Masking with `2^n - 1` keeps the low n bits. */
  lemma {:induction false} AndMask(x: nat, n: nat)
    ensures And(x, Pow2(n) - 1) == Low(x, n)
  {
    if n > 0 {
      AndMask(x / 2, n - 1);
      assert (Pow2(n) - 1) / 2 == Pow2(n - 1) - 1;
      LowZero(n);
      if x != 0 {
        assert (Pow2(n) - 1) % 2 == 1;
      }
    }
  }

  lemma {:induction false} LowZero(n: nat)
    ensures Low(0, n) == 0 && Shr(0, n) == 0
  {
    if n > 0 {
      LowZero(n - 1);
    }
  }

  lemma {:induction false} ShrSmall(x: nat, n: nat)
    ensures x < Pow2(n) <==> Shr(x, n) == 0
  {
    Split(x, n);
    if Shr(x, n) > 0 {
      ShlLess(0, Shr(x, n), n);
    }
    ShlOne(n);
  }

  lemma {:induction false} Pow4IsPow2(n: nat)
    ensures Pow4(n) == Pow2(2 * n)
  {
    if n > 0 {
      Pow4IsPow2(n - 1);
      assert Pow2(2 * n) == 2 * Pow2(2 * n - 1) == 4 * Pow2(2 * n - 2);
    }
  }

  lemma {:induction false} Pow2Monotone(m: nat, n: nat)
    requires m <= n
    ensures Pow2(m) <= Pow2(n)
    ensures m < n ==> 2 * Pow2(m) <= Pow2(n)
  {
    if m < n {
      Pow2Monotone(m, n - 1);
    }
  }

  lemma {:induction false} Pow2Sum(m: nat, n: nat)
    ensures Pow2(m + n) == Pow2(m) * Pow2(n)
  {
    if m > 0 {
      Pow2Sum(m - 1, n);
    }
  }

  lemma Pow2Values()
    ensures Pow2(8) == 256 && Pow2(16) == 0x1_0000 && Pow2(24) == 0x100_0000
    ensures Pow2(31) == 0x8000_0000 && Pow2(32) == TWO_32 && Pow2(62) == TWO_62 && Pow2(64) == TWO_64
  {
    assert Pow2(8) == 256;
    assert Pow2(16) == 0x1_0000;
    assert Pow2(31) == 0x8000_0000;
    Pow2Sum(31, 31);
    Pow2Sum(62, 2);
  }
}
