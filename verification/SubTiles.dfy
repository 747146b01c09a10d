/** Sub-tile keys: cutting a tile relative to an ancestor, and adding it back in the three key forms. */
module SubTiles {
  import opened BitOps
  import opened Decimal
  import opened Morton
  import opened TileKeys
  import opened TileAncestry

  // ---- QuadKey64Helper: the same operations on bare 64-bit keys ----

  /** The low `delta` bit pairs of a key, under a fresh leading one. */
  function GetSubkey(key: nat, delta: nat): nat
    requires delta < 32
  {
    var msb := Shl(1, 2 * delta);
    ShlOne(2 * delta);
    Or(And(key, msb - 1), msb)
  }

  lemma GetSubkeyIsLow(key: nat, delta: nat)
    requires delta < 32
    ensures GetSubkey(key, delta) == Pow4(delta) + Low(key, 2 * delta)
    ensures IsQuadKey(GetSubkey(key, delta)) && SubLevel(GetSubkey(key, delta)) == delta
  {
    ShlOne(2 * delta);
    AndMask(key, 2 * delta);
    Split(key, 2 * delta);
    OrIsPlus(1, Low(key, 2 * delta), 2 * delta);
    Pow4IsPow2(delta);
    SubLevelOf(GetSubkey(key, delta), delta);
  }

  /** How often two bits can be dropped before fewer than four values are left. */
  function SubLevel(key: nat): nat {
    if key < 4 then 0 else 1 + SubLevel(key / 4)
  }

  lemma {:induction false} SubLevelBounds(key: nat)
    ensures key < Pow4(SubLevel(key) + 1)
    ensures key >= 1 ==> Pow4(SubLevel(key)) <= key
  {
    if key >= 4 {
      SubLevelBounds(key / 4);
    }
  }

  lemma {:induction false} SubLevelOf(key: nat, n: nat)
    requires Pow4(n) <= key < 2 * Pow4(n)
    ensures IsQuadKey(key) && SubLevel(key) == n
    decreases n
  {
    if n > 0 {
      SubLevelOf(key / 4, n - 1);
    }
  }

  lemma {:induction false} Pow4Monotone(m: nat, n: nat)
    requires m <= n
    ensures Pow4(m) <= Pow4(n)
  {
    if m < n {
      Pow4Monotone(m, n - 1);
    }
  }

  lemma Pow4Of31()
    ensures Pow4(31) == TWO_62 && Pow4(32) == TWO_64
  {
    Pow4IsPow2(31);
    Pow2Values();
    assert Pow4(32) == 4 * Pow4(31);
  }

  /** The loop's mask after n rounds, as a 64-bit word. */
  function MaskAfter(n: nat): nat {
    Pow4(n) % TWO_64
  }

  /** The loop guard after n rounds. */
  predicate GoesOn(subKey: nat, n: nat) {
    subKey >= MaskAfter(n + 1)
  }

  /** The loop of AddedSubkey leaves its guard exactly for sub keys below 2^62, that is, sub levels up to 30. */
  lemma AddedSubkeyStopsIff(subKey: nat)
    ensures (exists n: nat :: !GoesOn(subKey, n)) <==> subKey < TWO_62
  {
    Pow4Of31();
    if subKey < TWO_62 {
      assert !GoesOn(subKey, 30);
    } else {
      forall n: nat
        ensures GoesOn(subKey, n)
      {
        if n + 1 >= 32 {
          MaskVanishes(n + 1);
        } else {
          Pow4Monotone(n + 1, 31);
        }
      }
    }
  }

  lemma {:induction false} MaskVanishes(n: nat)
    requires n >= 32
    ensures MaskAfter(n) == 0
  {
    Pow4Of31();
    if n > 32 {
      MaskVanishes(n - 1);
      assert Pow4(n) == 4 * Pow4(n - 1);
    }
  }

  method AddedSubkeyOnKeys(key: nat, subKey: nat) returns (result: nat)
    requires key < TWO_64 && subKey < TWO_62
    ensures result == Or(Shl(key, 2 * SubLevel(subKey)) % TWO_64, Low(subKey, 2 * SubLevel(subKey)))
  {
    result := key;
    var mask := 1;
    ghost var n := 0;
    ghost var last := SubLevel(subKey);
    GuardIsSubLevel(subKey, 0);
    while subKey >= mask * 4 % TWO_64
      invariant 0 <= n <= last && mask == Pow4(n)
      invariant mask * 4 % TWO_64 == Pow4(n + 1)
      invariant subKey >= Pow4(n + 1) <==> n < last
      invariant result == Shl(key, 2 * n) % TWO_64
      decreases last - n
    {
      ShiftedMod(key, n);
      result := result * 4 % TWO_64;
      mask := mask * 4 % TWO_64;
      n := n + 1;
      GuardIsSubLevel(subKey, n);
    }
    Pow4IsPow2(n);
    AndMask(subKey, 2 * n);
    result := Or(result, And(subKey, mask - 1));
  }

  lemma GuardIsSubLevel(subKey: nat, n: nat)
    requires subKey < TWO_62 && n <= SubLevel(subKey)
    ensures Pow4(n) * 4 % TWO_64 == Pow4(n + 1)
    ensures subKey >= Pow4(n + 1) <==> n < SubLevel(subKey)
  {
    SubLevelBounds(subKey);
    Pow4Of31();
    var last := SubLevel(subKey);
    if last >= 31 {
      Pow4Monotone(31, last);
    }
    Pow4Monotone(n + 1, 31);
    if n < last {
      Pow4Monotone(n + 1, last);
    }
  }

  lemma ShiftedMod(x: nat, n: nat)
    ensures Shl(x, 2 * n) % TWO_64 * 4 % TWO_64 == Shl(x, 2 * (n + 1)) % TWO_64
  {
    assert Shl(x, 2 * (n + 1)) == 2 * Shl(x, 2 * n + 1) == 4 * Shl(x, 2 * n);
    ModTimesFour(Shl(x, 2 * n));
  }

  lemma ModTimesFour(y: nat)
    ensures y % TWO_64 * 4 % TWO_64 == 4 * y % TWO_64
  {
    var q, r := y / TWO_64, y % TWO_64;
    DivModUnique(4 * y, 4 * q + 4 * r / TWO_64, 4 * r % TWO_64, TWO_64);
  }

  // ---- the same on tiles ----

  method GetSubkey64(t: TileKey, delta: nat) returns (subKey: nat)
    requires t.IsValid() && delta < 32
    ensures subKey == GetSubkey(t.MortonCode(), delta)
  {
    var key := ToQuadKey64(t);
    subKey := GetSubkey(key, delta);
  }

  /** The tile that `sub` denotes inside `t`. */
  function Inside(t: TileKey, sub: TileKey): TileKey {
    Extend(t, sub.row, sub.column, sub.level)
  }

  lemma InsideIsValid(t: TileKey, sub: TileKey)
    requires t.IsValid() && sub.IsValid() && t.level + sub.level < LEVEL_COUNT
    ensures Inside(t, sub).IsValid()
  {
    Concat(t.row, sub.row, t.level, sub.level);
    Concat(t.column, sub.column, t.level, sub.level);
  }

  lemma InsideShape(t: TileKey, sub: TileKey)
    ensures Inside(t, sub).MortonCode()
         == Interleave(Shl(t.row, sub.level) + sub.row, Shl(Pow2(t.level) + t.column, sub.level) + sub.column)
  {
    ShlPow2(t.level, sub.level);
    ShlPlus(Pow2(t.level), t.column, sub.level);
  }

  lemma InsideSplit(t: TileKey, sub: TileKey)
    requires sub.IsValid()
    ensures Inside(t, sub).MortonCode() == Shl(t.MortonCode(), 2 * sub.level) + Interleave(sub.row, sub.column)
  {
    InsideShape(t, sub);
    InterleaveSplit(t.row, Pow2(t.level) + t.column, sub.row, sub.column, sub.level);
  }

  /** Concatenating Morton digits is placing one tile inside the other. */
  lemma InsideCode(t: TileKey, sub: TileKey)
    requires t.IsValid() && sub.IsValid()
    ensures Inside(t, sub).MortonCode() == Shl(t.MortonCode(), 2 * sub.level) + Low(sub.MortonCode(), 2 * sub.level)
  {
    InsideSplit(t, sub);
    LowOfCode(sub);
  }

  lemma ShlPow2(m: nat, n: nat)
    ensures Shl(Pow2(m), n) == Pow2(m + n)
  {
    ShlOne(m);
    ShlShl(1, m, n);
    ShlOne(m + n);
  }

  lemma Concat(a: nat, b: nat, m: nat, n: nat)
    requires a < Pow2(m) && b < Pow2(n)
    ensures Shl(a, n) + b < Pow2(m + n)
  {
    ShlLess(a, Pow2(m), n);
    ShlPow2(m, n);
  }

  /** Without its leading one, a Morton code is the interleaved row and column. */
  lemma LowOfCode(t: TileKey)
    requires t.IsValid()
    ensures Low(t.MortonCode(), 2 * t.level) == Interleave(t.row, t.column)
  {
    CodeIsLead(t);
    SplitUnique(1, Interleave(t.row, t.column), 2 * t.level);
  }

  lemma LevelOfCode(t: TileKey)
    requires t.IsValid()
    ensures SubLevel(t.MortonCode()) == t.level
  {
    MortonBounds(t);
    SubLevelOf(t.MortonCode(), t.level);
  }

  /** Shifts and masks on 64-bit keys. */
  method AddedSubkey64(t: TileKey, subKey: nat) returns (result: TileKey)
    requires t.IsValid() && subKey < TWO_62
    ensures var n := SubLevel(subKey);
      result == FromMorton(Or(Shl(t.MortonCode(), 2 * n) % TWO_64, Low(subKey, 2 * n)))
    ensures IsQuadKey(subKey) && t.level + SubLevel(subKey) < LEVEL_COUNT ==> result == Inside(t, FromMorton(subKey))
  {
    var key := ToQuadKey64(t);
    MortonBounds(t);
    key := AddedSubkeyOnKeys(key, subKey);
    AddedKeyBound(t, subKey);
    result := FromQuadKey64(key);
    if IsQuadKey(subKey) && t.level + SubLevel(subKey) < LEVEL_COUNT {
      AddedKeyIsInside(t, subKey);
    }
  }

  lemma AddedKeyBound(t: TileKey, subKey: nat)
    requires subKey < TWO_62
    ensures Or(Shl(t.MortonCode(), 2 * SubLevel(subKey)) % TWO_64, Low(subKey, 2 * SubLevel(subKey))) < TWO_64
  {
    var n := SubLevel(subKey);
    Split(subKey, 2 * n);
    SubLevelBounds(subKey);
    Pow4IsPow2(n);
    Pow2Values();
    if n > 31 {
      Pow4Monotone(32, n);
      Pow4Of31();
    }
    Pow2Monotone(2 * n, 64);
    OrBelow(Shl(t.MortonCode(), 2 * n) % TWO_64, Low(subKey, 2 * n), 64);
  }

  lemma {:induction false} OrBelow(a: nat, b: nat, n: nat)
    requires a < Pow2(n) && b < Pow2(n)
    ensures Or(a, b) < Pow2(n)
    decreases n
  {
    if n > 0 {
      OrBelow(a / 2, b / 2, n - 1);
      OrStep(a, b);
    }
  }

  lemma AddedKeyIsInside(t: TileKey, subKey: nat)
    requires t.IsValid() && subKey < TWO_62 && IsQuadKey(subKey) && t.level + SubLevel(subKey) < LEVEL_COUNT
    ensures var n := SubLevel(subKey);
      FromMorton(Or(Shl(t.MortonCode(), 2 * n) % TWO_64, Low(subKey, 2 * n))) == Inside(t, FromMorton(subKey))
  {
    var sub, n := FromMorton(subKey), SubLevel(subKey);
    KeyRoundTrip(subKey);
    LevelOfCode(sub);
    AddedKeyIsCode(t, sub);
    QuadKey64RoundTrip(Inside(t, sub));
  }

  lemma AddedKeyIsCode(t: TileKey, sub: TileKey)
    requires t.IsValid() && sub.IsValid() && t.level + sub.level < LEVEL_COUNT
    ensures var n := sub.level;
      Or(Shl(t.MortonCode(), 2 * n) % TWO_64, Low(sub.MortonCode(), 2 * n)) == Inside(t, sub).MortonCode()
    ensures Inside(t, sub).IsValid()
  {
    InsideCode(t, sub);
    InsideIsValid(t, sub);
    BelowTwo64(Inside(t, sub));
    OrAboveLow(t.MortonCode(), sub.MortonCode(), 2 * sub.level);
  }

  lemma OrAboveLow(above: nat, key: nat, n: nat)
    requires Shl(above, n) + Low(key, n) < TWO_64
    ensures Or(Shl(above, n) % TWO_64, Low(key, n)) == Shl(above, n) + Low(key, n)
  {
    ModSmall(Shl(above, n));
    Split(key, n);
    OrIsPlus(above, Low(key, n), n);
  }

  lemma BelowTwo64(t: TileKey)
    requires t.IsValid()
    ensures t.MortonCode() < TWO_64
  {
    MortonBounds(t);
  }

  lemma ModSmall(x: nat)
    ensures x < TWO_64 ==> x % TWO_64 == x
    ensures x < TWO_32 ==> x % TWO_32 == x
  {
  }

  /** Row and column sums on 32-bit words. */
  function AddedTile(t: TileKey, sub: TileKey): TileKey
    requires sub.level < 32
  {
    var child := t.ChangedLevelBy(sub.level);
    TileKey((child.row + sub.row) % TWO_32, (child.column + sub.column) % TWO_32, child.level)
  }

  lemma AddedTileIsInside(t: TileKey, sub: TileKey)
    requires t.IsValid() && sub.IsValid() && t.level + sub.level < LEVEL_COUNT
    ensures AddedTile(t, sub) == Inside(t, sub)
  {
    InsideIsValid(t, sub);
    ValidBelow32(Inside(t, sub));
    AddedCoordinate(t.row, sub.row, sub.level);
    AddedCoordinate(t.column, sub.column, sub.level);
    if sub.level == 0 {
      RootCode(sub);
    }
  }

  lemma AddedCoordinate(x: nat, y: nat, n: nat)
    requires Shl(x, n) + y < TWO_32
    ensures (Shl(x, n) % TWO_32 + y) % TWO_32 == Shl(x, n) + y
  {
    ModSmall(Shl(x, n));
    ModSmall(Shl(x, n) + y);
  }

  method AddedSubkey(t: TileKey, subQuadKey: string) returns (result: TileKey)
    requires t.IsValid() && |subQuadKey| < 32
    ensures var text := if subQuadKey == "" then "-" else subQuadKey;
      result == AddedTile(t, if text == "-" then ROOT else FromDigits(text))
  {
    var subQuad := FromQuadKey(if subQuadKey == "" then "-" else subQuadKey);
    result := AddedTile(t, subQuad);
  }

  method AddedSubHereTile(t: TileKey, subHereTile: string) returns (result: TileKey)
    requires t.IsValid() && subHereTile != "" && FromMorton(Strtoull(subHereTile)).level < 32
    ensures result == AddedTile(t, FromMorton(Strtoull(subHereTile)))
  {
    var subQuad := FromHereTile(subHereTile);
    result := AddedTile(t, subQuad);
  }

  /** The 64-bit, base-4 and decimal forms of one sub tile all name the same tile. */
  method SubTileFormsAgree(t: TileKey, sub: TileKey) returns (by64: TileKey, byText: TileKey, byDecimal: TileKey)
    requires t.IsValid() && sub.IsValid()
    requires t.level + sub.level < LEVEL_COUNT && sub.level < LEVEL_COUNT - 1
    ensures by64 == byText == byDecimal == Inside(t, sub)
  {
    SubLevelRoom(sub);
    QuadKeyRoundTrip(sub);
    HereTileRoundTrip(sub);
    AddedTileIsInside(t, sub);
    var subKey := ToQuadKey64(sub);
    by64 := AddedSubkey64(t, subKey);
    var text := ToQuadKey(sub);
    byText := AddedSubkey(t, text);
    var decimal := ToHereTile(sub);
    byDecimal := AddedSubHereTile(t, decimal);
  }

  // ---- TileKeyUtils ----

  function GetRelativeSubTileKey(key: TileKey, parentLevel: nat): TileKey
    requires -32 < parentLevel - key.level < 32
  {
    var originKey := key.ChangedLevelTo(parentLevel).ChangedLevelTo(key.level);
    TileKey((key.row - originKey.row) % TWO_32, (key.column - originKey.column) % TWO_32, (key.level - parentLevel) % TWO_32)
  }

  function GetAbsoluteSubTileKey(parent: TileKey, subTile: TileKey): TileKey
    requires subTile.level < 32
  {
    AddedTile(parent, subTile)
  }

  /** What lies between a tile and its ancestor: the low bits of row and column. */
  lemma RelativeIsLow(t: TileKey, parentLevel: nat)
    requires t.IsValid() && parentLevel <= t.level
    ensures var d := t.level - parentLevel;
      && GetRelativeSubTileKey(t, parentLevel) == TileKey(Low(t.row, d), Low(t.column, d), d)
      && GetRelativeSubTileKey(t, parentLevel).IsValid()
      && Inside(t.ChangedLevelTo(parentLevel), GetRelativeSubTileKey(t, parentLevel)) == t
  {
    var d := t.level - parentLevel;
    Split(t.row, d);
    Split(t.column, d);
    ValidBelow32(t);
    ModSmall(Shl(Shr(t.row, d), d));
    ModSmall(Shl(Shr(t.column, d), d));
    ModSmall(Low(t.row, d));
    ModSmall(Low(t.column, d));
    ModSmall(d);
  }

  lemma AncestorThenLow(t: TileKey, parentLevel: nat)
    requires t.IsValid() && parentLevel <= t.level
    ensures var d, sub := t.level - parentLevel, GetRelativeSubTileKey(t, parentLevel);
      t.MortonCode() == Shl(Up(t, parentLevel).MortonCode(), 2 * d) + Low(sub.MortonCode(), 2 * d)
  {
    RelativeIsLow(t, parentLevel);
    ChangeUp(t, parentLevel);
    UpIsChange(t, parentLevel);
    InsideCode(Up(t, parentLevel), GetRelativeSubTileKey(t, parentLevel));
  }

  lemma LowUnderLead(sub: TileKey)
    requires sub.IsValid()
    ensures var low := Low(sub.MortonCode(), 2 * sub.level);
      low < Pow2(2 * sub.level) && sub.MortonCode() == Pow4(sub.level) + low
  {
    CodeIsLead(sub);
    LowOfCode(sub);
    Pow4IsPow2(sub.level);
    ShlOne(2 * sub.level);
  }

  lemma RelativeCode(t: TileKey, parentLevel: nat)
    requires t.IsValid() && parentLevel <= t.level
    ensures var sub := GetRelativeSubTileKey(t, parentLevel);
      sub.MortonCode() == GetSubkey(t.MortonCode(), t.level - parentLevel)
  {
    RelativeIsLow(t, parentLevel);
    var d, sub := t.level - parentLevel, GetRelativeSubTileKey(t, parentLevel);
    LowUnderLead(sub);
    AncestorThenLow(t, parentLevel);
    LowDigits(t.MortonCode(), Up(t, parentLevel).MortonCode(), Low(sub.MortonCode(), 2 * d), d);
  }

  lemma LowDigits(key: nat, above: nat, low: nat, delta: nat)
    requires delta < 32 && low < Pow2(2 * delta) && key == Shl(above, 2 * delta) + low
    ensures GetSubkey(key, delta) == Pow4(delta) + low
  {
    SplitUnique(above, low, 2 * delta);
    GetSubkeyIsLow(key, delta);
  }

  /** Cutting a tile below any of its ancestors and placing the piece back inside that ancestor gives the tile. */
  lemma RelativeThenAbsolute(t: TileKey, parentLevel: nat)
    requires t.IsValid() && parentLevel <= t.level
    ensures var sub := GetRelativeSubTileKey(t, parentLevel);
      && GetAbsoluteSubTileKey(t.ChangedLevelTo(parentLevel), sub) == t
      && sub.MortonCode() == GetSubkey(t.MortonCode(), t.level - parentLevel)
  {
    RelativeCode(t, parentLevel);
    RelativeIsLow(t, parentLevel);
    ChangeUp(t, parentLevel);
    AddedTileIsInside(t.ChangedLevelTo(parentLevel), GetRelativeSubTileKey(t, parentLevel));
  }

  lemma SubLevelRoom(sub: TileKey)
    requires sub.IsValid() && sub.level < LEVEL_COUNT - 1
    ensures sub.MortonCode() < TWO_62
    ensures IsQuadKey(sub.MortonCode()) && SubLevel(sub.MortonCode()) == sub.level
    ensures FromMorton(sub.MortonCode()) == sub
  {
    MortonBounds(sub);
    Pow4Monotone(sub.level + 1, 31);
    Pow4Of31();
    SubLevelOf(sub.MortonCode(), sub.level);
    QuadKey64RoundTrip(sub);
  }

  lemma CutKey(t: TileKey, delta: nat)
    requires t.IsValid() && delta <= t.level && delta < LEVEL_COUNT - 1
    ensures var a, subKey := t.ChangedLevelTo(t.level - delta), GetSubkey(t.MortonCode(), delta);
      && a.IsValid() && a.level == t.level - delta
      && subKey < TWO_62 && IsQuadKey(subKey) && SubLevel(subKey) == delta
      && Inside(a, FromMorton(subKey)) == t
  {
    var parentLevel := t.level - delta;
    var sub := GetRelativeSubTileKey(t, parentLevel);
    RelativeCode(t, parentLevel);
    RelativeIsLow(t, parentLevel);
    assert sub.level == delta;
    SubLevelRoom(sub);
    ChangeUp(t, parentLevel);
  }

  /** The 64-bit form of the same round trip, for cuts the AddedSubkey loop can process. */
  method CutAndAddBack(t: TileKey, delta: nat) returns (result: TileKey)
    requires t.IsValid() && delta <= t.level && delta < LEVEL_COUNT - 1
    ensures result == t
  {
    CutKey(t, delta);
    var subKey := GetSubkey64(t, delta);
    var ancestor := t.ChangedLevelTo(t.level - delta);
    result := AddedSubkey64(ancestor, subKey);
  }
}
