/** The ancestor relation of the quad tree, and the base-4 quad-key strings that spell it out. */
module TileAncestry {
  import opened BitOps
  import opened Decimal
  import opened TileKeys

  /** The tile `n` levels up, by repeated Parent. */
  function ParentN(t: TileKey, n: nat): TileKey
    decreases n
  {
    if n == 0 then t else ParentN(t.Parent(), n - 1)
  }

  /** The tile at a shallower level that contains `t`. */
  function Up(t: TileKey, level: nat): TileKey
    requires level <= t.level
  {
    TileKey(Shr(t.row, t.level - level), Shr(t.column, t.level - level), level)
  }

  /** `a` is `t` or lies above it. */
  predicate AtOrAbove(a: TileKey, t: TileKey) {
    a.level <= t.level && Up(t, a.level) == a
  }

  lemma AtOrAboveIsChild(a: TileKey, t: TileKey)
    requires a.IsValid() && t.IsValid()
    ensures AtOrAbove(a, t) <==> a == t || t.IsChildOf(a)
  {
  }

  lemma UpIsChange(t: TileKey, level: nat)
    requires t.IsValid() && level <= t.level
    ensures t.ChangedLevelTo(level) == Up(t, level)
  {
  }

  lemma UpTwice(t: TileKey, mid: nat, top: nat)
    requires top <= mid <= t.level
    ensures Up(Up(t, mid), top) == Up(t, top)
  {
    ShrShr(t.row, t.level - mid, mid - top);
    ShrShr(t.column, t.level - mid, mid - top);
  }

  lemma UpOfParent(t: TileKey, level: nat)
    requires level < t.level
    ensures Up(t, level) == Up(t.Parent(), level)
  {
    UpTwice(t, t.level - 1, level);
  }

  lemma {:induction false} UpIsParentN(t: TileKey, level: nat)
    requires level <= t.level
    ensures Up(t, level) == ParentN(t, t.level - level)
    decreases t.level
  {
    if level < t.level {
      UpOfParent(t, level);
      UpIsParentN(t.Parent(), level);
    }
  }

  /** Moving up drops pairs of Morton bits. */
  lemma {:induction false} UpCode(t: TileKey, level: nat)
    requires t.IsValid() && level <= t.level
    ensures Up(t, level).IsValid()
    ensures Up(t, level).MortonCode() == Shr(t.MortonCode(), 2 * (t.level - level))
    decreases t.level
  {
    if level < t.level {
      MortonParent(t);
      UpOfParent(t, level);
      UpCode(t.Parent(), level);
      ShrTwo(t.MortonCode(), 2 * (t.level - 1 - level));
      QuarterOf(t.MortonCode(), t.Parent().MortonCode(), 2 * (t.row % 2) + t.column % 2);
    }
  }

  lemma QuarterOf(m: nat, p: nat, q: nat)
    requires m == 4 * p + q && q < 4
    ensures m / 4 == p
  {
  }

  /** Every shallower level is reached by repeated Parent. */
  lemma ChangeUp(t: TileKey, level: nat)
    requires t.IsValid() && level <= t.level
    ensures var a := t.ChangedLevelTo(level);
      && a.IsValid() && a.level == level && a == Up(t, level)
      && a == ParentN(t, t.level - level)
      && a.MortonCode() == Shr(t.MortonCode(), 2 * (t.level - level))
  {
    UpIsChange(t, level);
    UpIsParentN(t, level);
    UpCode(t, level);
  }

  /** Parent steps that stay below the root are a change of level. */
  lemma {:induction false} ParentNLevel(t: TileKey, n: nat)
    requires t.IsValid() && n <= t.level
    ensures ParentN(t, n) == t.ChangedLevelTo(t.level - n)
  {
    ChangeUp(t, t.level - n);
  }

  /** `IsChildOf` holds exactly when one or more Parent steps, none of them above the root, lead there. */
  lemma ChildIsParentSteps(t: TileKey, a: TileKey)
    requires t.IsValid() && a.IsValid()
    ensures t.IsChildOf(a) <==> exists n :: 1 <= n <= t.level && ParentN(t, n) == a
  {
    if t.IsChildOf(a) {
      ChangeUp(t, a.level);
      assert ParentN(t, t.level - a.level) == a;
    }
    if n :| 1 <= n <= t.level && ParentN(t, n) == a {
      ParentNLevel(t, n);
      ChangeUp(t, t.level - n);
    }
  }

  /** `AtOrAbove` orders the tiles, and the tiles above one tile form a chain. */
  lemma AtOrAboveOrder(a: TileKey, b: TileKey, t: TileKey)
    ensures AtOrAbove(a, a)
    ensures AtOrAbove(a, b) && AtOrAbove(b, t) ==> AtOrAbove(a, t)
    ensures AtOrAbove(a, b) && AtOrAbove(b, a) ==> a == b
    ensures AtOrAbove(a, t) && AtOrAbove(b, t) && a.level <= b.level ==> AtOrAbove(a, b)
    ensures AtOrAbove(a, t) && AtOrAbove(b, t) && a.level == b.level ==> a == b
  {
    if a.level <= b.level <= t.level {
      UpTwice(t, b.level, a.level);
    }
  }

  lemma ChangeUpTwice(t: TileKey, mid: nat, top: nat)
    requires t.IsValid() && top <= mid <= t.level
    ensures t.ChangedLevelTo(mid).ChangedLevelTo(top) == t.ChangedLevelTo(top)
  {
    ShrShr(t.row, t.level - mid, mid - top);
    ShrShr(t.column, t.level - mid, mid - top);
  }

  /** `IsChildOf` is a strict partial order on valid tiles, and the ancestors of a tile form a chain. */
  lemma ChildIsStrictOrder(t: TileKey, u: TileKey, v: TileKey)
    requires t.IsValid() && u.IsValid() && v.IsValid()
    ensures !t.IsChildOf(t)
    ensures t.IsChildOf(u) ==> !u.IsChildOf(t)
    ensures t.IsChildOf(u) && u.IsChildOf(v) ==> t.IsChildOf(v)
    ensures t.IsChildOf(u) && t.IsChildOf(v) && v.level < u.level ==> u.IsChildOf(v)
    ensures t.IsChildOf(u) && t.IsChildOf(v) && u.level == v.level ==> u == v
  {
    if v.level <= u.level <= t.level {
      ChangeUpTwice(t, u.level, v.level);
    }
  }

  lemma {:induction false} ParentNComposes(t: TileKey, m: nat, n: nat)
    ensures ParentN(ParentN(t, m), n) == ParentN(t, m + n)
    decreases m
  {
    if m > 0 {
      ParentNComposes(t.Parent(), m - 1, n);
    }
  }

  lemma {:induction false} CountDown(level: nat, n: nat)
    requires n <= level
    ensures ParentN(TileKey(0, 0, level), n) == TileKey(0, 0, level - n)
  {
    if n > 0 {
      ShrOne(0);
      CountDown(level - 1, n - 1);
    }
  }

  /** `Parent` is total: above the root it yields the default key, and from there it counts down to the root again. */
  lemma {:induction false} ParentNCycles(t: TileKey, k: nat)
    requires t.IsValid()
    ensures ParentN(t, t.level + (LEVEL_COUNT + 1) * k) == ROOT
  {
    if k == 0 {
      ChangeUp(t, 0);
    } else {
      var n := t.level + (LEVEL_COUNT + 1) * (k - 1);
      ParentNCycles(t, k - 1);
      CountDown(LEVEL_COUNT, LEVEL_COUNT);
      ParentNComposes(t, n, LEVEL_COUNT + 1);
      assert n + (LEVEL_COUNT + 1) == t.level + (LEVEL_COUNT + 1) * k;
    }
  }

  // ---- the base-4 string form ----

  /** One digit per level, the topmost first. */
  function QuadDigits(t: TileKey): (s: string)
    ensures |s| == t.level
    decreases t.level
  {
    if t.level == 0 then "" else QuadDigits(t.Parent()) + [Digit(2 * (t.row % 2) + t.column % 2)]
  }

  function QuadKeyText(t: TileKey): string {
    if !t.IsValid() then "" else if t.level == 0 then "-" else QuadDigits(t)
  }

  /** Digit i from the end is the i-th pair of Morton bits. */
  lemma {:induction false} DigitAt(t: TileKey, i: nat)
    requires t.IsValid() && i < t.level
    ensures QuadDigits(t)[t.level - 1 - i] == Digit(Shr(t.MortonCode(), 2 * i) % 4)
    decreases i
  {
    MortonParent(t);
    var p := t.Parent();
    if i > 0 {
      DigitAt(p, i - 1);
      ShrTwo(t.MortonCode(), 2 * (i - 1));
      assert t.MortonCode() / 4 == p.MortonCode();
      assert QuadDigits(t)[t.level - 1 - i] == QuadDigits(p)[p.level - 1 - (i - 1)];
    }
  }

  /** Fills the digits from the least significant end, dividing the Morton code by powers of four. */
  method ToQuadKey(t: TileKey) returns (key: string)
    ensures key == QuadKeyText(t)
  {
    if !t.IsValid() {
      return "";
    }
    if t.level == 0 {
      return "-";
    }
    var mortonKey := ToQuadKey64(t);
    key := seq(t.level, _ => '0');
    var i := 0;
    while i < t.level
      invariant 0 <= i <= t.level == |key|
      invariant forall j :: t.level - i <= j < t.level ==> key[j] == QuadDigits(t)[j]
    {
      DigitAt(t, i);
      LowIsMod(mortonKey, 2 * i);
      key := key[t.level - i - 1 := Digit(mortonKey / Pow2(2 * i) % 4)];
      i := i + 1;
    }
  }

  /** The two bits of a character, as the code reads them: any character is accepted. */
  function CharBits(c: char): (q: nat)
    ensures q < 4
  {
    (c as int - '0' as int) % 4
  }

  lemma DigitBits(q: nat)
    requires q < 4
    ensures CharBits(Digit(q)) == q
  {
  }

  /** The tile spelled by a string of quadrant characters. */
  function FromDigits(s: string): (t: TileKey)
    ensures t.level == |s|
  {
    if s == "" then ROOT else FromDigits(s[..|s| - 1]).Quadrant(CharBits(s[|s| - 1]))
  }

  /** Reads from the last character; a string longer than 32 would shift past the word and is excluded. */
  method FromQuadKey(quadKey: string) returns (result: TileKey)
    requires |quadKey| <= 32
    ensures result == if quadKey == "" then DEFAULT_TILE else if quadKey == "-" then ROOT else FromDigits(quadKey)
  {
    if quadKey == "" {
      return DEFAULT_TILE;
    }
    if quadKey == "-" {
      return ROOT;
    }
    var row: nat, column: nat, i: nat := 0, 0, 0;
    var n := |quadKey|;
    assert quadKey[..n] == quadKey;
    while i < n
      invariant 0 <= i <= n
      invariant row < Pow2(i) && column < Pow2(i)
      invariant FromDigits(quadKey) == Extend(FromDigits(quadKey[..n - i]), row, column, i)
    {
      var mask := Shl(1, i);
      var d := quadKey[n - i - 1] as int - '0' as int;
      ReadStep(quadKey, i, row, column);
      if d % 2 == 1 {
        column := Or(column, mask);
      }
      if d % 4 / 2 == 1 {
        row := Or(row, mask);
      }
      i := i + 1;
    }
    result := TileKey(row, column, n);
    assert FromDigits(quadKey[..0]) == ROOT;
    ShlOne(n);
  }

  /** One more character, read from the end, becomes one more low bit of row and column. */
  lemma ReadStep(s: string, i: nat, row: nat, column: nat)
    requires i < |s| && row < Pow2(i) && column < Pow2(i)
    ensures var d := s[|s| - i - 1] as int - '0' as int;
      var row' := if d % 4 / 2 == 1 then Or(row, Shl(1, i)) else row;
      var column' := if d % 2 == 1 then Or(column, Shl(1, i)) else column;
      && row' < Pow2(i + 1) && column' < Pow2(i + 1)
      && Extend(FromDigits(s[..|s| - i]), row, column, i) == Extend(FromDigits(s[..|s| - (i + 1)]), row', column', i + 1)
  {
    var prefix := s[..|s| - i];
    assert prefix[..|prefix| - 1] == s[..|s| - (i + 1)];
    LowBits(s[|s| - i - 1] as int - '0' as int);
    ExtendStep(FromDigits(s[..|s| - (i + 1)]), CharBits(s[|s| - i - 1]), row, column, i);
  }

  lemma {:induction false} FromDigitsOfTile(t: TileKey)
    requires t.IsValid()
    ensures FromDigits(QuadDigits(t)) == t
    decreases t.level
  {
    if t.level == 0 {
      RootCode(t);
    } else {
      MortonParent(t);
      FromDigitsOfTile(t.Parent());
      var s, q := QuadDigits(t), 2 * (t.row % 2) + t.column % 2;
      assert s[..|s| - 1] == QuadDigits(t.Parent());
      DigitBits(q);
    }
  }

  predicate AllQuadrants(s: string) {
    forall i :: 0 <= i < |s| ==> '0' <= s[i] <= '3'
  }

  lemma {:induction false} DigitsAreQuadrants(t: TileKey)
    ensures AllQuadrants(QuadDigits(t))
    decreases t.level
  {
    if t.level > 0 {
      DigitsAreQuadrants(t.Parent());
    }
  }

  lemma {:induction false} FromDigitsBounds(s: string)
    ensures FromDigits(s).row < Pow2(|s|) && FromDigits(s).column < Pow2(|s|)
  {
    if s != "" {
      FromDigitsBounds(s[..|s| - 1]);
    }
  }

  lemma {:induction false} DigitsOfFromDigits(s: string)
    requires AllQuadrants(s)
    ensures QuadDigits(FromDigits(s)) == s
  {
    if s != "" {
      var front, c := s[..|s| - 1], s[|s| - 1];
      DigitsOfFromDigits(front);
      DigitsOfQuadrant(FromDigits(front), CharBits(c));
      DigitOfChar(c);
      assert s == front + [c];
    }
  }

  lemma DigitOfChar(c: char)
    requires '0' <= c <= '3'
    ensures Digit(CharBits(c)) == c
  {
  }

  lemma DigitsOfQuadrant(p: TileKey, q: nat)
    requires q < 4
    ensures QuadDigits(p.Quadrant(q)) == QuadDigits(p) + [Digit(q)]
  {
    ShrOne(2 * p.row + q / 2);
    ShrOne(2 * p.column + q % 2);
    assert p.Quadrant(q).Parent() == p;
  }

  /** Base-4 round trip, tile side: every valid tile survives. */
  lemma QuadKeyRoundTrip(t: TileKey)
    requires t.IsValid()
    ensures var s := QuadKeyText(t);
      s != "" && (if s == "-" then ROOT else FromDigits(s)) == t
  {
    FromDigitsOfTile(t);
    DigitsAreQuadrants(t);
    if t.level == 0 {
      RootCode(t);
    }
  }

  /** Base-4 round trip, string side: exactly "", "-" and the strings of quadrant digits survive. */
  lemma QuadKeyTextRoundTrip(s: string)
    requires |s| < LEVEL_COUNT
    ensures var t := if s == "" then DEFAULT_TILE else if s == "-" then ROOT else FromDigits(s);
      QuadKeyText(t) == s <==> s == "-" || AllQuadrants(s)
  {
    if s != "" && s != "-" {
      FromDigitsBounds(s);
      if AllQuadrants(s) {
        DigitsOfFromDigits(s);
      }
      DigitsAreQuadrants(FromDigits(s));
      SurvivesIff(FromDigits(s), s);
    }
  }

  lemma SurvivesIff(t: TileKey, s: string)
    requires t.IsValid() && t.level > 0 && AllQuadrants(QuadDigits(t))
    requires AllQuadrants(s) ==> QuadDigits(t) == s
    ensures QuadKeyText(t) == s <==> AllQuadrants(s)
  {
  }

  lemma {:induction false} DigitsPrefix(t: TileKey, level: nat)
    requires t.IsValid() && level <= t.level
    ensures QuadDigits(t)[..level] == QuadDigits(Up(t, level))
    decreases t.level
  {
    if level == t.level {
      assert QuadDigits(t)[..level] == QuadDigits(t);
    } else {
      var p := t.Parent();
      MortonParent(t);
      UpOfParent(t, level);
      DigitsPrefix(p, level);
      DropLastDigit(t, level);
    }
  }

  lemma DropLastDigit(t: TileKey, level: nat)
    requires level < t.level
    ensures QuadDigits(t)[..level] == QuadDigits(t.Parent())[..level]
  {
  }

  lemma QuadDigitsInjective(t: TileKey, u: TileKey)
    requires t.IsValid() && u.IsValid() && QuadDigits(t) == QuadDigits(u)
    ensures t == u
  {
    FromDigitsOfTile(t);
    FromDigitsOfTile(u);
  }

  /** Below a non-root ancestor, being a child is having a quad key that properly extends the ancestor's. */
  lemma ChildIsQuadKeyExtension(t: TileKey, a: TileKey)
    requires t.IsValid() && a.IsValid() && a.level > 0
    ensures t.IsChildOf(a) <==> QuadKeyText(a) < QuadKeyText(t)
  {
    if a.level < t.level {
      var up := Up(t, a.level);
      DigitsPrefix(t, a.level);
      ChangeUp(t, a.level);
      UpIsChange(t, a.level);
      if QuadDigits(a) == QuadDigits(up) {
        QuadDigitsInjective(a, up);
      }
    }
  }
}
