/** Quad-tree tile keys: navigation, the 64-bit Morton form, and the base-4 and decimal string forms. */
module TileKeys {
  import opened BitOps
  import opened Decimal
  import opened Morton

  const LEVEL_COUNT: nat := 32

  /** What the default constructor builds: an invalid key one level below the deepest. */
  const DEFAULT_TILE: TileKey := TileKey(0, 0, LEVEL_COUNT)
  const ROOT: TileKey := TileKey(0, 0, 0)

  datatype TileKey = TileKey(row: nat, column: nat, level: nat) {
    predicate IsValid() {
      level < LEVEL_COUNT && row < Pow2(level) && column < Pow2(level)
    }

    function Parent(): TileKey {
      if level > 0 then TileKey(Shr(row, 1), Shr(column, 1), level - 1) else DEFAULT_TILE
    }

    /** A shift by 32 or more is undefined for the 32-bit row and column. */
    function ChangedLevelBy(delta: int): TileKey
      requires -32 < delta < 32
    {
      if delta == 0 then this
      else
        var newLevel := if level + delta < 0 then 0 else level + delta;
        if delta >= 0 then
          TileKey(Shl(row, delta) % TWO_32, Shl(column, delta) % TWO_32, newLevel)
        else
          TileKey(Shr(row, -delta), Shr(column, -delta), newLevel)
    }

    function ChangedLevelTo(newLevel: nat): TileKey
      requires -32 < newLevel - level < 32
    {
      ChangedLevelBy(newLevel - level)
    }

    predicate IsChildOf(other: TileKey)
      requires level < other.level + 32
    {
      level > other.level && ChangedLevelTo(other.level) == other
    }

    function GetChild(index: nat): TileKey
      requires index < 256
    {
      var t := ChangedLevelBy(1);
      TileKey(Or(t.row, Shr(index, 1)), Or(t.column, And(index, 1)), t.level)
    }

    /** The quadrant number, or 4 (Invalid) for the root. */
    function RelationshipToParent(): nat {
      if level == 0 then 4
      else
        var sw := Parent().GetChild(0);
        ((row - sw.row) * 2 + column - sw.column) % 256
    }

    /** The number whose bits are those of row and column alternated under a leading one. */
    function MortonCode(): nat {
      Interleave(row, Pow2(level) + column)
    }

    /** The decimal text of the Morton code. */
    function HereTile(): string {
      Print(MortonCode())
    }

    /** Quadrant `q` of this tile: q = 2 * (row bit) + (column bit). */
    function Quadrant(q: nat): TileKey {
      TileKey(2 * row + q / 2, 2 * column + q % 2, level + 1)
    }
  }

  /** Table lookup of the byte of x that starts at bit `from`, moved to bit `to`. */
  function SpreadByte(x: nat, from: nat, to: nat): nat {
    AndMask(Shr(x, from), 8);
    Split(Shr(x, from), 8);
    Pow2Values();
    Shl(MortonTable256(And(Shr(x, from), 0xFF)), to)
  }

  // ---- the table-driven form is the Morton code ----

  lemma {:induction false} OrAssociative(a: nat, b: nat, c: nat)
    ensures Or(Or(a, b), c) == Or(a, Or(b, c))
  {
    if a == 0 && b == 0 && c == 0 {
    } else {
      OrAssociative(a / 2, b / 2, c / 2);
      OrStep(a, b);
      OrStep(b, c);
      OrStep(Or(a, b), c);
      OrStep(a, Or(b, c));
    }
  }

  lemma SpreadByteIsBlock(x: nat, n: nat)
    ensures SpreadByte(x, n, 2 * n) == Interleave(0, ByteAt(x, n))
    ensures SpreadByte(x, n, 2 * n + 1) == Interleave(ByteAt(x, n), 0)
  {
    AndMask(Shr(x, n), 8);
    Split(Shr(x, n), 8);
    Pow2Values();
    TableIsInterleave(Low(Shr(x, n), 8));
    InterleaveBlocks(Low(Shr(x, n), 8), n);
  }

  /** Adding the byte at bit n to the bytes above it. */
  lemma AppendByte(x: nat, n: nat)
    ensures Or(Shl(Shr(x, n + 8), n + 8), ByteAt(x, n)) == Shl(Shr(x, n), n)
  {
    var y := Shr(x, n);
    ShrShr(x, n, 8);
    Split(y, 8);
    ShlPlus(Shl(Shr(y, 8), 8), Low(y, 8), n);
    ShlShl(Shr(y, 8), 8, n);
    ShlLess(Low(y, 8), Pow2(8), n);
    ShlOne(8);
    ShlShl(1, 8, n);
    ShlOne(8 + n);
    OrIsPlus(Shr(y, 8), Shl(Low(y, 8), n), n + 8);
  }

  lemma TopByte(x: nat)
    requires x < TWO_32
    ensures ByteAt(x, 24) == Shl(Shr(x, 24), 24)
  {
    Pow2Values();
    ShrSmall(x, 32);
    ShlOne(32);
    OrZero(ByteAt(x, 24));
    AppendByte(x, 24);
  }

  lemma BytesOr(x: nat)
    requires x < TWO_32
    ensures Or(Or(Or(ByteAt(x, 24), ByteAt(x, 16)), ByteAt(x, 8)), ByteAt(x, 0)) == x
  {
    TopByte(x);
    AppendByte(x, 16);
    AppendByte(x, 8);
    AppendByte(x, 0);
  }

  /** Or-ing one row byte, or one column byte, into a partial key. */
  lemma AddByte(key: nat, r: nat, c: nat, x: nat, n: nat)
    requires key == Interleave(r, c)
    ensures Or(key, SpreadByte(x, n, 2 * n + 1)) == Interleave(Or(r, ByteAt(x, n)), c)
    ensures Or(key, SpreadByte(x, n, 2 * n)) == Interleave(r, Or(c, ByteAt(x, n)))
  {
    SpreadByteIsBlock(x, n);
    InterleaveOr(r, c, ByteAt(x, n), 0);
    InterleaveOr(r, c, 0, ByteAt(x, n));
    OrZero(r);
    OrZero(c);
  }

  lemma ValidBelow32(t: TileKey)
    requires t.IsValid()
    ensures t.row < TWO_32 && t.column < TWO_32 && Pow2(t.level) + t.column < TWO_32
  {
    Pow2Monotone(t.level, 31);
    Pow2Values();
  }

  /** The byte of x at bit n, in place. */
  function ByteAt(x: nat, n: nat): nat {
    Shl(Low(Shr(x, n), 8), n)
  }

  lemma LeadingOne(n: nat)
    ensures Shl(1, 2 * n) == Interleave(0, Pow2(n))
  {
    InterleaveBlocks(1, n);
    assert Interleave(0, 1) == 1;
    ShlOne(n);
  }

  /** Or-ing the four bytes of x into a value. */
  lemma OrBytes(lead: nat, x: nat)
    requires x < TWO_32
    ensures Or(Or(Or(Or(lead, ByteAt(x, 24)), ByteAt(x, 16)), ByteAt(x, 8)), ByteAt(x, 0)) == Or(lead, x)
  {
    var b3, b2, b1, b0 := ByteAt(x, 24), ByteAt(x, 16), ByteAt(x, 8), ByteAt(x, 0);
    OrAssociative(lead, b3, b2);
    OrAssociative(lead, Or(b3, b2), b1);
    OrAssociative(lead, Or(Or(b3, b2), b1), b0);
    BytesOr(x);
  }

  /** The row terms of the quad key, or-ed into the leading one. */
  method OrRow(key: nat, x: nat, ghost c: nat) returns (result: nat)
    requires key == Interleave(0, c) && x < TWO_32
    ensures result == Interleave(x, c)
  {
    result := Or(Or(Or(Or(key,
      SpreadByte(x, 24, 49)), SpreadByte(x, 16, 33)), SpreadByte(x, 8, 17)), SpreadByte(x, 0, 1));
    ghost var r3 := Or(0, ByteAt(x, 24));
    ghost var r2 := Or(r3, ByteAt(x, 16));
    ghost var r1 := Or(r2, ByteAt(x, 8));
    AddByte(key, 0, c, x, 24);
    AddByte(Interleave(r3, c), r3, c, x, 16);
    AddByte(Interleave(r2, c), r2, c, x, 8);
    AddByte(Interleave(r1, c), r1, c, x, 0);
    OrBytes(0, x);
    OrZero(x);
  }

  /** The column terms of the quad key, or-ed into what the row terms gave. */
  method OrColumn(key: nat, x: nat, ghost r: nat, ghost lead: nat) returns (result: nat)
    requires key == Interleave(r, lead) && x < TWO_32
    ensures result == Interleave(r, Or(lead, x))
  {
    result := Or(Or(Or(Or(key,
      SpreadByte(x, 24, 48)), SpreadByte(x, 16, 32)), SpreadByte(x, 8, 16)), SpreadByte(x, 0, 0));
    ghost var c3 := Or(lead, ByteAt(x, 24));
    ghost var c2 := Or(c3, ByteAt(x, 16));
    ghost var c1 := Or(c2, ByteAt(x, 8));
    AddByte(key, r, lead, x, 24);
    AddByte(Interleave(r, c3), r, c3, x, 16);
    AddByte(Interleave(r, c2), r, c2, x, 8);
    AddByte(Interleave(r, c1), r, c1, x, 0);
    OrBytes(lead, x);
  }

  /** The table-driven form: a leading one, then the bits of row and column alternated, byte by byte. */
  method ToQuadKey64(t: TileKey) returns (key: nat)
    requires t.IsValid()
    ensures key == t.MortonCode()
  {
    LeadingOne(t.level);
    ValidBelow32(t);
    key := OrRow(Shl(1, 2 * t.level), t.row, Pow2(t.level));
    key := OrColumn(key, t.column, t.row, Pow2(t.level));
    LeadingBit(t.column, t.level);
  }

  lemma LeadingBit(x: nat, n: nat)
    requires x < Pow2(n)
    ensures Or(Pow2(n), x) == Pow2(n) + x
  {
    ShlOne(n);
    OrIsPlus(1, x, n);
  }

  /** The leading one of a code stands above the interleaved row and column. */
  lemma CodeIsLead(t: TileKey)
    requires t.IsValid()
    ensures t.MortonCode() == Shl(1, 2 * t.level) + Interleave(t.row, t.column)
    ensures Interleave(t.row, t.column) < Pow2(2 * t.level)
  {
    ShlOne(t.level);
    InterleaveSplit(0, 1, t.row, t.column, t.level);
    InterleaveBound(t.row, t.column, t.level);
    assert Interleave(0, 1) == 1;
  }

  lemma MortonBounds(t: TileKey)
    requires t.IsValid()
    ensures Pow4(t.level) <= t.MortonCode() < 2 * Pow4(t.level) <= TWO_64 / 2
  {
    CodeIsLead(t);
    ShlOne(2 * t.level);
    Pow4IsPow2(t.level);
    Pow2Monotone(2 * t.level, 62);
    Pow2Values();
  }

  // ---- one level of the tree, seen in the Morton code ----

  lemma ShrOne(x: nat)
    ensures Shr(x, 1) == x / 2
  {
    assert Shr(x / 2, 0) == x / 2;
  }

  lemma MortonParent(t: TileKey)
    requires t.IsValid() && t.level > 0
    ensures t.Parent().IsValid()
    ensures t == t.Parent().Quadrant(2 * (t.row % 2) + t.column % 2)
    ensures t.MortonCode() == 4 * t.Parent().MortonCode() + 2 * (t.row % 2) + t.column % 2
  {
    ShrOne(t.row);
    ShrOne(t.column);
    CodeOfQuadrant(t.Parent(), 2 * (t.row % 2) + t.column % 2);
  }

  lemma CodeOfQuadrant(p: TileKey, q: nat)
    requires q < 4
    ensures p.Quadrant(q).MortonCode() == 4 * p.MortonCode() + q
  {
    InterleaveBits(2 * p.row + q / 2, Pow2(p.level + 1) + 2 * p.column + q % 2,
                   p.row, q / 2, Pow2(p.level) + p.column, q % 2);
  }

  lemma QuadrantParent(t: TileKey, q: nat)
    requires q < 4
    ensures t.Quadrant(q).Parent() == t
  {
    ShrOne(2 * t.row + q / 2);
    ShrOne(2 * t.column + q % 2);
  }

  lemma QuadrantNumber(t: TileKey, q: nat)
    requires t.IsValid() && t.level < LEVEL_COUNT - 1 && q < 4
    ensures t.Quadrant(q).RelationshipToParent() == q
  {
    QuadrantParent(t, q);
    ChildBits(t, 0);
    assert t.GetChild(0) == TileKey(2 * t.row, 2 * t.column, t.level + 1);
  }

  /** Child i of a tile above the deepest level has Morton code 4m + i, and the tile as its parent. */
  lemma GetChildInverse(t: TileKey, index: nat)
    requires t.IsValid() && t.level < LEVEL_COUNT - 1 && index < 4
    ensures t.GetChild(index) == t.Quadrant(index)
    ensures t.GetChild(index).IsValid()
    ensures t.GetChild(index).Parent() == t
    ensures t.GetChild(index).RelationshipToParent() == index
    ensures t.GetChild(index).MortonCode() == 4 * t.MortonCode() + index
  {
    ChildBits(t, index);
    QuadrantParent(t, index);
    QuadrantNumber(t, index);
    CodeOfQuadrant(t, index);
  }

  lemma ChildBits(t: TileKey, index: nat)
    requires t.IsValid() && t.level < LEVEL_COUNT - 1 && index < 4
    ensures t.GetChild(index) == t.Quadrant(index)
  {
    Pow2Monotone(t.level + 1, 31);
    Pow2Values();
    ShlOneStep(t.row);
    ShlOneStep(t.column);
    assert t.ChangedLevelBy(1) == TileKey(2 * t.row, 2 * t.column, t.level + 1);
    OrLowBit(t.row, index / 2);
    OrLowBit(t.column, index % 2);
    ShrOne(index);
    AndOneBit(index);
  }

  lemma OrLowBit(x: nat, b: nat)
    requires b < 2
    ensures Or(2 * x, b) == 2 * x + b
  {
    ShlOneStep(x);
    assert Pow2(1) == 2;
    OrIsPlus(x, b, 1);
  }

  lemma ShlOneStep(x: nat)
    ensures Shl(x, 1) == 2 * x
  {
    assert Shl(x, 0) == x;
  }

  /** A non-root tile is the child of its parent that its quadrant number names. */
  lemma RelationshipInvertsChild(t: TileKey)
    requires t.IsValid() && t.level > 0
    ensures t.RelationshipToParent() < 4
    ensures t.Parent().GetChild(t.RelationshipToParent()) == t
  {
    MortonParent(t);
    ShrOne(t.row);
    ShrOne(t.column);
    var index := 2 * (t.row % 2) + t.column % 2;
    GetChildInverse(t.Parent(), index);
  }

  // ---- the 64-bit form, read back ----

  /** The tile read from a 64-bit key, most significant pair of bits first. */
  function FromMorton(key: nat): TileKey {
    if key <= 1 then ROOT else FromMorton(key / 4).Quadrant(key % 4)
  }

  /** `p`, continued by `level` more bits of row and column. */
  function Extend(p: TileKey, row: nat, column: nat, level: nat): TileKey {
    TileKey(Shl(p.row, level) + row, Shl(p.column, level) + column, p.level + level)
  }

  /** The loop reads the key from its low end; the bits collected so far continue what is left. */
  method FromQuadKey64(quadKey: nat) returns (result: TileKey)
    requires quadKey < TWO_64
    ensures result == FromMorton(quadKey)
  {
    var row: nat, column: nat, level: nat := 0, 0, 0;
    var key := quadKey;
    while key > 1
      invariant row < Pow2(level) && column < Pow2(level)
      invariant FromMorton(quadKey) == Extend(FromMorton(key), row, column, level)
    {
      var mask := Shl(1, level);
      KeyStep(key, row, column, level);
      if And(key, 1) != 0 {
        column := Or(column, mask);
      }
      if And(key, 2) != 0 {
        row := Or(row, mask);
      }
      level := level + 1;
      key := key / 4;
    }
    result := TileKey(row, column, level);
    ShlOne(level);
  }

  /** One round of the loop moves the lowest bit pair of the key to the top of row and column. */
  lemma KeyStep(key: nat, row: nat, column: nat, level: nat)
    requires key > 1 && row < Pow2(level) && column < Pow2(level)
    ensures var row' := if And(key, 2) != 0 then Or(row, Shl(1, level)) else row;
      var column' := if And(key, 1) != 0 then Or(column, Shl(1, level)) else column;
      && row' < Pow2(level + 1) && column' < Pow2(level + 1)
      && Extend(FromMorton(key), row, column, level) == Extend(FromMorton(key / 4), row', column', level + 1)
  {
    AndOneBit(key);
    LowBits(key);
    ExtendStep(FromMorton(key / 4), key % 4, row, column, level);
  }

  lemma LowBits(d: int)
    ensures d % 2 == d % 4 % 2
  {
  }

  lemma ExtendStep(p: TileKey, q: nat, row: nat, column: nat, level: nat)
    requires q < 4 && row < Pow2(level) && column < Pow2(level)
    ensures var row' := if q / 2 == 1 then Or(row, Shl(1, level)) else row;
      var column' := if q % 2 == 1 then Or(column, Shl(1, level)) else column;
      && row' < Pow2(level + 1) && column' < Pow2(level + 1)
      && Extend(p.Quadrant(q), row, column, level) == Extend(p, row', column', level + 1)
  {
    ExtendBit(p.row, q / 2, row, level);
    ExtendBit(p.column, q % 2, column, level);
  }

  lemma ExtendBit(x: nat, b: nat, low: nat, level: nat)
    requires b < 2 && low < Pow2(level)
    ensures var low' := if b == 1 then Or(low, Shl(1, level)) else low;
      low' < Pow2(level + 1) && Shl(2 * x + b, level) + low == Shl(x, level + 1) + low'
  {
    OrIsPlus(1, low, level);
    ShlOne(level);
    ShlPush(x, b, level);
  }

  lemma AndOneBit(x: nat)
    ensures And(x, 1) == x % 2 && And(x, 2) == 2 * (x % 4 / 2)
  {
    AndLowest(x);
    AndLowest(x / 2);
    assert And(x, 2) == if x == 0 then 0 else 2 * And(x / 2, 1);
    SecondBit(x);
  }

  lemma AndLowest(x: nat)
    ensures And(x, 1) == x % 2
  {
    assert And(x, 1) == if x == 0 then 0 else 2 * And(x / 2, 0) + x % 2;
  }

  lemma SecondBit(x: nat)
    ensures x / 2 % 2 == x % 4 / 2
  {
  }

  /** Morton round trip, tile side: reading the 64-bit key of a valid tile gives the tile. */
  lemma {:induction false} QuadKey64RoundTrip(t: TileKey)
    requires t.IsValid()
    ensures FromMorton(t.MortonCode()) == t && t.MortonCode() >= 1
    decreases t.level
  {
    if t.level == 0 {
      RootCode(t);
    } else {
      MortonParent(t);
      QuadKey64RoundTrip(t.Parent());
      FromMortonStep(t.MortonCode(), t.Parent().MortonCode(), 2 * (t.row % 2) + t.column % 2);
    }
  }

  lemma FromMortonStep(key: nat, m: nat, q: nat)
    requires m >= 1 && q < 4 && key == 4 * m + q
    ensures FromMorton(key) == FromMorton(m).Quadrant(q)
  {
    assert key / 4 == m && key % 4 == q;
  }

  lemma RootCode(t: TileKey)
    requires t.IsValid() && t.level == 0
    ensures t == ROOT && t.MortonCode() == 1
  {
    assert Interleave(0, 1) == 1;
  }

  /** A key that starts, from the top, with a single one bit at an even position. */
  predicate IsQuadKey(key: nat) {
    key == 1 || (key >= 4 && IsQuadKey(key / 4))
  }

  lemma {:induction false} TopBit(key: nat) returns (n: nat)
    requires IsQuadKey(key)
    ensures Pow4(n) <= key < 2 * Pow4(n)
  {
    if key == 1 {
      n := 0;
    } else {
      var n' := TopBit(key / 4);
      n := n' + 1;
      assert Pow4(n) == 4 * Pow4(n');
    }
  }

  lemma {:induction false} FromTopBit(key: nat, n: nat)
    requires Pow4(n) <= key < 2 * Pow4(n)
    ensures IsQuadKey(key)
    decreases n
  {
    if n > 0 {
      FromTopBit(key / 4, n - 1);
    }
  }

  lemma IsQuadKeyTopBit(key: nat)
    ensures IsQuadKey(key) <==> exists n: nat :: Pow4(n) <= key < 2 * Pow4(n)
  {
    if IsQuadKey(key) {
      var n := TopBit(key);
    }
    if n: nat :| Pow4(n) <= key < 2 * Pow4(n) {
      FromTopBit(key, n);
    }
  }

  lemma {:induction false} FromMortonBounds(key: nat)
    ensures FromMorton(key).row < Pow2(FromMorton(key).level) && FromMorton(key).column < Pow2(FromMorton(key).level)
  {
    if key > 1 {
      FromMortonBounds(key / 4);
    }
  }

  lemma {:induction false} FromMortonLevel(key: nat)
    requires IsQuadKey(key)
    ensures Pow4(FromMorton(key).level) <= key
  {
    if key == 1 {
      assert FromMorton(key) == ROOT && Pow4(0) == 1;
    } else {
      var n := FromMorton(key / 4).level;
      FromMortonLevel(key / 4);
      calc {
        Pow4(FromMorton(key).level);
      ==  { assert FromMorton(key).level == n + 1; }
        4 * Pow4(n);
      <=
        4 * (key / 4);
      <=
        key;
      }
    }
  }

  lemma {:induction false} CodeOfFromMorton(key: nat)
    ensures IsQuadKey(key) <==> FromMorton(key).MortonCode() == key
    ensures FromMorton(key).MortonCode() >= 1
  {
    if key <= 1 {
      RootCode(ROOT);
    } else {
      CodeOfFromMorton(key / 4);
      CodeOfQuadrant(FromMorton(key / 4), key % 4);
    }
  }

  /** Morton round trip, key side: exactly the keys with their top bit at an even position survive. */
  lemma KeyRoundTrip(key: nat)
    requires key < TWO_64
    ensures IsQuadKey(key) <==> FromMorton(key).IsValid() && FromMorton(key).MortonCode() == key
  {
    CodeOfFromMorton(key);
    FromMortonBounds(key);
    if IsQuadKey(key) {
      FromMortonLevel(key);
      if FromMorton(key).level >= 32 {
        FourToThe32(FromMorton(key).level);
      }
    }
  }

  lemma FourToThe32(n: nat)
    requires n >= 32
    ensures Pow4(n) >= TWO_64
  {
    Pow4IsPow2(n);
    Pow2Monotone(64, 2 * n);
    Pow2Values();
  }

  // ---- the decimal string form ----

  method ToHereTile(t: TileKey) returns (s: string)
    requires t.IsValid()
    ensures s == t.HereTile()
  {
    var key := ToQuadKey64(t);
    s := Print(key);
  }

  method FromHereTile(key: string) returns (result: TileKey)
    ensures result == if key == "" then DEFAULT_TILE else FromMorton(Strtoull(key))
  {
    if key == "" {
      return DEFAULT_TILE;
    }
    result := FromQuadKey64(Strtoull(key));
  }

  lemma HereTileRoundTrip(t: TileKey)
    requires t.IsValid()
    ensures t.HereTile() != "" && FromMorton(Strtoull(t.HereTile())) == t
  {
    QuadKey64RoundTrip(t);
    MortonBounds(t);
    StrtoullPrint(t.MortonCode());
  }

  /** Distinct valid tiles print to distinct strings, so a map keyed by that string is a map keyed by tile. */
  lemma HereTileInjective(t: TileKey, u: TileKey)
    requires t.IsValid() && u.IsValid() && t.HereTile() == u.HereTile()
    ensures t == u
  {
    HereTileRoundTrip(t);
    HereTileRoundTrip(u);
  }
}
