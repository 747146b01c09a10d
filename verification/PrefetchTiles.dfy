/** The prefetch cover: which (tile, depth) sub-tree queries a request for tiles and a level range turns into. */
module PrefetchTiles {
  import opened BitOps
  import opened TileKeys
  import opened TileAncestry

  const MAX_QUAD_TREE_INDEX_DEPTH: nat := 4

  datatype TileAndDepth = TileAndDepth(tile: TileKey, depth: nat)

  /** Queries keyed by the decimal text of their tile. */
  type SubQuads = map<string, TileAndDepth>

  // ---- what a set of queries means ----

  /** A query fetches its tile and everything below it down to its depth. */
  predicate Denotes(e: TileAndDepth, t: TileKey) {
    AtOrAbove(e.tile, t) && t.level <= e.tile.level + e.depth
  }

  ghost predicate Covered(m: SubQuads, t: TileKey) {
    exists k :: k in m && Denotes(m[k], t)
  }

  predicate EntryFits(k: string, e: TileAndDepth, minLevel: nat, maxLevel: nat) {
    && e.tile.IsValid() && k == e.tile.HereTile()
    && minLevel <= e.tile.level && e.tile.level + e.depth <= maxLevel
    && e.depth <= MAX_QUAD_TREE_INDEX_DEPTH
  }

  /** Entries are filed under their own tile, stay within the level range, and are never deeper than allowed. */
  ghost predicate Fits(m: SubQuads, minLevel: nat, maxLevel: nat) {
    forall k :: k in m ==> EntryFits(k, m[k], minLevel, maxLevel)
  }

  /** No tile is fetched by two entries. */
  ghost predicate NoOverlap(m: SubQuads) {
    forall j, k, t :: j in m && k in m && Denotes(m[j], t) && Denotes(m[k], t) ==> j == k
  }

  /** The tiles a request for one tile asks for: everything below it, and, where asked, everything above it. */
  predicate Wanted(tile: TileKey, t: TileKey, minLevel: nat, maxLevel: nat, addAncestors: bool) {
    && minLevel <= t.level <= maxLevel
    && (AtOrAbove(tile, t) || ((addAncestors || tile.level > maxLevel) && AtOrAbove(t, tile)))
  }

  ghost predicate ExactCover(m: SubQuads, tile: TileKey, minLevel: nat, maxLevel: nat, addAncestors: bool) {
    && Fits(m, minLevel, maxLevel)
    && NoOverlap(m)
    && forall t: TileKey :: t.IsValid() ==> (Covered(m, t) <==> Wanted(tile, t, minLevel, maxLevel, addAncestors))
  }

  /** The tiles wanted, by the program's own test for ancestors. */
  lemma WantedByChildOf(tile: TileKey, t: TileKey, minLevel: nat, maxLevel: nat, addAncestors: bool)
    requires tile.IsValid() && t.IsValid()
    ensures Wanted(tile, t, minLevel, maxLevel, addAncestors) <==>
      && minLevel <= t.level <= maxLevel
      && (t == tile || t.IsChildOf(tile) || ((addAncestors || tile.level > maxLevel) && tile.IsChildOf(t)))
  {
    AtOrAboveIsChild(tile, t);
    AtOrAboveIsChild(t, tile);
  }

  // ---- merging ----

  predicate TileLess(a: TileKey, b: TileKey) {
    if a.level != b.level then a.level < b.level
    else if a.row != b.row then a.row < b.row
    else a.column < b.column
  }

  /** `std::max` on (tile, depth) pairs. */
  function MaxPair(a: TileAndDepth, b: TileAndDepth): TileAndDepth {
    if TileLess(a.tile, b.tile) || (!TileLess(b.tile, a.tile) && a.depth < b.depth) then b else a
  }

  function MergeEntry(m: SubQuads, n: SubQuads, k: string): TileAndDepth
    requires k in m || k in n
  {
    if k !in n then m[k] else if k !in m then n[k] else MaxPair(m[k], n[k])
  }

  ghost predicate IsMerge(m: SubQuads, n: SubQuads, r: SubQuads) {
    && r.Keys == m.Keys + n.Keys
    && forall k :: k in r ==> r[k] == MergeEntry(m, n, k)
  }

  /** Takes the entries one by one, in any order; where a key is present already, the greater pair wins. */
  method Merge(m: SubQuads, n: SubQuads) returns (ret: SubQuads)
    ensures IsMerge(m, n, ret)
  {
    ret := m;
    var todo := n.Keys;
    while todo != {}
      invariant todo <= n.Keys
      invariant ret.Keys == m.Keys + (n.Keys - todo)
      invariant forall k :: k in ret ==> ret[k] == if k in todo then m[k] else MergeEntry(m, n, k)
      decreases todo
    {
      var k :| k in todo;
      if k in ret {
        ret := ret[k := MaxPair(ret[k], n[k])];
      } else {
        ret := ret[k := n[k]];
      }
      todo := todo - {k};
    }
  }

  /** Where two fitting maps share a key they share its tile, so the greater pair is the greater depth. */
  lemma MergeEntryFits(m: SubQuads, n: SubQuads, k: string, minLevel: nat, maxLevel: nat)
    requires Fits(m, minLevel, maxLevel) && Fits(n, minLevel, maxLevel)
    requires k in m || k in n
    ensures var e := MergeEntry(m, n, k);
      && EntryFits(k, e, minLevel, maxLevel)
      && (k in m ==> e.tile == m[k].tile && e.depth >= m[k].depth)
      && (k in n ==> e.tile == n[k].tile && e.depth >= n[k].depth)
      && (forall t :: Denotes(e, t) <==> (k in m && Denotes(m[k], t)) || (k in n && Denotes(n[k], t)))
  {
    if k in m && k in n {
      HereTileInjective(m[k].tile, n[k].tile);
    }
  }

  /** Every entry is still there, with at least its depth. */
  ghost predicate KeepsDepths(before: SubQuads, after: SubQuads) {
    forall k :: k in before ==> k in after && after[k].tile == before[k].tile && after[k].depth >= before[k].depth
  }

  /** Merging is union of what is fetched; no entry of either map loses depth. */
  lemma MergeIsUnion(m: SubQuads, n: SubQuads, r: SubQuads, minLevel: nat, maxLevel: nat)
    requires Fits(m, minLevel, maxLevel) && Fits(n, minLevel, maxLevel) && IsMerge(m, n, r)
    ensures Fits(r, minLevel, maxLevel)
    ensures forall t :: Covered(r, t) <==> Covered(m, t) || Covered(n, t)
    ensures KeepsDepths(m, r) && KeepsDepths(n, r)
  {
    forall k | k in r
      ensures EntryFits(k, r[k], minLevel, maxLevel)
      ensures k in m ==> r[k].tile == m[k].tile && r[k].depth >= m[k].depth
      ensures k in n ==> r[k].tile == n[k].tile && r[k].depth >= n[k].depth
      ensures forall t :: Denotes(r[k], t) <==> (k in m && Denotes(m[k], t)) || (k in n && Denotes(n[k], t))
    {
      MergeEntryFits(m, n, k, minLevel, maxLevel);
    }
    forall t
      ensures Covered(r, t) <==> Covered(m, t) || Covered(n, t)
    {
      if k :| k in m && Denotes(m[k], t) {
        assert k in r;
      }
      if k :| k in n && Denotes(n[k], t) {
        assert k in r;
      }
    }
  }

  lemma MergeNoOverlap(m: SubQuads, n: SubQuads, r: SubQuads, minLevel: nat, maxLevel: nat)
    requires Fits(m, minLevel, maxLevel) && Fits(n, minLevel, maxLevel) && IsMerge(m, n, r)
    requires NoOverlap(m) && NoOverlap(n)
    requires forall t: TileKey :: t.IsValid() ==> !(Covered(m, t) && Covered(n, t))
    ensures NoOverlap(r)
  {
    forall j, k, t | j in r && k in r && Denotes(r[j], t) && Denotes(r[k], t)
      ensures j == k
    {
      MergeEntryFits(m, n, j, minLevel, maxLevel);
      MergeEntryFits(m, n, k, minLevel, maxLevel);
      // both entries contain their common tile cut to the deeper entry's level, which is valid
      var deep := if r[j].tile.level < r[k].tile.level then k else j;
      var u := r[deep].tile;
      AtOrAboveOrder(r[j].tile, r[k].tile, t);
      AtOrAboveOrder(r[k].tile, r[j].tile, t);
      assert Denotes(r[j], u) && Denotes(r[k], u);
    }
  }

  // ---- the building blocks ----

  /** Valid tiles of one level whose Morton codes count up from `base`. */
  ghost predicate CountsUp(s: seq<TileKey>, base: nat, level: nat) {
    forall i :: 0 <= i < |s| ==> s[i].IsValid() && s[i].level == level && s[i].MortonCode() == base + i
  }

  /** All descendants at one level, each once, in Morton order. The loop bound is the depth constant, which is also 4. */
  method GetChildAtLevel(tile: TileKey, minLevel: nat) returns (ret: seq<TileKey>)
    requires tile.IsValid() && minLevel < LEVEL_COUNT
    ensures tile.level >= minLevel ==> ret == [tile]
    ensures tile.level <= minLevel ==>
      var n := minLevel - tile.level;
      |ret| == Pow4(n) && CountsUp(ret, tile.MortonCode() * Pow4(n), minLevel)
    decreases minLevel - tile.level
  {
    if tile.level >= minLevel {
      return [tile];
    }
    ret := [];
    ghost var code, block := tile.MortonCode(), Pow4(minLevel - tile.level - 1);
    for index := 0 to MAX_QUAD_TREE_INDEX_DEPTH
      invariant |ret| == index * block
      invariant CountsUp(ret, code * (4 * block), minLevel)
    {
      GetChildInverse(tile, index);
      var child := GetChildAtLevel(tile.GetChild(index), minLevel);
      ChildBlock(code, index, block);
      ret := ret + child;
    }
  }

  lemma ChildBlock(m: nat, index: nat, block: nat)
    ensures (4 * m + index) * block == m * (4 * block) + index * block
    ensures (index + 1) * block == index * block + block
  {
  }

  lemma SameCode(a: TileKey, b: TileKey)
    requires a.IsValid() && b.IsValid() && a.MortonCode() == b.MortonCode()
    ensures a == b
  {
    QuadKey64RoundTrip(a);
    QuadKey64RoundTrip(b);
  }

  lemma CodeInBlock(u: TileKey, level: nat)
    requires u.IsValid() && level <= u.level
    ensures var a, block := Up(u, level), Pow4(u.level - level);
      a.IsValid() && a.MortonCode() * block <= u.MortonCode() < a.MortonCode() * block + block
  {
    var n := u.level - level;
    ChangeUp(u, level);
    UpIsChange(u, level);
    Split(u.MortonCode(), 2 * n);
    Pow4IsPow2(n);
    ShlIsTimes(Up(u, level).MortonCode(), 2 * n);
  }

  /** The descendants at one level are exactly the tiles whose codes extend the ancestor's. */
  lemma BelowIsBlock(tile: TileKey, u: TileKey)
    requires tile.IsValid() && u.IsValid() && tile.level <= u.level
    ensures var block := Pow4(u.level - tile.level);
      AtOrAbove(tile, u) <==> tile.MortonCode() * block <= u.MortonCode() < tile.MortonCode() * block + block
  {
    var a := Up(u, tile.level);
    CodeInBlock(u, tile.level);
    SameBlock(a.MortonCode(), tile.MortonCode(), u.MortonCode(), Pow4(u.level - tile.level));
    if a.MortonCode() == tile.MortonCode() {
      SameCode(a, tile);
    }
  }

  lemma SameBlock(a: nat, b: nat, x: nat, block: nat)
    requires a * block <= x < a * block + block
    ensures a == b <==> b * block <= x < b * block + block
  {
    TimesMonotone(a + 1, b, block);
    TimesMonotone(b + 1, a, block);
    assert (a + 1) * block == a * block + block;
    assert (b + 1) * block == b * block + block;
  }

  /** GetChildAtLevel lists exactly the descendants at the level, each of them once. */
  lemma ListsDescendants(tile: TileKey, s: seq<TileKey>, level: nat)
    requires tile.IsValid() && tile.level <= level < LEVEL_COUNT
    requires |s| == Pow4(level - tile.level)
    requires CountsUp(s, tile.MortonCode() * Pow4(level - tile.level), level)
    ensures forall u: TileKey :: u.IsValid() && u.level == level ==> (u in s <==> AtOrAbove(tile, u))
    ensures forall i, j :: 0 <= i < j < |s| ==> s[i] != s[j]
  {
    var base := tile.MortonCode() * Pow4(level - tile.level);
    forall u: TileKey | u.IsValid() && u.level == level
      ensures u in s <==> AtOrAbove(tile, u)
    {
      BelowIsBlock(tile, u);
      if AtOrAbove(tile, u) {
        SameCode(s[u.MortonCode() - base], u);
      }
    }
  }

  /** The proper ancestors of `tileKey` above `level` and within the range are filed with depth 0, and nothing else is. */
  ghost predicate ParentsAbove(ret: SubQuads, tileKey: TileKey, level: nat, minLevel: nat, maxLevel: nat) {
    && (forall k :: k in ret ==>
      && EntryFits(k, ret[k], minLevel, maxLevel) && ret[k].depth == 0
      && level < ret[k].tile.level < tileKey.level && ret[k].tile == Up(tileKey, ret[k].tile.level))
    && (forall l {:trigger Up(tileKey, l)} :: level < l < tileKey.level && minLevel <= l <= maxLevel ==>
      Up(tileKey, l).HereTile() in ret && ret[Up(tileKey, l).HereTile()].tile == Up(tileKey, l))
  }

  /** Every ancestor of the tile within the level range becomes an entry of depth 0. */
  method AddParents(tileKey: TileKey, minLevel: nat, maxLevel: nat) returns (ret: SubQuads)
    requires tileKey.IsValid() && tileKey.level > 0 && minLevel >= 1
    ensures Fits(ret, minLevel, maxLevel) && NoOverlap(ret)
    ensures forall t :: Covered(ret, t) <==> minLevel <= t.level <= maxLevel && AtOrAbove(t, tileKey) && t != tileKey
  {
    ret := map[];
    MortonParent(tileKey);
    var tile := tileKey.Parent();
    while tile.level >= minLevel
      invariant tile.IsValid() && tile.level < tileKey.level && tile == Up(tileKey, tile.level)
      invariant ParentsAbove(ret, tileKey, tile.level, minLevel, maxLevel)
      decreases tile.level
    {
      ghost var before := ret;
      if tile.level <= maxLevel {
        var key := ToHereTile(tile);
        ret := ret[key := TileAndDepth(tile, 0)];
      }
      ParentStep(before, ret, tileKey, tile, minLevel, maxLevel);
      tile := tile.Parent();
    }
    ParentsCover(ret, tileKey, tile.level, minLevel, maxLevel);
  }

  lemma ParentStep(before: SubQuads, ret: SubQuads, tileKey: TileKey, tile: TileKey, minLevel: nat, maxLevel: nat)
    requires tileKey.IsValid() && tile.IsValid() && 1 <= minLevel <= tile.level < tileKey.level
    requires tile == Up(tileKey, tile.level)
    requires ParentsAbove(before, tileKey, tile.level, minLevel, maxLevel)
    requires ret == if tile.level <= maxLevel then before[tile.HereTile() := TileAndDepth(tile, 0)] else before
    ensures tile.Parent().IsValid() && tile.Parent() == Up(tileKey, tile.level - 1)
    ensures ParentsAbove(ret, tileKey, tile.level - 1, minLevel, maxLevel)
  {
    MortonParent(tile);
    UpTwice(tileKey, tile.level, tile.level - 1);
    forall l {:trigger Up(tileKey, l)} | tile.level - 1 < l < tileKey.level && minLevel <= l <= maxLevel
      ensures Up(tileKey, l).HereTile() in ret && ret[Up(tileKey, l).HereTile()].tile == Up(tileKey, l)
    {
      if l > tile.level {
        ChangeUp(tileKey, l);
        UpIsChange(tileKey, l);
        if Up(tileKey, l).HereTile() == tile.HereTile() {
          HereTileInjective(Up(tileKey, l), tile);
        }
      }
    }
  }

  lemma ParentsCover(ret: SubQuads, tileKey: TileKey, level: nat, minLevel: nat, maxLevel: nat)
    requires level < minLevel && ParentsAbove(ret, tileKey, level, minLevel, maxLevel)
    ensures Fits(ret, minLevel, maxLevel) && NoOverlap(ret)
    ensures forall t :: Covered(ret, t) <==> minLevel <= t.level <= maxLevel && AtOrAbove(t, tileKey) && t != tileKey
  {
    forall t
      ensures Covered(ret, t) <==> minLevel <= t.level <= maxLevel && AtOrAbove(t, tileKey) && t != tileKey
    {
      if k :| k in ret && Denotes(ret[k], t) {
        DepthZeroDenotes(ret[k], t);
      }
      if minLevel <= t.level <= maxLevel && AtOrAbove(t, tileKey) && t != tileKey {
        assert Up(tileKey, t.level) == t;
        DepthZeroDenotes(ret[t.HereTile()], t);
      }
    }
    forall j, k, t | j in ret && k in ret && Denotes(ret[j], t) && Denotes(ret[k], t)
      ensures j == k
    {
      DepthZeroDenotes(ret[j], t);
      DepthZeroDenotes(ret[k], t);
    }
  }

  lemma DepthZeroDenotes(e: TileAndDepth, t: TileKey)
    requires e.depth == 0
    ensures Denotes(e, t) <==> e.tile == t
  {
  }

  // ---- the recursive cover ----

  /** `t` lies in the range, below `tile`, under one of the first `count` listed descendants. */
  predicate UnderListed(tile: TileKey, t: TileKey, level: nat, maxLevel: nat, count: nat) {
    && level <= t.level <= maxLevel && AtOrAbove(tile, t)
    && tile.level <= level
    && Up(t, level).MortonCode() < tile.MortonCode() * Pow4(level - tile.level) + count
  }

  /** Covers everything below `tile` from `level` down to `maxLevel`, one listed descendant after the other. */
  method AddChildren(ret0: SubQuads, tile: TileKey, level: nat, minLevel: nat, maxLevel: nat) returns (ret: SubQuads)
    requires tile.IsValid() && tile.level < level < LEVEL_COUNT
    requires minLevel <= level && (level <= maxLevel || maxLevel < minLevel) && maxLevel < LEVEL_COUNT
    requires Fits(ret0, minLevel, maxLevel) && NoOverlap(ret0)
    requires forall t: TileKey :: t.IsValid() && Covered(ret0, t) && AtOrAbove(tile, t) ==> t.level < level
    ensures Fits(ret, minLevel, maxLevel) && NoOverlap(ret) && KeepsDepths(ret0, ret)
    ensures forall t: TileKey :: t.IsValid() ==>
      (Covered(ret, t) <==> Covered(ret0, t) || (level <= t.level <= maxLevel && AtOrAbove(tile, t)))
    decreases LEVEL_COUNT - tile.level, 0
  {
    var children := GetChildAtLevel(tile, level);
    ListComplete(tile, level, maxLevel);
    ret := ret0;
    for i := 0 to |children|
      invariant Fits(ret, minLevel, maxLevel) && NoOverlap(ret) && KeepsDepths(ret0, ret)
      invariant forall t: TileKey :: t.IsValid() ==>
        (Covered(ret, t) <==> Covered(ret0, t) || UnderListed(tile, t, level, maxLevel, i))
    {
      var childTiles := EffectiveTileKeysOfTile(children[i], minLevel, maxLevel, false);
      ghost var before := ret;
      ret := Merge(ret, childTiles);
      ChildStep(ret0, before, childTiles, ret, tile, children[i], level, minLevel, maxLevel, i);
    }
  }

  /** A listed child wants exactly the tiles under it. */
  lemma ChildWants(tile: TileKey, child: TileKey, t: TileKey, level: nat, minLevel: nat, maxLevel: nat, i: nat)
    requires tile.IsValid() && tile.level < level < LEVEL_COUNT && child.IsValid() && t.IsValid()
    requires minLevel <= level && (level <= maxLevel || maxLevel < minLevel)
    requires i < Pow4(level - tile.level)
    requires child.level == level && child.MortonCode() == tile.MortonCode() * Pow4(level - tile.level) + i
    ensures Wanted(child, t, minLevel, maxLevel, false) <==>
      UnderListed(tile, t, level, maxLevel, i + 1) && !UnderListed(tile, t, level, maxLevel, i)
  {
    BelowIsBlock(tile, child);
    AtOrAboveOrder(tile, child, t);
    if level <= t.level {
      ChangeUp(t, level);
      UpIsChange(t, level);
      if Up(t, level).MortonCode() == child.MortonCode() {
        SameCode(Up(t, level), child);
      }
    }
  }

  lemma ChildStep(ret0: SubQuads, before: SubQuads, childTiles: SubQuads, ret: SubQuads, tile: TileKey, child: TileKey,
                  level: nat, minLevel: nat, maxLevel: nat, i: nat)
    requires tile.IsValid() && tile.level < level < LEVEL_COUNT && child.IsValid()
    requires minLevel <= level && (level <= maxLevel || maxLevel < minLevel)
    requires i < Pow4(level - tile.level)
    requires child.level == level && child.MortonCode() == tile.MortonCode() * Pow4(level - tile.level) + i
    requires Fits(before, minLevel, maxLevel) && NoOverlap(before)
    requires forall t: TileKey :: t.IsValid() && Covered(ret0, t) && AtOrAbove(tile, t) ==> t.level < level
    requires forall t: TileKey :: t.IsValid() ==>
      (Covered(before, t) <==> Covered(ret0, t) || UnderListed(tile, t, level, maxLevel, i))
    requires ExactCover(childTiles, child, minLevel, maxLevel, false)
    requires IsMerge(before, childTiles, ret)
    ensures Fits(ret, minLevel, maxLevel) && NoOverlap(ret) && KeepsDepths(before, ret)
    ensures forall t: TileKey :: t.IsValid() ==>
      (Covered(ret, t) <==> Covered(ret0, t) || UnderListed(tile, t, level, maxLevel, i + 1))
  {
    forall t: TileKey | t.IsValid()
      ensures Covered(childTiles, t) <==>
        UnderListed(tile, t, level, maxLevel, i + 1) && !UnderListed(tile, t, level, maxLevel, i)
    {
      ChildWants(tile, child, t, level, minLevel, maxLevel, i);
    }
    MergeIsUnion(before, childTiles, ret, minLevel, maxLevel);
    MergeNoOverlap(before, childTiles, ret, minLevel, maxLevel);
  }

  /** Every tile of the range below `tile` lies under one of the listed descendants. */
  lemma ListComplete(tile: TileKey, level: nat, maxLevel: nat)
    requires tile.IsValid() && tile.level < level
    ensures forall t: TileKey :: t.IsValid() ==>
      !UnderListed(tile, t, level, maxLevel, 0) &&
      (UnderListed(tile, t, level, maxLevel, Pow4(level - tile.level)) <==> level <= t.level <= maxLevel && AtOrAbove(tile, t))
  {
    forall t: TileKey | t.IsValid() && level <= t.level && AtOrAbove(tile, t)
      ensures var base := tile.MortonCode() * Pow4(level - tile.level);
        base <= Up(t, level).MortonCode() < base + Pow4(level - tile.level)
    {
      ChangeUp(t, level);
      UpIsChange(t, level);
      UpTwice(t, level, tile.level);
      BelowIsBlock(tile, Up(t, level));
    }
  }

  /** Entries that fetch only proper ancestors of a tile miss everything the tile's own entry fetches. */
  lemma AncestorsMiss(ret0: SubQuads, tile: TileKey, depth: nat, k: string, t: TileKey)
    requires k in ret0 && Denotes(ret0[k], t)
    requires forall u :: Covered(ret0, u) ==> AtOrAbove(u, tile) && u != tile
    ensures !Denotes(TileAndDepth(tile, depth), t)
    ensures ret0[k].tile != tile
  {
    var u := ret0[k].tile;
    assert Covered(ret0, t);
    AtOrAboveOrder(t, tile, tile);
    AtOrAboveOrder(u, u, u);
    assert Denotes(ret0[k], u) && Covered(ret0, u);
  }

  lemma InsertTile(ret0: SubQuads, ret: SubQuads, tile: TileKey, depth: nat, minLevel: nat, maxLevel: nat)
    requires Fits(ret0, minLevel, maxLevel) && NoOverlap(ret0)
    requires EntryFits(tile.HereTile(), TileAndDepth(tile, depth), minLevel, maxLevel)
    requires forall t :: Covered(ret0, t) ==> AtOrAbove(t, tile) && t != tile
    requires ret == ret0[tile.HereTile() := TileAndDepth(tile, depth)]
    ensures Fits(ret, minLevel, maxLevel) && NoOverlap(ret)
    ensures forall t :: Covered(ret, t) <==> Covered(ret0, t) || Denotes(TileAndDepth(tile, depth), t)
  {
    var e := TileAndDepth(tile, depth);
    NewKey(ret0, tile, minLevel, maxLevel);
    forall k, t | k in ret0 && Denotes(ret0[k], t)
      ensures !Denotes(e, t)
    {
      AncestorsMiss(ret0, tile, depth, k, t);
    }
    InsertDisjoint(ret0, ret, tile.HereTile(), e);
  }

  lemma NewKey(ret0: SubQuads, tile: TileKey, minLevel: nat, maxLevel: nat)
    requires Fits(ret0, minLevel, maxLevel) && tile.IsValid()
    requires forall t :: Covered(ret0, t) ==> AtOrAbove(t, tile) && t != tile
    ensures tile.HereTile() !in ret0
  {
    forall k | k in ret0
      ensures k != tile.HereTile()
    {
      var u := ret0[k].tile;
      AtOrAboveOrder(u, u, u);
      assert Denotes(ret0[k], u) && Covered(ret0, u);
      if k == tile.HereTile() {
        HereTileInjective(u, tile);
      }
    }
  }

  /** Adding an entry that fetches nothing fetched so far. */
  lemma InsertDisjoint(ret0: SubQuads, ret: SubQuads, key: string, e: TileAndDepth)
    requires NoOverlap(ret0) && key !in ret0 && ret == ret0[key := e]
    requires forall k, t :: k in ret0 && Denotes(ret0[k], t) ==> !Denotes(e, t)
    ensures NoOverlap(ret)
    ensures forall t :: Covered(ret, t) <==> Covered(ret0, t) || Denotes(e, t)
  {
    assert forall k :: k in ret0 ==> ret[k] == ret0[k];
    assert ret[key] == e;
  }

  /** The call does not climb to the parents, or ends to climb. */
  predicate Ends(tileKey: TileKey, minLevel: nat, maxLevel: nat, addAncestors: bool) {
    minLevel >= 1 || (!addAncestors && tileKey.level <= maxLevel)
  }

  /** The tile's own query, as deep as a query may be and the level range allows. */
  ghost predicate HasOwnEntry(m: SubQuads, tile: TileKey, maxLevel: nat)
    requires tile.level <= maxLevel
  {
    && tile.HereTile() in m
    && m[tile.HereTile()] == TileAndDepth(tile, OwnDepth(tile, maxLevel))
  }

  function OwnDepth(tile: TileKey, maxLevel: nat): nat
    requires tile.level <= maxLevel
  {
    if maxLevel - tile.level <= MAX_QUAD_TREE_INDEX_DEPTH then maxLevel - tile.level else MAX_QUAD_TREE_INDEX_DEPTH
  }

  /** An own entry is as deep as it can be, so it does not change when no depth is lowered. */
  lemma OwnEntryKept(before: SubQuads, after: SubQuads, tile: TileKey, minLevel: nat, maxLevel: nat)
    requires tile.level <= maxLevel && HasOwnEntry(before, tile, maxLevel)
    requires Fits(after, minLevel, maxLevel) && KeepsDepths(before, after)
    ensures HasOwnEntry(after, tile, maxLevel)
  {
    assert EntryFits(tile.HereTile(), after[tile.HereTile()], minLevel, maxLevel);
  }

  /** The cover of one tile. The recursion goes to strictly deeper tiles. */
  method EffectiveTileKeysOfTile(tileKey: TileKey, minLevel: nat, maxLevel: nat, addAncestors: bool) returns (ret: SubQuads)
    requires tileKey.IsValid() && minLevel < LEVEL_COUNT && maxLevel < LEVEL_COUNT
    requires Ends(tileKey, minLevel, maxLevel, addAncestors)
    ensures ExactCover(ret, tileKey, minLevel, maxLevel, addAncestors)
    ensures minLevel <= tileKey.level <= maxLevel ==> HasOwnEntry(ret, tileKey, maxLevel)
    decreases LEVEL_COUNT - tileKey.level, 2
  {
    ret := map[];
    var currentLevel := tileKey.level;
    SelfIsAbove(tileKey);
    if currentLevel > maxLevel {
      ret := AddParents(tileKey, minLevel, maxLevel);
    } else if currentLevel < minLevel {
      ret := AddChildren(ret, tileKey, minLevel, minLevel, maxLevel);
    } else {
      if addAncestors {
        ret := AddParents(tileKey, minLevel, maxLevel);
      }
      ret := AddSelfAndBelow(ret, tileKey, minLevel, maxLevel);
    }
  }

  /** The tile itself with as much depth as one query may have, then the levels that remain below. */
  method AddSelfAndBelow(ret0: SubQuads, tileKey: TileKey, minLevel: nat, maxLevel: nat) returns (ret: SubQuads)
    requires tileKey.IsValid() && minLevel <= tileKey.level <= maxLevel < LEVEL_COUNT
    requires Fits(ret0, minLevel, maxLevel) && NoOverlap(ret0)
    requires forall t :: Covered(ret0, t) ==> AtOrAbove(t, tileKey) && t != tileKey
    ensures Fits(ret, minLevel, maxLevel) && NoOverlap(ret)
    ensures forall t: TileKey :: t.IsValid() ==>
      (Covered(ret, t) <==> Covered(ret0, t) || (t.level <= maxLevel && AtOrAbove(tileKey, t)))
    ensures HasOwnEntry(ret, tileKey, maxLevel)
    decreases LEVEL_COUNT - tileKey.level, 1
  {
    SelfIsAbove(tileKey);
    var currentLevel := tileKey.level;
    var key := ToHereTile(tileKey);
    if maxLevel - currentLevel <= MAX_QUAD_TREE_INDEX_DEPTH {
      ret := ret0[key := TileAndDepth(tileKey, maxLevel - currentLevel)];
      InsertTile(ret0, ret, tileKey, maxLevel - currentLevel, minLevel, maxLevel);
    } else {
      ret := ret0[key := TileAndDepth(tileKey, MAX_QUAD_TREE_INDEX_DEPTH)];
      InsertTile(ret0, ret, tileKey, MAX_QUAD_TREE_INDEX_DEPTH, minLevel, maxLevel);
      ghost var own := ret;
      ret := AddChildren(ret, tileKey, currentLevel + MAX_QUAD_TREE_INDEX_DEPTH + 1, minLevel, maxLevel);
      OwnEntryKept(own, ret, tileKey, minLevel, maxLevel);
    }
  }

  lemma SelfIsAbove(tile: TileKey)
    ensures AtOrAbove(tile, tile)
    ensures forall t :: AtOrAbove(tile, t) && AtOrAbove(t, tile) ==> t == tile
  {
  }

  /** The map covers what the first `n` tiles want, with an own entry for each that is within the range. */
  ghost predicate CoversFirst(m: SubQuads, tileKeys: seq<TileKey>, n: nat, minLevel: nat, maxLevel: nat) {
    && n <= |tileKeys|
    && Fits(m, minLevel, maxLevel)
    && (forall t: TileKey :: t.IsValid() ==> (Covered(m, t) <==> WantedByFirst(tileKeys, n, t, minLevel, maxLevel)))
    && (forall i :: 0 <= i < n && minLevel <= tileKeys[i].level <= maxLevel ==> HasOwnEntry(m, tileKeys[i], maxLevel))
  }

  ghost predicate WantedByFirst(tileKeys: seq<TileKey>, n: nat, t: TileKey, minLevel: nat, maxLevel: nat)
    requires n <= |tileKeys|
  {
    exists i :: 0 <= i < n && Wanted(tileKeys[i], t, minLevel, maxLevel, true)
  }

  lemma MergeCover(m: SubQuads, n: SubQuads, r: SubQuads, tileKeys: seq<TileKey>, i: nat, minLevel: nat, maxLevel: nat)
    requires i < |tileKeys| && CoversFirst(m, tileKeys, i, minLevel, maxLevel)
    requires ExactCover(n, tileKeys[i], minLevel, maxLevel, true) && IsMerge(m, n, r)
    requires minLevel <= tileKeys[i].level <= maxLevel ==> HasOwnEntry(n, tileKeys[i], maxLevel)
    ensures CoversFirst(r, tileKeys, i + 1, minLevel, maxLevel)
  {
    MergeIsUnion(m, n, r, minLevel, maxLevel);
    MergeOwnEntries(m, n, r, tileKeys, i, minLevel, maxLevel);
    MergeWanted(m, n, r, tileKeys, i, minLevel, maxLevel);
  }

  lemma MergeOwnEntries(m: SubQuads, n: SubQuads, r: SubQuads, tileKeys: seq<TileKey>, i: nat, minLevel: nat, maxLevel: nat)
    requires i < |tileKeys| && Fits(r, minLevel, maxLevel) && KeepsDepths(m, r) && KeepsDepths(n, r)
    requires forall j :: 0 <= j < i && minLevel <= tileKeys[j].level <= maxLevel ==> HasOwnEntry(m, tileKeys[j], maxLevel)
    requires minLevel <= tileKeys[i].level <= maxLevel ==> HasOwnEntry(n, tileKeys[i], maxLevel)
    ensures forall j :: 0 <= j < i + 1 && minLevel <= tileKeys[j].level <= maxLevel ==> HasOwnEntry(r, tileKeys[j], maxLevel)
  {
    forall j | 0 <= j < i + 1 && minLevel <= tileKeys[j].level <= maxLevel
      ensures HasOwnEntry(r, tileKeys[j], maxLevel)
    {
      OwnEntryKept(if j < i then m else n, r, tileKeys[j], minLevel, maxLevel);
    }
  }

  lemma MergeWanted(m: SubQuads, n: SubQuads, r: SubQuads, tileKeys: seq<TileKey>, i: nat, minLevel: nat, maxLevel: nat)
    requires i < |tileKeys|
    requires forall t: TileKey :: t.IsValid() ==> (Covered(m, t) <==> WantedByFirst(tileKeys, i, t, minLevel, maxLevel))
    requires forall t: TileKey :: t.IsValid() ==> (Covered(n, t) <==> Wanted(tileKeys[i], t, minLevel, maxLevel, true))
    requires forall t :: Covered(r, t) <==> Covered(m, t) || Covered(n, t)
    ensures forall t: TileKey :: t.IsValid() ==> (Covered(r, t) <==> WantedByFirst(tileKeys, i + 1, t, minLevel, maxLevel))
  {
    forall t: TileKey | t.IsValid()
      ensures Covered(r, t) <==> WantedByFirst(tileKeys, i + 1, t, minLevel, maxLevel)
    {
      WantedByOneMore(tileKeys, i, t, minLevel, maxLevel);
    }
  }

  lemma WantedByOneMore(tileKeys: seq<TileKey>, i: nat, t: TileKey, minLevel: nat, maxLevel: nat)
    requires i < |tileKeys|
    ensures WantedByFirst(tileKeys, i + 1, t, minLevel, maxLevel) <==>
      WantedByFirst(tileKeys, i, t, minLevel, maxLevel) || Wanted(tileKeys[i], t, minLevel, maxLevel, true)
  {
  }

  /** The cover of a list of tiles: the union of the covers of its members, overlapping or not, in any order. */
  method EffectiveTileKeys(tileKeys: seq<TileKey>, minLevel: nat, maxLevel: nat) returns (ret: SubQuads)
    requires forall i :: 0 <= i < |tileKeys| ==> tileKeys[i].IsValid()
    requires minLevel < LEVEL_COUNT && maxLevel < LEVEL_COUNT && (minLevel >= 1 || tileKeys == [])
    ensures CoversFirst(ret, tileKeys, |tileKeys|, minLevel, maxLevel)
  {
    ret := map[];
    for i := 0 to |tileKeys|
      invariant CoversFirst(ret, tileKeys, i, minLevel, maxLevel)
    {
      var childTiles := EffectiveTileKeysOfTile(tileKeys[i], minLevel, maxLevel, true);
      ghost var before := ret;
      ret := Merge(ret, childTiles);
      MergeCover(before, childTiles, ret, tileKeys, i, minLevel, maxLevel);
    }
  }

  // ---- the level range the search is defined for ----

  /** The guard of the AddParents loop before its round n. */
  predicate ClimbsOn(tileKey: TileKey, minLevel: nat, n: nat) {
    ParentN(tileKey, n + 1).level >= minLevel
  }

  /** The climb to the parents ends exactly when the minimum level is at least 1. At 0, which is what a request has
      unless told otherwise, it comes back to the root once in every 33 steps. */
  lemma ClimbEndsIff(tileKey: TileKey, minLevel: nat)
    requires tileKey.IsValid()
    ensures (exists n: nat :: !ClimbsOn(tileKey, minLevel, n)) <==> minLevel >= 1
    ensures forall k: nat :: ParentN(tileKey, RootVisit(tileKey, k)) == ROOT
  {
    if minLevel >= 1 {
      ParentNCycles(tileKey, 1);
      assert !ClimbsOn(tileKey, minLevel, RootVisit(tileKey, 1) - 1);
    }
    forall k: nat
      ensures ParentN(tileKey, RootVisit(tileKey, k)) == ROOT
    {
      ParentNCycles(tileKey, k);
    }
  }

  function RootVisit(tileKey: TileKey, k: nat): nat {
    tileKey.level + (LEVEL_COUNT + 1) * k
  }
}
