# Verified models of the location platform SDK's algorithms

This project models the parts of the C++ SDK that compute something or keep state, and proves what they are for:

- **Quad-tree tiles** (`TileKey.dfy`, `TileAncestry.dfy`, `SubTiles.dfy`, with `Morton.dfy`, `BitOps.dfy`,
  `Decimal.dfy`): the table-driven Morton code, its base-4 and decimal text forms, navigation, and the three ways to
  add a sub tile, on 32-bit rows and columns and 64-bit keys.
- **Prefetch cover** (`PrefetchTiles.dfy`): the recursion that turns tiles and a level range into sub-tree queries of
  bounded depth, against a declarative specification of the tiles a request asks for.
- **SHA-256 and HMAC** (`Sha256.dfy`): padding, chunking and the in-place compression loop, against FIPS 180-4
  (`Fips180.dfy`, its constants derived in `Sha256Constants.dfy`) and FIPS 198-1 (`Fips198.dfy`).
- **Caches** (`LruCache.dfy`, `LruList.dfy`, `InMemoryCache.dfy`, `DefaultCache.dfy`): the bounded cache as a sequence
  in order of use, the map of linked buckets that refines it, the memory cache with its index by expiry, and the cache
  that stacks memory on a mutable and a protected disk store with `key::expiry` records.
- **Publish queue** (`PublishQueue.dfy`, `QueueBound.dfy`): the comma-terminated list of keys in a key-value store,
  the flush loop with cancellation, and concurrent callers whose size test and append are separate steps.
- **Resource names and percent encoding** (`Hrn.dfy`, `Url.dfy`): the tokenizer with its moving position, the parser,
  the printer and equality; RFC 3986 escapes.
- **Cancellation tokens** (`TokenList.dfy`): the sorted vector, rotate-and-erase removal, and cancelling until empty
  while callbacks re-enter the list.

Code that works step by step is modelled by classes and methods with loops. Each such method is proved equal to a
specification function or relation, and the lemmas are about that specification. Clocks, new keys, network answers,
the moment of cancellation and the success of disk writes and removals are parameters or arbitrary choices. A cached value carries the moment at
which its writer said it expires (`Data.own`); the program does not store it there, and no operation looks at it.

## What the proofs found

- *Overwritten entries are not indexed.* The bounded cache reports an insertion only for a new key, so the memory
  cache's `Put` answers false for an overwrite and does not list the new expiry. `PutKeepsIndexedIff` says exactly when
  an entry goes unlisted, `OverwrittenItemStays` shows an expired entry that no purge ever drops, and
  `StaleListingDropsItem` shows a purge that drops an entry which never expires.
- *A failed write can prolong a lifetime.* The expiry record is written before the value. If the value write then
  fails, the older value lives by the new record (`FailedWriteServesLate`; exact condition: `WrittenLifetimesIff`).
- *A prefix removal can do the same* when it takes `k::expiry` and not `k` (`PrefixRemovalServesLate`; exact
  condition: `PrefixLifetimesIff`), and so can a purge of which only the second removal succeeds, because its answers
  are ignored (`FailedPurgeServesLate`; exact condition: `GetLifetimesIff`).
- *The climb to the parents never ends at minimum level 0*, which is what a request has unless told otherwise
  (`olp-cpp-sdk-dataservice-read/include/olp/dataservice/read/PrefetchTilesRequest.h:208`): the level is unsigned and
  `Parent` is total (`ClimbEndsIff`). The cover is therefore proved for minimum levels from 1, and at 0 for the calls
  that do not climb.
- *The shift loop of the 64-bit sub-key addition never ends* for sub keys from 2^62, that is, at sub level 31
  (`AddedSubkeyStopsIff`).
- *The queue can exceed its limit* by one request for each concurrent caller but one (`ReachableLengths`, exact), and
  a flush then can lose an interrupted request because the answer of its re-queue is ignored
  (`OverfullQueueLosesRequest`; exact condition on the queue: `FlushConservesIff`). No flush loses one after the calls
  of a single caller, and one can after those of two or more (`FlushIsSafeIff`).
- *A resource name with an unknown service equals nothing*, itself included (`PrintParseIff`).
- The child listing of the prefetch cover runs up to the depth constant, which happens to be the number of children.
- The eviction callback of the memory cache edits a copy; it leaves the index as it was (`InMemoryCache.OnEviction`).

## Model

| member | source | states |
|---|---|---|
| Morton.TableIsInterleave | olp-cpp-sdk-core/src/geo/tiling/TileKey.cpp:73-115 | each of the 256 table entries is the bits of its index spread to the even positions |
| TileKeys.ToQuadKey64 | olp-cpp-sdk-core/src/geo/tiling/TileKey.cpp:73-115 | the byte-wise table lookups and shifts produce the Morton code: a leading one over alternated row and column bits |
| TileKeys.FromQuadKey64 | olp-cpp-sdk-core/src/geo/tiling/TileKey.cpp:117-129 | the bit-by-bit loop reads the tile that the bit pairs of the key spell from the top |
| TileKeys.QuadKey64RoundTrip | olp-cpp-sdk-core/src/geo/tiling/TileKey.cpp:73-129 | reading back the Morton code of a valid tile gives the tile |
| TileKeys.KeyRoundTrip | olp-cpp-sdk-core/src/geo/tiling/TileKey.cpp:73-129 | writing the tile read from a 64-bit number gives the number back exactly when its top set bit is at an even position, and that tile is then valid |
| TileKeys.IsQuadKeyTopBit | olp-cpp-sdk-core/src/geo/tiling/TileKey.cpp:117-129 | the keys that survive are exactly those in [4^n, 2 * 4^n) for some n |
| TileKeys.MortonBounds | olp-cpp-sdk-core/src/geo/tiling/TileKey.cpp:73-115 | codes of one level fill the range [4^level, 2 * 4^level) and fit 64 bits |
| TileKeys.MortonParent | olp-cpp-sdk-core/src/geo/tiling/TileKey.cpp:140-144 | the parent's code is the code without its last bit pair, which names the quadrant |
| TileKeys.GetChildInverse | olp-cpp-sdk-core/src/geo/tiling/TileKey.cpp:245-263 | a child is valid, has the tile as parent and its index as quadrant number, and has code 4m + index |
| TileKeys.RelationshipInvertsChild | olp-cpp-sdk-core/src/geo/tiling/TileKey.cpp:245-263 | a non-root tile is the child of its parent that its quadrant number names |
| TileKeys.ToHereTile | olp-cpp-sdk-core/src/geo/tiling/TileKey.cpp:60-64 | the decimal text of the Morton code |
| TileKeys.FromHereTile | olp-cpp-sdk-core/src/geo/tiling/TileKey.cpp:66-71 | the tile of the number that the string-to-integer conversion reads, saturating and wrapping as it does |
| TileKeys.HereTileRoundTrip | olp-cpp-sdk-core/src/geo/tiling/TileKey.cpp:60-71 | every valid tile survives the decimal form |
| TileKeys.HereTileInjective | olp-cpp-sdk-core/src/geo/tiling/TileKey.cpp:60-64 | different valid tiles have different decimal forms |
| TileAncestry.ToQuadKey | olp-cpp-sdk-core/src/geo/tiling/TileKey.cpp:32-42 | the loop writes one quadrant digit per level, topmost first, and "-" for the root |
| TileAncestry.FromQuadKey | olp-cpp-sdk-core/src/geo/tiling/TileKey.cpp:44-58 | the loop reads the tile that the digits spell, the default key for "", and the root for "-" |
| TileAncestry.QuadKeyRoundTrip | olp-cpp-sdk-core/src/geo/tiling/TileKey.cpp:32-58 | every valid tile survives the base-4 form |
| TileAncestry.QuadKeyTextRoundTrip | olp-cpp-sdk-core/src/geo/tiling/TileKey.cpp:32-58 | a string survives exactly when it is "-" or consists of quadrant digits |
| TileAncestry.AtOrAboveIsChild | olp-cpp-sdk-core/src/geo/tiling/TileKey.cpp:146-151 | the order of ancestors that the cover is specified with is the program's test for children, or equality |
| TileAncestry.ChildIsParentSteps | olp-cpp-sdk-core/src/geo/tiling/TileKey.cpp:140-151 | being a child is being reached by one or more parent steps |
| TileAncestry.ChildIsStrictOrder | olp-cpp-sdk-core/src/geo/tiling/TileKey.cpp:146-151 | being a child is a strict partial order, and the ancestors of a tile form a chain |
| TileAncestry.ChildIsQuadKeyExtension | olp-cpp-sdk-core/include/olp/core/geo/tiling/TileKey.h:125-138 | below a non-root ancestor, being a child is having a quad key that properly extends the ancestor's |
| TileAncestry.ChangeUp | olp-cpp-sdk-core/src/geo/tiling/TileKey.cpp:157-178 | changing to a shallower level gives a valid tile, reached by that many parent steps, whose code is the code shifted by two bits per level |
| TileAncestry.ParentNCycles | olp-cpp-sdk-core/src/geo/tiling/TileKey.cpp:140-144 | parent steps above the root come back to the root once in every 33 |
| SubTiles.GetSubkeyIsLow | olp-cpp-sdk-core/src/geo/tiling/TileKey.cpp:223-229 | the sub key is the low bit pairs under a fresh leading one, and has that sub level |
| SubTiles.AddedSubkeyOnKeys | olp-cpp-sdk-core/src/geo/tiling/TileKey.cpp:231-243 | the mask loop shifts the key by the sub level, modulo 2^64, and puts the low bits of the sub key under it |
| SubTiles.AddedSubkeyStopsIff | olp-cpp-sdk-core/src/geo/tiling/TileKey.cpp:231-243 | the mask loop ends exactly for sub keys below 2^62 |
| SubTiles.AddedSubkey64 | olp-cpp-sdk-core/src/geo/tiling/TileKey.cpp:184-188 | adds a sub key of any level that fits: the tile that the sub tile denotes inside the tile |
| SubTiles.AddedSubkey | olp-cpp-sdk-core/src/geo/tiling/TileKey.cpp:190-197 | the sum of rows and columns with the tile read from a quad-key string, where "" stands for the root |
| SubTiles.AddedSubHereTile | olp-cpp-sdk-core/src/geo/tiling/TileKey.cpp:199-205 | the sum of rows and columns with the tile read from decimal text |
| SubTiles.AddedTileIsInside | olp-cpp-sdk-core/src/geo/tiling/TileKey.cpp:190-205 | the 32-bit sums denote the sub tile inside the tile whenever the levels sum to at most 31 |
| SubTiles.InsideCode | olp-cpp-sdk-core/src/geo/tiling/TileKey.cpp:231-243 | placing one tile inside another is concatenating their Morton digits |
| SubTiles.SubTileFormsAgree | olp-cpp-sdk-core/src/geo/tiling/TileKey.cpp:184-205 | the 64-bit, base-4 and decimal operations give the same tile for sub levels up to 30 and levels that sum to at most 31 |
| SubTiles.GetSubkey64 | olp-cpp-sdk-core/src/geo/tiling/TileKey.cpp:180-182 | cuts the sub key out of the Morton code |
| SubTiles.CutAndAddBack | olp-cpp-sdk-core/src/geo/tiling/TileKey.cpp:180-188 | a tile cut at its d-th ancestor and added back to that ancestor is the tile |
| SubTiles.RelativeIsLow | olp-cpp-sdk-core/src/geo/tiling/TileKeyUtils.cpp:123-129 | the relative sub tile is valid, holds the low bits, and denotes the tile inside the ancestor |
| SubTiles.RelativeThenAbsolute | olp-cpp-sdk-core/src/geo/tiling/TileKeyUtils.cpp:123-138 | relative then absolute is the identity for every ancestor, and the relative tile's code is the 64-bit sub key |
| PrefetchTiles.Merge | olp-cpp-sdk-dataservice-read/src/repositories/PrefetchTilesRepository.cpp:57-75 | entry by entry and in any order, the greater pair wins where a key is in both maps |
| PrefetchTiles.MergeIsUnion | olp-cpp-sdk-dataservice-read/src/repositories/PrefetchTilesRepository.cpp:57-75 | the merged map fetches exactly the union and lowers no depth of either map |
| PrefetchTiles.MergeNoOverlap | olp-cpp-sdk-dataservice-read/src/repositories/PrefetchTilesRepository.cpp:92-102 | merging covers that share no tile keeps every tile in one entry |
| PrefetchTiles.GetChildAtLevel | olp-cpp-sdk-dataservice-read/src/repositories/PrefetchTilesRepository.cpp:139-152 | 4^n valid tiles of the level whose Morton codes count up from the first descendant's; the tile itself at or below the level |
| PrefetchTiles.ListsDescendants | olp-cpp-sdk-dataservice-read/src/repositories/PrefetchTilesRepository.cpp:139-152 | such a list has exactly the descendants at the level, each once |
| PrefetchTiles.AddParents | olp-cpp-sdk-dataservice-read/src/repositories/PrefetchTilesRepository.cpp:83-90 | fetches exactly the proper ancestors within the level range, each by one entry |
| PrefetchTiles.AddChildren | olp-cpp-sdk-dataservice-read/src/repositories/PrefetchTilesRepository.cpp:92-102 | adds exactly the tiles below the tile from a level to the maximum, each to one entry |
| PrefetchTiles.AddSelfAndBelow | olp-cpp-sdk-dataservice-read/src/repositories/PrefetchTilesRepository.cpp:115-134 | adds exactly the tile and what is below it down to the maximum level, split at depth 4 |
| PrefetchTiles.WantedByChildOf | olp-cpp-sdk-dataservice-read/src/repositories/PrefetchTilesRepository.cpp:77-137 | the tiles wanted, restated with the program's own test for ancestors: the tile, its children at any depth, and, where asked, the tiles it is a child of, within the level range |
| PrefetchTiles.EffectiveTileKeysOfTile | olp-cpp-sdk-dataservice-read/src/repositories/PrefetchTilesRepository.cpp:77-137 | exact cover: the entries fetch exactly the tiles wanted, each by one entry, with depth at most 4 and nothing past the maximum level, and the tile's own entry is as deep as it can be; the recursion terminates |
| PrefetchTiles.EffectiveTileKeys | olp-cpp-sdk-dataservice-read/src/repositories/PrefetchTilesRepository.cpp:57-75 | for any list of tiles, overlapping or not, exactly the union of what each wants, and no own entry of a listed tile loses depth |
| PrefetchTiles.ClimbEndsIff | olp-cpp-sdk-dataservice-read/src/repositories/PrefetchTilesRepository.cpp:83-90 | from every valid tile, the root included, the loop over the parents ends exactly when the minimum level is at least 1 |
| Sha256Constants.ListedIffPrime | olp-cpp-sdk-authentication/src/Crypto.cpp:44-55 | the 64 numbers that the constants are derived from are exactly the primes up to 311 |
| Sha256Constants.PrimesIncrease | olp-cpp-sdk-authentication/src/Crypto.cpp:44-55 | they are listed in order, so each is the prime of its index |
| Sha256Constants.ConstantsAreDerived | olp-cpp-sdk-authentication/src/Crypto.cpp:44-55 | the constants are the first 32 fractional bits of the cube roots of these primes, and the initial hash those of the square roots of the first 8 (FIPS 180-4, sections 4.2.2 and 5.3.3) |
| Crypto.MacrosAreSigmas | olp-cpp-sdk-authentication/src/Crypto.cpp:36-42 | the shift-and-or macros are the rotations of section 4.1.2 of FIPS 180-4 |
| Fips180.FewestZeroBits | olp-cpp-sdk-authentication/src/Crypto.cpp:116-152 | the padding has the smallest number of zero bits that fills the last block, as section 5.1.1 of FIPS 180-4 requires |
| Fips180.BigEndianOfValue | olp-cpp-sdk-authentication/src/Crypto.cpp:116-152 | big-endian bytes are recovered from the value they have |
| Fips180.HashBlocksOfBlocks | olp-cpp-sdk-authentication/src/Crypto.cpp:150-152 | the hash value after n blocks depends on these blocks only, wherever they are stored |
| Crypto.PaddedBlocks | olp-cpp-sdk-authentication/src/Crypto.cpp:119-152 | the blocks of the padded message are the full blocks of the message and then the chunks, one by one |
| Crypto.FillSchedule | olp-cpp-sdk-authentication/src/Crypto.cpp:169-182 | the schedule filled in place is W of section 6.2.2 of FIPS 180-4, step 1 |
| Crypto.RoundInPlace | olp-cpp-sdk-authentication/src/Crypto.cpp:188-204 | one pass of the loop moves the working variables as step 3 of section 6.2.2 says |
| Crypto.AllRounds | olp-cpp-sdk-authentication/src/Crypto.cpp:184-204 | 64 rounds from a copy of the hash value |
| Crypto.AddInPlace | olp-cpp-sdk-authentication/src/Crypto.cpp:206-207 | step 4: the working variables are added to the hash value, modulo 2^32 |
| Crypto.Sha256Transform | olp-cpp-sdk-authentication/src/Crypto.cpp:169-209 | the in-place transform of 64 bytes is the compression of section 6.2.2 |
| Crypto.TailChunks | olp-cpp-sdk-authentication/src/Crypto.cpp:122-150 | full blocks and last chunks concatenate to the padded message of section 5.1.1, in both branches |
| Crypto.AppendLength | olp-cpp-sdk-authentication/src/Crypto.cpp:116-152 | the length is pushed as eight bytes, most significant first |
| Crypto.HashFullBlocks | olp-cpp-sdk-authentication/src/Crypto.cpp:149-150 | the full blocks are hashed from the message in place, in order |
| Crypto.HashChunks | olp-cpp-sdk-authentication/src/Crypto.cpp:152 | the chunks are hashed as the blocks that follow in the padded message |
| Crypto.Sha256Init | olp-cpp-sdk-authentication/src/Crypto.cpp:102-114 | the initial hash value of section 5.3.3 |
| Crypto.AppendWord | olp-cpp-sdk-authentication/src/Crypto.cpp:154-166 | a word becomes four digest bytes, most significant first |
| Fips180.WordRoundTrip | olp-cpp-sdk-authentication/src/Crypto.cpp:154-166 | reading the bytes of a word gives the word, and the bytes of a read word are the bytes |
| Crypto.Sha256 | olp-cpp-sdk-authentication/src/Crypto.cpp:116-167 | for every message below 2^61 bytes, the SHA-256 digest of FIPS 180-4 |
| Crypto.HmacSha256 | olp-cpp-sdk-authentication/src/Crypto.cpp:66-100 | for every key length, the HMAC formula of section 4 of FIPS 198-1 |
| Lru.ErasedKeeps | olp-cpp-sdk-core/include/olp/core/utils/LruCache.h:227-233 | erasing takes exactly the item of the key, and its cost |
| Lru.EvictedIsLongestPrefix | olp-cpp-sdk-core/include/olp/core/utils/LruCache.h:404-406 | eviction keeps the longest front part, in order of use, that fits |
| Lru.AssignedKeeps | olp-cpp-sdk-core/include/olp/core/utils/LruCache.h:434-461 | after assigning every item is the new one or an earlier one of another key, and the size bound holds |
| Lru.AssignedIsKept | olp-cpp-sdk-core/include/olp/core/utils/LruCache.h:434-461 | the assigned item is kept exactly when it fits by itself, also when it overwrites |
| LruList.UnlinkRefines | olp-cpp-sdk-core/include/olp/core/utils/LruCache.h:511-533 | linking the neighbours past a bucket and erasing it erases its item from the order of use |
| LruList.PushRefines | olp-cpp-sdk-core/include/olp/core/utils/LruCache.h:484-509 | linking a new bucket before the first puts its item first |
| LruList.ReplaceRefines | olp-cpp-sdk-core/include/olp/core/utils/LruCache.h:434-461 | assigning a value in place keeps the links |
| LruList.LruCache.EraseBucket | olp-cpp-sdk-core/include/olp/core/utils/LruCache.h:511-533 | the linked buckets, both ends and the size stay consistent, and the item is erased from the order |
| LruList.LruCache.PopLast | olp-cpp-sdk-core/include/olp/core/utils/LruCache.h:534-543 | takes exactly the least recently used item |
| LruList.LruCache.Evict | olp-cpp-sdk-core/include/olp/core/utils/LruCache.h:404-406 | pops from the end until the rest fits; kept and popped items are the old ones in order |
| LruList.LruCache.Promote | olp-cpp-sdk-core/include/olp/core/utils/LruCache.h:462-482 | relinks the bucket as the first; the others keep their order |
| LruList.LruCache.Find | olp-cpp-sdk-core/include/olp/core/utils/LruCache.h:277-281 | finds by key and promotes |
| LruList.LruCache.Erase | olp-cpp-sdk-core/include/olp/core/utils/LruCache.h:227-233 | erases by key and says whether it was there |
| LruList.LruCache.InsertOrAssign | olp-cpp-sdk-core/include/olp/core/utils/LruCache.h:434-509 | refines assigning on the sequence, and reports an insertion only for a new key that fits |
| MemoryCache.InMemoryCache.Put | olp-cpp-sdk-core/src/cache/InMemoryCache.cpp:40-62 | purges, refuses a finite expiry that is not positive, assigns with eviction, and lists the key only when it was inserted |
| MemoryCache.InMemoryCache.Get | olp-cpp-sdk-core/src/cache/InMemoryCache.cpp:64-78 | promotes, and answers with the value unless it has expired, when its whole bucket is purged |
| MemoryCache.InMemoryCache.Remove | olp-cpp-sdk-core/src/cache/InMemoryCache.cpp:91-94 | erases the item and leaves the index |
| MemoryCache.InMemoryCache.RemoveKeysWithPrefix | olp-cpp-sdk-core/src/cache/InMemoryCache.cpp:96-106 | the erasing loop keeps exactly the items without the prefix, in order |
| MemoryCache.InMemoryCache.PurgeExpired | olp-cpp-sdk-core/src/cache/InMemoryCache.cpp:108-127 | drops exactly the keys listed for a moment before now, and those listings |
| MemoryCache.InMemoryCache.PurgeBucket | olp-cpp-sdk-core/src/cache/InMemoryCache.cpp:129-137 | drops exactly the keys listed for one moment, and the listing |
| MemoryCache.InMemoryCache.OnEviction | olp-cpp-sdk-core/src/cache/InMemoryCache.cpp:139-154 | leaves the index as it was, because it edits a copy |
| MemoryCache.PutKeeps | olp-cpp-sdk-core/src/cache/InMemoryCache.cpp:40-62 | after Put the items are the new one and earlier ones; an earlier one of the key is left only by a refused Put |
| MemoryCache.GetKeeps | olp-cpp-sdk-core/src/cache/InMemoryCache.cpp:64-78 | Get adds no item |
| MemoryCache.PurgeLeavesNothingExpired | olp-cpp-sdk-core/src/cache/InMemoryCache.cpp:108-127 | when every finite item is listed, a purge leaves nothing past its expiry and keeps that so |
| MemoryCache.PutKeepsIndexedIff | olp-cpp-sdk-core/src/cache/InMemoryCache.cpp:40-62 | Put keeps every finite item listed exactly unless it overwrites a present key with a finite expiry that is not listed yet |
| MemoryCache.GetKeepsIndexed | olp-cpp-sdk-core/src/cache/InMemoryCache.cpp:64-78 | Get keeps every finite item listed |
| MemoryCache.RemoveKeepsIndexed | olp-cpp-sdk-core/src/cache/InMemoryCache.cpp:91-106 | both removals keep every finite item listed |
| MemoryCache.RunTraced | olp-cpp-sdk-core/src/cache/InMemoryCache.cpp:40-154 | over every run, listings come from Puts with that moment, and items that are not listed from Puts that overwrote |
| MemoryCache.PurgeInEveryRun | olp-cpp-sdk-core/src/cache/InMemoryCache.cpp:40-154 | in every run a purge drops an item before its time only if its key was put earlier with a moment now past, and leaves one after its time only if it was stored by overwriting |
| MemoryCache.OverwrittenItemStays | olp-cpp-sdk-core/src/cache/InMemoryCache.cpp:55-59 | a run after which an expired item survives every later purge |
| MemoryCache.StaleListingDropsItem | olp-cpp-sdk-core/src/cache/InMemoryCache.cpp:129-137 | a run after which a purge drops an item that never expires |
| LayeredCache.DefaultCache.Put | olp-cpp-sdk-core/src/cache/DefaultCache.cpp:128-188 | memory, then the expiry record, then the value, with either disk write failing at will |
| LayeredCache.DefaultCache.Get | olp-cpp-sdk-core/src/cache/DefaultCache.cpp:190-243 | memory, else disk with promotion for the remaining time, whether or not the removals of a purge succeed |
| LayeredCache.DefaultCache.GetFromDiscCache | olp-cpp-sdk-core/src/cache/DefaultCache.cpp:335-358 | the protected store first and without expiry; an expired value is never found, and is purged with its record as far as the removals succeed |
| LayeredCache.DefaultCache.PurgeDiskItem | olp-cpp-sdk-core/src/cache/DefaultCache.cpp:52-56 | removes the value and then the record, each as far as its removal succeeds |
| LayeredCache.DefaultCache.Remove | olp-cpp-sdk-core/src/cache/DefaultCache.cpp:245-262 | removes the value from memory, and from disk or answers false, and leaves the record |
| LayeredCache.DefaultCache.RemoveKeysWithPrefix | olp-cpp-sdk-core/src/cache/DefaultCache.cpp:264-278 | removes from memory, and from disk or answers false, exactly what has the prefix, records included |
| LayeredCache.GetIsNotLate | olp-cpp-sdk-core/src/cache/DefaultCache.cpp:190-215 | what Get returns has not passed the expiry its writer gave it |
| LayeredCache.PromotionKeepsExpiry | olp-cpp-sdk-core/src/cache/DefaultCache.cpp:205-212 | a value promoted to memory has the same absolute expiry there as on disk |
| LayeredCache.LeftoverRecordOnlyShortens | olp-cpp-sdk-core/src/cache/DefaultCache.cpp:245-262 | for every next value, the record that Remove left gives a lifetime at most that without it: its own moment for a value without expiry, no difference for one with expiry |
| LayeredCache.WrittenLifetimesIff | olp-cpp-sdk-core/src/cache/DefaultCache.cpp:144-154 | a Put prolongs a lifetime exactly when its record is written, its value is not, and an older value expires earlier |
| LayeredCache.PrefixLifetimesIff | olp-cpp-sdk-core/src/cache/DefaultCache.cpp:264-278 | a prefix removal prolongs a lifetime exactly when it takes the record of an expiring value and not the value |
| LayeredCache.GetLifetimesIff | olp-cpp-sdk-core/src/cache/DefaultCache.cpp:335-358 | a Get prolongs a lifetime exactly when its purge removes the record of an expiring value and fails to remove the value |
| LayeredCache.ApplyLifetimesIff | olp-cpp-sdk-core/src/cache/DefaultCache.cpp:128-278 | one call keeps every value within its own expiry in both layers exactly when it does not separate a value from its record |
| LayeredCache.NothingServedLate | olp-cpp-sdk-core/src/cache/DefaultCache.cpp:128-278 | after every run of calls that separate no value from its record, nothing is served past its own expiry |
| LayeredCache.FailedWriteServesLate | olp-cpp-sdk-core/src/cache/DefaultCache.cpp:144-154 | a run with one failed value write after which a value is served 45 seconds late |
| LayeredCache.PrefixRemovalServesLate | olp-cpp-sdk-core/src/cache/DefaultCache.cpp:264-278 | a run with one prefix removal after which a value is served 45 seconds late |
| LayeredCache.FailedPurgeServesLate | olp-cpp-sdk-core/src/cache/DefaultCache.cpp:52-56 | a run with one half-failed purge after which a value is served 55 seconds late |
| LayeredCache.PutAgreesIff | olp-cpp-sdk-core/src/cache/DefaultCache.cpp:128-188 | Put keeps the cache in agreement with the plain map exactly when no older value stays behind a refused or failed write |
| LayeredCache.ApplyAgreesIff | olp-cpp-sdk-core/src/cache/DefaultCache.cpp:128-278 | each call keeps that agreement exactly when it leaves nothing old in a layer, failed removals included |
| LayeredCache.GetReturnsLastPutOrNothing | olp-cpp-sdk-core/src/cache/DefaultCache.cpp:128-278 | after every run of such calls, Get returns the last value put, and nothing after a removal, for every memory size |
| LayeredCache.LastPutOrNothing | olp-cpp-sdk-core/src/cache/DefaultCache.cpp:128-278 | with positive expiries, writes and removals that succeed, no record names as keys and nothing in the protected store, every run with any prefixes on every choice of layers returns the last value put or nothing, and nothing after a removal |
| LayeredCache.LastPutWhileItLasts | olp-cpp-sdk-core/src/cache/DefaultCache.cpp:128-278 | and that value only while its own expiry lasts, if no prefix of the run takes the record of a key of the run without the key and no purge takes a record alone |
| LayeredCache.TakesBothIff | olp-cpp-sdk-core/src/cache/DefaultCache.cpp:264-278 | a prefix takes the record of a key alone exactly when it is the key followed by some of `::expiry` |
| LayeredCache.ReliableRun | olp-cpp-sdk-core/src/cache/DefaultCache.cpp:128-278 | calls of that kind leave no older value behind, in every state they meet |
| LayeredCache.ReliableRunKeepsRecords | olp-cpp-sdk-core/src/cache/DefaultCache.cpp:128-278 | and under the two conditions on removals they separate no value from its record |
| LayeredCache.CacheEqualsPlainMap | olp-cpp-sdk-core/src/cache/DefaultCache.cpp:128-278 | with a mutable disk store and no finite expiries, Get equals the plain map after every run |
| PublishQueue.CountCommas | olp-cpp-sdk-dataservice-write/src/StreamLayerClientImpl.cpp:114-126 | the number of commas is the number of listed keys |
| PublishQueue.AppendRefines | olp-cpp-sdk-dataservice-write/src/StreamLayerClientImpl.cpp:151-168 | storing a request and appending its key to the text puts it behind all others and touches no other entry of the store |
| PublishQueue.WithoutHeadRefines | olp-cpp-sdk-dataservice-write/src/StreamLayerClientImpl.cpp:173-210 | cutting the text at its first comma and removing the record takes out exactly the head |
| PublishQueue.FirstInFirstOut | olp-cpp-sdk-dataservice-write/src/StreamLayerClientImpl.cpp:114-210 | over every run, popped and then queued requests are the initial and then the appended ones, in order; lost records leave gaps and nothing else |
| PublishQueue.StreamLayerClient.QueueSize | olp-cpp-sdk-dataservice-write/src/StreamLayerClientImpl.cpp:114-126 | the length of the queue |
| PublishQueue.StreamLayerClient.Queue | olp-cpp-sdk-dataservice-write/src/StreamLayerClientImpl.cpp:128-171 | appends exactly when there is a cache, data, a layer and room; otherwise an error and no change |
| PublishQueue.StreamLayerClient.PopFromQueue | olp-cpp-sdk-dataservice-write/src/StreamLayerClientImpl.cpp:173-210 | returns and removes the head; nothing when the queue is empty or the record is lost |
| PublishQueue.StreamLayerClient.MayContinue | olp-cpp-sdk-dataservice-write/src/StreamLayerClientImpl.cpp:249-250 | the loop goes on below the limit, with a request queued, and not cancelled |
| PublishQueue.StreamLayerClient.FlushNext | olp-cpp-sdk-dataservice-write/src/StreamLayerClientImpl.cpp:251-263 | one round pops the head and answers for it; an interrupted one goes to the end if there is room |
| PublishQueue.StreamLayerClient.Flush | olp-cpp-sdk-dataservice-write/src/StreamLayerClientImpl.cpp:224-271 | does exactly what its limit, the queue and the moment of cancellation determine: pops a prefix in order with one response for each request, at most the limit (0 for all, negative for none), everything allowed unless cancelled, puts an interrupted request back if there is room, and terminates |
| PublishQueue.FlushRoundsBounds | olp-cpp-sdk-dataservice-write/src/StreamLayerClientImpl.cpp:248-266 | for every moment of cancellation the popped prefix and the responses keep the limit, and the flush stops early only when it was cancelled |
| PublishQueue.RunConservesIff | olp-cpp-sdk-dataservice-write/src/StreamLayerClientImpl.cpp:254-263 | one flush leaves each request with a final response or queued, as often as before, exactly unless the interrupted one meets a full queue |
| PublishQueue.FlushConservesIff | olp-cpp-sdk-dataservice-write/src/StreamLayerClientImpl.cpp:224-271 | whenever a flush is cancelled nothing is lost, exactly when its limit is negative or the store has already lost each of the first requests that the queue is longer than its limit by |
| PublishQueue.FlushConservesWithinLimit | olp-cpp-sdk-dataservice-write/src/StreamLayerClientImpl.cpp:224-271 | with a store that loses nothing: exactly when the limit is negative or the queue is within its maximum |
| PublishQueue.OverfullQueueLosesRequest | olp-cpp-sdk-dataservice-write/src/StreamLayerClientImpl.cpp:259-263 | flushing two requests at a maximum of one, cancelled while the first is published, leaves it without final response and not queued |
| QueueBound.ActKeepsBound | olp-cpp-sdk-dataservice-write/src/StreamLayerClientImpl.cpp:145-168 | every step keeps length plus callers past their test within maximum + n - 1 |
| QueueBound.QueueStaysWithinBound | olp-cpp-sdk-dataservice-write/src/StreamLayerClientImpl.cpp:145-168 | n callers in any interleaving with pops keep the length within maximum + n - 1 |
| QueueBound.ReachableLengths | olp-cpp-sdk-dataservice-write/src/StreamLayerClientImpl.cpp:145-168 | the lengths that n callers can reach from empty are exactly those up to maximum + n - 1 |
| QueueBound.FlushIsSafeIff | olp-cpp-sdk-dataservice-write/src/StreamLayerClientImpl.cpp:145-168 | no flush can lose a request after any run of n callers exactly when n is 1 |
| Hrn.Tokenizer.HasNext | olp-cpp-sdk-core/src/client/Tokenizer.h:33 | whether a token is left |
| Hrn.Tokenizer.Next | olp-cpp-sdk-core/src/client/Tokenizer.h:35-51 | returns the part up to the separator and moves past it, or to the end after the last |
| Hrn.Tokenizer.Tail | olp-cpp-sdk-core/src/client/Tokenizer.h:53-61 | returns all that is left, separators included |
| Hrn.FromString | olp-cpp-sdk-core/src/client/HRN.cpp:82-153 | the constructor that advances the tokenizer computes the fields that the text has |
| Hrn.ParsedPrint | olp-cpp-sdk-core/src/client/HRN.cpp:40-153 | parsing a printed name recovers every printed field when the inner fields have no separators |
| Hrn.ParsePrintParse | olp-cpp-sdk-core/src/client/HRN.cpp:40-153 | for every string, parsing what was printed of the parsed name gives that name |
| Hrn.PrintParseIff | olp-cpp-sdk-core/src/client/HRN.cpp:155-175 | a name equals what its own text parses to exactly when its service is known and its inner fields have no separators |
| Hrn.CatalogStringParses | olp-cpp-sdk-core/src/client/HRN.cpp:72-80 | the catalog string forgets the layer and nothing else |
| Url.Encode | olp-cpp-sdk-core/src/utils/Url.cpp:90-113 | the loop is the byte-wise encoding |
| Url.Decode | olp-cpp-sdk-core/src/utils/Url.cpp:56-82 | the loop with its moving index decodes escapes, plus signs and other bytes from the left |
| Url.EscapesAllButUnreserved | olp-cpp-sdk-core/src/utils/Url.cpp:98-103 | the comparisons on signed characters escape exactly what section 2.3 of RFC 3986 does not reserve |
| Url.RoundTrip | olp-cpp-sdk-core/src/utils/Url.cpp:56-113 | decoding an encoded byte string gives it back |
| Url.EncodeInjective | olp-cpp-sdk-core/src/utils/Url.cpp:90-113 | different strings have different encodings |
| Url.EncodedIsCanonical | olp-cpp-sdk-core/src/utils/Url.cpp:90-113 | the output holds only unreserved characters and upper-case escapes of others (RFC 3986, section 2.1) |
| Url.EncodeAfterDecodeIff | olp-cpp-sdk-core/src/utils/Url.cpp:56-113 | encoding a decoded text gives it back exactly when it has that form |
| TokenList.LowerBound | olp-cpp-sdk-dataservice-write/src/CancellationTokenList.cpp:50-56 | binary search for the first id that is not smaller |
| TokenList.UpperBound | olp-cpp-sdk-dataservice-write/src/CancellationTokenList.cpp:42-48 | binary search for the first id that is greater |
| TokenList.InsertedKeeps | olp-cpp-sdk-dataservice-write/src/CancellationTokenList.cpp:42-48 | inserting a new id keeps the list sorted and adds exactly that entry |
| TokenList.WithoutKeeps | olp-cpp-sdk-dataservice-write/src/CancellationTokenList.cpp:50-56 | removing an id keeps the list sorted and removes exactly its entry |
| TokenList.AddIsInsert | olp-cpp-sdk-dataservice-write/src/CancellationTokenList.cpp:42-48 | with unique ids, adding a task is inserting into a map |
| TokenList.RemoveIsDelete | olp-cpp-sdk-dataservice-write/src/CancellationTokenList.cpp:50-56 | removing a task is deleting from the map |
| TokenList.CancellationTokenList.AddTask | olp-cpp-sdk-dataservice-write/src/CancellationTokenList.cpp:42-48 | inserts behind the entries whose ids are not greater |
| TokenList.CancellationTokenList.RemoveTask | olp-cpp-sdk-dataservice-write/src/CancellationTokenList.cpp:50-56 | rotating an entry to the end and erasing there removes just that entry |
| TokenList.CancellationTokenList.GetTaskIdList | olp-cpp-sdk-dataservice-write/src/CancellationTokenList.cpp:86-93 | the ids in order |
| TokenList.CancellationTokenList.GetNextId | olp-cpp-sdk-dataservice-write/src/CancellationTokenList.cpp:95-98 | a new id with each call |
| TokenList.CancellationTokenList.CancelListed | olp-cpp-sdk-dataservice-write/src/CancellationTokenList.cpp:63-68 | every listed entry is cancelled or was removed by a callback, while callbacks add and remove at will |
| TokenList.CancellationTokenList.EraseListed | olp-cpp-sdk-dataservice-write/src/CancellationTokenList.cpp:70-82 | keeps exactly the entries whose ids are not among the listed ones |
| TokenList.CancellationTokenList.CancelAll | olp-cpp-sdk-dataservice-write/src/CancellationTokenList.cpp:58-84 | ends with an empty list after every entry present at the start was cancelled or removed, and terminates when callbacks add finitely many tasks |

## Left out

- PrefetchTiles.EffectiveTileKeysOfTile: at minimum level 0 only the calls that do not climb to the parents, since the others do not end; levels below 32, because deeper tiles have no key.
- TileAncestry.FromQuadKey: strings of more than 32 characters, for which the 32-bit shifts are undefined.
- SubTiles.AddedSubHereTile: decimal text of sub levels from 32 on, and the empty string, for which the shift is by 32 bits and undefined.
- SubTiles.AddedSubkey64: sub keys from 2^62, for which the loop does not end.
- Url.Decode: inputs of 2^32 bytes or more, where the 32-bit read index wraps around.
- LayeredCache.DefaultCache.Put: the encoder and the decoder are the identity, so the overloads with and without them are one; their faithfulness is the caller's.
- LayeredCache.NothingServedLate: one clock reading per call; a clock that moves between two readings of one call can shift an expiry by as much.
- LayeredCache.DefaultCache.Get: expiry records that are not decimal text, which only a user key ending in `::expiry` could store.
- MemoryCache.InMemoryCache.PurgeExpired: its answer, which no caller reads, and the order in which expired moments are purged, which does not matter.
- MemoryCache.InMemoryCache.Put: keeps its items as a sequence; that the linked buckets refine the sequence is proved apart, in `LruList.dfy`.
- PublishQueue.StreamLayerClient.Flush: a request to cancel is told by the check that first sees it, so the publishing call's own reaction to it is not modelled; the counter is unbounded, where the program's wraps above 2^31 - 1 responses; requests stand for their own serialized form.
- QueueBound.QueueStaysWithinBound: a caller's append is one step, as it is made under one lock hold.
- TokenList.CancellationTokenList.CancelAll: runs in one thread with callbacks that re-enter it; the program walks the list without its lock there, which is not modelled. Ids do not wrap around.
- Crypto.Sha256: messages from 2^61 bytes on, whose bit length does not fit 64 bits.
- Hrn.FromString: the reference that the tokenizer keeps to its input is a copy.
- Opening, closing and clearing the caches, and settings: no state of their own beyond an empty start.
- The engine below the disk store and its size accounting: taken as a map of strings.
- HTTP, OAuth, JSON, generated API classes, network backends, logging and the publishing calls behind a flush: input and output.
- Base64, whose coding is done by iterators of another library.
- Projections, geographic rectangles and coordinate-to-tile lookup: floating point.
- Retry loops, task contexts and small level helpers: little beyond loop bounds.
