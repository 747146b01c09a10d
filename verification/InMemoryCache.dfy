/** The in-memory cache: items in least-recently-used order, and an index of keys by the moment they expire. */
module MemoryCache {
  import opened Options
  import opened Lru

  /** Stands for an item that never expires. */
  const EXPIRY_MAX: int := 0x7fff_ffff_ffff_ffff

  /** Keys by expiry. A moment that is not in the map has no keys. */
  type Index = map<int, seq<string>>

  datatype Memory = Memory(items: seq<Item>, index: Index, maxSize: nat)

  function Bucket(index: Index, expiry: int): seq<string> {
    if expiry in index then index[expiry] else []
  }

  predicate WellFormed(m: Memory) {
    && Distinct(m.items)
    && Size(m.items) <= m.maxSize
    && forall t :: t in m.index ==> m.index[t] != []
  }

  predicate HasPrefix(key: string, prefix: string) {
    |key| >= |prefix| && key[..|prefix|] == prefix
  }

  /** The absolute expiry that Put computes. */
  function Absolute(expiry: int, now: int): int {
    if expiry == EXPIRY_MAX then EXPIRY_MAX else expiry + now
  }

  // ---- what the operations compute ----

  /** The items whose keys are not among `gone`, in the same order. */
  function Kept(items: seq<Item>, gone: set<string>): seq<Item> {
    if items == [] then [] else (if items[0].key in gone then [] else [items[0]]) + Kept(items[1..], gone)
  }

  function KeysWithPrefix(items: seq<Item>, prefix: string): set<string> {
    set x | x in items && HasPrefix(x.key, prefix) :: x.key
  }

  function Listed(keys: seq<string>): set<string> {
    set k | k in keys
  }

  /** The keys listed for a moment before `now`. */
  function ListedBefore(index: Index, now: int): set<string> {
    set t, k | t in index && t < now && k in index[t] :: k
  }

  /** PurgeExpired(expiry): erases every key listed for that moment, then the list. */
  function BucketPurged(m: Memory, expiry: int): Memory {
    m.(items := Kept(m.items, Listed(Bucket(m.index, expiry))), index := m.index - {expiry})
  }

  /** PurgeExpired(): purges every listed moment before `now`. */
  function Purged(m: Memory, now: int): Memory {
    m.(items := Kept(m.items, ListedBefore(m.index, now)), index := map t | t in m.index && t >= now :: m.index[t])
  }

  /** Put stores nothing when a finite expiry is not positive. */
  predicate Refused(expiry: int) {
    expiry != EXPIRY_MAX && expiry <= 0
  }

  function NewItem(key: string, value: Data, expiry: int, size: nat, now: int): Item {
    Item(key, Absolute(expiry, now), value, size)
  }

  function AfterPut(m: Memory, key: string, value: Data, expiry: int, size: nat, now: int): Memory {
    var purged := Purged(m, now);
    var item := NewItem(key, value, expiry, size, now);
    if Refused(expiry) then purged
    else
      purged.(items := Assigned(purged.items, item, m.maxSize),
        index := if Inserts(purged.items, item, m.maxSize) && expiry != EXPIRY_MAX
          then purged.index[item.expiry := Bucket(purged.index, item.expiry) + [key]]
          else purged.index)
  }

  /** What Put returns: whether the key was inserted, so never for a key that was present. */
  predicate PutInserts(m: Memory, key: string, value: Data, expiry: int, size: nat, now: int) {
    !Refused(expiry) && Inserts(Purged(m, now).items, NewItem(key, value, expiry, size, now), m.maxSize)
  }

  function AfterGet(m: Memory, key: string, now: int): Memory {
    var found := Find(m.items, key);
    var promoted := m.(items := Promoted(m.items, key));
    if found.Some? && found.value.expiry < now then BucketPurged(promoted, found.value.expiry) else promoted
  }

  function GetResult(m: Memory, key: string, now: int): (value: Option<Data>) {
    var found := Find(m.items, key);
    if found.Some? && found.value.expiry >= now then Some(found.value.value) else None
  }

  function RemovedWithPrefix(m: Memory, prefix: string): Memory {
    m.(items := Kept(m.items, KeysWithPrefix(m.items, prefix)))
  }

  function Removed(m: Memory, key: string): Memory {
    m.(items := Erased(m.items, key))
  }

  // ---- lemmas about the pieces ----

  lemma {:induction false} KeptIsFilter(items: seq<Item>, gone: set<string>)
    ensures forall x :: x in Kept(items, gone) <==> x in items && x.key !in gone
  {
    if items != [] {
      assert items == [items[0]] + items[1..];
      KeptIsFilter(items[1..], gone);
    }
  }

  lemma {:induction false} KeptKeeps(items: seq<Item>, gone: set<string>)
    requires Distinct(items)
    ensures Distinct(Kept(items, gone)) && Size(Kept(items, gone)) <= Size(items)
  {
    if items != [] {
      var rest := items[1..];
      assert forall x :: x in rest ==> x.key != items[0].key;
      KeptKeeps(rest, gone);
      KeptIsFilter(rest, gone);
      ConsDistinct(items[0], Kept(rest, gone));
      assert [] + Kept(rest, gone) == Kept(rest, gone);
      SizeOfCons(items[0], Kept(rest, gone));
    }
  }

  lemma SizeOfCons(item: Item, items: seq<Item>)
    ensures Size([item] + items) == Cost(item) + Size(items)
  {
    assert ([item] + items)[1..] == items;
  }

  lemma {:induction false} KeptNothingGone(items: seq<Item>)
    ensures Kept(items, {}) == items
  {
    if items != [] {
      KeptNothingGone(items[1..]);
    }
  }

  lemma {:induction false} KeptNext(items: seq<Item>, n: nat, gone: set<string>)
    requires n < |items|
    ensures Kept(items[..n + 1], gone) == Kept(items[..n], gone) + (if items[n].key in gone then [] else [items[n]])
  {
    var upTo := items[..n + 1];
    if n == 0 {
      assert upTo[1..] == [] && items[..0] == [];
    } else {
      KeptNext(items[1..], n - 1, gone);
      assert upTo[1..] == items[1..][..n] && items[..n][1..] == items[1..][..n - 1];
    }
  }

  lemma CutAt(items: seq<Item>, i: nat, rest: seq<Item>)
    requires i < |items| && items[i..] == rest
    ensures items[i] == rest[0] && items[i + 1..] == rest[1..]
    ensures items[..i + 1] == items[..i] + [items[i]]
    ensures var cut := items[..i] + items[i + 1..]; cut[..i] == items[..i] && cut[i..] == items[i + 1..]
  {
  }

  lemma {:induction false} KeptTwice(items: seq<Item>, first: set<string>, later: set<string>)
    ensures Kept(Kept(items, first), later) == Kept(items, first + later)
  {
    if items != [] {
      KeptTwice(items[1..], first, later);
      assert ([items[0]] + Kept(items[1..], first))[1..] == Kept(items[1..], first);
      assert [] + Kept(items[1..], first) == Kept(items[1..], first);
    }
  }

  /** Erasing a key keeps the others. */
  lemma {:induction false} ErasedIsKept(items: seq<Item>, key: string)
    requires Distinct(items)
    ensures Erased(items, key) == Kept(items, {key})
  {
    if items != [] {
      assert forall x :: x in items[1..] ==> x.key != items[0].key;
      if items[0].key == key {
        NoneGone(items[1..], {key});
      } else {
        ErasedIsKept(items[1..], key);
      }
    }
  }

  lemma {:induction false} NoneGone(items: seq<Item>, gone: set<string>)
    requires forall x :: x in items ==> x.key !in gone
    ensures Kept(items, gone) == items
  {
    if items != [] {
      assert items[0] in items;
      assert forall x :: x in items[1..] ==> x in items;
      NoneGone(items[1..], gone);
    }
  }

  lemma PromotedKeeps(items: seq<Item>, key: string)
    requires Distinct(items)
    ensures Distinct(Promoted(items, key)) && Size(Promoted(items, key)) == Size(items)
    ensures forall x :: x in Promoted(items, key) <==> x in items
  {
    var found := Find(items, key);
    if found.Some? {
      ErasedKeeps(items, key);
      ConsDistinct(found.value, Erased(items, key));
      SizeOfCons(found.value, Erased(items, key));
      forall x | x in items && x.key == key
        ensures x == found.value
      {
        FindIsMember(items, x);
      }
    }
  }

  // ---- what every operation does to the items and to the index ----

  lemma PurgedKeeps(m: Memory, now: int)
    requires WellFormed(m)
    ensures WellFormed(Purged(m, now))
    ensures forall x :: x in Purged(m, now).items <==> x in m.items && x.key !in ListedBefore(m.index, now)
  {
    KeptIsFilter(m.items, ListedBefore(m.index, now));
    KeptKeeps(m.items, ListedBefore(m.index, now));
  }

  lemma BucketPurgedKeeps(m: Memory, expiry: int)
    requires WellFormed(m)
    ensures WellFormed(BucketPurged(m, expiry))
    ensures forall x :: x in BucketPurged(m, expiry).items <==> x in m.items && x.key !in Bucket(m.index, expiry)
  {
    KeptIsFilter(m.items, Listed(Bucket(m.index, expiry)));
    KeptKeeps(m.items, Listed(Bucket(m.index, expiry)));
  }

  /** After Put every item is the new one or an earlier one; an earlier one with the key is left only by a refused Put. */
  lemma PutKeeps(m: Memory, key: string, value: Data, expiry: int, size: nat, now: int)
    requires WellFormed(m)
    ensures WellFormed(AfterPut(m, key, value, expiry, size, now))
    ensures forall x :: x in AfterPut(m, key, value, expiry, size, now).items ==>
      || (!Refused(expiry) && x == NewItem(key, value, expiry, size, now))
      || (x in m.items && (x.key != key || Refused(expiry)))
  {
    PurgedKeeps(m, now);
    AssignedKeeps(Purged(m, now).items, NewItem(key, value, expiry, size, now), m.maxSize);
  }

  lemma GetKeeps(m: Memory, key: string, now: int)
    requires WellFormed(m)
    ensures WellFormed(AfterGet(m, key, now))
    ensures forall x :: x in AfterGet(m, key, now).items ==> x in m.items
  {
    PromotedKeeps(m.items, key);
    var promoted := m.(items := Promoted(m.items, key));
    var found := Find(m.items, key);
    if found.Some? {
      BucketPurgedKeeps(promoted, found.value.expiry);
    }
  }

  lemma RemovedKeeps(m: Memory, key: string)
    requires WellFormed(m)
    ensures WellFormed(Removed(m, key))
    ensures forall x :: x in Removed(m, key).items <==> x in m.items && x.key != key
  {
    ErasedKeeps(m.items, key);
  }

  lemma RemovedWithPrefixKeeps(m: Memory, prefix: string)
    requires WellFormed(m)
    ensures WellFormed(RemovedWithPrefix(m, prefix))
    ensures forall x :: x in RemovedWithPrefix(m, prefix).items <==> x in m.items && !HasPrefix(x.key, prefix)
  {
    KeptIsFilter(m.items, KeysWithPrefix(m.items, prefix));
    KeptKeeps(m.items, KeysWithPrefix(m.items, prefix));
  }

  // ---- the index ----

  predicate IsListed(index: Index, x: Item) {
    x.expiry in index && x.key in index[x.expiry]
  }

  lemma ListedIsListedBefore(index: Index, now: int)
    ensures forall x :: IsListed(index, x) && x.expiry < now ==> x.key in ListedBefore(index, now)
  {
  }

  /** Every item with a finite expiry is listed for that moment. */
  predicate Indexed(m: Memory) {
    forall x :: x in m.items && x.expiry != EXPIRY_MAX ==> IsListed(m.index, x)
  }

  /** In an indexed cache a purge leaves nothing that has expired. */
  lemma PurgeLeavesNothingExpired(m: Memory, now: int)
    requires WellFormed(m) && Indexed(m) && now <= EXPIRY_MAX
    ensures Indexed(Purged(m, now))
    ensures forall x :: x in Purged(m, now).items ==> x.expiry >= now
  {
    PurgedKeeps(m, now);
    ListedIsListedBefore(m.index, now);
  }

  lemma GetKeepsIndexed(m: Memory, key: string, now: int)
    requires WellFormed(m) && Indexed(m)
    ensures Indexed(AfterGet(m, key, now))
  {
    PromotedKeeps(m.items, key);
    var promoted := m.(items := Promoted(m.items, key));
    var found := Find(m.items, key);
    if found.Some? {
      BucketPurgedKeeps(promoted, found.value.expiry);
    }
  }

  lemma RemoveKeepsIndexed(m: Memory, key: string, prefix: string)
    requires WellFormed(m) && Indexed(m)
    ensures Indexed(Removed(m, key)) && Indexed(RemovedWithPrefix(m, prefix))
  {
    RemovedKeeps(m, key);
    RemovedWithPrefixKeeps(m, prefix);
  }

  /** An overwritten item is not listed: its Put stores a finite expiry for a key that is present, fits, and is not
      listed for that moment already. */
  predicate StoresUnlisted(m: Memory, key: string, value: Data, expiry: int, size: nat, now: int) {
    var purged, item := Purged(m, now), NewItem(key, value, expiry, size, now);
    && expiry != EXPIRY_MAX && expiry > 0
    && item.expiry != EXPIRY_MAX
    && Find(purged.items, key).Some?
    && Cost(item) <= m.maxSize
    && key !in Bucket(purged.index, item.expiry)
  }

  /** Put keeps the cache indexed unless it overwrites in this way. */
  lemma PutKeepsIndexedIff(m: Memory, key: string, value: Data, expiry: int, size: nat, now: int)
    requires WellFormed(m) && Indexed(m) && now <= EXPIRY_MAX
    ensures Indexed(AfterPut(m, key, value, expiry, size, now)) <==> !StoresUnlisted(m, key, value, expiry, size, now)
  {
    PurgeLeavesNothingExpired(m, now);
    PurgedKeeps(m, now);
    var purged, item := Purged(m, now), NewItem(key, value, expiry, size, now);
    var after := AfterPut(m, key, value, expiry, size, now);
    if !Refused(expiry) {
      AssignedKeeps(purged.items, item, m.maxSize);
      AssignedIsKept(purged.items, item, m.maxSize);
      forall x | x in after.items && x != item && x.expiry != EXPIRY_MAX
        ensures IsListed(after.index, x)
      {
        assert IsListed(purged.index, x);
      }
    }
  }

  /** Put adds at most one listing, and at most one item that is not listed: its own, overwritten. */
  lemma PutListings(m: Memory, key: string, value: Data, expiry: int, size: nat, now: int)
    requires WellFormed(m)
    ensures var after := AfterPut(m, key, value, expiry, size, now);
      && (forall t :: t in after.index ==> forall k :: k in after.index[t] ==>
        (t in m.index && k in m.index[t]) || (k == key && expiry != EXPIRY_MAX && t == Absolute(expiry, now)))
      && (forall x :: x in after.items && x.expiry != EXPIRY_MAX && !IsListed(after.index, x) ==>
        || (x in m.items && !IsListed(m.index, x))
        || (x == NewItem(key, value, expiry, size, now) && StoresUnlisted(m, key, value, expiry, size, now)))
  {
    PurgedKeeps(m, now);
    var purged, item := Purged(m, now), NewItem(key, value, expiry, size, now);
    ListedIsListedBefore(m.index, now);
    if !Refused(expiry) {
      AssignedKeeps(purged.items, item, m.maxSize);
      AssignedIsKept(purged.items, item, m.maxSize);
    }
  }

  lemma GetListings(m: Memory, key: string, now: int)
    requires WellFormed(m)
    ensures forall t :: t in AfterGet(m, key, now).index ==> t in m.index && AfterGet(m, key, now).index[t] == m.index[t]
    ensures forall x :: x in AfterGet(m, key, now).items && !IsListed(AfterGet(m, key, now).index, x) ==> x in m.items && !IsListed(m.index, x)
  {
    PromotedKeeps(m.items, key);
    var promoted := m.(items := Promoted(m.items, key));
    var found := Find(m.items, key);
    if found.Some? {
      BucketPurgedKeeps(promoted, found.value.expiry);
    }
  }

  // ---- every run of the cache ----

  datatype Operation =
    | PutIt(key: string, value: Data, expiry: int, size: nat)
    | GetIt(key: string)
    | RemoveIt(key: string)
    | RemovePrefix(prefix: string)

  datatype Call = Call(operation: Operation, now: int)

  function Apply(m: Memory, call: Call): Memory {
    match call.operation
    case PutIt(key, value, expiry, size) => AfterPut(m, key, value, expiry, size, call.now)
    case GetIt(key) => AfterGet(m, key, call.now)
    case RemoveIt(key) => Removed(m, key)
    case RemovePrefix(prefix) => RemovedWithPrefix(m, prefix)
  }

  function Run(m: Memory, calls: seq<Call>): Memory
    decreases calls
  {
    if calls == [] then m else Run(Apply(m, calls[0]), calls[1..])
  }

  /** The keys and moments of the finite Puts. */
  function FinitePuts(calls: seq<Call>): set<(string, int)> {
    set c | c in calls && c.operation.PutIt? && c.operation.expiry != EXPIRY_MAX ::
      (c.operation.key, Absolute(c.operation.expiry, c.now))
  }

  /** The keys and moments of the Puts that overwrote without listing. */
  function Overwrites(m: Memory, calls: seq<Call>): set<(string, int)>
    decreases calls
  {
    if calls == [] then {}
    else Overwrite(m, calls[0]) + Overwrites(Apply(m, calls[0]), calls[1..])
  }

  function Overwrite(m: Memory, call: Call): set<(string, int)> {
    match call.operation
    case PutIt(key, value, expiry, size) =>
      if StoresUnlisted(m, key, value, expiry, size, call.now) then {(key, Absolute(expiry, call.now))} else {}
    case _ => {}
  }

  /** Listings come from `puts`, and items that are not listed from `overwrites`. */
  ghost predicate Traced(m: Memory, puts: set<(string, int)>, overwrites: set<(string, int)>) {
    && WellFormed(m)
    && (forall t :: t in m.index ==> forall k :: k in m.index[t] ==> (k, t) in puts)
    && (forall x :: x in m.items && x.expiry != EXPIRY_MAX && !IsListed(m.index, x) ==> (x.key, x.expiry) in overwrites)
  }

  lemma ApplyTraced(m: Memory, call: Call, puts: set<(string, int)>, overwrites: set<(string, int)>)
    requires Traced(m, puts, overwrites)
    ensures Traced(Apply(m, call), puts + FinitePuts([call]), overwrites + Overwrite(m, call))
  {
    match call.operation
    case PutIt(key, value, expiry, size) =>
      PutKeeps(m, key, value, expiry, size, call.now);
      PutListings(m, key, value, expiry, size, call.now);
      assert call in [call];
    case GetIt(key) =>
      GetKeeps(m, key, call.now);
      GetListings(m, key, call.now);
    case RemoveIt(key) => RemovedKeeps(m, key);
    case RemovePrefix(prefix) => RemovedWithPrefixKeeps(m, prefix);
  }

  lemma {:induction false} RunTraced(m: Memory, calls: seq<Call>, puts: set<(string, int)>, overwrites: set<(string, int)>)
    requires Traced(m, puts, overwrites)
    ensures Traced(Run(m, calls), puts + FinitePuts(calls), overwrites + Overwrites(m, calls))
    decreases calls
  {
    if calls == [] {
      assert puts + FinitePuts([]) == puts && overwrites + {} == overwrites;
    } else {
      ApplyTraced(m, calls[0], puts, overwrites);
      RunTraced(Apply(m, calls[0]), calls[1..], puts + FinitePuts([calls[0]]), overwrites + Overwrite(m, calls[0]));
      FinitePutsCons(calls);
      assert puts + FinitePuts([calls[0]]) + FinitePuts(calls[1..]) == puts + FinitePuts(calls);
    }
  }

  lemma FinitePutsCons(calls: seq<Call>)
    requires calls != []
    ensures FinitePuts(calls) == FinitePuts([calls[0]]) + FinitePuts(calls[1..])
  {
    assert calls == [calls[0]] + calls[1..];
  }

  /** In every run that starts empty, an item that a purge drops before its time was put before with a moment that has
      passed, and an item that a purge leaves after its time was stored by overwriting. */
  lemma PurgeInEveryRun(maxSize: nat, calls: seq<Call>, now: int, x: Item)
    requires x in Run(Memory([], map[], maxSize), calls).items && now <= EXPIRY_MAX
    ensures var m := Run(Memory([], map[], maxSize), calls);
      && (x !in Purged(m, now).items ==> exists t :: t < now && (x.key, t) in FinitePuts(calls))
      && (x in Purged(m, now).items && x.expiry < now ==> (x.key, x.expiry) in Overwrites(Memory([], map[], maxSize), calls))
  {
    var start := Memory([], map[], maxSize);
    var m := Run(start, calls);
    assert Traced(start, {}, {});
    RunTraced(start, calls, {}, {});
    PurgedKeeps(m, now);
    ListedIsListedBefore(m.index, now);
    if x !in Purged(m, now).items {
      var t :| t in m.index && t < now && x.key in m.index[t];
      assert (x.key, t) in FinitePuts(calls);
    }
  }

  lemma RunTwo(m: Memory, first: Call, second: Call)
    ensures Run(m, [first, second]) == Apply(Apply(m, first), second)
  {
    assert [first, second][1..] == [second] && [second][1..] == [];
    assert Run(Apply(m, first), [second]) == Run(Apply(Apply(m, first), second), []);
  }

  lemma PutIntoEmpty(maxSize: nat, key: string, value: Data, expiry: int, now: int)
    requires maxSize > 0 && !Refused(expiry)
    ensures AfterPut(Memory([], map[], maxSize), key, value, expiry, 1, now) ==
      Memory([NewItem(key, value, expiry, 1, now)], if expiry == EXPIRY_MAX then map[] else map[Absolute(expiry, now) := [key]], maxSize)
  {
    var item, empty := NewItem(key, value, expiry, 1, now), Memory([], map[], maxSize);
    assert Purged(empty, now) == empty;
    assert [item] + [] == [item] && [] + [key] == [key];
    assert Size([item]) == 1 by { SizeOfCons(item, []); }
  }

  lemma PutOver(m: Memory, before: Item, value: Data, expiry: int, now: int)
    requires m.items == [before] && m.maxSize > 0 && !Refused(expiry)
    requires forall t :: t in m.index ==> t >= now
    ensures AfterPut(m, before.key, value, expiry, 1, now) == m.(items := [NewItem(before.key, value, expiry, 1, now)])
  {
    var item := NewItem(before.key, value, expiry, 1, now);
    KeptNothingGone([before]);
    assert ListedBefore(m.index, now) == {};
    assert (map t | t in m.index && t >= now :: m.index[t]) == m.index;
    assert Purged(m, now) == m;
    assert Find([before], before.key) == Some(before);
    assert Erased([before], before.key) == [] && [item] + [] == [item];
    assert Size([item]) == 1 by { SizeOfCons(item, []); }
  }

  /** An item that was overwritten with a finite expiry is never purged, however late. */
  lemma OverwrittenItemStays(key: string, first: Data, second: Data, later: int)
    ensures var calls := [Call(PutIt(key, first, EXPIRY_MAX, 1), 0), Call(PutIt(key, second, 5, 1), 0)];
      Purged(Run(Memory([], map[], 1), calls), later).items == [Item(key, 5, second, 1)]
  {
    var start := Memory([], map[], 1);
    var calls := [Call(PutIt(key, first, EXPIRY_MAX, 1), 0), Call(PutIt(key, second, 5, 1), 0)];
    PutIntoEmpty(1, key, first, EXPIRY_MAX, 0);
    PutOver(Apply(start, calls[0]), NewItem(key, first, EXPIRY_MAX, 1, 0), second, 5, 0);
    RunTwo(start, calls[0], calls[1]);
    KeptNothingGone([Item(key, 5, second, 1)]);
    assert ListedBefore(map[], later) == {};
  }

  /** A stale listing drops an item that never expires. */
  lemma StaleListingDropsItem(key: string, first: Data, second: Data, later: int)
    requires later > 5
    ensures var calls := [Call(PutIt(key, first, 5, 1), 0), Call(PutIt(key, second, EXPIRY_MAX, 1), 0)];
      && Run(Memory([], map[], 1), calls).items == [Item(key, EXPIRY_MAX, second, 1)]
      && Purged(Run(Memory([], map[], 1), calls), later).items == []
  {
    var start := Memory([], map[], 1);
    var calls := [Call(PutIt(key, first, 5, 1), 0), Call(PutIt(key, second, EXPIRY_MAX, 1), 0)];
    PutIntoEmpty(1, key, first, 5, 0);
    PutOver(Apply(start, calls[0]), NewItem(key, first, 5, 1, 0), second, EXPIRY_MAX, 0);
    RunTwo(start, calls[0], calls[1]);
    var index: Index := map[5 := [key]];
    assert 5 in index && 5 < later && key in index[5];
    assert key in ListedBefore(index, later);
    var x := Item(key, EXPIRY_MAX, second, 1);
    assert Run(start, calls) == Memory([x], index, 1);
    assert [x][1..] == [] && Kept([], ListedBefore(index, later)) == [];
  }

  // ---- the class ----

  class InMemoryCache {
    var items: seq<Item>
    var index: Index
    const maxSize: nat

    function State(): Memory
      reads this
    {
      Memory(items, index, maxSize)
    }

    predicate Valid()
      reads this
    {
      WellFormed(State())
    }

    constructor (maxSize: nat)
      ensures Valid() && State() == Memory([], map[], maxSize)
    {
      this.maxSize := maxSize;
      items, index := [], map[];
    }

    /** The eviction callback takes the key out of a copy of the listed keys. */
    method OnEviction(key: string, value: Item)
      requires forall t :: t in index ==> index[t] != []
      modifies this`index
      ensures index == old(index)
    {
      if value.expiry != EXPIRY_MAX {
        var item := Bucket(index, value.expiry);
        index := index[value.expiry := item];
        var i := 0;
        while i < |item|
        {
          if item[i] == key {
            item := item[..i] + item[i + 1..];
            break;
          }
          i := i + 1;
        }
        if |index[value.expiry]| == 0 {
          index := index - {value.expiry};
        }
      }
    }

    /** Pops last items, each with its callback, until the rest fits. */
    method Evict()
      requires forall t :: t in index ==> index[t] != []
      modifies this`items, this`index
      ensures items == Evicted(old(items), maxSize) && index == old(index)
    {
      while Size(items) > maxSize
        invariant Evicted(items, maxSize) == Evicted(old(items), maxSize) && index == old(index)
        decreases |items|
      {
        var last := items[|items| - 1];
        OnEviction(last.key, last);
        items := items[..|items| - 1];
      }
    }

    method InsertOrAssign(item: Item) returns (inserted: bool)
      requires forall t :: t in index ==> index[t] != []
      modifies this`items, this`index
      ensures items == Assigned(old(items), item, maxSize) && index == old(index)
      ensures inserted == Inserts(old(items), item, maxSize)
    {
      if Find(items, item.key).Some? {
        items := [item] + Erased(items, item.key);
        Evict();
        return false;
      }
      if Cost(item) > maxSize {
        return false;
      }
      items := [item] + items;
      Evict();
      return true;
    }

    /** PurgeExpired(expiry). */
    method PurgeBucket(expiry: int)
      requires Valid()
      modifies this`items, this`index
      ensures State() == BucketPurged(old(State()), expiry)
    {
      var keys := Bucket(index, expiry);
      KeptNothingGone(items);
      assert Listed(keys[..0]) == {};
      for i := 0 to |keys|
        invariant Distinct(items)
        invariant items == Kept(old(items), Listed(keys[..i])) && index == old(index)
      {
        ErasedIsKept(items, keys[i]);
        ErasedKeeps(items, keys[i]);
        KeptTwice(old(items), Listed(keys[..i]), {keys[i]});
        assert Listed(keys[..i + 1]) == Listed(keys[..i]) + {keys[i]};
        items := Erased(items, keys[i]);
      }
      assert keys[..|keys|] == keys;
      index := index - {expiry};
    }

    /** PurgeExpired(): the moments before `now` are collected first and purged then. */
    method PurgeExpired(now: int)
      requires Valid()
      modifies this`items, this`index
      ensures Valid() && State() == Purged(old(State()), now)
    {
      var expired := set t | t in index && t < now;
      ghost var done: set<int> := {};
      KeptNothingGone(items);
      assert ListedAt(index, {}) == {} && index - {} == index;
      while expired != {}
        invariant Valid()
        invariant done !! expired && forall t :: t in done + expired <==> t in old(index) && t < now
        invariant items == Kept(old(items), ListedAt(old(index), done)) && index == old(index) - done
        decreases expired
      {
        var t :| t in expired;
        BucketPurgedKeeps(State(), t);
        KeptTwice(old(items), ListedAt(old(index), done), Listed(old(index)[t]));
        assert ListedAt(old(index), done + {t}) == ListedAt(old(index), done) + Listed(old(index)[t]);
        PurgeBucket(t);
        done, expired := done + {t}, expired - {t};
      }
      assert ListedAt(old(index), done) == ListedBefore(old(index), now);
    }

    method Put(key: string, value: Data, expiry: int, size: nat, now: int) returns (inserted: bool)
      requires Valid()
      modifies this`items, this`index
      ensures Valid() && State() == AfterPut(old(State()), key, value, expiry, size, now)
      ensures inserted == PutInserts(old(State()), key, value, expiry, size, now)
    {
      PutKeeps(State(), key, value, expiry, size, now);
      PurgeExpired(now);
      var expires := expiry != EXPIRY_MAX;
      var expireSeconds := expiry;
      if expires {
        if expiry <= 0 {
          return false;
        }
        expireSeconds := expireSeconds + now;
      }
      inserted := InsertOrAssign(Item(key, expireSeconds, value, size));
      if inserted && expires {
        index := index[expireSeconds := Bucket(index, expireSeconds) + [key]];
      }
    }

    method Get(key: string, now: int) returns (value: Option<Data>)
      requires Valid()
      modifies this`items, this`index
      ensures Valid() && State() == AfterGet(old(State()), key, now)
      ensures value == GetResult(old(State()), key, now)
    {
      GetKeeps(State(), key, now);
      PromotedKeeps(items, key);
      var found := Find(items, key);
      items := Promoted(items, key);
      if found.Some? {
        if found.value.expiry < now {
          PurgeBucket(found.value.expiry);
          return None;
        }
        return Some(found.value.value);
      }
      return None;
    }

    method Remove(key: string) returns (removed: bool)
      requires Valid()
      modifies this`items
      ensures Valid() && State() == Removed(old(State()), key)
      ensures removed == HasKey(old(items), key)
    {
      RemovedKeeps(State(), key);
      removed := Find(items, key).Some?;
      items := Erased(items, key);
    }

    method RemoveKeysWithPrefix(prefix: string)
      requires Valid()
      modifies this`items
      ensures Valid() && State() == RemovedWithPrefix(old(State()), prefix)
    {
      RemovedWithPrefixKeeps(State(), prefix);
      ghost var all, gone := items, KeysWithPrefix(items, prefix);
      ghost var passed := 0;
      assert all[..0] == [];
      var i := 0;
      while i < |items|
        invariant i <= |items| && passed + (|items| - i) == |all|
        invariant items[..i] == Kept(all[..passed], gone)
        invariant items[i..] == all[passed..]
        decreases |items| - i
      {
        KeptNext(all, passed, gone);
        CutAt(items, i, all[passed..]);
        if HasPrefix(items[i].key, prefix) {
          items := items[..i] + items[i + 1..];
        } else {
          i := i + 1;
        }
        passed := passed + 1;
      }
      assert all[..passed] == all && items[..i] == items;
    }
  }

  function ListedAt(index: Index, moments: set<int>): set<string> {
    set t, k | t in index && t in moments && k in index[t] :: k
  }
}
