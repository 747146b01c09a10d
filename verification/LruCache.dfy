/** The least-recently-used order of a bounded cache, as a sequence whose first item was used last. */
module Lru {
  import opened Options

  /** A value and the moment at which it goes out of date by what its writer said. The moment is not stored by the
      program; it only lets the properties speak about it. */
  datatype Data = Data(bytes: string, own: int)

  datatype Item = Item(key: string, expiry: int, value: Data, size: nat)

  function Cost(item: Item): (c: nat)
    ensures c > 0
  {
    if item.size == 0 then 1 else item.size
  }

  function Size(items: seq<Item>): nat {
    if items == [] then 0 else Cost(items[0]) + Size(items[1..])
  }

  predicate HasKey(items: seq<Item>, key: string) {
    exists i :: 0 <= i < |items| && items[i].key == key
  }

  predicate Distinct(items: seq<Item>) {
    forall i, j :: 0 <= i < j < |items| ==> items[i].key != items[j].key
  }

  function Find(items: seq<Item>, key: string): (found: Option<Item>)
    ensures found.Some? ==> found.value in items && found.value.key == key
    ensures found == None ==> !HasKey(items, key)
  {
    if items == [] then None else if items[0].key == key then Some(items[0]) else Find(items[1..], key)
  }

  function Erased(items: seq<Item>, key: string): seq<Item> {
    if items == [] then [] else if items[0].key == key then items[1..] else [items[0]] + Erased(items[1..], key)
  }

  /** What remains after the items at the end were evicted while the cache was too large. */
  function Evicted(items: seq<Item>, maxSize: nat): seq<Item> {
    if Size(items) <= maxSize || items == [] then items else Evicted(items[..|items| - 1], maxSize)
  }

  function Promoted(items: seq<Item>, key: string): seq<Item> {
    var found := Find(items, key);
    if found == None then items else [found.value] + Erased(items, key)
  }

  /** The items after InsertOrAssign. A key that is present is assigned without a test of the new cost. */
  function Assigned(items: seq<Item>, item: Item, maxSize: nat): seq<Item> {
    if Find(items, item.key).Some? then Evicted([item] + Erased(items, item.key), maxSize)
    else if Cost(item) > maxSize then items
    else Evicted([item] + items, maxSize)
  }

  /** Whether InsertOrAssign says that it inserted: never for a key that is present. */
  predicate Inserts(items: seq<Item>, item: Item, maxSize: nat) {
    Find(items, item.key) == None && Cost(item) <= maxSize
  }

  // ---- what the operations do to the items ----

  lemma {:induction false} ErasedKeeps(items: seq<Item>, key: string)
    requires Distinct(items)
    ensures Distinct(Erased(items, key)) && Find(Erased(items, key), key) == None
    ensures forall x :: x in Erased(items, key) <==> x in items && x.key != key
    ensures |Erased(items, key)| == if Find(items, key).Some? then |items| - 1 else |items|
    ensures Size(Erased(items, key)) == Size(items) - (if Find(items, key).Some? then Cost(Find(items, key).value) else 0)
  {
    if items != [] {
      var rest := items[1..];
      assert items == [items[0]] + rest;
      assert forall x :: x in rest ==> x.key != items[0].key;
      if items[0].key == key {
        NoKey(rest, key);
      } else {
        ErasedKeeps(rest, key);
        ConsDistinct(items[0], Erased(rest, key));
      }
    }
  }

  lemma NoKey(items: seq<Item>, key: string)
    requires forall x :: x in items ==> x.key != key
    ensures Find(items, key) == None
  {
  }

  lemma ConsDistinct(item: Item, items: seq<Item>)
    requires Distinct(items) && forall x :: x in items ==> x.key != item.key
    ensures Distinct([item] + items)
  {
    var all := [item] + items;
    forall i | 1 <= i < |all|
      ensures all[i].key != item.key
    {
      assert all[i] in items;
    }
  }

  /** Items with distinct keys are found by their keys. */
  lemma {:induction false} FindIsMember(items: seq<Item>, item: Item)
    requires Distinct(items) && item in items
    ensures Find(items, item.key) == Some(item)
  {
    if items[0] != item {
      var i :| 0 <= i < |items| && items[i] == item;
      assert items[i].key != items[0].key;
      assert item in items[1..];
      FindIsMember(items[1..], item);
    }
  }

  lemma {:induction false} SizeOfPrefix(items: seq<Item>, n: nat)
    requires n <= |items|
    ensures Size(items[..n]) + Size(items[n..]) == Size(items)
  {
    if n > 0 {
      assert items[..n][1..] == items[1..][..n - 1];
      assert items[n..] == items[1..][n - 1..];
      SizeOfPrefix(items[1..], n - 1);
    } else {
      assert items[..0] == [] && items[0..] == items;
    }
  }

  /** Eviction keeps the longest prefix that fits. */
  lemma {:induction false} EvictedIsLongestPrefix(items: seq<Item>, maxSize: nat)
    ensures Evicted(items, maxSize) <= items && Size(Evicted(items, maxSize)) <= maxSize
    ensures forall n :: 0 <= n <= |items| && Size(items[..n]) <= maxSize ==> n <= |Evicted(items, maxSize)|
  {
    if Size(items) > maxSize {
      var shorter := items[..|items| - 1];
      EvictedIsLongestPrefix(shorter, maxSize);
      assert items[..|items|] == items;
      forall n | 0 <= n < |items|
        ensures items[..n] == shorter[..n]
      {
      }
    }
  }

  lemma PrefixKeeps(items: seq<Item>, prefix: seq<Item>)
    requires prefix <= items && Distinct(items)
    ensures Distinct(prefix) && forall x :: x in prefix ==> x in items
  {
  }

  /** Assigning keeps keys distinct, and afterwards every item is the assigned one or an earlier one. */
  lemma AssignedKeeps(items: seq<Item>, item: Item, maxSize: nat)
    requires Distinct(items)
    ensures Distinct(Assigned(items, item, maxSize))
    ensures forall x :: x in Assigned(items, item, maxSize) ==> x == item || (x in items && x.key != item.key)
    ensures Size(items) <= maxSize ==> Size(Assigned(items, item, maxSize)) <= maxSize
  {
    ErasedKeeps(items, item.key);
    if Find(items, item.key).Some? || Cost(item) <= maxSize {
      var rest := Erased(items, item.key);
      NothingToErase(items, item.key);
      ConsDistinct(item, rest);
      EvictedIsLongestPrefix([item] + rest, maxSize);
      PrefixKeeps([item] + rest, Evicted([item] + rest, maxSize));
    } else {
      NothingToErase(items, item.key);
    }
  }

  lemma {:induction false} NothingToErase(items: seq<Item>, key: string)
    ensures Find(items, key) == None ==> Erased(items, key) == items
  {
    if items != [] && items[0].key != key {
      NothingToErase(items[1..], key);
    }
  }

  /** An assigned item is kept exactly when it fits by itself. */
  lemma AssignedIsKept(items: seq<Item>, item: Item, maxSize: nat)
    requires Distinct(items)
    ensures item in Assigned(items, item, maxSize) <==> Cost(item) <= maxSize
  {
    if Find(items, item.key) == None {
      assert item !in items;
    }
    var all := [item] + Erased(items, item.key);
    NothingToErase(items, item.key);
    EvictedIsLongestPrefix(all, maxSize);
    assert all[..1] == [item];
    assert Size([item]) == Cost(item) by { assert [item][1..] == []; }
    if Cost(item) <= maxSize {
      assert Evicted(all, maxSize)[0] == all[0];
    }
  }
}
