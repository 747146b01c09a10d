/** The bounded cache as the program keeps it: buckets in a map, linked from the last used to the least recently used
    by the keys of their neighbours. It refines the operations on sequences. */
module LruList {
  import opened Options
  import opened Lru

  datatype Bucket = Bucket(next: Option<string>, previous: Option<string>, item: Item)

  type Buckets = map<string, Bucket>

  function FirstKey(order: seq<Item>): Option<string> {
    if order == [] then None else Some(order[0].key)
  }

  function LastKey(order: seq<Item>): Option<string> {
    if order == [] then None else if |order| == 1 then Some(order[0].key) else LastKey(order[1..])
  }

  /** The buckets are exactly those of the items, each linked to the next one and back; `previous` is before the first. */
  ghost predicate Chain(buckets: Buckets, order: seq<Item>, previous: Option<string>) {
    if order == [] then buckets == map[]
    else
      && order[0].key in buckets
      && buckets[order[0].key] == Bucket(FirstKey(order[1..]), previous, order[0])
      && Chain(buckets - {order[0].key}, order[1..], Some(order[0].key))
  }

  // ---- changing links ----

  function WithNext(buckets: Buckets, at: Option<string>, next: Option<string>): Buckets {
    if at.Some? && at.value in buckets then buckets[at.value := buckets[at.value].(next := next)] else buckets
  }

  function WithPrevious(buckets: Buckets, at: Option<string>, previous: Option<string>): Buckets {
    if at.Some? && at.value in buckets then buckets[at.value := buckets[at.value].(previous := previous)] else buckets
  }

  /** The neighbours of a bucket are linked past it. */
  function Bypassed(buckets: Buckets, b: Bucket): Buckets {
    WithPrevious(WithNext(buckets, b.previous, b.next), b.next, b.previous)
  }

  /** A new bucket is linked before the first one. */
  function Pushed(buckets: Buckets, first: Option<string>, item: Item): Buckets {
    WithPrevious(buckets, first, Some(item.key))[item.key := Bucket(first, None, item)]
  }

  lemma ChainPrevious(buckets: Buckets, order: seq<Item>, previous: Option<string>, other: Option<string>)
    requires Chain(buckets, order, previous)
    ensures Chain(WithPrevious(buckets, FirstKey(order), other), order, other)
  {
    if order != [] {
      var key := order[0].key;
      assert WithPrevious(buckets, FirstKey(order), other) - {key} == buckets - {key};
    }
  }

  /** What is known about a bucket in a chain: its neighbours, and the item. */
  lemma {:induction false} ChainAt(buckets: Buckets, order: seq<Item>, previous: Option<string>, key: string)
    requires Chain(buckets, order, previous) && key in buckets
    ensures order != [] && Find(order, key) == Some(buckets[key].item)
    ensures var b := buckets[key];
      && (if key == order[0].key then b.previous == previous && b.next == FirstKey(order[1..])
         else b.previous.Some? && b.previous.value in buckets)
      && (b.next.Some? ==> b.next.value in buckets && b.next.value != order[0].key && b.next.value != key)
    decreases order
  {
    var rest, restOrder := buckets - {order[0].key}, order[1..];
    if key != order[0].key {
      ChainAt(rest, restOrder, Some(order[0].key), key);
    }
  }

  lemma BypassedRest(buckets: Buckets, b: Bucket, first: string)
    requires b.next != Some(first) && first in buckets
    ensures Bypassed(buckets, b) - {first} == Bypassed(buckets - {first}, b)
    ensures first in Bypassed(buckets, b)
    ensures Bypassed(buckets, b)[first] == if b.previous == Some(first) then buckets[first].(next := b.next) else buckets[first]
  {
  }

  lemma BypassedHead(buckets: Buckets, b: Bucket, first: string)
    requires b.previous.Some? ==> b.previous.value !in buckets
    requires b.next != Some(first)
    ensures Bypassed(buckets, b) - {first} == WithPrevious(buckets - {first}, b.next, b.previous)
  {
  }

  /** Bypassing a bucket and erasing it erases its item. */
  lemma {:induction false} UnlinkRefines(buckets: Buckets, order: seq<Item>, previous: Option<string>, key: string)
    requires Chain(buckets, order, previous) && key in buckets
    requires previous.Some? ==> previous.value !in buckets
    ensures Chain(Bypassed(buckets, buckets[key]) - {key}, Erased(order, key), previous)
    ensures order != [] && FirstKey(Erased(order, key)) == if key == order[0].key then buckets[key].next else Some(order[0].key)
    decreases order
  {
    ChainAt(buckets, order, previous, key);
    var first, b := order[0].key, buckets[key];
    var rest, restOrder := buckets - {first}, order[1..];
    if key == first {
      BypassedHead(buckets, b, first);
      ChainPrevious(rest, restOrder, Some(first), previous);
    } else {
      ChainAt(rest, restOrder, Some(first), key);
      UnlinkRefines(rest, restOrder, Some(first), key);
      BypassedRest(buckets, b, first);
      var after, erased := Bypassed(buckets, b) - {key}, Erased(restOrder, key);
      assert after - {first} == Bypassed(rest, b) - {key};
      assert ([order[0]] + erased)[1..] == erased;
    }
  }

  /** A new first bucket. */
  lemma PushRefines(buckets: Buckets, order: seq<Item>, item: Item)
    requires Chain(buckets, order, None) && item.key !in buckets
    ensures Chain(Pushed(buckets, FirstKey(order), item), [item] + order, None)
  {
    ChainPrevious(buckets, order, None, Some(item.key));
    assert ([item] + order)[1..] == order;
    assert Pushed(buckets, FirstKey(order), item) - {item.key} == WithPrevious(buckets, FirstKey(order), Some(item.key));
  }

  /** The last key without a bucket. */
  lemma {:induction false} LastWithout(buckets: Buckets, order: seq<Item>, previous: Option<string>, key: string)
    requires Chain(buckets, order, previous) && key in buckets
    ensures order != [] && LastKey(Erased(order, key)) ==
      if buckets[key].next.Some? then LastKey(order) else if key == order[0].key then None else buckets[key].previous
    decreases order
  {
    ChainAt(buckets, order, previous, key);
    var first := order[0].key;
    var rest, restOrder := buckets - {first}, order[1..];
    if key != first {
      ChainAt(rest, restOrder, Some(first), key);
      LastWithout(rest, restOrder, Some(first), key);
      assert ([order[0]] + Erased(restOrder, key))[1..] == Erased(restOrder, key);
      if restOrder[0].key == key {
        assert Erased(restOrder, key) == restOrder[1..];
      }
    }
  }

  lemma {:induction false} SizeWithout(order: seq<Item>, key: string)
    requires Find(order, key).Some?
    ensures Size(Erased(order, key)) == Size(order) - Cost(Find(order, key).value)
  {
    if order[0].key != key {
      SizeWithout(order[1..], key);
      assert ([order[0]] + Erased(order[1..], key))[1..] == Erased(order[1..], key);
    }
  }

  /** The order when the value of a key is assigned in place. */
  function Replaced(order: seq<Item>, item: Item): seq<Item> {
    if order == [] then [] else if order[0].key == item.key then [item] + order[1..] else [order[0]] + Replaced(order[1..], item)
  }

  lemma {:induction false} ReplacedIs(order: seq<Item>, item: Item)
    requires Find(order, item.key).Some?
    ensures FirstKey(Replaced(order, item)) == FirstKey(order) && LastKey(Replaced(order, item)) == LastKey(order)
    ensures Size(Replaced(order, item)) == Size(order) - Cost(Find(order, item.key).value) + Cost(item)
    ensures Find(Replaced(order, item), item.key) == Some(item)
    ensures Erased(Replaced(order, item), item.key) == Erased(order, item.key)
  {
    var replaced := Replaced(order, item);
    if order[0].key == item.key {
      assert replaced[1..] == order[1..];
    } else {
      ReplacedIs(order[1..], item);
      assert replaced[1..] == Replaced(order[1..], item);
    }
  }

  lemma ChainCons(buckets: Buckets, item: Item, rest: seq<Item>, previous: Option<string>)
    requires item.key in buckets && buckets[item.key] == Bucket(FirstKey(rest), previous, item)
    requires Chain(buckets - {item.key}, rest, Some(item.key))
    ensures Chain(buckets, [item] + rest, previous)
  {
    assert ([item] + rest)[1..] == rest;
  }

  lemma AssignedRest(buckets: Buckets, first: string, item: Item)
    requires item.key in buckets && first != item.key
    ensures var rest := buckets - {first};
      buckets[item.key := buckets[item.key].(item := item)] - {first} == rest[item.key := rest[item.key].(item := item)]
  {
  }

  lemma {:induction false} ReplaceRefines(buckets: Buckets, order: seq<Item>, previous: Option<string>, item: Item)
    requires Chain(buckets, order, previous) && item.key in buckets
    ensures Chain(buckets[item.key := buckets[item.key].(item := item)], Replaced(order, item), previous)
    decreases order
  {
    var first := order[0].key;
    var rest, restOrder := buckets - {first}, order[1..];
    var after := buckets[item.key := buckets[item.key].(item := item)];
    if first == item.key {
      assert after - {first} == rest;
      ChainCons(after, item, restOrder, previous);
    } else {
      ChainKeys(rest, restOrder, Some(first), item.key);
      ReplacedIs(restOrder, item);
      ReplaceRefines(rest, restOrder, Some(first), item);
      AssignedRest(buckets, first, item);
      ChainCons(after, order[0], Replaced(restOrder, item), previous);
    }
  }

  lemma {:induction false} ChainKeys(buckets: Buckets, order: seq<Item>, previous: Option<string>, key: string)
    requires Chain(buckets, order, previous)
    ensures key in buckets <==> Find(order, key).Some?
    decreases order
  {
    if order != [] && order[0].key != key {
      ChainKeys(buckets - {order[0].key}, order[1..], Some(order[0].key), key);
    }
  }

  lemma {:induction false} EraseLast(buckets: Buckets, order: seq<Item>, previous: Option<string>)
    requires Chain(buckets, order, previous) && order != []
    ensures LastKey(order).Some? && LastKey(order).value in buckets
    ensures Erased(order, LastKey(order).value) == order[..|order| - 1]
    ensures buckets[LastKey(order).value].item == order[|order| - 1]
    decreases order
  {
    if |order| > 1 {
      EraseLast(buckets - {order[0].key}, order[1..], Some(order[0].key));
      assert [order[0]] + order[1..][..|order| - 2] == order[..|order| - 1];
    }
  }

  // ---- the class ----

  class LruCache {
    var buckets: Buckets
    var first: Option<string>
    var last: Option<string>
    var size: int
    const maxSize: nat

    /** The items from the last used to the least recently used. */
    ghost var order: seq<Item>

    ghost predicate Valid()
      reads this
    {
      && Chain(buckets, order, None)
      && first == FirstKey(order)
      && last == LastKey(order)
      && size == Size(order)
    }

    constructor (maxSize: nat)
      ensures Valid() && order == [] && this.maxSize == maxSize
    {
      this.maxSize := maxSize;
      buckets, first, last, size, order := map[], None, None, 0, [];
    }

    /** The neighbours of a bucket are linked past it, and so are the ends. */
    method Unlink(b: Bucket)
      modifies this`buckets, this`first, this`last
      requires b.previous.Some? ==> b.previous.value in buckets
      requires b.next.Some? ==> b.next.value in buckets
      ensures buckets == Bypassed(old(buckets), b)
      ensures first == if b.previous == None then b.next else old(first)
      ensures last == if b.next == None then b.previous else old(last)
    {
      if b.previous == None {
        first := b.next;
      } else {
        buckets := buckets[b.previous.value := buckets[b.previous.value].(next := b.next)];
      }
      if b.next == None {
        last := b.previous;
      } else {
        buckets := buckets[b.next.value := buckets[b.next.value].(previous := b.previous)];
      }
    }

    /** The private Erase: the bucket must be there. */
    method EraseBucket(key: string)
      requires Valid() && key in buckets
      modifies this`buckets, this`first, this`last, this`size, this`order
      ensures Valid() && order == Erased(old(order), key)
    {
      ChainAt(buckets, order, None, key);
      UnlinkRefines(buckets, order, None, key);
      LastWithout(buckets, order, None, key);
      SizeWithout(order, key);
      var b := buckets[key];
      Unlink(b);
      buckets := buckets - {key};
      size := size - Cost(b.item);
      order := Erased(order, key);
    }

    method PopLast() returns (popped: Item)
      requires Valid() && order != []
      modifies this`buckets, this`first, this`last, this`size, this`order
      ensures Valid() && order + [popped] == old(order)
    {
      EraseLast(buckets, order, None);
      ChainAt(buckets, order, None, last.value);
      popped := buckets[last.value].item;
      EraseBucket(last.value);
    }

    /** Pops until the rest fits. Every popped item was handed to the eviction callback, the last one first. */
    method Evict() returns (evicted: seq<Item>)
      requires Valid()
      modifies this`buckets, this`first, this`last, this`size, this`order
      ensures Valid() && order == Evicted(old(order), maxSize) && order + evicted == old(order)
    {
      evicted := [];
      while size > maxSize
        invariant Valid() && Evicted(order, maxSize) == Evicted(old(order), maxSize) && order + evicted == old(order)
        decreases |order|
      {
        var popped := PopLast();
        assert (order + [popped])[..|order|] == order;
        evicted := [popped] + evicted;
      }
    }

    /** Moves a bucket to the front. The first one stays where it is. */
    method Promote(key: string)
      requires Valid() && key in buckets
      modifies this`buckets, this`first, this`last, this`order
      ensures Valid() && order == Promoted(old(order), key)
    {
      ChainAt(buckets, order, None, key);
      if first == Some(key) {
        assert [order[0]] + order[1..] == order;
        return;
      }
      UnlinkRefines(buckets, order, None, key);
      LastWithout(buckets, order, None, key);
      SizeWithout(order, key);
      var b := buckets[key];
      Unlink(b);
      LinkFirst(key, b.item, Erased(order, key));
    }

    /** Links an unlinked bucket before the first one. `rest` are the items that are linked. */
    method LinkFirst(key: string, ghost item: Item, ghost rest: seq<Item>)
      requires key in buckets && buckets[key].item == item && item.key == key
      requires Chain(buckets - {key}, rest, None) && rest != []
      requires first == FirstKey(rest) && last == LastKey(rest) && size == Cost(item) + Size(rest)
      modifies this`buckets, this`first, this`order
      ensures Valid() && order == [item] + rest
    {
      PushRefines(buckets - {key}, rest, item);
      SizeOfPush(item, rest);
      ghost var linked := Pushed(buckets - {key}, first, item);
      buckets := buckets[key := buckets[key].(previous := None)];
      buckets := buckets[key := buckets[key].(next := first)];
      buckets := buckets[first.value := buckets[first.value].(previous := Some(key))];
      assert buckets == linked;
      first := Some(key);
      order := [item] + rest;
    }

    /** Looks a key up and promotes it. */
    method Find(key: string) returns (found: Option<Item>)
      requires Valid()
      modifies this`buckets, this`first, this`last, this`order
      ensures Valid() && order == Promoted(old(order), key) && found == Lru.Find(old(order), key)
    {
      ChainKeys(buckets, order, None, key);
      if key !in buckets {
        return None;
      }
      ChainAt(buckets, order, None, key);
      found := Some(buckets[key].item);
      Promote(key);
    }

    method Erase(key: string) returns (erased: bool)
      requires Valid()
      modifies this`buckets, this`first, this`last, this`size, this`order
      ensures Valid() && order == Erased(old(order), key) && erased == Lru.Find(old(order), key).Some?
    {
      ChainKeys(buckets, order, None, key);
      if key !in buckets {
        NothingToErase(order, key);
        return false;
      }
      EraseBucket(key);
      return true;
    }

    /** Puts a new bucket in front. */
    method AddFirst(item: Item)
      requires Valid() && item.key !in buckets
      modifies this`buckets, this`first, this`last, this`size, this`order
      ensures Valid() && order == [item] + old(order)
    {
      PushRefines(buckets, order, item);
      SizeOfPush(item, order);
      assert order != [] ==> order[0].key in buckets;
      ghost var linked := Pushed(buckets, first, item);
      buckets := buckets[item.key := Bucket(None, None, item)];
      if |buckets| == 1 {
        first, last := Some(item.key), Some(item.key);
      } else {
        buckets := buckets[item.key := buckets[item.key].(next := first)];
        buckets := buckets[first.value := buckets[first.value].(previous := Some(item.key))];
        first := Some(item.key);
      }
      assert buckets == linked;
      size := size + Cost(item);
      order := [item] + order;
    }

    /** Assigns the value of a key that is there, or inserts it in front, and evicts. */
    method InsertOrAssign(item: Item) returns (inserted: bool)
      requires Valid()
      modifies this`buckets, this`first, this`last, this`size, this`order
      ensures Valid() && order == Assigned(old(order), item, maxSize)
      ensures inserted == Inserts(old(order), item, maxSize)
    {
      ChainKeys(buckets, order, None, item.key);
      if item.key in buckets {
        ChainAt(buckets, order, None, item.key);
        ReplacedIs(order, item);
        ReplaceRefines(buckets, order, None, item);
        var oldCost := Cost(buckets[item.key].item);
        buckets := buckets[item.key := buckets[item.key].(item := item)];
        size := size + Cost(item) - oldCost;
        order := Replaced(order, item);
        Promote(item.key);
        var evicted := Evict();
        return false;
      }
      if Cost(item) > maxSize {
        return false;
      }
      AddFirst(item);
      var evicted := Evict();
      return true;
    }
  }

  lemma SizeOfPush(item: Item, order: seq<Item>)
    ensures Size([item] + order) == Cost(item) + Size(order)
    ensures LastKey([item] + order) == if order == [] then Some(item.key) else LastKey(order)
  {
    assert ([item] + order)[1..] == order;
  }
}
