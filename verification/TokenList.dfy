/** The list of cancellation tokens kept sorted by task id. */
module TokenList {

  /** Stands for a callable that cancels one request. */
  datatype Token = Token(serial: nat)

  datatype Entry = Entry(id: int, token: Token)

  /** What happened to the list, in order. */
  datatype Event = Cancelled(entry: Entry) | Removed(id: int)

  // ---- sorted sequences of entries ----

  predicate Sorted(s: seq<Entry>) {
    forall i, j :: 0 <= i < j < |s| ==> s[i].id <= s[j].id
  }

  predicate Distinct(s: seq<Entry>) {
    forall i, j :: 0 <= i < j < |s| ==> s[i].id != s[j].id
  }

  /** `p` separates the ids below `id` from the others. */
  predicate IsLowerBound(s: seq<Entry>, id: int, p: nat) {
    && p <= |s|
    && (forall i :: 0 <= i < p ==> s[i].id < id)
    && (forall i :: p <= i < |s| ==> id <= s[i].id)
  }

  /** `p` separates the ids up to `id` from the greater ones. */
  predicate IsUpperBound(s: seq<Entry>, id: int, p: nat) {
    && p <= |s|
    && (forall i :: 0 <= i < p ==> s[i].id <= id)
    && (forall i :: p <= i < |s| ==> id < s[i].id)
  }

  method LowerBound(s: seq<Entry>, id: int) returns (p: nat)
    requires Sorted(s)
    ensures IsLowerBound(s, id, p)
  {
    p := 0;
    var high := |s|;
    while p < high
      invariant p <= high <= |s|
      invariant forall i :: 0 <= i < p ==> s[i].id < id
      invariant forall i :: high <= i < |s| ==> id <= s[i].id
    {
      var mid := (p + high) / 2;
      if s[mid].id < id {
        p := mid + 1;
      } else {
        high := mid;
      }
    }
  }

  method UpperBound(s: seq<Entry>, id: int) returns (p: nat)
    requires Sorted(s)
    ensures IsUpperBound(s, id, p)
  {
    p := 0;
    var high := |s|;
    while p < high
      invariant p <= high <= |s|
      invariant forall i :: 0 <= i < p ==> s[i].id <= id
      invariant forall i :: high <= i < |s| ==> id < s[i].id
    {
      var mid := (p + high) / 2;
      if id < s[mid].id {
        high := mid;
      } else {
        p := mid + 1;
      }
    }
  }

  /** `s` with an entry put behind every entry whose id is not greater. */
  function Inserted(s: seq<Entry>, e: Entry): seq<Entry> {
    if s == [] || e.id < s[0].id then [e] + s else [s[0]] + Inserted(s[1..], e)
  }

  /** `s` without the first entry that has the id. */
  function Without(s: seq<Entry>, id: int): seq<Entry> {
    if s == [] then [] else if s[0].id == id then s[1..] else [s[0]] + Without(s[1..], id)
  }

  lemma {:induction false} InsertedAt(s: seq<Entry>, e: Entry, p: nat)
    requires IsUpperBound(s, e.id, p)
    ensures Inserted(s, e) == s[..p] + [e] + s[p..]
  {
    if p > 0 {
      InsertedAt(s[1..], e, p - 1);
      ConsInsert(s, e, p);
    }
  }

  lemma ConsInsert(s: seq<Entry>, e: Entry, p: nat)
    requires 0 < p <= |s|
    ensures [s[0]] + (s[1..][..p - 1] + [e] + s[1..][p - 1..]) == s[..p] + [e] + s[p..]
  {
    assert s[1..][..p - 1] == s[1..p] && s[1..][p - 1..] == s[p..];
  }

  lemma {:induction false} WithoutAt(s: seq<Entry>, id: int, p: nat)
    requires Sorted(s) && IsLowerBound(s, id, p)
    ensures Without(s, id) == if p < |s| && s[p].id == id then s[..p] + s[p + 1..] else s
    decreases s
  {
    if s != [] {
      ConsDelete(s, p);
      if p > 0 {
        WithoutAt(s[1..], id, p - 1);
      } else if s[0].id != id {
        WithoutAt(s[1..], id, 0);
      }
    }
  }

  lemma ConsDelete(s: seq<Entry>, p: nat)
    requires p <= |s| && s != []
    ensures [s[0]] + s[1..] == s
    ensures p == 0 ==> s[..p] + s[p + 1..] == s[1..]
    ensures 0 < p < |s| ==> s[1..][p - 1] == s[p] && [s[0]] + (s[1..][..p - 1] + s[1..][p..]) == s[..p] + s[p + 1..]
  {
  }

  lemma InOrder(a: Entry, t: seq<Entry>)
    requires Sorted(t) && Distinct(t)
    requires forall x :: x in t ==> a.id < x.id
    ensures Sorted([a] + t) && Distinct([a] + t)
  {
    var s := [a] + t;
    forall i | 1 <= i < |s|
      ensures a.id < s[i].id
    {
      assert s[i] in t;
    }
  }

  lemma HeadIsLeast(s: seq<Entry>)
    requires Sorted(s) && Distinct(s) && s != []
    ensures Sorted(s[1..]) && Distinct(s[1..])
    ensures forall x :: x in s[1..] ==> s[0].id < x.id
    ensures forall x :: x in s <==> x == s[0] || x in s[1..]
  {
    assert s == [s[0]] + s[1..];
  }

  lemma {:induction false} InsertedKeeps(s: seq<Entry>, e: Entry)
    requires Sorted(s) && Distinct(s) && forall x :: x in s ==> x.id != e.id
    ensures Sorted(Inserted(s, e)) && Distinct(Inserted(s, e))
    ensures forall x :: x in Inserted(s, e) <==> x == e || x in s
  {
    if s == [] {
    } else if e.id < s[0].id {
      HeadIsLeast(s);
      InOrder(e, s);
    } else {
      HeadIsLeast(s);
      assert s[0] in s;
      InsertedKeeps(s[1..], e);
      InOrder(s[0], Inserted(s[1..], e));
    }
  }

  lemma {:induction false} WithoutKeeps(s: seq<Entry>, id: int)
    requires Sorted(s) && Distinct(s)
    ensures Sorted(Without(s, id)) && Distinct(Without(s, id))
    ensures forall x :: x in Without(s, id) <==> x in s && x.id != id
  {
    if s != [] {
      HeadIsLeast(s);
      if s[0].id != id {
        WithoutKeeps(s[1..], id);
        InOrder(s[0], Without(s[1..], id));
      }
    }
  }

  // ---- the list as a map ----

  ghost predicate Represents(s: seq<Entry>, m: map<int, Token>) {
    && Sorted(s) && Distinct(s)
    && (forall e :: e in s ==> e.id in m && m[e.id] == e.token)
    && (forall id :: id in m ==> Entry(id, m[id]) in s)
  }

  /** Adding a new id is adding it to the map. */
  lemma AddIsInsert(s: seq<Entry>, m: map<int, Token>, e: Entry)
    requires Represents(s, m) && e.id !in m
    ensures Represents(Inserted(s, e), m[e.id := e.token])
  {
    InsertedKeeps(s, e);
  }

  /** Removing an id is deleting it from the map. */
  lemma RemoveIsDelete(s: seq<Entry>, m: map<int, Token>, id: int)
    requires Represents(s, m)
    ensures Represents(Without(s, id), m - {id})
  {
    WithoutKeeps(s, id);
  }

  // ---- the class ----

  class CancellationTokenList {
    var tokenList: seq<Entry>
    var nextId: int

    /** How many more tasks the cancellation callbacks are going to add. */
    var additionsLeft: nat

    ghost var log: seq<Event>

    ghost predicate Valid()
      reads this
    {
      && Sorted(tokenList) && Distinct(tokenList)
      && forall e :: e in tokenList ==> e.id < nextId
    }

    constructor (additions: nat)
      ensures Valid() && tokenList == [] && additionsLeft == additions
    {
      tokenList, nextId, additionsLeft, log := [], 0, additions, [];
    }

    method GetNextId() returns (id: int)
      modifies this`nextId
      ensures id == old(nextId) && nextId == id + 1
    {
      id := nextId;
      nextId := nextId + 1;
    }

    method AddTask(id: int, token: Token)
      requires Sorted(tokenList)
      modifies this`tokenList
      ensures tokenList == Inserted(old(tokenList), Entry(id, token))
    {
      var p := UpperBound(tokenList, id);
      InsertedAt(tokenList, Entry(id, token), p);
      tokenList := tokenList[..p] + [Entry(id, token)] + tokenList[p..];
    }

    /** Rotates the entry to the end, then erases what is at the place the rotation returns. */
    method RemoveTask(id: int)
      requires Sorted(tokenList)
      modifies this`tokenList, this`log
      ensures tokenList == Without(old(tokenList), id)
      ensures log == old(log) + [Removed(id)]
    {
      log := log + [Removed(id)];
      var p := LowerBound(tokenList, id);
      WithoutAt(tokenList, id, p);
      if p == |tokenList| || tokenList[p].id != id {
        return;
      }
      var rotated := tokenList[..p] + tokenList[p + 1..] + [tokenList[p]];
      var returned := |tokenList| - 1;
      assert rotated[..returned] == tokenList[..p] + tokenList[p + 1..] && rotated[returned + 1..] == [];
      tokenList := rotated[..returned] + rotated[returned + 1..];
    }

    /** Between two moments callbacks only remove entries, each noted in the log, and add entries with new ids, each
        of them counted. `listed`, `newFrom`, `additions` and `events` are the list, the next id, the counter and the
        log at the earlier moment. */
    ghost predicate OnlyCallbacksSince(listed: seq<Entry>, newFrom: int, additions: nat, events: seq<Event>)
      reads this
    {
      && events <= log && newFrom <= nextId && additionsLeft <= additions
      && (forall e :: e in tokenList ==> e in listed || (e.id >= newFrom && additionsLeft < additions))
      && (forall e :: e in listed ==> e in tokenList || Removed(e.id) in log[|events|..])
    }

    /** Calls one token. Its callback re-enters the list, as often as it likes and in any order. */
    method Cancel(entry: Entry)
      requires Valid()
      modifies this
      ensures Valid()
      ensures OnlyCallbacksSince(old(tokenList), old(nextId), old(additionsLeft), old(log))
      ensures Cancelled(entry) in log[|old(log)|..]
    {
      LogGrows(log, Cancelled(entry), |log|);
      log := log + [Cancelled(entry)];
      var steps: nat :| steps >= 0;
      for step := 0 to steps
        invariant Valid()
        invariant OnlyCallbacksSince(old(tokenList), old(nextId), old(additionsLeft), old(log))
        invariant Cancelled(entry) in log[|old(log)|..]
      {
        if * {
          var id: int := *;
          WithoutKeeps(tokenList, id);
          LogGrows(log, Removed(id), |old(log)|);
          RemoveTask(id);
        } else if additionsLeft > 0 {
          var id := GetNextId();
          var token: Token := *;
          InsertedKeeps(tokenList, Entry(id, token));
          AddTask(id, token);
          additionsLeft := additionsLeft - 1;
        }
      }
    }

    method GetTaskIdList() returns (res: seq<int>)
      ensures |res| == |tokenList| && forall i :: 0 <= i < |res| ==> res[i] == tokenList[i].id
    {
      res := [];
      for i := 0 to |tokenList|
        invariant |res| == i && forall j :: 0 <= j < i ==> res[j] == tokenList[j].id
      {
        res := res + [tokenList[i].id];
      }
    }

    /** The loop over the ids: a token that is still listed under its id is cancelled. */
    method CancelListed(idList: seq<int>)
      requires Valid()
      requires |idList| == |tokenList| && forall i :: 0 <= i < |idList| ==> idList[i] == tokenList[i].id
      modifies this
      ensures Valid()
      ensures OnlyCallbacksSince(old(tokenList), old(nextId), old(additionsLeft), old(log))
      ensures forall e :: e in old(tokenList) ==> Handled(e, log[|old(log)|..])
    {
      for i := 0 to |idList|
        invariant Valid()
        invariant OnlyCallbacksSince(old(tokenList), old(nextId), old(additionsLeft), old(log))
        invariant forall j :: 0 <= j < i ==> Handled(old(tokenList)[j], log[|old(log)|..])
      {
        var p := LowerBound(tokenList, idList[i]);
        if p < |tokenList| && tokenList[p].id == idList[i] {
          Cancel(tokenList[p]);
        }
      }
    }

    /** Drops every entry whose id is among the sorted ids. */
    method EraseListed(idList: seq<int>)
      requires forall i, j :: 0 <= i < j < |idList| ==> idList[i] <= idList[j]
      modifies this`tokenList
      ensures forall e :: e in tokenList <==> e in old(tokenList) && e.id !in idList
      ensures old(Sorted(tokenList) && Distinct(tokenList)) ==> Sorted(tokenList) && Distinct(tokenList)
    {
      var kept: seq<Entry> := [];
      var all := tokenList;
      for i := 0 to |all|
        invariant forall e :: e in kept <==> e in all[..i] && e.id !in idList
        invariant Sorted(all) && Distinct(all) ==> Sorted(kept) && Distinct(kept)
      {
        var listed := IsListed(idList, all[i].id);
        assert all[..i + 1] == all[..i] + [all[i]];
        if !listed {
          if Sorted(all) && Distinct(all) {
            KeepOne(kept, all, i);
          }
          kept := kept + [all[i]];
        }
      }
      assert all[..|all|] == all;
      tokenList := kept;
    }

    /** One round of CancelAll: afterwards only tasks added by callbacks are listed. */
    method CancelRound(idList: seq<int>)
      requires Valid()
      requires |idList| == |tokenList| && forall i :: 0 <= i < |idList| ==> idList[i] == tokenList[i].id
      modifies this
      ensures Valid()
      ensures old(log) <= log && forall e :: e in old(tokenList) ==> Handled(e, log[|old(log)|..])
      ensures additionsLeft <= old(additionsLeft)
      ensures tokenList != [] ==> additionsLeft < old(additionsLeft)
    {
      forall e | e in tokenList
        ensures e.id in idList
      {
        var i :| 0 <= i < |tokenList| && tokenList[i] == e;
        assert idList[i] == e.id;
      }
      CancelListed(idList);
      EraseListed(idList);
      assert tokenList != [] ==> tokenList[0] in tokenList;
    }

    /** Cancels until the list stays empty. Callbacks that add tasks cause further rounds. */
    method CancelAll()
      requires Valid()
      modifies this
      ensures Valid() && tokenList == []
      ensures old(log) <= log
      ensures forall e :: e in old(tokenList) ==> Handled(e, log[|old(log)|..])
      ensures additionsLeft <= old(additionsLeft)
    {
      while true
        invariant Valid()
        invariant old(log) <= log && additionsLeft <= old(additionsLeft)
        invariant (tokenList == old(tokenList) && log == old(log)) || forall e :: e in old(tokenList) ==> Handled(e, log[|old(log)|..])
        decreases additionsLeft + (if tokenList == [] then 0 else 1)
      {
        var idList := GetTaskIdList();
        if idList == [] {
          return;
        }
        ghost var listed, events := tokenList, log;
        CancelRound(idList);
        HandledLater(old(tokenList), listed, old(log), events, log);
      }
    }
  }

  /** The token was called, or its entry was taken out of the list, among the events. */
  predicate Handled(e: Entry, events: seq<Event>) {
    Cancelled(e) in events || Removed(e.id) in events
  }

  lemma LogGrows(log: seq<Event>, event: Event, n: nat)
    requires n <= |log|
    ensures (log + [event])[n..] == log[n..] + [event]
  {
  }

  /** What was handled by some moment stays handled. */
  lemma HandledLater(first: seq<Entry>, listed: seq<Entry>, start: seq<Event>, events: seq<Event>, log: seq<Event>)
    requires start <= events <= log
    requires (first == listed && start == events) || forall e :: e in first ==> Handled(e, events[|start|..])
    requires forall e :: e in listed ==> Handled(e, log[|events|..])
    ensures forall e :: e in first ==> Handled(e, log[|start|..])
  {
    assert log[|start|..] == events[|start|..] + log[|events|..];
  }

  /** Binary search among sorted ids. */
  method IsListed(idList: seq<int>, id: int) returns (listed: bool)
    requires forall i, j :: 0 <= i < j < |idList| ==> idList[i] <= idList[j]
    ensures listed <==> id in idList
  {
    var p, high := 0, |idList|;
    while p < high
      invariant 0 <= p <= high <= |idList|
      invariant forall i :: 0 <= i < p ==> idList[i] < id
      invariant forall i :: high <= i < |idList| ==> id <= idList[i]
    {
      var mid := (p + high) / 2;
      if idList[mid] < id {
        p := mid + 1;
      } else {
        high := mid;
      }
    }
    listed := p < |idList| && idList[p] == id;
  }

  lemma KeepOne(kept: seq<Entry>, s: seq<Entry>, i: nat)
    requires i < |s| && forall e :: e in kept ==> e in s[..i]
    requires Sorted(s) && Distinct(s) && Sorted(kept) && Distinct(kept)
    ensures Sorted(kept + [s[i]]) && Distinct(kept + [s[i]])
  {
    forall j | 0 <= j < |kept|
      ensures kept[j].id < s[i].id
    {
      assert kept[j] in s[..i];
      var k :| 0 <= k < i && s[k] == kept[j];
    }
  }
}
