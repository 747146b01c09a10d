/** The cache that stacks memory, a mutable disk store and a protected disk store. Expiries are kept on disk in side
    records: the record of `k` is the decimal text under `k::expiry`. */
module LayeredCache {
  import opened Options
  import opened Decimal
  import opened Lru
  import opened MemoryCache

  type Disk = map<string, Data>

  datatype Layers = Layers(isOpen: bool, memory: Option<Memory>, disk: Option<Disk>, protectedStore: Option<Disk>)

  const EXPIRY_SUFFIX: string := "::expiry"

  function ExpiryKey(key: string): string {
    key + EXPIRY_SUFFIX
  }

  predicate IsUserKey(key: string) {
    |key| < |EXPIRY_SUFFIX| || key[|key| - |EXPIRY_SUFFIX|..] != EXPIRY_SUFFIX
  }

  lemma ExpiryKeys(key: string, other: string)
    ensures !IsUserKey(ExpiryKey(key))
    ensures ExpiryKey(key) == ExpiryKey(other) ==> key == other
  {
    assert ExpiryKey(key)[|key|..] == EXPIRY_SUFFIX;
    assert ExpiryKey(key)[..|key|] == key && ExpiryKey(other)[..|other|] == other;
    assert |ExpiryKey(key)| == |key| + |EXPIRY_SUFFIX| && |ExpiryKey(other)| == |other| + |EXPIRY_SUFFIX|;
  }

  // ---- what the operations compute ----

  /** The moment at which a value on disk expires. */
  function DiskExpiry(disk: Disk, key: string): int {
    if ExpiryKey(key) in disk then ParseInt(disk[ExpiryKey(key)].bytes) else EXPIRY_MAX
  }

  function RemainingExpiry(disk: Disk, key: string, now: int): int {
    if ExpiryKey(key) in disk then DiskExpiry(disk, key) - now else EXPIRY_MAX
  }

  function Record(expiry: int, now: int): Data {
    Data(PrintInt(expiry + now), EXPIRY_MAX)
  }

  function Written(disk: Disk, key: string, data: Data, expiry: int, now: int, recordOk: bool, valueOk: bool): Disk {
    if expiry == EXPIRY_MAX then
      if valueOk then disk[key := data] else disk
    else if !recordOk then disk
    else
      var recorded := disk[ExpiryKey(key) := Record(expiry, now)];
      if valueOk then recorded[key := data] else recorded
  }

  function NewData(bytes: string, expiry: int, now: int): Data {
    Data(bytes, Absolute(expiry, now))
  }

  function Remembered(memory: Option<Memory>, key: string, data: Data, expiry: int, now: int): Option<Memory> {
    if memory == None then None else Some(AfterPut(memory.value, key, data, expiry, |data.bytes|, now))
  }

  /** Put. `recordOk` and `valueOk` tell which of the two disk writes succeed. */
  function PutLayers(c: Layers, key: string, bytes: string, expiry: int, now: int, recordOk: bool, valueOk: bool): Layers {
    if !c.isOpen then c
    else
      var data := NewData(bytes, expiry, now);
      c.(memory := Remembered(c.memory, key, data, expiry, now),
        disk := if c.disk == None then None else Some(Written(c.disk.value, key, data, expiry, now, recordOk, valueOk)))
  }

  predicate PutSucceeds(c: Layers, expiry: int, recordOk: bool, valueOk: bool) {
    c.isOpen && (c.disk == None || ((expiry == EXPIRY_MAX || recordOk) && valueOk))
  }

  datatype Found = Found(data: Data, expiry: int)

  predicate InStore(protectedStore: Option<Disk>, key: string) {
    protectedStore.Some? && key in protectedStore.value
  }

  predicate IsProtected(c: Layers, key: string) {
    InStore(c.protectedStore, key)
  }

  /** GetFromDiscCache: the protected store comes first and never expires. */
  function FindOnDisk(c: Layers, key: string, now: int): Option<Found> {
    if IsProtected(c, key) then Some(Found(c.protectedStore.value[key], EXPIRY_MAX))
    else if c.disk.Some? && RemainingExpiry(c.disk.value, key, now) > 0 && key in c.disk.value then
      Some(Found(c.disk.value[key], RemainingExpiry(c.disk.value, key, now)))
    else None
  }

  /** PurgeDiskItem. Either removal may fail. */
  function DiskPurged(disk: Disk, key: string, valueGone: bool, recordGone: bool): Disk {
    disk - (if valueGone then {key} else {}) - (if recordGone then {ExpiryKey(key)} else {})
  }

  predicate IsExpiredOnDisk(c: Layers, key: string, now: int) {
    !IsProtected(c, key) && c.disk.Some? && RemainingExpiry(c.disk.value, key, now) <= 0
  }

  function DiskAfterGet(c: Layers, key: string, now: int, valueGone: bool, recordGone: bool): Option<Disk> {
    if IsExpiredOnDisk(c, key, now) then Some(DiskPurged(c.disk.value, key, valueGone, recordGone)) else c.disk
  }

  function MemoryAfterGet(memory: Option<Memory>, key: string, now: int): Option<Memory> {
    if memory == None then None else Some(AfterGet(memory.value, key, now))
  }

  function MemoryResult(memory: Option<Memory>, key: string, now: int): Option<Data> {
    if memory == None then None else GetResult(memory.value, key, now)
  }

  /** Get. `valueGone` and `recordGone` tell which of the two removals of a purge succeed, if there is one. */
  function GetLayers(c: Layers, key: string, now: int, valueGone: bool, recordGone: bool): Layers {
    if !c.isOpen then c
    else
      var looked := c.(memory := MemoryAfterGet(c.memory, key, now));
      if MemoryResult(c.memory, key, now).Some? then looked
      else
        var found := FindOnDisk(c, key, now);
        looked.(disk := DiskAfterGet(c, key, now, valueGone, recordGone),
          memory := if found == None then looked.memory
            else Remembered(looked.memory, key, found.value.data, found.value.expiry, now))
  }

  function GetLayersResult(c: Layers, key: string, now: int): Option<Data> {
    if !c.isOpen then None
    else if MemoryResult(c.memory, key, now).Some? then MemoryResult(c.memory, key, now)
    else if FindOnDisk(c, key, now).Some? then Some(FindOnDisk(c, key, now).value.data)
    else None
  }

  /** Remove leaves the expiry record. `gone` tells whether the removal on disk succeeds. */
  function RemoveLayers(c: Layers, key: string, gone: bool): Layers {
    if !c.isOpen then c
    else
      c.(memory := if c.memory == None then None else Some(Removed(c.memory.value, key)),
        disk := if c.disk == None || !gone then c.disk else Some(c.disk.value - {key}))
  }

  function DiskWithoutPrefix(disk: Disk, prefix: string): Disk {
    map k | k in disk && !HasPrefix(k, prefix) :: disk[k]
  }

  function PrefixLayers(c: Layers, prefix: string, gone: bool): Layers {
    if !c.isOpen then c
    else
      c.(memory := if c.memory == None then None else Some(RemovedWithPrefix(c.memory.value, prefix)),
        disk := if c.disk == None || !gone then c.disk else Some(DiskWithoutPrefix(c.disk.value, prefix)))
  }

  /** What Remove and RemoveKeysWithPrefix answer. */
  predicate RemovalSucceeds(c: Layers, gone: bool) {
    c.isOpen && (c.disk == None || gone)
  }

  // ---- lifetimes ----

  /** No item outlives its own expiry in memory. */
  predicate MemoryLifetimes(memory: Option<Memory>) {
    memory.Some? ==> WellFormed(memory.value) && forall x :: x in memory.value.items ==> x.expiry <= x.value.own
  }

  /** No value outlives its own expiry on disk, and every expiry record is finite. */
  predicate DiskLifetimes(disk: Disk) {
    && (forall k :: k in disk && IsUserKey(k) ==> DiskExpiry(disk, k) <= disk[k].own <= EXPIRY_MAX)
    && (forall r :: r in disk && !IsUserKey(r) ==> ParseInt(disk[r].bytes) < EXPIRY_MAX)
  }

  predicate Lifetimes(c: Layers) {
    MemoryLifetimes(c.memory) && (c.disk.Some? ==> DiskLifetimes(c.disk.value))
  }

  /** What the program's time type can hold: moments from 0, and sums below its largest value. */
  predicate InRange(expiry: int, now: int) {
    0 <= now < EXPIRY_MAX && (expiry == EXPIRY_MAX || expiry + now < EXPIRY_MAX)
  }

  lemma PutMemoryLifetimes(memory: Option<Memory>, key: string, data: Data, expiry: int, now: int)
    requires MemoryLifetimes(memory) && Absolute(expiry, now) <= data.own
    ensures MemoryLifetimes(Remembered(memory, key, data, expiry, now))
  {
    if memory.Some? {
      PutKeeps(memory.value, key, data, expiry, |data.bytes|, now);
    }
  }

  lemma RecordReads(expiry: int, now: int)
    ensures ParseInt(Record(expiry, now).bytes) == expiry + now
  {
    ParsePrintInt(expiry + now);
  }

  /** A write leaves a value that outlives its expiry exactly when only the record is written, over a value that
      expires earlier. */
  lemma WrittenLifetimesIff(disk: Disk, key: string, bytes: string, expiry: int, now: int, recordOk: bool, valueOk: bool)
    requires DiskLifetimes(disk) && IsUserKey(key) && InRange(expiry, now)
    ensures DiskLifetimes(Written(disk, key, NewData(bytes, expiry, now), expiry, now, recordOk, valueOk)) <==>
      !(expiry != EXPIRY_MAX && recordOk && !valueOk && key in disk && disk[key].own < expiry + now)
  {
    var data := NewData(bytes, expiry, now);
    ExpiryKeys(key, key);
    if expiry != EXPIRY_MAX && recordOk {
      RecordReads(expiry, now);
      var recorded := disk[ExpiryKey(key) := Record(expiry, now)];
      RecordChangesOneExpiry(disk, key, Record(expiry, now));
      ValueChangesNoExpiry(recorded, key, data);
    } else {
      ValueChangesNoExpiry(disk, key, data);
    }
  }

  /** A record that Remove left behind shortens the lifetime of a next value without expiry, to its own moment, and
      changes nothing for a value with one. What Get finds on disk with the record it would find without it. */
  lemma LeftoverRecordOnlyShortens(disk: Disk, key: string, bytes: string, expiry: int, now: int, later: int)
    requires DiskLifetimes(disk) && IsUserKey(key) && InRange(expiry, now)
    ensures var data := NewData(bytes, expiry, now);
      var clean := Written(disk - {key, ExpiryKey(key)}, key, data, expiry, now, true, true);
      var after := Written(disk - {key}, key, data, expiry, now, true, true);
      && DiskExpiry(clean, key) == data.own
      && DiskExpiry(after, key) == (if expiry == EXPIRY_MAX then DiskExpiry(disk, key) else data.own) <= DiskExpiry(clean, key)
      && after - {ExpiryKey(key)} == clean - {ExpiryKey(key)}
      && (RemainingExpiry(after, key, later) > 0 && 0 <= later < EXPIRY_MAX ==> RemainingExpiry(clean, key, later) > 0)
  {
    ExpiryKeys(key, key);
    if expiry != EXPIRY_MAX {
      RecordReads(expiry, now);
    }
  }

  lemma RecordChangesOneExpiry(disk: Disk, key: string, record: Data)
    ensures var recorded := disk[ExpiryKey(key) := record];
      forall k :: IsUserKey(k) ==> DiskExpiry(recorded, k) == if k == key then ParseInt(record.bytes) else DiskExpiry(disk, k)
  {
    forall k | IsUserKey(k) && k != key
      ensures ExpiryKey(k) != ExpiryKey(key)
    {
      ExpiryKeys(k, key);
    }
  }

  lemma ValueChangesNoExpiry(disk: Disk, key: string, data: Data)
    requires IsUserKey(key)
    ensures forall k :: IsUserKey(k) ==> DiskExpiry(disk[key := data], k) == DiskExpiry(disk, k)
  {
    forall k | IsUserKey(k)
      ensures ExpiryKey(k) != key
    {
      ExpiryKeys(k, k);
    }
  }

  /** Removing by prefix leaves a value that outlives its expiry exactly when it takes the record of an expiring value
      and not the value. */
  lemma PrefixLifetimesIff(disk: Disk, prefix: string)
    requires DiskLifetimes(disk)
    ensures DiskLifetimes(DiskWithoutPrefix(disk, prefix)) <==>
      forall k :: k in disk && IsUserKey(k) && disk[k].own < EXPIRY_MAX && HasPrefix(ExpiryKey(k), prefix) ==> HasPrefix(k, prefix)
  {
    var after := DiskWithoutPrefix(disk, prefix);
    forall k | k in after && IsUserKey(k)
      ensures DiskExpiry(after, k) <= after[k].own <==> !(disk[k].own < EXPIRY_MAX && HasPrefix(ExpiryKey(k), prefix))
    {
      assert DiskExpiry(disk, k) <= disk[k].own <= EXPIRY_MAX;
    }
  }

  // ---- reading ----

  /** What Get returns has not expired, by its own expiry. */
  lemma GetIsNotLate(c: Layers, key: string, now: int)
    requires Lifetimes(c) && IsUserKey(key) && !IsProtected(c, key) && now < EXPIRY_MAX
    ensures GetLayersResult(c, key, now).Some? ==> GetLayersResult(c, key, now).value.own >= now
  {
  }

  /** A value that Get takes from disk goes to memory with the expiry that it has on disk. */
  lemma PromotionKeepsExpiry(c: Layers, key: string, now: int, x: Item)
    requires Lifetimes(c) && c.isOpen && InRange(EXPIRY_MAX, now) && !IsProtected(c, key)
    requires MemoryResult(c.memory, key, now) == None && FindOnDisk(c, key, now).Some?
    requires c.memory.Some? && x in GetLayers(c, key, now, true, true).memory.value.items && x.key == key
    ensures x.expiry == DiskExpiry(c.disk.value, key) && x.value == c.disk.value[key]
    ensures GetLayers(c, key, now, true, true).disk == c.disk
  {
    var found := FindOnDisk(c, key, now).value;
    GetKeeps(c.memory.value, key, now);
    PutKeeps(AfterGet(c.memory.value, key, now), key, found.data, found.expiry, |found.data.bytes|, now);
    ExpiryKeys(key, key);
  }

  /** The purge of a Get takes the record of an expiring value and not the value. */
  predicate PurgeSplits(c: Layers, key: string, now: int, valueGone: bool, recordGone: bool) {
    && MemoryResult(c.memory, key, now) == None && IsExpiredOnDisk(c, key, now)
    && recordGone && !valueGone && key in c.disk.value && c.disk.value[key].own < EXPIRY_MAX
  }

  lemma GetLifetimesIff(c: Layers, key: string, now: int, valueGone: bool, recordGone: bool)
    requires Lifetimes(c) && c.isOpen && IsUserKey(key) && InRange(EXPIRY_MAX, now) && !IsProtected(c, key)
    ensures Lifetimes(GetLayers(c, key, now, valueGone, recordGone)) <==> !PurgeSplits(c, key, now, valueGone, recordGone)
  {
    GetMemoryLifetimes(c, key, now, valueGone, recordGone);
    if c.disk.Some? {
      DiskPurgeLifetimesIff(c.disk.value, key, valueGone, recordGone);
    }
  }

  lemma GetMemoryLifetimes(c: Layers, key: string, now: int, valueGone: bool, recordGone: bool)
    requires Lifetimes(c) && IsUserKey(key) && InRange(EXPIRY_MAX, now) && !IsProtected(c, key)
    ensures MemoryLifetimes(GetLayers(c, key, now, valueGone, recordGone).memory)
  {
    if c.memory.Some? {
      GetKeeps(c.memory.value, key, now);
    }
    ExpiryKeys(key, key);
    var found := FindOnDisk(c, key, now);
    if found.Some? {
      PutMemoryLifetimes(MemoryAfterGet(c.memory, key, now), key, found.value.data, found.value.expiry, now);
    }
  }

  lemma DiskPurgeLifetimesIff(disk: Disk, key: string, valueGone: bool, recordGone: bool)
    requires DiskLifetimes(disk) && IsUserKey(key)
    ensures DiskLifetimes(DiskPurged(disk, key, valueGone, recordGone)) <==>
      !(recordGone && !valueGone && key in disk && disk[key].own < EXPIRY_MAX)
  {
    var after := DiskPurged(disk, key, valueGone, recordGone);
    ExpiryKeys(key, key);
    forall k | IsUserKey(k)
      ensures DiskExpiry(after, k) == if k == key && recordGone then EXPIRY_MAX else DiskExpiry(disk, k)
    {
      ExpiryKeys(k, key);
      ExpiryKeys(k, k);
    }
  }

  // ---- runs ----

  datatype Action =
    | DoPut(key: string, bytes: string, expiry: int, recordOk: bool, valueOk: bool)
    | DoGet(key: string, valueGone: bool, recordGone: bool)
    | DoRemove(key: string, gone: bool)
    | DoRemovePrefix(prefix: string, gone: bool)

  datatype Request = Request(action: Action, now: int)

  function Apply(c: Layers, call: Request): Layers {
    match call.action
    case DoPut(key, bytes, expiry, recordOk, valueOk) => PutLayers(c, key, bytes, expiry, call.now, recordOk, valueOk)
    case DoGet(key, valueGone, recordGone) => GetLayers(c, key, call.now, valueGone, recordGone)
    case DoRemove(key, gone) => RemoveLayers(c, key, gone)
    case DoRemovePrefix(prefix, gone) => PrefixLayers(c, prefix, gone)
  }

  function Run(c: Layers, calls: seq<Request>): Layers
    decreases calls
  {
    if calls == [] then c else Run(Apply(c, calls[0]), calls[1..])
  }

  /** Keys that are no record names and are not in the protected store, and moments that the time type can hold. */
  predicate Proper(c: Layers, call: Request) {
    InRange(EXPIRY_MAX, call.now) &&
    match call.action
    case DoPut(key, _, expiry, _, _) => IsUserKey(key) && !IsProtected(c, key) && InRange(expiry, call.now)
    case DoGet(key, _, _) => IsUserKey(key) && !IsProtected(c, key)
    case DoRemove(key, _) => IsUserKey(key) && !IsProtected(c, key)
    case DoRemovePrefix(_, _) => true
  }

  /** The call does not separate a value from the record that limits it. */
  predicate KeepsRecords(c: Layers, call: Request) {
    !c.isOpen || c.disk == None ||
    match call.action
    case DoPut(key, _, expiry, recordOk, valueOk) =>
      expiry == EXPIRY_MAX || !recordOk || valueOk || key !in c.disk.value || c.disk.value[key].own >= expiry + call.now
    case DoGet(key, valueGone, recordGone) => !PurgeSplits(c, key, call.now, valueGone, recordGone)
    case DoRemovePrefix(prefix, gone) =>
      gone ==> forall k :: k in c.disk.value && IsUserKey(k) && c.disk.value[k].own < EXPIRY_MAX && HasPrefix(ExpiryKey(k), prefix) ==> HasPrefix(k, prefix)
    case _ => true
  }

  predicate ProperRun(c: Layers, calls: seq<Request>)
    decreases calls
  {
    calls == [] || (Proper(c, calls[0]) && ProperRun(Apply(c, calls[0]), calls[1..]))
  }

  predicate RecordsKept(c: Layers, calls: seq<Request>)
    decreases calls
  {
    calls == [] || (KeepsRecords(c, calls[0]) && RecordsKept(Apply(c, calls[0]), calls[1..]))
  }

  /** A call keeps the lifetimes exactly when it does not separate a value from its record. */
  lemma ApplyLifetimesIff(c: Layers, call: Request)
    requires Lifetimes(c) && Proper(c, call)
    ensures Lifetimes(Apply(c, call)) <==> KeepsRecords(c, call)
  {
    match call.action
    case DoPut(key, bytes, expiry, recordOk, valueOk) =>
      PutMemoryLifetimes(c.memory, key, NewData(bytes, expiry, call.now), expiry, call.now);
      if c.disk.Some? {
        WrittenLifetimesIff(c.disk.value, key, bytes, expiry, call.now, recordOk, valueOk);
      }
    case DoGet(key, valueGone, recordGone) =>
      if c.isOpen {
        GetLifetimesIff(c, key, call.now, valueGone, recordGone);
      }
    case DoRemove(key, gone) =>
      if c.memory.Some? {
        RemovedKeeps(c.memory.value, key);
      }
      if c.disk.Some? {
        DiskPurgeLifetimesIff(c.disk.value, key, true, false);
        assert DiskPurged(c.disk.value, key, true, false) == c.disk.value - {key};
      }
    case DoRemovePrefix(prefix, gone) =>
      if c.memory.Some? {
        RemovedWithPrefixKeeps(c.memory.value, prefix);
      }
      if c.disk.Some? {
        PrefixLifetimesIff(c.disk.value, prefix);
      }
  }

  lemma ApplyKeepsProtected(c: Layers, call: Request)
    ensures Apply(c, call).protectedStore == c.protectedStore && Apply(c, call).isOpen == c.isOpen
    ensures Apply(c, call).disk.Some? == c.disk.Some? && Apply(c, call).memory.Some? == c.memory.Some?
  {
  }

  lemma {:induction false} RunKeepsLifetimes(c: Layers, calls: seq<Request>)
    requires Lifetimes(c) && ProperRun(c, calls) && RecordsKept(c, calls)
    ensures Lifetimes(Run(c, calls)) && Run(c, calls).protectedStore == c.protectedStore
    decreases calls
  {
    if calls != [] {
      ApplyLifetimesIff(c, calls[0]);
      ApplyKeepsProtected(c, calls[0]);
      RunKeepsLifetimes(Apply(c, calls[0]), calls[1..]);
    }
  }

  /** After every run that never separates a value from its record, nothing is served past its own expiry. */
  lemma NothingServedLate(c: Layers, calls: seq<Request>, key: string, now: int)
    requires Lifetimes(c) && ProperRun(c, calls) && RecordsKept(c, calls)
    requires Proper(c, Request(DoGet(key, true, true), now))
    ensures var served := GetLayersResult(Run(c, calls), key, now); served.Some? ==> served.value.own >= now
  {
    RunKeepsLifetimes(c, calls);
    GetIsNotLate(Run(c, calls), key, now);
  }

  // ---- agreement with a plain map ----

  type Plain = map<string, Data>

  function ApplyPlain(plain: Plain, isOpen: bool, call: Request): Plain {
    if !isOpen then plain
    else
      match call.action
      case DoPut(key, bytes, expiry, _, _) => plain[key := NewData(bytes, expiry, call.now)]
      case DoGet(_, _, _) => plain
      case DoRemove(key, _) => plain - {key}
      case DoRemovePrefix(prefix, _) => map k | k in plain && !HasPrefix(k, prefix) :: plain[k]
  }

  function RunPlain(plain: Plain, isOpen: bool, calls: seq<Request>): Plain
    decreases calls
  {
    if calls == [] then plain else RunPlain(ApplyPlain(plain, isOpen, calls[0]), isOpen, calls[1..])
  }

  predicate MemoryAgrees(memory: Option<Memory>, plain: Plain) {
    memory.Some? ==>
      && WellFormed(memory.value)
      && forall x :: x in memory.value.items ==> x.key in plain && plain[x.key] == x.value
  }

  predicate DiskAgrees(disk: Disk, plain: Plain) {
    forall k :: k in disk && IsUserKey(k) ==> k in plain && plain[k] == disk[k]
  }

  /** Whatever a layer has is what the plain map has. Layers may have less. */
  predicate Agrees(c: Layers, plain: Plain) {
    MemoryAgrees(c.memory, plain) && (c.disk.Some? ==> DiskAgrees(c.disk.value, plain))
  }

  /** Put leaves no other value for the key in memory, where a refused one does not replace it, nor on disk, where a
      failed write does not. */
  predicate ReplacesOld(c: Layers, key: string, bytes: string, expiry: int, now: int, recordOk: bool, valueOk: bool) {
    var data := NewData(bytes, expiry, now);
    && (c.memory.Some? && Refused(expiry) ==>
      forall x :: x in Purged(c.memory.value, now).items && x.key == key ==> x.value == data)
    && (c.disk.Some? && !PutSucceeds(c, expiry, recordOk, valueOk) && key in c.disk.value ==> c.disk.value[key] == data)
  }

  lemma PutMemoryAgreesIff(memory: Memory, plain: Plain, key: string, data: Data, expiry: int, now: int)
    requires MemoryAgrees(Some(memory), plain)
    ensures MemoryAgrees(Remembered(Some(memory), key, data, expiry, now), plain[key := data]) <==>
      (Refused(expiry) ==> forall x :: x in Purged(memory, now).items && x.key == key ==> x.value == data)
  {
    PutKeeps(memory, key, data, expiry, |data.bytes|, now);
    PurgedKeeps(memory, now);
  }

  lemma WrittenAgreesIff(disk: Disk, plain: Plain, key: string, data: Data, expiry: int, now: int, recordOk: bool, valueOk: bool)
    requires DiskAgrees(disk, plain) && IsUserKey(key)
    ensures DiskAgrees(Written(disk, key, data, expiry, now, recordOk, valueOk), plain[key := data]) <==>
      (((expiry == EXPIRY_MAX || recordOk) && valueOk) || key !in disk || disk[key] == data)
  {
    ExpiryKeys(key, key);
  }

  /** A Put agrees with the plain map exactly when no older value stays behind. */
  lemma PutAgreesIff(c: Layers, plain: Plain, key: string, bytes: string, expiry: int, now: int, recordOk: bool, valueOk: bool)
    requires Agrees(c, plain) && IsUserKey(key) && c.isOpen
    ensures Agrees(PutLayers(c, key, bytes, expiry, now, recordOk, valueOk), plain[key := NewData(bytes, expiry, now)]) <==>
      ReplacesOld(c, key, bytes, expiry, now, recordOk, valueOk)
  {
    var data := NewData(bytes, expiry, now);
    if c.memory.Some? {
      PutMemoryAgreesIff(c.memory.value, plain, key, data, expiry, now);
    }
    if c.disk.Some? {
      WrittenAgreesIff(c.disk.value, plain, key, data, expiry, now, recordOk, valueOk);
    }
  }

  lemma GetAgrees(c: Layers, plain: Plain, key: string, now: int, valueGone: bool, recordGone: bool)
    requires Agrees(c, plain) && IsUserKey(key) && !IsProtected(c, key)
    ensures Agrees(GetLayers(c, key, now, valueGone, recordGone), plain)
    ensures var got := GetLayersResult(c, key, now); got.Some? ==> key in plain && plain[key] == got.value
  {
    if c.memory.Some? {
      GetKeeps(c.memory.value, key, now);
    }
    var found := FindOnDisk(c, key, now);
    if found.Some? {
      RememberedAgrees(MemoryAfterGet(c.memory, key, now), plain, key, found.value.data, found.value.expiry, now);
    }
  }

  lemma RememberedAgrees(memory: Option<Memory>, plain: Plain, key: string, data: Data, expiry: int, now: int)
    requires MemoryAgrees(memory, plain) && key in plain && plain[key] == data
    ensures MemoryAgrees(Remembered(memory, key, data, expiry, now), plain)
  {
    if memory.Some? {
      PutKeeps(memory.value, key, data, expiry, |data.bytes|, now);
    }
  }

  /** The keys are no record names, and those that are read or written are not in the protected store. */
  predicate NamesUserKeys(c: Layers, call: Request) {
    match call.action
    case DoPut(key, _, _, _, _) => IsUserKey(key) && !IsProtected(c, key)
    case DoGet(key, _, _) => IsUserKey(key) && !IsProtected(c, key)
    case DoRemove(key, _) => IsUserKey(key)
    case DoRemovePrefix(_, _) => true
  }

  /** No value stays in a layer that the plain map does not have any more. */
  predicate LeavesNothingOld(c: Layers, call: Request) {
    !c.isOpen ||
    match call.action
    case DoPut(key, bytes, expiry, recordOk, valueOk) => ReplacesOld(c, key, bytes, expiry, call.now, recordOk, valueOk)
    case DoGet(_, _, _) => true
    case DoRemove(key, gone) => c.disk.Some? && !gone ==> key !in c.disk.value
    case DoRemovePrefix(prefix, gone) =>
      c.disk.Some? && !gone ==> forall k :: k in c.disk.value && IsUserKey(k) ==> !HasPrefix(k, prefix)
  }

  predicate KeepsAgreement(c: Layers, call: Request) {
    NamesUserKeys(c, call) && LeavesNothingOld(c, call)
  }

  predicate AgreementKept(c: Layers, calls: seq<Request>)
    decreases calls
  {
    calls == [] || (KeepsAgreement(c, calls[0]) && AgreementKept(Apply(c, calls[0]), calls[1..]))
  }

  /** A call keeps the agreement exactly when it leaves nothing old behind. */
  lemma ApplyAgreesIff(c: Layers, plain: Plain, call: Request)
    requires Agrees(c, plain) && NamesUserKeys(c, call)
    ensures Agrees(Apply(c, call), ApplyPlain(plain, c.isOpen, call)) <==> LeavesNothingOld(c, call)
  {
    match call.action
    case DoPut(key, bytes, expiry, recordOk, valueOk) =>
      if c.isOpen {
        PutAgreesIff(c, plain, key, bytes, expiry, call.now, recordOk, valueOk);
      }
    case DoGet(key, valueGone, recordGone) => GetAgrees(c, plain, key, call.now, valueGone, recordGone);
    case DoRemove(key, gone) =>
      if c.memory.Some? {
        RemovedKeeps(c.memory.value, key);
      }
    case DoRemovePrefix(prefix, gone) =>
      if c.memory.Some? {
        RemovedWithPrefixKeeps(c.memory.value, prefix);
      }
  }

  lemma {:induction false} RunAgrees(c: Layers, plain: Plain, calls: seq<Request>)
    requires Agrees(c, plain) && AgreementKept(c, calls)
    ensures Agrees(Run(c, calls), RunPlain(plain, c.isOpen, calls))
    ensures Run(c, calls).protectedStore == c.protectedStore && Run(c, calls).isOpen == c.isOpen
    decreases calls
  {
    if calls != [] {
      ApplyAgreesIff(c, plain, calls[0]);
      ApplyKeepsProtected(c, calls[0]);
      RunAgrees(Apply(c, calls[0]), ApplyPlain(plain, c.isOpen, calls[0]), calls[1..]);
    }
  }

  /** After every such run, Get returns what the plain map has or nothing, whatever was evicted on the way. */
  lemma GetReturnsLastPutOrNothing(c: Layers, plain: Plain, calls: seq<Request>, key: string, now: int)
    requires Agrees(c, plain) && AgreementKept(c, calls) && IsUserKey(key) && !IsProtected(c, key)
    ensures var got := GetLayersResult(Run(c, calls), key, now);
      var expected := RunPlain(plain, c.isOpen, calls);
      got.Some? ==> key in expected && got.value == expected[key]
  {
    RunAgrees(c, plain, calls);
    GetAgrees(Run(c, calls), RunPlain(plain, c.isOpen, calls), key, now, true, true);
  }

  // ---- runs that need no look at the state ----

  /** Positive expiries, disk writes and removals that succeed, keys that are no record names and not in the protected
      store. The removals of a purge may fail. */
  predicate Reliable(protectedStore: Option<Disk>, call: Request) {
    InRange(EXPIRY_MAX, call.now) &&
    match call.action
    case DoPut(key, _, expiry, recordOk, valueOk) =>
      IsUserKey(key) && !InStore(protectedStore, key) && 0 < expiry && InRange(expiry, call.now) && recordOk && valueOk
    case DoGet(key, _, _) => IsUserKey(key) && !InStore(protectedStore, key)
    case DoRemove(key, gone) => IsUserKey(key) && !InStore(protectedStore, key) && gone
    case DoRemovePrefix(prefix, gone) => gone
  }

  lemma {:induction false} ReliableRun(c: Layers, calls: seq<Request>)
    requires forall i :: 0 <= i < |calls| ==> Reliable(c.protectedStore, calls[i])
    ensures ProperRun(c, calls) && AgreementKept(c, calls)
    decreases calls
  {
    if calls != [] {
      ApplyKeepsProtected(c, calls[0]);
      ReliableRun(Apply(c, calls[0]), calls[1..]);
    }
  }

  predicate IsEmpty(c: Layers) {
    && (c.memory.Some? ==> WellFormed(c.memory.value) && c.memory.value.items == [])
    && (c.disk.Some? ==> c.disk.value == map[])
  }

  /** After every run of such calls on an empty cache with any layers, Get returns the last value put or nothing, and
      nothing after a removal of the key or of any prefix of it. */
  lemma LastPutOrNothing(c: Layers, calls: seq<Request>, key: string, now: int)
    requires IsEmpty(c) && forall i :: 0 <= i < |calls| ==> Reliable(c.protectedStore, calls[i])
    requires IsUserKey(key) && !IsProtected(c, key)
    ensures var got := GetLayersResult(Run(c, calls), key, now);
      var expected := RunPlain(map[], c.isOpen, calls);
      got.Some? ==> key in expected && got.value == expected[key]
  {
    ReliableRun(c, calls);
    GetReturnsLastPutOrNothing(c, map[], calls, key, now);
  }

  /** A removal by the prefix that takes the record of the key takes the key. */
  predicate TakesBoth(prefix: string, key: string) {
    HasPrefix(ExpiryKey(key), prefix) ==> HasPrefix(key, prefix)
  }

  /** Which fails only for a prefix that is the key followed by some of the suffix. */
  lemma TakesBothIff(prefix: string, key: string)
    ensures TakesBoth(prefix, key) <==> forall n :: 1 <= n <= |EXPIRY_SUFFIX| ==> prefix != key + EXPIRY_SUFFIX[..n]
  {
    if |prefix| <= |key| {
      assert ExpiryKey(key)[..|prefix|] == key[..|prefix|];
    } else {
      var n := |prefix| - |key|;
      assert HasPrefix(ExpiryKey(key), prefix) <==> n <= |EXPIRY_SUFFIX| && prefix == key + EXPIRY_SUFFIX[..n] by {
        assert n <= |EXPIRY_SUFFIX| ==> ExpiryKey(key)[..|prefix|] == key + EXPIRY_SUFFIX[..n];
      }
    }
  }

  /** A purge does not take a record alone, and a prefix takes no record of a key in `keys` alone. */
  predicate TakesRecordsWithValues(call: Request, keys: set<string>) {
    match call.action
    case DoPut(key, _, _, _, _) => key in keys
    case DoGet(_, valueGone, recordGone) => recordGone ==> valueGone
    case DoRemove(_, _) => true
    case DoRemovePrefix(prefix, _) => forall k :: k in keys ==> TakesBoth(prefix, k)
  }

  predicate DiskKeysAmong(c: Layers, keys: set<string>) {
    c.disk.Some? ==> forall k :: k in c.disk.value && IsUserKey(k) ==> k in keys
  }

  lemma ApplyKeepsDiskKeys(c: Layers, call: Request, keys: set<string>)
    requires DiskKeysAmong(c, keys) && TakesRecordsWithValues(call, keys)
    ensures DiskKeysAmong(Apply(c, call), keys)
  {
    if call.action.DoPut? {
      ExpiryKeys(call.action.key, call.action.key);
    }
  }

  lemma {:induction false} ReliableRunKeepsRecords(c: Layers, calls: seq<Request>, keys: set<string>)
    requires forall i :: 0 <= i < |calls| ==> Reliable(c.protectedStore, calls[i]) && TakesRecordsWithValues(calls[i], keys)
    requires DiskKeysAmong(c, keys)
    ensures RecordsKept(c, calls)
    decreases calls
  {
    if calls != [] {
      ApplyKeepsProtected(c, calls[0]);
      ApplyKeepsDiskKeys(c, calls[0], keys);
      if calls[0].action.DoRemovePrefix? {
        assert forall k :: k in keys ==> TakesBoth(calls[0].action.prefix, k);
      }
      ReliableRunKeepsRecords(Apply(c, calls[0]), calls[1..], keys);
    }
  }

  function PutKeys(calls: seq<Request>): set<string> {
    set call | call in calls && call.action.DoPut? :: call.action.key
  }

  /** ... and the value lasts: it is served while its own expiry lasts, if purges take no record alone and no prefix
      in the run takes the record of a key in the run alone. */
  lemma LastPutWhileItLasts(c: Layers, calls: seq<Request>, key: string, now: int)
    requires IsEmpty(c) && forall i :: 0 <= i < |calls| ==> Reliable(c.protectedStore, calls[i])
    requires forall i :: 0 <= i < |calls| ==> TakesRecordsWithValues(calls[i], PutKeys(calls))
    requires IsUserKey(key) && !IsProtected(c, key) && InRange(EXPIRY_MAX, now)
    ensures var got := GetLayersResult(Run(c, calls), key, now);
      var expected := RunPlain(map[], c.isOpen, calls);
      got.Some? ==> key in expected && got.value == expected[key] && expected[key].own >= now
  {
    ReliableRun(c, calls);
    ReliableRunKeepsRecords(c, calls, PutKeys(calls));
    LastPutOrNothing(c, calls, key, now);
    NothingServedLate(c, calls, key, now);
  }

  // ---- equality with a plain map ----

  /** The disk has exactly the plain map and no expiry records, and nothing in memory expires. */
  predicate Mirrors(c: Layers, plain: Plain) {
    && c.isOpen && c.disk == Some(plain)
    && MemoryAgrees(c.memory, plain)
    && (forall k :: k in plain ==> IsUserKey(k))
    && (c.memory.Some? ==> forall x :: x in c.memory.value.items ==> x.expiry == EXPIRY_MAX)
  }

  /** No finite expiries, no failing writes, no names of expiry records, and no keys of the protected store. */
  predicate Lasting(protectedStore: Option<Disk>, call: Request) {
    call.now < EXPIRY_MAX &&
    match call.action
    case DoPut(key, _, expiry, _, valueOk) => IsUserKey(key) && expiry == EXPIRY_MAX && valueOk
    case DoGet(key, _, _) => IsUserKey(key) && !InStore(protectedStore, key)
    case DoRemove(_, gone) => gone
    case DoRemovePrefix(_, gone) => gone
  }

  lemma ApplyMirrors(c: Layers, plain: Plain, call: Request)
    requires Mirrors(c, plain) && Lasting(c.protectedStore, call)
    ensures Mirrors(Apply(c, call), ApplyPlain(plain, true, call))
  {
    match call.action
    case DoPut(key, bytes, expiry, recordOk, valueOk) =>
      if c.memory.Some? {
        PutKeeps(c.memory.value, key, NewData(bytes, expiry, call.now), expiry, |bytes|, call.now);
      }
    case DoGet(key, valueGone, recordGone) => GetMirrors(c, plain, key, call.now, valueGone, recordGone);
    case DoRemove(key, _) =>
      if c.memory.Some? {
        RemovedKeeps(c.memory.value, key);
      }
    case DoRemovePrefix(prefix, _) =>
      if c.memory.Some? {
        RemovedWithPrefixKeeps(c.memory.value, prefix);
      }
  }

  lemma GetMirrors(c: Layers, plain: Plain, key: string, now: int, valueGone: bool, recordGone: bool)
    requires Mirrors(c, plain) && IsUserKey(key) && !IsProtected(c, key) && now < EXPIRY_MAX
    ensures Mirrors(GetLayers(c, key, now, valueGone, recordGone), plain)
    ensures GetLayersResult(c, key, now) == if key in plain then Some(plain[key]) else None
  {
    ExpiryKeys(key, key);
    if c.memory.Some? {
      GetKeeps(c.memory.value, key, now);
      if key in plain {
        PutKeeps(AfterGet(c.memory.value, key, now), key, plain[key], EXPIRY_MAX, |plain[key].bytes|, now);
      }
    }
  }

  lemma {:induction false} RunMirrors(c: Layers, plain: Plain, calls: seq<Request>)
    requires Mirrors(c, plain) && forall i :: 0 <= i < |calls| ==> Lasting(c.protectedStore, calls[i])
    ensures Mirrors(Run(c, calls), RunPlain(plain, true, calls)) && Run(c, calls).protectedStore == c.protectedStore
    decreases calls
  {
    if calls != [] {
      ApplyMirrors(c, plain, calls[0]);
      ApplyKeepsProtected(c, calls[0]);
      RunMirrors(Apply(c, calls[0]), ApplyPlain(plain, true, calls[0]), calls[1..]);
    }
  }

  /** With a mutable disk store and without finite expiries the cache equals the plain map, whatever was evicted. */
  lemma CacheEqualsPlainMap(memory: Option<Memory>, protectedStore: Option<Disk>, calls: seq<Request>, key: string, now: int)
    requires memory.Some? ==> WellFormed(memory.value) && memory.value.items == []
    requires forall i :: 0 <= i < |calls| ==> Lasting(protectedStore, calls[i])
    requires IsUserKey(key) && !InStore(protectedStore, key) && now < EXPIRY_MAX
    ensures var expected := RunPlain(map[], true, calls);
      GetLayersResult(Run(Layers(true, memory, Some(map[]), protectedStore), calls), key, now) == if key in expected then Some(expected[key]) else None
  {
    var c := Layers(true, memory, Some(map[]), protectedStore);
    RunMirrors(c, map[], calls);
    GetMirrors(Run(c, calls), RunPlain(map[], true, calls), key, now, true, true);
  }

  // ---- where it fails ----

  /** The record of a failed write prolongs the value that was there: it is served after its own expiry. */
  lemma FailedWriteServesLate(key: string, first: string, second: string)
    requires IsUserKey(key)
    ensures var calls := [Request(DoPut(key, first, 5, true, true), 0), Request(DoPut(key, second, 100, true, false), 0)];
      GetLayersResult(Run(Layers(true, None, Some(map[]), None), calls), key, 50) == Some(Data(first, 5))
  {
    var c := Layers(true, None, Some(map[]), None);
    var calls := [Request(DoPut(key, first, 5, true, true), 0), Request(DoPut(key, second, 100, true, false), 0)];
    RunTwo(c, calls[0], calls[1]);
    RecordReads(100, 0);
    ExpiryKeys(key, key);
  }

  /** A prefix removal that takes the record and not the value: it is served after its own expiry. */
  lemma PrefixRemovalServesLate(key: string, bytes: string)
    requires IsUserKey(key)
    ensures var calls := [Request(DoPut(key, bytes, 5, true, true), 0), Request(DoRemovePrefix(key + ":", true), 0)];
      GetLayersResult(Run(Layers(true, None, Some(map[]), None), calls), key, 50) == Some(Data(bytes, 5))
  {
    var c := Layers(true, None, Some(map[]), None);
    var calls := [Request(DoPut(key, bytes, 5, true, true), 0), Request(DoRemovePrefix(key + ":", true), 0)];
    RunTwo(c, calls[0], calls[1]);
    ExpiryKeys(key, key);
    assert ExpiryKey(key)[..|key| + 1] == key + ":";
    assert HasPrefix(ExpiryKey(key), key + ":") && !HasPrefix(key, key + ":");
  }

  /** A purge whose second removal alone succeeds: the next Get serves the value after its own expiry. */
  lemma FailedPurgeServesLate(key: string, bytes: string)
    requires IsUserKey(key)
    ensures var calls := [Request(DoPut(key, bytes, 5, true, true), 0), Request(DoGet(key, false, true), 50)];
      GetLayersResult(Run(Layers(true, None, Some(map[]), None), calls), key, 60) == Some(Data(bytes, 5))
  {
    var c := Layers(true, None, Some(map[]), None);
    var calls := [Request(DoPut(key, bytes, 5, true, true), 0), Request(DoGet(key, false, true), 50)];
    RunTwo(c, calls[0], calls[1]);
    RecordReads(5, 0);
    ExpiryKeys(key, key);
  }

  lemma RunTwo(c: Layers, first: Request, second: Request)
    ensures Run(c, [first, second]) == Apply(Apply(c, first), second)
  {
    assert [first, second][1..] == [second] && [second][1..] == [];
    assert Run(Apply(c, first), [second]) == Run(Apply(Apply(c, first), second), []);
  }

  // ---- the class ----

  class DefaultCache {
    var isOpen: bool
    var memoryCache: InMemoryCache?
    var mutableCache: Option<Disk>
    const protectedCache: Option<Disk>

    function State(): Layers
      reads this, memoryCache
    {
      Layers(isOpen, if memoryCache == null then None else Some(memoryCache.State()), mutableCache, protectedCache)
    }

    predicate Valid()
      reads this, memoryCache
    {
      memoryCache != null ==> memoryCache.Valid()
    }

    constructor (memoryCache: InMemoryCache?, mutableCache: Option<Disk>, protectedCache: Option<Disk>)
      requires memoryCache != null ==> memoryCache.Valid()
      ensures Valid() && State() == Layers(true, if memoryCache == null then None else Some(memoryCache.State()), mutableCache, protectedCache)
      ensures this.memoryCache == memoryCache
    {
      isOpen := true;
      this.memoryCache, this.mutableCache, this.protectedCache := memoryCache, mutableCache, protectedCache;
    }

    /** A write to the mutable store. It may fail, and then it changes nothing. */
    method WriteMutable(key: string, value: Data) returns (ok: bool)
      requires mutableCache.Some?
      modifies this`mutableCache
      ensures mutableCache == if ok then Some(old(mutableCache.value)[key := value]) else old(mutableCache)
    {
      ok := *;
      if ok {
        mutableCache := Some(mutableCache.value[key := value]);
      }
    }

    /** A removal from the mutable store. It may fail, and then it changes nothing. */
    method RemoveMutable(key: string) returns (ok: bool)
      requires mutableCache.Some?
      modifies this`mutableCache
      ensures mutableCache == if ok then Some(old(mutableCache.value) - {key}) else old(mutableCache)
    {
      ok := *;
      if ok {
        mutableCache := Some(mutableCache.value - {key});
      }
    }

    method Put(key: string, bytes: string, expiry: int, now: int) returns (ok: bool, ghost recordOk: bool, ghost valueOk: bool)
      requires Valid()
      modifies this`mutableCache, memoryCache
      ensures Valid()
      ensures State() == PutLayers(old(State()), key, bytes, expiry, now, recordOk, valueOk)
      ensures ok == PutSucceeds(old(State()), expiry, recordOk, valueOk)
    {
      recordOk, valueOk := true, true;
      if !isOpen {
        return false, recordOk, valueOk;
      }
      var data := NewData(bytes, expiry, now);
      if memoryCache != null {
        var inserted := memoryCache.Put(key, data, expiry, |bytes|, now);
      }
      if mutableCache.Some? {
        if expiry != EXPIRY_MAX {
          var stored := WriteMutable(ExpiryKey(key), Record(expiry, now));
          recordOk := stored;
          if !stored {
            return false, recordOk, valueOk;
          }
        }
        var stored := WriteMutable(key, data);
        valueOk := stored;
        if !stored {
          return false, recordOk, valueOk;
        }
      }
      return true, recordOk, valueOk;
    }

    /** Looks into the protected store, then into the mutable store, where an expired value is purged. */
    method GetFromDiscCache(key: string, now: int)
      returns (found: Option<Found>, ghost valueGone: bool, ghost recordGone: bool)
      modifies this`mutableCache
      ensures found == FindOnDisk(old(State()), key, now)
      ensures mutableCache == DiskAfterGet(old(State()), key, now, valueGone, recordGone)
    {
      valueGone, recordGone := true, true;
      if protectedCache.Some? && key in protectedCache.value {
        return Some(Found(protectedCache.value[key], EXPIRY_MAX)), valueGone, recordGone;
      }
      if mutableCache.Some? {
        var expiry := RemainingExpiry(mutableCache.value, key, now);
        if expiry <= 0 {
          valueGone, recordGone := PurgeDiskItem(key);
        } else if key in mutableCache.value {
          return Some(Found(mutableCache.value[key], expiry)), valueGone, recordGone;
        }
      }
      return None, valueGone, recordGone;
    }

    method PurgeDiskItem(key: string) returns (valueGone: bool, recordGone: bool)
      requires mutableCache.Some?
      modifies this`mutableCache
      ensures mutableCache == Some(DiskPurged(old(mutableCache.value), key, valueGone, recordGone))
    {
      valueGone := RemoveMutable(key);
      recordGone := RemoveMutable(ExpiryKey(key));
      assert mutableCache.value == DiskPurged(old(mutableCache.value), key, valueGone, recordGone);
    }

    method Get(key: string, now: int) returns (value: Option<Data>, ghost valueGone: bool, ghost recordGone: bool)
      requires Valid()
      modifies this`mutableCache, memoryCache
      ensures Valid()
      ensures State() == GetLayers(old(State()), key, now, valueGone, recordGone)
      ensures value == GetLayersResult(old(State()), key, now)
    {
      valueGone, recordGone := true, true;
      if !isOpen {
        return None, valueGone, recordGone;
      }
      if memoryCache != null {
        value := memoryCache.Get(key, now);
        if value.Some? {
          return;
        }
      }
      var found;
      found, valueGone, recordGone := GetFromDiscCache(key, now);
      if found == None {
        return None, valueGone, recordGone;
      }
      var data := found.value.data;
      if memoryCache != null {
        var inserted := memoryCache.Put(key, data, found.value.expiry, |data.bytes|, now);
      }
      return Some(data), valueGone, recordGone;
    }

    method Remove(key: string) returns (ok: bool, ghost gone: bool)
      requires Valid()
      modifies this`mutableCache, memoryCache
      ensures Valid()
      ensures State() == RemoveLayers(old(State()), key, gone) && ok == RemovalSucceeds(old(State()), gone)
    {
      gone := true;
      if !isOpen {
        return false, gone;
      }
      if memoryCache != null {
        var removed := memoryCache.Remove(key);
      }
      if mutableCache.Some? {
        var removed := RemoveMutable(key);
        gone := removed;
        if !removed {
          return false, gone;
        }
      }
      return true, gone;
    }

    method RemoveKeysWithPrefix(prefix: string) returns (ok: bool, ghost gone: bool)
      requires Valid()
      modifies this`mutableCache, memoryCache
      ensures Valid()
      ensures State() == PrefixLayers(old(State()), prefix, gone) && ok == RemovalSucceeds(old(State()), gone)
    {
      gone := true;
      if !isOpen {
        return false, gone;
      }
      if memoryCache != null {
        memoryCache.RemoveKeysWithPrefix(prefix);
      }
      ok := true;
      if mutableCache.Some? {
        ok := RemoveMutablePrefix(prefix);
        gone := ok;
      }
    }

    /** The removals by prefix are written as one batch, which may fail. */
    method RemoveMutablePrefix(prefix: string) returns (ok: bool)
      requires mutableCache.Some?
      modifies this`mutableCache
      ensures mutableCache == if ok then Some(DiskWithoutPrefix(old(mutableCache.value), prefix)) else old(mutableCache)
    {
      ok := *;
      if ok {
        mutableCache := Some(DiskWithoutPrefix(mutableCache.value, prefix));
      }
    }
  }
}
