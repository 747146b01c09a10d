/** The queue of publish requests that a stream layer client keeps in a key-value store, and its flush loop. */
module PublishQueue {
  import opened Options

  datatype PublishRequest = PublishRequest(data: Option<seq<bv8>>, layerId: string)

  /** What the store holds: the list of keys as text, or one serialized request. */
  datatype Value = Text(text: string) | Data(request: PublishRequest)

  type Store = map<string, Value>

  datatype PublishResponse = PublishResponse(about: PublishRequest, outcome: int)

  /** The requests that Queue accepts when there is room. */
  predicate Acceptable(request: PublishRequest) {
    request.data.Some? && request.layerId != ""
  }

  // ---- the key list: every key is followed by a comma ----

  /** Position of the first comma, or the length. */
  function FindComma(text: string): (p: nat)
    ensures p <= |text|
    ensures forall i :: 0 <= i < p ==> text[i] != ','
    ensures p < |text| ==> text[p] == ','
  {
    if text == [] || text[0] == ',' then 0 else 1 + FindComma(text[1..])
  }

  function Keys(text: string): seq<string> {
    var p := FindComma(text);
    if p == |text| then [] else [text[..p]] + Keys(text[p + 1..])
  }

  predicate Terminated(text: string) {
    text != [] ==> text[|text| - 1] == ','
  }

  predicate IsKey(key: string) {
    forall i :: 0 <= i < |key| ==> key[i] != ','
  }

  lemma KeysCons(key: string, rest: string)
    requires IsKey(key)
    ensures FindComma(key + "," + rest) == |key|
    ensures Keys(key + "," + rest) == [key] + Keys(rest)
  {
    var text := key + "," + rest;
    assert text[|key|] == ',';
    assert forall i :: 0 <= i < |key| ==> text[i] == key[i];
    assert FindComma(text) == |key|;
    assert text[..|key|] == key && text[|key| + 1..] == rest;
  }

  lemma SplitAt(text: string, p: nat)
    requires p < |text| && text[p] == ','
    ensures text == text[..p] + "," + text[p + 1..]
  {
  }

  lemma Regroup(first: string, rest: string, key: string)
    ensures first + "," + rest + key + "," == first + "," + (rest + key + ",")
  {
  }

  lemma {:induction false} KeysAppend(text: string, key: string)
    requires Terminated(text) && IsKey(key)
    ensures Keys(text + key + ",") == Keys(text) + [key]
  {
    if text == [] {
      KeysCons(key, "");
      assert text + key + "," == key + "," + "";
    } else {
      var p := FindComma(text);
      assert text[|text| - 1] == ',';
      var first, rest := text[..p], text[p + 1..];
      KeysAppend(rest, key);
      KeysAppendToFirst(text, p, first, rest, key);
    }
  }

  lemma KeysAppendToFirst(text: string, p: nat, first: string, rest: string, key: string)
    requires p < |text| && text[p] == ',' && IsKey(first) && first == text[..p] && rest == text[p + 1..]
    requires Keys(rest + key + ",") == Keys(rest) + [key]
    ensures Keys(text + key + ",") == Keys(text) + [key]
  {
    SplitAt(text, p);
    KeysCons(first, rest);
    KeysCons(first, rest + key + ",");
    Regroup(first, rest, key);
    assert [first] + (Keys(rest) + [key]) == [first] + Keys(rest) + [key];
  }

  /** The commas are as many as the keys. */
  method CountCommas(text: string) returns (n: nat)
    ensures n == |Keys(text)|
  {
    n := 0;
    assert text[0..] == text;
    for i := 0 to |text|
      invariant n + |Keys(text[i..])| == |Keys(text)|
    {
      KeysOfTail(text[i..]);
      assert text[i..][1..] == text[i + 1..];
      if text[i] == ',' {
        n := n + 1;
      }
    }
  }

  lemma KeysOfTail(text: string)
    requires text != []
    ensures |Keys(text)| == |Keys(text[1..])| + (if text[0] == ',' then 1 else 0)
  {
    var p := FindComma(text);
    if 0 < p < |text| {
      assert text[p + 1..] == text[1..][p..];
    }
  }

  // ---- the queue that a store represents ----

  function ListText(store: Store, listKey: string): string {
    if listKey in store && store[listKey].Text? then store[listKey].text else ""
  }

  function ListedKeys(store: Store, listKey: string): seq<string> {
    Keys(ListText(store, listKey))
  }

  function Fetch(store: Store, key: string): Option<PublishRequest> {
    if key in store && store[key].Data? then Some(store[key].request) else None
  }

  /** The queued requests in order. A request whose record the store has lost is None. */
  function Contents(store: Store, listKey: string): (queue: seq<Option<PublishRequest>>)
    ensures |queue| == |ListedKeys(store, listKey)|
  {
    var keys := ListedKeys(store, listKey);
    seq(|keys|, i requires 0 <= i < |keys| => Fetch(store, keys[i]))
  }

  predicate GoodKeys(keys: seq<string>, listKey: string) {
    && listKey !in keys
    && forall i, j :: 0 <= i < j < |keys| ==> keys[i] != keys[j]
  }

  predicate GoodRecords(store: Store, keys: seq<string>) {
    forall k :: k in keys && k in store ==> store[k].Data? && Acceptable(store[k].request)
  }

  predicate WellFormed(store: Store, listKey: string) {
    && (listKey in store ==> store[listKey].Text?)
    && Terminated(ListText(store, listKey))
    && GoodKeys(ListedKeys(store, listKey), listKey)
    && GoodRecords(store, ListedKeys(store, listKey))
  }

  /** What a newly generated key is: without a comma and in no use. */
  predicate Fresh(store: Store, listKey: string, key: string) {
    IsKey(key) && key != listKey && key !in store && key !in ListedKeys(store, listKey)
  }

  /** The store after a request was appended under a key. */
  function Appended(store: Store, listKey: string, key: string, request: PublishRequest): Store {
    store[key := Data(request)][listKey := Text(ListText(store, listKey) + key + ",")]
  }

  /** The store after the first key and its record were taken out. */
  function WithoutHead(store: Store, listKey: string): Store {
    var text := ListText(store, listKey);
    var p := FindComma(text);
    if p == |text| then store else (store - {text[..p]})[listKey := Text(text[p + 1..])]
  }

  lemma AppendListsKey(store: Store, listKey: string, key: string, request: PublishRequest)
    requires WellFormed(store, listKey) && Fresh(store, listKey, key)
    ensures ListedKeys(Appended(store, listKey, key, request), listKey) == ListedKeys(store, listKey) + [key]
  {
    KeysAppend(ListText(store, listKey), key);
  }

  lemma GoodKeysGrow(keys: seq<string>, listKey: string, key: string)
    requires GoodKeys(keys, listKey) && key != listKey && key !in keys
    ensures GoodKeys(keys + [key], listKey)
  {
  }

  lemma GoodKeysShrink(keys: seq<string>, listKey: string)
    requires GoodKeys(keys, listKey) && keys != []
    ensures GoodKeys(keys[1..], listKey) && keys[0] !in keys[1..]
  {
  }

  lemma AppendKeeps(store: Store, listKey: string, key: string, request: PublishRequest)
    requires WellFormed(store, listKey) && Fresh(store, listKey, key) && Acceptable(request)
    ensures WellFormed(Appended(store, listKey, key, request), listKey)
  {
    AppendListsKey(store, listKey, key, request);
    GoodKeysGrow(ListedKeys(store, listKey), listKey, key);
  }

  /** Appending a request puts it behind all others and touches no other entry. */
  lemma AppendRefines(store: Store, listKey: string, key: string, request: PublishRequest)
    requires WellFormed(store, listKey) && Fresh(store, listKey, key) && Acceptable(request)
    ensures WellFormed(Appended(store, listKey, key, request), listKey)
    ensures Contents(Appended(store, listKey, key, request), listKey) == Contents(store, listKey) + [Some(request)]
    ensures Appended(store, listKey, key, request) - {listKey, key} == store - {listKey}
  {
    AppendKeeps(store, listKey, key, request);
    AppendListsKey(store, listKey, key, request);
    var keys, after := ListedKeys(store, listKey), Appended(store, listKey, key, request);
    assert listKey !in keys && key !in keys;
    assert Fetch(after, key) == Some(request);
    ContentsGrow(store, after, listKey, key);
    AppendFrame(store, listKey, key, Data(request), Text(ListText(store, listKey) + key + ","));
  }

  lemma AppendFrame(store: Store, listKey: string, key: string, record: Value, list: Value)
    requires key !in store
    ensures store[key := record][listKey := list] - {listKey, key} == store - {listKey}
  {
  }

  lemma ContentsGrow(store: Store, after: Store, listKey: string, key: string)
    requires ListedKeys(after, listKey) == ListedKeys(store, listKey) + [key]
    requires forall k :: k in ListedKeys(store, listKey) ==> Fetch(after, k) == Fetch(store, k)
    ensures Contents(after, listKey) == Contents(store, listKey) + [Fetch(after, key)]
  {
    SameRecords(store, after, listKey);
  }

  lemma SameRecords(store: Store, after: Store, listKey: string)
    requires ListedKeys(store, listKey) <= ListedKeys(after, listKey)
    requires forall k :: k in ListedKeys(store, listKey) ==> Fetch(after, k) == Fetch(store, k)
    ensures Contents(store, listKey) <= Contents(after, listKey)
  {
    var keys := ListedKeys(store, listKey);
    forall i | 0 <= i < |keys|
      ensures Contents(store, listKey)[i] == Contents(after, listKey)[i]
    {
      assert keys[i] in keys;
    }
  }

  /** Taking the first key out leaves the queue without its head and touches no other entry. */
  lemma WithoutHeadRefines(store: Store, listKey: string)
    requires WellFormed(store, listKey)
    ensures WellFormed(WithoutHead(store, listKey), listKey)
    ensures Contents(store, listKey) == [] ==> WithoutHead(store, listKey) == store
    ensures Contents(store, listKey) != [] ==>
      && Contents(WithoutHead(store, listKey), listKey) == Contents(store, listKey)[1..]
      && WithoutHead(store, listKey) - {listKey} == store - {listKey, ListedKeys(store, listKey)[0]}
  {
    if Contents(store, listKey) != [] {
      WithoutHeadUnlistsKey(store, listKey);
      var after, keys := WithoutHead(store, listKey), ListedKeys(store, listKey);
      GoodKeysShrink(keys, listKey);
      assert forall k :: k in keys[1..] ==> Fetch(after, k) == Fetch(store, k);
      ContentsShrink(store, after, listKey);
    }
  }

  lemma ContentsShrink(store: Store, after: Store, listKey: string)
    requires ListedKeys(store, listKey) != [] && ListedKeys(after, listKey) == ListedKeys(store, listKey)[1..]
    requires forall k :: k in ListedKeys(after, listKey) ==> Fetch(after, k) == Fetch(store, k)
    ensures Contents(after, listKey) == Contents(store, listKey)[1..]
  {
    var keys := ListedKeys(after, listKey);
    forall i | 0 <= i < |keys|
      ensures Contents(after, listKey)[i] == Contents(store, listKey)[i + 1]
    {
      assert keys[i] in keys;
    }
  }

  lemma WithoutHeadKeepsFresh(store: Store, listKey: string, key: string)
    requires WellFormed(store, listKey) && Fresh(store, listKey, key)
    ensures Fresh(WithoutHead(store, listKey), listKey, key)
  {
    if ListedKeys(store, listKey) != [] {
      WithoutHeadUnlistsKey(store, listKey);
    }
  }

  lemma HeadIsAcceptable(store: Store, listKey: string)
    requires WellFormed(store, listKey) && Contents(store, listKey) != []
    ensures Contents(store, listKey)[0].Some? ==> Acceptable(Contents(store, listKey)[0].value)
  {
    assert ListedKeys(store, listKey)[0] in ListedKeys(store, listKey);
  }

  lemma WithoutHeadUnlistsKey(store: Store, listKey: string)
    requires WellFormed(store, listKey) && ListedKeys(store, listKey) != []
    ensures ListedKeys(WithoutHead(store, listKey), listKey) == ListedKeys(store, listKey)[1..]
    ensures Terminated(ListText(WithoutHead(store, listKey), listKey))
    ensures ListedKeys(store, listKey)[0] == ListText(store, listKey)[..FindComma(ListText(store, listKey))]
  {
  }

  // ---- every run of the queue ----

  /** One use of the store: a request is appended, the head is popped, or the store loses a record on its own. */
  datatype Step = Append(key: string, request: PublishRequest) | Pop | Lose(key: string)

  ghost predicate CanStep(store: Store, listKey: string, step: Step) {
    match step
    case Append(key, request) => Fresh(store, listKey, key) && Acceptable(request)
    case Pop => true
    case Lose(key) => key != listKey
  }

  function Next(store: Store, listKey: string, step: Step): Store {
    match step
    case Append(key, request) => Appended(store, listKey, key, request)
    case Pop => WithoutHead(store, listKey)
    case Lose(key) => store - {key}
  }

  ghost predicate CanRun(store: Store, listKey: string, steps: seq<Step>)
    decreases steps
  {
    steps == [] || (CanStep(store, listKey, steps[0]) && CanRun(Next(store, listKey, steps[0]), listKey, steps[1..]))
  }

  function Run(store: Store, listKey: string, steps: seq<Step>): Store
    decreases steps
  {
    if steps == [] then store else Run(Next(store, listKey, steps[0]), listKey, steps[1..])
  }

  function Arrival(step: Step): seq<Option<PublishRequest>> {
    if step.Append? then [Some(step.request)] else []
  }

  function Departure(queue: seq<Option<PublishRequest>>, step: Step): seq<Option<PublishRequest>> {
    if step.Pop? && queue != [] then [queue[0]] else []
  }

  /** The appended requests in order. */
  function Arrivals(steps: seq<Step>): seq<Option<PublishRequest>> {
    if steps == [] then [] else Arrival(steps[0]) + Arrivals(steps[1..])
  }

  /** The popped requests in order. */
  function Departures(store: Store, listKey: string, steps: seq<Step>): seq<Option<PublishRequest>>
    decreases steps
  {
    if steps == [] then []
    else Departure(Contents(store, listKey), steps[0]) + Departures(Next(store, listKey, steps[0]), listKey, steps[1..])
  }

  predicate LosesNothing(steps: seq<Step>) {
    forall i :: 0 <= i < |steps| ==> !steps[i].Lose?
  }

  /** `b` has what `a` has, in the same places, except for what was lost. */
  predicate SameUpToLoss(a: seq<Option<PublishRequest>>, b: seq<Option<PublishRequest>>) {
    |a| == |b| && forall i :: 0 <= i < |a| ==> b[i] == a[i] || b[i] == None
  }

  /** `SameUpToLoss`, and nothing is lost unless `lossy`. */
  predicate Same(lossy: bool, a: seq<Option<PublishRequest>>, b: seq<Option<PublishRequest>>) {
    SameUpToLoss(a, b) && (!lossy ==> a == b)
  }

  lemma LosingRefines(store: Store, listKey: string, key: string)
    requires WellFormed(store, listKey) && key != listKey
    ensures WellFormed(store - {key}, listKey)
    ensures SameUpToLoss(Contents(store, listKey), Contents(store - {key}, listKey))
  {
    assert ListText(store - {key}, listKey) == ListText(store, listKey);
  }

  lemma HeadAndTail(queue: seq<Option<PublishRequest>>)
    ensures queue + [] == queue && [] + queue == queue && (queue != [] ==> [queue[0]] + queue[1..] == queue)
  {
  }

  lemma StepRefines(store: Store, listKey: string, step: Step)
    requires WellFormed(store, listKey) && CanStep(store, listKey, step)
    ensures WellFormed(Next(store, listKey, step), listKey)
    ensures Same(step.Lose?, Contents(store, listKey) + Arrival(step),
      Departure(Contents(store, listKey), step) + Contents(Next(store, listKey, step), listKey))
  {
    HeadAndTail(Contents(store, listKey));
    match step
    case Append(key, request) =>
      AppendRefines(store, listKey, key, request);
      HeadAndTail(Contents(Next(store, listKey, step), listKey));
    case Pop => WithoutHeadRefines(store, listKey);
    case Lose(key) =>
      LosingRefines(store, listKey, key);
      HeadAndTail(Contents(Next(store, listKey, step), listKey));
  }

  lemma SameCompose(first: bool, later: bool, queue: seq<Option<PublishRequest>>, arrival: seq<Option<PublishRequest>>,
      departure: seq<Option<PublishRequest>>, next: seq<Option<PublishRequest>>, arrivals: seq<Option<PublishRequest>>,
      departures: seq<Option<PublishRequest>>, last: seq<Option<PublishRequest>>)
    requires Same(first, queue + arrival, departure + next)
    requires Same(later, next + arrivals, departures + last)
    ensures Same(first || later, queue + (arrival + arrivals), (departure + departures) + last)
  {
    var a, b := queue + (arrival + arrivals), (departure + departures) + last;
    var middle := departure + next + arrivals;
    assert a == (queue + arrival) + arrivals;
    assert b == departure + (departures + last);
    assert middle == departure + (next + arrivals);
    assert SameUpToLoss(a, middle);
    assert SameUpToLoss(middle, b);
  }

  /** First in, first out, over every run: what was popped followed by what is queued is what was queued at the start
      followed by what was appended. */
  lemma {:induction false} FirstInFirstOut(store: Store, listKey: string, steps: seq<Step>)
    requires WellFormed(store, listKey) && CanRun(store, listKey, steps)
    ensures WellFormed(Run(store, listKey, steps), listKey)
    ensures Same(!LosesNothing(steps), Contents(store, listKey) + Arrivals(steps),
      Departures(store, listKey, steps) + Contents(Run(store, listKey, steps), listKey))
    decreases steps
  {
    if steps != [] {
      var next, rest := Next(store, listKey, steps[0]), steps[1..];
      StepRefines(store, listKey, steps[0]);
      FirstInFirstOut(next, listKey, rest);
      SameCompose(steps[0].Lose?, !LosesNothing(rest), Contents(store, listKey), Arrival(steps[0]),
        Departure(Contents(store, listKey), steps[0]), Contents(next, listKey), Arrivals(rest),
        Departures(next, listKey, rest), Contents(Run(next, listKey, rest), listKey));
    }
  }

  // ---- flushing ----

  function Kept(entry: Option<PublishRequest>): (requests: seq<PublishRequest>)
    ensures |requests| <= 1
  {
    if entry.Some? then [entry.value] else []
  }

  /** The requests that the store has not lost. */
  function Present(queue: seq<Option<PublishRequest>>): (requests: seq<PublishRequest>)
    ensures |requests| <= |queue|
  {
    if queue == [] then [] else Kept(queue[0]) + Present(queue[1..])
  }

  lemma {:induction false} PresentAppend(a: seq<Option<PublishRequest>>, b: seq<Option<PublishRequest>>)
    ensures Present(a + b) == Present(a) + Present(b)
  {
    if a == [] {
      assert a + b == b;
    } else {
      var rest := a[1..];
      assert (a + b)[0] == a[0] && (a + b)[1..] == rest + b;
      PresentAppend(rest, b);
      assert Kept(a[0]) + (Present(rest) + Present(b)) == Kept(a[0]) + Present(rest) + Present(b);
    }
  }

  lemma PresentOne(entry: Option<PublishRequest>)
    ensures Present([entry]) == Kept(entry)
  {
    assert [entry][1..] == [];
    assert Present([]) == [];
  }

  lemma PresentTake(queue: seq<Option<PublishRequest>>, n: nat)
    requires n < |queue|
    ensures Present(queue[..n + 1]) == Present(queue[..n]) + Kept(queue[n])
  {
    assert queue[..n + 1] == queue[..n] + [queue[n]];
    PresentAppend(queue[..n], [queue[n]]);
    PresentOne(queue[n]);
  }

  function About(responses: seq<PublishResponse>): (requests: seq<PublishRequest>)
    ensures |requests| == |responses|
  {
    seq(|responses|, i requires 0 <= i < |responses| => responses[i].about)
  }

  /** What a flush did: `taken` entries were popped, `interrupted` says that the publishing of the last one was
      cancelled, and `cancelled` that the flush stopped because of that or of a check between two rounds. */
  datatype FlushRun = FlushRun(taken: nat, interrupted: bool, cancelled: bool)

  function Ahead(n: nat, run: FlushRun): FlushRun {
    run.(taken := n + run.taken)
  }

  predicate BelowLimit(limit: nat, counter: nat) {
    limit == 0 || counter < limit
  }

  /** The rounds from here on, when `checks` more checks for cancellation are going to answer no. */
  function FlushRounds(queue: seq<Option<PublishRequest>>, limit: nat, counter: nat, checks: nat): FlushRun
    decreases queue, 1
  {
    if !BelowLimit(limit, counter) || queue == [] then FlushRun(0, false, false)
    else if checks == 0 then FlushRun(0, false, true)
    else FlushRound(queue, limit, counter, checks - 1)
  }

  /** A round whose check has passed, and the rounds after it. */
  function FlushRound(queue: seq<Option<PublishRequest>>, limit: nat, counter: nat, checks: nat): FlushRun
    requires queue != []
    decreases queue, 0
  {
    if queue[0] == None then Ahead(1, FlushRounds(queue[1..], limit, counter, checks))
    else if checks == 0 then FlushRun(1, true, true)
    else Ahead(1, FlushRounds(queue[1..], limit, counter + 1, checks - 1))
  }

  /** What a flush does, which only the moment of cancellation decides. */
  function FlushRunOf(before: seq<Option<PublishRequest>>, limit: int, checks: nat): FlushRun {
    if limit < 0 then FlushRun(0, false, false) else FlushRounds(before, limit, 0, checks)
  }

  /** What goes back to the end of the queue: an interrupted request, if there is room again. */
  function Requeued(before: seq<Option<PublishRequest>>, maximum: nat, run: FlushRun): seq<Option<PublishRequest>>
    requires run.taken <= |before| && (run.interrupted ==> run.taken > 0)
  {
    if run.interrupted && |before| - run.taken < maximum then [before[run.taken - 1]] else []
  }

  predicate RunFits(queue: seq<Option<PublishRequest>>, run: FlushRun) {
    run.taken <= |queue| && (run.interrupted ==> run.cancelled && run.taken > 0 && queue[run.taken - 1].Some?)
  }

  function AfterFlush(before: seq<Option<PublishRequest>>, maximum: nat, run: FlushRun): seq<Option<PublishRequest>>
    requires RunFits(before, run)
  {
    before[run.taken..] + Requeued(before, maximum, run)
  }

  /** The requests whose responses are final: all that were popped but an interrupted one. */
  function Settled(before: seq<Option<PublishRequest>>, run: FlushRun): seq<PublishRequest>
    requires RunFits(before, run)
  {
    Present(before[..if run.interrupted then run.taken - 1 else run.taken])
  }

  lemma PresentCons(queue: seq<Option<PublishRequest>>, n: nat)
    requires 0 < n <= |queue|
    ensures Present(queue[..n]) == Kept(queue[0]) + Present(queue[1..][..n - 1])
  {
    assert queue[..n][1..] == queue[1..][..n - 1];
  }

  /** A flush stays within the queue and the limit, and stops early only when it was cancelled. */
  lemma {:induction false} FlushRoundsBounds(queue: seq<Option<PublishRequest>>, limit: nat, counter: nat, checks: nat)
    requires limit > 0 ==> counter <= limit
    ensures var run := FlushRounds(queue, limit, counter, checks);
      && RunFits(queue, run)
      && (limit > 0 ==> counter + |Present(queue[..run.taken])| <= limit)
      && (!run.cancelled ==> run.taken == |queue| || (limit > 0 && counter + |Present(queue[..run.taken])| == limit))
      && (checks >= 2 * |queue| ==> !run.cancelled)
      && (checks == 0 ==> run.taken == 0)
  {
    var run := FlushRounds(queue, limit, counter, checks);
    assert queue[..0] == [] && Present([]) == [];
    if BelowLimit(limit, counter) && queue != [] && checks > 0 {
      assert run == FlushRound(queue, limit, counter, checks - 1);
      if queue[0] == None {
        FlushRoundsBounds(queue[1..], limit, counter, checks - 1);
      } else if checks > 1 {
        FlushRoundsBounds(queue[1..], limit, counter + 1, checks - 2);
      }
      PresentCons(queue, run.taken);
    }
  }

  /** A flush pops a prefix of the queue in order and has one response for each popped request: at most `limit` of
      them, where 0 means all and a negative limit none, and all that are allowed unless it was cancelled. */
  predicate Flushed(before: seq<Option<PublishRequest>>, limit: int, maximum: nat, run: FlushRun,
      responses: seq<PublishResponse>, after: seq<Option<PublishRequest>>) {
    && RunFits(before, run)
    && About(responses) == Present(before[..run.taken])
    && (limit < 0 ==> run.taken == 0)
    && (limit > 0 ==> |responses| <= limit)
    && (!run.cancelled && limit >= 0 ==> run.taken == |before| || (limit > 0 && |responses| == limit))
    && after == AfterFlush(before, maximum, run)
  }

  lemma FlushRunIsFlushed(before: seq<Option<PublishRequest>>, limit: int, maximum: nat, checks: nat,
      responses: seq<PublishResponse>)
    requires var run := FlushRunOf(before, limit, checks);
      run.taken <= |before| && About(responses) == Present(before[..run.taken])
    ensures var run := FlushRunOf(before, limit, checks);
      && RunFits(before, run)
      && Flushed(before, limit, maximum, run, responses, AfterFlush(before, maximum, run))
      && (checks == 0 ==> run.taken == 0)
      && (checks >= 2 * |before| ==> !run.cancelled)
  {
    if limit >= 0 {
      FlushRoundsBounds(before, limit, 0, checks);
    }
  }

  // ---- conservation ----

  /** Every queued request has a final response or is still queued, as often as it was queued. */
  predicate Conserved(before: seq<Option<PublishRequest>>, maximum: nat, run: FlushRun)
    requires RunFits(before, run)
  {
    multiset(Present(before)) == multiset(Settled(before, run)) + multiset(Present(AfterFlush(before, maximum, run)))
  }

  /** The re-queue of an interrupted request is refused. */
  predicate LosesLast(before: seq<Option<PublishRequest>>, maximum: nat, run: FlushRun) {
    run.interrupted && |before| - run.taken >= maximum
  }

  lemma RunConservesIff(before: seq<Option<PublishRequest>>, maximum: nat, run: FlushRun)
    requires RunFits(before, run)
    ensures Conserved(before, maximum, run) <==> !LosesLast(before, maximum, run)
  {
    var taken, left, requeued := before[..run.taken], before[run.taken..], Requeued(before, maximum, run);
    assert before == taken + left;
    PresentAppend(taken, left);
    PresentAppend(left, requeued);
    if run.interrupted {
      var last := before[run.taken - 1];
      PresentTake(before, run.taken - 1);
      PresentOne(last);
      Balance(Settled(before, run), last.value, Present(left), Present(requeued));
    } else {
      assert Present(requeued) == [];
      NothingLost(Present(taken), Present(left));
    }
  }

  lemma NothingLost(final: seq<PublishRequest>, left: seq<PublishRequest>)
    ensures multiset(final + left) == multiset(final) + multiset(left + [])
  {
    assert left + [] == left;
  }

  /** One request more or less on one side tips the balance. */
  lemma Balance(final: seq<PublishRequest>, last: PublishRequest, left: seq<PublishRequest>, requeued: seq<PublishRequest>)
    requires requeued == [last] || requeued == []
    ensures multiset((final + [last]) + left) == multiset(final) + multiset(left + requeued) <==> requeued == [last]
  {
    assert multiset((final + [last]) + left) == multiset(final) + multiset([last]) + multiset(left);
    assert multiset(left + requeued) == multiset(left) + multiset(requeued);
    assert multiset([last])[last] == 1;
  }

  /** The first request that the store has can be interrupted, whatever the limit. */
  lemma {:induction false} InterruptsFirst(queue: seq<Option<PublishRequest>>, limit: nat, j: nat)
    requires j < |queue| && queue[j].Some? && forall i :: 0 <= i < j ==> queue[i] == None
    ensures FlushRounds(queue, limit, 0, j + 1) == FlushRun(j + 1, true, true)
  {
    if j > 0 {
      InterruptsFirst(queue[1..], limit, j - 1);
    }
  }

  /** Whenever the flush is cancelled, it loses no request. */
  ghost predicate NeverLoses(before: seq<Option<PublishRequest>>, limit: int, maximum: nat) {
    forall checks: nat ::
      RunFits(before, FlushRunOf(before, limit, checks)) && Conserved(before, maximum, FlushRunOf(before, limit, checks))
  }

  lemma FirstPresent(queue: seq<Option<PublishRequest>>, k: nat) returns (j: nat)
    requires k < |queue| && queue[k].Some?
    ensures j <= k && queue[j].Some? && forall i :: 0 <= i < j ==> queue[i] == None
  {
    j := 0;
    while queue[j] == None
      invariant j <= k && forall i :: 0 <= i < j ==> queue[i] == None
      decreases k - j
    {
      j := j + 1;
    }
  }

  /** A flush never loses a request, whenever it is cancelled, exactly when it is to flush nothing or the store has
      already lost every request that is so far ahead in the queue that its re-queue would be refused. */
  lemma FlushConservesIff(before: seq<Option<PublishRequest>>, limit: int, maximum: nat)
    ensures NeverLoses(before, limit, maximum) <==> limit < 0 || forall j :: 0 <= j < |before| - maximum ==> before[j] == None
  {
    if limit < 0 || forall j :: 0 <= j < |before| - maximum ==> before[j] == None {
      forall checks: nat
        ensures RunFits(before, FlushRunOf(before, limit, checks)) && Conserved(before, maximum, FlushRunOf(before, limit, checks))
      {
        if limit >= 0 {
          FlushRoundsBounds(before, limit, 0, checks);
        }
        RunConservesIff(before, maximum, FlushRunOf(before, limit, checks));
      }
    } else {
      var k :| 0 <= k < |before| - maximum && before[k].Some?;
      var j := FirstPresent(before, k);
      InterruptsFirst(before, limit, j);
      RunConservesIff(before, maximum, FlushRunOf(before, limit, j + 1));
    }
  }

  predicate AllPresent(queue: seq<Option<PublishRequest>>) {
    forall i :: 0 <= i < |queue| ==> queue[i].Some?
  }

  /** With a store that loses nothing: exactly when the queue is within its limit. */
  lemma FlushConservesWithinLimit(before: seq<Option<PublishRequest>>, limit: int, maximum: nat)
    requires AllPresent(before)
    ensures NeverLoses(before, limit, maximum) <==> limit < 0 || |before| <= maximum
  {
    FlushConservesIff(before, limit, maximum);
    assert |before| > maximum ==> before[0].Some?;
  }

  /** A flush of a queue over its limit, cancelled while the first request is published: that request has no final
      response and is not queued any more. */
  lemma OverfullQueueLosesRequest(a: PublishRequest, b: PublishRequest)
    ensures var before, run := [Some(a), Some(b)], FlushRunOf([Some(a), Some(b)], 0, 1);
      && RunFits(before, run) && Settled(before, run) == [] && AfterFlush(before, 1, run) == [Some(b)]
  {
    var before := [Some(a), Some(b)];
    InterruptsFirst(before, 0, 0);
    assert before[..0] == [] && before[1..] + [] == [Some(b)];
  }

  // ---- the loop ----

  /** Between two rounds: `rest` is what is behind the `taken` entries. */
  predicate FlushedSoFar(before: seq<Option<PublishRequest>>, taken: nat, responses: seq<PublishResponse>,
      rest: seq<Option<PublishRequest>>) {
    && taken <= |before|
    && rest == before[taken..]
    && About(responses) == Present(before[..taken])
  }

  lemma FlushNothing(before: seq<Option<PublishRequest>>)
    ensures FlushedSoFar(before, 0, [], before)
  {
    assert before[0..] == before;
    assert before[..0] == [] && About([]) == [];
  }

  function Answers(response: Option<PublishResponse>): (responses: seq<PublishResponse>)
    ensures |responses| == if response.Some? then 1 else 0
  {
    if response.Some? then [response.value] else []
  }

  /** What a round leaves in the queue. */
  function AfterRound(queue: seq<Option<PublishRequest>>, maximum: nat, interrupted: bool): seq<Option<PublishRequest>>
    requires queue != []
  {
    queue[1..] + if interrupted && |queue| - 1 < maximum then [queue[0]] else []
  }

  lemma FlushAdvances(before: seq<Option<PublishRequest>>, taken: nat, responses: seq<PublishResponse>,
      queue: seq<Option<PublishRequest>>, response: Option<PublishResponse>)
    requires FlushedSoFar(before, taken, responses, queue)
    requires queue != [] && queue[0] == (if response.Some? then Some(response.value.about) else None)
    ensures FlushedSoFar(before, taken + 1, responses + Answers(response), queue[1..])
    ensures before[taken] == queue[0]
  {
    PresentTake(before, taken);
    assert About(responses + Answers(response)) == About(responses) + Kept(queue[0]);
  }

  /** Before a check: the rounds from here on complete the run. */
  predicate Ready(before: seq<Option<PublishRequest>>, limit: nat, counter: nat, checks: nat, taken: nat,
      responses: seq<PublishResponse>, rest: seq<Option<PublishRequest>>, run: FlushRun) {
    FlushedSoFar(before, taken, responses, rest) && run == Ahead(taken, FlushRounds(rest, limit, counter, checks))
  }

  /** After a check that has passed. */
  predicate Started(before: seq<Option<PublishRequest>>, limit: nat, counter: nat, checks: nat, taken: nat,
      responses: seq<PublishResponse>, rest: seq<Option<PublishRequest>>, run: FlushRun) {
    FlushedSoFar(before, taken, responses, rest) && rest != [] && run == Ahead(taken, FlushRound(rest, limit, counter, checks))
  }

  /** What the loop leaves: `last` is the queue at the start of the last round, or at the end when that was not
      interrupted. */
  predicate Looped(before: seq<Option<PublishRequest>>, run: FlushRun, maximum: nat, responses: seq<PublishResponse>,
      last: seq<Option<PublishRequest>>, after: seq<Option<PublishRequest>>) {
    && run.taken <= |before| && About(responses) == Present(before[..run.taken])
    && if run.interrupted then run.taken > 0 && last == before[run.taken - 1..] && after == AfterRound(last, maximum, true)
       else last == before[run.taken..] && after == last
  }

  lemma CheckAdvances(before: seq<Option<PublishRequest>>, limit: nat, maximum: nat, counter: nat, checks: nat, taken: nat,
      responses: seq<PublishResponse>, rest: seq<Option<PublishRequest>>, run: FlushRun)
    requires Ready(before, limit, counter, checks, taken, responses, rest, run)
    ensures if BelowLimit(limit, counter) && rest != [] && checks > 0
      then Started(before, limit, counter, checks - 1, taken, responses, rest, run)
      else Looped(before, run, maximum, responses, rest, rest)
  {
  }

  lemma RoundAdvances(before: seq<Option<PublishRequest>>, limit: nat, maximum: nat, counter: nat, checks: nat, taken: nat,
      responses: seq<PublishResponse>, rest: seq<Option<PublishRequest>>, run: FlushRun, response: Option<PublishResponse>)
    requires Started(before, limit, counter, checks, taken, responses, rest, run)
    requires rest[0] == if response.Some? then Some(response.value.about) else None
    ensures if response.Some? && checks == 0 then Looped(before, run, maximum, responses + Answers(response), rest, AfterRound(rest, maximum, true))
      else Ready(before, limit, counter + |Answers(response)|, checks - |Answers(response)|, taken + 1, responses + Answers(response), rest[1..], run)
  {
    FlushAdvances(before, taken, responses, rest, response);
  }

  lemma LoopedIsFlushed(before: seq<Option<PublishRequest>>, limit: int, maximum: nat, checks: nat,
      responses: seq<PublishResponse>, last: seq<Option<PublishRequest>>, after: seq<Option<PublishRequest>>)
    requires Looped(before, FlushRunOf(before, limit, checks), maximum, responses, last, after)
    ensures Flushed(before, limit, maximum, FlushRunOf(before, limit, checks), responses, after)
  {
    FlushRunIsFlushed(before, limit, maximum, checks, responses);
    HeadAndTail(last);
  }

  /** A request to cancel, which arrives at any moment and is never taken back. The moment is told by how many more
      checks for it are going to answer no. */
  class CancellationContext {
    var checksLeft: nat

    constructor (checks: nat)
      ensures checksLeft == checks
    {
      checksLeft := checks;
    }

    method IsCancelled() returns (cancelled: bool)
      modifies this
      ensures cancelled <==> old(checksLeft) == 0
      ensures checksLeft == if cancelled then 0 else old(checksLeft) - 1
    {
      cancelled := checksLeft == 0;
      if !cancelled {
        checksLeft := checksLeft - 1;
      }
    }
  }

  class StreamLayerClient {
    var store: Store
    const hasCache: bool
    const listKey: string
    const maximumRequests: nat

    ghost predicate Valid()
      reads this
    {
      WellFormed(store, listKey)
    }

    ghost function Queued(): seq<Option<PublishRequest>>
      reads this
    {
      Contents(store, listKey)
    }

    constructor (hasCache: bool, listKey: string, maximumRequests: nat)
      ensures Valid() && Queued() == []
      ensures this.hasCache == hasCache && this.listKey == listKey && this.maximumRequests == maximumRequests
    {
      this.hasCache, this.listKey, this.maximumRequests := hasCache, listKey, maximumRequests;
      store := map[];
    }

    method QueueSize() returns (n: nat)
      requires hasCache && Valid()
      ensures n == |Queued()|
    {
      n := 0;
      if listKey in store {
        n := CountCommas(store[listKey].text);
      }
    }

    /** Appends an acceptable request under a new key while there is room. */
    method Queue(request: PublishRequest, uuid: string) returns (error: Option<string>)
      requires Valid() && Fresh(store, listKey, uuid)
      modifies this`store
      ensures Valid()
      ensures error == None <==> hasCache && Acceptable(request) && |old(Queued())| < maximumRequests
      ensures error == None ==> Queued() == old(Queued()) + [Some(request)]
      ensures error == None ==> store == Appended(old(store), listKey, uuid, request)
      ensures error.Some? ==> store == old(store)
    {
      if !hasCache {
        return Some("No cache provided to StreamLayerClient");
      }
      if request.data == None {
        return Some("PublishDataRequest does not contain any Data");
      }
      if request.layerId == "" {
        return Some("PublishDataRequest does not contain a Layer ID");
      }
      var size := QueueSize();
      if !(size < maximumRequests) {
        return Some("Maximum number of requests has reached");
      }
      AppendRefines(store, listKey, uuid, request);
      store := store[uuid := Data(request)];
      var uuidList := "";
      if listKey in store {
        uuidList := store[listKey].text;
      }
      uuidList := uuidList + uuid + ",";
      store := store[listKey := Text(uuidList)];
      return None;
    }

    /** Takes the first key out and answers with its request, or with nothing when the store has lost it. */
    method PopFromQueue() returns (request: Option<PublishRequest>)
      requires hasCache && Valid()
      modifies this`store
      ensures Valid()
      ensures request == if old(Queued()) == [] then None else old(Queued())[0]
      ensures Queued() == if old(Queued()) == [] then [] else old(Queued())[1..]
      ensures store == WithoutHead(old(store), listKey)
    {
      WithoutHeadRefines(store, listKey);
      if listKey !in store {
        return None;
      }
      var uuidList := store[listKey].text;
      var pos := FindComma(uuidList);
      if pos == |uuidList| {
        return None;
      }
      WithoutHeadUnlistsKey(store, listKey);
      var key := uuidList[..pos];
      request := Fetch(store, key);
      store := store - {key};
      uuidList := uuidList[pos + 1..];
      store := store[listKey := Text(uuidList)];
    }

    /** Publishing: whatever comes back answers the request that was sent. */
    method PublishDataTask(request: PublishRequest) returns (response: PublishResponse)
      ensures response.about == request
    {
      var outcome: int := *;
      response := PublishResponse(request, outcome);
    }

    /** The condition of the flush loop, evaluated from left to right. */
    method MayContinue(limit: nat, counter: nat, context: CancellationContext) returns (go: bool)
      requires hasCache && Valid()
      modifies context
      ensures var asks := BelowLimit(limit, counter) && Queued() != [];
        && (go <==> asks && old(context.checksLeft) > 0)
        && context.checksLeft == if go then old(context.checksLeft) - 1 else old(context.checksLeft)
    {
      go := limit == 0 || counter < limit;
      if go {
        var size := QueueSize();
        go := size > 0;
      }
      if go {
        var cancelled := context.IsCancelled();
        go := !cancelled;
      }
    }

    /** The body of the flush loop. The answer is the response, if there was a request to publish. */
    method FlushNext(context: CancellationContext, uuid: string)
      returns (response: Option<PublishResponse>, interrupted: bool)
      requires hasCache && Valid() && Fresh(store, listKey, uuid) && Queued() != []
      modifies this`store, context
      ensures Valid()
      ensures old(Queued())[0] == if response.Some? then Some(response.value.about) else None
      ensures interrupted <==> response.Some? && old(context.checksLeft) == 0
      ensures context.checksLeft == if response.Some? && !interrupted then old(context.checksLeft) - 1 else old(context.checksLeft)
      ensures Queued() == AfterRound(old(Queued()), maximumRequests, interrupted)
      ensures !interrupted ==> Fresh(store, listKey, uuid)
    {
      WithoutHeadKeepsFresh(store, listKey, uuid);
      HeadIsAcceptable(store, listKey);
      var request := PopFromQueue();
      if request == None {
        return None, false;
      }
      var published := PublishDataTask(request.value);
      response := Some(published);
      interrupted := context.IsCancelled();
      if interrupted {
        var error := Queue(request.value, uuid);
      }
    }

    /** The flush loop. `last` is the queue at the start of the last round, or at the end when that was not
        interrupted. */
    method FlushLoop(limit: nat, context: CancellationContext, uuid: string)
      returns (responses: seq<PublishResponse>, ghost last: seq<Option<PublishRequest>>)
      requires hasCache && Valid() && Fresh(store, listKey, uuid)
      modifies this`store, context
      ensures Valid()
      ensures Looped(old(Queued()), FlushRounds(old(Queued()), limit, 0, old(context.checksLeft)), maximumRequests, responses, last, Queued())
    {
      ghost var before, checks, taken: nat := Queued(), context.checksLeft, 0;
      ghost var run := FlushRounds(before, limit, 0, checks);
      responses, last := [], before;
      FlushNothing(before);
      var counter: nat := 0;
      while true
        invariant Valid() && Fresh(store, listKey, uuid) && Queued() == last
        invariant Ready(before, limit, counter, context.checksLeft, taken, responses, last, run)
        decreases |last|
      {
        CheckAdvances(before, limit, maximumRequests, counter, context.checksLeft, taken, responses, last, run);
        var go := MayContinue(limit, counter, context);
        if !go {
          break;
        }
        checks := context.checksLeft;
        var response, interrupted := FlushNext(context, uuid);
        RoundAdvances(before, limit, maximumRequests, counter, checks, taken, responses, last, run, response);
        taken, responses := taken + 1, responses + Answers(response);
        if interrupted {
          break;
        }
        last := last[1..];
        counter := counter + |Answers(response)|;
      }
    }

    /** Publishes queued requests, at most `limit` of them, or all for 0, until the context is cancelled. A request
        whose publishing is cancelled goes to the end of the queue under the key `uuid`. */
    method Flush(limit: int, context: CancellationContext, uuid: string)
      returns (responses: seq<PublishResponse>, ghost run: FlushRun)
      requires hasCache && Valid() && Fresh(store, listKey, uuid)
      modifies this`store, context
      ensures Valid()
      ensures run == FlushRunOf(old(Queued()), limit, old(context.checksLeft))
      ensures Flushed(old(Queued()), limit, maximumRequests, run, responses, Queued())
    {
      ghost var before, last := Queued(), Queued();
      run := FlushRunOf(before, limit, context.checksLeft);
      responses := [];
      FlushNothing(before);
      if limit >= 0 {
        responses, last := FlushLoop(limit, context, uuid);
      }
      LoopedIsFlushed(before, limit, maximumRequests, old(context.checksLeft), responses, last, Queued());
    }
  }
}
