/** Several threads at one publish queue. Queue tests the size under one lock hold and appends under another, so the
    steps of different callers, and pops, come in any order between the two. */
module QueueBound {
  import opened Options
  import opened PublishQueue

  /** `callers[i]` is the request of a caller that has passed the size test and has not appended yet. */
  datatype State = State(queue: seq<Option<PublishRequest>>, callers: seq<Option<PublishRequest>>)

  datatype Action = Test(caller: nat, request: PublishRequest) | Put(caller: nat) | Take

  predicate Enabled(s: State, action: Action) {
    match action
    case Test(i, request) => i < |s.callers| && s.callers[i] == None
    case Put(i) => i < |s.callers| && s.callers[i].Some?
    case Take => true
  }

  /** A caller that does not pass its test returns an error and is outside again. */
  function Act(s: State, action: Action, maximum: nat): State
    requires Enabled(s, action)
  {
    match action
    case Test(i, request) =>
      if Acceptable(request) && |s.queue| < maximum then s.(callers := s.callers[i := Some(request)]) else s
    case Put(i) => State(s.queue + [s.callers[i]], s.callers[i := None])
    case Take => if s.queue == [] then s else s.(queue := s.queue[1..])
  }

  predicate EnabledRun(s: State, actions: seq<Action>, maximum: nat)
    decreases actions
  {
    actions == [] || (Enabled(s, actions[0]) && EnabledRun(Act(s, actions[0], maximum), actions[1..], maximum))
  }

  function ActAll(s: State, actions: seq<Action>, maximum: nat): State
    requires EnabledRun(s, actions, maximum)
    decreases actions
  {
    if actions == [] then s else ActAll(Act(s, actions[0], maximum), actions[1..], maximum)
  }

  function Passed(callers: seq<Option<PublishRequest>>): (n: nat)
    ensures n <= |callers|
  {
    if callers == [] then 0 else (if callers[0].Some? then 1 else 0) + Passed(callers[1..])
  }

  lemma {:induction false} PassedUpdate(callers: seq<Option<PublishRequest>>, i: nat, caller: Option<PublishRequest>)
    requires i < |callers|
    ensures Passed(callers[i := caller]) - (if caller.Some? then 1 else 0) == Passed(callers) - (if callers[i].Some? then 1 else 0)
    ensures callers[i] == None ==> Passed(callers) < |callers|
  {
    if i == 0 {
      assert callers[0 := caller][1..] == callers[1..];
    } else {
      assert callers[i := caller][1..] == callers[1..][i - 1 := caller];
      PassedUpdate(callers[1..], i - 1, caller);
    }
  }

  /** Counts a caller that has passed its test as if it had appended already. */
  predicate WithinBound(s: State, maximum: nat) {
    |s.queue| + Passed(s.callers) <= maximum + |s.callers| - 1
  }

  lemma ActKeepsBound(s: State, action: Action, maximum: nat)
    requires Enabled(s, action) && WithinBound(s, maximum)
    ensures WithinBound(Act(s, action, maximum), maximum)
  {
    match action
    case Test(i, request) => PassedUpdate(s.callers, i, Some(request));
    case Put(i) => PassedUpdate(s.callers, i, None);
    case Take =>
  }

  /** Callers that start when the queue is within its limit never make it longer than the limit and one request for
      each further caller. */
  lemma {:induction false} QueueStaysWithinBound(s: State, actions: seq<Action>, maximum: nat)
    requires EnabledRun(s, actions, maximum) && WithinBound(s, maximum)
    ensures WithinBound(ActAll(s, actions, maximum), maximum)
    ensures |ActAll(s, actions, maximum).queue| <= maximum + |s.callers| - 1
    decreases actions
  {
    if actions != [] {
      ActKeepsBound(s, actions[0], maximum);
      QueueStaysWithinBound(Act(s, actions[0], maximum), actions[1..], maximum);
    }
  }

  // ---- the bound is reached ----

  /** `n` callers, the first `k` of which have passed their tests. */
  function Waiting(k: nat, n: nat, request: PublishRequest): (callers: seq<Option<PublishRequest>>)
    ensures |callers| == n
  {
    seq(n, i => if i < k then Some(request) else None)
  }

  function Copies(k: nat, request: PublishRequest): (queue: seq<Option<PublishRequest>>)
    ensures |queue| == k
  {
    seq(k, i => Some(request))
  }

  /** One caller queues `k` requests. */
  function QueueAlone(k: nat, request: PublishRequest): seq<Action> {
    if k == 0 then [] else QueueAlone(k - 1, request) + [Test(0, request), Put(0)]
  }

  /** The first `k` callers test, one after the other. */
  function Tests(k: nat, request: PublishRequest): seq<Action> {
    if k == 0 then [] else Tests(k - 1, request) + [Test(k - 1, request)]
  }

  /** The first `k` callers append. */
  function Puts(k: nat): seq<Action> {
    if k == 0 then [] else [Put(k - 1)] + Puts(k - 1)
  }

  lemma {:induction false} RunsCompose(s: State, first: seq<Action>, later: seq<Action>, maximum: nat)
    requires EnabledRun(s, first, maximum) && EnabledRun(ActAll(s, first, maximum), later, maximum)
    ensures EnabledRun(s, first + later, maximum)
    ensures ActAll(s, first + later, maximum) == ActAll(ActAll(s, first, maximum), later, maximum)
    decreases first
  {
    if first == [] {
      assert first + later == later;
    } else {
      assert (first + later)[1..] == first[1..] + later;
      RunsCompose(Act(s, first[0], maximum), first[1..], later, maximum);
    }
  }

  lemma RunOne(s: State, action: Action, maximum: nat)
    requires Enabled(s, action)
    ensures EnabledRun(s, [action], maximum) && ActAll(s, [action], maximum) == Act(s, action, maximum)
  {
    assert [action][1..] == [];
    assert EnabledRun(Act(s, action, maximum), [], maximum);
  }

  lemma {:induction false} QueueAloneRuns(k: nat, n: nat, maximum: nat, request: PublishRequest)
    requires k <= maximum && n > 0 && Acceptable(request)
    ensures var s := State([], Waiting(0, n, request));
      && EnabledRun(s, QueueAlone(k, request), maximum)
      && ActAll(s, QueueAlone(k, request), maximum) == State(Copies(k, request), Waiting(0, n, request))
  {
    var s := State([], Waiting(0, n, request));
    if k == 0 {
      assert Copies(0, request) == [];
    } else {
      QueueAloneRuns(k - 1, n, maximum, request);
      var t := State(Copies(k - 1, request), Waiting(0, n, request));
      QueueOnce(t, n, maximum, request);
      assert Copies(k - 1, request) + [Some(request)] == Copies(k, request);
      RunsCompose(s, QueueAlone(k - 1, request), [Test(0, request), Put(0)], maximum);
    }
  }

  lemma QueueOnce(s: State, n: nat, maximum: nat, request: PublishRequest)
    requires s.callers == Waiting(0, n, request) && |s.queue| < maximum && n > 0 && Acceptable(request)
    ensures EnabledRun(s, [Test(0, request), Put(0)], maximum)
    ensures ActAll(s, [Test(0, request), Put(0)], maximum) == s.(queue := s.queue + [Some(request)])
  {
    var tested := Act(s, Test(0, request), maximum);
    assert tested.callers[0 := None] == s.callers;
    RunOne(s, Test(0, request), maximum);
    RunOne(tested, Put(0), maximum);
    RunsCompose(s, [Test(0, request)], [Put(0)], maximum);
    assert [Test(0, request)] + [Put(0)] == [Test(0, request), Put(0)];
  }

  lemma {:induction false} TestsRun(queue: seq<Option<PublishRequest>>, k: nat, n: nat, maximum: nat, request: PublishRequest)
    requires k <= n && |queue| < maximum && Acceptable(request)
    ensures var s := State(queue, Waiting(0, n, request));
      && EnabledRun(s, Tests(k, request), maximum)
      && ActAll(s, Tests(k, request), maximum) == State(queue, Waiting(k, n, request))
  {
    var s := State(queue, Waiting(0, n, request));
    if k > 0 {
      TestsRun(queue, k - 1, n, maximum, request);
      var t := State(queue, Waiting(k - 1, n, request));
      RunOne(t, Test(k - 1, request), maximum);
      assert t.callers[k - 1 := Some(request)] == Waiting(k, n, request);
      RunsCompose(s, Tests(k - 1, request), [Test(k - 1, request)], maximum);
    }
  }

  lemma {:induction false} PutsRun(queue: seq<Option<PublishRequest>>, k: nat, n: nat, maximum: nat, request: PublishRequest)
    requires k <= n
    ensures var s := State(queue, Waiting(k, n, request));
      && EnabledRun(s, Puts(k), maximum)
      && ActAll(s, Puts(k), maximum) == State(queue + Copies(k, request), Waiting(0, n, request))
    decreases k
  {
    var s := State(queue, Waiting(k, n, request));
    if k == 0 {
      assert queue + Copies(0, request) == queue;
    } else {
      RunOne(s, Put(k - 1), maximum);
      assert s.callers[k - 1 := None] == Waiting(k - 1, n, request);
      PutsRun(queue + [Some(request)], k - 1, n, maximum, request);
      assert queue + [Some(request)] + Copies(k - 1, request) == queue + Copies(k, request);
      RunsCompose(s, [Put(k - 1)], Puts(k - 1), maximum);
    }
  }

  /** `n` callers at an empty queue with a limit of at least one can make it any length up to the bound, and no other. */
  lemma ReachableLengths(length: nat, n: nat, maximum: nat, request: PublishRequest)
    requires n > 0 && maximum > 0 && Acceptable(request)
    ensures length <= maximum + n - 1 <==> Reachable(length, n, maximum, request)
  {
    var s := State([], Waiting(0, n, request));
    if length <= maximum + n - 1 {
      var alone := if length < maximum then length else maximum - 1;
      var k := length - alone;
      QueueAloneRuns(alone, n, maximum, request);
      var queue := Copies(alone, request);
      TestsRun(queue, k, n, maximum, request);
      PutsRun(queue, k, n, maximum, request);
      RunsCompose(State(queue, Waiting(0, n, request)), Tests(k, request), Puts(k), maximum);
      RunsCompose(s, QueueAlone(alone, request), Tests(k, request) + Puts(k), maximum);
      assert |queue + Copies(k, request)| == length;
    }
    if Reachable(length, n, maximum, request) {
      var actions :| EnabledRun(s, actions, maximum) && |ActAll(s, actions, maximum).queue| == length;
      NobodyPassed(n, request);
      QueueStaysWithinBound(s, actions, maximum);
    }
  }

  ghost predicate Reachable(length: nat, n: nat, maximum: nat, request: PublishRequest) {
    var s := State([], Waiting(0, n, request));
    exists actions :: EnabledRun(s, actions, maximum) && |ActAll(s, actions, maximum).queue| == length
  }

  lemma {:induction false} NobodyPassed(n: nat, request: PublishRequest)
    ensures Passed(Waiting(0, n, request)) == 0
  {
    if n > 0 {
      assert Waiting(0, n, request)[1..] == Waiting(0, n - 1, request);
      NobodyPassed(n - 1, request);
    }
  }

  // ---- what the bound means for a flush ----

  lemma {:induction false} RunKeepsRequests(s: State, actions: seq<Action>, maximum: nat)
    requires EnabledRun(s, actions, maximum) && AllPresent(s.queue)
    ensures AllPresent(ActAll(s, actions, maximum).queue)
    decreases actions
  {
    if actions != [] {
      assert AllPresent(Act(s, actions[0], maximum).queue);
      RunKeepsRequests(Act(s, actions[0], maximum), actions[1..], maximum);
    }
  }

  /** Whatever the callers do, no flush loses a request. */
  ghost predicate FlushIsSafe(n: nat, maximum: nat, limit: int, request: PublishRequest) {
    var s := State([], Waiting(0, n, request));
    forall actions :: EnabledRun(s, actions, maximum) ==> NeverLoses(ActAll(s, actions, maximum).queue, limit, maximum)
  }

  /** After the calls of one caller no flush loses a request. After those of two or more, one can. */
  lemma FlushIsSafeIff(n: nat, maximum: nat, limit: nat, request: PublishRequest)
    requires n > 0 && maximum > 0 && Acceptable(request)
    ensures FlushIsSafe(n, maximum, limit, request) <==> n == 1
  {
    var s := State([], Waiting(0, n, request));
    NobodyPassed(n, request);
    if n == 1 {
      forall actions | EnabledRun(s, actions, maximum)
        ensures NeverLoses(ActAll(s, actions, maximum).queue, limit, maximum)
      {
        QueueStaysWithinBound(s, actions, maximum);
        RunKeepsRequests(s, actions, maximum);
        FlushConservesWithinLimit(ActAll(s, actions, maximum).queue, limit, maximum);
      }
    } else {
      ReachableLengths(maximum + 1, n, maximum, request);
      assert Reachable(maximum + 1, n, maximum, request);
      var actions :| EnabledRun(s, actions, maximum) && |ActAll(s, actions, maximum).queue| == maximum + 1;
      RunKeepsRequests(s, actions, maximum);
      FlushConservesWithinLimit(ActAll(s, actions, maximum).queue, limit, maximum);
    }
  }
}
