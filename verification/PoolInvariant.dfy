/** The pool's invariant in every reachable state, and what it means for callers. */
module PoolInvariant {
  import opened WorkerPool
  import opened PoolSafety
  import opened PoolLedger
  import opened PoolOrder
  import opened PoolWakeups
  import opened Tally

  predicate Invariant(c: Config, s: State) {
    Safe(c, s) && Ledger(c, s) && Order(c, s) && Wakeups(c, s)
  }

  lemma InitialInvariant(c: Config, clients: nat)
    requires ValidConfig(c)
    ensures Invariant(c, Initial(c, clients))
  {
    var s := Initial(c, clients);
    BagEmpty(s.workers, Undispatched);
    BagEmpty(s.workers, Finished);
  }

  lemma StepKeepsInvariant(c: Config, s: State, l: Label)
    requires Invariant(c, s) && Enabled(s, l)
    ensures Invariant(c, Fire(c, s, l))
  {
    hide Locks, Guards, Ledger, Order, Wakeups, Fire, Enabled;
    StepKeepsSafe(c, s, l);
    StepKeepsLedger(c, s, l);
    StepKeepsOrder(c, s, l);
    StepKeepsWakeups(c, s, l);
  }

  lemma {:induction false} RunKeepsInvariant(c: Config, s: State, ls: seq<Label>)
    requires Invariant(c, s) && Run(c, s, ls)
    ensures Invariant(c, After(c, s, ls))
    decreases |ls|
  {
    if ls != [] {
      StepKeepsInvariant(c, s, ls[0]);
      RunKeepsInvariant(c, Fire(c, s, ls[0]), ls[1..]);
    }
  }

  /** Mutual exclusion, bounds, conservation, order and wake-ups hold however the threads interleave. */
  lemma ReachableInvariant(c: Config, s: State)
    requires ValidConfig(c) && Reachable(c, s)
    ensures Invariant(c, s)
  {
    var clients: nat, ls :| Run(c, Initial(c, clients), ls) && After(c, Initial(c, clients), ls) == s;
    InitialInvariant(c, clients);
    RunKeepsInvariant(c, Initial(c, clients), ls);
  }

  /** No lost wake-ups: while, before stop, a task is pending and a worker blocked for tasks, a notification of
      task_cv is due or a worker is on its way to the queue; while, before or after stop, there is room and a
      worker is blocked for room, a popper's notify_all is due. */
  lemma NoLostWakeups(c: Config, s: State)
    requires ValidConfig(c) && Reachable(c, s)
    ensures !s.stop && s.tasks != [] && SomeTaskWaiter(s) ==> TaskNotifierDue(s)
    ensures |s.results| < c.resultCapacity && SomeResultWaiter(s) ==> SpaceNotifierDue(s)
  {
    hide Safe, Ledger, Order, Reachable;
    ReachableInvariant(c, s);
  }

  // ---------------------------------------------------------------- the source's own assertions

  /** What the source asserts around the step l from s to t. */
  predicate SourceAsserts(c: Config, s: State, l: Label, t: State) {
    match l
    case Act(j, _) =>
      j < |s.clients| ==>
        && (s.clients[j].SubmitQueue? ==> |t.tasks| <= c.taskCapacity)
        && (s.clients[j].PopLock? && s.results != [] ==> |t.results| < c.resultCapacity)
    case Work(i, _) =>
      i < |s.workers| ==>
        && (s.workers[i].TakeTask? ==> |t.tasks| <= c.taskCapacity)
        && (s.workers[i].Evict? ==> |t.results| < c.resultCapacity)
        && (s.workers[i].Push? ==> |s.results| < c.resultCapacity && |t.results| <= c.resultCapacity)
    case _ => true
  }

  lemma WorkerAssertsHold(c: Config, s: State, i: nat, k: nat)
    requires Safe(c, s) && Enabled(s, Work(i, k))
    ensures SourceAsserts(c, s, Work(i, k), WorkerStep(c, s, i, k))
  {
    WorkerStepKeepsOwnKnowledge(c, s, i, k);
    assert WorkerKnows(c, s, s.workers[i]);
    hide Safe, TaskSideStep, Handle, SameOrWoken;
  }

  lemma ClientAssertsHold(c: Config, s: State, j: nat, k: nat)
    requires Safe(c, s) && Enabled(s, Act(j, k))
    ensures SourceAsserts(c, s, Act(j, k), ClientStep(c, s, j, k))
  {
    ClientStepKeepsGuards(c, s, j, k);
    hide Locks, WorkerKnows, SameOrWoken;
  }

  lemma SourceAssertsHold(c: Config, s: State, l: Label)
    requires ValidConfig(c) && Reachable(c, s) && Enabled(s, l)
    ensures SourceAsserts(c, s, l, Fire(c, s, l))
  {
    ReachableInvariant(c, s);
    hide Safe, Ledger, Order, Wakeups, Reachable, ClientStep, WorkerStep;
    match l
    case Work(i, k) => WorkerAssertsHold(c, s, i, k);
    case Act(j, k) => ClientAssertsHold(c, s, j, k);
    case _ =>
  }

  /** A worker never finds the predicate true, the queue empty and the stop flag clear: the `continue` is dead. */
  lemma ContinueIsDead(c: Config, s: State, i: nat)
    requires ValidConfig(c) && Reachable(c, s) && i < |s.workers| && s.workers[i].TakeTask? && s.tasks == []
    ensures s.stop
  {
    ReachableInvariant(c, s);
    assert WorkerKnows(c, s, s.workers[i]);
  }

  // ---------------------------------------------------------------- conservation

  lemma WithoutOne<T>(xs: seq<T>, i: nat)
    requires i < |xs|
    ensures multiset(xs) == multiset(xs[..i] + xs[i + 1..]) + multiset{xs[i]}
  {
    assert xs == xs[..i] + [xs[i]] + xs[i + 1..];
  }

  /** The answers without the one to task i. */
  lemma AnswersWithout(c: Config, b: seq<Task>, i: nat)
    requires i < |b|
    ensures multiset(HandleAll(c, b)) == multiset(HandleAll(c, b[..i] + b[i + 1..])) + multiset{Handle(c, b[i])}
  {
    var handled := HandleAll(c, b);
    WithoutOne(handled, i);
    assert HandleAll(c, b[..i] + b[i + 1..]) == handled[..i] + handled[i + 1..];
  }

  lemma AnswersWithoutFirst(c: Config, a: seq<Task>)
    requires a != []
    ensures multiset(HandleAll(c, a)) == multiset(HandleAll(c, a[1..])) + multiset{Handle(c, a[0])}
  {
    assert HandleAll(c, a) == [Handle(c, a[0])] + HandleAll(c, a[1..]);
    hide HandleAll, Handle;
  }

  lemma MatchFirst(a: seq<Task>, b: seq<Task>) returns (i: nat)
    requires multiset(a) == multiset(b) && a != []
    ensures i < |b| && b[i] == a[0] && multiset(a[1..]) == multiset(b[..i] + b[i + 1..])
  {
    assert a[0] in multiset(b);
    i :| 0 <= i < |b| && b[i] == a[0];
    WithoutOne(b, i);
    assert a == [a[0]] + a[1..];
    assert multiset(a[1..]) == multiset(a) - multiset{a[0]};
    assert multiset(b[..i] + b[i + 1..]) == multiset(b) - multiset{b[i]};
  }

  lemma {:induction false} HandleAllBag(c: Config, a: seq<Task>, b: seq<Task>)
    requires multiset(a) == multiset(b)
    ensures multiset(HandleAll(c, a)) == multiset(HandleAll(c, b))
    decreases |a|
  {
    hide HandleAll, Handle;
    if a == [] {
      assert |multiset(b)| == 0;
    } else {
      var i := MatchFirst(a, b);
      HandleAllBag(c, a[1..], b[..i] + b[i + 1..]);
      AnswersWithout(c, b, i);
      AnswersWithoutFirst(c, a);
    }
  }

  function UndispatchedTasks(ws: seq<WorkerPc>): seq<Task> {
    if ws == [] then []
    else (match ws[0] case NotifyTaken(t) => [t] case Dispatching(t) => [t] case _ => []) + UndispatchedTasks(ws[1..])
  }

  lemma {:induction false} UndispatchedTasksBag(ws: seq<WorkerPc>)
    ensures multiset(UndispatchedTasks(ws)) == BagOf(ws, Undispatched)
    decreases |ws|
  {
    if ws != [] {
      UndispatchedTasksBag(ws[1..]);
    }
  }

  lemma HandleAllParts(c: Config, whole: seq<Task>, a: seq<Task>, b: seq<Task>, d: seq<Task>)
    requires multiset(whole) == multiset(a) + multiset(b) + multiset(d)
    ensures multiset(HandleAll(c, whole))
         == multiset(HandleAll(c, a)) + multiset(HandleAll(c, b)) + multiset(HandleAll(c, d))
  {
    HandleAllBag(c, whole, a + b + d);
    assert HandleAll(c, a + b + d) == HandleAll(c, a) + HandleAll(c, b) + HandleAll(c, d);
  }

  /** Where the answers to the accepted tasks are. */
  ghost function Whereabouts(c: Config, s: State): multiset<Result> {
    multiset(HandleAll(c, s.tasks))
    + multiset(HandleAll(c, UndispatchedTasks(s.workers)))
    + BagOf(s.workers, Finished)
    + multiset(s.results)
    + multiset(s.log.popped)
    + multiset(HandleAll(c, s.log.evictedTasks))
    + multiset(s.log.evictedResults)
    + multiset(s.log.discarded)
  }

  /** Conservation: under every policy and interleaving the accepted tasks, with their correlation ids,
      are pending, held by workers, queued as results, popped, evicted or discarded at stop, each exactly
      once; and every task is dispatched at most once. */
  lemma Conservation(c: Config, s: State)
    requires ValidConfig(c) && Reachable(c, s)
    ensures multiset(HandleAll(c, s.log.accepted)) == Whereabouts(c, s)
    ensures multiset(s.log.dispatched) <= multiset(s.log.accepted)
    ensures multiset(s.log.popped) <= multiset(HandleAll(c, s.log.accepted))
  {
    ReachableInvariant(c, s);
    hide Safe, Order, Wakeups, Reachable, HandleAll, UndispatchedTasks, BagOf;
    HandleAllParts(c, s.log.accepted, s.log.evictedTasks, s.log.dequeued, s.tasks);
    UndispatchedTasksBag(s.workers);
    NoTasksNoResults(c);
    HandleAllParts(c, s.log.dequeued, UndispatchedTasks(s.workers), s.log.dispatched, []);
  }

  lemma NoTasksNoResults(c: Config)
    ensures HandleAll(c, []) == []
  {
  }

  lemma FinishedHandIsSmall(ws: seq<WorkerPc>)
    ensures |BagOf(ws, Undispatched)| + |BagOf(ws, Finished)| <= |ws|
    decreases |ws|
  {
    if ws != [] {
      FinishedHandIsSmall(ws[1..]);
    }
  }

  /** Back-pressure: under the lossless policies and before stop, at most task capacity + workers +
      result capacity accepted tasks are still unanswered. */
  lemma BackPressure(c: Config, s: State)
    requires ValidConfig(c) && Reachable(c, s) && Lossless(c) && !s.stop
    ensures |s.tasks| <= c.taskCapacity && |s.results| <= c.resultCapacity
    ensures |s.log.accepted| - |s.log.popped| <= c.taskCapacity + c.workers + c.resultCapacity
  {
    ReachableInvariant(c, s);
    FinishedHandIsSmall(s.workers);
    hide Locks, Wakeups, Reachable, Subsequence, BagOf, LoneWorkerOrder;
    assert |s.log.dequeued| == |BagOf(s.workers, Undispatched)| + |s.log.dispatched| by {
      assert |multiset(s.log.dequeued)| == |BagOf(s.workers, Undispatched) + multiset(s.log.dispatched)|;
    }
    assert |s.log.dispatched| == |BagOf(s.workers, Finished)| + |s.log.published| by {
      assert |multiset(HandleAll(c, s.log.dispatched))| == |BagOf(s.workers, Finished) + multiset(s.log.published)|;
    }
  }

  // ---------------------------------------------------------------- order of the answers

  lemma {:induction false} HandlingKeepsSubsequence(c: Config, xs: seq<Task>, ys: seq<Task>)
    requires Subsequence(xs, ys)
    ensures Subsequence(HandleAll(c, xs), HandleAll(c, ys))
    decreases |ys|
  {
    if xs != [] {
      var x0, y0 := xs[..|xs| - 1], ys[..|ys| - 1];
      assert HandleAll(c, ys) == HandleAll(c, y0) + [Handle(c, ys[|ys| - 1])];
      if xs[|xs| - 1] == ys[|ys| - 1] && Subsequence(x0, y0) {
        HandlingKeepsSubsequence(c, x0, y0);
        assert HandleAll(c, xs) == HandleAll(c, x0) + [Handle(c, xs[|xs| - 1])];
        hide Subsequence;
        SubsequenceKeep(HandleAll(c, x0), HandleAll(c, y0), Handle(c, ys[|ys| - 1]));
      } else {
        HandlingKeepsSubsequence(c, xs, y0);
        hide Subsequence;
        SubsequenceSkip(HandleAll(c, xs), HandleAll(c, y0), Handle(c, ys[|ys| - 1]));
      }
    }
  }

  lemma PrefixChain<T>(xs: seq<T>, rest: seq<T>, ys: seq<T>, zs: seq<T>)
    requires ys == xs + rest && ys <= zs
    ensures xs <= zs
  {
  }

  lemma HandlingKeepsPrefix(c: Config, xs: seq<Task>, ys: seq<Task>)
    requires xs <= ys
    ensures HandleAll(c, xs) <= HandleAll(c, ys)
  {
  }

  lemma LoneWorkerSubsequence(c: Config, s: State)
    requires Order(c, s) && c.workers == 1
    ensures Subsequence(s.log.popped + s.results, HandleAll(c, s.log.accepted))
  {
    hide Subsequence, HandleAll, InHand;
    var answers := HandleAll(c, s.log.dequeued);
    var published, held := s.log.published, s.log.discarded + InHand(c, s.workers[0]);
    assert published + s.log.discarded + InHand(c, s.workers[0]) == published + held;
    PrefixIsSubsequence(published, answers);
    SubsequenceTrans(s.log.popped + s.results, published, answers);
    PrefixIsSubsequence(s.log.dequeued, s.log.dequeued + s.tasks);
    SubsequenceTrans(s.log.dequeued, s.log.dequeued + s.tasks, s.log.accepted);
    HandlingKeepsSubsequence(c, s.log.dequeued, s.log.accepted);
    SubsequenceTrans(s.log.popped + s.results, answers, HandleAll(c, s.log.accepted));
  }

  lemma LoneWorkerPrefix(c: Config, s: State)
    requires Order(c, s) && c.workers == 1 && Lossless(c)
    ensures s.log.popped + s.results <= HandleAll(c, s.log.accepted)
  {
    hide Subsequence, HandleAll, InHand;
    var published, held := s.log.published, s.log.discarded + InHand(c, s.workers[0]);
    assert published + s.log.discarded + InHand(c, s.workers[0]) == published + held;
    HandlingKeepsPrefix(c, s.log.dequeued, s.log.accepted);
    PrefixChain(published, held, HandleAll(c, s.log.dequeued), HandleAll(c, s.log.accepted));
  }

  /** With one worker, what has been popped followed by what is queued is, under the lossless policies, a
      prefix of the answers to the accepted tasks, also across stop; under any policy it is a
      subsequence of them. */
  lemma LoneWorkerAnswersInOrder(c: Config, s: State)
    requires ValidConfig(c) && Reachable(c, s) && c.workers == 1
    ensures Lossless(c) ==> s.log.popped + s.results <= HandleAll(c, s.log.accepted)
    ensures Subsequence(s.log.popped + s.results, HandleAll(c, s.log.accepted))
  {
    ReachableInvariant(c, s);
    hide Subsequence, Safe, Ledger, Order, Wakeups, Reachable, HandleAll;
    LoneWorkerSubsequence(c, s);
    if Lossless(c) {
      LoneWorkerPrefix(c, s);
    }
  }
}
