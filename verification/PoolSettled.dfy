/** Where the next call of shutdown is sure to return, and where it only seems in danger. */
module PoolSettled {
  import opened WorkerPool
  import opened PoolSafety
  import opened PoolInvariant
  import opened PoolProgress
  import opened PoolShutdown
  import opened PoolHang
  import opened PoolCanPark
  import opened PoolJoin

  // ---------------------------------------------------------------- everybody settled

  /** With all workers blocked when the only client calls shutdown, every run that sets the flag and cannot be extended
      ends with all workers gone and the call returned. */
  lemma SettledShutdownReturns(c: Config, s: State, ls: seq<Label>)
    requires ValidConfig(c) && Reachable(c, s) && !s.stop && s.clients == [Idle] && !SomeAwake(s)
    requires Run(c, s, ls) && NoSpurious(ls) && ShutdownFirst(ls, 0)
    requires After(c, s, ls).stop && Quiescent(After(c, s, ls))
    ensures AllExited(After(c, s, ls)) && After(c, s, ls).clients == [Idle]
  {
    var t := After(c, s, ls);
    assert StillSafeToStop(c, s, 0);
    ReachableInvariant(c, s);
    hide Run, After, Reachable, SomeAwake, CanPark, Quiescent, Invariant;
    InvariantSafe(c, s);
    RunKeepsSpared(c, s, ls, 0);
    RunKeepsSizes(c, s, ls);
    RunKeepsInvariant(c, s, ls);
    InvariantLocks(c, t);
    SafelyStoppedReturns(c, t);
  }

  lemma SafelyStoppedReturns(c: Config, s: State)
    requires Locks(s) && Quiescent(s) && SafelyStopped(s, 0) && |s.clients| == 1
    ensures AllExited(s) && s.clients == [Idle]
  {
    hide Locks, Quiescent;
    EveryoneRests(c, s);
    if InShutdown(s, 0) {
      AllGone(c, s);
    }
  }

  /** Every pool with one client can settle like that, whatever it is configured to. */
  lemma SettledStateExists(c: Config) returns (s: State)
    requires ValidConfig(c)
    ensures Reachable(c, s) && !s.stop && s.clients == [Idle] && !SomeAwake(s) && !CanHang(c, s, 0)
  {
    InitialInvariant(c, 1);
    hide Run, After, Invariant, CanHang, Calm, CallsBy, Reachable, WorkOf, SomeAwake, Initial;
    OneClientToHelp(c);
    var ls := RunToCalm(c, Initial(c, 1), 0, 0);
    s := After(c, Initial(c, 1), ls);
    RunKeepsSizes(c, Initial(c, 1), ls);
    OnlyClientIsIdle(s);
    InitialIsReachable(c, 1);
    ReachableFrom(c, Initial(c, 1), ls);
    CalmMeansBlocked(c, s);
    ShutdownCanHangIff(c, s, 0);
  }

  lemma OneClientToHelp(c: Config)
    ensures Helped(Initial(c, 1), 0, 0) && |Initial(c, 1).clients| == 1
  {
  }

  lemma OnlyClientIsIdle(s: State)
    requires |s.clients| == 1 && Helped(s, 0, 0)
    ensures s.clients == [Idle]
  {
  }

  lemma CalmMeansBlocked(c: Config, s: State)
    requires Invariant(c, s) && Calm(s)
    ensures !SomeAwake(s)
  {
    InvariantLocks(c, s);
    hide Invariant, Calm, Locks;
    EveryoneIsCalm(c, s);
  }

  lemma InitialIsReachable(c: Config, clients: nat)
    ensures Reachable(c, Initial(c, clients))
  {
    NothingHappens(c, Initial(c, clients));
  }

  lemma ReachableFrom(c: Config, s: State, ls: seq<Label>)
    requires Reachable(c, s) && Run(c, s, ls)
    ensures Reachable(c, After(c, s, ls))
  {
    var clients: nat, before :| Run(c, Initial(c, clients), before) && After(c, Initial(c, clients), before) == s;
    hide Run, After;
    RunConcat(c, Initial(c, clients), before, ls);
  }

  // ---------------------------------------------------------------- awake, and yet in no danger

  /** Worker 0 alone comes to wait for tasks. */
  lemma WaitAlone(c: Config, s: State, j: nat)
    requires Alone(s, j) && s.workers[0].AtTaskLock? && s.tasks == [] && s.taskOwner.Free? && s.resultOwner.Free?
    ensures var w := Work(0, 0);
            && Run(c, s, [w, w, w])
            && var t := After(c, s, [w, w, w]);
               && Alone(t, j) && t.clients == s.clients && t.workers[0].WaitTask?
               && t.tasks == [] && t.results == s.results && t.taskOwner.Free? && t.resultOwner.Free?
  {
    hide SameOrWoken, Run, After;
    var w := Work(0, 0);
    ThreeMore(c, s, w, w, w);
  }

  /** Client 0 alone with a pool of one worker. */
  ghost predicate AtTheTop(c: Config, s: State) {
    && Reachable(c, s) && Alone(s, 0) && s.clients == [Idle, Idle] && |s.workers| == 1 && s.workers[0].AtTaskLock?
    && s.tasks == [] && s.taskOwner.Free? && s.resultOwner.Free?
  }

  /** The worker waits, client 0 submits, and the worker takes the task. */
  lemma OneTaskTaken(c: Config, s: State) returns (t: State)
    requires ValidConfig(c) && AtTheTop(c, s)
    ensures Reachable(c, t) && Alone(t, 0) && t.clients == [Idle, Idle] && |t.workers| == 1
    ensures t.workers[0].Dispatching? && t.results == s.results && t.tasks == []
    ensures t.taskOwner.Free? && t.resultOwner.Free?
  {
    hide Run, After, Fire, Enabled, Alone, Reachable;
    var w := Work(0, 0);
    var x := Task(0, []);
    WaitAlone(c, s, 0);
    var s1 := After(c, s, [w, w, w]);
    var submit := SubmitFromRest(c, s1, 0, x);
    var s2 := After(c, s1, submit);
    TakeAlone(c, s2, 0, x);
    t := After(c, s2, [w, w, w, w]);
    ReachableFrom(c, s, [w, w, w]);
    ReachableFrom(c, s1, submit);
    ReachableFrom(c, s2, [w, w, w, w]);
    RunKeepsSizes(c, s, [w, w, w]);
    RunKeepsSizes(c, s1, submit);
    RunKeepsSizes(c, s2, [w, w, w, w]);
  }

  /** It finds room for the answer and comes back for more. */
  lemma OneAnswerReady(c: Config, s: State) returns (t: State)
    requires ValidConfig(c) && Reachable(c, s) && Alone(s, 0) && s.clients == [Idle, Idle] && |s.workers| == 1
    requires s.workers[0].Dispatching? && s.results == [] && s.tasks == [] && s.taskOwner.Free? && s.resultOwner.Free?
    ensures AtTheTop(c, t) && t.results != []
  {
    hide Run, After, Fire, Enabled, Alone, Reachable;
    var w := Work(0, 0);
    DispatchAlone(c, s, 0);
    var s1 := After(c, s, [w, w] + [w, w]);
    PublishAlone(c, s1, 0);
    t := After(c, s1, [w, w]);
    ReachableFrom(c, s, [w, w] + [w, w]);
    ReachableFrom(c, s1, [w, w]);
    RunKeepsSizes(c, s, [w, w] + [w, w]);
    RunKeepsSizes(c, s1, [w, w]);
  }

  /** A second client calls shutdown. */
  lemma SecondClientCalls(c: Config, s: State) returns (t: State)
    requires Reachable(c, s) && s.clients == [Idle, Idle]
    ensures Reachable(c, t) && t == s.(clients := [Idle, StopExchange])
  {
    var l := Begin(1, ShutdownOp);
    OneStepRuns(c, s, l);
    ReachableFrom(c, s, [l]);
    hide Reachable;
    t := After(c, s, [l]);
    assert s.clients[1 := StopExchange] == [Idle, StopExchange];
  }

  /** With several clients, an awake worker does not yet put the call in danger: with one worker and room for one
      result there is a state in which the worker has an answer that finds no room, so that it will wait for the next
      pop, not for tasks; the call of client 0 is never left in its join for good. */
  lemma AwakeIsNotEnough(c: Config) returns (s: State)
    requires ValidConfig(c) && c.workers == 1 && c.resultCapacity == 1 && c.resultPolicy == BlockWorkerUntilPopped
    ensures Reachable(c, s) && !s.stop && s.clients == [Idle, StopExchange]
    ensures SomeAwake(s) && !CanHang(c, s, 0)
  {
    hide Reachable, CanHang;
    BeginsAtTheTop(c);
    var s1 := OneTaskTaken(c, Initial(c, 2));
    var s2 := OneAnswerReady(c, s1);
    var s3 := OneTaskTaken(c, s2);
    s := SecondClientCalls(c, s3);
    FullHandsCannotPark(c, s);
    ConditionIsExact(c, s, 0);
  }

  lemma BeginsAtTheTop(c: Config)
    requires c.workers == 1
    ensures AtTheTop(c, Initial(c, 2))
  {
    InitialIsReachable(c, 2);
    hide Reachable;
  }

  lemma FullHandsCannotPark(c: Config, s: State)
    requires |s.workers| == 1 && s.workers[0].Dispatching?
    requires |s.results| >= c.resultCapacity && c.resultPolicy == BlockWorkerUntilPopped
    ensures SomeAwake(s) && !CanPark(c, s)
  {
    assert !WorkerRests(s.workers[0]) && !OnItsWay(s.workers[0]);
  }
}
