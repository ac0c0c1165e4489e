/** The bounded aftermath of shutdown: what can still happen once the stop flag has been written,
    although it is written without holding either mutex. */
module PoolStop {
  import opened WorkerPool
  import opened PoolSafety
  import opened PoolInvariant

  /** 1 while a submitter that read the flag clear is inside its critical section. */
  function AcceptCredit(s: State): nat {
    var me := s.taskOwner;
    if me.Client? && me.client < |s.clients| && s.clients[me.client].SubmitQueue? then 1 else 0
  }

  /** 1 while a worker that read the flag clear is inside its critical section. */
  function PublishCredit(s: State): nat {
    var me := s.resultOwner;
    if me.Worker? && me.worker < |s.workers| && s.workers[me.worker].Push? then 1 else 0
  }

  /** 1 while a worker can still reach the task queue without reading the flag before publishing. */
  function TakeCredit(pc: WorkerPc): nat {
    if OnTaskSide(pc) && !pc.NotifyTaken? then 1 else if pc.Push? || pc.NotifyPushed? then 1 else 0
  }

  predicate SpendsCredit(s: State, t: State) {
    && |t.log.accepted| + AcceptCredit(t) <= |s.log.accepted| + AcceptCredit(s)
    && |t.log.published| + PublishCredit(t) <= |s.log.published| + PublishCredit(s)
    && |t.workers| == |s.workers| == |s.log.taken| == |t.log.taken|
    && forall i :: 0 <= i < |s.workers| ==>
         t.log.taken[i] + TakeCredit(t.workers[i]) <= s.log.taken[i] + TakeCredit(s.workers[i])
  }

  lemma WakingKeepsTakeCredit(before: WorkerPc, after: WorkerPc)
    requires SameOrWoken(before, after)
    ensures TakeCredit(after) == TakeCredit(before) && after.Push? == before.Push?
  {
  }

  lemma ClientStepSpendsCredit(c: Config, s: State, j: nat, k: nat)
    requires Safe(c, s) && s.stop && Enabled(s, Act(j, k))
    ensures SpendsCredit(s, ClientStep(c, s, j, k))
  {
    hide Submit;
    var t := ClientStep(c, s, j, k);
    assert ClientHoldsTaskMutex(s.clients[j]) == ClientMutexOf(s, j);
    hide Locks, WorkerKnows;
    assert |t.log.accepted| + AcceptCredit(t) <= |s.log.accepted| + AcceptCredit(s);
    assert t.resultOwner == s.resultOwner && t.log.published == s.log.published && t.log.taken == s.log.taken;
    hide ClientStep, AcceptCredit, TakeCredit;
    forall i | 0 <= i < |s.workers|
      ensures TakeCredit(t.workers[i]) == TakeCredit(s.workers[i]) && t.workers[i].Push? == s.workers[i].Push?
    {
      WakingKeepsTakeCredit(s.workers[i], t.workers[i]);
    }
  }

  /** The worker that moves pays for the task it takes; nobody else takes one. */
  predicate TakesWithinCredit(s: State, t: State, i: nat) {
    && i < |s.workers| == |t.workers| == |s.log.taken| == |t.log.taken| && t.log.accepted == s.log.accepted
    && t.log.taken[i] + TakeCredit(t.workers[i]) <= s.log.taken[i] + TakeCredit(s.workers[i])
    && forall m :: 0 <= m < |s.workers| && m != i ==> t.log.taken[m] == s.log.taken[m]
  }

  lemma TaskSideSpendsCredit(s: State, i: nat, k: nat)
    requires Enabled(s, Work(i, k)) && OnTaskSide(s.workers[i]) && s.stop && |s.log.taken| == |s.workers|
    ensures TakesWithinCredit(s, TaskSideStep(s, i, k), i)
  {
    hide SameOrWoken;
    var t := TaskSideStep(s, i, k);
    if s.workers[i].TakeTask? && s.tasks != [] {
      var taken := s.log.taken;
      assert t.log.taken == taken[i := taken[i] + 1] && t.log.accepted == s.log.accepted;
      assert TakeCredit(t.workers[i]) == 0 && TakeCredit(s.workers[i]) == 1;
    } else {
      assert t.log.taken == s.log.taken && t.log.accepted == s.log.accepted;
      assert TakeCredit(t.workers[i]) <= TakeCredit(s.workers[i]);
    }
    hide TaskSideStep, TakeCredit;
  }

  lemma ResultSideSpendsCredit(c: Config, s: State, i: nat, k: nat)
    requires Enabled(s, Work(i, k)) && !OnTaskSide(s.workers[i]) && s.stop && |s.log.taken| == |s.workers|
    ensures TakesWithinCredit(s, ResultSideStep(c, s, i, k), i)
  {
    hide SameOrWoken, Handle, Surplus;
    var t := ResultSideStep(c, s, i, k);
    assert t.log.taken == s.log.taken && t.log.accepted == s.log.accepted;
    assert TakeCredit(t.workers[i]) <= TakeCredit(s.workers[i]);
    hide ResultSideStep, TakeCredit;
  }

  lemma WorkerStepSpendsCredit(c: Config, s: State, i: nat, k: nat)
    requires Safe(c, s) && s.stop && Enabled(s, Work(i, k))
    ensures SpendsCredit(s, WorkerStep(c, s, i, k))
  {
    var t := WorkerStep(c, s, i, k);
    assert HoldsTaskMutex(s.workers[i]) == TaskMutexOf(s, i);
    assert AcceptCredit(t) <= AcceptCredit(s) by {
      hide Locks, WorkerKnows, Handle, Surplus, SameOrWoken;
    }
    if OnTaskSide(s.workers[i]) {
      TaskSideSpendsCredit(s, i, k);
    } else {
      ResultSideSpendsCredit(c, s, i, k);
    }
    PublishingSpendsCredit(c, s, i, k);
    hide Locks, WorkerKnows, WorkerStep, TaskSideStep, ResultSideStep, SameOrWoken;
    hide AcceptCredit, PublishCredit, TakeCredit;
    forall m | 0 <= m < |s.workers| && m != i
      ensures TakeCredit(t.workers[m]) == TakeCredit(s.workers[m])
    {
      WakingKeepsTakeCredit(s.workers[m], t.workers[m]);
    }
  }

  lemma PublishingSpendsCredit(c: Config, s: State, i: nat, k: nat)
    requires Safe(c, s) && s.stop && Enabled(s, Work(i, k))
    ensures var t := WorkerStep(c, s, i, k);
            |t.log.published| + PublishCredit(t) <= |s.log.published| + PublishCredit(s)
  {
    var t := WorkerStep(c, s, i, k);
    assert HoldsResultMutex(s.workers[i]) == ResultMutexOf(s, i);
    if s.resultOwner.Worker? && s.resultOwner.worker != i {
      WakingKeepsTakeCredit(s.workers[s.resultOwner.worker], t.workers[s.resultOwner.worker]);
    }
    hide Safe, Locks, Guards, WorkerKnows, Handle, Surplus, SameOrWoken;
  }

  lemma StepSpendsCredit(c: Config, s: State, l: Label)
    requires Safe(c, s) && s.stop && Enabled(s, l)
    ensures SpendsCredit(s, Fire(c, s, l)) && Fire(c, s, l).stop
  {
    hide ClientStep, WorkerStep;
    match l
    case Act(j, k) => ClientStepSpendsCredit(c, s, j, k);
    case Work(i, k) => WorkerStepSpendsCredit(c, s, i, k);
    case Begin(j, op) => hide WorkerKnows;
    case Spurious(i) => hide WorkerKnows;
  }

  lemma {:induction false} RunSpendsCredit(c: Config, s: State, ls: seq<Label>)
    requires Safe(c, s) && s.stop && Run(c, s, ls)
    ensures SpendsCredit(s, After(c, s, ls))
    decreases |ls|
  {
    hide Locks, WorkerKnows, Fire;
    if ls != [] {
      var t := Fire(c, s, ls[0]);
      StepKeepsSafe(c, s, ls[0]);
      StepSpendsCredit(c, s, ls[0]);
      RunSpendsCredit(c, t, ls[1..]);
    }
  }

  /** Once the stop flag is set, however long the run goes on and whoever joins in, at most one more task
      is accepted, at most one more result is published, and each worker dequeues at most one more task. */
  lemma AftermathOfStop(c: Config, s: State, ls: seq<Label>)
    requires ValidConfig(c) && Reachable(c, s) && s.stop && Run(c, s, ls)
    ensures var t := After(c, s, ls);
            && |t.log.accepted| <= |s.log.accepted| + 1
            && |t.log.published| <= |s.log.published| + 1
            && |t.log.taken| == |s.log.taken| == c.workers
            && forall i :: 0 <= i < c.workers ==> t.log.taken[i] <= s.log.taken[i] + 1
  {
    ReachableInvariant(c, s);
    hide Locks, WorkerKnows, Reachable;
    RunSpendsCredit(c, s, ls);
  }

  // ---------------------------------------------------------------- the bounds are attained

  /** A submitter reads the flag clear; then shutdown sets it. */
  lemma StopDuringSubmit(c: Config, x: Task) returns (s: State, ls: seq<Label>)
    requires ValidConfig(c)
    ensures Run(c, Initial(c, 2), ls) && After(c, Initial(c, 2), ls) == s
    ensures s == Initial(c, 2).(stop := true, taskOwner := Client(0), clients := [SubmitQueue(x), StopNotifyTasks])
  {
    var s0 := Initial(c, 2);
    var submit, stop := [Begin(0, SubmitOp(x)), Act(0, 0)], [Begin(1, ShutdownOp), Act(1, 0)];
    var s1 := Fire(c, Fire(c, s0, submit[0]), submit[1]);
    TwoMore(c, s0, submit[0], submit[1]);
    assert s1 == s0.(taskOwner := Client(0), clients := [SubmitLoadStop(x), Idle]);
    var s2 := Fire(c, s1, Act(0, 0));
    RunCons(c, s1, Act(0, 0), []);
    assert s2 == s0.(taskOwner := Client(0), clients := [SubmitQueue(x), Idle]);
    s := Fire(c, Fire(c, s2, stop[0]), stop[1]);
    TwoMore(c, s2, stop[0], stop[1]);
    assert s.clients == [SubmitQueue(x), StopNotifyTasks];
    hide Fire, Enabled, Run, After;
    assert [Act(0, 0)] + [] == [Act(0, 0)];
    RunConcat(c, s0, submit, [Act(0, 0)]);
    ls := submit + [Act(0, 0)] + stop;
    RunConcat(c, s0, submit + [Act(0, 0)], stop);
  }

  /** The submitter gets its task in although stop is set, and worker 0 takes the mutex. */
  lemma SubmitThroughStop(c: Config, s: State, x: Task)
    requires ValidConfig(c)
    requires s == Initial(c, 2).(stop := true, taskOwner := Client(0), clients := [SubmitQueue(x), StopNotifyTasks])
    ensures var ls := [Act(0, 0), Work(0, 0)];
            && Run(c, s, ls)
            && var t := After(c, s, ls);
               && t.tasks == [x] && t.stop && t.workers == s.workers[0 := CheckTask] && t.log.accepted == [x]
               && t.log.taken == s.log.taken
  {
    TwoMore(c, s, Act(0, 0), Work(0, 0));
  }

  lemma TakeAfterStop(c: Config, s: State, x: Task)
    requires |s.workers| >= 1 && s.workers[0].CheckTask? && s.tasks == [x] && |s.log.taken| == |s.workers|
    ensures var w := Work(0, 0);
            && Run(c, s, [w, w])
            && var t := After(c, s, [w, w]);
               && t.log.accepted == s.log.accepted && |t.log.taken| == |s.log.taken|
               && t.log.taken[0] == s.log.taken[0] + 1
  {
    hide Run, After, SameOrWoken;
    TwoMore(c, s, Work(0, 0), Work(0, 0));
  }

  /** A task can be accepted, and a worker can dequeue one, after stop was set. */
  lemma AcceptAndDequeueAfterStop(c: Config, x: Task)
    requires ValidConfig(c)
    ensures exists s, ls ::
              && Reachable(c, s) && s.stop && Run(c, s, ls)
              && |After(c, s, ls).log.accepted| == |s.log.accepted| + 1
              && |After(c, s, ls).log.taken| == |s.log.taken| == c.workers
              && After(c, s, ls).log.taken[0] == s.log.taken[0] + 1
  {
    var s, before := StopDuringSubmit(c, x);
    SubmitThroughStop(c, s, x);
    assert |s.workers| == |s.log.taken| == c.workers && s.log.accepted == [];
    hide Fire, Enabled, Run, After, Initial;
    var submit, take := [Act(0, 0), Work(0, 0)], [Work(0, 0), Work(0, 0)];
    TakeAfterStop(c, After(c, s, submit), x);
    RunConcat(c, s, submit, take);
    assert Reachable(c, s);
    assert Run(c, s, submit + take);
  }

  lemma OneTaskPending(c: Config, x: Task) returns (s: State, ls: seq<Label>)
    requires ValidConfig(c)
    ensures Run(c, Initial(c, 2), ls) && After(c, Initial(c, 2), ls) == s
    ensures s.tasks == [x] && s.results == [] && !s.stop && s.taskOwner.Free? && s.resultOwner.Free?
    ensures s.workers == Initial(c, 2).workers && s.clients == [SubmitNotify, Idle] && s.log.published == []
  {
    var s0 := Initial(c, 2);
    ls := [Begin(0, SubmitOp(x)), Act(0, 0), Act(0, 0), Act(0, 0)];
    var s2 := Fire(c, Fire(c, s0, ls[0]), ls[1]);
    assert s2 == s0.(taskOwner := Client(0), clients := [SubmitLoadStop(x), Idle]);
    s := Fire(c, Fire(c, s2, ls[2]), ls[3]);
    assert s.clients == [SubmitNotify, Idle];
    FourMore(c, s0, ls[0], ls[1], ls[2], ls[3]);
  }

  /** Worker 0 takes the pending task. */
  lemma TakeIt(c: Config, s: State, x: Task) returns (t: State)
    requires |s.workers| >= 1 && s.workers[0].AtTaskLock? && s.taskOwner.Free? && s.tasks == [x]
    ensures var w := Work(0, 0); Run(c, s, [w, w, w, w]) && After(c, s, [w, w, w, w]) == t
    ensures |t.workers| == |s.workers| && t.workers[0] == Dispatching(x)
    ensures t.results == s.results && t.resultOwner == s.resultOwner && t.clients == s.clients && t.stop == s.stop
    ensures t.log.published == s.log.published
  {
    var w := Work(0, 0);
    var u := Fire(c, Fire(c, s, w), w);
    assert u.workers[0] == TakeTask && u.tasks == [x] && u.log == s.log;
    t := Fire(c, Fire(c, u, w), w);
    FourMore(c, s, w, w, w, w);
  }

  /** It dispatches the task and takes the result mutex. */
  lemma DispatchIt(c: Config, s: State)
    requires |s.workers| >= 1 && s.workers[0].Dispatching? && s.resultOwner.Free?
    ensures var w := Work(0, 0);
            && Run(c, s, [w, w])
            && var t := After(c, s, [w, w]);
               && |t.workers| == |s.workers| && (t.workers[0].Evict? || t.workers[0].CheckResult?)
               && t.clients == s.clients && t.stop == s.stop && t.results == s.results
               && t.log.published == s.log.published
  {
    hide Handle, SameOrWoken, Run, After;
    TwoMore(c, s, Work(0, 0), Work(0, 0));
  }

  /** It finds room and reads the flag clear. */
  lemma ReadFlagClear(c: Config, s: State)
    requires |s.workers| >= 1 && (s.workers[0].Evict? || s.workers[0].CheckResult?)
    requires s.results == [] && !s.stop && c.resultCapacity >= 1
    ensures var w := Work(0, 0);
            && Run(c, s, [w, w])
            && var t := After(c, s, [w, w]);
               && |t.workers| == |s.workers| && t.workers[0].Push?
               && t.clients == s.clients && t.stop == s.stop && t.log.published == s.log.published
  {
    hide Surplus, SameOrWoken, Run, After;
    TwoMore(c, s, Work(0, 0), Work(0, 0));
  }

  lemma FinishIt(c: Config, s: State) returns (t: State)
    requires |s.workers| >= 1 && s.workers[0].Dispatching? && s.resultOwner.Free? && s.results == [] && !s.stop
    requires c.resultCapacity >= 1
    ensures var w := Work(0, 0); Run(c, s, [w, w, w, w]) && After(c, s, [w, w, w, w]) == t
    ensures |t.workers| == |s.workers| && t.workers[0].Push?
    ensures t.clients == s.clients && t.stop == s.stop && t.log.published == s.log.published
  {
    hide Fire, Enabled, Run, After;
    var w := Work(0, 0);
    DispatchIt(c, s);
    ReadFlagClear(c, After(c, s, [w, w]));
    RunConcat(c, s, [w, w], [w, w]);
    assert [w, w] + [w, w] == [w, w, w, w];
    t := After(c, s, [w, w, w, w]);
  }

  lemma ReadyToPublish(c: Config, x: Task) returns (s: State, ls: seq<Label>)
    requires ValidConfig(c)
    ensures Run(c, Initial(c, 2), ls) && After(c, Initial(c, 2), ls) == s
    ensures |s.workers| == c.workers && s.workers[0].Push? && s.clients == [SubmitNotify, Idle]
    ensures !s.stop && s.log.published == []
  {
    var w := Work(0, 0);
    var s0, start := OneTaskPending(c, x);
    var s4 := TakeIt(c, s0, x);
    s := FinishIt(c, s4);
    hide Fire, Enabled, Run, After;
    RunConcat(c, Initial(c, 2), start, [w, w, w, w]);
    ls := start + [w, w, w, w] + [w, w, w, w];
    RunConcat(c, Initial(c, 2), start + [w, w, w, w], [w, w, w, w]);
  }

  /** A result can be published after stop was set. */
  lemma PublishAfterStop(c: Config, x: Task)
    requires ValidConfig(c)
    ensures exists s, ls ::
              && Reachable(c, s) && s.stop && Run(c, s, ls)
              && |After(c, s, ls).log.published| == |s.log.published| + 1
  {
    var s0, before := ReadyToPublish(c, x);
    var stop := [Begin(1, ShutdownOp), Act(1, 0)];
    var s := Fire(c, Fire(c, s0, stop[0]), stop[1]);
    TwoMore(c, s0, stop[0], stop[1]);
    assert s.stop && s.workers[0].Push? && s.log.published == [];
    assert |Fire(c, s, Work(0, 0)).log.published| == 1;
    RunCons(c, s, Work(0, 0), []);
    hide Fire, Enabled;
    RunConcat(c, Initial(c, 2), before, stop);
    assert Reachable(c, s);
    assert Run(c, s, [Work(0, 0)] + []);
  }
}
