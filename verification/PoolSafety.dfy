/** Mutual exclusion, queue bounds, and what each thread may rely on, over every interleaving. */
module PoolSafety {
  import opened WorkerPool

  predicate HoldsTaskMutex(pc: WorkerPc) {
    pc.CheckTask? || pc.ParkTask? || pc.TakeTask?
  }

  predicate HoldsResultMutex(pc: WorkerPc) {
    pc.Evict? || pc.CheckResult? || pc.ParkResult? || pc.LoadStop? || pc.Push?
  }

  predicate ClientHoldsTaskMutex(pc: ClientPc) {
    pc.SubmitLoadStop? || pc.SubmitQueue?
  }

  predicate TaskMutexOf(s: State, i: nat) {
    s.taskOwner.Worker? && s.taskOwner.worker == i
  }

  predicate ResultMutexOf(s: State, i: nat) {
    s.resultOwner.Worker? && s.resultOwner.worker == i
  }

  predicate ClientMutexOf(s: State, j: nat) {
    s.taskOwner.Client? && s.taskOwner.client == j
  }

  /** Each mutex is held by at most one thread, namely the one inside its critical section. */
  predicate Locks(s: State) {
    && (forall i :: 0 <= i < |s.workers| ==> HoldsTaskMutex(s.workers[i]) == TaskMutexOf(s, i))
    && (forall i :: 0 <= i < |s.workers| ==> HoldsResultMutex(s.workers[i]) == ResultMutexOf(s, i))
    && (forall j :: 0 <= j < |s.clients| ==> ClientHoldsTaskMutex(s.clients[j]) == ClientMutexOf(s, j))
    && (s.taskOwner.Worker? ==> s.taskOwner.worker < |s.workers|)
    && (s.taskOwner.Client? ==> s.taskOwner.client < |s.clients|)
    && !s.resultOwner.Client?
    && (s.resultOwner.Worker? ==> s.resultOwner.worker < |s.workers|)
  }

  /** What a worker may rely on at its program point. */
  predicate WorkerKnows(c: Config, s: State, pc: WorkerPc) {
    match pc
    case ParkTask => s.tasks == []
    case TakeTask => s.tasks != [] || s.stop
    case Evict(_) => c.resultPolicy == DropOldestCompletedResult
    case CheckResult(_) => c.resultPolicy == BlockWorkerUntilPopped
    case ParkResult(_) => c.resultPolicy == BlockWorkerUntilPopped && |s.results| >= c.resultCapacity
    case WaitResult(_) => c.resultPolicy == BlockWorkerUntilPopped
    case WokenResult(_) => c.resultPolicy == BlockWorkerUntilPopped
    case LoadStop(_) => |s.results| < c.resultCapacity || (s.stop && c.resultPolicy == BlockWorkerUntilPopped)
    case Push(_) => |s.results| < c.resultCapacity
    case Exited => s.stop
    case _ => true
  }

  predicate Guards(c: Config, s: State) {
    && ValidConfig(c)
    && |s.workers| == |s.log.taken| == c.workers
    && |s.tasks| <= c.taskCapacity
    && |s.results| <= c.resultCapacity
    && (s.log.discarded != [] ==> s.stop)
    && (forall i :: 0 <= i < |s.workers| ==> WorkerKnows(c, s, s.workers[i]))
    && (forall j :: 0 <= j < |s.clients| ==>
          (s.clients[j].StopNotifyTasks? || s.clients[j].StopNotifyResults? || s.clients[j].StopJoin?) ==> s.stop)
  }

  predicate Safe(c: Config, s: State) {
    Locks(s) && Guards(c, s)
  }

  /** A mutex stays with its owner, is taken by `me` when free, or is released by `me`. */
  predicate Handover(before: Owner, after: Owner, me: Owner, heldBefore: bool, heldAfter: bool) {
    || (after == before && heldAfter == heldBefore)
    || (before.Free? && after == me && heldAfter)
    || (before == me && after.Free? && !heldAfter)
  }

  lemma WorkerMoveKeepsLocks(s: State, t: State, i: nat)
    requires Locks(s) && |t.workers| == |s.workers| && t.clients == s.clients && i < |s.workers|
    requires forall m :: 0 <= m < |s.workers| && m != i ==>
               && HoldsTaskMutex(t.workers[m]) == HoldsTaskMutex(s.workers[m])
               && HoldsResultMutex(t.workers[m]) == HoldsResultMutex(s.workers[m])
    requires Handover(s.taskOwner, t.taskOwner, Worker(i), HoldsTaskMutex(s.workers[i]), HoldsTaskMutex(t.workers[i]))
    requires Handover(s.resultOwner, t.resultOwner, Worker(i),
                      HoldsResultMutex(s.workers[i]), HoldsResultMutex(t.workers[i]))
    ensures Locks(t)
  {
  }

  lemma ClientMoveKeepsLocks(s: State, t: State, j: nat)
    requires Locks(s) && |t.workers| == |s.workers| && |t.clients| == |s.clients| && j < |s.clients|
    requires forall m :: 0 <= m < |s.workers| ==>
               && HoldsTaskMutex(t.workers[m]) == HoldsTaskMutex(s.workers[m])
               && HoldsResultMutex(t.workers[m]) == HoldsResultMutex(s.workers[m])
    requires forall m :: 0 <= m < |s.clients| && m != j ==> t.clients[m] == s.clients[m]
    requires Handover(s.taskOwner, t.taskOwner, Client(j),
                      ClientHoldsTaskMutex(s.clients[j]), ClientHoldsTaskMutex(t.clients[j]))
    requires t.resultOwner == s.resultOwner
    ensures Locks(t)
  {
  }

  lemma TaskSideKeepsLocks(s: State, i: nat, k: nat)
    requires Locks(s) && Enabled(s, Work(i, k)) && OnTaskSide(s.workers[i])
    ensures Locks(TaskSideStep(s, i, k))
  {
    assert HoldsTaskMutex(s.workers[i]) == TaskMutexOf(s, i);
    assert HoldsResultMutex(s.workers[i]) == ResultMutexOf(s, i);
    hide Locks;
    WorkerMoveKeepsLocks(s, TaskSideStep(s, i, k), i);
  }

  lemma ResultSideHandover(c: Config, s: State, i: nat, k: nat)
    requires Enabled(s, Work(i, k)) && !OnTaskSide(s.workers[i])
    requires HoldsTaskMutex(s.workers[i]) == TaskMutexOf(s, i) && HoldsResultMutex(s.workers[i]) == ResultMutexOf(s, i)
    ensures var t := ResultSideStep(c, s, i, k);
            && Handover(s.taskOwner, t.taskOwner, Worker(i), HoldsTaskMutex(s.workers[i]), HoldsTaskMutex(t.workers[i]))
            && Handover(s.resultOwner, t.resultOwner, Worker(i),
                        HoldsResultMutex(s.workers[i]), HoldsResultMutex(t.workers[i]))
  {
    hide Handle, Surplus, SameOrWoken;
  }

  lemma ResultSideKeepsLocks(c: Config, s: State, i: nat, k: nat)
    requires Locks(s) && Enabled(s, Work(i, k)) && !OnTaskSide(s.workers[i])
    ensures Locks(ResultSideStep(c, s, i, k))
  {
    assert HoldsTaskMutex(s.workers[i]) == TaskMutexOf(s, i);
    assert HoldsResultMutex(s.workers[i]) == ResultMutexOf(s, i);
    ResultSideHandover(c, s, i, k);
    hide Locks, ResultSideStep, Handover;
    WorkerMoveKeepsLocks(s, ResultSideStep(c, s, i, k), i);
  }

  lemma WorkerStepKeepsLocks(c: Config, s: State, i: nat, k: nat)
    requires Locks(s) && Enabled(s, Work(i, k))
    ensures Locks(WorkerStep(c, s, i, k))
  {
    if OnTaskSide(s.workers[i]) {
      TaskSideKeepsLocks(s, i, k);
    } else {
      ResultSideKeepsLocks(c, s, i, k);
    }
    hide Locks, TaskSideStep, ResultSideStep;
  }

  lemma ClientStepKeepsLocks(c: Config, s: State, j: nat, k: nat)
    requires Locks(s) && Enabled(s, Act(j, k))
    ensures Locks(ClientStep(c, s, j, k))
  {
    hide Submit;
    assert ClientHoldsTaskMutex(s.clients[j]) == ClientMutexOf(s, j);
    hide Locks;
    ClientMoveKeepsLocks(s, ClientStep(c, s, j, k), j);
  }

  /** A thread that is not moving keeps what it knows if nobody edits a queue whose mutex it holds. */
  lemma KnowledgeIsStable(c: Config, s: State, t: State, before: WorkerPc, after: WorkerPc)
    requires WorkerKnows(c, s, before) && SameOrWoken(before, after)
    requires s.stop ==> t.stop
    requires HoldsTaskMutex(before) ==> t.tasks == s.tasks
    requires HoldsResultMutex(before) ==> t.results == s.results
    ensures WorkerKnows(c, t, after)
  {
  }

  lemma ClientStepKeepsKnowledge(c: Config, s: State, j: nat, k: nat, m: nat)
    requires Safe(c, s) && Enabled(s, Act(j, k)) && m < |s.workers|
    ensures WorkerKnows(c, ClientStep(c, s, j, k), ClientStep(c, s, j, k).workers[m])
  {
    var t := ClientStep(c, s, j, k);
    assert ClientHoldsTaskMutex(s.clients[j]) == ClientMutexOf(s, j);
    assert HoldsTaskMutex(s.workers[m]) == TaskMutexOf(s, m);
    assert HoldsResultMutex(s.workers[m]) == ResultMutexOf(s, m);
    hide ClientStep, Locks, WorkerKnows;
    KnowledgeIsStable(c, s, t, s.workers[m], t.workers[m]);
  }

  lemma ClientStepKeepsGuards(c: Config, s: State, j: nat, k: nat)
    requires Safe(c, s) && Enabled(s, Act(j, k))
    ensures Guards(c, ClientStep(c, s, j, k))
  {
    var t := ClientStep(c, s, j, k);
    forall m | 0 <= m < |t.workers|
      ensures WorkerKnows(c, t, t.workers[m])
    {
      ClientStepKeepsKnowledge(c, s, j, k, m);
    }
    hide Locks, WorkerKnows;
  }

  lemma WorkerStepKeepsOthersKnowledge(c: Config, s: State, i: nat, k: nat, m: nat)
    requires Safe(c, s) && Enabled(s, Work(i, k)) && m < |s.workers| && m != i
    ensures WorkerKnows(c, WorkerStep(c, s, i, k), WorkerStep(c, s, i, k).workers[m])
  {
    var t := WorkerStep(c, s, i, k);
    assert HoldsTaskMutex(s.workers[i]) == TaskMutexOf(s, i);
    assert HoldsResultMutex(s.workers[i]) == ResultMutexOf(s, i);
    assert HoldsTaskMutex(s.workers[m]) == TaskMutexOf(s, m);
    assert HoldsResultMutex(s.workers[m]) == ResultMutexOf(s, m);
    hide WorkerStep, Locks, WorkerKnows;
    KnowledgeIsStable(c, s, t, s.workers[m], t.workers[m]);
  }

  /** What the worker that moves re-establishes. */
  predicate OwnKnowledge(c: Config, t: State, i: nat) {
    && i < |t.workers| && WorkerKnows(c, t, t.workers[i])
    && |t.tasks| <= c.taskCapacity && |t.results| <= c.resultCapacity
    && |t.log.taken| == c.workers
    && (t.log.discarded != [] ==> t.stop)
  }

  lemma TaskSideKeepsOwnKnowledge(c: Config, s: State, i: nat, k: nat)
    requires OwnKnowledge(c, s, i) && Enabled(s, Work(i, k)) && OnTaskSide(s.workers[i])
    ensures OwnKnowledge(c, TaskSideStep(s, i, k), i)
  {
    hide SameOrWoken;
  }

  lemma EvictKeepsOwnKnowledge(c: Config, s: State, i: nat, k: nat)
    requires ValidConfig(c) && OwnKnowledge(c, s, i) && Enabled(s, Work(i, k)) && s.workers[i].Evict?
    ensures OwnKnowledge(c, ResultSideStep(c, s, i, k), i)
  {
    hide SameOrWoken, Surplus;
  }

  lemma PushKeepsOwnKnowledge(c: Config, s: State, i: nat, k: nat)
    requires OwnKnowledge(c, s, i) && Enabled(s, Work(i, k)) && s.workers[i].Push?
    ensures OwnKnowledge(c, ResultSideStep(c, s, i, k), i)
  {
    hide SameOrWoken;
  }

  lemma ResultSideKeepsOwnKnowledge(c: Config, s: State, i: nat, k: nat)
    requires ValidConfig(c) && OwnKnowledge(c, s, i) && Enabled(s, Work(i, k)) && !OnTaskSide(s.workers[i])
    ensures OwnKnowledge(c, ResultSideStep(c, s, i, k), i)
  {
    hide SameOrWoken, Handle, Surplus;
    if s.workers[i].Evict? {
      EvictKeepsOwnKnowledge(c, s, i, k);
    } else if s.workers[i].Push? {
      PushKeepsOwnKnowledge(c, s, i, k);
    } else {
      assert ResultSideStep(c, s, i, k).results == s.results;
    }
  }

  lemma WorkerStepKeepsOwnKnowledge(c: Config, s: State, i: nat, k: nat)
    requires Safe(c, s) && Enabled(s, Work(i, k))
    ensures OwnKnowledge(c, WorkerStep(c, s, i, k), i)
  {
    assert WorkerKnows(c, s, s.workers[i]);
    hide Locks, WorkerKnows, TaskSideStep, ResultSideStep;
    if OnTaskSide(s.workers[i]) {
      TaskSideKeepsOwnKnowledge(c, s, i, k);
    } else {
      ResultSideKeepsOwnKnowledge(c, s, i, k);
    }
  }

  lemma WorkerStepKeepsGuards(c: Config, s: State, i: nat, k: nat)
    requires Safe(c, s) && Enabled(s, Work(i, k))
    ensures Guards(c, WorkerStep(c, s, i, k))
  {
    WorkerStepKeepsOwnKnowledge(c, s, i, k);
    var t := WorkerStep(c, s, i, k);
    forall m | 0 <= m < |t.workers| && m != i
      ensures WorkerKnows(c, t, t.workers[m])
    {
      WorkerStepKeepsOthersKnowledge(c, s, i, k, m);
    }
    hide WorkerStep, Locks, WorkerKnows;
  }

  lemma BeginKeepsSafe(c: Config, s: State, j: nat, op: Operation)
    requires Safe(c, s) && Enabled(s, Begin(j, op))
    ensures Safe(c, SetClient(s, j, Start(op)))
  {
    var t := SetClient(s, j, Start(op));
    assert Locks(t) by {
      ClientMoveKeepsLocks(s, t, j);
    }
    forall i | 0 <= i < |s.workers|
      ensures WorkerKnows(c, t, t.workers[i])
    {
      assert WorkerKnows(c, s, s.workers[i]);
    }
    hide Locks, WorkerKnows;
  }

  lemma SpuriousKeepsSafe(c: Config, s: State, i: nat)
    requires Safe(c, s) && Enabled(s, Spurious(i))
    ensures Safe(c, Fire(c, s, Spurious(i)))
  {
    var t := Fire(c, s, Spurious(i));
    assert Locks(t) by {
      WorkerMoveKeepsLocks(s, t, i);
    }
    forall m | 0 <= m < |s.workers|
      ensures WorkerKnows(c, t, t.workers[m])
    {
      assert WorkerKnows(c, s, s.workers[m]);
    }
    hide Locks, WorkerKnows;
  }

  lemma StepKeepsSafe(c: Config, s: State, l: Label)
    requires Safe(c, s) && Enabled(s, l)
    ensures Safe(c, Fire(c, s, l))
  {
    hide ClientStep, WorkerStep;
    match l
    case Begin(j, op) => BeginKeepsSafe(c, s, j, op);
    case Spurious(i) => SpuriousKeepsSafe(c, s, i);
    case Act(j, k) =>
      ClientStepKeepsLocks(c, s, j, k);
      ClientStepKeepsGuards(c, s, j, k);
      hide Locks, Guards;
    case Work(i, k) =>
      WorkerStepKeepsLocks(c, s, i, k);
      WorkerStepKeepsGuards(c, s, i, k);
      hide Locks, Guards;
  }
}
