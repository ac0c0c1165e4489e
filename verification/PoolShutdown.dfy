/** Does shutdown's join return? The stop flag is set, and the waiters are notified, without holding the
    mutexes, so a worker that has found its wait predicate false but has not blocked yet can miss the
    notification. This module proves exactly when that happens. */
module PoolShutdown {
  import opened WorkerPool
  import opened PoolSafety
  import opened PoolInvariant
  import opened PoolProgress

  // ---------------------------------------------------------------- nobody in between: everyone exits

  /** Stop is set and no worker is blocked on task_cv or about to block on it. */
  predicate NoTaskParking(s: State) {
    s.stop && forall i :: 0 <= i < |s.workers| ==> !s.workers[i].ParkTask? && !s.workers[i].WaitTask?
  }

  predicate NoResultParking(s: State) {
    s.stop && forall i :: 0 <= i < |s.workers| ==> !s.workers[i].ParkResult? && !s.workers[i].WaitResult?
  }

  lemma WorkerKeepsNoTaskParking(c: Config, s: State, i: nat, k: nat)
    requires NoTaskParking(s) && Enabled(s, Work(i, k))
    ensures NoTaskParking(WorkerStep(c, s, i, k))
  {
    var t := WorkerStep(c, s, i, k);
    hide Handle, Surplus;
    assert !t.workers[i].ParkTask? && !t.workers[i].WaitTask?;
    hide WorkerStep, TaskSideStep, ResultSideStep;
  }

  lemma WorkerKeepsNoResultParking(c: Config, s: State, i: nat, k: nat)
    requires NoResultParking(s) && Enabled(s, Work(i, k))
    ensures NoResultParking(WorkerStep(c, s, i, k))
  {
    var t := WorkerStep(c, s, i, k);
    hide Handle, Surplus;
    assert !t.workers[i].ParkResult? && !t.workers[i].WaitResult?;
    hide WorkerStep, TaskSideStep, ResultSideStep;
  }

  lemma StepKeepsNoTaskParking(c: Config, s: State, l: Label)
    requires NoTaskParking(s) && Enabled(s, l)
    ensures NoTaskParking(Fire(c, s, l))
  {
    hide ClientStep, WorkerStep;
    match l
    case Work(i, k) => WorkerKeepsNoTaskParking(c, s, i, k);
    case _ =>
  }

  lemma StepKeepsNoResultParking(c: Config, s: State, l: Label)
    requires NoResultParking(s) && Enabled(s, l)
    ensures NoResultParking(Fire(c, s, l))
  {
    hide ClientStep, WorkerStep;
    match l
    case Work(i, k) => WorkerKeepsNoResultParking(c, s, i, k);
    case _ =>
  }

  lemma {:induction false} RunKeepsNoTaskParking(c: Config, s: State, ls: seq<Label>)
    requires NoTaskParking(s) && Run(c, s, ls)
    ensures NoTaskParking(After(c, s, ls))
    decreases |ls|
  {
    if ls != [] {
      StepKeepsNoTaskParking(c, s, ls[0]);
      hide Fire;
      RunKeepsNoTaskParking(c, Fire(c, s, ls[0]), ls[1..]);
    }
  }

  lemma {:induction false} RunKeepsNoResultParking(c: Config, s: State, ls: seq<Label>)
    requires NoResultParking(s) && Run(c, s, ls)
    ensures NoResultParking(After(c, s, ls))
    decreases |ls|
  {
    if ls != [] {
      StepKeepsNoResultParking(c, s, ls[0]);
      hide Fire;
      RunKeepsNoResultParking(c, Fire(c, s, ls[0]), ls[1..]);
    }
  }

  /** Nobody blocked, nothing left to do: everybody is gone. */
  lemma AllGone(c: Config, s: State)
    requires Locks(s) && NoTaskParking(s) && NoResultParking(s) && Quiescent(s)
    ensures forall i :: 0 <= i < |s.workers| ==> s.workers[i].Exited?
    ensures forall j :: 0 <= j < |s.clients| ==> s.clients[j].Idle?
  {
    hide Locks, Quiescent;
    EveryoneRests(c, s);
  }

  /** Where nobody is blocked or about to block, every run that cannot be extended ends with everybody gone. */
  lemma NobodyBlockedReturns(c: Config, s: State, ls: seq<Label>)
    requires Invariant(c, s) && NoTaskParking(s) && NoResultParking(s)
    requires Run(c, s, ls) && Quiescent(After(c, s, ls))
    ensures var t := After(c, s, ls);
            && (forall i :: 0 <= i < |t.workers| ==> t.workers[i].Exited?)
            && (forall j :: 0 <= j < |t.clients| ==> t.clients[j].Idle?)
  {
    hide Run, After, Quiescent, NoTaskParking, NoResultParking, Invariant;
    RunKeepsInvariant(c, s, ls);
    RunKeepsNoTaskParking(c, s, ls);
    RunKeepsNoResultParking(c, s, ls);
    InvariantLocks(c, After(c, s, ls));
    AllGone(c, After(c, s, ls));
  }

  /** Shutdown returns if neither of its notifications finds a worker between check and park: nobody at ParkTask when
      client j notifies task_cv and, after any run, nobody at ParkResult when it notifies result_cv. Then every run that
      cannot be extended (RunsAreBounded: every run gets there) ends with all workers gone and every call returned. */
  lemma ShutdownReturns(c: Config, s: State, j: nat, between: seq<Label>, afterwards: seq<Label>)
    requires ValidConfig(c) && Reachable(c, s) && j < |s.clients| && s.clients[j].StopNotifyTasks?
    requires forall w :: 0 <= w < |s.workers| ==> !s.workers[w].ParkTask?
    requires Run(c, Fire(c, s, Act(j, 0)), between)
    requires var t := After(c, Fire(c, s, Act(j, 0)), between);
             && j < |t.clients| && t.clients[j].StopNotifyResults?
             && (forall w :: 0 <= w < |t.workers| ==> !t.workers[w].ParkResult?)
             && Run(c, Fire(c, t, Act(j, 0)), afterwards) && Quiescent(After(c, Fire(c, t, Act(j, 0)), afterwards))
    ensures var u := After(c, Fire(c, After(c, Fire(c, s, Act(j, 0)), between), Act(j, 0)), afterwards);
            && (forall i :: 0 <= i < |u.workers| ==> u.workers[i].Exited?)
            && (forall i :: 0 <= i < |u.clients| ==> u.clients[i].Idle?)
  {
    var s1 := Fire(c, s, Act(j, 0));
    var t := After(c, s1, between);
    var t1 := Fire(c, t, Act(j, 0));
    ReachableInvariant(c, s);
    InvariantGuards(c, s);
    NotifyingTasksClearsWaiters(c, s, j, 0);
    hide Run, After, Quiescent, NoTaskParking, NoResultParking, Invariant, Guards;
    StepKeepsInvariant(c, s, Act(j, 0));
    RunKeepsInvariant(c, s1, between);
    InvariantGuards(c, t);
    NotifyingResultsClearsWaiters(c, t, j, 0);
    hide Fire;
    StepKeepsInvariant(c, t, Act(j, 0));
    RunKeepsNoTaskParking(c, s1, between);
    StepKeepsNoTaskParking(c, t, Act(j, 0));
    NobodyBlockedReturns(c, t1, afterwards);
  }

  lemma InvariantGuards(c: Config, s: State)
    requires Invariant(c, s)
    ensures Guards(c, s)
  {
  }

  // ---------------------------------------------------------------- somebody in between: it can hang

  /** Worker w is blocked on task_cv after stop, and nobody will ever notify task_cv again. */
  predicate StuckOnTask(s: State, w: nat) {
    && w < |s.workers| && s.workers[w].WaitTask?
    && s.stop && s.tasks == []
    && (forall i :: 0 <= i < |s.workers| ==> !s.workers[i].NotifyTaken?)
    && (forall j :: 0 <= j < |s.clients| ==>
          !s.clients[j].SubmitQueue? && !s.clients[j].SubmitNotify? && !s.clients[j].StopNotifyTasks?)
  }

  /** Worker w is blocked on result_cv after stop with the queue full, and nobody is about to notify result_cv. */
  predicate StuckOnResult(c: Config, s: State, w: nat) {
    && w < |s.workers| && s.workers[w].WaitResult?
    && s.stop && |s.results| >= c.resultCapacity && c.resultPolicy == BlockWorkerUntilPopped
    && (forall i :: 0 <= i < |s.workers| ==> !s.workers[i].NotifyPushed? && !s.workers[i].Push?)
    && (forall j :: 0 <= j < |s.clients| ==>
          !s.clients[j].PopNotify? && !s.clients[j].StopNotifyTasks? && !s.clients[j].StopNotifyResults?)
  }

  /** No spurious wake-up along the way. */
  predicate NoSpurious(ls: seq<Label>) {
    forall i :: 0 <= i < |ls| ==> !ls[i].Spurious?
  }

  /** A step other than a spurious wake-up or a pop. */
  predicate NotAPop(s: State, l: Label) {
    !l.Spurious? && (l.Act? && l.client < |s.clients| ==> !s.clients[l.client].PopLock?)
  }

  predicate NobodyPops(c: Config, s: State, ls: seq<Label>)
    requires Run(c, s, ls)
    decreases |ls|
  {
    ls == [] || (NotAPop(s, ls[0]) && NobodyPops(c, Fire(c, s, ls[0]), ls[1..]))
  }

  lemma ClientKeepsStuckOnTask(c: Config, s: State, j: nat, k: nat, w: nat)
    requires StuckOnTask(s, w) && Enabled(s, Act(j, k))
    ensures StuckOnTask(ClientStep(c, s, j, k), w)
  {
    hide Submit, SameOrWoken;
  }

  lemma WorkerKeepsStuckOnTask(c: Config, s: State, i: nat, k: nat, w: nat)
    requires StuckOnTask(s, w) && Enabled(s, Work(i, k))
    ensures StuckOnTask(WorkerStep(c, s, i, k), w)
  {
    hide Handle, Surplus, SameOrWoken;
  }

  lemma StepKeepsStuckOnTask(c: Config, s: State, l: Label, w: nat)
    requires StuckOnTask(s, w) && Enabled(s, l) && !l.Spurious?
    ensures StuckOnTask(Fire(c, s, l), w)
  {
    hide ClientStep, WorkerStep;
    match l
    case Act(j, k) => ClientKeepsStuckOnTask(c, s, j, k, w);
    case Work(i, k) => WorkerKeepsStuckOnTask(c, s, i, k, w);
    case _ =>
  }

  lemma ClientKeepsStuckOnResult(c: Config, s: State, j: nat, k: nat, w: nat)
    requires StuckOnResult(c, s, w) && Enabled(s, Act(j, k)) && NotAPop(s, Act(j, k))
    ensures StuckOnResult(c, ClientStep(c, s, j, k), w)
  {
    hide Submit, SameOrWoken;
  }

  lemma WorkerKeepsStuckOnResult(c: Config, s: State, i: nat, k: nat, w: nat)
    requires Enabled(s, Work(i, k)) && WorkerKnows(c, s, s.workers[i]) && StuckOnResult(c, s, w)
    ensures StuckOnResult(c, WorkerStep(c, s, i, k), w)
  {
    hide Handle, Surplus, SameOrWoken;
  }

  lemma StepKeepsStuckOnResult(c: Config, s: State, l: Label, w: nat)
    requires Safe(c, s) && StuckOnResult(c, s, w) && Enabled(s, l) && NotAPop(s, l)
    ensures StuckOnResult(c, Fire(c, s, l), w)
  {
    hide ClientStep, WorkerStep, Locks;
    match l
    case Act(j, k) => ClientKeepsStuckOnResult(c, s, j, k, w);
    case Work(i, k) => WorkerKeepsStuckOnResult(c, s, i, k, w);
    case _ =>
  }

  /** Once stuck, stuck for good: without spurious wake-ups worker w never leaves its wait, and no call of
      shutdown gets past its join. */
  lemma {:induction false} StuckOnTaskForever(c: Config, s: State, ls: seq<Label>, w: nat)
    requires StuckOnTask(s, w) && Run(c, s, ls) && NoSpurious(ls)
    ensures StuckOnTask(After(c, s, ls), w)
    ensures forall j: nat, k: nat :: j < |After(c, s, ls).clients| && After(c, s, ls).clients[j].StopJoin? ==>
              !Enabled(After(c, s, ls), Act(j, k))
    decreases |ls|
  {
    if ls != [] {
      StepKeepsStuckOnTask(c, s, ls[0], w);
      hide Fire, StuckOnTask;
      StuckOnTaskForever(c, Fire(c, s, ls[0]), ls[1..], w);
    }
  }

  /** The same for a worker waiting for room, as long as nobody pops. */
  lemma {:induction false} StuckOnResultUntilPop(c: Config, s: State, ls: seq<Label>, w: nat)
    requires Safe(c, s) && StuckOnResult(c, s, w) && Run(c, s, ls) && NobodyPops(c, s, ls)
    ensures StuckOnResult(c, After(c, s, ls), w)
    decreases |ls|
  {
    if ls != [] {
      StepKeepsSafe(c, s, ls[0]);
      StepKeepsStuckOnResult(c, s, ls[0], w);
      hide Fire, StuckOnResult, Safe;
      StuckOnResultUntilPop(c, Fire(c, s, ls[0]), ls[1..], w);
    }
  }

  lemma OneMore(c: Config, s: State, l: Label, rest: seq<Label>)
    requires Enabled(s, l) && !l.Spurious? && Run(c, Fire(c, s, l), rest) && NoSpurious(rest)
    ensures Run(c, s, [l] + rest) && After(c, s, [l] + rest) == After(c, Fire(c, s, l), rest) && NoSpurious([l] + rest)
  {
    RunCons(c, s, l, rest);
  }

  // ---------------------------------------------------------------- missing the task notification

  /** Worker w has found its task predicate false and has not blocked; stop has been set since. */
  predicate MissingTask(s: State, w: nat) {
    && w < |s.workers| && s.workers[w].ParkTask?
    && s.stop && s.tasks == []
    && (forall i :: 0 <= i < |s.workers| ==> !s.workers[i].WaitTask?)
    && (forall j :: 0 <= j < |s.clients| ==> !s.clients[j].SubmitQueue?)
  }

  predicate TaskNoteDue(s: State, l: Label) {
    match l
    case Act(j, k) => j < |s.clients| && k == 0 && (s.clients[j].SubmitNotify? || s.clients[j].StopNotifyTasks?)
    case Work(i, k) => i < |s.workers| && k == 0 && s.workers[i].NotifyTaken?
    case _ => false
  }

  lemma TaskNoteKeepsMissing(c: Config, s: State, l: Label, w: nat)
    requires MissingTask(s, w) && TaskNoteDue(s, l)
    ensures Enabled(s, l) && MissingTask(Fire(c, s, l), w)
  {
    match l
    case Act(j, k) => hide Submit, SameOrWoken;
    case Work(i, k) => hide ResultSideStep, SameOrWoken;
    case _ =>
  }

  /** All notifications of task_cv that are due can be delivered before w blocks. */
  lemma {:induction false} DeliverTaskNotes(c: Config, s: State, w: nat) returns (ls: seq<Label>)
    requires Safe(c, s) && MissingTask(s, w)
    ensures Run(c, s, ls) && NoSpurious(ls) && AllInternal(ls)
    ensures MissingTask(After(c, s, ls), w)
    ensures forall l :: !TaskNoteDue(After(c, s, ls), l)
    decreases Fuel(s)
  {
    if l :| TaskNoteDue(s, l) {
      TaskNoteKeepsMissing(c, s, l, w);
      var t := Fire(c, s, l);
      hide Locks, Guards, Fire, Fuel, Falls, Enabled, Run, After, MissingTask;
      StepKeepsSafe(c, s, l);
      InternalStepFalls(c, s, l);
      SizesStay(c, s, l);
      FallingBurnsFuel(s, t);
      var rest := DeliverTaskNotes(c, t, w);
      ls := [l] + rest;
      OneMore(c, s, l, rest);
    } else {
      ls := [];
    }
  }

  lemma ParkingGetsStuck(c: Config, s: State, w: nat)
    requires MissingTask(s, w) && forall l :: !TaskNoteDue(s, l)
    ensures Enabled(s, Work(w, 0)) && StuckOnTask(Fire(c, s, Work(w, 0)), w)
  {
    forall i | 0 <= i < |s.workers|
      ensures !s.workers[i].NotifyTaken?
    {
      assert !TaskNoteDue(s, Work(i, 0));
    }
    forall j | 0 <= j < |s.clients|
      ensures !s.clients[j].SubmitNotify? && !s.clients[j].StopNotifyTasks?
    {
      assert !TaskNoteDue(s, Act(j, 0));
    }
    hide TaskNoteDue, ResultSideStep;
  }

  lemma SnocRun(c: Config, s: State, ls: seq<Label>, l: Label)
    requires Run(c, s, ls) && Enabled(After(c, s, ls), l) && NoSpurious(ls) && !l.Spurious?
    ensures Run(c, s, ls + [l]) && NoSpurious(ls + [l])
    ensures After(c, s, ls + [l]) == Fire(c, After(c, s, ls), l)
  {
    hide Fire, Enabled;
    assert Run(c, After(c, s, ls), [l]);
    RunConcat(c, s, ls, [l]);
  }

  lemma MissedTaskNotification(c: Config, s: State, j: nat, k: nat, w: nat) returns (ls: seq<Label>)
    requires Safe(c, s) && Enabled(s, Act(j, k)) && s.clients[j].StopNotifyTasks?
    requires w < |s.workers| && s.workers[w].ParkTask?
    ensures var t := Fire(c, s, Act(j, k));
            Run(c, t, ls) && NoSpurious(ls) && AllInternal(ls) && StuckOnTask(After(c, t, ls), w)
  {
    var t := Fire(c, s, Act(j, k));
    assert MissingTask(t, w) by {
      assert WorkerKnows(c, s, s.workers[w]);
      assert HoldsTaskMutex(s.workers[w]) == TaskMutexOf(s, w);
      forall m | 0 <= m < |s.clients|
        ensures !s.clients[m].SubmitQueue?
      {
        assert ClientHoldsTaskMutex(s.clients[m]) == ClientMutexOf(s, m);
      }
      hide Locks, WorkerKnows;
    }
    StepKeepsSafe(c, s, Act(j, k));
    hide Fire, Enabled, Locks, Guards, MissingTask, StuckOnTask, TaskNoteDue;
    var notes := DeliverTaskNotes(c, t, w);
    var u := After(c, t, notes);
    ParkingGetsStuck(c, u, w);
    ls := notes + [Work(w, 0)];
    SnocRun(c, t, notes, Work(w, 0));
  }

  lemma NotifyingTasksClearsWaiters(c: Config, s: State, j: nat, k: nat)
    requires Guards(c, s) && Enabled(s, Act(j, k)) && s.clients[j].StopNotifyTasks?
    requires forall w :: 0 <= w < |s.workers| ==> !s.workers[w].ParkTask?
    ensures NoTaskParking(Fire(c, s, Act(j, k)))
  {
  }

  /** The exact condition, task side: after shutdown's notify_all on task_cv some run without spurious
      wake-ups leaves a worker blocked there for ever if and only if, at that very step, some worker sits
      between its predicate check and its park. */
  lemma ShutdownMissesTaskWaiterIff(c: Config, s: State, j: nat, k: nat)
    requires ValidConfig(c) && Reachable(c, s)
    requires Enabled(s, Act(j, k)) && s.clients[j].StopNotifyTasks?
    ensures (exists w :: 0 <= w < |s.workers| && s.workers[w].ParkTask?)
       <==> (exists w: nat, ls :: && Run(c, Fire(c, s, Act(j, k)), ls) && NoSpurious(ls)
                                  && StuckOnTask(After(c, Fire(c, s, Act(j, k)), ls), w))
  {
    ReachableInvariant(c, s);
    var t := Fire(c, s, Act(j, k));
    if w: nat :| w < |s.workers| && s.workers[w].ParkTask? {
      hide Fire, Locks, Guards, Run, After, StuckOnTask;
      var ls := MissedTaskNotification(c, s, j, k, w);
    } else {
      NotifyingTasksClearsWaiters(c, s, j, k);
      hide Fire, Locks, Guards, Run, After;
      forall w: nat, ls | Run(c, t, ls)
        ensures !StuckOnTask(After(c, t, ls), w)
      {
        RunKeepsNoTaskParking(c, t, ls);
      }
    }
  }

  /** Worker 0 takes the mutex and finds the queue empty; then the client calls shutdown and sets the flag. */
  lemma CheckThenStop(c: Config) returns (s: State, ls: seq<Label>)
    requires ValidConfig(c)
    ensures Run(c, Initial(c, 1), ls) && NoSpurious(ls) && After(c, Initial(c, 1), ls) == s
    ensures |s.workers| == c.workers && s.workers[0].ParkTask? && s.clients == [StopNotifyTasks]
    ensures s.stop && s.tasks == [] && forall i :: 1 <= i < c.workers ==> s.workers[i].AtTaskLock?
  {
    var s0 := Initial(c, 1);
    var s2 := Fire(c, Fire(c, s0, Work(0, 0)), Work(0, 0));
    TwoMore(c, s0, Work(0, 0), Work(0, 0));
    s := Fire(c, Fire(c, s2, Begin(0, ShutdownOp)), Act(0, 0));
    TwoMore(c, s2, Begin(0, ShutdownOp), Act(0, 0));
    hide Fire, Enabled, Run, After;
    ls := [Work(0, 0), Work(0, 0)] + [Begin(0, ShutdownOp), Act(0, 0)];
    RunConcat(c, s0, [Work(0, 0), Work(0, 0)], [Begin(0, ShutdownOp), Act(0, 0)]);
  }

  /** And it does happen: in every pool, a worker that found the queue empty just before stop was set can
      sleep through shutdown, which is then stuck in its join (StuckOnTaskForever). */
  lemma ShutdownCanHang(c: Config) returns (ls: seq<Label>)
    requires ValidConfig(c)
    ensures Run(c, Initial(c, 1), ls) && NoSpurious(ls)
    ensures var s := After(c, Initial(c, 1), ls); StuckOnTask(s, 0) && s.clients == [StopJoin]
  {
    var s, start := CheckThenStop(c);
    var t := Fire(c, Fire(c, s, Act(0, 0)), Act(0, 0));
    TwoMore(c, s, Act(0, 0), Act(0, 0));
    assert StuckOnTask(Fire(c, t, Work(0, 0)), 0) && Fire(c, t, Work(0, 0)).clients == [StopJoin];
    assert Enabled(t, Work(0, 0));
    hide Fire, Enabled, StuckOnTask;
    var middle := start + [Act(0, 0), Act(0, 0)];
    RunConcat(c, Initial(c, 1), start, [Act(0, 0), Act(0, 0)]);
    ls := middle + [Work(0, 0)];
    SnocRun(c, Initial(c, 1), middle, Work(0, 0));
  }

  // ---------------------------------------------------------------- missing the result notification

  /** Worker w has found the result queue full and has not blocked; stop has been set since. */
  predicate MissingResult(c: Config, s: State, w: nat) {
    && w < |s.workers| && s.workers[w].ParkResult?
    && s.stop && |s.results| >= c.resultCapacity && c.resultPolicy == BlockWorkerUntilPopped
    && (forall i :: 0 <= i < |s.workers| ==> !s.workers[i].WaitResult? && !s.workers[i].Push?)
  }

  predicate ResultNoteDue(s: State, l: Label) {
    match l
    case Act(j, k) =>
      j < |s.clients| && k == 0 &&
      (s.clients[j].PopNotify? || s.clients[j].StopNotifyTasks? || s.clients[j].StopNotifyResults?)
    case Work(i, k) => i < |s.workers| && k == 0 && s.workers[i].NotifyPushed?
    case _ => false
  }

  lemma ResultNoteKeepsMissing(c: Config, s: State, l: Label, w: nat)
    requires MissingResult(c, s, w) && ResultNoteDue(s, l)
    ensures Enabled(s, l) && NotAPop(s, l) && MissingResult(c, Fire(c, s, l), w)
  {
    match l
    case Act(j, k) => hide Submit, SameOrWoken;
    case Work(i, k) => hide TaskSideStep, SameOrWoken;
    case _ =>
  }

  lemma OneMoreNoPop(c: Config, s: State, l: Label, rest: seq<Label>)
    requires Enabled(s, l) && NotAPop(s, l) && Run(c, Fire(c, s, l), rest) && NobodyPops(c, Fire(c, s, l), rest)
    ensures Run(c, s, [l] + rest) && After(c, s, [l] + rest) == After(c, Fire(c, s, l), rest)
    ensures NobodyPops(c, s, [l] + rest)
  {
    RunCons(c, s, l, rest);
    hide Fire, Enabled, NotAPop;
    assert ([l] + rest)[1..] == rest;
  }

  /** All notifications of result_cv that are due can be delivered, and then w can block, with nobody popping. */
  lemma {:induction false} DeliverResultNotesAndPark(c: Config, s: State, w: nat) returns (ls: seq<Label>)
    requires Safe(c, s) && MissingResult(c, s, w)
    ensures Run(c, s, ls) && NobodyPops(c, s, ls) && AllInternal(ls)
    ensures StuckOnResult(c, After(c, s, ls), w)
    decreases Fuel(s)
  {
    if l :| ResultNoteDue(s, l) {
      ResultNoteKeepsMissing(c, s, l, w);
      var t := Fire(c, s, l);
      hide Locks, Guards, Fire, Fuel, Falls, Enabled, Run, After, MissingResult, NobodyPops, NotAPop;
      StepKeepsSafe(c, s, l);
      InternalStepFalls(c, s, l);
      SizesStay(c, s, l);
      FallingBurnsFuel(s, t);
      var rest := DeliverResultNotesAndPark(c, t, w);
      ls := [l] + rest;
      OneMoreNoPop(c, s, l, rest);
    } else {
      ParkingGetsStuckOnResult(c, s, w);
      hide Fire, Enabled, StuckOnResult, MissingResult, ResultNoteDue;
      ls := [Work(w, 0)] + [];
      OneMoreNoPop(c, s, Work(w, 0), []);
    }
  }

  lemma ParkingGetsStuckOnResult(c: Config, s: State, w: nat)
    requires MissingResult(c, s, w) && forall l :: !ResultNoteDue(s, l)
    ensures Enabled(s, Work(w, 0)) && StuckOnResult(c, Fire(c, s, Work(w, 0)), w)
  {
    forall i | 0 <= i < |s.workers|
      ensures !s.workers[i].NotifyPushed?
    {
      assert !ResultNoteDue(s, Work(i, 0));
    }
    forall j | 0 <= j < |s.clients|
      ensures !s.clients[j].PopNotify? && !s.clients[j].StopNotifyTasks? && !s.clients[j].StopNotifyResults?
    {
      assert !ResultNoteDue(s, Act(j, 0));
    }
    hide ResultNoteDue, TaskSideStep;
  }

  lemma MissedResultNotification(c: Config, s: State, j: nat, k: nat, w: nat) returns (ls: seq<Label>)
    requires Safe(c, s) && Enabled(s, Act(j, k)) && s.clients[j].StopNotifyResults?
    requires w < |s.workers| && s.workers[w].ParkResult?
    ensures var t := Fire(c, s, Act(j, k));
            Run(c, t, ls) && NobodyPops(c, t, ls) && AllInternal(ls) && StuckOnResult(c, After(c, t, ls), w)
  {
    var t := Fire(c, s, Act(j, k));
    assert MissingResult(c, t, w) by {
      assert WorkerKnows(c, s, s.workers[w]);
      assert HoldsResultMutex(s.workers[w]) == ResultMutexOf(s, w);
      forall m | 0 <= m < |s.workers|
        ensures !s.workers[m].Push?
      {
        assert HoldsResultMutex(s.workers[m]) == ResultMutexOf(s, m);
      }
      hide Locks, WorkerKnows;
    }
    StepKeepsSafe(c, s, Act(j, k));
    hide Fire, Enabled, Locks, Guards, MissingResult, StuckOnResult;
    ls := DeliverResultNotesAndPark(c, t, w);
  }

  lemma NotifyingResultsClearsWaiters(c: Config, s: State, j: nat, k: nat)
    requires Guards(c, s) && Enabled(s, Act(j, k)) && s.clients[j].StopNotifyResults?
    requires forall w :: 0 <= w < |s.workers| ==> !s.workers[w].ParkResult?
    ensures NoResultParking(Fire(c, s, Act(j, k)))
  {
  }

  /** The exact condition, result side: after shutdown's notify_all on result_cv some run in which nobody pops
      leaves a worker blocked there if and only if, at that very step, some worker sits between its
      predicate check and its park. */
  lemma ShutdownMissesResultWaiterIff(c: Config, s: State, j: nat, k: nat)
    requires ValidConfig(c) && Reachable(c, s)
    requires Enabled(s, Act(j, k)) && s.clients[j].StopNotifyResults?
    ensures (exists w :: 0 <= w < |s.workers| && s.workers[w].ParkResult?)
       <==> (exists w: nat, ls :: && Run(c, Fire(c, s, Act(j, k)), ls) && NobodyPops(c, Fire(c, s, Act(j, k)), ls)
                                  && StuckOnResult(c, After(c, Fire(c, s, Act(j, k)), ls), w))
  {
    ReachableInvariant(c, s);
    var t := Fire(c, s, Act(j, k));
    if w: nat :| w < |s.workers| && s.workers[w].ParkResult? {
      hide Fire, Locks, Guards, Run, After, StuckOnResult, NobodyPops;
      var ls := MissedResultNotification(c, s, j, k, w);
    } else {
      NotifyingResultsClearsWaiters(c, s, j, k);
      hide Fire, Locks, Guards, Run, After;
      forall w: nat, ls | Run(c, t, ls)
        ensures !StuckOnResult(c, After(c, t, ls), w)
      {
        RunKeepsNoResultParking(c, t, ls);
      }
    }
  }

  // ---------------------------------------------------------------- check and park as one step

  /** A worker whose predicate was false blocks before anybody else moves. */
  predicate ParksAtOnce(s: State, l: Label) {
    forall w :: 0 <= w < |s.workers| && (s.workers[w].ParkTask? || s.workers[w].ParkResult?) ==>
                  l.Work? && l.worker == w
  }

  predicate AtomicParking(c: Config, s: State, ls: seq<Label>)
    requires Run(c, s, ls)
    decreases |ls|
  {
    ls == [] || (ParksAtOnce(s, ls[0]) && AtomicParking(c, Fire(c, s, ls[0]), ls[1..]))
  }

  /** After stop, shutdown's notification of task_cv is due or nobody blocks there any more; likewise
      for result_cv. */
  predicate StopReaches(s: State) {
    s.stop ==>
      && ((exists j :: 0 <= j < |s.clients| && s.clients[j].StopNotifyTasks?) || NoTaskParking(s))
      && ((exists j :: 0 <= j < |s.clients| && (s.clients[j].StopNotifyTasks? || s.clients[j].StopNotifyResults?))
          || NoResultParking(s))
  }

  lemma ClientStepKeepsStopReaches(c: Config, s: State, j: nat, k: nat)
    requires StopReaches(s) && Enabled(s, Act(j, k)) && ParksAtOnce(s, Act(j, k))
    ensures StopReaches(ClientStep(c, s, j, k))
  {
    hide Submit;
    var t := ClientStep(c, s, j, k);
    if t.stop {
      if m :| 0 <= m < |s.clients| && m != j && s.clients[m].StopNotifyTasks? {
        assert t.clients[m].StopNotifyTasks?;
      }
      if m :| 0 <= m < |s.clients| && m != j && s.clients[m].StopNotifyResults? {
        assert t.clients[m].StopNotifyResults?;
      }
      if s.clients[j].StopExchange? {
        assert s.stop || t.clients[j].StopNotifyTasks?;
      }
      if s.clients[j].StopNotifyTasks? {
        assert t.clients[j].StopNotifyResults?;
      }
    }
  }

  lemma StepKeepsStopReaches(c: Config, s: State, l: Label)
    requires StopReaches(s) && Enabled(s, l) && ParksAtOnce(s, l)
    ensures StopReaches(Fire(c, s, l))
  {
    var t := Fire(c, s, l);
    if l.Act? {
      ClientStepKeepsStopReaches(c, s, l.client, l.wake);
    } else if s.stop {
      if NoTaskParking(s) {
        StepKeepsNoTaskParking(c, s, l);
      }
      if NoResultParking(s) {
        StepKeepsNoResultParking(c, s, l);
      }
      hide ClientStep, WorkerStep, NoTaskParking, NoResultParking;
      if m :| 0 <= m < |s.clients| && s.clients[m].StopNotifyTasks? {
        assert t.clients[m].StopNotifyTasks?;
      }
      if m :| 0 <= m < |s.clients| && s.clients[m].StopNotifyResults? {
        assert t.clients[m].StopNotifyResults?;
      }
    } else {
      hide ClientStep, WorkerStep;
    }
  }

  lemma {:induction false} AtomicRunKeepsStopReaches(c: Config, s: State, ls: seq<Label>)
    requires StopReaches(s) && Run(c, s, ls) && AtomicParking(c, s, ls)
    ensures StopReaches(After(c, s, ls))
    decreases |ls|
  {
    if ls != [] {
      StepKeepsStopReaches(c, s, ls[0]);
      hide Fire, StopReaches, ParksAtOnce;
      AtomicRunKeepsStopReaches(c, Fire(c, s, ls[0]), ls[1..]);
    }
  }

  lemma NothingToReachYet(c: Config, clients: nat)
    ensures StopReaches(Initial(c, clients))
  {
  }

  lemma InvariantLocks(c: Config, s: State)
    requires Invariant(c, s)
    ensures Locks(s)
  {
  }

  /** At rest no notification of shutdown is due, so after stop nobody blocks. */
  lemma NobodyParksAtRest(c: Config, s: State)
    requires StopReaches(s) && s.stop && Locks(s) && Quiescent(s)
    ensures NoTaskParking(s) && NoResultParking(s)
  {
    hide Locks, Quiescent;
    EveryoneRests(c, s);
  }

  /** If check and park were one step, shutdown would always finish: a run that sets the flag and cannot be
      extended ends with every worker gone and every call returned. */
  lemma AtomicParkingAlwaysExits(c: Config, clients: nat, ls: seq<Label>)
    requires ValidConfig(c)
    requires Run(c, Initial(c, clients), ls) && AtomicParking(c, Initial(c, clients), ls)
    requires After(c, Initial(c, clients), ls).stop && Quiescent(After(c, Initial(c, clients), ls))
    ensures var t := After(c, Initial(c, clients), ls);
            && (forall i :: 0 <= i < |t.workers| ==> t.workers[i].Exited?)
            && (forall j :: 0 <= j < |t.clients| ==> t.clients[j].Idle?)
  {
    hide Run, After, Quiescent, AtomicParking, Invariant, Fire, Enabled, StopReaches;
    var t := After(c, Initial(c, clients), ls);
    InitialInvariant(c, clients);
    NothingToReachYet(c, clients);
    AtomicRunKeepsStopReaches(c, Initial(c, clients), ls);
    RunKeepsInvariant(c, Initial(c, clients), ls);
    InvariantLocks(c, t);
    NobodyParksAtRest(c, t);
    AllGone(c, t);
  }
}
