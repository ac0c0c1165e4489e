/** How a shutdown comes to hang: a worker is brought between its check and its park, and then the call passes it by.
    For every state before stop there is such a continuation if some client may still pop and submit. */
module PoolHang {
  import opened WorkerPool
  import opened PoolSafety
  import opened PoolInvariant
  import opened PoolProgress
  import opened PoolShutdown

  /** No spurious wake-ups, and all new calls are made by client h. */
  predicate CallsBy(ls: seq<Label>, h: nat) {
    forall i :: 0 <= i < |ls| ==> !ls[i].Spurious? && (ls[i].Begin? ==> ls[i].client == h)
  }

  lemma CallsByConcat(a: seq<Label>, b: seq<Label>, h: nat)
    requires CallsBy(a, h) && CallsBy(b, h)
    ensures CallsBy(a + b, h)
  {
  }

  // ---------------------------------------------------------------- calming down without setting the flag

  /** The pool has not been stopped, client j is idle, and client h, who may be the same, is not about to stop it. */
  predicate Helped(s: State, h: nat, j: nat) {
    && !s.stop && h < |s.clients| && !s.clients[h].StopExchange?
    && j < |s.clients| && s.clients[j].Idle?
  }

  lemma CalmingFrame(c: Config, s: State, l: Label, h: nat, j: nat)
    requires Helped(s, h, j) && Internal(l) && Enabled(s, l) && !Stops(s, l)
    ensures Helped(Fire(c, s, l), h, j)
  {
    hide ClientStep, WorkerStep;
    if l.Act? {
      CalmingClient(c, s, l.client, l.wake);
    }
  }

  lemma CalmingClient(c: Config, s: State, k: nat, w: nat)
    requires Enabled(s, Act(k, w)) && !s.clients[k].StopExchange?
    ensures !ClientStep(c, s, k, w).clients[k].StopExchange?
  {
    hide Submit, SameOrWoken;
  }

  /** What a step on the way to calm preserves. */
  lemma CalmingStep(c: Config, s: State, l: Label, h: nat, j: nat)
    requires Invariant(c, s) && Helped(s, h, j) && Internal(l) && Enabled(s, l) && !Stops(s, l)
    ensures var t := Fire(c, s, l);
            Invariant(c, t) && Helped(t, h, j) && Fuel(t) < Fuel(s) && WorkOf(t) <= WorkOf(s)
  {
    CalmingFrame(c, s, l, h, j);
    StepKeepsInvariant(c, s, l);
    hide Locks, Guards, PoolLedger.Ledger, PoolOrder.Order, PoolWakeups.Wakeups, Fire, Enabled, Fuel, WorkOf;
    InternalStepFalls(c, s, l);
    SizesStay(c, s, l);
    FallingBurnsFuel(s, Fire(c, s, l));
  }

  lemma OneMoreCall(c: Config, s: State, l: Label, rest: seq<Label>, h: nat)
    requires Enabled(s, l) && Internal(l) && Run(c, Fire(c, s, l), rest) && CallsBy(rest, h)
    ensures Run(c, s, [l] + rest) && After(c, s, [l] + rest) == After(c, Fire(c, s, l), rest) && CallsBy([l] + rest, h)
  {
    RunCons(c, s, l, rest);
  }

  lemma {:induction false} RunToCalm(c: Config, s: State, h: nat, j: nat) returns (ls: seq<Label>)
    requires Invariant(c, s) && Helped(s, h, j)
    ensures Run(c, s, ls) && CallsBy(ls, h)
    ensures var t := After(c, s, ls); Invariant(c, t) && Helped(t, h, j) && Calm(t) && WorkOf(t) <= WorkOf(s)
    decreases Fuel(s)
  {
    if Calm(s) {
      ls := [];
    } else {
      var l :| Internal(l) && Enabled(s, l) && !Stops(s, l);
      hide Invariant, Fire, Fuel, WorkOf, Calm, Enabled, Run, After, Stops, Helped;
      CalmingStep(c, s, l, h, j);
      var rest := RunToCalm(c, Fire(c, s, l), h, j);
      ls := [l] + rest;
      OneMoreCall(c, s, l, rest, h);
    }
  }

  // ---------------------------------------------------------------- making room for a result

  lemma PopOne(c: Config, s: State, h: nat)
    requires Invariant(c, s) && h < |s.clients| && s.clients[h].Idle?
    requires s.resultOwner.Free? && s.results != []
    ensures var ls := [Begin(h, PopOp), Act(h, 0), Act(h, 0)];
            && Run(c, s, ls) && CallsBy(ls, h)
            && var t := After(c, s, ls);
               && Invariant(c, t) && t.stop == s.stop && t.clients == s.clients
               && t.workers == WakeAllResult(s.workers) && WorkOf(t) < WorkOf(s)
  {
    hide Invariant;
    var ls := [Begin(h, PopOp), Act(h, 0), Act(h, 0)];
    ThreeMore(c, s, ls[0], ls[1], ls[2]);
    var t := After(c, s, ls);
    assert s.clients[h := PopLock][h := PopNotify][h := Idle] == s.clients;
    assert t == s.(results := s.results[1..], workers := WakeAllResult(s.workers),
                   log := s.log.(popped := s.log.popped + [s.results[0]]));
    WorkerSumsAfterWaking(s.workers, t.workers);
    hide Fire, Enabled, Run, After;
    RunKeepsInvariant(c, s, ls);
  }

  /** Calm, with room among the results: client h finishes what it is doing and then pops as often as needed. */
  lemma {:induction false} RunToRoom(c: Config, s: State, h: nat, j: nat) returns (ls: seq<Label>)
    requires Invariant(c, s) && Helped(s, h, j)
    ensures Run(c, s, ls) && CallsBy(ls, h)
    ensures var t := After(c, s, ls);
            && Invariant(c, t) && Helped(t, h, j) && Calm(t) && t.clients[h].Idle?
            && (|t.results| < c.resultCapacity || c.resultPolicy == DropOldestCompletedResult)
    decreases WorkOf(s)
  {
    hide Invariant, Calm, Run, After, WorkOf, Fire, Enabled, CallsBy;
    ls := RunToCalm(c, s, h, j);
    var t := After(c, s, ls);
    CalmHelper(c, t, h, j);
    if |t.results| >= c.resultCapacity && c.resultPolicy != DropOldestCompletedResult {
      CalmBasics(c, t);
      PopOne(c, t, h);
      var pop := [Begin(h, PopOp), Act(h, 0), Act(h, 0)];
      var u := After(c, t, pop);
      var rest := RunToRoom(c, u, h, j);
      RunConcat(c, s, ls, pop);
      RunConcat(c, s, ls + pop, rest);
      CallsByConcat(ls, pop, h);
      CallsByConcat(ls + pop, rest, h);
      ls := ls + pop + rest;
    }
  }

  lemma CalmHelper(c: Config, s: State, h: nat, j: nat)
    requires Invariant(c, s) && Calm(s) && Helped(s, h, j)
    ensures s.clients[h].Idle?
  {
    hide PoolLedger.Ledger, PoolOrder.Order, PoolWakeups.Wakeups, Calm;
    EveryoneIsCalm(c, s);
    hide Locks, WorkerKnows;
  }

  lemma CalmBasics(c: Config, s: State)
    requires Invariant(c, s) && Calm(s)
    ensures ValidConfig(c) && 1 <= |s.workers| && s.taskOwner.Free? && s.resultOwner.Free?
  {
    hide Locks, PoolLedger.Ledger, PoolOrder.Order, PoolWakeups.Wakeups, Calm;
    MutexesAreFree(c, s);
  }

  // ---------------------------------------------------------------- one task, handled by worker 0 alone

  /** Only worker 0 is awake and only client j may move. */
  predicate Alone(s: State, j: nat) {
    && !s.stop && j < |s.clients| && 1 <= |s.workers|
    && (forall k :: 0 <= k < |s.clients| && k != j ==> s.clients[k].Idle? || s.clients[k].StopExchange?)
    && (forall i :: 1 <= i < |s.workers| ==> s.workers[i].WaitTask? || s.workers[i].WokenTask?)
  }

  lemma SubmitAlone(c: Config, s: State, j: nat, x: Task)
    requires ValidConfig(c) && !s.stop && j < |s.clients| && s.clients[j].Idle?
    requires s.tasks == [] && s.taskOwner.Free?
    ensures var ls := [Begin(j, SubmitOp(x)), Act(j, 0), Act(j, 0), Act(j, 0)];
            && Run(c, s, ls)
            && var t := After(c, s, ls);
               && t.clients == s.clients[j := SubmitNotify] && t.workers == s.workers && t.tasks == [x] && !t.stop
               && t.results == s.results && t.taskOwner.Free? && t.resultOwner == s.resultOwner
  {
    var ls := [Begin(j, SubmitOp(x)), Act(j, 0), Act(j, 0), Act(j, 0)];
    var s2 := Fire(c, Fire(c, s, ls[0]), ls[1]);
    assert s2 == s.(taskOwner := Client(j), clients := s.clients[j := SubmitLoadStop(x)]);
    FourMore(c, s, ls[0], ls[1], ls[2], ls[3]);
    hide SameOrWoken;
  }

  lemma NotifyZero(c: Config, s: State, j: nat)
    requires j < |s.clients| && s.clients[j].SubmitNotify? && 1 <= |s.workers| && s.workers[0].WaitTask?
    ensures var ls := [Act(j, 0)];
            && Run(c, s, ls)
            && After(c, s, ls) == s.(clients := s.clients[j := Idle], workers := s.workers[0 := WokenTask])
  {
    assert [Act(j, 0)] + [] == [Act(j, 0)];
    RunCons(c, s, Act(j, 0), []);
  }

  lemma SubmitFromRest(c: Config, s: State, j: nat, x: Task) returns (ls: seq<Label>)
    requires ValidConfig(c) && Alone(s, j) && s.clients[j].Idle? && s.workers[0].WaitTask?
    requires s.tasks == [] && s.taskOwner.Free? && s.resultOwner.Free?
    ensures Run(c, s, ls) && CallsBy(ls, j)
    ensures var t := After(c, s, ls);
            && Alone(t, j) && t.clients == s.clients && t.workers[0].WokenTask?
            && t.tasks == [x] && t.results == s.results && t.taskOwner.Free? && t.resultOwner.Free?
  {
    hide Fire, Enabled, Run, After;
    var submit := [Begin(j, SubmitOp(x)), Act(j, 0), Act(j, 0), Act(j, 0)];
    SubmitAlone(c, s, j, x);
    var s4 := After(c, s, submit);
    NotifyZero(c, s4, j);
    assert s.clients[j := SubmitNotify][j := Idle] == s.clients;
    ls := submit + [Act(j, 0)];
    RunConcat(c, s, submit, [Act(j, 0)]);
  }

  /** Worker 0 takes the task. */
  lemma TakeAlone(c: Config, s: State, j: nat, x: Task)
    requires Alone(s, j) && s.clients[j].Idle? && s.workers[0].WokenTask?
    requires s.tasks == [x] && s.taskOwner.Free? && s.resultOwner.Free?
    ensures var w := Work(0, 0);
            && Run(c, s, [w, w, w, w])
            && var t := After(c, s, [w, w, w, w]);
               && Alone(t, j) && t.clients == s.clients && t.workers[0] == Dispatching(x)
               && t.tasks == [] && t.results == s.results && t.taskOwner.Free? && t.resultOwner.Free?
  {
    var w := Work(0, 0);
    var s2 := Fire(c, Fire(c, s, w), w);
    assert s2.workers == s.workers[0 := TakeTask] && s2.tasks == [x] && s2.clients == s.clients;
    var s3 := Fire(c, s2, w);
    assert s3.workers == s.workers[0 := NotifyTaken(x)] && s3.tasks == [] && s3.taskOwner.Free?;
    FourMore(c, s, w, w, w, w);
    hide SameOrWoken;
  }

  /** It dispatches the task and takes the result mutex. */
  lemma FinishAlone(c: Config, s: State, j: nat)
    requires Alone(s, j) && s.workers[0].Dispatching? && s.resultOwner.Free?
    ensures var w := Work(0, 0);
            && Run(c, s, [w, w])
            && var t := After(c, s, [w, w]);
               && Alone(t, j) && t.clients == s.clients && t.tasks == s.tasks && t.taskOwner == s.taskOwner
               && t.results == s.results
               && if c.resultPolicy == DropOldestCompletedResult then t.workers[0].Evict? else t.workers[0].CheckResult?
  {
    hide Handle, SameOrWoken, Run, After;
    TwoMore(c, s, Work(0, 0), Work(0, 0));
  }

  /** It finds room, or makes it, and reads the flag clear. */
  lemma MakeRoomAlone(c: Config, s: State, j: nat)
    requires Alone(s, j) && (s.workers[0].Evict? || (s.workers[0].CheckResult? && |s.results| < c.resultCapacity))
    ensures var w := Work(0, 0);
            && Run(c, s, [w, w])
            && var t := After(c, s, [w, w]);
               && Alone(t, j) && t.clients == s.clients && t.tasks == s.tasks && t.taskOwner == s.taskOwner
               && t.workers[0].Push?
  {
    hide Surplus, SameOrWoken, Run, After;
    TwoMore(c, s, Work(0, 0), Work(0, 0));
  }

  lemma DispatchAlone(c: Config, s: State, j: nat)
    requires Alone(s, j) && s.clients[j].Idle? && s.workers[0].Dispatching?
    requires s.tasks == [] && s.taskOwner.Free? && s.resultOwner.Free?
    requires |s.results| < c.resultCapacity || c.resultPolicy == DropOldestCompletedResult
    ensures var w := Work(0, 0);
            && Run(c, s, [w, w] + [w, w])
            && var t := After(c, s, [w, w] + [w, w]);
               && Alone(t, j) && t.clients == s.clients && t.workers[0].Push? && t.tasks == [] && t.taskOwner.Free?
  {
    hide Fire, Enabled, Run, After;
    var w := Work(0, 0);
    FinishAlone(c, s, j);
    MakeRoomAlone(c, After(c, s, [w, w]), j);
    RunConcat(c, s, [w, w], [w, w]);
  }

  /** It publishes and comes back to the queue. */
  lemma PublishAlone(c: Config, s: State, j: nat)
    requires Alone(s, j) && s.workers[0].Push? && s.tasks == [] && s.taskOwner.Free?
    ensures var w := Work(0, 0);
            && Run(c, s, [w, w])
            && var t := After(c, s, [w, w]);
               && Alone(t, j) && t.clients == s.clients && t.workers[0].AtTaskLock?
               && t.tasks == [] && t.taskOwner.Free? && t.resultOwner.Free? && |t.results| == |s.results| + 1
  {
    hide SameOrWoken, Run, After;
    var w := Work(0, 0);
    assert Fire(c, s, w).workers == s.workers[0 := NotifyPushed];
    TwoMore(c, s, w, w);
  }

  /** It finds the queue empty. */
  lemma CheckAlone(c: Config, s: State, j: nat)
    requires Alone(s, j) && s.workers[0].AtTaskLock? && s.tasks == [] && s.taskOwner.Free?
    ensures var w := Work(0, 0);
            && Run(c, s, [w, w])
            && var t := After(c, s, [w, w]);
               && Alone(t, j) && t.clients == s.clients && t.workers[0].ParkTask? && t.tasks == []
  {
    hide SameOrWoken, Run, After;
    var w := Work(0, 0);
    assert Fire(c, s, w).workers == s.workers[0 := CheckTask];
    TwoMore(c, s, w, w);
  }

  lemma ReturnAlone(c: Config, s: State, j: nat)
    requires Alone(s, j) && s.clients[j].Idle? && s.workers[0].Push? && s.tasks == [] && s.taskOwner.Free?
    ensures var w := Work(0, 0);
            && Run(c, s, [w, w] + [w, w])
            && var t := After(c, s, [w, w] + [w, w]);
               && Alone(t, j) && t.clients == s.clients && t.workers[0].ParkTask? && t.tasks == []
  {
    hide Fire, Enabled, Run, After;
    var w := Work(0, 0);
    PublishAlone(c, s, j);
    CheckAlone(c, After(c, s, [w, w]), j);
    RunConcat(c, s, [w, w], [w, w]);
  }

  lemma CalmIsAlone(c: Config, s: State, h: nat, j: nat)
    requires Invariant(c, s) && Helped(s, h, j) && Calm(s) && s.clients[h].Idle?
    requires |s.results| < c.resultCapacity || c.resultPolicy == DropOldestCompletedResult
    ensures ValidConfig(c) && Alone(s, h) && s.workers[0].WaitTask? && s.tasks == []
    ensures s.taskOwner.Free? && s.resultOwner.Free?
  {
    CalmBasics(c, s);
    CalmWorkersWantTasks(c, s);
    hide Locks, PoolLedger.Ledger, PoolOrder.Order, PoolWakeups.Wakeups, Calm;
    EveryoneIsCalm(c, s);
  }

  /** From a calm pool with room to a worker between its check and its park, through one more task of client h. */
  lemma ParkFromRoom(c: Config, s: State, h: nat, j: nat) returns (ls: seq<Label>)
    requires Invariant(c, s) && Helped(s, h, j) && Calm(s) && s.clients[h].Idle?
    requires |s.results| < c.resultCapacity || c.resultPolicy == DropOldestCompletedResult
    ensures Run(c, s, ls) && CallsBy(ls, h)
    ensures var t := After(c, s, ls); Alone(t, h) && t.clients == s.clients && t.workers[0].ParkTask?
  {
    hide Invariant, Calm, Run, After, Fire, Enabled, Alone;
    CalmIsAlone(c, s, h, j);
    var w := Work(0, 0);
    var x := Task(0, []);
    var four := [w, w, w, w];
    var submit := SubmitFromRest(c, s, h, x);
    var s1 := After(c, s, submit);
    TakeAlone(c, s1, h, x);
    var s2 := After(c, s1, four);
    assert [w, w] + [w, w] == four;
    DispatchAlone(c, s2, h);
    var s3 := After(c, s2, four);
    ReturnAlone(c, s3, h);
    RunConcat(c, s, submit, four);
    RunConcat(c, s, submit + four, four);
    RunConcat(c, s, submit + four + four, four);
    CallsByConcat(submit, four, h);
    CallsByConcat(submit + four, four, h);
    CallsByConcat(submit + four + four, four, h);
    ls := submit + four + four + four;
  }

  /** With client h to help, every pool that has not been stopped can be brought to where worker 0 is about to block
      on task_cv and client j is still idle. */
  lemma RunToPark(c: Config, s: State, h: nat, j: nat) returns (ls: seq<Label>)
    requires Invariant(c, s) && Helped(s, h, j)
    ensures Run(c, s, ls) && CallsBy(ls, h)
    ensures var t := After(c, s, ls);
            Invariant(c, t) && !t.stop && Idles(t, j) && 1 <= |t.workers| && t.workers[0].ParkTask?
  {
    hide Invariant, Run, After, Calm, CallsBy;
    var room := RunToRoom(c, s, h, j);
    var t := After(c, s, room);
    var park := ParkFromRoom(c, t, h, j);
    RunConcat(c, s, room, park);
    CallsByConcat(room, park, h);
    ls := room + park;
    RunKeepsInvariant(c, s, ls);
  }

  // ---------------------------------------------------------------- the call that passes a parking worker by

  predicate Idles(s: State, j: nat) {
    j < |s.clients| && s.clients[j].Idle?
  }

  /** Client j is in shutdown, past the exchange that made it the one that stops the pool. */
  predicate InShutdown(s: State, j: nat) {
    && j < |s.clients|
    && (s.clients[j].StopNotifyTasks? || s.clients[j].StopNotifyResults? || s.clients[j].StopJoin?)
  }

  predicate Joins(s: State, j: nat) {
    j < |s.clients| && s.clients[j].StopJoin?
  }

  predicate Present(s: State, w: nat) {
    w < |s.workers| && !s.workers[w].Exited?
  }

  lemma ShutdownGoesOn(c: Config, s: State, l: Label, w: nat, j: nat)
    requires Enabled(s, l) && Present(s, w)
    ensures InShutdown(s, j) ==> InShutdown(Fire(c, s, l), j)
    ensures Joins(s, j) ==> Joins(Fire(c, s, l), j)
  {
    if l.Act? && l.client == j {
      hide WorkerStep, Submit, SameOrWoken;
    } else {
      hide ClientStep, WorkerStep;
    }
  }

  lemma AbsenceStays(c: Config, s: State, l: Label, w: nat)
    requires Enabled(s, l) && Present(Fire(c, s, l), w)
    ensures Present(s, w)
  {
    hide ClientStep, WorkerStep;
  }

  /** While worker w has not exited, a client that stops the pool stays in shutdown, and one that joins, joins. */
  lemma {:induction false} StaysInShutdown(c: Config, s: State, ls: seq<Label>, w: nat, j: nat)
    requires Run(c, s, ls) && Present(After(c, s, ls), w)
    ensures Present(s, w)
    ensures InShutdown(s, j) ==> InShutdown(After(c, s, ls), j)
    ensures Joins(s, j) ==> Joins(After(c, s, ls), j)
    decreases |ls|
  {
    if ls != [] {
      hide InShutdown, Joins, Present;
      StaysInShutdown(c, Fire(c, s, ls[0]), ls[1..], w, j);
      AbsenceStays(c, s, ls[0], w);
      ShutdownGoesOn(c, s, ls[0], w, j);
    }
  }

  /** Client j calls shutdown and sets the flag. */
  lemma FlagSet(c: Config, s: State, j: nat)
    requires !s.stop && Idles(s, j)
    ensures var ls := [Begin(j, ShutdownOp), Act(j, 0)];
            Run(c, s, ls) && After(c, s, ls) == s.(stop := true, clients := s.clients[j := StopNotifyTasks])
  {
    TwoMore(c, s, Begin(j, ShutdownOp), Act(j, 0));
    assert s.clients[j := StopExchange][j := StopNotifyTasks] == s.clients[j := StopNotifyTasks];
  }

  /** The last notification, if it is still to come, changes nothing for a worker stuck on task_cv. */
  lemma FinishNotifying(c: Config, s: State, w: nat, j: nat) returns (ls: seq<Label>)
    requires StuckOnTask(s, w) && InShutdown(s, j)
    ensures Run(c, s, ls) && AllInternal(ls) && StuckOnTask(After(c, s, ls), w) && Joins(After(c, s, ls), j)
  {
    if s.clients[j].StopJoin? {
      ls := [];
    } else {
      StepKeepsStuckOnTask(c, s, Act(j, 0), w);
      assert Joins(Fire(c, s, Act(j, 0)), j);
      RunCons(c, s, Act(j, 0), []);
      hide Fire, Enabled, StuckOnTask, Joins;
      ls := [Act(j, 0)] + [];
    }
  }

  /** Calls of shutdown are all that client j begins. */
  predicate ShutdownOnly(ls: seq<Label>, j: nat) {
    forall i :: 0 <= i < |ls| ==> !ls[i].Spurious? && (ls[i].Begin? ==> ls[i] == Begin(j, ShutdownOp))
  }

  lemma ShutdownOnlyConcat(a: seq<Label>, b: seq<Label>, j: nat)
    requires ShutdownOnly(a, j) && ShutdownOnly(b, j)
    ensures ShutdownOnly(a + b, j)
  {
  }

  lemma InternalIsShutdownOnly(ls: seq<Label>, j: nat)
    requires AllInternal(ls)
    ensures ShutdownOnly(ls, j) && NoSpurious(ls)
  {
  }

  lemma StuckIsPresent(s: State, w: nat)
    requires StuckOnTask(s, w)
    ensures Present(s, w)
  {
  }

  /** The notification of task_cv passes worker w by, and the call goes on to its join. */
  lemma MissAndJoin(c: Config, s: State, j: nat, w: nat) returns (ls: seq<Label>)
    requires Safe(c, s) && j < |s.clients| && s.clients[j].StopNotifyTasks?
    requires w < |s.workers| && s.workers[w].ParkTask?
    ensures Run(c, s, ls) && ShutdownOnly(ls, j)
    ensures StuckOnTask(After(c, s, ls), w) && Joins(After(c, s, ls), j)
  {
    var l := Act(j, 0);
    NotifiesTasks(c, s, j);
    hide Safe, Run, After, Fire, Enabled, StuckOnTask, InShutdown, Joins;
    var t := Fire(c, s, l);
    var miss := MissedTaskNotification(c, s, j, 0, w);
    var u := After(c, t, miss);
    StuckIsPresent(u, w);
    StaysInShutdown(c, t, miss, w, j);
    var finish := FinishNotifying(c, u, w, j);
    RunConcat(c, t, miss, finish);
    RunCons(c, s, l, miss + finish);
    ls := [l] + (miss + finish);
    InternalIsShutdownOnly(ls, j);
  }

  lemma NotifiesTasks(c: Config, s: State, j: nat)
    requires j < |s.clients| && s.clients[j].StopNotifyTasks?
    ensures Enabled(s, Act(j, 0)) && InShutdown(Fire(c, s, Act(j, 0)), j)
  {
    hide SameOrWoken;
  }

  /** If worker w is about to block on task_cv when client j calls shutdown, the call can end up in its join with
      w blocked and nobody left to notify it. */
  lemma HangAtTaskPark(c: Config, s: State, j: nat, w: nat) returns (ls: seq<Label>)
    requires Invariant(c, s) && !s.stop && Idles(s, j) && w < |s.workers| && s.workers[w].ParkTask?
    ensures Run(c, s, ls) && ShutdownOnly(ls, j)
    ensures StuckOnTask(After(c, s, ls), w) && Joins(After(c, s, ls), j)
  {
    hide Run, After, StuckOnTask, Joins, Invariant;
    var call := [Begin(j, ShutdownOp), Act(j, 0)];
    FlagSet(c, s, j);
    RunKeepsInvariant(c, s, call);
    InvariantSafe(c, After(c, s, call));
    hide Safe;
    var rest := MissAndJoin(c, After(c, s, call), j, w);
    RunConcat(c, s, call, rest);
    ShutdownOnlyConcat(call, rest, j);
    ls := call + rest;
  }

  lemma InvariantSafe(c: Config, s: State)
    requires Invariant(c, s)
    ensures Safe(c, s)
  {
  }

  /** The join is never left again. */
  lemma JoinForever(c: Config, s: State, ls: seq<Label>, w: nat, j: nat)
    requires StuckOnTask(s, w) && Joins(s, j) && Run(c, s, ls) && NoSpurious(ls)
    ensures Joins(After(c, s, ls), j)
  {
    hide Fire, Enabled, Run, After, StuckOnTask, Joins;
    StuckOnTaskForever(c, s, ls, w);
    StuckIsPresent(After(c, s, ls), w);
    StaysInShutdown(c, s, ls, w, j);
  }

  /** Client j is in its join, and no continuation without spurious wake-ups lets it out. */
  ghost predicate JoinsForGood(c: Config, s: State, j: nat) {
    forall more :: Run(c, s, more) && NoSpurious(more) ==> Joins(After(c, s, more), j)
  }

  lemma StuckJoinsForGood(c: Config, s: State, w: nat, j: nat)
    requires StuckOnTask(s, w) && Joins(s, j)
    ensures JoinsForGood(c, s, j)
  {
    hide Run, After, StuckOnTask, NoSpurious;
    forall more | Run(c, s, more) && NoSpurious(more)
      ensures Joins(After(c, s, more), j)
    {
      JoinForever(c, s, more, w, j);
    }
  }

  /** From every reachable state before stop, for every idle client, a continuation without spurious wake-ups, in
      which that client may pop and submit before it calls shutdown, leaves the call in its join for good. (What
      holds if shutdown is the client's next call: module PoolJoin.) */
  lemma ShutdownCanHangFromAnywhere(c: Config, s: State, j: nat) returns (ls: seq<Label>)
    requires ValidConfig(c) && Reachable(c, s) && !s.stop && j < |s.clients| && s.clients[j].Idle?
    ensures Run(c, s, ls) && NoSpurious(ls)
    ensures Joins(After(c, s, ls), j) && JoinsForGood(c, After(c, s, ls), j)
  {
    ReachableInvariant(c, s);
    hide Invariant, Reachable, Run, After, StuckOnTask, Joins, JoinsForGood;
    var park := RunToPark(c, s, j, j);
    var hang := HangAtTaskPark(c, After(c, s, park), j, 0);
    RunConcat(c, s, park, hang);
    ls := park + hang;
    StuckJoinsForGood(c, After(c, s, ls), 0, j);
  }
}
