/** Exactly when shutdown, if it is the client's next call, can be left in its join for good; as a condition on the
    state at the call. */
module PoolJoin {
  import opened WorkerPool
  import opened PoolSafety
  import opened PoolWakeups
  import opened PoolInvariant
  import opened PoolProgress
  import opened PoolShutdown
  import opened PoolHang
  import opened PoolCanPark

  // ---------------------------------------------------------------- the question

  /** The next call of client j, if it makes one, is shutdown. */
  predicate ShutdownFirst(ls: seq<Label>, j: nat) {
    ls == [] || if ls[0].Begin? && ls[0].client == j then ls[0].op.ShutdownOp? else ShutdownFirst(ls[1..], j)
  }

  /** Some continuation without spurious wake-ups, in which client j calls shutdown next and the others call what they
      like, leaves j in its join for good. */
  ghost predicate CanHang(c: Config, s: State, j: nat) {
    exists ls :: Run(c, s, ls) && NoSpurious(ls) && ShutdownFirst(ls, j) && JoinsForGood(c, After(c, s, ls), j)
  }

  // ---------------------------------------------------------------- the answer

  /** Every client other than j is about to stop the pool. */
  predicate OthersStop(s: State, j: nat) {
    forall k :: 0 <= k < |s.clients| && k != j ==> s.clients[k].StopExchange?
  }

  predicate HangCondition(c: Config, s: State, j: nat) {
    !OthersStop(s, j) || (|s.clients| == 1 && SomeAwake(s)) || CanPark(c, s)
  }

  // ---------------------------------------------------------------- the condition suffices

  /** No spurious wake-ups, and all calls of client j are of shutdown. */
  predicate Permitted(ls: seq<Label>, j: nat) {
    forall i :: 0 <= i < |ls| ==> !ls[i].Spurious? && (ls[i].Begin? && ls[i].client == j ==> ls[i].op.ShutdownOp?)
  }

  lemma PermittedConcat(a: seq<Label>, b: seq<Label>, j: nat)
    requires Permitted(a, j) && Permitted(b, j)
    ensures Permitted(a + b, j)
  {
  }

  lemma {:induction false} PermittedCallsShutdownFirst(ls: seq<Label>, j: nat)
    requires Permitted(ls, j)
    ensures NoSpurious(ls) && ShutdownFirst(ls, j)
    decreases |ls|
  {
    if ls != [] {
      PermittedCallsShutdownFirst(ls[1..], j);
    }
  }

  lemma HangingRun(c: Config, s: State, a: seq<Label>, b: seq<Label>, j: nat)
    requires Run(c, s, a) && Permitted(a, j) && Run(c, After(c, s, a), b) && Permitted(b, j)
    requires JoinsForGood(c, After(c, After(c, s, a), b), j)
    ensures CanHang(c, s, j)
  {
    hide Run, After, JoinsForGood, Permitted;
    RunConcat(c, s, a, b);
    PermittedConcat(a, b, j);
    PermittedCallsShutdownFirst(a + b, j);
  }

  /** Another client that is not about to stop the pool can bring a worker to where the call passes it by. */
  lemma HelperMakesItHang(c: Config, s: State, h: nat, j: nat)
    requires Invariant(c, s) && Helped(s, h, j) && h != j
    ensures CanHang(c, s, j)
  {
    hide Invariant, Run, After, CallsBy, Permitted, Idles, CanHang, Helped;
    var park := RunToPark(c, s, h, j);
    HelpIsPermitted(park, h, j);
    ParkedMakesItHang(c, s, park, j, 0);
  }

  lemma HelpIsPermitted(ls: seq<Label>, h: nat, j: nat)
    requires CallsBy(ls, h) && h != j
    ensures Permitted(ls, j)
  {
  }

  lemma ParkedMakesItHang(c: Config, s: State, park: seq<Label>, j: nat, w: nat)
    requires Run(c, s, park) && Permitted(park, j)
    requires var t := After(c, s, park);
             Invariant(c, t) && !t.stop && Idles(t, j) && w < |t.workers| && t.workers[w].ParkTask?
    ensures CanHang(c, s, j)
  {
    hide Invariant, Run, After, StuckOnTask, Joins, Idles;
    var t := After(c, s, park);
    var hang := HangAtTaskPark(c, t, j, w);
    StuckJoinsForGood(c, After(c, t, hang), w, j);
    assert Permitted(hang, j);
    HangingRun(c, s, park, hang, j);
  }

  /** Client j is idle and everybody else is about to stop the pool, which has not been stopped. */
  predicate Unserved(s: State, j: nat) {
    !s.stop && Idles(s, j) && OthersStop(s, j)
  }

  /** About to block on task_cv or, if any wait will do, on result_cv. */
  predicate AboutToBlock(pc: WorkerPc, any: bool) {
    pc.ParkTask? || (any && pc.ParkResult?)
  }

  predicate CanBlock(c: Config, s: State, any: bool) {
    if any then SomeAwake(s) else CanPark(c, s)
  }

  lemma WorkerKeepsCanBlock(c: Config, s: State, i: nat, k: nat, any: bool)
    requires Guards(c, s) && !s.stop && Enabled(s, Work(i, k))
    requires CanBlock(c, s, any) && !AboutToBlock(s.workers[i], any)
    ensures CanBlock(c, WorkerStep(c, s, i, k), any)
  {
    hide WorkerStep, Guards, CanPark, SomeAwake;
    if any {
      MoverStaysAwake(c, s, i, k);
    } else {
      WorkerKeepsCanPark(c, s, i, k);
    }
  }

  /** Where some worker is awake and no client moves, some worker can move. */
  lemma AwakeCanMove(c: Config, s: State, j: nat) returns (i: nat, k: nat)
    requires Locks(s) && Unserved(s, j) && SomeAwake(s)
    ensures Enabled(s, Work(i, k))
  {
    if Calm(s) {
      hide Calm, Locks;
      EveryoneIsCalm(c, s);
    } else {
      var l :| Internal(l) && Enabled(s, l) && !Stops(s, l);
      i, k := l.worker, l.wake;
    }
  }

  /** The workers' own steps bring one of them to where it is about to block. */
  lemma {:induction false} WorkersPark(c: Config, s: State, j: nat, any: bool) returns (ls: seq<Label>, w: nat)
    requires Invariant(c, s) && Unserved(s, j) && CanBlock(c, s, any)
    ensures Run(c, s, ls) && Permitted(ls, j)
    ensures var t := After(c, s, ls);
            && Invariant(c, t) && Unserved(t, j) && |t.clients| == |s.clients|
            && w < |t.workers| && AboutToBlock(t.workers[w], any)
    decreases Fuel(s)
  {
    if v: nat :| v < |s.workers| && AboutToBlock(s.workers[v], any) {
      ls, w := [], v;
    } else {
      var i, k := SomeWorkerMoves(c, s, j, any);
      var t := Fire(c, s, Work(i, k));
      hide Invariant, Unserved, CanBlock, AboutToBlock, Fire, Fuel, Enabled, Run, After, Permitted;
      var rest;
      rest, w := WorkersPark(c, t, j, any);
      ls := [Work(i, k)] + rest;
      RunCons(c, s, Work(i, k), rest);
      OneWorkerStepIsPermitted(i, k, rest, j);
    }
  }

  lemma OneWorkerStepIsPermitted(i: nat, k: nat, rest: seq<Label>, j: nat)
    requires Permitted(rest, j)
    ensures Permitted([Work(i, k)] + rest, j)
  {
  }

  lemma SomeWorkerMoves(c: Config, s: State, j: nat, any: bool) returns (i: nat, k: nat)
    requires Invariant(c, s) && Unserved(s, j) && CanBlock(c, s, any)
    requires forall v :: 0 <= v < |s.workers| ==> !AboutToBlock(s.workers[v], any)
    ensures Enabled(s, Work(i, k))
    ensures var t := Fire(c, s, Work(i, k));
            && Invariant(c, t) && Unserved(t, j) && CanBlock(c, t, any)
            && |t.clients| == |s.clients| && Fuel(t) < Fuel(s)
  {
    hide Locks, Guards, PoolLedger.Ledger, PoolOrder.Order, PoolWakeups.Wakeups, WorkerStep, Fuel, Falls;
    AwakeIfCanBlock(c, s, any);
    i, k := AwakeCanMove(c, s, j);
    hide CanPark, SomeAwake;
    WorkerKeepsCanBlock(c, s, i, k, any);
    InternalStepFalls(c, s, Work(i, k));
    FallingBurnsFuel(s, Fire(c, s, Work(i, k)));
    StepKeepsInvariant(c, s, Work(i, k));
  }

  lemma AwakeIfCanBlock(c: Config, s: State, any: bool)
    requires CanBlock(c, s, any)
    ensures SomeAwake(s)
  {
    hide SomeAwake;
  }

  // ---------------------------------------------------------------- the only client, and a worker full of results

  /** Worker w waits for room, and the only client, who could make it, joins. */
  predicate StuckBehindTheOnlyClient(c: Config, s: State, w: nat) {
    StuckOnResult(c, s, w) && s.clients == [StopJoin]
  }

  lemma StepKeepsBehind(c: Config, s: State, l: Label, w: nat)
    requires Safe(c, s) && StuckBehindTheOnlyClient(c, s, w) && Enabled(s, l) && !l.Spurious?
    ensures StuckBehindTheOnlyClient(c, Fire(c, s, l), w)
  {
    StepKeepsStuckOnResult(c, s, l, w);
    hide Safe, WorkerStep;
  }

  lemma {:induction false} BehindForGood(c: Config, s: State, ls: seq<Label>, w: nat)
    requires Safe(c, s) && StuckBehindTheOnlyClient(c, s, w) && Run(c, s, ls) && NoSpurious(ls)
    ensures StuckBehindTheOnlyClient(c, After(c, s, ls), w)
    decreases |ls|
  {
    if ls != [] {
      StepKeepsSafe(c, s, ls[0]);
      StepKeepsBehind(c, s, ls[0], w);
      hide Fire, StuckBehindTheOnlyClient, Safe;
      BehindForGood(c, Fire(c, s, ls[0]), ls[1..], w);
    }
  }

  lemma BehindJoinsForGood(c: Config, s: State, w: nat)
    requires Safe(c, s) && StuckBehindTheOnlyClient(c, s, w)
    ensures JoinsForGood(c, s, 0)
  {
    hide Run, After, StuckOnResult, NoSpurious, Safe;
    forall more | Run(c, s, more) && NoSpurious(more)
      ensures Joins(After(c, s, more), 0)
    {
      BehindForGood(c, s, more, w);
    }
  }

  lemma {:induction false} RunKeepsSizes(c: Config, s: State, ls: seq<Label>)
    requires Run(c, s, ls)
    ensures |After(c, s, ls).workers| == |s.workers| && |After(c, s, ls).clients| == |s.clients|
    decreases |ls|
  {
    if ls != [] {
      SizesStay(c, s, ls[0]);
      hide Fire;
      RunKeepsSizes(c, Fire(c, s, ls[0]), ls[1..]);
    }
  }

  /** The only client calls shutdown and notifies task_cv, while worker w stays where it is. */
  lemma CallBesideResultPark(c: Config, s: State, w: nat)
    requires Invariant(c, s) && !s.stop && s.clients == [Idle] && w < |s.workers| && s.workers[w].ParkResult?
    ensures var call := [Begin(0, ShutdownOp), Act(0, 0)] + [Act(0, 0)];
            && Run(c, s, call)
            && var t := After(c, s, call);
               && Safe(c, t) && t.clients == [StopNotifyResults] && w < |t.workers| && t.workers[w].ParkResult?
  {
    hide Invariant, Run, After, Fire, Enabled;
    var call := [Begin(0, ShutdownOp), Act(0, 0)];
    FlagSet(c, s, 0);
    var t := After(c, s, call);
    OnlyClientNotifies(c, t, w);
    OneStepRuns(c, t, Act(0, 0));
    RunConcat(c, s, call, [Act(0, 0)]);
    RunKeepsInvariant(c, s, call + [Act(0, 0)]);
    InvariantSafe(c, After(c, s, call + [Act(0, 0)]));
  }

  lemma OnlyClientNotifies(c: Config, s: State, w: nat)
    requires s.clients == [StopNotifyTasks] && w < |s.workers| && s.workers[w].ParkResult?
    ensures Enabled(s, Act(0, 0))
    ensures var t := Fire(c, s, Act(0, 0));
            t.clients == [StopNotifyResults] && w < |t.workers| && t.workers[w].ParkResult?
  {
    hide SameOrWoken;
  }

  lemma NotifiesResults(c: Config, s: State)
    requires s.clients == [StopNotifyResults]
    ensures Enabled(s, Act(0, 0)) && Fire(c, s, Act(0, 0)).clients == [StopJoin]
  {
    hide SameOrWoken;
  }

  lemma OneStepRuns(c: Config, s: State, l: Label)
    requires Enabled(s, l)
    ensures Run(c, s, [l]) && After(c, s, [l]) == Fire(c, s, l)
  {
    hide Enabled, Fire;
    assert [l] + [] == [l];
    RunCons(c, s, l, []);
  }

  /** If a worker is about to block for room when the only client calls shutdown, both can end up blocked. */
  lemma HangAtResultPark(c: Config, s: State, w: nat) returns (ls: seq<Label>)
    requires Invariant(c, s) && !s.stop && s.clients == [Idle] && w < |s.workers| && s.workers[w].ParkResult?
    ensures Run(c, s, ls) && Permitted(ls, 0) && JoinsForGood(c, After(c, s, ls), 0)
  {
    var call := [Begin(0, ShutdownOp), Act(0, 0)] + [Act(0, 0)];
    assert Permitted(call, 0);
    hide Invariant, Run, After, JoinsForGood, Permitted, Safe;
    CallBesideResultPark(c, s, w);
    var rest := MissRoomAndJoin(c, After(c, s, call), w);
    RunConcat(c, s, call, rest);
    PermittedConcat(call, rest, 0);
    ls := call + rest;
  }

  /** The last notification is delivered, worker w misses it, and both sleep. */
  lemma MissRoomAndJoin(c: Config, s: State, w: nat) returns (ls: seq<Label>)
    requires Safe(c, s) && s.clients == [StopNotifyResults] && w < |s.workers| && s.workers[w].ParkResult?
    ensures Run(c, s, ls) && Permitted(ls, 0) && JoinsForGood(c, After(c, s, ls), 0)
  {
    hide Safe, Run, After, Fire, Enabled, StuckOnResult, NobodyPops, JoinsForGood;
    NotifiesResults(c, s);
    var t := Fire(c, s, Act(0, 0));
    var miss := MissedResultNotification(c, s, 0, 0, w);
    StepKeepsSafe(c, s, Act(0, 0));
    JoinsBehind(c, t, miss, w);
    RunCons(c, s, Act(0, 0), miss);
    ls := [Act(0, 0)] + miss;
  }

  lemma JoinsBehind(c: Config, s: State, miss: seq<Label>, w: nat)
    requires Safe(c, s) && s.clients == [StopJoin] && Run(c, s, miss) && StuckOnResult(c, After(c, s, miss), w)
    ensures JoinsForGood(c, After(c, s, miss), 0)
  {
    var t := After(c, s, miss);
    assert Present(t, w);
    hide Safe, Run, After, StuckOnResult, JoinsForGood;
    StaysInShutdown(c, s, miss, w, 0);
    RunKeepsSizes(c, s, miss);
    RunKeepsSafe(c, s, miss);
    assert t.clients == [StopJoin];
    BehindJoinsForGood(c, t, w);
  }

  lemma {:induction false} RunKeepsSafe(c: Config, s: State, ls: seq<Label>)
    requires Safe(c, s) && Run(c, s, ls)
    ensures Safe(c, After(c, s, ls))
    decreases |ls|
  {
    if ls != [] {
      StepKeepsSafe(c, s, ls[0]);
      hide Safe, Fire;
      RunKeepsSafe(c, Fire(c, s, ls[0]), ls[1..]);
    }
  }

  /** No one can pop once the only client joins, so there a worker may as well block for room. */
  lemma OnlyClientHangs(c: Config, s: State, j: nat)
    requires Invariant(c, s) && Unserved(s, j) && |s.clients| == 1 && SomeAwake(s)
    ensures CanHang(c, s, j)
  {
    hide Invariant, Run, After, SomeAwake, JoinsForGood, Permitted, CanHang;
    var park, w := WorkersPark(c, s, j, true);
    var t := After(c, s, park);
    if t.workers[w].ParkTask? {
      ParkedMakesItHang(c, s, park, j, w);
    } else {
      assert t.clients == [Idle];
      var hang := HangAtResultPark(c, t, w);
      HangingRun(c, s, park, hang, j);
    }
  }

  lemma ParkableHangs(c: Config, s: State, j: nat)
    requires Invariant(c, s) && Unserved(s, j) && CanPark(c, s)
    ensures CanHang(c, s, j)
  {
    hide Invariant, Run, After, CanPark, JoinsForGood, Permitted;
    var park, w := WorkersPark(c, s, j, false);
    ParkedMakesItHang(c, s, park, j, w);
  }

  lemma ConditionSuffices(c: Config, s: State, j: nat)
    requires Invariant(c, s) && !s.stop && Idles(s, j) && HangCondition(c, s, j)
    ensures CanHang(c, s, j)
  {
    hide Invariant, CanHang, CanPark, SomeAwake;
    if !OthersStop(s, j) {
      var h: nat :| h < |s.clients| && h != j && !s.clients[h].StopExchange?;
      HelperMakesItHang(c, s, h, j);
    } else if CanPark(c, s) {
      ParkableHangs(c, s, j);
    } else {
      OnlyClientHangs(c, s, j);
    }
  }

  // ---------------------------------------------------------------- the condition is needed

  predicate NoParkTask(s: State) {
    forall i :: 0 <= i < |s.workers| ==> !s.workers[i].ParkTask?
  }

  predicate NoParkResult(s: State) {
    forall i :: 0 <= i < |s.workers| ==> !s.workers[i].ParkResult?
  }

  predicate AllExited(s: State) {
    forall i :: 0 <= i < |s.workers| ==> s.workers[i].Exited?
  }

  /** Before stop: client j has at most called shutdown, and the condition does not hold. */
  predicate StillSafeToStop(c: Config, s: State, j: nat) {
    && !s.stop && j < |s.clients| && (s.clients[j].Idle? || s.clients[j].StopExchange?)
    && OthersStop(s, j) && !CanPark(c, s) && (|s.clients| == 1 ==> !SomeAwake(s))
  }

  /** Client j's notification of task_cv will find nobody between check and park, or has done so. */
  predicate TasksReached(s: State, j: nat) {
    NoTaskParking(s) || (j < |s.clients| && s.clients[j].StopNotifyTasks? && NoParkTask(s))
  }

  predicate ResultsReached(s: State, j: nat) {
    || NoResultParking(s)
    || (j < |s.clients| && (s.clients[j].StopNotifyTasks? || s.clients[j].StopNotifyResults?) && NoParkResult(s))
  }

  /** After stop: client j, if it is the one that stopped the pool, reaches everybody on task_cv; as the only client it
      also reaches everybody on result_cv, and does not return before all workers are gone. */
  predicate SafelyStopped(s: State, j: nat) {
    && s.stop && j < |s.clients|
    && (InShutdown(s, j) ==>
          && TasksReached(s, j)
          && (forall k :: 0 <= k < |s.clients| && k != j ==> !InShutdown(s, k)))
    && (|s.clients| == 1 ==> if InShutdown(s, j) then ResultsReached(s, j) else AllExited(s))
  }

  predicate Spared(c: Config, s: State, j: nat) {
    StillSafeToStop(c, s, j) || SafelyStopped(s, j)
  }

  lemma WorkerStaysSafeToStop(c: Config, s: State, i: nat, k: nat, j: nat)
    requires Guards(c, s) && StillSafeToStop(c, s, j) && Enabled(s, Work(i, k))
    ensures StillSafeToStop(c, WorkerStep(c, s, i, k), j)
  {
    hide WorkerStep, CanPark, Guards;
    WorkerKeepsCannotPark(c, s, i, k);
    assert !WorkerRests(s.workers[i]);
  }

  lemma NobodyAboutToBlock(c: Config, s: State, j: nat)
    requires Guards(c, s) && StillSafeToStop(c, s, j)
    ensures NoParkTask(s) && (|s.clients| == 1 ==> NoParkResult(s))
  {
    forall w | 0 <= w < |s.workers|
      ensures !s.workers[w].ParkTask?
    {
      if s.workers[w].ParkTask? {
        ParkingMeansCanPark(c, s, w);
      }
    }
    hide CanPark, Guards;
  }

  lemma ClientStopsSafely(c: Config, s: State, m: nat, k: nat, j: nat)
    requires Guards(c, s) && StillSafeToStop(c, s, j) && Enabled(s, Act(m, k))
    ensures SafelyStopped(ClientStep(c, s, m, k), j)
  {
    NobodyAboutToBlock(c, s, j);
    hide CanPark, SomeAwake, Guards, SameOrWoken, Submit;
  }

  lemma CallStaysSafeToStop(c: Config, s: State, m: nat, op: Operation, j: nat)
    requires StillSafeToStop(c, s, j) && Enabled(s, Begin(m, op)) && (m == j ==> op.ShutdownOp?)
    ensures StillSafeToStop(c, Fire(c, s, Begin(m, op)), j)
    ensures m == j && Fire(c, s, Begin(m, op)).clients[j].StopExchange?
  {
  }

  lemma StoppedWorkerNeverParks(c: Config, s: State, i: nat, k: nat)
    requires s.stop && Enabled(s, Work(i, k))
    ensures !WorkerStep(c, s, i, k).workers[i].ParkTask? && !WorkerStep(c, s, i, k).workers[i].ParkResult?
  {
    if OnTaskSide(s.workers[i]) {
      hide ResultSideStep, SameOrWoken;
    } else {
      hide TaskSideStep, Handle, Surplus, SameOrWoken;
    }
  }

  /** After stop nobody comes to where he is about to block. */
  lemma StoppedStepKeepsNoParks(c: Config, s: State, l: Label)
    requires s.stop && Enabled(s, l)
    ensures NoParkTask(s) ==> NoParkTask(Fire(c, s, l))
    ensures NoParkResult(s) ==> NoParkResult(Fire(c, s, l))
  {
    if l.Work? {
      StoppedWorkerNeverParks(c, s, l.worker, l.wake);
      hide WorkerStep;
    } else {
      hide ClientStep;
    }
  }

  lemma TasksStayReached(c: Config, s: State, l: Label, j: nat)
    requires s.stop && TasksReached(s, j) && Enabled(s, l)
    ensures TasksReached(Fire(c, s, l), j)
  {
    if NoTaskParking(s) {
      StepKeepsNoTaskParking(c, s, l);
    } else {
      StoppedStepKeepsNoParks(c, s, l);
      if l.Act? && l.client == j {
        hide WorkerStep, SameOrWoken;
      } else {
        hide WorkerStep, ClientStep, NoParkTask;
      }
    }
  }

  lemma ResultsStayReached(c: Config, s: State, l: Label, j: nat)
    requires s.stop && ResultsReached(s, j) && Enabled(s, l)
    ensures ResultsReached(Fire(c, s, l), j)
  {
    if NoResultParking(s) {
      StepKeepsNoResultParking(c, s, l);
    } else {
      StoppedStepKeepsNoParks(c, s, l);
      if l.Act? && l.client == j {
        hide WorkerStep, SameOrWoken;
      } else {
        hide WorkerStep, ClientStep, NoParkResult;
      }
    }
  }

  /** After stop nobody comes to stop the pool, and who stopped it returns when all workers are gone. */
  lemma NoNewStopper(c: Config, s: State, l: Label, k: nat)
    requires s.stop && Enabled(s, l)
    ensures InShutdown(Fire(c, s, l), k) ==> InShutdown(s, k)
    ensures InShutdown(s, k) && !InShutdown(Fire(c, s, l), k) ==> AllExited(Fire(c, s, l))
  {
    if l.Act? && l.client == k {
      hide WorkerStep, Submit, SameOrWoken;
    } else {
      hide WorkerStep, ClientStep;
    }
  }

  lemma ExitedStay(c: Config, s: State, l: Label)
    requires Enabled(s, l) && AllExited(s)
    ensures AllExited(Fire(c, s, l))
  {
    hide WorkerStep, ClientStep;
  }

  lemma StepKeepsSafelyStopped(c: Config, s: State, l: Label, j: nat)
    requires SafelyStopped(s, j) && Enabled(s, l)
    ensures SafelyStopped(Fire(c, s, l), j)
  {
    var t := Fire(c, s, l);
    assert t.stop && |t.clients| == |s.clients| by {
      hide WorkerStep, ClientStep;
    }
    hide Fire, Enabled, InShutdown, TasksReached, ResultsReached, AllExited;
    forall k: nat
      ensures InShutdown(t, k) ==> InShutdown(s, k)
    {
      NoNewStopper(c, s, l, k);
    }
    NoNewStopper(c, s, l, j);
    if InShutdown(s, j) {
      TasksStayReached(c, s, l, j);
    }
    if |s.clients| == 1 {
      if InShutdown(s, j) {
        ResultsStayReached(c, s, l, j);
      } else {
        ExitedStay(c, s, l);
      }
    }
  }

  lemma {:induction false} RunKeepsSafelyStopped(c: Config, s: State, ls: seq<Label>, j: nat)
    requires SafelyStopped(s, j) && Run(c, s, ls)
    ensures SafelyStopped(After(c, s, ls), j)
    decreases |ls|
  {
    if ls != [] {
      StepKeepsSafelyStopped(c, s, ls[0], j);
      hide Fire, SafelyStopped;
      RunKeepsSafelyStopped(c, Fire(c, s, ls[0]), ls[1..], j);
    }
  }

  lemma StepKeepsSafeToStop(c: Config, s: State, l: Label, j: nat)
    requires Safe(c, s) && StillSafeToStop(c, s, j) && Enabled(s, l) && !l.Spurious?
    requires l.Begin? && l.client == j ==> l.op.ShutdownOp?
    ensures Spared(c, Fire(c, s, l), j)
    ensures s.clients[j].StopExchange? || l == Begin(j, ShutdownOp) ==>
              Fire(c, s, l).stop || Fire(c, s, l).clients[j].StopExchange?
  {
    hide WorkerStep, Locks, Guards, CanPark, SomeAwake, SafelyStopped;
    match l
    case Begin(m, op) => CallStaysSafeToStop(c, s, m, op, j);
    case Act(m, k) => ClientStopsSafely(c, s, m, k, j);
    case Work(i, k) => WorkerStaysSafeToStop(c, s, i, k, j);
  }

  /** The state keeps being spared along every run in which the next call of client j is shutdown. */
  lemma {:induction false} RunKeepsSpared(c: Config, s: State, ls: seq<Label>, j: nat)
    requires Safe(c, s) && StillSafeToStop(c, s, j) && Run(c, s, ls) && NoSpurious(ls)
    requires s.clients[j].StopExchange? || ShutdownFirst(ls, j)
    ensures Spared(c, After(c, s, ls), j)
    decreases |ls|
  {
    if ls != [] {
      var t := Fire(c, s, ls[0]);
      StepKeepsSafe(c, s, ls[0]);
      hide Safe, CanPark, SomeAwake, SafelyStopped, Fire, Enabled;
      StepKeepsSafeToStop(c, s, ls[0], j);
      if StillSafeToStop(c, t, j) {
        RunKeepsSpared(c, t, ls[1..], j);
      } else {
        RunKeepsSafelyStopped(c, t, ls[1..], j);
      }
    }
  }

  /** At rest, with nobody blocked, the join has returned. */
  lemma JoinReturned(c: Config, s: State, j: nat)
    requires Locks(s) && NoTaskParking(s) && NoResultParking(s) && Quiescent(s)
    ensures !Joins(s, j)
  {
    hide Locks, NoTaskParking, NoResultParking, Quiescent;
    AllGone(c, s);
  }

  lemma RunOnToRest(c: Config, s: State, j: nat) returns (ls: seq<Label>)
    requires Invariant(c, s) && NoTaskParking(s)
    ensures Run(c, s, ls) && NoSpurious(ls)
    ensures var t := After(c, s, ls);
            && Invariant(c, t) && NoTaskParking(t) && Quiescent(t)
            && (NoResultParking(s) ==> !Joins(t, j))
  {
    hide Locks, Guards, PoolLedger.Ledger, PoolOrder.Order, PoolWakeups.Wakeups, Run, After, Quiescent;
    hide NoTaskParking, NoResultParking, Joins;
    ls := RunToRest(c, s);
    InternalIsShutdownOnly(ls, j);
    RunKeepsInvariant(c, s, ls);
    RunKeepsNoTaskParking(c, s, ls);
    if NoResultParking(s) {
      RunKeepsNoResultParking(c, s, ls);
      JoinReturned(c, After(c, s, ls), j);
    }
  }

  /** At rest after stop, with nobody waiting for tasks and some client k idle: one pop frees whoever waits for room. */
  lemma PopFrees(c: Config, s: State, k: nat) returns (ls: seq<Label>)
    requires Invariant(c, s) && NoTaskParking(s) && Quiescent(s) && k < |s.clients| && s.clients[k].Idle?
    ensures Run(c, s, ls) && NoSpurious(ls)
    ensures var t := After(c, s, ls); Invariant(c, t) && NoTaskParking(t) && NoResultParking(t)
  {
    CalmBasics(c, s);
    RestingForRoom(c, s);
    hide Invariant, Run, After, Quiescent, NoSpurious, NoTaskParking;
    if NoResultParking(s) {
      ls := [];
      NothingHappens(c, s);
    } else {
      ls := [Begin(k, PopOp), Act(k, 0), Act(k, 0)];
      PopOne(c, s, k);
      PoppingIsNotSpurious(ls, k);
      RunKeepsNoTaskParking(c, s, ls);
      WakingLeavesNobody(s, After(c, s, ls));
    }
  }

  lemma PoppingIsNotSpurious(ls: seq<Label>, k: nat)
    requires CallsBy(ls, k)
    ensures NoSpurious(ls)
  {
  }

  lemma WakingLeavesNobody(s: State, t: State)
    requires NoParkResult(s) && t.stop && t.workers == WakeAllResult(s.workers)
    ensures NoResultParking(t)
  {
  }

  lemma NothingHappens(c: Config, s: State)
    ensures Run(c, s, []) && After(c, s, []) == s && NoSpurious([])
  {
  }

  /** At rest nobody is about to block for room, and if somebody waits for it there is something to pop. */
  lemma RestingForRoom(c: Config, s: State)
    requires Invariant(c, s) && s.stop && Quiescent(s)
    ensures NoParkResult(s)
    ensures NoResultParking(s) || s.results != []
  {
    EveryoneIsCalm(c, s);
    NobodyNotifiesWhenCalm(s);
    hide Locks, PoolLedger.Ledger, PoolOrder.Order, Quiescent, SpaceNotifierDue, NoLostTaskWakeup;
    if !NoResultParking(s) {
      assert SomeResultWaiter(s);
    }
  }

  lemma RestingOthersAreIdle(c: Config, s: State, j: nat, k: nat)
    requires Locks(s) && Quiescent(s) && SafelyStopped(s, j) && Joins(s, j) && k < |s.clients| && k != j
    ensures s.clients[k].Idle?
  {
    hide Locks, Quiescent;
    EveryoneRests(c, s);
    assert !InShutdown(s, k);
  }

  lemma JoinMeansReached(s: State, j: nat)
    requires SafelyStopped(s, j) && Joins(s, j)
    ensures NoTaskParking(s) && (|s.clients| == 1 ==> NoResultParking(s))
  {
    hide NoTaskParking, NoResultParking;
  }

  /** A join that was spared is left again: by itself, or when another client pops once. */
  lemma JoinIsNotForGood(c: Config, s: State, j: nat)
    requires Invariant(c, s) && SafelyStopped(s, j)
    ensures !JoinsForGood(c, s, j)
  {
    hide Invariant, Run, After, Quiescent, NoSpurious, SafelyStopped, Joins, NoTaskParking, NoResultParking;
    NothingHappens(c, s);
    if Joins(s, j) {
      JoinMeansReached(s, j);
      var ls := RunOnToRest(c, s, j);
      var t := After(c, s, ls);
      if Joins(t, j) {
        assert !NoResultParking(s);
        RunKeepsSafelyStopped(c, s, ls, j);
        RunKeepsSizes(c, s, ls);
        var k := SomeOther(s, t, j);
        InvariantLocks(c, t);
        RestingOthersAreIdle(c, t, j, k);
        var pop := PopFrees(c, t, k);
        var rest := RunOnToRest(c, After(c, t, pop), j);
        NoSpuriousConcat(ls, pop);
        NoSpuriousConcat(ls + pop, rest);
        RunConcat(c, s, ls, pop);
        RunConcat(c, s, ls + pop, rest);
      }
    }
  }

  lemma SomeOther(s: State, t: State, j: nat) returns (k: nat)
    requires Joins(s, j) && |t.clients| == |s.clients| && |s.clients| != 1
    ensures k < |t.clients| && k != j
  {
    k := if j == 0 then 1 else 0;
  }

  lemma NoSpuriousConcat(a: seq<Label>, b: seq<Label>)
    requires NoSpurious(a) && NoSpurious(b)
    ensures NoSpurious(a + b)
  {
  }

  lemma ConditionNeeded(c: Config, s: State, j: nat)
    requires Invariant(c, s) && !s.stop && Idles(s, j) && CanHang(c, s, j)
    ensures HangCondition(c, s, j)
  {
    if !HangCondition(c, s, j) {
      var ls :| Run(c, s, ls) && NoSpurious(ls) && ShutdownFirst(ls, j) && JoinsForGood(c, After(c, s, ls), j);
      assert StillSafeToStop(c, s, j);
      hide Run, After, CanPark, SomeAwake, JoinsForGood, ShutdownFirst, NoSpurious;
      InvariantSafe(c, s);
      RunKeepsInvariant(c, s, ls);
      hide Invariant, Safe;
      RunKeepsSpared(c, s, ls, j);
      NotJoinedYet(c, After(c, s, ls), j);
      JoinIsNotForGood(c, After(c, s, ls), j);
    }
  }

  lemma NotJoinedYet(c: Config, s: State, j: nat)
    requires JoinsForGood(c, s, j)
    ensures !StillSafeToStop(c, s, j)
  {
    hide CanPark, SomeAwake;
    NothingHappens(c, s);
    assert Joins(After(c, s, []), j);
  }

  /** The exact condition at the call. Before stop, a call of shutdown that client j makes next can be left in its
      join for good, without spurious wake-ups, if and only if some other client is not itself about to stop the pool,
      or j is the only client and some worker is awake, or the workers alone can bring one of them to block on
      task_cv. */
  lemma ShutdownCanHangIff(c: Config, s: State, j: nat)
    requires ValidConfig(c) && Reachable(c, s) && !s.stop && j < |s.clients| && s.clients[j].Idle?
    ensures CanHang(c, s, j) <==> HangCondition(c, s, j)
    ensures |s.clients| == 1 ==> (CanHang(c, s, j) <==> SomeAwake(s))
    ensures c.resultPolicy == DropOldestCompletedResult ==>
              (CanHang(c, s, j) <==> !OthersStop(s, j) || SomeAwake(s))
  {
    ConditionIsExact(c, s, j);
    hide CanHang, Reachable, SomeAwake, PlaceToSpare, SomeOnItsWay;
  }

  lemma ConditionIsExact(c: Config, s: State, j: nat)
    requires ValidConfig(c) && Reachable(c, s) && !s.stop && j < |s.clients| && s.clients[j].Idle?
    ensures CanHang(c, s, j) <==> HangCondition(c, s, j)
  {
    ReachableInvariant(c, s);
    hide Invariant, Reachable, CanHang, HangCondition;
    if HangCondition(c, s, j) {
      ConditionSuffices(c, s, j);
    }
    if CanHang(c, s, j) {
      ConditionNeeded(c, s, j);
    }
  }
}
