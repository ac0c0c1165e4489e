/** Progress: the threads' own steps cannot go on for ever, and where they stop everything accepted
    has been delivered. */
module PoolProgress {
  import opened WorkerPool
  import opened PoolSafety
  import opened PoolLedger
  import opened PoolOrder
  import opened PoolWakeups
  import opened PoolInvariant
  import opened Tally

  /** A step inside an operation or a worker loop, as opposed to a new call or a spurious wake-up. */
  predicate Internal(l: Label) {
    l.Act? || l.Work?
  }

  // ---------------------------------------------------------------- three measures, in order of weight

  /** Work still owed for what a thread holds. */
  function WorkerWork(pc: WorkerPc): nat {
    match pc
    case AtTaskLock => 0
    case CheckTask => 0
    case ParkTask => 0
    case WaitTask => 0
    case WokenTask => 0
    case TakeTask => 0
    case NotifyTaken(_) => 3
    case Dispatching(_) => 3
    case NotifyPushed => 0
    case Exited => 0
    case _ => 2
  }

  function ClientWork(pc: ClientPc): nat {
    match pc
    case SubmitLock(_) => 5
    case SubmitLoadStop(_) => 5
    case SubmitQueue(_) => 5
    case StopExchange => 1
    case _ => 0
  }

  /** Notifications still due. */
  function WorkerNotes(pc: WorkerPc): nat {
    if pc.NotifyTaken? || pc.NotifyPushed? then 1 else 0
  }

  function ClientNotes(pc: ClientPc): nat {
    match pc
    case SubmitNotify => 1
    case PopNotify => 1
    case StopNotifyTasks => 2
    case StopNotifyResults => 1
    case _ => 0
  }

  /** Steps to the next change of the above. */
  function WorkerRank(pc: WorkerPc): nat {
    match pc
    case AtTaskLock => 4
    case WokenTask => 4
    case CheckTask => 3
    case ParkTask => 2
    case TakeTask => 2
    case WaitTask => 1
    case AtResultLock(_) => 6
    case WokenResult(_) => 6
    case Evict(_) => 5
    case CheckResult(_) => 5
    case ParkResult(_) => 4
    case LoadStop(_) => 3
    case Push(_) => 2
    case WaitResult(_) => 1
    case _ => 0
  }

  function ClientRank(pc: ClientPc): nat {
    match pc
    case SubmitLock(_) => 3
    case SubmitLoadStop(_) => 2
    case SubmitQueue(_) => 1
    case PopLock => 1
    case StopJoin => 1
    case _ => 0
  }

  function WorkOf(s: State): nat {
    4 * |s.tasks| + |s.results| + SumOf(s.workers, WorkerWork) + SumOf(s.clients, ClientWork)
  }

  function Notes(s: State): nat {
    SumOf(s.workers, WorkerNotes) + SumOf(s.clients, ClientNotes)
  }

  function Rank(s: State): nat {
    SumOf(s.workers, WorkerRank) + SumOf(s.clients, ClientRank)
  }

  predicate Falls(s: State, t: State) {
    || WorkOf(t) < WorkOf(s)
    || (WorkOf(t) == WorkOf(s) && Notes(t) < Notes(s))
    || (WorkOf(t) == WorkOf(s) && Notes(t) == Notes(s) && Rank(t) < Rank(s))
  }

  /** A sum after thread i moved and the others kept their weight. */
  lemma SumAfterMove<T>(xs: seq<T>, ys: seq<T>, i: nat, weight: T -> nat)
    requires |ys| == |xs| && i < |xs|
    requires forall m :: 0 <= m < |xs| && m != i ==> weight(ys[m]) == weight(xs[m])
    ensures SumOf(ys, weight) + weight(xs[i]) == SumOf(xs, weight) + weight(ys[i])
  {
    SumPointwise(ys, xs[i := ys[i]], weight);
    SumUpdate(xs, i, ys[i], weight);
  }

  lemma WakingOwesNothing(before: WorkerPc, after: WorkerPc)
    requires SameOrWoken(before, after)
    ensures WorkerWork(after) == WorkerWork(before) && WorkerNotes(after) == WorkerNotes(before)
  {
  }

  lemma WorkerSums(ws: seq<WorkerPc>, ws': seq<WorkerPc>, i: nat)
    requires |ws'| == |ws| && i < |ws|
    requires forall m :: 0 <= m < |ws| && m != i ==> SameOrWoken(ws[m], ws'[m])
    ensures SumOf(ws', WorkerWork) + WorkerWork(ws[i]) == SumOf(ws, WorkerWork) + WorkerWork(ws'[i])
    ensures SumOf(ws', WorkerNotes) + WorkerNotes(ws[i]) == SumOf(ws, WorkerNotes) + WorkerNotes(ws'[i])
    ensures ws' == ws[i := ws'[i]] ==>
              SumOf(ws', WorkerRank) + WorkerRank(ws[i]) == SumOf(ws, WorkerRank) + WorkerRank(ws'[i])
  {
    forall m | 0 <= m < |ws| && m != i
      ensures WorkerWork(ws'[m]) == WorkerWork(ws[m]) && WorkerNotes(ws'[m]) == WorkerNotes(ws[m])
    {
      WakingOwesNothing(ws[m], ws'[m]);
    }
    SumAfterMove(ws, ws', i, WorkerWork);
    SumAfterMove(ws, ws', i, WorkerNotes);
    if ws' == ws[i := ws'[i]] {
      SumAfterMove(ws, ws', i, WorkerRank);
    }
  }

  lemma WorkerSumsAfterWaking(ws: seq<WorkerPc>, ws': seq<WorkerPc>)
    requires |ws'| == |ws|
    requires forall m :: 0 <= m < |ws| ==> SameOrWoken(ws[m], ws'[m])
    ensures SumOf(ws', WorkerWork) == SumOf(ws, WorkerWork) && SumOf(ws', WorkerNotes) == SumOf(ws, WorkerNotes)
  {
    forall m | 0 <= m < |ws|
      ensures WorkerWork(ws'[m]) == WorkerWork(ws[m]) && WorkerNotes(ws'[m]) == WorkerNotes(ws[m])
    {
      WakingOwesNothing(ws[m], ws'[m]);
    }
    SumPointwise(ws', ws, WorkerWork);
    SumPointwise(ws', ws, WorkerNotes);
  }

  lemma TaskSideFalls(c: Config, s: State, i: nat, k: nat)
    requires Guards(c, s) && Enabled(s, Work(i, k)) && OnTaskSide(s.workers[i])
    ensures Falls(s, TaskSideStep(s, i, k))
  {
    var t := TaskSideStep(s, i, k);
    assert WorkerKnows(c, s, s.workers[i]);
    WorkerSums(s.workers, t.workers, i);
    hide SumOf, Guards, SameOrWoken;
  }

  /** A point of the result half whose step only changes the program counter and the lock. */
  predicate QuietResultStep(s: State, pc: WorkerPc) {
    pc.AtResultLock? || pc.CheckResult? || pc.ParkResult? || pc.WokenResult? || (pc.LoadStop? && !s.stop)
  }

  lemma QuietResultSideFalls(c: Config, s: State, i: nat, k: nat)
    requires Enabled(s, Work(i, k)) && !OnTaskSide(s.workers[i]) && QuietResultStep(s, s.workers[i])
    ensures Falls(s, ResultSideStep(c, s, i, k))
  {
    var t := ResultSideStep(c, s, i, k);
    WorkerSums(s.workers, t.workers, i);
    hide SumOf, SameOrWoken, Handle, Surplus;
  }

  /** The points whose step changes the queue or drops the result, and the notification after publishing. */
  lemma LoudResultSideFalls(c: Config, s: State, i: nat, k: nat)
    requires Enabled(s, Work(i, k)) && !OnTaskSide(s.workers[i]) && !QuietResultStep(s, s.workers[i])
    ensures Falls(s, ResultSideStep(c, s, i, k))
  {
    hide SumOf, Falls, ResultSideStep;
    match s.workers[i]
    case Dispatching(_) => DispatchFalls(c, s, i, k);
    case Evict(_) => EvictFalls(c, s, i, k);
    case LoadStop(_) => DiscardFalls(c, s, i, k);
    case Push(_) => PushFalls(c, s, i, k);
    case NotifyPushed => NotifyPushedFalls(c, s, i, k);
    case _ =>
  }

  lemma DispatchFalls(c: Config, s: State, i: nat, k: nat)
    requires Enabled(s, Work(i, k)) && s.workers[i].Dispatching?
    ensures Falls(s, ResultSideStep(c, s, i, k))
  {
    hide SumOf, SameOrWoken, Handle;
    WorkerSums(s.workers, ResultSideStep(c, s, i, k).workers, i);
  }

  lemma EvictFalls(c: Config, s: State, i: nat, k: nat)
    requires Enabled(s, Work(i, k)) && s.workers[i].Evict?
    ensures Falls(s, ResultSideStep(c, s, i, k))
  {
    hide SumOf, SameOrWoken, Surplus;
    WorkerSums(s.workers, ResultSideStep(c, s, i, k).workers, i);
  }

  lemma DiscardFalls(c: Config, s: State, i: nat, k: nat)
    requires Enabled(s, Work(i, k)) && s.workers[i].LoadStop? && s.stop
    ensures Falls(s, ResultSideStep(c, s, i, k))
  {
    hide SumOf, SameOrWoken;
    WorkerSums(s.workers, ResultSideStep(c, s, i, k).workers, i);
  }

  lemma PushFalls(c: Config, s: State, i: nat, k: nat)
    requires Enabled(s, Work(i, k)) && s.workers[i].Push?
    ensures Falls(s, ResultSideStep(c, s, i, k))
  {
    hide SumOf, SameOrWoken;
    WorkerSums(s.workers, ResultSideStep(c, s, i, k).workers, i);
  }

  lemma NotifyPushedFalls(c: Config, s: State, i: nat, k: nat)
    requires Enabled(s, Work(i, k)) && s.workers[i].NotifyPushed?
    ensures Falls(s, ResultSideStep(c, s, i, k))
  {
    hide SumOf, SameOrWoken;
    WorkerSums(s.workers, ResultSideStep(c, s, i, k).workers, i);
  }

  lemma SubmitFalls(c: Config, s: State, j: nat, k: nat)
    requires Enabled(s, Act(j, k)) && ClientWork(s.clients[j]) == 5
    ensures Falls(s, ClientStep(c, s, j, k))
  {
    hide SumOf, SameOrWoken;
    var t := ClientStep(c, s, j, k);
    WorkerSumsAfterWaking(s.workers, t.workers);
    SumAfterMove(s.clients, t.clients, j, ClientWork);
    SumAfterMove(s.clients, t.clients, j, ClientNotes);
    SumAfterMove(s.clients, t.clients, j, ClientRank);
  }

  lemma ClientFalls(c: Config, s: State, j: nat, k: nat)
    requires Enabled(s, Act(j, k)) && ClientWork(s.clients[j]) < 5
    ensures Falls(s, ClientStep(c, s, j, k))
  {
    hide SumOf, SameOrWoken, Submit;
    var t := ClientStep(c, s, j, k);
    WorkerSumsAfterWaking(s.workers, t.workers);
    SumAfterMove(s.clients, t.clients, j, ClientWork);
    SumAfterMove(s.clients, t.clients, j, ClientNotes);
    SumAfterMove(s.clients, t.clients, j, ClientRank);
  }

  /** Every internal step makes progress. */
  lemma InternalStepFalls(c: Config, s: State, l: Label)
    requires Guards(c, s) && Enabled(s, l) && Internal(l)
    ensures Falls(s, Fire(c, s, l))
  {
    hide ClientStep, TaskSideStep, ResultSideStep, Guards, Falls;
    match l
    case Act(j, k) =>
      if ClientWork(s.clients[j]) == 5 {
        SubmitFalls(c, s, j, k);
      } else {
        ClientFalls(c, s, j, k);
      }
    case Work(i, k) =>
      if OnTaskSide(s.workers[i]) {
        TaskSideFalls(c, s, i, k);
      } else if QuietResultStep(s, s.workers[i]) {
        QuietResultSideFalls(c, s, i, k);
      } else {
        LoudResultSideFalls(c, s, i, k);
      }
  }

  // ---------------------------------------------------------------- one number that bounds every run

  function NotesLimit(s: State): nat { |s.workers| + 2 * |s.clients| }

  function RankLimit(s: State): nat { 6 * |s.workers| + 3 * |s.clients| }

  /** A two-digit number in base b + 1. */
  function Digits(high: nat, low: nat, b: nat): nat {
    high * (b + 1) + low
  }

  function Fuel(s: State): nat {
    Digits(Digits(WorkOf(s), Notes(s), NotesLimit(s)), Rank(s), RankLimit(s))
  }

  lemma LimitsHold(s: State)
    ensures Notes(s) <= NotesLimit(s) && Rank(s) <= RankLimit(s)
  {
    SumBound(s.workers, WorkerNotes, 1);
    SumBound(s.clients, ClientNotes, 2);
    SumBound(s.workers, WorkerRank, 6);
    SumBound(s.clients, ClientRank, 3);
  }

  /** A smaller high digit outweighs the low one. */
  lemma HighDigitWins(high: nat, low: nat, high': nat, low': nat, b: nat)
    requires low' <= b && (high' < high || (high' == high && low' < low))
    ensures Digits(high', low', b) < Digits(high, low, b)
  {
    if high' < high {
      assert (high' + 1) * (b + 1) <= high * (b + 1);
    }
  }

  lemma FallingBurnsFuel(s: State, t: State)
    requires Falls(s, t) && |t.workers| == |s.workers| && |t.clients| == |s.clients|
    ensures Fuel(t) < Fuel(s)
  {
    LimitsHold(t);
    var n, r := NotesLimit(s), RankLimit(s);
    hide WorkOf, Notes, Rank, Digits;
    if WorkOf(t) < WorkOf(s) || Notes(t) < Notes(s) {
      HighDigitWins(WorkOf(s), Notes(s), WorkOf(t), Notes(t), n);
    }
    HighDigitWins(Digits(WorkOf(s), Notes(s), n), Rank(s), Digits(WorkOf(t), Notes(t), n), Rank(t), r);
  }

  predicate AllInternal(ls: seq<Label>) {
    forall i :: 0 <= i < |ls| ==> Internal(ls[i])
  }

  lemma SizesStay(c: Config, s: State, l: Label)
    requires Enabled(s, l)
    ensures |Fire(c, s, l).workers| == |s.workers| && |Fire(c, s, l).clients| == |s.clients|
  {
    hide ClientStep, WorkerStep;
  }

  /** Without new calls and spurious wake-ups, no run from s is longer than Fuel(s). */
  lemma {:induction false} RunsAreBounded(c: Config, s: State, ls: seq<Label>)
    requires Safe(c, s) && Run(c, s, ls) && AllInternal(ls)
    ensures |ls| + Fuel(After(c, s, ls)) <= Fuel(s)
    decreases |ls|
  {
    if ls != [] {
      hide Locks, Guards, Fire, Fuel, Falls;
      var t := Fire(c, s, ls[0]);
      StepKeepsSafe(c, s, ls[0]);
      InternalStepFalls(c, s, ls[0]);
      SizesStay(c, s, ls[0]);
      FallingBurnsFuel(s, t);
      RunsAreBounded(c, t, ls[1..]);
    }
  }

  // ---------------------------------------------------------------- where runs stop

  /** No thread can take a step of its own. */
  ghost predicate Quiescent(s: State) {
    forall l :: Internal(l) ==> !Enabled(s, l)
  }

  /** Setting the stop flag. */
  predicate Stops(s: State, l: Label) {
    l.Act? && l.client < |s.clients| && s.clients[l.client].StopExchange?
  }

  /** No thread can take a step of its own except to set the stop flag. */
  ghost predicate Calm(s: State) {
    forall l :: Internal(l) && Enabled(s, l) ==> Stops(s, l)
  }

  predicate WorkerRests(pc: WorkerPc) {
    pc.WaitTask? || pc.WaitResult? || pc.Exited?
  }

  predicate ClientRests(pc: ClientPc) {
    pc.Idle? || pc.StopJoin?
  }

  lemma MutexesAreFree(c: Config, s: State)
    requires Locks(s) && Calm(s)
    ensures s.taskOwner.Free? && s.resultOwner.Free?
  {
    if s.taskOwner.Worker? {
      var i := s.taskOwner.worker;
      assert HoldsTaskMutex(s.workers[i]) == TaskMutexOf(s, i);
      assert Enabled(s, Work(i, 0));
    }
    if s.taskOwner.Client? {
      var j := s.taskOwner.client;
      assert ClientHoldsTaskMutex(s.clients[j]) == ClientMutexOf(s, j);
      assert Enabled(s, Act(j, 0));
    }
    if s.resultOwner.Worker? {
      var i := s.resultOwner.worker;
      assert HoldsResultMutex(s.workers[i]) == ResultMutexOf(s, i);
      assert Enabled(s, Work(i, 0));
    }
  }

  lemma EveryoneIsCalm(c: Config, s: State)
    requires Locks(s) && Calm(s)
    ensures forall i :: 0 <= i < |s.workers| ==> WorkerRests(s.workers[i])
    ensures forall j :: 0 <= j < |s.clients| ==> ClientRests(s.clients[j]) || s.clients[j].StopExchange?
  {
    MutexesAreFree(c, s);
    hide Locks;
    forall i | 0 <= i < |s.workers|
      ensures WorkerRests(s.workers[i])
    {
      var k: nat := if m: nat :| m < |s.workers| && s.workers[m].WaitResult? then m else 0;
      assert !Enabled(s, Work(i, k));
    }
    forall j | 0 <= j < |s.clients|
      ensures ClientRests(s.clients[j]) || s.clients[j].StopExchange?
    {
      var k: nat := if m: nat :| m < |s.workers| && s.workers[m].WaitTask? then m else 0;
      assert !Enabled(s, Act(j, k)) || Stops(s, Act(j, k));
    }
  }

  lemma EveryoneRests(c: Config, s: State)
    requires Locks(s) && Quiescent(s)
    ensures forall i :: 0 <= i < |s.workers| ==> WorkerRests(s.workers[i])
    ensures forall j :: 0 <= j < |s.clients| ==> ClientRests(s.clients[j])
    ensures (forall i :: 0 <= i < |s.workers| ==> s.workers[i].Exited?) ==>
              forall j :: 0 <= j < |s.clients| ==> s.clients[j].Idle?
  {
    EveryoneIsCalm(c, s);
    hide Locks;
    forall j | 0 <= j < |s.clients|
      ensures ClientRests(s.clients[j])
      ensures (forall i :: 0 <= i < |s.workers| ==> s.workers[i].Exited?) ==> s.clients[j].Idle?
    {
      assert !Enabled(s, Act(j, 0));
    }
  }

  lemma NobodyNotifiesWhenCalm(s: State)
    requires forall i :: 0 <= i < |s.workers| ==> WorkerRests(s.workers[i])
    requires forall j :: 0 <= j < |s.clients| ==> ClientRests(s.clients[j]) || s.clients[j].StopExchange?
    ensures !TaskNotifierDue(s) && !SpaceNotifierDue(s)
  {
  }

  /** Where the threads come to rest before stop, with room among the results or in drop-oldest mode, no task is
      pending or held: neither kind of wake-up was lost. */
  lemma CalmWorkersWantTasks(c: Config, s: State)
    requires Invariant(c, s) && Calm(s) && !s.stop
    requires |s.results| < c.resultCapacity || c.resultPolicy == DropOldestCompletedResult
    ensures s.tasks == []
    ensures forall i :: 0 <= i < |s.workers| ==> s.workers[i].WaitTask?
  {
    EveryoneIsCalm(c, s);
    NobodyNotifiesWhenCalm(s);
    hide Locks, Ledger, Order, Calm, TaskNotifierDue, SpaceNotifierDue;
    forall i | 0 <= i < |s.workers|
      ensures s.workers[i].WaitTask?
    {
      RestingWorkerWantsTask(c, s, i);
    }
    assert s.workers[0].WaitTask?;
  }

  lemma RestingWorkerWantsTask(c: Config, s: State, i: nat)
    requires Guards(c, s) && NoLostSpaceWakeup(c, s) && !SpaceNotifierDue(s) && !s.stop
    requires |s.results| < c.resultCapacity || c.resultPolicy == DropOldestCompletedResult
    requires i < |s.workers| && WorkerRests(s.workers[i])
    ensures s.workers[i].WaitTask?
  {
    hide SpaceNotifierDue;
    assert WorkerKnows(c, s, s.workers[i]);
  }

  lemma RestingWorkersWantTasks(c: Config, s: State)
    requires ValidConfig(c) && Reachable(c, s) && Quiescent(s) && !s.stop
    requires |s.results| < c.resultCapacity || c.resultPolicy == DropOldestCompletedResult
    ensures s.tasks == []
    ensures forall i :: 0 <= i < |s.workers| ==> s.workers[i].WaitTask?
  {
    ReachableInvariant(c, s);
    hide Invariant, Reachable;
    CalmWorkersWantTasks(c, s);
  }

  /** Lossless delivery: under the default policies, wherever a pool that has not been stopped comes to rest
      with room among its results, the answers popped or ready to be popped are those of all accepted tasks,
      each exactly once. */
  lemma EverythingIsDelivered(c: Config, s: State)
    requires ValidConfig(c) && Lossless(c) && Reachable(c, s) && Quiescent(s) && !s.stop
    requires |s.results| < c.resultCapacity
    ensures multiset(HandleAll(c, s.log.accepted)) == multiset(s.log.popped) + multiset(s.results)
  {
    RestingWorkersWantTasks(c, s);
    ReachableInvariant(c, s);
    hide Locks, WorkerKnows, Wakeups, Reachable, Quiescent, Subsequence, HandleAll, LoneWorkerOrder;
    BagEmpty(s.workers, Undispatched);
    BagEmpty(s.workers, Finished);
    HandleAllBag(c, s.log.accepted, s.log.dispatched);
  }

  /** Such a resting state is always within reach of the threads' own steps. */
  lemma {:induction false} RunToRest(c: Config, s: State) returns (ls: seq<Label>)
    requires Safe(c, s)
    ensures Run(c, s, ls) && AllInternal(ls) && Quiescent(After(c, s, ls))
    decreases Fuel(s)
  {
    if Quiescent(s) {
      ls := [];
    } else {
      var l :| Internal(l) && Enabled(s, l);
      hide Locks, Guards, Fire, Fuel, Falls, Quiescent, Enabled, Run, After;
      var t := Fire(c, s, l);
      StepKeepsSafe(c, s, l);
      InternalStepFalls(c, s, l);
      SizesStay(c, s, l);
      FallingBurnsFuel(s, t);
      var rest := RunToRest(c, t);
      ls := [l] + rest;
      RunCons(c, s, l, rest);
    }
  }
}
