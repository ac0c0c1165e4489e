/** Conservation: where every accepted task is, over every interleaving and all four policies. */
module PoolLedger {
  import opened WorkerPool
  import opened Tally

  /** The task a worker has dequeued but not yet dispatched. */
  function Undispatched(pc: WorkerPc): multiset<Task> {
    match pc
    case NotifyTaken(t) => multiset{t}
    case Dispatching(t) => multiset{t}
    case _ => multiset{}
  }

  /** The result a worker has computed but neither published nor thrown away. */
  function Finished(pc: WorkerPc): multiset<Result> {
    match pc
    case AtResultLock(r) => multiset{r}
    case Evict(r) => multiset{r}
    case CheckResult(r) => multiset{r}
    case ParkResult(r) => multiset{r}
    case WaitResult(r) => multiset{r}
    case WokenResult(r) => multiset{r}
    case LoadStop(r) => multiset{r}
    case Push(r) => multiset{r}
    case _ => multiset{}
  }

  /** The elements of `whole` are exactly those of a, b and c together, with multiplicity. */
  predicate Parts<T(==)>(whole: seq<T>, a: seq<T>, b: seq<T>, c: seq<T>) {
    multiset(whole) == multiset(a) + multiset(b) + multiset(c)
  }

  /** The same with one part held in the workers' hands. */
  predicate PartsHeld<T(==)>(whole: seq<T>, held: multiset<T>, b: seq<T>, c: seq<T>) {
    multiset(whole) == held + multiset(b) + multiset(c)
  }

  /** Stage by stage: an accepted task was evicted, was dequeued or is pending; a dequeued one is held by a
      worker or was dispatched; the result of a dispatched one is held by a worker, was published or was
      discarded at stop; a published one was evicted, was popped or is queued. */
  predicate Ledger(c: Config, s: State) {
    QueueLedger(s) && HandLedger(c, s)
  }

  predicate QueueLedger(s: State) {
    && Parts(s.log.accepted, s.log.evictedTasks, s.log.dequeued, s.tasks)
    && Parts(s.log.published, s.log.evictedResults, s.log.popped, s.results)
  }

  predicate HandLedger(c: Config, s: State) {
    && PartsHeld(s.log.dequeued, BagOf(s.workers, Undispatched), s.log.dispatched, [])
    && PartsHeld(HandleAll(c, s.log.dispatched), BagOf(s.workers, Finished), s.log.published, s.log.discarded)
  }

  lemma TakeHead<T>(whole: seq<T>, a: seq<T>, b: seq<T>, c: seq<T>)
    requires Parts(whole, a, b, c) && c != []
    ensures Parts(whole, a, b + [c[0]], c[1..])
  {
    assert c == [c[0]] + c[1..];
  }

  lemma EvictFront<T>(whole: seq<T>, a: seq<T>, b: seq<T>, c: seq<T>, n: nat)
    requires Parts(whole, a, b, c) && n <= |c|
    ensures Parts(whole, a + c[..n], b, c[n..])
  {
    assert c == c[..n] + c[n..];
  }

  lemma Arrive<T>(whole: seq<T>, a: seq<T>, b: seq<T>, c: seq<T>, x: T, evicted: seq<T>, c': seq<T>)
    requires Parts(whole, a, b, c) && c + [x] == evicted + c'
    ensures Parts(whole + [x], a + evicted, b, c')
  {
    assert multiset(c) + multiset{x} == multiset(c + [x]) == multiset(evicted) + multiset(c');
    assert multiset(whole + [x]) == multiset(a) + multiset(b) + (multiset(c) + multiset{x});
  }

  lemma WakingMovesNothing(before: WorkerPc, after: WorkerPc)
    requires SameOrWoken(before, after)
    ensures Undispatched(after) == Undispatched(before) && Finished(after) == Finished(before)
  {
  }

  predicate EmptyHanded(pc: WorkerPc) {
    || pc.AtTaskLock? || pc.CheckTask? || pc.ParkTask? || pc.WaitTask? || pc.WokenTask? || pc.TakeTask?
    || pc.NotifyPushed? || pc.Exited?
  }

  lemma EmptyHands(pc: WorkerPc)
    requires EmptyHanded(pc)
    ensures Undispatched(pc) == multiset{} && Finished(pc) == multiset{}
  {
  }

  lemma HandedOver(before: WorkerPc, after: WorkerPc)
    requires before.NotifyTaken? && after == Dispatching(before.task)
    ensures Undispatched(after) == Undispatched(before) && Finished(after) == Finished(before)
  {
  }

  predicate HoldsResult(pc: WorkerPc) {
    !EmptyHanded(pc) && !pc.NotifyTaken? && !pc.Dispatching?
  }

  lemma ResultInHand(pc: WorkerPc)
    requires HoldsResult(pc)
    ensures Undispatched(pc) == multiset{} && Finished(pc) == multiset{pc.done}
  {
  }

  /** A move of worker i, with everybody else at most woken, changes a bag only by what i holds. */
  lemma BagAfterMove<R>(ws: seq<WorkerPc>, ws': seq<WorkerPc>, i: nat, held: WorkerPc -> multiset<R>)
    requires |ws'| == |ws| && i < |ws|
    requires forall m :: 0 <= m < |ws| && m != i ==> held(ws'[m]) == held(ws[m])
    ensures held(ws'[i]) == held(ws[i]) ==> BagOf(ws', held) == BagOf(ws, held)
    ensures held(ws[i]) == multiset{} ==> BagOf(ws', held) == BagOf(ws, held) + held(ws'[i])
    ensures held(ws'[i]) == multiset{} ==> BagOf(ws', held) + held(ws[i]) == BagOf(ws, held)
  {
    BagPointwise(ws', ws[i := ws'[i]], held);
    BagUpdate(ws, i, ws'[i], held);
    var bag, bag' := BagOf(ws, held), BagOf(ws', held);
    assert bag' + held(ws[i]) == bag + held(ws'[i]);
    if held(ws'[i]) == held(ws[i]) {
      assert bag' == (bag' + held(ws[i])) - held(ws[i]);
      assert bag == (bag + held(ws[i])) - held(ws[i]);
    }
  }

  /** Everybody but worker i holds what it held before. */
  ghost predicate OthersHold<R>(ws: seq<WorkerPc>, ws': seq<WorkerPc>, i: nat, held: WorkerPc -> multiset<R>) {
    && |ws'| == |ws| && i < |ws|
    && forall m :: 0 <= m < |ws| && m != i ==> held(ws'[m]) == held(ws[m])
  }

  lemma OthersKeepTheirs(ws: seq<WorkerPc>, ws': seq<WorkerPc>, i: nat)
    requires |ws'| == |ws| && i < |ws|
    requires forall m :: 0 <= m < |ws| && m != i ==> SameOrWoken(ws[m], ws'[m])
    ensures OthersHold(ws, ws', i, Undispatched) && OthersHold(ws, ws', i, Finished)
  {
    forall m | 0 <= m < |ws| && m != i
      ensures Undispatched(ws'[m]) == Undispatched(ws[m]) && Finished(ws'[m]) == Finished(ws[m])
    {
      WakingMovesNothing(ws[m], ws'[m]);
    }
  }

  lemma HandKeeps<R>(whole: seq<R>, ws: seq<WorkerPc>, ws': seq<WorkerPc>, i: nat, held: WorkerPc -> multiset<R>,
                     b: seq<R>, c: seq<R>)
    requires OthersHold(ws, ws', i, held) && held(ws'[i]) == held(ws[i])
    requires PartsHeld(whole, BagOf(ws, held), b, c)
    ensures PartsHeld(whole, BagOf(ws', held), b, c)
  {
    BagAfterMove(ws, ws', i, held);
  }

  lemma HandGrabs<R>(whole: seq<R>, ws: seq<WorkerPc>, ws': seq<WorkerPc>, i: nat, held: WorkerPc -> multiset<R>,
                     b: seq<R>, c: seq<R>, x: R)
    requires OthersHold(ws, ws', i, held) && held(ws[i]) == multiset{} && held(ws'[i]) == multiset{x}
    requires PartsHeld(whole, BagOf(ws, held), b, c)
    ensures PartsHeld(whole + [x], BagOf(ws', held), b, c)
  {
    BagAfterMove(ws, ws', i, held);
  }

  lemma HandReleases<R>(whole: seq<R>, ws: seq<WorkerPc>, ws': seq<WorkerPc>, i: nat, held: WorkerPc -> multiset<R>,
                        b: seq<R>, c: seq<R>, x: R)
    requires OthersHold(ws, ws', i, held) && held(ws[i]) == multiset{x} && held(ws'[i]) == multiset{}
    requires PartsHeld(whole, BagOf(ws, held), b, c)
    ensures PartsHeld(whole, BagOf(ws', held), b + [x], c)
    ensures PartsHeld(whole, BagOf(ws', held), b, c + [x])
  {
    BagAfterMove(ws, ws', i, held);
  }

  lemma BagsAfterWaking(ws: seq<WorkerPc>, ws': seq<WorkerPc>)
    requires |ws'| == |ws|
    requires forall m :: 0 <= m < |ws| ==> SameOrWoken(ws[m], ws'[m])
    ensures BagOf(ws', Undispatched) == BagOf(ws, Undispatched)
    ensures BagOf(ws', Finished) == BagOf(ws, Finished)
  {
    forall m | 0 <= m < |ws|
      ensures Undispatched(ws'[m]) == Undispatched(ws[m]) && Finished(ws'[m]) == Finished(ws[m])
    {
      WakingMovesNothing(ws[m], ws'[m]);
    }
    BagPointwise(ws', ws, Undispatched);
    BagPointwise(ws', ws, Finished);
  }

  lemma HandleAllSnoc(c: Config, ts: seq<Task>, t: Task)
    ensures HandleAll(c, ts + [t]) == HandleAll(c, ts) + [Handle(c, t)]
  {
  }

  lemma ClientStepKeepsLedger(c: Config, s: State, j: nat, k: nat)
    requires Ledger(c, s) && Enabled(s, Act(j, k))
    ensures Ledger(c, ClientStep(c, s, j, k))
  {
    hide Parts, PartsHeld, Submit, BagOf, HandleAll;
    BagsAfterWaking(s.workers, ClientStep(c, s, j, k).workers);
    match s.clients[j]
    case SubmitQueue(t) =>
      var r := Submit(c, s.tasks, t);
      if r.accepted {
        Arrive(s.log.accepted, s.log.evictedTasks, s.log.dequeued, s.tasks, t, r.evicted, r.tasks);
      }
    case PopLock =>
      if s.results != [] {
        TakeHead(s.log.published, s.log.evictedResults, s.log.popped, s.results);
      }
    case _ =>
  }

  lemma WorkerStepKeepsQueueLedger(c: Config, s: State, i: nat, k: nat)
    requires QueueLedger(s) && Enabled(s, Work(i, k))
    ensures QueueLedger(WorkerStep(c, s, i, k))
  {
    hide Parts, Handle, Surplus;
    match s.workers[i]
    case TakeTask =>
      if s.tasks != [] {
        TakeHead(s.log.accepted, s.log.evictedTasks, s.log.dequeued, s.tasks);
      }
    case Evict(r) =>
      EvictFront(s.log.published, s.log.evictedResults, s.log.popped, s.results, Surplus(c, s.results));
    case Push(r) =>
      Arrive(s.log.published, s.log.evictedResults, s.log.popped, s.results, r, [], s.results + [r]);
      assert s.log.evictedResults + [] == s.log.evictedResults && [] + (s.results + [r]) == s.results + [r];
    case _ =>
  }

  /** A move that changes neither the log nor what worker i holds. */
  lemma QuietMoveKeepsHands(c: Config, s: State, t: State, i: nat)
    requires HandLedger(c, s) && t.log == s.log && |t.workers| == |s.workers| && i < |s.workers|
    requires forall m :: 0 <= m < |s.workers| && m != i ==> SameOrWoken(s.workers[m], t.workers[m])
    requires Undispatched(t.workers[i]) == Undispatched(s.workers[i])
    requires Finished(t.workers[i]) == Finished(s.workers[i])
    ensures HandLedger(c, t)
  {
    OthersKeepTheirs(s.workers, t.workers, i);
    HandKeeps(s.log.dequeued, s.workers, t.workers, i, Undispatched, s.log.dispatched, []);
    HandKeeps(HandleAll(c, s.log.dispatched), s.workers, t.workers, i, Finished, s.log.published, s.log.discarded);
  }

  lemma TakeKeepsHands(c: Config, s: State, i: nat, k: nat)
    requires HandLedger(c, s) && Enabled(s, Work(i, k)) && s.workers[i].TakeTask? && s.tasks != []
    ensures HandLedger(c, TaskSideStep(s, i, k))
  {
    hide PartsHeld, BagOf, HandleAll;
    var t := TaskSideStep(s, i, k);
    OthersKeepTheirs(s.workers, t.workers, i);
    hide OthersHold;
    HandKeeps(HandleAll(c, s.log.dispatched), s.workers, t.workers, i, Finished, s.log.published, s.log.discarded);
    HandGrabs(s.log.dequeued, s.workers, t.workers, i, Undispatched, s.log.dispatched, [], s.tasks[0]);
  }

  lemma TaskSideKeepsHands(c: Config, s: State, i: nat, k: nat)
    requires HandLedger(c, s) && Enabled(s, Work(i, k)) && OnTaskSide(s.workers[i])
    ensures HandLedger(c, TaskSideStep(s, i, k))
  {
    hide HandLedger, Undispatched, Finished;
    if s.workers[i].TakeTask? && s.tasks != [] {
      TakeKeepsHands(c, s, i, k);
    } else {
      var t := TaskSideStep(s, i, k);
      if s.workers[i].NotifyTaken? {
        HandedOver(s.workers[i], t.workers[i]);
      } else {
        EmptyHands(s.workers[i]);
        EmptyHands(t.workers[i]);
      }
      QuietMoveKeepsHands(c, s, t, i);
    }
  }

  lemma DispatchKeepsHands(c: Config, s: State, i: nat, k: nat)
    requires HandLedger(c, s) && Enabled(s, Work(i, k)) && s.workers[i].Dispatching?
    ensures HandLedger(c, ResultSideStep(c, s, i, k))
  {
    hide PartsHeld, BagOf, HandleAll, Handle, Surplus;
    var t := ResultSideStep(c, s, i, k);
    var task, dispatched := s.workers[i].task, s.log.dispatched;
    OthersKeepTheirs(s.workers, t.workers, i);
    hide OthersHold;
    HandleAllSnoc(c, dispatched, task);
    HandReleases(s.log.dequeued, s.workers, t.workers, i, Undispatched, dispatched, [], task);
    HandGrabs(HandleAll(c, dispatched), s.workers, t.workers, i, Finished,
              s.log.published, s.log.discarded, Handle(c, task));
  }

  lemma FinishKeepsHands(c: Config, s: State, i: nat, k: nat)
    requires HandLedger(c, s) && Enabled(s, Work(i, k))
    requires s.workers[i].Push? || (s.workers[i].LoadStop? && s.stop)
    ensures HandLedger(c, ResultSideStep(c, s, i, k))
  {
    hide PartsHeld, BagOf, HandleAll, Handle, Surplus, Undispatched, Finished;
    var t := ResultSideStep(c, s, i, k);
    ResultInHand(s.workers[i]);
    EmptyHands(t.workers[i]);
    OthersKeepTheirs(s.workers, t.workers, i);
    hide OthersHold;
    HandKeeps(s.log.dequeued, s.workers, t.workers, i, Undispatched, s.log.dispatched, []);
    HandReleases(HandleAll(c, s.log.dispatched), s.workers, t.workers, i, Finished,
                 s.log.published, s.log.discarded, s.workers[i].done);
  }

  lemma EvictKeepsHands(c: Config, s: State, i: nat, k: nat)
    requires HandLedger(c, s) && Enabled(s, Work(i, k)) && s.workers[i].Evict?
    ensures HandLedger(c, ResultSideStep(c, s, i, k))
  {
    hide PartsHeld, BagOf, HandleAll, Handle, Surplus;
    var t := ResultSideStep(c, s, i, k);
    QuietMoveKeepsHands(c, s, t.(log := s.log), i);
  }

  lemma ResultSideKeepsHands(c: Config, s: State, i: nat, k: nat)
    requires HandLedger(c, s) && Enabled(s, Work(i, k)) && !OnTaskSide(s.workers[i])
    ensures HandLedger(c, ResultSideStep(c, s, i, k))
  {
    hide HandLedger, HandleAll, Handle, Surplus, Undispatched, Finished;
    if s.workers[i].Dispatching? {
      DispatchKeepsHands(c, s, i, k);
    } else if s.workers[i].Push? || (s.workers[i].LoadStop? && s.stop) {
      FinishKeepsHands(c, s, i, k);
    } else if s.workers[i].Evict? {
      EvictKeepsHands(c, s, i, k);
    } else {
      var t := ResultSideStep(c, s, i, k);
      if s.workers[i].NotifyPushed? {
        EmptyHands(s.workers[i]);
        EmptyHands(t.workers[i]);
      } else {
        ResultInHand(s.workers[i]);
        ResultInHand(t.workers[i]);
      }
      QuietMoveKeepsHands(c, s, t, i);
    }
  }

  lemma WorkerStepKeepsLedger(c: Config, s: State, i: nat, k: nat)
    requires Ledger(c, s) && Enabled(s, Work(i, k))
    ensures Ledger(c, WorkerStep(c, s, i, k))
  {
    WorkerStepKeepsQueueLedger(c, s, i, k);
    hide QueueLedger, HandLedger, TaskSideStep, ResultSideStep;
    if OnTaskSide(s.workers[i]) {
      TaskSideKeepsHands(c, s, i, k);
    } else {
      ResultSideKeepsHands(c, s, i, k);
    }
  }

  lemma StepKeepsLedger(c: Config, s: State, l: Label)
    requires Ledger(c, s) && Enabled(s, l)
    ensures Ledger(c, Fire(c, s, l))
  {
    hide ClientStep, WorkerStep, Parts, PartsHeld;
    match l
    case Begin(j, op) =>
    case Spurious(i) => BagsAfterWaking(s.workers, Fire(c, s, l).workers);
    case Act(j, k) => ClientStepKeepsLedger(c, s, j, k);
    case Work(i, k) => WorkerStepKeepsLedger(c, s, i, k);
  }
}
