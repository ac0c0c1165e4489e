/** Order: both queues are first in, first out for any number of threads, and a single worker
    answers in submission order. */
module PoolOrder {
  import opened WorkerPool
  import opened PoolSafety
  import opened Tally

  /** Tasks leave the queue in the order they were accepted; under the reject policy none is skipped. */
  predicate TaskOrder(c: Config, s: State) {
    && Subsequence(s.log.dequeued + s.tasks, s.log.accepted)
    && (c.taskPolicy == RejectNewTask ==> s.log.evictedTasks == [] && s.log.dequeued + s.tasks == s.log.accepted)
  }

  /** Results are popped in the order they were published; under the blocking policy none is skipped. */
  predicate ResultOrder(c: Config, s: State) {
    && Subsequence(s.log.popped + s.results, s.log.published)
    && (c.resultPolicy == BlockWorkerUntilPopped ==>
          s.log.evictedResults == [] && s.log.popped + s.results == s.log.published)
  }

  /** What the worker at this point will publish, if it publishes. */
  function InHand(c: Config, pc: WorkerPc): seq<Result> {
    match pc
    case AtTaskLock => []
    case CheckTask => []
    case ParkTask => []
    case WaitTask => []
    case WokenTask => []
    case TakeTask => []
    case NotifyTaken(t) => [Handle(c, t)]
    case Dispatching(t) => [Handle(c, t)]
    case NotifyPushed => []
    case Exited => []
    case _ => [pc.done]
  }

  /** A lone worker turns the dequeued tasks, in order, into published results; only the last of them
      may instead be in its hands, or thrown away by its exit. */
  predicate LoneWorkerOrder(c: Config, s: State) {
    && |s.workers| == 1
    && HandleAll(c, s.log.dequeued) == s.log.published + s.log.discarded + InHand(c, s.workers[0])
    && (s.log.discarded != [] ==> s.workers[0].Exited?)
  }

  // ---------------------------------------------------------------- queue order is kept

  lemma MoveAcross<T>(a: seq<T>, b: seq<T>)
    requires b != []
    ensures a + [b[0]] + b[1..] == a + b
  {
  }

  /** Deleting a stretch from the middle. */
  lemma {:induction false} DropFrontKeepsOrder<T>(out: seq<T>, queue: seq<T>, history: seq<T>, n: nat)
    requires n <= |queue| && Subsequence(out + queue, history)
    ensures Subsequence(out + queue[n..], history)
    decreases n
  {
    if n == 0 {
      assert queue[n..] == queue;
    } else {
      assert out + queue == out + [queue[0]] + queue[1..];
      SubsequenceDelete(out, queue[0], queue[1..]);
      SubsequenceTrans(out + queue[1..], out + queue, history);
      DropFrontKeepsOrder(out, queue[1..], history, n - 1);
      assert queue[1..][n - 1..] == queue[n..];
    }
  }

  /** Dropping n elements from the front and appending one at the back. */
  lemma EnqueueKeepsOrder<T>(out: seq<T>, queue: seq<T>, history: seq<T>, n: nat, x: T)
    requires n <= |queue| && Subsequence(out + queue, history)
    ensures Subsequence(out + (queue[n..] + [x]), history + [x])
  {
    hide Subsequence;
    DropFrontKeepsOrder(out, queue, history, n);
    SubsequenceKeep(out + queue[n..], history, x);
    assert out + queue[n..] + [x] == out + (queue[n..] + [x]);
  }

  lemma SubmitKeepsTaskOrder(c: Config, s: State, j: nat, k: nat)
    requires TaskOrder(c, s) && Enabled(s, Act(j, k)) && s.clients[j].SubmitQueue?
    ensures TaskOrder(c, ClientStep(c, s, j, k))
  {
    hide Subsequence, SameOrWoken;
    var x := s.clients[j].task;
    var r := Submit(c, s.tasks, x);
    if r.accepted {
      EnqueueKeepsOrder(s.log.dequeued, s.tasks, s.log.accepted, |r.evicted|, x);
      assert r.tasks == s.tasks[|r.evicted|..] + [x];
      assert s.log.dequeued + (s.tasks + [x]) == s.log.dequeued + s.tasks + [x];
      assert s.tasks[0..] == s.tasks;
    }
  }

  lemma ClientStepKeepsTaskOrder(c: Config, s: State, j: nat, k: nat)
    requires TaskOrder(c, s) && Enabled(s, Act(j, k))
    ensures TaskOrder(c, ClientStep(c, s, j, k))
  {
    hide Subsequence, Submit, SameOrWoken;
    if s.clients[j].SubmitQueue? {
      SubmitKeepsTaskOrder(c, s, j, k);
    }
  }

  lemma ClientStepKeepsResultOrder(c: Config, s: State, j: nat, k: nat)
    requires ResultOrder(c, s) && Enabled(s, Act(j, k))
    ensures ResultOrder(c, ClientStep(c, s, j, k))
  {
    hide Subsequence, Submit;
    if s.clients[j].PopLock? && s.results != [] {
      MoveAcross(s.log.popped, s.results);
    }
  }

  lemma WorkerStepKeepsTaskOrder(c: Config, s: State, i: nat, k: nat)
    requires TaskOrder(c, s) && Enabled(s, Work(i, k))
    ensures TaskOrder(c, WorkerStep(c, s, i, k))
  {
    hide Subsequence, Handle, Surplus;
    if s.workers[i].TakeTask? && s.tasks != [] {
      MoveAcross(s.log.dequeued, s.tasks);
    }
  }

  lemma PushKeepsResultOrder(c: Config, s: State, i: nat, k: nat)
    requires ResultOrder(c, s) && Enabled(s, Work(i, k)) && s.workers[i].Push?
    ensures ResultOrder(c, ResultSideStep(c, s, i, k))
  {
    hide Subsequence, Handle, Surplus;
    var r := s.workers[i].done;
    EnqueueKeepsOrder(s.log.popped, s.results, s.log.published, 0, r);
    assert s.results[0..] == s.results;
    assert s.log.popped + (s.results + [r]) == s.log.popped + s.results + [r];
  }

  lemma EvictKeepsResultOrder(c: Config, s: State, i: nat, k: nat)
    requires ResultOrder(c, s) && Enabled(s, Work(i, k)) && s.workers[i].Evict?
    requires WorkerKnows(c, s, s.workers[i])
    ensures ResultOrder(c, ResultSideStep(c, s, i, k))
  {
    hide Subsequence, Handle, Surplus;
    DropFrontKeepsOrder(s.log.popped, s.results, s.log.published, Surplus(c, s.results));
  }

  lemma WorkerStepKeepsResultOrder(c: Config, s: State, i: nat, k: nat)
    requires Guards(c, s) && ResultOrder(c, s) && Enabled(s, Work(i, k))
    ensures ResultOrder(c, WorkerStep(c, s, i, k))
  {
    hide Subsequence, Handle;
    if s.workers[i].Evict? {
      assert WorkerKnows(c, s, s.workers[i]);
      EvictKeepsResultOrder(c, s, i, k);
    } else if s.workers[i].Push? {
      PushKeepsResultOrder(c, s, i, k);
    } else {
      hide Guards, Surplus;
    }
  }

  lemma TaskSideKeepsLoneWorkerOrder(c: Config, s: State, i: nat, k: nat)
    requires LoneWorkerOrder(c, s) && Enabled(s, Work(i, k)) && OnTaskSide(s.workers[i])
    ensures LoneWorkerOrder(c, TaskSideStep(s, i, k))
  {
    if s.workers[0].TakeTask? && s.tasks != [] {
      assert HandleAll(c, s.log.dequeued + [s.tasks[0]]) == HandleAll(c, s.log.dequeued) + [Handle(c, s.tasks[0])];
    }
    hide HandleAll, Handle;
  }

  /** A worker about to publish has read the flag: it pushes, or its result is thrown away. */
  lemma PushKeepsLoneWorkerOrder(c: Config, s: State, i: nat, k: nat)
    requires LoneWorkerOrder(c, s) && Enabled(s, Work(i, k)) && s.workers[i].Push?
    ensures LoneWorkerOrder(c, ResultSideStep(c, s, i, k))
  {
    hide HandleAll, Handle, Surplus;
    assert i == 0 && s.log.discarded == [];
    assert s.log.published + s.log.discarded + InHand(c, s.workers[0]) == s.log.published + [s.workers[0].done];
  }

  lemma LoadStopKeepsLoneWorkerOrder(c: Config, s: State, i: nat, k: nat)
    requires LoneWorkerOrder(c, s) && Enabled(s, Work(i, k)) && s.workers[i].LoadStop?
    ensures LoneWorkerOrder(c, ResultSideStep(c, s, i, k))
  {
    hide HandleAll, Handle, Surplus;
    var t := ResultSideStep(c, s, i, k);
    assert i == 0 && s.log.discarded == [] && InHand(c, s.workers[0]) == [s.workers[0].done];
    assert s.log.published + [] + [s.workers[0].done] == s.log.published + [s.workers[0].done] + [];
    assert t.log.published + t.log.discarded + InHand(c, t.workers[0]) == s.log.published + [s.workers[0].done];
  }

  /** The other points of the result half leave in the worker's hands what was there. */
  lemma QuietStepKeepsLoneWorkerOrder(c: Config, s: State, i: nat, k: nat)
    requires LoneWorkerOrder(c, s) && Enabled(s, Work(i, k)) && !OnTaskSide(s.workers[i])
    requires !s.workers[i].Push? && !s.workers[i].LoadStop?
    ensures LoneWorkerOrder(c, ResultSideStep(c, s, i, k))
  {
    hide HandleAll, Handle, Surplus;
    var t := ResultSideStep(c, s, i, k);
    assert i == 0 && InHand(c, t.workers[0]) == InHand(c, s.workers[0]);
    assert t.log.dequeued == s.log.dequeued && t.log.published == s.log.published && t.log.discarded == s.log.discarded;
    hide ResultSideStep, InHand;
  }

  lemma ResultSideKeepsLoneWorkerOrder(c: Config, s: State, i: nat, k: nat)
    requires LoneWorkerOrder(c, s) && Enabled(s, Work(i, k)) && !OnTaskSide(s.workers[i])
    ensures LoneWorkerOrder(c, ResultSideStep(c, s, i, k))
  {
    hide LoneWorkerOrder, ResultSideStep;
    if s.workers[i].Push? {
      PushKeepsLoneWorkerOrder(c, s, i, k);
    } else if s.workers[i].LoadStop? {
      LoadStopKeepsLoneWorkerOrder(c, s, i, k);
    } else {
      QuietStepKeepsLoneWorkerOrder(c, s, i, k);
    }
  }

  predicate Order(c: Config, s: State) {
    TaskOrder(c, s) && ResultOrder(c, s) && (c.workers == 1 ==> LoneWorkerOrder(c, s))
  }

  lemma WakingKeepsInHand(c: Config, before: WorkerPc, after: WorkerPc)
    requires SameOrWoken(before, after)
    ensures InHand(c, after) == InHand(c, before) && after.Exited? == before.Exited?
  {
  }

  lemma ClientStepKeepsLoneWorkerOrder(c: Config, s: State, j: nat, k: nat)
    requires LoneWorkerOrder(c, s) && Enabled(s, Act(j, k))
    ensures LoneWorkerOrder(c, ClientStep(c, s, j, k))
  {
    WakingKeepsInHand(c, s.workers[0], ClientStep(c, s, j, k).workers[0]);
    hide HandleAll, Submit, InHand;
  }

  lemma StepKeepsOrder(c: Config, s: State, l: Label)
    requires Guards(c, s) && Order(c, s) && Enabled(s, l)
    ensures Order(c, Fire(c, s, l))
  {
    hide Subsequence, ClientStep, TaskSideStep, ResultSideStep, HandleAll, Guards;
    match l
    case Begin(j, op) =>
    case Spurious(i) =>
    case Act(j, k) =>
      ClientStepKeepsTaskOrder(c, s, j, k);
      ClientStepKeepsResultOrder(c, s, j, k);
      if c.workers == 1 {
        ClientStepKeepsLoneWorkerOrder(c, s, j, k);
      }
    case Work(i, k) =>
      WorkerStepKeepsTaskOrder(c, s, i, k);
      WorkerStepKeepsResultOrder(c, s, i, k);
      hide LoneWorkerOrder;
      if c.workers == 1 {
        if OnTaskSide(s.workers[i]) {
          TaskSideKeepsLoneWorkerOrder(c, s, i, k);
        } else {
          ResultSideKeepsLoneWorkerOrder(c, s, i, k);
        }
      }
  }
}
