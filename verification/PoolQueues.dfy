/** The pool object itself: the bodies of its critical sections, editing the two queues in place. Each ends as an
    undisturbed run of the step system of module WorkerPool does, with the same queues. */
module PoolQueues {
  import opened WorkerPool

  /** How a section that waits on a condition variable ends when it runs undisturbed. */
  datatype Take = Taken(task: Task) | Stopped | WouldWait
  datatype Publication = Published | Discarded | WouldWaitForRoom
  datatype Popped = Nothing | Got(result: Result)

  function PublishOutcome(c: Config, results: seq<Result>, stop: bool): Publication {
    if stop then Discarded
    else if c.resultPolicy == BlockWorkerUntilPopped && |results| >= c.resultCapacity then WouldWaitForRoom
    else Published
  }

  /** The result queue after a worker in drop-oldest mode has made room; the other mode evicts nothing. */
  function RoomMade(c: Config, results: seq<Result>): seq<Result> {
    if c.resultPolicy == DropOldestCompletedResult then results[Surplus(c, results)..] else results
  }

  function ResultsAfter(c: Config, results: seq<Result>, outcome: Publication, done: Result): seq<Result> {
    match outcome
    case Published => RoomMade(c, results) + [done]
    case Discarded => RoomMade(c, results)
    case WouldWaitForRoom => results
  }

  class Pool {
    const config: Config
    var tasks: seq<Task>
    var results: seq<Result>
    var stop: bool

    ghost predicate Valid()
      reads this
    {
      && ValidConfig(config)
      && |tasks| <= config.taskCapacity
      && |results| <= config.resultCapacity
    }

    constructor (config: Config)
      requires ValidConfig(config)
      ensures Valid() && this.config == config && tasks == [] && results == [] && !stop
    {
      this.config := config;
      tasks, results, stop := [], [], false;
    }

    /** try_submit without its notification. */
    method TrySubmit(task: Task) returns (accepted: bool)
      requires Valid()
      modifies this`tasks
      ensures Valid()
      ensures accepted <==>
              !stop && (|old(tasks)| < config.taskCapacity || config.taskPolicy == DropOldestPendingTask)
      ensures tasks == if !accepted then old(tasks)
                       else (if |old(tasks)| < config.taskCapacity then old(tasks) else old(tasks)[1..]) + [task]
    {
      if stop {
        return false;
      }
      if |tasks| >= config.taskCapacity {
        if config.taskPolicy == DropOldestPendingTask {
          if tasks != [] {
            tasks := tasks[1..];
          }
        } else {
          return false;
        }
      }
      tasks := tasks + [task];
      accepted := true;
    }

    /** try_pop_result without its notification. */
    method TryPopResult() returns (popped: Popped)
      requires Valid()
      modifies this`results
      ensures Valid()
      ensures popped == Nothing <==> old(results) == []
      ensures popped.Got? ==> old(results) == [popped.result] + results && |results| < config.resultCapacity
      ensures popped == Nothing ==> results == old(results)
    {
      if results == [] {
        return Nothing;
      }
      popped := Got(results[0]);
      results := results[1..];
    }

    /** The worker's first critical section. */
    method TakeTask() returns (r: Take)
      requires Valid()
      modifies this`tasks
      ensures Valid()
      ensures r.Taken? <==> old(tasks) != []
      ensures r == Stopped <==> old(tasks) == [] && stop
      ensures r.Taken? ==> old(tasks) == [r.task] + tasks
      ensures !r.Taken? ==> tasks == old(tasks)
    {
      if !(stop || tasks != []) {
        return WouldWait;
      }
      if tasks == [] {
        return Stopped;
      }
      r := Taken(tasks[0]);
      tasks := tasks[1..];
    }

    /** Drop-oldest mode: removes results until one more fits. */
    method EvictSurplus()
      requires Valid()
      modifies this`results
      ensures |old(results)| < config.resultCapacity ==> results == old(results)
      ensures |old(results)| >= config.resultCapacity ==>
                results == old(results)[|old(results)| - config.resultCapacity + 1..]
    {
      ghost var all, n := results, 0;
      assert all[0..] == all;
      while |results| >= config.resultCapacity && results != []
        invariant n <= |all| && results == all[n..] && (n > 0 ==> |all| - n >= config.resultCapacity - 1)
        decreases |results|
      {
        results := results[1..];
        n := n + 1;
      }
    }

    /** The worker's second critical section. */
    method PublishResult(done: Result) returns (r: Publication)
      requires Valid()
      modifies this`results
      ensures Valid()
      ensures r == Discarded <==> stop
      ensures r == WouldWaitForRoom <==>
              !stop && config.resultPolicy == BlockWorkerUntilPopped && |old(results)| >= config.resultCapacity
      ensures var evicts := config.resultPolicy == DropOldestCompletedResult
                         && |old(results)| >= config.resultCapacity;
              results == (if evicts then old(results)[|old(results)| - config.resultCapacity + 1..] else old(results))
                         + if r == Published then [done] else []
    {
      if config.resultPolicy == DropOldestCompletedResult {
        EvictSurplus();
        if stop {
          return Discarded;
        }
        results := results + [done];
      } else {
        if !(stop || |results| < config.resultCapacity) {
          return WouldWaitForRoom;
        }
        if stop {
          return Discarded;
        }
        results := results + [done];
      }
      r := Published;
    }
  }

  // ---------------------------------------------------------------- the sections as runs of the step system

  /** A try_submit that nobody disturbs is refused after stop, and otherwise makes the edit Pool.TrySubmit makes. */
  lemma UndisturbedSubmit(c: Config, s: State, j: nat, x: Task)
    requires j < |s.clients| && s.clients[j].Idle? && s.taskOwner.Free?
    ensures s.stop ==>
              var ls := [Begin(j, SubmitOp(x)), Act(j, 0), Act(j, 0)];
              Run(c, s, ls) && After(c, s, ls) == s
    ensures !s.stop ==>
              var ls := [Begin(j, SubmitOp(x)), Act(j, 0), Act(j, 0), Act(j, 0)];
              && Run(c, s, ls)
              && var t := After(c, s, ls);
                 && t.results == s.results && t.taskOwner.Free?
                 && if |s.tasks| < c.taskCapacity || c.taskPolicy == DropOldestPendingTask then
                      && t.tasks ==
                         (if |s.tasks| < c.taskCapacity || s.tasks == [] then s.tasks else s.tasks[1..]) + [x]
                      && t.clients == s.clients[j := SubmitNotify] && t.log.accepted == s.log.accepted + [x]
                    else t.tasks == s.tasks && t.clients == s.clients && t.log.accepted == s.log.accepted
  {
    var s2 := Fire(c, Fire(c, s, Begin(j, SubmitOp(x))), Act(j, 0));
    assert s2 == s.(taskOwner := Client(j), clients := s.clients[j := SubmitLoadStop(x)]);
    if s.stop {
      ThreeMore(c, s, Begin(j, SubmitOp(x)), Act(j, 0), Act(j, 0));
      assert s.clients[j := SubmitLoadStop(x)][j := Idle] == s.clients;
    } else {
      FourMore(c, s, Begin(j, SubmitOp(x)), Act(j, 0), Act(j, 0), Act(j, 0));
      assert s.clients[j := SubmitLoadStop(x)][j := SubmitQueue(x)][j := Idle] == s.clients;
    }
  }

  /** A try_pop_result that nobody disturbs takes the result Pool.TryPopResult takes, or finds nothing. */
  lemma UndisturbedPop(c: Config, s: State, j: nat)
    requires j < |s.clients| && s.clients[j].Idle? && s.resultOwner.Free?
    ensures var ls := [Begin(j, PopOp), Act(j, 0)];
            && Run(c, s, ls)
            && var t := After(c, s, ls);
               && (s.results == [] ==> t == s)
               && (s.results != [] ==>
                     && s.results == [s.results[0]] + t.results && t.log.popped == s.log.popped + [s.results[0]]
                     && t.clients == s.clients[j := PopNotify] && t.tasks == s.tasks && t.resultOwner.Free?)
  {
    TwoMore(c, s, Begin(j, PopOp), Act(j, 0));
    assert s.clients[j := PopLock][j := Idle] == s.clients;
  }

  /** A worker's first critical section that nobody disturbs: like Pool.TakeTask it takes the oldest task, even after
      stop; with nothing pending it exits after stop and blocks before. */
  lemma UndisturbedTake(c: Config, s: State, i: nat)
    requires i < |s.workers| && s.workers[i].AtTaskLock? && s.taskOwner.Free?
    ensures var w := Work(i, 0);
            && Run(c, s, [w, w, w])
            && var t := After(c, s, [w, w, w]);
               && t.results == s.results && t.taskOwner.Free?
               && |t.workers| == |s.workers|
               && if s.tasks != [] then t.tasks == s.tasks[1..] && t.workers[i] == NotifyTaken(s.tasks[0])
                  else t.tasks == [] && t.workers[i] == if s.stop then Exited else WaitTask
  {
    var w := Work(i, 0);
    var s2 := Fire(c, Fire(c, s, w), w);
    assert s2.workers[i] == (if s.stop || s.tasks != [] then TakeTask else ParkTask);
    assert s2.tasks == s.tasks && s2.results == s.results && s2.stop == s.stop;
    ThreeMore(c, s, w, w, w);
  }

  /** A worker's second critical section up to the point where it reads the stop flag before publishing. */
  lemma UndisturbedMakeRoom(c: Config, s: State, i: nat)
    requires i < |s.workers| && s.workers[i].AtResultLock? && s.resultOwner.Free?
    requires PublishOutcome(c, s.results, s.stop) != WouldWaitForRoom
    ensures var w := Work(i, 0);
            && Run(c, s, [w, w])
            && var t := After(c, s, [w, w]);
               && i < |t.workers| && t.workers[i] == LoadStop(s.workers[i].done)
               && t.results == RoomMade(c, s.results) && t.tasks == s.tasks && t.stop == s.stop
  {
    hide Run, After, Surplus;
    TwoMore(c, s, Work(i, 0), Work(i, 0));
  }

  lemma UndisturbedWaitForRoom(c: Config, s: State, i: nat)
    requires i < |s.workers| && s.workers[i].AtResultLock? && s.resultOwner.Free?
    requires PublishOutcome(c, s.results, s.stop) == WouldWaitForRoom
    ensures var w := Work(i, 0);
            && Run(c, s, [w, w, w])
            && var t := After(c, s, [w, w, w]);
               && t.results == s.results && t.tasks == s.tasks && t.resultOwner.Free?
               && i < |t.workers| && t.workers[i] == WaitResult(s.workers[i].done)
  {
    hide Run, After, Surplus;
    var w := Work(i, 0);
    assert Fire(c, Fire(c, s, w), w).workers[i] == ParkResult(s.workers[i].done);
    ThreeMore(c, s, w, w, w);
  }

  lemma UndisturbedPush(c: Config, s: State, i: nat)
    requires i < |s.workers| && s.workers[i].LoadStop? && !s.stop
    ensures var w := Work(i, 0);
            && Run(c, s, [w, w])
            && var t := After(c, s, [w, w]);
               && t.results == s.results + [s.workers[i].done] && t.tasks == s.tasks && t.resultOwner.Free?
               && i < |t.workers| && t.workers[i] == NotifyPushed
  {
    hide Run, After;
    TwoMore(c, s, Work(i, 0), Work(i, 0));
  }

  lemma UndisturbedDiscard(c: Config, s: State, i: nat)
    requires i < |s.workers| && s.workers[i].LoadStop? && s.stop
    ensures var w := Work(i, 0);
            && Run(c, s, [w])
            && var t := After(c, s, [w]);
               && t.results == s.results && t.tasks == s.tasks && t.resultOwner.Free?
               && i < |t.workers| && t.workers[i] == Exited
               && t.log.discarded == s.log.discarded + [s.workers[i].done]
  {
    var w := Work(i, 0);
    assert [w] + [] == [w];
    RunCons(c, s, w, []);
  }

  /** Its steps: two until it has made room or blocks, then two to publish, one to discard, or one to block. */
  function PublishSteps(i: nat, outcome: Publication): seq<Label> {
    var w := Work(i, 0);
    if outcome == Published then [w, w] + [w, w] else if outcome == Discarded then [w, w] + [w] else [w, w, w]
  }

  lemma PublishByOutcome(c: Config, s: State, i: nat)
    requires i < |s.workers| && s.workers[i].AtResultLock? && s.resultOwner.Free?
    ensures var outcome := PublishOutcome(c, s.results, s.stop);
            var ls := PublishSteps(i, outcome);
            && Run(c, s, ls)
            && var t := After(c, s, ls);
               && t.tasks == s.tasks && t.resultOwner.Free? && i < |t.workers|
               && t.results == ResultsAfter(c, s.results, outcome, s.workers[i].done)
               && t.workers[i] == (match outcome
                                   case Published => NotifyPushed
                                   case Discarded => Exited
                                   case WouldWaitForRoom => WaitResult(s.workers[i].done))
  {
    hide Fire, Enabled, Run, After, Surplus;
    var w := Work(i, 0);
    match PublishOutcome(c, s.results, s.stop)
    case WouldWaitForRoom => UndisturbedWaitForRoom(c, s, i);
    case Published =>
      UndisturbedMakeRoom(c, s, i);
      UndisturbedPush(c, After(c, s, [w, w]), i);
      RunConcat(c, s, [w, w], [w, w]);
    case Discarded =>
      UndisturbedMakeRoom(c, s, i);
      UndisturbedDiscard(c, After(c, s, [w, w]), i);
      RunConcat(c, s, [w, w], [w]);
  }

  /** A worker's second critical section that nobody disturbs makes the edit Pool.PublishResult makes. After stop it
      discards its result, in drop-oldest mode having evicted for nothing; before, it blocks only in the blocking mode
      with a full queue, and otherwise publishes at the back, in drop-oldest mode having evicted just enough. */
  lemma UndisturbedPublish(c: Config, s: State, i: nat)
    requires ValidConfig(c) && i < |s.workers| && s.workers[i].AtResultLock? && s.resultOwner.Free?
    ensures var blocks := c.resultPolicy == BlockWorkerUntilPopped;
            var full, done := |s.results| >= c.resultCapacity, s.workers[i].done;
            var kept := if full && !blocks then s.results[|s.results| - c.resultCapacity + 1..] else s.results;
            var outcome := if s.stop then Discarded else if full && blocks then WouldWaitForRoom else Published;
            var ls := PublishSteps(i, outcome);
            && Run(c, s, ls)
            && var t := After(c, s, ls);
               && t.tasks == s.tasks && t.resultOwner.Free? && i < |t.workers|
               && t.results == kept + (if outcome == Published then [done] else [])
               && t.workers[i] == (match outcome
                                   case Published => NotifyPushed
                                   case Discarded => Exited
                                   case WouldWaitForRoom => WaitResult(done))
  {
    PublishByOutcome(c, s, i);
    hide Run, After, Surplus;
  }
}
