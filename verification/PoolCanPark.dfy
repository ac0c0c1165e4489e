/** Whether the workers, left to themselves before stop, can bring one of them to block on task_cv: a condition on the
    state that their own steps neither make true nor, until one is about to block, make false. */
module PoolCanPark {
  import opened WorkerPool
  import opened PoolSafety
  import opened PoolProgress
  import opened Tally

  /** Some worker is neither blocked nor gone. */
  predicate SomeAwake(s: State) {
    exists i :: 0 <= i < |s.workers| && !WorkerRests(s.workers[i])
  }

  predicate EmptyHanded(pc: WorkerPc) {
    pc.AtTaskLock? || pc.CheckTask? || pc.ParkTask? || pc.WaitTask? || pc.WokenTask? || pc.TakeTask? || pc.NotifyPushed?
  }

  function EmptyHands(pc: WorkerPc): nat {
    if EmptyHanded(pc) then 1 else 0
  }

  /** On its way to the task queue, or about to wake everybody who waits there. */
  predicate OnItsWay(pc: WorkerPc) {
    (EmptyHanded(pc) && !pc.WaitTask?) || pc.NotifyTaken?
  }

  /** What is pending or ready fits into the result queue and the empty hands, with a place to spare. */
  predicate PlaceToSpare(c: Config, s: State) {
    |s.tasks| + |s.results| < c.resultCapacity + SumOf(s.workers, EmptyHands)
  }

  predicate SomeOnItsWay(s: State) {
    exists i :: 0 <= i < |s.workers| && OnItsWay(s.workers[i])
  }

  /** The workers by themselves can bring one of them to block on task_cv. */
  predicate CanPark(c: Config, s: State) {
    && SomeAwake(s)
    && (|| c.resultPolicy == DropOldestCompletedResult
        || (PlaceToSpare(c, s) && (|s.results| < c.resultCapacity || SomeOnItsWay(s))))
  }

  // ---------------------------------------------------------------- the workers' own steps decide it

  lemma SumAtLeast<T>(xs: seq<T>, i: nat, weight: T -> nat, zero: T)
    requires i < |xs| && weight(zero) == 0
    ensures SumOf(xs, weight) >= weight(xs[i])
  {
    SumUpdate(xs, i, zero, weight);
  }

  lemma HandsAfterMove(ws: seq<WorkerPc>, ws': seq<WorkerPc>, i: nat)
    requires |ws'| == |ws| && i < |ws|
    requires forall m :: 0 <= m < |ws| && m != i ==> SameOrWoken(ws[m], ws'[m])
    ensures SumOf(ws', EmptyHands) + EmptyHands(ws[i]) == SumOf(ws, EmptyHands) + EmptyHands(ws'[i])
  {
    SumAfterMove(ws, ws', i, EmptyHands);
  }

  /** While stop is clear and nothing is submitted, popped or evicted, the places to spare stay the same. */
  lemma PlacesStay(c: Config, s: State, i: nat, k: nat)
    requires Guards(c, s) && !s.stop && c.resultPolicy == BlockWorkerUntilPopped && Enabled(s, Work(i, k))
    ensures PlaceToSpare(c, WorkerStep(c, s, i, k)) == PlaceToSpare(c, s)
  {
    assert WorkerKnows(c, s, s.workers[i]);
    HandsAfterMove(s.workers, WorkerStep(c, s, i, k).workers, i);
    MoverFillsOnePlace(c, s, i, k);
    hide SumOf, Guards, WorkerStep;
  }

  /** What is pending or ready grows exactly as the mover's hands are emptied, and shrinks as they are filled. */
  lemma MoverFillsOnePlace(c: Config, s: State, i: nat, k: nat)
    requires !s.stop && Enabled(s, Work(i, k)) && WorkerKnows(c, s, s.workers[i])
    requires c.resultPolicy == BlockWorkerUntilPopped
    ensures var t := WorkerStep(c, s, i, k);
            && i < |t.workers|
            && |t.tasks| + |t.results| + EmptyHands(s.workers[i])
               == |s.tasks| + |s.results| + EmptyHands(t.workers[i])
  {
    hide SameOrWoken, Handle, Surplus;
  }

  lemma MoverStaysAwake(c: Config, s: State, i: nat, k: nat)
    requires !s.stop && Enabled(s, Work(i, k)) && !s.workers[i].ParkTask? && !s.workers[i].ParkResult?
    ensures SomeAwake(WorkerStep(c, s, i, k))
  {
    hide Handle, Surplus, SameOrWoken;
    assert !WorkerRests(WorkerStep(c, s, i, k).workers[i]);
  }

  /** With all results in place, somebody stays on the way until a worker is about to block on task_cv. */
  lemma WayStays(c: Config, s: State, i: nat, k: nat, m: nat)
    requires !s.stop && Enabled(s, Work(i, k)) && !s.workers[i].ParkTask?
    requires m < |s.workers| && OnItsWay(s.workers[m]) && (m == i ==> !s.workers[i].NotifyTaken?)
    ensures OnItsWay(WorkerStep(c, s, i, k).workers[m])
  {
    if m != i {
      hide WorkerStep;
    } else {
      hide Handle, Surplus, SameOrWoken;
    }
  }

  lemma NotifierLeavesSomeone(c: Config, s: State, i: nat, k: nat)
    requires Guards(c, s) && !s.stop && Enabled(s, Work(i, k)) && s.workers[i].NotifyTaken?
    requires PlaceToSpare(c, s) && |s.results| >= c.resultCapacity
    ensures SomeOnItsWay(WorkerStep(c, s, i, k))
  {
    var t := WorkerStep(c, s, i, k);
    if forall m :: 0 <= m < |s.workers| ==> EmptyHands(s.workers[m]) == 0 {
      SumBound(s.workers, EmptyHands, 0);
    } else {
      var m :| 0 <= m < |s.workers| && EmptyHands(s.workers[m]) != 0;
      hide Guards, SumOf;
      assert OnItsWay(t.workers[m]);
    }
  }

  lemma WorkerKeepsCanPark(c: Config, s: State, i: nat, k: nat)
    requires Guards(c, s) && !s.stop && Enabled(s, Work(i, k)) && CanPark(c, s) && !s.workers[i].ParkTask?
    ensures CanPark(c, WorkerStep(c, s, i, k))
  {
    var t := WorkerStep(c, s, i, k);
    assert WorkerKnows(c, s, s.workers[i]);
    if c.resultPolicy != DropOldestCompletedResult {
      PlacesStay(c, s, i, k);
      if |t.results| >= c.resultCapacity {
        SomebodyOnItsWay(c, s, i, k);
      }
    }
    hide Guards, WorkerStep, PlaceToSpare;
    if s.workers[i].ParkResult? {
      assert t.results == s.results;
      var m :| 0 <= m < |t.workers| && OnItsWay(t.workers[m]);
      assert !WorkerRests(t.workers[m]);
    } else {
      MoverStaysAwake(c, s, i, k);
    }
  }

  lemma SomebodyOnItsWay(c: Config, s: State, i: nat, k: nat)
    requires Guards(c, s) && !s.stop && Enabled(s, Work(i, k)) && CanPark(c, s) && !s.workers[i].ParkTask?
    requires c.resultPolicy == BlockWorkerUntilPopped && |WorkerStep(c, s, i, k).results| >= c.resultCapacity
    ensures SomeOnItsWay(WorkerStep(c, s, i, k))
  {
    var t := WorkerStep(c, s, i, k);
    assert WorkerKnows(c, s, s.workers[i]);
    hide Handle, Surplus, SameOrWoken, Guards, PlaceToSpare, TaskSideStep;
    if s.workers[i].Push? {
      assert OnItsWay(t.workers[i]);
    } else {
      assert t.results == s.results;
      hide WorkerStep;
      if s.workers[i].NotifyTaken? {
        NotifierLeavesSomeone(c, s, i, k);
      } else {
        var m :| 0 <= m < |s.workers| && OnItsWay(s.workers[m]);
        WayStays(c, s, i, k, m);
      }
    }
  }

  /** Results full and nobody on the way: so it stays. */
  lemma WorkerKeepsNobodyOnItsWay(c: Config, s: State, i: nat, k: nat)
    requires Guards(c, s) && !s.stop && Enabled(s, Work(i, k)) && c.resultPolicy == BlockWorkerUntilPopped
    requires |s.results| >= c.resultCapacity && !SomeOnItsWay(s)
    ensures var t := WorkerStep(c, s, i, k); |t.results| >= c.resultCapacity && !SomeOnItsWay(t)
  {
    var t := WorkerStep(c, s, i, k);
    assert WorkerKnows(c, s, s.workers[i]) && !OnItsWay(s.workers[i]);
    hide Guards, Handle, Surplus, SameOrWoken;
    assert t.results == s.results && t.workers == s.workers[i := t.workers[i]] && !OnItsWay(t.workers[i]);
  }

  lemma WorkerKeepsCannotPark(c: Config, s: State, i: nat, k: nat)
    requires Guards(c, s) && !s.stop && Enabled(s, Work(i, k)) && !CanPark(c, s)
    ensures !CanPark(c, WorkerStep(c, s, i, k))
  {
    assert !WorkerRests(s.workers[i]);
    hide WorkerStep;
    PlacesStay(c, s, i, k);
    if PlaceToSpare(c, s) {
      WorkerKeepsNobodyOnItsWay(c, s, i, k);
    }
  }

  lemma ParkingMeansCanPark(c: Config, s: State, w: nat)
    requires Guards(c, s) && w < |s.workers| && s.workers[w].ParkTask?
    ensures CanPark(c, s)
  {
    assert WorkerKnows(c, s, s.workers[w]);
    assert OnItsWay(s.workers[w]) && !WorkerRests(s.workers[w]);
    SumAtLeast(s.workers, w, EmptyHands, Exited);
  }
}
