/** No lost wake-ups, for both condition variables, with predicate check and park as separate steps, spurious
    wake-ups and any number of submitters and poppers: for tasks before stop, for room at any time. */
module PoolWakeups {
  import opened WorkerPool
  import opened PoolSafety

  predicate SomeTaskWaiter(s: State) {
    exists i :: 0 <= i < |s.workers| && s.workers[i].WaitTask?
  }

  predicate SomeResultWaiter(s: State) {
    exists i :: 0 <= i < |s.workers| && s.workers[i].WaitResult?
  }

  /** A worker that will look at the task queue under the mutex, or has done so and will notify all. */
  predicate HeadsForTask(pc: WorkerPc) {
    pc.WokenTask? || pc.CheckTask? || pc.TakeTask? || pc.NotifyTaken?
  }

  /** A submitter's notify_one or a worker's notify_all on task_cv is due, or a woken worker is on its way. */
  predicate TaskNotifierDue(s: State) {
    || (exists j :: 0 <= j < |s.clients| && s.clients[j].SubmitNotify?)
    || (exists i :: 0 <= i < |s.workers| && HeadsForTask(s.workers[i]))
  }

  /** A popper is between its unlock and its notify_all. */
  predicate SpaceNotifierDue(s: State) {
    exists j :: 0 <= j < |s.clients| && s.clients[j].PopNotify?
  }

  predicate NoLostTaskWakeup(s: State) {
    !s.stop && s.tasks != [] && SomeTaskWaiter(s) ==> TaskNotifierDue(s)
  }

  predicate NoLostSpaceWakeup(c: Config, s: State) {
    |s.results| < c.resultCapacity && SomeResultWaiter(s) ==> SpaceNotifierDue(s)
  }

  predicate Wakeups(c: Config, s: State) {
    NoLostTaskWakeup(s) && NoLostSpaceWakeup(c, s)
  }

  lemma ClientStepKeepsTaskWakeup(c: Config, s: State, j: nat, k: nat)
    requires NoLostTaskWakeup(s) && Enabled(s, Act(j, k))
    ensures NoLostTaskWakeup(ClientStep(c, s, j, k))
  {
    hide Submit;
    var t := ClientStep(c, s, j, k);
    if !t.stop && t.tasks != [] && SomeTaskWaiter(t) {
      var w :| 0 <= w < |t.workers| && t.workers[w].WaitTask?;
      assert s.workers[w].WaitTask?;
      if s.clients[j].SubmitNotify? {
        assert t.workers[k].WokenTask?;
      } else if t.clients[j].SubmitNotify? {
      } else {
        assert t.tasks == s.tasks;
        hide ClientStep;
        DueElsewhere(s, t, j);
      }
    }
  }

  /** A due notification survives a step of some other client. */
  lemma DueElsewhere(s: State, t: State, j: nat)
    requires TaskNotifierDue(s) && j < |s.clients| == |t.clients| && |t.workers| == |s.workers|
    requires !s.clients[j].SubmitNotify?
    requires forall m :: 0 <= m < |s.clients| && m != j ==> t.clients[m] == s.clients[m]
    requires forall m :: 0 <= m < |s.workers| ==> SameOrWoken(s.workers[m], t.workers[m])
    ensures TaskNotifierDue(t)
  {
    if m :| 0 <= m < |s.clients| && s.clients[m].SubmitNotify? {
      assert t.clients[m].SubmitNotify?;
    } else {
      var m :| 0 <= m < |s.workers| && HeadsForTask(s.workers[m]);
      assert HeadsForTask(t.workers[m]);
    }
  }

  lemma WorkerStepKeepsTaskWakeup(c: Config, s: State, i: nat, k: nat)
    requires Guards(c, s) && NoLostTaskWakeup(s) && Enabled(s, Work(i, k))
    ensures NoLostTaskWakeup(WorkerStep(c, s, i, k))
  {
    var t := WorkerStep(c, s, i, k);
    assert WorkerKnows(c, s, s.workers[i]);
    if !t.stop && t.tasks != [] && SomeTaskWaiter(t) {
      var w :| 0 <= w < |t.workers| && t.workers[w].WaitTask?;
      hide Guards, Handle;
      if !HeadsForTask(t.workers[i]) {
        assert !HeadsForTask(s.workers[i]) && w != i;
        assert s.workers[w].WaitTask?;
        hide WorkerStep, TaskSideStep, ResultSideStep, WorkerKnows;
        if m :| 0 <= m < |s.workers| && HeadsForTask(s.workers[m]) {
          assert HeadsForTask(t.workers[m]);
        }
      }
    }
  }

  lemma ClientStepKeepsSpaceWakeup(c: Config, s: State, j: nat, k: nat)
    requires NoLostSpaceWakeup(c, s) && Enabled(s, Act(j, k))
    ensures NoLostSpaceWakeup(c, ClientStep(c, s, j, k))
  {
    hide Submit;
    var t := ClientStep(c, s, j, k);
    if |t.results| < c.resultCapacity && SomeResultWaiter(t) && !t.clients[j].PopNotify? {
      var w :| 0 <= w < |t.workers| && t.workers[w].WaitResult?;
      assert s.workers[w].WaitResult?;
      assert t.results == s.results && !s.clients[j].PopNotify?;
      hide ClientStep;
      var m :| 0 <= m < |s.clients| && s.clients[m].PopNotify?;
      assert t.clients[m].PopNotify?;
    }
  }

  /** Nobody waits for room in the mode that makes room by evicting. */
  lemma OnlyDropModeEvicts(c: Config, s: State, i: nat, w: nat)
    requires Guards(c, s) && i < |s.workers| && w < |s.workers| && s.workers[i].Evict?
    ensures !s.workers[w].WaitResult? && !s.workers[w].ParkResult?
  {
    assert WorkerKnows(c, s, s.workers[i]) && WorkerKnows(c, s, s.workers[w]);
  }

  lemma WorkerStepKeepsSpaceWakeup(c: Config, s: State, i: nat, k: nat)
    requires Guards(c, s) && NoLostSpaceWakeup(c, s) && Enabled(s, Work(i, k))
    ensures NoLostSpaceWakeup(c, WorkerStep(c, s, i, k))
  {
    var t := WorkerStep(c, s, i, k);
    assert WorkerKnows(c, s, s.workers[i]);
    if |t.results| < c.resultCapacity && SomeResultWaiter(t) {
      var w :| 0 <= w < |t.workers| && t.workers[w].WaitResult?;
      if s.workers[i].Evict? {
        OnlyDropModeEvicts(c, s, i, w);
      }
      hide Guards, Handle;
      assert |s.results| < c.resultCapacity && w != i;
      assert s.workers[w].WaitResult?;
    }
  }

  lemma StepKeepsWakeups(c: Config, s: State, l: Label)
    requires Guards(c, s) && Wakeups(c, s) && Enabled(s, l)
    ensures Wakeups(c, Fire(c, s, l))
  {
    hide ClientStep, WorkerStep, Guards;
    match l
    case Act(j, k) =>
      ClientStepKeepsTaskWakeup(c, s, j, k);
      ClientStepKeepsSpaceWakeup(c, s, j, k);
    case Work(i, k) =>
      WorkerStepKeepsTaskWakeup(c, s, i, k);
      WorkerStepKeepsSpaceWakeup(c, s, i, k);
    case Begin(j, op) =>
      var t := Fire(c, s, l);
      assert forall m :: 0 <= m < |s.clients| && m != j ==> t.clients[m] == s.clients[m];
      if TaskNotifierDue(s) {
        DueElsewhere(s, t, j);
      }
      if m :| 0 <= m < |s.clients| && s.clients[m].PopNotify? {
        assert t.clients[m].PopNotify?;
      }
    case Spurious(i) =>
      var t := Fire(c, s, l);
      assert forall m :: 0 <= m < |s.workers| && m != i ==> t.workers[m] == s.workers[m];
      if m :| 0 <= m < |s.workers| && HeadsForTask(s.workers[m]) {
        assert HeadsForTask(t.workers[m]);
      }
  }

  // ---------------------------------------------------------------- whom a notification wakes

  /** notify_one on task_cv wakes one worker that waits there, if there is one; notify_all wakes everybody who waits on
      its condition variable. Nobody else is woken. */
  lemma ClientNotificationsWake(c: Config, s: State, j: nat, k: nat, m: nat)
    requires Enabled(s, Act(j, k)) && m < |s.workers|
    ensures var t := ClientStep(c, s, j, k);
            match s.clients[j]
            case SubmitNotify =>
              && (SomeTaskWaiter(s) ==> k < |s.workers| && s.workers[k].WaitTask? && t.workers[k] == WokenTask)
              && (m != k || !s.workers[m].WaitTask? ==> t.workers[m] == s.workers[m])
            case StopNotifyTasks => t.workers[m] == if s.workers[m].WaitTask? then WokenTask else s.workers[m]
            case PopNotify =>
              t.workers[m] == if s.workers[m].WaitResult? then WokenResult(s.workers[m].done) else s.workers[m]
            case StopNotifyResults =>
              t.workers[m] == if s.workers[m].WaitResult? then WokenResult(s.workers[m].done) else s.workers[m]
            case _ => t.workers[m] == s.workers[m]
  {
    hide Submit;
  }

  /** The worker's notify_all after taking a task, and its notify_one after publishing a result. */
  lemma WorkerNotificationsWake(c: Config, s: State, i: nat, k: nat, m: nat)
    requires Enabled(s, Work(i, k)) && m < |s.workers| && m != i
    ensures var t := WorkerStep(c, s, i, k);
            match s.workers[i]
            case NotifyTaken(_) => t.workers[m] == if s.workers[m].WaitTask? then WokenTask else s.workers[m]
            case NotifyPushed =>
              && (SomeResultWaiter(s) ==>
                    k < |s.workers| && s.workers[k].WaitResult? && t.workers[k] == WokenResult(s.workers[k].done))
              && (m != k || !s.workers[m].WaitResult? ==> t.workers[m] == s.workers[m])
            case _ => t.workers[m] == s.workers[m]
  {
    hide Handle, Surplus, SameOrWoken;
  }
}
