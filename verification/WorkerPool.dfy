/** The worker pool as a system of steps. Each thread has a program counter; a step is one lock
    acquisition, one load or write of the stop flag, one edit of a queue, or one notification.
    Any number of client threads submit, pop and shut down while the workers run. */
module WorkerPool {
  import opened Codec

  datatype Outcome = Response(payload: seq<byte>) | DispatchError(message: string)
  datatype Task = Task(correlationId: nat, payload: seq<byte>)
  datatype Result = Result(correlationId: nat, outcome: Outcome)

  datatype TaskPolicy = RejectNewTask | DropOldestPendingTask
  datatype ResultPolicy = BlockWorkerUntilPopped | DropOldestCompletedResult

  /** `dispatch` is the request handler with its exceptions already mapped to errors. */
  datatype Config = Config(workers: nat, taskCapacity: nat, resultCapacity: nat,
                           taskPolicy: TaskPolicy, resultPolicy: ResultPolicy,
                           dispatch: seq<byte> -> Outcome)

  predicate ValidConfig(c: Config) {
    c.workers >= 1 && c.taskCapacity >= 1 && c.resultCapacity >= 1
  }

  predicate Lossless(c: Config) {
    c.taskPolicy == RejectNewTask && c.resultPolicy == BlockWorkerUntilPopped
  }

  datatype Construction = Constructed(config: Config) | InvalidArgument(message: string)

  /** The constructor's checks. The third one never fires: a zero override falls back on a queue
      capacity that has already been checked. */
  function Construct(numWorkers: nat, queueCapacity: nat, resultOverride: nat,
                     taskPolicy: TaskPolicy, resultPolicy: ResultPolicy, dispatch: seq<byte> -> Outcome)
    : (r: Construction)
    ensures r.Constructed? <==> numWorkers >= 1 && queueCapacity >= 1
    ensures r.Constructed? ==> ValidConfig(r.config)
    ensures r.Constructed? ==>
              && r.config.workers == numWorkers && r.config.taskCapacity == queueCapacity
              && (resultOverride == 0 ==> r.config.resultCapacity == queueCapacity)
              && (resultOverride != 0 ==> r.config.resultCapacity == resultOverride)
              && r.config.taskPolicy == taskPolicy && r.config.resultPolicy == resultPolicy
              && r.config.dispatch == dispatch
  {
    var resultCapacity := if resultOverride != 0 then resultOverride else queueCapacity;
    if numWorkers == 0 then InvalidArgument("WorkerPool: num_workers must be >= 1")
    else if queueCapacity == 0 then InvalidArgument("WorkerPool: queue_capacity must be >= 1")
    else if resultCapacity == 0 then InvalidArgument("WorkerPool: effective result queue capacity must be >= 1")
    else Constructed(Config(numWorkers, queueCapacity, resultCapacity, taskPolicy, resultPolicy, dispatch))
  }

  // ---------------------------------------------------------------- queue edits

  /** What a worker makes of a task. */
  function Handle(c: Config, t: Task): Result {
    Result(t.correlationId, c.dispatch(t.payload))
  }

  function HandleAll(c: Config, ts: seq<Task>): (rs: seq<Result>)
    ensures |rs| == |ts|
    ensures forall i :: 0 <= i < |ts| ==> rs[i] == Handle(c, ts[i])
  {
    seq(|ts|, i requires 0 <= i < |ts| => Handle(c, ts[i]))
  }

  datatype Submission = Submission(accepted: bool, tasks: seq<Task>, evicted: seq<Task>)

  /** The part of try_submit that runs after the stop flag was seen clear. */
  function Submit(c: Config, tasks: seq<Task>, t: Task): (r: Submission)
    ensures r.accepted ==> tasks + [t] == r.evicted + r.tasks
    ensures !r.accepted ==> r.tasks == tasks && r.evicted == []
    ensures r.accepted <==> |tasks| < c.taskCapacity || c.taskPolicy == DropOldestPendingTask
    ensures r.accepted && tasks != [] ==> r.evicted == if |tasks| < c.taskCapacity then [] else [tasks[0]]
    ensures |r.evicted| <= 1
  {
    if |tasks| < c.taskCapacity then Submission(true, tasks + [t], [])
    else if c.taskPolicy == DropOldestPendingTask then
      if tasks != [] then Submission(true, tasks[1..] + [t], [tasks[0]])
      else Submission(true, tasks + [t], [])
    else Submission(false, tasks, [])
  }

  /** How many results a worker in drop-oldest mode removes to make room. */
  function Surplus(c: Config, results: seq<Result>): (n: nat)
    ensures n <= |results|
    ensures |results| < c.resultCapacity ==> n == 0
    ensures 1 <= c.resultCapacity <= |results| ==> |results| - n == c.resultCapacity - 1
  {
    if |results| < c.resultCapacity then 0
    else if c.resultCapacity == 0 then |results|
    else |results| - c.resultCapacity + 1
  }

  // ---------------------------------------------------------------- threads

  datatype WorkerPc =
    | AtTaskLock                      // top of the loop
    | CheckTask                       // holds the task mutex, evaluates the wait predicate
    | ParkTask                        // holds it, predicate was false, about to block
    | WaitTask                        // blocked on task_cv
    | WokenTask                       // unblocked, must take the mutex again
    | TakeTask                        // holds it, predicate was true
    | NotifyTaken(task: Task)         // notify_all on task_cv is due
    | Dispatching(task: Task)
    | AtResultLock(done: Result)
    | Evict(done: Result)             // holds the result mutex, drop-oldest mode
    | CheckResult(done: Result)       // holds it, evaluates the wait predicate
    | ParkResult(done: Result)        // holds it, predicate was false, about to block
    | WaitResult(done: Result)        // blocked on result_cv
    | WokenResult(done: Result)
    | LoadStop(done: Result)          // holds it, reads the stop flag before publishing
    | Push(done: Result)              // holds it, read the flag clear
    | NotifyPushed                    // notify_one on result_cv is due
    | Exited

  datatype ClientPc =
    | Idle
    | SubmitLock(task: Task)
    | SubmitLoadStop(task: Task)      // holds the task mutex
    | SubmitQueue(task: Task)         // holds it, read the stop flag clear
    | SubmitNotify                    // notify_one on task_cv is due
    | PopLock
    | PopNotify                       // notify_all on result_cv is due
    | StopExchange
    | StopNotifyTasks                 // notify_all on task_cv is due
    | StopNotifyResults               // notify_all on result_cv is due
    | StopJoin

  datatype Operation = SubmitOp(task: Task) | PopOp | ShutdownOp

  datatype Owner = Free | Worker(worker: nat) | Client(client: nat)

  /** What has happened so far; the program does not store it. */
  datatype Log = Log(accepted: seq<Task>, dequeued: seq<Task>, dispatched: seq<Task>,
                     published: seq<Result>, popped: seq<Result>,
                     evictedTasks: seq<Task>, evictedResults: seq<Result>, discarded: seq<Result>,
                     taken: seq<nat>)

  datatype State = State(tasks: seq<Task>, results: seq<Result>, stop: bool,
                         taskOwner: Owner, resultOwner: Owner,
                         workers: seq<WorkerPc>, clients: seq<ClientPc>, log: Log)

  function Initial(c: Config, clients: nat): State {
    State([], [], false, Free, Free,
          seq(c.workers, _ => AtTaskLock), seq(clients, _ => Idle),
          Log([], [], [], [], [], [], [], [], seq(c.workers, _ => 0)))
  }

  // ---------------------------------------------------------------- condition variables

  function WakeTask(pc: WorkerPc): WorkerPc {
    if pc.WaitTask? then WokenTask else pc
  }

  function WakeResult(pc: WorkerPc): WorkerPc {
    if pc.WaitResult? then WokenResult(pc.done) else pc
  }

  function WakeAllTask(ws: seq<WorkerPc>): (r: seq<WorkerPc>)
    ensures |r| == |ws|
    ensures forall i :: 0 <= i < |ws| ==> r[i] == WakeTask(ws[i])
  {
    seq(|ws|, i requires 0 <= i < |ws| => WakeTask(ws[i]))
  }

  function WakeAllResult(ws: seq<WorkerPc>): (r: seq<WorkerPc>)
    ensures |r| == |ws|
    ensures forall i :: 0 <= i < |ws| ==> r[i] == WakeResult(ws[i])
  {
    seq(|ws|, i requires 0 <= i < |ws| => WakeResult(ws[i]))
  }

  /** notify_one wakes some waiter when there is one. */
  predicate PicksTaskWaiter(ws: seq<WorkerPc>, k: nat) {
    (exists i :: 0 <= i < |ws| && ws[i].WaitTask?) ==> k < |ws| && ws[k].WaitTask?
  }

  predicate PicksResultWaiter(ws: seq<WorkerPc>, k: nat) {
    (exists i :: 0 <= i < |ws| && ws[i].WaitResult?) ==> k < |ws| && ws[k].WaitResult?
  }

  function WakeOneTask(ws: seq<WorkerPc>, k: nat): (r: seq<WorkerPc>)
    ensures |r| == |ws|
    ensures forall i :: 0 <= i < |ws| ==> r[i] == if i == k then WakeTask(ws[i]) else ws[i]
  {
    if k < |ws| then ws[k := WakeTask(ws[k])] else ws
  }

  function WakeOneResult(ws: seq<WorkerPc>, k: nat): (r: seq<WorkerPc>)
    ensures |r| == |ws|
    ensures forall i :: 0 <= i < |ws| ==> r[i] == if i == k then WakeResult(ws[i]) else ws[i]
  {
    if k < |ws| then ws[k := WakeResult(ws[k])] else ws
  }

  // ---------------------------------------------------------------- steps

  /** Begin starts an operation; Act and Work run one step of a client or a worker (`wake` is the
      waiter a notify_one picks); Spurious wakes a waiter for no reason. */
  datatype Label =
    | Begin(client: nat, op: Operation)
    | Act(client: nat, wake: nat)
    | Work(worker: nat, wake: nat)
    | Spurious(worker: nat)

  predicate Enabled(s: State, l: Label) {
    match l
    case Begin(j, _) => j < |s.clients| && s.clients[j].Idle?
    case Spurious(i) => i < |s.workers| && (s.workers[i].WaitTask? || s.workers[i].WaitResult?)
    case Act(j, k) =>
      j < |s.clients| &&
      (match s.clients[j]
       case Idle => false
       case SubmitLock(_) => s.taskOwner.Free?
       case PopLock => s.resultOwner.Free?
       case SubmitNotify => PicksTaskWaiter(s.workers, k)
       case StopJoin => forall i :: 0 <= i < |s.workers| ==> s.workers[i].Exited?
       case _ => true)
    case Work(i, k) =>
      i < |s.workers| &&
      (match s.workers[i]
       case AtTaskLock => s.taskOwner.Free?
       case WokenTask => s.taskOwner.Free?
       case AtResultLock(_) => s.resultOwner.Free?
       case WokenResult(_) => s.resultOwner.Free?
       case WaitTask => false
       case WaitResult(_) => false
       case Exited => false
       case NotifyPushed => PicksResultWaiter(s.workers, k)
       case _ => true)
  }

  function SetWorker(s: State, i: nat, pc: WorkerPc): State
    requires i < |s.workers|
  {
    s.(workers := s.workers[i := pc])
  }

  function SetClient(s: State, j: nat, pc: ClientPc): State
    requires j < |s.clients|
  {
    s.(clients := s.clients[j := pc])
  }

  function Start(op: Operation): ClientPc {
    match op
    case SubmitOp(t) => SubmitLock(t)
    case PopOp => PopLock
    case ShutdownOp => StopExchange
  }

  /** What one thread's step may do to another: nothing, or wake it. */
  predicate SameOrWoken(before: WorkerPc, after: WorkerPc) {
    after == before || after == WakeTask(before) || after == WakeResult(before)
  }

  /** One step of a client inside try_submit, try_pop_result or shutdown. */
  function ClientStep(c: Config, s: State, j: nat, k: nat): (t: State)
    requires Enabled(s, Act(j, k))
    ensures |t.workers| == |s.workers| && |t.clients| == |s.clients|
    ensures forall m :: 0 <= m < |s.workers| ==> SameOrWoken(s.workers[m], t.workers[m])
    ensures forall m :: 0 <= m < |s.clients| && m != j ==> t.clients[m] == s.clients[m]
    ensures t.tasks == s.tasks || s.clients[j].SubmitQueue?
    ensures t.results == s.results || s.clients[j].PopLock?
    ensures t.stop == (s.stop || s.clients[j].StopExchange?)
  {
    match s.clients[j]
    case Idle => s
    case SubmitLock(t) => SetClient(s, j, SubmitLoadStop(t)).(taskOwner := Client(j))
    case SubmitLoadStop(t) =>
      if s.stop then SetClient(s, j, Idle).(taskOwner := Free) else SetClient(s, j, SubmitQueue(t))
    case SubmitQueue(t) =>
      var r := Submit(c, s.tasks, t);
      if r.accepted then
        SetClient(s, j, SubmitNotify).(
          tasks := r.tasks, taskOwner := Free,
          log := s.log.(accepted := s.log.accepted + [t], evictedTasks := s.log.evictedTasks + r.evicted))
      else SetClient(s, j, Idle).(taskOwner := Free)
    case SubmitNotify => SetClient(s, j, Idle).(workers := WakeOneTask(s.workers, k))
    case PopLock =>
      if s.results == [] then SetClient(s, j, Idle)
      else
        SetClient(s, j, PopNotify).(
          results := s.results[1..], log := s.log.(popped := s.log.popped + [s.results[0]]))
    case PopNotify => SetClient(s, j, Idle).(workers := WakeAllResult(s.workers))
    case StopExchange => SetClient(s, j, if s.stop then Idle else StopNotifyTasks).(stop := true)
    case StopNotifyTasks => SetClient(s, j, StopNotifyResults).(workers := WakeAllTask(s.workers))
    case StopNotifyResults => SetClient(s, j, StopJoin).(workers := WakeAllResult(s.workers))
    case StopJoin => SetClient(s, j, Idle)
  }

  /** The half of the loop that deals with the task queue. */
  predicate OnTaskSide(pc: WorkerPc) {
    pc.AtTaskLock? || pc.CheckTask? || pc.ParkTask? || pc.WaitTask? || pc.WokenTask? || pc.TakeTask? || pc.NotifyTaken?
  }

  /** Taking a task: lines 89-104 of the loop. */
  function TaskSideStep(s: State, i: nat, k: nat): (t: State)
    requires Enabled(s, Work(i, k)) && OnTaskSide(s.workers[i])
    ensures |t.workers| == |s.workers| && t.clients == s.clients
    ensures forall m :: 0 <= m < |s.workers| && m != i ==> SameOrWoken(s.workers[m], t.workers[m])
    ensures (t.tasks == s.tasks && t.log == s.log) || s.workers[i].TakeTask?
    ensures t.results == s.results && t.resultOwner == s.resultOwner && t.stop == s.stop
  {
    match s.workers[i]
    case AtTaskLock => SetWorker(s, i, CheckTask).(taskOwner := Worker(i))
    case WokenTask => SetWorker(s, i, CheckTask).(taskOwner := Worker(i))
    case CheckTask => SetWorker(s, i, if s.stop || s.tasks != [] then TakeTask else ParkTask)
    case ParkTask => SetWorker(s, i, WaitTask).(taskOwner := Free)
    case TakeTask =>
      if s.tasks == [] then SetWorker(s, i, if s.stop then Exited else AtTaskLock).(taskOwner := Free)
      else
        SetWorker(s, i, NotifyTaken(s.tasks[0])).(
          tasks := s.tasks[1..], taskOwner := Free,
          log := s.log.(
            dequeued := s.log.dequeued + [s.tasks[0]],
            taken := if i < |s.log.taken| then s.log.taken[i := s.log.taken[i] + 1] else s.log.taken))
    case NotifyTaken(t) => s.(workers := WakeAllTask(s.workers)[i := Dispatching(t)])
  }

  /** Dispatching and publishing: lines 106-148 of the loop. */
  function ResultSideStep(c: Config, s: State, i: nat, k: nat): (t: State)
    requires Enabled(s, Work(i, k)) && !OnTaskSide(s.workers[i])
    ensures |t.workers| == |s.workers| && t.clients == s.clients
    ensures forall m :: 0 <= m < |s.workers| && m != i ==> SameOrWoken(s.workers[m], t.workers[m])
    ensures t.results == s.results || s.workers[i].Evict? || s.workers[i].Push?
    ensures t.log.popped == s.log.popped
    ensures t.log == s.log || s.workers[i].Dispatching? || s.workers[i].Evict?
         || s.workers[i].LoadStop? || s.workers[i].Push?
    ensures t.tasks == s.tasks && t.taskOwner == s.taskOwner && t.stop == s.stop
  {
    match s.workers[i]
    case Dispatching(t) =>
      SetWorker(s, i, AtResultLock(Handle(c, t))).(log := s.log.(dispatched := s.log.dispatched + [t]))
    case AtResultLock(r) =>
      SetWorker(s, i, if c.resultPolicy == DropOldestCompletedResult then Evict(r) else CheckResult(r)).(
        resultOwner := Worker(i))
    case Evict(r) =>
      var n := Surplus(c, s.results);
      SetWorker(s, i, LoadStop(r)).(
        results := s.results[n..],
        log := s.log.(evictedResults := s.log.evictedResults + s.results[..n]))
    case CheckResult(r) =>
      SetWorker(s, i, if s.stop || |s.results| < c.resultCapacity then LoadStop(r) else ParkResult(r))
    case ParkResult(r) => SetWorker(s, i, WaitResult(r)).(resultOwner := Free)
    case WokenResult(r) => SetWorker(s, i, CheckResult(r)).(resultOwner := Worker(i))
    case LoadStop(r) =>
      if s.stop then
        SetWorker(s, i, Exited).(resultOwner := Free, log := s.log.(discarded := s.log.discarded + [r]))
      else SetWorker(s, i, Push(r))
    case Push(r) =>
      SetWorker(s, i, NotifyPushed).(
        results := s.results + [r], resultOwner := Free,
        log := s.log.(published := s.log.published + [r]))
    case NotifyPushed => s.(workers := WakeOneResult(s.workers, k)[i := AtTaskLock])
  }

  /** One step of worker i in its loop. */
  function WorkerStep(c: Config, s: State, i: nat, k: nat): (t: State)
    requires Enabled(s, Work(i, k))
    ensures |t.workers| == |s.workers| && t.clients == s.clients
    ensures forall m :: 0 <= m < |s.workers| && m != i ==> SameOrWoken(s.workers[m], t.workers[m])
    ensures t.tasks == s.tasks || s.workers[i].TakeTask?
    ensures t.results == s.results || s.workers[i].Evict? || s.workers[i].Push?
    ensures t.stop == s.stop
  {
    if OnTaskSide(s.workers[i]) then TaskSideStep(s, i, k) else ResultSideStep(c, s, i, k)
  }

  function Fire(c: Config, s: State, l: Label): State
    requires Enabled(s, l)
  {
    match l
    case Begin(j, op) => SetClient(s, j, Start(op))
    case Act(j, k) => ClientStep(c, s, j, k)
    case Work(i, k) => WorkerStep(c, s, i, k)
    case Spurious(i) => SetWorker(s, i, WakeTask(WakeResult(s.workers[i])))
  }

  // ---------------------------------------------------------------- runs

  /** ls can be fired one after the other from s. */
  predicate Run(c: Config, s: State, ls: seq<Label>)
    decreases |ls|
  {
    ls == [] || (Enabled(s, ls[0]) && Run(c, Fire(c, s, ls[0]), ls[1..]))
  }

  function After(c: Config, s: State, ls: seq<Label>): State
    requires Run(c, s, ls)
    decreases |ls|
  {
    if ls == [] then s else After(c, Fire(c, s, ls[0]), ls[1..])
  }

  lemma {:induction false} RunConcat(c: Config, s: State, a: seq<Label>, b: seq<Label>)
    requires Run(c, s, a) && Run(c, After(c, s, a), b)
    ensures Run(c, s, a + b) && After(c, s, a + b) == After(c, After(c, s, a), b)
    decreases |a|
  {
    if a == [] {
      assert a + b == b;
    } else {
      RunConcat(c, Fire(c, s, a[0]), a[1..], b);
      assert (a + b)[1..] == a[1..] + b;
    }
  }

  lemma RunCons(c: Config, s: State, l: Label, rest: seq<Label>)
    requires Enabled(s, l) && Run(c, Fire(c, s, l), rest)
    ensures Run(c, s, [l] + rest) && After(c, s, [l] + rest) == After(c, Fire(c, s, l), rest)
  {
    hide Fire, Enabled;
    assert ([l] + rest)[1..] == rest;
  }

  lemma TwoMore(c: Config, s: State, l: Label, m: Label)
    requires Enabled(s, l) && Enabled(Fire(c, s, l), m)
    ensures Run(c, s, [l, m]) && After(c, s, [l, m]) == Fire(c, Fire(c, s, l), m)
  {
    hide Fire, Enabled;
    RunCons(c, Fire(c, s, l), m, []);
    assert [m] + [] == [m] && [l] + [m] == [l, m];
    RunCons(c, s, l, [m]);
  }

  lemma ThreeMore(c: Config, s: State, a: Label, b: Label, d: Label)
    requires Enabled(s, a)
    requires var s1 := Fire(c, s, a); Enabled(s1, b) && Enabled(Fire(c, s1, b), d)
    ensures Run(c, s, [a, b, d]) && After(c, s, [a, b, d]) == Fire(c, Fire(c, Fire(c, s, a), b), d)
  {
    hide Fire, Enabled;
    TwoMore(c, Fire(c, s, a), b, d);
    assert [a] + [b, d] == [a, b, d];
    RunCons(c, s, a, [b, d]);
  }

  lemma FourMore(c: Config, s: State, a: Label, b: Label, d: Label, e: Label)
    requires Enabled(s, a)
    requires var s1 := Fire(c, s, a);
             Enabled(s1, b) && (var s2 := Fire(c, s1, b); Enabled(s2, d) && Enabled(Fire(c, s2, d), e))
    ensures Run(c, s, [a, b, d, e])
    ensures After(c, s, [a, b, d, e]) == Fire(c, Fire(c, Fire(c, Fire(c, s, a), b), d), e)
  {
    hide Fire, Enabled;
    TwoMore(c, s, a, b);
    TwoMore(c, Fire(c, Fire(c, s, a), b), d, e);
    RunConcat(c, s, [a, b], [d, e]);
    assert [a, b] + [d, e] == [a, b, d, e];
  }

  /** s can arise in a pool built from c that is used by some number of clients. */
  ghost predicate Reachable(c: Config, s: State) {
    exists clients: nat, ls :: Run(c, Initial(c, clients), ls) && After(c, Initial(c, clients), ls) == s
  }
}
