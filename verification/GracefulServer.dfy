/** Graceful shutdown: the echo loop and the lock-free coordinator, while other threads ask for shutdown. */
module GracefulServer {
  import opened Codec
  import opened Connection
  import opened SocketIo
  import opened SelectPoller
  import opened EchoServer
  import opened EchoRun
  import opened Lifecycle

  const GRACEFUL_MAX_PAYLOAD: nat := 4096
  const GRACEFUL_SCRATCH_SIZE: nat := 4096
  const GRACEFUL_EVENT_CAPACITY: nat := 32

  method AnyPendingWrites(slots: seq<ConnSlot>) returns (pending: bool)
    ensures pending <==> exists s :: s in slots && s.conn.writeBuf != []
  {
    for i := 0 to |slots|
      invariant forall j :: 0 <= j < i ==> slots[j].conn.writeBuf == []
    {
      if slots[i].conn.writeBuf != [] {
        return true;
      }
    }
    pending := false;
  }

  /** What the other threads do: a script that says, for each moment at which the loop looks at the phase or is
      about to accept, whether a request for shutdown came in just before it. */
  class Requests {
    var script: seq<bool>

    constructor (script: seq<bool>)
      ensures this.script == script
    {
      this.script := script;
    }

    method Interfere(coordinator: ShutdownCoordinator)
      modifies this, coordinator
      ensures script == Rest(old(script)) && coordinator.phase == Next(old(coordinator.phase), old(script))
    {
      if script != [] {
        if script[0] {
          coordinator.RequestShutdown(0);
        }
        script := script[1..];
      }
    }
  }

  /** The phase after the next entry of the script. */
  function Next(phase: Phase, script: seq<bool>): Phase {
    if phase == Running && script != [] && script[0] then Draining else phase
  }

  // ---------------------------------------------------------------- accepting while shutdown is requested

  /** How many clients an accept loop admits before the kernel has nobody left or fails. */
  function Admissions(accepts: seq<AcceptOutcome>, open: set<NativeSocket>): nat {
    if accepts == [] then 0
    else
      var r := Plausible(accepts[0], open);
      if r.NewSocket? then 1 + Admissions(accepts[1..], open + {r.handle}) else 0
  }

  /** The phases in which n clients are admitted one after the other. */
  function AdmissionPhases(phase: Phase, script: seq<bool>, n: nat): (r: seq<Phase>)
    ensures |r| == n
    decreases n
  {
    if n == 0 then [] else [Next(phase, script)] + AdmissionPhases(Next(phase, script), Rest(script), n - 1)
  }

  function PhaseAfter(phase: Phase, script: seq<bool>, n: nat): Phase
    decreases n
  {
    if n == 0 then phase else PhaseAfter(Next(phase, script), Rest(script), n - 1)
  }

  predicate SomeLate(phases: seq<Phase>) {
    exists k :: 0 <= k < |phases| && phases[k] != Running
  }

  /** A request comes in before one of the next n moments. */
  predicate RequestedWithin(script: seq<bool>, n: nat) {
    exists m :: 0 <= m < n && m < |script| && script[m]
  }

  /** Where an accept loop will end: the slots, the phases of all admissions and the phase it leaves behind. */
  datatype AcceptGoal = AcceptGoal(slots: nat, admitted: seq<Phase>, phase: Phase)

  function GoalFrom(slots: nat, admitted: seq<Phase>, phase: Phase, script: seq<bool>,
                    accepts: seq<AcceptOutcome>, open: set<NativeSocket>): AcceptGoal {
    var n := Admissions(accepts, open);
    AcceptGoal(slots + n, admitted + AdmissionPhases(phase, script, n), PhaseAfter(phase, script, n + 1))
  }

  lemma GoalIsThere(slots: nat, admitted: seq<Phase>, phase: Phase, script: seq<bool>,
                    accepts: seq<AcceptOutcome>, open: set<NativeSocket>)
    ensures var n, goal := Admissions(accepts, open), GoalFrom(slots, admitted, phase, script, accepts, open);
            && goal.slots == slots + n && goal.admitted == admitted + AdmissionPhases(phase, script, n)
            && goal.phase == PhaseAfter(phase, script, n + 1)
  {
  }

  /** One accept brings the goal nearer or reaches it. */
  lemma AcceptStep(slots: nat, admitted: seq<Phase>, phase: Phase, script: seq<bool>,
                   accepts: seq<AcceptOutcome>, open: set<NativeSocket>)
    ensures var r := if accepts == [] then AcceptWouldBlock else Plausible(accepts[0], open);
            var next, goal := Next(phase, script), GoalFrom(slots, admitted, phase, script, accepts, open);
            if r.NewSocket? then
              GoalFrom(slots + 1, admitted + [next], next, Rest(script), Rest(accepts), open + {r.handle}) == goal
            else AcceptGoal(slots, admitted, next) == goal
  {
    var r := if accepts == [] then AcceptWouldBlock else Plausible(accepts[0], open);
    if r.NewSocket? {
      var next, n := Next(phase, script), Admissions(Rest(accepts), open + {r.handle});
      var rest := AdmissionPhases(next, Rest(script), n);
      assert AdmissionPhases(phase, script, n + 1) == [next] + rest;
      assert admitted + ([next] + rest) == admitted + [next] + rest;
    } else {
      assert PhaseAfter(phase, script, 1) == Next(phase, script);
    }
  }

  lemma {:induction false} LateIffRequested(phase: Phase, script: seq<bool>, n: nat)
    requires phase == Running
    ensures SomeLate(AdmissionPhases(phase, script, n)) <==> RequestedWithin(script, n)
    decreases n
  {
    if n > 0 {
      var next, rest := Next(phase, script), AdmissionPhases(Next(phase, script), Rest(script), n - 1);
      var all := AdmissionPhases(phase, script, n);
      assert all == [next] + rest;
      if next == Running {
        LateIffRequested(next, Rest(script), n - 1);
        if SomeLate(rest) {
          var k :| 0 <= k < |rest| && rest[k] != Running;
          assert all[k + 1] != Running;
          var m :| 0 <= m < n - 1 && m < |Rest(script)| && Rest(script)[m];
          assert script[m + 1];
        }
        if SomeLate(all) {
          var k :| 0 <= k < |all| && all[k] != Running;
          assert rest[k - 1] != Running;
        }
        if m :| 0 <= m < n && m < |script| && script[m] {
          assert Rest(script)[m - 1];
        }
      } else {
        assert all[0] != Running && script[0];
      }
    }
  }

  /** After a late admission the phase has left Running. */
  lemma {:induction false} LateLeavesRunning(phase: Phase, script: seq<bool>, n: nat)
    requires phase == Running && SomeLate(AdmissionPhases(phase, script, n))
    ensures PhaseAfter(phase, script, n + 1) != Running
    decreases n
  {
    var next, rest := Next(phase, script), AdmissionPhases(Next(phase, script), Rest(script), n - 1);
    assert AdmissionPhases(phase, script, n) == [next] + rest;
    if next == Running {
      var k :| 0 <= k < n && AdmissionPhases(phase, script, n)[k] != Running;
      assert rest[k - 1] != Running;
      LateLeavesRunning(next, Rest(script), n - 1);
    } else {
      NeverRunningAgain(next, Rest(script), n);
    }
  }

  lemma {:induction false} NeverRunningAgain(phase: Phase, script: seq<bool>, n: nat)
    requires phase != Running
    ensures PhaseAfter(phase, script, n) != Running
    decreases n
  {
    if n > 0 {
      NeverRunningAgain(phase, Rest(script), n - 1);
    }
  }

  lemma NobodyLate(admitted: seq<Phase>)
    ensures !SomeLate([]) && admitted[|admitted|..] == []
  {
  }

  /** The phases in which an event admits clients: only a readable listener event whose gate sees Running does. */
  function AdmissionsOf(ev: Event, listener: NativeSocket, phase: Phase, script: seq<bool>,
                        accepts: seq<AcceptOutcome>, open: set<NativeSocket>): seq<Phase> {
    if ev.socket == listener && ev.mask.read && Next(phase, script) == Running then
      AdmissionPhases(Running, Rest(script), Admissions(accepts, open))
    else []
  }

  /** When a listener event admits somebody although the phase has left Running: the event is readable, the gate
      sees Running, and a request comes in after the gate and before a client that the kernel still hands out. */
  predicate AdmitsLate(ev: Event, listener: NativeSocket, phase: Phase, script: seq<bool>,
                       accepts: seq<AcceptOutcome>, open: set<NativeSocket>) {
    && ev.socket == listener && ev.mask.read && Next(phase, script) == Running
    && RequestedWithin(Rest(script), Admissions(accepts, open))
  }

  /** The exact condition for a late admission. */
  lemma AdmitsLateIff(ev: Event, listener: NativeSocket, phase: Phase, script: seq<bool>,
                      accepts: seq<AcceptOutcome>, open: set<NativeSocket>)
    ensures SomeLate(AdmissionsOf(ev, listener, phase, script, accepts, open))
       <==> AdmitsLate(ev, listener, phase, script, accepts, open)
  {
    LateIffRequested(Running, Rest(script), Admissions(accepts, open));
  }

  /** The loop's state at the end of a tick. */
  datatype Snapshot = Snapshot(live: set<Connection>, unregistered: bool, phase: Phase)

  /** Graceful shutdown over a whole run. A snapshot is Stopped exactly if the listener is unregistered and nobody
      is connected, and is then the last one. After any snapshot outside Running the listener is unregistered;
      once it is, it stays so and the live set only shrinks. */
  ghost predicate IsGraceful(trace: seq<Snapshot>) {
    && trace != []
    && (forall i :: 0 <= i < |trace| ==> WellStopped(trace[i]))
    && (forall i :: 0 <= i < |trace| && trace[i].phase == Stopped ==> i == |trace| - 1)
    && (forall i, j :: 0 <= i < j < |trace| ==> Follows(trace[i], trace[j]))
  }

  ghost predicate WellStopped(s: Snapshot) {
    && (s.phase == Stopped <==> s.unregistered && s.live == {})
    && (s.unregistered ==> s.phase != Running)
  }

  ghost predicate Follows(earlier: Snapshot, later: Snapshot) {
    && Rank(earlier.phase) <= Rank(later.phase)
    && (earlier.phase != Running ==> later.unregistered)
    && (earlier.unregistered ==> later.unregistered && later.live <= earlier.live)
  }

  lemma TraceBegins(s: Snapshot)
    requires WellStopped(s)
    ensures IsGraceful([s])
  {
  }

  lemma TraceGrows(trace: seq<Snapshot>, next: Snapshot)
    requires IsGraceful(trace) && WellStopped(next)
    requires trace[|trace| - 1].phase != Stopped && Follows(trace[|trace| - 1], next)
    ensures IsGraceful(trace + [next])
  {
    forall i | 0 <= i < |trace|
      ensures Follows(trace[i], next)
    {
      assert i < |trace| - 1 ==> Follows(trace[i], trace[|trace| - 1]);
    }
  }

  class Graceful {
    const server: Server
    const coordinator: ShutdownCoordinator
    const requests: Requests
    var listenerUnregistered: bool
    /** The phase at the moment of each admission so far. */
    ghost var admitted: seq<Phase>

    constructor (server: Server, coordinator: ShutdownCoordinator, requests: Requests)
      requires server.Valid() && server.listening && coordinator.phase != Stopped
      ensures Valid() && !listenerUnregistered && admitted == []
      ensures this.server == server && this.coordinator == coordinator && this.requests == requests
    {
      this.server, this.coordinator, this.requests := server, coordinator, requests;
      listenerUnregistered := false;
      admitted := [];
    }

    ghost predicate Consistent()
      reads this`listenerUnregistered, server`listening, server`slots, coordinator
    {
      && listenerUnregistered == !server.listening
      && (listenerUnregistered ==> coordinator.phase != Running)
      && (coordinator.phase == Stopped <==> listenerUnregistered && server.slots == [])
    }

    ghost predicate Valid()
      reads this`listenerUnregistered, server`listening, server`accepted, server`retired, server`slots
      reads server.poller, server.kernel`open, server.kernel`handedOut
      reads Objects(server.slots), server.retired, coordinator
    {
      server.Valid() && Consistent()
    }

    ghost function Now(): Snapshot
      reads this`listenerUnregistered, server`slots, coordinator
    {
      Snapshot(Conns(server.slots), listenerUnregistered, coordinator.phase)
    }

    /** Once the listener is unregistered, or if the phase had left Running before, nobody new is served. */
    twostate predicate NobodyNew(polled: seq<ConnSlot>)
      reads server, coordinator
    {
      !server.listening || old(coordinator.phase) != Running ==> Within(server.slots, polled)
    }

    method HandleBatch(events: array<Event>, count: nat) returns (r: Progress)
      requires server.Valid() && count <= events.Length && IsBatch(events[..count], server.poller.interest)
      modifies server`slots, server`completions, server`accepted, server`retired, server`log
      modifies server.poller, server.kernel
      modifies Objects(server.slots), coordinator, requests, this`admitted
      ensures r == Go ==>
                && server.Valid() && old(server.log) <= server.log
                && Dispatched(events[..count], old(server.slots), server.log[|old(server.log)|..], server)
      ensures r == Go ==> Onward(old(server.kernel.Now()), server.kernel.Now())
      ensures r.Aborted? ==> server.Justified(r.why, old(server.kernel.Now())) && server.PrefixesSent()
      ensures OnlyPolledOrNew(server, old(server.slots)) && NobodyNew(old(server.slots)) && Disturbed()
    {
      hide Server.Valid, Server.PrefixesSent, Server.Justified, Onward;
      hide Dispatched, Awaited, Handles, Distinct, Within;
      OnwardItself(server.kernel.Now());
      ghost var polled, before, batch := server.slots, server.log, events[..count];
      WithinItself(polled);
      BatchNames(server, batch);
      ListenerOnlyIfListening(server, batch);
      assert batch[..0] == [] && server.log[|before|..] == [];
      var ei := 0;
      while ei < count
        invariant ei <= count && server.Valid() && before <= server.log
        invariant Onward(old(server.kernel.Now()), server.kernel.Now())
        invariant OnlyPolledOrNew(server, polled) && NobodyNew(polled) && Disturbed()
        invariant Awaited(batch, ei, polled, server.slots)
        invariant Dispatched(batch[..ei], polled, server.log[|before|..], server)
      {
        ghost var slots, at := server.slots, server.kernel.Now();
        r := HandleNext(events[ei], batch, ei, polled, before);
        WithinWithin(server.slots, slots, polled);
        server.JustifiedSince(old(server.kernel.Now()), at);
        if r.Aborted? {
          return;
        }
        OnwardThenOnward(old(server.kernel.Now()), at, server.kernel.Now());
        ei := ei + 1;
      }
      assert batch[..count] == batch;
      r := Go;
    }

    /** The next event of a batch reaches the connection that was polled. */
    method HandleNext(ev: Event, ghost batch: seq<Event>, ghost k: nat, ghost polled: seq<ConnSlot>,
                      ghost before: seq<Delivery>)
      returns (r: Progress)
      requires server.Valid() && before <= server.log && k < |batch| && batch[k] == ev
      requires forall i, j :: 0 <= i < j < |batch| ==> batch[i].socket != batch[j].socket
      requires ev.socket != server.listener ==> ev.socket in Handles(polled)
      requires Awaited(batch, k, polled, server.slots)
      requires Dispatched(batch[..k], polled, server.log[|before|..], server)
      modifies server`slots, server`completions, server`accepted, server`retired, server`log
      modifies server.poller, server.kernel
      modifies With(server.slots, ev.socket), coordinator, requests, this`admitted
      ensures r == Go ==>
                && server.Valid() && before <= server.log
                && Awaited(batch, k + 1, polled, server.slots)
                && Dispatched(batch[..k + 1], polled, server.log[|before|..], server)
      ensures r == Go ==> Onward(old(server.kernel.Now()), server.kernel.Now())
      ensures r.Aborted? ==> server.Justified(r.why, old(server.kernel.Now())) && server.PrefixesSent()
      ensures OnlyPolledOrNew(server, old(server.slots)) && Disturbed()
      ensures ev.socket != server.listener || old(coordinator.phase) != Running ==>
                Within(server.slots, old(server.slots))
    {
      hide Server.Valid, Server.PrefixesSent, Server.Service, Server.Justified, UntilBlocked, Onward;
      hide Dispatched, Awaited, Handles, Distinct, Within, AdmissionsOf, ServedNext, SomeLate;
      ghost var slots, log := server.slots, server.log;
      HandlesAreDistinct(server);
      StillThere(batch, k, polled, slots);
      r := HandleGated(ev);
      if r == Go {
        AwaitedShrinks(batch, k, polled, slots, server.slots);
        ServedNextSince(ev, before, log, server.log, slots, server.scratchSize);
        NextDispatched(batch, k, polled, slots, log[|before|..], server.log[|before|..], server);
      }
    }

    /** One accept, and the phase in which it admits somebody. */
    method AcceptNext() returns (r: AcceptOutcome)
      requires server.Valid()
      modifies server`slots, server`accepted, server.poller
      modifies server.kernel`accepts, server.kernel`open, server.kernel`handedOut
      modifies coordinator, requests, this`admitted
      ensures server.Valid() && requests.script == Rest(old(requests.script))
      ensures coordinator.phase == Next(old(coordinator.phase), old(requests.script))
      ensures var k := server.kernel;
              && k.accepts == Rest(old(k.accepts))
              && r == (if old(k.accepts) == [] then AcceptWouldBlock else Plausible(old(k.accepts)[0], old(k.open)))
              && k.open == old(k.open) + (if r.NewSocket? then {r.handle} else {})
              && k.handedOut == old(k.handedOut) + (if r.NewSocket? then [r.handle] else [])
      ensures r.NewSocket? ==>
                && |server.slots| == |old(server.slots)| + 1 && old(server.slots) <= server.slots
                && server.IsNew(server.slots[|old(server.slots)|])
      ensures !r.NewSocket? ==> server.slots == old(server.slots)
      ensures admitted == old(admitted) + if r.NewSocket? then [coordinator.phase] else []
    {
      hide Server.Valid;
      Disturb();
      r := server.AcceptOne();
      Record(if r.NewSocket? then [coordinator.phase] else []);
    }

    ghost method Record(phases: seq<Phase>)
      requires server.Valid()
      modifies this`admitted
      ensures server.Valid() && admitted == old(admitted) + phases
    {
      admitted := admitted + phases;
    }

    /** The accept loop. It does not look at the phase, so a request that comes in between two accepts does not
        stop it. */
    method AcceptAll() returns (r: Progress)
      requires server.Valid()
      modifies server`slots, server`accepted, server.poller
      modifies server.kernel`accepts, server.kernel`open, server.kernel`handedOut
      modifies coordinator, requests, this`admitted
      ensures server.Valid() && Disturbed()
      ensures r == Go ==>
                UntilBlocked(old(server.kernel.accepts), server.kernel.accepts, AcceptsOn, AcceptWouldBlock)
      ensures r == Go ==> Onward(old(server.kernel.Now()), server.kernel.Now())
      ensures r.Aborted? ==> r.why == AcceptBroken && AcceptFault(old(server.kernel.Now()), server.kernel.Now())
      ensures old(server.slots) <= server.slots
      ensures forall s :: s in server.slots[|old(server.slots)|..] ==> server.IsNew(s)
      ensures var n := Admissions(old(server.kernel.accepts), old(server.kernel.open));
              && |server.slots| == |old(server.slots)| + n
              && admitted == old(admitted) + AdmissionPhases(old(coordinator.phase), old(requests.script), n)
              && coordinator.phase == PhaseAfter(old(coordinator.phase), old(requests.script), n + 1)
    {
      hide Server.Valid, GoalFrom, AllUsed, UntilBlocked, Onward, AcceptFault;
      ghost var kernel := server.kernel;
      ghost var goal :=
        GoalFrom(|server.slots|, admitted, coordinator.phase, requests.script, kernel.accepts, kernel.open);
      GoalIsThere(|server.slots|, admitted, coordinator.phase, requests.script, kernel.accepts, kernel.open);
      hide Admissions, AdmissionPhases, PhaseAfter;
      OnwardItself(kernel.Now());
      NothingUsed(kernel.accepts, AcceptsOn);
      while true
        invariant server.Valid() && Disturbed() && old(server.slots) <= server.slots
        invariant forall s :: s in server.slots[|old(server.slots)|..] ==> server.IsNew(s)
        invariant AllUsed(old(kernel.accepts), kernel.accepts, AcceptsOn) && Onward(old(kernel.Now()), kernel.Now())
        invariant GoalFrom(|server.slots|, admitted, coordinator.phase, requests.script, kernel.accepts, kernel.open)
               == goal
        decreases |kernel.accepts|
      {
        ghost var at := kernel.Now();
        AcceptStep(|server.slots|, admitted, coordinator.phase, requests.script, kernel.accepts, kernel.open);
        var accepted := AcceptNext();
        AcceptFurther(old(kernel.Now()), at, kernel.Now(), accepted);
        match accepted
        case AcceptWouldBlock => return Go;
        case AcceptFailed => return Aborted(AcceptBroken);
        case NewSocket(_) =>
      }
    }

    /** A listener event is dropped once the phase is seen to have left Running. */
    method HandleGated(ev: Event) returns (r: Progress)
      requires server.Valid()
      modifies server`slots, server`completions, server`accepted, server`retired, server`log
      modifies server.poller, server.kernel
      modifies With(server.slots, ev.socket), coordinator, requests, this`admitted
      ensures Disturbed()
      ensures r == Go ==> server.Valid()
      ensures r == Go ==> Onward(old(server.kernel.Now()), server.kernel.Now())
      ensures r.Aborted? ==> server.Justified(r.why, old(server.kernel.Now())) && server.PrefixesSent()
      ensures OnlyPolledOrNew(server, old(server.slots))
      ensures ev.socket != server.listener || old(coordinator.phase) != Running ==>
                Within(server.slots, old(server.slots))
      ensures forall s :: s in old(server.slots) && s.conn.handle != ev.socket ==> s in server.slots
      ensures ev.socket == server.listener || ev.socket !in Handles(old(server.slots)) ==> server.log == old(server.log)
      ensures r == Go && ev.socket != server.listener && ev.socket in Handles(old(server.slots)) ==>
                && ServedNext(ev, old(server.log), server.log, old(server.slots), server.scratchSize)
                && server.log[|old(server.log)|] == server.Service(ev.mask, server.log[|old(server.log)|].slot)
      ensures r == Go && ev.socket == server.listener && ev.mask.read
              && Next(old(coordinator.phase), old(requests.script)) == Running ==>
                UntilBlocked(old(server.kernel.accepts), server.kernel.accepts, AcceptsOn, AcceptWouldBlock)
      ensures old(admitted) <= admitted && (ev.socket == server.listener ==>
                |server.slots| == |old(server.slots)| + |admitted| - |old(admitted)|)
      ensures admitted[|old(admitted)|..] ==
                AdmissionsOf(ev, server.listener, old(coordinator.phase), old(requests.script),
                             old(server.kernel.accepts), old(server.kernel.open))
      ensures SomeLate(admitted[|old(admitted)|..]) ==> coordinator.phase != Running
    {
      hide Server.Valid, Server.PrefixesSent, Handles, AdmissionPhases, Admissions, PhaseAfter, SomeLate;
      hide Onward, AcceptFault, RecvFault, SendFault, UntilBlocked, FullService;
      OnwardItself(server.kernel.Now());
      NobodyLate(admitted);
      if ev.socket == server.listener {
        Disturb();
        if !coordinator.ShouldAcceptNewConnections() || !ev.mask.read {
          return Go;
        }
        ghost var phase, script := coordinator.phase, requests.script;
        ghost var n := Admissions(server.kernel.accepts, server.kernel.open);
        r := AcceptAll();
        if SomeLate(AdmissionPhases(phase, script, n)) {
          LateLeavesRunning(phase, script, n);
        }
        assert server.slots == old(server.slots) + server.slots[|old(server.slots)|..];
        if r.Aborted? {
          server.ValidMeansPrefixesSent();
        }
        return;
      }
      r := server.HandleConnectionEvent(ev);
    }

    /** Others have at most moved the phase from Running to Draining. */
    twostate predicate Disturbed()
      reads coordinator
    {
      coordinator.phase == old(coordinator.phase)
      || (old(coordinator.phase) == Running && coordinator.phase == Draining)
    }

    method Disturb()
      requires server.Valid()
      modifies requests, coordinator
      ensures server.Valid() && Disturbed()
      ensures requests.script == Rest(old(requests.script))
      ensures coordinator.phase == Next(old(coordinator.phase), old(requests.script))
    {
      hide Server.Bookkeeping, Server.Live, Server.RetiredExact;
      requests.Interfere(coordinator);
    }

    lemma NowIsWellStopped()
      requires Valid()
      ensures WellStopped(Now())
    {
      assert server.slots != [] ==> server.slots[0].conn in Conns(server.slots);
    }

    /** One turn of the loop. Once the listener is unregistered nobody new is served, and Stopped is reached in
        exactly the tick in which the last connection has left. */
    method Tick(events: array<Event>, turn: Turn) returns (r: Progress, ghost batch: Batch)
      requires Valid() && coordinator.phase != Stopped && events.Length > 0
      modifies this, server`slots, server`completions, server`accepted, server`retired, server`log, server`listening
      modifies server.poller, server.kernel, Objects(server.slots), coordinator, requests, events
      ensures r == Go ==> Valid() && Follows(old(Now()), Now())
      ensures r == Go ==> FullTurn(batch, turn, events.Length, server)
      ensures r == Go ==> Onward(old(server.kernel.Now()), server.kernel.Now())
      ensures r == Go ==> batch.polled == old(server.slots)
      ensures r == Go ==> server.log == old(server.log) + batch.served
      ensures r.Aborted? ==> r.why == WaitBroken || server.Justified(r.why, old(server.kernel.Now()))
      ensures r == Aborted(WaitBroken) <==> turn.selectFails
      ensures r.Aborted? ==> server.PrefixesSent()
      ensures OnlyPolledOrNew(server, old(server.slots))
      ensures listenerUnregistered ==> Within(server.slots, old(server.slots))
    {
      hide Server.Valid, Server.PrefixesSent, Dispatched, IsBatch, Reports, Within, Conns;
      hide Onward, RecvFault, SendFault, AcceptFault;
      batch := Batch([], map[], server.slots, []);
      WithinItself(server.slots);
      StartTick();
      var n := Poll(server, events, turn);
      if n == PollError {
        server.ValidMeansPrefixesSent();
        return Aborted(WaitBroken), batch;
      }
      batch := batch.(events := events[..n.count], interest := server.poller.interest);
      r := HandleBatch(events, n.count);
      if r.Aborted? {
        return;
      }
      batch := batch.(served := server.log[|old(server.log)|..]);
      WithinShrinks(server.slots, old(server.slots));
      FinishTick();
    }

    /** Unregisters the listener once the phase has left Running. */
    method StartTick()
      requires Valid() && coordinator.phase != Stopped
      modifies this`listenerUnregistered, server`listening, server.poller, coordinator, requests
      ensures server.Valid() && listenerUnregistered == !server.listening && Disturbed()
      ensures listenerUnregistered <==> coordinator.phase != Running
    {
      hide Server.Bookkeeping, Server.Live, Server.RetiredExact;
      Disturb();
      if !coordinator.ShouldAcceptNewConnections() && !listenerUnregistered {
        server.UnregisterListener();
        listenerUnregistered := true;
      }
    }

    method FinishTick()
      requires server.Valid() && listenerUnregistered == !server.listening
      requires coordinator.phase != Stopped && (listenerUnregistered ==> coordinator.phase != Running)
      modifies coordinator, requests
      ensures Valid() && Rank(old(coordinator.phase)) <= Rank(coordinator.phase)
    {
      hide Server.Valid;
      Disturb();
      TryAdvance();
    }

    method TryAdvance()
      requires server.Valid()
      modifies coordinator
      ensures server.Valid()
      ensures coordinator.phase ==
              if old(coordinator.phase) == Draining && listenerUnregistered && server.slots == [] then Stopped
              else old(coordinator.phase)
    {
      hide Server.Bookkeeping, Server.Live, Server.RetiredExact;
      var pending := AnyPendingWrites(server.slots);
      coordinator.TryAdvanceToStoppedIfDrained(listenerUnregistered, |server.slots|, pending);
    }

    /** The loop: one turn for every time the deadline has not passed yet, until Stopped. */
    method Run(turns: seq<Turn>) returns (r: Progress, ghost trace: seq<Snapshot>, ghost batches: seq<Batch>)
      requires Valid()
      modifies this, server`slots, server`completions, server`accepted, server`retired, server`log, server`listening
      modifies server.poller, server.kernel, Objects(server.slots), coordinator, requests
      ensures IsGraceful(trace) && trace[0] == old(Now())
      ensures FullTurns(batches, turns, GRACEFUL_EVENT_CAPACITY, server)
      ensures r == Go ==>
                && Valid() && trace[|trace| - 1] == Now()
                && (coordinator.phase == Stopped || |trace| == |turns| + 1)
                && |batches| + 1 == |trace| && server.log == old(server.log) + AllServed(batches)
      ensures r == Go ==> Onward(old(server.kernel.Now()), server.kernel.Now())
      ensures r.Aborted? ==> r.why == WaitBroken || server.Justified(r.why, old(server.kernel.Now()))
      ensures r == Aborted(WaitBroken) ==> |batches| < |turns| && turns[|batches|].selectFails
      ensures server.PrefixesSent()
    {
      hide Server.Valid, Server.PrefixesSent, IsGraceful, WellStopped, Follows, Within, Conns;
      hide Server.Justified, FullTurn, FullTurns, AllServed, Consistent, Onward;
      OnwardItself(server.kernel.Now());
      NowIsWellStopped();
      TraceBegins(Now());
      var events := new Event[GRACEFUL_EVENT_CAPACITY](_ => Event(INVALID_SOCKET, NONE));
      trace, batches := [Now()], [];
      NoTurnsYet(turns, GRACEFUL_EVENT_CAPACITY, server);
      var i := 0;
      while coordinator.ShouldPollNetwork() && i < |turns|
        invariant Valid() && |trace| == i + 1 && |batches| == i <= |turns|
        invariant FullTurns(batches, turns, GRACEFUL_EVENT_CAPACITY, server)
        invariant server.log == old(server.log) + AllServed(batches)
        invariant OnlyPolledOrNew(server, old(server.slots))
        invariant IsGraceful(trace) && trace[0] == old(Now()) && trace[i] == Now()
        invariant Onward(old(server.kernel.Now()), server.kernel.Now())
        decreases |turns| - i
      {
        ghost var batch, at := *, server.kernel.Now();
        r, batch := Tick(events, turns[i]);
        server.JustifiedSince(old(server.kernel.Now()), at);
        if r.Aborted? {
          return;
        }
        OnwardThenOnward(old(server.kernel.Now()), at, server.kernel.Now());
        OneMoreTurn(batches, batch, turns, GRACEFUL_EVENT_CAPACITY, server);
        batches := batches + [batch];
        NowIsWellStopped();
        TraceGrows(trace, Now());
        trace := trace + [Now()];
        i := i + 1;
      }
      server.ValidMeansPrefixesSent();
      r := Go;
    }
  }

  lemma WithinShrinks(slots: seq<ConnSlot>, polled: seq<ConnSlot>)
    ensures Within(slots, polled) ==> Conns(slots) <= Conns(polled)
  {
  }

  /** A poller that has forgotten the listener never reports it. */
  lemma ListenerOnlyIfListening(server: Server, events: seq<Event>)
    requires server.Valid() && IsBatch(events, server.poller.interest)
    ensures !server.listening ==> forall k :: 0 <= k < |events| ==> events[k].socket != server.listener
  {
  }

  /** A run in which somebody is admitted while the phase is Draining: the listener is readable, the gate sees
      Running, the request comes in, and then the kernel hands out a client. */
  method AdmitWhileDraining(listener: NativeSocket, client: NativeSocket, endian: Endian) returns (g: Graceful)
    requires listener != INVALID_SOCKET && client != INVALID_SOCKET && client != listener
    ensures fresh(g) && g.admitted == [Draining] && |g.server.slots| == 1 && g.coordinator.phase == Draining
  {
    var kernel := new Kernel([], [], [NewSocket(client)], {listener});
    var server := new Server(listener, endian, GRACEFUL_MAX_PAYLOAD, GRACEFUL_SCRATCH_SIZE, kernel);
    var coordinator := new ShutdownCoordinator();
    var requests := new Requests([false, true]);
    g := new Graceful(server, coordinator, requests);
    AdmittedLate(listener, client);
    hide AdmissionsOf, SomeLate, Onward, UntilBlocked, ServedNext, HandlesOf;
    hide Server.Service, Server.Justified, Server.Valid;
    var r := g.HandleGated(Event(listener, READ));
    assert g.admitted == g.admitted[0..];
  }

  lemma AdmittedLate(listener: NativeSocket, client: NativeSocket)
    requires client != INVALID_SOCKET && client != listener
    ensures AdmissionsOf(Event(listener, READ), listener, Running, [false, true], [NewSocket(client)], {listener})
         == [Draining]
    ensures SomeLate([Draining])
  {
    assert [Draining][0] != Running;
    assert Rest([false, true]) == [true] && Rest([NewSocket(client)]) == [];
    assert Admissions([NewSocket(client)], {listener}) == 1;
    assert AdmissionPhases(Running, [true], 1) == [Draining];
  }

  datatype Outcome = CleanStop | DeadlinePassed | Crashed(why: AbortReason)

  /** A whole run on a listener that has just been bound. It ends cleanly exactly if it reached Stopped; then
      nobody is connected and nothing is registered. Otherwise the closing assertion fails: the loop was entered, every
      turn before the deadline has been taken, and the phase is still not Stopped. However it ends, the clients accepted
      are those that the kernel handed out, and every one was sent an exact prefix of what it had sent. */
  method RunServer(listener: NativeSocket, endian: Endian, kernel: Kernel, coordinator: ShutdownCoordinator,
                   requests: Requests, turns: seq<Turn>)
    returns (outcome: Outcome, server: Server, ghost batches: seq<Batch>)
    requires listener != INVALID_SOCKET && kernel.open == {listener}
    modifies kernel, coordinator, requests
    ensures outcome == CleanStop ==>
              && coordinator.phase == Stopped
              && server.slots == [] && server.poller.interest == map[] && kernel.open == {}
    ensures outcome == DeadlinePassed ==> coordinator.phase != Stopped && |batches| == |turns|
    ensures server.listener == listener && server.scratchSize == 4096
    ensures FullTurns(batches, turns, 32, server)
    ensures !outcome.Crashed? ==> server.log == AllServed(batches)
    ensures outcome.Crashed? ==> outcome.why == WaitBroken || server.Justified(outcome.why, old(kernel.Now()))
    ensures Blameless(old(kernel.Now())) && NoWaitFails(turns) && NobodyOversized(server) ==> !outcome.Crashed?
    ensures !outcome.Crashed? ==> Onward(old(kernel.Now()), kernel.Now())
    ensures server.kernel == kernel && server.cap == 4096
    ensures old(coordinator.phase) == Stopped ==> outcome == CleanStop
    ensures outcome == Crashed(WaitBroken) ==> |batches| < |turns| && turns[|batches|].selectFails
    ensures server.PrefixesSent() && kernel.handedOut == old(kernel.handedOut) + HandlesOf(server.accepted)
  {
    server := new Server(listener, endian, GRACEFUL_MAX_PAYLOAD, GRACEFUL_SCRATCH_SIZE, kernel);
    hide FullTurns, AllServed, HandlesOf, Server.Valid, Server.Justified, Onward;
    hide Blameless, NobodyOversized, NoWaitFails;
    var r, listenerUnregistered;
    r, listenerUnregistered, batches := RunLoop(server, coordinator, requests, turns);
    if r.Aborted? {
      if Blameless(old(kernel.Now())) && NobodyOversized(server) {
        NothingJustified(server, r.why, old(kernel.Now()));
      }
      return Crashed(r.why), server, batches;
    }
    if coordinator.phase != Stopped {
      return DeadlinePassed, server, batches;
    }
    ghost var at := kernel.Now();
    CloseDownStopped(server, listenerUnregistered);
    kernel.Close(listener);
    OnwardByClosing(old(kernel.Now()), at, kernel.Now());
    outcome := CleanStop;
  }

  /** The loop with its own state, unless the coordinator has been stopped before it starts. */
  method RunLoop(server: Server, coordinator: ShutdownCoordinator, requests: Requests, turns: seq<Turn>)
    returns (r: Progress, listenerUnregistered: bool, ghost batches: seq<Batch>)
    requires server.Valid() && server.listening && server.slots == [] && server.log == []
    modifies server, server.poller, server.kernel, coordinator, requests
    ensures FullTurns(batches, turns, GRACEFUL_EVENT_CAPACITY, server) && server.PrefixesSent()
    ensures r == Go ==>
              && server.Valid() && listenerUnregistered == !server.listening && server.log == AllServed(batches)
              && (if coordinator.phase == Stopped then server.slots == [] else |batches| == |turns|)
              && Onward(old(server.kernel.Now()), server.kernel.Now())
    ensures r.Aborted? ==> r.why == WaitBroken || server.Justified(r.why, old(server.kernel.Now()))
    ensures r == Aborted(WaitBroken) ==> |batches| < |turns| && turns[|batches|].selectFails
    ensures old(coordinator.phase) == Stopped ==> r == Go && coordinator.phase == Stopped
  {
    hide FullTurns, AllServed, IsGraceful, Server.Valid, Server.PrefixesSent, Server.Justified, Onward;
    NoTurnsYet(turns, GRACEFUL_EVENT_CAPACITY, server);
    OnwardItself(server.kernel.Now());
    if coordinator.ShouldPollNetwork() {
      var loop := new Graceful(server, coordinator, requests);
      ghost var trace;
      r, trace, batches := loop.Run(turns);
      listenerUnregistered := loop.listenerUnregistered;
    } else {
      server.ValidMeansPrefixesSent();
      r, listenerUnregistered, batches := Go, false, [];
    }
  }

  /** Nobody is left for the closing loop; the listener is left only if the coordinator had been stopped before. */
  method CloseDownStopped(server: Server, listenerUnregistered: bool)
    requires server.Valid() && server.slots == [] && listenerUnregistered == !server.listening
    modifies server`listening, server.poller
    ensures server.poller.interest == map[] && server.kernel.open == {server.listener} && server.PrefixesSent()
  {
    hide Server.Valid;
    if !listenerUnregistered {
      server.UnregisterListener();
    }
    server.NobodyRegistered();
    server.ValidMeansPrefixesSent();
  }
}
