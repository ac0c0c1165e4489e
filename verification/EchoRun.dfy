/** Whole runs of the end-to-end echo server. */
module EchoRun {
  import opened Codec
  import opened FrameStream
  import opened Connection
  import opened SocketIo
  import opened SelectPoller
  import opened EchoContract
  import opened EchoServer

  /** What Valid means for a live connection: its output so far and its pending output are the encoding of the
      frames received, what was sent is an exact prefix of what was received, nothing decodable is left, and the
      poller watches for writability exactly while a reply is waiting. */
  lemma BetweenEvents(server: Server, slot: ConnSlot)
    requires server.Valid() && slot in server.slots
    ensures var c, frames := slot.conn, ParseAll(slot.conn.received, server.cap).frames;
            && WithinCap(frames, server.cap)
            && c.sent + c.writeBuf == EncodeAll(frames, server.cap)
            && c.sent + c.writeBuf + c.readBuf == c.received && c.sent <= c.received
            && DecodeFrame(c.readBuf, server.cap).status == Incomplete
    ensures var c, interest := slot.conn, server.poller.interest;
            && c.handle in interest && interest[c.handle].read && !interest[c.handle].error
            && (interest[c.handle].write <==> slot.awaiting) && (slot.awaiting <==> c.writeBuf != [])
    ensures server.listening ==>
              server.listener in server.poller.interest
              && server.poller.interest[server.listener] == EventMask(true, false, false)
    ensures forall h :: h in server.poller.interest <==>
              (server.listening && h == server.listener) || (exists s :: s in server.slots && s.conn.handle == h)
  {
    assert server.Live(slot);
    hide Exact;
    var c := slot.conn;
    OutputRefinesInput(c.received, c.sent, c.writeBuf, c.readBuf, server.cap);
    InterestKeys(server);
  }

  lemma InterestKeys(server: Server)
    requires server.Valid()
    ensures forall h :: h in server.poller.interest <==>
              (server.listening && h == server.listener) || (exists s :: s in server.slots && s.conn.handle == h)
  {
    forall h
      ensures h in server.poller.interest <==> h in server.poller.interest.Keys
      ensures h in Handles(server.slots) <==> exists s :: s in server.slots && s.conn.handle == h
    {
    }
  }

  /** A batch as the poller writes it: no socket twice, and only sockets that were registered. */
  ghost predicate IsBatch(events: seq<Event>, interest: map<NativeSocket, EventMask>) {
    && (forall i, j :: 0 <= i < j < |events| ==> events[i].socket != events[j].socket)
    && (forall i :: 0 <= i < |events| ==> events[i].socket in interest)
  }

  /** The log tells, for each client event in order, how the connection that had the event's handle when the batch
      was polled was served in full. */
  ghost predicate Dispatched(events: seq<Event>, polled: seq<ConnSlot>, log: seq<Delivery>, server: Server) {
    if events == [] then log == []
    else
      var before, last := events[..|events| - 1], events[|events| - 1];
      if last.socket == server.listener then Dispatched(before, polled, log, server)
      else
        && log != [] && ServedNext(last, log[..|log| - 1], log, polled, server.scratchSize)
        && Dispatched(before, polled, log[..|log| - 1], server)
  }

  /** What the outside world does during one turn of the loop. */
  datatype Turn = Turn(stop: bool, ready: Readiness, selectFails: bool)

  /** One turn of the loop: what was reported, the interest and the connections it was polled from, and how its
      client events were served. */
  datatype Batch = Batch(events: seq<Event>, interest: map<NativeSocket, EventMask>,
                         polled: seq<ConnSlot>, served: seq<Delivery>)

  /** A turn in which waiting does not fail reports what is ready and serves everything it reports. */
  ghost predicate FullTurn(b: Batch, turn: Turn, capacity: nat, server: Server) {
    && !turn.selectFails
    && Reports(b.events, b.interest, turn.ready, capacity) && Dispatched(b.events, b.polled, b.served, server)
  }

  ghost predicate FullTurns(batches: seq<Batch>, turns: seq<Turn>, capacity: nat, server: Server) {
    |batches| <= |turns| && forall i :: 0 <= i < |batches| ==> FullTurn(batches[i], turns[i], capacity, server)
  }

  /** The loop takes no turn when told to stop with nobody connected. */
  ghost predicate EndsWhenTold(batches: seq<Batch>, turns: seq<Turn>) {
    |batches| <= |turns| && forall i :: 0 <= i < |batches| ==> !(turns[i].stop && batches[i].polled == [])
  }

  ghost function AllServed(batches: seq<Batch>): seq<Delivery> {
    if batches == [] then [] else AllServed(batches[..|batches| - 1]) + batches[|batches| - 1].served
  }

  lemma OneMoreTurn(batches: seq<Batch>, b: Batch, turns: seq<Turn>, capacity: nat, server: Server)
    requires FullTurns(batches, turns, capacity, server) && |batches| < |turns|
    requires FullTurn(b, turns[|batches|], capacity, server)
    ensures FullTurns(batches + [b], turns, capacity, server)
    ensures AllServed(batches + [b]) == AllServed(batches) + b.served
  {
    hide FullTurn;
    assert (batches + [b])[..|batches|] == batches;
  }

  /** Still to come in the batch: the connections that were polled are still there to be served. */
  ghost predicate Awaited(events: seq<Event>, from: nat, polled: seq<ConnSlot>, slots: seq<ConnSlot>) {
    forall s, k :: s in polled && from <= k < |events| && events[k].socket == s.conn.handle ==> s in slots
  }

  twostate predicate OnlyPolledOrNew(server: Server, polled: seq<ConnSlot>)
    reads server
  {
    forall s :: s in server.slots ==> s in polled || server.IsNew(s)
  }

  ghost predicate Within(slots: seq<ConnSlot>, polled: seq<ConnSlot>) {
    forall s :: s in slots ==> s in polled
  }

  lemma WithinItself(polled: seq<ConnSlot>)
    ensures Within(polled, polled)
  {
  }

  lemma WithinWithin(after: seq<ConnSlot>, slots: seq<ConnSlot>, polled: seq<ConnSlot>)
    ensures Within(after, slots) && Within(slots, polled) ==> Within(after, polled)
  {
  }

  lemma WhoHas(slots: seq<ConnSlot>, h: NativeSocket) returns (s: ConnSlot)
    requires h in Handles(slots)
    ensures s in slots && s.conn.handle == h
  {
    s :| s in slots && s.conn.handle == h;
  }

  lemma NextDispatched(events: seq<Event>, k: nat, polled: seq<ConnSlot>, slots: seq<ConnSlot>, log: seq<Delivery>,
                       served: seq<Delivery>, server: Server)
    requires k < |events| && Dispatched(events[..k], polled, log, server)
    requires Awaited(events, k, polled, slots) && Distinct(slots)
    requires events[k].socket == server.listener ==> served == log
    requires events[k].socket != server.listener ==>
               events[k].socket in Handles(polled) && ServedNext(events[k], log, served, slots, server.scratchSize)
    ensures Dispatched(events[..k + 1], polled, served, server)
  {
    hide Distinct, Handles, FullService;
    assert events[..k + 1][..k] == events[..k];
    if events[k].socket != server.listener {
      var p := WhoHas(polled, events[k].socket);
      SameHandle(slots, p, served[|log|].slot);
      assert served[..|log|] == log;
    }
  }

  /** What a batch adds to the log grows with it. */
  lemma ServedNextSince(ev: Event, base: seq<Delivery>, before: seq<Delivery>, after: seq<Delivery>,
                        slots: seq<ConnSlot>, scratchSize: nat)
    requires base <= before
    ensures before == after ==> base <= after && after[|base|..] == before[|base|..]
    ensures ServedNext(ev, before, after, slots, scratchSize) ==>
              base <= after && ServedNext(ev, before[|base|..], after[|base|..], slots, scratchSize)
  {
    hide FullService;
  }

  /** The polled connections with an event of their own still to come stay; so does the order of the log. */
  lemma AwaitedShrinks(events: seq<Event>, k: nat, polled: seq<ConnSlot>, slots: seq<ConnSlot>, after: seq<ConnSlot>)
    requires k < |events| && Awaited(events, k, polled, slots)
    requires forall i, j :: 0 <= i < j < |events| ==> events[i].socket != events[j].socket
    requires forall s :: s in slots && s.conn.handle != events[k].socket ==> s in after
    ensures Awaited(events, k + 1, polled, after)
  {
  }

  /** A batch names the listener and live connections only. */
  lemma BatchNames(server: Server, events: seq<Event>)
    requires server.Valid() && IsBatch(events, server.poller.interest)
    ensures forall k :: 0 <= k < |events| && events[k].socket != server.listener ==>
              events[k].socket in Handles(server.slots)
    ensures Awaited(events, 0, server.slots, server.slots)
    ensures Dispatched([], server.slots, [], server)
  {
  }

  lemma HandlesAreDistinct(server: Server)
    requires server.Valid()
    ensures Distinct(server.slots)
  {
  }

  lemma StillThere(events: seq<Event>, k: nat, polled: seq<ConnSlot>, slots: seq<ConnSlot>)
    requires k < |events| && Awaited(events, k, polled, slots)
    ensures events[k].socket in Handles(polled) ==> events[k].socket in Handles(slots)
  {
  }

  /** The next event of a batch is served in full by the connection that was polled. */
  method HandleNext(server: Server, ev: Event, ghost batch: seq<Event>, ghost k: nat, ghost polled: seq<ConnSlot>,
                    ghost before: seq<Delivery>)
    returns (r: Progress)
    requires server.Valid() && before <= server.log && k < |batch| && batch[k] == ev
    requires forall i, j :: 0 <= i < j < |batch| ==> batch[i].socket != batch[j].socket
    requires ev.socket != server.listener ==> ev.socket in Handles(polled)
    requires Awaited(batch, k, polled, server.slots)
    requires Dispatched(batch[..k], polled, server.log[|before|..], server)
    modifies server`slots, server`completions, server`accepted, server`retired, server`log, server.poller, server.kernel
    modifies With(server.slots, ev.socket)
    ensures r == Go ==>
              && server.Valid() && before <= server.log
              && Awaited(batch, k + 1, polled, server.slots)
              && Dispatched(batch[..k + 1], polled, server.log[|before|..], server)
              && Onward(old(server.kernel.Now()), server.kernel.Now())
    ensures r.Aborted? ==> server.Justified(r.why, old(server.kernel.Now())) && server.PrefixesSent()
    ensures OnlyPolledOrNew(server, old(server.slots))
  {
    hide Server.Valid, Server.PrefixesSent, Server.Service, Server.Justified, UntilBlocked, Onward;
    hide Dispatched, Awaited, Handles, Distinct, ServedNext;
    ghost var slots, log := server.slots, server.log;
    HandlesAreDistinct(server);
    StillThere(batch, k, polled, slots);
    r := server.HandleEvent(ev);
    if r == Go {
      AwaitedShrinks(batch, k, polled, slots, server.slots);
      ServedNextSince(ev, before, log, server.log, slots, server.scratchSize);
      NextDispatched(batch, k, polled, slots, log[|before|..], server.log[|before|..], server);
    }
  }

  /** No stale events: every client event of a batch reaches exactly the connection that was polled, even if a
      handle is closed and accepted again while the batch is being handled. */
  method HandleBatch(server: Server, events: array<Event>, count: nat) returns (r: Progress)
    requires server.Valid() && count <= events.Length && IsBatch(events[..count], server.poller.interest)
    modifies server`slots, server`completions, server`accepted, server`retired, server`log, server.poller, server.kernel
    modifies Objects(server.slots)
    ensures r == Go ==>
              && server.Valid() && old(server.log) <= server.log
              && Dispatched(events[..count], old(server.slots), server.log[|old(server.log)|..], server)
    ensures r == Go ==> Onward(old(server.kernel.Now()), server.kernel.Now())
    ensures r.Aborted? ==> server.Justified(r.why, old(server.kernel.Now())) && server.PrefixesSent()
    ensures OnlyPolledOrNew(server, old(server.slots))
  {
    hide Server.Valid, Server.PrefixesSent, Server.Service, Server.Justified, UntilBlocked, Onward;
    OnwardItself(server.kernel.Now());
    hide Dispatched, Awaited, Handles, Distinct, ServedNext;
    ghost var polled, before, batch := server.slots, server.log, events[..count];
    BatchNames(server, batch);
    assert batch[..0] == [] && server.log[|before|..] == [];
    var ei := 0;
    while ei < count
      invariant ei <= count && server.Valid() && before <= server.log
      invariant Onward(old(server.kernel.Now()), server.kernel.Now())
      invariant OnlyPolledOrNew(server, polled)
      invariant Awaited(batch, ei, polled, server.slots)
      invariant Dispatched(batch[..ei], polled, server.log[|before|..], server)
    {
      ghost var at := server.kernel.Now();
      r := HandleNext(server, events[ei], batch, ei, polled, before);
      server.JustifiedSince(old(server.kernel.Now()), at);
      if r.Aborted? {
        return;
      }
      OnwardThenOnward(old(server.kernel.Now()), at, server.kernel.Now());
      ei := ei + 1;
    }
    assert batch[..count] == batch;
    r := Go;
  }

  /** One turn: wait, then handle what was reported. */
  method RunTurn(server: Server, events: array<Event>, turn: Turn) returns (r: Progress, ghost batch: Batch)
    requires server.Valid() && events.Length > 0
    modifies server`slots, server`completions, server`accepted, server`retired, server`log, server.poller, server.kernel
    modifies Objects(server.slots), events
    ensures r == Go ==>
              && server.Valid() && server.log == old(server.log) + batch.served && batch.polled == old(server.slots)
              && FullTurn(batch, turn, events.Length, server)
    ensures r == Go ==> Onward(old(server.kernel.Now()), server.kernel.Now())
    ensures r.Aborted? ==> r.why == WaitBroken || server.Justified(r.why, old(server.kernel.Now()))
    ensures r.Aborted? ==> server.PrefixesSent()
    ensures r == Aborted(WaitBroken) <==> turn.selectFails
    ensures OnlyPolledOrNew(server, old(server.slots))
  {
    hide Server.Valid, Server.PrefixesSent, Dispatched, Reports, IsBatch, Onward, RecvFault, SendFault, AcceptFault;
    batch := Batch([], map[], server.slots, []);
    var n := Poll(server, events, turn);
    if n == PollError {
      server.ValidMeansPrefixesSent();
      return Aborted(WaitBroken), batch;
    }
    batch := batch.(events := events[..n.count], interest := server.poller.interest);
    r := HandleBatch(server, events, n.count);
    if r == Go {
      batch := batch.(served := server.log[|old(server.log)|..]);
    }
  }

  /** The loop, one turn for every time the deadline has not passed yet. Valid after any number of turns is the
      invariant of every reachable state between turns; every turn serves everything that was reported. */
  method RunTurns(server: Server, turns: seq<Turn>) returns (r: Progress, ghost batches: seq<Batch>)
    requires server.Valid()
    modifies server`slots, server`completions, server`accepted, server`retired, server`log, server.poller, server.kernel
    modifies Objects(server.slots)
    ensures FullTurns(batches, turns, EVENT_CAPACITY, server)
    ensures r == Go ==>
              && server.Valid() && server.log == old(server.log) + AllServed(batches)
              && (|batches| < |turns| ==> turns[|batches|].stop && server.slots == [])
    ensures EndsWhenTold(batches, turns)
    ensures r == Go ==> Onward(old(server.kernel.Now()), server.kernel.Now())
    ensures r.Aborted? ==> r.why == WaitBroken || server.Justified(r.why, old(server.kernel.Now()))
    ensures server.PrefixesSent()
    ensures r == Aborted(WaitBroken) ==> |batches| < |turns| && turns[|batches|].selectFails
    ensures OnlyPolledOrNew(server, old(server.slots))
  {
    hide Server.Valid, Server.PrefixesSent, Server.Justified, FullTurn, FullTurns, AllServed, Onward;
    OnwardItself(server.kernel.Now());
    var events := new Event[EVENT_CAPACITY](_ => Event(INVALID_SOCKET, NONE));
    var i := 0;
    batches := [];
    NoTurnsYet(turns, EVENT_CAPACITY, server);
    while i < |turns|
      invariant |batches| == i <= |turns| && server.Valid() && OnlyPolledOrNew(server, old(server.slots))
      invariant FullTurns(batches, turns, EVENT_CAPACITY, server)
      invariant server.log == old(server.log) + AllServed(batches)
      invariant EndsWhenTold(batches, turns)
      invariant Onward(old(server.kernel.Now()), server.kernel.Now())
    {
      if turns[i].stop && server.slots == [] {
        break;
      }
      ghost var batch, at := *, server.kernel.Now();
      r, batch := RunTurn(server, events, turns[i]);
      server.JustifiedSince(old(server.kernel.Now()), at);
      if r.Aborted? {
        return;
      }
      OnwardThenOnward(old(server.kernel.Now()), at, server.kernel.Now());
      OneMoreTurn(batches, batch, turns, EVENT_CAPACITY, server);
      batches := batches + [batch];
      i := i + 1;
    }
    server.ValidMeansPrefixesSent();
    r := Go;
  }

  lemma NoTurnsYet(turns: seq<Turn>, capacity: nat, server: Server)
    ensures FullTurns([], turns, capacity, server) && AllServed([]) == []
  {
  }

  /** Waiting leaves the server as it was, and what it reports is a batch. */
  method Poll(server: Server, events: array<Event>, turn: Turn) returns (n: PollResult)
    requires server.Valid()
    modifies events
    ensures server.Valid()
    ensures n == PollError <==> events.Length == 0 || turn.selectFails
    ensures n.Ready? ==> n.count <= events.Length
    ensures n.Ready? ==> Reports(events[..n.count], server.poller.interest, turn.ready, events.Length)
    ensures n.Ready? ==> IsBatch(events[..n.count], server.poller.interest)
  {
    hide Server.Bookkeeping, Server.Live, Server.RetiredExact;
    n := server.poller.Wait(events, turn.ready, turn.selectFails);
  }

  /** A whole run on a listener that has just been bound: when it ends, nothing is registered or open. However it
      ends, the clients it accepted are those that the kernel handed out, and every one of them was sent an exact prefix
      of what it had sent. */
  method RunServer(listener: NativeSocket, endian: Endian, kernel: Kernel, turns: seq<Turn>)
    returns (r: Progress, server: Server, ghost batches: seq<Batch>)
    requires listener != INVALID_SOCKET && kernel.open == {listener}
    modifies kernel
    ensures r == Go ==>
              && server.slots == [] && server.poller.interest == map[] && kernel.open == {}
              && Onward(old(kernel.Now()), kernel.Now())
              && (|batches| < |turns| ==> turns[|batches|].stop)
    ensures r.Aborted? ==> r.why == WaitBroken || server.Justified(r.why, old(kernel.Now()))
    ensures Blameless(old(kernel.Now())) && NoWaitFails(turns) && NobodyOversized(server) ==> r == Go
    ensures EndsWhenTold(batches, turns)
    ensures server.kernel == kernel
    ensures server.listener == listener && server.cap == 0x10_0000 && server.scratchSize == 16384
    ensures FullTurns(batches, turns, 64, server)
    ensures r == Go ==> server.log == AllServed(batches)
    ensures r == Aborted(WaitBroken) ==> |batches| < |turns| && turns[|batches|].selectFails
    ensures server.PrefixesSent() && kernel.handedOut == old(kernel.handedOut) + HandlesOf(server.accepted)
  {
    server := new Server(listener, endian, MAX_PAYLOAD, SCRATCH_SIZE, kernel);
    hide Server.Justified, Server.Valid, Onward, FullTurns, AllServed, EndsWhenTold, HandlesOf;
    hide Blameless, NobodyOversized, NoWaitFails;
    r, batches := RunTurns(server, turns);
    if r.Aborted? {
      if Blameless(old(kernel.Now())) && NobodyOversized(server) {
        NothingJustified(server, r.why, old(kernel.Now()));
      }
      return;
    }
    ghost var at := kernel.Now();
    CloseDown(server);
    OnwardByClosing(old(kernel.Now()), at, kernel.Now());
  }

  /** Nobody has announced a frame beyond the cap. */
  ghost predicate NobodyOversized(server: Server)
    reads server`accepted, server.accepted
  {
    forall c :: c in server.accepted ==> !ParseAll(c.received, server.cap).oversized
  }

  predicate NoWaitFails(turns: seq<Turn>) {
    forall i :: 0 <= i < |turns| ==> !turns[i].selectFails
  }

  lemma NothingJustified(server: Server, why: AbortReason, since: KernelState)
    requires Blameless(since) && NobodyOversized(server)
    ensures !server.Justified(why, since)
  {
    BlamelessHasNoFaults(since, server.kernel.Now());
    hide Blameless, RecvFault, SendFault, AcceptFault, ParseAll;
  }

  method CloseDown(server: Server)
    requires server.Valid()
    modifies server`slots, server`retired, server`listening, server.poller, server.kernel`open
    ensures server.slots == [] && server.poller.interest == map[] && server.PrefixesSent()
    ensures server.kernel.Now() == old(server.kernel.Now()).(open := {})
  {
    hide Server.Valid;
    while server.slots != []
      invariant server.Valid()
      decreases |server.slots|
    {
      server.DropLast();
    }
    server.UnregisterListener();
    server.NobodyRegistered();
    server.ValidMeansPrefixesSent();
    server.kernel.Close(server.listener);
  }
}
