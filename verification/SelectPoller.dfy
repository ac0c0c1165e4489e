/** The select-based poller: an interest map edited in place, and a wait that reports ready sockets. */
module SelectPoller {
  import opened Connection

  datatype EventMask = EventMask(read: bool, write: bool, error: bool)

  const NONE := EventMask(false, false, false)
  const READ := EventMask(true, false, false)
  const READ_WRITE := EventMask(true, true, false)

  datatype Event = Event(socket: NativeSocket, mask: EventMask)

  /** The sockets that are readable, writable and exceptional in the kernel's eyes. */
  datatype Readiness = Readiness(read: set<NativeSocket>, write: set<NativeSocket>, error: set<NativeSocket>)

  datatype PollResult = Ready(count: nat) | PollError

  /** select only clears bits, so an event is reported only where interest was registered. */
  function Fired(interest: map<NativeSocket, EventMask>, ready: Readiness, socket: NativeSocket): EventMask {
    if socket !in interest then NONE
    else
      var m := interest[socket];
      EventMask(m.read && socket in ready.read, m.write && socket in ready.write, m.error && socket in ready.error)
  }

  lemma FiredIsReported(events: seq<Event>, interest: map<NativeSocket, EventMask>, ready: Readiness, capacity: nat)
    requires |events| <= capacity
    requires forall i, j :: 0 <= i < j < |events| ==> events[i].socket != events[j].socket
    requires forall k :: 0 <= k < |events| ==>
               && events[k].socket in interest && events[k].mask == Fired(interest, ready, events[k].socket)
               && events[k].mask != NONE
    requires |events| < capacity ==> forall s :: s in interest && Fired(interest, ready, s) != NONE ==>
               exists k :: 0 <= k < |events| && events[k].socket == s
    ensures Reports(events, interest, ready, capacity)
  {
    if |events| < capacity {
      forall s | s in interest && Fired(interest, ready, s) != NONE
        ensures exists k :: 0 <= k < |events| && events[k].socket == s
      {
      }
    }
  }

  /** The report is right, bit by bit: no socket twice, only registered sockets, for each exactly the registered bits
      that are ready, at least one of them, and everything with such a bit unless the span is full. */
  ghost predicate Reports(events: seq<Event>, interest: map<NativeSocket, EventMask>, ready: Readiness, capacity: nat) {
    && |events| <= capacity
    && (forall i, j :: 0 <= i < j < |events| ==> events[i].socket != events[j].socket)
    && (forall k :: 0 <= k < |events| ==>
          var s, m := events[k].socket, events[k].mask;
          && s in interest && (m.read || m.write || m.error)
          && (m.read <==> interest[s].read && s in ready.read)
          && (m.write <==> interest[s].write && s in ready.write)
          && (m.error <==> interest[s].error && s in ready.error))
    && (|events| < capacity ==>
          forall s :: && s in interest
                      && ((interest[s].read && s in ready.read) || (interest[s].write && s in ready.write)
                          || (interest[s].error && s in ready.error)) ==>
                        exists k :: 0 <= k < |events| && events[k].socket == s)
  }

  class SelectPoller {
    var interest: map<NativeSocket, EventMask>

    constructor ()
      ensures interest == map[]
    {
      interest := map[];
    }

    method Upsert(socket: NativeSocket, mask: EventMask) returns (ok: bool)
      modifies this
      ensures ok <==> socket != INVALID_SOCKET
      ensures interest == if ok then old(interest)[socket := mask] else old(interest)
    {
      if socket == INVALID_SOCKET {
        return false;
      }
      interest := interest[socket := mask];
      ok := true;
    }

    method Erase(socket: NativeSocket)
      modifies this
      ensures interest == old(interest) - {socket}
    {
      interest := interest - {socket};
    }

    /** The registered sockets that have a bit in `mask`'s position: the loop that fills the fd sets. */
    method FillSets() returns (r: set<NativeSocket>, w: set<NativeSocket>, e: set<NativeSocket>)
      ensures forall s :: s in r <==> s in interest && interest[s].read
      ensures forall s :: s in w <==> s in interest && interest[s].write
      ensures forall s :: s in e <==> s in interest && interest[s].error
    {
      r, w, e := {}, {}, {};
      var todo := interest.Keys;
      while todo != {}
        invariant todo <= interest.Keys
        invariant forall s :: s in r <==> s in interest && s !in todo && interest[s].read
        invariant forall s :: s in w <==> s in interest && s !in todo && interest[s].write
        invariant forall s :: s in e <==> s in interest && s !in todo && interest[s].error
        decreases todo
      {
        var s :| s in todo;
        todo := todo - {s};
        if interest[s].read { r := r + {s}; }
        if interest[s].write { w := w + {s}; }
        if interest[s].error { e := e + {s}; }
      }
    }

    /** Writes at most out.Length events, walking the map in any order. Each socket is listed at most once,
        with exactly the bits that fired, and nothing that fired is missing unless the span is full. */
    method Wait(out: array<Event>, ready: Readiness, selectFails: bool) returns (r: PollResult)
      modifies out
      ensures r == PollError <==> out.Length == 0 || selectFails
      ensures r.Ready? ==> r.count <= out.Length && Reports(out[..r.count], interest, ready, out.Length)
    {
      if out.Length == 0 {
        return PollError;
      }
      var readfds, writefds, exceptfds := FillSets();
      if selectFails {
        return PollError;
      }
      readfds, writefds, exceptfds := readfds * ready.read, writefds * ready.write, exceptfds * ready.error;
      assert forall s :: s in interest ==>
               Fired(interest, ready, s) == EventMask(s in readfds, s in writefds, s in exceptfds);
      if readfds == {} && writefds == {} && exceptfds == {} {
        FiredIsReported([], interest, ready, out.Length);
        return Ready(0);
      }
      var written := WriteFired(out, ready, readfds, writefds, exceptfds);
      FiredIsReported(out[..written], interest, ready, out.Length);
      r := Ready(written);
    }

    /** The loop of wait that turns the three sets, as select has left them, into events. */
    method WriteFired(out: array<Event>, ghost ready: Readiness, readfds: set<NativeSocket>,
                      writefds: set<NativeSocket>, exceptfds: set<NativeSocket>)
      returns (written: nat)
      requires forall s :: s in interest ==>
                 Fired(interest, ready, s) == EventMask(s in readfds, s in writefds, s in exceptfds)
      modifies out
      ensures written <= out.Length
      ensures forall k :: 0 <= k < written ==>
                out[k].socket in interest && out[k].mask == Fired(interest, ready, out[k].socket) && out[k].mask != NONE
      ensures forall i, j :: 0 <= i < j < written ==> out[i].socket != out[j].socket
      ensures written < out.Length ==> forall s :: s in interest && Fired(interest, ready, s) != NONE ==>
                exists k :: 0 <= k < written && out[k].socket == s
    {
      hide Fired;
      written := 0;
      ghost var position: map<NativeSocket, nat> := map[];
      var todo := interest.Keys;
      while todo != {} && written < out.Length
        invariant todo <= interest.Keys && written <= out.Length
        invariant forall k :: 0 <= k < written ==>
                    && out[k].socket in interest && out[k].socket !in todo
                    && out[k].mask == Fired(interest, ready, out[k].socket) && out[k].mask != NONE
        invariant forall i, j :: 0 <= i < j < written ==> out[i].socket != out[j].socket
        invariant forall s :: s in position ==> position[s] < written && out[position[s]].socket == s
        invariant forall s :: s in interest && s !in todo && Fired(interest, ready, s) != NONE ==> s in position
        decreases todo
      {
        var s :| s in todo;
        todo := todo - {s};
        var fired := EventMask(s in readfds, s in writefds, s in exceptfds);
        if fired != NONE {
          position := position[s := written];
          out[written] := Event(s, fired);
          written := written + 1;
        }
      }
    }
  }
}
