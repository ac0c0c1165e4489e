/** The echo event loop: accept, receive, decode, dispatch, encode and send, over any kernel behaviour. */
module EchoServer {
  import opened Codec
  import opened FrameStream
  import opened Connection
  import opened SocketIo
  import opened SelectPoller
  import opened EchoContract

  /** The end-to-end server's settings. */
  const MAX_PAYLOAD: nat := 0x10_0000
  const SCRATCH_SIZE: nat := 16384
  const EVENT_CAPACITY: nat := 64

  datatype DispatchResult = Reply(payload: seq<byte>) | DispatchError

  function EchoDispatch(request: seq<byte>): DispatchResult {
    Reply(request)
  }

  /** Where the program calls abort. */
  datatype AbortReason =
    | RecvBroken | SendBroken | AcceptBroken | WaitBroken
    | OversizedFrame | DispatchBroken | EncodeBroken

  datatype Progress = Go | Aborted(why: AbortReason)

  datatype ReadStep = More | Blocked | Hangup | Broken(why: AbortReason)

  datatype ReadOutcome = ReadOk | PeerGone | ReadAborted(why: AbortReason)

  class ConnSlot {
    const conn: Connection
    var awaiting: bool

    constructor (conn: Connection)
      ensures this.conn == conn && !awaiting
    {
      this.conn := conn;
      awaiting := false;
    }
  }

  // ---------------------------------------------------------------- slots

  ghost function Handles(slots: seq<ConnSlot>): set<NativeSocket> {
    set s | s in slots :: s.conn.handle
  }

  ghost predicate Distinct(slots: seq<ConnSlot>) {
    forall i, j :: 0 <= i < j < |slots| ==> slots[i].conn.handle != slots[j].conn.handle
  }

  ghost function Conns(slots: seq<ConnSlot>): set<Connection> {
    set s | s in slots :: s.conn
  }

  ghost function Objects(slots: seq<ConnSlot>): set<object> {
    (set s: ConnSlot | s in slots :: s as object) + (set s: ConnSlot | s in slots :: s.conn as object)
  }

  /** The slots with handle h, and their connections. */
  ghost function With(slots: seq<ConnSlot>, h: NativeSocket): set<object> {
    (set s: ConnSlot | s in slots && s.conn.handle == h :: s as object)
    + (set s: ConnSlot | s in slots && s.conn.handle == h :: s.conn as object)
  }

  ghost function HandlesOf(conns: seq<Connection>): seq<NativeSocket> {
    seq(|conns|, i requires 0 <= i < |conns| => conns[i].handle)
  }

  // ---------------------------------------------------------------- how a client event was served

  /** A client event that was served: its slot and mask; the kernel's answers before and after; what the connection had
      received before and after; and afterwards whether the slot is still there and what it has left to send. */
  datatype Delivery = Delivery(slot: ConnSlot, mask: EventMask,
                               recvs: seq<RecvOutcome>, recvsLeft: seq<RecvOutcome>,
                               sends: seq<SendOutcome>, sendsLeft: seq<SendOutcome>,
                               received: seq<byte>, receivedAfter: seq<byte>, kept: bool, unsent: seq<byte>)

  /** Everything the kernel delivered meanwhile arrived on this connection. A readable connection was read until it
      would block, or was removed because its peer hung up, and nothing but interrupts and chunks came before; one that
      was not readable was not read. A writable one that is still there has nothing left to send or would block. */
  ghost predicate FullService(d: Delivery, scratchSize: nat) {
    && Remains(d.recvs, d.recvsLeft)
    && d.receivedAfter == d.received + Delivered(Used(d.recvs, d.recvsLeft), scratchSize)
    && (!d.kept ==> d.mask.read && UpTo(d.recvs, d.recvsLeft, ReadsOn, Bytes([])))
    && (d.kept && d.mask.read ==> UntilBlocked(d.recvs, d.recvsLeft, ReadsOn, RecvWouldBlock))
    && (!d.mask.read ==> d.recvsLeft == d.recvs)
    && (d.kept && d.mask.write ==> d.unsent == [] || UntilBlocked(d.sends, d.sendsLeft, SendWorks, SendWouldBlock))
  }

  /** The log has grown by the full service of the event to the connection that had its handle. */
  ghost predicate ServedNext(ev: Event, before: seq<Delivery>, after: seq<Delivery>, slots: seq<ConnSlot>,
                             scratchSize: nat) {
    && |after| == |before| + 1 && before <= after
    && var d := after[|before|];
       && d.slot in slots && d.slot.conn.handle == ev.socket && d.mask == ev.mask && FullService(d, scratchSize)
  }

  // ---------------------------------------------------------------- what holds of one connection

  ghost predicate Echoing(c: Connection, cap: nat)
    reads c
  {
    InProgress(c.received, c.sent, c.writeBuf, c.readBuf, cap)
  }

  ghost predicate Echoed(c: Connection, cap: nat)
    reads c
  {
    Exact(c.received, c.sent, c.writeBuf, c.readBuf, cap)
  }

  function InterestFor(writeBuf: seq<byte>): EventMask {
    if writeBuf == [] then READ else READ_WRITE
  }

  /** Write interest, the awaiting flag and a non-empty write buffer are the same thing. */
  ghost predicate Booked(slot: ConnSlot, interest: map<NativeSocket, EventMask>)
    reads slot, slot.conn
  {
    && slot.conn.handle in interest
    && interest[slot.conn.handle] == InterestFor(slot.conn.writeBuf)
    && (slot.awaiting <==> slot.conn.writeBuf != [])
  }

  class Server {
    const listener: NativeSocket
    const endian: Endian
    const cap: nat
    const scratchSize: nat
    const poller: SelectPoller
    const kernel: Kernel
    var slots: seq<ConnSlot>
    var completions: nat
    ghost var listening: bool
    /** All connections ever accepted, in order; those that have been closed; the client events served, in order; and
        the clients that the kernel had handed out before. */
    ghost var accepted: seq<Connection>
    ghost var retired: set<Connection>
    ghost var log: seq<Delivery>
    ghost const earlier: seq<NativeSocket>

    /** Poller and descriptor table name exactly the listener and the live connections, all different. */
    ghost predicate Bookkeeping()
      reads this`slots, this`listening, this`accepted, this`retired, poller, kernel`open, kernel`handedOut
    {
      && scratchSize > 0 && listener != INVALID_SOCKET
      && Distinct(slots) && listener !in Handles(slots) && INVALID_SOCKET !in Handles(slots)
      && kernel.open == Handles(slots) + {listener}
      && poller.interest.Keys == Handles(slots) + (if listening then {listener} else {})
      && (listening ==> poller.interest[listener] == READ)
      && (set c | c in accepted) == Conns(slots) + retired && Conns(slots) !! retired
      && EveryClientAccepted()
    }

    /** The connections accepted are the clients that the kernel has handed out since the server started. */
    ghost predicate EveryClientAccepted()
      reads this`accepted, kernel`handedOut
    {
      kernel.handedOut == earlier + HandlesOf(accepted)
    }

    /** Why the program gives up, going by what the kernel has answered since then: a call has just failed that is not
        to fail, or a peer has announced a frame beyond the cap. */
    ghost predicate Justified(why: AbortReason, since: KernelState)
      reads kernel, this`accepted, accepted
    {
      match why
      case RecvBroken => RecvFault(since, kernel.Now())
      case SendBroken => SendFault(since, kernel.Now())
      case AcceptBroken => AcceptFault(since, kernel.Now())
      case OversizedFrame => exists c :: c in accepted && ParseAll(c.received, cap).oversized
      case _ => false
    }

    lemma JustifiedSince(since: KernelState, at: KernelState)
      requires Onward(since, at)
      ensures forall why :: Justified(why, at) ==> Justified(why, since)
    {
      OnwardThenFault(since, at, kernel.Now());
    }

    ghost predicate Live(slot: ConnSlot)
      reads poller, slot, slot.conn
    {
      Echoed(slot.conn, cap) && Booked(slot, poller.interest)
    }

    /** A closed connection may have lost the end of its output, but what it sent was right. */
    ghost predicate RetiredExact()
      reads this`retired, retired
    {
      forall c :: c in retired ==> c.sent <= c.received
    }

    ghost predicate Valid()
      reads this`slots, this`listening, this`accepted, this`retired, poller, kernel`open, kernel`handedOut
      reads Objects(slots), retired
    {
      && Bookkeeping() && RetiredExact()
      && forall s :: s in slots ==> Live(s)
    }

    lemma ValidIsDistinct()
      requires Valid()
      ensures Distinct(slots)
    {
    }

    /** Whatever happened to it, every client that the kernel has handed out since the server started has been sent
        an exact prefix of its input. */
    ghost predicate PrefixesSent()
      reads this`accepted, accepted, kernel`handedOut
    {
      EveryClientAccepted() && forall c :: c in accepted ==> c.sent <= c.received
    }

    lemma ValidMeansPrefixesSent()
      requires Valid()
      ensures PrefixesSent()
    {
      hide Exact;
      forall c | c in accepted
        ensures c.sent <= c.received
      {
        if s :| s in slots && s.conn == c {
          assert Live(s);
          OutputRefinesInput(c.received, c.sent, c.writeBuf, c.readBuf, cap);
        }
      }
    }

    /** A bound listener has been registered for reading, and nobody is connected. */
    constructor (listener: NativeSocket, endian: Endian, cap: nat, scratchSize: nat, kernel: Kernel)
      requires listener != INVALID_SOCKET && scratchSize > 0 && kernel.open == {listener}
      ensures Valid() && listening && slots == [] && completions == 0 && accepted == [] && log == []
      ensures this.listener == listener && this.cap == cap && this.kernel == kernel && this.scratchSize == scratchSize
      ensures fresh(poller) && earlier == kernel.handedOut
    {
      this.listener, this.endian, this.cap, this.scratchSize := listener, endian, cap, scratchSize;
      this.kernel := kernel;
      poller := new SelectPoller();
      slots, completions, listening, accepted, retired, log := [], 0, true, [], {}, [];
      earlier := kernel.handedOut;
      new;
      var _ := poller.Upsert(listener, READ);
    }

    /** The index of the first slot with handle h, or |slots| for the source's npos. */
    method FindSlotIndex(h: NativeSocket) returns (i: nat)
      requires Valid()
      ensures Valid() && Distinct(slots) && i <= |slots|
      ensures i < |slots| ==> slots[i].conn.handle == h
      ensures forall j :: 0 <= j < i ==> slots[j].conn.handle != h
      ensures i == |slots| <==> h !in Handles(slots)
    {
      ValidIsDistinct();
      hide Valid, Distinct;
      i := 0;
      while i < |slots|
        invariant i <= |slots|
        invariant forall j :: 0 <= j < i ==> slots[j].conn.handle != h
      {
        if slots[i].conn.handle == h {
          return;
        }
        i := i + 1;
      }
    }

    method TryFlushWrites(slot: ConnSlot) returns (r: Progress)
      requires slot.conn.handle != INVALID_SOCKET
      modifies slot`awaiting, slot.conn`writeBuf, slot.conn`sent, poller, kernel`sends, this`completions
      ensures var c := slot.conn;
              && SentOn(old(c.sent), old(c.writeBuf), c.sent, c.writeBuf, old(kernel.sends), kernel.sends)
              && c.sent + c.writeBuf == old(c.sent + c.writeBuf) && old(c.sent) <= c.sent
      ensures Remains(old(kernel.sends), kernel.sends)
      ensures r.Aborted? ==>
                && r.why == SendBroken && SendFails(old(kernel.sends), kernel.sends, SendsOn)
                && poller.interest == old(poller.interest) && completions == old(completions)
      ensures r == Go ==>
                && poller.interest == old(poller.interest)[slot.conn.handle := InterestFor(slot.conn.writeBuf)]
                && (if slot.conn.writeBuf == [] then AllUsed(old(kernel.sends), kernel.sends, SendsOn)
                    else UntilBlocked(old(kernel.sends), kernel.sends, SendsOn, SendWouldBlock))
                && slot.awaiting == (old(slot.awaiting) && slot.conn.writeBuf != [])
                && completions == old(completions) + (if old(slot.awaiting) && slot.conn.writeBuf == [] then 1 else 0)
    {
      hide SentOn, Skipping, UntilBlocked, UpTo, AllUsed, Remains;
      var conn := slot.conn;
      NothingUsed(kernel.sends, SendsOn);
      NothingSent(conn.sent, conn.writeBuf, kernel.sends);
      while true
        invariant SentOn(old(conn.sent), old(conn.writeBuf), conn.sent, conn.writeBuf, old(kernel.sends), kernel.sends)
        invariant AllUsed(old(kernel.sends), kernel.sends, SendsOn)
        invariant poller.interest == old(poller.interest) && slot.awaiting == old(slot.awaiting)
        invariant completions == old(completions)
        decreases |conn.writeBuf|
      {
        ghost var sends, before, pending := kernel.sends, conn.sent, conn.writeBuf;
        SentOnKeepsBytes(old(conn.sent), old(conn.writeBuf), before, pending, old(kernel.sends), sends);
        var sent := FlushWriteNonblocking(conn, kernel);
        SentOnThenOn(old(conn.sent), old(conn.writeBuf), before, pending, conn.sent, conn.writeBuf,
                     old(kernel.sends), sends, kernel.sends);
        SentOnKeepsBytes(old(conn.sent), old(conn.writeBuf), conn.sent, conn.writeBuf, old(kernel.sends), kernel.sends);
        GoesOnMore(sends, kernel.sends, IsSendInterrupt, SendsOn);
        ThenFurther(old(kernel.sends), sends, kernel.sends, SendsOn);
        if sent.SendError? {
          if sent.code == WouldBlockOnSend {
            var _ := poller.Upsert(conn.handle, READ_WRITE);
            return Go;
          }
          return Aborted(SendBroken);
        }
        if sent.count == 0 {
          break;
        }
      }
      if conn.writeBuf == [] {
        if slot.awaiting {
          slot.awaiting := false;
          completions := completions + 1;
        }
        var _ := poller.Upsert(conn.handle, READ);
      } else {
        // The loop only ends with an empty buffer, so the source's last upsert is never reached.
        assert false;
      }
      r := Go;
    }

    /** Dispatches one decoded frame, encodes the reply and tries to send. */
    method EchoOne(slot: ConnSlot, dec: FrameDecodeResult) returns (r: Progress)
      requires slot.conn.handle != INVALID_SOCKET
      requires Echoing(slot.conn, cap)
      requires dec == DecodeFrame(slot.conn.readBuf, cap) && dec.status == Complete
      modifies slot`awaiting, slot.conn`readBuf, slot.conn`writeBuf, slot.conn`sent
      modifies poller, kernel`sends, this`completions
      ensures Echoing(slot.conn, cap) && slot.conn.readBuf == old(slot.conn.readBuf)[dec.consumedBytes..]
      ensures dec.consumedBytes > 0
      ensures r == Go ==>
                && Booked(slot, poller.interest)
                && poller.interest == old(poller.interest)[slot.conn.handle := InterestFor(slot.conn.writeBuf)]
      ensures r == Go ==> AllUsed(old(kernel.sends), kernel.sends, SendWorks)
      ensures r.Aborted? ==> r.why == SendBroken && SendFails(old(kernel.sends), kernel.sends, SendWorks)
      ensures r == Go ==> completions == old(completions) + if slot.conn.writeBuf == [] then 1 else 0
      ensures old(completions) <= completions
      ensures completions + |ParseAll(slot.conn.readBuf, cap).frames|
           <= old(completions) + old(|ParseAll(slot.conn.readBuf, cap).frames|)
      ensures Remains(old(kernel.sends), kernel.sends)
    {
      hide ParseAll, DecodeFrame, Encode, Remains, UpTo, UntilBlocked, AllUsed;
      var conn := slot.conn;
      EchoOneFrame(conn.received, conn.sent, conn.writeBuf, conn.readBuf, cap);
      var out := EchoDispatch(dec.payload);
      if out.DispatchError? {
        return Aborted(DispatchBroken);
      }
      var encoded := conn.AppendFrame(out.payload, cap);
      if encoded != Encoded {
        return Aborted(EncodeBroken);
      }
      assert dec.consumedBytes <= |conn.readBuf|;
      conn.ConsumeRead(dec.consumedBytes);
      slot.awaiting := true;
      var _ := poller.Upsert(conn.handle, READ_WRITE);
      r := TryFlushWrites(slot);
      GoesOnMore(old(kernel.sends), kernel.sends, SendsOn, SendWorks);
    }

    /** Decodes, dispatches, encodes and sends until the read buffer holds no complete frame. */
    method EchoFrames(slot: ConnSlot) returns (r: Progress)
      requires slot.conn.handle != INVALID_SOCKET
      requires Echoing(slot.conn, cap) && Booked(slot, poller.interest)
      modifies slot`awaiting, slot.conn`readBuf, slot.conn`writeBuf, slot.conn`sent
      modifies poller, kernel`sends, this`completions
      ensures slot.conn.sent <= slot.conn.received
      ensures old(completions) <= completions <= old(completions) + old(|ParseAll(slot.conn.readBuf, cap).frames|)
      ensures Remains(old(kernel.sends), kernel.sends)
      ensures r == Go ==>
                && Live(slot)
                && poller.interest == old(poller.interest)[slot.conn.handle := InterestFor(slot.conn.writeBuf)]
      ensures r.Aborted? ==>
                || (r.why == SendBroken && SendFails(old(kernel.sends), kernel.sends, SendWorks))
                || (r.why == OversizedFrame && ParseAll(slot.conn.received, cap).oversized)
      ensures r != Aborted(SendBroken) ==> AllUsed(old(kernel.sends), kernel.sends, SendWorks)
    {
      hide ParseAll, DecodeFrame, Encode, Remains, UpTo, UntilBlocked, AllUsed;
      var conn := slot.conn;
      NothingUsed(kernel.sends, SendWorks);
      while true
        invariant Echoing(conn, cap) && Booked(slot, poller.interest)
        invariant poller.interest == old(poller.interest)[conn.handle := InterestFor(conn.writeBuf)]
        invariant old(completions) <= completions
        invariant completions + |ParseAll(conn.readBuf, cap).frames|
               <= old(completions) + old(|ParseAll(conn.readBuf, cap).frames|)
        invariant Remains(old(kernel.sends), kernel.sends) && AllUsed(old(kernel.sends), kernel.sends, SendWorks)
        decreases |conn.readBuf|
      {
        ghost var sends := kernel.sends;
        var dec := TryDecodeFrame(endian, conn.readBuf, cap);
        NothingLeftToDecode(conn.received, conn.sent, conn.writeBuf, conn.readBuf, cap);
        if dec.status == Incomplete {
          return Go;
        }
        if dec.status == OversizedLength {
          return Aborted(OversizedFrame);
        }
        var echoed := EchoOne(slot, dec);
        RemainsThenRemains(old(kernel.sends), sends, kernel.sends);
        ThenFurther(old(kernel.sends), sends, kernel.sends, SendWorks);
        if echoed.Aborted? {
          return echoed;
        }
      }
    }

    /** How many complete frames the peer has sent. */
    ghost function FrameCount(c: Connection): nat
      reads c`received
    {
      |ParseAll(c.received, cap).frames|
    }

    /** Valid survives a change to one slot that leaves that slot live and everything else alone. */
    twostate lemma OneSlotChanged(slot: ConnSlot)
      requires old(Valid()) && slot in slots && slots == old(slots) && retired == old(retired)
      requires listening == old(listening) && accepted == old(accepted)
      requires kernel.open == old(kernel.open) && kernel.handedOut == old(kernel.handedOut)
      requires forall s :: s in slots && s != slot ==> unchanged(s) && unchanged(s.conn)
      requires forall c :: c in retired ==> unchanged(c)
      requires poller.interest == old(poller.interest)[slot.conn.handle := InterestFor(slot.conn.writeBuf)]
      requires Live(slot)
      ensures Valid()
    {
      assert slot.conn.handle in Handles(slots);
      forall s | s in slots
        ensures Live(s)
      {
        if s != slot {
          assert old(Live(s));
          assert s.conn.handle != slot.conn.handle;
        }
      }
    }

    /** One receive, and every frame it completes. */
    method ReceiveAndEcho(slot: ConnSlot) returns (r: ReadStep)
      requires Valid() && slot in slots
      modifies slot, slot.conn, poller, kernel`recvs, kernel`sends, this`completions
      ensures !r.Broken? ==> Valid()
      ensures old(completions) <= completions <= old(completions) + FrameCount(slot.conn) - old(FrameCount(slot.conn))
      ensures r == More ==> |kernel.recvs| < |old(kernel.recvs)|
      ensures Remains(old(kernel.recvs), kernel.recvs) && Remains(old(kernel.sends), kernel.sends)
      ensures var before, after := old(kernel.recvs), kernel.recvs;
              && (r == Blocked <==> UntilBlocked(before, after, IsRecvInterrupt, RecvWouldBlock))
              && (r == Hangup <==> UpTo(before, after, IsRecvInterrupt, Bytes([])))
              && (r == Broken(RecvBroken) <==> UpTo(before, after, IsRecvInterrupt, RecvFailed))
              && (r != Blocked && r != Hangup && r != Broken(RecvBroken) ==> AllUsed(before, after, ReadsOn))
      ensures r != Broken(SendBroken) ==> AllUsed(old(kernel.sends), kernel.sends, SendWorks)
      ensures r == Broken(SendBroken) ==> SendFails(old(kernel.sends), kernel.sends, SendWorks)
      ensures slot.conn.received
           == old(slot.conn.received) + Delivered(Used(old(kernel.recvs), kernel.recvs), scratchSize)
      ensures slot.conn.sent <= slot.conn.received
      ensures r.Broken? ==> r.why in {RecvBroken, SendBroken, OversizedFrame} && PrefixesSent()
      ensures r == Broken(OversizedFrame) ==> ParseAll(slot.conn.received, cap).oversized
    {
      hide ParseAll, Exact, Handles, Conns, HandlesOf;
      hide Remains, UpTo, UntilBlocked, AllUsed, Delivered, Skipping, RecvAnswer, Used;
      NothingUsed(kernel.sends, SendWorks);
      var conn := slot.conn;
      ghost var received, readBuf := conn.received, conn.readBuf;
      assert Live(slot);
      ValidMeansPrefixesSent();
      HandleOf(slots, slot);
      var got := ReceiveNonblocking(conn, kernel, scratchSize);
      OneAnswerReadsOn(old(kernel.recvs), kernel.recvs);
      if got.RecvError? {
        OneSlotChanged(slot);
        OutputRefinesInput(conn.received, conn.sent, conn.writeBuf, conn.readBuf, cap);
        match got.code
        case WouldBlockOnRecv => return Blocked;
        case PeerClosed => return Hangup;
        case _ => return Broken(RecvBroken);
      }
      ReceiveBegins(received, conn.sent, conn.writeBuf, readBuf, conn.received[|received|..], cap);
      assert conn.received == received + conn.received[|received|..];
      var echoed := EchoFrames(slot);
      if echoed.Aborted? {
        return Broken(echoed.why);
      }
      OneSlotChanged(slot);
      r := More;
    }

    /** Swaps the last slot into the gap, and closes the connection. */
    method RemoveSlot(i: nat)
      requires i < |slots| && Bookkeeping()
      modifies this`slots, this`retired, poller, kernel`open
      ensures Bookkeeping()
      ensures |slots| == |old(slots)| - 1
      ensures forall j :: 0 <= j < |slots| ==> slots[j] == old(slots)[if j == i then |slots| else j]
      ensures forall s :: s in slots <==> s in old(slots) && s != old(slots)[i]
      ensures forall s :: s in slots ==> s.conn.handle != old(slots)[i].conn.handle
      ensures poller.interest == old(poller.interest) - {old(slots)[i].conn.handle}
      ensures retired == old(retired) + {old(slots)[i].conn} && kernel.open <= old(kernel.open)
    {
      hide Distinct, Handles;
      HandleOf(slots, slots[i]);
      var gone := slots[i].conn;
      poller.Erase(gone.handle);
      var last := |slots| - 1;
      if i + 1 < |slots| {
        slots := slots[i := slots[last]];
      }
      slots := slots[..last];
      kernel.Close(gone.handle);
      retired := retired + {gone};
      RemovedHandles(old(slots), slots, i);
    }

    /** The slots that stay are as live as before. */
    twostate lemma OthersStayLive(gone: NativeSocket)
      requires old(Valid()) && poller.interest == old(poller.interest) - {gone}
      requires forall s :: s in slots ==>
                 s in old(slots) && s.conn.handle != gone && unchanged(s) && unchanged(s.conn)
      ensures forall s :: s in slots ==> Live(s)
    {
      hide Exact, Bookkeeping, RetiredExact;
      forall s | s in slots
        ensures Live(s)
      {
        assert old(Live(s));
      }
    }

    lemma LivePrefix(slot: ConnSlot)
      requires Live(slot)
      ensures slot.conn.sent <= slot.conn.received
    {
      hide Exact;
      OutputRefinesInput(slot.conn.received, slot.conn.sent, slot.conn.writeBuf, slot.conn.readBuf, cap);
    }

    method CloseSlot(i: nat)
      requires Valid() && i < |slots|
      modifies slots[i].conn`readBuf, slots[i].conn`writeBuf, this`slots, this`retired, poller, kernel`open
      ensures Valid()
      ensures retired == old(retired) + {old(slots)[i].conn} && kernel.open <= old(kernel.open)
      ensures forall s :: s in slots <==> s in old(slots) && s != old(slots)[i]
      ensures old(slots)[i].conn.readBuf == old(slots)[i].conn.writeBuf == []
    {
      hide Exact, Live, Bookkeeping;
      var slot := slots[i];
      LivePrefix(slot);
      slot.conn.ClearRead();
      slot.conn.ClearWrite();
      RemoveSlot(i);
      OthersStayLive(slot.conn.handle);
    }

    /** The end of run_server: drops the last slot without touching its buffers. */
    method DropLast()
      requires Valid() && slots != []
      modifies this`slots, this`retired, poller, kernel`open
      ensures Valid() && slots == old(slots)[..|old(slots)| - 1]
      ensures retired == old(retired) + {old(slots)[|old(slots)| - 1].conn}
      ensures poller.interest == old(poller.interest) - {old(slots)[|old(slots)| - 1].conn.handle}
    {
      hide Exact, Live, Bookkeeping;
      var last := slots[|slots| - 1];
      LivePrefix(last);
      RemoveSlot(|slots| - 1);
      OthersStayLive(last.conn.handle);
    }

    method UnregisterListener()
      requires Valid()
      modifies this`listening, poller
      ensures Valid() && !listening && poller.interest == old(poller.interest) - {listener}
    {
      hide Exact, HandlesOf;
      poller.Erase(listener);
      listening := false;
    }

    lemma NobodyRegistered()
      requires Valid() && slots == [] && !listening
      ensures poller.interest == map[] && kernel.open == {listener}
    {
      assert poller.interest.Keys == {};
    }

    /** Receives until the socket would block, echoing every frame as soon as it is complete. */
    method ProcessConnectionRead(idx: nat) returns (r: ReadOutcome)
      requires Valid() && idx < |slots|
      modifies slots[idx], slots[idx].conn, poller, kernel, this`completions, this`slots, this`retired
      ensures !r.ReadAborted? ==> Valid()
      ensures r == ReadOk ==>
                && slots == old(slots) && kernel.open == old(kernel.open) && retired == old(retired)
                && UntilBlocked(old(kernel.recvs), kernel.recvs, ReadsOn, RecvWouldBlock)
      ensures r == PeerGone ==>
                && UpTo(old(kernel.recvs), kernel.recvs, ReadsOn, Bytes([]))
                && retired == old(retired) + {old(slots)[idx].conn}
                && old(slots)[idx].conn.readBuf == old(slots)[idx].conn.writeBuf == []
                && forall s :: s in slots <==> s in old(slots) && s != old(slots)[idx]
      ensures r.ReadAborted? ==> slots == old(slots) && PrefixesSent() && Justified(r.why, old(kernel.Now()))
      ensures r == ReadAborted(RecvBroken) ==> UpTo(old(kernel.recvs), kernel.recvs, ReadsOn, RecvFailed)
      ensures r.ReadAborted? && r.why != RecvBroken ==> AllUsed(old(kernel.recvs), kernel.recvs, ReadsOn)
      ensures r == ReadAborted(OversizedFrame) ==> ParseAll(old(slots)[idx].conn.received, cap).oversized
      ensures !r.ReadAborted? ==> Onward(old(kernel.Now()), kernel.Now())
      ensures old(slots)[idx].conn.sent <= old(slots)[idx].conn.received
      ensures Remains(old(kernel.recvs), kernel.recvs) && Remains(old(kernel.sends), kernel.sends)
      ensures var conn := old(slots)[idx].conn;
              && conn.received == old(conn.received) + Delivered(Used(old(kernel.recvs), kernel.recvs), scratchSize)
              && old(completions) <= completions <= old(completions) + FrameCount(conn) - old(FrameCount(conn))
    {
      hide Valid, PrefixesSent, FrameCount, Delivered, UntilBlocked, UpTo, AllUsed, Remains;
      var slot := slots[idx];
      NothingUsed(kernel.recvs, ReadsOn);
      NothingUsed(kernel.sends, SendWorks);
      NothingDelivered(scratchSize);
      SlotIsAccepted(slot);
      while true
        invariant Valid() && slots == old(slots) && kernel.open == old(kernel.open) && retired == old(retired)
        invariant Remains(old(kernel.recvs), kernel.recvs) && Remains(old(kernel.sends), kernel.sends)
        invariant AllUsed(old(kernel.recvs), kernel.recvs, ReadsOn)
        invariant AllUsed(old(kernel.sends), kernel.sends, SendWorks)
        invariant kernel.accepts == old(kernel.accepts) && kernel.handedOut == old(kernel.handedOut)
        invariant slot.conn.received
               == old(slot.conn.received) + Delivered(Used(old(kernel.recvs), kernel.recvs), scratchSize)
        invariant old(completions) <= completions
        invariant completions <= old(completions) + FrameCount(slot.conn) - old(FrameCount(slot.conn))
        decreases |kernel.recvs|
      {
        ghost var recvs, sends := kernel.recvs, kernel.sends;
        var step := ReceiveAndEcho(slot);
        DeliveredThenDelivered(old(kernel.recvs), recvs, kernel.recvs, scratchSize);
        RemainsThenRemains(old(kernel.recvs), recvs, kernel.recvs);
        RemainsThenRemains(old(kernel.sends), sends, kernel.sends);
        ReadFurther(old(kernel.recvs), recvs, kernel.recvs);
        ThenFurther(old(kernel.sends), sends, kernel.sends, SendWorks);
        match step
        case More =>
        case Blocked =>
          OnwardByTalking(old(kernel.Now()), kernel.Now());
          return ReadOk;
        case Hangup =>
          CloseSlot(idx);
          OnwardByTalking(old(kernel.Now()), kernel.Now());
          return PeerGone;
        case Broken(why) =>
          BreaksJustly(why, slot, old(kernel.Now()));
          return ReadAborted(why);
      }
    }

    lemma SlotIsAccepted(slot: ConnSlot)
      requires Valid() && slot in slots
      ensures slot.conn in accepted
    {
      HandleOf(slots, slot);
      assert slot.conn in set c | c in accepted;
    }

    lemma BreaksJustly(why: AbortReason, slot: ConnSlot, since: KernelState)
      requires slot.conn in accepted
      requires || (why == RecvBroken && RecvFault(since, kernel.Now()))
               || (why == SendBroken && SendFault(since, kernel.Now()))
               || (why == OversizedFrame && ParseAll(slot.conn.received, cap).oversized)
      ensures Justified(why, since)
    {
    }

    /** Accepts one client, registers it for reading and gives it a slot. */
    method AcceptOne() returns (r: AcceptOutcome)
      requires Valid()
      modifies this`slots, this`accepted, poller, kernel`accepts, kernel`open, kernel`handedOut
      ensures Valid() && kernel.accepts == Rest(old(kernel.accepts))
      ensures r == if old(kernel.accepts) == [] then AcceptWouldBlock
                   else Plausible(old(kernel.accepts)[0], old(kernel.open))
      ensures kernel.open == old(kernel.open) + if r.NewSocket? then {r.handle} else {}
      ensures r.NewSocket? ==>
                && |slots| == |old(slots)| + 1 && old(slots) <= slots && IsNew(slots[|old(slots)|])
                && accepted == old(accepted) + [slots[|old(slots)|].conn]
                && slots[|old(slots)|].conn.handle == r.handle && r.handle !in old(kernel.open)
      ensures !r.NewSocket? ==> slots == old(slots) && accepted == old(accepted)
      ensures kernel.handedOut == old(kernel.handedOut) + if r.NewSocket? then [r.handle] else []
    {
      hide Exact;
      r := kernel.Accept();
      if r.NewSocket? {
        var conn := new Connection(r.handle);
        var _ := poller.Upsert(conn.handle, READ);
        var slot := new ConnSlot(conn);
        slots := slots + [slot];
        accepted := accepted + [conn];
        FreshIsExact(cap);
        SlotAdded(slot);
      }
    }

    /** Valid survives a new slot with a handle that was not open. */
    twostate lemma SlotAdded(new slot: ConnSlot)
      requires old(Valid()) && slots == old(slots) + [slot] && retired == old(retired) && listening == old(listening)
      requires slot.conn !in old(accepted) && accepted == old(accepted) + [slot.conn]
      requires slot.conn.handle !in old(kernel.open) && slot.conn.handle != INVALID_SOCKET
      requires kernel.open == old(kernel.open) + {slot.conn.handle}
      requires kernel.handedOut == old(kernel.handedOut) + [slot.conn.handle]
      requires forall s :: s in old(slots) ==> unchanged(s) && unchanged(s.conn)
      requires forall c :: c in retired ==> unchanged(c)
      requires poller.interest == old(poller.interest)[slot.conn.handle := READ]
      requires Live(slot)
      ensures Valid()
    {
      hide Exact;
      AddedHandle(old(slots), slot);
      forall s | s in old(slots)
        ensures Live(s)
      {
        assert old(Live(s));
        HandleOf(old(slots), s);
      }
    }

    twostate predicate IsNew(new slot: ConnSlot) {
      fresh(slot) && fresh(slot.conn)
    }

    /** Accepts until the kernel has nobody left waiting. */
    method AcceptAll() returns (r: Progress)
      requires Valid()
      modifies this`slots, this`accepted, poller, kernel`accepts, kernel`open, kernel`handedOut
      ensures Valid()
      ensures r == Go ==> UntilBlocked(old(kernel.accepts), kernel.accepts, AcceptsOn, AcceptWouldBlock)
      ensures r == Go ==> Onward(old(kernel.Now()), kernel.Now())
      ensures r.Aborted? ==> r.why == AcceptBroken && AcceptFault(old(kernel.Now()), kernel.Now())
      ensures old(slots) <= slots
      ensures forall s :: s in slots[|old(slots)|..] ==> IsNew(s)
    {
      hide Valid, Onward, AcceptFault, AllUsed, UntilBlocked;
      OnwardItself(kernel.Now());
      NothingUsed(kernel.accepts, AcceptsOn);
      while true
        invariant Valid() && old(slots) <= slots
        invariant forall s :: s in slots[|old(slots)|..] ==> IsNew(s)
        invariant AllUsed(old(kernel.accepts), kernel.accepts, AcceptsOn) && Onward(old(kernel.Now()), kernel.Now())
        decreases |kernel.accepts|
      {
        ghost var before := kernel.Now();
        var accepted := AcceptOne();
        AcceptFurther(old(kernel.Now()), before, kernel.Now(), accepted);
        match accepted
        case AcceptWouldBlock => return Go;
        case AcceptFailed => return Aborted(AcceptBroken);
        case NewSocket(_) =>
      }
    }

    /** How the event with this mask was served. */
    twostate function Service(mask: EventMask, slot: ConnSlot): Delivery
      reads this`slots, kernel, slot.conn
    {
      Delivery(slot, mask, old(kernel.recvs), kernel.recvs, old(kernel.sends), kernel.sends,
               old(slot.conn.received), slot.conn.received, slot in slots, slot.conn.writeBuf)
    }

    /** The part of a client event that comes after its slot has been found. */
    method ServeSlot(ev: Event, idx: nat) returns (r: Progress)
      requires Valid() && idx < |slots| && slots[idx].conn.handle == ev.socket
      modifies this`slots, this`completions, this`retired, poller, kernel, slots[idx], slots[idx].conn
      ensures r == Go ==> Valid() && FullService(Service(ev.mask, old(slots)[idx]), scratchSize)
      ensures r == Go ==> Onward(old(kernel.Now()), kernel.Now())
      ensures r.Aborted? ==> Justified(r.why, old(kernel.Now())) && PrefixesSent()
      ensures forall s :: s in slots ==> s in old(slots)
      ensures forall s :: s in old(slots) && s != old(slots)[idx] ==> s in slots
    {
      hide Valid, PrefixesSent, Justified, Onward, UntilBlocked, UpTo, AllUsed, Remains, Delivered;
      OnwardItself(kernel.Now());
      NothingUsed(kernel.recvs, ReadsOn);
      NothingDelivered(scratchSize);
      var slot := slots[idx];
      if ev.mask.read {
        var outcome := ProcessConnectionRead(idx);
        match outcome
        case PeerGone => return Go;
        case ReadAborted(why) => return Aborted(why);
        case ReadOk =>
          var ridx := FindSlotIndex(ev.socket);
          if ridx == |slots| {
            return Go;
          }
      }
      if ev.mask.write {
        var widx := FindSlotIndex(ev.socket);
        if widx == |slots| {
          return Go;
        }
        SameHandle(slots, slots[widx], slot);
        ghost var before := kernel.Now();
        r := FlushSlot(slots[widx]);
        FlushFurther(old(kernel.Now()), before, kernel.Now());
        JustifiedSince(old(kernel.Now()), before);
        return;
      }
      r := Go;
    }

    /** A readable, writable or exceptional client connection. Only the connection with the event's handle is
        touched, and only it can be removed. */
    method HandleConnectionEvent(ev: Event) returns (r: Progress)
      requires Valid()
      modifies this`slots, this`completions, this`retired, this`log, poller, kernel, With(slots, ev.socket)
      ensures r == Go ==> Valid()
      ensures r == Go ==> Onward(old(kernel.Now()), kernel.Now())
      ensures r.Aborted? ==> Justified(r.why, old(kernel.Now())) && PrefixesSent()
      ensures forall s :: s in slots ==> s in old(slots)
      ensures forall s :: s in old(slots) && s.conn.handle != ev.socket ==> s in slots
      ensures ev.socket !in Handles(old(slots)) ==> log == old(log) && slots == old(slots)
      ensures r == Go && ev.socket in Handles(old(slots)) ==>
                && ServedNext(ev, old(log), log, old(slots), scratchSize)
                && log[|old(log)|] == Service(ev.mask, log[|old(log)|].slot)
    {
      hide Valid, PrefixesSent, FullService, Justified, Onward;
      OnwardItself(kernel.Now());
      var idx := FindSlotIndex(ev.socket);
      if idx == |slots| {
        return Go;
      }
      ghost var slot, recvs, sends, received := slots[idx], kernel.recvs, kernel.sends, slots[idx].conn.received;
      r := ServeSlot(ev, idx);
      if r == Go {
        Record(Delivery(slot, ev.mask, recvs, kernel.recvs, sends, kernel.sends,
                        received, slot.conn.received, slot in slots, slot.conn.writeBuf));
      }
    }

    /** One reported event. */
    method HandleEvent(ev: Event) returns (r: Progress)
      requires Valid()
      modifies this`slots, this`completions, this`accepted, this`retired, this`log, poller, kernel
      modifies With(slots, ev.socket)
      ensures r == Go ==> Valid()
      ensures r == Go ==> Onward(old(kernel.Now()), kernel.Now())
      ensures r.Aborted? ==> Justified(r.why, old(kernel.Now())) && PrefixesSent()
      ensures forall s :: s in slots ==> s in old(slots) || (ev.socket == listener && ev.mask.read && IsNew(s))
      ensures forall s :: s in old(slots) && s.conn.handle != ev.socket ==> s in slots
      ensures ev.socket == listener || ev.socket !in Handles(old(slots)) ==> log == old(log)
      ensures r == Go && ev.socket != listener && ev.socket in Handles(old(slots)) ==>
                && ServedNext(ev, old(log), log, old(slots), scratchSize)
                && log[|old(log)|] == Service(ev.mask, log[|old(log)|].slot)
      ensures r == Go && ev.socket == listener && ev.mask.read ==>
                UntilBlocked(old(kernel.accepts), kernel.accepts, AcceptsOn, AcceptWouldBlock)
    {
      hide Valid, Handles, FullService, UntilBlocked, PrefixesSent, Onward, RecvFault, SendFault, AcceptFault;
      OnwardItself(kernel.Now());
      if ev.socket == listener {
        if !ev.mask.read {
          return Go;
        }
        r := AcceptAll();
        if r.Aborted? {
          ValidMeansPrefixesSent();
        }
        return;
      }
      r := HandleConnectionEvent(ev);
    }

    ghost method Record(d: Delivery)
      requires Valid()
      modifies this`log
      ensures Valid() && log == old(log) + [d]
    {
      log := log + [d];
    }

    method FlushSlot(slot: ConnSlot) returns (r: Progress)
      requires Valid() && slot in slots
      modifies slot`awaiting, slot.conn`writeBuf, slot.conn`sent, poller, kernel`sends, this`completions
      ensures r == Go ==> Valid()
      ensures r == Go ==>
                slot.conn.writeBuf == [] || UntilBlocked(old(kernel.sends), kernel.sends, SendWorks, SendWouldBlock)
      ensures r == Go ==> Onward(old(kernel.Now()), kernel.Now())
      ensures r.Aborted? ==> r.why == SendBroken && Justified(r.why, old(kernel.Now())) && PrefixesSent()
    {
      hide Exact, Handles, Conns, Remains, UntilBlocked, UpTo, AllUsed, SentOn, HandlesOf;
      ValidMeansPrefixesSent();
      assert Live(slot);
      HandleOf(slots, slot);
      ghost var conn, sent, writeBuf := slot.conn, slot.conn.sent, slot.conn.writeBuf;
      r := TryFlushWrites(slot);
      FlushWorks(old(kernel.Now()), kernel.Now());
      SendingKeepsExact(conn.received, sent, writeBuf, conn.readBuf, conn.sent, conn.writeBuf, cap);
      if r == Go {
        OneSlotChanged(slot);
      }
    }
  }

  lemma SameHandle(slots: seq<ConnSlot>, a: ConnSlot, b: ConnSlot)
    requires Distinct(slots) && a in slots && b in slots && a.conn.handle == b.conn.handle
    ensures a == b
  {
  }

  lemma HandleOf(slots: seq<ConnSlot>, slot: ConnSlot)
    requires slot in slots
    ensures slot.conn.handle in Handles(slots) && slot.conn in Conns(slots)
  {
  }

  lemma RemovedHandles(before: seq<ConnSlot>, after: seq<ConnSlot>, i: nat)
    requires Distinct(before) && i < |before| && |after| == |before| - 1
    requires forall j :: 0 <= j < |after| ==> after[j] == before[if j == i then |after| else j]
    ensures Distinct(after)
    ensures forall s :: s in after <==> s in before && s != before[i]
    ensures forall s :: s in after ==> s.conn.handle != before[i].conn.handle
    ensures Handles(after) == Handles(before) - {before[i].conn.handle}
    ensures Conns(after) == Conns(before) - {before[i].conn}
  {
    forall s | s in before && s != before[i]
      ensures s in after
    {
      var j :| 0 <= j < |before| && before[j] == s;
      assert j == |after| ==> after[i] == s;
      assert j < |after| ==> after[j] == s;
    }
  }

  lemma AddedHandle(slots: seq<ConnSlot>, slot: ConnSlot)
    requires Distinct(slots) && slot.conn.handle !in Handles(slots)
    ensures Distinct(slots + [slot])
    ensures Handles(slots + [slot]) == Handles(slots) + {slot.conn.handle}
    ensures Conns(slots + [slot]) == Conns(slots) + {slot.conn}
  {
    forall i | 0 <= i < |slots|
      ensures slots[i].conn.handle in Handles(slots)
    {
    }
  }
}
