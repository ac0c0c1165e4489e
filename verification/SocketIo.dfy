/** Non-blocking receive and send over a kernel whose answers are arbitrary. */
module SocketIo {
  import opened Codec
  import opened Connection

  datatype RecvOutcome = Bytes(chunk: seq<byte>) | RecvInterrupted | RecvWouldBlock | RecvFailed
  datatype SendOutcome = Takes(count: nat) | SendInterrupted | SendWouldBlock | SendFailed
  datatype AcceptOutcome = NewSocket(handle: NativeSocket) | AcceptWouldBlock | AcceptFailed

  // ---------------------------------------------------------------- how much of a script was used

  ghost predicate Remains<T>(before: seq<T>, after: seq<T>) {
    |after| <= |before| && before[|before| - |after|..] == after
  }

  /** All answers used are such that things go on after them. */
  ghost predicate AllUsed<T>(before: seq<T>, after: seq<T>, goesOn: T -> bool) {
    Remains(before, after) && forall i :: 0 <= i < |before| - |after| ==> goesOn(before[i])
  }

  /** Only the last answer used need not be such: it is x. */
  ghost predicate UpTo<T>(before: seq<T>, after: seq<T>, goesOn: T -> bool, x: T) {
    && Remains(before, after) && |after| < |before| && before[|before| - |after| - 1] == x
    && forall i :: 0 <= i < |before| - |after| - 1 ==> goesOn(before[i])
  }

  /** The script was used up to the answer x that blocks, or used up entirely (from then on every call would block). */
  ghost predicate UntilBlocked<T>(before: seq<T>, after: seq<T>, goesOn: T -> bool, x: T) {
    UpTo(before, after, goesOn, x) || (after == [] && AllUsed(before, after, goesOn))
  }

  /** The answers used up between two moments. */
  ghost function Used<T>(before: seq<T>, after: seq<T>): seq<T>
    requires Remains(before, after)
  {
    before[..|before| - |after|]
  }

  /** A script from its first answer other than x on. */
  function Skipping<T(==)>(script: seq<T>, x: T): (r: seq<T>)
    ensures r == [] || r[0] != x
  {
    if script != [] && script[0] == x then Skipping(script[1..], x) else script
  }

  lemma NothingUsed<T>(script: seq<T>, goesOn: T -> bool)
    ensures AllUsed(script, script, goesOn) && Remains(script, script) && Used(script, script) == []
  {
  }

  lemma RemainsThenRemains<T>(a: seq<T>, b: seq<T>, c: seq<T>)
    requires Remains(a, b) && Remains(b, c)
    ensures Remains(a, c) && Used(a, c) == Used(a, b) + Used(b, c)
  {
    assert a[|a| - |b|..][|b| - |c|..] == a[|a| - |c|..];
  }

  /** After a stretch in which things went on. */
  lemma ThenFurther<T>(a: seq<T>, b: seq<T>, c: seq<T>, goesOn: T -> bool)
    requires AllUsed(a, b, goesOn)
    ensures AllUsed(b, c, goesOn) ==> AllUsed(a, c, goesOn)
    ensures forall x :: UpTo(b, c, goesOn, x) ==> UpTo(a, c, goesOn, x)
    ensures forall x :: UntilBlocked(b, c, goesOn, x) ==> UntilBlocked(a, c, goesOn, x)
  {
    if Remains(b, c) {
      RemainsThenRemains(a, b, c);
      assert forall i :: 0 <= i < |b| ==> a[|a| - |b| + i] == b[i];
      forall i | |a| - |b| <= i < |a| - |c|
        ensures a[i] == b[i - (|a| - |b|)]
      {
      }
    }
  }

  lemma GoesOnMore<T>(a: seq<T>, b: seq<T>, goesOn: T -> bool, more: T -> bool)
    requires forall x :: goesOn(x) ==> more(x)
    ensures AllUsed(a, b, goesOn) ==> AllUsed(a, b, more)
    ensures forall x :: UpTo(a, b, goesOn, x) ==> UpTo(a, b, more, x)
    ensures forall x :: UpTo(a, b, goesOn, x) && more(x) ==> AllUsed(a, b, more)
    ensures forall x :: UntilBlocked(a, b, goesOn, x) ==> UntilBlocked(a, b, more, x)
    ensures forall x :: UntilBlocked(a, b, goesOn, x) && more(x) ==> AllUsed(a, b, more)
  {
  }

  /** There is only one last answer, and it tells a script that goes on from one that stops. */
  lemma LastIsUnique<T>(before: seq<T>, after: seq<T>, goesOn: T -> bool)
    ensures forall x, y :: UpTo(before, after, goesOn, x) && UpTo(before, after, goesOn, y) ==> x == y
    ensures forall x :: UpTo(before, after, goesOn, x) && !goesOn(x) ==> !AllUsed(before, after, goesOn)
    ensures forall x :: UpTo(before, after, goesOn, x) ==> |after| < |before|
    ensures forall x :: AllUsed(before, after, goesOn) && UpTo(before, after, goesOn, x) ==> goesOn(x)
  {
  }

  lemma UpToRemains<T>(a: seq<T>, b: seq<T>, goesOn: T -> bool)
    ensures AllUsed(a, b, goesOn) ==> Remains(a, b)
    ensures forall x :: UpTo(a, b, goesOn, x) ==> Remains(a, b)
    ensures forall x :: UntilBlocked(a, b, goesOn, x) ==> Remains(a, b)
  {
  }

  predicate IsRecvInterrupt(a: RecvOutcome) { a == RecvInterrupted }
  predicate IsSendInterrupt(a: SendOutcome) { a == SendInterrupted }

  /** A connection is read on after an interrupt or a chunk, and sent to after an interrupt or some progress; accepting
      goes on after a client. */
  predicate ReadsOn(a: RecvOutcome) { a == RecvInterrupted || (a.Bytes? && a.chunk != []) }
  predicate SendsOn(a: SendOutcome) { a == SendInterrupted || (a.Takes? && a.count > 0) }
  predicate AcceptsOn(a: AcceptOutcome) { a.NewSocket? }

  /** Answers that do not report that a call has failed. Taking nothing counts as a failure to send. */
  predicate RecvWorks(a: RecvOutcome) { a != RecvFailed }
  predicate SendWorks(a: SendOutcome) { a != SendFailed && a != Takes(0) }
  predicate AcceptWorks(a: AcceptOutcome) { a != AcceptFailed }

  datatype KernelState = KernelState(recvs: seq<RecvOutcome>, sends: seq<SendOutcome>, accepts: seq<AcceptOutcome>,
                                     open: set<NativeSocket>, handedOut: seq<NativeSocket>)

  /** The kernel's answers are scripts, consumed one per call; when a script has run out the call would
      block. `open` is the table of open descriptors. */
  class Kernel {
    var recvs: seq<RecvOutcome>
    var sends: seq<SendOutcome>
    var accepts: seq<AcceptOutcome>
    var open: set<NativeSocket>
    /** The clients handed out so far, in order. */
    ghost var handedOut: seq<NativeSocket>

    ghost function Now(): KernelState
      reads this
    {
      KernelState(recvs, sends, accepts, open, handedOut)
    }

    constructor (recvs: seq<RecvOutcome>, sends: seq<SendOutcome>, accepts: seq<AcceptOutcome>, open: set<NativeSocket>)
      ensures this.recvs == recvs && this.sends == sends && this.accepts == accepts && this.open == open
      ensures handedOut == []
    {
      this.recvs, this.sends, this.accepts, this.open := recvs, sends, accepts, open;
      handedOut := [];
    }

    /** recv never yields more than the scratch buffer holds. */
    method Recv(scratchSize: nat) returns (r: RecvOutcome)
      modifies this`recvs
      ensures recvs == Rest(old(recvs))
      ensures r == RecvAnswer(old(recvs), scratchSize)
    {
      if recvs == [] {
        return RecvWouldBlock;
      }
      r := recvs[0];
      recvs := recvs[1..];
      r := Clipped(r, scratchSize);
    }

    /** send never takes more than it was given. */
    method Send(length: nat) returns (r: SendOutcome)
      modifies this`sends
      ensures sends == Rest(old(sends))
      ensures r == SendAnswer(old(sends), length)
    {
      if sends == [] {
        return SendWouldBlock;
      }
      r := sends[0];
      sends := sends[1..];
      r := Limited(r, length);
    }

    /** accept returns a descriptor that was not open; a script that says otherwise counts as a failure. */
    method Accept() returns (r: AcceptOutcome)
      modifies this`accepts, this`open, this`handedOut
      ensures accepts == Rest(old(accepts))
      ensures r == if old(accepts) == [] then AcceptWouldBlock else Plausible(old(accepts)[0], old(open))
      ensures open == old(open) + if r.NewSocket? then {r.handle} else {}
      ensures handedOut == old(handedOut) + if r.NewSocket? then [r.handle] else []
    {
      if accepts == [] {
        return AcceptWouldBlock;
      }
      r := accepts[0];
      accepts := accepts[1..];
      r := Plausible(r, open);
      if r.NewSocket? {
        open, handedOut := open + {r.handle}, handedOut + [r.handle];
      }
    }

    method Close(handle: NativeSocket)
      modifies this`open
      ensures open == old(open) - {handle}
    {
      open := open - {handle};
    }
  }

  function Rest<T>(script: seq<T>): seq<T> {
    if script == [] then [] else script[1..]
  }

  function Clipped(r: RecvOutcome, limit: nat): RecvOutcome {
    if r.Bytes? && |r.chunk| > limit then Bytes(r.chunk[..limit]) else r
  }

  function Limited(r: SendOutcome, limit: nat): SendOutcome {
    if r.Takes? && r.count > limit then Takes(limit) else r
  }

  /** The next answer of a script; once it has run out the call would block. */
  function RecvAnswer(script: seq<RecvOutcome>, limit: nat): RecvOutcome {
    if script == [] then RecvWouldBlock else Clipped(script[0], limit)
  }

  function SendAnswer(script: seq<SendOutcome>, limit: nat): SendOutcome {
    if script == [] then SendWouldBlock else Limited(script[0], limit)
  }

  function Plausible(r: AcceptOutcome, open: set<NativeSocket>): AcceptOutcome {
    if r.NewSocket? && (r.handle in open || r.handle == INVALID_SOCKET) then AcceptFailed else r
  }

  // ---------------------------------------------------------------- what a stretch of answers amounts to

  function Chunk(r: RecvOutcome): seq<byte> {
    if r.Bytes? then r.chunk else []
  }

  function Count(r: SendOutcome): nat {
    if r.Takes? then r.count else 0
  }

  /** The bytes a stretch of receive answers delivers into a scratch buffer of that size. */
  function Delivered(used: seq<RecvOutcome>, limit: nat): seq<byte> {
    if used == [] then []
    else Chunk(Clipped(used[0], limit)) + Delivered(used[1..], limit)
  }

  /** How many of n pending bytes a stretch of send answers takes. */
  function Taken(used: seq<SendOutcome>, n: nat): (r: nat)
    ensures r <= n
  {
    if used == [] then 0
    else
      var count := Count(Limited(used[0], n));
      count + Taken(used[1..], n - count)
  }

  lemma DeliveredFront(a: seq<RecvOutcome>, b: seq<RecvOutcome>, limit: nat)
    requires a != []
    ensures Delivered(a, limit) == Chunk(Clipped(a[0], limit)) + Delivered(a[1..], limit)
    ensures Delivered(a + b, limit) == Chunk(Clipped(a[0], limit)) + Delivered(a[1..] + b, limit)
  {
    assert (a + b)[0] == a[0] && (a + b)[1..] == a[1..] + b;
  }

  lemma {:induction false} DeliveredConcat(a: seq<RecvOutcome>, b: seq<RecvOutcome>, limit: nat)
    ensures Delivered(a + b, limit) == Delivered(a, limit) + Delivered(b, limit)
    decreases |a|
  {
    if a == [] {
      assert a + b == b;
    } else {
      DeliveredConcat(a[1..], b, limit);
      DeliveredFront(a, b, limit);
      hide Delivered, Clipped, Chunk;
    }
  }

  lemma {:induction false} TakenConcat(a: seq<SendOutcome>, b: seq<SendOutcome>, n: nat)
    ensures Taken(a + b, n) == Taken(a, n) + Taken(b, n - Taken(a, n))
    decreases |a|
  {
    if a == [] {
      assert a + b == b;
    } else {
      assert (a + b)[1..] == a[1..] + b;
      TakenConcat(a[1..], b, n - Count(Limited(a[0], n)));
    }
  }

  /** What was delivered on the way from a to b and then on to c. */
  lemma DeliveredThenDelivered(a: seq<RecvOutcome>, b: seq<RecvOutcome>, c: seq<RecvOutcome>, limit: nat)
    requires Remains(a, b) && Remains(b, c)
    ensures Remains(a, c)
    ensures Delivered(Used(a, c), limit) == Delivered(Used(a, b), limit) + Delivered(Used(b, c), limit)
  {
    RemainsThenRemains(a, b, c);
    DeliveredConcat(Used(a, b), Used(b, c), limit);
  }

  /** Exactly the bytes that the kernel took meanwhile have moved from the front of the pending bytes to those sent. */
  ghost predicate SentOn(sent: seq<byte>, pending: seq<byte>, sentAfter: seq<byte>, pendingAfter: seq<byte>,
                         script: seq<SendOutcome>, scriptAfter: seq<SendOutcome>) {
    && Remains(script, scriptAfter)
    && var n := Taken(Used(script, scriptAfter), |pending|);
       sentAfter == sent + pending[..n] && pendingAfter == pending[n..]
  }

  lemma SentOnKeepsBytes(sent: seq<byte>, pending: seq<byte>, sentAfter: seq<byte>, pendingAfter: seq<byte>,
                         script: seq<SendOutcome>, scriptAfter: seq<SendOutcome>)
    requires SentOn(sent, pending, sentAfter, pendingAfter, script, scriptAfter)
    ensures sentAfter + pendingAfter == sent + pending && sent <= sentAfter && Remains(script, scriptAfter)
  {
    var n := Taken(Used(script, scriptAfter), |pending|);
    assert pending == pending[..n] + pending[n..];
  }

  lemma NothingSent(sent: seq<byte>, pending: seq<byte>, script: seq<SendOutcome>)
    ensures SentOn(sent, pending, sent, pending, script, script)
  {
    NothingUsed(script, IsSendInterrupt);
  }

  lemma SentOnByOne(sent: seq<byte>, pending: seq<byte>, script: seq<SendOutcome>, scriptAfter: seq<SendOutcome>,
                    count: nat)
    requires Remains(script, scriptAfter) && count == Taken(Used(script, scriptAfter), |pending|)
    ensures SentOn(sent, pending, sent + pending[..count], pending[count..], script, scriptAfter)
    ensures count == 0 ==> sent + pending[..count] == sent && pending[count..] == pending
  {
  }

  lemma SentOnThenOn(sent: seq<byte>, pending: seq<byte>, sent': seq<byte>, pending': seq<byte>,
                     sent'': seq<byte>, pending'': seq<byte>,
                     script: seq<SendOutcome>, script': seq<SendOutcome>, script'': seq<SendOutcome>)
    requires SentOn(sent, pending, sent', pending', script, script')
    requires SentOn(sent', pending', sent'', pending'', script', script'')
    ensures SentOn(sent, pending, sent'', pending'', script, script'')
  {
    TakenThenTaken(script, script', script'', |pending|);
    hide Taken, Used, Remains;
    var n := Taken(Used(script, script'), |pending|);
    var m := Taken(Used(script', script''), |pending| - n);
    SplitAgain(sent, pending, n, m);
  }

  lemma SplitAgain(sent: seq<byte>, pending: seq<byte>, n: nat, m: nat)
    requires n + m <= |pending|
    ensures sent + pending[..n] + pending[n..][..m] == sent + pending[..n + m]
    ensures pending[n..][m..] == pending[n + m..]
  {
    assert pending[..n + m] == pending[..n] + pending[n..][..m];
  }

  lemma TakenThenTaken(a: seq<SendOutcome>, b: seq<SendOutcome>, c: seq<SendOutcome>, n: nat)
    requires Remains(a, b) && Remains(b, c)
    ensures Remains(a, c)
    ensures Taken(Used(a, c), n) == Taken(Used(a, b), n) + Taken(Used(b, c), n - Taken(Used(a, b), n))
  {
    RemainsThenRemains(a, b, c);
    TakenConcat(Used(a, b), Used(b, c), n);
  }

  /** Skipping uses up the answers x and then one more. */
  lemma {:induction false} SkippingUses<T>(script: seq<T>, x: T, isX: T -> bool)
    requires forall a :: isX(a) <==> a == x
    ensures var left := Skipping(script, x);
            && Remains(script, Rest(left))
            && (left == [] ==> AllUsed(script, [], isX))
            && (left != [] ==> UpTo(script, Rest(left), isX, left[0]) && Used(script, Rest(left)) != [])
    decreases |script|
  {
    if script != [] && script[0] == x {
      SkippingUses(script[1..], x, isX);
      OneMoreUsed(script, Rest(Skipping(script, x)), isX);
    }
  }

  lemma OneMoreUsed<T>(script: seq<T>, rest: seq<T>, isX: T -> bool)
    requires script != [] && isX(script[0]) && Remains(script[1..], rest)
    ensures Remains(script, rest)
    ensures var used := Used(script, rest); used[0] == script[0] && used[1..] == Used(script[1..], rest)
    ensures AllUsed(script[1..], rest, isX) ==> AllUsed(script, rest, isX)
    ensures forall x :: UpTo(script[1..], rest, isX, x) ==> UpTo(script, rest, isX, x)
  {
    assert script[1..][|script| - 1 - |rest|..] == script[|script| - |rest|..];
  }

  lemma OneUsed<T>(script: seq<T>)
    ensures Remains(script, Rest(script))
    ensures Used(script, Rest(script)) == if script == [] then [] else [script[0]]
  {
  }

  lemma InterruptDeliversNothing(used: seq<RecvOutcome>, limit: nat)
    requires used != [] && used[0] == RecvInterrupted
    ensures Delivered(used, limit) == Delivered(used[1..], limit)
  {
  }

  /** Interrupts deliver and take nothing. */
  lemma {:induction false} InterruptsDeliverNothing(script: seq<RecvOutcome>, limit: nat)
    ensures var left := Skipping(script, RecvInterrupted);
            && Remains(script, Rest(left))
            && Delivered(Used(script, Rest(left)), limit) == Chunk(RecvAnswer(left, limit))
    decreases |script|
  {
    var left := Skipping(script, RecvInterrupted);
    if left == script {
      OneUsed(script);
    } else {
      InterruptsDeliverNothing(script[1..], limit);
      OneMoreUsed(script, Rest(left), IsRecvInterrupt);
      hide Remains, Skipping;
      InterruptDeliversNothing(Used(script, Rest(left)), limit);
    }
  }

  lemma InterruptTakesNothing(used: seq<SendOutcome>, n: nat)
    requires used != [] && used[0] == SendInterrupted
    ensures Taken(used, n) == Taken(used[1..], n)
  {
  }

  lemma {:induction false} InterruptsTakeNothing(script: seq<SendOutcome>, n: nat)
    ensures var left := Skipping(script, SendInterrupted);
            && Remains(script, Rest(left))
            && Taken(Used(script, Rest(left)), n) == Count(SendAnswer(left, n))
    decreases |script|
  {
    var left := Skipping(script, SendInterrupted);
    if left == script {
      OneUsed(script);
    } else {
      InterruptsTakeNothing(script[1..], n);
      OneMoreUsed(script, Rest(left), IsSendInterrupt);
      hide Remains, Skipping;
      InterruptTakesNothing(Used(script, Rest(left)), n);
    }
  }

  lemma NothingDelivered(limit: nat)
    ensures Delivered([], limit) == []
  {
  }

  // ---------------------------------------------------------------- receiving and sending

  /** After interrupts a chunk reads on, and it is the only answer of its kind. */
  lemma OneAnswerReadsOn(before: seq<RecvOutcome>, after: seq<RecvOutcome>)
    ensures forall chunk :: chunk != [] && UpTo(before, after, IsRecvInterrupt, Bytes(chunk)) ==>
              && AllUsed(before, after, ReadsOn)
              && !UpTo(before, after, IsRecvInterrupt, Bytes([])) && !UpTo(before, after, IsRecvInterrupt, RecvFailed)
              && !UntilBlocked(before, after, IsRecvInterrupt, RecvWouldBlock)
  {
  }

  datatype RecvResult = Received(count: nat) | RecvError(code: RecvCode)
  datatype RecvCode = WouldBlockOnRecv | PeerClosed | RecvIoError | InvalidArgument
  datatype SendResult = Sent(count: nat) | SendError(code: SendCode)
  datatype SendCode = WouldBlockOnSend | SendIoError

  /** What recv's caller is told: zero bytes mean that the peer has closed. */
  function Receipt(answer: RecvOutcome): RecvResult {
    match answer
    case Bytes(chunk) => if chunk == [] then RecvError(PeerClosed) else Received(|chunk|)
    case RecvWouldBlock => RecvError(WouldBlockOnRecv)
    case _ => RecvError(RecvIoError)
  }

  function Posted(answer: SendOutcome): SendResult {
    match answer
    case Takes(count) => if count == 0 then SendError(SendIoError) else Sent(count)
    case SendWouldBlock => SendError(WouldBlockOnSend)
    case _ => SendError(SendIoError)
  }

  /** What is to hold of a receive that goes by the first answer other than an interrupt. */
  lemma ReceiptMeans(before: seq<RecvOutcome>, limit: nat)
    requires limit > 0
    ensures var left := Skipping(before, RecvInterrupted);
            var r, after := Receipt(RecvAnswer(left, limit)), Rest(left);
            && (r == RecvError(WouldBlockOnRecv) <==> UntilBlocked(before, after, IsRecvInterrupt, RecvWouldBlock))
            && (r == RecvError(PeerClosed) <==> UpTo(before, after, IsRecvInterrupt, Bytes([])))
            && (r == RecvError(RecvIoError) <==> UpTo(before, after, IsRecvInterrupt, RecvFailed))
            && (r.Received? <==> exists chunk :: chunk != [] && UpTo(before, after, IsRecvInterrupt, Bytes(chunk)))
            && (r.Received? ==> 1 <= r.count <= limit && |after| < |before|)
  {
    SkippingUses(before, RecvInterrupted, IsRecvInterrupt);
    LastIsUnique(before, Rest(Skipping(before, RecvInterrupted)), IsRecvInterrupt);
    hide UpTo, AllUsed, Used, Remains;
  }

  /** The loop around recv. */
  method RecvPastInterrupts(kernel: Kernel, scratchSize: nat) returns (outcome: RecvOutcome)
    modifies kernel`recvs
    ensures outcome == RecvAnswer(Skipping(old(kernel.recvs), RecvInterrupted), scratchSize)
    ensures kernel.recvs == Rest(Skipping(old(kernel.recvs), RecvInterrupted))
  {
    outcome := kernel.Recv(scratchSize);
    while outcome == RecvInterrupted
      invariant outcome != RecvInterrupted ==>
                  && outcome == RecvAnswer(Skipping(old(kernel.recvs), RecvInterrupted), scratchSize)
                  && kernel.recvs == Rest(Skipping(old(kernel.recvs), RecvInterrupted))
      invariant outcome == RecvInterrupted ==>
                  Skipping(kernel.recvs, RecvInterrupted) == Skipping(old(kernel.recvs), RecvInterrupted)
      decreases |kernel.recvs|, if outcome == RecvInterrupted then 1 else 0
    {
      outcome := kernel.Recv(scratchSize);
    }
  }

  /** Skips interrupts and goes by the first other answer: appends exactly the bytes it delivers. */
  method ReceiveNonblocking(conn: Connection, kernel: Kernel, scratchSize: nat) returns (r: RecvResult)
    modifies conn`readBuf, conn`received, kernel`recvs
    ensures r == if scratchSize == 0 then RecvError(InvalidArgument)
                 else if conn.handle == INVALID_SOCKET then RecvError(RecvIoError)
                 else Receipt(RecvAnswer(Skipping(old(kernel.recvs), RecvInterrupted), scratchSize))
    ensures kernel.recvs ==
            if scratchSize == 0 || conn.handle == INVALID_SOCKET then old(kernel.recvs)
            else Rest(Skipping(old(kernel.recvs), RecvInterrupted))
    ensures Remains(old(kernel.recvs), kernel.recvs)
    ensures var bytes := Delivered(Used(old(kernel.recvs), kernel.recvs), scratchSize);
            && conn.received == old(conn.received) + bytes && conn.readBuf == old(conn.readBuf) + bytes
            && |bytes| == if r.Received? then r.count else 0
    ensures r.Received? ==> 1 <= r.count <= scratchSize && |kernel.recvs| < |old(kernel.recvs)|
    ensures r.RecvError? ==> conn.readBuf == old(conn.readBuf) && conn.received == old(conn.received)
    ensures r == RecvError(InvalidArgument) <==> scratchSize == 0
    ensures scratchSize > 0 && conn.handle != INVALID_SOCKET ==>
              var before, after := old(kernel.recvs), kernel.recvs;
              && (r == RecvError(WouldBlockOnRecv) <==> UntilBlocked(before, after, IsRecvInterrupt, RecvWouldBlock))
              && (r == RecvError(PeerClosed) <==> UpTo(before, after, IsRecvInterrupt, Bytes([])))
              && (r == RecvError(RecvIoError) <==> UpTo(before, after, IsRecvInterrupt, RecvFailed))
              && (r.Received? <==> exists chunk :: chunk != [] && UpTo(before, after, IsRecvInterrupt, Bytes(chunk)))
  {
    NothingUsed(kernel.recvs, IsRecvInterrupt);
    if scratchSize == 0 {
      return RecvError(InvalidArgument);
    }
    if conn.handle == INVALID_SOCKET {
      return RecvError(RecvIoError);
    }
    InterruptsDeliverNothing(kernel.recvs, scratchSize);
    ReceiptMeans(kernel.recvs, scratchSize);
    hide UpTo, UntilBlocked, AllUsed, Remains, Used, Delivered;
    var outcome := RecvPastInterrupts(kernel, scratchSize);
    match outcome
    case RecvWouldBlock => return RecvError(WouldBlockOnRecv);
    case RecvFailed => return RecvError(RecvIoError);
    case Bytes(chunk) =>
      if chunk == [] {
        return RecvError(PeerClosed);
      }
      conn.AppendRead(chunk);
      r := Received(|chunk|);
  }

  lemma PostedMeans(before: seq<SendOutcome>, limit: nat)
    requires limit > 0
    ensures var left := Skipping(before, SendInterrupted);
            var r, after := Posted(SendAnswer(left, limit)), Rest(left);
            && (r == SendError(WouldBlockOnSend) <==> UntilBlocked(before, after, IsSendInterrupt, SendWouldBlock))
            && (r == SendError(SendIoError) <==> SendFails(before, after, IsSendInterrupt))
            && (r.Sent? <==> exists n :: n > 0 && UpTo(before, after, IsSendInterrupt, Takes(n)))
            && (r.Sent? ==> 1 <= r.count <= limit)
  {
    SkippingUses(before, SendInterrupted, IsSendInterrupt);
    LastIsUnique(before, Rest(Skipping(before, SendInterrupted)), IsSendInterrupt);
    hide UpTo, AllUsed, Used, Remains;
  }

  /** The loop around send. */
  method SendPastInterrupts(kernel: Kernel, length: nat) returns (outcome: SendOutcome)
    modifies kernel`sends
    ensures outcome == SendAnswer(Skipping(old(kernel.sends), SendInterrupted), length)
    ensures kernel.sends == Rest(Skipping(old(kernel.sends), SendInterrupted))
  {
    outcome := kernel.Send(length);
    while outcome == SendInterrupted
      invariant outcome != SendInterrupted ==>
                  && outcome == SendAnswer(Skipping(old(kernel.sends), SendInterrupted), length)
                  && kernel.sends == Rest(Skipping(old(kernel.sends), SendInterrupted))
      invariant outcome == SendInterrupted ==>
                  Skipping(kernel.sends, SendInterrupted) == Skipping(old(kernel.sends), SendInterrupted)
      decreases |kernel.sends|, if outcome == SendInterrupted then 1 else 0
    {
      outcome := kernel.Send(length);
    }
  }

  /** Skips interrupts and goes by the first other answer: removes exactly the prefix of the write buffer that it
      takes. An empty buffer is not sent at all. */
  method FlushWriteNonblocking(conn: Connection, kernel: Kernel) returns (r: SendResult)
    modifies conn`writeBuf, conn`sent, kernel`sends
    ensures r == if old(conn.writeBuf) == [] then Sent(0)
                 else if conn.handle == INVALID_SOCKET then SendError(SendIoError)
                 else Posted(SendAnswer(Skipping(old(kernel.sends), SendInterrupted), |old(conn.writeBuf)|))
    ensures kernel.sends ==
            if old(conn.writeBuf) == [] || conn.handle == INVALID_SOCKET then old(kernel.sends)
            else Rest(Skipping(old(kernel.sends), SendInterrupted))
    ensures SentOn(old(conn.sent), old(conn.writeBuf), conn.sent, conn.writeBuf, old(kernel.sends), kernel.sends)
    ensures |conn.writeBuf| == |old(conn.writeBuf)| - if r.Sent? then r.count else 0
    ensures r == Sent(0) <==> old(conn.writeBuf) == []
    ensures old(conn.writeBuf) != [] && conn.handle != INVALID_SOCKET ==>
              var before, after := old(kernel.sends), kernel.sends;
              && (r == SendError(WouldBlockOnSend) <==> UntilBlocked(before, after, IsSendInterrupt, SendWouldBlock))
              && (r == SendError(SendIoError) <==> SendFails(before, after, IsSendInterrupt))
              && (r.Sent? <==> exists n :: n > 0 && UpTo(before, after, IsSendInterrupt, Takes(n)))
  {
    NothingSent(conn.sent, conn.writeBuf, kernel.sends);
    if conn.writeBuf == [] {
      return Sent(0);
    }
    if conn.handle == INVALID_SOCKET {
      return SendError(SendIoError);
    }
    InterruptsTakeNothing(kernel.sends, |conn.writeBuf|);
    PostedMeans(kernel.sends, |conn.writeBuf|);
    hide UpTo, UntilBlocked, AllUsed, SendFails, SentOn, Taken, Remains, Used;
    var outcome := SendPastInterrupts(kernel, |conn.writeBuf|);
    match outcome
    case SendWouldBlock =>
      SentOnByOne(conn.sent, conn.writeBuf, old(kernel.sends), kernel.sends, 0);
      return SendError(WouldBlockOnSend);
    case SendFailed =>
      SentOnByOne(conn.sent, conn.writeBuf, old(kernel.sends), kernel.sends, 0);
      return SendError(SendIoError);
    case Takes(count) =>
      if count == 0 {
        SentOnByOne(conn.sent, conn.writeBuf, old(kernel.sends), kernel.sends, 0);
        return SendError(SendIoError);
      }
      assert count <= |conn.writeBuf|;
      SentOnByOne(conn.sent, conn.writeBuf, old(kernel.sends), kernel.sends, count);
      conn.ConsumeWrite(count);
      r := Sent(count);
  }

  // ---------------------------------------------------------------- how the kernel behaved meanwhile

  function NewHandles(used: seq<AcceptOutcome>): seq<NativeSocket> {
    if used == [] then []
    else (if used[0].NewSocket? then [used[0].handle] else []) + NewHandles(used[1..])
  }

  /** Between two moments no call has failed: every client that the script of accept names was handed out, and nothing
      else has been opened. */
  ghost predicate Onward(since: KernelState, now: KernelState) {
    && AllUsed(since.recvs, now.recvs, RecvWorks)
    && AllUsed(since.sends, now.sends, SendWorks)
    && AllUsed(since.accepts, now.accepts, AcceptWorks)
    && now.handedOut == since.handedOut + NewHandles(Used(since.accepts, now.accepts))
    && forall h :: h in now.open ==> h in since.open || NewSocket(h) in Used(since.accepts, now.accepts)
  }

  /** The last answer of recv that was used, and no earlier one, reported a failure; likewise for send. */
  ghost predicate RecvFault(since: KernelState, now: KernelState) {
    UpTo(since.recvs, now.recvs, RecvWorks, RecvFailed)
  }

  ghost predicate SendFault(since: KernelState, now: KernelState) {
    SendFails(since.sends, now.sends, SendWorks)
  }

  ghost predicate SendFails(before: seq<SendOutcome>, after: seq<SendOutcome>, goesOn: SendOutcome -> bool) {
    UpTo(before, after, goesOn, SendFailed) || UpTo(before, after, goesOn, Takes(0))
  }

  /** The last answer of accept that was used reported a failure, or named a descriptor that no kernel hands out then:
      the invalid one, one that had been open, or one that it had handed out before. */
  ghost predicate AcceptFault(since: KernelState, now: KernelState) {
    || UpTo(since.accepts, now.accepts, AcceptWorks, AcceptFailed)
    || exists h :: UpTo(since.accepts, now.accepts, AcceptWorks, NewSocket(h)) && Untimely(since, now, h)
  }

  ghost predicate Untimely(since: KernelState, now: KernelState, h: NativeSocket)
    requires |now.accepts| < |since.accepts|
  {
    || h == INVALID_SOCKET || h in since.open
    || NewSocket(h) in since.accepts[..|since.accepts| - |now.accepts| - 1]
  }

  lemma NewHandlesFront(a: seq<AcceptOutcome>, b: seq<AcceptOutcome>)
    requires a != []
    ensures var first := if a[0].NewSocket? then [a[0].handle] else [];
            NewHandles(a) == first + NewHandles(a[1..]) && NewHandles(a + b) == first + NewHandles(a[1..] + b)
  {
    assert (a + b)[0] == a[0] && (a + b)[1..] == a[1..] + b;
  }

  lemma {:induction false} NewHandlesConcat(a: seq<AcceptOutcome>, b: seq<AcceptOutcome>)
    ensures NewHandles(a + b) == NewHandles(a) + NewHandles(b)
    decreases |a|
  {
    if a == [] {
      assert a + b == b;
    } else {
      NewHandlesConcat(a[1..], b);
      NewHandlesFront(a, b);
      hide NewHandles;
    }
  }

  lemma OnwardItself(now: KernelState)
    ensures Onward(now, now)
  {
    NothingUsed(now.recvs, RecvWorks);
    NothingUsed(now.sends, SendWorks);
    NothingUsed(now.accepts, AcceptWorks);
  }

  /** Reading, sending and closing. */
  lemma OnwardByTalking(since: KernelState, now: KernelState)
    requires AllUsed(since.recvs, now.recvs, RecvWorks) && AllUsed(since.sends, now.sends, SendWorks)
    requires now.accepts == since.accepts && now.handedOut == since.handedOut && now.open <= since.open
    ensures Onward(since, now)
  {
    NothingUsed(now.accepts, AcceptWorks);
  }

  lemma OnwardByClosing(since: KernelState, at: KernelState, now: KernelState)
    requires Onward(since, at) && now == at.(open := now.open) && now.open <= at.open
    ensures Onward(since, now)
  {
    hide AllUsed;
  }

  /** One accept that would block or hands out a client. */
  lemma OnwardByAccepting(since: KernelState, now: KernelState, r: AcceptOutcome)
    requires now.recvs == since.recvs && now.sends == since.sends && now.accepts == Rest(since.accepts)
    requires r == (if since.accepts == [] then AcceptWouldBlock else Plausible(since.accepts[0], since.open))
    requires now.open == since.open + if r.NewSocket? then {r.handle} else {}
    requires now.handedOut == since.handedOut + if r.NewSocket? then [r.handle] else []
    ensures r != AcceptFailed ==> Onward(since, now)
    ensures r == AcceptFailed ==> AcceptFault(since, now)
    ensures r.NewSocket? ==> AllUsed(since.accepts, now.accepts, AcceptsOn)
    ensures r == AcceptWouldBlock ==> UntilBlocked(since.accepts, now.accepts, AcceptsOn, AcceptWouldBlock)
  {
    NothingUsed(now.recvs, RecvWorks);
    NothingUsed(now.sends, SendWorks);
    OneUsed(since.accepts);
    if r == AcceptFailed && since.accepts[0] != AcceptFailed {
      assert Untimely(since, now, since.accepts[0].handle);
    }
  }

  lemma OnwardThenOnward(a: KernelState, b: KernelState, c: KernelState)
    requires Onward(a, b) && Onward(b, c)
    ensures Onward(a, c)
  {
    ThenFurther(a.recvs, b.recvs, c.recvs, RecvWorks);
    ThenFurther(a.sends, b.sends, c.sends, SendWorks);
    ThenFurther(a.accepts, b.accepts, c.accepts, AcceptWorks);
    UpToRemains(a.accepts, b.accepts, AcceptWorks);
    UpToRemains(b.accepts, c.accepts, AcceptWorks);
    hide AllUsed, Used, Remains, NewHandles;
    HandedOutInTurn(a, b, c);
  }

  lemma HandedOutInTurn(a: KernelState, b: KernelState, c: KernelState)
    requires Remains(a.accepts, b.accepts) && Remains(b.accepts, c.accepts)
    requires b.handedOut == a.handedOut + NewHandles(Used(a.accepts, b.accepts))
    requires c.handedOut == b.handedOut + NewHandles(Used(b.accepts, c.accepts))
    ensures Remains(a.accepts, c.accepts)
    ensures c.handedOut == a.handedOut + NewHandles(Used(a.accepts, c.accepts))
    ensures forall h :: NewSocket(h) in Used(a.accepts, b.accepts) || NewSocket(h) in Used(b.accepts, c.accepts) ==>
              NewSocket(h) in Used(a.accepts, c.accepts)
  {
    hide Remains, Used, NewHandles;
    RemainsThenRemains(a.accepts, b.accepts, c.accepts);
    HandedOutConcat(a.handedOut, Used(a.accepts, b.accepts), Used(b.accepts, c.accepts));
  }

  lemma HandedOutConcat(before: seq<NativeSocket>, first: seq<AcceptOutcome>, second: seq<AcceptOutcome>)
    ensures before + NewHandles(first + second) == before + NewHandles(first) + NewHandles(second)
    ensures forall h :: NewSocket(h) in first || NewSocket(h) in second ==> NewSocket(h) in first + second
  {
    NewHandlesConcat(first, second);
  }

  lemma OnwardThenFault(a: KernelState, b: KernelState, c: KernelState)
    requires Onward(a, b)
    ensures RecvFault(b, c) ==> RecvFault(a, c)
    ensures SendFault(b, c) ==> SendFault(a, c)
    ensures AcceptFault(b, c) ==> AcceptFault(a, c)
  {
    ThenFurther(a.recvs, b.recvs, c.recvs, RecvWorks);
    ThenFurther(a.sends, b.sends, c.sends, SendWorks);
    ThenFurther(a.accepts, b.accepts, c.accepts, AcceptWorks);
    if h :| UpTo(b.accepts, c.accepts, AcceptWorks, NewSocket(h)) && Untimely(b, c, h) {
      OnwardThenUntimely(a, b, c, h);
    }
  }

  lemma OnwardThenUntimely(a: KernelState, b: KernelState, c: KernelState, h: NativeSocket)
    requires Onward(a, b) && UpTo(b.accepts, c.accepts, AcceptWorks, NewSocket(h)) && Untimely(b, c, h)
    ensures |c.accepts| < |a.accepts| && Untimely(a, c, h)
  {
    RemainsThenRemains(a.accepts, b.accepts, c.accepts);
    var used, before := Used(a.accepts, b.accepts), a.accepts[..|a.accepts| - |c.accepts| - 1];
    assert before == used + b.accepts[..|b.accepts| - |c.accepts| - 1];
  }

  /** The kernel never reports a failure and hands out each descriptor only once, and none that is open or invalid. */
  ghost predicate Blameless(k: KernelState) {
    && (forall i :: 0 <= i < |k.recvs| ==> RecvWorks(k.recvs[i]))
    && (forall i :: 0 <= i < |k.sends| ==> SendWorks(k.sends[i]))
    && (forall i :: 0 <= i < |k.accepts| ==> AcceptWorks(k.accepts[i]))
    && (forall i :: 0 <= i < |k.accepts| && k.accepts[i].NewSocket? ==>
          k.accepts[i].handle != INVALID_SOCKET && k.accepts[i].handle !in k.open)
    && (forall i, j :: 0 <= i < j < |k.accepts| && k.accepts[i].NewSocket? ==> k.accepts[i] != k.accepts[j])
  }

  lemma BlamelessHasNoFaults(since: KernelState, now: KernelState)
    requires Blameless(since)
    ensures !RecvFault(since, now) && !SendFault(since, now) && !AcceptFault(since, now)
  {
    if h :| UpTo(since.accepts, now.accepts, AcceptWorks, NewSocket(h)) && Untimely(since, now, h) {
      assert false;
    }
  }

  // ---------------------------------------------------------------- one more call on the way

  /** One more receive on a connection that has been read on. */
  lemma ReadFurther(a: seq<RecvOutcome>, b: seq<RecvOutcome>, c: seq<RecvOutcome>)
    requires AllUsed(a, b, ReadsOn)
    ensures AllUsed(b, c, ReadsOn) ==> AllUsed(a, c, ReadsOn)
    ensures UntilBlocked(b, c, IsRecvInterrupt, RecvWouldBlock) ==> UntilBlocked(a, c, ReadsOn, RecvWouldBlock)
    ensures forall x :: UpTo(b, c, IsRecvInterrupt, x) ==> UpTo(a, c, ReadsOn, x)
    ensures UntilBlocked(a, c, ReadsOn, RecvWouldBlock) ==> AllUsed(a, c, RecvWorks)
    ensures UpTo(a, c, ReadsOn, Bytes([])) ==> AllUsed(a, c, RecvWorks)
    ensures UpTo(a, c, ReadsOn, RecvFailed) ==> UpTo(a, c, RecvWorks, RecvFailed)
  {
    GoesOnMore(b, c, IsRecvInterrupt, ReadsOn);
    ThenFurther(a, b, c, ReadsOn);
    GoesOnMore(a, c, ReadsOn, RecvWorks);
    hide AllUsed, UpTo;
  }

  lemma AcceptFurther(a: KernelState, b: KernelState, c: KernelState, r: AcceptOutcome)
    requires Onward(a, b) && AllUsed(a.accepts, b.accepts, AcceptsOn)
    requires c.recvs == b.recvs && c.sends == b.sends && c.accepts == Rest(b.accepts)
    requires r == (if b.accepts == [] then AcceptWouldBlock else Plausible(b.accepts[0], b.open))
    requires c.open == b.open + if r.NewSocket? then {r.handle} else {}
    requires c.handedOut == b.handedOut + if r.NewSocket? then [r.handle] else []
    ensures r != AcceptFailed ==> Onward(a, c)
    ensures r == AcceptFailed ==> AcceptFault(a, c)
    ensures r.NewSocket? ==> AllUsed(a.accepts, c.accepts, AcceptsOn)
    ensures r == AcceptWouldBlock ==> UntilBlocked(a.accepts, c.accepts, AcceptsOn, AcceptWouldBlock)
  {
    OnwardByAccepting(b, c, r);
    ThenFurther(a.accepts, b.accepts, c.accepts, AcceptsOn);
    hide AllUsed, UntilBlocked, UpTo, Onward, AcceptFault;
    if r == AcceptFailed {
      OnwardThenFault(a, b, c);
    } else {
      OnwardThenOnward(a, b, c);
    }
  }

  /** A flush, from its own start. */
  lemma FlushWorks(a: KernelState, b: KernelState)
    requires b.recvs == a.recvs && b.accepts == a.accepts && b.handedOut == a.handedOut && b.open == a.open
    ensures AllUsed(a.sends, b.sends, SendsOn) ==> Onward(a, b)
    ensures UntilBlocked(a.sends, b.sends, SendsOn, SendWouldBlock) ==> Onward(a, b)
    ensures UntilBlocked(a.sends, b.sends, SendsOn, SendWouldBlock) ==>
              UntilBlocked(a.sends, b.sends, SendWorks, SendWouldBlock)
    ensures SendFails(a.sends, b.sends, SendsOn) ==> SendFault(a, b)
  {
    GoesOnMore(a.sends, b.sends, SendsOn, SendWorks);
    NothingUsed(a.recvs, RecvWorks);
    if AllUsed(a.sends, b.sends, SendWorks) {
      OnwardByTalking(a, b);
    }
  }

  /** A flush later on. */
  lemma FlushFurther(a: KernelState, b: KernelState, c: KernelState)
    requires Onward(a, b)
    ensures Onward(b, c) ==> Onward(a, c)
    ensures UntilBlocked(b.sends, c.sends, SendWorks, SendWouldBlock) ==>
              UntilBlocked(a.sends, c.sends, SendWorks, SendWouldBlock)
  {
    ThenFurther(a.sends, b.sends, c.sends, SendWorks);
    if Onward(b, c) {
      OnwardThenOnward(a, b, c);
    }
    hide AllUsed, UntilBlocked, UpTo;
  }
}
