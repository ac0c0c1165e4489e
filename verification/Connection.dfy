/** One client connection: its socket handle and its two byte buffers, edited in place. */
module Connection {
  import opened Codec

  /** A descriptor: a 32-bit signed integer, of which -1 means no socket. */
  newtype NativeSocket = x: int | -0x8000_0000 <= x < 0x8000_0000

  const INVALID_SOCKET: NativeSocket := -1

  datatype ConnectionState = Closed | Reading | Parsing | Handling | Writing | Closing

  function Min(a: nat, b: nat): nat {
    if a < b then a else b
  }

  class Connection {
    const handle: NativeSocket
    var state: ConnectionState
    var readBuf: seq<byte>
    var writeBuf: seq<byte>
    /** Everything the peer's bytes have become so far: all bytes received, and all bytes sent. */
    ghost var received: seq<byte>
    ghost var sent: seq<byte>

    constructor (handle: NativeSocket)
      ensures this.handle == handle && state == Reading
      ensures readBuf == writeBuf == received == sent == []
    {
      this.handle := handle;
      state := Reading;
      readBuf, writeBuf := [], [];
      received, sent := [], [];
    }

    method SetState(state: ConnectionState)
      modifies this`state
      ensures this.state == state
    {
      this.state := state;
    }

    method AppendRead(data: seq<byte>)
      modifies this`readBuf, this`received
      ensures readBuf == old(readBuf) + data
      ensures received == old(received) + data
    {
      readBuf := readBuf + data;
      received := received + data;
    }

    /** A count beyond the end, which debug builds assert against, empties the buffer. */
    method ConsumeRead(byteCount: nat)
      modifies this`readBuf
      ensures readBuf == old(readBuf)[Min(byteCount, |old(readBuf)|)..]
    {
      if byteCount >= |readBuf| {
        readBuf := [];
        return;
      }
      readBuf := readBuf[byteCount..];
    }

    method AppendWrite(data: seq<byte>)
      modifies this`writeBuf
      ensures writeBuf == old(writeBuf) + data
    {
      writeBuf := writeBuf + data;
    }

    /** Called when the kernel has taken a prefix of the write buffer. */
    method ConsumeWrite(byteCount: nat)
      modifies this`writeBuf, this`sent
      ensures var n := Min(byteCount, |old(writeBuf)|);
              writeBuf == old(writeBuf)[n..] && sent == old(sent) + old(writeBuf)[..n]
    {
      sent := sent + writeBuf[..Min(byteCount, |writeBuf|)];
      if byteCount >= |writeBuf| {
        writeBuf := [];
        return;
      }
      writeBuf := writeBuf[byteCount..];
    }

    method ClearRead()
      modifies this`readBuf
      ensures readBuf == []
    {
      readBuf := [];
    }

    method ClearWrite()
      modifies this`writeBuf
      ensures writeBuf == []
    {
      writeBuf := [];
    }

    /** The encoder's overload for a connection's write buffer. */
    method AppendFrame(payload: seq<byte>, maxPayloadBytes: nat) returns (r: EncodeResult)
      modifies this`writeBuf
      ensures r == Encoded <==> |payload| <= maxPayloadBytes && |payload| <= 0xFFFF_FFFF
      ensures writeBuf == old(writeBuf) + if r == Encoded then Encode(payload) else []
    {
      var out := new ByteVector(writeBuf);
      r := AppendEncodedFrame(out, payload, maxPayloadBytes);
      writeBuf := out.bytes;
    }
  }
}
