/** What an echo connection owes its peer, as a relation between the bytes received so far, the bytes sent so
    far and the two buffers. */
module EchoContract {
  import opened Codec
  import opened FrameStream

  /** Between events: every received byte is sent, waiting to be sent, or part of the unfinished last frame. */
  predicate Exact(received: seq<byte>, sent: seq<byte>, writeBuf: seq<byte>, readBuf: seq<byte>, cap: nat) {
    && sent + writeBuf + readBuf == received
    && ParseAll(received, cap).rest == readBuf
    && !ParseAll(received, cap).oversized
  }

  /** While frames are being taken off the read buffer. */
  predicate InProgress(received: seq<byte>, sent: seq<byte>, writeBuf: seq<byte>, readBuf: seq<byte>, cap: nat) {
    && sent + writeBuf + readBuf == received
    && ParseAll(received, cap).rest == ParseAll(readBuf, cap).rest
    && ParseAll(received, cap).oversized == ParseAll(readBuf, cap).oversized
  }

  lemma FreshIsExact(cap: nat)
    ensures Exact([], [], [], [], cap)
  {
    EmptyParse(cap);
  }

  /** The output is a function of the input alone: however the input was cut into chunks and however partial
      the sends were, what was sent and what waits to be sent are together the encoding of the frames received,
      so what was sent is an exact prefix of the input. */
  lemma OutputRefinesInput(received: seq<byte>, sent: seq<byte>, writeBuf: seq<byte>,
                                              readBuf: seq<byte>, cap: nat)
    ensures Exact(received, sent, writeBuf, readBuf, cap)
       <==> && sent + writeBuf + readBuf == received
            && WithinCap(ParseAll(received, cap).frames, cap)
            && sent + writeBuf == EncodeAll(ParseAll(received, cap).frames, cap)
            && DecodeFrame(readBuf, cap).status == Incomplete
    ensures Exact(received, sent, writeBuf, readBuf, cap) ==> sent <= received
  {
    hide DecodeFrame, ParseAll, EncodeAll;
    ParseIsCanonical(received, cap);
    var p := ParseAll(received, cap);
    var out := EncodeAll(p.frames, cap);
    assert out + p.rest == received;
    if sent + writeBuf + readBuf == received {
      assert |sent + writeBuf| == |out| ==>
               sent + writeBuf == received[..|out|] == out && readBuf == received[|out|..] == p.rest;
    }
  }

  /** Sending moves bytes from the write buffer to the bytes sent. */
  lemma SendingKeepsExact(received: seq<byte>, sent: seq<byte>, writeBuf: seq<byte>, readBuf: seq<byte>,
                          sent': seq<byte>, writeBuf': seq<byte>, cap: nat)
    requires Exact(received, sent, writeBuf, readBuf, cap) && sent' + writeBuf' == sent + writeBuf
    ensures Exact(received, sent', writeBuf', readBuf, cap) && sent' <= received
  {
    hide ParseAll;
  }

  lemma ReceiveBegins(received: seq<byte>, sent: seq<byte>, writeBuf: seq<byte>, readBuf: seq<byte>,
                      chunk: seq<byte>, cap: nat)
    requires Exact(received, sent, writeBuf, readBuf, cap)
    ensures InProgress(received + chunk, sent, writeBuf, readBuf + chunk, cap)
    ensures |ParseAll(received + chunk, cap).frames|
         == |ParseAll(received, cap).frames| + |ParseAll(readBuf + chunk, cap).frames|
  {
    hide ParseAll;
    ParseAppend(received, chunk, cap);
  }

  /** Replacing a decoded frame by its encoding: the encoder always accepts it. */
  lemma EchoOneFrame(received: seq<byte>, sent: seq<byte>, writeBuf: seq<byte>,
                                        readBuf: seq<byte>, cap: nat)
    requires InProgress(received, sent, writeBuf, readBuf, cap)
    requires DecodeFrame(readBuf, cap).status == Complete
    ensures var r := DecodeFrame(readBuf, cap);
            && |r.payload| <= EffectiveMaxPayload(cap) && |Encode(r.payload)| > 0
            && InProgress(received, sent, writeBuf + Encode(r.payload), readBuf[r.consumedBytes..], cap)
            && |ParseAll(readBuf, cap).frames| == 1 + |ParseAll(readBuf[r.consumedBytes..], cap).frames|
  {
    hide DecodeFrame, Encode;
    EncodeDecode(readBuf, cap);
    var r := DecodeFrame(readBuf, cap);
    assert sent + (writeBuf + Encode(r.payload)) + readBuf[r.consumedBytes..] == sent + writeBuf + readBuf;
  }

  lemma NothingLeftToDecode(received: seq<byte>, sent: seq<byte>, writeBuf: seq<byte>, readBuf: seq<byte>, cap: nat)
    requires InProgress(received, sent, writeBuf, readBuf, cap)
    ensures DecodeFrame(readBuf, cap).status == Incomplete ==> Exact(received, sent, writeBuf, readBuf, cap)
    ensures DecodeFrame(readBuf, cap).status == OversizedLength ==> ParseAll(received, cap).oversized
  {
    hide DecodeFrame;
  }
}
