/** Streams of frames: what repeated decoding extracts from a byte stream, however it is cut up. */
module FrameStream {
  import opened Codec

  /** The frames at the front of a stream, the bytes after them, and whether those bytes
      declare a length above the cap (otherwise they are the start of an unfinished frame). */
  datatype Parse = Parse(frames: seq<seq<byte>>, rest: seq<byte>, oversized: bool)

  function Prepend(frames: seq<seq<byte>>, p: Parse): Parse {
    p.(frames := frames + p.frames)
  }

  /** One-shot decoding of a whole stream. */
  function ParseAll(stream: seq<byte>, maxPayloadBytes: nat): (p: Parse)
    ensures |p.rest| <= |stream|
  {
    var r := DecodeFrame(stream, maxPayloadBytes);
    match r.status
    case Incomplete => Parse([], stream, false)
    case OversizedLength => Parse([], stream, true)
    case Complete => Prepend([r.payload], ParseAll(stream[r.consumedBytes..], maxPayloadBytes))
  }

  predicate WithinCap(frames: seq<seq<byte>>, maxPayloadBytes: nat) {
    forall i :: 0 <= i < |frames| ==> |frames[i]| <= EffectiveMaxPayload(maxPayloadBytes)
  }

  function EncodeAll(frames: seq<seq<byte>>, maxPayloadBytes: nat): seq<byte>
    requires WithinCap(frames, maxPayloadBytes)
  {
    if frames == [] then [] else Encode(frames[0]) + EncodeAll(frames[1..], maxPayloadBytes)
  }

  lemma EncodeAllNil(maxPayloadBytes: nat)
    ensures EncodeAll([], maxPayloadBytes) == []
  {
  }

  lemma EncodeAllCons(frame: seq<byte>, frames: seq<seq<byte>>, maxPayloadBytes: nat)
    requires |frame| <= EffectiveMaxPayload(maxPayloadBytes) && WithinCap(frames, maxPayloadBytes)
    ensures WithinCap([frame] + frames, maxPayloadBytes)
    ensures EncodeAll([frame] + frames, maxPayloadBytes) == Encode(frame) + EncodeAll(frames, maxPayloadBytes)
  {
    hide Encode;
    assert ([frame] + frames)[1..] == frames;
  }

  lemma ParseStep(stream: seq<byte>, maxPayloadBytes: nat)
    ensures var r, p := DecodeFrame(stream, maxPayloadBytes), ParseAll(stream, maxPayloadBytes);
            if r.status == Complete then
              LENGTH_FIELD_BYTES <= r.consumedBytes <= |stream|
              && p == Prepend([r.payload], ParseAll(stream[r.consumedBytes..], maxPayloadBytes))
            else p == Parse([], stream, r.status == OversizedLength)
  {
    hide DecodeFrame;
  }

  /** Re-encoding the frames reproduces the consumed bytes: nothing is lost, added or reordered. */
  lemma {:induction false} ParseIsCanonical(stream: seq<byte>, maxPayloadBytes: nat)
    ensures var p := ParseAll(stream, maxPayloadBytes);
            && WithinCap(p.frames, maxPayloadBytes)
            && EncodeAll(p.frames, maxPayloadBytes) + p.rest == stream
            && DecodeFrame(p.rest, maxPayloadBytes).status
               == (if p.oversized then OversizedLength else Incomplete)
    decreases |stream|
  {
    hide DecodeFrame, Encode, EncodeAll, ParseAll;
    ParseStep(stream, maxPayloadBytes);
    var r := DecodeFrame(stream, maxPayloadBytes);
    if r.status == Complete {
      EncodeDecode(stream, maxPayloadBytes);
      var tail := stream[r.consumedBytes..];
      var p := ParseAll(tail, maxPayloadBytes);
      ParseIsCanonical(tail, maxPayloadBytes);
      hide WithinCap;
      EncodeAllCons(r.payload, p.frames, maxPayloadBytes);
      assert stream == stream[..r.consumedBytes] + tail;
      assert Encode(r.payload) + (EncodeAll(p.frames, maxPayloadBytes) + p.rest)
          == (Encode(r.payload) + EncodeAll(p.frames, maxPayloadBytes)) + p.rest;
    } else {
      EncodeAllNil(maxPayloadBytes);
    }
  }

  /** Decoding a concatenation of encodings returns the list that was encoded, then parses what follows. */
  lemma {:induction false} ParseEncoded(frames: seq<seq<byte>>, tail: seq<byte>, maxPayloadBytes: nat)
    requires WithinCap(frames, maxPayloadBytes)
    ensures ParseAll(EncodeAll(frames, maxPayloadBytes) + tail, maxPayloadBytes)
         == Prepend(frames, ParseAll(tail, maxPayloadBytes))
    decreases |frames|
  {
    hide DecodeFrame, BigEndian, ParseAll;
    if frames == [] {
      assert EncodeAll(frames, maxPayloadBytes) + tail == tail;
    } else {
      var remaining := EncodeAll(frames[1..], maxPayloadBytes) + tail;
      var stream := EncodeAll(frames, maxPayloadBytes) + tail;
      assert stream == Encode(frames[0]) + remaining;
      DecodeEncode(frames[0], remaining, maxPayloadBytes);
      assert stream[LENGTH_FIELD_BYTES + |frames[0]|..] == remaining;
      ParseStep(stream, maxPayloadBytes);
      ParseEncoded(frames[1..], tail, maxPayloadBytes);
      assert [frames[0]] + frames[1..] == frames;
      assert [frames[0]] + (frames[1..] + ParseAll(tail, maxPayloadBytes).frames)
          == frames + ParseAll(tail, maxPayloadBytes).frames;
    }
  }

  /** The framing is unambiguous: there is exactly one way to read a stream as complete frames
      followed by an unfinished one, and parsing finds it. */
  lemma ParseIsUnique(stream: seq<byte>, frames: seq<seq<byte>>, rest: seq<byte>, maxPayloadBytes: nat)
    ensures ParseAll(stream, maxPayloadBytes) == Parse(frames, rest, false)
       <==> && WithinCap(frames, maxPayloadBytes)
            && stream == EncodeAll(frames, maxPayloadBytes) + rest
            && DecodeFrame(rest, maxPayloadBytes).status == Incomplete
  {
    ParseIsCanonical(stream, maxPayloadBytes);
    if WithinCap(frames, maxPayloadBytes) {
      ParseEncoded(frames, rest, maxPayloadBytes);
    }
  }

  /** Two-sided inverse: a list within the cap survives encoding and decoding with nothing left over. */
  lemma FramingRoundTrip(frames: seq<seq<byte>>, maxPayloadBytes: nat)
    requires WithinCap(frames, maxPayloadBytes)
    ensures ParseAll(EncodeAll(frames, maxPayloadBytes), maxPayloadBytes) == Parse(frames, [], false)
  {
    ParseEncoded(frames, [], maxPayloadBytes);
    assert EncodeAll(frames, maxPayloadBytes) + [] == EncodeAll(frames, maxPayloadBytes);
  }

  /** What a parse becomes when more input arrives. */
  function ParseMore(p: Parse, more: seq<byte>, maxPayloadBytes: nat): Parse {
    if p.oversized then p.(rest := p.rest + more)
    else Prepend(p.frames, ParseAll(p.rest + more, maxPayloadBytes))
  }

  /** Input that arrives later only ever extends what was parsed before. */
  lemma {:induction false} ParseAppend(stream: seq<byte>, more: seq<byte>, maxPayloadBytes: nat)
    ensures ParseAll(stream + more, maxPayloadBytes)
         == ParseMore(ParseAll(stream, maxPayloadBytes), more, maxPayloadBytes)
    decreases |stream|
  {
    hide DecodeFrame;
    var r := DecodeFrame(stream, maxPayloadBytes);
    if r.status != Incomplete {
      VerdictIsFinal(stream, more, maxPayloadBytes);
    }
    if r.status == Complete {
      var tail := stream[r.consumedBytes..];
      ParseAppend(tail, more, maxPayloadBytes);
      assert (stream + more)[r.consumedBytes..] == tail + more;
      var q := ParseAll(tail, maxPayloadBytes);
      assert ([r.payload] + q.frames) + ParseAll(q.rest + more, maxPayloadBytes).frames
          == [r.payload] + (q.frames + ParseAll(q.rest + more, maxPayloadBytes).frames);
    }
  }

  lemma EmptyParse(maxPayloadBytes: nat)
    ensures ParseAll([], maxPayloadBytes) == Parse([], [], false)
  {
  }

  function Flatten(chunks: seq<seq<byte>>): seq<byte> {
    if chunks == [] then [] else Flatten(chunks[..|chunks| - 1]) + chunks[|chunks| - 1]
  }

  lemma {:induction false} FlattenConcat(a: seq<seq<byte>>, b: seq<seq<byte>>)
    ensures Flatten(a + b) == Flatten(a) + Flatten(b)
    decreases |b|
  {
    if b == [] {
      assert a + b == a;
    } else {
      var last := |b| - 1;
      assert (a + b)[..|a + b| - 1] == a + b[..last];
      FlattenConcat(a, b[..last]);
    }
  }

  /** Decodes frames off the front of a buffer, erasing each, until one is incomplete or oversized. */
  method DecodeUntilIncomplete(endian: Endian, buffer: seq<byte>, maxPayloadBytes: nat)
    returns (frames: seq<seq<byte>>, rest: seq<byte>, oversized: bool)
    ensures Parse(frames, rest, oversized) == ParseAll(buffer, maxPayloadBytes)
  {
    frames, rest := [], buffer;
    while true
      invariant ParseAll(buffer, maxPayloadBytes) == Prepend(frames, ParseAll(rest, maxPayloadBytes))
      decreases |rest|
    {
      var decoded := TryDecodeFrame(endian, rest, maxPayloadBytes);
      if decoded.status != Complete {
        return frames, rest, decoded.status == OversizedLength;
      }
      ghost var tail := ParseAll(rest[decoded.consumedBytes..], maxPayloadBytes);
      assert frames + ([decoded.payload] + tail.frames) == frames + [decoded.payload] + tail.frames;
      frames := frames + [decoded.payload];
      rest := rest[decoded.consumedBytes..];
    }
  }

  /** The receive loop on one connection: append a chunk, decode until incomplete, and give up on the
      connection at the first oversized length. For every way of cutting a stream into chunks the frames
      and the verdict are those of decoding the whole stream at once, and so is the residue once the
      chunks that were never received are added. */
  method ReceiveInChunks(endian: Endian, chunks: seq<seq<byte>>, maxPayloadBytes: nat)
    returns (frames: seq<seq<byte>>, rest: seq<byte>, oversized: bool, received: nat)
    ensures received <= |chunks|
    ensures !oversized ==> received == |chunks|
    ensures Parse(frames, rest + Flatten(chunks[received..]), oversized)
         == ParseAll(Flatten(chunks), maxPayloadBytes)
  {
    hide DecodeFrame, ParseAll;
    frames, rest, oversized, received := [], [], false, 0;
    EmptyParse(maxPayloadBytes);
    while received < |chunks| && !oversized
      invariant received <= |chunks|
      invariant Parse(frames, rest, oversized) == ParseAll(Flatten(chunks[..received]), maxPayloadBytes)
    {
      var before := Flatten(chunks[..received]);
      assert chunks[..received + 1][..received] == chunks[..received];
      ParseAppend(before, chunks[received], maxPayloadBytes);
      var more: seq<seq<byte>>;
      more, rest, oversized := DecodeUntilIncomplete(endian, rest + chunks[received], maxPayloadBytes);
      frames := frames + more;
      received := received + 1;
    }
    if oversized {
      assert chunks[..received] + chunks[received..] == chunks;
      FlattenConcat(chunks[..received], chunks[received..]);
      ParseAppend(Flatten(chunks[..received]), Flatten(chunks[received..]), maxPayloadBytes);
    } else {
      assert chunks[..received] == chunks && chunks[received..] == [];
      assert rest + [] == rest;
    }
  }

  // ---------------------------------------------------------------- the decoder benchmark

  const BENCHMARK_MAX_PAYLOAD: nat := 0x10_0000

  function BenchmarkByte(i: nat): byte {
    (((i % 0x100) as bv8) ^ 0x5A) as byte
  }

  /** The payload of frame f: a fixed pattern whose first byte counts frames. */
  function BenchmarkPayload(payloadBytes: nat, f: nat): (p: seq<byte>)
    ensures |p| == payloadBytes
  {
    seq(payloadBytes, i requires 0 <= i => if i == 0 then (f % 0x100) as byte else BenchmarkByte(i))
  }

  function BenchmarkFrames(payloadBytes: nat, frameCount: nat): (frames: seq<seq<byte>>)
    ensures |frames| == frameCount
    ensures forall i :: 0 <= i < frameCount ==> frames[i] == BenchmarkPayload(payloadBytes, i)
  {
    seq(frameCount, f requires 0 <= f => BenchmarkPayload(payloadBytes, f))
  }

  /** The first byte of each payload counts frames, the others are their index with four bits flipped. */
  lemma BenchmarkBytes(payloadBytes: nat, frameCount: nat, f: nat, i: nat)
    requires f < frameCount && i < payloadBytes
    ensures var frames := BenchmarkFrames(payloadBytes, frameCount);
            frames[f][i] == if i == 0 then (f % 0x100) as byte else (((i % 0x100) as bv8) ^ 0x5A) as byte
  {
  }

  lemma {:induction false} EncodeAllSnoc(frames: seq<seq<byte>>, last: seq<byte>, maxPayloadBytes: nat)
    requires WithinCap(frames + [last], maxPayloadBytes)
    ensures WithinCap(frames, maxPayloadBytes) && |last| <= EffectiveMaxPayload(maxPayloadBytes)
    ensures EncodeAll(frames + [last], maxPayloadBytes) == EncodeAll(frames, maxPayloadBytes) + Encode(last)
    decreases |frames|
  {
    hide Encode;
    var all := frames + [last];
    assert forall i :: 0 <= i < |frames| ==> frames[i] == all[i];
    assert |last| == |all[|frames|]|;
    if frames == [] {
      assert all[1..] == [];
    } else {
      assert all[1..] == frames[1..] + [last];
      EncodeAllSnoc(frames[1..], last, maxPayloadBytes);
    }
  }

  lemma BenchmarkGrows(payloadBytes: nat, f: nat)
    requires payloadBytes <= BENCHMARK_MAX_PAYLOAD
    ensures var frames, more := BenchmarkFrames(payloadBytes, f), BenchmarkFrames(payloadBytes, f + 1);
            && WithinCap(frames, BENCHMARK_MAX_PAYLOAD) && WithinCap(more, BENCHMARK_MAX_PAYLOAD)
            && EncodeAll(more, BENCHMARK_MAX_PAYLOAD)
               == EncodeAll(frames, BENCHMARK_MAX_PAYLOAD) + Encode(BenchmarkPayload(payloadBytes, f))
  {
    hide Encode, EncodeAll, BenchmarkPayload;
    var frames, payload := BenchmarkFrames(payloadBytes, f), BenchmarkPayload(payloadBytes, f);
    assert BenchmarkFrames(payloadBytes, f + 1) == frames + [payload];
    EncodeAllSnoc(frames, payload, BENCHMARK_MAX_PAYLOAD);
  }

  lemma NoBenchmarkFrames(payloadBytes: nat)
    ensures WithinCap(BenchmarkFrames(payloadBytes, 0), BENCHMARK_MAX_PAYLOAD)
    ensures EncodeAll(BenchmarkFrames(payloadBytes, 0), BENCHMARK_MAX_PAYLOAD) == []
  {
  }

  /** A negative count, converted to an unsigned size, makes the vector's reserve throw. */
  datatype Stream = Wire(bytes: seq<byte>) | LengthError

  method MakeStream(payloadBytes: nat, frameCount: int) returns (r: Stream)
    ensures r == LengthError <==> frameCount < 0
    ensures frameCount > 0 && payloadBytes > 0x10_0000 ==> r == Wire([])
    ensures frameCount >= 0 && (payloadBytes <= 0x10_0000 || frameCount == 0) ==>
              var frames := BenchmarkFrames(payloadBytes, frameCount);
              WithinCap(frames, 0x10_0000) && r == Wire(EncodeAll(frames, 0x10_0000))
  {
    var payload := seq(payloadBytes, i requires 0 <= i => BenchmarkByte(i));
    if frameCount < 0 {
      return LengthError;
    }
    hide Encode, EncodeAll, WithinCap, BenchmarkFrames;
    NoBenchmarkFrames(payloadBytes);
    var out := new ByteVector([]);
    var f := 0;
    while f < frameCount
      invariant 0 <= f <= frameCount
      invariant fresh(out)
      invariant |payload| == payloadBytes
      invariant forall i :: 1 <= i < payloadBytes ==> payload[i] == BenchmarkByte(i)
      invariant WithinCap(BenchmarkFrames(payloadBytes, f), BENCHMARK_MAX_PAYLOAD)
      invariant out.bytes == EncodeAll(BenchmarkFrames(payloadBytes, f), BENCHMARK_MAX_PAYLOAD)
    {
      if payloadBytes > 0 {
        payload := payload[0 := (f % 0x100) as byte];
      }
      assert payload == BenchmarkPayload(payloadBytes, f);
      var appended := AppendEncodedFrame(out, payload, BENCHMARK_MAX_PAYLOAD);
      if appended != Encoded {
        return Wire([]);
      }
      BenchmarkGrows(payloadBytes, f);
      f := f + 1;
    }
    r := Wire(out.bytes);
  }

  /** Decodes by advancing an offset instead of erasing from the front. Sees the same payloads, and stops at the
      same place, as ParseAll does. */
  method DecodeByOffset(endian: Endian, wire: seq<byte>, maxPayloadBytes: nat)
    returns (ok: bool, decoded: nat, off: nat, ghost payloads: seq<seq<byte>>)
    ensures off <= |wire|
    ensures var p := ParseAll(wire, maxPayloadBytes);
            && payloads == p.frames && decoded == |p.frames|
            && wire[off..] == p.rest
            && ok == (p.rest == [])
  {
    hide ParseAll, DecodeFrame;
    off, decoded, payloads := 0, 0, [];
    assert wire[0..] == wire;
    while off < |wire|
      invariant off <= |wire| && decoded == |payloads|
      invariant var p, q := ParseAll(wire, maxPayloadBytes), ParseAll(wire[off..], maxPayloadBytes);
                p.frames == payloads + q.frames && p.rest == q.rest
    {
      var r := TryDecodeFrame(endian, wire[off..], maxPayloadBytes);
      ParseStep(wire[off..], maxPayloadBytes);
      if r.status != Complete {
        return false, decoded, off, payloads;
      }
      assert wire[off..][r.consumedBytes..] == wire[off + r.consumedBytes..];
      ghost var rest := ParseAll(wire[off + r.consumedBytes..], maxPayloadBytes).frames;
      assert payloads + ([r.payload] + rest) == payloads + [r.payload] + rest;
      off := off + r.consumedBytes;
      decoded := decoded + 1;
      payloads := payloads + [r.payload];
    }
    EmptyParse(maxPayloadBytes);
    assert wire[off..] == [];
    ok := true;
  }

  datatype BenchmarkVerdict =
    | Decoded(frames: nat) | Thrown | EncodeStreamFailed | StreamIncomplete | FrameCountMismatch

  /** The stream benchmark. Its checks for an incomplete stream and for a wrong frame count never fire. */
  method DecodeStreamBenchmark(endian: Endian, payloadBytes: nat, frameCount: int) returns (v: BenchmarkVerdict)
    ensures v == if frameCount < 0 then Thrown
                 else if frameCount > 0 && payloadBytes > 0x10_0000 then EncodeStreamFailed
                 else Decoded(frameCount)
  {
    var stream := MakeStream(payloadBytes, frameCount);
    if stream == LengthError {
      return Thrown;
    }
    var wire := stream.bytes;
    if payloadBytes <= BENCHMARK_MAX_PAYLOAD || frameCount == 0 {
      FramingRoundTrip(BenchmarkFrames(payloadBytes, frameCount), BENCHMARK_MAX_PAYLOAD);
    }
    if wire == [] && frameCount > 0 {
      return EncodeStreamFailed;
    }
    ghost var payloads;
    var ok, decoded, off;
    ok, decoded, off, payloads := DecodeByOffset(endian, wire, BENCHMARK_MAX_PAYLOAD);
    if !ok {
      return StreamIncomplete;
    }
    if decoded != frameCount {
      return FrameCountMismatch;
    }
    v := Decoded(decoded);
  }
}
