/** The wire format: a big-endian 32-bit length, then that many payload bytes. */
module Codec {

  newtype byte = x: int | 0 <= x < 256
  newtype u32 = x: int | 0 <= x < 0x1_0000_0000

  const LENGTH_FIELD_BYTES: nat := 4
  const UINT32_MAX: nat := 0xFFFF_FFFF

  /** Decoder and encoder clamp the configured maximum to what the length field can carry. */
  function EffectiveMaxPayload(maxPayloadBytes: nat): nat {
    if maxPayloadBytes <= UINT32_MAX then maxPayloadBytes else UINT32_MAX
  }

  // ---------------------------------------------------------------- 32-bit integers

  /** The integer whose bytes, most significant first, are a, b, c, d. */
  function Join(a: byte, b: byte, c: byte, d: byte): u32 {
    a as u32 * 0x100_0000 + b as u32 * 0x1_0000 + c as u32 * 0x100 + d as u32
  }

  /** Shifting right by k octets. */
  function ShiftRight(v: u32, k: nat): u32 {
    if k == 0 then v else ShiftRight(v / 0x100, k - 1)
  }

  /** Octet k counted from the least significant: shift, then mask with 0xFF. */
  function Octet(v: u32, k: nat): byte {
    (ShiftRight(v, k) % 0x100) as byte
  }

  function BigEndian(v: u32): (s: seq<byte>)
    ensures |s| == LENGTH_FIELD_BYTES
  {
    [Octet(v, 3), Octet(v, 2), Octet(v, 1), Octet(v, 0)]
  }

  datatype Endian = Little | Big

  /** What copying four bytes into a native integer yields on a machine of this byte order. */
  function LoadNative(endian: Endian, p: seq<byte>): u32
    requires |p| >= LENGTH_FIELD_BYTES
  {
    match endian
    case Little => Join(p[3], p[2], p[1], p[0])
    case Big => Join(p[0], p[1], p[2], p[3])
  }

  /** The same four octets in the opposite order. */
  function ByteSwap(x: u32): u32 {
    Join(Octet(x, 0), Octet(x, 1), Octet(x, 2), Octet(x, 3))
  }

  function ReadU32Be(endian: Endian, p: seq<byte>): u32
    requires |p| >= LENGTH_FIELD_BYTES
  {
    var x := LoadNative(endian, p);
    if endian == Little then ByteSwap(x) else x
  }

  /** The length a buffer declares, independent of the machine. */
  function DeclaredLength(p: seq<byte>): nat
    requires |p| >= LENGTH_FIELD_BYTES
  {
    Join(p[0], p[1], p[2], p[3]) as nat
  }

  lemma JoinOctets(a: byte, b: byte, c: byte, d: byte)
    ensures var x := Join(a, b, c, d);
            Octet(x, 3) == a && Octet(x, 2) == b && Octet(x, 1) == c && Octet(x, 0) == d
  {
    var x := Join(a, b, c, d);
    var x1 := a as u32 * 0x1_0000 + b as u32 * 0x100 + c as u32;
    var x2 := a as u32 * 0x100 + b as u32;
    assert x / 0x100 == x1 && x1 / 0x100 == x2 && x2 / 0x100 == a as u32;
    assert ShiftRight(x, 1) == ShiftRight(x1, 0);
    assert ShiftRight(x, 2) == ShiftRight(x1, 1) == ShiftRight(x2, 0);
    assert ShiftRight(x, 3) == ShiftRight(x1, 2) == ShiftRight(x2, 1) == ShiftRight(a as u32, 0);
  }

  lemma OctetsJoin(v: u32)
    ensures var s := BigEndian(v); Join(s[0], s[1], s[2], s[3]) == v
  {
    var v1 := v / 0x100;
    var v2 := v1 / 0x100;
    var v3 := v2 / 0x100;
    assert ShiftRight(v, 1) == ShiftRight(v1, 0);
    assert ShiftRight(v, 2) == ShiftRight(v1, 1) == ShiftRight(v2, 0);
    assert ShiftRight(v, 3) == ShiftRight(v1, 2) == ShiftRight(v2, 1) == ShiftRight(v3, 0);
  }

  /** memcpy followed by a byte swap where needed reads the same number on either byte order. */
  lemma ReadIsPortable(endian: Endian, p: seq<byte>)
    requires |p| >= LENGTH_FIELD_BYTES
    ensures ReadU32Be(endian, p) as nat == DeclaredLength(p)
  {
    if endian == Little {
      JoinOctets(p[3], p[2], p[1], p[0]);
    }
  }

  lemma BigEndianJoin(p: seq<byte>)
    requires |p| == LENGTH_FIELD_BYTES
    ensures BigEndian(Join(p[0], p[1], p[2], p[3])) == p
  {
    JoinOctets(p[0], p[1], p[2], p[3]);
  }

  /** The shifting writer and the memcpy reader are inverse to each other, both ways round. */
  lemma IntegerRoundTrip(endian: Endian, v: u32, p: seq<byte>)
    requires |p| == LENGTH_FIELD_BYTES
    ensures ReadU32Be(endian, BigEndian(v)) == v
    ensures BigEndian(ReadU32Be(endian, p)) == p
  {
    assert ReadU32Be(endian, BigEndian(v)) == v by {
      ReadIsPortable(endian, BigEndian(v));
      OctetsJoin(v);
    }
    assert ReadU32Be(endian, p) == Join(p[0], p[1], p[2], p[3]) by {
      ReadIsPortable(endian, p);
    }
    BigEndianJoin(p);
  }

  // ---------------------------------------------------------------- one frame

  datatype Status = Incomplete | Complete | OversizedLength

  datatype FrameDecodeResult = FrameDecodeResult(status: Status, consumedBytes: nat, payload: seq<byte>)

  const INCOMPLETE := FrameDecodeResult(Incomplete, 0, [])
  const OVERSIZED := FrameDecodeResult(OversizedLength, 0, [])

  /** The bytes a payload travels as. */
  function Encode(payload: seq<byte>): seq<byte>
    requires |payload| <= UINT32_MAX
  {
    BigEndian(|payload| as u32) + payload
  }

  /** The verdict on the front of a buffer. */
  function DecodeFrame(buffer: seq<byte>, maxPayloadBytes: nat): (r: FrameDecodeResult)
    ensures r.status == Complete ==> LENGTH_FIELD_BYTES <= r.consumedBytes <= |buffer|
  {
    if |buffer| < LENGTH_FIELD_BYTES then INCOMPLETE
    else if DeclaredLength(buffer) > EffectiveMaxPayload(maxPayloadBytes) then OVERSIZED
    else
      var total := LENGTH_FIELD_BYTES + DeclaredLength(buffer);
      if |buffer| < total then INCOMPLETE
      else FrameDecodeResult(Complete, total, buffer[LENGTH_FIELD_BYTES..total])
  }

  /** The number whose four octets, most significant first, stand at the front. */
  function BigEndianValue(p: seq<byte>): nat
    requires |p| >= 4
  {
    p[0] as nat * 0x100_0000 + p[1] as nat * 0x1_0000 + p[2] as nat * 0x100 + p[3] as nat
  }

  /** Oversized if the declared length exceeds the cap or 32 bits, complete if everything has arrived; only a complete
      frame consumes anything or has a payload. */
  method TryDecodeFrame(endian: Endian, buffer: seq<byte>, maxPayloadBytes: nat) returns (out: FrameDecodeResult)
    ensures out == DecodeFrame(buffer, maxPayloadBytes)
    ensures out.status == OversizedLength <==>
            |buffer| >= 4 && (BigEndianValue(buffer) > maxPayloadBytes || BigEndianValue(buffer) > 0xFFFF_FFFF)
    ensures out.status == Complete <==>
            && |buffer| >= 4 && BigEndianValue(buffer) <= maxPayloadBytes
            && |buffer| >= 4 + BigEndianValue(buffer)
    ensures out.status == Complete ==>
              && out.consumedBytes == 4 + BigEndianValue(buffer)
              && out.payload == buffer[4..out.consumedBytes]
    ensures out.status != Complete ==> out.consumedBytes == 0 && out.payload == []
  {
    if |buffer| < LENGTH_FIELD_BYTES {
      return INCOMPLETE;
    }
    ReadIsPortable(endian, buffer);
    var payloadLength := ReadU32Be(endian, buffer) as nat;
    var cap := EffectiveMaxPayload(maxPayloadBytes);
    if payloadLength > cap {
      return OVERSIZED;
    }
    var total := LENGTH_FIELD_BYTES + payloadLength;
    if |buffer| < total {
      return INCOMPLETE;
    }
    out := FrameDecodeResult(Complete, 0, []);
    out := out.(consumedBytes := total);
    if payloadLength > 0 {
      out := out.(payload := buffer[LENGTH_FIELD_BYTES..][..payloadLength]);
    }
  }

  /** A growable byte vector that callees append to in place. */
  class ByteVector {
    var bytes: seq<byte>

    constructor (bytes: seq<byte>)
      ensures this.bytes == bytes
    {
      this.bytes := bytes;
    }

    method PushBack(b: byte)
      modifies this
      ensures bytes == old(bytes) + [b]
    {
      bytes := bytes + [b];
    }

    method PushBe32(v: u32)
      modifies this
      ensures bytes == old(bytes) + BigEndian(v)
    {
      PushBack(Octet(v, 3));
      PushBack(Octet(v, 2));
      PushBack(Octet(v, 1));
      PushBack(Octet(v, 0));
    }

    method Insert(data: seq<byte>)
      modifies this
      ensures bytes == old(bytes) + data
    {
      bytes := bytes + data;
    }
  }

  datatype EncodeResult = Encoded | PayloadTooLarge

  /** Appends one frame, or leaves the vector alone and reports that the payload is too large. */
  method AppendEncodedFrame(out: ByteVector, payload: seq<byte>, maxPayloadBytes: nat) returns (r: EncodeResult)
    modifies out
    ensures r == Encoded <==> |payload| <= maxPayloadBytes && |payload| <= 0xFFFF_FFFF
    ensures out.bytes == old(out.bytes) + if r == Encoded then Encode(payload) else []
    ensures r == Encoded ==>
              var frame := out.bytes[|old(out.bytes)|..];
              |frame| == 4 + |payload| && BigEndianValue(frame) == |payload| && frame[4..] == payload
  {
    var cap := EffectiveMaxPayload(maxPayloadBytes);
    if |payload| > cap {
      return PayloadTooLarge;
    }
    var length := |payload| as u32;
    OctetsJoin(length);
    out.PushBe32(length);
    out.Insert(payload);
    r := Encoded;
  }

  lemma EncodeDeclares(payload: seq<byte>, suffix: seq<byte>)
    requires |payload| <= UINT32_MAX
    ensures DeclaredLength(Encode(payload) + suffix) == |payload|
  {
    OctetsJoin(|payload| as u32);
  }

  /** Decoding what was encoded gives the payload back, whatever follows it. */
  lemma DecodeEncode(payload: seq<byte>, suffix: seq<byte>, maxPayloadBytes: nat)
    requires |payload| <= EffectiveMaxPayload(maxPayloadBytes)
    ensures DecodeFrame(Encode(payload) + suffix, maxPayloadBytes)
         == FrameDecodeResult(Complete, LENGTH_FIELD_BYTES + |payload|, payload)
  {
    EncodeDeclares(payload, suffix);
    var wire := Encode(payload) + suffix;
    assert wire[LENGTH_FIELD_BYTES..LENGTH_FIELD_BYTES + |payload|] == payload;
  }

  /** Encoding what was decoded reproduces exactly the bytes that were consumed. */
  lemma EncodeDecode(buffer: seq<byte>, maxPayloadBytes: nat)
    requires DecodeFrame(buffer, maxPayloadBytes).status == Complete
    ensures var r := DecodeFrame(buffer, maxPayloadBytes);
            && |r.payload| <= EffectiveMaxPayload(maxPayloadBytes)
            && LENGTH_FIELD_BYTES <= r.consumedBytes <= |buffer|
            && Encode(r.payload) == buffer[..r.consumedBytes]
  {
    JoinOctets(buffer[0], buffer[1], buffer[2], buffer[3]);
  }

  /** A verdict other than Incomplete is final: more input never changes it. */
  lemma VerdictIsFinal(buffer: seq<byte>, more: seq<byte>, maxPayloadBytes: nat)
    requires DecodeFrame(buffer, maxPayloadBytes).status != Incomplete
    ensures DecodeFrame(buffer + more, maxPayloadBytes) == DecodeFrame(buffer, maxPayloadBytes)
  {
    assert DeclaredLength(buffer + more) == DeclaredLength(buffer);
    if DecodeFrame(buffer, maxPayloadBytes).status == Complete {
      var total := LENGTH_FIELD_BYTES + DeclaredLength(buffer);
      assert (buffer + more)[LENGTH_FIELD_BYTES..total] == buffer[LENGTH_FIELD_BYTES..total];
    }
  }

  lemma StrictPrefixIsIncomplete(payload: seq<byte>, k: nat, maxPayloadBytes: nat)
    requires |payload| <= EffectiveMaxPayload(maxPayloadBytes)
    requires k < LENGTH_FIELD_BYTES + |payload|
    ensures DecodeFrame(Encode(payload)[..k], maxPayloadBytes) == INCOMPLETE
  {
    if k >= LENGTH_FIELD_BYTES {
      EncodeDeclares(payload, []);
      assert Encode(payload) + [] == Encode(payload);
      assert DeclaredLength(Encode(payload)[..k]) == DeclaredLength(Encode(payload));
    }
  }

  // ---------------------------------------------------------------- the future of an incomplete buffer

  function Repeat(b: byte, n: nat): seq<byte> {
    seq(n, _ => b)
  }

  /** The header a short buffer grows into when its missing header bytes all turn out to be `filler`. */
  function PaddedHeader(buffer: seq<byte>, filler: byte): (h: seq<byte>)
    ensures |h| >= LENGTH_FIELD_BYTES && buffer <= h
  {
    if |buffer| >= LENGTH_FIELD_BYTES then buffer
    else buffer + Repeat(filler, LENGTH_FIELD_BYTES - |buffer|)
  }

  /** Every continuation declares a length between the one padded with 0x00 and the one padded with 0xFF. */
  lemma PaddingBoundsLength(buffer: seq<byte>, extension: seq<byte>)
    requires |buffer + extension| >= LENGTH_FIELD_BYTES
    ensures DeclaredLength(PaddedHeader(buffer, 0)) <= DeclaredLength(buffer + extension)
         <= DeclaredLength(PaddedHeader(buffer, 0xFF))
  {
    var whole, low, high := buffer + extension, PaddedHeader(buffer, 0), PaddedHeader(buffer, 0xFF);
    forall i | 0 <= i < LENGTH_FIELD_BYTES
      ensures low[i] <= whole[i] <= high[i]
    {
      assert i < |buffer| ==> low[i] == whole[i] == high[i] == buffer[i];
    }
  }

  lemma PaddedHeaderCompletes(buffer: seq<byte>, maxPayloadBytes: nat) returns (extension: seq<byte>)
    requires DecodeFrame(buffer, maxPayloadBytes).status == Incomplete
    requires DeclaredLength(PaddedHeader(buffer, 0)) <= EffectiveMaxPayload(maxPayloadBytes)
    ensures DecodeFrame(buffer + extension, maxPayloadBytes).status == Complete
  {
    var header := PaddedHeader(buffer, 0);
    var length := DeclaredLength(header);
    extension := header[|buffer|..] + Repeat(0, length);
    var whole := buffer + extension;
    assert whole == header + Repeat(0, length);
    assert DeclaredLength(whole) == length;
  }

  /** An incomplete buffer can still become a frame exactly when zero-filling the rest of its
      length field stays within the cap. */
  lemma IncompleteCanComplete(buffer: seq<byte>, maxPayloadBytes: nat)
    requires DecodeFrame(buffer, maxPayloadBytes).status == Incomplete
    ensures (exists extension :: DecodeFrame(buffer + extension, maxPayloadBytes).status == Complete)
       <==> DeclaredLength(PaddedHeader(buffer, 0)) <= EffectiveMaxPayload(maxPayloadBytes)
  {
    if DeclaredLength(PaddedHeader(buffer, 0)) <= EffectiveMaxPayload(maxPayloadBytes) {
      var extension := PaddedHeaderCompletes(buffer, maxPayloadBytes);
    }
    forall extension | DecodeFrame(buffer + extension, maxPayloadBytes).status == Complete
      ensures DeclaredLength(PaddedHeader(buffer, 0)) <= EffectiveMaxPayload(maxPayloadBytes)
    {
      PaddingBoundsLength(buffer, extension);
    }
  }

  /** A buffer that is Incomplete although no continuation is a frame: one byte 0xFF under a cap of 1024. */
  lemma IncompleteMayBeDoomed(extension: seq<byte>)
    ensures DecodeFrame([0xFF], 1024).status == Incomplete
    ensures DecodeFrame([0xFF] + extension, 1024).status != Complete
  {
    assert PaddedHeader([0xFF], 0)[0] == 0xFF;
    if |[0xFF] + extension| >= LENGTH_FIELD_BYTES {
      PaddingBoundsLength([0xFF], extension);
    }
  }

  /** Without a cap below the 32-bit limit every incomplete buffer can still become a frame. */
  lemma UncappedAlwaysCompletes(buffer: seq<byte>, maxPayloadBytes: nat)
    requires maxPayloadBytes >= UINT32_MAX
    requires DecodeFrame(buffer, maxPayloadBytes).status == Incomplete
    ensures exists extension :: DecodeFrame(buffer + extension, maxPayloadBytes).status == Complete
  {
    IncompleteCanComplete(buffer, maxPayloadBytes);
  }

  /** An incomplete buffer can still be rejected exactly when its length field is unfinished and
      filling it with 0xFF exceeds the cap. */
  lemma IncompleteCanOverflow(buffer: seq<byte>, maxPayloadBytes: nat)
    requires DecodeFrame(buffer, maxPayloadBytes).status == Incomplete
    ensures (exists extension :: DecodeFrame(buffer + extension, maxPayloadBytes).status == OversizedLength)
       <==> DeclaredLength(PaddedHeader(buffer, 0xFF)) > EffectiveMaxPayload(maxPayloadBytes)
  {
    var header := PaddedHeader(buffer, 0xFF);
    assert buffer + header[|buffer|..] == header;
    forall extension | DecodeFrame(buffer + extension, maxPayloadBytes).status == OversizedLength
      ensures DeclaredLength(header) > EffectiveMaxPayload(maxPayloadBytes)
    {
      PaddingBoundsLength(buffer, extension);
    }
    if DeclaredLength(header) > EffectiveMaxPayload(maxPayloadBytes) {
      assert DecodeFrame(buffer + header[|buffer|..], maxPayloadBytes).status == OversizedLength;
    }
  }
}
