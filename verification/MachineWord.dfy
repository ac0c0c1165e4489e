/** The codec's octets in terms of machine operations: shifts, masks and a byte swap on 32-bit words. */
module MachineWord {
  import opened Codec

  function HalfNumber(h: bv16): nat {
    h as int
  }

  function OctetNumber(b: bv8): byte {
    b as byte
  }

  /** The number a 16-bit half stands for is that of its two octets. */
  lemma HalfValue(h: bv16)
    ensures HalfNumber(h) == OctetNumber((h >> 8) as bv8) as int * 0x100 + OctetNumber((h & 0xFF) as bv8) as int
  {
  }

  /** The number a word stands for, read as two 16-bit halves. */
  function Number(v: bv32): u32 {
    HalvesBounded((v >> 16) as bv16, (v & 0xFFFF) as bv16);
    (HalfNumber((v >> 16) as bv16) * 0x1_0000 + HalfNumber((v & 0xFFFF) as bv16)) as u32
  }

  lemma HalvesBounded(high: bv16, low: bv16)
    ensures HalfNumber(high) * 0x1_0000 + HalfNumber(low) < 0x1_0000_0000
  {
    HalfValue(high);
    HalfValue(low);
    hide HalfNumber, OctetNumber;
  }

  /** What push_be32 computes for octet k: shift, then mask with 0xFF. */
  function ShiftAndMask(v: bv32, k: nat): bv8
    requires k < LENGTH_FIELD_BYTES
  {
    match k
    case 0 => (v & 0xFF) as bv8
    case 1 => ((v >> 8) & 0xFF) as bv8
    case 2 => ((v >> 16) & 0xFF) as bv8
    case 3 => ((v >> 24) & 0xFF) as bv8
  }

  /** The word with the given octets, most significant first. */
  function Assemble(a: bv8, b: bv8, c: bv8, d: bv8): bv32 {
    ((a as bv32) << 24) | ((b as bv32) << 16) | ((c as bv32) << 8) | (d as bv32)
  }

  function SwapBytes(v: bv32): bv32 {
    Assemble(ShiftAndMask(v, 0), ShiftAndMask(v, 1), ShiftAndMask(v, 2), ShiftAndMask(v, 3))
  }

  lemma HalvesOfWord(v: bv32)
    ensures (((v >> 16) as bv16) >> 8) as bv8 == ShiftAndMask(v, 3)
    ensures (((v >> 16) as bv16) & 0xFF) as bv8 == ShiftAndMask(v, 2)
    ensures (((v & 0xFFFF) as bv16) >> 8) as bv8 == ShiftAndMask(v, 1)
    ensures (((v & 0xFFFF) as bv16) & 0xFF) as bv8 == ShiftAndMask(v, 0)
  {
  }

  lemma OctetsAssembled(a: bv8, b: bv8, c: bv8, d: bv8)
    ensures var v := Assemble(a, b, c, d);
            && ShiftAndMask(v, 3) == a && ShiftAndMask(v, 2) == b
            && ShiftAndMask(v, 1) == c && ShiftAndMask(v, 0) == d
  {
  }

  lemma NumberIsJoin(v: bv32)
    ensures Number(v) == Join(OctetNumber(ShiftAndMask(v, 3)), OctetNumber(ShiftAndMask(v, 2)),
                              OctetNumber(ShiftAndMask(v, 1)), OctetNumber(ShiftAndMask(v, 0)))
  {
    hide ShiftAndMask, HalfNumber, OctetNumber;
    HalfValue((v >> 16) as bv16);
    HalfValue((v & 0xFFFF) as bv16);
    HalvesOfWord(v);
  }

  /** Shifting and masking the machine word yields the octets of its number. */
  lemma ShiftAndMaskIsOctet(v: bv32, k: nat)
    requires k < LENGTH_FIELD_BYTES
    ensures OctetNumber(ShiftAndMask(v, k)) == Octet(Number(v), k)
  {
    hide ShiftAndMask, OctetNumber, Number, Octet, Join;
    NumberIsJoin(v);
    JoinOctets(OctetNumber(ShiftAndMask(v, 3)), OctetNumber(ShiftAndMask(v, 2)),
               OctetNumber(ShiftAndMask(v, 1)), OctetNumber(ShiftAndMask(v, 0)));
    assert k == 0 || k == 1 || k == 2 || k == 3;
  }

  /** Swapping the machine word's bytes swaps its number's octets. */
  lemma SwapBytesIsByteSwap(v: bv32)
    ensures Number(SwapBytes(v)) == ByteSwap(Number(v))
  {
    OctetsAssembled(ShiftAndMask(v, 0), ShiftAndMask(v, 1), ShiftAndMask(v, 2), ShiftAndMask(v, 3));
    hide ShiftAndMask, Assemble, OctetNumber, Number, Octet, Join;
    NumberIsJoin(SwapBytes(v));
    ShiftAndMaskIsOctet(v, 0);
    ShiftAndMaskIsOctet(v, 1);
    ShiftAndMaskIsOctet(v, 2);
    ShiftAndMaskIsOctet(v, 3);
  }

  /** A word of a machine of this byte order, copied from the four octets that the shifting writer produced. */
  function Copied(endian: Endian, v: bv32): bv32 {
    var a, b, c, d := ShiftAndMask(v, 3), ShiftAndMask(v, 2), ShiftAndMask(v, 1), ShiftAndMask(v, 0);
    if endian == Little then Assemble(d, c, b, a) else Assemble(a, b, c, d)
  }

  /** Written by shifting, copied into a native word and swapped where needed, a word is itself again. */
  lemma ShiftThenSwapRoundTrip(endian: Endian, v: bv32)
    ensures (if endian == Little then SwapBytes(Copied(endian, v)) else Copied(endian, v)) == v
  {
    assert Assemble(ShiftAndMask(v, 3), ShiftAndMask(v, 2), ShiftAndMask(v, 1), ShiftAndMask(v, 0)) == v;
    if endian == Little {
      OctetsAssembled(ShiftAndMask(v, 0), ShiftAndMask(v, 1), ShiftAndMask(v, 2), ShiftAndMask(v, 3));
      hide ShiftAndMask, Assemble;
    }
  }
}
