/** Byte-level helpers shared by the NVM and the PD models. Every C integer
    the core handles is an unsigned 8-, 16- or 32-bit quantity, modelled by
    the bit-vector type of that width so that shifts, masks and wrap-around
    are the machine's. */
module Bytes {

  type Byte = bv8

  /** The low and the high byte of a 16-bit value. */
  function LowByte(w: bv16): Byte { (w & 0xFF) as bv8 }
  function HighByte(w: bv16): Byte { (w >> 8) as bv8 }

  /** The 16-bit value two little-endian bytes hold (`lo` at the lower address). */
  function FromLe16(lo: Byte, hi: Byte): (w: bv16)
    ensures LowByte(w) == lo && HighByte(w) == hi
  {
    ((hi as bv16) << 8) | (lo as bv16)
  }

  /** A 16-bit value as it lies in memory on a little-endian target. */
  function Le16(w: bv16): (b: seq<Byte>)
    ensures |b| == 2 && FromLe16(b[0], b[1]) == w
  {
    [LowByte(w), HighByte(w)]
  }

  /** A 32-bit value as it lies in memory on a little-endian target. */
  function Le32(w: bv32): (b: seq<Byte>)
    ensures |b| == 4 && FromLe32(b) == w
  {
    [(w & 0xFF) as bv8, ((w >> 8) & 0xFF) as bv8, ((w >> 16) & 0xFF) as bv8, (w >> 24) as bv8]
  }

  /** The 32-bit value four little-endian bytes hold. */
  function FromLe32(b: seq<Byte>): bv32
    requires |b| == 4
  {
    (b[0] as bv32) | ((b[1] as bv32) << 8) | ((b[2] as bv32) << 16) | ((b[3] as bv32) << 24)
  }

  lemma Le32RoundTrip(b: seq<Byte>)
    requires |b| == 4
    ensures Le32(FromLe32(b)) == b
  {
  }
}
