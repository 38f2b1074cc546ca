/**
 * The Fixed Supply power data object (PDO) and the message header of the
 * USB Power Delivery specification, as the driver packs and unpacks them.
 *
 * A fixed PDO holds the current in 10 mA units in bits 9..0, the voltage
 * in 50 mV units in bits 19..10 and the supply type in bits 31..30
 * (section 6.4.1 of the USB Power Delivery specification). A message
 * header holds the message type in its low bits and the number of data
 * objects in bits 14..12 (table 6-1 of the same specification).
 */
module Pdo {
  import opened Bytes

  const CURRENT_MASK: bv32 := 0x3FF
  const VOLTAGE_MASK: bv32 := 0x3FF << 10
  const TYPE_MASK: bv32 := 0x3 << 30
  const TYPE_FIXED: bv32 := 0

  /** TO_PDO_CURRENT: milliamperes to the 10 mA field, truncated and masked to 10 bits. */
  function ToCurrent(ma: bv16): bv32 { ((ma / 10) as bv32) & CURRENT_MASK }

  /** TO_PDO_VOLTAGE: millivolts to the 50 mV field at bit 10, truncated and masked to 10 bits. */
  function ToVoltage(mv: bv16): bv32 { (((mv / 50) as bv32) << 10) & VOLTAGE_MASK }

  /** FROM_PDO_CURRENT, narrowed to the 16-bit current type. */
  function FromCurrent(pdo: bv32): (ma: bv16)
    ensures ma <= 10230 && ma % 10 == 0
  {
    ((pdo & CURRENT_MASK) * 10) as bv16
  }

  /** FROM_PDO_VOLTAGE, narrowed to the 16-bit voltage type. */
  function FromVoltage(pdo: bv32): (mv: bv16)
    ensures mv <= 51150 && mv % 50 == 0
  {
    (((pdo & VOLTAGE_MASK) >> 10) * 50) as bv16
  }

  function PdoType(pdo: bv32): (t: bv32)
    ensures t < 4
    ensures t << 30 == pdo & TYPE_MASK
  {
    (pdo & TYPE_MASK) >> 30
  }

  /** The sink PDO write_pdo builds: the two fields side by side, every other bit clear. */
  function Format(ma: bv16, mv: bv16): bv32 { ToCurrent(ma) | ToVoltage(mv) }

  /** A current survives encoding exactly when it is on the 10 mA grid and fits 10 bits. */
  lemma CurrentRoundTrip(ma: bv16)
    ensures FromCurrent(ToCurrent(ma)) == ma <==> ma % 10 == 0 && ma <= 10230
  {
  }

  /** A voltage survives encoding exactly when it is on the 50 mV grid and fits 10 bits. */
  lemma VoltageRoundTrip(mv: bv16)
    ensures FromVoltage(ToVoltage(mv)) == mv <==> mv % 50 == 0 && mv <= 51150
  {
  }

  /** Decoding then encoding keeps exactly the field's bits. */
  lemma CurrentField(pdo: bv32)
    ensures ToCurrent(FromCurrent(pdo)) == pdo & CURRENT_MASK
  {
  }

  lemma VoltageField(pdo: bv32)
    ensures ToVoltage(FromVoltage(pdo)) == pdo & VOLTAGE_MASK
  {
  }

  /** The current and voltage fields occupy disjoint bits below bit 20. */
  lemma MaskAlgebra(a: bv32, b: bv32)
    ensures ((a & CURRENT_MASK) | ((b << 10) & VOLTAGE_MASK)) & CURRENT_MASK == a & CURRENT_MASK
    ensures ((a & CURRENT_MASK) | ((b << 10) & VOLTAGE_MASK)) & VOLTAGE_MASK == (b << 10) & VOLTAGE_MASK
    ensures ((a & CURRENT_MASK) | ((b << 10) & VOLTAGE_MASK)) & 0xFFF0_0000 == 0
  {
  }

  /** Each field of a formatted PDO holds its own encoding, and nothing else is set. */
  lemma FormatMasks(ma: bv16, mv: bv16)
    ensures Format(ma, mv) & CURRENT_MASK == ToCurrent(ma)
    ensures Format(ma, mv) & VOLTAGE_MASK == ToVoltage(mv)
    ensures Format(ma, mv) & 0xFFF0_0000 == 0
  {
    MaskAlgebra((ma / 10) as bv32, (mv / 50) as bv32);
  }

  /** Bits 31..30 lie within bits 31..20. */
  lemma HighClear(x: bv32)
    requires x & 0xFFF0_0000 == 0
    ensures PdoType(x) == TYPE_FIXED
  {
  }

  /** A formatted PDO is of the fixed type and has bits 31..20 clear. */
  lemma FormatType(ma: bv16, mv: bv16)
    ensures PdoType(Format(ma, mv)) == TYPE_FIXED
    ensures Format(ma, mv) & 0xFFF0_0000 == 0
  {
    FormatMasks(ma, mv);
    HighClear(Format(ma, mv));
  }

  /** An on-grid current reads back exactly from a formatted PDO, whatever the voltage. */
  lemma FormatCurrent(ma: bv16, mv: bv16)
    requires ma % 10 == 0 && ma <= 10230
    ensures FromCurrent(Format(ma, mv)) == ma
  {
  }

  /** An on-grid voltage reads back exactly from a formatted PDO, whatever the current. */
  lemma FormatVoltage(ma: bv16, mv: bv16)
    requires mv % 50 == 0 && mv <= 51150
    ensures FromVoltage(Format(ma, mv)) == mv
  {
  }

  // ----- Message header -----

  const SRC_CAPABILITIES: bv16 := 0x01

  /** HEADER_MESSAGE_TYPE: four bits, five when built with USB PD revision 3.0 support. */
  function MessageType(header: bv16, rev30: bool): (t: bv16)
    ensures t & 0x0F == header & 0x0F
    ensures t < (if rev30 then 32 else 16)
    ensures rev30 ==> t & 0x10 == header & 0x10
  {
    header & (if rev30 then 0x1F else 0x0F)
  }

  /**
   * HEADER_NUM_DATA_OBJECTS: bits 14..12. The count is a `nat`, chosen case
   * by case so that no bit-vector to integer conversion reaches the solver.
   */
  function DataObjects(header: bv16): (n: nat)
    ensures n <= 7
    ensures (n as bv16) << 12 == header & 0x7000
  {
    var k := (header >> 12) & 7;
    if k == 0 then 0 else if k == 1 then 1 else if k == 2 then 2 else if k == 3 then 3
    else if k == 4 then 4 else if k == 5 then 5 else if k == 6 then 6 else 7
  }

  /** The RX_BYTE_CNT value a header with `n` data objects announces. */
  function ByteCount(header: bv16): Byte
  {
    ((header >> 12) & 7) as bv8 * 4
  }

  /** The capture is four bytes per object, at most 28, so it fits the 40-byte receive buffer. */
  lemma CaptureFits(header: bv16)
    ensures 4 * DataObjects(header) <= 28 < 40
    ensures ByteCount(header) as int == 4 * DataObjects(header)
  {
  }

  /**
   * The data objects of a capture, each read as a little-endian 32-bit
   * word. The driver always captures four bytes per object; a trailing
   * partial word would be ignored.
   */
  function Objects(raw: seq<Byte>): (pdos: seq<bv32>)
    ensures |pdos| == |raw| / 4
    ensures forall i :: 0 <= i < |pdos| ==> Le32(pdos[i]) == raw[4 * i..4 * i + 4]
  {
    seq(|raw| / 4, i requires 0 <= i < |raw| / 4 => FromLe32(raw[4 * i..4 * i + 4]))
  }
}
