/**
 * Register-level model of the STUSB4500 NVM controller (the "FTP" registers
 * at 0x53 and 0x95..0x97), and of the bus the driver reaches it through.
 *
 * The device keeps five 8-byte sectors. A write to FTP_CTRL_0 with REQ set
 * and the customer password unlocked runs the opcode held in FTP_CTRL_1 on
 * the sector named by FTP_CTRL_0[2:0]; REQ then reads back as set for
 * `latency` polls. Bits listed in `stuck` cannot be programmed, which is how
 * the model expresses a worn or faulty array.
 */
module NvmChip {
  import opened Bytes
  import opened Outcomes

  // Registers and bits of the NVM controller.
  const PASSWORD_REG: Byte := 0x95
  const PASSWORD: Byte := 0x47
  const CTRL_0: Byte := 0x96
  const PWR: Byte := 0x80
  const RST_N: Byte := 0x40
  const REQ: Byte := 0x10
  const SECT: Byte := 0x07
  const CTRL_1: Byte := 0x97
  const SER: Byte := 0xF8
  const OPCODE: Byte := 0x07
  const RW_BUFFER: Byte := 0x53

  // Opcodes of FTP_CTRL_1[2:0].
  const READ: Byte := 0x00
  const WRITE_PL: Byte := 0x01
  const WRITE_SER: Byte := 0x02
  const READ_PL: Byte := 0x03
  const READ_SER: Byte := 0x04
  const ERASE_SECTOR: Byte := 0x05
  const PROG_SECTOR: Byte := 0x06
  const SOFT_PROG_SECTOR: Byte := 0x07

  // Sector bits of the sector erase register.
  const SECTOR0: Byte := 0x01
  const SECTOR1: Byte := 0x02
  const SECTOR2: Byte := 0x04
  const SECTOR3: Byte := 0x08
  const SECTOR4: Byte := 0x10

  type Sector = s: seq<Byte> | |s| == 8 witness [0, 0, 0, 0, 0, 0, 0, 0]

  const BLANK: Sector := [0, 0, 0, 0, 0, 0, 0, 0]

  /** The five sectors of the array, sector k at index k. */
  type Bank = b: seq<Sector> | |b| == 5 witness [BLANK, BLANK, BLANK, BLANK, BLANK]

  /** One bus transfer as the driver issues it. */
  datatype Txn = Write(reg: Byte, data: seq<Byte>) | Read(reg: Byte, len: nat)

  /** Internal state of the NVM controller. */
  datatype Device = Device(
    store: Bank,
    stuck: Bank,
    password: Byte,
    ctrl0: Byte,
    ctrl1: Byte,
    ser: Byte,
    buffer: Sector,
    pl: Sector,
    busy: nat,
    latency: nat)

  /**
   * The device behind a bus. Transfer number `i` (counted from the start of
   * `log`) fails when `i` is in `faults`; after `limit` transfers the bus
   * makes no further progress.
   */
  datatype Bus = Bus(dev: Device, faults: set<nat>, limit: nat, log: seq<Txn>)

  /**
   * The sector selected by FTP_CTRL_0[2:0], chosen case by case so that no
   * bit-vector to integer conversion reaches the solver.
   */
  function SectorIndex(v: Byte): (k: nat)
    ensures k < 8
  {
    var s := v & SECT;
    if s == 0 then 0 else if s == 1 then 1 else if s == 2 then 2 else if s == 3 then 3
    else if s == 4 then 4 else if s == 5 then 5 else if s == 6 then 6 else 7
  }

  /** The bit of sector k in the sector erase register. */
  function SectorBit(k: nat): Byte
  {
    if k == 0 then SECTOR0 else if k == 1 then SECTOR1 else if k == 2 then SECTOR2
    else if k == 3 then SECTOR3 else if k == 4 then SECTOR4 else 0
  }

  function Erase(b: Bank, ser: Byte): Bank
  {
    seq(5, k requires 0 <= k < 5 => if ser & SectorBit(k) != 0 then BLANK else b[k])
  }

  /** Programming sets the bits of `pl`, except those that are stuck at zero. */
  function Program(cells: Sector, pl: Sector, stuck: Sector): Sector
  {
    seq(8, j requires 0 <= j < 8 => (cells[j] | pl[j]) & !stuck[j])
  }

  function Execute(d: Device, op: Byte, k: nat): Device
  {
    if op == READ then
      if k < 5 then d.(buffer := d.store[k]) else d
    else if op == WRITE_PL then d.(pl := d.buffer)
    else if op == WRITE_SER then d.(ser := (d.ctrl1 & SER) >> 3)
    else if op == ERASE_SECTOR then d.(store := Erase(d.store, d.ser))
    else if op == PROG_SECTOR then
      if k < 5 then d.(store := d.store[k := Program(d.store[k], d.pl, d.stuck[k])]) else d
    else d
  }

  /** A write of `v` to FTP_CTRL_0. */
  function Control(d: Device, v: Byte): Device
  {
    var d1 := d.(ctrl0 := v);
    if v & REQ == 0 then d1
    else
      var d2 := d1.(busy := d.latency);
      if d.password == PASSWORD && v & (PWR | RST_N) == PWR | RST_N
      then Execute(d2, d.ctrl1 & OPCODE, SectorIndex(v))
      else d2
  }

  /** The device's response to a register write. */
  function Accept(d: Device, reg: Byte, data: seq<Byte>): Device
  {
    if |data| == 0 then d
    else if reg == PASSWORD_REG then d.(password := data[0])
    else if reg == CTRL_0 then Control(d, data[0])
    else if reg == CTRL_1 then d.(ctrl1 := data[0])
    else if reg == RW_BUFFER && |data| <= 8 then d.(buffer := data + d.buffer[|data|..])
    else d
  }

  /** The device's response to a register read of `n` bytes. */
  function Answer(d: Device, reg: Byte, n: nat): (r: (Device, seq<Byte>))
    ensures |r.1| == n
  {
    if reg == CTRL_0 && n == 1 then
      if d.busy > 0 then (d.(busy := d.busy - 1), [d.ctrl0 | REQ]) else (d, [d.ctrl0 & !REQ])
    else if reg == RW_BUFFER && n <= 8 then (d, d.buffer[..n])
    else (d, seq(n, _ => 0))
  }

  function Apply(d: Device, t: Txn): (r: (Device, seq<Byte>))
    ensures r.0.stuck == d.stuck && r.0.latency == d.latency
  {
    match t
    case Write(reg, data) => (Accept(d, reg, data), [])
    case Read(reg, n) => Answer(d, reg, n)
  }

  /** One bus transfer: it is logged whether or not it fails. */
  function Transact(b: Bus, t: Txn): (r: Run<Bus, seq<Byte>>)
    ensures r.state.faults == b.faults && r.state.limit == b.limit
    ensures r.Hang? <==> |b.log| >= b.limit
    ensures r.Hang? ==> r.state == b
    ensures r.Stop? <==> |b.log| < b.limit && |b.log| in b.faults
    ensures !r.Hang? ==> r.state.log == b.log + [t]
    ensures r.Stop? ==> r.state.dev == b.dev
    ensures r.Done? ==> r.state.dev == Apply(b.dev, t).0 && r.value == Apply(b.dev, t).1
  {
    if |b.log| >= b.limit then Hang(b)
    else if |b.log| in b.faults then Stop(b.(log := b.log + [t]))
    else
      var (d, v) := Apply(b.dev, t);
      Done(b.(dev := d, log := b.log + [t]), v)
  }
}
