/**
 * `stusb4500_nvm_read` and `stusb4500_nvm_flash`: the driver's register
 * sequences for reading, erasing and programming the NVM, and the flash
 * flow that reads the array, patches it with `ApplyConfig`, writes it back
 * and compares a second read against the patched image.
 */
module NvmFlow {
  import opened Bytes
  import opened Outcomes
  import opened NvmPatch
  import opened NvmChip
  import opened NvmEngine

  const POWERED: Byte := PWR | RST_N
  const START: Byte := PWR | RST_N | REQ

  /** FTP_CTRL_1 value of the erase setup: every sector in SER[7:3], opcode WRITE_SER. */
  const ERASE_SETUP: Byte :=
    (((SECTOR0 | SECTOR1 | SECTOR2 | SECTOR3 | SECTOR4) << 3) & SER) | (WRITE_SER & OPCODE)

  /** FTP_CTRL_0 value that starts an operation on sector `s`. */
  function Request(s: Byte): Byte { (s & SECT) | PWR | RST_N | REQ }

  /** Load an opcode into FTP_CTRL_1, start it with `start` in FTP_CTRL_0, and wait until it is done. */
  function Issue(op: Byte, start: Byte): seq<Op> { [Put1(CTRL_1, op), Put1(CTRL_0, start), Poll] }

  /** An opcode that names no sector. */
  function Command(op: Byte): seq<Op> { Issue(op, START) }

  /** Reset the controller, then power it on. */
  const POWER_CYCLE: seq<Op> := [Put1(CTRL_0, 0x00), Put1(CTRL_0, POWERED)]

  /** enter_read_mode */
  const ENTER_READ: seq<Op> := [Put1(PASSWORD_REG, PASSWORD)] + POWER_CYCLE

  /** enter_write_mode: unlock, clear RW_BUFFER, power on, then erase every sector. */
  const ENTER_WRITE: seq<Op> :=
    [Put1(PASSWORD_REG, PASSWORD), Put1(RW_BUFFER, 0x00)] + POWER_CYCLE
    + Command(ERASE_SETUP) + Command(SOFT_PROG_SECTOR & OPCODE) + Command(ERASE_SECTOR & OPCODE)

  function SelectSector(s: Byte): seq<Op>
  {
    [Put1(CTRL_0, POWERED), Put1(CTRL_1, READ & OPCODE), Put1(CTRL_0, Request(s))]
  }

  const FETCH: seq<Op> := [Poll, Get(RW_BUFFER, 8), Put1(CTRL_0, 0x00)]

  /** read_sector */
  function ReadSectorOps(s: Byte): seq<Op> { SelectSector(s) + FETCH }

  function LoadSector(data: Sector): seq<Op>
  {
    [Put(RW_BUFFER, data), Put1(CTRL_0, POWERED)] + Command(WRITE_PL & OPCODE)
  }

  function ProgramSector(s: Byte): seq<Op> { Issue(PROG_SECTOR & OPCODE, Request(s)) }

  /** write_sector */
  function WriteSectorOps(s: Byte, data: Sector): seq<Op> { LoadSector(data) + ProgramSector(s) }

  /** exit_rw_mode */
  const EXIT_RW: seq<Op> := [Put1(CTRL_0, RST_N), Put1(CTRL_1, 0x00), Put1(PASSWORD_REG, 0x00)]

  /** stusb4500_nvm_read: sectors 0 to 4 in order. */
  const READ_NVM: seq<Op> :=
    ENTER_READ + ReadSectorOps(0) + ReadSectorOps(1) + ReadSectorOps(2) + ReadSectorOps(3)
    + ReadSectorOps(4) + EXIT_RW

  /** The erase-and-program half of stusb4500_nvm_flash; sector k comes from bytes 8k..8k+7. */
  function WriteNvmOps(img: Image): seq<Op>
  {
    ENTER_WRITE + WriteSectorOps(0, img[0..8]) + WriteSectorOps(1, img[8..16])
    + WriteSectorOps(2, img[16..24]) + WriteSectorOps(3, img[24..32])
    + WriteSectorOps(4, img[32..40]) + EXIT_RW
  }

  /** The array as the driver's 40-byte buffer: sector k at bytes 8k..8k+7. */
  function Flatten(b: Bank): Image
  {
    var first: seq<Byte> := b[0];
    first + b[1] + b[2] + b[3] + b[4]
  }

  /** What programming `img` into an erased array leaves, given its stuck bits. */
  function Burn(img: Image, stuck: Bank): Bank
  {
    seq(5, k requires 0 <= k < 5 => Program(BLANK, img[8 * k..8 * k + 8], stuck[k]))
  }

  /** The device keeps its array, its defects and its timing. */
  predicate Keeps(d: Device, e: Device)
  {
    e.store == d.store && e.stuck == d.stuck && e.latency == d.latency
  }

  // ----- Command bytes -----

  /** The erase setup byte is 0xFA: SER names sectors 0 to 4, and the opcode is WRITE_SER. */
  lemma EraseSetupByte()
    ensures ERASE_SETUP == 0xFA
    ensures ERASE_SETUP & OPCODE == WRITE_SER
    ensures forall k :: 0 <= k < 5 ==> ((ERASE_SETUP & SER) >> 3) & SectorBit(k) != 0
  {
  }

  /** The sector bits of a request never overlap PWR, RST_N and REQ. */
  lemma RequestBits(s: Byte)
    ensures Request(s) == (s & 7) | 0xD0
    ensures (s & SECT) & (PWR | RST_N | REQ) == 0
    ensures SectorIndex(Request(s)) == SectorIndex(s)
    ensures Request(s) & REQ != 0 && Request(s) & POWERED == POWERED
  {
  }

  // ----- Single register writes -----

  lemma Idle(d: Device, v: Byte)
    requires v & REQ == 0
    ensures Accept(d, CTRL_0, [v]) == d.(ctrl0 := v)
  {
  }

  /** A started request with the password unlocked runs the opcode held in FTP_CTRL_1. */
  lemma Launch(d: Device, v: Byte)
    requires d.password == PASSWORD && v & REQ != 0 && v & POWERED == POWERED
    ensures Accept(d, CTRL_0, [v])
         == Execute(d.(ctrl0 := v, busy := d.latency), d.ctrl1 & OPCODE, SectorIndex(v))
  {
  }

  // ----- Blocks of the sequences -----

  lemma SimPowerCycle(d: Device)
    ensures Sim(d, POWER_CYCLE).dev == d.(ctrl0 := POWERED)
    ensures Sim(d, POWER_CYCLE).data == []
    ensures |Sim(d, POWER_CYCLE).txns| == 2
  {
    var o1 := [Put1(CTRL_0, POWERED)];
    assert POWER_CYCLE == [Put1(CTRL_0, 0x00)] + o1;
    Idle(d, 0);
    SimPut(d, CTRL_0, [0], o1);
    Idle(d.(ctrl0 := 0), POWERED);
    SimPut(d.(ctrl0 := 0), CTRL_0, [POWERED], []);
    SimNil(d.(ctrl0 := POWERED));
  }

  lemma SimEnterRead(d: Device)
    ensures Sim(d, ENTER_READ).dev == d.(password := PASSWORD, ctrl0 := POWERED)
    ensures Sim(d, ENTER_READ).data == []
    ensures |Sim(d, ENTER_READ).txns| == 3
  {
    SimPut(d, PASSWORD_REG, [PASSWORD], POWER_CYCLE);
    SimPowerCycle(d.(password := PASSWORD));
  }

  /** One opcode, started and waited for. */
  lemma SimIssue(d: Device, op: Byte, v: Byte)
    requires d.password == PASSWORD && v & REQ != 0 && v & POWERED == POWERED
    ensures Sim(d, Issue(op, v)).dev
         == Execute(d.(ctrl1 := op, ctrl0 := v, busy := d.latency), op & OPCODE, SectorIndex(v)).(busy := 0)
    ensures Sim(d, Issue(op, v)).data == []
    ensures |Sim(d, Issue(op, v)).txns| == 3 + d.latency
  {
    var d1 := d.(ctrl1 := op);
    var d2 := Execute(d1.(ctrl0 := v, busy := d.latency), op & OPCODE, SectorIndex(v));
    var o2 := [Poll];
    var o1 := [Put1(CTRL_0, v)] + o2;
    assert Issue(op, v) == [Put1(CTRL_1, op)] + o1;
    SimPut(d, CTRL_1, [op], o1);
    Launch(d1, v);
    SimPut(d1, CTRL_0, [v], o2);
    SimPoll(d2, []);
    SimNil(d2.(busy := 0));
  }

  lemma SimSelect(d: Device, s: Byte)
    requires d.password == PASSWORD && s < 5
    ensures Sim(d, SelectSector(s)).dev
         == d.(ctrl0 := Request(s), ctrl1 := READ, busy := d.latency, buffer := d.store[SectorIndex(s)])
    ensures Sim(d, SelectSector(s)).data == []
    ensures |Sim(d, SelectSector(s)).txns| == 3
  {
    var o2 := [Put1(CTRL_0, Request(s))];
    var o1 := [Put1(CTRL_1, READ & OPCODE)] + o2;
    assert SelectSector(s) == [Put1(CTRL_0, POWERED)] + o1;
    var d1 := d.(ctrl0 := POWERED);
    var d2 := d1.(ctrl1 := READ);
    Idle(d, POWERED);
    SimPut(d, CTRL_0, [POWERED], o1);
    SimPut(d1, CTRL_1, [READ], o2);
    RequestBits(s);
    Launch(d2, Request(s));
    SimPut(d2, CTRL_0, [Request(s)], []);
    SimNil(d2.(ctrl0 := Request(s), busy := d.latency, buffer := d.store[SectorIndex(s)]));
  }

  lemma SimFetch(d: Device)
    ensures Sim(d, FETCH).dev == d.(ctrl0 := 0, busy := 0)
    ensures Sim(d, FETCH).data == d.buffer
    ensures |Sim(d, FETCH).txns| == d.busy + 3
  {
    var o2 := [Put1(CTRL_0, 0x00)];
    var o1 := [Get(RW_BUFFER, 8)] + o2;
    assert FETCH == [Poll] + o1;
    var d1 := d.(busy := 0);
    SimPoll(d, o1);
    SimGet(d1, RW_BUFFER, 8, o2);
    Idle(d1, 0);
    SimPut(d1, CTRL_0, [0], []);
    SimNil(d1.(ctrl0 := 0));
  }

  /** read_sector delivers sector `s` and changes nothing that persists. */
  lemma SimReadSector(d: Device, s: Byte)
    requires d.password == PASSWORD && s < 5
    ensures Keeps(d, Sim(d, ReadSectorOps(s)).dev)
    ensures Sim(d, ReadSectorOps(s)).dev.password == PASSWORD
    ensures Sim(d, ReadSectorOps(s)).data == d.store[SectorIndex(s)]
    ensures |Sim(d, ReadSectorOps(s)).txns| == 6 + d.latency
  {
    SimAppend(d, SelectSector(s), FETCH);
    SimSelect(d, s);
    SimFetch(Sim(d, SelectSector(s)).dev);
  }

  lemma SimExit(d: Device)
    ensures Keeps(d, Sim(d, EXIT_RW).dev)
    ensures Sim(d, EXIT_RW).dev.password == 0
    ensures Sim(d, EXIT_RW).data == []
    ensures |Sim(d, EXIT_RW).txns| == 3
  {
    var o2 := [Put1(PASSWORD_REG, 0x00)];
    var o1 := [Put1(CTRL_1, 0x00)] + o2;
    assert EXIT_RW == [Put1(CTRL_0, RST_N)] + o1;
    var d1 := d.(ctrl0 := RST_N);
    var d2 := d1.(ctrl1 := 0);
    Idle(d, RST_N);
    SimPut(d, CTRL_0, [RST_N], o1);
    SimPut(d1, CTRL_1, [0], o2);
    SimPut(d2, PASSWORD_REG, [0], []);
    SimNil(d2.(password := 0));
  }

  /** Appending one sector read to a read in progress. */
  lemma ReadMore(d: Device, prefix: seq<Op>, s: Byte)
    requires s < 5
    requires Keeps(d, Sim(d, prefix).dev) && Sim(d, prefix).dev.password == PASSWORD
    ensures Keeps(d, Sim(d, prefix + ReadSectorOps(s)).dev)
    ensures Sim(d, prefix + ReadSectorOps(s)).dev.password == PASSWORD
    ensures Sim(d, prefix + ReadSectorOps(s)).data == Sim(d, prefix).data + d.store[SectorIndex(s)]
    ensures |Sim(d, prefix + ReadSectorOps(s)).txns| == |Sim(d, prefix).txns| + 6 + d.latency
  {
    SimAppend(d, prefix, ReadSectorOps(s));
    SimReadSector(Sim(d, prefix).dev, s);
  }

  /** On a fault-free bus, the read delivers sector k at bytes 8k..8k+7 and leaves the array alone. */
  lemma SimReadNvm(d: Device)
    ensures Keeps(d, Sim(d, READ_NVM).dev)
    ensures Sim(d, READ_NVM).dev.password == 0
    ensures Sim(d, READ_NVM).data == Flatten(d.store)
    ensures |Sim(d, READ_NVM).txns| == 36 + 5 * d.latency
  {
    var p0 := ENTER_READ;
    var p1 := p0 + ReadSectorOps(0);
    var p2 := p1 + ReadSectorOps(1);
    var p3 := p2 + ReadSectorOps(2);
    var p4 := p3 + ReadSectorOps(3);
    var p5 := p4 + ReadSectorOps(4);
    SimEnterRead(d);
    ReadMore(d, p0, 0);
    ReadMore(d, p1, 1);
    ReadMore(d, p2, 2);
    ReadMore(d, p3, 3);
    ReadMore(d, p4, 4);
    SimAppend(d, p5, EXIT_RW);
    SimExit(Sim(d, p5).dev);
    assert [] + d.store[0] == d.store[0];
  }

  // ----- Erase and program -----

  lemma SimUnlock(d: Device)
    ensures Keeps(d, Sim(d, [Put1(PASSWORD_REG, PASSWORD), Put1(RW_BUFFER, 0x00)] + POWER_CYCLE).dev)
    ensures Sim(d, [Put1(PASSWORD_REG, PASSWORD), Put1(RW_BUFFER, 0x00)] + POWER_CYCLE).dev.password == PASSWORD
    ensures |Sim(d, [Put1(PASSWORD_REG, PASSWORD), Put1(RW_BUFFER, 0x00)] + POWER_CYCLE).txns| == 4
  {
    var o1 := [Put1(RW_BUFFER, 0x00)] + POWER_CYCLE;
    assert [Put1(PASSWORD_REG, PASSWORD), Put1(RW_BUFFER, 0x00)] + POWER_CYCLE == [Put1(PASSWORD_REG, PASSWORD)] + o1;
    var d1 := d.(password := PASSWORD);
    SimPut(d, PASSWORD_REG, [PASSWORD], o1);
    SimPut(d1, RW_BUFFER, [0], POWER_CYCLE);
    SimPowerCycle(Accept(d1, RW_BUFFER, [0]));
  }

  /** WRITE_SER with the erase setup byte selects all five sectors. */
  lemma SimSelectAll(d: Device)
    requires d.password == PASSWORD
    ensures Keeps(d, Sim(d, Command(ERASE_SETUP)).dev)
    ensures Sim(d, Command(ERASE_SETUP)).dev.password == PASSWORD
    ensures Sim(d, Command(ERASE_SETUP)).dev.ser == 0x1F
    ensures |Sim(d, Command(ERASE_SETUP)).txns| == 3 + d.latency
  {
    SimIssue(d, ERASE_SETUP, START);
  }

  lemma SimSoftProgram(d: Device)
    requires d.password == PASSWORD
    ensures Keeps(d, Sim(d, Command(SOFT_PROG_SECTOR & OPCODE)).dev)
    ensures Sim(d, Command(SOFT_PROG_SECTOR & OPCODE)).dev.password == PASSWORD
    ensures Sim(d, Command(SOFT_PROG_SECTOR & OPCODE)).dev.ser == d.ser
    ensures |Sim(d, Command(SOFT_PROG_SECTOR & OPCODE)).txns| == 3 + d.latency
  {
    SimIssue(d, SOFT_PROG_SECTOR & OPCODE, START);
  }

  lemma EraseAll(b: Bank)
    ensures Erase(b, 0x1F) == [BLANK, BLANK, BLANK, BLANK, BLANK]
  {
  }

  lemma SimEraseAll(d: Device)
    requires d.password == PASSWORD && d.ser == 0x1F
    ensures Sim(d, Command(ERASE_SECTOR & OPCODE)).dev.store == [BLANK, BLANK, BLANK, BLANK, BLANK]
    ensures Sim(d, Command(ERASE_SECTOR & OPCODE)).dev.stuck == d.stuck
    ensures Sim(d, Command(ERASE_SECTOR & OPCODE)).dev.latency == d.latency
    ensures Sim(d, Command(ERASE_SECTOR & OPCODE)).dev.password == PASSWORD
    ensures |Sim(d, Command(ERASE_SECTOR & OPCODE)).txns| == 3 + d.latency
  {
    SimIssue(d, ERASE_SECTOR & OPCODE, START);
    EraseAll(d.store);
  }

  /** enter_write_mode leaves every sector erased and the array unlocked. */
  lemma SimEnterWrite(d: Device)
    ensures Sim(d, ENTER_WRITE).dev.store == [BLANK, BLANK, BLANK, BLANK, BLANK]
    ensures Sim(d, ENTER_WRITE).dev.stuck == d.stuck
    ensures Sim(d, ENTER_WRITE).dev.latency == d.latency
    ensures Sim(d, ENTER_WRITE).dev.password == PASSWORD
    ensures |Sim(d, ENTER_WRITE).txns| == 13 + 3 * d.latency
  {
    var p0 := [Put1(PASSWORD_REG, PASSWORD), Put1(RW_BUFFER, 0x00)] + POWER_CYCLE;
    var p1 := p0 + Command(ERASE_SETUP);
    var p2 := p1 + Command(SOFT_PROG_SECTOR & OPCODE);
    SimUnlock(d);
    SimAppend(d, p0, Command(ERASE_SETUP));
    SimSelectAll(Sim(d, p0).dev);
    SimAppend(d, p1, Command(SOFT_PROG_SECTOR & OPCODE));
    SimSoftProgram(Sim(d, p1).dev);
    SimAppend(d, p2, Command(ERASE_SECTOR & OPCODE));
    SimEraseAll(Sim(d, p2).dev);
  }

  lemma SimLoadSector(d: Device, data: Sector)
    requires d.password == PASSWORD
    ensures Keeps(d, Sim(d, LoadSector(data)).dev)
    ensures Sim(d, LoadSector(data)).dev.password == PASSWORD
    ensures Sim(d, LoadSector(data)).dev.pl == data
    ensures |Sim(d, LoadSector(data)).txns| == 5 + d.latency
  {
    var o1 := [Put1(CTRL_0, POWERED)] + Command(WRITE_PL & OPCODE);
    assert LoadSector(data) == [Put(RW_BUFFER, data)] + o1;
    var d1 := d.(buffer := data);
    assert Accept(d, RW_BUFFER, data) == d1;
    SimPut(d, RW_BUFFER, data, o1);
    Idle(d1, POWERED);
    SimPut(d1, CTRL_0, [POWERED], Command(WRITE_PL & OPCODE));
    SimIssue(d1.(ctrl0 := POWERED), WRITE_PL & OPCODE, START);
  }

  lemma SimProgramSector(d: Device, s: Byte)
    requires d.password == PASSWORD && s < 5
    ensures Sim(d, ProgramSector(s)).dev.store
         == d.store[SectorIndex(s) := Program(d.store[SectorIndex(s)], d.pl, d.stuck[SectorIndex(s)])]
    ensures Sim(d, ProgramSector(s)).dev.stuck == d.stuck
    ensures Sim(d, ProgramSector(s)).dev.latency == d.latency
    ensures Sim(d, ProgramSector(s)).dev.password == PASSWORD
    ensures |Sim(d, ProgramSector(s)).txns| == 3 + d.latency
  {
    RequestBits(s);
    SimIssue(d, PROG_SECTOR & OPCODE, Request(s));
  }

  /** write_sector programs `data` into sector `s` and nowhere else. */
  lemma SimWriteSector(d: Device, s: Byte, data: Sector)
    requires d.password == PASSWORD && s < 5
    ensures Sim(d, WriteSectorOps(s, data)).dev.store
         == d.store[SectorIndex(s) := Program(d.store[SectorIndex(s)], data, d.stuck[SectorIndex(s)])]
    ensures Sim(d, WriteSectorOps(s, data)).dev.stuck == d.stuck
    ensures Sim(d, WriteSectorOps(s, data)).dev.latency == d.latency
    ensures Sim(d, WriteSectorOps(s, data)).dev.password == PASSWORD
    ensures |Sim(d, WriteSectorOps(s, data)).txns| == 8 + 2 * d.latency
  {
    SimAppend(d, LoadSector(data), ProgramSector(s));
    SimLoadSector(d, data);
    SimProgramSector(Sim(d, LoadSector(data)).dev, s);
  }

  /** Appending one sector write to a write in progress. */
  lemma WriteMore(d: Device, prefix: seq<Op>, s: Byte, data: Sector)
    requires s < 5
    requires Sim(d, prefix).dev.password == PASSWORD
    requires Sim(d, prefix).dev.stuck == d.stuck && Sim(d, prefix).dev.latency == d.latency
    ensures Sim(d, prefix + WriteSectorOps(s, data)).dev.store
         == Sim(d, prefix).dev.store[SectorIndex(s) :=
              Program(Sim(d, prefix).dev.store[SectorIndex(s)], data, d.stuck[SectorIndex(s)])]
    ensures Sim(d, prefix + WriteSectorOps(s, data)).dev.password == PASSWORD
    ensures Sim(d, prefix + WriteSectorOps(s, data)).dev.stuck == d.stuck
    ensures Sim(d, prefix + WriteSectorOps(s, data)).dev.latency == d.latency
    ensures |Sim(d, prefix + WriteSectorOps(s, data)).txns| == |Sim(d, prefix).txns| + 8 + 2 * d.latency
  {
    SimAppend(d, prefix, WriteSectorOps(s, data));
    SimWriteSector(Sim(d, prefix).dev, s, data);
  }

  /** The first two sectors of a write, after the erase. */
  lemma SimWriteHead(d: Device, img: Image)
    ensures Sim(d, ENTER_WRITE + WriteSectorOps(0, img[0..8]) + WriteSectorOps(1, img[8..16])).dev.store
         == [Burn(img, d.stuck)[0], Burn(img, d.stuck)[1], BLANK, BLANK, BLANK]
    ensures Sim(d, ENTER_WRITE + WriteSectorOps(0, img[0..8]) + WriteSectorOps(1, img[8..16])).dev.password == PASSWORD
    ensures Sim(d, ENTER_WRITE + WriteSectorOps(0, img[0..8]) + WriteSectorOps(1, img[8..16])).dev.stuck == d.stuck
    ensures Sim(d, ENTER_WRITE + WriteSectorOps(0, img[0..8]) + WriteSectorOps(1, img[8..16])).dev.latency == d.latency
    ensures |Sim(d, ENTER_WRITE + WriteSectorOps(0, img[0..8]) + WriteSectorOps(1, img[8..16])).txns| == 29 + 7 * d.latency
  {
    var p0 := ENTER_WRITE;
    var p1 := p0 + WriteSectorOps(0, img[0..8]);
    SimEnterWrite(d);
    WriteMore(d, p0, 0, img[0..8]);
    WriteMore(d, p1, 1, img[8..16]);
  }

  /** On a fault-free bus, the write leaves exactly `img` burnt into the erased array. */
  lemma SimWriteNvm(d: Device, img: Image)
    ensures Sim(d, WriteNvmOps(img)).dev.store == Burn(img, d.stuck)
    ensures Sim(d, WriteNvmOps(img)).dev.stuck == d.stuck
    ensures Sim(d, WriteNvmOps(img)).dev.latency == d.latency
    ensures Sim(d, WriteNvmOps(img)).dev.password == 0
    ensures |Sim(d, WriteNvmOps(img)).txns| == 56 + 13 * d.latency
  {
    var p2 := ENTER_WRITE + WriteSectorOps(0, img[0..8]) + WriteSectorOps(1, img[8..16]);
    var p3 := p2 + WriteSectorOps(2, img[16..24]);
    var p4 := p3 + WriteSectorOps(3, img[24..32]);
    var p5 := p4 + WriteSectorOps(4, img[32..40]);
    assert WriteNvmOps(img) == p5 + EXIT_RW;
    SimWriteHead(d, img);
    WriteMore(d, p2, 2, img[16..24]);
    WriteMore(d, p3, 3, img[24..32]);
    WriteMore(d, p4, 4, img[32..40]);
    SimAppend(d, p5, EXIT_RW);
    SimExit(Sim(d, p5).dev);
    assert Sim(d, p5).dev.store == Burn(img, d.stuck);
  }
}
