/**
 * `stusb4500_negotiate` and its helpers: check that the chip answers and a
 * cable is attached, optionally force the source to resend its
 * capabilities, poll for a Source_Capabilities message, capture its PDOs,
 * load the best acceptable one into sink PDO slot 3 and ask for a
 * renegotiation with a Soft_Reset.
 *
 * Every helper returns `Done(_, false)` where the driver returns false on a
 * decision of its own, and `Stop` where it returns false because a
 * transfer failed.
 */
module Negotiation {
  import opened Bytes
  import opened Outcomes
  import opened Transport
  import opened Pdo
  import opened Selection

  // Registers.
  const PORT_STATUS: Byte := 0x0E
  const PRT_STATUS: Byte := 0x16
  const CMD_CTRL: Byte := 0x1A
  const PE_FSM: Byte := 0x29
  const WHO_AM_I: Byte := 0x2F
  const RX_BYTE_CNT: Byte := 0x30
  const RX_HEADER: Byte := 0x31
  const RX_DATA_OBJ: Byte := 0x33
  const TX_HEADER: Byte := 0x51
  const DPM_SNK_PDO1: Byte := 0x85

  // Values and masks.
  const STUSB4500_ID: Byte := 0x25
  const STUSB4500B_ID: Byte := 0x21
  const ATTACH: Byte := 0x01
  const MESSAGE_RECEIVED: Byte := 0x04
  const PE_SNK_READY: Byte := 0x18
  const PD_CMD: Byte := 0x26
  const PD_SOFT_RESET: bv16 := 0x000D
  const TIMEOUT_MS: bv32 := 500

  /** The transfers of a successful Soft_Reset request. */
  const SOFT_RESET: seq<Event> := [Wrote(TX_HEADER, [0x0D, 0x00]), Wrote(CMD_CTRL, [PD_CMD])]

  /** `send_pd_message`: the message header to TX_HEADER, then the send command to CMD_CTRL. */
  function SendMessage(p: Port, msg: bv16): Run<Port, bool>
  {
    var (p1, _) :- WriteReg(p, TX_HEADER, Le16(msg));
    var (p2, _) :- WriteReg(p1, CMD_CTRL, [PD_CMD]);
    Done(p2, true)
  }

  predicate Known(id: Byte) { id == STUSB4500_ID || id == STUSB4500B_ID }

  /** `is_present`: WHO_AM_I reads back one of the two known device identifiers. */
  function IsPresent(p: Port): Run<Port, bool>
  {
    var (p1, id) :- ReadReg(p, WHO_AM_I, 1);
    Done(p1, Known(id[0]))
  }

  /** `start = get_ms()` when a clock is supplied, 0 otherwise. */
  function StartClock(p: Port, cfg: Config): (r: Run<Port, bv32>)
    ensures r.state.replies == p.replies && r.state.log == p.log
  {
    if cfg.clock then Now(p) else Done(p, 0)
  }

  /** More than 500 ms between `start` and `now`, measured by 32-bit wrapping subtraction. */
  predicate Late(now: bv32, start: bv32) { now - start > TIMEOUT_MS }

  /** The timeout test at the head of each polling loop; without a clock it never fires. */
  function Expired(p: Port, cfg: Config, start: bv32): (r: Run<Port, bool>)
    ensures r.state.replies == p.replies && r.state.log == p.log
    ensures !cfg.clock ==> r == Done(p, false)
    ensures cfg.clock && r.Done? ==> p.ticks != [] && r.value == Late(p.ticks[0], start)
  {
    if !cfg.clock then Done(p, false)
    else if p.ticks == [] then Hang(p)
    else Done(p.(ticks := p.ticks[1..]), Late(p.ticks[0], start))
  }

  /** The do-while loop of `wait_until_ready_with_timeout`: read PE_FSM until it shows PE_SNK_READY. */
  function WaitLoop(p: Port, cfg: Config, start: bv32): (r: Run<Port, bool>)
    ensures !cfg.clock ==> r.state.ticks == p.ticks
    ensures !cfg.clock && r.Done? ==> r.value
    decreases |p.replies|
  {
    var (p1, late) :- Expired(p, cfg, start);
    if late then Done(p1, false)
    else
      var (p2, state) :- ReadReg(p1, PE_FSM, 1);
      if state[0] == PE_SNK_READY then Done(p2, true) else WaitLoop(p2, cfg, start)
  }

  /** `wait_until_ready_with_timeout`. */
  function WaitReady(p: Port, cfg: Config): (r: Run<Port, bool>)
    ensures !cfg.clock ==> r.state.ticks == p.ticks
    ensures !cfg.clock && r.Done? ==> r.value
  {
    var (p1, start) :- StartClock(p, cfg);
    WaitLoop(p1, cfg, start)
  }

  /** The register of sink PDO slot `n`, for n in 1..3. */
  function SlotRegister(n: Byte): Byte
  {
    DPM_SNK_PDO1 + 4 * (n - 1)
  }

  /** `write_pdo`: format a fixed sink PDO and write it, little-endian, to slot `n`. */
  function WritePdo(p: Port, ma: bv16, mv: bv16, n: Byte): Run<Port, bool>
  {
    if n < 1 || n > 3 then Done(p, false)
    else
      var (p1, _) :- WriteReg(p, SlotRegister(n), Le32(Format(ma, mv)));
      Done(p1, true)
  }

  /** `load_optimal_pdo`: the search, then the winner written to slot 3. */
  function LoadOptimal(p: Port, cfg: Config, pdos: seq<bv32>): Run<Port, bool>
  {
    var c := Select(cfg, pdos);
    if !c.found then Done(p, false) else WritePdo(p, c.current, c.voltage, 3)
  }

  /** How one iteration of the polling loop ends: loop again, or leave with a result. */
  datatype Poll = Again | Leave(header: Option<bv16>)

  /**
   * One iteration of the `while (1)` loop of `stusb4500_negotiate`. It
   * leaves with the header of a Source_Capabilities message that has at
   * least one data object when the received byte count matches it, and
   * with `None` on a timeout or a byte count that does not match.
   */
  function PollOnce(p: Port, cfg: Config, start: bv32): (r: Run<Port, Poll>)
    ensures r.Done? && r.value.Again? ==> |r.state.replies| < |p.replies|
    ensures !cfg.clock ==> r.state.ticks == p.ticks
  {
    var (p1, late) :- Expired(p, cfg, start);
    if late then Done(p1, Leave(None))
    else
      var (p2, status) :- ReadReg(p1, PRT_STATUS, 1);
      if status[0] & MESSAGE_RECEIVED == 0 then Done(p2, Again)
      else
        var (p3, h) :- ReadReg(p2, RX_HEADER, 2);
        var header := FromLe16(h[0], h[1]);
        if DataObjects(header) == 0 || MessageType(header, cfg.rev30) != SRC_CAPABILITIES then Done(p3, Again)
        else
          var (p4, count) :- ReadReg(p3, RX_BYTE_CNT, 1);
          if count[0] != ByteCount(header) then Done(p4, Leave(None)) else Done(p4, Leave(Some(header)))
  }

  /** The polling loop: iterate until an iteration leaves. */
  function PollCaps(p: Port, cfg: Config, start: bv32): (r: Run<Port, Option<bv16>>)
    ensures !cfg.clock ==> r.state.ticks == p.ticks
    decreases |p.replies|
  {
    var (p1, step) :- PollOnce(p, cfg, start);
    if step.Again? then PollCaps(p1, cfg, start) else Done(p1, step.header)
  }

  /** The part of the `!on_interrupt` branch: wait for PE_SNK_READY, then request a Soft_Reset. */
  function Kick(p: Port, cfg: Config): (r: Run<Port, bool>)
    ensures !cfg.clock ==> r.state.ticks == p.ticks
  {
    var (p1, ready) :- WaitReady(p, cfg);
    if !ready then Done(p1, false) else SendMessage(p1, PD_SOFT_RESET)
  }

  /** After the capture: wait for idle, load the best PDO, request a Soft_Reset. */
  function Conclude(p: Port, cfg: Config, raw: seq<Byte>): (r: Run<Port, bool>)
    ensures !cfg.clock ==> r.state.ticks == p.ticks
  {
    var (p1, idle) :- WaitReady(p, cfg);
    if !idle then Done(p1, false)
    else
      var (p2, loaded) :- LoadOptimal(p1, cfg, Objects(raw));
      if !loaded then Done(p2, false) else SendMessage(p2, PD_SOFT_RESET)
  }

  /** The capture of the capabilities' data objects, then `Conclude`. */
  function Finish(p: Port, cfg: Config, header: bv16): (r: Run<Port, bool>)
    ensures !cfg.clock ==> r.state.ticks == p.ticks
  {
    var (p1, raw) :- ReadReg(p, RX_DATA_OBJ, 4 * DataObjects(header));
    Conclude(p1, cfg, raw)
  }

  /** The cable check: PORT_STATUS shows ATTACH. */
  function Attached(p: Port): Run<Port, bool>
  {
    var (p1, status) :- ReadReg(p, PORT_STATUS, 1);
    Done(p1, status[0] & ATTACH != 0)
  }

  /** Start the clock, then poll for the source's capabilities. */
  function Listen(p: Port, cfg: Config): (r: Run<Port, Option<bv16>>)
    ensures !cfg.clock ==> r.state.ticks == p.ticks
  {
    var (p1, start) :- StartClock(p, cfg);
    PollCaps(p1, cfg, start)
  }

  /** `stusb4500_negotiate` once a configuration is at hand. */
  function Session(p: Port, cfg: Config, onInterrupt: bool): (r: Run<Port, bool>)
    ensures !cfg.clock ==> r.state.ticks == p.ticks
  {
    var (p1, present) :- IsPresent(p);
    if !present then Done(p1, false)
    else
      var (p2, attached) :- Attached(p1);
      if !attached then Done(p2, false)
      else
        var (p3, go) :- if onInterrupt then Done(p2, true) else Kick(p2, cfg);
        if !go then Done(p3, false)
        else
          var (p4, caps) :- Listen(p3, cfg);
          if caps.None? then Done(p4, false) else Finish(p4, cfg, caps.value)
  }

  /** `stusb4500_negotiate`; `None` is the null configuration pointer. */
  function Negotiate(p: Port, cfg: Option<Config>, onInterrupt: bool): (r: Run<Port, bool>)
    ensures cfg.Some? && !cfg.value.clock ==> r.state.ticks == p.ticks
  {
    if cfg.None? then Done(p, false) else Session(p, cfg.value, onInterrupt)
  }
}
