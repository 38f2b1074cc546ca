/**
 * What `stusb4500_negotiate` and its helpers do on the bus, stated over the
 * event log: which registers are read and written, in what order, with
 * which bytes, and when the driver gives up.
 */
module NegotiationFacts {
  import opened Bytes
  import opened Outcomes
  import opened Transport
  import opened Pdo
  import opened Selection
  import opened Negotiation

  // ----- Helpers -----

  /** A soft reset is the message 0x000D, little-endian, then the send command. */
  lemma SoftResetBytes()
    ensures Le16(PD_SOFT_RESET) == [0x0D, 0x00]
  {
  }

  /** A successful `send_pd_message` logs exactly its two writes; a failed first write stops before the second. */
  lemma SendMessageLog(p: Port, msg: bv16)
    ensures var r := SendMessage(p, msg);
      r.Done? ==> r.value && r.state.log == p.log + [Wrote(TX_HEADER, Le16(msg)), Wrote(CMD_CTRL, [PD_CMD])]
    ensures p.replies != [] && p.replies[0] == Nak ==>
      SendMessage(p, msg) == Stop(p.(replies := p.replies[1..], log := p.log + [Lost(TX_HEADER)]))
  {
  }

  lemma SoftResetLog(p: Port)
    ensures var r := SendMessage(p, PD_SOFT_RESET);
      r.Done? ==> r.value && r.state.log == p.log + SOFT_RESET
  {
    SendMessageLog(p, PD_SOFT_RESET);
    SoftResetBytes();
  }

  // ----- Waiting for PE_SNK_READY -----

  /** A completed wait: PE_FSM reads, each of one byte, of which exactly the last shows PE_SNK_READY. */
  predicate Waited(w: seq<Event>)
  {
    |w| > 0 &&
    forall i :: 0 <= i < |w| ==>
      w[i].Got? && w[i].reg == PE_FSM && |w[i].data| == 1 && (w[i].data[0] == PE_SNK_READY <==> i == |w| - 1)
  }

  lemma WaitedCons(e: Event, w: seq<Event>)
    requires e.Got? && e.reg == PE_FSM && |e.data| == 1 && e.data[0] != PE_SNK_READY
    requires Waited(w)
    ensures Waited([e] + w)
  {
  }

  /** The readiness wait returns true only after a run of PE_FSM reads that ends on PE_SNK_READY. */
  lemma {:induction false} WaitLoopLog(p: Port, cfg: Config, start: bv32)
    ensures var r := WaitLoop(p, cfg, start);
      r.Done? && r.value ==> |p.log| < |r.state.log| && r.state.log[..|p.log|] == p.log && Waited(r.state.log[|p.log|..])
    decreases |p.replies|
  {
    var r := WaitLoop(p, cfg, start);
    var e := Expired(p, cfg, start);
    if e.Done? && !e.value {
      var p1 := e.state;
      var g := ReadReg(p1, PE_FSM, 1);
      if g.Done? {
        var p2 := g.state;
        var ev := Got(PE_FSM, g.value);
        assert p2.log == p.log + [ev];
        if g.value[0] == PE_SNK_READY {
          assert r.state.log[|p.log|..] == [ev];
        } else if r.Done? && r.value {
          WaitLoopLog(p2, cfg, start);
          var q := r.state;
          assert q.log[|p.log|..] == [ev] + q.log[|p2.log|..];
          WaitedCons(ev, q.log[|p2.log|..]);
        }
      }
    }
  }

  /** With a clock, a tick more than 500 ms after the start ends the wait with false before any read. */
  lemma WaitTimeout(p: Port, cfg: Config, start: bv32)
    requires cfg.clock && p.ticks != [] && Late(p.ticks[0], start)
    ensures WaitLoop(p, cfg, start) == Done(p.(ticks := p.ticks[1..]), false)
  {
  }

  lemma WaitReadyLog(p: Port, cfg: Config)
    ensures var r := WaitReady(p, cfg);
      r.Done? && r.value ==> |p.log| < |r.state.log| && r.state.log[..|p.log|] == p.log && Waited(r.state.log[|p.log|..])
  {
    var s := StartClock(p, cfg);
    if s.Done? {
      WaitLoopLog(s.state, cfg, s.value);
    }
  }

  // ----- Polling for Source_Capabilities -----

  /** A header the polling loop accepts: at least one data object, and the Source_Capabilities type. */
  predicate Accepted(header: bv16, rev30: bool)
  {
    DataObjects(header) > 0 && MessageType(header, rev30) == SRC_CAPABILITIES
  }

  predicate Received(status: Byte) { status & MESSAGE_RECEIVED != 0 }

  /** Events of the polling loop before the accepted header: reads of PRT_STATUS and RX_HEADER only. */
  predicate Polled(w: seq<Event>)
  {
    forall i :: 0 <= i < |w| ==> w[i].Got? && (w[i].reg == PRT_STATUS || w[i].reg == RX_HEADER)
  }

  /**
   * The log of a successful poll, after `before`: it starts with a PRT_STATUS
   * read, holds only PRT_STATUS and RX_HEADER reads up to a PRT_STATUS read
   * showing a received message, and ends with the header `h` and a byte
   * count of four bytes per data object.
   */
  predicate PollTrace(before: seq<Event>, log: seq<Event>, h: bv16)
  {
    |before| + 3 <= |log| && log[..|before|] == before
    && log[|before|].Got? && log[|before|].reg == PRT_STATUS
    && Polled(log[|before|..|log| - 2])
    && log[|log| - 3].Got? && log[|log| - 3].reg == PRT_STATUS && |log[|log| - 3].data| == 1
    && Received(log[|log| - 3].data[0])
    && log[|log| - 2..] == [Got(RX_HEADER, Le16(h)), Got(RX_BYTE_CNT, [ByteCount(h)])]
  }

  /** The clock reading at the head of a loop iteration, when there is a clock. */
  function Checked(p: Port, cfg: Config): Port
    requires cfg.clock ==> p.ticks != []
  {
    if cfg.clock then p.(ticks := p.ticks[1..]) else p
  }

  /** A loop iteration that is not timed out. */
  predicate InTime(p: Port, cfg: Config, start: bv32)
  {
    cfg.clock ==> p.ticks != [] && !Late(p.ticks[0], start)
  }

  lemma LeBytes(h: seq<Byte>)
    requires |h| == 2
    ensures Le16(FromLe16(h[0], h[1])) == h
  {
  }

  /** The events of one polling iteration that loops again: an idle status, or a status and a rejected header. */
  predicate Skipped(w: seq<Event>)
  {
    0 < |w| <= 2 && Polled(w) && w[0].reg == PRT_STATUS
  }

  /** One iteration reads PRT_STATUS first; it loops again only after a status or header it rejects. */
  lemma PollOnceAgain(p: Port, cfg: Config, start: bv32)
    ensures var r := PollOnce(p, cfg, start);
      r.Done? && r.value.Again? ==> |p.log| < |r.state.log| && r.state.log[..|p.log|] == p.log && Skipped(r.state.log[|p.log|..])
  {
    var r := PollOnce(p, cfg, start);
    if r.Done? && r.value.Again? {
      var p1 := Expired(p, cfg, start).state;
      var s := ReadReg(p1, PRT_STATUS, 1);
      if s.value[0] & MESSAGE_RECEIVED == 0 {
        assert r.state.log[|p.log|..] == [Got(PRT_STATUS, s.value)];
      } else {
        var g := ReadReg(s.state, RX_HEADER, 2);
        assert r.state.log[|p.log|..] == [Got(PRT_STATUS, s.value), Got(RX_HEADER, g.value)];
      }
    }
  }

  /** An iteration that leaves with a header accepted it and read a matching byte count. */
  lemma PollOnceLeave(p: Port, cfg: Config, start: bv32)
    ensures var r := PollOnce(p, cfg, start);
      r.Done? && r.value.Leave? && r.value.header.Some? ==>
      Accepted(r.value.header.value, cfg.rev30) && PollTrace(p.log, r.state.log, r.value.header.value)
  {
    var r := PollOnce(p, cfg, start);
    if r.Done? && r.value.Leave? && r.value.header.Some? {
      var p1 := Expired(p, cfg, start).state;
      var s := ReadReg(p1, PRT_STATUS, 1);
      var g := ReadReg(s.state, RX_HEADER, 2);
      var h := FromLe16(g.value[0], g.value[1]);
      LeBytes(g.value);
      var c := ReadReg(g.state, RX_BYTE_CNT, 1);
      assert c.value == [ByteCount(h)];
      assert r.state.log == p.log + [Got(PRT_STATUS, s.value), Got(RX_HEADER, Le16(h)), Got(RX_BYTE_CNT, [ByteCount(h)])];
    }
  }

  lemma PollTraceCons(before: seq<Event>, w: seq<Event>, log: seq<Event>, h: bv16)
    requires Skipped(w)
    requires PollTrace(before + w, log, h)
    ensures PollTrace(before, log, h)
  {
    var n := |before + w|;
    assert log[|before|..|log| - 2] == w + log[n..|log| - 2];
  }

  /** A poll that yields a header has read, in order, only status and header registers, ending as `PollTrace` says. */
  lemma {:induction false} PollLog(p: Port, cfg: Config, start: bv32)
    ensures var r := PollCaps(p, cfg, start);
      r.Done? && r.value.Some? ==> Accepted(r.value.value, cfg.rev30) && PollTrace(p.log, r.state.log, r.value.value)
    decreases |p.replies|
  {
    var r := PollCaps(p, cfg, start);
    var o := PollOnce(p, cfg, start);
    if r.Done? && r.value.Some? {
      if o.value.Again? {
        var p1 := o.state;
        PollOnceAgain(p, cfg, start);
        PollLog(p1, cfg, start);
        assert p1.log == p.log + p1.log[|p.log|..];
        PollTraceCons(p.log, p1.log[|p.log|..], r.state.log, r.value.value);
      } else {
        PollOnceLeave(p, cfg, start);
      }
    }
  }

  /** With a clock, a tick more than 500 ms after the start ends the poll with no header and no transfer. */
  lemma PollTimeout(p: Port, cfg: Config, start: bv32)
    requires cfg.clock && p.ticks != [] && Late(p.ticks[0], start)
    ensures PollCaps(p, cfg, start) == Done(p.(ticks := p.ticks[1..]), None)
  {
    assert PollOnce(p, cfg, start) == Done(p.(ticks := p.ticks[1..]), Leave(None));
  }

  /** A status without MESSAGE_RECEIVED: the loop goes round again after that one read. */
  lemma PollSkipStatus(p: Port, cfg: Config, start: bv32, s: Byte)
    requires InTime(p, cfg, start)
    requires p.replies != [] && p.replies[0] == Ack([s]) && !Received(s)
    ensures PollCaps(p, cfg, start)
      == PollCaps(Checked(p, cfg).(replies := p.replies[1..], log := p.log + [Got(PRT_STATUS, [s])]), cfg, start)
  {
    var p1 := Checked(p, cfg);
    assert Expired(p, cfg, start) == Done(p1, false);
    var p2 := p1.(replies := p.replies[1..], log := p.log + [Got(PRT_STATUS, [s])]);
    assert ReadReg(p1, PRT_STATUS, 1) == Done(p2, [s]);
    assert PollOnce(p, cfg, start) == Done(p2, Again);
  }

  /** The first two reads of an iteration that finds a message: a status showing it, then its header. */
  lemma PollHead(p: Port, cfg: Config, start: bv32, s: Byte, hb: seq<Byte>)
    requires InTime(p, cfg, start)
    requires |p.replies| >= 2 && p.replies[0] == Ack([s]) && p.replies[1] == Ack(hb) && |hb| == 2
    ensures var p1 := Checked(p, cfg);
      var p2 := p1.(replies := p.replies[1..], log := p.log + [Got(PRT_STATUS, [s])]);
      Expired(p, cfg, start) == Done(p1, false) && ReadReg(p1, PRT_STATUS, 1) == Done(p2, [s])
      && ReadReg(p2, RX_HEADER, 2)
         == Done(p1.(replies := p.replies[2..], log := p.log + [Got(PRT_STATUS, [s]), Got(RX_HEADER, hb)]), hb)
  {
    assert p.replies[1..][1..] == p.replies[2..];
    assert p.log + [Got(PRT_STATUS, [s])] + [Got(RX_HEADER, hb)] == p.log + [Got(PRT_STATUS, [s]), Got(RX_HEADER, hb)];
  }

  /** A header with no data object or of another type: the loop goes round again after the two reads. */
  lemma PollSkipHeader(p: Port, cfg: Config, start: bv32, s: Byte, hb: seq<Byte>)
    requires InTime(p, cfg, start)
    requires |p.replies| >= 2 && p.replies[0] == Ack([s]) && Received(s)
    requires p.replies[1] == Ack(hb) && |hb| == 2 && !Accepted(FromLe16(hb[0], hb[1]), cfg.rev30)
    ensures PollCaps(p, cfg, start)
      == PollCaps(Checked(p, cfg).(replies := p.replies[2..], log := p.log + [Got(PRT_STATUS, [s]), Got(RX_HEADER, hb)]), cfg, start)
  {
    PollHead(p, cfg, start, s, hb);
    var q := Checked(p, cfg).(replies := p.replies[2..], log := p.log + [Got(PRT_STATUS, [s]), Got(RX_HEADER, hb)]);
    assert PollOnce(p, cfg, start) == Done(q, Again);
  }

  /** An accepted header whose byte count is not four per data object: the poll ends with no header. */
  lemma PollBadCount(p: Port, cfg: Config, start: bv32, s: Byte, hb: seq<Byte>, n: Byte)
    requires InTime(p, cfg, start)
    requires |p.replies| >= 3 && p.replies[0] == Ack([s]) && Received(s)
    requires p.replies[1] == Ack(hb) && |hb| == 2 && Accepted(FromLe16(hb[0], hb[1]), cfg.rev30)
    requires p.replies[2] == Ack([n]) && n != ByteCount(FromLe16(hb[0], hb[1]))
    ensures PollCaps(p, cfg, start) == Done(Checked(p, cfg).(replies := p.replies[3..],
      log := p.log + [Got(PRT_STATUS, [s]), Got(RX_HEADER, hb), Got(RX_BYTE_CNT, [n])]), None)
  {
    PollHead(p, cfg, start, s, hb);
    var p3 := Checked(p, cfg).(replies := p.replies[2..], log := p.log + [Got(PRT_STATUS, [s]), Got(RX_HEADER, hb)]);
    var q := Checked(p, cfg).(replies := p.replies[3..],
      log := p.log + [Got(PRT_STATUS, [s]), Got(RX_HEADER, hb), Got(RX_BYTE_CNT, [n])]);
    assert p.replies[2..][1..] == p.replies[3..];
    assert p3.log + [Got(RX_BYTE_CNT, [n])] == q.log;
    assert ReadReg(p3, RX_BYTE_CNT, 1) == Done(q, [n]);
    assert PollOnce(p, cfg, start) == Done(q, Leave(None));
  }

  // ----- Loading the sink PDO -----

  /** The three sink PDO registers, four bytes apart from DPM_SNK_PDO1. */
  lemma SlotRegisters()
    ensures SlotRegister(1) == 0x85 && SlotRegister(2) == 0x89 && SlotRegister(3) == 0x8D
  {
  }

  /**
   * `write_pdo` refuses slots outside 1..3 without a transfer; otherwise
   * its only transfer is the formatted PDO, little-endian, to the slot's
   * register.
   */
  lemma WritePdoLog(p: Port, ma: bv16, mv: bv16, n: Byte)
    ensures n < 1 || n > 3 ==> WritePdo(p, ma, mv, n) == Done(p, false)
    ensures var r := WritePdo(p, ma, mv, n);
      1 <= n <= 3 && r.Done? ==> r.value && r.state.log == p.log + [Wrote(SlotRegister(n), Le32(Format(ma, mv)))]
    ensures var r := WritePdo(p, ma, mv, n);
      1 <= n <= 3 && r.Stop? ==> r.state.log == p.log + [Lost(SlotRegister(n))]
  {
  }

  /**
   * The four bytes `write_pdo` sends hold a fixed-supply PDO with bits
   * 20..31 clear that gives back the current and voltage it was made
   * from, when they lie on the 10 mA and 50 mV grids.
   */
  lemma WrittenPdo(ma: bv16, mv: bv16)
    ensures var pdo := FromLe32(Le32(Format(ma, mv)));
      PdoType(pdo) == TYPE_FIXED && pdo & 0xFFF0_0000 == 0
      && (ma % 10 == 0 && ma <= 10230 ==> FromCurrent(pdo) == ma)
      && (mv % 50 == 0 && mv <= 51150 ==> FromVoltage(pdo) == mv)
  {
    var x := Format(ma, mv);
    assert FromLe32(Le32(x)) == x;
    FormattedPdo(ma, mv);
  }

  lemma FormattedPdo(ma: bv16, mv: bv16)
    ensures var pdo := Format(ma, mv);
      PdoType(pdo) == TYPE_FIXED && pdo & 0xFFF0_0000 == 0
      && (ma % 10 == 0 && ma <= 10230 ==> FromCurrent(pdo) == ma)
      && (mv % 50 == 0 && mv <= 51150 ==> FromVoltage(pdo) == mv)
  {
    FormatType(ma, mv);
    if ma % 10 == 0 && ma <= 10230 {
      FormatCurrent(ma, mv);
    }
    if mv % 50 == 0 && mv <= 51150 {
      FormatVoltage(ma, mv);
    }
  }

  /**
   * `load_optimal_pdo` returns false without a transfer when the search
   * finds nothing; otherwise its one transfer writes the chosen current
   * and voltage to sink PDO slot 3.
   */
  lemma LoadOptimalLog(p: Port, cfg: Config, pdos: seq<bv32>)
    ensures !Select(cfg, pdos).found ==> LoadOptimal(p, cfg, pdos) == Done(p, false)
    ensures var r := LoadOptimal(p, cfg, pdos);
      var c := Select(cfg, pdos);
      r.Done? && r.value ==> c.found && r.state.log == p.log + [Wrote(0x8D, Le32(Format(c.current, c.voltage)))]
  {
    var c := Select(cfg, pdos);
    WritePdoLog(p, c.current, c.voltage, 3);
    SlotRegisters();
  }

  /** Current and voltage that a PDO field can hold exactly: on the 10 mA and 50 mV grids and within 10 bits. */
  predicate OnGrid(ma: bv16, mv: bv16)
  {
    ma % 10 == 0 && ma <= 10230 && mv % 50 == 0 && mv <= 51150
  }

  /** On the grids, the bytes `write_pdo` sends decode back to the fixed PDO of that current and voltage. */
  lemma WrittenOnGrid(ma: bv16, mv: bv16)
    requires OnGrid(ma, mv)
    ensures var pdo := FromLe32(Le32(Format(ma, mv)));
      FromCurrent(pdo) == ma && FromVoltage(pdo) == mv && PdoType(pdo) == TYPE_FIXED
  {
    WrittenPdo(ma, mv);
  }

  lemma DecodedOnGrid(pdo: bv32)
    ensures OnGrid(FromCurrent(pdo), FromVoltage(pdo))
  {
  }

  /** Whatever the search picks was read out of a PDO, so it lies on the grids. */
  lemma ChoiceOnGrid(cfg: Config, pdos: seq<bv32>)
    requires Select(cfg, pdos).found
    ensures OnGrid(Select(cfg, pdos).current, Select(cfg, pdos).voltage)
  {
    var c := Select(cfg, pdos);
    SelectSound(cfg, pdos);
    var i :| 0 <= i < |pdos| && c.current == Offers(pdos)[i].current && c.voltage == Offers(pdos)[i].voltage;
    assert Offers(pdos)[i] == Decode(pdos[i]);
    DecodedOnGrid(pdos[i]);
  }

  /**
   * The sink PDO loaded into slot 3 advertises exactly the current and
   * voltage of the source PDO the search chose.
   */
  lemma LoadedMatchesSource(cfg: Config, pdos: seq<bv32>)
    requires Select(cfg, pdos).found
    ensures var c := Select(cfg, pdos);
      var pdo := FromLe32(Le32(Format(c.current, c.voltage)));
      FromCurrent(pdo) == c.current && FromVoltage(pdo) == c.voltage && PdoType(pdo) == TYPE_FIXED
  {
    var c := Select(cfg, pdos);
    ChoiceOnGrid(cfg, pdos);
    WrittenOnGrid(c.current, c.voltage);
  }

  // ----- The stages of a negotiation -----

  /** After `before`, a finished wait and then the two Soft_Reset writes. */
  predicate Kicked(before: seq<Event>, log: seq<Event>)
  {
    |before| + 3 <= |log| && log[..|before|] == before
    && Waited(log[|before|..|log| - 2]) && log[|log| - 2..] == SOFT_RESET
  }

  /** The forced renegotiation completes only after a finished wait and the two Soft_Reset writes. */
  lemma KickLog(p: Port, cfg: Config)
    ensures var r := Kick(p, cfg);
      r.Done? && r.value ==> Kicked(p.log, r.state.log)
  {
    var w := WaitReady(p, cfg);
    WaitReadyLog(p, cfg);
    if w.Done? && w.value {
      var p1 := w.state;
      SoftResetLog(p1);
      var q := Kick(p, cfg).state;
      if Kick(p, cfg).Done? && Kick(p, cfg).value {
        assert q.log == p1.log + SOFT_RESET;
        assert q.log[|p.log|..|q.log| - 2] == p1.log[|p.log|..];
      }
    }
  }

  /** Listening succeeds only along a `PollTrace`, with an accepted header. */
  lemma ListenLog(p: Port, cfg: Config)
    ensures var r := Listen(p, cfg);
      r.Done? && r.value.Some? ==> Accepted(r.value.value, cfg.rev30) && PollTrace(p.log, r.state.log, r.value.value)
  {
    var s := StartClock(p, cfg);
    if s.Done? {
      PollLog(s.state, cfg, s.value);
    }
  }

  /**
   * After `before`, `log` holds a finished wait, then the write to slot 3
   * of the PDO the search picks from the captured bytes `raw`, then a
   * Soft_Reset.
   */
  predicate Concluded(cfg: Config, raw: seq<Byte>, before: seq<Event>, log: seq<Event>)
  {
    var c := Select(cfg, Objects(raw));
    |before| + 4 <= |log| && log[..|before|] == before && Waited(log[|before|..|log| - 3])
    && c.found && log[|log| - 3..] == [Wrote(SlotRegister(3), Le32(Format(c.current, c.voltage)))] + SOFT_RESET
  }

  /** A successful `Conclude` is a successful wait, a successful load and a Soft_Reset, in turn. */
  lemma ConcludeSteps(p: Port, cfg: Config, raw: seq<Byte>)
    ensures var r := Conclude(p, cfg, raw);
      r.Done? && r.value ==>
      var w := WaitReady(p, cfg);
      w.Done? && w.value
      && var l := LoadOptimal(w.state, cfg, Objects(raw));
      l.Done? && l.value && r == SendMessage(l.state, PD_SOFT_RESET)
  {
  }

  /** After the capture: a finished wait, the slot 3 write of what the search picks, a Soft_Reset. */
  lemma ConcludeLog(p: Port, cfg: Config, raw: seq<Byte>)
    ensures var r := Conclude(p, cfg, raw);
      r.Done? && r.value ==> Concluded(cfg, raw, p.log, r.state.log)
  {
    var r := Conclude(p, cfg, raw);
    ConcludeSteps(p, cfg, raw);
    if r.Done? && r.value {
      var p1 := WaitReady(p, cfg).state;
      WaitReadyLog(p, cfg);
      LoadOptimalLog(p1, cfg, Objects(raw));
      SlotRegisters();
      var p2 := LoadOptimal(p1, cfg, Objects(raw)).state;
      SoftResetLog(p2);
      var c := Select(cfg, Objects(raw));
      var tail := [Wrote(SlotRegister(3), Le32(Format(c.current, c.voltage)))] + SOFT_RESET;
      assert r.state.log == p1.log + tail;
      assert r.state.log[|p.log|..|r.state.log| - 3] == p1.log[|p.log|..];
    }
  }

  lemma FinishSteps(p: Port, cfg: Config, h: bv16)
    ensures var r := Finish(p, cfg, h);
      var g := ReadReg(p, RX_DATA_OBJ, 4 * DataObjects(h));
      r.Done? && r.value ==> g.Done? && r == Conclude(g.state, cfg, g.value)
  {
  }

  /**
   * After `before`, the capture of four bytes per data object of `h`, then
   * what `Concluded` says of the captured bytes.
   */
  predicate Captured(cfg: Config, before: seq<Event>, log: seq<Event>, h: bv16)
  {
    |before| < |log| && log[..|before|] == before
    && log[|before|].Got? && log[|before|].reg == RX_DATA_OBJ && |log[|before|].data| == 4 * DataObjects(h)
    && Concluded(cfg, log[|before|].data, log[..|before| + 1], log)
  }

  /**
   * The final stage's events: the capture, of four bytes per data object,
   * then what `Concluded` says of the captured bytes.
   */
  lemma FinishLog(p: Port, cfg: Config, h: bv16)
    ensures var r := Finish(p, cfg, h);
      r.Done? && r.value ==> Captured(cfg, p.log, r.state.log, h)
  {
    var r := Finish(p, cfg, h);
    var g := ReadReg(p, RX_DATA_OBJ, 4 * DataObjects(h));
    FinishSteps(p, cfg, h);
    if r.Done? && r.value {
      var p1 := g.state;
      var q := r.state;
      ConcludeLog(p1, cfg, g.value);
      var n := |p.log|;
      assert p1.log == p.log + [Got(RX_DATA_OBJ, g.value)];
      assert q.log[..n + 1] == p1.log;
      assert q.log[..n] == p.log by {
        assert q.log[..n] == q.log[..n + 1][..n];
      }
      assert q.log[n] == Got(RX_DATA_OBJ, g.value) by {
        assert q.log[n] == q.log[..n + 1][n];
      }
    }
  }

  /**
   * The last stage of a successful negotiation, after `before`: the
   * capture at index `j`, right after the accepted header and its matching
   * byte count, then a finished wait, then the PDO the search picks from
   * the captured bytes written to slot 3, then a Soft_Reset.
   */
  predicate Loaded(cfg: Config, log: seq<Event>, j: int)
  {
    2 <= j && j + 4 <= |log|
    && log[j].Got? && log[j].reg == RX_DATA_OBJ
    && log[j - 2].Got? && log[j - 2].reg == RX_HEADER && |log[j - 2].data| == 2
    && (var h := FromLe16(log[j - 2].data[0], log[j - 2].data[1]);
        Accepted(h, cfg.rev30) && |log[j].data| == 4 * DataObjects(h)
        && log[j - 1] == Got(RX_BYTE_CNT, [ByteCount(h)]))
    && Concluded(cfg, log[j].data, log[..j + 1], log)
  }


  // ----- The whole negotiation -----

  /** A WHO_AM_I read that showed a known device. */
  predicate Identified(e: Event)
  {
    e.Got? && e.reg == WHO_AM_I && |e.data| == 1 && Known(e.data[0])
  }

  /** A PORT_STATUS read that showed an attached cable. */
  predicate Plugged(e: Event)
  {
    e.Got? && e.reg == PORT_STATUS && |e.data| == 1 && e.data[0] & ATTACH != 0
  }

  /** After `before`, the log first shows the device identified, then the cable attached. */
  predicate Prefaced(before: seq<Event>, log: seq<Event>)
  {
    |before| + 2 < |log| && log[..|before|] == before && Identified(log[|before|]) && Plugged(log[|before| + 1])
  }

  /**
   * After `before` and the two checks, a finished wait ending at `k`, the
   * two Soft_Reset writes, then a PRT_STATUS read.
   */
  predicate Forced(before: seq<Event>, log: seq<Event>, k: int)
  {
    |before| + 2 < k && k + 2 < |log| && Waited(log[|before| + 2..k]) && log[k..k + 2] == SOFT_RESET
    && log[k + 2].Got? && log[k + 2].reg == PRT_STATUS
  }

  lemma IsPresentLog(p: Port)
    ensures var r := IsPresent(p);
      r.Done? && r.value ==> |r.state.log| == |p.log| + 1 && r.state.log[..|p.log|] == p.log && Identified(r.state.log[|p.log|])
  {
  }

  lemma AttachedLog(p: Port)
    ensures var r := Attached(p);
      r.Done? && r.value ==> |r.state.log| == |p.log| + 1 && r.state.log[..|p.log|] == p.log && Plugged(r.state.log[|p.log|])
  {
  }

  /** A successful session passes every stage in turn. */
  lemma SessionSteps(p: Port, cfg: Config, onInterrupt: bool)
    ensures var r := Session(p, cfg, onInterrupt);
      r.Done? && r.value ==>
      var a := IsPresent(p);
      a.Done? && a.value
      && var b := Attached(a.state);
      b.Done? && b.value
      && var k := if onInterrupt then Done(b.state, true) else Kick(b.state, cfg);
      k.Done? && k.value
      && var l := Listen(k.state, cfg);
      l.Done? && l.value.Some? && r == Finish(l.state, cfg, l.value.value)
  {
  }

  /** `b` starts with `a`. */
  predicate Extends(a: seq<Event>, b: seq<Event>)
  {
    |a| <= |b| && b[..|a|] == a
  }

  lemma ExtendsTrans(a: seq<Event>, b: seq<Event>, c: seq<Event>)
    requires Extends(a, b) && Extends(b, c)
    ensures Extends(a, c)
  {
    assert c[..|a|] == c[..|b|][..|a|];
  }

  lemma KickExtends(p: Port, cfg: Config)
    ensures var r := Kick(p, cfg);
      r.Done? && r.value ==> Extends(p.log, r.state.log) && |p.log| + 3 <= |r.state.log|
  {
    KickLog(p, cfg);
  }

  lemma ListenExtends(p: Port, cfg: Config)
    ensures var r := Listen(p, cfg);
      r.Done? && r.value.Some? ==> Extends(p.log, r.state.log) && |p.log| + 3 <= |r.state.log|
  {
    ListenLog(p, cfg);
  }

  lemma ListenStarts(p: Port, cfg: Config)
    ensures var r := Listen(p, cfg);
      r.Done? && r.value.Some? ==>
      Extends(p.log, r.state.log) && |p.log| + 3 <= |r.state.log|
      && r.state.log[|p.log|].Got? && r.state.log[|p.log|].reg == PRT_STATUS
  {
    ListenLog(p, cfg);
  }

  lemma FinishExtends(p: Port, cfg: Config, h: bv16)
    ensures var r := Finish(p, cfg, h);
      r.Done? && r.value ==> Extends(p.log, r.state.log) && |p.log| < |r.state.log|
  {
    FinishLog(p, cfg, h);
  }

  /** Every stage of a successful session only appends to the log. */
  lemma SessionPrefixes(p: Port, cfg: Config, onInterrupt: bool)
    ensures var r := Session(p, cfg, onInterrupt);
      r.Done? && r.value ==>
      var pa := IsPresent(p).state;
      var pb := Attached(pa).state;
      var pk := (if onInterrupt then Done(pb, true) else Kick(pb, cfg)).state;
      var pl := Listen(pk, cfg).state;
      var q := r.state;
      |p.log| + 1 == |pa.log| && |pa.log| + 1 == |pb.log| && (onInterrupt ==> pk == pb)
      && Extends(p.log, pa.log) && Extends(pa.log, pb.log) && Extends(pb.log, pk.log)
      && Extends(pk.log, pl.log) && |pk.log| + 3 <= |pl.log| && Extends(pl.log, q.log) && |pl.log| < |q.log|
  {
    var r := Session(p, cfg, onInterrupt);
    SessionSteps(p, cfg, onInterrupt);
    if r.Done? && r.value {
      var pa := IsPresent(p).state;
      IsPresentLog(p);
      var pb := Attached(pa).state;
      AttachedLog(pa);
      var pk := (if onInterrupt then Done(pb, true) else Kick(pb, cfg)).state;
      if !onInterrupt {
        KickExtends(pb, cfg);
      }
      var l := Listen(pk, cfg);
      ListenExtends(pk, cfg);
      FinishExtends(l.state, cfg, l.value.value);
    }
  }

  lemma ExtendsAt(a: seq<Event>, b: seq<Event>, i: int)
    requires Extends(a, b) && 0 <= i < |a|
    ensures b[i] == a[i]
  {
    assert b[i] == b[..|a|][i];
  }

  lemma ExtendsSlice(a: seq<Event>, b: seq<Event>, i: int, j: int)
    requires Extends(a, b) && 0 <= i <= j <= |a|
    ensures b[i..j] == a[i..j]
  {
    forall t | 0 <= t < j - i
      ensures b[i..j][t] == a[i..j][t]
    {
      assert b[i + t] == b[..|a|][i + t];
    }
  }

  /** A session succeeds only after the device identified itself and the cable showed as attached. */
  lemma SessionGate(p: Port, cfg: Config, onInterrupt: bool)
    ensures var r := Session(p, cfg, onInterrupt);
      r.Done? && r.value ==> Prefaced(p.log, r.state.log)
  {
    var r := Session(p, cfg, onInterrupt);
    SessionPrefixes(p, cfg, onInterrupt);
    if r.Done? && r.value {
      var pa := IsPresent(p).state;
      IsPresentLog(p);
      var pb := Attached(pa).state;
      AttachedLog(pa);
      var pk := (if onInterrupt then Done(pb, true) else Kick(pb, cfg)).state;
      var pl := Listen(pk, cfg).state;
      var q := r.state;
      ExtendsTrans(pb.log, pk.log, pl.log);
      ExtendsTrans(pb.log, pl.log, q.log);
      ExtendsTrans(p.log, pa.log, pb.log);
      ExtendsTrans(p.log, pb.log, q.log);
      ExtendsAt(pa.log, pb.log, |p.log|);
      ExtendsAt(pb.log, q.log, |p.log|);
      ExtendsAt(pb.log, q.log, |pa.log|);
    }
  }

  /** Polling starts with a PRT_STATUS read right after the optional forced renegotiation. */
  lemma SessionPolls(p: Port, cfg: Config, onInterrupt: bool)
    ensures var r := Session(p, cfg, onInterrupt);
      var pb := Attached(IsPresent(p).state).state;
      var pk := (if onInterrupt then Done(pb, true) else Kick(pb, cfg)).state;
      var q := r.state;
      r.Done? && r.value ==>
      |pk.log| < |q.log| && q.log[|pk.log|].Got? && q.log[|pk.log|].reg == PRT_STATUS
  {
    var r := Session(p, cfg, onInterrupt);
    SessionPrefixes(p, cfg, onInterrupt);
    if r.Done? && r.value {
      var pb := Attached(IsPresent(p).state).state;
      var pk := (if onInterrupt then Done(pb, true) else Kick(pb, cfg)).state;
      var pl := Listen(pk, cfg).state;
      ListenStarts(pk, cfg);
      ExtendsAt(pl.log, r.state.log, |pk.log|);
    }
  }

  lemma ForcedAt(before: seq<Event>, b: seq<Event>, k: seq<Event>, log: seq<Event>)
    requires |b| == |before| + 2 && Kicked(b, k) && |k| < |log| && Extends(k, log)
    requires log[|k|].Got? && log[|k|].reg == PRT_STATUS
    ensures Forced(before, log, |k| - 2)
  {
    ExtendsSlice(k, log, |b|, |k| - 2);
    ExtendsSlice(k, log, |k| - 2, |k|);
  }

  /** A successful poll ending at the end of `l`, then a final stage at `|l|`, make a `Loaded` log. */
  lemma LoadedAt(cfg: Config, before: seq<Event>, l: seq<Event>, q: seq<Event>, h: bv16)
    requires Accepted(h, cfg.rev30) && PollTrace(before, l, h)
    requires Captured(cfg, l, q, h)
    ensures Loaded(cfg, q, |l|)
  {
    var j := |l|;
    assert l[j - 2..] == [Got(RX_HEADER, Le16(h)), Got(RX_BYTE_CNT, [ByteCount(h)])];
    assert q[j - 2] == l[j - 2] by { assert q[j - 2] == q[..j][j - 2]; }
    assert q[j - 1] == l[j - 1] by { assert q[j - 1] == q[..j][j - 1]; }
    assert l[j - 2] == Got(RX_HEADER, Le16(h)) by { assert l[j - 2] == l[j - 2..][0]; }
    assert l[j - 1] == Got(RX_BYTE_CNT, [ByteCount(h)]) by { assert l[j - 1] == l[j - 2..][1]; }
  }

  /** Listening and then finishing succeed only with the capture placed as `Loaded` says. */
  lemma ListenLoads(p: Port, cfg: Config)
    ensures var l := Listen(p, cfg);
      l.Done? && l.value.Some? && Finish(l.state, cfg, l.value.value).Done? && Finish(l.state, cfg, l.value.value).value ==>
      Loaded(cfg, Finish(l.state, cfg, l.value.value).state.log, |l.state.log|)
  {
    var l := Listen(p, cfg);
    if l.Done? && l.value.Some? {
      var h := l.value.value;
      var f := Finish(l.state, cfg, h);
      if f.Done? && f.value {
        ListenLog(p, cfg);
        FinishLog(l.state, cfg, h);
        LoadedAt(cfg, p.log, l.state.log, f.state.log, h);
      }
    }
  }

  /**
   * A successful session captured the data objects right after an accepted
   * Source_Capabilities header and its matching byte count, and ended by
   * loading the PDO the search picks from them.
   */
  lemma SessionLoads(p: Port, cfg: Config, onInterrupt: bool)
    ensures var r := Session(p, cfg, onInterrupt);
      r.Done? && r.value ==> exists j :: Loaded(cfg, r.state.log, j)
  {
    var r := Session(p, cfg, onInterrupt);
    SessionSteps(p, cfg, onInterrupt);
    if r.Done? && r.value {
      var pb := Attached(IsPresent(p).state).state;
      var pk := (if onInterrupt then Done(pb, true) else Kick(pb, cfg)).state;
      ListenLoads(pk, cfg);
      assert Loaded(cfg, r.state.log, |Listen(pk, cfg).state.log|);
    }
  }

  /**
   * On an ATTACH interrupt, polling for capabilities starts right after the
   * two checks; otherwise a finished wait and a Soft_Reset come first.
   */
  lemma SessionOrder(p: Port, cfg: Config, onInterrupt: bool)
    ensures var r := Session(p, cfg, onInterrupt);
      var q := r.state;
      r.Done? && r.value ==>
      |p.log| + 2 < |q.log|
      && (onInterrupt ==> q.log[|p.log| + 2].Got? && q.log[|p.log| + 2].reg == PRT_STATUS)
      && (!onInterrupt ==> exists k :: Forced(p.log, q.log, k))
  {
    var r := Session(p, cfg, onInterrupt);
    SessionPrefixes(p, cfg, onInterrupt);
    SessionPolls(p, cfg, onInterrupt);
    SessionSteps(p, cfg, onInterrupt);
    if r.Done? && r.value && !onInterrupt {
      var pb := Attached(IsPresent(p).state).state;
      var pk := Kick(pb, cfg).state;
      var pl := Listen(pk, cfg).state;
      KickLog(pb, cfg);
      ExtendsTrans(pk.log, pl.log, r.state.log);
      ForcedAt(p.log, pb.log, pk.log, r.state.log);
    }
  }

  /**
   * A negotiation succeeds only with a configuration, after the device
   * identified itself and the cable showed as attached, with the polling
   * placed as the interrupt flag says, and with the capture and the load of
   * the PDO the search picks from it at the end.
   */
  lemma NegotiateSucceeds(p: Port, cfg: Option<Config>, onInterrupt: bool)
    ensures var r := Negotiate(p, cfg, onInterrupt);
      r.Done? && r.value ==>
      cfg.Some? && Prefaced(p.log, r.state.log)
      && (onInterrupt ==> r.state.log[|p.log| + 2].Got? && r.state.log[|p.log| + 2].reg == PRT_STATUS)
      && (!onInterrupt ==> exists k :: Forced(p.log, r.state.log, k))
      && exists j :: Loaded(cfg.value, r.state.log, j)
  {
    if cfg.Some? {
      SessionGate(p, cfg.value, onInterrupt);
      SessionOrder(p, cfg.value, onInterrupt);
      SessionLoads(p, cfg.value, onInterrupt);
    }
  }

  /** A device that answers WHO_AM_I with an unknown identifier. */
  predicate Stranger(p: Port)
  {
    p.replies != [] && p.replies[0].Ack? && |p.replies[0].data| == 1 && !Known(p.replies[0].data[0])
  }

  /** A known device whose PORT_STATUS shows no cable attached. */
  predicate Unplugged(p: Port)
  {
    |p.replies| >= 2 && p.replies[0].Ack? && |p.replies[0].data| == 1 && Known(p.replies[0].data[0])
    && p.replies[1].Ack? && |p.replies[1].data| == 1 && p.replies[1].data[0] & ATTACH == 0
  }

  /**
   * The early exits: no configuration, an unknown device or a detached
   * cable end the negotiation with false after no, one or two reads, and
   * a failed identifier read ends it as a failed transfer.
   */
  lemma NegotiateRefuses(p: Port, cfg: Option<Config>, onInterrupt: bool)
    ensures cfg.None? ==> Negotiate(p, cfg, onInterrupt) == Done(p, false)
    ensures cfg.Some? && Stranger(p) ==>
      Negotiate(p, cfg, onInterrupt) == Done(p.(replies := p.replies[1..], log := p.log + [Got(WHO_AM_I, p.replies[0].data)]), false)
    ensures cfg.Some? && Unplugged(p) ==>
      Negotiate(p, cfg, onInterrupt)
      == Done(p.(replies := p.replies[2..], log := p.log + [Got(WHO_AM_I, p.replies[0].data), Got(PORT_STATUS, p.replies[1].data)]), false)
    ensures cfg.Some? && p.replies != [] && p.replies[0] == Nak ==>
      Negotiate(p, cfg, onInterrupt) == Stop(p.(replies := p.replies[1..], log := p.log + [Lost(WHO_AM_I)]))
  {
    if cfg.Some? && Unplugged(p) {
      var p1 := p.(replies := p.replies[1..], log := p.log + [Got(WHO_AM_I, p.replies[0].data)]);
      assert IsPresent(p) == Done(p1, true);
      assert p.replies[1..][1..] == p.replies[2..];
      assert p1.log + [Got(PORT_STATUS, p.replies[1].data)]
        == p.log + [Got(WHO_AM_I, p.replies[0].data), Got(PORT_STATUS, p.replies[1].data)];
    }
  }

  // ----- A successful negotiation -----

  /**
   * A source offering one fixed PDO of 5 V at 3 A, answering a sink that
   * needs 5 V at 1 A at the least and accepts up to 12 V.
   */
  const SINK: Config := Config(1000, 5000, 12000, false, false)

  const OFFER: seq<Byte> := [0x2C, 0x91, 0x01, 0x00]

  const SCRIPT: seq<Reply> := [
    Ack([STUSB4500_ID]),      // WHO_AM_I
    Ack([ATTACH]),            // PORT_STATUS
    Ack([MESSAGE_RECEIVED]),  // PRT_STATUS
    Ack([0x01, 0x10]),        // RX_HEADER: Source_Capabilities, one data object
    Ack([4]),                 // RX_BYTE_CNT
    Ack(OFFER),               // RX_DATA_OBJ
    Ack([PE_SNK_READY]),      // PE_FSM
    Ack([]), Ack([]), Ack([]) // slot 3, TX_HEADER, CMD_CTRL
  ]

  /** The offer decodes to 3000 mA at 5000 mV, and the search takes it. */
  lemma OfferChosen()
    ensures Objects(OFFER) == [0x0001_912C]
    ensures Select(SINK, [0x0001_912C]) == Choice(3000, 5000, 15000, true)
  {
    assert Le32(0x0001_912C) == OFFER;
  }

  function Stage(n: nat, log: seq<Event>): Port
    requires n <= |SCRIPT|
  {
    Port(SCRIPT[n..], [], log)
  }

  lemma StageRead(n: nat, log: seq<Event>, reg: Byte, k: nat)
    requires n < |SCRIPT| && SCRIPT[n].Ack? && |SCRIPT[n].data| == k
    ensures ReadReg(Stage(n, log), reg, k) == Done(Stage(n + 1, log + [Got(reg, SCRIPT[n].data)]), SCRIPT[n].data)
  {
    assert SCRIPT[n..][0] == SCRIPT[n];
    assert SCRIPT[n..][1..] == SCRIPT[n + 1..];
  }

  lemma StageWrite(n: nat, log: seq<Event>, reg: Byte, data: seq<Byte>)
    requires n < |SCRIPT| && SCRIPT[n].Ack?
    ensures WriteReg(Stage(n, log), reg, data) == Done(Stage(n + 1, log + [Wrote(reg, data)]), ())
  {
    assert SCRIPT[n..][0] == SCRIPT[n];
    assert SCRIPT[n..][1..] == SCRIPT[n + 1..];
  }

  const FOUND: seq<Event> := [Got(WHO_AM_I, [STUSB4500_ID])]

  const GATED: seq<Event> := FOUND + [Got(PORT_STATUS, [ATTACH])]

  const HEARD: seq<Event> :=
    GATED + [Got(PRT_STATUS, [MESSAGE_RECEIVED]), Got(RX_HEADER, [0x01, 0x10]), Got(RX_BYTE_CNT, [4])]

  const CAUGHT: seq<Event> := HEARD + [Got(RX_DATA_OBJ, OFFER)]

  const READY: seq<Event> := CAUGHT + [Got(PE_FSM, [PE_SNK_READY])]

  /** The log up to the write of the offer's current and voltage to sink PDO slot 3. */
  const LOADED: seq<Event> := READY + [Wrote(0x8D, Le32(Format(3000, 5000)))]

  lemma ExampleGate()
    ensures IsPresent(Stage(0, [])) == Done(Stage(1, FOUND), true)
    ensures Attached(Stage(1, FOUND)) == Done(Stage(2, GATED), true)
  {
    StageRead(0, [], WHO_AM_I, 1);
    assert [] + [Got(WHO_AM_I, [STUSB4500_ID])] == FOUND;
    StageRead(1, FOUND, PORT_STATUS, 1);
  }

  lemma ExampleListen()
    ensures Listen(Stage(2, GATED), SINK) == Done(Stage(5, HEARD), Some(0x1001))
  {
    StageRead(2, GATED, PRT_STATUS, 1);
    var l3 := GATED + [Got(PRT_STATUS, [MESSAGE_RECEIVED])];
    StageRead(3, l3, RX_HEADER, 2);
    var l4 := l3 + [Got(RX_HEADER, [0x01, 0x10])];
    StageRead(4, l4, RX_BYTE_CNT, 1);
    assert l4 + [Got(RX_BYTE_CNT, [4])] == HEARD;
    assert FromLe16(0x01, 0x10) == 0x1001;
    assert DataObjects(0x1001) == 1 && ByteCount(0x1001) == 4;
    assert PollOnce(Stage(2, GATED), SINK, 0) == Done(Stage(5, HEARD), Leave(Some(0x1001)));
  }

  lemma ExampleConclude()
    ensures Conclude(Stage(6, CAUGHT), SINK, OFFER) == Done(Stage(10, LOADED + SOFT_RESET), true)
  {
    OfferChosen();
    SlotRegisters();
    StageRead(6, CAUGHT, PE_FSM, 1);
    assert WaitLoop(Stage(6, CAUGHT), SINK, 0) == Done(Stage(7, READY), true);
    StageWrite(7, READY, 0x8D, Le32(Format(3000, 5000)));
    assert LoadOptimal(Stage(7, READY), SINK, Objects(OFFER)) == Done(Stage(8, LOADED), true);
    StageWrite(8, LOADED, TX_HEADER, [0x0D, 0x00]);
    StageWrite(9, LOADED + [Wrote(TX_HEADER, [0x0D, 0x00])], CMD_CTRL, [PD_CMD]);
    SoftResetBytes();
    assert LOADED + [Wrote(TX_HEADER, [0x0D, 0x00])] + [Wrote(CMD_CTRL, [PD_CMD])] == LOADED + SOFT_RESET;
  }

  lemma ExampleFinish()
    ensures Finish(Stage(5, HEARD), SINK, 0x1001) == Done(Stage(10, LOADED + SOFT_RESET), true)
  {
    StageRead(5, HEARD, RX_DATA_OBJ, 4);
    ExampleConclude();
  }

  lemma ExampleSession()
    ensures Session(Stage(0, []), SINK, true) == Done(Stage(10, LOADED + SOFT_RESET), true)
  {
    ExampleGate();
    ExampleListen();
    ExampleFinish();
  }

  /** Negotiation can succeed: on this script it returns true and loads 5 V at 3 A into slot 3. */
  lemma NegotiationCanSucceed()
    ensures var r := Negotiate(Port(SCRIPT, [], []), Some(SINK), true);
      r.Done? && r.value && r.state.replies == [] && r.state.log == LOADED + SOFT_RESET
  {
    ExampleSession();
    assert Stage(0, []) == Port(SCRIPT, [], []);
  }
}
