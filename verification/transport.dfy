/**
 * The register interface the negotiation runs over, as a script: the bus
 * answers transfers from `replies` in order, the millisecond clock answers
 * from `ticks` in order, and `log` records what the driver did. Running out
 * of either script leaves the driver waiting (`Hang`).
 */
module Transport {
  import opened Bytes
  import opened Outcomes

  /** The bus's answer to one transfer: acknowledged, with the bytes read for a read, or failed. */
  datatype Reply = Ack(data: seq<Byte>) | Nak

  /** A register write, a register read with the bytes it returned, or a failed transfer. */
  datatype Event = Wrote(reg: Byte, data: seq<Byte>) | Got(reg: Byte, data: seq<Byte>) | Lost(reg: Byte)

  datatype Port = Port(replies: seq<Reply>, ticks: seq<bv32>, log: seq<Event>)

  /**
   * A read of `n` bytes from `reg`. A reply of the wrong length counts as a
   * failed transfer, since the bus fills exactly the bytes asked for.
   */
  function ReadReg(p: Port, reg: Byte, n: nat): (r: Run<Port, seq<Byte>>)
    ensures r.Done? ==> p.replies != [] && p.replies[0] == Ack(r.value) && |r.value| == n
    ensures r.Done? ==> r.state == p.(replies := p.replies[1..], log := p.log + [Got(reg, r.value)])
    ensures r.Stop? ==> |p.replies| > 0 && r.state == p.(replies := p.replies[1..], log := p.log + [Lost(reg)])
    ensures r.Hang? <==> p.replies == []
    ensures r.Hang? ==> r.state == p
  {
    if p.replies == [] then Hang(p)
    else
      var q := p.(replies := p.replies[1..]);
      match p.replies[0]
      case Ack(data) =>
        if |data| == n then Done(q.(log := p.log + [Got(reg, data)]), data)
        else Stop(q.(log := p.log + [Lost(reg)]))
      case Nak => Stop(q.(log := p.log + [Lost(reg)]))
  }

  /** A write of `data` to `reg`. */
  function WriteReg(p: Port, reg: Byte, data: seq<Byte>): (r: Run<Port, ()>)
    ensures r.Done? ==> p.replies != [] && p.replies[0].Ack?
    ensures r.Done? ==> r.state == p.(replies := p.replies[1..], log := p.log + [Wrote(reg, data)])
    ensures r.Stop? ==> |p.replies| > 0 && r.state == p.(replies := p.replies[1..], log := p.log + [Lost(reg)])
    ensures r.Hang? <==> p.replies == []
    ensures r.Hang? ==> r.state == p
  {
    if p.replies == [] then Hang(p)
    else
      var q := p.(replies := p.replies[1..]);
      match p.replies[0]
      case Ack(_) => Done(q.(log := p.log + [Wrote(reg, data)]), ())
      case Nak => Stop(q.(log := p.log + [Lost(reg)]))
  }

  /** One call of `get_ms`. */
  function Now(p: Port): (r: Run<Port, bv32>)
    ensures r.state.replies == p.replies && r.state.log == p.log
    ensures r.Done? ==> p.ticks != [] && r.value == p.ticks[0] && r.state.ticks == p.ticks[1..]
    ensures !r.Done? ==> r.Hang? && p.ticks == [] && r.state == p
  {
    if p.ticks == [] then Hang(p) else Done(p.(ticks := p.ticks[1..]), p.ticks[0])
  }
}
