/**
 * The earlier single-device driver, `stusb4500.c` at the top of the
 * repository. Its negotiation takes the same steps as the current one,
 * over the same registers, with two differences: it has no null check on
 * the configuration, and its search forms both power products in C `int`
 * rather than in 32 unsigned bits. An `int` product is defined only below
 * 2^31, so the legacy search is defined only where the sink's own minimum
 * power fits (`BaselineFits`); the products of the offers always fit
 * (`OfferPowerFits`).
 */
module Legacy {
  import opened Bytes
  import opened Outcomes
  import opened Transport
  import opened Pdo
  import opened Selection
  import opened Negotiation

  /** A non-negative product C can form in a 32-bit `int`. */
  predicate IntFits(x: int) { x < 0x8000_0000 }

  /** `min_voltage_mv * min_current_ma` is defined in C `int`. */
  predicate BaselineFits(cfg: Config)
  {
    IntFits((cfg.minVoltage as int) * (cfg.minCurrent as int))
  }

  /** `a * b / 1000` on 16-bit operands promoted to C `int`. */
  function IntPower(a: bv16, b: bv16): nat
    requires IntFits((a as int) * (b as int))
  {
    Below(a);
    Below(b);
    MulMono(0, a as int, b as int);
    (a as int) * (b as int) / 1000
  }

  lemma ProductBound(a: int, b: int)
    requires 0 <= a <= 10230 && 0 <= b <= 51150
    ensures IntFits(a * b)
  {
    MulMono(a, 10230, b);
  }

  lemma Narrow(ma: bv16, mv: bv16)
    requires ma <= 10230 && mv <= 51150
    ensures 0 <= ma as int <= 10230 && 0 <= mv as int <= 51150
  {
  }

  /**
   * The product `pdo_current * pdo_voltage` the legacy search forms for
   * every offer never overflows: the decoded fields are at most 10230 mA
   * and 51150 mV.
   */
  lemma OfferPowerFits(pdo: bv32)
    ensures IntFits((FromCurrent(pdo) as int) * (FromVoltage(pdo) as int))
  {
    Narrow(FromCurrent(pdo), FromVoltage(pdo));
    ProductBound(FromCurrent(pdo) as int, FromVoltage(pdo) as int);
  }

  /** One offer as the legacy loop body extracts it. */
  function LegacyDecode(pdo: bv32): Offer
  {
    OfferPowerFits(pdo);
    Offer(PdoType(pdo), FromCurrent(pdo), FromVoltage(pdo), IntPower(FromCurrent(pdo), FromVoltage(pdo)))
  }

  function LegacyOffers(pdos: seq<bv32>): (offers: seq<Offer>)
    ensures |offers| == |pdos|
  {
    seq(|pdos|, i requires 0 <= i < |pdos| => LegacyDecode(pdos[i]))
  }

  /** The legacy starting point, with its baseline power in `int`. */
  function LegacyInitial(cfg: Config): Choice
    requires BaselineFits(cfg)
  {
    Choice(cfg.minCurrent, cfg.minVoltage, IntPower(cfg.minVoltage, cfg.minCurrent), false)
  }

  /** The legacy `load_optimal_pdo` search: the same fold over the legacy offers. */
  function LegacySelect(cfg: Config, pdos: seq<bv32>): Choice
    requires BaselineFits(cfg)
  {
    Scan(cfg, LegacyOffers(pdos), LegacyInitial(cfg))
  }

  /** The legacy `load_optimal_pdo`. */
  function LegacyLoadOptimal(p: Port, cfg: Config, pdos: seq<bv32>): Run<Port, bool>
    requires BaselineFits(cfg)
  {
    var c := LegacySelect(cfg, pdos);
    if !c.found then Done(p, false) else WritePdo(p, c.current, c.voltage, 3)
  }

  /** After the capture: wait for idle, load the best PDO, request a Soft_Reset. */
  function LegacyConclude(p: Port, cfg: Config, raw: seq<Byte>): Run<Port, bool>
    requires BaselineFits(cfg)
  {
    var (p1, idle) :- WaitReady(p, cfg);
    if !idle then Done(p1, false)
    else
      var (p2, loaded) :- LegacyLoadOptimal(p1, cfg, Objects(raw));
      if !loaded then Done(p2, false) else SendMessage(p2, PD_SOFT_RESET)
  }

  /** The capture of the capabilities' data objects, then `LegacyConclude`. */
  function LegacyFinish(p: Port, cfg: Config, header: bv16): Run<Port, bool>
    requires BaselineFits(cfg)
  {
    var (p1, raw) :- ReadReg(p, RX_DATA_OBJ, 4 * DataObjects(header));
    LegacyConclude(p1, cfg, raw)
  }

  /** The legacy `stusb4500_negotiate`: no null check, and the legacy search. */
  function LegacyNegotiate(p: Port, cfg: Config, onInterrupt: bool): Run<Port, bool>
    requires BaselineFits(cfg)
  {
    var (p1, present) :- IsPresent(p);
    if !present then Done(p1, false)
    else
      var (p2, attached) :- Attached(p1);
      if !attached then Done(p2, false)
      else
        var (p3, go) :- if onInterrupt then Done(p2, true) else Kick(p2, cfg);
        if !go then Done(p3, false)
        else
          var (p4, caps) :- Listen(p3, cfg);
          if caps.None? then Done(p4, false) else LegacyFinish(p4, cfg, caps.value)
  }

  // ----- The two drivers agree wherever the legacy one is defined -----

  /**
   * Where the baseline is defined, the legacy search computes the same
   * powers as the current one, and so makes the same choice.
   */
  lemma LegacySelectAgrees(cfg: Config, pdos: seq<bv32>)
    requires BaselineFits(cfg)
    ensures LegacySelect(cfg, pdos) == Select(cfg, pdos)
  {
    assert LegacyInitial(cfg) == Initial(cfg);
    forall i | 0 <= i < |pdos|
      ensures LegacyOffers(pdos)[i] == Offers(pdos)[i]
    {
    }
    assert LegacyOffers(pdos) == Offers(pdos);
  }

  lemma LegacyConcludeAgrees(p: Port, cfg: Config, raw: seq<Byte>)
    requires BaselineFits(cfg)
    ensures LegacyConclude(p, cfg, raw) == Conclude(p, cfg, raw)
  {
    LegacySelectAgrees(cfg, Objects(raw));
  }

  lemma LegacyFinishAgrees(p: Port, cfg: Config, header: bv16)
    requires BaselineFits(cfg)
    ensures LegacyFinish(p, cfg, header) == Finish(p, cfg, header)
  {
    forall q: Port, raw: seq<Byte>
      ensures LegacyConclude(q, cfg, raw) == Conclude(q, cfg, raw)
    {
      LegacyConcludeAgrees(q, cfg, raw);
    }
  }

  /**
   * The legacy `stusb4500_negotiate` behaves as the current one given the
   * same configuration, wherever its `int` baseline product is defined.
   */
  lemma LegacyAgrees(p: Port, cfg: Config, onInterrupt: bool)
    requires BaselineFits(cfg)
    ensures LegacyNegotiate(p, cfg, onInterrupt) == Negotiate(p, Some(cfg), onInterrupt)
  {
    forall q: Port, h: bv16
      ensures LegacyFinish(q, cfg, h) == Finish(q, cfg, h)
    {
      LegacyFinishAgrees(q, cfg, h);
    }
  }
}
