/**
 * `load_optimal_pdo`'s search: a left fold over the source's PDOs that
 * keeps the fixed-supply PDO of greatest power among those meeting the
 * sink's current and voltage bounds, starting from the power of the
 * sink's own minimum and replacing the best so far only on a strictly
 * greater power.
 */
module Selection {
  import opened Pdo

  /**
   * The sink's requirements (`stusb4500_config_t`). `clock` says whether a
   * millisecond clock (`get_ms`) is supplied; `rev30` stands for the
   * USBPD_REV30_SUPPORT build option, which widens the message type field.
   */
  datatype Config = Config(
    minCurrent: bv16,
    minVoltage: bv16,
    maxVoltage: bv16,
    clock: bool,
    rev30: bool)

  /** One source PDO as the loop body extracts it; the power is the value of the 32-bit product. */
  datatype Offer = Offer(kind: bv32, current: bv16, voltage: bv16, power: nat)

  /** The best so far: its current, voltage and power, and whether any PDO has been taken. */
  datatype Choice = Choice(current: bv16, voltage: bv16, power: nat, found: bool)

  /**
   * Power in milliwatts. The driver multiplies in 32 unsigned bits, where a
   * 16-bit by 16-bit product never wraps (PowerExact), so the model
   * multiplies in integers.
   */
  function Power(ma: bv16, mv: bv16): nat
  {
    Below(ma);
    Below(mv);
    MulMono(0, ma as int, mv as int);
    (ma as int) * (mv as int) / 1000
  }

  lemma Below(a: bv16)
    ensures 0 <= a as int <= 0xFFFF
  {
  }

  lemma MulMono(a: int, c: int, b: int)
    requires 0 <= a <= c && 0 <= b
    ensures a * b <= c * b
  {
  }

  /** The driver's 32-bit product of a current and a voltage never wraps. */
  lemma PowerExact(ma: bv16, mv: bv16)
    ensures (ma as int) * (mv as int) < 0x1_0000_0000
  {
    Below(ma);
    Below(mv);
    MulMono(ma as int, 0xFFFF, mv as int);
  }

  function Decode(pdo: bv32): Offer
  {
    Offer(PdoType(pdo), FromCurrent(pdo), FromVoltage(pdo), Power(FromCurrent(pdo), FromVoltage(pdo)))
  }

  function Offers(pdos: seq<bv32>): (offers: seq<Offer>)
    ensures |offers| == |pdos|
  {
    seq(|pdos|, i requires 0 <= i < |pdos| => Decode(pdos[i]))
  }

  /** A PDO the sink accepts: fixed supply, enough current, voltage within bounds. */
  predicate Eligible(cfg: Config, o: Offer)
  {
    o.kind == TYPE_FIXED && o.current >= cfg.minCurrent
    && cfg.minVoltage <= o.voltage && o.voltage <= cfg.maxVoltage
  }

  /** The starting point: the sink's minimum voltage and current, not yet found. */
  function Initial(cfg: Config): Choice
  {
    Choice(cfg.minCurrent, cfg.minVoltage, Power(cfg.minVoltage, cfg.minCurrent), false)
  }

  /** The power any chosen PDO must strictly exceed. */
  function Baseline(cfg: Config): nat { Initial(cfg).power }

  /** One iteration of the loop. */
  function Consider(cfg: Config, acc: Choice, o: Offer): Choice
  {
    if Eligible(cfg, o) && o.power > acc.power then Choice(o.current, o.voltage, o.power, true)
    else acc
  }

  function Scan(cfg: Config, offers: seq<Offer>, acc: Choice): Choice
    decreases |offers|
  {
    if offers == [] then acc else Scan(cfg, offers[1..], Consider(cfg, acc, offers[0]))
  }

  function Select(cfg: Config, pdos: seq<bv32>): Choice
  {
    Scan(cfg, Offers(pdos), Initial(cfg))
  }

  // ----- What the search finds -----

  /** No eligible offer exceeds `floor`. */
  predicate NoneAbove(cfg: Config, offers: seq<Offer>, floor: nat)
  {
    forall j :: 0 <= j < |offers| && Eligible(cfg, offers[j]) ==> offers[j].power <= floor
  }

  /**
   * Offer `i` is the one to pick above `floor`: eligible, above the floor,
   * at least as strong as every eligible offer and stronger than every
   * eligible offer before it; `r` records it.
   */
  predicate Picks(cfg: Config, offers: seq<Offer>, i: int, floor: nat, r: Choice)
  {
    0 <= i < |offers| && Eligible(cfg, offers[i]) && offers[i].power > floor
    && r == Choice(offers[i].current, offers[i].voltage, offers[i].power, true)
    && (forall j :: 0 <= j < |offers| && Eligible(cfg, offers[j]) ==> offers[j].power <= offers[i].power)
    && (forall j :: 0 <= j < i && Eligible(cfg, offers[j]) ==> offers[j].power < offers[i].power)
  }

  /** Picking is a function of the offers: at most one index qualifies. */
  lemma PicksUnique(cfg: Config, offers: seq<Offer>, i: int, k: int, floor: nat, r: Choice, s: Choice)
    requires Picks(cfg, offers, i, floor, r) && Picks(cfg, offers, k, floor, s)
    ensures i == k && r == s
  {
    if i < k {
      assert false;
    } else if k < i {
      assert false;
    }
  }

  /** Moving the floor up past the first offer, as one loop iteration does. */
  lemma ShiftNone(cfg: Config, offers: seq<Offer>, acc: Choice)
    requires |offers| > 0
    requires Consider(cfg, acc, offers[0]) == acc
    requires NoneAbove(cfg, offers[1..], acc.power)
    ensures NoneAbove(cfg, offers, acc.power)
  {
    forall j | 0 <= j < |offers| && Eligible(cfg, offers[j])
      ensures offers[j].power <= acc.power
    {
      if j > 0 {
        assert offers[j] == offers[1..][j - 1];
      }
    }
  }

  lemma PickFirst(cfg: Config, offers: seq<Offer>, acc: Choice)
    requires |offers| > 0
    requires Eligible(cfg, offers[0]) && offers[0].power > acc.power
    requires NoneAbove(cfg, offers[1..], offers[0].power)
    ensures Picks(cfg, offers, 0, acc.power, Consider(cfg, acc, offers[0]))
  {
    forall j | 0 <= j < |offers| && Eligible(cfg, offers[j])
      ensures offers[j].power <= offers[0].power
    {
      if j > 0 {
        assert offers[j] == offers[1..][j - 1];
      }
    }
  }

  lemma PickLater(cfg: Config, offers: seq<Offer>, acc: Choice, i: int, r: Choice)
    requires |offers| > 0
    requires Picks(cfg, offers[1..], i, Consider(cfg, acc, offers[0]).power, r)
    ensures Picks(cfg, offers, i + 1, acc.power, r)
  {
    var rest := offers[1..];
    var acc1 := Consider(cfg, acc, offers[0]);
    assert offers[i + 1] == rest[i];
    assert acc1.power >= acc.power;
    assert Eligible(cfg, offers[0]) ==> offers[0].power <= acc1.power;
    forall j | 0 <= j < |offers| && Eligible(cfg, offers[j])
      ensures offers[j].power <= offers[i + 1].power
    {
      if j > 0 {
        assert offers[j] == rest[j - 1];
      }
    }
    forall j | 0 <= j < i + 1 && Eligible(cfg, offers[j])
      ensures offers[j].power < offers[i + 1].power
    {
      if j > 0 {
        assert offers[j] == rest[j - 1];
      }
    }
  }

  /**
   * The fold either keeps its start, when no eligible offer beats it, or
   * ends on the offer that `Picks` names.
   */
  lemma {:induction false} ScanSpec(cfg: Config, offers: seq<Offer>, acc: Choice)
    ensures (Scan(cfg, offers, acc) == acc && NoneAbove(cfg, offers, acc.power))
         || (exists i :: Picks(cfg, offers, i, acc.power, Scan(cfg, offers, acc)))
    decreases |offers|
  {
    if offers != [] {
      var o := offers[0];
      var rest := offers[1..];
      var acc1 := Consider(cfg, acc, o);
      var r := Scan(cfg, rest, acc1);
      ScanSpec(cfg, rest, acc1);
      assert Scan(cfg, offers, acc) == r;
      if r == acc1 && NoneAbove(cfg, rest, acc1.power) {
        if Eligible(cfg, o) && o.power > acc.power {
          PickFirst(cfg, offers, acc);
          assert exists k :: Picks(cfg, offers, k, acc.power, Scan(cfg, offers, acc));
        } else {
          assert acc1 == acc;
          ShiftNone(cfg, offers, acc);
          assert Scan(cfg, offers, acc) == acc && NoneAbove(cfg, offers, acc.power);
        }
      } else {
        var i :| Picks(cfg, rest, i, acc1.power, r);
        PickLater(cfg, offers, acc, i, r);
        assert Picks(cfg, offers, i + 1, acc.power, Scan(cfg, offers, acc));
        assert exists k :: Picks(cfg, offers, k, acc.power, Scan(cfg, offers, acc));
      }
    }
  }

  /** The PDO `load_optimal_pdo` should choose among `pdos`, if any. */
  predicate Best(cfg: Config, pdos: seq<bv32>, i: int, r: Choice)
  {
    Picks(cfg, Offers(pdos), i, Baseline(cfg), r)
  }

  /**
   * The search finds a PDO exactly when some eligible PDO beats the
   * baseline; then it returns the strongest eligible one, the earliest on
   * a tie, and otherwise it returns its start unchanged.
   */
  lemma SelectSpec(cfg: Config, pdos: seq<bv32>)
    ensures Select(cfg, pdos).found <==> exists i :: Best(cfg, pdos, i, Select(cfg, pdos))
    ensures !Select(cfg, pdos).found ==> Select(cfg, pdos) == Initial(cfg)
    ensures !Select(cfg, pdos).found ==> NoneAbove(cfg, Offers(pdos), Baseline(cfg))
  {
    var r := Select(cfg, pdos);
    ScanSpec(cfg, Offers(pdos), Initial(cfg));
    if r.found {
      var i :| Picks(cfg, Offers(pdos), i, Initial(cfg).power, r);
      assert Best(cfg, pdos, i, r);
    }
  }

  /** What the search returns meets the sink's bounds, beats the baseline, and comes from one of the PDOs. */
  lemma SelectSound(cfg: Config, pdos: seq<bv32>)
    requires Select(cfg, pdos).found
    ensures exists i :: (0 <= i < |pdos| && Eligible(cfg, Offers(pdos)[i])
      && Select(cfg, pdos).current == Offers(pdos)[i].current
      && Select(cfg, pdos).voltage == Offers(pdos)[i].voltage
      && Select(cfg, pdos).power == Offers(pdos)[i].power > Baseline(cfg))
  {
    SelectSpec(cfg, pdos);
  }
}
