/** The NVM image of the sink controller and the bit-field patcher that writes
    a typed configuration into it (`apply_config` in stusb4500_nvm.c). */
module NvmPatch {
  import opened Bytes

  const NUM_SECTORS: nat := 5
  const SECTOR_SIZE: nat := 8
  const NVM_SIZE: nat := 40

  /** The whole NVM: 5 sectors of 8 bytes, sector k at bytes 8k .. 8k+7. */
  type Image = s: seq<Byte> | |s| == 40 witness seq(40, _ => 0)

  /** The configuration written into the NVM, with the C field types
      (`uint16_t` currents and voltages, `uint8_t` count, `bool` flags).
      Nothing checks that `numValidPdos` is 1, 2 or 3. */
  datatype NvmConfig = NvmConfig(
    pdo1CurrentMa: bv16,
    pdo2VoltageMv: bv16,
    pdo2CurrentMa: bv16,
    pdo3VoltageMv: bv16,
    pdo3CurrentMa: bv16,
    fallbackCurrentMa: bv16,
    numValidPdos: bv8,
    useSrcCurrent: bool,
    onlyAbove5V: bool)

  /** The nine configuration fields. */
  datatype Field =
    | Pdo1Current | Pdo2Current | Pdo3Current
    | FlexCurrent | Pdo2Voltage | Pdo3Voltage
    | PdoCount | UseSrcCurrent | OnlyAbove5V

  /** Where a field lives: a byte, or a 16-bit little-endian window whose low
      half is the byte at `Index()` and whose high half is the next byte; the
      field's bit position in that byte or window and its shifted mask. */
  datatype Location = Location(sector: nat, offset: nat, wide: bool, pos: bv16, mask: bv16)
  {
    function Index(): nat { sector * SECTOR_SIZE + offset }

    /** Inside the image, and a one-byte field's mask fits its byte. */
    predicate Valid()
    {
      && pos < 16
      && Index() + (if wide then 1 else 0) < NVM_SIZE
      && (!wide ==> mask < 0x100)
    }

    /** The bits of byte `i` the mask covers. */
    function ByteMask(i: nat): Byte
    {
      if i == Index() then LowByte(mask)
      else if wide && i == Index() + 1 then HighByte(mask)
      else 0
    }

    /** The byte of a 16-bit operand that lands on byte `i`. */
    function DataByte(d: bv16, i: nat): Byte
    {
      if i == Index() then LowByte(d)
      else if wide && i == Index() + 1 then HighByte(d)
      else 0
    }
  }

  /** The `*_SECTOR`, `*_OFFSET`, `*_POS` and `*_MSK` table of the source. */
  function LocationOf(f: Field): (l: Location)
    ensures l.Valid()
  {
    match f
    case Pdo1Current => Location(3, 2, false, 4, 0x0F << 4)
    case Pdo2Current => Location(3, 4, false, 0, 0x0F << 0)
    case Pdo3Current => Location(3, 5, false, 4, 0x0F << 4)
    case FlexCurrent => Location(4, 3, true, 2, 0x03FF << 2)
    case Pdo2Voltage => Location(4, 0, true, 6, 0x01FF << 6)
    case Pdo3Voltage => Location(4, 2, true, 0, 0x01FF << 0)
    case PdoCount => Location(3, 2, false, 1, 0x03 << 1)
    case UseSrcCurrent => Location(4, 6, false, 4, 0x01 << 4)
    case OnlyAbove5V => Location(4, 6, false, 2, 0x01 << 2)
  }

  function Mask(f: Field): bv16 { LocationOf(f).mask }

  /** The unshifted mask of a field's value: how many of its bits the NVM keeps. */
  function ValueMask(f: Field): bv16
  {
    match f
    case Pdo1Current => 0x0F
    case Pdo2Current => 0x0F
    case Pdo3Current => 0x0F
    case FlexCurrent => 0x03FF
    case Pdo2Voltage => 0x01FF
    case Pdo3Voltage => 0x01FF
    case PdoCount => 0x03
    case UseSrcCurrent => 0x01
    case OnlyAbove5V => 0x01
  }

  /** `PDO_CURRENT(ma)`, `((ma) - 250) / 250` in C `int`, as its low 16 bits.
      The division truncates toward zero, so 1..249 mA give 0; 0 mA gives -1,
      whose left shift the C standard leaves undefined: the model takes the
      two's-complement bits every target compiler produces. */
  function NvmCurrent(ma: bv16): bv16
  {
    if ma >= 250 then (ma - 250) / 250
    else if ma == 0 then 0xFFFF
    else 0
  }

  /** `PDO_VOLTAGE(mv)`: 50 mV units. */
  function NvmVoltage(mv: bv16): bv16 { mv / 50 }

  /** `PDO_CURRENT_FLEX(ma)`: 10 mA units. */
  function NvmFlexCurrent(ma: bv16): bv16 { ma / 10 }

  function BoolBit(b: bool): bv16 { if b then 1 else 0 }

  /** The value expression the source shifts into each field. */
  function FieldValue(f: Field, c: NvmConfig): bv16
  {
    match f
    case Pdo1Current => NvmCurrent(c.pdo1CurrentMa)
    case Pdo2Current => NvmCurrent(c.pdo2CurrentMa)
    case Pdo3Current => NvmCurrent(c.pdo3CurrentMa)
    case FlexCurrent => NvmFlexCurrent(c.fallbackCurrentMa)
    case Pdo2Voltage => NvmVoltage(c.pdo2VoltageMv)
    case Pdo3Voltage => NvmVoltage(c.pdo3VoltageMv)
    case PdoCount => c.numValidPdos as bv16
    case UseSrcCurrent => BoolBit(c.useSrcCurrent)
    case OnlyAbove5V => BoolBit(c.onlyAbove5V)
  }

  function ShiftLeft(v: bv16, n: bv16): bv16
    requires n < 16
  {
    v << n
  }

  function ShiftRight(v: bv16, n: bv16): bv16
    requires n < 16
  {
    v >> n
  }

  /** The data operand of each `MODIFY_REG`: `(value << POS) & MSK`. */
  function Encoded(f: Field, c: NvmConfig): bv16
  {
    ShiftLeft(FieldValue(f, c), LocationOf(f).pos) & Mask(f)
  }

  /** `MODIFY_REG` on a byte. */
  function ModifyReg8(reg: Byte, data: Byte, mask: Byte): (r: Byte)
    ensures r & !mask == reg & !mask
    ensures r & mask == data & mask
  {
    (reg & !mask) | (data & mask)
  }

  /** `MODIFY_REG` on a 16-bit window. */
  function ModifyReg16(reg: bv16, data: bv16, mask: bv16): (r: bv16)
    ensures r & !mask == reg & !mask
    ensures r & mask == data & mask
  {
    (reg & !mask) | (data & mask)
  }

  /** The byte, or the little-endian window, at a location. */
  function Load(img: Image, l: Location): bv16
    requires l.Valid()
  {
    var i := l.Index();
    if l.wide then FromLe16(img[i], img[i + 1]) else img[i] as bv16
  }

  /** `MODIFY_REG` on the byte or window at a location. */
  function PatchAt(img: Image, l: Location, data: bv16): Image
    requires l.Valid()
  {
    var i := l.Index();
    if l.wide then
      var w := ModifyReg16(FromLe16(img[i], img[i + 1]), data, l.mask);
      img[i := LowByte(w)][i + 1 := HighByte(w)]
    else
      img[i := ModifyReg8(img[i], LowByte(data), LowByte(l.mask))]
  }

  /** One read-modify-write of the patcher. */
  function Patch(img: Image, f: Field, data: bv16): Image
  {
    PatchAt(img, LocationOf(f), data)
  }

  /** The order in which `apply_config` writes the fields. */
  const PATCH_ORDER: seq<Field> :=
    [Pdo1Current, Pdo2Current, Pdo3Current, FlexCurrent, Pdo2Voltage, Pdo3Voltage,
     PdoCount, UseSrcCurrent, OnlyAbove5V]

  /** The read-modify-writes of the given fields, one after another, each
      with its data operand. */
  function PatchAll(img: Image, fs: seq<Field>, data: Field -> bv16): Image
    decreases |fs|
  {
    if |fs| == 0 then img
    else PatchAll(Patch(img, fs[0], data(fs[0])), fs[1..], data)
  }

  /** The data operand of every field for a configuration. */
  function Operands(c: NvmConfig): Field -> bv16
  {
    f => Encoded(f, c)
  }

  /** `apply_config`: the nine read-modify-writes, in the source's order. */
  function ApplyConfig(img: Image, c: NvmConfig): Image
  {
    PatchAll(img, PATCH_ORDER, Operands(c))
  }

  /** The value a field holds in an image, as the chip reads it back. */
  function ReadField(img: Image, f: Field): bv16
  {
    ReadAt(img, LocationOf(f))
  }

  /** The value at a location: the masked byte or window, shifted down. */
  function ReadAt(img: Image, l: Location): bv16
    requires l.Valid()
  {
    ShiftRight(Load(img, l) & l.mask, l.pos)
  }

  /** The bits of byte `i` that field `f` occupies. */
  function ByteMask(f: Field, i: nat): Byte
  {
    match f
    case Pdo1Current => if i == 26 then 0xF0 else 0
    case Pdo2Current => if i == 28 then 0x0F else 0
    case Pdo3Current => if i == 29 then 0xF0 else 0
    case FlexCurrent => if i == 35 then 0xFC else if i == 36 then 0x0F else 0
    case Pdo2Voltage => if i == 32 then 0xC0 else if i == 33 then 0x7F else 0
    case Pdo3Voltage => if i == 34 then 0xFF else if i == 35 then 0x01 else 0
    case PdoCount => if i == 26 then 0x06 else 0
    case UseSrcCurrent => if i == 38 then 0x10 else 0
    case OnlyAbove5V => if i == 38 then 0x04 else 0
  }

  /** The bits of byte `i` that a field's patch takes from its data operand. */
  function Piece(f: Field, d: bv16, i: nat): Byte
  {
    LocationOf(f).DataByte(d, i) & ByteMask(f, i)
  }

  /** The bits of byte `i` that any of the given fields occupies. */
  function Covered(fs: seq<Field>, i: nat): Byte
    decreases |fs|
  {
    if |fs| == 0 then 0 else ByteMask(fs[0], i) | Covered(fs[1..], i)
  }

  /** The bits of byte `i` the given fields take from their data operands. */
  function Written(fs: seq<Field>, data: Field -> bv16, i: nat): Byte
    decreases |fs|
  {
    if |fs| == 0 then 0 else Piece(fs[0], data(fs[0]), i) | Written(fs[1..], data, i)
  }

  /** Every bit `apply_config` may change in byte `i`. */
  function Touched(i: nat): Byte
  {
    Covered(PATCH_ORDER, i)
  }

  predicate Distinct(fs: seq<Field>)
  {
    forall j, k :: 0 <= j < k < |fs| ==> fs[j] != fs[k]
  }

  // ---------------------------------------------------------------------------
  // The layout

  /** The bit map agrees with the sector, offset and mask table. */
  lemma ByteMaskAgrees(f: Field, i: nat)
    ensures ByteMask(f, i) == LocationOf(f).ByteMask(i)
  {
    match f
    case Pdo1Current =>
    case Pdo2Current =>
    case Pdo3Current =>
    case FlexCurrent =>
    case Pdo2Voltage =>
    case Pdo3Voltage =>
    case PdoCount =>
    case UseSrcCurrent =>
    case OnlyAbove5V =>
  }

  /** No two fields share a bit, also in the shared bytes 26, 35 and 38. */
  lemma MasksDisjoint(f: Field, g: Field, i: nat)
    requires f != g
    ensures ByteMask(f, i) & ByteMask(g, i) == 0
  {
  }

  lemma {:induction false} CoveredCons(fs: seq<Field>, i: nat)
    requires |fs| > 0
    ensures Covered(fs, i) == ByteMask(fs[0], i) | Covered(fs[1..], i)
  {
  }

  lemma TouchedUnfold(i: nat)
    ensures Touched(i) == ByteMask(Pdo1Current, i) | ByteMask(Pdo2Current, i) | ByteMask(Pdo3Current, i)
      | ByteMask(FlexCurrent, i) | ByteMask(Pdo2Voltage, i) | ByteMask(Pdo3Voltage, i)
      | ByteMask(PdoCount, i) | ByteMask(UseSrcCurrent, i) | ByteMask(OnlyAbove5V, i)
  {
    var fs := PATCH_ORDER;
    var a0, a1, a2, a3, a4, a5, a6, a7, a8 :=
      ByteMask(Pdo1Current, i), ByteMask(Pdo2Current, i), ByteMask(Pdo3Current, i),
      ByteMask(FlexCurrent, i), ByteMask(Pdo2Voltage, i), ByteMask(Pdo3Voltage, i),
      ByteMask(PdoCount, i), ByteMask(UseSrcCurrent, i), ByteMask(OnlyAbove5V, i);
    CoveredCons(fs, i);
    CoveredCons(fs[1..], i);
    CoveredCons(fs[2..], i);
    CoveredCons(fs[3..], i);
    CoveredCons(fs[4..], i);
    CoveredCons(fs[5..], i);
    CoveredCons(fs[6..], i);
    CoveredCons(fs[7..], i);
    CoveredCons(fs[8..], i);
    assert fs[1..][1..] == fs[2..];
    assert fs[2..][1..] == fs[3..];
    assert fs[3..][1..] == fs[4..];
    assert fs[4..][1..] == fs[5..];
    assert fs[5..][1..] == fs[6..];
    assert fs[6..][1..] == fs[7..];
    assert fs[7..][1..] == fs[8..];
    assert fs[8..][1..] == [];
  }

  /** The bits `apply_config` may change, byte by byte: nothing in sectors 0 to
      2, nor in bytes 24, 25, 27, 30, 31, 37 and 39; only some bits of the others. */
  lemma TouchedTable(i: nat)
    ensures Touched(i) ==
      if i == 26 then 0xF6
      else if i == 28 then 0x0F
      else if i == 29 then 0xF0
      else if i == 32 then 0xC0
      else if i == 33 then 0x7F
      else if i == 34 then 0xFF
      else if i == 35 then 0xFD
      else if i == 36 then 0x0F
      else if i == 38 then 0x14
      else 0
  {
    TouchedUnfold(i);
  }

  // ---------------------------------------------------------------------------
  // One read-modify-write

  /** Read-modify-write of a little-endian window, seen byte by byte. */
  lemma ModifyWide(lo: Byte, hi: Byte, d: bv16, m: bv16)
    ensures var w := ModifyReg16(FromLe16(lo, hi), d, m);
      && LowByte(w) == ModifyReg8(lo, LowByte(d), LowByte(m))
      && HighByte(w) == ModifyReg8(hi, HighByte(d), HighByte(m))
  {
  }

  lemma PatchAtElsewhere(img: Image, l: Location, d: bv16, i: nat)
    requires l.Valid() && i < NVM_SIZE
    requires i != l.Index() && !(l.wide && i == l.Index() + 1)
    ensures PatchAt(img, l, d)[i] == img[i]
  {
  }

  lemma PatchAtWide(img: Image, l: Location, d: bv16, i: nat)
    requires l.Valid() && l.wide && i < NVM_SIZE
    requires i == l.Index() || i == l.Index() + 1
    ensures PatchAt(img, l, d)[i] == (img[i] & !l.ByteMask(i)) | (l.DataByte(d, i) & l.ByteMask(i))
  {
    var k := l.Index();
    ModifyWide(img[k], img[k + 1], d, l.mask);
  }

  lemma PatchAtNarrow(img: Image, l: Location, d: bv16)
    requires l.Valid() && !l.wide
    ensures var i := l.Index();
      PatchAt(img, l, d)[i] == (img[i] & !l.ByteMask(i)) | (l.DataByte(d, i) & l.ByteMask(i))
  {
  }

  lemma PatchAtEffect(img: Image, l: Location, d: bv16, i: nat)
    requires l.Valid() && i < NVM_SIZE
    ensures PatchAt(img, l, d)[i] == (img[i] & !l.ByteMask(i)) | (l.DataByte(d, i) & l.ByteMask(i))
  {
    if i == l.Index() || (l.wide && i == l.Index() + 1) {
      if l.wide { PatchAtWide(img, l, d, i); } else { PatchAtNarrow(img, l, d); }
    } else {
      PatchAtElsewhere(img, l, d, i);
      assert l.ByteMask(i) == 0;
    }
  }

  /** A patch changes exactly the field's bits, byte by byte, and takes them
      from the data operand. */
  lemma PatchEffect(img: Image, f: Field, d: bv16, i: nat)
    requires i < NVM_SIZE
    ensures Patch(img, f, d)[i] == (img[i] & !ByteMask(f, i)) | Piece(f, d, i)
  {
    ByteMaskAgrees(f, i);
    PatchAtEffect(img, LocationOf(f), d, i);
  }

  /** Patches of two different fields commute, so the order the source
      happens to use does not matter. */
  lemma PatchesCommute(img: Image, f: Field, x: bv16, g: Field, y: bv16)
    requires f != g
    ensures Patch(Patch(img, f, x), g, y) == Patch(Patch(img, g, y), f, x)
  {
    var a := Patch(Patch(img, f, x), g, y);
    var b := Patch(Patch(img, g, y), f, x);
    forall i | 0 <= i < NVM_SIZE ensures a[i] == b[i] {
      PatchEffect(img, f, x, i);
      PatchEffect(Patch(img, f, x), g, y, i);
      PatchEffect(img, g, y, i);
      PatchEffect(Patch(img, g, y), f, x, i);
      MasksDisjoint(f, g, i);
    }
  }

  // ---------------------------------------------------------------------------
  // The whole patch sequence


  /** The bitwise or of `g` over the given fields. */
  function OrAll(fs: seq<Field>, g: Field -> Byte): Byte
    decreases |fs|
  {
    if |fs| == 0 then 0 else g(fs[0]) | OrAll(fs[1..], g)
  }

  function MaskAt(i: nat): Field -> Byte { f => ByteMask(f, i) }

  function PieceAt(data: Field -> bv16, i: nat): Field -> Byte { f => Piece(f, data(f), i) }

  lemma {:induction false} CoveredIsOrAll(fs: seq<Field>, i: nat)
    ensures Covered(fs, i) == OrAll(fs, MaskAt(i))
    decreases |fs|
  {
    if |fs| > 0 {
      CoveredIsOrAll(fs[1..], i);
    }
  }

  lemma {:induction false} WrittenIsOrAll(fs: seq<Field>, data: Field -> bv16, i: nat)
    ensures Written(fs, data, i) == OrAll(fs, PieceAt(data, i))
    decreases |fs|
  {
    if |fs| > 0 {
      WrittenIsOrAll(fs[1..], data, i);
    }
  }

  /** `g(f)` lies within `m(f)`. */
  predicate WithinAt(g: Field -> Byte, m: Field -> Byte, f: Field)
  {
    g(f) & !m(f) == 0
  }

  predicate Within(g: Field -> Byte, m: Field -> Byte)
  {
    forall f :: WithinAt(g, m, f)
  }

  /** Fields `f` and `h` have disjoint `m`. */
  predicate DisjointAt(m: Field -> Byte, f: Field, h: Field)
  {
    m(f) & m(h) == 0
  }

  predicate PairwiseDisjoint(m: Field -> Byte)
  {
    forall f, h :: f != h ==> DisjointAt(m, f, h)
  }

  lemma {:induction false} OrAllWithin(fs: seq<Field>, g: Field -> Byte, m: Field -> Byte)
    requires Within(g, m)
    ensures OrAll(fs, g) & !OrAll(fs, m) == 0
    decreases |fs|
  {
    if |fs| > 0 {
      OrAllWithin(fs[1..], g, m);
      assert WithinAt(g, m, fs[0]);
    }
  }

  lemma {:induction false} OrAllDisjoint(f: Field, fs: seq<Field>, m: Field -> Byte)
    requires PairwiseDisjoint(m) && f !in fs
    ensures m(f) & OrAll(fs, m) == 0
    decreases |fs|
  {
    if |fs| > 0 {
      OrAllDisjoint(f, fs[1..], m);
      assert DisjointAt(m, f, fs[0]);
    }
  }

  lemma {:induction false} OrAllContains(fs: seq<Field>, m: Field -> Byte, f: Field)
    requires f in fs
    ensures m(f) & !OrAll(fs, m) == 0
    decreases |fs|
  {
    if fs[0] != f {
      OrAllContains(fs[1..], m, f);
    }
  }

  lemma {:induction false} OrAllSelect(fs: seq<Field>, g: Field -> Byte, m: Field -> Byte, f: Field)
    requires Distinct(fs) && f in fs && Within(g, m) && PairwiseDisjoint(m)
    ensures OrAll(fs, g) & m(f) == g(f)
    decreases |fs|
  {
    HeadNotInTail(fs);
    var h, rest := fs[0], fs[1..];
    if h == f {
      OrAllWithin(rest, g, m);
      OrAllDisjoint(f, rest, m);
      assert WithinAt(g, m, f);
    } else {
      OrAllSelect(rest, g, m, f);
      assert WithinAt(g, m, h);
      assert DisjointAt(m, h, f);
    }
  }

  /** The layout facts the merges rely on, for byte `i`. */
  lemma MaskFacts(data: Field -> bv16, i: nat)
    ensures Within(PieceAt(data, i), MaskAt(i))
    ensures PairwiseDisjoint(MaskAt(i))
  {
    forall f ensures WithinAt(PieceAt(data, i), MaskAt(i), f) {
      PieceWithinMask(f, data(f), i);
    }
    forall f, h | f != h ensures DisjointAt(MaskAt(i), f, h) {
      MasksDisjoint(f, h, i);
    }
  }

  lemma WrittenWithinCovered(fs: seq<Field>, data: Field -> bv16, i: nat)
    ensures Written(fs, data, i) & !Covered(fs, i) == 0
  {
    MaskFacts(data, i);
    OrAllWithin(fs, PieceAt(data, i), MaskAt(i));
    CoveredIsOrAll(fs, i);
    WrittenIsOrAll(fs, data, i);
  }

  lemma DisjointFromCovered(f: Field, fs: seq<Field>, i: nat)
    requires f !in fs
    ensures ByteMask(f, i) & Covered(fs, i) == 0
  {
    MaskFacts(x => 0, i);
    OrAllDisjoint(f, fs, MaskAt(i));
    CoveredIsOrAll(fs, i);
  }

  lemma HeadNotInTail(fs: seq<Field>)
    requires Distinct(fs) && |fs| > 0
    ensures fs[0] !in fs[1..] && Distinct(fs[1..])
  {
    forall k | 0 <= k < |fs| - 1 ensures fs[1..][k] != fs[0] {
      assert fs[1..][k] == fs[k + 1];
    }
  }

  /** The first patch of a sequence merged with what the rest does, on byte
      `i` whose original value is `x`. */
  lemma PatchAllStep(x: Byte, fs: seq<Field>, data: Field -> bv16, i: nat, tail: Byte)
    requires Distinct(fs) && |fs| > 0
    requires var f := fs[0];
      tail == ((((x & !ByteMask(f, i)) | Piece(f, data(f), i))) & !Covered(fs[1..], i))
              | Written(fs[1..], data, i)
    ensures tail == (x & !Covered(fs, i)) | Written(fs, data, i)
  {
    var f, rest := fs[0], fs[1..];
    var m, p := ByteMask(f, i), Piece(f, data(f), i);
    var mm, pp := Covered(rest, i), Written(rest, data, i);
    WrittenWithinCovered(rest, data, i);
    HeadNotInTail(fs);
    DisjointFromCovered(f, rest, i);
    PieceWithinMask(f, data(f), i);
  }

  /** Patching distinct fields one after another leaves, in every byte, the
      original's bits outside the fields and the operands' bits inside them. */
  lemma {:induction false} PatchAllBytes(img: Image, fs: seq<Field>, data: Field -> bv16, i: nat)
    requires Distinct(fs) && i < NVM_SIZE
    ensures PatchAll(img, fs, data)[i] == (img[i] & !Covered(fs, i)) | Written(fs, data, i)
    decreases |fs|
  {
    if |fs| > 0 {
      var img1 := Patch(img, fs[0], data(fs[0]));
      HeadNotInTail(fs);
      PatchAllBytes(img1, fs[1..], data, i);
      PatchEffect(img, fs[0], data(fs[0]), i);
      PatchAllStep(img[i], fs, data, i, PatchAll(img1, fs[1..], data)[i]);
    }
  }

  lemma PatchOrderDistinct()
    ensures Distinct(PATCH_ORDER)
  {
  }

  /** Every byte of the patched image: the original's bits outside the nine
      fields merged with the configuration's bits inside them. */
  lemma ApplyConfigBytes(img: Image, c: NvmConfig, i: nat)
    requires i < NVM_SIZE
    ensures ApplyConfig(img, c)[i] == (img[i] & !Touched(i)) | Written(PATCH_ORDER, Operands(c), i)
  {
    PatchOrderDistinct();
    PatchAllBytes(img, PATCH_ORDER, Operands(c), i);
  }

  // ---------------------------------------------------------------------------
  // What the patched image holds

  /** The bits a field's patch takes from its operand are its own bits. */
  lemma PieceWithinMask(f: Field, d: bv16, i: nat)
    ensures Piece(f, d, i) & !ByteMask(f, i) == 0
  {
  }

  lemma CoveredContains(fs: seq<Field>, f: Field, i: nat)
    requires f in fs
    ensures ByteMask(f, i) & !Covered(fs, i) == 0
  {
    OrAllContains(fs, MaskAt(i), f);
    CoveredIsOrAll(fs, i);
  }

  /** Within one field's bits, the merged operands are that field's operand. */
  lemma WrittenSelect(fs: seq<Field>, data: Field -> bv16, f: Field, i: nat)
    requires Distinct(fs) && f in fs
    ensures Written(fs, data, i) & ByteMask(f, i) == Piece(f, data(f), i)
  {
    MaskFacts(data, i);
    OrAllSelect(fs, PieceAt(data, i), MaskAt(i), f);
    WrittenIsOrAll(fs, data, i);
  }

  /** After `apply_config`, the bits of every field are that field's operand. */
  lemma ApplyConfigFieldBits(img: Image, c: NvmConfig, f: Field, i: nat)
    requires i < NVM_SIZE
    ensures ApplyConfig(img, c)[i] & ByteMask(f, i) == Piece(f, Encoded(f, c), i)
  {
    var data := Operands(c);
    ApplyConfigBytes(img, c, i);
    PatchOrderDistinct();
    assert f in PATCH_ORDER;
    CoveredContains(PATCH_ORDER, f, i);
    WrittenSelect(PATCH_ORDER, data, f, i);
  }

  /** A byte or window whose bits under a mask agree, byte by byte, with an
      operand holds that operand under the mask. */
  lemma LoadMasked(img: Image, l: Location, d: bv16)
    requires l.Valid()
    requires img[l.Index()] & l.ByteMask(l.Index()) == l.DataByte(d, l.Index()) & l.ByteMask(l.Index())
    requires l.wide ==>
      img[l.Index() + 1] & l.ByteMask(l.Index() + 1) == l.DataByte(d, l.Index() + 1) & l.ByteMask(l.Index() + 1)
    ensures Load(img, l) & l.mask == d & l.mask
  {
  }

  /** Shifting a value into a field and reading it back keeps the bits the
      field has room for. */
  lemma ShiftIntoField(f: Field, c: NvmConfig)
    ensures ShiftRight(Encoded(f, c) & Mask(f), LocationOf(f).pos) == FieldValue(f, c) & ValueMask(f)
  {
    match f
    case Pdo1Current =>
    case Pdo2Current =>
    case Pdo3Current =>
    case FlexCurrent =>
    case Pdo2Voltage =>
    case Pdo3Voltage =>
    case PdoCount =>
    case UseSrcCurrent =>
    case OnlyAbove5V =>
  }

  lemma BitsAsLocation(out: Image, f: Field, d: bv16, k: nat)
    requires k < NVM_SIZE && out[k] & ByteMask(f, k) == Piece(f, d, k)
    ensures var l := LocationOf(f);
      out[k] & l.ByteMask(k) == l.DataByte(d, k) & l.ByteMask(k)
  {
    ByteMaskAgrees(f, k);
  }

  /** A field reads back as whatever its window holds under its mask. */
  lemma ReadFieldMasked(out: Image, f: Field, d: bv16)
    requires Load(out, LocationOf(f)) & Mask(f) == d & Mask(f)
    ensures ReadField(out, f) == ShiftRight(d & Mask(f), LocationOf(f).pos)
  {
  }

  /** The bits of a field's location after `apply_config`, seen through the
      location's own masks. */
  lemma ApplyConfigAtLocation(img: Image, c: NvmConfig, f: Field, k: nat)
    requires k < NVM_SIZE
    ensures var l := LocationOf(f);
      ApplyConfig(img, c)[k] & l.ByteMask(k) == l.DataByte(Encoded(f, c), k) & l.ByteMask(k)
  {
    ApplyConfigFieldBits(img, c, f, k);
    BitsAsLocation(ApplyConfig(img, c), f, Encoded(f, c), k);
  }

  /** Both bytes of a field's location after `apply_config`. */
  lemma ApplyConfigLocationBytes(img: Image, c: NvmConfig, f: Field)
    ensures var l, out, d := LocationOf(f), ApplyConfig(img, c), Encoded(f, c);
      && out[l.Index()] & l.ByteMask(l.Index()) == l.DataByte(d, l.Index()) & l.ByteMask(l.Index())
      && (l.wide ==>
        out[l.Index() + 1] & l.ByteMask(l.Index() + 1) == l.DataByte(d, l.Index() + 1) & l.ByteMask(l.Index() + 1))
  {
    var l := LocationOf(f);
    ApplyConfigAtLocation(img, c, f, l.Index());
    if l.wide {
      ApplyConfigAtLocation(img, c, f, l.Index() + 1);
    }
  }

  /** A field's byte or window holds operand `d` under the field's mask when
      its bytes do. */
  lemma WindowFromBits(out: Image, f: Field, d: bv16)
    requires var l := LocationOf(f);
      && out[l.Index()] & l.ByteMask(l.Index()) == l.DataByte(d, l.Index()) & l.ByteMask(l.Index())
      && (l.wide ==>
        out[l.Index() + 1] & l.ByteMask(l.Index() + 1) == l.DataByte(d, l.Index() + 1) & l.ByteMask(l.Index() + 1))
    ensures Load(out, LocationOf(f)) & Mask(f) == d & Mask(f)
  {
    LoadMasked(out, LocationOf(f), d);
  }

  /** After `apply_config`, a field's byte or window holds the field's
      operand under the field's mask. */
  lemma ApplyConfigWindow(img: Image, c: NvmConfig, f: Field)
    ensures Load(ApplyConfig(img, c), LocationOf(f)) & Mask(f) == Encoded(f, c) & Mask(f)
  {
    ApplyConfigLocationBytes(img, c, f);
    WindowFromBits(ApplyConfig(img, c), f, Encoded(f, c));
  }

  /** Every field of the patched image reads back as the configuration's
      value, truncated to the field's width. */
  lemma ReadBack(img: Image, c: NvmConfig, f: Field)
    ensures ReadField(ApplyConfig(img, c), f) == FieldValue(f, c) & ValueMask(f)
  {
    ApplyConfigWindow(img, c, f);
    ReadFieldMasked(ApplyConfig(img, c), f, Encoded(f, c));
    ShiftIntoField(f, c);
  }

  lemma KeepBits(x: Byte, m: Byte, p: Byte, other: Byte)
    requires p & !m == 0 && m & other == 0
    ensures ((x & !m) | p) & other == x & other
  {
  }

  /** A patch of field `f` keeps the bits of field `g` in every byte. */
  lemma PatchKeepsBits(img: Image, f: Field, d: bv16, g: Field, k: nat)
    requires f != g && k < NVM_SIZE
    ensures Patch(img, f, d)[k] & ByteMask(g, k) == img[k] & ByteMask(g, k)
  {
    PatchEffect(img, f, d, k);
    MasksDisjoint(f, g, k);
    PieceWithinMask(f, d, k);
    KeepBits(img[k], ByteMask(f, k), Piece(f, d, k), ByteMask(g, k));
  }

  /** Both bytes of field `g`'s location survive a patch of another field. */
  lemma PatchKeepsLocation(img: Image, f: Field, d: bv16, g: Field)
    requires f != g
    ensures var l, out := LocationOf(g), Patch(img, f, d);
      && out[l.Index()] & l.ByteMask(l.Index()) == img[l.Index()] & l.ByteMask(l.Index())
      && (l.wide ==> out[l.Index() + 1] & l.ByteMask(l.Index() + 1) == img[l.Index() + 1] & l.ByteMask(l.Index() + 1))
  {
    var l := LocationOf(g);
    PatchKeepsBits(img, f, d, g, l.Index());
    ByteMaskAgrees(g, l.Index());
    if l.wide {
      PatchKeepsBits(img, f, d, g, l.Index() + 1);
      ByteMaskAgrees(g, l.Index() + 1);
    }
  }

  /** Two images whose bytes agree under a location's masks hold the same
      value there. */
  lemma ReadAtAgree(a: Image, b: Image, l: Location)
    requires l.Valid()
    requires a[l.Index()] & l.ByteMask(l.Index()) == b[l.Index()] & l.ByteMask(l.Index())
    requires l.wide ==> a[l.Index() + 1] & l.ByteMask(l.Index() + 1) == b[l.Index() + 1] & l.ByteMask(l.Index() + 1)
    ensures ReadAt(a, l) == ReadAt(b, l)
  {
    LoadAgree(a, b, l);
  }

  lemma LoadAgree(a: Image, b: Image, l: Location)
    requires l.Valid()
    requires a[l.Index()] & l.ByteMask(l.Index()) == b[l.Index()] & l.ByteMask(l.Index())
    requires l.wide ==> a[l.Index() + 1] & l.ByteMask(l.Index() + 1) == b[l.Index() + 1] & l.ByteMask(l.Index() + 1)
    ensures Load(a, l) & l.mask == Load(b, l) & l.mask
  {
  }

  /** A patch of one field leaves every other field's value as it was. */
  lemma PatchKeepsOthers(img: Image, f: Field, d: bv16, g: Field)
    requires f != g
    ensures ReadField(Patch(img, f, d), g) == ReadField(img, g)
  {
    PatchKeepsLocation(img, f, d, g);
    ReadAtAgree(Patch(img, f, d), img, LocationOf(g));
  }

  /** `apply_config` keeps every bit outside the nine fields. */
  lemma ApplyConfigPreserves(img: Image, c: NvmConfig, i: nat)
    requires i < NVM_SIZE
    ensures ApplyConfig(img, c)[i] & !Touched(i) == img[i] & !Touched(i)
  {
    ApplyConfigBytes(img, c, i);
    WrittenWithinCovered(PATCH_ORDER, Operands(c), i);
  }

  /** Sectors 0 to 2, bytes 24 and 25 of sector 3, and bytes 27, 30, 31, 37
      and 39 come out of `apply_config` unchanged. */
  lemma ApplyConfigFrame(img: Image, c: NvmConfig, i: nat)
    requires i < 26 || i == 27 || i == 30 || i == 31 || i == 37 || i == 39
    ensures |ApplyConfig(img, c)| == NVM_SIZE
    ensures ApplyConfig(img, c)[i] == img[i]
  {
    TouchedTable(i);
    ApplyConfigPreserves(img, c, i);
  }

  lemma MergeAgain(x: Byte, t: Byte, w: Byte, y: Byte, z: Byte)
    requires w & !t == 0
    requires y == (x & !t) | w && z == (y & !t) | w
    ensures z == y
  {
  }

  /** Patching the same distinct fields with the same operands a second
      time changes nothing, byte by byte. */
  lemma PatchAllIdempotentAt(img: Image, fs: seq<Field>, data: Field -> bv16, i: nat)
    requires Distinct(fs) && i < NVM_SIZE
    ensures PatchAll(PatchAll(img, fs, data), fs, data)[i] == PatchAll(img, fs, data)[i]
  {
    var once := PatchAll(img, fs, data);
    PatchAllBytes(img, fs, data, i);
    PatchAllBytes(once, fs, data, i);
    WrittenWithinCovered(fs, data, i);
    MergeAgain(img[i], Covered(fs, i), Written(fs, data, i), once[i], PatchAll(once, fs, data)[i]);
  }

  lemma PatchAllIdempotent(img: Image, fs: seq<Field>, data: Field -> bv16)
    requires Distinct(fs)
    ensures PatchAll(PatchAll(img, fs, data), fs, data) == PatchAll(img, fs, data)
  {
    forall i | 0 <= i < NVM_SIZE
      ensures PatchAll(PatchAll(img, fs, data), fs, data)[i] == PatchAll(img, fs, data)[i]
    {
      PatchAllIdempotentAt(img, fs, data, i);
    }
  }

  /** `apply_config` is idempotent. */
  lemma ApplyConfigIdempotent(img: Image, c: NvmConfig)
    ensures ApplyConfig(ApplyConfig(img, c), c) == ApplyConfig(img, c)
  {
    PatchOrderDistinct();
    PatchAllIdempotent(img, PATCH_ORDER, Operands(c));
  }
}
