/**
 * `stusb4500_nvm_read` and `stusb4500_nvm_flash` run against the NVM
 * controller: what they return, what they leave in the array, and where
 * they stop when a transfer fails.
 */
module NvmDriver {
  import opened Bytes
  import opened Outcomes
  import opened NvmPatch
  import opened NvmChip
  import opened NvmEngine
  import opened NvmFlow

  /** stusb4500_nvm_read: the 40 bytes of the array, sector k at bytes 8k..8k+7. */
  function NvmRead(b: Bus): Run<Bus, Image>
  {
    ExecAgrees(b, READ_NVM);
    SimReadNvm(b.dev);
    match Exec(b, READ_NVM)
    case Done(e, v) => var img: Image := v; Done(e, img)
    case Stop(e) => Stop(e)
    case Hang(e) => Hang(e)
  }

  /**
   * stusb4500_nvm_flash: read the array, patch a copy, erase and program the
   * copy, read the array again; true when the second read equals the copy.
   */
  function NvmFlash(b: Bus, cfg: NvmConfig): Run<Bus, bool>
  {
    var (b1, nvm) :- NvmRead(b);
    var patched := ApplyConfig(nvm, cfg);
    var (b2, _) :- Exec(b1, WriteNvmOps(patched));
    var (b3, back) :- NvmRead(b2);
    Done(b3, back == patched)
  }

  /** The transfers stusb4500_nvm_flash issues on a bus that never fails. */
  function FlashScript(d: Device, cfg: NvmConfig): seq<Txn>
  {
    var t1 := Sim(d, READ_NVM);
    var t2 := Sim(t1.dev, WriteNvmOps(ApplyConfig(Flatten(d.store), cfg)));
    var t3 := Sim(t2.dev, READ_NVM);
    t1.txns + (t2.txns + t3.txns)
  }

  /** The read issues its script up to the first failing transfer, and a completed read returns the array unchanged. */
  lemma ReadFollows(b: Bus)
    ensures Follows(b, NvmRead(b), Sim(b.dev, READ_NVM).txns)
    ensures NvmRead(b).Done? ==> NvmRead(b).state.dev == Sim(b.dev, READ_NVM).dev
    ensures NvmRead(b).Done? ==> NvmRead(b).value == Flatten(b.dev.store)
    ensures NvmRead(b).Done? ==> Keeps(b.dev, NvmRead(b).state.dev)
  {
    ExecAgrees(b, READ_NVM);
    SimReadNvm(b.dev);
    Recast(b, Exec(b, READ_NVM), NvmRead(b), Sim(b.dev, READ_NVM).txns);
  }

  /** With no fault among its transfers and budget enough, the read completes. */
  lemma ReadIdeal(b: Bus)
    requires Clean(b.faults, |b.log|, |b.log| + 36 + 5 * b.dev.latency)
    requires |b.log| + 36 + 5 * b.dev.latency <= b.limit
    ensures NvmRead(b).Done?
    ensures NvmRead(b).value == Flatten(b.dev.store)
    ensures Keeps(b.dev, NvmRead(b).state.dev)
    ensures NvmRead(b).state.faults == b.faults && NvmRead(b).state.limit == b.limit
    ensures |NvmRead(b).state.log| == |b.log| + 36 + 5 * b.dev.latency
  {
    SimReadNvm(b.dev);
    ExecIdeal(b, READ_NVM);
    ReadFollows(b);
  }

  /** The flash issues its script up to the first failing transfer, and stops there. */
  lemma FlashFollows(b: Bus, cfg: NvmConfig)
    ensures Follows(b, NvmFlash(b, cfg), FlashScript(b.dev, cfg))
  {
    var r := NvmFlash(b, cfg);
    var t1 := Sim(b.dev, READ_NVM);
    var patched := ApplyConfig(Flatten(b.dev.store), cfg);
    var t2 := Sim(t1.dev, WriteNvmOps(patched));
    var t3 := Sim(t2.dev, READ_NVM);
    var r1 := NvmRead(b);
    ReadFollows(b);
    if !r1.Done? {
      Extend(b, r1, t1.txns, r, t2.txns + t3.txns);
    } else {
      var b1 := r1.state;
      var r2 := Exec(b1, WriteNvmOps(patched));
      ExecAgrees(b1, WriteNvmOps(patched));
      if !r2.Done? {
        Extend(b1, r2, t2.txns, r, t3.txns);
      } else {
        var b2 := r2.state;
        var r3 := NvmRead(b2);
        ReadFollows(b2);
        Recast(b2, r3, r, t3.txns);
        Chain(b1, r2, t2.txns, r, t3.txns);
      }
      Chain(b, r1, t1.txns, r, t2.txns + t3.txns);
    }
  }

  /**
   * A completed flash has burnt the patched image into the array, and it
   * reports true exactly when reading the array back gives that image.
   */
  lemma FlashResult(b: Bus, cfg: NvmConfig)
    requires NvmFlash(b, cfg).Done?
    ensures NvmFlash(b, cfg).state.dev.store == Burn(ApplyConfig(Flatten(b.dev.store), cfg), b.dev.stuck)
    ensures NvmFlash(b, cfg).value
        <==> Flatten(NvmFlash(b, cfg).state.dev.store) == ApplyConfig(Flatten(b.dev.store), cfg)
  {
    var b1 := NvmRead(b).state;
    ReadFollows(b);
    var patched := ApplyConfig(Flatten(b.dev.store), cfg);
    var b2 := Exec(b1, WriteNvmOps(patched)).state;
    ExecAgrees(b1, WriteNvmOps(patched));
    SimWriteNvm(b1.dev, patched);
    ReadFollows(b2);
  }

  /** Programming an erased sector with no stuck bits stores exactly the data. */
  lemma ProgramBlank(data: Sector)
    ensures Program(BLANK, data, BLANK) == data
  {
    assert forall j :: 0 <= j < 8 ==> Program(BLANK, data, BLANK)[j] == data[j];
  }

  /** On a sound array, burning an image and reading it back gives the image. */
  lemma FlattenBurn(img: Image)
    ensures Flatten(Burn(img, [BLANK, BLANK, BLANK, BLANK, BLANK])) == img
  {
    var b := Burn(img, [BLANK, BLANK, BLANK, BLANK, BLANK]);
    ProgramBlank(img[0..8]);
    ProgramBlank(img[8..16]);
    ProgramBlank(img[16..24]);
    ProgramBlank(img[24..32]);
    ProgramBlank(img[32..40]);
    assert img == img[0..8] + img[8..16] + img[16..24] + img[24..32] + img[32..40];
  }

  /** With no fault among its transfers and budget enough, the erase-and-program sequence completes. */
  lemma WriteIdeal(b: Bus, img: Image)
    requires Clean(b.faults, |b.log|, |b.log| + 56 + 13 * b.dev.latency)
    requires |b.log| + 56 + 13 * b.dev.latency <= b.limit
    ensures Exec(b, WriteNvmOps(img)).Done?
    ensures Exec(b, WriteNvmOps(img)).state.dev.store == Burn(img, b.dev.stuck)
    ensures Exec(b, WriteNvmOps(img)).state.dev.stuck == b.dev.stuck
    ensures Exec(b, WriteNvmOps(img)).state.dev.latency == b.dev.latency
    ensures Exec(b, WriteNvmOps(img)).state.faults == b.faults
    ensures Exec(b, WriteNvmOps(img)).state.limit == b.limit
    ensures |Exec(b, WriteNvmOps(img)).state.log| == |b.log| + 56 + 13 * b.dev.latency
  {
    SimWriteNvm(b.dev, img);
    ExecIdeal(b, WriteNvmOps(img));
  }

  /** A range with no fault has no fault in any of its parts. */
  lemma CleanPart(faults: set<nat>, lo: nat, hi: nat, lo2: nat, hi2: nat)
    requires Clean(faults, lo, hi) && lo <= lo2 && hi2 <= hi
    ensures Clean(faults, lo2, hi2)
  {
  }

  /**
   * With no fault among its transfers, budget enough and no stuck bit, the
   * flash succeeds and the array afterwards holds the configured image.
   */
  lemma FlashIdeal(b: Bus, cfg: NvmConfig)
    requires b.dev.stuck == [BLANK, BLANK, BLANK, BLANK, BLANK]
    requires Clean(b.faults, |b.log|, |b.log| + 128 + 23 * b.dev.latency)
    requires |b.log| + 128 + 23 * b.dev.latency <= b.limit
    ensures NvmFlash(b, cfg).Done? && NvmFlash(b, cfg).value
    ensures Flatten(NvmFlash(b, cfg).state.dev.store) == ApplyConfig(Flatten(b.dev.store), cfg)
  {
    var n := |b.log|;
    var lat := b.dev.latency;
    var patched := ApplyConfig(Flatten(b.dev.store), cfg);
    CleanPart(b.faults, n, n + 128 + 23 * lat, n, n + 36 + 5 * lat);
    ReadIdeal(b);
    var b1 := NvmRead(b).state;
    CleanPart(b.faults, n, n + 128 + 23 * lat, n + 36 + 5 * lat, n + 92 + 18 * lat);
    WriteIdeal(b1, patched);
    var b2 := Exec(b1, WriteNvmOps(patched)).state;
    CleanPart(b.faults, n, n + 128 + 23 * lat, n + 92 + 18 * lat, n + 128 + 23 * lat);
    ReadIdeal(b2);
    FlattenBurn(patched);
    FlashResult(b, cfg);
  }
}
