# STUSB4500 USB-PD sink driver, modelled in Dafny

The STUSB4500 is a USB Power Delivery sink controller. Its C driver has three
parts, and this project models all three:

- **The NVM flasher** (`stusb4500_nvm.c`). `apply_config` patches nine typed
  configuration fields into a 40-byte image of the chip's five 8-byte NVM
  sectors. Each field goes in through a `MODIFY_REG` read-modify-write on a
  byte or on a little-endian 16-bit window. `stusb4500_nvm_read` and
  `stusb4500_nvm_flash` run the register sequences around it: read, patch,
  erase, program, read back, compare.
- **The PDO codec and the PDO search** (`src/stusb4500.c`, and the older copy
  `stusb4500.c`). These are the `TO_/FROM_PDO_*` and `HEADER_*` macros, and
  `load_optimal_pdo`. The search picks the fixed-supply PDO with the greatest
  power among those within the sink's bounds. It must strictly beat a
  baseline, and it keeps the earliest PDO on a tie.
- **The negotiation** (`stusb4500_negotiate` and its helpers, in both driver
  files). It checks that the chip is present and a cable is attached. It may
  force a Soft_Reset. It then polls for a Source_Capabilities message,
  captures its PDOs, writes the chosen one to sink PDO slot 3, and sends a
  Soft_Reset again.

## How the model is built

- Every C `uint8_t`, `uint16_t` and `uint32_t` is a `bv8`, `bv16` or `bv32`.
  So wrap-around, truncating casts and shifts behave as in C. The exceptions
  are the `stusb4500_power_t` power products, which are exact integers
  (`nat`). A 16-bit by 16-bit product never wraps in 32 bits
  (`Selection.PowerExact`), so the two agree. Counts such as the number of
  data objects are `nat` too, decoded case by case from their bits.
- Driver code returns `Run<S, T>` (module `Outcomes`). There are three
  outcomes:
  - `Done(state, value)` when the code returns normally, carrying the value
    it returns or computes.
  - `Stop(state)` when a bus transfer failed and the driver returned false.
  - `Hang(state)` when the environment's script ran out, so the driver would
    still be waiting.
- The NVM side runs against a register-level model of the NVM controller
  (`NvmChip`):
  - a password;
  - FTP_CTRL_0 and FTP_CTRL_1;
  - the sector erase register (SER) and the program load register (PL);
  - RW_BUFFER;
  - the five sectors;
  - stuck bits, for a worn array;
  - a REQ latency.

  The bus has a set of failing transfer numbers and a transfer budget. The
  budget is the fuel of every busy-wait. The driver's register sequences are
  data (`NvmEngine.Op`). `Exec` runs them on a bus that can fail. `Sim` runs
  them on a bus that never fails, and `ExecAgrees` relates the two.
- The negotiation runs against a `Transport.Port`. It holds:
  - a script of bus replies;
  - a script of clock readings;
  - a log of every transfer the driver made.

  The two finite scripts are the fuel of the polling loops. The theorems
  about the negotiation are statements about that log.
- `get_ms` is modelled as `Config.clock`: true when a clock is supplied,
  whose readings come from the port's tick script. `USBPD_REV30_SUPPORT` is
  modelled as `Config.rev30`.

## Where each C function lives

| C | Dafny |
|---|---|
| `MODIFY_REG` | `NvmPatch.ModifyReg8`, `NvmPatch.ModifyReg16` |
| `PDO_CURRENT`, `PDO_VOLTAGE`, `PDO_CURRENT_FLEX` (NVM) | `NvmPatch.NvmCurrent`, `NvmPatch.NvmVoltage`, `NvmPatch.NvmFlexCurrent` |
| one `MODIFY_REG` line of `apply_config` | `NvmPatch.Patch` |
| `apply_config` | `NvmPatch.ApplyConfig` |
| `enter_read_mode`, `read_sector`, `exit_rw_mode` | `NvmFlow.ENTER_READ`, `NvmFlow.ReadSectorOps`, `NvmFlow.EXIT_RW` |
| `enter_write_mode`, `write_sector` | `NvmFlow.ENTER_WRITE`, `NvmFlow.WriteSectorOps` |
| the REQ `do … while` loops | `NvmEngine.WaitIdle` |
| running a register sequence | `NvmEngine.Exec`, on a failure-free bus `NvmEngine.Sim` |
| `stusb4500_nvm_read` | `NvmDriver.NvmRead` (its sequence is `NvmFlow.READ_NVM`) |
| `stusb4500_nvm_flash` | `NvmDriver.NvmFlash` (the write half is `NvmFlow.WriteNvmOps`) |
| `TO_PDO_CURRENT`, `TO_PDO_VOLTAGE`, `FROM_PDO_*`, `PDO_TYPE` | `Pdo.ToCurrent`, `Pdo.ToVoltage`, `Pdo.FromCurrent`, `Pdo.FromVoltage`, `Pdo.PdoType` |
| `HEADER_MESSAGE_TYPE`, `HEADER_NUM_DATA_OBJECTS` | `Pdo.MessageType`, `Pdo.DataObjects` |
| the PDO `write_pdo` builds | `Pdo.Format` |
| the search loop of `load_optimal_pdo` | `Selection.Select` (fold `Selection.Scan`, step `Selection.Consider`) |
| `send_pd_message`, `is_present` | `Negotiation.SendMessage`, `Negotiation.IsPresent` |
| `wait_until_ready_with_timeout` | `Negotiation.WaitReady`, loop `Negotiation.WaitLoop` |
| `write_pdo`, `load_optimal_pdo` | `Negotiation.WritePdo`, `Negotiation.LoadOptimal` |
| `stusb4500_negotiate` | `Negotiation.Negotiate`. The steps are `Negotiation.Session`, `Attached`, `Kick`, `Listen`, `PollCaps`, `PollOnce`, `Finish` and `Conclude` |
| the older file's `load_optimal_pdo` and `stusb4500_negotiate` | `Legacy.LegacySelect`, `Legacy.LegacyLoadOptimal`, `Legacy.LegacyNegotiate` |

The contracts on the functions of module `Negotiation` are mostly frame
facts, such as "reads no clock when none is supplied". What the
negotiation does is stated by the lemmas of `NegotiationFacts`.

## Model

The older driver file `stusb4500.c` shares the codec, the search and the
negotiation steps with `src/stusb4500.c`. So the members below model it too, at
these lines:
- codec 61-73;
- `send_pd_message` 82-86;
- `is_present` 88-93;
- `wait_until_ready_with_timeout` 95-109;
- `write_pdo` 111-121;
- `load_optimal_pdo` 123-194;
- `stusb4500_negotiate` 196-263.

The `Legacy` rows state how the files differ.


| member | source | states |
|---|---|---|
| NvmPatch.LocationOf | stusb4500_nvm.c:69-112 | every field's byte or 16-bit window lies inside the 40-byte image, and a one-byte field's mask fits in its byte |
| NvmPatch.MasksDisjoint | stusb4500_nvm.c:69-112 | no two of the nine fields share a bit, also in the shared bytes 26, 35 and 38 |
| NvmPatch.TouchedTable | stusb4500_nvm.c:300-347 | the exact bits `apply_config` may change in each byte; none in bytes 0-25, 27, 30, 31, 37 and 39 |
| NvmPatch.ModifyReg8 | stusb4500_nvm.c:123 | `MODIFY_REG` keeps the register's bits outside the mask and takes the data's bits inside it (`ModifyReg16` is the same for the 16-bit windows) |
| NvmPatch.ModifyWide | stusb4500_nvm.c:318-331 | a read-modify-write of a little-endian window is the byte-wise read-modify-write of its low and high bytes |
| NvmPatch.PatchEffect | stusb4500_nvm.c:302-346 | one field's patch changes, in every byte, exactly that field's bits and takes them from the data operand |
| NvmPatch.PatchesCommute | stusb4500_nvm.c:302-346 | patches of two different fields commute, so the source's order does not matter |
| NvmPatch.PatchKeepsOthers | stusb4500_nvm.c:302-346 | patching one field leaves the value read back from every other field unchanged |
| NvmPatch.ApplyConfigBytes | stusb4500_nvm.c:300-347 | every patched byte is the original's bits outside the fields merged with the configuration's bits inside them |
| NvmPatch.ApplyConfigFieldBits | stusb4500_nvm.c:300-347 | after `apply_config` the bits under each field's mask are that field's operand |
| NvmPatch.ApplyConfigPreserves | stusb4500_nvm.c:300-347 | `apply_config` keeps every bit outside the nine fields |
| NvmPatch.ApplyConfigFrame | stusb4500_nvm.c:300-347 | the image keeps length 40, and bytes 0-25, 27, 30, 31, 37 and 39 come out unchanged |
| NvmPatch.ApplyConfigWindow | stusb4500_nvm.c:300-347 | each field's byte or window holds the field's operand under its mask |
| NvmPatch.ReadBack | stusb4500_nvm.c:119-121 | each field reads back as its scaled value truncated to its width: ((mA-250)/250) mod 16, (mV/50) mod 512, (mA/10) mod 1024, count mod 4, each flag's bit |
| NvmPatch.ApplyConfigIdempotent | stusb4500_nvm.c:300-347 | applying the same configuration twice gives the same image as applying it once |
| NvmFlow.EraseSetupByte | stusb4500_nvm.c:147-150 | the erase setup byte is 0xFA: all five sectors in SER, opcode WRITE_SER |
| NvmFlow.RequestBits | stusb4500_nvm.c:224-225 | the sector request byte is (sector & 7) \| 0xD0: the sector bits never overlap PWR, RST_N and REQ |
| NvmFlow.SimEnterRead | stusb4500_nvm.c:191-209 | `enter_read_mode` unlocks the password and powers the controller on in three transfers, changing nothing else |
| NvmFlow.SimReadSector | stusb4500_nvm.c:211-241 | `read_sector` delivers the stored sector and changes nothing that persists |
| NvmFlow.SimExit | stusb4500_nvm.c:284-298 | `exit_rw_mode` clears the password in three transfers and keeps the array |
| NvmFlow.SimReadNvm | stusb4500_nvm.c:349-361 | a fault-free `stusb4500_nvm_read` returns sector k at bytes 8k..8k+7, keeps the array and locks the password again |
| NvmFlow.SimEnterWrite | stusb4500_nvm.c:125-189 | `enter_write_mode` leaves all five sectors blank and the controller unlocked, and keeps the stuck bits |
| NvmFlow.SimWriteSector | stusb4500_nvm.c:243-282 | `write_sector` programs its data, over the stuck bits, into that sector and no other |
| NvmFlow.SimWriteNvm | stusb4500_nvm.c:370-378 | the erase and the five sector writes leave exactly the image, over the stuck bits, in the array, and lock the password again |
| NvmDriver.ReadFollows | stusb4500_nvm.c:349-361 | the read issues its register script up to the first failing transfer and no further; when it completes it returns the array and keeps it |
| NvmDriver.ReadIdeal | stusb4500_nvm.c:349-361 | with no failing transfer and enough budget the read completes with the array's contents |
| NvmDriver.FlashFollows | stusb4500_nvm.c:363-385 | the flash issues its script up to the first failing transfer and stops there |
| NvmDriver.FlashResult | stusb4500_nvm.c:363-385 | a completed flash leaves the patched image burnt into the array, and returns true exactly when the read-back equals the patched image |
| NvmDriver.WriteIdeal | stusb4500_nvm.c:370-378 | with no failing transfer, the erase-and-program sequence completes and burns the image |
| NvmDriver.FlashIdeal | stusb4500_nvm.c:363-385 | on an ideal bus and a sound array the flash returns true and the array holds apply_config(original, config) |
| Pdo.FromCurrent | src/stusb4500.c:56-57 | a decoded current is a multiple of 10 mA, at most 10230 |
| Pdo.FromVoltage | src/stusb4500.c:63-64 | a decoded voltage is a multiple of 50 mV, at most 51150 |
| Pdo.PdoType | src/stusb4500.c:48-50 | the type is the PDO's bits 31..30: shifted back it gives exactly the masked PDO |
| Pdo.CurrentRoundTrip | src/stusb4500.c:53-58 | decode(encode(mA)) == mA exactly when mA is a multiple of 10 up to 10230 |
| Pdo.VoltageRoundTrip | src/stusb4500.c:60-65 | decode(encode(mV)) == mV exactly when mV is a multiple of 50 up to 51150 |
| Pdo.CurrentField | src/stusb4500.c:56-58 | encoding a decoded current gives back the PDO's 10-bit current field |
| Pdo.VoltageField | src/stusb4500.c:63-65 | encoding a decoded voltage gives back the PDO's 10-bit voltage field |
| Pdo.FormatType | src/stusb4500.c:112 | a formatted sink PDO is of the fixed type with bits 20-31 clear |
| Pdo.MessageType | src/stusb4500.c:35-43 | the message type is the header's low four bits, plus bit 4 with revision 3.0 support, and nothing above |
| Pdo.DataObjects | src/stusb4500.c:41-45 | the count is the header's bits 14..12: at most seven, and shifted back it gives exactly those bits |
| Pdo.CaptureFits | src/stusb4500.c:255-261 | the capture is four bytes per object, at most 28, within the 40-byte buffer, and matches the expected byte count |
| Pdo.Objects | src/stusb4500.c:267 | the captured bytes are read as little-endian 32-bit PDOs, four bytes each |
| Selection.ScanSpec | src/stusb4500.c:136-164 | the loop either keeps its start, when no eligible PDO beats it, or ends on the unique pick above it |
| Selection.PicksUnique | src/stusb4500.c:158-163 | with the strict comparison at most one PDO qualifies as the pick |
| Selection.SelectSpec | src/stusb4500.c:130-164 | found exactly when some eligible PDO beats the baseline; then the strongest eligible PDO, earliest on a tie; otherwise the start unchanged |
| Selection.PowerExact | src/stusb4500.c:132-143 | the driver's 32-bit product of a 16-bit current and a 16-bit voltage never wraps, so the power is the exact product over 1000 |
| Selection.SelectSound | src/stusb4500.c:136-164 | a found PDO is fixed-type, meets the current and voltage bounds, comes from the list and beats the baseline |
| Negotiation.StartClock | src/stusb4500.c:218-220 | taking the start time makes no bus transfer |
| Negotiation.Expired | src/stusb4500.c:224 | the timeout test makes no bus transfer; without a clock it never fires and reads no clock; with one it takes one reading and fires exactly when that reading is more than 500 ms (mod 2^32) past the start |
| Negotiation.WaitLoop | src/stusb4500.c:96-99 | without a clock the wait reads no clock and ends only on PE_SNK_READY |
| Negotiation.WaitReady | src/stusb4500.c:87-102 | the same for the whole `wait_until_ready_with_timeout` |
| Negotiation.PollOnce | src/stusb4500.c:222-249 | an iteration that loops again has used at least one bus reply, and reads no clock without one |
| Negotiation.PollCaps | src/stusb4500.c:222-249 | the polling loop reads no clock without one |
| Negotiation.Session | src/stusb4500.c:204-271 | without a clock the negotiation reads no clock |
| Negotiation.Negotiate | src/stusb4500.c:195-272 | the same for `stusb4500_negotiate` |
| NegotiationFacts.SoftResetBytes | src/stusb4500.c:32 | Soft_Reset goes on the bus as the bytes 0x0D, 0x00 |
| NegotiationFacts.SendMessageLog | src/stusb4500.c:74-78 | a message is the header to TX_HEADER, then PD_CMD to CMD_CTRL; a failed first write sends nothing more |
| NegotiationFacts.SoftResetLog | src/stusb4500.c:74-78 | a successful Soft_Reset appends exactly the two writes |
| NegotiationFacts.WaitLoopLog | src/stusb4500.c:96-99 | a successful wait is a run of one-byte PE_FSM reads whose last, and only last, shows PE_SNK_READY |
| NegotiationFacts.WaitTimeout | src/stusb4500.c:97 | with a clock reading more than 500 ms (mod 2^32) after the start the wait returns false without a transfer |
| NegotiationFacts.WaitReadyLog | src/stusb4500.c:87-102 | the same shape of log for the whole wait |
| NegotiationFacts.PollOnceAgain | src/stusb4500.c:227-240 | an iteration loops again only after an idle status, or a status and a rejected header |
| NegotiationFacts.PollOnceLeave | src/stusb4500.c:224-248 | an iteration leaves with a header only after a received status, an accepted header and a matching byte count |
| NegotiationFacts.PollLog | src/stusb4500.c:222-249 | a poll that returns a header is only status and header reads up to a received status, then the accepted header and its byte count |
| NegotiationFacts.PollTimeout | src/stusb4500.c:224 | a late clock reading ends the poll with nothing and no transfer |
| NegotiationFacts.PollSkipStatus | src/stusb4500.c:227-230 | a status without MESSAGE_RECEIVED loops again after that one read |
| NegotiationFacts.PollSkipHeader | src/stusb4500.c:233-240 | a header with no data objects, or not Source_Capabilities, loops again |
| NegotiationFacts.PollBadCount | src/stusb4500.c:243-246 | a byte count that is not four per data object ends the poll with nothing |
| NegotiationFacts.SlotRegisters | src/stusb4500.c:117 | slots 1, 2 and 3 are registers 0x85, 0x89 and 0x8D |
| NegotiationFacts.WritePdoLog | src/stusb4500.c:104-121 | slots outside 1..3 are refused without a transfer; otherwise the only write is the formatted PDO to the slot's register |
| NegotiationFacts.WrittenPdo | src/stusb4500.c:112-120 | the four bytes written decode to a fixed-type PDO with bits 20-31 clear, giving back on-grid currents and voltages |
| NegotiationFacts.LoadOptimalLog | src/stusb4500.c:184-192 | nothing found means false with no write; success means exactly one write, to 0x8D, of the found PDO |
| NegotiationFacts.LoadedMatchesSource | src/stusb4500.c:155-190 | the PDO written to slot 3 decodes to the current and voltage the search found, and is fixed-type |
| NegotiationFacts.IsPresentLog | src/stusb4500.c:80-85 | the presence check succeeds only on one WHO_AM_I read of 0x25 or 0x21 |
| NegotiationFacts.AttachedLog | src/stusb4500.c:207-210 | the attach check succeeds only on one PORT_STATUS read with ATTACH set |
| NegotiationFacts.KickLog | src/stusb4500.c:213-216 | the forced renegotiation succeeds only after a finished wait, followed by the two Soft_Reset writes |
| NegotiationFacts.ListenLog | src/stusb4500.c:218-249 | listening succeeds only with an accepted header, along a poll log |
| NegotiationFacts.ConcludeLog | src/stusb4500.c:264-271 | after the capture: a finished wait, the slot 3 write of the PDO the search picks, then a Soft_Reset |
| NegotiationFacts.FinishLog | src/stusb4500.c:255-271 | the capture reads four bytes per data object from RX_DATA_OBJ, and then comes what ConcludeLog says |
| NegotiationFacts.SessionGate | src/stusb4500.c:204-210 | success only after an identifying WHO_AM_I read and then an attached PORT_STATUS read |
| NegotiationFacts.SessionOrder | src/stusb4500.c:213-227 | on an interrupt polling starts right after the two checks; otherwise a finished wait and a Soft_Reset come first |
| NegotiationFacts.SessionLoads | src/stusb4500.c:233-271 | success means the capture follows an accepted header and its matching byte count, and ends with the load and a Soft_Reset |
| NegotiationFacts.NegotiateSucceeds | src/stusb4500.c:195-272 | success needs a configuration, and its log has the gate, the order and the load above |
| NegotiationFacts.NegotiationCanSucceed | src/stusb4500.c:195-272 | success is reachable: one 5 V / 3 A offer answering a 5 V / 1 A sink gives true, after the two checks, the poll, the capture, the wait, the slot 3 write of 3000 mA at 5000 mV and a Soft_Reset |
| NegotiationFacts.NegotiateRefuses | src/stusb4500.c:201-210 | a null configuration, an unknown device or a detached cable return false after zero, one or two reads; a failed WHO_AM_I read is a failed transfer |
| Legacy.OfferPowerFits | stusb4500.c:136-138 | the per-PDO product the older driver forms in `int` never overflows, since the fields decode to at most 10230 mA and 51150 mV |
| Legacy.LegacySelectAgrees | stusb4500.c:123-160 | where the `int` baseline product is defined, the older search, with both products in `int`, picks what the current one picks |
| Legacy.LegacyConcludeAgrees | stusb4500.c:254-262 | the older file's steps after the capture behave as the current ones |
| Legacy.LegacyFinishAgrees | stusb4500.c:247-262 | the same from the capture on |
| Legacy.LegacyAgrees | stusb4500.c:196-263 | the older `stusb4500_negotiate`, with no null check, behaves as the current one given the same configuration, wherever its `int` baseline product is defined |

## Left out

- The NVM controller's behaviour is assumed, because the driver source only names its opcodes. These choices carry NvmFlow.SimEnterWrite, NvmFlow.SimWriteSector, NvmFlow.SimWriteNvm, NvmDriver.WriteIdeal and NvmDriver.FlashIdeal:
  - a command runs only while the password is set and PWR and RST_N are both written with REQ;
  - ERASE_SECTOR sets the sectors selected in SER to 0x00;
  - PROG_SECTOR ORs PL into the selected sector, except for its stuck bits;
  - SOFT_PROG_SECTOR changes nothing;
  - REQ reads back set for exactly `latency` polls after a request;
  - a failed transfer leaves the device unchanged.
- The bus itself (`i2c_master_*`, `dev->read`, `dev->write`) is not modelled. It is a script of replies or a set of failing transfer numbers.
- Termination of the busy-waits is not proved. The REQ polls, and the clock-less wait and poll loops, run on fuel: the NVM transfer budget and the port's finite scripts. Running out is `Hang`.
- The race with the source's Accept message, which can overwrite RX_DATA_OBJ before the capture, is not modelled. It is a real-time property of the environment.
- A bus reply of the wrong length counts as a failed transfer. The C callbacks fill exactly the bytes asked for.
- The byte order of the `*(uint16_t *)` NVM windows and of every multi-byte bus value is taken to be little-endian. For the windows and for `src/stusb4500.c`'s byte buffers, C leaves it to the target. The older `stusb4500.c` moves its 16- and 32-bit values through `i2c_master_read_u16`, `i2c_master_write_u16` and `i2c_master_write_u32` (stusb4500.c:84, 119, 228). Their byte order is whatever `i2c.h` implements, and `i2c.h` is not part of this model. Legacy.LegacyAgrees relies on that order being little-endian.
- NvmDriver.NvmRead returns the image instead of filling a caller's buffer, so the NULL-buffer path is not modelled. `read_sector` begins by refusing a NULL buffer (stusb4500_nvm.c:212). `stusb4500_nvm_read(NULL)` therefore makes the three `enter_read_mode` writes and then returns false without running `exit_rw_mode`, which leaves the NVM controller unlocked and powered. `write_sector`'s same check (stusb4500_nvm.c:244) cannot fire, because `stusb4500_nvm_flash` always passes its local array (stusb4500_nvm.c:364).
- The left shift of the negative value `PDO_CURRENT(0)` is undefined in C. It is modelled with the two's-complement bits every target compiler produces.
- The older file's `PDO_TYPE_MSK`, `0x03 << 30` in `int`, overflows. It is modelled as the mask 0xC0000000, as in the current file.
- Legacy.LegacySelect, Legacy.LegacyNegotiate: require min_voltage × min_current < 2^31 (`BaselineFits`). The older driver forms that product in `int`, and C leaves an overflow undefined. The per-offer product always fits (`OfferPowerFits`).
- The older file's current and voltage types are not declared by `stusb4500.h`, the header it includes. They are taken to be 16-bit, as `include/stusb4500.h:16-17` declares `stusb4500_current_t` and `stusb4500_voltage_t`.
- Logging (`STUSB4500_LOG`, `STUSB4500_ENABLE_PRINTF`) has no effect on the result and is left out.
- `stusb4500_set_gpio_state` is left out. It is one presence-gated register write.
- The `gpio_cfg` configuration field (`include/stusb4500.h:66`) is left out, because `apply_config` (`stusb4500_nvm.c:300-347`) does not patch it.
- `nvm_verify` is left out. It is declared at `stusb4500_nvm.h:8`, and `stusb4500_nvm.c` does not define it.
- No validation of `num_valid_pdos` is modelled, because the source has none. It is masked to two bits.
- Pdo.Objects: ignores a trailing partial word. The driver always captures a whole number of PDOs.
- NegotiationFacts.WrittenPdo: the decoded current and voltage are stated only for values on the 10 mA and 50 mV grids. Off-grid values are truncated, as Pdo.CurrentRoundTrip says.
