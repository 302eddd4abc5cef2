# rpi-ffmpeg HEVC decoder core in Dafny

This project models two parts of the HEVC decoder of the Raspberry Pi fork of FFmpeg, and proves properties of the models.

1. **The CABAC arithmetic decoding engine of `libavcodec/arm/cabac.h`.** It has three hand-written ARMv6T2 routines, modelled in the checked bitstream-reader build:
   - `get_cabac_inline_arm`: a context-coded decision, with renormalisation and the refill;
   - `get_cabac_bypass_arm`: an equiprobable bit;
   - `get_cabac_bypass_sign_arm`: a bypass bit applied as a sign.

   The routines are read as exact integer arithmetic on FFmpeg's scaled engine state:
   - `low` holds the offset shifted left by 17, with up to 16 fetched bits and a marker bit below it;
   - `range` is the 9-bit interval width;
   - each context is one byte, `(pStateIdx << 1) | valMPS`;
   - `bytestream` is the cursor and `bytestream_end` the end of the input.

   They are proved to refine the arithmetic decoding process of ITU-T H.265 clause 9.3.4.3, written independently in `CabacStandard`:
   - decision: 9.3.4.3.2;
   - renormalisation: 9.3.4.3.3;
   - bypass: 9.3.4.3.4.

   The link between the two is the correspondence `CabacRefinement.Corresponds`: `low` is the standard's offset followed by the bits still unread by the standard and a marker bit, scaled by the refill position. The ARM table `ff_h264_cabac_tables` and the standard's tables are parameters. They are related by the packing that `CabacRefinement.PackTables` lays out.

2. **The small pure logic of `libavcodec/hevc.h` and `libavcodec/rpi_hevcdec.h`:**
   - NAL unit types and the `IS_IDR`, `IS_BLA` and `IS_IRAP` classes (`HevcNal`);
   - the frame-threading progress wrappers over a two-counter progress record (`ProgressSync`, `HevcProgress`, `RpiProgress`);
   - `set_all_done` (`ProgressBuffer`);
   - the 4:2:0/SAND128-only geometry helpers, the CTB-count bound and the CABAC state block (`RpiGeometry`);
   - the frame flags and the documented contracts of the DPB operations over 32 slots (`Dpb`).

The model follows the code as written where a reader might expect otherwise:
- **Refill past the end of the input.** A read past `bytestream_end` does not yield zero bits (unlike `CabacStandard.Bit` past the data): the checked refill (`LOAD_16BITS_BEHI`, cabac.h:42-46, and cabac.h:84-96) does not load. Its register keeps the value of the `bytestream_end` pointer, and `rev` and `lsr #15` turn that into 17 refill bits. `CabacArm.Refill` models those bits from the pointer value (`Stream.endReg`). The cursor stays put. When bit 23 of the pointer is set, the lowest refill bit is 1, so adding the refill bits minus 0xFFFF does not leave the marker bit at the refill position but carries it upwards; the marker then no longer counts the fetched bits, and later refills come at the wrong shift. `CabacArm.RenormRefill` and `CabacArm.BypassFinish` compute exactly this as-written value.
- **`signal_recon` in the build without `RPI`.** It is an unconditional `ff_thread_report_progress` (hevc.h:1466). Only the `RPI` build gates it on `used_for_ref`. `HevcProgress.SignalRecon` and `HevcProgress.UnreferencedSignalsNothing` state both behaviours.
- **`ff_hevc_progress_set_all_done` in hevc.h.** It does not set the counters (see Findings).

The `HEVC_NAL_*` names that rpi_hevcdec.h:139-142 tests are not defined in hevc.h or rpi_hevcdec.h. Their values are taken from Table 7-1 of ITU-T H.265.

## Model

| member | source | states |
|---|---|---|
| Bits.Clz32 | libavcodec/arm/cabac.h:69-71 | `clz` of a 32-bit value: 32 exactly for 0, otherwise the count `c` with 2^(31-c) <= x < 2^(32-c) |
| Bits.ByteSwapShift15 | libavcodec/arm/cabac.h:94-96 | `rev` then `lsr #15` of a loaded word gives byte 0 shifted by 9, byte 1 shifted by 1, and the top bit of byte 2 |
| CabacArm.RangeQuarterBits | libavcodec/arm/cabac.h:60 | `range & 0xc0` is 64 times the range quarter `(range >> 6) & 3` |
| CabacArm.LpsIndex | libavcodec/arm/cabac.h:59-63 | the LPS sub-range is read at index `state + 128 * ((range >> 6) & 3)` |
| CabacArm.Refill | libavcodec/arm/cabac.h:42-46 | at or before `end`: reads the two bytes at the cursor big-endian as `b0 << 9 | b1 << 1` and advances the cursor by 2; past `end`: the cursor does not move and the lowest bit is the top bit of byte 2 of the end pointer; always below 2^17 |
| CabacArm.LoadedHalfword | libavcodec/arm/cabac.h:88-96 | the little-endian halfword load, `rev` and `lsr #15` give `b0 << 9 | b1 << 1` |
| CabacArm.RenormShift | libavcodec/arm/cabac.h:69-71 | any sub-range in [1, 511] shifted left by `clz(r) - 23` lands in [256, 511]; the shift is 0 exactly when `r >= 256` |
| CabacArm.ComplementLowBit | libavcodec/arm/cabac.h:68-72 | the low bit of the complemented state (`mvnge`) is the complement of the state's low bit |
| CabacArm.Ctz32OfMultiple | libavcodec/arm/cabac.h:86-92 | when the low 16 bits of `low` are zero, the refill shift `ctz(low) - 16` is not negative |
| CabacArm.ShiftedBelow | libavcodec/arm/cabac.h:74 | shifting `low` and the sub-range by the same amount keeps `low` below the scaled range |
| CabacArm.RenormRefill | libavcodec/arm/cabac.h:69-105 | renormalisation leaves the range in [256, 510], leaves a range of 256 or more unchanged, and moves the cursor by 2 only on a refill at or before `end` |
| CabacArm.DecodeDecision | libavcodec/arm/cabac.h:51-126 | the bin is 0 or 1: the state's low bit on the MPS path and its complement on the LPS path; exactly context byte `k` changes, to the transition entry at the state (MPS) or at its complement (LPS); the range ends in [256, 510]; the cursor moves by 0 or 2 |
| CabacArm.DecodeBypass | libavcodec/arm/cabac.h:129-160 | the bit is 1 exactly when the doubled `low` reaches `range << 17`; the range is unchanged; the cursor moves by 0 or 2 |
| CabacArm.BypassFinish | libavcodec/arm/cabac.h:139-145 | the shared bypass tail refills at shift 0 (adding the refill bits minus 0xFFFF) exactly when the low 16 bits of `low` are zero, and otherwise changes nothing |
| CabacArm.DecodeBypassSign | libavcodec/arm/cabac.h:164-194 | leaves the same engine as `get_cabac_bypass_arm`; returns `v` when that routine returns 1 and `-v` (32-bit) when it returns 0 |
| CabacRefinement.Pack | libavcodec/arm/cabac.h:58 | a context byte `(pStateIdx << 1) \| valMPS` is below 128 and unpacks back to its context variable |
| CabacRefinement.PackUnpack | libavcodec/arm/cabac.h:72 | every context byte below 128 is the packing of the context it unpacks to |
| CabacRefinement.PackTables | libavcodec/arm/cabac.h:54 | the packed table built from the standard's tables gives, at the addresses the routine uses, the standard's LPS range and its MPS and LPS transitions |
| CabacRefinement.CorrespondsBounds | libavcodec/arm/cabac.h:66 | an engine that corresponds to a valid standard state is normalised, with `low` strictly between `offset << 17` and `(offset + 1) << 17` |
| CabacRefinement.ScaledLow16 | libavcodec/arm/cabac.h:75-76 | the low 16 bits of a scaled `low` are zero exactly when the marker sits at bit 16 or above (the fetched bits are used up), and its trailing zero count is the marker position |
| CabacRefinement.RenormRefines | libavcodec/arm/cabac.h:69-105 | with the cursor at or before `end`, shift, refill and cursor update correspond to the standard's renormalisation RenormD |
| CabacRefinement.DecisionRefines | libavcodec/arm/cabac.h:51-126 | from corresponding states, with the cursor at or before `end`, the decision returns the standard's bin, stores the packed updated context, and leaves corresponding states |
| CabacBypassRefinement.BypassCarry | libavcodec/arm/cabac.h:134-136 | the unsigned carry of `cmp low, range, lsl #17` is set exactly when the standard's doubled offset reaches the range |
| CabacBypassRefinement.BypassRefines | libavcodec/arm/cabac.h:129-160 | from corresponding states, with the cursor at or before `end`, the bypass returns the standard's bin and leaves corresponding states |
| CabacBypassRefinement.BypassSignRefines | libavcodec/arm/cabac.h:164-194 | from corresponding states, with the cursor at or before `end`, the sign routine returns `v` for the standard's bin 1 and `-v` for bin 0, and leaves corresponding states |
| CabacRun.ArmStep | libavcodec/arm/cabac.h:51-194 | one call of a routine keeps the number of context bytes and leaves the cursor in place or moves it by 2, and by 2 only from a cursor at or before `end` |
| CabacRun.ArmRun | libavcodec/arm/cabac.h:84-88 | over any run of the three routines the cursor never moves back, and a cursor starting at or before `end + 2` never passes `end + 2` |
| CabacRun.StepRefines | libavcodec/arm/cabac.h:51-194 | with the cursor at or before `end`, one call of any of the three routines decodes the standard's bin (or applies it as a sign) and keeps engine and context bytes corresponding |
| CabacRun.RunRefines | libavcodec/arm/cabac.h:51-194 | a whole run of routine calls returns, value for value, what the standard decodes, while the standard stays 16 bits short of `end` |
| HevcNal.NameOfCode | libavcodec/hevc.h:135-161 | looking up the value of any enumerator of `NALUnitType` gives that enumerator back, so no two share a value |
| HevcNal.NamedValues | libavcodec/hevc.h:135-161 | the enumeration names exactly the values 0-9, 16-21 and 32-40 |
| HevcNal.IsIdr | libavcodec/hevc.h:127 | `IS_IDR` holds exactly for the values 19 and 20, and never for a BLA type |
| HevcNal.IsBla | libavcodec/hevc.h:128-129 | `IS_BLA` holds exactly for the values 16, 17 and 18 |
| HevcNal.IsIrap | libavcodec/hevc.h:130 | `IS_IRAP` (16-23) holds exactly for BLA, IDR, CRA and the reserved IRAP types 22 and 23 |
| HevcNal.IrapPartition | libavcodec/hevc.h:127-130 | every IDR and every BLA type is IRAP |
| HevcNal.CraIsIrapOnly | libavcodec/hevc.h:151 | CRA (21) is IRAP but neither IDR nor BLA |
| HevcNal.IrapByName | libavcodec/hevc.h:146-151 | among the named types, IRAP, IDR and BLA are exactly the enumerators of those classes |
| HevcNal.RpiIsIdr | libavcodec/rpi_hevcdec.h:139 | the RPI decoder's `IS_IDR` over the `HEVC_NAL_*` names holds for exactly the types hevc.h's `IS_IDR` does |
| HevcNal.RpiIsBla | libavcodec/rpi_hevcdec.h:140-141 | the RPI decoder's `IS_BLA` holds for exactly the types hevc.h's `IS_BLA` does |
| HevcNal.RpiIsIrap | libavcodec/rpi_hevcdec.h:142 | the RPI decoder's `IS_IRAP` holds for exactly the types hevc.h's `IS_IRAP` does |
| HevcProgress.WaitMv | libavcodec/hevc.h:1414-1421 | waits for row `y` on field 1 through the RPI primitive when `enable_rpi` is set in the RPI build, and otherwise on field 0 through frame threading |
| HevcProgress.SignalMv | libavcodec/hevc.h:1423-1427 | signals row `y` on field 1 exactly when the build is RPI and both `enable_rpi` and `used_for_ref` hold; otherwise it issues nothing, including always in the build without `RPI` |
| HevcProgress.WaitRecon | libavcodec/hevc.h:1429-1436 | waits for row `y` on field 0, through the RPI primitive exactly when `enable_rpi` is set in the RPI build |
| HevcProgress.SignalRecon | libavcodec/hevc.h:1438-1447 | signals row `y` on field 0 exactly when `used_for_ref` holds or the build is not RPI; through the RPI primitive exactly when `enable_rpi` is set in the RPI build |
| HevcProgress.SignalAllDone | libavcodec/hevc.h:1449-1458 | signals INT_MAX on field 0, and then on field 1 exactly when `enable_rpi` is set in the RPI build, whatever `used_for_ref` is; through the RPI primitive exactly when `enable_rpi` is set in the RPI build, otherwise through frame threading |
| HevcProgress.AllDoneReleases | libavcodec/hevc.h:1449-1458 | after `signal_all_done`, every `wait_mv` and `wait_recon` of the same build and configuration passes, for any row an `int` can hold |
| HevcProgress.SignalledRowsRelease | libavcodec/hevc.h:1414-1447 | once a reference picture has signalled row `y`, every later wait for a row up to `y` passes, in both builds and both `enable_rpi` settings |
| HevcProgress.UnreferencedSignalsNothing | libavcodec/hevc.h:1460-1468 | without `used_for_ref` the RPI build leaves waits beyond the counters blocked, while the build without `RPI` still releases `wait_recon` |
| RpiProgress.WaitMv | libavcodec/rpi_hevcdec.h:899-903 | waits for row `y` on field 1 |
| RpiProgress.SignalMv | libavcodec/rpi_hevcdec.h:905-909 | signals row `y` on field 1, and only when `used_for_ref` holds |
| RpiProgress.WaitRecon | libavcodec/rpi_hevcdec.h:911-915 | waits for row `y` on field 0 |
| RpiProgress.SignalRecon | libavcodec/rpi_hevcdec.h:917-923 | signals row `y` on field 0, and only when `used_for_ref` holds |
| RpiProgress.SignalAllDone | libavcodec/rpi_hevcdec.h:925-929 | signals INT_MAX through the RPI primitive on field 0 and then on field 1, whatever `used_for_ref` is |
| RpiProgress.AgreesWithRpiPath | libavcodec/rpi_hevcdec.h:899-929 | with `enable_rpi` set, each hevc.h wrapper issues exactly the calls of its rpi_hevcdec.h counterpart |
| RpiProgress.AllDoneCompletes | libavcodec/rpi_hevcdec.h:925-929 | from counters an `int` can hold, `signal_all_done` leaves both counters at INT_MAX |
| RpiProgress.AllDoneReleases | libavcodec/rpi_hevcdec.h:925-929 | after `signal_all_done`, every wait of the RPI decoder passes |
| ProgressBuffer.SetAllDoneAsWritten | libavcodec/hevc.h:1473-1481 | the version in hevc.h, with a 32-bit `AVBufferRef`: a null reference stays null; otherwise the counters and the `buffer` field keep their values (which stores it does make is stated by `AsWrittenMissesCounters`) |
| ProgressBuffer.SetAllDone | libavcodec/rpi_hevcdec.h:934-942 | a null reference stays null; otherwise both counters become INT_MAX and the buffer reference is untouched (its relation to `signal_all_done` is `SetAllDoneCompletes`) |
| ProgressBuffer.AsWrittenMissesCounters | libavcodec/hevc.h:1473-1481 | as written, `set_all_done` overwrites the buffer reference's `data` and `size` and leaves the counters as they were, so a wait beyond them stays blocked |
| ProgressBuffer.AsWrittenCounterexample | libavcodec/hevc.h:1477 | on a concrete picture at row 0, the version in hevc.h leaves counter 0 at 0 and corrupts `data`, while the corrected version sets counter 0 to INT_MAX |
| ProgressBuffer.SetAllDoneCompletes | libavcodec/rpi_hevcdec.h:934-942 | `set_all_done` leaves the counters exactly where `signal_all_done` would, releases every wait, does not touch the buffer reference, and is idempotent |
| ProgressBuffer.SetAllDoneNull | libavcodec/rpi_hevcdec.h:936 | without a progress buffer nothing changes |
| RpiGeometry.CtxHshift | libavcodec/rpi_hevcdec.h:947-954 | in the 4:2:0-only build the result is 0 for component 0 and 1 for any other component |
| RpiGeometry.CtxVshift | libavcodec/rpi_hevcdec.h:956-963 | in the 4:2:0-only build the result is 0 for component 0 and 1 for any other component |
| RpiGeometry.CtxCfmt | libavcodec/rpi_hevcdec.h:965-972 | 1 in the 4:2:0-only build, otherwise the SPS's `chroma_format_idc` |
| RpiGeometry.FrameStride1 | libavcodec/rpi_hevcdec.h:974-981 | 128 in the SAND128-only build |
| RpiGeometry.ShiftShortcutExact | libavcodec/rpi_hevcdec.h:944-972 | for an SPS with the shifts of H.265 Table 6-1, the 4:2:0-only shortcuts equal the general path for every component exactly when the stream is 4:2:0 |
| RpiGeometry.StrideShortcutExact | libavcodec/rpi_hevcdec.h:974-981 | the SAND128-only shortcut equals the frame's line size exactly when that is 128 |
| RpiGeometry.CtbCountFits | libavcodec/rpi_hevcdec.h:123-130 | any picture up to 2048x1088 with CTBs of side 16 or more has at most `((2048+15)/16)*((1088+15)/16)` = 8704 CTBs, which is below 2^16 |
| RpiGeometry.DecisionKeepsState | libavcodec/rpi_hevcdec.h:687-688 | the ARM decision routine, run on the 199-byte `state` array of `HEVCRpiCabacState` with any context `k < HEVC_CONTEXTS`, keeps the block well sized and changes no other context byte |
| Dpb.FlagsDistinctBits | libavcodec/hevc.h:758-761 | OUTPUT, SHORT_REF, LONG_REF and BUMPING are single bits, pairwise disjoint |
| Dpb.ClearRefs | libavcodec/hevc.h:1269-1272 | afterwards no slot carries SHORT_REF or LONG_REF; POC, sequence, slot number and the other flags are unchanged |
| Dpb.ClearRefsKeeps | libavcodec/hevc.h:1269-1272 | clearing keeps the DPB well formed and every frame's output status, and is idempotent |
| Dpb.FlushDpb | libavcodec/hevc.h:1274-1277 | afterwards every slot is empty (no flags) and keeps its slot number |
| Dpb.FlushEmpties | libavcodec/hevc.h:1274-1277 | after a flush no frame waits for output, none is a reference, and no slot is the next frame to output |
| Dpb.Age | libavcodec/hevc.h:1190-1195 | a frame's distance from `seq_output` modulo 2^16 is 0 exactly for the sequence being output |
| Dpb.OutputFrame | libavcodec/hevc.h:1337-1341 | returns 1 exactly when some frame waits for output, and then the slot of the next frame in output order; otherwise returns 0 |
| Dpb.BeforeStrict | libavcodec/hevc.h:782-786 | output order is irreflexive, asymmetric and transitive |
| Dpb.OlderSequenceFirst | libavcodec/hevc.h:782-786 | a waiting frame of the sequence being output comes before every frame of a later sequence, whatever their POCs |
| Dpb.NextUnique | libavcodec/hevc.h:1337-1341 | when no two waiting frames share sequence and POC, the next frame is unique |

## Left out

- `UNCHECKED_BITSTREAM_READER`: only the checked refill is modelled. The unchecked build reads past the end without a bound check.
- 32-bit registers: `low`, `range` and the cursor are unbounded integers. Every member that runs a routine requires the normalised engine state (`CabacArm.Normalized`). Under it every value computed from `low` and `range` stays below 2^27 (the bypass's doubled `low`), so the signed `cmp`/`movge` of the decision and the unsigned `cmp`/`adc` of the bypass agree with integer comparison. The end-pointer register that the checked refill byte-swaps is a full 32-bit word, modelled as such (`Stream.endReg`).
- The contents of `ff_h264_cabac_tables`: they are parameters (`CabacArm.Tables`, `CabacStandard.StdTables`). The only assumption is the packing relation `CabacRefinement.PacksTables`, under which every LPS range is between 6 and 240.
- CabacBypassRefinement.BypassRefines: requires the cursor at or before `bytestream_end`. Past it the refill bits come from the end pointer and need not match the stream.
- CabacRefinement.DecisionRefines: requires the cursor at or before `bytestream_end`, for the same reason.
- CabacRefinement.RenormRefines: requires the cursor at or before `bytestream_end`, for the same reason: past it the refill bits come from the end pointer.
- CabacBypassRefinement.BypassSignRefines: requires the cursor at or before `bytestream_end`, for the same reason as `BypassRefines`.
- CabacRun.StepRefines: requires the cursor at or before `bytestream_end`; `CabacRun.RunRefines` discharges it for every call of a run through its 16-bit margin.
- CabacRun.RunRefines: requires the standard's final bit position to stay 16 bits short of `bytestream_end`, so the last two bytes before the end are not covered.
- CabacRun.ArmStep and CabacRun.ArmRun: give no result for a call outside `Normalized` or with a context index beyond the context bytes. The routines' 32-bit behaviour there is not modelled.
- The progress primitives: `ff_thread_await_progress`, `ff_thread_report_progress`, `ff_hevc_rpi_progress_wait_field` and `ff_hevc_rpi_progress_signal_field` are not part of this model.
  - A signal raises a counter and never lowers it. A wait passes once its counter has reached the row.
  - Blocking, threads, semaphores and the job (`jb`) argument are left out.
- ProgressBuffer.SetAllDoneAsWritten: models the 32-bit `AVBufferRef` layout (`buffer`, `data`, `size`). On a 64-bit target both stores land in the `data` pointer. The counters are untouched in either layout.
- The DPB operations are defined in libavcodec/hevc_refs.c, which is not part of this model; only the contracts their declarations document are modelled.
- Dpb.OutputFrame: returns the next waiting frame whenever one exists. The `flush` argument, the reorder and bumping conditions under which a waiting frame is held back, and the clearing of the output flag are not modelled.
- Dpb.ClearRefs: releasing a frame whose flags become empty is not modelled.
- Dpb.Age: the advance of `seq_decode`/`seq_output` (in hevc_refs.c) is not modelled. Output order compares the distance from `seq_output` modulo 2^16, the width of the counters.
- The job's `progress_req` array (rpi_hevcdec.h:606): only its size, one entry per DPB slot indexed by `dpb_no`, is modelled (`Dpb.WellFormed`); the requests the job records and waits on are not.
- POC computation, RPS/RPL construction, parameter-set parsing, SEI, DSP and prediction, QPU/VPU command structures and `libavcodec/rpi_shader.h`: not part of this model.

## Findings

| source | as written | input that shows it | evidently intended | confidence | as-written member | corrected member |
|---|---|---|---|---|---|---|
| libavcodec/hevc.h:1477 | `p` is the address of the `data` field of the `AVBufferRef` (`&ref->tf.progress->data`), so the two INT_MAX stores through `p` overwrite its `data` pointer and `size` and leave both progress counters unchanged | a picture with a progress buffer whose counters are 0: after `set_all_done` a wait for row 1 stays blocked, and the buffer reference's `data` pointer is INT_MAX | `(int *)ref->tf.progress->data`, as in `ff_hevc_rpi_progress_set_all_done` (rpi_hevcdec.h:938), so that both counters become INT_MAX | not executed | ProgressBuffer.AsWrittenMissesCounters | ProgressBuffer.SetAllDoneCompletes |
