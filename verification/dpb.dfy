/**
  The decoded picture buffer as libavcodec/hevc.h and
  libavcodec/rpi_hevcdec.h declare it: 32 frame slots, each with a POC, the
  sequence counter of the coded video sequence it belongs to, a byte of
  `HEVC_FRAME_FLAG_*` bits and its own slot number `dpb_no`.

  The operations on it (`ff_hevc_clear_refs`, `ff_hevc_flush_dpb`,
  `ff_hevc_output_frame`) are defined in libavcodec/hevc_refs.c, which is not
  part of this model; they are modelled by the contracts their declarations
  document.
 */
module Dpb {
  /** `HEVC_DPB_ELS`: the number of slots. */
  const HEVC_DPB_ELS: nat := 32

  /** The frame flags. */
  const FLAG_OUTPUT: bv8 := 1
  const FLAG_SHORT_REF: bv8 := 2
  const FLAG_LONG_REF: bv8 := 4
  const FLAG_BUMPING: bv8 := 8

  /** Both reference flags. */
  const REF_FLAGS: bv8 := FLAG_SHORT_REF | FLAG_LONG_REF

  /** A `uint16_t` counter. */
  const SEQ_MOD: nat := 0x1_0000

  /** A slot of the DPB. */
  datatype Frame = Frame(poc: int, sequence: nat, flags: bv8, dpbNo: nat)

  /** Exactly one bit set. */
  predicate SingleBit(f: bv8) {
    f != 0 && f & (f - 1) == 0
  }

  /** The four flags are single bits, no two of them overlap, and together they leave the top four bits free. */
  lemma FlagsDistinctBits()
    ensures SingleBit(FLAG_OUTPUT) && SingleBit(FLAG_SHORT_REF) && SingleBit(FLAG_LONG_REF) && SingleBit(FLAG_BUMPING)
    ensures FLAG_OUTPUT & FLAG_SHORT_REF == 0 && FLAG_OUTPUT & FLAG_LONG_REF == 0 && FLAG_OUTPUT & FLAG_BUMPING == 0
    ensures FLAG_SHORT_REF & FLAG_LONG_REF == 0 && FLAG_SHORT_REF & FLAG_BUMPING == 0 && FLAG_LONG_REF & FLAG_BUMPING == 0
    ensures FLAG_OUTPUT | FLAG_SHORT_REF | FLAG_LONG_REF | FLAG_BUMPING == 0x0F
  {
  }

  /**
    A DPB as the decoder holds it: 32 slots, slot `i` numbered `i` (the
    index into the context's `progress` and a job's `progress_req`, both of
    `HEVC_DPB_ELS` entries), `uint16_t` sequence counters.
   */
  predicate WellFormed(d: seq<Frame>) {
    |d| == HEVC_DPB_ELS &&
    forall i :: 0 <= i < |d| ==> d[i].dpbNo == i && d[i].sequence < SEQ_MOD
  }

  /** A slot holds a frame waiting to be output. */
  predicate Waiting(f: Frame) {
    f.flags & FLAG_OUTPUT != 0
  }

  /** A slot holds a reference picture. */
  predicate IsRef(f: Frame) {
    f.flags & REF_FLAGS != 0
  }

  /** `ff_hevc_clear_refs`: every frame in the DPB marked unused for reference. */
  function ClearRefs(d: seq<Frame>): (r: seq<Frame>)
    ensures |r| == |d|
    ensures forall i :: 0 <= i < |r| ==> !IsRef(r[i])
    ensures forall i :: 0 <= i < |r| ==>
      r[i].poc == d[i].poc && r[i].sequence == d[i].sequence && r[i].dpbNo == d[i].dpbNo &&
      r[i].flags & !REF_FLAGS == d[i].flags & !REF_FLAGS
  {
    seq(|d|, i requires 0 <= i < |d| => d[i].(flags := d[i].flags & !REF_FLAGS))
  }

  /** Clearing the references keeps the DPB well formed and waiting frames waiting, and a second clear changes nothing. */
  lemma ClearRefsKeeps(d: seq<Frame>)
    requires WellFormed(d)
    ensures WellFormed(ClearRefs(d))
    ensures forall i :: 0 <= i < |d| ==> (Waiting(ClearRefs(d)[i]) <==> Waiting(d[i]))
    ensures ClearRefs(ClearRefs(d)) == ClearRefs(d)
  {
    var r := ClearRefs(d);
    forall i | 0 <= i < |d|
      ensures Waiting(r[i]) <==> Waiting(d[i])
    {
      FlagOutsideRefs(d[i].flags);
    }
  }

  /** The output flag survives masking off the reference flags. */
  lemma FlagOutsideRefs(f: bv8)
    ensures (f & !REF_FLAGS) & FLAG_OUTPUT == f & FLAG_OUTPUT
  {
  }

  /** `ff_hevc_flush_dpb`: every frame dropped, every slot keeps its number. */
  function FlushDpb(d: seq<Frame>): (r: seq<Frame>)
    ensures |r| == |d|
    ensures forall i :: 0 <= i < |r| ==> r[i].flags == 0 && r[i].dpbNo == d[i].dpbNo
  {
    seq(|d|, i requires 0 <= i < |d| => d[i].(flags := 0))
  }

  /** After a flush nothing waits for output, nothing is a reference, and so no frame is next to be output. */
  lemma FlushEmpties(d: seq<Frame>, seqOutput: nat)
    requires WellFormed(d)
    ensures WellFormed(FlushDpb(d))
    ensures forall i :: 0 <= i < |d| ==> !Waiting(FlushDpb(d)[i]) && !IsRef(FlushDpb(d)[i])
    ensures forall i :: !IsNext(FlushDpb(d), seqOutput, i)
  {
  }

  /**
    How many coded video sequences a frame is behind the sequence being
    output (`seq_output`): 0 for that sequence itself, counting forward with
    the wrap-around of the `uint16_t` counters.
   */
  function Age(f: Frame, seqOutput: nat): (a: nat)
    ensures a < SEQ_MOD
    ensures f.sequence < SEQ_MOD && seqOutput < SEQ_MOD ==> (a == 0 <==> f.sequence == seqOutput)
  {
    (f.sequence - seqOutput) % SEQ_MOD
  }

  /** Output order: an older coded video sequence first, then increasing POC. */
  predicate Before(f: Frame, g: Frame, seqOutput: nat) {
    Age(f, seqOutput) < Age(g, seqOutput) ||
    (Age(f, seqOutput) == Age(g, seqOutput) && f.poc < g.poc)
  }

  /** Slot `i` holds the next frame in output order among those waiting. */
  predicate IsNext(d: seq<Frame>, seqOutput: nat, i: int) {
    0 <= i < |d| && Waiting(d[i]) &&
    forall j :: 0 <= j < |d| && Waiting(d[j]) ==> !Before(d[j], d[i], seqOutput)
  }

  /**
    `ff_hevc_output_frame`: find the next frame in output order; return 1
    and its slot if a frame is output, 0 (and no slot) otherwise.
   */
  method OutputFrame(d: seq<Frame>, seqOutput: nat) returns (ret: int, slot: int)
    ensures ret == 0 || ret == 1
    ensures ret == 1 <==> exists i :: 0 <= i < |d| && Waiting(d[i])
    ensures ret == 1 ==> IsNext(d, seqOutput, slot)
    ensures ret == 0 ==> slot == -1
  {
    slot := -1;
    var i := 0;
    while i < |d|
      invariant 0 <= i <= |d|
      invariant slot == -1 <==> forall j :: 0 <= j < i ==> !Waiting(d[j])
      invariant slot != -1 ==> 0 <= slot < i && Waiting(d[slot])
      invariant slot != -1 ==> forall j :: 0 <= j < i && Waiting(d[j]) ==> !Before(d[j], d[slot], seqOutput)
    {
      if Waiting(d[i]) && (slot == -1 || Before(d[i], d[slot], seqOutput)) {
        slot := i;
      }
      i := i + 1;
    }
    ret := if slot == -1 then 0 else 1;
  }

  /** Output order is a strict order: irreflexive and transitive. */
  lemma BeforeStrict(f: Frame, g: Frame, h: Frame, so: nat)
    ensures !Before(f, f, so)
    ensures Before(f, g, so) && Before(g, h, so) ==> Before(f, h, so)
    ensures Before(f, g, so) ==> !Before(g, f, so)
  {
  }

  /**
    After a POC reset, a waiting frame of the sequence being output comes
    before every waiting frame of a later sequence, whatever their POCs: no
    frame of a later sequence is next while one of the current sequence
    waits.
   */
  lemma OlderSequenceFirst(d: seq<Frame>, seqOutput: nat, i: int, j: int)
    requires WellFormed(d) && seqOutput < SEQ_MOD
    requires 0 <= i < |d| && 0 <= j < |d| && Waiting(d[i]) && Waiting(d[j])
    requires d[i].sequence == seqOutput && d[j].sequence != seqOutput
    ensures Before(d[i], d[j], seqOutput)
    ensures !IsNext(d, seqOutput, j)
  {
  }

  /** When no two waiting frames share both sequence and POC, the next frame is unique. */
  lemma NextUnique(d: seq<Frame>, seqOutput: nat, i: int, j: int)
    requires WellFormed(d) && seqOutput < SEQ_MOD
    requires forall a, b :: 0 <= a < |d| && 0 <= b < |d| && a != b && Waiting(d[a]) && Waiting(d[b]) ==>
      d[a].sequence != d[b].sequence || d[a].poc != d[b].poc
    requires IsNext(d, seqOutput, i) && IsNext(d, seqOutput, j)
    ensures i == j
  {
    if i != j {
      var fi, fj := d[i], d[j];
      assert !Before(fi, fj, seqOutput) && !Before(fj, fi, seqOutput);
      assert Age(fi, seqOutput) == Age(fj, seqOutput) && fi.poc == fj.poc;
      SameAgeSameSequence(fi.sequence, fj.sequence, seqOutput);
    }
  }

  /** Two `uint16_t` sequences at the same distance from `seq_output` are the same sequence. */
  lemma SameAgeSameSequence(s: nat, t: nat, so: nat)
    requires s < SEQ_MOD && t < SEQ_MOD && so < SEQ_MOD
    requires (s - so) % SEQ_MOD == (t - so) % SEQ_MOD
    ensures s == t
  {
  }
}
