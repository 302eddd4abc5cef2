/**
  The picture-geometry helpers of libavcodec/rpi_hevcdec.h and the sizes the
  RPI decoder builds its tables on.

  The decoder is compiled 4:2:0-only and SAND128-only
  (`HEVC_RPI_420_ONLY`, `HEVC_RPI_SAND128_ONLY`); each helper then returns a
  constant instead of reading the sequence parameter set or the frame. The
  model keeps both branches, selected by a build configuration, and proves
  the shortcut equal to the general path exactly on the streams and frames
  that configuration admits.
 */
module RpiGeometry {
  import opened Bits
  import CabacArm

  /** The two compile-time switches. */
  datatype BuildConfig = BuildConfig(only420: bool, sand128Only: bool)

  /** The configuration the header ships with. */
  const Shipped: BuildConfig := BuildConfig(true, true)

  /** The parameter-set fields the helpers read outside the 4:2:0-only build. */
  datatype Sps = Sps(chromaFormatIdc: int, hshift: seq<nat>, vshift: seq<nat>)

  /** The frame field `frame_stride1` reads outside the SAND128-only build. */
  datatype Frame = Frame(linesize: seq<int>)

  /**
    A parameter set whose shifts are those of ITU-T H.265 Table 6-1: for
    components 1 and 2, log2 of SubWidthC and SubHeightC; 0 for the luma
    component and for monochrome and 4:4:4.
   */
  predicate DerivedShifts(sps: Sps) {
    0 <= sps.chromaFormatIdc <= 3 && |sps.hshift| == 3 && |sps.vshift| == 3 &&
    sps.hshift[0] == 0 && sps.vshift[0] == 0 &&
    forall c :: 1 <= c < 3 ==>
      sps.hshift[c] == (if sps.chromaFormatIdc == 1 || sps.chromaFormatIdc == 2 then 1 else 0) &&
      sps.vshift[c] == (if sps.chromaFormatIdc == 1 then 1 else 0)
  }

  /** `ctx_hshift`: log2 of the horizontal subsampling of component `cidx`. */
  function CtxHshift(b: BuildConfig, sps: Sps, cidx: nat): (r: nat)
    requires cidx < 3 && (!b.only420 ==> |sps.hshift| == 3)
    ensures b.only420 ==> r <= 1 && (r == 0 <==> cidx == 0)
  {
    if b.only420 then (if cidx == 0 then 0 else 1) else sps.hshift[cidx]
  }

  /** `ctx_vshift`: log2 of the vertical subsampling of component `cidx`. */
  function CtxVshift(b: BuildConfig, sps: Sps, cidx: nat): (r: nat)
    requires cidx < 3 && (!b.only420 ==> |sps.vshift| == 3)
    ensures b.only420 ==> r <= 1 && (r == 0 <==> cidx == 0)
  {
    if b.only420 then (if cidx == 0 then 0 else 1) else sps.vshift[cidx]
  }

  /** `ctx_cfmt`: the chroma format, 1 being 4:2:0. */
  function CtxCfmt(b: BuildConfig, sps: Sps): (r: int)
    ensures b.only420 ==> r == 1
    ensures !b.only420 ==> r == sps.chromaFormatIdc
  {
    if b.only420 then 1 else sps.chromaFormatIdc
  }

  /** `frame_stride1`: the byte width of one column of a SAND frame plane. */
  function FrameStride1(b: BuildConfig, f: Frame, cidx: nat): (r: int)
    requires cidx < 3 && (!b.sand128Only ==> |f.linesize| > cidx)
    ensures b.sand128Only ==> r == 128
  {
    if b.sand128Only then 128 else f.linesize[cidx]
  }

  /**
    The 4:2:0-only shortcuts give what the general path reads from a
    parameter set with the shifts of Table 6-1 for every component exactly
    when the stream is 4:2:0.
   */
  lemma ShiftShortcutExact(sps: Sps)
    requires DerivedShifts(sps)
    ensures (forall c :: 0 <= c < 3 ==>
              CtxHshift(Shipped, sps, c) == CtxHshift(BuildConfig(false, true), sps, c) &&
              CtxVshift(Shipped, sps, c) == CtxVshift(BuildConfig(false, true), sps, c))
            <==> sps.chromaFormatIdc == 1
    ensures CtxCfmt(Shipped, sps) == CtxCfmt(BuildConfig(false, true), sps) <==> sps.chromaFormatIdc == 1
  {
    if sps.chromaFormatIdc != 1 {
      assert CtxVshift(Shipped, sps, 1) != CtxVshift(BuildConfig(false, true), sps, 1);
    }
  }

  /** The SAND128-only shortcut gives what the general path reads exactly when the plane's line size is 128. */
  lemma StrideShortcutExact(f: Frame, cidx: nat)
    requires cidx < |f.linesize| && cidx < 3
    ensures FrameStride1(Shipped, f, cidx) == FrameStride1(BuildConfig(true, false), f, cidx) <==> f.linesize[cidx] == 128
  {
  }

  /** `HEVC_RPI_MAX_WIDTH` and `HEVC_RPI_MAX_HEIGHT`. */
  const MAX_WIDTH: nat := 2048
  const MAX_HEIGHT: nat := 1088

  /** `n / d` rounded up, as the C expression `(n + d - 1) / d` computes it. */
  function CeilDiv(n: nat, d: nat): nat
    requires d > 0
  {
    (n + d - 1) / d
  }

  /** The number of CTBs of side `ctb` that cover a `w` by `h` picture. */
  function CtbCount(w: nat, h: nat, ctb: nat): nat
    requires ctb > 0
  {
    var x := CeilDiv(w, ctb);
    var y := CeilDiv(h, ctb);
    CabacArm.MulMonotone(0, x, y);
    x * y
  }

  /** A multiple of `d` no greater than `n` is at most the quotient's multiple. */
  lemma DivLowerBound(n: nat, d: nat, q: nat)
    requires d > 0 && q * d <= n
    ensures q <= n / d
  {
    var p := n / d;
    assert p * d + n % d == n;
    if q > p {
      assert (p + 1) * d == p * d + d;
      CabacArm.MulMonotone(p + 1, q, d);
    }
  }

  /** Rounding up a quotient is monotone in the dividend. */
  lemma CeilDivGrows(a: nat, b: nat, d: nat)
    requires a <= b && d > 0
    ensures CeilDiv(a, d) <= CeilDiv(b, d)
  {
    var q := CeilDiv(a, d);
    assert q * d + (a + d - 1) % d == a + d - 1;
    DivLowerBound(b + d - 1, d, q);
  }

  /** Rounding up a quotient is antitone in the divisor. */
  lemma CeilDivShrinks(a: nat, d: nat, e: nat)
    requires 0 < e <= d
    ensures CeilDiv(a, d) <= CeilDiv(a, e)
  {
    var q := CeilDiv(a, d);
    assert q * d + (a + d - 1) % d == a + d - 1;
    if q > 0 {
      CabacArm.MulMonotone(e, d, q);
      assert q * e == q * d - q * (d - e);
      CabacArm.MulMonotone(1, q, d - e);
    }
    DivLowerBound(a + e - 1, e, q);
  }

  /**
    The compile-time check of rpi_hevcdec.h: any picture up to 2048 by 1088
    with CTBs of at least 16 (the smallest size the standard allows) has at
    most 8704 CTBs, so every CTB address fits the `uint16_t` translation
    entries.
   */
  lemma CtbCountFits(w: nat, h: nat, ctb: nat)
    requires w <= MAX_WIDTH && h <= MAX_HEIGHT && ctb >= 16
    ensures CtbCount(w, h, ctb) <= CtbCount(MAX_WIDTH, MAX_HEIGHT, 16) == 8704
    ensures CtbCount(w, h, ctb) < Pow2(16)
  {
    CeilDivShrinks(w, ctb, 16);
    CeilDivGrows(w, MAX_WIDTH, 16);
    CeilDivShrinks(h, ctb, 16);
    CeilDivGrows(h, MAX_HEIGHT, 16);
    var x := CeilDiv(w, ctb);
    var y := CeilDiv(h, ctb);
    CabacArm.MulMonotone(x, 128, y);
    CabacArm.MulMonotone(y, 68, 128);
    Pow2Of16();
  }

  /** `HEVC_CONTEXTS`: the number of context variables of the CABAC engine. */
  const HEVC_CONTEXTS: nat := 199

  /** `HEVCRpiCabacState`: four Rice parameters and one packed byte per context. */
  datatype CabacState = CabacState(rice: seq<byte>, state: seq<byte>)

  /** The array sizes of the struct. */
  predicate WellSized(s: CabacState) {
    |s.rice| == 4 && |s.state| == HEVC_CONTEXTS
  }

  /**
    Decoding a decision with the context of any index below `HEVC_CONTEXTS`
    keeps the state block well sized, rewrites that one context byte and
    leaves the Rice parameters and every other context as they were.
   */
  lemma DecisionKeepsState(t: CabacArm.Tables, st: CabacArm.Stream, e: CabacArm.Engine, s: CabacState, k: nat)
    requires CabacArm.ValidStream(st) && CabacArm.Normalized(e) && WellSized(s) && k < HEVC_CONTEXTS
    ensures var r := CabacArm.DecodeDecision(t, st, e, s.state, k);
      var s' := CabacState(s.rice, r.ctx);
      WellSized(s') && forall j :: 0 <= j < HEVC_CONTEXTS && j != k ==> s'.state[j] == s.state[j]
  {
  }
}
