/**
  The CABAC arithmetic decoding engine of libavcodec/arm/cabac.h: the three
  hand-written ARMv6T2 routines `get_cabac_inline_arm` (a context-coded
  decision), `get_cabac_bypass_arm` (an equiprobable bit) and
  `get_cabac_bypass_sign_arm` (a sign applied to a value), in the checked
  bitstream-reader build.

  The routines work on FFmpeg's scaled fixed-point engine state:
  - `low` holds the arithmetic-decoder offset shifted left by 17
    (CABAC_BITS + 1) together with up to 16 bits already fetched from the
    stream and a single marker bit below them; when the low 16 bits of `low`
    become zero, the fetched bits are used up and two more bytes are loaded;
  - `range` is the 9-bit interval width;
  - a context is one byte `(pStateIdx << 1) | valMPS`.

  Registers are 32 bits wide; the model uses unbounded integers and requires
  the normalised engine state every caller maintains. Under it every value
  the routines compute from `low` and `range` stays below 2^27 (the largest
  is the doubled `low` of the bypass), so the signed and unsigned 32-bit
  comparisons agree with integer comparison. The end-pointer register the
  checked refill works on is a full 32-bit word (`Stream.endReg`).
 */
module CabacArm {
  import opened Bits

  /** CABAC_MASK: the 16 refill bits, all ones. */
  const CABAC_MASK: nat := 0xFFFF
  /** 1 << (CABAC_BITS + 1): the scale of the offset within `low`. */
  const SCALE: nat := 0x2_0000

  /**
    ff_h264_cabac_tables as the decision routine addresses it: `lpsRange(i)` is
    the byte at H264_LPS_RANGE_OFFSET + i, and `mlpsState(i)` is the byte at
    H264_MLPS_STATE_OFFSET + 128 + i, so that `i` is the state byte for the
    MPS transition and its bitwise complement (a negative index) for the LPS
    transition. The table contents are not part of this model.
   */
  datatype Tables = Tables(lpsRange: int -> byte, mlpsState: int -> byte)

  /**
    The byte stream of a CABACContext. `data` holds the bytes from the start
    of the slice data on, including the padding after `bytestream_end`;
    `end` is the index of `bytestream_end`; `endReg` is the numeric value of
    the `bytestream_end` pointer, which the checked refill leaves in its data
    register when the cursor has passed `end`.
   */
  datatype Stream = Stream(data: seq<byte>, end: nat, endReg: nat)

  /** The engine registers: `low`, `range` and the byte cursor `bytestream`, as an index into the data. */
  datatype Engine = Engine(low: int, range: int, pos: nat)

  datatype DecisionResult = DecisionResult(bit: int, engine: Engine, ctx: seq<byte>)
  datatype BypassResult = BypassResult(bit: int, engine: Engine)
  datatype SignResult = SignResult(value: int, engine: Engine)
  datatype RefillWord = RefillWord(bits: nat, pos: nat)

  /** The input buffer carries at least two readable bytes at `end`, and the end pointer is a 32-bit value. */
  predicate ValidStream(st: Stream) {
    st.end + 2 <= |st.data| && st.endReg < WORD
  }

  /** The state every caller hands the routines: a renormalised range and an offset inside it. */
  predicate Normalized(e: Engine) {
    256 <= e.range <= 510 && 0 <= e.low < e.range * SCALE
  }

  /** `and tmp2, bit, #0xc0` on a 9-bit range. */
  function RangeQuarterBits(range: nat): (m: nat)
    requires range < 0x200
    ensures m == 0x40 * ((range / 0x40) % 4)
  {
    AndC0(range);
    And(range, 0xC0)
  }

  /**
    The LPS-range table index the decision routine loads from: the state byte
    plus the masked range bits shifted left by one (`ldrb tmp2, [tmp1, tmp2, lsl #1]`),
    which is the state plus 128 times bits 6..7 of the range.
   */
  function LpsIndex(state: byte, range: nat): (i: int)
    requires range < 0x200
    ensures i == state + 128 * ((range / 64) % 4)
  {
    state + 2 * RangeQuarterBits(range)
  }

  /** The LPS sub-range for context byte `state`. */
  function LpsRange(t: Tables, e: Engine, state: byte): byte
    requires Normalized(e)
  {
    t.lpsRange(LpsIndex(state, e.range))
  }

  /** The MPS sub-range, `range - lps`. */
  function MpsRange(t: Tables, e: Engine, state: byte): int
    requires Normalized(e)
  {
    e.range - LpsRange(t, e, state)
  }

  /** The decision takes the LPS path when `low` reaches the scaled MPS sub-range (the signed `cmp`/`movge`). */
  predicate TakesLps(t: Tables, e: Engine, state: byte)
    requires Normalized(e)
  {
    e.low >= MpsRange(t, e, state) * SCALE
  }

  /**
    The refill of the checked build (LOAD_16BITS_BEHI, and the load inside the
    decision routine): `ldrcsh` fetches the little-endian halfword at the
    cursor and advances the cursor by two only while the cursor is at or before
    `end`; past it the register keeps the end pointer. `rev` and `lsr #15`
    then form the refill value.
   */
  function Refill(st: Stream, pos: nat): (w: RefillWord)
    requires ValidStream(st)
    ensures w.bits < 0x2_0000
    ensures pos <= st.end ==> w.pos == pos + 2 && w.bits == (st.data[pos] as int) * 0x200 + (st.data[pos + 1] as int) * 2
    ensures st.end < pos ==> w.pos == pos
    ensures st.end < pos ==> w.bits % 2 == ((st.endReg / 0x1_0000) % 0x100) / 0x80
  {
    if pos <= st.end then
      var reg := (st.data[pos] as int) + 0x100 * (st.data[pos + 1] as int);
      LoadedHalfword(st.data[pos], st.data[pos + 1]);
      RefillWord(ByteSwap32(reg) / 0x8000, pos + 2)
    else
      ByteSwapShift15(st.endReg);
      LowBit(ByteSwap32(st.endReg) / 0x8000, (st.endReg % 0x100) * 0x100 + (st.endReg / 0x100) % 0x100,
        ((st.endReg / 0x1_0000) % 0x100) / 0x80);
      RefillWord(ByteSwap32(st.endReg) / 0x8000, pos)
  }

  /** The low bit of `2 * hi + c`, for a bit `c`, is `c`. */
  lemma LowBit(v: int, hi: int, c: int)
    requires v == 2 * hi + c && 0 <= c <= 1
    ensures v % 2 == c
  {
  }

  /** A halfword loaded little-endian, byte-reversed and shifted right by 15 is the two bytes big-endian, shifted left by one. */
  lemma LoadedHalfword(b0: byte, b1: byte)
    ensures ByteSwap32((b0 as int) + 0x100 * (b1 as int)) / 0x8000 == (b0 as int) * 0x200 + (b1 as int) * 2
  {
    var reg := (b0 as int) + 0x100 * (b1 as int);
    assert reg % 0x100 == b0;
    assert (reg / 0x100) % 0x100 == b1;
    assert (reg / 0x1_0000) % 0x100 == 0;
    assert reg / 0x100_0000 == 0;
    assert ByteSwap32(reg) == ((b0 as int) * 0x200 + (b1 as int) * 2) * 0x8000;
  }

  /**
    Renormalisation: `clz(r) - 23` is the shift that brings any range in
    [1, 511] into [256, 511]; a range already in [256, 511] is not shifted.
   */
  lemma RenormShift(r: nat)
    requires 1 <= r <= 511
    ensures 23 <= Clz32(r) <= 31
    ensures 256 <= Shl(r, Clz32(r) - 23) <= 511
    ensures r >= 256 <==> Clz32(r) == 23
  {
    var c := Clz32(r);
    Pow2Of8();
    if c < 23 {
      Pow2Monotone(9, 31 - c);
    }
    Pow2Split(8, 31 - c, c - 23);
    Pow2Split(9, 32 - c, c - 23);
    ShiftBounds(r, Pow2(31 - c), Pow2(32 - c), Pow2(c - 23));
    ShlIsMul(r, c - 23);
    if c > 23 {
      Pow2Monotone(32 - c, 8);
    }
  }

  /** A value in [lo, hi) scaled by `p` with `lo * p = 256` and `hi * p = 512` lies in [256, 511]. */
  lemma ShiftBounds(r: int, lo: int, hi: int, p: int)
    requires lo <= r < hi && p >= 1 && lo * p == 256 && hi * p == 512
    ensures 256 <= r * p <= 511
  {
    MulMonotone(lo, r, p);
    MulStrict(r, hi, p);
  }

  lemma MulMonotone(a: int, b: int, c: int)
    requires a <= b && c >= 0
    ensures a * c <= b * c
  {
  }

  lemma MulStrict(a: int, b: int, c: int)
    requires a < b && c > 0
    ensures a * c < b * c
  {
  }

  /** Shifting `0 <= low < r * 2^17` left by `s` keeps it below the shifted range times 2^17. */
  lemma ShiftedBelow(low: int, r: int, s: nat)
    requires 0 <= low < r * SCALE
    ensures 0 <= Shl(low, s) < Shl(r, s) * SCALE
  {
    ShlIsMul(low, s);
    ShlIsMul(r, s);
    MulMonotone(0, low, Pow2(s));
    MulStrict(low, r * SCALE, Pow2(s));
    MulAssoc(r, SCALE, Pow2(s));
  }

  /** `and bit, ptr, #1` after `mvn`: the low bit of a complemented byte is the complement of its low bit. */
  lemma ComplementLowBit(state: byte)
    ensures (-(state as int) - 1) % 2 == 1 - state % 2
  {
    var h := state / 2;
    if state % 2 == 0 {
      assert -(state as int) - 1 == 2 * (-h - 1) + 1;
    } else {
      assert -(state as int) - 1 == 2 * (-h - 1);
    }
  }

  /** A 32-bit multiple of 2^16 has at least 16 trailing zeros. */
  lemma Ctz32OfMultiple(x: nat)
    requires x < WORD && x % 0x1_0000 == 0
    ensures Ctz32(x) >= 16
  {
    if x > 0 {
      var z := TrailingZeros(x);
      var odd := x / Pow2(z);
      DivExact(x, Pow2(z));
      if z < 16 {
        OddShiftLow16(odd, z);
      }
    }
  }

  /**
    The tail of `get_cabac_inline_arm`: the sub-range `r` and `low` are
    shifted left by `clz(r) - 23`, which brings the range into [256, 510];
    when that leaves the low 16 bits of `low` zero, two bytes are fetched and
    added in at the marker bit, `ctz(low) - 16` bits up. The cursor advances
    by two bytes only on a refill at or before `end`.
   */
  function RenormRefill(st: Stream, low: int, r: int, pos: nat): (e: Engine)
    requires ValidStream(st) && 1 <= r <= 510 && 0 <= low < r * SCALE
    ensures 256 <= e.range <= 510
    ensures r >= 256 ==> e.range == r
    ensures e.pos == pos || (pos <= st.end && e.pos == pos + 2)
  {
    RenormShift(r);
    var shift := Clz32(r) - 23;
    var low2 := Shl(low, shift);
    var range2 := Shl(r, shift);
    assert range2 <= 510 by {
      if shift >= 1 {
        assert range2 == 2 * Shl(r, shift - 1);
      }
    }
    ShiftedBelow(low, r, shift);
    if low2 % 0x1_0000 != 0 then
      Engine(low2, range2, pos)
    else
      var w := Refill(st, pos);
      assert low2 < WORD;
      Ctz32OfMultiple(low2);
      var z := Ctz32(low2) - 16;
      Engine(low2 + Shl(w.bits - CABAC_MASK, z), range2, w.pos)
  }

  /**
    `get_cabac_inline_arm`: decodes one context-coded bin with context byte
    `ctx[k]`. The LPS sub-range is read at `state + 128 * ((range >> 6) & 3)`;
    on the MPS path the bin is the state's low bit, on the LPS path its
    complement, `low` is reduced by the scaled MPS sub-range and the range
    becomes the LPS sub-range. The context byte is replaced by the transition
    table entry at the state (MPS) or at its complement (LPS); no other context
    byte changes. The range is renormalised into [256, 510] and the cursor
    advances by two bytes only on a refill at or before `end`.
   */
  function DecodeDecision(t: Tables, st: Stream, e: Engine, ctx: seq<byte>, k: nat): (r: DecisionResult)
    requires ValidStream(st) && Normalized(e) && k < |ctx|
    ensures r.bit == 0 || r.bit == 1
    ensures r.bit == (if TakesLps(t, e, ctx[k]) then 1 - ctx[k] % 2 else ctx[k] % 2)
    ensures r.ctx == ctx[k := t.mlpsState(if TakesLps(t, e, ctx[k]) then -(ctx[k] as int) - 1 else ctx[k] as int)]
    ensures |r.ctx| == |ctx| && forall j :: 0 <= j < |ctx| && j != k ==> r.ctx[j] == ctx[j]
    ensures 256 <= r.engine.range <= 510
    ensures r.engine.pos == e.pos || (e.pos <= st.end && r.engine.pos == e.pos + 2)
  {
    var state := ctx[k];
    var lps := LpsRange(t, e, state);
    var mps := e.range - lps;
    var lpsPath := e.low >= mps * SCALE;
    var sym: int := if lpsPath then -(state as int) - 1 else state;
    var r := if lpsPath then lps else mps;
    var low1 := if lpsPath then e.low - mps * SCALE else e.low;
    assert 1 <= r <= 510 && 0 <= low1 < r * SCALE;
    ComplementLowBit(state);
    DecisionResult(sym % 2, RenormRefill(st, low1, r, e.pos), ctx[k := t.mlpsState(sym)])
  }

  /**
    `get_cabac_bypass_arm`: decodes one equiprobable bin. `low` is doubled; the
    bin is 1 exactly when the doubled `low` reaches `range << 17` (the unsigned
    carry of `cmp`/`adc`), and then `range << 17` is subtracted. A refill at
    shift 0 follows when the low 16 bits of `low` are zero. The range is left
    unchanged and no context byte is involved.
   */
  function DecodeBypass(st: Stream, e: Engine): (r: BypassResult)
    requires ValidStream(st) && Normalized(e)
    ensures r.bit == (if 2 * e.low >= e.range * SCALE then 1 else 0)
    ensures r.engine.range == e.range
    ensures r.engine.pos == e.pos || (e.pos <= st.end && r.engine.pos == e.pos + 2)
  {
    var low1 := 2 * e.low;
    var carry := low1 >= e.range * SCALE;
    var low2 := if carry then low1 - e.range * SCALE else low1;
    BypassResult(if carry then 1 else 0, BypassFinish(st, low2, e.range, e.pos))
  }

  /**
    The tail both bypass routines share: `lsls tmp, low, #16` tests the low
    16 bits of `low`; when they are zero, the two bytes at the cursor are
    added in at shift 0 (`add low, low, tmp, lsr #15` and `sub low, low,
    #0xFFFF`).
   */
  function BypassFinish(st: Stream, low2: int, range: int, pos: nat): (e: Engine)
    requires ValidStream(st)
    ensures e.range == range
    ensures low2 % 0x1_0000 != 0 ==> e.low == low2 && e.pos == pos
    ensures low2 % 0x1_0000 == 0 ==> e.low == low2 + Refill(st, pos).bits - CABAC_MASK && e.pos == Refill(st, pos).pos
  {
    if low2 % 0x1_0000 != 0 then Engine(low2, range, pos)
    else
      var w := Refill(st, pos);
      Engine(low2 + w.bits - CABAC_MASK, range, w.pos)
  }

  /** The 32-bit `rsb rv, rv, #0`: negation that wraps INT_MIN onto itself. */
  function Neg32(v: int): (n: int)
    requires -0x8000_0000 <= v < 0x8000_0000
    ensures -0x8000_0000 <= n < 0x8000_0000
    ensures v != -0x8000_0000 ==> n + v == 0
  {
    if v == -0x8000_0000 then v else -v
  }

  /**
    `get_cabac_bypass_sign_arm`: the bypass decode applied to a sign. It moves
    `low` and the cursor exactly as `get_cabac_bypass_arm` does and returns
    `v` when that routine would return 1 and `-v` when it would return 0.
   */
  function DecodeBypassSign(st: Stream, e: Engine, v: int): (r: SignResult)
    requires ValidStream(st) && Normalized(e)
    requires -0x8000_0000 <= v < 0x8000_0000
    ensures r.engine == DecodeBypass(st, e).engine
    ensures r.value == (if DecodeBypass(st, e).bit == 1 then v else Neg32(v))
  {
    var low1 := 2 * e.low;
    var carry := low1 >= e.range * SCALE;
    var low2 := if carry then low1 - e.range * SCALE else low1;
    SignResult(if carry then v else Neg32(v), BypassFinish(st, low2, e.range, e.pos))
  }
}
