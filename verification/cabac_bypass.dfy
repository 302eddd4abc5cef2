/**
  The two bypass routines of libavcodec/arm/cabac.h, `get_cabac_bypass_arm`
  and `get_cabac_bypass_sign_arm`, against DecodeBypass of ITU-T H.265
  clause 9.3.4.3.4: from corresponding states, with the cursor at or before
  `bytestream_end`, both return the standard's bin (as a bit, or as the sign
  it applies) and leave states that still correspond.

  Doubling `low` moves the marker one bit up; this is the standard's offset
  taking in the first of the `k` unread bits, so the routine reads no byte
  until the last fetched bit is consumed (`k` reaches 0), and then refills at
  shift 0.
 */
module CabacBypassRefinement {
  import opened Bits
  import opened CabacArm
  import opened CabacRefinement
  import Std = CabacStandard

  /**
    Doubling a corresponding `low` gives the `Scaled` form in which the
    offset has taken in the next bit of the stream and one unread bit fewer
    remains.
   */
  lemma BypassDoubled(data: seq<byte>, e: Engine, a: Std.ArithState) returns (k: nat)
    requires Corresponds(data, e, a)
    ensures k == 8 * e.pos - a.bitPos && 1 <= k <= 16
    ensures 2 * e.low == Scaled(data, 2 * a.offset + Std.Bit(data, a.bitPos), a.bitPos + 1, k - 1, 16 - (k - 1))
  {
    DoubledAbsorb(data, a.offset, a.bitPos, 8 * e.pos - a.bitPos, e.low);
    k := 8 * e.pos - a.bitPos;
  }

  /**
    Doubling `low` in the `Scaled` form gives the `Scaled` form in which the
    offset has taken in the next bit of the stream and one unread bit fewer
    remains.
   */
  lemma DoubledAbsorb(data: seq<byte>, off: int, b: nat, k: nat, low: int)
    requires 1 <= k <= 16 && low == Scaled(data, off, b, k, 16 - k)
    ensures 2 * low == Scaled(data, 2 * off + Std.Bit(data, b), b + 1, k - 1, 16 - (k - 1))
  {
    DoubledScaled(data, off, b, k, low);
    AbsorbBit(data, off, b, k, 16 - (k - 1));
  }

  /** Taking the first of the `k` unread bits into the offset leaves `Scaled` unchanged. */
  lemma AbsorbBit(data: seq<byte>, off: int, b: nat, k: nat, t: nat)
    requires 1 <= k
    ensures Scaled(data, off, b, k, t) == Scaled(data, 2 * off + Std.Bit(data, b), b + 1, k - 1, t)
  {
    ScaledAbsorb(data, off, b, k, t, 1);
    WindowOne(data, off, b);
  }

  /** Doubling `Scaled` moves the marker one bit up. */
  lemma DoubledScaled(data: seq<byte>, off: int, b: nat, k: nat, low: int)
    requires 1 <= k <= 16 && low == Scaled(data, off, b, k, 16 - k)
    ensures 2 * low == Scaled(data, off, b, k, 16 - (k - 1))
  {
    ScaledShift(data, off, b, k, 16 - k, 1);
    assert Shl(low, 1) == 2 * Shl(low, 0);
    ScaledEq(data, off, off, b, b, k, k, 16 - k + 1, 16 - (k - 1));
  }

  /** A window of one bit is the offset followed by that bit. */
  lemma WindowOne(data: seq<byte>, off: int, b: nat)
    ensures Window(data, off, b, 1) == 2 * off + Std.Bit(data, b)
  {
    assert Shl(off, 1) == 2 * Shl(off, 0);
    assert Std.ReadBits(data, b, 1) == 2 * Std.ReadBits(data, b, 0) + Std.Bit(data, b);
  }

  /** After the doubling and the optional subtraction, the bypass routines leave a corresponding state. */
  lemma BypassLand(st: Stream, pos: nat, b: nat, k: nat, low2: int, off2: int, range: int, e': Engine, a': Std.ArithState)
    requires ValidStream(st) && pos <= st.end && k == 8 * pos - b && k <= 15 && 0 <= off2
    requires low2 == Scaled(st.data, off2, b, k, 16 - k)
    requires a' == Std.ArithState(off2, range, b) && e' == BypassFinish(st, low2, range, pos)
    ensures Corresponds(st.data, e', a')
  {
    ScaledLow16(st.data, off2, b, k, 16 - k);
    if k >= 1 {
      CorrespondsIntro(st.data, e', a', k, 16 - k);
    } else {
      var w := Refill(st, pos);
      BypassRefilled(st.data, off2, b, pos, w.bits, low2, e', a');
    }
  }

  /** The refill at shift 0, once the last fetched bit has been taken into the offset. */
  lemma BypassRefilled(data: seq<byte>, off2: int, b: nat, pos: nat, bits: int, low2: int, e': Engine, a': Std.ArithState)
    requires b == 8 * pos && pos + 1 < |data| && bits == (data[pos] as int) * 0x200 + (data[pos + 1] as int) * 2
    requires low2 == Scaled(data, off2, b, 0, 16 - 0)
    requires e' == Engine(low2 + bits - CABAC_MASK, a'.range, pos + 2) && a'.offset == off2 && a'.bitPos == b
    ensures Corresponds(data, e', a')
  {
    RefillAbsorb(data, off2, b, 0, 0, pos, 8, bits);
    assert Shl(bits - CABAC_MASK, 0) == bits - CABAC_MASK;
    CorrespondsIntro(data, e', a', 0 + (8 + 8), 0);
  }

  /**
    `get_cabac_bypass_arm` decodes DecodeBypass: from corresponding states,
    with the cursor at or before `end`, it returns the standard's bin and
    leaves a corresponding state.
   */
  lemma BypassRefines(st: Stream, e: Engine, a: Std.ArithState)
    requires ValidStream(st) && Std.Valid(a) && Corresponds(st.data, e, a) && e.pos <= st.end
    ensures Normalized(e)
    ensures var r := DecodeBypass(st, e); var s := Std.DecodeBypass(st.data, a);
      r.bit == s.bin && Corresponds(st.data, r.engine, s.state)
  {
    var k, off1 := BypassCarry(st.data, e, a);
    var b := a.bitPos + 1;
    var carry := off1 >= a.range;
    var low2 := if carry then 2 * e.low - e.range * SCALE else 2 * e.low;
    var off2 := if carry then off1 - a.range else off1;
    ArmBypassEngine(st, e, carry, low2);
    StdBypassState(st.data, a, off1, off2);
    BypassSubtract(st.data, off1, a.range, b, k - 1, carry, 2 * e.low, e.range * SCALE, low2, off2);
    BypassLand(st, e.pos, b, k - 1, low2, off2, a.range, DecodeBypass(st, e).engine, Std.DecodeBypass(st.data, a).state);
  }

  /** `get_cabac_bypass_arm` subtracts `range << 17` on a carry and then runs the shared tail. */
  lemma ArmBypassEngine(st: Stream, e: Engine, carry: bool, low2: int)
    requires ValidStream(st) && Normalized(e) && carry == (2 * e.low >= e.range * SCALE)
    requires low2 == if carry then 2 * e.low - e.range * SCALE else 2 * e.low
    ensures DecodeBypass(st, e).engine == BypassFinish(st, low2, e.range, e.pos)
    ensures DecodeBypass(st, e).bit == if carry then 1 else 0
  {
  }

  /** DecodeBypass subtracts the range exactly when the doubled offset reaches it. */
  lemma StdBypassState(data: seq<byte>, a: Std.ArithState, off1: int, off2: int)
    requires Std.Valid(a) && off1 == 2 * a.offset + Std.Bit(data, a.bitPos)
    requires off2 == if off1 >= a.range then off1 - a.range else off1
    ensures Std.DecodeBypass(data, a).state == Std.ArithState(off2, a.range, a.bitPos + 1)
    ensures Std.DecodeBypass(data, a).bin == if off1 >= a.range then 1 else 0
  {
  }

  /** Subtracting `range << 17` from the doubled `low` subtracts the range from the doubled offset. */
  lemma BypassSubtract(data: seq<byte>, off1: int, r: int, b: nat, k: nat, carry: bool, low1: int, rs: int, low2: int, off2: int)
    requires k <= 16 && low1 == Scaled(data, off1, b, k, 16 - k) && rs == r * SCALE
    requires low2 == (if carry then low1 - rs else low1) && off2 == (if carry then off1 - r else off1)
    ensures low2 == Scaled(data, off2, b, k, 16 - k)
  {
    if carry {
      ScaledSub(data, off1, r, b, k);
    }
  }

  /**
    The doubled `low` reaches `range << 17`, the carry of `cmp`, exactly when
    the standard's doubled offset reaches the range.
   */
  lemma BypassCarry(data: seq<byte>, e: Engine, a: Std.ArithState) returns (k: nat, off1: int)
    requires Corresponds(data, e, a) && Std.Valid(a)
    ensures Normalized(e) && 1 <= k <= 16 && k == 8 * e.pos - a.bitPos
    ensures off1 == 2 * a.offset + Std.Bit(data, a.bitPos) && 0 <= off1
    ensures 2 * e.low == Scaled(data, off1, a.bitPos + 1, k - 1, 16 - (k - 1))
    ensures 2 * e.low >= e.range * SCALE <==> off1 >= a.range
    ensures e.range == a.range && e.range * SCALE == a.range * SCALE
  {
    CorrespondsBounds(data, e, a);
    k := BypassDoubled(data, e, a);
    off1 := 2 * a.offset + Std.Bit(data, a.bitPos);
    ScaledSplit(data, off1, a.bitPos + 1, k - 1);
    CarryCompare(2 * e.low, off1, a.range, off1 * SCALE);
  }

  /** A scaled value between `off` and `off + 1` units reaches `r` units exactly when `off` reaches `r`. */
  lemma CarryCompare(low1: int, off1: int, r: int, x: int)
    requires 0 < low1 - x < SCALE && x == off1 * SCALE
    ensures low1 >= r * SCALE <==> off1 >= r
  {
    if off1 >= r {
      MulMonotone(r, off1, SCALE);
    } else {
      MulMonotone(off1 + 1, r, SCALE);
      assert (off1 + 1) * SCALE == off1 * SCALE + SCALE;
    }
  }

  /**
    `get_cabac_bypass_sign_arm` decodes DecodeBypass as a sign: it returns `v`
    for the bin 1 and `-v` (wrapped to 32 bits) for the bin 0, and leaves the
    same corresponding state as `get_cabac_bypass_arm`.
   */
  lemma BypassSignRefines(st: Stream, e: Engine, a: Std.ArithState, v: int)
    requires ValidStream(st) && Std.Valid(a) && Corresponds(st.data, e, a) && e.pos <= st.end
    requires -0x8000_0000 <= v < 0x8000_0000
    ensures Normalized(e)
    ensures var r := DecodeBypassSign(st, e, v); var s := Std.DecodeBypass(st.data, a);
      r.value == (if s.bin == 1 then v else Neg32(v)) && Corresponds(st.data, r.engine, s.state)
  {
    BypassRefines(st, e, a);
  }
}
