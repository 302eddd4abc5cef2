/**
  The arithmetic decoding process of ITU-T H.265 clause 9.3.4.3, written
  bit by bit as the standard states it. It is the reference the ARM engine
  of libavcodec/arm/cabac.h is measured against.

  The decoder state is the pair (ivlCurrRange, ivlOffset) of clause 9.3.2.5
  together with the position, in bits, of the next bit `read_bits(1)` would
  return. A bit beyond the last byte of the data reads as 0. The standard's
  tables rangeTabLps and transIdxLps (Tables 9-52 and 9-53) are parameters:
  the model relies only on their shapes, not on their entries.
 */
module CabacStandard {
  import opened Bits

  type StateIdx = x: int | 0 <= x < 64

  /** The entries of rangeTabLps (Table 9-52) lie between 6 and 240. */
  type LpsRangeValue = x: int | 6 <= x <= 240 witness 6

  /** rangeTabLps[pStateIdx][qRangeIdx] and transIdxLps[pStateIdx]. */
  datatype StdTables = StdTables(rangeTabLps: (int, int) -> LpsRangeValue, transIdxLps: int -> StateIdx)

  /** A context variable: the probability state index and the value of the most probable symbol. */
  datatype ContextVar = ContextVar(pStateIdx: int, valMps: int)

  /** ivlOffset, ivlCurrRange and the bitstream position in bits. */
  datatype ArithState = ArithState(offset: int, range: int, bitPos: nat)

  datatype DecisionOut = DecisionOut(bin: int, state: ArithState, ctx: ContextVar)
  datatype BypassOut = BypassOut(bin: int, state: ArithState)

  predicate ValidContext(c: ContextVar) {
    0 <= c.pStateIdx < 64 && 0 <= c.valMps <= 1
  }

  /** The decoder invariant of clause 9.3.4.3: a renormalised range and an offset below it. */
  predicate Valid(a: ArithState) {
    256 <= a.range <= 510 && 0 <= a.offset < a.range
  }

  /** Bit `i` of the data, most significant bit of each byte first; 0 past the end. */
  function Bit(data: seq<byte>, i: nat): (b: nat)
    ensures b <= 1
  {
    if i / 8 < |data| then ByteBit(data[i / 8], 7 - i % 8) else 0
  }

  /** Bit `j` of `x`, counting from the least significant bit. */
  function ByteBit(x: nat, j: nat): (b: nat)
    ensures b <= 1
    decreases j
  {
    if j == 0 then x % 2 else ByteBit(x / 2, j - 1)
  }

  /** read_bits(n) at bit position `p`: the next `n` bits as an unsigned number, first bit most significant. */
  function ReadBits(data: seq<byte>, p: nat, n: nat): (v: nat)
    decreases n
  {
    if n == 0 then 0 else 2 * ReadBits(data, p, n - 1) + Bit(data, p + n - 1)
  }

  /** `n` bits hold a value below 2^n. */
  lemma {:induction false} ReadBitsBound(data: seq<byte>, p: nat, n: nat)
    ensures ReadBits(data, p, n) < Pow2(n)
    decreases n
  {
    if n > 0 {
      ReadBitsBound(data, p, n - 1);
      BoundStep(ReadBits(data, p, n - 1), Bit(data, p + n - 1), Pow2(n - 1));
    }
  }

  /** Appending a bit to a value below `q` gives a value below `2 * q`. */
  lemma BoundStep(v: int, bit: int, q: int)
    requires v < q && bit <= 1
    ensures 2 * v + bit < 2 * q
  {
  }

  /** transIdxMps of Table 9-53: one state up, except that states 62 and 63 stay. */
  function TransIdxMps(p: int): (q: int)
    requires 0 <= p < 64
    ensures 0 <= q < 64
    ensures p < 62 ==> q == p + 1
    ensures p >= 62 ==> q == p
  {
    if p < 62 then p + 1 else p
  }

  /** The context after an MPS (clause 9.3.4.3.2.2): valMps is kept. */
  function MpsNext(c: ContextVar): (n: ContextVar)
    requires ValidContext(c)
    ensures ValidContext(n) && n.valMps == c.valMps
  {
    ContextVar(TransIdxMps(c.pStateIdx), c.valMps)
  }

  /** The context after an LPS (clause 9.3.4.3.2.2): valMps flips exactly in state 0. */
  function LpsNext(t: StdTables, c: ContextVar): (n: ContextVar)
    requires ValidContext(c)
    ensures ValidContext(n)
    ensures n.pStateIdx == t.transIdxLps(c.pStateIdx)
    ensures c.pStateIdx == 0 <==> n.valMps != c.valMps
  {
    ContextVar(t.transIdxLps(c.pStateIdx), if c.pStateIdx == 0 then 1 - c.valMps else c.valMps)
  }

  /**
    RenormD (clause 9.3.4.3.3): while the range is below 256 it is doubled
    and one bit is shifted into the offset. Every range in [1, 510] ends in
    [256, 510] with the offset still below it; a range already at 256 or
    more reads nothing.
   */
  function RenormD(data: seq<byte>, offset: int, range: int, p: nat): (r: ArithState)
    requires 1 <= range <= 510 && 0 <= offset < range
    ensures Valid(r) && r.bitPos >= p
    ensures range >= 256 <==> r.bitPos == p
    decreases 256 - range
  {
    if range >= 256 then ArithState(offset, range, p)
    else RenormD(data, 2 * offset + Bit(data, p), 2 * range, p + 1)
  }

  /**
    RenormD in closed form: after `n` doublings the range is shifted left by
    `n` and the offset is followed by the next `n` bits of the stream.
   */
  lemma {:induction false} RenormDClosedForm(data: seq<byte>, offset: int, range: int, p: nat)
    requires 1 <= range <= 510 && 0 <= offset < range
    ensures var r := RenormD(data, offset, range, p);
      r.range == Shl(range, r.bitPos - p)
      && r.offset == Shl(offset, r.bitPos - p) + ReadBits(data, p, r.bitPos - p)
    decreases 256 - range
  {
    if range < 256 {
      RenormDClosedForm(data, 2 * offset + Bit(data, p), 2 * range, p + 1);
      RenormDOneMore(data, offset, range, p);
    }
  }

  /** The closed form for a range below 256 follows from the closed form after its first doubling. */
  lemma RenormDOneMore(data: seq<byte>, offset: int, range: int, p: nat)
    requires 1 <= range < 256 && 0 <= offset < range
    requires var r := RenormD(data, 2 * offset + Bit(data, p), 2 * range, p + 1);
      r.range == Shl(2 * range, r.bitPos - (p + 1))
      && r.offset == Shl(2 * offset + Bit(data, p), r.bitPos - (p + 1)) + ReadBits(data, p + 1, r.bitPos - (p + 1))
    ensures var r := RenormD(data, offset, range, p);
      r.range == Shl(range, r.bitPos - p)
      && r.offset == Shl(offset, r.bitPos - p) + ReadBits(data, p, r.bitPos - p)
  {
    var r := RenormD(data, 2 * offset + Bit(data, p), 2 * range, p + 1);
    assert RenormD(data, offset, range, p) == r;
    var m: nat := r.bitPos - (p + 1);
    ShlDouble(range, m);
    ShlAdd(2 * offset, Bit(data, p), m);
    ShlDouble(offset, m);
    ReadBitsFront(data, p, m + 1);
  }

  /**
    Reading `n` bits is reading the first bit and then `n - 1` more: the
    definition appends bits at the back, this splits one off at the front.
   */
  lemma {:induction false} ReadBitsFront(data: seq<byte>, p: nat, n: nat)
    requires n >= 1
    ensures ReadBits(data, p, n) == Shl(Bit(data, p), n - 1) + ReadBits(data, p + 1, n - 1)
    decreases n
  {
    if n > 1 {
      ReadBitsFront(data, p, n - 1);
      assert ReadBits(data, p + 1, n - 1) == 2 * ReadBits(data, p + 1, n - 2) + Bit(data, p + n - 1);
    }
  }

  /**
    DecodeDecision (clause 9.3.4.3.2): the LPS sub-range is
    rangeTabLps[pStateIdx][qRangeIdx] with qRangeIdx = (ivlCurrRange >> 6) & 3.
    The bin is the MPS exactly when the offset stays below the MPS sub-range;
    otherwise the offset is reduced by it and the range becomes the LPS
    sub-range. The context moves by transIdxMps or transIdxLps, and the state
    is renormalised.
   */
  function DecodeDecision(t: StdTables, data: seq<byte>, a: ArithState, c: ContextVar): (r: DecisionOut)
    requires Valid(a) && ValidContext(c)
    ensures Valid(r.state) && ValidContext(r.ctx)
    ensures r.bin == 0 || r.bin == 1
    ensures r.bin == c.valMps <==> a.offset < a.range - t.rangeTabLps(c.pStateIdx, (a.range / 64) % 4)
    ensures r.bin == c.valMps ==> r.ctx == MpsNext(c)
    ensures r.bin != c.valMps ==> r.ctx == LpsNext(t, c)
    ensures r.state.bitPos >= a.bitPos
  {
    var lps := t.rangeTabLps(c.pStateIdx, (a.range / 64) % 4);
    var mps := a.range - lps;
    assert 16 <= mps < a.range;
    if a.offset >= mps then
      DecisionOut(1 - c.valMps, RenormD(data, a.offset - mps, lps, a.bitPos), LpsNext(t, c))
    else
      DecisionOut(c.valMps, RenormD(data, a.offset, mps, a.bitPos), MpsNext(c))
  }

  /**
    DecodeBypass (clause 9.3.4.3.4): one bit is shifted into the offset; the
    bin is 1 exactly when the offset then reaches the range, which is then
    subtracted. The range is unchanged and exactly one bit is read.
   */
  function DecodeBypass(data: seq<byte>, a: ArithState): (r: BypassOut)
    requires Valid(a)
    ensures Valid(r.state) && r.state.range == a.range && r.state.bitPos == a.bitPos + 1
    ensures r.bin == (if 2 * a.offset + Bit(data, a.bitPos) >= a.range then 1 else 0)
    ensures r.state.offset + r.bin * a.range == 2 * a.offset + Bit(data, a.bitPos)
  {
    var off := 2 * a.offset + Bit(data, a.bitPos);
    if off >= a.range then BypassOut(1, ArithState(off - a.range, a.range, a.bitPos + 1))
    else BypassOut(0, ArithState(off, a.range, a.bitPos + 1))
  }
}
