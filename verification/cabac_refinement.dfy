/**
  The ARM CABAC routines of libavcodec/arm/cabac.h decode exactly the bins
  of the arithmetic decoding process of ITU-T H.265 clause 9.3.4.3, as long
  as every refill happens at or before `bytestream_end`.

  The link between the two states is `Corresponds`: FFmpeg's `low` keeps the
  standard's ivlOffset in its bits 17 and up, and below them the `k` bits the
  standard has not read yet out of those already fetched (`k` between 1 and
  16), followed by a single 1 bit, the marker, at bit `16 - k`. A context
  byte packs a context variable as `(pStateIdx << 1) | valMps`, and the table
  ff_h264_cabac_tables packs the standard's tables the same way (`PacksTables`).
 */
module CabacRefinement {
  import opened Bits
  import opened CabacArm
  import Std = CabacStandard

  /** A context byte: `(pStateIdx << 1) | valMps`. */
  function Pack(c: Std.ContextVar): (b: int)
    requires Std.ValidContext(c)
    ensures 0 <= b < 128
    ensures Unpack(b) == c
  {
    2 * c.pStateIdx + c.valMps
  }

  /** The context variable a context byte holds. */
  function Unpack(b: int): (c: Std.ContextVar)
    ensures 0 <= b < 128 ==> Std.ValidContext(c)
  {
    Std.ContextVar(b / 2, b % 2)
  }

  lemma PackUnpack(b: int)
    requires 0 <= b < 128
    ensures Pack(Unpack(b)) == b
  {
  }

  /** The LPS-range byte for context byte `s` and range quarter `q`. */
  function LpsEntry(ff: Tables, s: int, q: int): int {
    ff.lpsRange(s + 128 * q)
  }

  /** The transition entry the decision routine reads after an MPS on context byte `s`. */
  function MpsEntry(ff: Tables, s: int): int {
    ff.mlpsState(s)
  }

  /** The transition entry the decision routine reads after an LPS on context byte `s` (at its complement). */
  function LpsTransEntry(ff: Tables, s: int): int {
    ff.mlpsState(-s - 1)
  }

  /**
    ff_h264_cabac_tables holds the standard's tables in packed form: the LPS
    ranges in four blocks of 128 by range quarter, indexed by context byte,
    and the two transitions as packed context bytes.
   */
  predicate PacksTables(ff: Tables, std: Std.StdTables) {
    (forall s, q {:trigger LpsEntry(ff, s, q)} :: 0 <= s < 128 && 0 <= q < 4 ==> LpsEntry(ff, s, q) == std.rangeTabLps(s / 2, q))
    && (forall s {:trigger MpsEntry(ff, s)} :: 0 <= s < 128 ==> MpsEntry(ff, s) == Pack(Std.MpsNext(Unpack(s))))
    && (forall s {:trigger LpsTransEntry(ff, s)} :: 0 <= s < 128 ==> LpsTransEntry(ff, s) == Pack(Std.LpsNext(std, Unpack(s))))
  }

  /** The packed table laid out from the standard's tables. */
  function PackTables(std: Std.StdTables): (ff: Tables)
    ensures PacksTables(ff, std)
  {
    var ff := Tables(i => PackedLps(std, i), i => PackedTransition(std, i));
    PackedTablesAgree(std, ff);
    ff
  }

  /** Entry `i` of the LPS-range block of the packed table. */
  function PackedLps(std: Std.StdTables, i: int): byte {
    if 0 <= i < 512 then std.rangeTabLps((i % 128) / 2, i / 128) else 0
  }

  /** Entry `128 + i` of the transition block of the packed table. */
  function PackedTransition(std: Std.StdTables, i: int): byte {
    if 0 <= i < 128 then Pack(Std.MpsNext(Unpack(i)))
    else if -128 <= i < 0 then Pack(Std.LpsNext(std, Unpack(-i - 1)))
    else 0
  }

  lemma PackedTablesAgree(std: Std.StdTables, ff: Tables)
    requires forall i :: ff.lpsRange(i) == PackedLps(std, i)
    requires forall i :: ff.mlpsState(i) == PackedTransition(std, i)
    ensures PacksTables(ff, std)
  {
    PackedLpsAgree(std, ff);
    PackedTransitionsAgree(std, ff);
  }

  lemma PackedLpsAgree(std: Std.StdTables, ff: Tables)
    requires forall i :: ff.lpsRange(i) == PackedLps(std, i)
    ensures forall s, q {:trigger LpsEntry(ff, s, q)} :: 0 <= s < 128 && 0 <= q < 4 ==> LpsEntry(ff, s, q) == std.rangeTabLps(s / 2, q)
  {
    forall s, q | 0 <= s < 128 && 0 <= q < 4
      ensures LpsEntry(ff, s, q) == std.rangeTabLps(s / 2, q)
    {
      var i := s + 128 * q;
      assert i / 128 == q && i % 128 == s by {
        DivUnique(i, 128, q, s);
      }
      assert LpsEntry(ff, s, q) == PackedLps(std, i);
    }
  }

  lemma PackedTransitionsAgree(std: Std.StdTables, ff: Tables)
    requires forall i :: ff.mlpsState(i) == PackedTransition(std, i)
    ensures forall s {:trigger MpsEntry(ff, s)} :: 0 <= s < 128 ==> MpsEntry(ff, s) == Pack(Std.MpsNext(Unpack(s)))
    ensures forall s {:trigger LpsTransEntry(ff, s)} :: 0 <= s < 128 ==> LpsTransEntry(ff, s) == Pack(Std.LpsNext(std, Unpack(s)))
  {
    forall s | 0 <= s < 128
      ensures MpsEntry(ff, s) == Pack(Std.MpsNext(Unpack(s)))
    {
      PackedMpsAt(std, s, ff.mlpsState(s));
    }
    forall s | 0 <= s < 128
      ensures LpsTransEntry(ff, s) == Pack(Std.LpsNext(std, Unpack(s)))
    {
      PackedLpsAt(std, s, ff.mlpsState(-s - 1));
    }
  }

  /** The packed transition table holds the packed MPS successor at context byte `s`. */
  lemma PackedMpsAt(std: Std.StdTables, s: int, entry: int)
    requires 0 <= s < 128 && entry == PackedTransition(std, s)
    ensures entry == Pack(Std.MpsNext(Unpack(s)))
  {
  }

  /** The packed transition table holds the packed LPS successor at the complement of context byte `s`. */
  lemma PackedLpsAt(std: Std.StdTables, s: int, entry: int)
    requires 0 <= s < 128 && entry == PackedTransition(std, -s - 1)
    ensures entry == Pack(Std.LpsNext(std, Unpack(s)))
  {
    assert -(-s - 1) - 1 == s;
  }

  /** The offset `off` followed by the `k` bits read at `b`: `(off << k) + read_bits(k)`. */
  function Window(data: seq<byte>, off: int, b: nat, k: nat): int {
    Shl(off, k) + Std.ReadBits(data, b, k)
  }

  /** The window followed by one set bit, the marker: an odd number. */
  function Marked(data: seq<byte>, off: int, b: nat, k: nat): int {
    2 * Window(data, off, b, k) + 1
  }

  /** The marked window shifted up by `t`. */
  function Scaled(data: seq<byte>, off: int, b: nat, k: nat, t: nat): int {
    Shl(Marked(data, off, b, k), t)
  }

  /** FFmpeg's `low` for standard state `a` with the byte cursor at `pos`. */
  predicate Corresponds(data: seq<byte>, e: Engine, a: Std.ArithState) {
    var k := 8 * e.pos - a.bitPos;
    1 <= k <= 16 && e.range == a.range && e.low == Scaled(data, a.offset, a.bitPos, k, 16 - k)
  }

  /** Reading `n = a + b` bits is reading `a` bits and then `b` more. */
  lemma ReadBitsSplitAt(data: seq<byte>, p: nat, n: nat, a: nat, b: nat)
    requires n == a + b
    ensures Std.ReadBits(data, p, n) == Shl(Std.ReadBits(data, p, a), b) + Std.ReadBits(data, p + a, b)
  {
    ReadBitsSplit(data, p, a, b);
  }

  /** Reading `a + b` bits is reading `a` bits and then `b` more. */
  lemma {:induction false} ReadBitsSplit(data: seq<byte>, p: nat, a: nat, b: nat)
    ensures Std.ReadBits(data, p, a + b) == Shl(Std.ReadBits(data, p, a), b) + Std.ReadBits(data, p + a, b)
    decreases b
  {
    if b > 0 {
      ReadBitsSplit(data, p, a, b - 1);
      assert Std.ReadBits(data, p, a + b) == 2 * Std.ReadBits(data, p, a + (b - 1)) + Std.Bit(data, p + a + b - 1);
    }
  }

  /** Halving after dividing by 2^m is dividing by 2^(m + 1). */
  lemma DivPow2Succ(x: nat, m: nat)
    ensures x / Pow2(m + 1) == (x / Pow2(m)) / 2
  {
    var p := Pow2(m);
    var y := x / p;
    var rest := x % p;
    assert x == y * p + rest;
    assert y == 2 * (y / 2) + y % 2;
    assert x == (y / 2) * (2 * p) + ((y % 2) * p + rest) by {
      MulAssoc(y / 2, 2, p);
    }
    DivUnique(x, 2 * p, y / 2, (y % 2) * p + rest);
  }

  /** Halving and then dividing by 2^j is dividing by 2^(j + 1). */
  lemma HalfDivPow2(x: nat, j: nat)
    ensures (x / 2) / Pow2(j) == x / Pow2(j + 1)
  {
    var p: int := Pow2(j);
    var h: int := x / 2;
    var q: int := h / p;
    var rest: int := h % p;
    assert h == q * p + rest;
    assert x == 2 * h + x % 2;
    assert x == q * (2 * p) + (2 * rest + x % 2) by {
      MulAssoc(q, 2, p);
    }
    DivUnique(x, 2 * p, q, 2 * rest + x % 2);
  }

  /** Bit `j` of `x` is `(x >> j) & 1`. */
  lemma {:induction false} ByteBitIsShift(x: nat, j: nat)
    ensures Std.ByteBit(x, j) == (x / Pow2(j)) % 2
    decreases j
  {
    if j == 0 {
      assert Pow2(j) == 1;
    } else {
      ByteBitIsShift(x / 2, j - 1);
      HalfDivPow2(x, j - 1);
    }
  }

  /** Bit `i` of the stream is bit `j` of byte `q` when `i` is the `7 - j`th bit of that byte. */
  lemma BitInByte(data: seq<byte>, q: nat, i: nat, j: nat)
    requires q < |data| && j < 8 && i == 8 * q + (7 - j)
    ensures Std.Bit(data, i) == Std.ByteBit(data[q], j)
  {
    assert i / 8 == q && i % 8 == 7 - j;
  }

  /** The first `n` bits of a byte are the byte shifted right by the remaining `m = 8 - n`. */
  lemma {:induction false} ReadBitsOfByte(data: seq<byte>, q: nat, n: nat, m: nat)
    requires q < |data| && n + m == 8
    ensures Std.ReadBits(data, 8 * q, n) == data[q] / Pow2(m)
    decreases n
  {
    var x: int := data[q];
    if n == 0 {
      Pow2Of8();
      assert Std.ReadBits(data, 8 * q, n) == 0;
    } else {
      ReadBitsOfByte(data, q, n - 1, m + 1);
      BitInByte(data, q, 8 * q + n - 1, m);
      ByteBitIsShift(x, m);
      DivPow2Succ(x, m);
      AppendBit(Std.ReadBits(data, 8 * q, n), Std.ReadBits(data, 8 * q, n - 1), Std.Bit(data, 8 * q + n - 1), x / Pow2(m));
    }
  }

  /** Appending the low bit of `y` to `y` with that bit removed gives back `y`. */
  lemma AppendBit(v: int, hi: int, bit: int, y: int)
    requires v == 2 * hi + bit && hi == y / 2 && bit == y % 2
    ensures v == y
  {
  }

  /** Eight bits read at the start `b` of byte `q` are that byte. */
  lemma WholeByte(data: seq<byte>, q: nat, b: nat, n: nat)
    requires q < |data| && b == 8 * q && n == 8
    ensures Std.ReadBits(data, b, n) == data[q]
  {
    ReadBitsOfByte(data, q, n, 0);
    var x: int := data[q];
    assert Pow2(0) == 1;
    assert x / 1 == x;
  }

  /**
    Sixteen bits read at the start `b` of byte `q` are the bytes `q` and
    `q + 1`, big-endian. The byte width is a parameter equal to 8 rather
    than a literal, which keeps the verifier from unfolding the reads bit by
    bit.
   */
  lemma ReadBitsOfTwoBytes(data: seq<byte>, q: nat, b: nat, h: nat)
    requires q + 1 < |data| && b == 8 * q && h == 8
    ensures Std.ReadBits(data, b, h + h) == (data[q] as int) * 256 + data[q + 1]
  {
    ReadBitsSplit(data, b, h, h);
    WholeByte(data, q, b, h);
    WholeByte(data, q + 1, b + h, h);
    Pow2Of8();
    ShlIsMul(Std.ReadBits(data, b, h), h);
    Combine(Std.ReadBits(data, b, h + h), Shl(Std.ReadBits(data, b, h), h), Std.ReadBits(data, b, h), Pow2(h),
      Std.ReadBits(data, b + h, h), data[q], data[q + 1]);
  }

  lemma Combine(v: int, sh: int, hi: int, p: int, lo: int, x: int, y: int)
    requires v == sh + lo && sh == hi * p && p == 256 && hi == x && lo == y
    ensures v == x * 256 + y
  {
  }

  /** `Scaled` with `t = 16 - k` is the offset times 2^17 plus a fraction strictly between 0 and 2^17. */
  lemma ScaledSplit(data: seq<byte>, off: int, b: nat, k: nat)
    requires k <= 16
    ensures 0 < Scaled(data, off, b, k, 16 - k) - off * SCALE < SCALE
  {
    Std.ReadBitsBound(data, b, k);
    Pow2Split(16, k, 16 - k);
    Pow2Of16();
    ShlIsMul(off, k);
    ShlIsMul(Marked(data, off, b, k), 16 - k);
    SplitArith(Scaled(data, off, b, k, 16 - k), Marked(data, off, b, k), Window(data, off, b, k),
      off, Pow2(k), Std.ReadBits(data, b, k), Pow2(16 - k), SCALE);
  }

  lemma SplitArith(sc: int, m: int, w: int, off: int, p: int, v: int, t: int, s: int)
    requires sc == m * t && m == 2 * w + 1 && w == off * p + v
    requires 0 <= v < p && t >= 1 && s == 2 * (p * t)
    ensures 0 < sc - off * s < s
  {
    assert sc == off * s + (2 * v + 1) * t by {
      MulAssoc(off, p, t);
    }
    assert (2 * v + 1) * t <= (2 * p - 1) * t by {
      MulMonotone(2 * v + 1, 2 * p - 1, t);
    }
    assert (2 * v + 1) * t >= t by {
      MulMonotone(1, 2 * v + 1, t);
    }
  }

  /** Shifting `low` left by `s` moves the marker up by `s`. */
  lemma ScaledShift(data: seq<byte>, off: int, b: nat, k: nat, t: nat, s: nat)
    ensures Shl(Scaled(data, off, b, k, t), s) == Scaled(data, off, b, k, t + s)
  {
    ShlShl(Marked(data, off, b, k), t, s);
  }

  /**
    Moving `s` of the `k` unread bits into the offset leaves the window
    unchanged: the new offset is the window of the first `s` bits.
   */
  lemma WindowAbsorb(data: seq<byte>, off: int, b: nat, k: nat, s: nat)
    requires s <= k
    ensures Window(data, off, b, k) == Window(data, Window(data, off, b, s), b + s, k - s)
  {
    ReadBitsSplitAt(data, b, k, s, k - s);
    ShlAdd(Shl(off, s), Std.ReadBits(data, b, s), k - s);
    ShlShlAt(off, s, k - s, k);
  }

  /**
    Moving `s` of the unread bits into the offset leaves the number unchanged:
    the standard reading `s` bits does not change FFmpeg's `low`.
   */
  lemma ScaledAbsorb(data: seq<byte>, off: int, b: nat, k: nat, t: nat, s: nat)
    requires s <= k
    ensures Scaled(data, off, b, k, t) == Scaled(data, Window(data, off, b, s), b + s, k - s, t)
  {
    WindowAbsorb(data, off, b, k, s);
  }

  /** With a non-negative offset, the low 16 bits of `Scaled` are zero exactly when the marker is at bit 16 or above. */
  lemma ScaledLow16(data: seq<byte>, off: int, b: nat, k: nat, t: nat)
    requires off >= 0
    ensures Scaled(data, off, b, k, t) % 0x1_0000 == 0 <==> t >= 16
    ensures Scaled(data, off, b, k, t) > 0 && TrailingZeros(Scaled(data, off, b, k, t)) == t
  {
    MarkedOdd(data, off, b, k);
    ShlIsMul(Marked(data, off, b, k), t);
    OddShifted(Marked(data, off, b, k), t, Scaled(data, off, b, k, t));
  }

  /** With a non-negative offset the marked window is a positive odd number. */
  lemma MarkedOdd(data: seq<byte>, off: int, b: nat, k: nat)
    requires off >= 0
    ensures Marked(data, off, b, k) >= 1 && Marked(data, off, b, k) % 2 == 1
  {
    ShlGrows(off, k);
  }

  /** An odd number shifted up by `t` is positive, has `t` trailing zeros, and is a multiple of 2^16 exactly when `t >= 16`. */
  lemma OddShifted(odd: nat, t: nat, sc: int)
    requires odd % 2 == 1 && sc == odd * Pow2(t)
    ensures sc % 0x1_0000 == 0 <==> t >= 16
    ensures sc > 0 && TrailingZeros(sc) == t
  {
    OddShiftLow16(odd, t);
    TrailingZerosOddShift(odd, t);
    MulMonotone(1, odd, Pow2(t));
  }

  /** Sixteen more bits, the bytes at `q` and `q + 1`, appended to a window that ends at the start of byte `q`. */
  lemma WindowRefill(data: seq<byte>, off: int, b: nat, k: nat, q: nat, h: nat)
    requires b + k == 8 * q && q + 1 < |data| && h == 8
    ensures Window(data, off, b, k + (h + h)) == Shl(Window(data, off, b, k), h + h) + ((data[q] as int) * 256 + data[q + 1])
  {
    ReadBitsThroughBytes(data, b, k, q, h);
    ShlShlAt(off, k, h + h, k + (h + h));
    ShlAdd(Shl(off, k), Std.ReadBits(data, b, k), h + h);
  }

  /**
    The refill adds the two bytes at `q`, shifted left by one as `bits`, in at
    the marker `z` bits up: `Scaled` then has sixteen more unread bits and the
    marker 16 bits lower.
   */
  lemma RefillAbsorb(data: seq<byte>, off: int, b: nat, k: nat, z: nat, q: nat, h: nat, bits: int)
    requires b + k == 8 * q && q + 1 < |data| && h == 8
    requires bits == (data[q] as int) * 0x200 + (data[q + 1] as int) * 2
    ensures Scaled(data, off, b, k, 16 + z) + Shl(bits - CABAC_MASK, z) == Scaled(data, off, b, k + (h + h), z)
  {
    var w := Window(data, off, b, k);
    var m := Marked(data, off, b, k);
    WindowRefill(data, off, b, k, q, h);
    ShlAdd(2 * w, 1, h + h);
    ShlAdd(w, w, h + h);
    ShlIsMul(1, h + h);
    Pow2Sixteen(h);
    assert Shl(m, h + h) + (bits - CABAC_MASK) == Marked(data, off, b, k + (h + h));
    ShlShlAt(m, h + h, z, 16 + z);
    ShlAdd(Shl(m, h + h), bits - CABAC_MASK, z);
  }

  /** Reading `k` bits up to the start of byte `q` and then sixteen more: the two bytes come last. */
  lemma ReadBitsThroughBytes(data: seq<byte>, b: nat, k: nat, q: nat, h: nat)
    requires b + k == 8 * q && q + 1 < |data| && h == 8
    ensures Std.ReadBits(data, b, k + (h + h)) == Shl(Std.ReadBits(data, b, k), h + h) + ((data[q] as int) * 256 + data[q + 1])
  {
    ReadBitsSplitAt(data, b, k + (h + h), k, h + h);
    ReadBitsOfTwoBytes(data, q, b + k, h);
  }

  lemma Pow2Sixteen(h: nat)
    requires h == 8
    ensures Pow2(h + h) == 0x1_0000
  {
    Pow2Of16();
  }

  /** `Corresponds` from its parts, with the number of unread bits named. */
  lemma CorrespondsIntro(data: seq<byte>, e: Engine, a: Std.ArithState, k: int, t: int)
    requires k == 8 * e.pos - a.bitPos && 1 <= k <= 16 && t == 16 - k
    requires e.range == a.range && e.low == Scaled(data, a.offset, a.bitPos, k, t)
    ensures Corresponds(data, e, a)
  {
  }

  lemma ScaledEq(data: seq<byte>, off: int, off': int, b: nat, b': nat, k: nat, k': nat, t: nat, t': nat)
    requires off == off' && b == b' && k == k' && t == t'
    ensures Scaled(data, off, b, k, t) == Scaled(data, off', b', k', t')
  {
  }

  /** Only one shift brings a range into [256, 511]. */
  lemma UniqueShift(r: int, a: nat, b: nat)
    requires 1 <= r
    requires 256 <= Shl(r, a) <= 511 && 256 <= Shl(r, b) <= 511
    ensures a == b
  {
    if a < b {
      ShiftTooFar(r, a, b);
    } else if b < a {
      ShiftTooFar(r, b, a);
    }
  }

  /** A range already at 256 or more is above 511 after a further shift. */
  lemma ShiftTooFar(r: int, a: nat, b: nat)
    requires 1 <= r && a < b && 256 <= Shl(r, a)
    ensures Shl(r, b) > 511
  {
    ShlShlAt(r, a + 1, b - (a + 1), b);
    ShlGrows(Shl(r, a + 1), b - (a + 1));
  }

  /** The renormalisation shift fits inside the unread bits: no refill, `s` bits move into the offset. */
  lemma AbsorbNoRefill(data: seq<byte>, off: int, b: nat, k: nat, s: nat, low2: int, e: Engine, a: Std.ArithState)
    requires k == 8 * e.pos - b && 1 <= k <= 16 && s < k
    requires a.bitPos == b + s && a.offset == Window(data, off, b, s) && a.range == e.range
    requires e.low == low2 && low2 == Scaled(data, off, b, k, 16 - k + s)
    ensures Corresponds(data, e, a)
  {
    ScaledAbsorb(data, off, b, k, 16 - k + s, s);
    ScaledEq(data, Window(data, off, b, s), a.offset, b + s, a.bitPos, k - s, k - s, 16 - k + s, 16 - k + s);
    CorrespondsIntro(data, e, a, k - s, 16 - k + s);
  }

  /**
    The renormalisation shift uses up the unread bits: `low` shifted by `s`,
    with the refill word `bits` of the two bytes at `q` added at the marker, is
    the scaled number whose offset has taken in the next `s` bits.
   */
  lemma RefillThenAbsorb(data: seq<byte>, off: int, b: nat, k: nat, s: nat, q: nat, z: nat, h: nat, bits: int)
    requires k == 8 * q - b && 1 <= k <= 16 && k <= s <= 8 && q + 1 < |data| && z == s - k && h == 8
    requires bits == (data[q] as int) * 0x200 + (data[q + 1] as int) * 2
    ensures Scaled(data, off, b, k, 16 - k + s) + Shl(bits - CABAC_MASK, z)
         == Scaled(data, Window(data, off, b, s), b + s, k + (h + h) - s, z)
  {
    ScaledEq(data, off, off, b, b, k, k, 16 - k + s, 16 + z);
    RefillAbsorb(data, off, b, k, z, q, h, bits);
    ScaledAbsorb(data, off, b, k + (h + h), z, s);
    AddChain(Scaled(data, off, b, k, 16 - k + s), Scaled(data, off, b, k, 16 + z), Shl(bits - CABAC_MASK, z),
      Scaled(data, off, b, k + (h + h), z), Scaled(data, Window(data, off, b, s), b + s, k + (h + h) - s, z));
  }

  lemma AddChain(x: int, x': int, d: int, y: int, y': int)
    requires x == x' && x' + d == y && y == y'
    ensures x + d == y'
  {
  }

  /** The refill case of `RenormRefines`, stated on the resulting engine and standard state. */
  lemma AbsorbRefill(data: seq<byte>, off: int, b: nat, k: nat, s: nat, q: nat, z: nat, h: nat, bits: int, low2: int, e: Engine, a: Std.ArithState)
    requires k == 8 * q - b && 1 <= k <= 16 && k <= s <= 8 && q + 1 < |data| && e.pos == q + 2 && z == s - k && h == 8
    requires bits == (data[q] as int) * 0x200 + (data[q + 1] as int) * 2
    requires a.bitPos == b + s && a.offset == Window(data, off, b, s) && a.range == e.range
    requires e.low == low2 + Shl(bits - CABAC_MASK, z) && low2 == Scaled(data, off, b, k, 16 - k + s)
    ensures Corresponds(data, e, a)
  {
    RefillThenAbsorb(data, off, b, k, s, q, z, h, bits);
    ScaledEq(data, Window(data, off, b, s), a.offset, b + s, a.bitPos, k + (h + h) - s, k + (h + h) - s, z, z);
    CorrespondsIntro(data, e, a, k + (h + h) - s, z);
  }

  lemma Chain(low: int, s1: int, x: int, s3: int, s4: int, s5: int)
    requires low == s1 + x && s1 + x == s3 && s3 == s4 && s4 == s5
    ensures low == s5
  {
  }

  /** The state after `s` doublings of RenormD from offset `off` and range `r` at bit `b`. */
  predicate StdShape(data: seq<byte>, off: int, r: int, b: nat, s: nat, a: Std.ArithState) {
    a.bitPos == b + s && a.range == Shl(r, s) && a.offset == Window(data, off, b, s)
  }

  /** RenormD doubles the range `s = Clz32(r) - 23` times: the number of doublings the ARM code computes with `clz`. */
  lemma StdRenormShift(data: seq<byte>, off: int, r: int, b: nat, s: int)
    requires 1 <= r <= 510 && 0 <= off < r && s == Clz32(r) - 23
    ensures 0 <= s <= 8
    ensures StdShape(data, off, r, b, s, Std.RenormD(data, off, r, b))
  {
    RenormShift(r);
    RenormDByShift(data, off, r, b, s);
  }

  /** RenormD shifts by the one `s` that brings the range into [256, 511]. */
  lemma RenormDByShift(data: seq<byte>, off: int, r: int, b: nat, s: nat)
    requires 1 <= r <= 510 && 0 <= off < r && 256 <= Shl(r, s) <= 511
    ensures var a := Std.RenormD(data, off, r, b);
      a.bitPos == b + s && a.range == Shl(r, s) && a.offset == Window(data, off, b, s)
  {
    var a := Std.RenormD(data, off, r, b);
    Std.RenormDClosedForm(data, off, r, b);
    ClosedFormAt(data, off, r, b, s, a, a.bitPos - b);
  }

  /** A state in closed form after `n` doublings, with the range in [256, 510], is the one after `s` doublings. */
  lemma ClosedFormAt(data: seq<byte>, off: int, r: int, b: nat, s: nat, a: Std.ArithState, n: nat)
    requires 1 <= r && 256 <= Shl(r, s) <= 511 && 256 <= a.range <= 510
    requires a.bitPos == b + n && a.range == Shl(r, n) && a.offset == Shl(off, n) + Std.ReadBits(data, b, n)
    ensures a.bitPos == b + s && a.range == Shl(r, s) && a.offset == Window(data, off, b, s)
  {
    UniqueShift(r, s, n);
  }

  /**
    The two outcomes of `RenormRefill` with the shift `s = Clz32(r) - 23`: a
    plain shift, or a shift followed by a refill at `pos` added `z` bits up.
   */
  lemma ArmRenormShape(st: Stream, low: int, r: int, pos: nat, s: int) returns (z: nat)
    requires ValidStream(st) && 1 <= r <= 510 && 0 <= low < r * SCALE && pos <= st.end && s == Clz32(r) - 23
    ensures 0 <= s <= 8
    ensures ArmShape(low, r, pos, s, z, Refill(st, pos).bits, RenormRefill(st, low, r, pos))
  {
    RenormShift(r);
    var low2 := Shl(low, s);
    ShiftedBelow(low, r, s);
    z := 0;
    if low2 % 0x1_0000 == 0 {
      assert low2 < WORD;
      Ctz32OfMultiple(low2);
      z := Ctz32(low2) - 16;
    }
  }

  /**
    The engine after the ARM renormalisation of `low` and range `r` by `s`:
    a plain shift when the shifted `low` keeps a bit among its low sixteen,
    otherwise a shift with the refill word `bits` added `z` bits up and the
    cursor two bytes on.
   */
  predicate ArmShape(low: int, r: int, pos: nat, s: nat, z: nat, bits: int, e: Engine) {
    && 0 <= Shl(low, s)
    && e.range == Shl(r, s)
    && (Shl(low, s) % 0x1_0000 != 0 ==> e.low == Shl(low, s) && e.pos == pos)
    && (Shl(low, s) % 0x1_0000 == 0 ==>
          Shl(low, s) < WORD && z == Ctz32(Shl(low, s)) - 16 && e.pos == pos + 2
          && e.low == Shl(low, s) + Shl(bits - CABAC_MASK, z))
  }

  /**
    Shifting a corresponding `low` left by `s` keeps it in the `Scaled` form
    with the marker `s` bits higher; the marker reaches bit 16, and a refill
    is due, exactly when `s` covers the `k` unread bits.
   */
  lemma ShiftedLow(data: seq<byte>, off: int, b: nat, k: nat, s: nat, low: int)
    requires k <= 16 && off >= 0 && low == Scaled(data, off, b, k, 16 - k)
    ensures Shl(low, s) == Scaled(data, off, b, k, 16 - k + s)
    ensures Shl(low, s) % 0x1_0000 == 0 <==> s >= k
    ensures Shl(low, s) > 0
    ensures Shl(low, s) < WORD ==> Ctz32(Shl(low, s)) == 16 - k + s
  {
    ScaledShift(data, off, b, k, 16 - k, s);
    ScaledLow16(data, off, b, k, 16 - k + s);
  }

  /** `low` of a corresponding state lies in [0, r * 2^17) when the offset lies below `r`. */
  lemma LowInRange(data: seq<byte>, off: int, b: nat, k: nat, r: int, low: int)
    requires k <= 16 && 0 <= off < r && low == Scaled(data, off, b, k, 16 - k)
    ensures 0 <= low < r * SCALE
  {
    ScaledSplit(data, off, b, k);
  }

  /**
    The case split of `RenormRefines`, stated over the outcome `e` of the ARM
    renormalisation and the outcome `a` of RenormD: a shift by `s` with no
    refill when `s < k`, a shift with the refill word `bits` added `z` bits up
    otherwise.
   */
  lemma RenormCases(data: seq<byte>, off: int, b: nat, k: nat, s: nat, pos: nat, z: nat, bits: int, low2: int, e: Engine, a: Std.ArithState)
    requires k == 8 * pos - b && 1 <= k <= 16 && s <= 8 && pos + 1 < |data|
    requires a.bitPos == b + s && a.offset == Window(data, off, b, s) && a.range == e.range
    requires low2 == Scaled(data, off, b, k, 16 - k + s)
    requires s < k ==> e.low == low2 && e.pos == pos
    requires k <= s ==> z == s - k && e.pos == pos + 2 && e.low == low2 + Shl(bits - CABAC_MASK, z)
    requires bits == (data[pos] as int) * 0x200 + (data[pos + 1] as int) * 2
    ensures Corresponds(data, e, a)
  {
    if s < k {
      AbsorbNoRefill(data, off, b, k, s, low2, e, a);
    } else {
      AbsorbRefill(data, off, b, k, s, pos, z, 8, bits, low2, e, a);
    }
  }

  /**
    The renormalisation and refill at the end of the ARM decision routine
    perform the standard's RenormD: from corresponding states with the
    sub-range `r` and the offset `off` inside it, the engine the routine
    leaves corresponds to the state RenormD leaves, provided the cursor is at
    or before `end`.
   */
  lemma RenormRefines(st: Stream, off: int, r: int, b: nat, pos: nat, low: int)
    requires ValidStream(st) && 1 <= r <= 510 && 0 <= off < r && pos <= st.end
    requires 1 <= 8 * pos - b <= 16
    requires low == Scaled(st.data, off, b, 8 * pos - b, 16 - (8 * pos - b))
    ensures 0 <= low < r * SCALE
    ensures Corresponds(st.data, RenormRefill(st, low, r, pos), Std.RenormD(st.data, off, r, b))
  {
    var data := st.data;
    var k: nat := 8 * pos - b;
    LowInRange(data, off, b, k, r, low);
    RenormShift(r);
    var s: nat := Clz32(r) - 23;
    StdRenormShift(data, off, r, b, s);
    var z := ArmRenormShape(st, low, r, pos, s);
    RenormJoin(data, off, r, b, k, s, pos, z, Refill(st, pos).bits, low, RenormRefill(st, low, r, pos), Std.RenormD(data, off, r, b));
  }

  /**
    The facts `ArmRenormShape` and `StdRenormShift` give about the two
    renormalised states, with the states as plain values, are enough for
    `Corresponds`.
   */
  lemma RenormJoin(data: seq<byte>, off: int, r: int, b: nat, k: nat, s: nat, pos: nat, z: nat, bits: int, low: int, e: Engine, a: Std.ArithState)
    requires k == 8 * pos - b && 1 <= k <= 16 && s <= 8 && pos + 1 < |data| && 0 <= off
    requires low == Scaled(data, off, b, k, 16 - k)
    requires StdShape(data, off, r, b, s, a) && ArmShape(low, r, pos, s, z, bits, e)
    requires bits == (data[pos] as int) * 0x200 + (data[pos + 1] as int) * 2
    ensures Corresponds(data, e, a)
  {
    ShiftedLow(data, off, b, k, s, low);
    RenormCases(data, off, b, k, s, pos, z, bits, Shl(low, s), e, a);
  }

  /** A corresponding `low` lies strictly inside the scaled unit interval of the offset, so the engine is normalised. */
  lemma CorrespondsBounds(data: seq<byte>, e: Engine, a: Std.ArithState)
    requires Corresponds(data, e, a) && Std.Valid(a)
    ensures Normalized(e)
    ensures a.offset * SCALE < e.low < (a.offset + 1) * SCALE
  {
    ScaledSplit(data, a.offset, a.bitPos, 8 * e.pos - a.bitPos);
  }

  /** Subtracting `m` scaled units from `Scaled` subtracts `m` from the offset. */
  lemma ScaledSub(data: seq<byte>, off: int, m: int, b: nat, k: nat)
    requires k <= 16
    ensures Scaled(data, off, b, k, 16 - k) - m * SCALE == Scaled(data, off - m, b, k, 16 - k)
  {
    ShlSub(off, m, k);
    ShlSub(Marked(data, off, b, k), 2 * Shl(m, k), 16 - k);
    ShlDouble(Shl(m, k), 16 - k);
    ShlShlAt(m, k, 16 - k + 1, 17);
    ShlIsMul(m, 17);
    Pow2Of16();
  }

  /** The LPS sub-range the decision routine reads for context byte `Pack(c)` is rangeTabLps[pStateIdx][qRangeIdx]. */
  lemma DecisionLps(ff: Tables, std: Std.StdTables, e: Engine, c: Std.ContextVar)
    requires PacksTables(ff, std) && Normalized(e) && Std.ValidContext(c)
    ensures LpsRange(ff, e, Pack(c) as byte) == std.rangeTabLps(c.pStateIdx, (e.range / 64) % 4)
  {
    var s := Pack(c);
    var q := (e.range / 64) % 4;
    LpsRangeAt(ff, e, s, q);
    LpsEntryAt(ff, std, c, s, q, LpsEntry(ff, s, q));
  }

  /** The decision routine reads the LPS table at `s + 128 * qRangeIdx`. */
  lemma LpsRangeAt(ff: Tables, e: Engine, s: int, q: int)
    requires Normalized(e) && 0 <= s < 128 && q == (e.range / 64) % 4
    ensures LpsRange(ff, e, s as byte) == LpsEntry(ff, s, q)
  {
  }

  /** A packed LPS entry at context byte `Pack(c)` is the standard's entry for `c`. */
  lemma LpsEntryAt(ff: Tables, std: Std.StdTables, c: Std.ContextVar, s: int, q: int, entry: int)
    requires PacksTables(ff, std) && Std.ValidContext(c) && s == Pack(c) && 0 <= q < 4 && entry == LpsEntry(ff, s, q)
    ensures entry == std.rangeTabLps(c.pStateIdx, q)
  {
    assert s / 2 == c.pStateIdx;
  }

  /** The transition entries the decision routine reads for context byte `Pack(c)` pack the standard's successor contexts. */
  lemma DecisionTransitions(ff: Tables, std: Std.StdTables, c: Std.ContextVar)
    requires PacksTables(ff, std) && Std.ValidContext(c)
    ensures ff.mlpsState(Pack(c)) == Pack(Std.MpsNext(c))
    ensures ff.mlpsState(-Pack(c) - 1) == Pack(Std.LpsNext(std, c))
  {
    var s := Pack(c);
    assert MpsEntry(ff, s) == Pack(Std.MpsNext(Unpack(s)));
    assert LpsTransEntry(ff, s) == Pack(Std.LpsNext(std, Unpack(s)));
    EntriesAt(ff, std, c, s);
  }

  /** The transition entries at a context byte `s = Pack(c)` are the packed successors of `c`. */
  lemma EntriesAt(ff: Tables, std: Std.StdTables, c: Std.ContextVar, s: int)
    requires Std.ValidContext(c) && s == Pack(c)
    requires MpsEntry(ff, s) == Pack(Std.MpsNext(Unpack(s)))
    requires LpsTransEntry(ff, s) == Pack(Std.LpsNext(std, Unpack(s)))
    ensures ff.mlpsState(Pack(c)) == Pack(Std.MpsNext(c))
    ensures ff.mlpsState(-Pack(c) - 1) == Pack(Std.LpsNext(std, c))
  {
    assert Unpack(s) == c;
  }

  /**
    The path `get_cabac_inline_arm` takes: on the LPS path the sub-range is
    the LPS range and `low` is reduced by the scaled MPS range, otherwise the
    sub-range is the MPS range and `low` is kept; the engine it leaves is
    `RenormRefill` of that sub-range and `low`.
   */
  lemma ArmDecisionPath(t: Tables, st: Stream, e: Engine, ctx: seq<byte>, k: nat) returns (low1: int, r1: int)
    requires ValidStream(st) && Normalized(e) && k < |ctx|
    ensures TakesLps(t, e, ctx[k]) ==> r1 == LpsRange(t, e, ctx[k]) && low1 == e.low - MpsRange(t, e, ctx[k]) * SCALE
    ensures !TakesLps(t, e, ctx[k]) ==> r1 == MpsRange(t, e, ctx[k]) && low1 == e.low
    ensures 1 <= r1 <= 510 && 0 <= low1 < r1 * SCALE
    ensures DecodeDecision(t, st, e, ctx, k).engine == RenormRefill(st, low1, r1, e.pos)
  {
    if TakesLps(t, e, ctx[k]) {
      r1 := LpsRange(t, e, ctx[k]);
      low1 := e.low - MpsRange(t, e, ctx[k]) * SCALE;
    } else {
      r1 := MpsRange(t, e, ctx[k]);
      low1 := e.low;
    }
  }

  /** The path DecodeDecision takes: the sub-range and offset that RenormD then renormalises. */
  lemma StdDecisionPath(std: Std.StdTables, data: seq<byte>, a: Std.ArithState, c: Std.ContextVar) returns (off1: int, r1: int)
    requires Std.Valid(a) && Std.ValidContext(c)
    ensures var lps := std.rangeTabLps(c.pStateIdx, (a.range / 64) % 4);
      (a.offset >= a.range - lps ==> r1 == lps && off1 == a.offset - (a.range - lps))
      && (a.offset < a.range - lps ==> r1 == a.range - lps && off1 == a.offset)
    ensures 1 <= r1 <= 510 && 0 <= off1 < r1
    ensures Std.DecodeDecision(std, data, a, c).state == Std.RenormD(data, off1, r1, a.bitPos)
  {
    var lps := std.rangeTabLps(c.pStateIdx, (a.range / 64) % 4);
    if a.offset >= a.range - lps {
      r1 := lps;
      off1 := a.offset - (a.range - lps);
    } else {
      r1 := a.range - lps;
      off1 := a.offset;
    }
  }

  /** A `low` strictly inside the scaled unit interval of `off` reaches `m` scaled units exactly when `off` reaches `m`. */
  lemma ScaledCompare(low: int, off: int, m: int, sc: int)
    requires sc > 0 && off * sc < low < (off + 1) * sc
    ensures low >= m * sc <==> off >= m
  {
    if off >= m {
      MulMonotone(m, off, sc);
    } else {
      MulMonotone(off + 1, m, sc);
    }
  }

  /** Both decoders take the LPS path in the same states. */
  lemma SamePath(t: Tables, e: Engine, state: byte, a: Std.ArithState, lps: int)
    requires Normalized(e) && a.offset * SCALE < e.low < (a.offset + 1) * SCALE
    requires e.range == a.range && lps == LpsRange(t, e, state)
    ensures TakesLps(t, e, state) <==> a.offset >= a.range - lps
  {
    ScaledCompare(e.low, a.offset, e.range - lps, SCALE);
  }

  /** `low` and the offset both reduced by `m` units still correspond. */
  lemma SubStep(data: seq<byte>, low: int, off: int, m: int, b: nat, k: nat, low1: int, off1: int)
    requires k <= 16 && low == Scaled(data, off, b, k, 16 - k)
    requires low1 == low - m * SCALE && off1 == off - m
    ensures low1 == Scaled(data, off1, b, k, 16 - k)
  {
    ScaledSub(data, off, m, b, k);
  }

  /**
    One renormalisation from corresponding sub-interval states: the engine
    `RenormRefill` leaves corresponds to the state RenormD leaves.
   */
  lemma RenormStepCorresponds(st: Stream, off1: int, r1: int, b: nat, pos: nat, low1: int, e': Engine, a': Std.ArithState)
    requires ValidStream(st) && 1 <= r1 <= 510 && 0 <= off1 < r1 && pos <= st.end
    requires 1 <= 8 * pos - b <= 16 && low1 == Scaled(st.data, off1, b, 8 * pos - b, 16 - (8 * pos - b))
    requires 0 <= low1 < r1 * SCALE && e' == RenormRefill(st, low1, r1, pos) && a' == Std.RenormD(st.data, off1, r1, b)
    ensures Corresponds(st.data, e', a')
  {
    RenormRefines(st, off1, r1, b, pos, low1);
  }

  /** The engine half of `DecisionRefines` on the LPS path. */
  lemma DecisionEngineLps(ff: Tables, std: Std.StdTables, st: Stream, e: Engine, a: Std.ArithState, ctx: seq<byte>, k: nat, c: Std.ContextVar)
    requires ValidStream(st) && Std.Valid(a) && Std.ValidContext(c) && e.pos <= st.end
    requires Corresponds(st.data, e, a) && Normalized(e) && k < |ctx|
    requires LpsRange(ff, e, ctx[k]) == std.rangeTabLps(c.pStateIdx, (a.range / 64) % 4)
    requires TakesLps(ff, e, ctx[k]) && a.offset >= a.range - LpsRange(ff, e, ctx[k])
    ensures Corresponds(st.data, DecodeDecision(ff, st, e, ctx, k).engine, Std.DecodeDecision(std, st.data, a, c).state)
  {
    var low1, r1 := ArmDecisionPath(ff, st, e, ctx, k);
    var off1, r2 := StdDecisionPath(std, st.data, a, c);
    var kk: nat := 8 * e.pos - a.bitPos;
    assert r1 == r2 && off1 == a.offset - MpsRange(ff, e, ctx[k]);
    SubStep(st.data, e.low, a.offset, MpsRange(ff, e, ctx[k]), a.bitPos, kk, low1, off1);
    RenormStepCorresponds(st, off1, r1, a.bitPos, e.pos, low1,
      DecodeDecision(ff, st, e, ctx, k).engine, Std.DecodeDecision(std, st.data, a, c).state);
  }

  /** The engine half of `DecisionRefines` on the MPS path. */
  lemma DecisionEngineMps(ff: Tables, std: Std.StdTables, st: Stream, e: Engine, a: Std.ArithState, ctx: seq<byte>, k: nat, c: Std.ContextVar)
    requires ValidStream(st) && Std.Valid(a) && Std.ValidContext(c) && e.pos <= st.end
    requires Corresponds(st.data, e, a) && Normalized(e) && k < |ctx|
    requires LpsRange(ff, e, ctx[k]) == std.rangeTabLps(c.pStateIdx, (a.range / 64) % 4)
    requires !TakesLps(ff, e, ctx[k]) && a.offset < a.range - LpsRange(ff, e, ctx[k])
    ensures Corresponds(st.data, DecodeDecision(ff, st, e, ctx, k).engine, Std.DecodeDecision(std, st.data, a, c).state)
  {
    var low1, r1 := ArmDecisionPath(ff, st, e, ctx, k);
    var off1, r2 := StdDecisionPath(std, st.data, a, c);
    assert r1 == r2 && off1 == a.offset && low1 == e.low;
    RenormStepCorresponds(st, off1, r1, a.bitPos, e.pos, low1,
      DecodeDecision(ff, st, e, ctx, k).engine, Std.DecodeDecision(std, st.data, a, c).state);
  }

  /** The engine half of `DecisionRefines`: the states after the bin still correspond. */
  lemma DecisionEngineRefines(ff: Tables, std: Std.StdTables, st: Stream, e: Engine, a: Std.ArithState, ctx: seq<byte>, k: nat, c: Std.ContextVar)
    requires ValidStream(st) && PacksTables(ff, std)
    requires Std.Valid(a) && Std.ValidContext(c) && Corresponds(st.data, e, a) && e.pos <= st.end
    requires k < |ctx| && ctx[k] as int == Pack(c) && Normalized(e)
    ensures Corresponds(st.data, DecodeDecision(ff, st, e, ctx, k).engine, Std.DecodeDecision(std, st.data, a, c).state)
  {
    CorrespondsBounds(st.data, e, a);
    DecisionLps(ff, std, e, c);
    SamePath(ff, e, ctx[k], a, LpsRange(ff, e, ctx[k]));
    if TakesLps(ff, e, ctx[k]) {
      DecisionEngineLps(ff, std, st, e, a, ctx, k, c);
    } else {
      DecisionEngineMps(ff, std, st, e, a, ctx, k, c);
    }
  }

  lemma CorrespondsTransfer(data: seq<byte>, e: Engine, a: Std.ArithState, e': Engine, a': Std.ArithState)
    requires Corresponds(data, e, a) && e == e' && a == a'
    ensures Corresponds(data, e', a')
  {
  }

  /** The bin and context half of `DecisionRefines`, for table entries that agree with the standard's. */
  lemma DecisionBinCore(ff: Tables, std: Std.StdTables, st: Stream, e: Engine, a: Std.ArithState, ctx: seq<byte>, k: nat, c: Std.ContextVar)
    requires ValidStream(st) && Std.Valid(a) && Std.ValidContext(c) && Normalized(e)
    requires k < |ctx| && ctx[k] as int == Pack(c)
    requires TakesLps(ff, e, ctx[k]) <==> a.offset >= a.range - std.rangeTabLps(c.pStateIdx, (a.range / 64) % 4)
    requires ff.mlpsState(Pack(c)) == Pack(Std.MpsNext(c))
    requires ff.mlpsState(-Pack(c) - 1) == Pack(Std.LpsNext(std, c))
    ensures var r := DecodeDecision(ff, st, e, ctx, k); var s := Std.DecodeDecision(std, st.data, a, c);
      r.bit == s.bin && r.ctx == ctx[k := Pack(s.ctx) as byte]
  {
  }

  /** The bin and context half of `DecisionRefines`. */
  lemma DecisionBinRefines(ff: Tables, std: Std.StdTables, st: Stream, e: Engine, a: Std.ArithState, ctx: seq<byte>, k: nat, c: Std.ContextVar)
    requires ValidStream(st) && PacksTables(ff, std)
    requires Std.Valid(a) && Std.ValidContext(c) && Corresponds(st.data, e, a)
    requires k < |ctx| && ctx[k] as int == Pack(c) && Normalized(e)
    ensures var r := DecodeDecision(ff, st, e, ctx, k); var s := Std.DecodeDecision(std, st.data, a, c);
      r.bit == s.bin && r.ctx == ctx[k := Pack(s.ctx) as byte]
  {
    CorrespondsBounds(st.data, e, a);
    DecisionLps(ff, std, e, c);
    DecisionTransitions(ff, std, c);
    SamePath(ff, e, ctx[k], a, LpsRange(ff, e, ctx[k]));
    DecisionBinCore(ff, std, st, e, a, ctx, k, c);
  }

  /**
    One context-coded bin: from corresponding states, with the context byte
    packing the context variable and the cursor at or before `end`, the ARM
    routine returns the standard's bin, stores the packed successor context
    and leaves a state corresponding to the standard's.
   */
  lemma DecisionRefines(ff: Tables, std: Std.StdTables, st: Stream, e: Engine, a: Std.ArithState, ctx: seq<byte>, k: nat, c: Std.ContextVar)
    requires ValidStream(st) && PacksTables(ff, std)
    requires Std.Valid(a) && Std.ValidContext(c) && Corresponds(st.data, e, a) && e.pos <= st.end
    requires k < |ctx| && ctx[k] as int == Pack(c)
    ensures Normalized(e)
    ensures var r := DecodeDecision(ff, st, e, ctx, k); var s := Std.DecodeDecision(std, st.data, a, c);
      r.bit == s.bin && r.ctx == ctx[k := Pack(s.ctx) as byte] && Corresponds(st.data, r.engine, s.state)
  {
    CorrespondsBounds(st.data, e, a);
    DecisionBinRefines(ff, std, st, e, a, ctx, k, c);
    DecisionEngineRefines(ff, std, st, e, a, ctx, k, c);
  }
}
