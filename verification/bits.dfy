/**
  Integer views of the 32-bit ARM bit operations the CABAC routines of
  libavcodec/arm/cabac.h rely on: shifts as multiplication by powers of two,
  count-leading-zeros (`clz`), count-trailing-zeros (`rbit` followed by `clz`)
  and the byte reversal `rev`.
 */
module Bits {

  const WORD: nat := 0x1_0000_0000

  type byte = x: int | 0 <= x < 256

  /** 2^n: a left shift by `n` is a multiplication by `Pow2(n)`. */
  function Pow2(n: nat): (r: nat)
    ensures r >= 1
    decreases n
  {
    if n == 0 then 1 else 2 * Pow2(n - 1)
  }

  lemma {:induction false} Pow2Add(a: nat, b: nat)
    ensures Pow2(a + b) == Pow2(a) * Pow2(b)
    decreases b
  {
    if b > 0 {
      Pow2Add(a, b - 1);
      calc {
        Pow2(a + b);
        2 * Pow2(a + b - 1);
        2 * (Pow2(a) * Pow2(b - 1));
        Pow2(a) * (2 * Pow2(b - 1));
      }
    }
  }

  lemma {:induction false} Pow2Monotone(a: nat, b: nat)
    requires a <= b
    ensures Pow2(a) <= Pow2(b)
    decreases b - a
  {
    if a < b {
      Pow2Monotone(a, b - 1);
    }
  }

  /** `Pow2Add` with the sum named, so that callers' terms match syntactically. */
  lemma Pow2Split(n: nat, a: nat, b: nat)
    requires n == a + b
    ensures Pow2(n) == Pow2(a) * Pow2(b)
  {
    Pow2Add(a, b);
  }

  lemma Pow2Values()
    ensures Pow2(1) == 2 && Pow2(8) == 256 && Pow2(9) == 512
    ensures Pow2(15) == 0x8000 && Pow2(16) == 0x1_0000 && Pow2(17) == 0x2_0000
    ensures Pow2(31) == 0x8000_0000 && Pow2(32) == WORD
  {
    assert Pow2(8) == 256 by {
      assert Pow2(4) == 16;
    }
    assert Pow2(16) == 0x1_0000 by {
      Pow2Add(8, 8);
    }
    assert Pow2(15) == 0x8000;
    assert Pow2(17) == 0x2_0000;
    assert Pow2(32) == WORD by {
      Pow2Add(16, 16);
    }
    assert Pow2(31) == 0x8000_0000;
  }

  /** `x << n` on unbounded integers: `n` doublings. */
  function Shl(x: int, n: nat): int
    decreases n
  {
    if n == 0 then x else 2 * Shl(x, n - 1)
  }

  /** A left shift by `n` is a multiplication by 2^n. */
  lemma {:induction false} ShlIsMul(x: int, n: nat)
    ensures Shl(x, n) == x * Pow2(n)
    decreases n
  {
    if n > 0 {
      ShlIsMul(x, n - 1);
      MulAssoc(x, 2, Pow2(n - 1));
    }
  }

  /** A left shift distributes over a sum. */
  lemma {:induction false} ShlAdd(x: int, y: int, n: nat)
    ensures Shl(x + y, n) == Shl(x, n) + Shl(y, n)
    decreases n
  {
    if n > 0 {
      ShlAdd(x, y, n - 1);
    }
  }

  /** A left shift distributes over a difference. */
  lemma {:induction false} ShlSub(x: int, y: int, n: nat)
    ensures Shl(x - y, n) == Shl(x, n) - Shl(y, n)
    decreases n
  {
    if n > 0 {
      ShlSub(x, y, n - 1);
    }
  }

  /** Two left shifts are one by the sum of the amounts. */
  lemma {:induction false} ShlShl(x: int, m: nat, n: nat)
    ensures Shl(Shl(x, m), n) == Shl(x, m + n)
    decreases n
  {
    if n > 0 {
      ShlShl(x, m, n - 1);
    }
  }

  /** `ShlShl` with the total shift named, so that callers' terms match syntactically. */
  lemma ShlShlAt(x: int, m: nat, n: nat, t: nat)
    requires t == m + n
    ensures Shl(Shl(x, m), n) == Shl(x, t)
  {
    ShlShl(x, m, n);
  }

  /** Shifting a non-negative number left never makes it smaller. */
  lemma {:induction false} ShlGrows(x: int, n: nat)
    requires x >= 0
    ensures Shl(x, n) >= x
    decreases n
  {
    if n > 0 {
      ShlGrows(x, n - 1);
    }
  }

  /** Doubling and then shifting by `n` is shifting by `n + 1`. */
  lemma {:induction false} ShlDouble(x: int, n: nat)
    ensures Shl(2 * x, n) == Shl(x, n + 1)
    decreases n
  {
    if n > 0 {
      ShlDouble(x, n - 1);
    }
  }

  /** Number of significant bits of `x` (0 for 0). */
  function BitLength(x: nat): (n: nat)
    decreases x
  {
    if x == 0 then 0 else 1 + BitLength(x / 2)
  }

  lemma {:induction false} BitLengthBounds(x: nat)
    ensures x >= 1 ==> BitLength(x) >= 1
    ensures x >= 1 ==> Pow2(BitLength(x) - 1) <= x < Pow2(BitLength(x))
    decreases x
  {
    if x >= 2 {
      BitLengthBounds(x / 2);
    }
  }

  lemma {:induction false} BitLengthAtMost(x: nat, n: nat)
    requires x < Pow2(n)
    ensures BitLength(x) <= n
    decreases x
  {
    if x > 0 {
      assert n >= 1;
      BitLengthAtMost(x / 2, n - 1);
    }
  }

  /** `clz` on a 32-bit register: the number of zero bits above the highest set bit. */
  function Clz32(x: nat): (c: nat)
    requires x < WORD
    ensures c <= 32
    ensures x == 0 <==> c == 32
    ensures x > 0 ==> Pow2(31 - c) <= x < Pow2(32 - c)
  {
    Pow2Values();
    BitLengthAtMost(x, 32);
    BitLengthBounds(x);
    32 - BitLength(x)
  }

  /** Trailing zero count of a positive integer. */
  function TrailingZeros(x: nat): (z: nat)
    requires x > 0
    ensures x % Pow2(z) == 0
    ensures (x / Pow2(z)) % 2 == 1
    decreases x
  {
    if x % 2 == 1 then 0
    else
      var z' := TrailingZeros(x / 2);
      DivPow2Step(x, z');
      1 + z'
  }

  /** For even `x`, dividing by 2^(z+1) is halving and then dividing by 2^z. */
  lemma DivPow2Step(x: nat, z: nat)
    requires x % 2 == 0
    requires (x / 2) % Pow2(z) == 0
    ensures x % Pow2(z + 1) == 0
    ensures x / Pow2(z + 1) == (x / 2) / Pow2(z)
  {
    var h := x / 2;
    var q := h / Pow2(z);
    assert h == q * Pow2(z);
    assert x == q * Pow2(z + 1) by {
      assert Pow2(z + 1) == 2 * Pow2(z);
      assert x == 2 * h;
    }
    DivMulExact(q, Pow2(z + 1));
  }

  /** Exact division: `q * d` divided by `d` is `q` with no remainder. */
  lemma DivMulExact(q: int, d: int)
    requires d > 0
    ensures (q * d) / d == q && (q * d) % d == 0
  {
    var x := q * d;
    var k := x / d;
    assert (q - k) * d == x % d;
    MulBounds(q - k, d);
  }

  lemma MulBounds(a: int, d: int)
    requires d > 0
    ensures a >= 1 ==> a * d >= d
    ensures a <= -1 ==> a * d <= -d
  {
  }

  /** `clz(rbit(x))` on a 32-bit register: the trailing zero count, 32 for 0. */
  function Ctz32(x: nat): (c: nat)
    requires x < WORD
  {
    if x == 0 then 32 else TrailingZeros(x)
  }

  /** An odd multiple of 2^t has exactly t trailing zeros. */
  lemma {:induction false} TrailingZerosOddShift(odd: nat, t: nat)
    requires odd % 2 == 1
    ensures TrailingZeros(odd * Pow2(t)) == t
    decreases t
  {
    if t == 0 {
      assert odd * Pow2(t) == odd;
    } else {
      TrailingZerosOddShift(odd, t - 1);
      DoubleProduct(odd, Pow2(t), Pow2(t - 1));
      TrailingZerosDouble(odd * Pow2(t), odd * Pow2(t - 1));
    }
  }

  /** Doubling one factor doubles a product of positive numbers. */
  lemma DoubleProduct(x: nat, q: nat, p: nat)
    requires q == 2 * p && x >= 1 && p >= 1
    ensures x * q == 2 * (x * p) && x * p >= 1
  {
    MulBounds(p, x);
  }

  /** Doubling a positive number adds one trailing zero. */
  lemma TrailingZerosDouble(x: nat, y: nat)
    requires y > 0 && x == 2 * y
    ensures TrailingZeros(x) == 1 + TrailingZeros(y)
  {
    assert x % 2 == 0 && x / 2 == y;
  }

  lemma Pow2Of8()
    ensures Pow2(8) == 256 && Pow2(9) == 512
  {
    assert Pow2(4) == 16;
  }

  lemma Pow2Of16()
    ensures Pow2(16) == 0x1_0000
  {
    assert Pow2(8) == 256 by {
      assert Pow2(4) == 16;
    }
    Pow2Add(8, 8);
  }

  /** An odd multiple of 2^t is a multiple of 2^16 exactly when t >= 16. */
  lemma OddShiftLow16(odd: nat, t: nat)
    requires odd % 2 == 1
    ensures (odd * Pow2(t)) % 0x1_0000 == 0 <==> t >= 16
  {
    Pow2Of16();
    if t >= 16 {
      var p := Pow2(t - 16);
      Pow2Add(16, t - 16);
      assert Pow2(t) == 0x1_0000 * p;
      MulAssoc(odd, 0x1_0000, p);
      assert odd * Pow2(t) == (odd * p) * 0x1_0000;
      DivMulExact(odd * p, 0x1_0000);
    } else {
      var m := Pow2(16 - t - 1);
      assert Pow2(16 - t) == 2 * m;
      Pow2Add(t, 16 - t);
      OddNotMultiple(odd, Pow2(t), m);
    }
  }

  lemma MulAssoc(a: int, b: int, c: int)
    ensures a * (b * c) == (a * b) * c
    ensures a * (b * c) == (a * c) * b
  {
  }

  lemma OddNotMultiple(odd: int, p: int, m: int)
    requires odd % 2 == 1
    requires p > 0 && m > 0
    ensures (odd * p) % (p * (2 * m)) != 0
  {
    var d := p * (2 * m);
    if (odd * p) % d == 0 {
      var q := (odd * p) / d;
      assert odd * p == q * d;
      MulAssoc(q, p, 2 * m);
      assert q * d == (q * (2 * m)) * p;
      MulCancel(odd, q * (2 * m), p);
      assert odd == (q * m) * 2;
      DivMulExact(q * m, 2);
    }
  }

  /** One step of a most-significant-bit-first accumulation, regrouped. */
  lemma DoubleStep(x: int, p: int, q: int, y: int, c: int)
    requires q == 2 * p
    ensures 2 * (x * p + y) + c == x * q + (2 * y + c)
  {
  }

  lemma MulCancel(a: int, b: int, c: int)
    requires c > 0
    requires a * c == b * c
    ensures a == b
  {
  }

  /** `rev` on a 32-bit register: the four bytes in reverse order. */
  function ByteSwap32(w: nat): (r: nat)
    requires w < WORD
    ensures r < WORD
  {
    var b0 := w % 0x100;
    var b1 := (w / 0x100) % 0x100;
    var b2 := (w / 0x1_0000) % 0x100;
    var b3 := w / 0x100_0000;
    b0 * 0x100_0000 + b1 * 0x1_0000 + b2 * 0x100 + b3
  }

  /**
    `rev` followed by a logical right shift by 15 keeps the top 17 bits of the
    reversed word: byte 0 of `w`, byte 1 of `w` and the top bit of byte 2.
   */
  lemma ByteSwapShift15(w: nat)
    requires w < WORD
    ensures ByteSwap32(w) / 0x8000
         == (w % 0x100) * 0x200 + ((w / 0x100) % 0x100) * 2 + ((w / 0x1_0000) % 0x100) / 0x80
  {
    var b0 := w % 0x100;
    var b1 := (w / 0x100) % 0x100;
    var b2 := (w / 0x1_0000) % 0x100;
    var b3 := w / 0x100_0000;
    var lowPart := b2 * 0x100 + b3;
    assert ByteSwap32(w) == (b0 * 0x200 + b1 * 2) * 0x8000 + lowPart;
    assert lowPart == (b2 / 0x80) * 0x8000 + ((b2 % 0x80) * 0x100 + b3);
    assert (b2 % 0x80) * 0x100 + b3 < 0x8000;
  }

  /** The bitwise `and` of two non-negative integers, one bit at a time from the least significant. */
  function And(x: nat, y: nat): (r: nat)
    ensures r <= x
    decreases x
  {
    if x == 0 || y == 0 then 0 else 2 * And(x / 2, y / 2) + (if x % 2 == 1 && y % 2 == 1 then 1 else 0)
  }

  /** A mask shifted left by one keeps the bits of `x / 2`, shifted left by one. */
  lemma AndShiftedMask(x: nat, y: nat)
    requires y > 0
    ensures And(x, 2 * y) == 2 * And(x / 2, y)
  {
    assert (2 * y) / 2 == y && (2 * y) % 2 == 0;
  }

  /** `and` with 3 keeps the two low bits. */
  lemma AndThree(x: nat)
    ensures And(x, 3) == x % 4
  {
    if x > 0 {
      assert And(x / 2, 1) == (x / 2) % 2;
    }
  }

  /** `and` with 0xC0 keeps bits 6 and 7. */
  lemma AndC0(x: nat)
    ensures And(x, 0xC0) == 0x40 * ((x / 0x40) % 4)
  {
    var x1 := x / 2;
    var x2 := x1 / 2;
    var x3 := x2 / 2;
    var x4 := x3 / 2;
    var x5 := x4 / 2;
    var x6 := x5 / 2;
    AndShiftedMask(x, 0x60);
    AndShiftedMask(x1, 0x30);
    AndShiftedMask(x2, 0x18);
    AndShiftedMask(x3, 0xC);
    AndShiftedMask(x4, 6);
    AndShiftedMask(x5, 3);
    AndThree(x6);
    DivUnique(x, 0x40, x6, x - 0x40 * x6);
  }

  /** A multiple of `d` is its quotient times `d`. */
  lemma DivExact(x: int, d: int)
    requires d > 0 && x % d == 0
    ensures x == (x / d) * d
  {
  }

  /** Division with a remainder in [0, d) has one quotient. */
  lemma DivUnique(x: int, d: int, q: int, rest: int)
    requires d > 0 && 0 <= rest < d && x == q * d + rest
    ensures x / d == q
  {
    var q' := x / d;
    var rest' := x % d;
    assert (q - q') * d == rest' - rest;
    MulBounds(q - q', d);
  }
}
