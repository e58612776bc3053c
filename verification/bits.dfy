/** Bitwise operators of C, Go and Ruby on fixed-width integers, written as functions on the
    unsigned value of the bit pattern, with the arithmetic facts the codecs rely on. */
module Bits {
  type byte = b: int | 0 <= b < 256

  function Pow2(n: nat): (r: nat)
    ensures r > 0
  {
    if n == 0 then 1 else 2 * Pow2(n - 1)
  }

  function Pow256(k: nat): (r: nat)
    ensures r > 0
  {
    if k == 0 then 1 else 256 * Pow256(k - 1)
  }

  function And(a: nat, b: nat): nat {
    if a == 0 || b == 0 then 0
    else 2 * And(a / 2, b / 2) + (if a % 2 == 1 && b % 2 == 1 then 1 else 0)
  }

  function Or(a: nat, b: nat): nat {
    if a == 0 then b
    else 2 * Or(a / 2, b / 2) + (if a % 2 == 1 || b % 2 == 1 then 1 else 0)
  }

  function Xor(a: nat, b: nat): nat
    decreases a + b
  {
    if a == 0 then b else if b == 0 then a
    else 2 * Xor(a / 2, b / 2) + (if a % 2 != b % 2 then 1 else 0)
  }

  // Shifts of an unsigned value; a left shift is reduced to the register width by U32 or U64.
  function Shl(a: nat, k: nat): nat { if k == 0 then a else 2 * Shl(a, k - 1) }
  function Shr(a: nat, k: nat): nat { if k == 0 then a else Shr(a / 2, k - 1) }

  const TWO16 := 0x1_0000
  const TWO31 := 0x8000_0000
  const TWO32 := 0x1_0000_0000
  const TWO63 := 0x8000_0000_0000_0000
  const TWO64 := 0x1_0000_0000_0000_0000

  // Two's complement: the bit pattern of a signed value, and the signed value of a bit pattern.
  function U32(n: int): nat { n % TWO32 }
  function U64(n: int): nat { n % TWO64 }
  function S8(n: int): int { var u := n % 256; if u < 128 then u else u - 256 }
  function S16(n: int): int { var u := n % TWO16; if u < 0x8000 then u else u - TWO16 }
  function S32(n: int): int { var u := n % TWO32; if u < TWO31 then u else u - TWO32 }
  function S64(n: int): int { var u := n % TWO64; if u < TWO63 then u else u - TWO64 }

  /** The signed value is the one in range with the same remainder. */
  lemma TwosComplement(n: int)
    ensures IsInt8(S8(n)) && S8(n) % 256 == n % 256
    ensures IsInt16(S16(n)) && S16(n) % TWO16 == n % TWO16
    ensures IsInt32(S32(n)) && S32(n) % TWO32 == n % TWO32
    ensures IsInt64(S64(n)) && S64(n) % TWO64 == n % TWO64
  {
  }

  predicate IsInt8(n: int) { -128 <= n < 128 }
  predicate IsInt16(n: int) { -0x8000 <= n < 0x8000 }
  predicate IsInt32(n: int) { -TWO31 <= n < TWO31 }
  predicate IsInt64(n: int) { -TWO63 <= n < TWO63 }

  lemma {:induction false} Pow2Add(a: nat, b: nat)
    ensures Pow2(a + b) == Pow2(a) * Pow2(b)
  {
    if a == 0 {
    } else {
      Pow2Add(a - 1, b);
      assert Pow2(a + b) == 2 * (Pow2(a - 1) * Pow2(b)) == (2 * Pow2(a - 1)) * Pow2(b);
    }
  }

  lemma Pow2Values()
    ensures Pow2(4) == 16 && Pow2(7) == 128 && Pow2(8) == 256
    ensures Pow2(31) == TWO31 && Pow2(32) == TWO32 && Pow2(63) == TWO63 && Pow2(64) == TWO64
  {
    assert Pow2(3) == 8;
    assert Pow2(4) == 16;
    assert Pow2(7) == 128 by { Pow2Add(3, 4); }
    assert Pow2(8) == 256;
    assert Pow2(16) == TWO16 by { Pow2Add(8, 8); }
    assert Pow2(32) == TWO32 by { Pow2Add(16, 16); }
    assert Pow2(31) == TWO31;
    assert Pow2(64) == TWO64 by { Pow2Add(32, 32); }
    assert Pow2(63) == TWO63;
  }

  /** The value of the low k bits. */
  function LowBits(a: nat, k: nat): nat {
    if k == 0 then 0 else 2 * LowBits(a / 2, k - 1) + a % 2
  }

  lemma {:induction false} SplitBits(a: nat, k: nat)
    ensures a == Shl(Shr(a, k), k) + LowBits(a, k) && LowBits(a, k) < Pow2(k)
  {
    if k > 0 { SplitBits(a / 2, k - 1); }
  }

  lemma LowBitsIsMod(a: nat, k: nat)
    ensures LowBits(a, k) == a % Pow2(k)
  {
    hide Shl, Shr, LowBits;
    SplitBits(a, k);
    ShlIsMul(Shr(a, k), k);
    DivModUnique(a, Pow2(k), Shr(a, k), LowBits(a, k));
  }

  /** A mask of k ones keeps the value modulo 2^k. */
  lemma {:induction false} AndMask(a: nat, k: nat)
    ensures And(a, Pow2(k) - 1) == a % Pow2(k)
  {
    AndLowBits(a, k);
    LowBitsIsMod(a, k);
  }

  lemma {:induction false} AndLowBits(a: nat, k: nat)
    ensures And(a, Pow2(k) - 1) == LowBits(a, k)
  {
    if k > 0 {
      hide And;
      assert Pow2(k) - 1 == 2 * (Pow2(k - 1) - 1) + 1;
      AndLowBits(a / 2, k - 1);
      AndOdd(a, Pow2(k - 1) - 1);
    }
  }

  lemma AndOdd(a: nat, m: nat)
    ensures And(a, 2 * m + 1) == 2 * And(a / 2, m) + a % 2
  {
    assert (2 * m + 1) / 2 == m;
  }

  lemma DivModUnique(a: int, d: int, q: int, r: int)
    requires d > 0 && 0 <= r < d && a == d * q + r
    ensures a / d == q && a % d == r
  {
    var q', r' := a / d, a % d;
    assert d * (q - q') == r' - r;
    assert q - q' >= 1 ==> d * (q - q') >= d;
    assert q - q' <= -1 ==> d * (q - q') <= -d;
  }

  /** A mask whose low k bits are clear ignores the low k bits. */
  lemma {:induction false} AndShift(a: nat, m: nat, k: nat)
    ensures And(a, Shl(m, k)) == Shl(And(Shr(a, k), m), k)
  {
    if k > 0 { AndShift(a / 2, m, k - 1); }
  }

  lemma {:induction false} ShlIsMul(m: nat, k: nat)
    ensures Shl(m, k) == m * Pow2(k)
  {
    if k > 0 {
      ShlIsMul(m, k - 1);
      MulDouble(m, Pow2(k - 1));
    }
  }

  lemma MulDouble(m: nat, p: nat)
    ensures m * (2 * p) == 2 * (m * p)
  {
  }

  lemma {:induction false} ShlAdd(x: nat, y: nat, k: nat)
    ensures Shl(x + y, k) == Shl(x, k) + Shl(y, k)
  {
    if k > 0 { ShlAdd(x, y, k - 1); }
  }

  lemma {:induction false} ShlShl(x: nat, j: nat, k: nat)
    ensures Shl(x, j + k) == Shl(Shl(x, j), k)
  {
    if k > 0 { ShlShl(x, j, k - 1); }
  }

  lemma {:induction false} ShlOne(k: nat)
    ensures Shl(1, k) == Pow2(k)
  {
    if k > 0 { ShlOne(k - 1); }
  }

  /** Reducing a shifted value modulo 2^w drops exactly the bits that leave the register. */
  lemma {:induction false} ShlMod(x: nat, k: nat, w: nat)
    requires k <= w
    ensures Shl(x, k) % Pow2(w) == Shl(x % Pow2(w - k), k) <= Pow2(w) - Pow2(k)
  {
    if k == 0 {
    } else {
      ShlMod(x, k - 1, w - 1);
      ModEven(Shl(x, k - 1), Pow2(w - 1));
    }
  }

  lemma ModEven(a: nat, p: nat)
    requires p > 0
    ensures 2 * a % (2 * p) == 2 * (a % p)
  {
    var q, r := a / p, a % p;
    assert 2 * a == (2 * p) * q + 2 * r;
    DivModUnique(2 * a, 2 * p, q, 2 * r);
  }

  lemma ShrIsDiv(a: nat, k: nat)
    ensures Shr(a, k) == a / Pow2(k)
  {
    hide Shl, Shr, LowBits;
    SplitBits(a, k);
    ShlIsMul(Shr(a, k), k);
    DivModUnique(a, Pow2(k), Shr(a, k), LowBits(a, k));
  }

  /** Or of two patterns that do not overlap is their sum. */
  lemma {:induction false} OrDisjoint(a: nat, b: nat, k: nat)
    requires a < Pow2(k)
    ensures Or(a, Shl(b, k)) == a + Shl(b, k)
  {
    if k > 0 && a > 0 { OrDisjoint(a / 2, b, k - 1); }
  }

  /** Xor with k ones complements a k-bit pattern. */
  lemma {:induction false} XorOnes(a: nat, k: nat)
    requires a < Pow2(k)
    ensures Xor(a, Pow2(k) - 1) == Pow2(k) - 1 - a
  {
    if k == 0 || a == 0 {
    } else {
      hide Xor;
      var p := Pow2(k - 1);
      assert Pow2(k) - 1 == 2 * (p - 1) + 1;
      XorOnes(a / 2, k - 1);
      XorOdd(a, p - 1);
    }
  }

  lemma XorOdd(a: nat, m: nat)
    ensures Xor(a, 2 * m + 1) == 2 * Xor(a / 2, m) + 1 - a % 2
  {
    assert (2 * m + 1) / 2 == m;
  }

  lemma XorZero(a: nat)
    ensures Xor(a, 0) == a
  {
  }

  /** Joining two nibbles into a byte. */
  lemma JoinNibbles(hi: nat, lo: nat)
    requires hi < 16 && lo < 16
    ensures Or(Shl(hi, 4), lo) == 16 * hi + lo
  {
    var four := 4;
    assert Pow2(four) == 16 by { Pow2Values(); }
    assert Shl(hi, four) == 16 * hi by { ShlIsMul(hi, four); }
    OrComm(16 * hi, lo);
    OrDisjoint(lo, hi, four);
  }

  lemma JoinHighNibble(lo: nat)
    requires lo < 16
    ensures Or(0xf0, lo) == 0xf0 + lo
  {
    var four := 4;
    assert Pow2(four) == 16 by { Pow2Values(); }
    assert Shl(15, four) == 0xf0 by { ShlIsMul(15, four); }
    OrComm(0xf0, lo);
    OrDisjoint(lo, 15, four);
  }

  /** Splitting a byte into its nibbles. */
  lemma SplitNibbles(b: byte)
    ensures And(b, 0x0f) == b % 16
    ensures Shr(And(b, 0xf0), 4) == b / 16
  {
    var four := 4;
    assert Pow2(four) == 16 by { Pow2Values(); }
    AndMask(b, four);
    assert Shl(15, four) == 0xf0 by { ShlIsMul(15, four); }
    assert Shr(b, four) == b / 16 by { ShrIsDiv(b, four); }
    AndShift(b, 15, four);
    assert And(b / 16, 15) == b / 16 by { AndMask(b / 16, four); }
    assert And(b, 0xf0) == 16 * (b / 16) by { ShlIsMul(b / 16, four); }
    assert Shr(16 * (b / 16), 4) == b / 16 by { ShrIsDiv(16 * (b / 16), 4); }
  }

  lemma {:induction false} OrComm(a: nat, b: nat)
    ensures Or(a, b) == Or(b, a)
    decreases a + b
  {
    if a == 0 {
      OrZero(b);
    } else if b == 0 {
      OrZero(a);
    } else {
      OrComm(a / 2, b / 2);
    }
  }

  lemma {:induction false} OrZero(b: nat)
    ensures Or(b, 0) == b
  {
    if b != 0 { OrZero(b / 2); }
  }
}
