/** Zigzag and varint arithmetic of the compact protocol (Go; the Ruby extension uses the same
    bit operations). Registers are modelled by the unsigned value of their bit pattern. */
module Varint {
  import opened Bits
  import opened Wrappers

  // ----- zigzag: literal bit operations -----

  // (n << 1) ^ (n >> 31); the right shift of a signed value rounds towards minus infinity.
  function Int32ToZigzag(n: int): int
    requires IsInt32(n)
  {
    S32(Xor(U32(n * 2), U32(n / TWO31)))
  }

  // int32(u>>1) ^ -(n & 1)
  function ZigzagToInt32(n: int): int
    requires IsInt32(n)
  {
    var low: int := And(U32(n), 1);
    S32(Xor(Shr(U32(n), 1), U32(-low)))
  }

  function Int64ToZigzag(n: int): int
    requires IsInt64(n)
  {
    S64(Xor(U64(n * 2), U64(n / TWO63)))
  }

  function ZigzagToInt64(n: int): int
    requires IsInt64(n)
  {
    var low: int := And(U64(n), 1);
    S64(Xor(Shr(U64(n), 1), U64(-low)))
  }

  /** The interleaving 0, -1, 1, -2, 2, ... that zigzag is meant to compute. */
  function Interleave(n: int): nat {
    if n >= 0 then 2 * n else -2 * n - 1
  }

  lemma Zigzag32Interleaves(n: int)
    requires IsInt32(n)
    ensures U32(Int32ToZigzag(n)) == Interleave(n) < TWO32
  {
    Doubled32(n);
    Complement32(U32(n * 2));
    PatternOf32(Interleave(n));
  }

  lemma Doubled32(n: int)
    requires IsInt32(n)
    ensures U32(n * 2) == if n >= 0 then 2 * n else TWO32 + 2 * n
    ensures n / TWO31 == if n >= 0 then 0 else -1
  {
  }

  lemma Complement32(u: nat)
    requires u < TWO32
    ensures Xor(u, U32(0)) == u && Xor(u, U32(-1)) == TWO32 - 1 - u
  {
    XorZero(u);
    var ones := 32;
    assert Pow2(ones) == TWO32 by { Pow2Values(); }
    XorOnes(u, ones);
  }

  lemma PatternOf32(u: nat)
    requires u < TWO32
    ensures U32(S32(u)) == u
  {
  }

  lemma Zigzag64Interleaves(n: int)
    requires IsInt64(n)
    ensures U64(Int64ToZigzag(n)) == Interleave(n) < TWO64
  {
    Doubled64(n);
    Complement64(U64(n * 2));
    PatternOf64(Interleave(n));
  }

  lemma Doubled64(n: int)
    requires IsInt64(n)
    ensures U64(n * 2) == if n >= 0 then 2 * n else TWO64 + 2 * n
    ensures n / TWO63 == if n >= 0 then 0 else -1
  {
  }

  lemma Complement64(u: nat)
    requires u < TWO64
    ensures Xor(u, U64(0)) == u && Xor(u, U64(-1)) == TWO64 - 1 - u
  {
    XorZero(u);
    var ones := 64;
    assert Pow2(ones) == TWO64 by { Pow2Values(); }
    XorOnes(u, ones);
  }

  lemma PatternOf64(u: nat)
    requires u < TWO64
    ensures U64(S64(u)) == u
  {
  }

  lemma InterleaveInjective(a: int, b: int)
    requires Interleave(a) == Interleave(b)
    ensures a == b
  {
  }

  lemma LowBit(u: nat)
    ensures And(u, 1) == u % 2
  {
    var one := 1;
    assert Pow2(one) == 2;
    AndMask(u, one);
  }

  /** Zigzag is a bijection on 32-bit patterns, and ZigzagToInt32 is its inverse on both sides. */
  lemma Zigzag32RoundTrip(n: int)
    requires IsInt32(n)
    ensures IsInt32(Int32ToZigzag(n)) && ZigzagToInt32(Int32ToZigzag(n)) == n
    ensures IsInt32(ZigzagToInt32(n)) && Int32ToZigzag(ZigzagToInt32(n)) == n
  {
    ZigzagDecodes32(n);
    ZigzagInverse32(n);
  }

  lemma ZigzagInverse32(n: int)
    requires IsInt32(n)
    ensures IsInt32(ZigzagToInt32(n)) && Int32ToZigzag(ZigzagToInt32(n)) == n
  {
    Unzigzag32(n);
    Zigzag32Interleaves(ZigzagToInt32(n));
    SamePattern32(Int32ToZigzag(ZigzagToInt32(n)), n);
  }

  lemma ZigzagDecodes32(n: int)
    requires IsInt32(n)
    ensures IsInt32(Int32ToZigzag(n)) && ZigzagToInt32(Int32ToZigzag(n)) == n
  {
    Zigzag32Interleaves(n);
    Unzigzag32(Int32ToZigzag(n));
    InterleaveInjective(n, ZigzagToInt32(Int32ToZigzag(n)));
  }

  lemma SamePattern32(a: int, b: int)
    requires IsInt32(a) && IsInt32(b) && U32(a) == U32(b)
    ensures a == b
  {
  }

  lemma UnzigzagBits(u: nat, w: nat)
    requires u < Pow2(w)
    ensures And(u, 1) == u % 2
    ensures Xor(Shr(u, 1), 0) == u / 2
    ensures Xor(Shr(u, 1), Pow2(w) - 1) == Pow2(w) - 1 - u / 2
  {
    LowBit(u);
    assert Shr(u, 1) == Shr(u / 2, 0) == u / 2;
    XorZero(u / 2);
    XorOnes(u / 2, w);
  }

  lemma UnzigzagBits32(u: nat)
    requires u < TWO32
    ensures And(u, 1) == u % 2
    ensures Xor(Shr(u, 1), 0) == u / 2
    ensures Xor(Shr(u, 1), TWO32 - 1) == TWO32 - 1 - u / 2
  {
    var w := 32;
    assert Pow2(w) == TWO32 by { Pow2Values(); }
    UnzigzagBits(u, w);
  }

  lemma Halves32(u: nat)
    requires u < TWO32
    ensures u % 2 == 0 ==> Interleave(S32(u / 2)) == u
    ensures u % 2 == 1 ==> Interleave(S32(TWO32 - 1 - u / 2)) == u
  {
  }

  lemma Unzigzag32(z: int)
    requires IsInt32(z)
    ensures IsInt32(ZigzagToInt32(z)) && Interleave(ZigzagToInt32(z)) == U32(z)
  {
    hide And, Xor, Shr;
    UnzigzagBits32(U32(z));
    Halves32(U32(z));
  }

  /** The 64-bit statement. */
  lemma Zigzag64RoundTrip(n: int)
    requires IsInt64(n)
    ensures IsInt64(Int64ToZigzag(n)) && ZigzagToInt64(Int64ToZigzag(n)) == n
    ensures IsInt64(ZigzagToInt64(n)) && Int64ToZigzag(ZigzagToInt64(n)) == n
  {
    ZigzagDecodes64(n);
    ZigzagInverse64(n);
  }

  lemma ZigzagInverse64(n: int)
    requires IsInt64(n)
    ensures IsInt64(ZigzagToInt64(n)) && Int64ToZigzag(ZigzagToInt64(n)) == n
  {
    Unzigzag64(n);
    Zigzag64Interleaves(ZigzagToInt64(n));
    SamePattern64(Int64ToZigzag(ZigzagToInt64(n)), n);
  }

  lemma ZigzagDecodes64(n: int)
    requires IsInt64(n)
    ensures IsInt64(Int64ToZigzag(n)) && ZigzagToInt64(Int64ToZigzag(n)) == n
  {
    Zigzag64Interleaves(n);
    Unzigzag64(Int64ToZigzag(n));
    InterleaveInjective(n, ZigzagToInt64(Int64ToZigzag(n)));
  }

  lemma SamePattern64(a: int, b: int)
    requires IsInt64(a) && IsInt64(b) && U64(a) == U64(b)
    ensures a == b
  {
  }

  lemma UnzigzagBits64(u: nat)
    requires u < TWO64
    ensures And(u, 1) == u % 2
    ensures Xor(Shr(u, 1), 0) == u / 2
    ensures Xor(Shr(u, 1), TWO64 - 1) == TWO64 - 1 - u / 2
  {
    var w := 64;
    assert Pow2(w) == TWO64 by { Pow2Values(); }
    UnzigzagBits(u, w);
  }

  lemma Halves64(u: nat)
    requires u < TWO64
    ensures u % 2 == 0 ==> Interleave(S64(u / 2)) == u
    ensures u % 2 == 1 ==> Interleave(S64(TWO64 - 1 - u / 2)) == u
  {
  }

  lemma Unzigzag64(z: int)
    requires IsInt64(z)
    ensures IsInt64(ZigzagToInt64(z)) && Interleave(ZigzagToInt64(z)) == U64(z)
  {
    hide And, Xor, Shr;
    UnzigzagBits64(U64(z));
    Halves64(U64(z));
  }

  // ----- varint: specification -----

  /** Base-128 digits, least significant first, with the top bit set on all but the last. */
  function EncodeVarint(u: nat): seq<byte> {
    if u < 128 then [u] else [u % 128 + 128] + EncodeVarint(u / 128)
  }

  function DecodeVarint(s: seq<byte>): (r: Option<(nat, seq<byte>)>)
    ensures r.Some? ==> |r.value.1| < |s| && r.value.1 == s[|s| - |r.value.1|..]
  {
    if s == [] then None
    else if s[0] < 128 then Some((s[0], s[1..]))
    else match DecodeVarint(s[1..])
      case Some((v, rest)) => Some((s[0] - 128 + 128 * v, rest))
      case None => None
  }

  lemma {:induction false} VarintRoundTrip(u: nat, rest: seq<byte>)
    ensures DecodeVarint(EncodeVarint(u) + rest) == Some((u, rest))
  {
    var s := EncodeVarint(u) + rest;
    if u < 128 {
      assert s[1..] == rest;
    } else {
      VarintRoundTrip(u / 128, rest);
      assert s[1..] == EncodeVarint(u / 128) + rest;
    }
  }

  lemma VarintPrefixFree(a: nat, b: nat, s: seq<byte>, t: seq<byte>)
    requires EncodeVarint(a) + s == EncodeVarint(b) + t
    ensures a == b && s == t
  {
    VarintRoundTrip(a, s);
    VarintRoundTrip(b, t);
  }

  /** An encoding has k bytes or fewer exactly when the value has 7k bits or fewer. */
  lemma {:induction false} VarintLength(u: nat, k: nat)
    requires k >= 1
    ensures |EncodeVarint(u)| <= k <==> u < Pow2(7 * k)
  {
    assert Pow2(7) == 128 by { Pow2Values(); }
    Pow2Add(7, 7 * (k - 1));
    if k > 1 && u >= 128 {
      VarintLength(u / 128, k - 1);
    } else if k > 1 {
      assert 128 * Pow2(7 * (k - 1)) >= 128;
    } else if u >= 128 {
      assert |EncodeVarint(u / 128)| >= 1;
    }
  }

  lemma VarintFits(u: nat)
    ensures u < TWO32 ==> |EncodeVarint(u)| <= 5
    ensures u < TWO64 ==> |EncodeVarint(u)| <= 10
  {
    Pow2Add(32, 3); Pow2Add(64, 6); Pow2Values();
    VarintLength(u, 5);
    VarintLength(u, 10);
  }

  // ----- varint: the loops -----

  lemma SevenBits(u: nat)
    ensures And(u, 0x7f) == u % 128 && Shr(u, 7) == u / 128
    ensures Or(And(u, 0x7f), 0x80) == u % 128 + 128
  {
    var seven := 7;
    assert Pow2(seven) == 128 by { Pow2Values(); }
    AndMask(u, seven);
    assert Shr(u, seven) == u / 128 by { ShrIsDiv(u, seven); }
    assert Shl(1, seven) == 128 by { ShlIsMul(1, seven); }
    OrDisjoint(u % 128, 1, seven);
  }

  // n & ^0x7F, on a register of w bits
  lemma HighBits(u: nat, w: nat)
    requires w >= 7 && u < Pow2(w)
    ensures Pow2(w) >= 128
    ensures And(u, Pow2(w) - 128) == 0 <==> u < 128
  {
    hide And, Shl, Shr;
    var seven := 7;
    assert Pow2(seven) == 128 by { Pow2Values(); }
    Pow2Add(seven, w - 7);
    var m := Pow2(w - 7) - 1;
    assert Shl(m, seven) == Pow2(w) - 128 by { ShlIsMul(m, seven); }
    AndShift(u, m, seven);
    ShrIsDiv(u, seven);
    AndMask(u / 128, w - 7);
    assert u / 128 < Pow2(w - 7);
    DivModUnique(u / 128, Pow2(w - 7), 0, u / 128);
    ShlIsMul(u / 128, seven);
  }

  lemma WriteTurn32(n: nat)
    requires n < TWO32
    ensures And(n, U32(-128)) == 0 <==> n < 128
    ensures Or(And(n, 0x7f), 0x80) == n % 128 + 128 && Shr(n, 7) == n / 128
  {
    var w := 32;
    assert Pow2(w) == TWO32 by { Pow2Values(); }
    HighBits(n, w);
    SevenBits(n);
  }

  lemma WriteTurn64(n: nat)
    requires n < TWO64
    ensures And(n, U64(-128)) == 0 <==> n < 128
    ensures Or(And(n, 0x7f), 0x80) == n % 128 + 128 && Shr(n, 7) == n / 128
  {
    var w := 64;
    assert Pow2(w) == TWO64 by { Pow2Values(); }
    HighBits(n, w);
    SevenBits(n);
  }

  /** writeVarint32: the register n is shifted right until only seven bits are left. The bound on
      idx is the proof that five bytes of buffer always suffice. */
  method WriteVarint32(value: int) returns (written: seq<byte>)
    requires IsInt32(value)
    ensures written == EncodeVarint(U32(value))
    ensures 1 <= |written| <= 5
  {
    var i32buf := new byte[5](i => 0);
    var idx := 0;
    var n: nat := U32(value);
    VarintFits(n);
    ghost var whole := EncodeVarint(n);
    while true
      invariant 0 <= idx < 5 && n < TWO32
      invariant whole == i32buf[..idx] + EncodeVarint(n)
      decreases n
    {
      WriteTurn32(n);
      if And(n, U32(-128)) == 0 {
        i32buf[idx] := n;
        idx := idx + 1;
        break;
      } else {
        i32buf[idx] := Or(And(n, 0x7f), 0x80);
        idx := idx + 1;
        n := Shr(n, 7);
        assert |EncodeVarint(n)| >= 1;
      }
    }
    written := i32buf[..idx];
  }

  method WriteVarint64(value: int) returns (written: seq<byte>)
    requires IsInt64(value)
    ensures written == EncodeVarint(U64(value))
    ensures 1 <= |written| <= 10
  {
    var varint64out := new byte[10](i => 0);
    var idx := 0;
    var n: nat := U64(value);
    VarintFits(n);
    ghost var whole := EncodeVarint(n);
    while true
      invariant 0 <= idx < 10 && n < TWO64
      invariant whole == varint64out[..idx] + EncodeVarint(n)
      decreases n
    {
      WriteTurn64(n);
      if And(n, U64(-128)) == 0 {
        varint64out[idx] := n;
        idx := idx + 1;
        break;
      } else {
        varint64out[idx] := Or(And(n, 0x7f), 0x80);
        idx := idx + 1;
        n := Shr(n, 7);
        assert |EncodeVarint(n)| >= 1;
      }
    }
    written := varint64out[..idx];
  }

  lemma NoOverflow(partial: nat, high: nat, p: nat)
    requires partial < p && high <= TWO64 - p
    ensures partial % TWO64 == partial && (partial + high) % TWO64 == partial + high
  {
  }

  lemma ModAdd(a: nat, b: nat)
    ensures (a + b) % TWO64 == (a % TWO64 + b % TWO64) % TWO64 == (a + b % TWO64) % TWO64
  {
  }

  /** One turn of the reading loop on a 64-bit accumulator: bits shifted past the top are lost. */
  lemma Accumulate(partial: nat, x: nat, shift: nat)
    requires partial < Pow2(shift)
    ensures Or(partial % TWO64, U64(Shl(x, shift))) == (partial + Shl(x, shift)) % TWO64
  {
    ModAdd(partial, Shl(x, shift));
    var w := 64;
    assert Pow2(w) == TWO64 by { Pow2Values(); }
    if shift <= w {
      ShlMod(x, shift, w);
      var hi := x % Pow2(w - shift);
      NoOverflow(partial, Shl(hi, shift), Pow2(shift));
      OrDisjoint(partial, hi, shift);
    } else {
      ShlShl(x, shift - w, w);
      ShlMod(Shl(x, shift - w), w, w);
      assert Shl(0, w) == 0 by { ShlIsMul(0, w); }
      OrZero(partial % TWO64);
    }
  }

  /** What reading s yields when `partial` has been accumulated from `shift` earlier bits. */
  ghost function Finish(partial: nat, shift: nat, s: seq<byte>): Option<(int, seq<byte>)> {
    match DecodeVarint(s)
    case Some((v, rest)) => Some((S64(U64(partial + Shl(v, shift))), rest))
    case None => None
  }

  lemma NextShift(partial: nat, x: nat, shift: nat)
    requires partial < Pow2(shift) && x < 128
    ensures partial + Shl(x, shift) < Pow2(shift + 7)
  {
    ShlOne(shift);
    ShlOne(shift + 7);
    SevenMore(1, shift);
    ShlAdd(x, 1, shift);
    ShlAdd(x + 1, 127 - x, shift);
  }

  lemma SevenMore(v: nat, shift: nat)
    ensures Shl(v, shift + 7) == Shl(128 * v, shift)
  {
    var seven := 7;
    ShlShl(v, seven, shift);
    assert Pow2(seven) == 128 by { Pow2Values(); }
    ShlIsMul(v, seven);
  }

  lemma FinishStep(partial: nat, shift: nat, s: seq<byte>)
    requires s != []
    ensures s[0] < 128 ==>
              Finish(partial, shift, s) == Some((S64(U64(partial + Shl(s[0] % 128, shift))), s[1..]))
    ensures s[0] >= 128 ==>
              Finish(partial, shift, s) == Finish(partial + Shl(s[0] % 128, shift), shift + 7, s[1..])
  {
    hide Shl, Pow2, S64, U64;
    if s[0] >= 128 {
      match DecodeVarint(s[1..])
      case Some((v, _)) =>
        SevenMore(v, shift);
        ShlAdd(s[0] % 128, 128 * v, shift);
      case None =>
    }
  }

  /** readVarint64: bytes are or-ed into the accumulator at growing shifts until one has no
      continuation bit; None is the end-of-input error. */
  method ReadVarint64(input: seq<byte>) returns (r: Option<(int, seq<byte>)>)
    ensures r == Finish(0, 0, input)
  {
    var shift := 0;
    var result: nat := 0;
    var s := input;
    ghost var partial: nat := 0;
    while true
      invariant 0 <= shift
      invariant partial < Pow2(shift)
      invariant result == partial % TWO64
      invariant Finish(partial, shift, s) == Finish(0, 0, input)
      decreases |s|
    {
      if s == [] {
        return None;
      }
      var b := s[0];
      var bits := And(b, 0x7f);
      assert bits == b % 128 by { SevenBits(b); }
      FinishStep(partial, shift, s);
      ReadTurn(partial, bits, shift);
      partial := partial + Shl(bits, shift);
      result := Or(result, U64(Shl(bits, shift)));
      s := s[1..];
      assert And(b, 0x80) != 0x80 <==> b < 128 by { TopBit(b); }
      if And(b, 0x80) != 0x80 {
        return Some((S64(result), s));
      }
      shift := shift + 7;
    }
  }

  lemma ReadTurn(partial: nat, x: nat, shift: nat)
    requires partial < Pow2(shift) && x < 128
    ensures Or(partial % TWO64, U64(Shl(x, shift))) == (partial + Shl(x, shift)) % TWO64
    ensures partial + Shl(x, shift) < Pow2(shift + 7)
  {
    NextShift(partial, x, shift);
    Accumulate(partial, x, shift);
  }

  /** The loop's result: the decoded number cut to 64 bits and read as signed. */
  lemma ReadVarint64IsDecode(input: seq<byte>)
    ensures Finish(0, 0, input) == match DecodeVarint(input)
                                   case Some((v, rest)) => Some((S64(v), rest))
                                   case None => None
  {
  }

  lemma TopBit(b: byte)
    ensures And(b, 0x80) == if b < 128 then 0 else 0x80
  {
    var seven := 7;
    assert Pow2(seven) == 128 by { Pow2Values(); }
    assert Shl(1, seven) == 128 by { ShlIsMul(1, seven); }
    AndShift(b, 1, seven);
    ShrIsDiv(b, seven);
    LowBit(b / 128);
    ShlIsMul(b / 128, seven);
  }
}
