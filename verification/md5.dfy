/** The streaming half of the compiler's MD5: appends of any size, the split bit counter and the
    padding, over an arbitrary compression function. RFC 1321 sections 3.1 to 3.5. */
module Md5 {
  import opened Bits
  import Wire

  type word = w: int | 0 <= w < TWO32
  type Registers = s: seq<word> | |s| == 4 witness [0, 0, 0, 0]
  type Compress = (Registers, seq<byte>) -> Registers

  const INIT: Registers := [0x67452301, 0xefcdab89, 0x98badcfe, 0x10325476]

  // ----- RFC 1321 -----

  /** The registers after the complete 64-byte blocks of s; a final partial block is ignored. */
  function Fold(process: Compress, abcd: Registers, s: seq<byte>): Registers
    decreases |s|
  {
    if |s| < 64 then abcd else Fold(process, process(abcd, s[..64]), s[64..])
  }

  lemma {:induction false} FoldConcat(process: Compress, abcd: Registers, s: seq<byte>, t: seq<byte>)
    requires |s| % 64 == 0
    ensures Fold(process, abcd, s + t) == Fold(process, Fold(process, abcd, s), t)
    decreases |s|
  {
    if s == [] {
      assert s + t == t;
    } else {
      assert (s + t)[..64] == s[..64];
      assert (s + t)[64..] == s[64..] + t;
      FoldConcat(process, process(abcd, s[..64]), s[64..], t);
    }
  }

  function Zeros(n: nat): (z: seq<byte>)
    ensures |z| == n && forall i :: 0 <= i < n ==> z[i] == 0
  {
    seq(n, _ => 0)
  }

  function Little(n: nat, k: nat): (s: seq<byte>)
    ensures |s| == k
  {
    if k == 0 then [] else [n % 256] + Little(n / 256, k - 1)
  }

  /** The least number of zeros that brings 1 + len bytes to 56 modulo 64. */
  predicate LeastZeros(len: nat, k: nat) {
    Congruent(len + 1 + k) && forall n :: len + 1 <= n < len + 1 + k ==> !Congruent(n)
  }

  predicate Congruent(n: nat) { n % 64 == 56 }

  function ZerosFor(len: nat): (k: nat)
    ensures k < 64 && LeastZeros(len, k)
  {
    var r := len % 64;
    if r <= 55 then 55 - r else 119 - r
  }

  function BitLength(m: seq<byte>): nat { 8 * |m| % TWO64 }

  /** Section 3.1 and 3.2: a one bit, the least zeros, the 64-bit length low byte first. */
  function Padded(m: seq<byte>): seq<byte> {
    m + [0x80] + Zeros(ZerosFor(|m|)) + Little(BitLength(m), 8)
  }

  // section 3.5: each register low byte first
  function Output(abcd: Registers): (s: seq<byte>)
    ensures |s| == 16
  {
    Little(abcd[0], 4) + Little(abcd[1], 4) + Little(abcd[2], 4) + Little(abcd[3], 4)
  }

  /** The word A: 01 23 45 67, B: 89 ab cd ef, C: fe dc ba 98, D: 76 54 32 10 of RFC 1321 section 3.3, low
      byte first. */
  lemma InitialRegisters()
    ensures Output(INIT) == [0x01, 0x23, 0x45, 0x67, 0x89, 0xab, 0xcd, 0xef,
                             0xfe, 0xdc, 0xba, 0x98, 0x76, 0x54, 0x32, 0x10]
  {
    hide Little;
    assert INIT[0] == 0x67452301 && INIT[1] == 0xefcdab89 && INIT[2] == 0x98badcfe && INIT[3] == 0x10325476;
    LittleWord(0x01, 0x23, 0x45, 0x67);
    LittleWord(0x89, 0xab, 0xcd, 0xef);
    LittleWord(0xfe, 0xdc, 0xba, 0x98);
    LittleWord(0x76, 0x54, 0x32, 0x10);
  }

  lemma LittleWord(a: byte, b: byte, c: byte, d: byte)
    ensures var n: int := a as int + 256 * (b as int + 256 * (c as int + 256 * d as int));
            Little(n, 4) == [a, b, c, d]
  {
    var n3: nat := d as int;
    var n2: nat := c as int + 256 * n3;
    var n1: nat := b as int + 256 * n2;
    var n: nat := a as int + 256 * n1;
    assert n % 256 == a && n / 256 == n1 && n1 % 256 == b && n1 / 256 == n2 && n2 % 256 == c && n2 / 256 == n3;
    assert Little(n3, 1) == [d];
    assert Little(n2, 2) == [c] + Little(n3, 1);
    assert Little(n1, 3) == [b] + Little(n2, 2);
    assert Little(n, 4) == [a] + Little(n1, 3);
  }

  function OneShot(process: Compress, m: seq<byte>): seq<byte> {
    Output(Fold(process, INIT, Padded(m)))
  }

  lemma PaddedIsBlocks(m: seq<byte>)
    ensures |Padded(m)| % 64 == 0
    ensures |m| + 9 <= |Padded(m)| <= |m| + 72
  {
    hide Little;
    var n := |m| + 1 + ZerosFor(|m|);
    assert |Padded(m)| == n + 8;
    DivModUnique(n + 8, 64, n / 64 + 1, 0);
  }

  // ----- sizes modulo 64 -----

  predicate Aligned(n: nat) { n % 64 == 0 }

  function Cut(n: nat): (c: nat)
    ensures c == n - n % 64 && Aligned(c) && c <= n < c + 64
  {
    DivModUnique(64 * (n / 64), 64, n / 64, 0);
    64 * (n / 64)
  }

  lemma CutAfter(n: nat, c: nat, k: nat)
    requires Aligned(c) && n == c + k && k < 64
    ensures n % 64 == k && Cut(n) == c
  {
    DivModUnique(n, 64, c / 64, k);
  }

  lemma ModShift(a: int, k: int)
    ensures (a + 64 * k) % 64 == a % 64
  {
    DivModUnique(a + 64 * k, 64, a / 64 + k, a % 64);
  }

  // ----- the counter -----

  function Count(count0: word, count1: word): nat { count0 + TWO32 * count1 }

  /** nbits added to the low word, nbytes >> 29 and the carry to the high word. */
  lemma CountAdds(count0: word, count1: word, nbytes: nat, sum0: word, carry: nat, sum1: word)
    requires sum0 == U32(count0 + U32(8 * nbytes))
    requires carry == if sum0 < U32(8 * nbytes) then 1 else 0
    requires sum1 == U32(U32(count1 + nbytes / 0x2000_0000) + carry)
    ensures Count(sum0, sum1) == (Count(count0, count1) + 8 * nbytes) % TWO64
  {
    var low, high := U32(8 * nbytes), nbytes / 0x2000_0000;
    assert 8 * nbytes == low + TWO32 * high;
    assert count0 + low == sum0 + TWO32 * carry;
    var top := count1 + high + carry;
    assert sum1 == top % TWO32;
    assert Count(count0, count1) + 8 * nbytes == sum0 + TWO32 * top;
    assert top == sum1 + TWO32 * (top / TWO32);
    DivModUnique(sum0 + TWO32 * top, TWO64, top / TWO32, Count(sum0, sum1));
  }

  lemma CountWraps(m: seq<byte>, more: seq<byte>)
    ensures (BitLength(m) + 8 * |more|) % TWO64 == BitLength(m + more)
  {
  }

  /** (count[0] >> 3) & 63 is the length of the partial block. */
  lemma OffsetIsRemainder(count0: word, count1: word, m: seq<byte>)
    requires Count(count0, count1) == BitLength(m)
    ensures And(Shr(count0, 3), 63) == |m| % 64
    ensures And(U32(55 - Shr(count0, 3)), 63) == ZerosFor(|m|)
  {
    hide And, Shr, Pow2, ZerosFor, Count;
    var w := count0 / 8;
    Exponents();
    ShrIsDiv(count0, 3);
    Mask63(w);
    Mask63(U32(55 - w));
    LowWord(count0, count1, |m|);
    ZerosAre(|m|);
  }

  lemma Mask63(a: nat)
    ensures And(a, 63) == a % 64
  {
    hide And, Pow2;
    var six := 6;
    assert Pow2(six) == 64 by { Exponents(); }
    AndMask(a, six);
  }

  lemma ZerosAre(len: nat)
    ensures ZerosFor(len) == (55 - len) % 64
  {
    var r := len % 64;
    ModShift(55 - r, -(len / 64));
    assert 55 - len == 55 - r + 64 * (-(len / 64));
    if r > 55 {
      ModShift(55 - r + 64, -1);
    }
  }

  lemma Exponents()
    ensures Pow2(2) == 4 && Pow2(3) == 8 && Pow2(6) == 64 && Pow2(8) == 256
  {
  }

  lemma LowWord(count0: word, count1: word, len: nat)
    requires Count(count0, count1) == 8 * len % TWO64
    ensures count0 / 8 % 64 == len % 64
    ensures U32(55 - count0 / 8) % 64 == (55 - len) % 64
  {
    var q, w := 8 * len / TWO64, count0 / 8;
    assert 8 * len == TWO64 * q + count0 + TWO32 * count1;
    var k := 0x800_0000_0000_0000 / 16 * q + 0x80_0000 * count1;
    assert len == w + 64 * k;
    ModShift(w, k);
    var e := (55 - w) / TWO32;
    assert 55 - len == U32(55 - w) + 64 * (0x400_0000 * e - k);
    ModShift(U32(55 - w), 0x400_0000 * e - k);
  }

  /** Byte i of the saved length, count[i >> 2] >> ((i & 3) << 3). */
  function LengthByte(count0: word, count1: word, i: nat): byte {
    Shr(if Shr(i, 2) == 0 then count0 else count1, Shl(And(i, 3), 3)) % 256
  }

  lemma ShrByte(n: nat, b: nat)
    ensures Shr(n, 8 + b) == Shr(n / 256, b)
  {
    hide Shr, Pow2;
    var a := 8;
    ShrAdd(n, a, b);
    Exponents();
    ShrIsDiv(n, a);
  }

  lemma {:induction false} LittleAt(n: nat, k: nat, i: nat)
    requires i < k
    ensures Little(n, k)[i] == Shr(n, 8 * i) % 256
  {
    if i > 0 {
      LittleAt(n / 256, k - 1, i - 1);
      ShrByte(n, 8 * (i - 1));
    }
  }

  lemma {:induction false} ShrAdd(n: nat, a: nat, b: nat)
    ensures Shr(n, a + b) == Shr(Shr(n, a), b)
  {
    if a > 0 { ShrAdd(n / 2, a - 1, b); }
  }

  lemma LittleStep(low: byte, high: nat, k: nat)
    ensures Little(low + 256 * high, k + 1) == [low] + Little(high, k)
  {
    var n := low + 256 * high;
    DivModUnique(n, 256, high, low);
    assert Little(n, k + 1) == [n % 256] + Little(n / 256, k);
  }

  lemma {:induction false} LittleJoin(n: nat, m: nat, k: nat, j: nat)
    requires n < Pow256(k)
    ensures Little(n + Pow256(k) * m, k + j) == Little(n, k) + Little(m, j)
  {
    if k > 0 {
      hide Little;
      var p, low, high := Pow256(k - 1), n % 256, n / 256;
      assert (256 * p) * m == 256 * (p * m);
      LittleJoin(high, m, k - 1, j);
      LittleStep(low, high + p * m, k - 1 + j);
      LittleStep(low, high, k - 1);
      Wire.Concat3([low], Little(high, k - 1), Little(m, j));
    } else {
      assert Little(n, 0) == [];
    }
  }

  lemma LengthBytes(count0: word, count1: word, i: nat)
    requires i < 8
    ensures LengthByte(count0, count1, i) == Little(Count(count0, count1), 8)[i]
  {
    hide And, Shr, Shl, Pow2, Little, Pow256;
    var four := 4;
    assert Pow256(four) == TWO32 by { FourBytes(); }
    LittleJoin(count0, count1, four, four);
    Exponents();
    ShrIsDiv(i, 2);
    AndMask(i, 2);
    ShlIsMul(i % 4, 3);
    if i < 4 {
      LittleAt(count0, four, i);
    } else {
      LittleAt(count1, four, i - 4);
    }
  }

  /** Byte i of the digest, abcd[i >> 2] >> ((i & 3) << 3). */
  function RegisterByte(abcd: Registers, i: nat): byte
    requires Shr(i, 2) < 4
  {
    Shr(abcd[Shr(i, 2)], Shl(And(i, 3), 3)) % 256
  }

  lemma RegisterBytes(abcd: Registers, i: nat)
    requires i < 16
    ensures Shr(i, 2) < 4 && RegisterByte(abcd, i) == Output(abcd)[i]
  {
    hide And, Shr, Shl, Pow2, Little;
    Exponents();
    ShrIsDiv(i, 2);
    AndMask(i, 2);
    ShlIsMul(i % 4, 3);
    LittleAt(abcd[i / 4], 4, i % 4);
    assert Output(abcd)[i] == Little(abcd[i / 4], 4)[i % 4];
  }

  lemma FourBytes()
    ensures Pow256(4) == TWO32
  {
  }

  // ----- md5_state_t -----

  class Md5State {
    const process: Compress
    var count0: word
    var count1: word
    var abcd: Registers
    const buf: array<byte>
    ghost var message: seq<byte>

    /** After any run of appends: the registers have folded the complete blocks of everything
        appended, the buffer starts with the rest, the counter is the bit length. */
    ghost predicate Valid()
      reads this, buf
    {
      && buf.Length == 64
      && abcd == Fold(process, INIT, message)
      && buf[..|message| - Cut(|message|)] == message[Cut(|message|)..]
      && Count(count0, count1) == BitLength(message)
    }

    constructor (process: Compress)
      ensures Valid() && message == [] && fresh(buf) && this.process == process
    {
      this.process := process;
      hide Fold;
      count0, count1, abcd := 0, 0, INIT;
      buf := new byte[64];
      message := [];
      FoldEmpty(process);
    }

    method CopyIn(to: nat, data: seq<byte>)
      requires to + |data| <= buf.Length
      modifies buf
      ensures buf[..to + |data|] == old(buf[..to]) + data
    {
      var i := 0;
      while i < |data|
        invariant 0 <= i <= |data|
        invariant buf[..to + i] == old(buf[..to]) + data[..i]
      {
        buf[to + i] := data[i];
        i := i + 1;
      }
      assert data[..i] == data;
    }

    method AddLength(nbytes: nat, ghost data: seq<byte>)
      requires |data| == nbytes < TWO31 && Count(count0, count1) == BitLength(message)
      modifies `count0, `count1, `message
      ensures message == old(message) + data && Count(count0, count1) == BitLength(message)
    {
      hide Count, BitLength;
      var nbits := U32(8 * nbytes);
      count1 := U32(count1 + nbytes / 0x2000_0000);
      count0 := U32(count0 + nbits);
      ghost var carry := 0;
      if count0 < nbits {
        count1 := U32(count1 + 1);
        carry := 1;
      }
      CountAdds(old(count0), old(count1), nbytes, count0, carry, count1);
      CountWraps(message, data);
      message := message + data;
    }

    // the full blocks and the final partial block
    method AppendBlocks(ghost before: seq<byte>, data: seq<byte>, nbytes: nat, from: nat, size: nat)
      requires nbytes <= |data| && from + size == nbytes && buf.Length == 64
      requires message == before + data[..nbytes] && Count(count0, count1) == BitLength(message)
      requires Aligned(|before| + from) && abcd == Fold(process, INIT, message[..|before| + from])
      modifies `abcd, buf
      ensures Valid()
    {
      hide Fold, BitLength;
      var p, left := from, size;
      ghost var done := |before| + p;
      while left >= 64
        invariant 0 <= left <= nbytes && p == nbytes - left && done == |before| + p
        invariant Aligned(done) && abcd == Fold(process, INIT, message[..done])
      {
        SliceAppended(before, data, nbytes, p, p + 64);
        FoldBlock(process, message, done);
        abcd := process(abcd, data[p..p + 64]);
        p, left, done := p + 64, left - 64, done + 64;
      }
      CutAfter(|message|, done, left);
      FoldDropsPartial(process, message);
      SliceAppended(before, data, nbytes, p, p + left);
      if left != 0 {
        CopyIn(0, data[p..p + left]);
        assert buf[..left] == data[p..p + left];
      }
    }

    // the initial partial block
    method FillBlock(ghost before: seq<byte>, data: seq<byte>, nbytes: nat, offset: nat) returns (copy: nat)
      requires 0 < nbytes <= |data| && 0 < offset < 64 && offset + Cut(|before|) == |before| && buf.Length == 64
      requires message == before + data[..nbytes] && Count(count0, count1) == BitLength(message)
      requires buf[..offset] == before[Cut(|before|)..] && abcd == Fold(process, INIT, before)
      modifies `abcd, buf
      ensures copy <= nbytes && offset + copy <= 64
      ensures offset + copy < 64 ==> copy == nbytes && Valid()
      ensures offset + copy == 64 ==>
                Aligned(|before| + copy) && abcd == Fold(process, INIT, message[..|before| + copy])
    {
      hide Fold, Count, BitLength, Cut;
      ghost var done := Cut(|before|);
      copy := if offset + nbytes > 64 then 64 - offset else nbytes;
      CopyIn(offset, data[..copy]);
      FilledSlice(before, done, data, nbytes, copy);
      FoldDropsPartial(process, before);
      assert message[..done] == before[..done];
      if offset + copy < 64 {
        CutAfter(|message|, done, offset + copy);
        FoldDropsPartial(process, message);
        return;
      }
      assert buf[..64] == buf[..];
      FoldBlock(process, message, done);
      abcd := process(abcd, buf[..]);
    }

    /** An append whose offset + nbytes stays within a C int. */
    method Append(data: seq<byte>, nbytes: int)
      requires Valid() && nbytes <= |data| && nbytes + |message| % 64 < TWO31
      modifies this, buf
      ensures Valid() && message == old(message) + if nbytes <= 0 then [] else data[..nbytes]
    {
      if nbytes <= 0 {
        assert message == message + [];
        return;
      }
      hide Fold, Count, BitLength, And, Shr, Cut;
      OffsetIsRemainder(count0, count1, message);
      var p, left := 0, nbytes;
      var offset := And(Shr(count0, 3), 63);
      ghost var before := message;
      AddLength(nbytes, data[..nbytes]);
      if offset != 0 {
        var copy := FillBlock(before, data, nbytes, offset);
        if offset + copy < 64 {
          return;
        }
        p, left := copy, left - copy;
      } else {
        assert message[..|before|] == before;
      }
      AppendBlocks(before, data, nbytes, p, left);
    }

    // the length taken before padding
    method SavedLength() returns (data: seq<byte>)
      requires Valid()
      ensures data == Little(BitLength(message), 8)
    {
      hide Little, LengthByte, BitLength, Fold, Cut;
      ghost var length := Little(Count(count0, count1), 8);
      data := [];
      var i := 0;
      while i < 8
        invariant 0 <= i <= 8 && data == length[..i]
      {
        LengthBytes(count0, count1, i);
        data := data + [LengthByte(count0, count1, i)];
        i := i + 1;
      }
    }

    // the registers, low byte first
    method Digest() returns (digest: seq<byte>)
      ensures digest == Output(abcd)
    {
      hide Output, RegisterByte, Shr;
      digest := [];
      var i := 0;
      while i < 16
        invariant 0 <= i <= 16 && |Output(abcd)| == 16 && digest == Output(abcd)[..i]
      {
        RegisterBytes(abcd, i);
        digest := digest + [RegisterByte(abcd, i)];
        i := i + 1;
      }
    }

    /** The padding, the length taken before it, and the registers low byte first. */
    method Finish() returns (digest: seq<byte>)
      requires Valid()
      modifies this, buf
      ensures digest == OneShot(process, old(message))
    {
      hide Little, And, Shr, BitLength, ZerosFor, Cut, Count, Output, Padded;
      ghost var m := message;
      var data := SavedLength();
      OffsetIsRemainder(count0, count1, m);
      var pad := [0x80] + Zeros(63);
      var n := And(U32(55 - Shr(count0, 3)), 63) + 1;
      Append(pad, n);
      Append(data, 8);
      PaddingIs(m, data, n);
      digest := Digest();
    }
  }

  lemma PaddingIs(m: seq<byte>, data: seq<byte>, n: nat)
    requires n == ZerosFor(|m|) + 1 && data == Little(BitLength(m), 8)
    ensures m + ([0x80] + Zeros(63))[..n] + data[..8] == Padded(m)
  {
    hide Little, ZerosFor, BitLength;
    assert ([0x80] + Zeros(63))[..n] == [0x80] + Zeros(n - 1);
    assert data[..8] == data;
  }

  lemma FoldEmpty(process: Compress)
    ensures Fold(process, INIT, []) == INIT
  {
  }

  lemma FilledSlice(m: seq<byte>, from: nat, data: seq<byte>, n: nat, copy: nat)
    requires from <= |m| && copy <= n <= |data|
    ensures m[from..] + data[..copy] == (m + data[..n])[from..|m| + copy]
  {
  }

  lemma SliceAppended(m: seq<byte>, data: seq<byte>, n: nat, from: nat, to: nat)
    requires from <= to <= n <= |data|
    ensures (m + data[..n])[|m| + from..|m| + to] == data[from..to]
  {
  }

  lemma FoldBlock(process: Compress, m: seq<byte>, at: nat)
    requires Aligned(at) && at + 64 <= |m|
    ensures Aligned(at + 64)
    ensures Fold(process, INIT, m[..at + 64]) == process(Fold(process, INIT, m[..at]), m[at..at + 64])
  {
    assert m[..at + 64] == m[..at] + m[at..at + 64];
    FoldConcat(process, INIT, m[..at], m[at..at + 64]);
    var block := m[at..at + 64];
    assert block[..64] == block && block[64..] == [];
  }

  lemma FoldDropsPartial(process: Compress, m: seq<byte>)
    ensures Fold(process, INIT, m) == Fold(process, INIT, m[..Cut(|m|)])
  {
    var cut := Cut(|m|);
    assert m == m[..cut] + m[cut..];
    FoldConcat(process, INIT, m[..cut], m[cut..]);
  }

  function Concatenated(chunks: seq<seq<byte>>): seq<byte> {
    if chunks == [] then [] else Concatenated(chunks[..|chunks| - 1]) + chunks[|chunks| - 1]
  }

  /** Every chunk and the partial block it meets stay within a C int together. */
  predicate WithinInt(chunks: seq<seq<byte>>) {
    forall i | 0 <= i < |chunks| :: |Concatenated(chunks[..i])| % 64 + |chunks[i]| < TWO31
  }

  /** Whatever the chunks, init, the appends and finish give the digest of their concatenation. */
  method DigestOfChunks(process: Compress, chunks: seq<seq<byte>>) returns (digest: seq<byte>)
    requires WithinInt(chunks)
    ensures digest == OneShot(process, Concatenated(chunks))
  {
    var state := new Md5State(process);
    var i := 0;
    while i < |chunks|
      invariant 0 <= i <= |chunks| && fresh(state) && fresh(state.buf)
      invariant state.Valid() && state.process == process && state.message == Concatenated(chunks[..i])
    {
      assert chunks[..i + 1][..i] == chunks[..i];
      state.Append(chunks[i], |chunks[i]|);
      assert chunks[i][..|chunks[i]|] == chunks[i];
      i := i + 1;
    }
    assert chunks[..i] == chunks;
    digest := state.Finish();
  }
}
