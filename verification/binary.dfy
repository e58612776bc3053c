/** The Go binary protocol and the generic Skip of protocol.go over it, as functions of the reader's
    state. Errors are return values in Go, and Skip drops most of them. */
module Binary {
  import opened Bits
  import opened Wire
  import opened Wrappers

  // ----- big-endian integers -----

  function BigEndian(n: nat, k: nat): (s: seq<byte>)
    ensures |s| == k
  {
    if k == 0 then [] else BigEndian(n / 256, k - 1) + [n % 256]
  }

  function FromBigEndian(s: seq<byte>): nat {
    if s == [] then 0 else 256 * FromBigEndian(s[..|s| - 1]) + s[|s| - 1]
  }

  lemma {:induction false} BigEndianRoundTrip(n: nat, k: nat)
    requires n < Pow256(k)
    ensures FromBigEndian(BigEndian(n, k)) == n
  {
    if k > 0 {
      BigEndianRoundTrip(n / 256, k - 1);
      var s := BigEndian(n, k);
      assert s[..|s| - 1] == BigEndian(n / 256, k - 1);
    }
  }

  lemma {:induction false} FromBigEndianRoundTrip(s: seq<byte>)
    ensures FromBigEndian(s) < Pow256(|s|) && BigEndian(FromBigEndian(s), |s|) == s
  {
    if s != [] {
      var k := |s| - 1;
      FromBigEndianRoundTrip(s[..k]);
      assert s == s[..k] + [s[k]];
    }
  }

  lemma EightBytes()
    ensures Pow256(8) == TWO64
  {
    assert Pow256(4) == TWO32;
    assert Pow256(6) == 256 * 256 * TWO32;
  }

  lemma BigEndianWidths(n: nat)
    ensures n < TWO16 ==> FromBigEndian(BigEndian(n, 2)) == n
    ensures n < TWO32 ==> FromBigEndian(BigEndian(n, 4)) == n
    ensures n < TWO64 ==> FromBigEndian(BigEndian(n, 8)) == n
  {
    assert Pow256(2) == TWO16;
    assert Pow256(4) == TWO32 by { assert Pow256(3) == 256 * TWO16; }
    EightBytes();
    if n < TWO16 { BigEndianRoundTrip(n, 2); }
    if n < TWO32 { BigEndianRoundTrip(n, 4); }
    if n < TWO64 { BigEndianRoundTrip(n, 8); }
  }

  // ----- layout -----

  function TypeByte(t: TType): byte {
    match t
    case STOP => 0
    case BOOL => 2
    case BYTE => 3
    case DOUBLE => 4
    case I16 => 6
    case I32 => 8
    case I64 => 10
    case STRING => 11
    case STRUCT => 12
    case MAP => 13
    case SET => 14
    case LIST => 15
  }

  function U16(n: int): nat { n % TWO16 }

  /** A double is kept low byte first in the value tree; the binary protocol sends it reversed. */
  function Reversed(s: seq<byte>): (r: seq<byte>)
    ensures |r| == |s|
  {
    if s == [] then [] else Reversed(s[1..]) + [s[0]]
  }

  function Encode(v: Value): seq<byte>
    requires WellFormed(v)
    decreases v, 1
  {
    match v
    case VBool(b) => [if b then 1 else 0]
    case VByte(i) => [i % 256]
    case VI16(i) => BigEndian(U16(i), 2)
    case VI32(i) => BigEndian(U32(i), 4)
    case VI64(i) => BigEndian(U64(i), 8)
    case VDouble(bits) => Reversed(bits)
    case VString(bytes) => BigEndian(|bytes|, 4) + bytes
    case VStruct(fs) => EncodeFields(fs)
    case VMap(kt, vt, es) => [TypeByte(kt), TypeByte(vt)] + BigEndian(|es|, 4) + EncodeEntries(es)
    case VSet(et, es) => [TypeByte(et)] + BigEndian(|es|, 4) + EncodeElems(es)
    case VList(et, es) => [TypeByte(et)] + BigEndian(|es|, 4) + EncodeElems(es)
  }

  function FieldHeader(f: Field): seq<byte> {
    [TypeByte(TypeOf(f.v))] + BigEndian(U16(f.id), 2)
  }

  function EncodeField(f: Field): seq<byte>
    requires WellFormed(f.v)
    decreases f, 0
  {
    FieldHeader(f) + Encode(f.v)
  }

  function EncodeFields(fs: seq<Field>): seq<byte>
    requires WellFormedFields(fs)
    decreases fs, 0
  {
    if fs == [] then [0] else EncodeField(fs[0]) + EncodeFields(fs[1..])
  }

  function EncodeEntry(e: Entry): seq<byte>
    requires WellFormed(e.k) && WellFormed(e.v)
    decreases e, 0
  {
    Encode(e.k) + Encode(e.v)
  }

  function EncodeEntries(es: seq<Entry>): seq<byte>
    requires WellFormedEntries(es)
    decreases es, 0
  {
    if es == [] then [] else EncodeEntry(es[0]) + EncodeEntries(es[1..])
  }

  function EncodeElems(es: seq<Value>): seq<byte>
    requires WellFormedElems(es)
    decreases es, 0
  {
    if es == [] then [] else Encode(es[0]) + EncodeElems(es[1..])
  }

  // ----- reading -----

  /** Unread bytes and the eight-byte scratch buffer, whose old contents survive a failed read. */
  datatype Reader = Reader(rem: seq<byte>, buffer: seq<byte>)

  predicate Valid(st: Reader) {
    |st.buffer| == 8
  }

  datatype Read<+T> = Read(value: T, ok: bool, st: Reader)

  /** readAll into the first n bytes of the buffer; on a short read the bytes that came are stored. */
  function ReadAll(st: Reader, n: nat): (r: Read<seq<byte>>)
    requires Valid(st) && n <= 8
    ensures Valid(r.st) && |r.value| == n
    ensures r.ok <==> n <= |st.rem|
    ensures r.ok ==> r.value == st.rem[..n] && r.st.rem == st.rem[n..]
    ensures |r.st.rem| <= |st.rem|
    ensures st.rem == [] ==> r.st == st
  {
    var got := if n <= |st.rem| then n else |st.rem|;
    var buffer := st.rem[..got] + st.buffer[got..];
    Read(buffer[..n], n <= |st.rem|, Reader(st.rem[got..], buffer))
  }

  /** io.ReadFull into a fresh slice, which keeps its zeros where no byte came. */
  function ReadBytes(st: Reader, n: nat): (r: Read<seq<byte>>)
    requires Valid(st)
    ensures Valid(r.st) && |r.value| == n
    ensures r.ok <==> n <= |st.rem|
    ensures r.ok ==> r.value == st.rem[..n] && r.st.rem == st.rem[n..]
    ensures st.rem == [] ==> r.st == st
  {
    if n <= |st.rem| then Read(st.rem[..n], true, st.(rem := st.rem[n..]))
    else Read(st.rem + seq(n - |st.rem|, _ => 0), false, st.(rem := []))
  }

  function ReadByte(st: Reader): (r: Read<byte>)
    requires Valid(st)
    ensures Valid(r.st)
    ensures st.rem == [] ==> r == Read(st.buffer[0], false, st)
  {
    var r := ReadAll(st, 1);
    Read(r.value[0], r.ok, r.st)
  }

  function ReadI16(st: Reader): (r: Read<int>)
    requires Valid(st)
    ensures Valid(r.st) && (st.rem == [] ==> !r.ok && r.st == st)
  {
    var r := ReadAll(st, 2);
    Read(S16(FromBigEndian(r.value)), r.ok, r.st)
  }

  function ReadI32(st: Reader): (r: Read<int>)
    requires Valid(st)
    ensures Valid(r.st) && (st.rem == [] ==> !r.ok && r.st == st)
  {
    var r := ReadAll(st, 4);
    Read(S32(FromBigEndian(r.value)), r.ok, r.st)
  }

  function ReadI64(st: Reader): (r: Read<int>)
    requires Valid(st)
    ensures Valid(r.st) && (st.rem == [] ==> !r.ok && r.st == st)
  {
    var r := ReadAll(st, 8);
    Read(S64(FromBigEndian(r.value)), r.ok, r.st)
  }

  function ReadDouble(st: Reader): (r: Read<seq<byte>>)
    requires Valid(st)
    ensures Valid(r.st) && (st.rem == [] ==> !r.ok && r.st == st)
  {
    var r := ReadAll(st, 8);
    Read(Reversed(r.value), r.ok, r.st)
  }

  function ReadBool(st: Reader): (r: Read<bool>)
    requires Valid(st)
    ensures Valid(r.st) && (st.rem == [] ==> !r.ok && r.st == st)
  {
    var r := ReadByte(st);
    Read(r.value == 1, r.ok, r.st)
  }

  /** A negative size reads nothing and is no error. */
  function ReadStringBody(st: Reader, size: int): (r: Read<seq<byte>>)
    requires Valid(st)
    ensures Valid(r.st) && (st.rem == [] ==> r.st == st)
  {
    if size < 0 then Read([], true, st) else ReadBytes(st, size)
  }

  function ReadString(st: Reader): (r: Read<seq<byte>>)
    requires Valid(st)
    ensures Valid(r.st) && (st.rem == [] ==> !r.ok && r.st == st)
  {
    var size := ReadI32(st);
    if size.ok then ReadStringBody(size.st, size.value) else Read([], false, size.st)
  }

  /** The reader's scalar calls, by type. */
  function ReadScalar(st: Reader, t: WireType): (r: Read<Value>)
    requires Valid(st) && t in {BOOL, BYTE, I16, I32, I64, DOUBLE, STRING}
    ensures Valid(r.st)
  {
    match t
    case BOOL => var r := ReadBool(st); Read(VBool(r.value), r.ok, r.st)
    case BYTE => var r := ReadByte(st); Read(VByte(S8(r.value)), r.ok, r.st)
    case I16 => var r := ReadI16(st); Read(VI16(r.value), r.ok, r.st)
    case I32 => var r := ReadI32(st); Read(VI32(r.value), r.ok, r.st)
    case I64 => var r := ReadI64(st); Read(VI64(r.value), r.ok, r.st)
    case DOUBLE => var r := ReadDouble(st); Read(VDouble(r.value), r.ok, r.st)
    case STRING => var r := ReadString(st); Read(VString(r.value), r.ok, r.st)
  }

  datatype FieldHead = FieldHead(typeId: byte, id: int)

  /** The type byte and the id, whatever the error; no id is read for STOP. */
  function ReadFieldBegin(st: Reader): (r: Read<FieldHead>)
    requires Valid(st)
    ensures Valid(r.st)
    ensures st.rem == [] ==> r == Read(FieldHead(st.buffer[0], 0), false, st)
  {
    var t := ReadByte(st);
    if !t.ok || t.value == 0 then Read(FieldHead(t.value, 0), t.ok, t.st)
    else
      var id := ReadI16(t.st);
      Read(FieldHead(t.value, id.value), id.ok, id.st)
  }

  datatype Sized = Sized(keyType: byte, elemType: byte, size: int)

  function ReadMapBegin(st: Reader): (r: Read<Sized>)
    requires Valid(st)
    ensures Valid(r.st) && (st.rem == [] ==> !r.ok && r.st == st)
  {
    var k := ReadByte(st);
    if !k.ok then Read(Sized(0, 0, 0), false, k.st)
    else
      var v := ReadByte(k.st);
      if !v.ok then Read(Sized(0, 0, 0), false, v.st)
      else
        var n := ReadI32(v.st);
        Read(Sized(k.value, v.value, n.value), n.ok, n.st)
  }

  // ReadSetBegin is the same
  function ReadListBegin(st: Reader): (r: Read<Sized>)
    requires Valid(st)
    ensures Valid(r.st) && (st.rem == [] ==> !r.ok && r.st == st)
  {
    var e := ReadByte(st);
    if !e.ok then Read(Sized(0, 0, 0), false, e.st)
    else
      var n := ReadI32(e.st);
      Read(Sized(0, e.value, n.value), n.ok, n.st)
  }

  // ----- Skip -----

  /** Skip as written: the struct loop ignores the errors of ReadFieldBegin and of the inner Skip.
      `fuel` bounds the nesting of calls and loop turns; None says Skip has not returned by then.
      The boolean is false when Skip returns an error. */
  function Skip(st: Reader, t: byte, fuel: nat): (r: Option<(bool, Reader)>)
    requires Valid(st)
    ensures r.Some? ==> Valid(r.value.1)
    decreases fuel, 1
  {
    if fuel == 0 then None
    else if t == 2 then var r := ReadBool(st); Some((r.ok, r.st))
    else if t == 3 then var r := ReadByte(st); Some((r.ok, r.st))
    else if t == 6 then var r := ReadI16(st); Some((r.ok, r.st))
    else if t == 8 then var r := ReadI32(st); Some((r.ok, r.st))
    else if t == 10 then var r := ReadI64(st); Some((r.ok, r.st))
    else if t == 4 then var r := ReadDouble(st); Some((r.ok, r.st))
    else if t == 11 then var r := ReadString(st); Some((r.ok, r.st))
    else if t == 12 then SkipFields(st, fuel - 1)
    else if t == 13 then
      var h := ReadMapBegin(st);
      if h.ok then SkipEntries(h.st, h.value.keyType, h.value.elemType, Count(h.value.size), fuel - 1)
      else Some((false, h.st))
    else if t == 14 || t == 15 then
      var h := ReadListBegin(st);
      if h.ok then SkipElems(h.st, h.value.elemType, Count(h.value.size), fuel - 1)
      else Some((false, h.st))
    else Some((true, st))
  }

  function Count(size: int): nat {
    if size < 0 then 0 else size
  }

  function SkipFields(st: Reader, fuel: nat): (r: Option<(bool, Reader)>)
    requires Valid(st)
    ensures r.Some? ==> Valid(r.value.1)
    decreases fuel, 0
  {
    if fuel == 0 then None
    else
      var h := ReadFieldBegin(st);
      if h.value.typeId == 0 then Some((true, h.st))
      else match Skip(h.st, h.value.typeId, fuel - 1)
        case Some((_, st1)) => SkipFields(st1, fuel - 1)
        case None => None
  }

  function SkipElems(st: Reader, et: byte, n: nat, fuel: nat): (r: Option<(bool, Reader)>)
    requires Valid(st)
    ensures r.Some? ==> Valid(r.value.1)
    decreases fuel, 0
  {
    if n == 0 then Some((true, st))
    else if fuel == 0 then None
    else match Skip(st, et, fuel - 1)
      case Some((_, st1)) => SkipElems(st1, et, n - 1, fuel - 1)
      case None => None
  }

  function SkipEntries(st: Reader, kt: byte, vt: byte, n: nat, fuel: nat): (r: Option<(bool, Reader)>)
    requires Valid(st)
    ensures r.Some? ==> Valid(r.value.1)
    decreases fuel, 0
  {
    if n == 0 then Some((true, st))
    else if fuel == 0 then None
    else match Skip(st, kt, fuel - 1)
      case None => None
      case Some((_, st1)) => match Skip(st1, vt, fuel - 1)
        case Some((_, st2)) => SkipEntries(st2, kt, vt, n - 1, fuel - 1)
        case None => None
  }

  // ----- Skip on an encoded value -----

  /** Calls and loop turns that skipping v takes, at most. */
  function Cost(v: Value): (c: nat)
    ensures c >= 1
    decreases v, 1
  {
    match v
    case VStruct(fs) => 1 + CostFields(fs)
    case VMap(_, _, es) => 1 + CostEntries(es)
    case VSet(_, es) => 1 + CostElems(es)
    case VList(_, es) => 1 + CostElems(es)
    case _ => 1
  }

  function CostField(f: Field): (c: nat)
    ensures c >= 1
    decreases f, 0
  {
    Cost(f.v)
  }

  function CostFields(fs: seq<Field>): nat
    decreases fs, 0
  {
    if fs == [] then 1 else 1 + CostField(fs[0]) + CostFields(fs[1..])
  }

  function CostEntry(e: Entry): nat
    decreases e, 0
  {
    Cost(e.k) + Cost(e.v)
  }

  function CostEntries(es: seq<Entry>): nat
    decreases es, 0
  {
    if es == [] then 0 else 1 + CostEntry(es[0]) + CostEntries(es[1..])
  }

  function CostElems(es: seq<Value>): nat
    decreases es, 0
  {
    if es == [] then 0 else 1 + Cost(es[0]) + CostElems(es[1..])
  }

  /** Skip has returned without error, and exactly `rest` is unread. */
  predicate Skipped(r: Option<(bool, Reader)>, rest: seq<byte>) {
    r.Some? && r.value.0 && r.value.1.rem == rest
  }

  lemma ReadInt(st: Reader, n: nat, k: nat, rest: seq<byte>)
    requires Valid(st) && k <= 8 && st.rem == BigEndian(n, k) + rest
    ensures var r := ReadAll(st, k); r.ok && r.value == BigEndian(n, k) && r.st.rem == rest
  {
  }

  lemma ReadTypeByte(st: Reader, b: byte, rest: seq<byte>)
    requires Valid(st) && st.rem == [b] + rest
    ensures var r := ReadByte(st); r.ok && r.value == b && r.st.rem == rest
  {
  }

  lemma ReadSize(st: Reader, n: nat, rest: seq<byte>)
    requires Valid(st) && n < TWO31 && st.rem == BigEndian(n, 4) + rest
    ensures var r := ReadI32(st); r.ok && r.value == n && r.st.rem == rest
  {
    hide BigEndian, FromBigEndian, ReadAll;
    ReadInt(st, n, 4, rest);
    BigEndianWidths(n);
  }

  lemma ReadListHeader(st: Reader, et: byte, n: nat, rest: seq<byte>)
    requires Valid(st) && n < TWO31 && st.rem == [et] + BigEndian(n, 4) + rest
    ensures var r := ReadListBegin(st); r.ok && r.value == Sized(0, et, n) && r.st.rem == rest
  {
    Concat3([et], BigEndian(n, 4), rest);
    ReadTypeByte(st, et, BigEndian(n, 4) + rest);
    ReadSize(ReadByte(st).st, n, rest);
  }

  lemma ReadMapHeader(st: Reader, kt: byte, vt: byte, n: nat, rest: seq<byte>)
    requires Valid(st) && n < TWO31 && st.rem == [kt, vt] + BigEndian(n, 4) + rest
    ensures var r := ReadMapBegin(st); r.ok && r.value == Sized(kt, vt, n) && r.st.rem == rest
  {
    var tail := BigEndian(n, 4) + rest;
    assert st.rem == [kt] + ([vt] + tail);
    ReadTypeByte(st, kt, [vt] + tail);
    var st1 := ReadByte(st).st;
    ReadTypeByte(st1, vt, tail);
    ReadSize(ReadByte(st1).st, n, rest);
  }

  lemma ReadFieldHeader(st: Reader, f: Field, rest: seq<byte>)
    requires Valid(st) && IsInt16(f.id) && st.rem == FieldHeader(f) + rest
    ensures var r := ReadFieldBegin(st);
            r.ok && r.value == FieldHead(TypeByte(TypeOf(f.v)), f.id) && r.value.typeId != 0 && r.st.rem == rest
  {
    var t := TypeByte(TypeOf(f.v));
    Concat3([t], BigEndian(U16(f.id), 2), rest);
    ReadTypeByte(st, t, BigEndian(U16(f.id), 2) + rest);
    ReadI16At(ReadByte(st).st, f.id, rest);
  }

  lemma ReadStringAt(st: Reader, bytes: seq<byte>, rest: seq<byte>)
    requires Valid(st) && |bytes| < TWO31 && st.rem == BigEndian(|bytes|, 4) + (bytes + rest)
    ensures var r := ReadString(st); r.ok && r.value == bytes && r.st.rem == rest
  {
    ReadSize(st, |bytes|, bytes + rest);
  }

  /** Whatever is in the scratch buffer and whatever follows, Skip of an encoded value returns
      without error and consumes precisely the encoding. */
  lemma {:induction false} SkipExact(st: Reader, v: Value, rest: seq<byte>, fuel: nat)
    requires Valid(st) && WellFormed(v) && fuel >= Cost(v)
    requires st.rem == Encode(v) + rest
    ensures Skipped(Skip(st, TypeByte(TypeOf(v)), fuel), rest)
    decreases v, 1
  {
    hide BigEndian, FromBigEndian, ReadAll, CostEntries, CostElems, EncodeElems, EncodeEntries;
    match v
    case VStruct(fs) => SkipFieldsExact(st, fs, rest, fuel - 1);
    case VMap(kt, vt, es) => SkipMapExact(st, kt, vt, es, rest, fuel);
    case VSet(et, es) => SkipCollectionExact(st, et, es, rest, fuel);
    case VList(et, es) => SkipCollectionExact(st, et, es, rest, fuel);
    case _ => SkipScalarExact(st, v, rest, fuel);
  }

  predicate Scalar(v: Value) {
    !v.VStruct? && !v.VMap? && !v.VSet? && !v.VList?
  }

  /** Every scalar read at its own encoding comes back, whatever the scratch buffer holds, and the
      bytes after it are untouched. */
  lemma ScalarRoundTrip(st: Reader, v: Value, rest: seq<byte>)
    requires Valid(st) && WellFormed(v) && Scalar(v) && st.rem == Encode(v) + rest
    ensures var r := ReadScalar(st, TypeOf(v)); r.ok && r.value == Narrowed(v) && r.st.rem == rest
    ensures (v.VI16? ==> IsInt16(v.i)) ==> Narrowed(v) == v
  {
    hide BigEndian, FromBigEndian, Reversed, ReadI16, ReadI32, ReadI64, ReadDouble, ReadString;
    match v
    case VBool(b) => ReadTypeByte(st, if b then 1 else 0, rest);
    case VByte(i) => ReadTypeByte(st, i % 256, rest);
    case VI16(i) => ReadI16At(st, i, rest);
    case VI32(i) => ReadI32At(st, i, rest);
    case VI64(i) => ReadI64At(st, i, rest);
    case VDouble(bits) => ReadReversed(st, bits, rest);
    case VString(bytes) =>
      Concat3(BigEndian(|bytes|, 4), bytes, rest);
      ReadStringAt(st, bytes, rest);
    case _ =>
  }

  lemma ReadI16At(st: Reader, i: int, rest: seq<byte>)
    requires Valid(st) && st.rem == BigEndian(U16(i), 2) + rest
    ensures var r := ReadI16(st); r.ok && r.value == S16(i) && r.st.rem == rest
  {
    hide BigEndian, FromBigEndian, ReadAll;
    ReadInt(st, U16(i), 2, rest);
    BigEndianWidths(U16(i));
  }

  lemma ReadI32At(st: Reader, i: int, rest: seq<byte>)
    requires Valid(st) && IsInt32(i) && st.rem == BigEndian(U32(i), 4) + rest
    ensures var r := ReadI32(st); r.ok && r.value == i && r.st.rem == rest
  {
    hide BigEndian, FromBigEndian, ReadAll;
    ReadInt(st, U32(i), 4, rest);
    BigEndianWidths(U32(i));
  }

  lemma ReadI64At(st: Reader, i: int, rest: seq<byte>)
    requires Valid(st) && IsInt64(i) && st.rem == BigEndian(U64(i), 8) + rest
    ensures var r := ReadI64(st); r.ok && r.value == i && r.st.rem == rest
  {
    hide BigEndian, FromBigEndian, ReadAll;
    ReadInt(st, U64(i), 8, rest);
    BigEndianWidths(U64(i));
  }

  lemma ReadReversed(st: Reader, bits: seq<byte>, rest: seq<byte>)
    requires Valid(st) && |bits| == 8 && st.rem == Reversed(bits) + rest
    ensures var r := ReadDouble(st); r.ok && r.value == bits && r.st.rem == rest
  {
    hide Reversed;
    assert ReadAll(st, 8).value == Reversed(bits);
    ReversedTwice(bits);
  }

  lemma {:induction false} ReversedTwice(s: seq<byte>)
    ensures Reversed(Reversed(s)) == s
  {
    if s != [] {
      ReversedSnoc(Reversed(s[1..]), s[0]);
      ReversedTwice(s[1..]);
    }
  }

  lemma {:induction false} ReversedSnoc(s: seq<byte>, b: byte)
    ensures Reversed(s + [b]) == [b] + Reversed(s)
  {
    if s != [] {
      assert (s + [b])[1..] == s[1..] + [b];
      ReversedSnoc(s[1..], b);
    }
  }

  lemma SkipScalarExact(st: Reader, v: Value, rest: seq<byte>, fuel: nat)
    requires Valid(st) && WellFormed(v) && fuel >= 1 && Scalar(v) && st.rem == Encode(v) + rest
    ensures Skipped(Skip(st, TypeByte(TypeOf(v)), fuel), rest)
  {
    hide Encode, WellFormed, ReadBool, ReadByte, ReadI16, ReadI32, ReadI64, ReadDouble, ReadString;
    ScalarRoundTrip(st, v, rest);
  }

  lemma {:induction false} SkipMapExact(st: Reader, kt: WireType, vt: WireType, es: seq<Entry>, rest: seq<byte>, fuel: nat)
    requires Valid(st) && |es| < TWO31 && WellFormedEntries(es) && fuel >= 1 + CostEntries(es)
    requires forall e | e in es :: TypeOf(e.k) == kt && TypeOf(e.v) == vt
    requires st.rem == [TypeByte(kt), TypeByte(vt)] + BigEndian(|es|, 4) + EncodeEntries(es) + rest
    ensures Skipped(Skip(st, TypeByte(MAP), fuel), rest)
    decreases es, 1
  {
    hide BigEndian, FromBigEndian, ReadAll;
    Concat3([TypeByte(kt), TypeByte(vt)] + BigEndian(|es|, 4), EncodeEntries(es), rest);
    ReadMapHeader(st, TypeByte(kt), TypeByte(vt), |es|, EncodeEntries(es) + rest);
    SkipEntriesExact(ReadMapBegin(st).st, kt, vt, es, rest, fuel - 1);
  }

  lemma {:induction false} SkipCollectionExact(st: Reader, et: WireType, es: seq<Value>, rest: seq<byte>, fuel: nat)
    requires Valid(st) && |es| < TWO31 && WellFormedElems(es) && fuel >= 1 + CostElems(es)
    requires forall e | e in es :: TypeOf(e) == et
    requires st.rem == [TypeByte(et)] + BigEndian(|es|, 4) + EncodeElems(es) + rest
    ensures Skipped(Skip(st, TypeByte(LIST), fuel), rest)
    ensures Skipped(Skip(st, TypeByte(SET), fuel), rest)
    decreases es, 1
  {
    hide BigEndian, EncodeElems, CostElems, ReadListBegin;
    Concat3([TypeByte(et)] + BigEndian(|es|, 4), EncodeElems(es), rest);
    ReadListHeader(st, TypeByte(et), |es|, EncodeElems(es) + rest);
    SkipElemsExact(ReadListBegin(st).st, et, es, rest, fuel - 1);
  }

  lemma {:induction false} SkipFieldsExact(st: Reader, fs: seq<Field>, rest: seq<byte>, fuel: nat)
    requires Valid(st) && WellFormedFields(fs) && fuel >= CostFields(fs)
    requires st.rem == EncodeFields(fs) + rest
    ensures Skipped(SkipFields(st, fuel), rest)
    decreases fs, 0
  {
    hide Skip, SkipFields, ReadFieldBegin, EncodeField, CostField;
    if fs == [] {
      SkipFieldsStop(st, rest, fuel);
    } else {
      var tail := EncodeFields(fs[1..]) + rest;
      Concat3(EncodeField(fs[0]), EncodeFields(fs[1..]), rest);
      SkipFieldExact(st, fs[0], tail, fuel - 1);
      var h := ReadFieldBegin(st);
      var st1 := Skip(h.st, h.value.typeId, fuel - 1).value.1;
      SkipFieldsExact(st1, fs[1..], rest, fuel - 1);
      SkipFieldsTurn(st, st1, fuel);
    }
  }

  lemma SkipFieldsStop(st: Reader, rest: seq<byte>, fuel: nat)
    requires Valid(st) && st.rem == [0] + rest && fuel > 0
    ensures Skipped(SkipFields(st, fuel), rest)
  {
    ReadTypeByte(st, 0, rest);
  }

  lemma SkipFieldsTurn(st: Reader, st1: Reader, fuel: nat)
    requires Valid(st) && Valid(st1) && fuel > 0
    requires var h := ReadFieldBegin(st);
             h.value.typeId != 0 && var r := Skip(h.st, h.value.typeId, fuel - 1); r.Some? && r.value.1 == st1
    ensures SkipFields(st, fuel) == SkipFields(st1, fuel - 1)
  {
    hide Skip, ReadFieldBegin;
  }

  lemma {:induction false} SkipFieldExact(st: Reader, f: Field, rest: seq<byte>, fuel: nat)
    requires Valid(st) && IsInt16(f.id) && WellFormed(f.v) && fuel >= CostField(f)
    requires st.rem == EncodeField(f) + rest
    ensures var h := ReadFieldBegin(st);
            h.value.typeId != 0 && Skipped(Skip(h.st, h.value.typeId, fuel), rest)
    decreases f, 0
  {
    Concat3(FieldHeader(f), Encode(f.v), rest);
    ReadFieldHeader(st, f, Encode(f.v) + rest);
    SkipExact(ReadFieldBegin(st).st, f.v, rest, fuel);
  }

  lemma {:induction false} SkipElemsExact(st: Reader, et: WireType, es: seq<Value>, rest: seq<byte>, fuel: nat)
    requires Valid(st) && WellFormedElems(es) && fuel >= CostElems(es)
    requires forall e | e in es :: TypeOf(e) == et
    requires st.rem == EncodeElems(es) + rest
    ensures Skipped(SkipElems(st, TypeByte(et), |es|, fuel), rest)
    decreases es, 0
  {
    hide Skip, Encode, Cost;
    if es == [] {
      assert st.rem == rest;
    } else {
      Concat3(Encode(es[0]), EncodeElems(es[1..]), rest);
      SkipExact(st, es[0], EncodeElems(es[1..]) + rest, fuel - 1);
      SkipElemsExact(Skip(st, TypeByte(et), fuel - 1).value.1, et, es[1..], rest, fuel - 1);
    }
  }

  lemma {:induction false} SkipEntriesExact(st: Reader, kt: WireType, vt: WireType, es: seq<Entry>, rest: seq<byte>, fuel: nat)
    requires Valid(st) && WellFormedEntries(es) && fuel >= CostEntries(es)
    requires forall e | e in es :: TypeOf(e.k) == kt && TypeOf(e.v) == vt
    requires st.rem == EncodeEntries(es) + rest
    ensures Skipped(SkipEntries(st, TypeByte(kt), TypeByte(vt), |es|, fuel), rest)
    decreases es, 0
  {
    hide Skip, EncodeEntry, CostEntry;
    if es == [] {
      assert st.rem == rest;
    } else {
      Concat3(EncodeEntry(es[0]), EncodeEntries(es[1..]), rest);
      SkipEntryExact(st, es[0], EncodeEntries(es[1..]) + rest, fuel - 1);
      var st1 := Skip(st, TypeByte(kt), fuel - 1).value.1;
      SkipEntriesExact(Skip(st1, TypeByte(vt), fuel - 1).value.1, kt, vt, es[1..], rest, fuel - 1);
    }
  }

  lemma {:induction false} SkipEntryExact(st: Reader, e: Entry, rest: seq<byte>, fuel: nat)
    requires Valid(st) && WellFormed(e.k) && WellFormed(e.v) && fuel >= CostEntry(e)
    requires st.rem == EncodeEntry(e) + rest
    ensures var r := Skip(st, TypeByte(TypeOf(e.k)), fuel);
            r.Some? && Skipped(Skip(r.value.1, TypeByte(TypeOf(e.v)), fuel), rest)
    decreases e, 0
  {
    Concat3(Encode(e.k), Encode(e.v), rest);
    SkipExact(st, e.k, Encode(e.v) + rest, fuel);
    SkipExact(Skip(st, TypeByte(TypeOf(e.k)), fuel).value.1, e.v, rest, fuel);
  }

  /** The measure on the input: three calls or turns per byte are more than enough. */
  lemma {:induction false} CostBound(v: Value)
    requires WellFormed(v)
    ensures Cost(v) < 3 * |Encode(v)|
    decreases v, 1
  {
    match v
    case VStruct(fs) => CostFieldsBound(fs);
    case VMap(_, _, es) => CostEntriesBound(es);
    case VSet(_, es) => CostElemsBound(es);
    case VList(_, es) => CostElemsBound(es);
    case _ =>
  }

  lemma {:induction false} CostFieldsBound(fs: seq<Field>)
    requires WellFormedFields(fs)
    ensures CostFields(fs) <= 3 * |EncodeFields(fs)| - 2
    decreases fs, 0
  {
    if fs != [] {
      CostFieldBound(fs[0]);
      CostFieldsBound(fs[1..]);
    }
  }

  lemma {:induction false} CostFieldBound(f: Field)
    requires WellFormed(f.v)
    ensures CostField(f) < 3 * |EncodeField(f)|
    decreases f, 0
  {
    CostBound(f.v);
  }

  lemma {:induction false} CostEntriesBound(es: seq<Entry>)
    requires WellFormedEntries(es)
    ensures CostEntries(es) <= 3 * |EncodeEntries(es)|
    decreases es, 0
  {
    if es != [] {
      CostEntryBound(es[0]);
      CostEntriesBound(es[1..]);
    }
  }

  lemma {:induction false} CostEntryBound(e: Entry)
    requires WellFormed(e.k) && WellFormed(e.v)
    ensures CostEntry(e) < 3 * |EncodeEntry(e)|
    decreases e, 0
  {
    CostBound(e.k);
    CostBound(e.v);
  }

  lemma {:induction false} CostElemsBound(es: seq<Value>)
    requires WellFormedElems(es)
    ensures CostElems(es) <= 3 * |EncodeElems(es)|
    decreases es, 0
  {
    if es != [] {
      CostBound(es[0]);
      CostElemsBound(es[1..]);
    }
  }

  /** Skip returns within a number of calls and turns bounded by the unread input. */
  lemma SkipTerminates(st: Reader, v: Value, rest: seq<byte>)
    requires Valid(st) && WellFormed(v) && st.rem == Encode(v) + rest
    ensures Skipped(Skip(st, TypeByte(TypeOf(v)), 3 * |st.rem|), rest)
  {
    hide Skip, Encode, Cost;
    CostBound(v);
    SkipExact(st, v, rest, 3 * |st.rem|);
  }

  // ----- input that ends inside a struct -----

  /** At the end of the input every read fails and leaves the scratch buffer alone, so the type byte
      seen by the struct loop is the stale one: the loop returns if and only if that byte is STOP. */
  lemma SkipFieldsAtEnd(st: Reader)
    requires Valid(st) && st.rem == []
    ensures (exists fuel: nat :: SkipFields(st, fuel).Some?) <==> st.buffer[0] == 0
  {
    hide SkipFields;
    if st.buffer[0] == 0 {
      StaleStop(st);
    } else {
      forall fuel: nat
        ensures SkipFields(st, fuel) == None
      {
        SkipFieldsDiverges(st, fuel);
      }
    }
  }

  lemma StaleStop(st: Reader)
    requires Valid(st) && st.rem == [] && st.buffer[0] == 0
    ensures SkipFields(st, 1).Some?
  {
    hide Skip, ReadFieldBegin;
  }

  lemma {:induction false} SkipFieldsDiverges(st: Reader, fuel: nat)
    requires Valid(st) && st.rem == [] && st.buffer[0] != 0
    ensures SkipFields(st, fuel) == None
    decreases fuel
  {
    hide Skip, SkipFields;
    if fuel > 0 {
      if fuel > 1 {
        SkipFieldsDiverges(st, fuel - 2);
      }
      SkipFieldsDiverges(st, fuel - 1);
      SkipAtEnd(st, st.buffer[0], fuel - 1);
    }
    SkipFieldsTurnAtEnd(st, fuel);
  }

  lemma SkipFieldsTurnAtEnd(st: Reader, fuel: nat)
    requires Valid(st) && st.rem == [] && st.buffer[0] != 0
    requires fuel > 0 ==> SkipFields(st, fuel - 1) == None
    requires fuel > 0 ==> var r := Skip(st, st.buffer[0], fuel - 1); r.Some? ==> r.value.1 == st
    ensures SkipFields(st, fuel) == None
  {
    hide Skip, ReadFieldBegin;
  }

  lemma SkipAtEnd(st: Reader, t: byte, fuel: nat)
    requires Valid(st) && st.rem == []
    requires t == 12 && fuel > 0 ==> SkipFields(st, fuel - 1) == None
    ensures Skip(st, t, fuel).Some? ==> Skip(st, t, fuel).value.1 == st
  {
    hide ReadMapBegin, ReadListBegin, ReadString, ReadAll, SkipFields, SkipElems, SkipEntries;
  }
}
