/** Headers read back as written, and Skip consumes exactly one encoded value. */
module CompactSkip {
  import opened Bits
  import opened Varint
  import opened Wire
  import opened Wrappers
  import opened Compact
  import opened CompactReader

  lemma TypeCodes(t: TType)
    ensures TTypeOf(CompactType(t)) == Some(t)
    ensures CompactType(t) == 0 <==> t == STOP
    ensures CompactType(t) == 1 <==> t == BOOL
    ensures CompactType(t) != 2
  {
  }

  lemma ReadUnsigned(st: Reader, u: nat, rest: seq<byte>)
    requires st.rem == EncodeVarint(u) + rest
    ensures ReadVarint(st) == Ok(S64(u), st.(rem := rest))
  {
    VarintRoundTrip(u, rest);
  }

  lemma SmallIsUnchanged(n: int)
    ensures 0 <= n < TWO31 ==> S64(n) == n == S32(n)
    ensures 0 <= n < TWO32 ==> S64(n) == n
    ensures IsInt16(n) ==> S16(n) == n && IsInt32(n)
    ensures IsInt32(n) ==> S32(n) == n && S32(U32(n)) == n
    ensures IsInt64(n) ==> S64(n) == n && S64(U64(n)) == n
    ensures IsInt8(n) ==> S8(n % 256) == n
  {
  }

  lemma ReadSize(st: Reader, size: nat, rest: seq<byte>)
    requires size < TWO31 && st.rem == EncodeVarint(size) + rest
    ensures ReadVarint(st) == Ok(size, st.(rem := rest)) && S32(size) == size
  {
    ReadUnsigned(st, size, rest);
    SmallIsUnchanged(size);
  }

  lemma ReadZigzag32(st: Reader, i: int, rest: seq<byte>)
    requires IsInt32(i) && st.rem == ZigzagVarint32(i) + rest
    ensures ReadI32(st) == Ok(i, st.(rem := rest))
    ensures ReadI16(st) == Ok(S16(i), st.(rem := rest))
  {
    var z := Int32ToZigzag(i);
    ReadUnsigned(st, U32(z), rest);
    SmallIsUnchanged(U32(z));
    SmallIsUnchanged(z);
    SmallIsUnchanged(i);
    Zigzag32RoundTrip(i);
  }

  lemma ReadZigzag64(st: Reader, i: int, rest: seq<byte>)
    requires IsInt64(i) && st.rem == ZigzagVarint64(i) + rest
    ensures ReadI64(st) == Ok(i, st.(rem := rest))
  {
    var z := Int64ToZigzag(i);
    ReadUnsigned(st, U64(z), rest);
    SmallIsUnchanged(z);
    Zigzag64RoundTrip(i);
    SameAfterSign(z);
  }

  lemma SameAfterSign(z: int)
    requires IsInt64(z)
    ensures S64(S64(U64(z))) == z
  {
    SmallIsUnchanged(z);
  }

  lemma NibblesOf(hi: nat, lo: nat)
    requires hi < 16 && lo < 16
    ensures (16 * hi + lo) / 16 == hi && (16 * hi + lo) % 16 == lo
  {
  }

  /** The state after a field header with type code `code`. */
  function AfterHeader(st: Reader, id: int, code: byte, rest: seq<byte>): Reader
    requires st.last != []
  {
    Reader(rest, st.last[..|st.last| - 1] + [id],
           if code == 1 || code == 2 then Some(code == 1) else st.pendingBool)
  }

  /** A field header reads back as its id and type, whatever the previous id was. */
  lemma ReadHeader(st: Reader, id: int, code: byte, rest: seq<byte>)
    requires st.last != [] && IsInt16(id) && 1 <= code <= 12
    requires st.rem == FieldHeader(st.last[|st.last| - 1], id, code) + rest
    ensures ReadFieldBegin(st) == Ok(Header(TTypeOf(code).value, id), AfterHeader(st, id, code, rest))
  {
    hide DecodeVarint, EncodeVarint, ReadI16;
    SmallIsUnchanged(id);
    hide S16;
    var delta := id - st.last[|st.last| - 1];
    var st1 := st.(rem := st.rem[1..]);
    if 0 < delta <= 15 {
      NibblesOf(delta, code);
      assert st1.rem == rest;
    } else {
      NibblesOf(0, code);
      assert st1.rem == ZigzagVarint32(id) + rest;
      ReadZigzag32(st1, id, rest);
    }
  }

  lemma ReadStop(st: Reader, rest: seq<byte>)
    requires st.rem == [0] + rest
    ensures ReadFieldBegin(st) == Ok(Header(STOP, 0), st.(rem := rest))
  {
    assert st.rem[1..] == rest;
  }

  lemma ReadCollectionHeader(st: Reader, et: TType, size: nat, rest: seq<byte>)
    requires size < TWO31 && st.rem == CollectionHeader(et, size) + rest
    ensures ReadListBegin(st) == Ok(ListSpec(et, size), st.(rem := rest))
  {
    hide DecodeVarint, EncodeVarint, CompactType;
    TypeCodes(et);
    SmallIsUnchanged(size);
    var st1 := st.(rem := st.rem[1..]);
    if size <= 14 {
      NibblesOf(size, CompactType(et));
      assert st1.rem == rest;
    } else {
      NibblesOf(15, CompactType(et));
      assert st1.rem == EncodeVarint(size) + rest;
      ReadSize(st1, size, rest);
    }
  }

  lemma ZeroVarint()
    ensures EncodeVarint(0) == [0]
  {
  }

  /** Map types are lost when, and only when, the map is empty. */
  lemma ReadMapHeader(st: Reader, kt: TType, vt: TType, size: nat, rest: seq<byte>)
    requires size < TWO31 && st.rem == MapHeader(kt, vt, size) + rest
    ensures ReadMapBegin(st)
         == Ok(if size == 0 then MapSpec(STOP, STOP, 0) else MapSpec(kt, vt, size), st.(rem := rest))
  {
    hide DecodeVarint, EncodeVarint, CompactType, ReadVarint;
    TypeCodes(kt);
    TypeCodes(vt);
    if size == 0 {
      ZeroVarint();
      ReadSize(st, 0, rest);
    } else {
      var types := [16 * CompactType(kt) + CompactType(vt)];
      assert st.rem == EncodeVarint(size) + (types + rest);
      ReadSize(st, size, types + rest);
      NibblesOf(CompactType(kt), CompactType(vt));
      assert (types + rest)[1..] == rest;
    }
  }

  // ----- the position of a value -----

  /** The reader stands at v: at its encoding or, for the bool of a field, at the end of a header
      that already held the value. */
  ghost predicate At(st: Reader, v: Value, rest: seq<byte>)
    requires WellFormed(v)
  {
    if v.VBool? && st.pendingBool.Some? then st.pendingBool == Some(v.b) && st.rem == rest
    else st.pendingBool == None && st.rem == Encode(v) + rest
  }

  /** The state once v has been consumed. */
  function Past(st: Reader, rest: seq<byte>): Reader {
    st.(rem := rest, pendingBool := None)
  }

  /** Reading the header of a field puts the reader at the field's value. */
  lemma HeaderOfField(st: Reader, f: Field, rest: seq<byte>)
    requires st.last != [] && st.pendingBool == None
    requires IsInt16(f.id) && WellFormed(f.v)
    requires st.rem == EncodeField(st.last[|st.last| - 1], f) + rest
    ensures ReadFieldBegin(st).Ok?
    ensures var r := ReadFieldBegin(st);
            && r.value == Header(TypeOf(f.v), f.id)
            && At(r.st, f.v, rest)
            && r.st.last == st.last[..|st.last| - 1] + [f.id]
  {
    TypeCodes(TypeOf(f.v));
    if f.v.VBool? {
      ReadHeader(st, f.id, BoolCode(f.v.b), rest);
    } else {
      var last := st.last[|st.last| - 1];
      var code := CompactType(TypeOf(f.v));
      assert st.rem == FieldHeader(last, f.id, code) + (Encode(f.v) + rest);
      ReadHeader(st, f.id, code, Encode(f.v) + rest);
    }
  }

  lemma ReadBoolAt(st: Reader, v: Value, rest: seq<byte>)
    requires v.VBool? && At(st, v, rest)
    ensures ReadBool(st) == Ok(v.b, Past(st, rest))
  {
    if st.pendingBool == None {
      assert st.rem[1..] == rest;
    }
  }

  lemma ReadByteAt(st: Reader, i: int, rest: seq<byte>)
    requires IsInt8(i) && st.rem == [(i % 256) as byte] + rest
    ensures ReadByte(st) == Ok(i, st.(rem := rest))
  {
    SmallIsUnchanged(i);
    assert st.rem[1..] == rest;
  }

  lemma ReadAllAt(st: Reader, bytes: seq<byte>, rest: seq<byte>)
    requires st.rem == bytes + rest
    ensures ReadAll(st, |bytes|) == Ok(bytes, st.(rem := rest))
  {
    if bytes == [] {
      assert st.rem == rest;
    }
  }

  lemma ReadBinaryAt(st: Reader, bytes: seq<byte>, rest: seq<byte>)
    requires |bytes| < TWO31 && st.rem == EncodeVarint(|bytes|) + (bytes + rest)
    ensures ReadBinary(st) == Ok(bytes, st.(rem := rest))
  {
    var tail := bytes + rest;
    ReadSize(st, |bytes|, tail);
    ReadAllAt(st.(rem := tail), bytes, rest);
  }

  // ----- Skip consumes precisely one value -----

  /** Skipping any well-formed value, nested to any depth and followed by any bytes, consumes its
      encoding and nothing else, and restores the field stack and the pending bool. */
  lemma {:induction false} SkipExact(st: Reader, v: Value, rest: seq<byte>)
    requires WellFormed(v) && At(st, v, rest)
    ensures Skip(st, TypeOf(v)) == Ok((), Past(st, rest))
    decreases v, 1
  {
    match v
    case VBool(_) => ReadBoolAt(st, v, rest);
    case VByte(i) => ReadByteAt(st, i, rest);
    case VI16(i) => ReadZigzag32(st, i, rest);
    case VI32(i) => ReadZigzag32(st, i, rest);
    case VI64(i) => ReadZigzag64(st, i, rest);
    case VDouble(bits) => ReadAllAt(st, bits, rest);
    case VString(bytes) =>
      Concat3(EncodeVarint(|bytes|), bytes, rest);
      ReadBinaryAt(st, bytes, rest);
    case VStruct(fields) => SkipStructExact(st, fields, rest);
    case VMap(kt, vt, entries) =>
      Concat3(MapHeader(kt, vt, |entries|), EncodeEntries(entries), rest);
      SkipMapExact(st, kt, vt, entries, rest);
    case VSet(et, elems) =>
      Concat3(CollectionHeader(et, |elems|), EncodeElems(elems), rest);
      SkipCollectionExact(st, et, elems, rest);
    case VList(et, elems) =>
      Concat3(CollectionHeader(et, |elems|), EncodeElems(elems), rest);
      SkipCollectionExact(st, et, elems, rest);
  }

  lemma {:induction false} SkipStructExact(st: Reader, fields: seq<Field>, rest: seq<byte>)
    requires WellFormedFields(fields) && st.pendingBool == None
    requires st.rem == EncodeFields(0, fields) + rest
    ensures Skip(st, STRUCT) == Ok((), st.(rem := rest))
    decreases fields, 1
  {
    SkipFieldsExact(StructBegin(st), fields, rest);
    PoppedStruct(st, SkipFields(StructBegin(st)).st, rest);
  }

  /** Popping the id that StructBegin pushed restores the stack, whatever id is there by then. */
  lemma PoppedStruct(st: Reader, inner: Reader, rest: seq<byte>)
    requires st.pendingBool == None && inner.pendingBool == None && inner.rem == rest
    requires |inner.last| == |st.last| + 1
    requires inner.last[..|st.last|] == StructBegin(st).last[..|st.last|]
    ensures StructEnd(inner) == st.(rem := rest)
  {
    assert StructBegin(st).last[..|st.last|] == st.last;
  }

  lemma {:induction false} SkipMapExact(st: Reader, kt: WireType, vt: WireType, es: seq<Entry>, rest: seq<byte>)
    requires |es| < TWO31 && WellFormedEntries(es) && st.pendingBool == None
    requires forall e | e in es :: TypeOf(e.k) == kt && TypeOf(e.v) == vt
    requires st.rem == MapHeader(kt, vt, |es|) + (EncodeEntries(es) + rest)
    ensures Skip(st, MAP) == Ok((), st.(rem := rest))
    decreases es, 1
  {
    hide DecodeVarint, EncodeVarint, MapHeader, ReadMapBegin, EncodeEntries;
    var body := EncodeEntries(es) + rest;
    ReadMapHeader(st, kt, vt, |es|, body);
    SkipEntriesExact(st.(rem := body), kt, vt, es, rest);
  }

  lemma {:induction false} SkipCollectionExact(st: Reader, et: WireType, es: seq<Value>, rest: seq<byte>)
    requires |es| < TWO31 && WellFormedElems(es) && st.pendingBool == None
    requires forall e | e in es :: TypeOf(e) == et
    requires st.rem == CollectionHeader(et, |es|) + (EncodeElems(es) + rest)
    ensures Skip(st, LIST) == Ok((), st.(rem := rest))
    ensures Skip(st, SET) == Ok((), st.(rem := rest))
    decreases es, 1
  {
    hide DecodeVarint, EncodeVarint, CollectionHeader, ReadListBegin, EncodeElems;
    var body := EncodeElems(es) + rest;
    ReadCollectionHeader(st, et, |es|, body);
    SkipElemsExact(st.(rem := body), et, es, rest);
  }

  lemma {:induction false} SkipFieldExact(st: Reader, f: Field, rest: seq<byte>)
    requires st.last != [] && st.pendingBool == None
    requires IsInt16(f.id) && WellFormed(f.v)
    requires st.rem == EncodeField(st.last[|st.last| - 1], f) + rest
    ensures ReadFieldBegin(st).Ok?
    ensures var r := ReadFieldBegin(st);
            && r.value == Header(TypeOf(f.v), f.id)
            && Skip(r.st, TypeOf(f.v))
               == Ok((), Reader(rest, st.last[..|st.last| - 1] + [f.id], None))
    decreases f, 0
  {
    HeaderOfField(st, f, rest);
    SkipExact(ReadFieldBegin(st).st, f.v, rest);
  }

  lemma {:induction false} SkipFieldsExact(st: Reader, fs: seq<Field>, rest: seq<byte>)
    requires WellFormedFields(fs) && st.pendingBool == None && st.last != []
    requires st.rem == EncodeFields(st.last[|st.last| - 1], fs) + rest
    ensures SkipFields(st).Ok?
    ensures var r := SkipFields(st);
            && r.st.rem == rest && r.st.pendingBool == None
            && |r.st.last| == |st.last| && r.st.last[..|st.last| - 1] == st.last[..|st.last| - 1]
    decreases fs, 0
  {
    if fs == [] {
      ReadStop(st, rest);
    } else {
      var f := fs[0];
      var tail := EncodeFields(f.id, fs[1..]) + rest;
      Concat3(EncodeField(st.last[|st.last| - 1], f), EncodeFields(f.id, fs[1..]), rest);
      SkipFieldExact(st, f, tail);
      SkipFieldsExact(Reader(tail, st.last[..|st.last| - 1] + [f.id], None), fs[1..], rest);
    }
  }

  lemma {:induction false} SkipEntriesExact(st: Reader, kt: WireType, vt: WireType, es: seq<Entry>, rest: seq<byte>)
    requires WellFormedEntries(es) && st.pendingBool == None
    requires forall e | e in es :: TypeOf(e.k) == kt && TypeOf(e.v) == vt
    requires st.rem == EncodeEntries(es) + rest
    ensures SkipEntries(st, if es == [] then STOP else kt, if es == [] then STOP else vt, |es|)
         == Ok((), st.(rem := rest))
    decreases es, 0
  {
    if es == [] {
      assert st.rem == rest;
    } else {
      var tail := EncodeEntries(es[1..]) + rest;
      Concat3(EncodeEntry(es[0]), EncodeEntries(es[1..]), rest);
      SkipEntryExact(st, es[0], tail);
      SkipEntriesExact(st.(rem := tail), kt, vt, es[1..], rest);
    }
  }

  lemma {:induction false} SkipEntryExact(st: Reader, e: Entry, rest: seq<byte>)
    requires WellFormed(e.k) && WellFormed(e.v) && st.pendingBool == None
    requires st.rem == EncodeEntry(e) + rest
    ensures Skip(st, TypeOf(e.k)).Ok?
    ensures Skip(Skip(st, TypeOf(e.k)).st, TypeOf(e.v)) == Ok((), st.(rem := rest))
    decreases e, 0
  {
    Concat3(Encode(e.k), Encode(e.v), rest);
    SkipExact(st, e.k, Encode(e.v) + rest);
    SkipExact(st.(rem := Encode(e.v) + rest), e.v, rest);
  }

  lemma {:induction false} SkipElemsExact(st: Reader, et: WireType, es: seq<Value>, rest: seq<byte>)
    requires WellFormedElems(es) && st.pendingBool == None
    requires forall e | e in es :: TypeOf(e) == et
    requires st.rem == EncodeElems(es) + rest
    ensures SkipElems(st, et, |es|) == Ok((), st.(rem := rest))
    decreases es, 0
  {
    if es == [] {
      assert st.rem == rest;
    } else {
      var tail := EncodeElems(es[1..]) + rest;
      Concat3(Encode(es[0]), EncodeElems(es[1..]), rest);
      SkipExact(st, es[0], tail);
      SkipElemsExact(st.(rem := tail), et, es[1..], rest);
    }
  }
}
