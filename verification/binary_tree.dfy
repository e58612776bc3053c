/** The binary protocol as a whole: what the writer emits for a tree is read back as that tree, by the
    types on the wire. */
module BinaryTree {
  import opened Bits
  import opened Wire
  import opened Wrappers
  import opened Binary
  import W = CompactWriter
  import P = BinaryProtocol

  /** The type constants of type.go. */
  function TypeOfByte(b: byte): Option<TType> {
    if b == 0 then Some(STOP)
    else if b == 2 then Some(BOOL)
    else if b == 3 then Some(BYTE)
    else if b == 4 then Some(DOUBLE)
    else if b == 6 then Some(I16)
    else if b == 8 then Some(I32)
    else if b == 10 then Some(I64)
    else if b == 11 then Some(STRING)
    else if b == 12 then Some(STRUCT)
    else if b == 13 then Some(MAP)
    else if b == 14 then Some(SET)
    else if b == 15 then Some(LIST)
    else None
  }

  lemma TypeReadsBack(t: TType)
    ensures TypeOfByte(TypeByte(t)) == Some(t)
  {
  }

  function AnnouncedType(b: byte): Option<WireType> {
    match TypeOfByte(b)
    case Some(t) => if t == STOP then None else Some(t)
    case None => None
  }

  type Got<T> = Option<(T, Reader)>

  ghost predicate Consumed<T>(r: Got<T>, st: Reader, least: nat) {
    r.Some? ==> Valid(r.value.1) && |r.value.1.rem| + least <= |st.rem|
  }

  function AsGot(r: Read<Value>): Got<Value> {
    if r.ok then Some((r.value, r.st)) else None
  }

  lemma ScalarConsumes(st: Reader, t: WireType)
    requires Valid(st) && t in {BOOL, BYTE, I16, I32, I64, DOUBLE, STRING}
    ensures Consumed(AsGot(ReadScalar(st, t)), st, 1)
  {
    hide FromBigEndian, Reversed;
  }

  lemma HeadersConsume(st: Reader)
    requires Valid(st)
    ensures ReadFieldBegin(st).ok ==> |ReadFieldBegin(st).st.rem| < |st.rem|
    ensures ReadMapBegin(st).ok ==> |ReadMapBegin(st).st.rem| < |st.rem|
    ensures ReadListBegin(st).ok ==> |ReadListBegin(st).st.rem| < |st.rem|
  {
    hide FromBigEndian;
  }

  function ReadTree(st: Reader, t: WireType): (r: Got<Value>)
    requires Valid(st)
    ensures Consumed(r, st, 1)
    decreases |st.rem|, 1, 0
  {
    HeadersConsume(st);
    if t == STRUCT then (match ReadFields(st)
      case Some((fs, st1)) => Some((VStruct(fs), st1))
      case None => None)
    else if t == MAP then ReadMap(st)
    else if t == SET then (match ReadList(st)
      case Some((l, st1)) => Some((VSet(l.0, l.1), st1))
      case None => None)
    else if t == LIST then (match ReadList(st)
      case Some((l, st1)) => Some((VList(l.0, l.1), st1))
      case None => None)
    else
      ScalarConsumes(st, t);
      AsGot(ReadScalar(st, t))
  }

  function ReadFields(st: Reader): (r: Got<seq<Field>>)
    requires Valid(st)
    ensures Consumed(r, st, 1)
    decreases |st.rem|, 0, 0
  {
    HeadersConsume(st);
    var h := ReadFieldBegin(st);
    if !h.ok then None
    else if h.value.typeId == 0 then Some(([], h.st))
    else match AnnouncedType(h.value.typeId)
      case None => None
      case Some(t) => match ReadTree(h.st, t)
        case None => None
        case Some((v, st1)) => match ReadFields(st1)
          case Some((fs, st2)) => Some(([Field(h.value.id, v)] + fs, st2))
          case None => None
  }

  function ReadMap(st: Reader): (r: Got<Value>)
    requires Valid(st)
    ensures Consumed(r, st, 1)
    decreases |st.rem|, 0, 0
  {
    HeadersConsume(st);
    var h := ReadMapBegin(st);
    if !h.ok then None
    else match (AnnouncedType(h.value.keyType), AnnouncedType(h.value.elemType))
      case (Some(kt), Some(vt)) => (match ReadEntries(h.st, kt, vt, Count(h.value.size))
        case Some((es, st1)) => Some((VMap(kt, vt, es), st1))
        case None => None)
      case _ => None
  }

  function ReadList(st: Reader): (r: Got<(WireType, seq<Value>)>)
    requires Valid(st)
    ensures Consumed(r, st, 1)
    decreases |st.rem|, 0, 0
  {
    HeadersConsume(st);
    var h := ReadListBegin(st);
    if !h.ok then None
    else match AnnouncedType(h.value.elemType)
      case None => None
      case Some(et) => match ReadElems(h.st, et, Count(h.value.size))
        case Some((es, st1)) => Some(((et, es), st1))
        case None => None
  }

  function ReadElems(st: Reader, et: WireType, n: nat): (r: Got<seq<Value>>)
    requires Valid(st)
    ensures Consumed(r, st, 0)
    decreases |st.rem|, 2, n
  {
    if n == 0 then Some(([], st))
    else match ReadTree(st, et)
      case None => None
      case Some((v, st1)) => match ReadElems(st1, et, n - 1)
        case Some((es, st2)) => Some(([v] + es, st2))
        case None => None
  }

  function ReadEntries(st: Reader, kt: WireType, vt: WireType, n: nat): (r: Got<seq<Entry>>)
    requires Valid(st)
    ensures Consumed(r, st, 0)
    decreases |st.rem|, 2, n
  {
    if n == 0 then Some(([], st))
    else match ReadTree(st, kt)
      case None => None
      case Some((k, st1)) => match ReadTree(st1, vt)
        case None => None
        case Some((v, st2)) => match ReadEntries(st2, kt, vt, n - 1)
          case Some((es, st3)) => Some(([Entry(k, v)] + es, st3))
          case None => None
  }

  // ----- read back -----

  /** The 16-bit integers fit their width, as in Go they do. */
  predicate Fits(v: Value)
    decreases v
  {
    match v
    case VI16(i) => IsInt16(i)
    case VStruct(fs) => forall f | f in fs :: Fits(f.v)
    case VMap(_, _, es) => forall e | e in es :: Fits(e.k) && Fits(e.v)
    case VSet(_, es) => forall e | e in es :: Fits(e)
    case VList(_, es) => forall e | e in es :: Fits(e)
    case _ => true
  }

  /** The reader has got x, and exactly `rest` is unread. */
  ghost predicate Reads<T>(r: Got<T>, x: T, rest: seq<byte>) {
    r.Some? && r.value.0 == x && r.value.1.rem == rest && Valid(r.value.1)
  }

  /** Whatever the scratch buffer holds and whatever follows, reading at an encoded tree gives the tree
      and consumes exactly its encoding. */
  lemma {:induction false} ReadsTree(st: Reader, v: Value, rest: seq<byte>)
    requires Valid(st) && WellFormed(v) && Fits(v) && st.rem == Encode(v) + rest
    ensures Reads(ReadTree(st, TypeOf(v)), v, rest)
    decreases v, 1
  {
    hide ReadScalar, ReadFields, ReadMap, ReadList;
    match v
    case VStruct(fs) => ReadsFields(st, fs, rest);
    case VMap(kt, vt, es) => ReadsMap(st, kt, vt, es, rest);
    case VSet(et, es) => ReadsList(st, et, es, rest);
    case VList(et, es) => ReadsList(st, et, es, rest);
    case _ => ScalarRoundTrip(st, v, rest);
  }

  lemma {:induction false} ReadsFields(st: Reader, fs: seq<Field>, rest: seq<byte>)
    requires Valid(st) && WellFormedFields(fs) && (forall f | f in fs :: Fits(f.v)) && st.rem == EncodeFields(fs) + rest
    ensures Reads(ReadFields(st), fs, rest)
    decreases fs, 0
  {
    if fs == [] {
      ReadTypeByte(st, 0, rest);
      assert ReadFieldBegin(st).ok && ReadFieldBegin(st).value.typeId == 0;
    } else {
      hide ReadFieldBegin, ReadTree, EncodeField, Encode, WellFormed, Fits;
      var tail := EncodeFields(fs[1..]) + rest;
      Concat3(EncodeField(fs[0]), EncodeFields(fs[1..]), rest);
      ReadsField(st, fs[0], tail);
      var h := ReadFieldBegin(st);
      ReadsFields(ReadTree(h.st, TypeOf(fs[0].v)).value.1, fs[1..], rest);
      assert [fs[0]] + fs[1..] == fs;
    }
  }

  lemma {:induction false} ReadsField(st: Reader, f: Field, rest: seq<byte>)
    requires Valid(st) && IsInt16(f.id) && WellFormed(f.v) && Fits(f.v) && st.rem == EncodeField(f) + rest
    ensures var h := ReadFieldBegin(st);
            && h.ok && h.value.typeId != 0 && AnnouncedType(h.value.typeId) == Some(TypeOf(f.v)) && h.value.id == f.id
            && Reads(ReadTree(h.st, TypeOf(f.v)), f.v, rest)
    decreases f, 0
  {
    hide ReadTree, Encode, WellFormed, Fits, ReadFieldBegin;
    Concat3(FieldHeader(f), Encode(f.v), rest);
    ReadFieldHeader(st, f, Encode(f.v) + rest);
    TypeReadsBack(TypeOf(f.v));
    ReadsTree(ReadFieldBegin(st).st, f.v, rest);
  }

  lemma {:induction false} ReadsMap(st: Reader, kt: WireType, vt: WireType, es: seq<Entry>, rest: seq<byte>)
    requires Valid(st) && |es| < TWO31 && WellFormedEntries(es) && forall e | e in es :: Fits(e.k) && Fits(e.v)
    requires forall e | e in es :: TypeOf(e.k) == kt && TypeOf(e.v) == vt
    requires st.rem == [TypeByte(kt), TypeByte(vt)] + BigEndian(|es|, 4) + EncodeEntries(es) + rest
    ensures Reads(ReadMap(st), VMap(kt, vt, es), rest)
    decreases es, 1
  {
    hide BigEndian, EncodeEntries, ReadMapBegin, ReadEntries, TypeByte, WellFormed, Fits;
    Concat3([TypeByte(kt), TypeByte(vt)] + BigEndian(|es|, 4), EncodeEntries(es), rest);
    ReadMapHeader(st, TypeByte(kt), TypeByte(vt), |es|, EncodeEntries(es) + rest);
    TypeReadsBack(kt);
    TypeReadsBack(vt);
    ReadsEntries(ReadMapBegin(st).st, kt, vt, es, rest);
  }

  lemma {:induction false} ReadsList(st: Reader, et: WireType, es: seq<Value>, rest: seq<byte>)
    requires Valid(st) && |es| < TWO31 && WellFormedElems(es) && forall e | e in es :: Fits(e)
    requires forall e | e in es :: TypeOf(e) == et
    requires st.rem == [TypeByte(et)] + BigEndian(|es|, 4) + EncodeElems(es) + rest
    ensures Reads(ReadList(st), (et, es), rest)
    decreases es, 1
  {
    hide BigEndian, EncodeElems, ReadListBegin, ReadElems, TypeByte, WellFormed, Fits;
    Concat3([TypeByte(et)] + BigEndian(|es|, 4), EncodeElems(es), rest);
    ReadListHeader(st, TypeByte(et), |es|, EncodeElems(es) + rest);
    TypeReadsBack(et);
    ReadsElems(ReadListBegin(st).st, et, es, rest);
  }

  lemma {:induction false} ReadsElems(st: Reader, et: WireType, es: seq<Value>, rest: seq<byte>)
    requires Valid(st) && WellFormedElems(es) && forall e | e in es :: Fits(e)
    requires forall e | e in es :: TypeOf(e) == et
    requires st.rem == EncodeElems(es) + rest
    ensures Reads(ReadElems(st, et, |es|), es, rest)
    decreases es, 0
  {
    if es == [] {
      assert st.rem == rest;
    } else {
      hide ReadTree, Encode, WellFormed, Fits;
      Concat3(Encode(es[0]), EncodeElems(es[1..]), rest);
      ReadsTree(st, es[0], EncodeElems(es[1..]) + rest);
      ReadsElems(ReadTree(st, et).value.1, et, es[1..], rest);
      assert [es[0]] + es[1..] == es;
    }
  }

  lemma {:induction false} ReadsEntries(st: Reader, kt: WireType, vt: WireType, es: seq<Entry>, rest: seq<byte>)
    requires Valid(st) && WellFormedEntries(es) && forall e | e in es :: Fits(e.k) && Fits(e.v)
    requires forall e | e in es :: TypeOf(e.k) == kt && TypeOf(e.v) == vt
    requires st.rem == EncodeEntries(es) + rest
    ensures Reads(ReadEntries(st, kt, vt, |es|), es, rest)
    decreases es, 0
  {
    if es == [] {
      assert st.rem == rest;
    } else {
      hide ReadTree, ReadEntries, EncodeEntry, Encode, WellFormed, Fits;
      Concat3(EncodeEntry(es[0]), EncodeEntries(es[1..]), rest);
      ReadsEntry(st, es[0], EncodeEntries(es[1..]) + rest);
      var st1 := ReadTree(st, kt).value.1;
      ReadsEntries(ReadTree(st1, vt).value.1, kt, vt, es[1..], rest);
      EntriesStep(st, es, kt, vt, rest);
    }
  }

  lemma EntriesStep(st: Reader, es: seq<Entry>, kt: WireType, vt: WireType, rest: seq<byte>)
    requires Valid(st) && es != []
    requires var k := ReadTree(st, kt); k.Some? && k.value.0 == es[0].k && Valid(k.value.1)
    requires var v := ReadTree(ReadTree(st, kt).value.1, vt);
             v.Some? && v.value.0 == es[0].v && Valid(v.value.1) && Reads(ReadEntries(v.value.1, kt, vt, |es| - 1), es[1..], rest)
    ensures Reads(ReadEntries(st, kt, vt, |es|), es, rest)
  {
    hide ReadTree;
    assert [es[0]] + es[1..] == es;
  }

  lemma {:induction false} ReadsEntry(st: Reader, e: Entry, rest: seq<byte>)
    requires Valid(st) && WellFormed(e.k) && WellFormed(e.v) && Fits(e.k) && Fits(e.v) && st.rem == EncodeEntry(e) + rest
    ensures var r := ReadTree(st, TypeOf(e.k));
            && Reads(r, e.k, Encode(e.v) + rest)
            && Reads(ReadTree(r.value.1, TypeOf(e.v)), e.v, rest)
    decreases e, 0
  {
    hide ReadTree, Encode, WellFormed, Fits;
    Concat3(Encode(e.k), Encode(e.v), rest);
    ReadsTree(st, e.k, Encode(e.v) + rest);
    ReadsTree(ReadTree(st, TypeOf(e.k)).value.1, e.v, rest);
  }

  /** The bytes the writer's calls emit for a tree are read back as that tree, empty containers' types
      included, and what follows is untouched. */
  lemma WrittenReadsBack(v: Value, buffer: seq<byte>, rest: seq<byte>)
    requires WellFormed(v) && Fits(v) && |buffer| == 8
    ensures P.ValidCalls(W.Calls(v))
    ensures Reads(ReadTree(Reader(P.RunBytes(W.Calls(v)) + rest, buffer), TypeOf(v)), v, rest)
  {
    hide ReadTree, Encode, P.RunBytes, W.Calls, WellFormed, Fits;
    P.BinaryWrites(v);
    ReadsTree(Reader(Encode(v) + rest, buffer), v, rest);
  }
}
