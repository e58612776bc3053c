/** The compact protocol as a whole: what the Go writer emits for a tree, the Ruby reader gives back,
    reading by the types on the wire. */
module CompactTree {
  import opened Bits
  import opened Varint
  import opened Wire
  import opened Wrappers
  import opened Compact
  import opened CompactReader
  import opened CompactSkip
  import W = CompactWriter

  /** A map of size zero has no types on the wire; this one stands for the missing ones. */
  const NO_TYPE: WireType := BOOL

  function ReadTree(st: Reader, t: WireType): (r: Result<Value>)
    ensures Consumes(r, st)
    decreases |st.rem|, 1, 0
  {
    match t
    case BOOL => (match ReadBool(st) case Ok(b, st1) => Ok(VBool(b), st1) case Err => Err)
    case BYTE => (match ReadByte(st) case Ok(i, st1) => Ok(VByte(i), st1) case Err => Err)
    case I16 => (match ReadI16(st) case Ok(i, st1) => Ok(VI16(i), st1) case Err => Err)
    case I32 => (match ReadI32(st) case Ok(i, st1) => Ok(VI32(i), st1) case Err => Err)
    case I64 => (match ReadI64(st) case Ok(i, st1) => Ok(VI64(i), st1) case Err => Err)
    case DOUBLE => (match ReadDouble(st) case Ok(d, st1) => Ok(VDouble(d), st1) case Err => Err)
    case STRING => (match ReadBinary(st) case Ok(s, st1) => Ok(VString(s), st1) case Err => Err)
    case STRUCT => (match ReadFields(StructBegin(st))
      case Ok(fs, st1) => Ok(VStruct(fs), StructEnd(st1))
      case Err => Err)
    case MAP => ReadMap(st)
    case SET => (match ReadList(st) case Ok(l, st1) => Ok(VSet(l.0, l.1), st1) case Err => Err)
    case LIST => (match ReadList(st) case Ok(l, st1) => Ok(VList(l.0, l.1), st1) case Err => Err)
  }

  function ReadFields(st: Reader): (r: Result<seq<Field>>)
    ensures Consumes(r, st)
    decreases |st.rem|, 0, 0
  {
    match ReadFieldBegin(st)
    case Err => Err
    case Ok(h, st1) =>
      if h.ttype == STOP then Ok([], st1)
      else match ReadTree(st1, h.ttype)
        case Err => Err
        case Ok(v, st2) => match ReadFields(st2)
          case Err => Err
          case Ok(fs, st3) => Ok([Field(h.id, v)] + fs, st3)
  }

  function ReadMap(st: Reader): (r: Result<Value>)
    ensures Consumes(r, st)
    decreases |st.rem|, 0, 0
  {
    match ReadMapBegin(st)
    case Err => Err
    case Ok(h, st1) =>
      if Count(h.size) == 0 then Ok(VMap(NO_TYPE, NO_TYPE, []), st1)
      else if h.keyType == STOP || h.valueType == STOP then Err
      else match ReadEntries(st1, h.keyType, h.valueType, Count(h.size))
        case Err => Err
        case Ok(es, st2) => Ok(VMap(h.keyType, h.valueType, es), st2)
  }

  function ReadList(st: Reader): (r: Result<(WireType, seq<Value>)>)
    ensures Consumes(r, st)
    decreases |st.rem|, 0, 0
  {
    match ReadListBegin(st)
    case Err => Err
    case Ok(h, st1) =>
      if h.elemType == STOP then Err
      else match ReadElems(st1, h.elemType, Count(h.size))
        case Err => Err
        case Ok(es, st2) => Ok((h.elemType, es), st2)
  }

  function ReadElems(st: Reader, et: WireType, n: nat): (r: Result<seq<Value>>)
    ensures Consumes(r, st)
    decreases |st.rem|, 2, n
  {
    if n == 0 then Ok([], st)
    else match ReadTree(st, et)
      case Err => Err
      case Ok(v, st1) => match ReadElems(st1, et, n - 1)
        case Err => Err
        case Ok(es, st2) => Ok([v] + es, st2)
  }

  function ReadEntries(st: Reader, kt: WireType, vt: WireType, n: nat): (r: Result<seq<Entry>>)
    ensures Consumes(r, st)
    decreases |st.rem|, 2, n
  {
    if n == 0 then Ok([], st)
    else match ReadTree(st, kt)
      case Err => Err
      case Ok(k, st1) => match ReadTree(st1, vt)
        case Err => Err
        case Ok(v, st2) => match ReadEntries(st2, kt, vt, n - 1)
          case Err => Err
          case Ok(es, st3) => Ok([Entry(k, v)] + es, st3)
  }

  // ----- what is lost -----

  /** The same tree as it is read: the types of its empty maps gone, and each 16-bit integer cut to its
      width. */
  function Bare(v: Value): (r: Value)
    ensures TypeOf(r) == TypeOf(v)
    decreases v, 1
  {
    match v
    case VStruct(fs) => VStruct(BareFields(fs))
    case VMap(kt, vt, es) => if es == [] then VMap(NO_TYPE, NO_TYPE, []) else VMap(kt, vt, BareEntries(es))
    case VSet(et, es) => VSet(et, BareElems(es))
    case VList(et, es) => VList(et, BareElems(es))
    case _ => Narrowed(v)
  }

  function BareField(f: Field): Field
    decreases f, 0
  {
    Field(f.id, Bare(f.v))
  }

  function BareFields(fs: seq<Field>): (r: seq<Field>)
    ensures |r| == |fs|
    decreases fs, 0
  {
    if fs == [] then [] else [BareField(fs[0])] + BareFields(fs[1..])
  }

  function BareEntry(e: Entry): Entry
    decreases e, 0
  {
    Entry(Bare(e.k), Bare(e.v))
  }

  function BareEntries(es: seq<Entry>): (r: seq<Entry>)
    ensures |r| == |es|
    decreases es, 0
  {
    if es == [] then [] else [BareEntry(es[0])] + BareEntries(es[1..])
  }

  function BareElems(es: seq<Value>): (r: seq<Value>)
    ensures |r| == |es|
    decreases es, 0
  {
    if es == [] then [] else [Bare(es[0])] + BareElems(es[1..])
  }

  /** No map in it is empty, and every 16-bit integer fits its width. */
  predicate IsBare(v: Value)
    decreases v
  {
    match v
    case VI16(i) => IsInt16(i)
    case VStruct(fs) => forall f | f in fs :: IsBare(f.v)
    case VMap(_, _, es) => es != [] && forall e | e in es :: IsBare(e.k) && IsBare(e.v)
    case VSet(_, es) => forall e | e in es :: IsBare(e)
    case VList(_, es) => forall e | e in es :: IsBare(e)
    case _ => true
  }

  /** Nothing else is lost. */
  lemma {:induction false} BareKeeps(v: Value)
    requires IsBare(v)
    ensures Bare(v) == v
    decreases v, 1
  {
    match v
    case VStruct(fs) => BareKeepsFields(fs);
    case VMap(_, _, es) => BareKeepsEntries(es);
    case VSet(_, es) => BareKeepsElems(es);
    case VList(_, es) => BareKeepsElems(es);
    case _ =>
  }

  lemma {:induction false} BareKeepsFields(fs: seq<Field>)
    requires forall f | f in fs :: IsBare(f.v)
    ensures BareFields(fs) == fs
    decreases fs, 0
  {
    if fs != [] {
      BareKeepsField(fs[0]);
      BareKeepsFields(fs[1..]);
    }
  }

  lemma {:induction false} BareKeepsField(f: Field)
    requires IsBare(f.v)
    ensures BareField(f) == f
    decreases f, 0
  {
    BareKeeps(f.v);
  }

  lemma {:induction false} BareKeepsEntries(es: seq<Entry>)
    requires forall e | e in es :: IsBare(e.k) && IsBare(e.v)
    ensures BareEntries(es) == es
    decreases es, 0
  {
    if es != [] {
      BareKeepsEntry(es[0]);
      BareKeepsEntries(es[1..]);
    }
  }

  lemma {:induction false} BareKeepsEntry(e: Entry)
    requires IsBare(e.k) && IsBare(e.v)
    ensures BareEntry(e) == e
    decreases e, 0
  {
    BareKeeps(e.k);
    BareKeeps(e.v);
  }

  lemma {:induction false} BareKeepsElems(es: seq<Value>)
    requires forall e | e in es :: IsBare(e)
    ensures BareElems(es) == es
    decreases es, 0
  {
    if es != [] {
      BareKeeps(es[0]);
      BareKeepsElems(es[1..]);
    }
  }

  // ----- the reader reads the layout -----

  lemma {:induction false} ReadsTree(st: Reader, v: Value, rest: seq<byte>)
    requires WellFormed(v) && At(st, v, rest)
    ensures ReadTree(st, TypeOf(v)) == Ok(Bare(v), Past(st, rest))
    decreases v, 1
  {
    match v
    case VStruct(fs) => ReadsStruct(st, fs, rest);
    case VMap(kt, vt, es) =>
      Concat3(MapHeader(kt, vt, |es|), EncodeEntries(es), rest);
      ReadsMap(st, kt, vt, es, rest);
    case VSet(et, es) =>
      Concat3(CollectionHeader(et, |es|), EncodeElems(es), rest);
      ReadsList(st, et, es, rest);
    case VList(et, es) =>
      Concat3(CollectionHeader(et, |es|), EncodeElems(es), rest);
      ReadsList(st, et, es, rest);
    case _ => ReadsScalar(st, v, rest);
  }

  lemma ReadsScalar(st: Reader, v: Value, rest: seq<byte>)
    requires WellFormed(v) && At(st, v, rest)
    requires !v.VStruct? && !v.VMap? && !v.VSet? && !v.VList?
    ensures ReadTree(st, TypeOf(v)) == Ok(Narrowed(v), Past(st, rest))
  {
    hide ReadMap, ReadList, ReadFields;
    match v
    case VBool(_) => ReadBoolAt(st, v, rest);
    case VByte(i) => ReadByteAt(st, i, rest);
    case VI16(i) => ReadZigzag32(st, i, rest);
    case VI32(i) => ReadZigzag32(st, i, rest);
    case VI64(i) => ReadZigzag64(st, i, rest);
    case VDouble(bits) => ReadAllAt(st, bits, rest);
    case VString(bytes) =>
      Concat3(EncodeVarint(|bytes|), bytes, rest);
      ReadBinaryAt(st, bytes, rest);
    case _ =>
  }

  lemma {:induction false} ReadsStruct(st: Reader, fs: seq<Field>, rest: seq<byte>)
    requires WellFormedFields(fs) && st.pendingBool == None
    requires st.rem == EncodeFields(0, fs) + rest
    ensures ReadTree(st, STRUCT) == Ok(VStruct(BareFields(fs)), st.(rem := rest))
    decreases fs, 1
  {
    hide ReadFields, ReadMap, ReadList, BareFields;
    ReadsFields(StructBegin(st), fs, rest);
    PoppedStruct(st, ReadFields(StructBegin(st)).st, rest);
  }

  lemma {:induction false} ReadsFields(st: Reader, fs: seq<Field>, rest: seq<byte>)
    requires WellFormedFields(fs) && st.pendingBool == None && st.last != []
    requires st.rem == EncodeFields(st.last[|st.last| - 1], fs) + rest
    ensures ReadFields(st).Ok?
    ensures var r := ReadFields(st);
            && r.value == BareFields(fs) && r.st.rem == rest && r.st.pendingBool == None
            && |r.st.last| == |st.last| && r.st.last[..|st.last| - 1] == st.last[..|st.last| - 1]
    decreases fs, 0
  {
    if fs == [] {
      ReadStop(st, rest);
    } else {
      hide ReadTree, ReadFieldBegin, EncodeField, BareField;
      var f := fs[0];
      var tail := EncodeFields(f.id, fs[1..]) + rest;
      Concat3(EncodeField(st.last[|st.last| - 1], f), EncodeFields(f.id, fs[1..]), rest);
      ReadsField(st, f, tail);
      ReadsFields(Reader(tail, st.last[..|st.last| - 1] + [f.id], None), fs[1..], rest);
    }
  }

  lemma {:induction false} ReadsField(st: Reader, f: Field, rest: seq<byte>)
    requires st.last != [] && st.pendingBool == None
    requires IsInt16(f.id) && WellFormed(f.v)
    requires st.rem == EncodeField(st.last[|st.last| - 1], f) + rest
    ensures ReadFieldBegin(st).Ok?
    ensures var r := ReadFieldBegin(st);
            && r.value == Header(TypeOf(f.v), f.id)
            && ReadTree(r.st, TypeOf(f.v)) == Ok(BareField(f).v, Reader(rest, st.last[..|st.last| - 1] + [f.id], None))
            && BareField(f).id == f.id
    decreases f, 0
  {
    hide ReadTree;
    HeaderOfField(st, f, rest);
    ReadsTree(ReadFieldBegin(st).st, f.v, rest);
  }

  lemma {:induction false} ReadsMap(st: Reader, kt: WireType, vt: WireType, es: seq<Entry>, rest: seq<byte>)
    requires |es| < TWO31 && WellFormedEntries(es) && st.pendingBool == None
    requires forall e | e in es :: TypeOf(e.k) == kt && TypeOf(e.v) == vt
    requires st.rem == MapHeader(kt, vt, |es|) + (EncodeEntries(es) + rest)
    ensures ReadTree(st, MAP) == Ok(Bare(VMap(kt, vt, es)), st.(rem := rest))
    decreases es, 1
  {
    hide MapHeader, ReadMapBegin, EncodeEntries, ReadEntries, BareEntries, ReadFields, ReadList, WellFormed;
    var body := EncodeEntries(es) + rest;
    ReadMapHeader(st, kt, vt, |es|, body);
    if es == [] {
      NoEntries();
      assert body == rest;
    } else {
      ReadsEntries(st.(rem := body), kt, vt, es, rest);
      MapStep(st, kt, vt, es, st.(rem := body), st.(rem := rest));
    }
  }

  lemma MapStep(st: Reader, kt: WireType, vt: WireType, es: seq<Entry>, st1: Reader, st2: Reader)
    requires es != [] && ReadMapBegin(st) == Ok(MapSpec(kt, vt, |es|), st1)
    requires ReadEntries(st1, kt, vt, |es|) == Ok(BareEntries(es), st2)
    ensures ReadTree(st, MAP) == Ok(Bare(VMap(kt, vt, es)), st2)
  {
    hide ReadMapBegin, ReadEntries, BareEntries, ReadFields, ReadList;
  }

  lemma NoEntries()
    ensures EncodeEntries([]) == []
  {
  }

  lemma {:induction false} ReadsEntries(st: Reader, kt: WireType, vt: WireType, es: seq<Entry>, rest: seq<byte>)
    requires WellFormedEntries(es) && st.pendingBool == None
    requires forall e | e in es :: TypeOf(e.k) == kt && TypeOf(e.v) == vt
    requires st.rem == EncodeEntries(es) + rest
    ensures ReadEntries(st, kt, vt, |es|) == Ok(BareEntries(es), st.(rem := rest))
    decreases es, 0
  {
    hide ReadTree, EncodeEntry, BareEntry;
    if es == [] {
      assert st.rem == rest;
    } else {
      var tail := EncodeEntries(es[1..]) + rest;
      Concat3(EncodeEntry(es[0]), EncodeEntries(es[1..]), rest);
      ReadsEntry(st, es[0], tail);
      ReadsEntries(st.(rem := tail), kt, vt, es[1..], rest);
    }
  }

  lemma {:induction false} ReadsEntry(st: Reader, e: Entry, rest: seq<byte>)
    requires WellFormed(e.k) && WellFormed(e.v) && st.pendingBool == None
    requires st.rem == EncodeEntry(e) + rest
    ensures match ReadTree(st, TypeOf(e.k))
            case Ok(k, st1) =>
              (match ReadTree(st1, TypeOf(e.v))
               case Ok(v, st2) => Entry(k, v) == BareEntry(e) && st2 == st.(rem := rest)
               case Err => false)
            case Err => false
    decreases e, 0
  {
    hide ReadTree, Encode, Bare;
    Concat3(Encode(e.k), Encode(e.v), rest);
    ReadsTree(st, e.k, Encode(e.v) + rest);
    ReadsTree(st.(rem := Encode(e.v) + rest), e.v, rest);
  }

  lemma {:induction false} ReadsList(st: Reader, et: WireType, es: seq<Value>, rest: seq<byte>)
    requires |es| < TWO31 && WellFormedElems(es) && st.pendingBool == None
    requires forall e | e in es :: TypeOf(e) == et
    requires st.rem == CollectionHeader(et, |es|) + (EncodeElems(es) + rest)
    ensures ReadTree(st, LIST) == Ok(VList(et, BareElems(es)), st.(rem := rest))
    ensures ReadTree(st, SET) == Ok(VSet(et, BareElems(es)), st.(rem := rest))
    decreases es, 1
  {
    hide CollectionHeader, ReadListBegin, EncodeElems, ReadElems, BareElems, ReadFields, ReadMap;
    var body := EncodeElems(es) + rest;
    ReadCollectionHeader(st, et, |es|, body);
    ReadsElems(st.(rem := body), et, es, rest);
  }

  lemma {:induction false} ReadsElems(st: Reader, et: WireType, es: seq<Value>, rest: seq<byte>)
    requires WellFormedElems(es) && st.pendingBool == None
    requires forall e | e in es :: TypeOf(e) == et
    requires st.rem == EncodeElems(es) + rest
    ensures ReadElems(st, et, |es|) == Ok(BareElems(es), st.(rem := rest))
    decreases es, 0
  {
    hide ReadTree, Encode, Bare;
    if es == [] {
      assert st.rem == rest;
    } else {
      var tail := EncodeElems(es[1..]) + rest;
      Concat3(Encode(es[0]), EncodeElems(es[1..]), rest);
      ReadsTree(st, es[0], tail);
      ReadsElems(st.(rem := tail), et, es[1..], rest);
    }
  }

  // ----- main results -----

  /** The bytes the Go writer emits for any tree, inside any open struct, followed by any bytes, are
      read by the Ruby reader as that tree, its empty maps without their types; the trailing bytes,
      the field stack and the pending boolean are as before. */
  lemma GoWritesRubyReads(s: W.Go, v: Value, last: seq<int>, rest: seq<byte>)
    requires WellFormed(v) && s.booleanField == None
    ensures W.GoRun(s, W.Calls(v)) == Some(s.(out := s.out + Encode(v)))
    ensures ReadTree(Reader(Encode(v) + rest, last, None), TypeOf(v)) == Ok(Bare(v), Reader(rest, last, None))
  {
    hide ReadTree, Encode, Bare, W.GoRun, W.Calls;
    W.GoWrites(s, v);
    ReadsTree(Reader(Encode(v) + rest, last, None), v, rest);
  }

  /** Self-delimitation: no encoding is a proper prefix of another of the same type, and equal
      encodings are of trees equal up to the types of empty maps. */
  lemma EncodingPrefixFree(v: Value, w: Value, s: seq<byte>, t: seq<byte>)
    requires WellFormed(v) && WellFormed(w) && TypeOf(v) == TypeOf(w)
    requires Encode(v) + s == Encode(w) + t
    ensures Bare(v) == Bare(w) && s == t && |Encode(v)| == |Encode(w)|
  {
    hide ReadTree, Encode, Bare;
    var st := Reader(Encode(v) + s, [], None);
    ReadsTree(st, v, s);
    ReadsTree(st, w, t);
  }
}
