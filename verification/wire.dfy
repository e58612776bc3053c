/** Thrift types and the value trees that travel between a protocol writer and reader. */
module Wire {
  import opened Bits

  datatype TType =
    | STOP | BOOL | BYTE | I16 | I32 | I64 | DOUBLE | STRING | STRUCT | MAP | SET | LIST

  /** Types a writer may announce: everything but the end-of-struct marker. */
  type WireType = t: TType | t != STOP witness BOOL

  datatype Value =
    | VBool(b: bool)
    | VByte(i: int)
    | VI16(i: int)
    | VI32(i: int)
    | VI64(i: int)
    | VDouble(bits: seq<byte>)
    | VString(bytes: seq<byte>)
    | VStruct(fields: seq<Field>)
    | VMap(keyType: WireType, valueType: WireType, entries: seq<Entry>)
    | VSet(elemType: WireType, elems: seq<Value>)
    | VList(elemType: WireType, elems: seq<Value>)

  /** Field ids may come in any order and may repeat. */
  datatype Field = Field(id: int, v: Value)
  datatype Entry = Entry(k: Value, v: Value)

  function TypeOf(v: Value): WireType {
    match v
    case VBool(_) => BOOL
    case VByte(_) => BYTE
    case VI16(_) => I16
    case VI32(_) => I32
    case VI64(_) => I64
    case VDouble(_) => DOUBLE
    case VString(_) => STRING
    case VStruct(_) => STRUCT
    case VMap(_, _, _) => MAP
    case VSet(_, _) => SET
    case VList(_, _) => LIST
  }

  /** Integers fit their width, but a 16-bit one may be any int32, which the Ruby writer takes whole and
      the reader cuts; a double is eight bytes, sizes are int32, and container elements have the
      announced type. Nothing is asked of field order. */
  predicate WellFormed(v: Value) {
    match v
    case VBool(_) => true
    case VByte(i) => IsInt8(i)
    case VI16(i) => IsInt32(i)
    case VI32(i) => IsInt32(i)
    case VI64(i) => IsInt64(i)
    case VDouble(bits) => |bits| == 8
    case VString(bytes) => |bytes| < TWO31
    case VStruct(fields) => forall f | f in fields :: IsInt16(f.id) && WellFormed(f.v)
    case VMap(kt, vt, entries) =>
      && |entries| < TWO31
      && forall e | e in entries :: TypeOf(e.k) == kt && TypeOf(e.v) == vt && WellFormed(e.k) && WellFormed(e.v)
    case VSet(et, elems) => |elems| < TWO31 && forall e | e in elems :: TypeOf(e) == et && WellFormed(e)
    case VList(et, elems) => |elems| < TWO31 && forall e | e in elems :: TypeOf(e) == et && WellFormed(e)
  }

  /** A value that stands alone, as it is read: a 16-bit integer is cut to its width. */
  function Narrowed(v: Value): Value {
    match v
    case VI16(i) => VI16(S16(i))
    case _ => v
  }

  predicate WellFormedFields(fs: seq<Field>) {
    forall f | f in fs :: IsInt16(f.id) && WellFormed(f.v)
  }

  predicate WellFormedEntries(es: seq<Entry>) {
    forall e | e in es :: WellFormed(e.k) && WellFormed(e.v)
  }

  predicate WellFormedElems(es: seq<Value>) {
    forall e | e in es :: WellFormed(e)
  }

  /** Concatenation is associative; stated where the verifier needs the instance. */
  lemma Concat3<T>(a: seq<T>, b: seq<T>, c: seq<T>)
    ensures a + b + c == a + (b + c)
  {
  }
}
