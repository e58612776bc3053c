/** What each read call of the Ruby compact protocol does to the reader's state. Every function is
    total: truncated input and unknown type codes give Err, the Ruby exception. */
module CompactReader {
  import opened Bits
  import opened Varint
  import opened Wire
  import opened Wrappers

  /** Unread bytes, @last_field with the innermost struct at the end, and @bool_value. */
  datatype Reader = Reader(rem: seq<byte>, last: seq<int>, pendingBool: Option<bool>)

  datatype Result<+T> = Ok(value: T, st: Reader) | Err

  datatype Header = Header(ttype: TType, id: int)

  // get_ttype; None is the "don't know what type" exception
  function TTypeOf(code: int): Option<TType> {
    match code
    case 0 => Some(STOP)
    case 1 => Some(BOOL)
    case 2 => Some(BOOL)
    case 3 => Some(BYTE)
    case 4 => Some(I16)
    case 5 => Some(I32)
    case 6 => Some(I64)
    case 7 => Some(DOUBLE)
    case 8 => Some(STRING)
    case 9 => Some(LIST)
    case 10 => Some(SET)
    case 11 => Some(MAP)
    case 12 => Some(STRUCT)
    case _ => None
  }

  /** Reading never gives bytes back, and leaves what it did not read. */
  ghost predicate Consumes<T>(r: Result<T>, st: Reader) {
    r.Ok? ==> |r.st.rem| <= |st.rem|
  }

  function ReadOctet(st: Reader): (r: Result<byte>)
    ensures r.Ok? ==> |r.st.rem| < |st.rem|
  {
    if st.rem == [] then Err else Ok(st.rem[0], st.(rem := st.rem[1..]))
  }

  function ReadVarint(st: Reader): (r: Result<int>)
    ensures r.Ok? ==> |r.st.rem| < |st.rem|
  {
    match DecodeVarint(st.rem)
    case Some((v, rest)) => Ok(S64(v), st.(rem := rest))
    case None => Err
  }

  // read_all: a size of zero or less reads nothing
  function ReadAll(st: Reader, size: int): (r: Result<seq<byte>>)
    ensures Consumes(r, st)
  {
    if size <= 0 then Ok([], st)
    else if size > |st.rem| then Err
    else Ok(st.rem[..size], st.(rem := st.rem[size..]))
  }

  // ----- scalars -----

  function ReadBool(st: Reader): (r: Result<bool>)
    ensures Consumes(r, st)
  {
    match st.pendingBool
    case Some(b) => Ok(b, st.(pendingBool := None))
    case None => match ReadOctet(st)
      case Ok(b, st1) => Ok(b == 1, st1)
      case Err => Err
  }

  function ReadByte(st: Reader): (r: Result<int>)
    ensures r.Ok? ==> |r.st.rem| < |st.rem|
  {
    match ReadOctet(st)
    case Ok(b, st1) => Ok(S8(b), st1)
    case Err => Err
  }

  function ReadI16(st: Reader): (r: Result<int>)
    ensures r.Ok? ==> |r.st.rem| < |st.rem|
  {
    match ReadVarint(st)
    case Ok(v, st1) => Ok(S16(ZigzagToInt32(S32(v))), st1)
    case Err => Err
  }

  function ReadI32(st: Reader): (r: Result<int>)
    ensures r.Ok? ==> |r.st.rem| < |st.rem|
  {
    match ReadVarint(st)
    case Ok(v, st1) => Ok(ZigzagToInt32(S32(v)), st1)
    case Err => Err
  }

  function ReadI64(st: Reader): (r: Result<int>)
    ensures r.Ok? ==> |r.st.rem| < |st.rem|
  {
    match ReadVarint(st)
    case Ok(v, st1) => Ok(ZigzagToInt64(S64(v)), st1)
    case Err => Err
  }

  function ReadDouble(st: Reader): (r: Result<seq<byte>>)
    ensures Consumes(r, st)
  {
    ReadAll(st, 8)
  }

  function ReadBinary(st: Reader): (r: Result<seq<byte>>)
    ensures Consumes(r, st)
  {
    match ReadVarint(st)
    case Ok(size, st1) => ReadAll(st1, size)
    case Err => Err
  }

  // ----- structs and headers -----

  function StructBegin(st: Reader): Reader {
    st.(last := st.last + [0])
  }

  // rb_ary_pop of an empty array does nothing
  function StructEnd(st: Reader): Reader {
    if st.last == [] then st else st.(last := st.last[..|st.last| - 1])
  }

  function ReadFieldBegin(st: Reader): (r: Result<Header>)
    ensures r.Ok? ==> |r.st.rem| < |st.rem|
  {
    match ReadOctet(st)
    case Err => Err
    case Ok(t, st1) =>
      var code, modifier := t % 16, t / 16;
      if code == 0 then Ok(Header(STOP, 0), st1)
      else if st.last == [] then Err
      else
        var outer, top := st.last[..|st.last| - 1], st.last[|st.last| - 1];
        var id := if modifier == 0 then ReadI16(st1) else Ok(top + modifier, st1);
        match id
        case Err => Err
        case Ok(fieldId, st2) =>
          var pending := if code == 1 || code == 2 then Some(code == 1) else st2.pendingBool;
          match TTypeOf(code)
          case None => Err
          case Some(ttype) => Ok(Header(ttype, fieldId), Reader(st2.rem, outer + [fieldId], pending))
  }

  datatype MapSpec = MapSpec(keyType: TType, valueType: TType, size: int)
  datatype ListSpec = ListSpec(elemType: TType, size: int)

  function ReadMapBegin(st: Reader): (r: Result<MapSpec>)
    ensures r.Ok? ==> |r.st.rem| < |st.rem|
  {
    match ReadVarint(st)
    case Err => Err
    case Ok(v, st1) =>
      var size := S32(v);
      var types := if size == 0 then Ok(0, st1) else ReadOctet(st1);
      match types
      case Err => Err
      case Ok(kv, st2) =>
        match (TTypeOf(kv / 16), TTypeOf(kv % 16))
        case (Some(kt), Some(vt)) => Ok(MapSpec(kt, vt, size), st2)
        case _ => Err
  }

  // read_set_begin is the same function
  function ReadListBegin(st: Reader): (r: Result<ListSpec>)
    ensures r.Ok? ==> |r.st.rem| < |st.rem|
  {
    match ReadOctet(st)
    case Err => Err
    case Ok(b, st1) =>
      var size := if b / 16 != 15 then Ok(b / 16, st1) else ReadVarint(st1);
      match size
      case Err => Err
      case Ok(n, st2) =>
        match TTypeOf(b % 16)
        case Some(et) => Ok(ListSpec(et, S32(n)), st2)
        case None => Err
  }

  // ----- skip -----

  /** The recursive skipper. Each call is bounded by the bytes that are left: only elements of the
      meaningless type STOP are free, and those are counted. */
  function Skip(st: Reader, t: TType): (r: Result<()>)
    ensures Consumes(r, st)
    decreases |st.rem|, 1, 0
  {
    match t
    case STOP => Ok((), st)
    case BOOL => Drop(ReadBool(st))
    case BYTE => Drop(ReadByte(st))
    case I16 => Drop(ReadI16(st))
    case I32 => Drop(ReadI32(st))
    case I64 => Drop(ReadI64(st))
    case DOUBLE => Drop(ReadDouble(st))
    case STRING => Drop(ReadBinary(st))
    case STRUCT => (match SkipFields(StructBegin(st))
      case Ok(_, st1) => Ok((), StructEnd(st1))
      case Err => Err)
    case MAP => (match ReadMapBegin(st)
      case Ok(h, st1) => SkipEntries(st1, h.keyType, h.valueType, Count(h.size))
      case Err => Err)
    case SET => (match ReadListBegin(st)
      case Ok(h, st1) => SkipElems(st1, h.elemType, Count(h.size))
      case Err => Err)
    case LIST => (match ReadListBegin(st)
      case Ok(h, st1) => SkipElems(st1, h.elemType, Count(h.size))
      case Err => Err)
  }

  // size.times does nothing for a negative size
  function Count(size: int): nat {
    if size < 0 then 0 else size
  }

  function Drop<T>(r: Result<T>): Result<()> {
    match r case Ok(_, st) => Ok((), st) case Err => Err
  }

  function SkipFields(st: Reader): (r: Result<()>)
    ensures Consumes(r, st)
    decreases |st.rem|, 0, 0
  {
    match ReadFieldBegin(st)
    case Err => Err
    case Ok(h, st1) =>
      if h.ttype == STOP then Ok((), st1)
      else match Skip(st1, h.ttype)
        case Ok(_, st2) => SkipFields(st2)
        case Err => Err
  }

  function SkipElems(st: Reader, et: TType, n: nat): (r: Result<()>)
    ensures Consumes(r, st)
    decreases |st.rem|, 2, n
  {
    if n == 0 then Ok((), st)
    else match Skip(st, et)
      case Ok(_, st1) => SkipElems(st1, et, n - 1)
      case Err => Err
  }

  function SkipEntries(st: Reader, kt: TType, vt: TType, n: nat): (r: Result<()>)
    ensures Consumes(r, st)
    decreases |st.rem|, 2, n
  {
    if n == 0 then Ok((), st)
    else match Skip(st, kt)
      case Err => Err
      case Ok(_, st1) => match Skip(st1, vt)
        case Ok(_, st2) => SkipEntries(st2, kt, vt, n - 1)
        case Err => Err
  }
}
