/** Ruby values, struct classes, and the schema-driven reader of struct.c as functions of the
    compact reader's state. */
module Schema {
  import opened Bits
  import opened Wire
  import opened Wrappers
  import opened CompactReader

  type ScalarType = t: TType | t in {BOOL, BYTE, I16, I32, I64, DOUBLE, STRING} witness BOOL

  /** field_info: the :type with its :class, :key, :value and :element entries. Container entries
      may be missing, and struct.c then skips the contents. */
  datatype Info =
    | Scalar(t: ScalarType)
    | Struct(cls: string)
    | Map(key: Option<Info>, value: Option<Info>)
    | Set(elem: Option<Info>)
    | List(elem: Option<Info>)
  {
    function Type(): WireType {
      match this
      case Scalar(t) => t
      case Struct(_) => STRUCT
      case Map(_, _) => MAP
      case Set(_) => SET
      case List(_) => LIST
    }
  }

  /** A struct class: field infos by id, and the default values a new instance starts with. */
  datatype Class = Class(fields: map<int, Info>, defaults: map<int, RVal>)
  type Env = map<string, Class>

  /** Ruby objects. A set and a hash keep insertion order; an unset field is absent from `ivars`. */
  datatype RVal =
    | RNil
    | RBool(b: bool)
    | RInt(i: int)
    | RDouble(bits: seq<byte>)
    | RString(bytes: seq<byte>)
    | RArray(elems: seq<RVal>)
    | RSet(elems: seq<RVal>)
    | RHash(pairs: seq<Pair>)
    | RObject(cls: string, ivars: map<int, RVal>)

  datatype Pair = Pair(k: RVal, v: RVal)

  /** instance_variable_set: setting nil leaves the field unset. */
  function SetIvar(ivars: map<int, RVal>, id: int, v: RVal): map<int, RVal> {
    if v == RNil then ivars - {id} else ivars[id := v]
  }

  /** Hash#[]=: an existing key keeps its place and gets the new value. */
  function HashPut(ps: seq<Pair>, k: RVal, v: RVal): (r: seq<Pair>)
    ensures |ps| <= |r| <= |ps| + 1
    ensures (forall p | p in ps :: p.k != k) ==> r == ps + [Pair(k, v)]
    ensures (exists p | p in ps :: p.k == k) ==> |r| == |ps|
  {
    if ps == [] then [Pair(k, v)]
    else if ps[0].k == k then [Pair(k, v)] + ps[1..]
    else [ps[0]] + HashPut(ps[1..], k, v)
  }

  /** Set#add. */
  function SetAdd(es: seq<RVal>, x: RVal): seq<RVal> {
    if x in es then es else es + [x]
  }

  // ----- struct.c: read_anything, rb_thrift_struct_read -----

  function Wrap<T>(r: Result<T>, f: T -> RVal): (q: Result<RVal>)
    ensures r.Ok? <==> q.Ok?
    ensures r.Ok? ==> q.st == r.st
  {
    match r case Ok(v, st) => Ok(f(v), st) case Err => Err
  }

  function ReadScalar(st: Reader, t: ScalarType): (r: Result<RVal>)
    ensures Consumes(r, st)
  {
    match t
    case BOOL => Wrap(ReadBool(st), b => RBool(b))
    case BYTE => Wrap(ReadByte(st), i => RInt(i))
    case I16 => Wrap(ReadI16(st), i => RInt(i))
    case I32 => Wrap(ReadI32(st), i => RInt(i))
    case I64 => Wrap(ReadI64(st), i => RInt(i))
    case DOUBLE => Wrap(ReadDouble(st), bits => RDouble(bits))
    case STRING => Wrap(ReadBinary(st), bytes => RString(bytes))
  }

  function AsNil(r: Result<()>): (q: Result<RVal>)
    ensures r.Ok? <==> q.Ok?
    ensures r.Ok? ==> q == Ok(RNil, r.st)
  {
    match r case Ok(_, st) => Ok(RNil, st) case Err => Err
  }

  function ReadAnything(env: Env, st: Reader, info: Info): (r: Result<RVal>)
    ensures Consumes(r, st)
    decreases |st.rem|, 1, 0
  {
    match info
    case Scalar(t) => ReadScalar(st, t)
    case Struct(cls) =>
      if cls !in env then Err
      else (match ReadFields(env, StructBegin(st), cls, env[cls].defaults)
        case Ok(ivars, st1) => Ok(RObject(cls, ivars), StructEnd(st1))
        case Err => Err)
    case Map(key, value) => (match ReadMapBegin(st)
      case Err => Err
      case Ok(h, st1) =>
        if key.Some? && value.Some? && (h.size == 0 || (key.value.Type() == h.keyType && value.value.Type() == h.valueType))
        then ReadPairs(env, st1, key.value, value.value, Count(h.size), [])
        else AsNil(SkipEntries(st1, h.keyType, h.valueType, Count(h.size))))
    case List(elem) => (match ReadListBegin(st)
      case Err => Err
      case Ok(h, st1) =>
        if elem.Some? && elem.value.Type() == h.elemType
        then (match ReadElems(env, st1, elem.value, Count(h.size), [])
          case Ok(es, st2) => Ok(RArray(es), st2)
          case Err => Err)
        else AsNil(SkipElems(st1, h.elemType, Count(h.size))))
    case Set(elem) => (match ReadListBegin(st)
      case Err => Err
      case Ok(h, st1) =>
        if elem.Some? && elem.value.Type() == h.elemType
        then (match ReadElems(env, st1, elem.value, Count(h.size), [])
          case Ok(es, st2) => Ok(RSet(SetNew([], es)), st2)
          case Err => Err)
        else AsNil(SkipElems(st1, h.elemType, Count(h.size))))
  }

  /** Set.new(items): duplicates are dropped. */
  function SetNew(acc: seq<RVal>, items: seq<RVal>): seq<RVal>
    decreases |items|
  {
    if items == [] then acc else SetNew(SetAdd(acc, items[0]), items[1..])
  }

  function ReadElems(env: Env, st: Reader, info: Info, n: nat, acc: seq<RVal>): (r: Result<seq<RVal>>)
    ensures Consumes(r, st)
    decreases |st.rem|, 2, n
  {
    if n == 0 then Ok(acc, st)
    else match ReadAnything(env, st, info)
      case Ok(v, st1) => ReadElems(env, st1, info, n - 1, acc + [v])
      case Err => Err
  }

  function ReadPairs(env: Env, st: Reader, key: Info, value: Info, n: nat, acc: seq<Pair>): (r: Result<RVal>)
    ensures Consumes(r, st)
    decreases |st.rem|, 2, n
  {
    if n == 0 then Ok(RHash(acc), st)
    else match ReadAnything(env, st, key)
      case Err => Err
      case Ok(k, st1) => match ReadAnything(env, st1, value)
        case Err => Err
        case Ok(v, st2) => ReadPairs(env, st2, key, value, n - 1, HashPut(acc, k, v))
  }

  function ReadFields(env: Env, st: Reader, cls: string, ivars: map<int, RVal>): (r: Result<map<int, RVal>>)
    requires cls in env
    ensures Consumes(r, st)
    decreases |st.rem|, 0, 0
  {
    match ReadFieldBegin(st)
    case Err => Err
    case Ok(h, st1) =>
      var fields := env[cls].fields;
      if h.ttype == STOP then Ok(ivars, st1)
      else if h.id in fields && fields[h.id].Type() == h.ttype then
        match ReadAnything(env, st1, fields[h.id])
        case Ok(v, st2) => ReadFields(env, st2, cls, SetIvar(ivars, h.id, v))
        case Err => Err
      else
        match Skip(st1, h.ttype)
        case Ok(_, st2) => ReadFields(env, st2, cls, ivars)
        case Err => Err
  }

  // ----- what reading a value tree should yield -----

  predicate ClosedInfo(env: Env, info: Info) {
    match info
    case Scalar(_) => true
    case Struct(cls) => cls in env
    case Map(key, value) => (key.Some? ==> ClosedInfo(env, key.value)) && (value.Some? ==> ClosedInfo(env, value.value))
    case Set(elem) => elem.Some? ==> ClosedInfo(env, elem.value)
    case List(elem) => elem.Some? ==> ClosedInfo(env, elem.value)
  }

  /** Every class a field refers to exists. */
  predicate Closed(env: Env) {
    forall c | c in env :: forall id | id in env[c].fields :: ClosedInfo(env, env[c].fields[id])
  }

  /** The value of tree v seen through `info`: a field counts if the schema has its id with its
      type, a container whose element types disagree is nil, and a missing field keeps its default. */
  function View(env: Env, info: Info, v: Value): RVal
    requires Closed(env) && ClosedInfo(env, info) && WellFormed(v) && info.Type() == TypeOf(v)
    decreases v, 1
  {
    match v
    case VBool(b) => RBool(b)
    case VByte(i) => RInt(i)
    case VI16(i) => RInt(S16(i))
    case VI32(i) => RInt(i)
    case VI64(i) => RInt(i)
    case VDouble(bits) => RDouble(bits)
    case VString(bytes) => RString(bytes)
    case VStruct(fs) => RObject(info.cls, ViewFields(env, info.cls, env[info.cls].defaults, fs))
    case VMap(kt, vt, es) =>
      if info.key.Some? && info.value.Some?
         && (es == [] || (info.key.value.Type() == kt && info.value.value.Type() == vt))
      then RHash(ViewEntries(env, info.key.value, info.value.value, [], es))
      else RNil
    case VSet(et, es) =>
      if info.elem.Some? && info.elem.value.Type() == et
      then RSet(SetNew([], ViewElems(env, info.elem.value, es)))
      else RNil
    case VList(et, es) =>
      if info.elem.Some? && info.elem.value.Type() == et
      then RArray(ViewElems(env, info.elem.value, es))
      else RNil
  }

  function ViewElems(env: Env, info: Info, es: seq<Value>): (r: seq<RVal>)
    requires Closed(env) && ClosedInfo(env, info)
    requires WellFormedElems(es) && forall e | e in es :: TypeOf(e) == info.Type()
    decreases es, 0
  {
    if es == [] then [] else [View(env, info, es[0])] + ViewElems(env, info, es[1..])
  }

  function ViewEntries(env: Env, key: Info, value: Info, acc: seq<Pair>, es: seq<Entry>): seq<Pair>
    requires Closed(env) && ClosedInfo(env, key) && ClosedInfo(env, value)
    requires WellFormedEntries(es) && forall e | e in es :: TypeOf(e.k) == key.Type() && TypeOf(e.v) == value.Type()
    decreases es, 0
  {
    if es == [] then acc
    else
      var p := ViewEntry(env, key, value, es[0]);
      ViewEntries(env, key, value, HashPut(acc, p.k, p.v), es[1..])
  }

  function ViewEntry(env: Env, key: Info, value: Info, e: Entry): Pair
    requires Closed(env) && ClosedInfo(env, key) && ClosedInfo(env, value)
    requires WellFormed(e.k) && WellFormed(e.v) && TypeOf(e.k) == key.Type() && TypeOf(e.v) == value.Type()
    decreases e, 0
  {
    Pair(View(env, key, e.k), View(env, value, e.v))
  }

  /** A later field with the same id overrides an earlier one. */
  function ViewFields(env: Env, cls: string, ivars: map<int, RVal>, fs: seq<Field>): map<int, RVal>
    requires Closed(env) && cls in env && WellFormedFields(fs)
    decreases fs, 0
  {
    if fs == [] then ivars
    else ViewFields(env, cls, ViewField(env, cls, ivars, fs[0]), fs[1..])
  }

  predicate Accepts(env: Env, cls: string, id: int, t: TType)
    requires cls in env
  {
    id in env[cls].fields && env[cls].fields[id].Type() == t
  }

  function ViewField(env: Env, cls: string, ivars: map<int, RVal>, f: Field): map<int, RVal>
    requires Closed(env) && cls in env && WellFormed(f.v)
    decreases f, 0
  {
    if Accepts(env, cls, f.id, TypeOf(f.v))
    then SetIvar(ivars, f.id, View(env, env[cls].fields[f.id], f.v))
    else ivars
  }
}
