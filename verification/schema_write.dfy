/** The schema-driven writer of struct.c as a function from Ruby objects to value trees. */
module SchemaWrite {
  import opened Bits
  import opened Wire
  import opened Wrappers
  import opened Schema
  import opened FieldIds

  /** Field ids of a class are int16. */
  predicate ValidClass(c: Class) {
    forall id | id in c.fields :: IsInt16(id)
  }

  predicate Distinct<T(==)>(xs: seq<T>) {
    forall i, j | 0 <= i < j < |xs| :: xs[i] != xs[j]
  }

  predicate DistinctKeys(ps: seq<Pair>) {
    forall i, j | 0 <= i < j < |ps| :: ps[i].k != ps[j].k
  }

  /** What the protocol's write calls take: any object for a bool, any int for a byte or a 16-bit
      integer. */
  predicate ScalarConforms(t: ScalarType, rv: RVal) {
    match t
    case BOOL => true
    case BYTE => rv.RInt? && IsInt32(rv.i)
    case I16 => rv.RInt? && IsInt32(rv.i)
    case I32 => rv.RInt? && IsInt32(rv.i)
    case I64 => rv.RInt? && IsInt64(rv.i)
    case DOUBLE => rv.RDouble? && |rv.bits| == 8
    case STRING => rv.RString? && |rv.bytes| < TWO31
  }

  /** The object can be written under this field info: struct.c would raise nowhere. A set may be held
      as a Set, as an Array, or as a Hash, whose keys are then the elements; an object is written by its own
      class, whichever the field names; and a field that is not nil is set. */
  predicate Conforms(env: Env, info: Info, rv: RVal)
    decreases rv
  {
    match info
    case Scalar(t) => ScalarConforms(t, rv)
    case Struct(_) =>
      && rv.RObject? && rv.cls in env && ValidClass(env[rv.cls])
      && forall id | id in rv.ivars ::
           var fields := env[rv.cls].fields;
           id in fields && rv.ivars[id] != RNil && Conforms(env, fields[id], rv.ivars[id])
    case Map(key, value) =>
      && key.Some? && value.Some? && rv.RHash? && |rv.pairs| < TWO31 && DistinctKeys(rv.pairs)
      && forall p | p in rv.pairs :: Conforms(env, key.value, p.k) && Conforms(env, value.value, p.v)
    case Set(elem) => elem.Some? && (match rv
      case RSet(es) => |es| < TWO31 && Distinct(es) && forall e | e in es :: Conforms(env, elem.value, e)
      case RArray(es) => |es| < TWO31 && forall e | e in es :: Conforms(env, elem.value, e)
      case RHash(ps) => |ps| < TWO31 && DistinctKeys(ps) && forall p | p in ps :: Conforms(env, elem.value, p.k)
      case _ => false)
    case List(elem) =>
      && elem.Some? && rv.RArray? && |rv.elems| < TWO31
      && forall e | e in rv.elems :: Conforms(env, elem.value, e)
  }

  predicate ElemsConform(env: Env, info: Info, es: seq<RVal>) {
    forall e | e in es :: Conforms(env, info, e)
  }

  predicate KeysConform(env: Env, info: Info, ps: seq<Pair>) {
    forall p | p in ps :: Conforms(env, info, p.k)
  }

  predicate PairsConform(env: Env, key: Info, value: Info, ps: seq<Pair>) {
    forall p | p in ps :: Conforms(env, key, p.k) && Conforms(env, value, p.v)
  }

  function LowerScalar(t: ScalarType, rv: RVal): (v: Value)
    requires ScalarConforms(t, rv)
    ensures TypeOf(v) == t && WellFormed(v)
  {
    match t
    case BOOL => VBool(rv == RBool(true))
    case BYTE => VByte(S8(rv.i))
    case I16 => VI16(rv.i)
    case I32 => VI32(rv.i)
    case I64 => VI64(rv.i)
    case DOUBLE => VDouble(rv.bits)
    case STRING => VString(rv.bytes)
  }

  /** The tree of protocol calls write_anything makes for rv. */
  function Lower(env: Env, info: Info, rv: RVal): (v: Value)
    requires Conforms(env, info, rv)
    ensures TypeOf(v) == info.Type() && WellFormed(v)
    decreases rv, 2, 0
  {
    match info
    case Scalar(t) => LowerScalar(t, rv)
    case Struct(_) => LowerStruct(env, rv.cls, rv)
    case Map(key, value) => LowerMap(env, key, value, rv)
    case Set(elem) => LowerSet(env, elem.value, rv)
    case List(elem) =>
      WellFormedSet(elem.value.Type(), LowerElems(env, elem.value, rv.elems));
      VList(elem.value.Type(), LowerElems(env, elem.value, rv.elems))
  }

  predicate ElemsOfType(vs: seq<Value>, t: WireType) {
    forall v | v in vs :: TypeOf(v) == t && WellFormed(v)
  }

  predicate EntriesOfType(es: seq<Entry>, kt: WireType, vt: WireType) {
    forall e | e in es :: TypeOf(e.k) == kt && TypeOf(e.v) == vt && WellFormed(e.k) && WellFormed(e.v)
  }

  lemma WellFormedSet(t: WireType, vs: seq<Value>)
    requires |vs| < TWO31 && ElemsOfType(vs, t)
    ensures WellFormed(VSet(t, vs)) && WellFormed(VList(t, vs))
  {
  }

  function LowerStruct(env: Env, cls: string, rv: RVal): (v: Value)
    requires Conforms(env, Struct(cls), rv) && rv.cls == cls
    ensures v.VStruct? && WellFormed(v)
    decreases rv, 1, 0
  {
    var fs := LowerFields(env, cls, rv, SortedIds(env[cls].fields.Keys));
    WellFormedStruct(fs);
    VStruct(fs)
  }

  lemma WellFormedStruct(fs: seq<Field>)
    requires WellFormedFields(fs)
    ensures WellFormed(VStruct(fs))
  {
  }

  function LowerSet(env: Env, elem: Info, rv: RVal): (v: Value)
    requires Conforms(env, Set(Some(elem)), rv)
    ensures v.VSet? && WellFormed(v)
    decreases rv, 1, 0
  {
    var items := if rv.RHash? then LowerKeys(env, elem, rv.pairs) else LowerElems(env, elem, rv.elems);
    WellFormedSet(elem.Type(), items);
    VSet(elem.Type(), items)
  }

  function LowerMap(env: Env, key: Option<Info>, value: Option<Info>, rv: RVal): (v: Value)
    requires Conforms(env, Map(key, value), rv)
    ensures v.VMap? && WellFormed(v)
    decreases rv, 1, 0
  {
    VMap(key.value.Type(), value.value.Type(), LowerPairs(env, key.value, value.value, rv.pairs))
  }

  /** Fields that are set, by increasing id. */
  function LowerFields(env: Env, cls: string, rv: RVal, ids: seq<int>): (fs: seq<Field>)
    requires Conforms(env, Struct(cls), rv) && rv.cls == cls
    requires forall id | id in ids :: id in env[cls].fields
    ensures WellFormedFields(fs)
    ensures forall f | f in fs :: f.id in ids
    decreases rv, 0, |ids|
  {
    if ids == [] then []
    else
      var id := ids[0];
      if id in rv.ivars
      then [Field(id, Lower(env, env[cls].fields[id], rv.ivars[id]))] + LowerFields(env, cls, rv, ids[1..])
      else LowerFields(env, cls, rv, ids[1..])
  }

  function LowerElems(env: Env, info: Info, es: seq<RVal>): (vs: seq<Value>)
    requires ElemsConform(env, info, es)
    ensures |vs| == |es| && ElemsOfType(vs, info.Type())
    decreases es, 0, 0
  {
    if es == [] then [] else [Lower(env, info, es[0])] + LowerElems(env, info, es[1..])
  }

  function LowerKey(env: Env, info: Info, p: Pair): (v: Value)
    requires Conforms(env, info, p.k)
    ensures TypeOf(v) == info.Type() && WellFormed(v)
    decreases p, 0, 0
  {
    Lower(env, info, p.k)
  }

  function LowerKeys(env: Env, info: Info, ps: seq<Pair>): (vs: seq<Value>)
    requires KeysConform(env, info, ps)
    ensures |vs| == |ps| && ElemsOfType(vs, info.Type())
    decreases ps, 0, 0
  {
    if ps == [] then [] else [LowerKey(env, info, ps[0])] + LowerKeys(env, info, ps[1..])
  }

  function LowerPair(env: Env, key: Info, value: Info, p: Pair): (e: Entry)
    requires Conforms(env, key, p.k) && Conforms(env, value, p.v)
    ensures TypeOf(e.k) == key.Type() && TypeOf(e.v) == value.Type() && WellFormed(e.k) && WellFormed(e.v)
    decreases p, 0, 0
  {
    Entry(Lower(env, key, p.k), Lower(env, value, p.v))
  }

  function LowerPairs(env: Env, key: Info, value: Info, ps: seq<Pair>): (es: seq<Entry>)
    requires PairsConform(env, key, value, ps)
    ensures |es| == |ps| && EntriesOfType(es, key.Type(), value.Type()) && WellFormedEntries(es)
    decreases ps, 0, 0
  {
    if ps == [] then [] else [LowerPair(env, key, value, ps[0])] + LowerPairs(env, key, value, ps[1..])
  }

  lemma LowerKeysStep(env: Env, info: Info, ps: seq<Pair>)
    requires KeysConform(env, info, ps) && ps != []
    ensures LowerKeys(env, info, ps) == [LowerKey(env, info, ps[0])] + LowerKeys(env, info, ps[1..])
  {
    hide Lower, LowerKey, Conforms, WellFormed;
  }

  lemma LowerPairsStep(env: Env, key: Info, value: Info, ps: seq<Pair>)
    requires PairsConform(env, key, value, ps) && ps != []
    ensures LowerPairs(env, key, value, ps) == [LowerPair(env, key, value, ps[0])] + LowerPairs(env, key, value, ps[1..])
  {
    hide Lower, LowerPair, Conforms, WellFormed;
  }

  /** A field's own class does not matter to what is written. */
  lemma LowerOfStruct(env: Env, cls: string, rv: RVal)
    requires Conforms(env, Struct(cls), rv) && rv.cls == cls
    ensures var v := LowerStruct(env, cls, rv);
            && v == VStruct(LowerFields(env, cls, rv, SortedIds(env[cls].fields.Keys)))
            && forall c: string :: Conforms(env, Struct(c), rv) && Lower(env, Struct(c), rv) == v
  {
    hide LowerFields, SortedIds, WellFormed, WellFormedFields;
  }

  lemma LowerOfMap(env: Env, key: Info, value: Info, rv: RVal)
    requires Conforms(env, Map(Some(key), Some(value)), rv)
    ensures rv.RHash? && PairsConform(env, key, value, rv.pairs)
    ensures Lower(env, Map(Some(key), Some(value)), rv)
         == VMap(key.Type(), value.Type(), LowerPairs(env, key, value, rv.pairs))
  {
    hide LowerPairs, WellFormed;
  }
}
