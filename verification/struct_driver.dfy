/** struct.c over the compact protocol object: the recursive writer and the schema-driven reader. */
module StructDriver {
  import opened Bits
  import opened Varint
  import opened Wire
  import opened Wrappers
  import opened Compact
  import W = CompactWriter
  import opened RubyProtocol
  import opened FieldIds
  import opened Schema
  import opened SchemaWrite

  // ----- writing -----

  /** The writer is inside a struct, so an id can be popped. */
  predicate Ready(p: CompactProtocol)
    reads p
  {
    p.Valid() && p.lastField != []
  }

  method WriteScalar(p: CompactProtocol, t: ScalarType, rv: RVal)
    requires ScalarConforms(t, rv) && Ready(p) && (p.booleanField.Some? ==> t == BOOL)
    modifies p
    ensures if old(p.booleanField) == None
            then p.Writer() == old(p.Writer()).(out := old(p.written) + Encode(LowerScalar(t, rv)))
            else Some(p.Writer()) == W.RubyStep(old(p.Writer()), W.Bool(rv == RBool(true)))
    ensures Ready(p)
  {
    match t
    case BOOL => var ok := p.WriteBool(rv == RBool(true));
    case BYTE => p.WriteByte(rv.i);
    case I16 => p.WriteI32(rv.i);
    case I32 => p.WriteI32(rv.i);
    case I64 => p.WriteI64(rv.i);
    case DOUBLE => p.WriteDouble(rv.bits);
    case STRING => p.WriteBinary(rv.bytes);
  }

  /** write_anything and write_container outside a bool field: exactly the encoding of the lowered
      tree is appended and the field stack is as before. */
  method WriteAnything(p: CompactProtocol, env: Env, info: Info, rv: RVal)
    requires Conforms(env, info, rv) && Ready(p) && p.booleanField == None
    modifies p
    ensures p.Writer() == old(p.Writer()).(out := old(p.written) + Encode(Lower(env, info, rv)))
    decreases rv, 2
  {
    hide EncodeElems, EncodeFields, EncodeEntries, EncodeVarint, LowerElems, LowerStruct, LowerMap, LowerScalar;
    hide ScalarConforms, MapHeader, CollectionHeader, WellFormed;
    match info
    case Scalar(t) => WriteScalar(p, t, rv);
    case Struct(_) => StructWrite(p, env, rv.cls, rv);
    case Map(key, value) => WriteMap(p, env, key.value, value.value, rv);
    case List(elem) =>
      p.WriteListBegin(elem.value.Type(), |rv.elems|);
      WriteElems(p, env, elem.value, rv.elems);
      Concat3(old(p.written), CollectionHeader(elem.value.Type(), |rv.elems|),
              EncodeElems(LowerElems(env, elem.value, rv.elems)));
    case Set(elem) => WriteSet(p, env, elem.value, rv);
  }

  // the set branch of write_container: a Hash gives its keys, an Array or a Set its elements
  method WriteSet(p: CompactProtocol, env: Env, elem: Info, rv: RVal)
    requires Conforms(env, Set(Some(elem)), rv) && Ready(p) && p.booleanField == None
    modifies p
    ensures p.Writer() == old(p.Writer()).(out := old(p.written) + Encode(LowerSet(env, elem, rv)))
    decreases rv, 1
  {
    hide EncodeElems, LowerElems, LowerKeys, CollectionHeader, WellFormed;
    if rv.RHash? {
      p.WriteSetBegin(elem.Type(), |rv.pairs|);
      WriteKeys(p, env, elem, rv.pairs);
      Concat3(old(p.written), CollectionHeader(elem.Type(), |rv.pairs|),
              EncodeElems(LowerKeys(env, elem, rv.pairs)));
    } else {
      p.WriteSetBegin(elem.Type(), |rv.elems|);
      WriteElems(p, env, elem, rv.elems);
      Concat3(old(p.written), CollectionHeader(elem.Type(), |rv.elems|),
              EncodeElems(LowerElems(env, elem, rv.elems)));
    }
  }

  method WriteKeys(p: CompactProtocol, env: Env, info: Info, ps: seq<Pair>)
    requires KeysConform(env, info, ps) && Ready(p) && p.booleanField == None
    modifies p
    ensures p.Writer() == old(p.Writer()).(out := old(p.written) + EncodeElems(LowerKeys(env, info, ps)))
    decreases ps, 0
  {
    hide KeyBytes, Encode, Lower, Conforms, WellFormed;
    ghost var start := p.Writer();
    ghost var whole := p.written + KeyBytes(env, info, ps, 0);
    KeyBytesEnds(env, info, ps);
    var i := 0;
    while i < |ps|
      invariant 0 <= i <= |ps|
      invariant p.Writer() == start.(out := p.written)
      invariant whole == p.written + KeyBytes(env, info, ps, i)
    {
      KeyBytesStep(env, info, ps, i, p.written);
      WriteKey(p, env, info, ps[i]);
      i := i + 1;
    }
  }

  method WriteKey(p: CompactProtocol, env: Env, info: Info, q: Pair)
    requires Conforms(env, info, q.k) && Ready(p) && p.booleanField == None
    modifies p
    ensures p.Writer() == old(p.Writer()).(out := old(p.written) + Encode(LowerKey(env, info, q)))
    decreases q, 0
  {
    hide Encode, Lower, Conforms, WellFormed;
    WriteAnything(p, env, info, q.k);
  }

  /** The encoding of the keys from pair i on. */
  ghost function KeyBytes(env: Env, info: Info, ps: seq<Pair>, i: nat): seq<byte>
    requires KeysConform(env, info, ps) && i <= |ps|
  {
    EncodeElems(LowerKeys(env, info, ps[i..]))
  }

  lemma KeyBytesEnds(env: Env, info: Info, ps: seq<Pair>)
    requires KeysConform(env, info, ps)
    ensures KeyBytes(env, info, ps, 0) == EncodeElems(LowerKeys(env, info, ps))
    ensures KeyBytes(env, info, ps, |ps|) == []
  {
    assert ps[0..] == ps;
  }

  lemma EncodeElemsStep(v: Value, vs: seq<Value>)
    requires WellFormedElems([v] + vs) && WellFormedElems(vs) && WellFormed(v)
    ensures EncodeElems([v] + vs) == Encode(v) + EncodeElems(vs)
  {
    assert ([v] + vs)[1..] == vs;
  }

  lemma KeyBytesStep(env: Env, info: Info, ps: seq<Pair>, i: nat, out: seq<byte>)
    requires KeysConform(env, info, ps) && i < |ps|
    ensures Conforms(env, info, ps[i].k)
    ensures out + KeyBytes(env, info, ps, i)
         == (out + Encode(LowerKey(env, info, ps[i]))) + KeyBytes(env, info, ps, i + 1)
  {
    hide Lower, LowerKey, LowerKeys, Conforms, Encode, EncodeElems, WellFormed;
    var rest := ps[i..];
    assert rest[0] == ps[i] && rest[1..] == ps[i + 1..];
    var v, vs := LowerKey(env, info, ps[i]), LowerKeys(env, info, ps[i + 1..]);
    LowerKeysStep(env, info, rest);
    EncodeElemsStep(v, vs);
    Concat3(out, Encode(v), EncodeElems(vs));
  }

  method WriteElems(p: CompactProtocol, env: Env, info: Info, es: seq<RVal>)
    requires ElemsConform(env, info, es) && Ready(p) && p.booleanField == None
    modifies p
    ensures p.Writer() == old(p.Writer()).(out := old(p.written) + EncodeElems(LowerElems(env, info, es)))
    decreases es, 0
  {
    hide ElemBytes, Encode, Lower, Conforms, WellFormed;
    ghost var start := p.Writer();
    ghost var whole := p.written + ElemBytes(env, info, es, 0);
    ElemBytesEnds(env, info, es);
    var i := 0;
    while i < |es|
      invariant 0 <= i <= |es|
      invariant p.Writer() == start.(out := p.written)
      invariant whole == p.written + ElemBytes(env, info, es, i)
    {
      ElemBytesStep(env, info, es, i, p.written);
      WriteAnything(p, env, info, es[i]);
      i := i + 1;
    }
  }

  /** The encoding of the elements from index i on. */
  ghost function ElemBytes(env: Env, info: Info, es: seq<RVal>, i: nat): seq<byte>
    requires ElemsConform(env, info, es) && i <= |es|
  {
    EncodeElems(LowerElems(env, info, es[i..]))
  }

  lemma ElemBytesEnds(env: Env, info: Info, es: seq<RVal>)
    requires ElemsConform(env, info, es)
    ensures ElemBytes(env, info, es, 0) == EncodeElems(LowerElems(env, info, es))
    ensures ElemBytes(env, info, es, |es|) == []
  {
    assert es[0..] == es;
  }

  lemma ElemBytesStep(env: Env, info: Info, es: seq<RVal>, i: nat, out: seq<byte>)
    requires ElemsConform(env, info, es) && i < |es|
    ensures Conforms(env, info, es[i])
    ensures out + ElemBytes(env, info, es, i)
         == (out + Encode(Lower(env, info, es[i]))) + ElemBytes(env, info, es, i + 1)
  {
    hide Lower, Conforms, Encode, WellFormed;
    var rest := es[i..];
    assert rest[0] == es[i] && rest[1..] == es[i + 1..];
    var v, vs := Lower(env, info, es[i]), LowerElems(env, info, es[i + 1..]);
    assert LowerElems(env, info, rest) == [v] + vs && ([v] + vs)[1..] == vs;
    Concat3(out, Encode(v), EncodeElems(vs));
  }

  method WriteMap(p: CompactProtocol, env: Env, key: Info, value: Info, rv: RVal)
    requires Conforms(env, Map(Some(key), Some(value)), rv) && Ready(p) && p.booleanField == None
    modifies p
    ensures p.Writer()
         == old(p.Writer()).(out := old(p.written) + Encode(LowerMap(env, Some(key), Some(value), rv)))
    decreases rv, 1
  {
    hide Lower, LowerPairs, EncodeEntries, EncodeVarint;
    p.WriteMapBegin(key.Type(), value.Type(), |rv.pairs|);
    WritePairs(p, env, key, value, rv.pairs);
    Concat3(old(p.written), MapHeader(key.Type(), value.Type(), |rv.pairs|),
            EncodeEntries(LowerPairs(env, key, value, rv.pairs)));
  }

  method WritePairs(p: CompactProtocol, env: Env, key: Info, value: Info, ps: seq<Pair>)
    requires PairsConform(env, key, value, ps)
    requires Ready(p) && p.booleanField == None
    modifies p
    ensures p.Writer() == old(p.Writer()).(out := old(p.written) + EncodeEntries(LowerPairs(env, key, value, ps)))
    decreases ps, 0
  {
    hide PairBytes, Encode, EncodeEntry, Lower, LowerPair, Conforms, WellFormed;
    ghost var start := p.Writer();
    ghost var whole := p.written + PairBytes(env, key, value, ps, 0);
    PairBytesEnds(env, key, value, ps);
    var i := 0;
    while i < |ps|
      invariant 0 <= i <= |ps|
      invariant p.Writer() == start.(out := p.written)
      invariant whole == p.written + PairBytes(env, key, value, ps, i)
    {
      PairBytesStep(env, key, value, ps, i, p.written);
      WritePair(p, env, key, value, ps[i]);
      i := i + 1;
    }
  }

  /** The encoding of the pairs from index i on. */
  ghost function PairBytes(env: Env, key: Info, value: Info, ps: seq<Pair>, i: nat): seq<byte>
    requires PairsConform(env, key, value, ps) && i <= |ps|
  {
    EncodeEntries(LowerPairs(env, key, value, ps[i..]))
  }

  lemma PairBytesEnds(env: Env, key: Info, value: Info, ps: seq<Pair>)
    requires PairsConform(env, key, value, ps)
    ensures PairBytes(env, key, value, ps, 0) == EncodeEntries(LowerPairs(env, key, value, ps))
    ensures PairBytes(env, key, value, ps, |ps|) == []
  {
    assert ps[0..] == ps;
  }

  lemma EncodeEntriesStep(e: Entry, es: seq<Entry>)
    requires WellFormedEntries([e] + es) && WellFormedEntries(es) && WellFormed(e.k) && WellFormed(e.v)
    ensures EncodeEntries([e] + es) == EncodeEntry(e) + EncodeEntries(es)
  {
    assert ([e] + es)[1..] == es;
  }

  lemma PairBytesStep(env: Env, key: Info, value: Info, ps: seq<Pair>, i: nat, out: seq<byte>)
    requires PairsConform(env, key, value, ps) && i < |ps|
    ensures Conforms(env, key, ps[i].k) && Conforms(env, value, ps[i].v)
    ensures out + PairBytes(env, key, value, ps, i)
         == (out + EncodeEntry(LowerPair(env, key, value, ps[i]))) + PairBytes(env, key, value, ps, i + 1)
  {
    hide Lower, LowerPair, LowerPairs, Conforms, Encode, EncodeEntry, EncodeEntries, WellFormed;
    hide WellFormedEntries, EntriesOfType, Closed, ClosedInfo, TypeOf;
    var rest := ps[i..];
    assert rest[0] == ps[i] && rest[1..] == ps[i + 1..];
    var e, es := LowerPair(env, key, value, ps[i]), LowerPairs(env, key, value, ps[i + 1..]);
    LowerPairsStep(env, key, value, rest);
    EncodeEntriesStep(e, es);
    Concat3(out, EncodeEntry(e), EncodeEntries(es));
  }

  method WritePair(p: CompactProtocol, env: Env, key: Info, value: Info, q: Pair)
    requires Conforms(env, key, q.k) && Conforms(env, value, q.v)
    requires Ready(p) && p.booleanField == None
    modifies p
    ensures p.Writer() == old(p.Writer()).(out := old(p.written) + EncodeEntry(LowerPair(env, key, value, q)))
    decreases q, 0
  {
    WriteAnything(p, env, key, q.k);
    WriteAnything(p, env, value, q.v);
    Concat3(old(p.written), Encode(Lower(env, key, q.k)), Encode(Lower(env, value, q.v)));
  }

  /** rb_thrift_struct_write: set fields in the order of their ids. */
  method StructWrite(p: CompactProtocol, env: Env, cls: string, rv: RVal)
    requires Conforms(env, Struct(cls), rv) && rv.cls == cls && Ready(p) && p.booleanField == None
    modifies p
    ensures p.Writer() == old(p.Writer()).(out := old(p.written) + Encode(LowerStruct(env, cls, rv)))
    decreases rv, 1
  {
    ghost var start := p.Writer();
    var ids := SortedIds(env[cls].fields.Keys);
    p.WriteStructBegin();
    ghost var whole := p.written + EncodeFields(0, LowerFields(env, cls, rv, ids));
    var i := 0;
    while i < |ids|
      invariant 0 <= i <= |ids|
      invariant p.Valid() && p.booleanField == None
      invariant |p.lastField| == |start.lastField| + 1 && p.lastField[..|start.lastField|] == start.lastField
      invariant whole == p.written + EncodeFields(p.lastField[|start.lastField|], LowerFields(env, cls, rv, ids[i..]))
    {
      var id := ids[i];
      ghost var rest := ids[i..];
      assert rest[0] == id && rest[1..] == ids[i + 1..];
      if id in rv.ivars {
        ghost var last := p.lastField[|start.lastField|];
        ghost var f := Field(id, Lower(env, env[cls].fields[id], rv.ivars[id]));
        ghost var fs := LowerFields(env, cls, rv, ids[i + 1..]);
        assert LowerFields(env, cls, rv, rest) == [f] + fs;
        assert ([f] + fs)[1..] == fs;
        Concat3(p.written, EncodeField(last, f), EncodeFields(id, fs));
        WriteField(p, env, cls, rv, id);
      }
      i := i + 1;
    }
    p.WriteFieldStop();
    p.WriteStructEnd();
    assert p.lastField == start.lastField;
  }

  /** One turn of the field loop: header and value, with a bool folded into the header. */
  method WriteField(p: CompactProtocol, env: Env, cls: string, rv: RVal, id: int)
    requires Conforms(env, Struct(cls), rv) && rv.cls == cls && id in rv.ivars
    requires Ready(p) && p.booleanField == None
    modifies p
    ensures var top := |old(p.lastField)| - 1;
            var f := Field(id, Lower(env, env[cls].fields[id], rv.ivars[id]));
            p.Writer() == W.Ruby(old(p.written) + EncodeField(old(p.lastField)[top], f),
                                 old(p.lastField)[..top] + [id], None)
    decreases rv, 0
  {
    hide WellFormed, EncodeFields, EncodeEntries, EncodeElems, EncodeVarint, LowerStruct, LowerMap, LowerSet, LowerElems;
    var info := env[cls].fields[id];
    ghost var last := p.lastField[|p.lastField| - 1];
    var ok := p.WriteFieldBegin(info.Type(), id);
    if info.Type() == BOOL {
      WriteScalar(p, BOOL, rv.ivars[id]);
    } else {
      WriteAnything(p, env, info, rv.ivars[id]);
      Concat3(old(p.written), FieldHeader(last, id, CompactType(info.Type())), Encode(Lower(env, info, rv.ivars[id])));
    }
  }

  // ----- reading -----

  method ReadAnythingScalar(p: CompactProtocol, t: ScalarType) returns (r: Option<RVal>)
    modifies p`input, p`boolValue
    ensures Outcome(ReadScalar(old(p.Reader()), t), r, p.Reader())
  {
    match t
    case BOOL => var v := p.ReadBool(); r := if v == None then None else Some(RBool(v.value));
    case BYTE => var v := p.ReadByte(); r := if v == None then None else Some(RInt(v.value));
    case I16 => var v := p.ReadI16(); r := if v == None then None else Some(RInt(v.value));
    case I32 => var v := p.ReadI32(); r := if v == None then None else Some(RInt(v.value));
    case I64 => var v := p.ReadI64(); r := if v == None then None else Some(RInt(v.value));
    case DOUBLE => var v := p.ReadDouble(); r := if v == None then None else Some(RDouble(v.value));
    case STRING => var v := p.ReadBinary(); r := if v == None then None else Some(RString(v.value));
  }

  /** read_anything */
  method ReadAnythingFrom(p: CompactProtocol, env: Env, info: Info) returns (r: Option<RVal>)
    modifies p`input, p`lastField, p`boolValue
    ensures Outcome(ReadAnything(env, old(p.Reader()), info), r, p.Reader())
    decreases |p.input|, 1, 0
  {
    match info
    case Scalar(t) => r := ReadAnythingScalar(p, t);
    case Struct(cls) =>
      if cls !in env {
        return None;
      }
      r := StructRead(p, env, cls);
    case Map(key, value) => r := ReadMap(p, env, key, value);
    case List(elem) =>
      var h := p.ReadListBegin();
      if h == None {
        return None;
      }
      if elem.Some? && elem.value.Type() == h.value.elemType {
        var es := ReadElemsFrom(p, env, elem.value, R.Count(h.value.size));
        r := if es == None then None else Some(RArray(es.value));
      } else {
        var skipped := p.SkipElems(h.value.elemType, R.Count(h.value.size));
        r := if skipped == None then None else Some(RNil);
      }
    case Set(elem) =>
      var h := p.ReadSetBegin();
      if h == None {
        return None;
      }
      if elem.Some? && elem.value.Type() == h.value.elemType {
        var es := ReadElemsFrom(p, env, elem.value, R.Count(h.value.size));
        r := if es == None then None else Some(RSet(SetNew([], es.value)));
      } else {
        var skipped := p.SkipElems(h.value.elemType, R.Count(h.value.size));
        r := if skipped == None then None else Some(RNil);
      }
  }

  method ReadElemsFrom(p: CompactProtocol, env: Env, info: Info, n: nat) returns (r: Option<seq<RVal>>)
    modifies p`input, p`lastField, p`boolValue
    ensures Outcome(ReadElems(env, old(p.Reader()), info, n, []), r, p.Reader())
    decreases |p.input|, 2, 0
  {
    hide ReadAnything;
    var items := [];
    ghost var whole := ReadElems(env, p.Reader(), info, n, []);
    var left := n;
    while left > 0
      invariant |p.input| <= |old(p.input)|
      invariant whole == ReadElems(env, p.Reader(), info, left, items)
    {
      var v := ReadAnythingFrom(p, env, info);
      if v == None {
        return None;
      }
      items := items + [v.value];
      left := left - 1;
    }
    r := Some(items);
  }

  method ReadMap(p: CompactProtocol, env: Env, key: Option<Info>, value: Option<Info>) returns (r: Option<RVal>)
    modifies p`input, p`lastField, p`boolValue
    ensures Outcome(ReadAnything(env, old(p.Reader()), Map(key, value)), r, p.Reader())
    decreases |p.input|, 0, 0
  {
    var h := p.ReadMapBegin();
    if h == None {
      return None;
    }
    var kt, vt, size := h.value.keyType, h.value.valueType, h.value.size;
    if key.Some? && value.Some? && (size == 0 || (key.value.Type() == kt && value.value.Type() == vt)) {
      r := ReadPairsFrom(p, env, key.value, value.value, R.Count(size));
    } else {
      var skipped := p.SkipEntries(kt, vt, R.Count(size));
      r := if skipped == None then None else Some(RNil);
    }
  }

  method ReadPair(p: CompactProtocol, env: Env, key: Info, value: Info,
                  ghost n: nat, ghost acc: seq<Pair>, ghost whole: R.Result<RVal>) returns (r: Option<Pair>)
    requires n > 0 && whole == ReadPairs(env, p.Reader(), key, value, n, acc)
    modifies p`input, p`lastField, p`boolValue
    ensures match r
            case Some(q) => |p.input| <= |old(p.input)|
                            && whole == ReadPairs(env, p.Reader(), key, value, n - 1, HashPut(acc, q.k, q.v))
            case None => whole == R.Err
    decreases |p.input|, 2, 0
  {
    hide ReadAnything;
    var k := ReadAnythingFrom(p, env, key);
    if k == None {
      return None;
    }
    var v := ReadAnythingFrom(p, env, value);
    if v == None {
      return None;
    }
    r := Some(Pair(k.value, v.value));
  }

  method ReadPairsFrom(p: CompactProtocol, env: Env, key: Info, value: Info, n: nat) returns (r: Option<RVal>)
    modifies p`input, p`lastField, p`boolValue
    ensures Outcome(ReadPairs(env, old(p.Reader()), key, value, n, []), r, p.Reader())
    decreases |p.input|, 2, 1
  {
    hide ReadAnything;
    var result := [];
    ghost var whole := ReadPairs(env, p.Reader(), key, value, n, []);
    var left := n;
    while left > 0
      invariant |p.input| <= |old(p.input)|
      invariant whole == ReadPairs(env, p.Reader(), key, value, left, result)
    {
      var pair := ReadPair(p, env, key, value, left, result, whole);
      if pair == None {
        return None;
      }
      result := HashPut(result, pair.value.k, pair.value.v);
      left := left - 1;
    }
    r := Some(RHash(result));
  }

  /** rb_thrift_struct_read on a new instance. */
  method StructRead(p: CompactProtocol, env: Env, cls: string) returns (r: Option<RVal>)
    requires cls in env
    modifies p`input, p`lastField, p`boolValue
    ensures Outcome(ReadAnything(env, old(p.Reader()), Struct(cls)), r, p.Reader())
    decreases |p.input|, 0, 0
  {
    var ivars := env[cls].defaults;
    p.ReadStructBegin();
    ghost var whole := ReadFields(env, p.Reader(), cls, ivars);
    while true
      invariant |p.input| <= |old(p.input)|
      invariant whole == ReadFields(env, p.Reader(), cls, ivars)
      decreases |p.input|
    {
      var h := p.ReadFieldBegin();
      if h == None {
        return None;
      }
      var ttype, id := h.value.ttype, h.value.id;
      if ttype == STOP {
        break;
      }
      if id in env[cls].fields && env[cls].fields[id].Type() == ttype {
        var v := ReadAnythingFrom(p, env, env[cls].fields[id]);
        if v == None {
          return None;
        }
        ivars := SetIvar(ivars, id, v.value);
      } else {
        var skipped := p.Skip(ttype);
        if skipped == None {
          return None;
        }
      }
    }
    p.ReadStructEnd();
    r := Some(RObject(cls, ivars));
  }
}
