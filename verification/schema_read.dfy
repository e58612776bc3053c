/** The schema-driven reader returns the schema's view of the tree that was encoded, and stops
    right behind it. */
module SchemaRead {
  import opened Bits
  import opened Varint
  import opened Wire
  import opened Wrappers
  import opened Compact
  import opened CompactReader
  import opened CompactSkip
  import opened Schema

  lemma {:induction false} ReadExact(env: Env, st: Reader, info: Info, v: Value, rest: seq<byte>)
    requires Closed(env) && ClosedInfo(env, info) && info.Type() == TypeOf(v)
    requires WellFormed(v) && At(st, v, rest)
    ensures ReadAnything(env, st, info) == Ok(View(env, info, v), Past(st, rest))
    decreases v, 1
  {
    match v
    case VBool(_) => ReadBoolAt(st, v, rest);
    case VByte(i) => ReadByteAt(st, i, rest);
    case VI16(i) => ReadZigzag32(st, i, rest);
    case VI32(i) => ReadZigzag32(st, i, rest);
    case VI64(i) => ReadZigzag64(st, i, rest);
    case VDouble(bits) => ReadAllAt(st, bits, rest);
    case VString(bytes) =>
      Concat3(EncodeVarint(|bytes|), bytes, rest);
      ReadBinaryAt(st, bytes, rest);
    case VStruct(fields) => ReadStructExact(env, st, info.cls, fields, rest);
    case VMap(kt, vt, entries) =>
      Concat3(MapHeader(kt, vt, |entries|), EncodeEntries(entries), rest);
      ReadMapExact(env, st, info.key, info.value, v, rest);
    case VSet(et, elems) =>
      Concat3(CollectionHeader(et, |elems|), EncodeElems(elems), rest);
      ReadSetExact(env, st, info.elem, v, rest);
    case VList(et, elems) =>
      Concat3(CollectionHeader(et, |elems|), EncodeElems(elems), rest);
      ReadListExact(env, st, info.elem, v, rest);
  }

  lemma {:induction false} ReadStructExact(env: Env, st: Reader, cls: string, fs: seq<Field>, rest: seq<byte>)
    requires Closed(env) && cls in env
    requires WellFormedFields(fs) && st.pendingBool == None
    requires st.rem == EncodeFields(0, fs) + rest
    ensures ReadAnything(env, st, Struct(cls))
         == Ok(RObject(cls, ViewFields(env, cls, env[cls].defaults, fs)), st.(rem := rest))
    decreases fs, 1
  {
    var st1 := StructBegin(st);
    ReadFieldsExact(env, st1, cls, env[cls].defaults, fs, rest);
    PoppedStruct(st, ReadFields(env, st1, cls, env[cls].defaults).st, rest);
  }

  lemma {:induction false} ReadFieldsExact(env: Env, st: Reader, cls: string, ivars: map<int, RVal>,
                                           fs: seq<Field>, rest: seq<byte>)
    requires Closed(env) && cls in env
    requires WellFormedFields(fs) && st.pendingBool == None && st.last != []
    requires st.rem == EncodeFields(st.last[|st.last| - 1], fs) + rest
    ensures ReadFields(env, st, cls, ivars).Ok?
    ensures var r := ReadFields(env, st, cls, ivars);
            && r.value == ViewFields(env, cls, ivars, fs)
            && r.st.rem == rest && r.st.pendingBool == None
            && |r.st.last| == |st.last| && r.st.last[..|st.last| - 1] == st.last[..|st.last| - 1]
    decreases fs, 0
  {
    if fs == [] {
      ReadStop(st, rest);
    } else {
      var f := fs[0];
      var tail := EncodeFields(f.id, fs[1..]) + rest;
      Concat3(EncodeField(st.last[|st.last| - 1], f), EncodeFields(f.id, fs[1..]), rest);
      ReadFieldExact(env, st, cls, ivars, f, tail);
      ReadFieldsExact(env, NextField(st, f, tail), cls, ViewField(env, cls, ivars, f), fs[1..], rest);
    }
  }

  function NextField(st: Reader, f: Field, tail: seq<byte>): Reader
    requires st.last != []
  {
    Reader(tail, st.last[..|st.last| - 1] + [f.id], None)
  }

  /** One turn of the field loop: the field is stored or skipped, and either way consumed. */
  lemma {:induction false} ReadFieldExact(env: Env, st: Reader, cls: string, ivars: map<int, RVal>,
                                          f: Field, tail: seq<byte>)
    requires Closed(env) && cls in env
    requires st.pendingBool == None && st.last != [] && IsInt16(f.id) && WellFormed(f.v)
    requires st.rem == EncodeField(st.last[|st.last| - 1], f) + tail
    ensures ReadFields(env, st, cls, ivars)
         == ReadFields(env, NextField(st, f, tail), cls, ViewField(env, cls, ivars, f))
    decreases f, 0
  {
    HeaderOfField(st, f, tail);
    var st1 := ReadFieldBegin(st).st;
    if Accepts(env, cls, f.id, TypeOf(f.v)) {
      ReadExact(env, st1, env[cls].fields[f.id], f.v, tail);
    } else {
      SkipExact(st1, f.v, tail);
    }
  }

  lemma {:induction false} ReadMapExact(env: Env, st: Reader, key: Option<Info>, value: Option<Info>,
                                        v: Value, rest: seq<byte>)
    requires Closed(env) && ClosedInfo(env, Map(key, value)) && v.VMap? && WellFormed(v)
    requires st.pendingBool == None
    requires var VMap(kt, vt, es) := v;
             st.rem == MapHeader(kt, vt, |es|) + (EncodeEntries(es) + rest)
    ensures ReadAnything(env, st, Map(key, value)) == Ok(View(env, Map(key, value), v), st.(rem := rest))
    decreases v, 0
  {
    var VMap(kt, vt, es) := v;
    var st1 := st.(rem := EncodeEntries(es) + rest);
    ReadMapHeader(st, kt, vt, |es|, st1.rem);
    if key.Some? && value.Some? && (es == [] || (key.value.Type() == kt && value.value.Type() == vt)) {
      ReadPairsExact(env, st1, key.value, value.value, [], es, rest);
    } else {
      SkipEntriesExact(st1, kt, vt, es, rest);
    }
  }

  lemma {:induction false} ReadPairsExact(env: Env, st: Reader, key: Info, value: Info, acc: seq<Pair>,
                                          es: seq<Entry>, rest: seq<byte>)
    requires Closed(env) && ClosedInfo(env, key) && ClosedInfo(env, value)
    requires WellFormedEntries(es) && st.pendingBool == None
    requires forall e | e in es :: TypeOf(e.k) == key.Type() && TypeOf(e.v) == value.Type()
    requires st.rem == EncodeEntries(es) + rest
    ensures ReadPairs(env, st, key, value, |es|, acc)
         == Ok(RHash(ViewEntries(env, key, value, acc, es)), st.(rem := rest))
    decreases es, 0
  {
    if es == [] {
      assert st.rem == rest;
    } else {
      var tail := EncodeEntries(es[1..]) + rest;
      Concat3(EncodeEntry(es[0]), EncodeEntries(es[1..]), rest);
      ReadPairExact(env, st, key, value, es[0], tail);
      var p := ViewEntry(env, key, value, es[0]);
      ReadPairsExact(env, st.(rem := tail), key, value, HashPut(acc, p.k, p.v), es[1..], rest);
    }
  }

  lemma {:induction false} ReadPairExact(env: Env, st: Reader, key: Info, value: Info, e: Entry, rest: seq<byte>)
    requires Closed(env) && ClosedInfo(env, key) && ClosedInfo(env, value)
    requires WellFormed(e.k) && WellFormed(e.v) && st.pendingBool == None
    requires TypeOf(e.k) == key.Type() && TypeOf(e.v) == value.Type()
    requires st.rem == EncodeEntry(e) + rest
    ensures ReadAnything(env, st, key).Ok?
    ensures var r := ReadAnything(env, st, key);
            && r.value == ViewEntry(env, key, value, e).k
            && ReadAnything(env, r.st, value) == Ok(ViewEntry(env, key, value, e).v, st.(rem := rest))
    decreases e, 0
  {
    var tail := Encode(e.v) + rest;
    Concat3(Encode(e.k), Encode(e.v), rest);
    ReadExact(env, st, key, e.k, tail);
    ReadExact(env, st.(rem := tail), value, e.v, rest);
  }

  lemma {:induction false} ReadListExact(env: Env, st: Reader, elem: Option<Info>, v: Value, rest: seq<byte>)
    requires Closed(env) && ClosedInfo(env, List(elem)) && v.VList? && WellFormed(v)
    requires st.pendingBool == None
    requires st.rem == CollectionHeader(v.elemType, |v.elems|) + (EncodeElems(v.elems) + rest)
    ensures ReadAnything(env, st, List(elem)) == Ok(View(env, List(elem), v), st.(rem := rest))
    decreases v, 0
  {
    var VList(et, es) := v;
    var st1 := st.(rem := EncodeElems(es) + rest);
    ReadCollectionHeader(st, et, |es|, st1.rem);
    if elem.Some? && elem.value.Type() == et {
      ReadElemsExact(env, st1, elem.value, [], es, rest);
      assert [] + ViewElems(env, elem.value, es) == ViewElems(env, elem.value, es);
    } else {
      SkipElemsExact(st1, et, es, rest);
    }
  }

  lemma {:induction false} ReadSetExact(env: Env, st: Reader, elem: Option<Info>, v: Value, rest: seq<byte>)
    requires Closed(env) && ClosedInfo(env, Set(elem)) && v.VSet? && WellFormed(v)
    requires st.pendingBool == None
    requires st.rem == CollectionHeader(v.elemType, |v.elems|) + (EncodeElems(v.elems) + rest)
    ensures ReadAnything(env, st, Set(elem)) == Ok(View(env, Set(elem), v), st.(rem := rest))
    decreases v, 0
  {
    var VSet(et, es) := v;
    var st1 := st.(rem := EncodeElems(es) + rest);
    ReadCollectionHeader(st, et, |es|, st1.rem);
    if elem.Some? && elem.value.Type() == et {
      ReadElemsExact(env, st1, elem.value, [], es, rest);
      assert [] + ViewElems(env, elem.value, es) == ViewElems(env, elem.value, es);
    } else {
      SkipElemsExact(st1, et, es, rest);
    }
  }

  lemma {:induction false} ReadElemsExact(env: Env, st: Reader, info: Info, acc: seq<RVal>, es: seq<Value>, rest: seq<byte>)
    requires Closed(env) && ClosedInfo(env, info)
    requires WellFormedElems(es) && st.pendingBool == None
    requires forall e | e in es :: TypeOf(e) == info.Type()
    requires st.rem == EncodeElems(es) + rest
    ensures ReadElems(env, st, info, |es|, acc) == Ok(acc + ViewElems(env, info, es), st.(rem := rest))
    decreases es, 0
  {
    if es == [] {
      assert st.rem == rest && acc + [] == acc;
    } else {
      var tail := EncodeElems(es[1..]) + rest;
      Concat3(Encode(es[0]), EncodeElems(es[1..]), rest);
      ReadExact(env, st, info, es[0], tail);
      var v := View(env, info, es[0]);
      ReadElemsExact(env, st.(rem := tail), info, acc + [v], es[1..], rest);
      Concat3(acc, [v], ViewElems(env, info, es[1..]));
    }
  }
}
