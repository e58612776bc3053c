/** Writing under one schema and reading under another. */
module SchemaEvolution {
  import opened Bits
  import opened Wire
  import opened Wrappers
  import opened Compact
  import opened CompactReader
  import opened FieldIds
  import opened RubyCollections
  import opened Schema
  import opened SchemaRead
  import opened SchemaWrite

  // ----- fields: what each id ends up with -----

  /** The reader's field `id` after reading an object written with `ivars` of class cw into a class
      cr instance: the migrated value if both classes have the id with the same type and the
      writer had it set, otherwise the value it had before. */
  ghost predicate FieldOutcome(envW: Env, cw: string, rv: RVal, envR: Env, cr: string,
                               before: map<int, RVal>, after: map<int, RVal>, id: int)
    requires Conforms(envW, Struct(cw), rv) && rv.cls == cw
    requires Closed(envR) && cr in envR
  {
    if id in rv.ivars && Accepts(envR, cr, id, envW[cw].fields[id].Type()) then
      var v := View(envR, envR[cr].fields[id], Lower(envW, envW[cw].fields[id], rv.ivars[id]));
      if v == RNil then id !in after else id in after && after[id] == v
    else SameAt(before, after, id)
  }

  ghost predicate SameAt(a: map<int, RVal>, b: map<int, RVal>, id: int) {
    (id in a <==> id in b) && (id in a ==> a[id] == b[id])
  }

  /** The field loop, id by id: ids still to come are migrated, others are as before. */
  lemma {:induction false} FieldsMigrate(envW: Env, cw: string, rv: RVal, ids: seq<int>,
                                         envR: Env, cr: string, before: map<int, RVal>, id: int)
    requires Conforms(envW, Struct(cw), rv) && rv.cls == cw && Closed(envR) && cr in envR
    requires forall i | i in ids :: i in envW[cw].fields
    requires forall i, j | 0 <= i < j < |ids| :: ids[i] != ids[j]
    ensures var after := ViewFields(envR, cr, before, LowerFields(envW, cw, rv, ids));
            if id in ids then FieldOutcome(envW, cw, rv, envR, cr, before, after, id)
            else SameAt(before, after, id)
    decreases |ids|
  {
    if ids != [] {
      var first := ids[0];
      if first in rv.ivars {
        var f := Field(first, Lower(envW, envW[cw].fields[first], rv.ivars[first]));
        var fs := LowerFields(envW, cw, rv, ids[1..]);
        assert ([f] + fs)[1..] == fs;
        FieldsMigrate(envW, cw, rv, ids[1..], envR, cr, ViewField(envR, cr, before, f), id);
      } else {
        FieldsMigrate(envW, cw, rv, ids[1..], envR, cr, before, id);
      }
    }
  }

  lemma IdsDistinct(s: set<int>)
    ensures forall i, j | 0 <= i < j < |SortedIds(s)| :: SortedIds(s)[i] != SortedIds(s)[j]
  {
    forall i, j | 0 <= i < j < |SortedIds(s)|
      ensures SortedIds(s)[i] != SortedIds(s)[j]
    {
      SortedIdsIncrease(s, i, j);
    }
  }

  lemma ViewOfStruct(envW: Env, cw: string, rv: RVal, envR: Env, cr: string)
    requires Conforms(envW, Struct(cw), rv) && rv.cls == cw && Closed(envR) && cr in envR
    ensures View(envR, Struct(cr), Lower(envW, Struct(cw), rv))
         == RObject(cr, ViewFields(envR, cr, envR[cr].defaults,
                                   LowerFields(envW, cw, rv, SortedIds(envW[cw].fields.Keys))))
  {
    hide View, Lower, ViewFields, LowerFields, SortedIds, Closed, ClosedInfo, WellFormed, Conforms;
    LowerOfStruct(envW, cw, rv);
    ViewUnfoldsStruct(envR, cr, Lower(envW, Struct(cw), rv));
  }

  lemma ViewUnfoldsStruct(env: Env, cls: string, v: Value)
    requires Closed(env) && cls in env && v.VStruct? && WellFormed(v)
    ensures View(env, Struct(cls), v) == RObject(cls, ViewFields(env, cls, env[cls].defaults, v.fields))
  {
    hide ViewFields, Closed;
  }

  lemma StructMigrates(envW: Env, cw: string, rv: RVal, envR: Env, cr: string, id: int)
    requires Conforms(envW, Struct(cw), rv) && rv.cls == cw && Closed(envR) && cr in envR
    ensures var r := View(envR, Struct(cr), Lower(envW, Struct(cw), rv));
            r.RObject? && r.cls == cr
            && FieldOutcome(envW, cw, rv, envR, cr, envR[cr].defaults, r.ivars, id)
  {
    var ids := SortedIds(envW[cw].fields.Keys);
    IdsDistinct(envW[cw].fields.Keys);
    ViewOfStruct(envW, cw, rv, envR, cr);
    FieldsMigrate(envW, cw, rv, ids, envR, cr, envR[cr].defaults, id);
  }

  /** Schema evolution on bytes: whatever follows, reading under class cr what was written under
      class cw yields exactly the shared fields, and stops behind the struct with the reader's
      stacks as they were. */
  lemma Evolution(envW: Env, cw: string, rv: RVal, envR: Env, cr: string, st: Reader, rest: seq<byte>)
    returns (ivars: map<int, RVal>)
    requires Conforms(envW, Struct(cw), rv) && rv.cls == cw && Closed(envR) && cr in envR
    requires st.pendingBool == None && st.rem == Encode(Lower(envW, Struct(cw), rv)) + rest
    ensures ReadAnything(envR, st, Struct(cr)) == Ok(RObject(cr, ivars), st.(rem := rest))
    ensures forall id :: FieldOutcome(envW, cw, rv, envR, cr, envR[cr].defaults, ivars, id)
  {
    var tree := Lower(envW, Struct(cw), rv);
    ReadExact(envR, st, Struct(cr), tree, rest);
    ivars := View(envR, Struct(cr), tree).ivars;
    forall id
      ensures FieldOutcome(envW, cw, rv, envR, cr, envR[cr].defaults, ivars, id)
    {
      StructMigrates(envW, cw, rv, envR, cr, id);
    }
    StructMigrates(envW, cw, rv, envR, cr, 0);
  }

  // ----- the same schema on both sides -----

  /** A bool is true or false, and a byte or a 16-bit integer fits its width. */
  predicate ScalarSurvives(t: ScalarType, rv: RVal) {
    match t
    case BOOL => rv.RBool?
    case BYTE => rv.RInt? && IsInt8(rv.i)
    case I16 => rv.RInt? && IsInt16(rv.i)
    case _ => true
  }

  /** Every scalar inside rv is of its field's kind and width, every object of its field's class, none
      has left a field unset that its class gives a default for, and every set is held as a Set. */
  predicate Survives(env: Env, info: Info, rv: RVal)
    decreases rv
  {
    match info
    case Scalar(t) => ScalarSurvives(t, rv)
    case Struct(cls) =>
      && rv.RObject? && rv.cls == cls && cls in env
      && (forall id | id in env[cls].defaults :: id in rv.ivars)
      && forall id | id in rv.ivars && id in env[cls].fields :: Survives(env, env[cls].fields[id], rv.ivars[id])
    case Map(key, value) =>
      && key.Some? && value.Some? && rv.RHash?
      && forall p | p in rv.pairs :: Survives(env, key.value, p.k) && Survives(env, value.value, p.v)
    case Set(elem) => elem.Some? && rv.RSet? && forall e | e in rv.elems :: Survives(env, elem.value, e)
    case List(elem) => elem.Some? && rv.RArray? && forall e | e in rv.elems :: Survives(env, elem.value, e)
  }

  function ViewPairs(env: Env, key: Info, value: Info, ps: seq<Pair>): (r: seq<Pair>)
    requires Closed(env) && ClosedInfo(env, key) && ClosedInfo(env, value)
    requires PairsConform(env, key, value, ps)
    ensures |r| == |ps|
    ensures forall i | 0 <= i < |ps| :: r[i] == ViewEntry(env, key, value, LowerPair(env, key, value, ps[i]))
    decreases |ps|
  {
    if ps == [] then []
    else [ViewEntry(env, key, value, LowerPair(env, key, value, ps[0]))] + ViewPairs(env, key, value, ps[1..])
  }

  lemma {:induction false} ViewEntriesIsPutAll(env: Env, key: Info, value: Info, acc: seq<Pair>, ps: seq<Pair>)
    requires Closed(env) && ClosedInfo(env, key) && ClosedInfo(env, value)
    requires PairsConform(env, key, value, ps)
    ensures ViewEntries(env, key, value, acc, LowerPairs(env, key, value, ps))
         == PutAll(acc, ViewPairs(env, key, value, ps))
    decreases |ps|
  {
    hide View, Lower, ViewEntry, ViewEntries, LowerPair, LowerPairs, ViewPairs, Conforms, HashPut;
    if ps == [] {
      PairsEmpty(env, key, value, acc);
    } else {
      var e, es := LowerPair(env, key, value, ps[0]), LowerPairs(env, key, value, ps[1..]);
      var q, qs := ViewEntry(env, key, value, e), ViewPairs(env, key, value, ps[1..]);
      ViewEntriesIsPutAll(env, key, value, HashPut(acc, q.k, q.v), ps[1..]);
      LowerPairsStep(env, key, value, ps);
      ViewEntriesStep(env, key, value, acc, e, es);
      ViewPairsStep(env, key, value, ps);
      assert ([q] + qs)[1..] == qs;
    }
  }

  lemma PairsEmpty(env: Env, key: Info, value: Info, acc: seq<Pair>)
    requires Closed(env) && ClosedInfo(env, key) && ClosedInfo(env, value)
    ensures LowerPairs(env, key, value, []) == [] && ViewPairs(env, key, value, []) == []
    ensures ViewEntries(env, key, value, acc, []) == acc
  {
  }

  lemma ViewPairsStep(env: Env, key: Info, value: Info, ps: seq<Pair>)
    requires Closed(env) && ClosedInfo(env, key) && ClosedInfo(env, value) && ps != []
    requires PairsConform(env, key, value, ps)
    ensures ViewPairs(env, key, value, ps)
         == [ViewEntry(env, key, value, LowerPair(env, key, value, ps[0]))] + ViewPairs(env, key, value, ps[1..])
  {
    hide View, Lower, ViewEntry, LowerPair, Conforms;
  }

  lemma ViewEntriesStep(env: Env, key: Info, value: Info, acc: seq<Pair>, e: Entry, es: seq<Entry>)
    requires Closed(env) && ClosedInfo(env, key) && ClosedInfo(env, value)
    requires EntriesOfType([e] + es, key.Type(), value.Type())
    ensures WellFormedEntries([e] + es) && EntriesOfType(es, key.Type(), value.Type())
    ensures var q := ViewEntry(env, key, value, e);
            ViewEntries(env, key, value, acc, [e] + es) == ViewEntries(env, key, value, HashPut(acc, q.k, q.v), es)
  {
    hide View, ViewEntry, HashPut, WellFormed;
    assert ([e] + es)[0] == e && ([e] + es)[1..] == es;
    assert forall x | x in es :: x in [e] + es;
  }

  lemma {:induction false} ViewElemAt(env: Env, info: Info, es: seq<RVal>, i: nat)
    requires Closed(env) && ClosedInfo(env, info) && i < |es|
    requires ElemsConform(env, info, es)
    ensures var r := ViewElems(env, info, LowerElems(env, info, es));
            |r| == |es| && r[i] == View(env, info, Lower(env, info, es[i]))
    decreases |es|
  {
    hide View, Lower, Conforms;
    var vs := LowerElems(env, info, es);
    assert vs[1..] == LowerElems(env, info, es[1..]);
    if i > 0 {
      ViewElemAt(env, info, es[1..], i - 1);
    } else if |es| > 1 {
      ViewElemAt(env, info, es[1..], 0);
    }
  }

  /** Writing an object and reading it back under the same schema gives the same object exactly when
      it survives: a field set to nil comes back with its default, a set written from an Array or a
      Hash as a Set, an object of another class as one of the field's, an integer too wide for its
      field cut, and whatever is not `true` in a bool field as false. */
  lemma {:induction false} RoundTripIff(env: Env, info: Info, rv: RVal)
    requires Closed(env) && ClosedInfo(env, info) && Conforms(env, info, rv)
    ensures View(env, info, Lower(env, info, rv)) == rv <==> Survives(env, info, rv)
    ensures View(env, info, Lower(env, info, rv)) != RNil
    decreases rv
  {
    match info
    case Scalar(t) => RoundTripScalar(env, t, rv);
    case Struct(cls) =>
      ObjectComesBack(env, cls, rv);
      if rv.cls == cls {
        forall id | id in rv.ivars
          ensures var v := View(env, env[cls].fields[id], Lower(env, env[cls].fields[id], rv.ivars[id]));
                  v != RNil && (v == rv.ivars[id] <==> Survives(env, env[cls].fields[id], rv.ivars[id]))
        {
          RoundTripIff(env, env[cls].fields[id], rv.ivars[id]);
        }
        StructRoundTrip(env, cls, rv);
      }
    case Map(key, value) =>
      forall p | p in rv.pairs
        ensures PairComesBackIff(env, key.value, value.value, p)
      {
        PairRoundTrip(env, key.value, value.value, p);
      }
      MapRoundTrip(env, key.value, value.value, rv);
    case Set(elem) =>
      SetComesBack(env, elem.value, rv);
      if rv.RSet? {
        forall e | e in rv.elems
          ensures View(env, elem.value, Lower(env, elem.value, e)) == e <==> Survives(env, elem.value, e)
        {
          RoundTripIff(env, elem.value, e);
        }
        SetRoundTrip(env, elem.value, rv);
      }
    case List(elem) =>
      forall e | e in rv.elems
        ensures View(env, elem.value, Lower(env, elem.value, e)) == e <==> Survives(env, elem.value, e)
      {
        RoundTripIff(env, elem.value, e);
      }
      ListRoundTrip(env, elem.value, rv);
  }

  lemma RoundTripScalar(env: Env, t: ScalarType, rv: RVal)
    requires Closed(env) && Conforms(env, Scalar(t), rv)
    ensures View(env, Scalar(t), Lower(env, Scalar(t), rv)) == rv <==> ScalarSurvives(t, rv)
    ensures View(env, Scalar(t), Lower(env, Scalar(t), rv)) != RNil
  {
  }

  /** Whatever its class was, an object comes back as one of the field's class. */
  lemma ObjectComesBack(env: Env, cls: string, rv: RVal)
    requires Closed(env) && cls in env && Conforms(env, Struct(cls), rv)
    ensures var r := View(env, Struct(cls), Lower(env, Struct(cls), rv)); r.RObject? && r.cls == cls
  {
    hide View, Lower, ViewFields, LowerFields, SortedIds, Closed, ClosedInfo, WellFormed;
    LowerOfStruct(env, rv.cls, rv);
    ViewUnfoldsStruct(env, cls, Lower(env, Struct(cls), rv));
  }

  ghost predicate PairComesBackIff(env: Env, key: Info, value: Info, p: Pair)
    requires Closed(env) && ClosedInfo(env, key) && ClosedInfo(env, value)
    requires Conforms(env, key, p.k) && Conforms(env, value, p.v)
  {
    ViewEntry(env, key, value, LowerPair(env, key, value, p)) == p <==> Survives(env, key, p.k) && Survives(env, value, p.v)
  }

  lemma {:induction false} PairRoundTrip(env: Env, key: Info, value: Info, p: Pair)
    requires Closed(env) && ClosedInfo(env, key) && ClosedInfo(env, value)
    requires Conforms(env, key, p.k) && Conforms(env, value, p.v)
    ensures PairComesBackIff(env, key, value, p)
    decreases p
  {
    RoundTripIff(env, key, p.k);
    RoundTripIff(env, value, p.v);
  }

  lemma StructRoundTrip(env: Env, cls: string, rv: RVal)
    requires Closed(env) && Conforms(env, Struct(cls), rv) && rv.cls == cls
    requires forall id | id in rv.ivars ::
               var v := View(env, env[cls].fields[id], Lower(env, env[cls].fields[id], rv.ivars[id]));
               v != RNil && (v == rv.ivars[id] <==> Survives(env, env[cls].fields[id], rv.ivars[id]))
    ensures View(env, Struct(cls), Lower(env, Struct(cls), rv)).RObject?
    ensures View(env, Struct(cls), Lower(env, Struct(cls), rv)) == rv <==> Survives(env, Struct(cls), rv)
  {
    hide View, Lower, ViewFields;
    var r := View(env, Struct(cls), Lower(env, Struct(cls), rv));
    StructMigrates(env, cls, rv, env, cls, 0);
    forall id
      ensures id in rv.ivars ==> id in r.ivars && (r.ivars[id] == rv.ivars[id] <==> Survives(env, env[cls].fields[id], rv.ivars[id]))
      ensures id !in rv.ivars ==> SameAt(env[cls].defaults, r.ivars, id)
    {
      StructMigrates(env, cls, rv, env, cls, id);
    }
    if Survives(env, Struct(cls), rv) {
      forall id
        ensures SameAt(r.ivars, rv.ivars, id)
      {
        assert id !in rv.ivars ==> SameAt(env[cls].defaults, r.ivars, id);
      }
      SameMaps(r.ivars, rv.ivars);
    } else if r.ivars == rv.ivars {
      forall id | id in env[cls].defaults
        ensures id in rv.ivars
      {
        assert id !in rv.ivars ==> SameAt(env[cls].defaults, r.ivars, id);
      }
    }
  }

  lemma SameMaps(a: map<int, RVal>, b: map<int, RVal>)
    requires forall id :: SameAt(a, b, id)
    ensures a == b
  {
    forall id
      ensures id in a.Keys <==> id in b.Keys
    {
      assert SameAt(a, b, id);
    }
    forall id | id in a
      ensures a[id] == b[id]
    {
      assert SameAt(a, b, id);
    }
    assert a == b;
  }

  /** Elementwise round trip of a sequence: all equal exactly when each is. */
  lemma ElemsRoundTrip(env: Env, info: Info, es: seq<RVal>)
    requires Closed(env) && ClosedInfo(env, info)
    requires ElemsConform(env, info, es)
    requires forall e | e in es :: View(env, info, Lower(env, info, e)) == e <==> Survives(env, info, e)
    ensures var r := ViewElems(env, info, LowerElems(env, info, es));
            |r| == |es| && (r == es <==> forall e | e in es :: Survives(env, info, e))
  {
    hide View, Lower, Conforms, Survives;
    var r := ViewElems(env, info, LowerElems(env, info, es));
    if es == [] {
    } else {
      ViewElemAt(env, info, es, 0);
    }
    forall i | 0 <= i < |es|
      ensures r[i] == es[i] <==> Survives(env, info, es[i])
    {
      ViewElemAt(env, info, es, i);
    }
    if forall e | e in es :: Survives(env, info, e) {
      assert forall i | 0 <= i < |es| :: es[i] in es;
      assert r == es;
    }
  }

  lemma ViewOfList(env: Env, info: Info, rv: RVal)
    requires Closed(env) && ClosedInfo(env, info) && Conforms(env, List(Some(info)), rv)
    ensures View(env, List(Some(info)), Lower(env, List(Some(info)), rv))
         == RArray(ViewElems(env, info, LowerElems(env, info, rv.elems)))
  {
  }

  lemma ViewOfSet(env: Env, info: Info, rv: RVal)
    requires Closed(env) && ClosedInfo(env, info) && Conforms(env, Set(Some(info)), rv) && rv.RSet?
    ensures View(env, Set(Some(info)), Lower(env, Set(Some(info)), rv))
         == RSet(SetNew([], ViewElems(env, info, LowerElems(env, info, rv.elems))))
  {
    hide SetNew;
    assert Lower(env, Set(Some(info)), rv) == LowerSet(env, info, rv);
  }

  lemma ListRoundTrip(env: Env, info: Info, rv: RVal)
    requires Closed(env) && ClosedInfo(env, info) && Conforms(env, List(Some(info)), rv)
    requires forall e | e in rv.elems :: View(env, info, Lower(env, info, e)) == e <==> Survives(env, info, e)
    ensures var r := View(env, List(Some(info)), Lower(env, List(Some(info)), rv));
            r.RArray? && (r == rv <==> Survives(env, List(Some(info)), rv))
  {
    hide View, Lower, LowerElems, ViewElems;
    ElemsRoundTrip(env, info, rv.elems);
    ViewOfList(env, info, rv);
  }

  lemma SetRoundTrip(env: Env, info: Info, rv: RVal)
    requires Closed(env) && ClosedInfo(env, info) && Conforms(env, Set(Some(info)), rv) && rv.RSet?
    requires forall e | e in rv.elems :: View(env, info, Lower(env, info, e)) == e <==> Survives(env, info, e)
    ensures var r := View(env, Set(Some(info)), Lower(env, Set(Some(info)), rv));
            r.RSet? && (r == rv <==> Survives(env, Set(Some(info)), rv))
  {
    hide View, Lower, LowerElems, ViewElems, SetNew;
    ElemsRoundTrip(env, info, rv.elems);
    var r := ViewElems(env, info, LowerElems(env, info, rv.elems));
    ViewOfSet(env, info, rv);
    SetNewIff(r, rv.elems);
  }

  /** However it was held, a set comes back as a Set. */
  lemma SetComesBack(env: Env, info: Info, rv: RVal)
    requires Closed(env) && ClosedInfo(env, info) && Conforms(env, Set(Some(info)), rv)
    ensures View(env, Set(Some(info)), Lower(env, Set(Some(info)), rv)).RSet?
  {
    hide SetNew, ViewElems;
    assert Lower(env, Set(Some(info)), rv) == LowerSet(env, info, rv);
  }

  lemma ConformingHash(env: Env, key: Info, value: Info, rv: RVal)
    requires Conforms(env, Map(Some(key), Some(value)), rv)
    ensures rv.RHash? && DistinctKeys(rv.pairs) && PairsConform(env, key, value, rv.pairs)
  {
  }

  /** Pairs that come back one by one, exactly the surviving ones unchanged, make up the same hash if and
      only if all survive. */
  lemma PairsRoundTrip(env: Env, key: Info, value: Info, r: seq<Pair>, ps: seq<Pair>)
    requires |r| == |ps| && DistinctKeys(ps)
    requires forall i | 0 <= i < |ps| :: r[i] == ps[i] <==> Survives(env, key, ps[i].k) && Survives(env, value, ps[i].v)
    ensures PutAll([], r) == ps <==> forall p | p in ps :: Survives(env, key, p.k) && Survives(env, value, p.v)
  {
    hide Survives, PutAll;
    PutAllIff(r, ps);
    if r != ps {
      var i :| 0 <= i < |ps| && r[i] != ps[i];
      assert ps[i] in ps;
    }
  }

  lemma MapRoundTrip(env: Env, key: Info, value: Info, rv: RVal)
    requires Closed(env) && ClosedInfo(env, key) && ClosedInfo(env, value)
    requires Conforms(env, Map(Some(key), Some(value)), rv)
    requires forall p | p in rv.pairs :: PairComesBackIff(env, key, value, p)
    ensures var info := Map(Some(key), Some(value));
            var r := View(env, info, Lower(env, info, rv));
            r.RHash? && (r == rv <==> Survives(env, info, rv))
  {
    hide View, Lower, ViewEntry, LowerPair, ViewEntries, ViewPairs, PutAll, Conforms;
    ConformingHash(env, key, value, rv);
    ViewOfMap(env, key, value, rv);
    ViewEntriesIsPutAll(env, key, value, [], rv.pairs);
    var r := ViewPairs(env, key, value, rv.pairs);
    forall i | 0 <= i < |r|
      ensures r[i] == rv.pairs[i] <==> Survives(env, key, rv.pairs[i].k) && Survives(env, value, rv.pairs[i].v)
    {
      assert PairComesBackIff(env, key, value, rv.pairs[i]);
    }
    PairsRoundTrip(env, key, value, r, rv.pairs);
  }

  lemma ViewOfMap(env: Env, key: Info, value: Info, rv: RVal)
    requires Closed(env) && ClosedInfo(env, key) && ClosedInfo(env, value)
    requires Conforms(env, Map(Some(key), Some(value)), rv)
    ensures View(env, Map(Some(key), Some(value)), Lower(env, Map(Some(key), Some(value)), rv))
         == RHash(ViewEntries(env, key, value, [], LowerPairs(env, key, value, rv.pairs)))
  {
    hide View, Lower, ViewEntries, LowerPairs, Closed, ClosedInfo, WellFormed, Conforms;
    LowerOfMap(env, key, value, rv);
    ViewUnfoldsMap(env, key, value, Lower(env, Map(Some(key), Some(value)), rv));
  }

  lemma ViewUnfoldsMap(env: Env, key: Info, value: Info, v: Value)
    requires Closed(env) && ClosedInfo(env, key) && ClosedInfo(env, value)
    requires v.VMap? && WellFormed(v) && v.keyType == key.Type() && v.valueType == value.Type()
    ensures View(env, Map(Some(key), Some(value)), v) == RHash(ViewEntries(env, key, value, [], v.entries))
  {
    hide ViewEntries, Closed;
  }

  lemma {:induction false} KeysAreElems(env: Env, info: Info, ps: seq<Pair>)
    requires KeysConform(env, info, ps)
    ensures ElemsConform(env, info, KeysOf(ps)) && LowerKeys(env, info, ps) == LowerElems(env, info, KeysOf(ps))
    decreases ps
  {
    hide Conforms, Lower, WellFormed;
    if ps != [] {
      KeysAreElems(env, info, ps[1..]);
      assert KeysOf(ps)[1..] == KeysOf(ps[1..]);
    }
  }

  /** The items a set is written from. */
  function Items(rv: RVal): seq<RVal>
    requires rv.RSet? || rv.RArray? || rv.RHash?
  {
    if rv.RHash? then KeysOf(rv.pairs) else rv.elems
  }

  lemma ItemsOfSet(env: Env, info: Info, rv: RVal)
    requires Conforms(env, Set(Some(info)), rv)
    ensures (rv.RSet? || rv.RArray? || rv.RHash?) && ElemsConform(env, info, Items(rv))
    ensures Lower(env, Set(Some(info)), rv) == VSet(info.Type(), LowerElems(env, info, Items(rv)))
  {
    hide LowerElems, LowerKeys, WellFormed, KeysOf;
    if rv.RHash? {
      KeysAreElems(env, info, rv.pairs);
    }
  }

  /** However a set is held, what comes back is the Set of its items, each once, when the items do. */
  lemma SetOfItems(env: Env, info: Info, rv: RVal)
    requires Closed(env) && ClosedInfo(env, info) && Conforms(env, Set(Some(info)), rv)
    ensures rv.RSet? || rv.RArray? || rv.RHash?
    ensures (forall e | e in Items(rv) :: Survives(env, info, e)) ==>
              View(env, Set(Some(info)), Lower(env, Set(Some(info)), rv)) == RSet(SetNew([], Items(rv)))
  {
    hide View, Lower, LowerElems, ViewElems, SetNew, Survives, Conforms, Closed, ClosedInfo, WellFormed;
    ItemsOfSet(env, info, rv);
    var items := Items(rv);
    forall e | e in items
      ensures View(env, info, Lower(env, info, e)) == e <==> Survives(env, info, e)
    {
      RoundTripIff(env, info, e);
    }
    ElemsRoundTrip(env, info, items);
    ViewUnfoldsSet(env, info, LowerElems(env, info, items));
  }

  lemma ViewUnfoldsSet(env: Env, info: Info, vs: seq<Value>)
    requires Closed(env) && ClosedInfo(env, info) && WellFormed(VSet(info.Type(), vs))
    ensures View(env, Set(Some(info)), VSet(info.Type(), vs)) == RSet(SetNew([], ViewElems(env, info, vs)))
  {
    hide ViewElems, SetNew, Closed;
  }

  /** The same on bytes, followed by anything. */
  lemma RoundTripOnWire(env: Env, info: Info, rv: RVal, st: Reader, rest: seq<byte>)
    requires Closed(env) && ClosedInfo(env, info) && Conforms(env, info, rv)
    requires st.pendingBool == None && st.rem == Encode(Lower(env, info, rv)) + rest
    ensures ReadAnything(env, st, info) == Ok(rv, st.(rem := rest)) <==> Survives(env, info, rv)
  {
    ReadExact(env, st, info, Lower(env, info, rv), rest);
    RoundTripIff(env, info, rv);
  }
}
