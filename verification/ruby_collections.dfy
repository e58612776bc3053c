/** What Ruby's Set and Hash hold after the operations the reader of struct.c does on them. */
module RubyCollections {
  import opened Wrappers
  import opened Schema
  import opened SchemaWrite

  // ----- Set.new -----

  /** Where an item first occurs. */
  function First(xs: seq<RVal>, x: RVal): (i: nat)
    requires x in xs
    ensures i < |xs| && xs[i] == x && x !in xs[..i]
  {
    if xs[0] == x then 0 else 1 + First(xs[1..], x)
  }

  lemma {:induction false} FirstSnoc(xs: seq<RVal>, x: RVal, y: RVal)
    requires y in xs + [x]
    ensures First(xs + [x], y) == if y in xs then First(xs, y) else |xs|
    decreases xs
  {
    if xs != [] {
      assert (xs + [x])[1..] == xs[1..] + [x];
      if xs[0] != y {
        FirstSnoc(xs[1..], x, y);
      }
    }
  }

  lemma {:induction false} SetNewSnoc(acc: seq<RVal>, xs: seq<RVal>, x: RVal)
    ensures SetNew(acc, xs + [x]) == SetAdd(SetNew(acc, xs), x)
    decreases xs
  {
    if xs == [] {
      assert xs + [x] == [x];
    } else {
      assert (xs + [x])[1..] == xs[1..] + [x];
      SetNewSnoc(SetAdd(acc, xs[0]), xs[1..], x);
    }
  }

  predicate InFirstOrder(r: seq<RVal>, xs: seq<RVal>)
    requires forall x | x in r :: x in xs
  {
    forall i, j | 0 <= i < j < |r| :: First(xs, r[i]) < First(xs, r[j])
  }

  /** Set.new: each item of the list once, in order of first occurrence, and nothing else. */
  lemma {:induction false} SetNewIs(xs: seq<RVal>)
    ensures var r := SetNew([], xs);
            Distinct(r) && (forall x :: x in r <==> x in xs) && InFirstOrder(r, xs)
    decreases |xs|
  {
    if xs != [] {
      var before, x := xs[..|xs| - 1], xs[|xs| - 1];
      assert xs == before + [x];
      SetNewIs(before);
      SetNewSnoc([], before, x);
      var r, r' := SetNew([], before), SetNew([], xs);
      assert x in before <==> x in r;
      forall i, j | 0 <= i < j < |r'|
        ensures r'[i] in xs && r'[j] in xs && First(xs, r'[i]) < First(xs, r'[j]) && r'[i] != r'[j]
      {
        FirstSnoc(before, x, r'[i]);
        FirstSnoc(before, x, r'[j]);
        assert r[i] in r;
      }
    }
  }

  lemma {:induction false} SetNewLength(acc: seq<RVal>, xs: seq<RVal>)
    ensures |SetNew(acc, xs)| <= |acc| + |xs|
    ensures |SetNew(acc, xs)| == |acc| + |xs| ==> SetNew(acc, xs) == acc + xs
    ensures Distinct(acc + xs) ==> SetNew(acc, xs) == acc + xs
    decreases |xs|
  {
    if xs == [] {
      assert acc + xs == acc;
    } else {
      SetNewLength(SetAdd(acc, xs[0]), xs[1..]);
      assert acc + [xs[0]] + xs[1..] == acc + xs;
      if xs[0] in acc {
        var i :| 0 <= i < |acc| && acc[i] == xs[0];
        assert (acc + xs)[i] == (acc + xs)[|acc|];
      }
    }
  }

  lemma SetNewIff(r: seq<RVal>, es: seq<RVal>)
    requires |r| == |es| && Distinct(es)
    ensures SetNew([], r) == es <==> r == es
  {
    SetNewLength([], r);
    assert [] + r == r;
  }

  // ----- Hash#[]= -----

  /** Hash#[] */
  function Fetch(ps: seq<Pair>, k: RVal): Option<RVal> {
    if ps == [] then None else if ps[0].k == k then Some(ps[0].v) else Fetch(ps[1..], k)
  }

  function KeysOf(ps: seq<Pair>): seq<RVal> {
    if ps == [] then [] else [ps[0].k] + KeysOf(ps[1..])
  }

  /** Hash#[]=: the key then gives the value, every other key what it gave, and the keys keep their
      order, a new one coming last. */
  lemma {:induction false} HashPutIs(ps: seq<Pair>, k: RVal, v: RVal, other: RVal)
    ensures var r := HashPut(ps, k, v);
            && Fetch(r, other) == (if other == k then Some(v) else Fetch(ps, other))
            && KeysOf(r) == (if k in KeysOf(ps) then KeysOf(ps) else KeysOf(ps) + [k])
    decreases ps
  {
    if ps != [] && ps[0].k != k {
      HashPutIs(ps[1..], k, v, other);
      assert [ps[0].k] + KeysOf(ps[1..]) + [k] == [ps[0].k] + (KeysOf(ps[1..]) + [k]);
    }
  }

  /** HashPut over a list of pairs. */
  function PutAll(acc: seq<Pair>, ps: seq<Pair>): seq<Pair>
    decreases |ps|
  {
    if ps == [] then acc else PutAll(HashPut(acc, ps[0].k, ps[0].v), ps[1..])
  }

  lemma {:induction false} PutAllLength(acc: seq<Pair>, ps: seq<Pair>)
    ensures |PutAll(acc, ps)| <= |acc| + |ps|
    ensures |PutAll(acc, ps)| == |acc| + |ps| ==> PutAll(acc, ps) == acc + ps
    ensures DistinctKeys(acc + ps) ==> PutAll(acc, ps) == acc + ps
    decreases |ps|
  {
    if ps == [] {
      assert acc + ps == acc;
    } else {
      PutAllLength(HashPut(acc, ps[0].k, ps[0].v), ps[1..]);
      assert acc + [ps[0]] + ps[1..] == acc + ps;
      if exists p :: p in acc && p.k == ps[0].k {
        var i :| 0 <= i < |acc| && acc[i].k == ps[0].k;
        assert (acc + ps)[i].k == (acc + ps)[|acc|].k;
      }
    }
  }

  lemma PutAllIff(r: seq<Pair>, ps: seq<Pair>)
    requires |r| == |ps| && DistinctKeys(ps)
    ensures PutAll([], r) == ps <==> r == ps
  {
    PutAllLength([], r);
    assert [] + r == r;
  }

  function LastValue(ps: seq<Pair>, k: RVal): Option<RVal> {
    if ps == [] then None
    else if LastValue(ps[1..], k).Some? then LastValue(ps[1..], k)
    else if ps[0].k == k then Some(ps[0].v)
    else None
  }

  /** A hash filled pair by pair: each key once, in order of first occurrence, with its last value. */
  lemma {:induction false} PutAllIs(acc: seq<Pair>, ps: seq<Pair>, k: RVal)
    ensures var r := PutAll(acc, ps);
            && Fetch(r, k) == (if LastValue(ps, k).Some? then LastValue(ps, k) else Fetch(acc, k))
            && KeysOf(r) == SetNew(KeysOf(acc), KeysOf(ps))
    decreases |ps|
  {
    if ps != [] {
      HashPutIs(acc, ps[0].k, ps[0].v, k);
      PutAllIs(HashPut(acc, ps[0].k, ps[0].v), ps[1..], k);
      assert KeysOf(ps)[1..] == KeysOf(ps[1..]);
    }
  }
}
