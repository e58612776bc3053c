/** The order in which a struct class lists its field ids. */
module FieldIds {
  lemma {:induction false} MinExists(s: set<int>)
    requires s != {}
    ensures exists m :: m in s && forall x | x in s :: m <= x
    decreases |s|
  {
    assert (forall x :: x !in s) ==> s == {};
    var a :| a in s;
    var t := s - {a};
    if t == {} {
      assert s == {a};
    } else {
      MinExists(t);
      var b :| b in t && forall x | x in t :: b <= x;
      var m := if a < b then a else b;
      assert m in s;
      forall x | x in s
        ensures m <= x
      {
        assert x == a || x in t;
      }
    }
  }

  /** sorted_field_ids */
  function SortedIds(s: set<int>): (ids: seq<int>)
    ensures forall id :: id in ids <==> id in s
    decreases |s|
  {
    if s == {} then []
    else
      MinExists(s);
      var m :| m in s && forall x | x in s :: m <= x;
      [m] + SortedIds(s - {m})
  }

  lemma {:induction false} SortedIdsIncrease(s: set<int>, i: nat, j: nat)
    requires i < j < |SortedIds(s)|
    ensures SortedIds(s)[i] < SortedIds(s)[j]
    decreases |s|
  {
    var ids := SortedIds(s);
    var rest := SortedIds(s - {ids[0]});
    assert ids == [ids[0]] + rest;
    if i > 0 {
      SortedIdsIncrease(s - {ids[0]}, i - 1, j - 1);
    } else {
      assert rest[j - 1] in rest;
    }
  }
}
