/** StableVector of fb303: a vector whose elements never move, kept in levels of doubling size. */
module StableVector {
  import opened Bits

  const K_INITIAL_SIZE_POW_OF_2 := 10
  const K_INITIAL_VECTOR_SIZE := 1024
  const K_MAX_LEVELS := 64

  /** `1 << 31` overflows a C int, so indices stay below 2^31. */
  type Index = n: nat | n < TWO31

  // ----- which -----

  function BitLength(u: nat): nat {
    if u == 0 then 0 else 1 + BitLength(u / 2)
  }

  /** __builtin_clz on 32 bits. */
  function Clz(u: nat): int {
    32 - BitLength(u)
  }

  datatype Place = Place(vno: nat, idx: int)

  /** Level and element of an index. */
  function Which(n: Index): Place
  {
    if n < K_INITIAL_VECTOR_SIZE then Place(0, n)
    else
      var upper := Shr(n, K_INITIAL_SIZE_POW_OF_2);
      BitLengthFits(n);
      var vno := 32 - Clz(upper);
      Place(vno, n - Shl(1, vno + K_INITIAL_SIZE_POW_OF_2 - 1))
  }

  /** The size expand gives a level. */
  function LevelSize(level: nat): (size: nat)
    ensures size > 0
  {
    if level == 0 then K_INITIAL_VECTOR_SIZE else Shl1(level - 1 + K_INITIAL_SIZE_POW_OF_2)
  }

  function Shl1(k: nat): (r: nat)
    ensures r > 0 && r == Pow2(k)
  {
    ShlOne(k);
    Shl(1, k)
  }

  /** The index kept at a place. */
  function IndexOf(p: Place): int {
    if p.vno == 0 then p.idx else LevelSize(p.vno) + p.idx
  }

  predicate IsPlace(p: Place) {
    p.vno <= 21 && 0 <= p.idx < LevelSize(p.vno)
  }

  lemma {:induction false} BitLengthBounds(u: nat)
    ensures u > 0 ==> BitLength(u) > 0 && Pow2(BitLength(u) - 1) <= u
    ensures u < Pow2(BitLength(u))
  {
    if u > 0 { BitLengthBounds(u / 2); }
  }

  lemma {:induction false} BitLengthUnique(u: nat, k: nat)
    requires k > 0 && Pow2(k - 1) <= u < Pow2(k)
    ensures BitLength(u) == k
  {
    if k > 1 { BitLengthUnique(u / 2, k - 1); }
  }

  lemma {:induction false} BitLengthMono(u: nat, k: nat)
    requires u < Pow2(k)
    ensures BitLength(u) <= k
  {
    if k > 0 && u > 0 { BitLengthMono(u / 2, k - 1); }
  }

  lemma Pow2Ten()
    ensures Pow2(10) == 1024 && Pow2(21) == 0x20_0000 && Pow2(31) == TWO31
  {
    Pow2Values();
    assert Pow2(21) == Pow2(10) * Pow2(11) by { Pow2Add(10, 11); }
  }

  lemma UpperIs(n: nat)
    ensures Shr(n, K_INITIAL_SIZE_POW_OF_2) == n / 1024
  {
    hide Shr;
    Pow2Ten();
    ShrIsDiv(n, K_INITIAL_SIZE_POW_OF_2);
  }

  lemma BitLengthFits(n: nat)
    requires n < TWO31
    ensures BitLength(Shr(n, K_INITIAL_SIZE_POW_OF_2)) <= 21
  {
    hide Pow2, Shr, BitLength;
    Pow2Ten();
    UpperIs(n);
    BitLengthMono(n / 1024, 21);
  }

  lemma LevelSizeIs(level: nat)
    requires level > 0
    ensures LevelSize(level) == 1024 * Pow2(level - 1)
  {
    hide Pow2, Shl;
    Pow2Ten();
    Pow2Add(level - 1, 10);
  }

  /** which maps every index below 2^31 to a place inside the level's size, and the place names the
      index. */
  lemma WhichInBounds(n: nat)
    requires n < TWO31
    ensures IsPlace(Which(n)) && IndexOf(Which(n)) == n
  {
    hide Pow2, Shl, Shr, BitLength, LevelSize;
    if n < K_INITIAL_VECTOR_SIZE {
      FirstLevel();
    } else {
      UpperIs(n);
      BitLengthFits(n);
      var upper := n / 1024;
      BitLengthBounds(upper);
      var vno := BitLength(upper);
      LevelSizeIs(vno);
      assert Shl(1, vno + 9) == LevelSize(vno) by { LevelIsShl(vno); }
      assert Pow2(vno) == 2 * Pow2(vno - 1) by { PowStep(vno); }
    }
  }

  lemma FirstLevel()
    ensures LevelSize(0) == K_INITIAL_VECTOR_SIZE
  {
  }

  lemma LevelIsShl(vno: nat)
    requires vno > 0
    ensures Shl(1, vno + 9) == LevelSize(vno)
  {
  }

  lemma PowStep(k: nat)
    requires k > 0
    ensures Pow2(k) == 2 * Pow2(k - 1)
  {
  }

  /** Every place inside a level belongs to exactly one index below 2^31: with WhichInBounds, which
      is a bijection. */
  lemma WhichOnto(p: Place)
    requires IsPlace(p)
    ensures 0 <= IndexOf(p) < TWO31 && Which(IndexOf(p)) == p
  {
    hide Pow2, Shl, Shr, BitLength, LevelSize;
    FirstLevel();
    if p.vno > 0 {
      var n := IndexOf(p);
      LevelSizeIs(p.vno);
      PowStep(p.vno);
      Pow2Ten();
      PowMono(p.vno, 21);
      UpperIs(n);
      assert n / 1024 < Pow2(p.vno) && Pow2(p.vno - 1) <= n / 1024;
      BitLengthUnique(n / 1024, p.vno);
      LevelIsShl(p.vno);
    }
  }

  lemma {:induction false} PowMono(a: nat, b: nat)
    requires a <= b
    ensures Pow2(a) <= Pow2(b)
  {
    if a < b { PowMono(a, b - 1); }
  }

  // ----- the sequential vector -----

  lemma AllInBounds()
    ensures forall n: nat | n < TWO31 :: IsPlace(Which(n))
  {
    forall n: nat | n < TWO31
      ensures IsPlace(Which(n))
    {
      WhichInBounds(n);
    }
  }

  class StableVector<T(0)> {
    /** What a new vector<T> holds. */
    const initial: T
    var size: nat
    var vectLvl: nat
    var vects: seq<array<T>>
    ghost var accessed: set<nat>

    ghost predicate Valid()
      reads this
    {
      && |vects| == vectLvl + 1 <= 22
      && (forall v | 0 <= v < |vects| :: vects[v].Length == LevelSize(v))
      && (forall v, w | 0 <= v < w < |vects| :: vects[v] != vects[w])
      && (forall n | n in accessed :: n < size)
      && (size > 0 ==> size - 1 in accessed)
    }

    /** The vector as a total map: an element that no level holds yet is as its level will make it. */
    ghost function At(n: nat): T
      requires Valid() && n < TWO31
      reads this, vects
    {
      WhichInBounds(n);
      var p := Which(n);
      if p.vno < |vects| then vects[p.vno][p.idx] else initial
    }

    constructor (initial: T)
      ensures Valid() && size == 0 && accessed == {} && fresh(vects)
      ensures this.initial == initial
      ensures forall n: nat | n < TWO31 :: At(n) == initial
    {
      this.initial := initial;
      size, vectLvl, accessed := 0, 0, {};
      var storageVector := new T[LevelSize(0)](_ => initial);
      vects := [storageVector];
      new;
      AllInBounds();
    }

    // one turn of expand's loop
    method AddLevel()
      requires Valid() && vectLvl < 21
      modifies `vectLvl, `vects
      ensures Valid() && vectLvl == old(vectLvl) + 1
      ensures old(vects) <= vects && |vects| == |old(vects)| + 1 && fresh(vects[|old(vects)|])
      ensures forall n: nat | n < TWO31 :: At(n) == old(At(n))
    {
      var levelVect := new T[Shl1(vectLvl + K_INITIAL_SIZE_POW_OF_2)](_ => initial);
      vects := vects + [levelVect];
      vectLvl := vectLvl + 1;
      forall n: nat | n < TWO31
        ensures At(n) == old(At(n))
      {
        WhichInBounds(n);
      }
    }

    method Expand(level: nat)
      requires Valid() && level <= 21
      modifies `vectLvl, `vects
      ensures Valid() && vectLvl == if level > old(vectLvl) then level else old(vectLvl)
      ensures old(vects) <= vects && fresh(set v | v in vects[|old(vects)|..])
      ensures forall n: nat | n < TWO31 :: At(n) == old(At(n))
    {
      while level > vectLvl
        invariant Valid() && old(vectLvl) <= vectLvl && (vectLvl <= level || vectLvl == old(vectLvl))
        invariant old(vects) <= vects && fresh(set v | v in vects[|old(vects)|..])
        invariant forall n: nat | n < TWO31 :: At(n) == old(At(n))
      {
        AddLevel();
      }
    }

    /** Finds an element and makes sure its level is there. No element changes value or place. */
    method Locate(n: nat) returns (p: Place)
      requires Valid() && n < TWO31
      modifies this
      ensures Valid() && p == Which(n) && p.vno < |vects| && 0 <= p.idx < vects[p.vno].Length
      ensures old(vects) <= vects && fresh(set v | v in vects[|old(vects)|..])
      ensures forall m: nat | m < TWO31 :: At(m) == old(At(m))
      ensures accessed == old(accessed) + {n} && size == if n >= old(size) then n + 1 else old(size)
    {
      WhichInBounds(n);
      if n >= size {
        size := n + 1;
      }
      accessed := accessed + {n};
      p := Which(n);
      if p.vno > vectLvl {
        Expand(p.vno);
      }
    }

    // operator[] as an rvalue
    method Get(n: nat) returns (x: T)
      requires Valid() && n < TWO31
      modifies this
      ensures Valid() && old(vects) <= vects && fresh(set v | v in vects[|old(vects)|..])
      ensures x == old(At(n)) && forall m: nat | m < TWO31 :: At(m) == old(At(m))
      ensures accessed == old(accessed) + {n} && size == if n >= old(size) then n + 1 else old(size)
    {
      var p := Locate(n);
      x := vects[p.vno][p.idx];
    }

    // operator[] as an lvalue
    method Set(n: nat, x: T)
      requires Valid() && n < TWO31
      modifies this, vects
      ensures Valid() && old(vects) <= vects && fresh(set v | v in vects[|old(vects)|..])
      ensures forall m: nat | m < TWO31 :: At(m) == if m == n then x else old(At(m))
      ensures accessed == old(accessed) + {n} && size == if n >= old(size) then n + 1 else old(size)
    {
      var p := Locate(n);
      ghost var was := map m: nat | m < TWO31 :: At(m);
      vects[p.vno][p.idx] := x;
      forall m: nat | m < TWO31
        ensures At(m) == if m == n then x else was[m]
      {
        WhichInBounds(m);
        if Which(m) == Which(n) {
          OnePlace(m, n);
        }
      }
    }

    /** One more than the largest index ever accessed. */
    method Size() returns (r: nat)
      requires Valid()
      ensures r == size
      ensures accessed == {} ==> r == 0
      ensures accessed != {} ==> r > 0 && r - 1 in accessed && forall n | n in accessed :: n <= r - 1
    {
      r := size;
    }
  }

  lemma OnePlace(m: nat, n: nat)
    requires m < TWO31 && n < TWO31 && Which(m) == Which(n)
    ensures m == n
  {
    WhichInBounds(m);
    WhichInBounds(n);
  }
}
