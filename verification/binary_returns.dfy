/** When the Go Skip returns, on any bytes at all: the same calls without a bound, with the one way
    of not returning as a result of its own. */
module BinaryReturns {
  import opened Bits
  import opened Wrappers
  import opened Binary

  /** Skip returns, having taken at most so many nested calls and loop turns; or it reaches a struct
      loop that reads the same stale type byte for ever. */
  datatype Outcome = Returns(ok: bool, st: Reader, turns: nat) | Stuck

  /** Nothing unread, and a first buffer byte that is not STOP. */
  predicate Starved(st: Reader)
    requires Valid(st)
  {
    st.rem == [] && st.buffer[0] != 0
  }

  ghost predicate Sound(r: Outcome, st: Reader) {
    r.Returns? ==> Valid(r.st) && |r.st.rem| <= |st.rem|
  }

  function Once<T>(r: Read<T>): Outcome {
    Returns(r.ok, r.st, 1)
  }

  function Then(turns: nat, r: Outcome): Outcome {
    match r
    case Returns(ok, st, more) => Returns(ok, st, turns + more)
    case Stuck => Stuck
  }

  function RunSkip(st: Reader, t: byte): (r: Outcome)
    requires Valid(st)
    ensures Sound(r, st) && (r.Returns? ==> r.turns > 0)
    decreases |st.rem|, 1, 0
  {
    if t == 2 then Once(ReadBool(st))
    else if t == 3 then Once(ReadByte(st))
    else if t == 6 then Once(ReadI16(st))
    else if t == 8 then Once(ReadI32(st))
    else if t == 10 then Once(ReadI64(st))
    else if t == 4 then Once(ReadDouble(st))
    else if t == 11 then Once(ReadString(st))
    else if t == 12 then Then(1, RunFields(st))
    else if t == 13 then
      var h := ReadMapBegin(st);
      if h.ok then Then(1, RunEntries(h.st, h.value.keyType, h.value.elemType, Count(h.value.size)))
      else Once(h)
    else if t == 14 || t == 15 then
      var h := ReadListBegin(st);
      if h.ok then Then(1, RunElems(h.st, h.value.elemType, Count(h.value.size))) else Once(h)
    else Returns(true, st, 1)
  }

  function RunFields(st: Reader): (r: Outcome)
    requires Valid(st)
    ensures Sound(r, st)
    decreases |st.rem|, 0, 0
  {
    if Starved(st) then Stuck
    else
      var h := ReadFieldBegin(st);
      if h.value.typeId == 0 then Returns(true, h.st, 1)
      else
        HeaderConsumes(st);
        match RunSkip(h.st, h.value.typeId)
        case Returns(_, st1, turns) => Then(1 + turns, RunFields(st1))
        case Stuck => Stuck
  }

  function RunElems(st: Reader, et: byte, n: nat): (r: Outcome)
    requires Valid(st)
    ensures Sound(r, st)
    decreases |st.rem|, 2, n
  {
    if n == 0 then Returns(true, st, 0)
    else match RunSkip(st, et)
      case Returns(_, st1, turns) => Then(1 + turns, RunElems(st1, et, n - 1))
      case Stuck => Stuck
  }

  function RunEntries(st: Reader, kt: byte, vt: byte, n: nat): (r: Outcome)
    requires Valid(st)
    ensures Sound(r, st)
    decreases |st.rem|, 2, n
  {
    if n == 0 then Returns(true, st, 0)
    else match RunSkip(st, kt)
      case Stuck => Stuck
      case Returns(_, st1, turns1) => match RunSkip(st1, vt)
        case Returns(_, st2, turns2) => Then(1 + turns1 + turns2, RunEntries(st2, kt, vt, n - 1))
        case Stuck => Stuck
  }

  lemma HeaderConsumes(st: Reader)
    requires Valid(st) && !Starved(st) && ReadFieldBegin(st).value.typeId != 0
    ensures |ReadFieldBegin(st).st.rem| < |st.rem|
  {
  }

  lemma SizeConsumes(st: Reader)
    requires Valid(st)
    ensures ReadMapBegin(st).ok ==> |ReadMapBegin(st).st.rem| < |st.rem|
    ensures ReadListBegin(st).ok ==> |ReadListBegin(st).st.rem| < |st.rem|
  {
  }

  /** Skip with a bound has come to the outcome. */
  predicate Came(r: Option<(bool, Reader)>, o: Outcome) {
    o.Returns? && r == Some((o.ok, o.st))
  }

  // ----- a bounded Skip that returns has the outcome -----

  lemma {:induction false} SkipAgrees(st: Reader, t: byte, fuel: nat)
    requires Valid(st) && Skip(st, t, fuel).Some?
    ensures Came(Skip(st, t, fuel), RunSkip(st, t))
    decreases fuel, 1
  {
    hide ReadBool, ReadByte, ReadI16, ReadI32, ReadI64, ReadDouble, ReadString, ReadMapBegin, ReadListBegin;
    hide RunFields, RunElems, RunEntries, SkipFields, SkipElems, SkipEntries;
    if t == 12 {
      FieldsAgree(st, fuel - 1);
    } else if t == 13 {
      var h := ReadMapBegin(st);
      if h.ok {
        EntriesAgree(h.st, h.value.keyType, h.value.elemType, Count(h.value.size), fuel - 1);
      }
    } else if t == 14 || t == 15 {
      var h := ReadListBegin(st);
      if h.ok {
        ElemsAgree(h.st, h.value.elemType, Count(h.value.size), fuel - 1);
      }
    }
  }

  lemma {:induction false} FieldsAgree(st: Reader, fuel: nat)
    requires Valid(st) && SkipFields(st, fuel).Some?
    ensures Came(SkipFields(st, fuel), RunFields(st))
    decreases fuel, 0
  {
    hide ReadFieldBegin, Skip, RunSkip;
    if Starved(st) {
      SkipFieldsDiverges(st, fuel);
    } else {
      var h := ReadFieldBegin(st);
      if h.value.typeId != 0 {
        SkipAgrees(h.st, h.value.typeId, fuel - 1);
        FieldsAgree(Skip(h.st, h.value.typeId, fuel - 1).value.1, fuel - 1);
      }
    }
  }

  lemma {:induction false} ElemsAgree(st: Reader, et: byte, n: nat, fuel: nat)
    requires Valid(st) && SkipElems(st, et, n, fuel).Some?
    ensures Came(SkipElems(st, et, n, fuel), RunElems(st, et, n))
    decreases fuel, 0
  {
    hide Skip, RunSkip;
    if n > 0 {
      SkipAgrees(st, et, fuel - 1);
      ElemsAgree(Skip(st, et, fuel - 1).value.1, et, n - 1, fuel - 1);
    }
  }

  lemma {:induction false} EntriesAgree(st: Reader, kt: byte, vt: byte, n: nat, fuel: nat)
    requires Valid(st) && SkipEntries(st, kt, vt, n, fuel).Some?
    ensures Came(SkipEntries(st, kt, vt, n, fuel), RunEntries(st, kt, vt, n))
    decreases fuel, 0
  {
    hide Skip, RunSkip;
    if n > 0 {
      SkipAgrees(st, kt, fuel - 1);
      var st1 := Skip(st, kt, fuel - 1).value.1;
      SkipAgrees(st1, vt, fuel - 1);
      EntriesAgree(Skip(st1, vt, fuel - 1).value.1, kt, vt, n - 1, fuel - 1);
    }
  }

  // ----- an outcome is reached within its turns -----

  lemma {:induction false} SkipComes(st: Reader, t: byte, fuel: nat)
    requires Valid(st) && RunSkip(st, t).Returns? && fuel >= RunSkip(st, t).turns
    ensures Came(Skip(st, t, fuel), RunSkip(st, t))
    decreases |st.rem|, 1, 0
  {
    hide ReadBool, ReadByte, ReadI16, ReadI32, ReadI64, ReadDouble, ReadString, ReadMapBegin, ReadListBegin;
    hide RunFields, SkipFields, RunElems, SkipElems, RunEntries, SkipEntries;
    if t == 12 {
      FieldsCome(st, fuel - 1);
    } else if t == 13 {
      hide RunSkip, Skip;
      MapComes(st, fuel);
    } else if t == 14 || t == 15 {
      hide RunSkip, Skip;
      ListComes(st, t, fuel);
    }
  }

  lemma MapUnfolds(st: Reader, fuel: nat)
    requires Valid(st) && fuel > 0
    ensures var h := ReadMapBegin(st); var n := Count(h.value.size);
            && RunSkip(st, 13)
               == (if h.ok then Then(1, RunEntries(h.st, h.value.keyType, h.value.elemType, n)) else Once(h))
            && Skip(st, 13, fuel)
               == (if h.ok then SkipEntries(h.st, h.value.keyType, h.value.elemType, n, fuel - 1)
                   else Some((false, h.st)))
  {
    hide ReadBool, ReadByte, ReadI16, ReadI32, ReadI64, ReadDouble, ReadString, ReadMapBegin, ReadListBegin;
    hide RunFields, SkipFields, RunElems, SkipElems, RunEntries, SkipEntries;
  }

  lemma ListUnfolds(st: Reader, t: byte, fuel: nat)
    requires Valid(st) && (t == 14 || t == 15) && fuel > 0
    ensures var h := ReadListBegin(st); var n := Count(h.value.size);
            && RunSkip(st, t) == (if h.ok then Then(1, RunElems(h.st, h.value.elemType, n)) else Once(h))
            && Skip(st, t, fuel)
               == (if h.ok then SkipElems(h.st, h.value.elemType, n, fuel - 1) else Some((false, h.st)))
  {
    hide ReadBool, ReadByte, ReadI16, ReadI32, ReadI64, ReadDouble, ReadString, ReadMapBegin, ReadListBegin;
    hide RunFields, SkipFields, RunElems, SkipElems, RunEntries, SkipEntries;
  }

  lemma {:induction false} MapComes(st: Reader, fuel: nat)
    requires Valid(st) && RunSkip(st, 13).Returns? && fuel >= RunSkip(st, 13).turns
    ensures Came(Skip(st, 13, fuel), RunSkip(st, 13))
    decreases |st.rem|, 0, 0
  {
    hide RunSkip, Skip, ReadMapBegin, RunEntries, SkipEntries;
    SizeConsumes(st);
    MapUnfolds(st, fuel);
    var h := ReadMapBegin(st);
    if h.ok {
      EntriesCome(h.st, h.value.keyType, h.value.elemType, Count(h.value.size), fuel - 1);
    }
  }

  lemma {:induction false} ListComes(st: Reader, t: byte, fuel: nat)
    requires Valid(st) && (t == 14 || t == 15) && RunSkip(st, t).Returns? && fuel >= RunSkip(st, t).turns
    ensures Came(Skip(st, t, fuel), RunSkip(st, t))
    decreases |st.rem|, 0, 0
  {
    hide RunSkip, Skip, ReadListBegin, RunElems, SkipElems;
    SizeConsumes(st);
    ListUnfolds(st, t, fuel);
    var h := ReadListBegin(st);
    if h.ok {
      ElemsCome(h.st, h.value.elemType, Count(h.value.size), fuel - 1);
    }
  }

  lemma {:induction false} FieldsCome(st: Reader, fuel: nat)
    requires Valid(st) && RunFields(st).Returns? && fuel >= RunFields(st).turns
    ensures Came(SkipFields(st, fuel), RunFields(st))
    decreases |st.rem|, 0, 0
  {
    hide ReadFieldBegin, Skip, RunSkip;
    var h := ReadFieldBegin(st);
    if h.value.typeId != 0 {
      HeaderConsumes(st);
      SkipComes(h.st, h.value.typeId, fuel - 1);
      FieldsCome(RunSkip(h.st, h.value.typeId).st, fuel - 1);
    }
  }

  lemma {:induction false} ElemsCome(st: Reader, et: byte, n: nat, fuel: nat)
    requires Valid(st) && RunElems(st, et, n).Returns? && fuel >= RunElems(st, et, n).turns
    ensures Came(SkipElems(st, et, n, fuel), RunElems(st, et, n))
    decreases |st.rem|, 2, n
  {
    hide Skip, RunSkip;
    if n > 0 {
      SkipComes(st, et, fuel - 1);
      ElemsCome(RunSkip(st, et).st, et, n - 1, fuel - 1);
    }
  }

  lemma {:induction false} EntriesCome(st: Reader, kt: byte, vt: byte, n: nat, fuel: nat)
    requires Valid(st) && RunEntries(st, kt, vt, n).Returns? && fuel >= RunEntries(st, kt, vt, n).turns
    ensures Came(SkipEntries(st, kt, vt, n, fuel), RunEntries(st, kt, vt, n))
    decreases |st.rem|, 2, n
  {
    hide Skip, RunSkip;
    if n > 0 {
      SkipComes(st, kt, fuel - 1);
      var st1 := RunSkip(st, kt).st;
      SkipComes(st1, vt, fuel - 1);
      EntriesCome(RunSkip(st1, vt).st, kt, vt, n - 1, fuel - 1);
    }
  }

  /** On every byte string, well formed or not, and for every type: Skip fails to return exactly when
      its run comes to a struct loop with nothing unread and a stale type byte that is not STOP; and
      when it returns, it is with this outcome, under any bound that suffices. */
  lemma SkipReturnsIff(st: Reader, t: byte)
    requires Valid(st)
    ensures (exists fuel: nat :: Skip(st, t, fuel).Some?) <==> RunSkip(st, t).Returns?
    ensures forall fuel: nat | Skip(st, t, fuel).Some? :: Came(Skip(st, t, fuel), RunSkip(st, t))
  {
    hide Skip, RunSkip;
    forall fuel: nat | Skip(st, t, fuel).Some?
      ensures Came(Skip(st, t, fuel), RunSkip(st, t))
    {
      SkipAgrees(st, t, fuel);
    }
    if RunSkip(st, t).Returns? {
      SkipComes(st, t, RunSkip(st, t).turns);
    }
  }
}
