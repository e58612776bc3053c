/** TBinaryProtocol of the Go library: one object with an eight-byte scratch buffer that every
    integer passes through, in both directions. */
module BinaryProtocol {
  import opened Bits
  import opened Wire
  import opened Wrappers
  import B = Binary
  import W = CompactWriter
  import M = Messages

  // ----- the write calls -----

  /** Bytes of one write call. The binary protocol keeps no state between calls. */
  function CallBytes(c: W.Call): seq<byte>
    requires W.ValidCall(c)
  {
    match c
    case StructBegin => []
    case StructEnd => []
    case FieldBegin(t, id) => [B.TypeByte(t)] + B.BigEndian(B.U16(id), 2)
    case FieldStop => [0]
    case MapBegin(kt, vt, size) => [B.TypeByte(kt), B.TypeByte(vt)] + B.BigEndian(size, 4)
    case ListBegin(et, size) => [B.TypeByte(et)] + B.BigEndian(size, 4)
    case SetBegin(et, size) => [B.TypeByte(et)] + B.BigEndian(size, 4)
    case Bool(b) => [if b then 1 else 0]
    case Byte(i) => [i % 256]
    case I16Value(i) => B.BigEndian(B.U16(i), 2)
    case I32Value(i) => B.BigEndian(U32(i), 4)
    case I64Value(i) => B.BigEndian(U64(i), 8)
    case Double(bits) => B.Reversed(bits)
    case Binary(bytes) => B.BigEndian(|bytes|, 4) + bytes
  }

  predicate ValidCalls(cs: seq<W.Call>) {
    forall c | c in cs :: W.ValidCall(c)
  }

  function RunBytes(cs: seq<W.Call>): seq<byte>
    requires ValidCalls(cs)
  {
    if cs == [] then [] else CallBytes(cs[0]) + RunBytes(cs[1..])
  }

  lemma {:induction false} RunConcat(a: seq<W.Call>, b: seq<W.Call>)
    requires ValidCalls(a) && ValidCalls(b)
    ensures ValidCalls(a + b) && RunBytes(a + b) == RunBytes(a) + RunBytes(b)
  {
    if a == [] {
      assert a + b == b;
    } else {
      assert (a + b)[1..] == a[1..] + b;
      RunConcat(a[1..], b);
      Concat3(CallBytes(a[0]), RunBytes(a[1..]), RunBytes(b));
    }
  }

  lemma RunOne(c: W.Call)
    requires W.ValidCall(c)
    ensures ValidCalls([c]) && RunBytes([c]) == CallBytes(c)
  {
    assert [c][1..] == [];
  }

  lemma RunCons(c: W.Call, cs: seq<W.Call>)
    requires W.ValidCall(c) && ValidCalls(cs)
    ensures ValidCalls([c] + cs) && RunBytes([c] + cs) == CallBytes(c) + RunBytes(cs)
  {
    RunOne(c);
    RunConcat([c], cs);
  }

  /** The calls that write a tree, whichever protocol they drive, write its binary encoding here. */
  lemma {:induction false} BinaryWrites(v: Value)
    requires WellFormed(v)
    ensures ValidCalls(W.Calls(v)) && RunBytes(W.Calls(v)) == B.Encode(v)
    decreases v, 1
  {
    hide RunBytes;
    match v
    case VStruct(fs) =>
      WritesFields(fs);
      RunOne(W.FieldStop);
      RunOne(W.StructEnd);
      RunCons(W.FieldStop, [W.StructEnd]);
      assert W.END == [W.FieldStop] + [W.StructEnd];
      RunConcat(W.CallsFields(fs), W.END);
      RunCons(W.StructBegin, W.CallsFields(fs) + W.END);
    case VMap(kt, vt, es) =>
      WritesEntries(es);
      RunCons(W.MapBegin(kt, vt, |es|), W.CallsEntries(es));
    case VSet(et, es) =>
      WritesElems(es);
      RunCons(W.SetBegin(et, |es|), W.CallsElems(es));
    case VList(et, es) =>
      WritesElems(es);
      RunCons(W.ListBegin(et, |es|), W.CallsElems(es));
    case _ =>
      var c := W.Calls(v)[0];
      assert W.Calls(v) == [c];
      RunOne(c);
  }

  lemma {:induction false} WritesFields(fs: seq<Field>)
    requires WellFormedFields(fs)
    ensures ValidCalls(W.CallsFields(fs)) && RunBytes(W.CallsFields(fs)) + [0] == B.EncodeFields(fs)
    decreases fs, 0
  {
    if fs != [] {
      hide RunBytes, B.EncodeField;
      WritesField(fs[0]);
      WritesFields(fs[1..]);
      RunConcat(W.CallsField(fs[0]), W.CallsFields(fs[1..]));
      Concat3(B.EncodeField(fs[0]), RunBytes(W.CallsFields(fs[1..])), [0]);
    }
  }

  lemma {:induction false} WritesField(f: Field)
    requires IsInt16(f.id) && WellFormed(f.v)
    ensures ValidCalls(W.CallsField(f)) && RunBytes(W.CallsField(f)) == B.EncodeField(f)
    decreases f, 0
  {
    BinaryWrites(f.v);
    RunCons(W.FieldBegin(TypeOf(f.v), f.id), W.Calls(f.v));
  }

  lemma {:induction false} WritesEntries(es: seq<Entry>)
    requires WellFormedEntries(es)
    ensures ValidCalls(W.CallsEntries(es)) && RunBytes(W.CallsEntries(es)) == B.EncodeEntries(es)
    decreases es, 0
  {
    if es != [] {
      hide RunBytes;
      WritesEntry(es[0]);
      WritesEntries(es[1..]);
      RunConcat(W.CallsEntry(es[0]), W.CallsEntries(es[1..]));
    }
  }

  lemma {:induction false} WritesEntry(e: Entry)
    requires WellFormed(e.k) && WellFormed(e.v)
    ensures ValidCalls(W.CallsEntry(e)) && RunBytes(W.CallsEntry(e)) == B.EncodeEntry(e)
    decreases e, 0
  {
    BinaryWrites(e.k);
    BinaryWrites(e.v);
    RunConcat(W.Calls(e.k), W.Calls(e.v));
  }

  lemma {:induction false} WritesElems(es: seq<Value>)
    requires WellFormedElems(es)
    ensures ValidCalls(W.CallsElems(es)) && RunBytes(W.CallsElems(es)) == B.EncodeElems(es)
    decreases es, 0
  {
    if es != [] {
      hide RunBytes;
      BinaryWrites(es[0]);
      WritesElems(es[1..]);
      RunConcat(W.Calls(es[0]), W.CallsElems(es[1..]));
    }
  }

  // ----- the object -----

  class TBinaryProtocol {
    var trans: seq<byte>
    var input: seq<byte>
    const buffer: array<byte>
    const strictRead: bool
    const strictWrite: bool

    constructor (input: seq<byte>, strictRead: bool, strictWrite: bool)
      ensures Valid() && fresh(buffer) && trans == [] && State() == B.Reader(input, seq(8, _ => 0))
      ensures this.strictRead == strictRead && this.strictWrite == strictWrite
    {
      this.input, trans, buffer := input, [], new byte[8](_ => 0);
      this.strictRead, this.strictWrite := strictRead, strictWrite;
    }

    predicate Valid() {
      buffer.Length == 8
    }

    function State(): (st: B.Reader)
      requires Valid()
      reads this, buffer
      ensures B.Valid(st)
    {
      B.Reader(input, buffer[..])
    }

    // binary.BigEndian.PutUint16, 32 and 64 into the scratch buffer
    method PutUint(n: nat, k: nat)
      requires Valid() && k <= 8
      modifies buffer
      ensures buffer[..k] == B.BigEndian(n, k)
    {
      var i, left := k, n;
      while i > 0
        invariant 0 <= i <= k
        invariant B.BigEndian(left, i) + buffer[i..k] == B.BigEndian(n, k)
      {
        i := i - 1;
        ghost var done := buffer[i + 1..k];
        buffer[i] := left % 256;
        assert buffer[i..k] == [left % 256] + done;
        Concat3(B.BigEndian(left / 256, i), [left % 256], done);
        left := left / 256;
      }
    }

    method WriteByte(value: byte)
      modifies `trans
      ensures trans == old(trans) + [value]
    {
      trans := trans + [value];
    }

    method WriteI16(value: int)
      requires Valid() && IsInt16(value)
      modifies `trans, buffer
      ensures trans == old(trans) + CallBytes(W.I16Value(value))
    {
      hide B.BigEndian, B.FromBigEndian;
      PutUint(B.U16(value), 2);
      trans := trans + buffer[..2];
    }

    method WriteI32(value: int)
      requires Valid() && IsInt32(value)
      modifies `trans, buffer
      ensures trans == old(trans) + CallBytes(W.I32Value(value))
    {
      hide B.BigEndian, B.FromBigEndian;
      PutUint(U32(value), 4);
      trans := trans + buffer[..4];
    }

    method WriteI64(value: int)
      requires Valid() && IsInt64(value)
      modifies `trans, buffer
      ensures trans == old(trans) + CallBytes(W.I64Value(value))
    {
      hide B.BigEndian, B.FromBigEndian;
      PutUint(U64(value), 8);
      trans := trans + buffer[..];
      assert buffer[..8] == buffer[..];
    }

    /** The bits of the double travel as an int64. */
    method WriteDouble(bits: seq<byte>)
      requires Valid() && |bits| == 8
      modifies `trans, buffer
      ensures trans == old(trans) + CallBytes(W.Double(bits))
    {
      hide B.BigEndian, B.FromBigEndian;
      var high := B.Reversed(bits);
      var pattern := B.FromBigEndian(high);
      B.FromBigEndianRoundTrip(high);
      assert pattern < TWO64 by { B.EightBytes(); }
      WriteI64(S64(pattern));
      assert U64(S64(pattern)) == pattern;
    }

    method WriteBinary(value: seq<byte>)
      requires Valid() && |value| < TWO31
      modifies `trans, buffer
      ensures trans == old(trans) + CallBytes(W.Binary(value))
    {
      hide B.BigEndian, B.FromBigEndian;
      WriteI32(|value|);
      Concat3(old(trans), B.BigEndian(|value|, 4), value);
      trans := trans + value;
    }

    method WriteBool(value: bool)
      modifies `trans
      ensures trans == old(trans) + CallBytes(W.Bool(value))
    {
      if value {
        WriteByte(1);
      } else {
        WriteByte(0);
      }
    }

    method WriteFieldBegin(t: WireType, id: int)
      requires Valid() && IsInt16(id)
      modifies `trans, buffer
      ensures trans == old(trans) + CallBytes(W.FieldBegin(t, id))
    {
      hide B.BigEndian, B.FromBigEndian;
      WriteByte(B.TypeByte(t));
      WriteI16(id);
      Concat3(old(trans), [B.TypeByte(t)], B.BigEndian(B.U16(id), 2));
    }

    method WriteFieldStop()
      modifies `trans
      ensures trans == old(trans) + CallBytes(W.FieldStop)
    {
      WriteByte(B.TypeByte(STOP));
    }

    method WriteMapBegin(kt: WireType, vt: WireType, size: nat)
      requires Valid() && size < TWO31
      modifies `trans, buffer
      ensures trans == old(trans) + CallBytes(W.MapBegin(kt, vt, size))
    {
      hide B.BigEndian, B.FromBigEndian;
      WriteByte(B.TypeByte(kt));
      WriteByte(B.TypeByte(vt));
      assert trans == old(trans) + [B.TypeByte(kt), B.TypeByte(vt)];
      WriteI32(size);
      Concat3(old(trans), [B.TypeByte(kt), B.TypeByte(vt)], B.BigEndian(size, 4));
    }

    // WriteSetBegin is the same
    method WriteListBegin(et: WireType, size: nat)
      requires Valid() && size < TWO31
      modifies `trans, buffer
      ensures trans == old(trans) + CallBytes(W.ListBegin(et, size))
    {
      hide B.BigEndian, B.FromBigEndian;
      WriteByte(B.TypeByte(et));
      WriteI32(size);
      Concat3(old(trans), [B.TypeByte(et)], B.BigEndian(size, 4));
    }

    method WriteMessageBegin(name: seq<byte>, typeId: int, seqId: int)
      requires Valid() && M.ValidMessage(M.Message(name, typeId, seqId))
      modifies `trans, buffer
      ensures trans == old(trans) + M.BinaryHeader(M.Message(name, typeId, seqId), strictWrite)
    {
      hide B.BigEndian, B.FromBigEndian, Or;
      ghost var seq4, name4 := B.BigEndian(U32(seqId), 4), M.StringBytes(name);
      if strictWrite {
        var version := U32(Or(M.VERSION_1, U32(typeId)));
        ghost var head := B.BigEndian(version, 4);
        WriteI32(S32(version));
        assert U32(S32(version)) == version;
        WriteBinary(name);
        WriteI32(seqId);
        Concat3(old(trans), head, name4);
        Concat3(old(trans), head + name4, seq4);
        Concat3(head, name4, seq4);
      } else {
        WriteBinary(name);
        WriteByte(typeId % 256);
        WriteI32(seqId);
        Concat3(old(trans) + name4, [typeId % 256], seq4);
        Concat3(old(trans), name4, [typeId % 256] + seq4);
      }
    }

    // ----- reading -----

    method ReadAll(n: nat) returns (ok: bool)
      requires Valid() && n <= 8
      modifies `input, buffer
      ensures var r := B.ReadAll(old(State()), n);
              ok == r.ok && State() == r.st && buffer[..n] == r.value
    {
      ghost var was := buffer[..];
      var got := if n <= |input| then n else |input|;
      var i := 0;
      while i < got
        invariant 0 <= i <= got && input == old(input)
        invariant buffer[..i] == input[..i] && buffer[i..] == was[i..]
      {
        buffer[i] := input[i];
        i := i + 1;
      }
      assert buffer[..] == buffer[..got] + buffer[got..];
      assert buffer[..][..n] == buffer[..n];
      ok := n <= |input|;
      input := input[got..];
    }

    method ReadByte() returns (value: byte, ok: bool)
      requires Valid()
      modifies `input, buffer
      ensures B.Read(value, ok, State()) == B.ReadByte(old(State()))
    {
      ok := ReadAll(1);
      value := buffer[0];
      assert value == buffer[..1][0];
    }

    method ReadBool() returns (value: bool, ok: bool)
      requires Valid()
      modifies `input, buffer
      ensures B.Read(value, ok, State()) == B.ReadBool(old(State()))
    {
      var b, e := ReadByte();
      value, ok := true, e;
      if b != 1 {
        value := false;
      }
    }

    method ReadI16() returns (value: int, ok: bool)
      requires Valid()
      modifies `input, buffer
      ensures B.Read(value, ok, State()) == B.ReadI16(old(State()))
    {
      hide B.FromBigEndian;
      ok := ReadAll(2);
      value := S16(B.FromBigEndian(buffer[..2]));
    }

    method ReadI32() returns (value: int, ok: bool)
      requires Valid()
      modifies `input, buffer
      ensures B.Read(value, ok, State()) == B.ReadI32(old(State()))
    {
      hide B.FromBigEndian;
      ok := ReadAll(4);
      value := S32(B.FromBigEndian(buffer[..4]));
    }

    method ReadI64() returns (value: int, ok: bool)
      requires Valid()
      modifies `input, buffer
      ensures B.Read(value, ok, State()) == B.ReadI64(old(State()))
    {
      hide B.FromBigEndian;
      ok := ReadAll(8);
      value := S64(B.FromBigEndian(buffer[..8]));
    }

    method ReadDouble() returns (bits: seq<byte>, ok: bool)
      requires Valid()
      modifies `input, buffer
      ensures B.Read(bits, ok, State()) == B.ReadDouble(old(State()))
    {
      ok := ReadAll(8);
      bits := B.Reversed(buffer[..8]);
    }

    method ReadStringBody(size: int) returns (value: seq<byte>, ok: bool)
      requires Valid()
      modifies `input
      ensures B.Read(value, ok, State()) == B.ReadStringBody(old(State()), size)
    {
      if size < 0 {
        return [], true;
      }
      ok := size <= |input|;
      if ok {
        value, input := input[..size], input[size..];
      } else {
        value, input := input + seq(size - |input|, _ => 0), [];
      }
    }

    method ReadString() returns (value: seq<byte>, ok: bool)
      requires Valid()
      modifies `input, buffer
      ensures B.Read(value, ok, State()) == B.ReadString(old(State()))
    {
      hide B.ReadI32, B.ReadStringBody;
      var size, e := ReadI32();
      if !e {
        return [], false;
      }
      value, ok := ReadStringBody(size);
    }

    method ReadFieldBegin() returns (typeId: byte, id: int, ok: bool)
      requires Valid()
      modifies `input, buffer
      ensures B.Read(B.FieldHead(typeId, id), ok, State()) == B.ReadFieldBegin(old(State()))
    {
      hide B.ReadByte, B.ReadI16;
      typeId, ok := ReadByte();
      id := 0;
      if ok && typeId != 0 {
        id, ok := ReadI16();
      }
    }

    method ReadMapBegin() returns (keyType: byte, valueType: byte, size: int, ok: bool)
      requires Valid()
      modifies `input, buffer
      ensures B.Read(B.Sized(keyType, valueType, size), ok, State()) == B.ReadMapBegin(old(State()))
    {
      hide B.ReadByte, B.ReadI32;
      keyType, valueType, size := 0, 0, 0;
      var k, v, n;
      k, ok := ReadByte();
      if ok {
        v, ok := ReadByte();
        if ok {
          n, ok := ReadI32();
          keyType, valueType, size := k, v, n;
        }
      }
    }

    // ReadSetBegin is the same
    method ReadListBegin() returns (elemType: byte, size: int, ok: bool)
      requires Valid()
      modifies `input, buffer
      ensures B.Read(B.Sized(0, elemType, size), ok, State()) == B.ReadListBegin(old(State()))
    {
      hide B.ReadByte, B.ReadI32;
      elemType, size := 0, 0;
      var e, n;
      e, ok := ReadByte();
      if ok {
        n, ok := ReadI32();
        elemType, size := e, n;
      }
    }

    method ReadMessageBegin() returns (m: M.Message, ok: bool)
      requires Valid()
      modifies `input, buffer
      ensures B.Read(m, ok, State()) == M.ReadBinaryHeader(old(State()), strictRead)
    {
      hide B.ReadByte, B.ReadI32, B.ReadString, B.ReadStringBody, And;
      var size, e := ReadI32();
      m, ok := M.NONE, e;
      if !e {
        return;
      }
      if size < 0 {
        m := m.(typeId := And(U32(size), 0xff));
        if And(U32(size), M.VERSION_MASK) != M.VERSION_1 {
          return m, false;
        }
        var name, seqId;
        name, ok := ReadString();
        m := m.(name := name);
        if ok {
          seqId, ok := ReadI32();
          m := m.(seqId := seqId);
        }
        return;
      }
      if strictRead {
        return m, false;
      }
      var name, typeId, seqId;
      name, ok := ReadStringBody(size);
      m := m.(name := name);
      if ok {
        typeId, ok := ReadByte();
        if ok {
          seqId, ok := ReadI32();
          m := m.(typeId := typeId, seqId := seqId);
        }
      }
    }

    /** Skip over this object, for every run of it that returns. Errors inside a container are
        dropped; only the reads made by this call itself can fail it. */
    method Skip(t: byte, ghost fuel: nat) returns (ok: bool)
      requires Valid() && B.Skip(State(), t, fuel).Some?
      modifies `input, buffer
      ensures Some((ok, State())) == B.Skip(old(State()), t, fuel)
      decreases fuel, 1
    {
      hide B.ReadBool, B.ReadByte, B.ReadI16, B.ReadI32, B.ReadI64, B.ReadDouble, B.ReadString,
        B.ReadMapBegin, B.ReadListBegin, B.SkipFields, B.SkipEntries, B.SkipElems;
      if t == 2 {
        var _, e := ReadBool();
        ok := e;
      } else if t == 3 {
        var _, e := ReadByte();
        ok := e;
      } else if t == 6 {
        var _, e := ReadI16();
        ok := e;
      } else if t == 8 {
        var _, e := ReadI32();
        ok := e;
      } else if t == 10 {
        var _, e := ReadI64();
        ok := e;
      } else if t == 4 {
        var _, e := ReadDouble();
        ok := e;
      } else if t == 11 {
        var _, e := ReadString();
        ok := e;
      } else if t == 12 {
        SkipFields(fuel - 1);
        ok := true;
      } else if t == 13 {
        var keyType, valueType, size, e := ReadMapBegin();
        if e {
          SkipEntries(keyType, valueType, size, fuel - 1);
        }
        ok := e;
      } else if t == 14 || t == 15 {
        var elemType, size, e := ReadListBegin();
        if e {
          SkipElems(elemType, size, fuel - 1);
        }
        ok := e;
      } else {
        ok := true;
      }
    }

    method SkipFields(ghost fuel: nat)
      requires Valid() && B.SkipFields(State(), fuel).Some?
      modifies `input, buffer
      ensures Some((true, State())) == B.SkipFields(old(State()), fuel)
      decreases fuel, 0
    {
      hide B.Skip, B.ReadFieldBegin;
      ghost var left: nat := fuel;
      ghost var whole := B.SkipFields(State(), fuel);
      while true
        invariant left <= fuel && B.SkipFields(State(), left) == whole
        decreases left
      {
        var typeId, _, _ := ReadFieldBegin();
        if typeId == 0 {
          break;
        }
        var _ := Skip(typeId, left - 1);
        left := left - 1;
      }
    }

    method SkipEntries(keyType: byte, valueType: byte, size: int, ghost fuel: nat)
      requires Valid() && B.SkipEntries(State(), keyType, valueType, B.Count(size), fuel).Some?
      modifies `input, buffer
      ensures Some((true, State())) == B.SkipEntries(old(State()), keyType, valueType, B.Count(size), fuel)
      decreases fuel, 0
    {
      hide B.Skip;
      ghost var left: nat := fuel;
      ghost var whole := B.SkipEntries(State(), keyType, valueType, B.Count(size), fuel);
      var i := 0;
      while i < size
        invariant 0 <= i <= B.Count(size) && left <= fuel
        invariant B.SkipEntries(State(), keyType, valueType, B.Count(size) - i, left) == whole
      {
        var _ := Skip(keyType, left - 1);
        var _ := Skip(valueType, left - 1);
        i, left := i + 1, left - 1;
      }
    }

    method SkipElems(elemType: byte, size: int, ghost fuel: nat)
      requires Valid() && B.SkipElems(State(), elemType, B.Count(size), fuel).Some?
      modifies `input, buffer
      ensures Some((true, State())) == B.SkipElems(old(State()), elemType, B.Count(size), fuel)
      decreases fuel, 0
    {
      hide B.Skip;
      ghost var left: nat := fuel;
      ghost var whole := B.SkipElems(State(), elemType, B.Count(size), fuel);
      var i := 0;
      while i < size
        invariant 0 <= i <= B.Count(size) && left <= fuel
        invariant B.SkipElems(State(), elemType, B.Count(size) - i, left) == whole
      {
        var _ := Skip(elemType, left - 1);
        i, left := i + 1, left - 1;
      }
    }
  }
}
