/** CompactProtocol of the Ruby extension: one object with both halves. The write calls meet
    CompactWriter.RubyStep, the read calls the functions of CompactReader. */
module RubyProtocol {
  import opened Bits
  import opened Varint
  import opened Wire
  import opened Wrappers
  import opened Compact
  import W = CompactWriter
  import R = CompactReader

  /** A read call returned what its specification says and left the reader in that state; None is
      a raised exception, after which nothing is promised. */
  ghost predicate Outcome<T>(spec: R.Result<T>, r: Option<T>, now: R.Reader) {
    match spec
    case Ok(v, st) => r == Some(v) && now == st
    case Err => r == None
  }

  /** The extra zero bits of `type & 0x0f` do not matter for a type code. */
  lemma CodeBits(code: byte)
    requires code < 16
    ensures And(code, 0x0f) == code
  {
    SplitNibbles(code);
  }

  class CompactProtocol {
    var written: seq<byte>
    var input: seq<byte>
    var lastField: seq<int>
    var booleanField: Option<int>
    var boolValue: Option<bool>

    constructor (bytes: seq<byte>)
      ensures Writer() == W.Ruby([], [0], None)
      ensures Reader() == R.Reader(bytes, [0], None)
    {
      written, input, lastField, booleanField, boolValue := [], bytes, [0], None, None;
    }

    function Writer(): W.Ruby
      reads this
    {
      W.Ruby(written, lastField, booleanField)
    }

    function Reader(): R.Reader
      reads this
    {
      R.Reader(input, lastField, boolValue)
    }

    predicate Valid()
      reads this
    {
      W.Pending16(booleanField)
    }

    // ----- writing -----

    method WriteByteDirect(b: byte)
      modifies `written
      ensures written == old(written) + [b]
    {
      written := written + [b];
    }

    /** write_varint32 and write_varint64 write byte by byte. */
    method WriteVarint(value: nat)
      requires value < TWO64
      modifies `written
      ensures written == old(written) + EncodeVarint(value)
    {
      var n: nat := value;
      ghost var whole := written + EncodeVarint(value);
      while true
        invariant n < TWO64
        invariant whole == written + EncodeVarint(n)
        decreases n
      {
        VarintTurn(n);
        if And(n, U64(-128)) == 0 {
          WriteByteDirect(And(n, 0x7f));
          break;
        } else {
          Concat3(written, [(n % 128 + 128) as byte], EncodeVarint(n / 128));
          WriteByteDirect(Or(And(n, 0x7f), 0x80));
          n := Shr(n, 7);
        }
      }
    }

    method WriteFieldBeginInternal(t: WireType, id: int, typeOverride: Option<byte>) returns (ok: bool)
      requires IsInt16(id) && (typeOverride.Some? ==> typeOverride.value < 16)
      modifies `written, `lastField
      ensures var code := if typeOverride.Some? then typeOverride.value else CompactType(t);
              match W.RubyField(old(Writer()), id, code)
              case Some(s) => ok && Writer() == s
              case None => !ok
    {
      if lastField == [] {
        return false;
      }
      var lastId := lastField[|lastField| - 1];
      lastField := lastField[..|lastField| - 1];
      var typeToWrite := if typeOverride.Some? then typeOverride.value else CompactType(t);
      assert And(typeToWrite, 0x0f) == typeToWrite by { CodeBits(typeToWrite); }
      var diff := id - lastId;
      if diff > 0 && diff <= 15 {
        assert Or(Shl(diff, 4), typeToWrite) == 16 * diff + typeToWrite by { JoinNibbles(diff, typeToWrite); }
        WriteByteDirect(Or(Shl(diff, 4), And(typeToWrite, 0x0f)));
      } else {
        WriteByteDirect(And(typeToWrite, 0x0f));
        WriteI32(id);
        Concat3(old(written), [typeToWrite], ZigzagVarint32(id));
      }
      lastField := lastField + [id];
      return true;
    }

    method WriteStructBegin()
      requires Valid()
      modifies this
      ensures Some(Writer()) == W.RubyStep(old(Writer()), W.StructBegin) && Valid()
    {
      lastField := lastField + [0];
    }

    method WriteStructEnd()
      requires Valid()
      modifies this
      ensures Some(Writer()) == W.RubyStep(old(Writer()), W.StructEnd) && Valid()
    {
      if lastField != [] {
        lastField := lastField[..|lastField| - 1];
      }
    }

    method WriteFieldBegin(t: WireType, id: int) returns (ok: bool)
      requires Valid() && IsInt16(id)
      modifies this
      ensures match W.RubyStep(old(Writer()), W.FieldBegin(t, id))
              case Some(s) => ok && Writer() == s && Valid()
              case None => !ok
    {
      if t == BOOL {
        booleanField := Some(id);
        return true;
      }
      ok := WriteFieldBeginInternal(t, id, None);
    }

    method WriteFieldStop()
      requires Valid()
      modifies this
      ensures Some(Writer()) == W.RubyStep(old(Writer()), W.FieldStop) && Valid()
    {
      WriteByteDirect(CompactType(STOP));
    }

    method WriteMapBegin(kt: WireType, vt: WireType, size: int)
      requires Valid() && 0 <= size < TWO31
      modifies this
      ensures Some(Writer()) == W.RubyStep(old(Writer()), W.MapBegin(kt, vt, size)) && Valid()
    {
      if size == 0 {
        WriteByteDirect(0);
      } else {
        WriteVarint(size);
        var k, v := CompactType(kt), CompactType(vt);
        assert Or(Shl(k, 4), v) == 16 * k + v by { JoinNibbles(k, v); }
        ghost var types: byte := 16 * k + v;
        WriteByteDirect(Or(Shl(k, 4), v));
        assert written == old(written) + MapHeader(kt, vt, size) by {
          Concat3(old(written), EncodeVarint(size), [types]);
        }
      }
    }

    method WriteCollectionBegin(et: WireType, size: int)
      requires 0 <= size < TWO31
      modifies `written
      ensures written == old(written) + CollectionHeader(et, size)
    {
      var code := CompactType(et);
      if size <= 14 {
        assert Or(Shl(size, 4), code) == 16 * size + code by { JoinNibbles(size, code); }
        WriteByteDirect(Or(Shl(size, 4), code));
      } else {
        assert Or(0xf0, code) == 0xf0 + code by { JoinHighNibble(code); }
        ghost var head: byte := 0xf0 + code;
        WriteByteDirect(Or(0xf0, code));
        WriteVarint(size);
        Concat3(old(written), [head], EncodeVarint(size));
      }
    }

    method WriteListBegin(et: WireType, size: int)
      requires Valid() && 0 <= size < TWO31
      modifies this
      ensures Some(Writer()) == W.RubyStep(old(Writer()), W.ListBegin(et, size)) && Valid()
    {
      WriteCollectionBegin(et, size);
    }

    method WriteSetBegin(et: WireType, size: int)
      requires Valid() && 0 <= size < TWO31
      modifies this
      ensures Some(Writer()) == W.RubyStep(old(Writer()), W.SetBegin(et, size)) && Valid()
    {
      WriteCollectionBegin(et, size);
    }

    method WriteBool(b: bool) returns (ok: bool)
      requires Valid()
      modifies this
      ensures match W.RubyStep(old(Writer()), W.Bool(b))
              case Some(s) => ok && Writer() == s && Valid()
              case None => !ok
    {
      var code: byte := if b then COMPACT_BOOLEAN_TRUE else COMPACT_BOOLEAN_FALSE;
      if booleanField == None {
        WriteByteDirect(code);
        return true;
      } else {
        ok := WriteFieldBeginInternal(BOOL, booleanField.value, Some(code));
        booleanField := None;
      }
    }

    // the cast to int8_t keeps the low eight bits of any integer
    method WriteByte(i: int)
      requires IsInt32(i)
      modifies `written
      ensures written == old(written) + [(i % 256) as byte]
    {
      WriteByteDirect(i % 256);
    }

    // write_i16 is the same call
    method WriteI32(i: int)
      requires IsInt32(i)
      modifies `written
      ensures written == old(written) + ZigzagVarint32(i)
    {
      WriteVarint(U32(Int32ToZigzag(i)));
    }

    method WriteI64(i: int)
      requires IsInt64(i)
      modifies `written
      ensures written == old(written) + ZigzagVarint64(i)
    {
      WriteVarint(U64(Int64ToZigzag(i)));
    }

    method WriteDouble(bits: seq<byte>)
      requires |bits| == 8
      modifies `written
      ensures written == old(written) + bits
    {
      written := written + bits;
    }

    method WriteBinary(buf: seq<byte>)
      requires |buf| < TWO31
      modifies `written
      ensures written == old(written) + (EncodeVarint(|buf|) + buf)
    {
      WriteVarint(|buf|);
      Concat3(old(written), EncodeVarint(|buf|), buf);
      written := written + buf;
    }

    // ----- reading -----

    method ReadByteDirect() returns (r: Option<byte>)
      modifies `input
      ensures Outcome(R.ReadOctet(old(Reader())), r, Reader())
    {
      if input == [] {
        return None;
      }
      r := Some(input[0]);
      input := input[1..];
    }

    method ReadVarintValue() returns (r: Option<int>)
      modifies `input
      ensures Outcome(R.ReadVarint(old(Reader())), r, Reader())
    {
      var v := ReadVarint64(input);
      ReadVarint64IsDecode(input);
      match v
      case None => r := None;
      case Some((n, rest)) =>
        input := rest;
        r := Some(n);
    }

    method ReadAllBytes(size: int) returns (r: Option<seq<byte>>)
      modifies `input
      ensures Outcome(R.ReadAll(old(Reader()), size), r, Reader())
    {
      if size <= 0 {
        return Some([]);
      }
      if size > |input| {
        return None;
      }
      r := Some(input[..size]);
      input := input[size..];
    }

    method ReadStructBegin()
      modifies `lastField
      ensures Reader() == R.StructBegin(old(Reader()))
    {
      lastField := lastField + [0];
    }

    method ReadStructEnd()
      modifies `lastField
      ensures Reader() == R.StructEnd(old(Reader()))
    {
      if lastField != [] {
        lastField := lastField[..|lastField| - 1];
      }
    }

    method ReadI16() returns (r: Option<int>)
      modifies `input
      ensures Outcome(R.ReadI16(old(Reader())), r, Reader())
    {
      var v := ReadVarintValue();
      match v
      case None => r := None;
      case Some(n) => r := Some(S16(ZigzagToInt32(S32(n))));
    }

    method ReadI32() returns (r: Option<int>)
      modifies `input
      ensures Outcome(R.ReadI32(old(Reader())), r, Reader())
    {
      var v := ReadVarintValue();
      match v
      case None => r := None;
      case Some(n) => r := Some(ZigzagToInt32(S32(n)));
    }

    method ReadI64() returns (r: Option<int>)
      modifies `input
      ensures Outcome(R.ReadI64(old(Reader())), r, Reader())
    {
      var v := ReadVarintValue();
      match v
      case None => r := None;
      case Some(n) => r := Some(ZigzagToInt64(S64(n)));
    }

    method ReadByte() returns (r: Option<int>)
      modifies `input
      ensures Outcome(R.ReadByte(old(Reader())), r, Reader())
    {
      var b := ReadByteDirect();
      match b
      case None => r := None;
      case Some(octet) => r := Some(S8(octet));
    }

    method ReadDouble() returns (r: Option<seq<byte>>)
      modifies `input
      ensures Outcome(R.ReadDouble(old(Reader())), r, Reader())
    {
      r := ReadAllBytes(8);
    }

    method ReadBinary() returns (r: Option<seq<byte>>)
      modifies `input
      ensures Outcome(R.ReadBinary(old(Reader())), r, Reader())
    {
      var size := ReadVarintValue();
      match size
      case None => r := None;
      case Some(n) => r := ReadAllBytes(n);
    }

    method ReadBool() returns (r: Option<bool>)
      modifies `input, `boolValue
      ensures Outcome(R.ReadBool(old(Reader())), r, Reader())
    {
      match boolValue
      case Some(b) =>
        boolValue := None;
        r := Some(b);
      case None =>
        var v := ReadByteDirect();
        match v
        case None => r := None;
        case Some(octet) => r := Some(octet == COMPACT_BOOLEAN_TRUE);
    }

    method ReadFieldBegin() returns (r: Option<R.Header>)
      modifies `input, `lastField, `boolValue
      ensures Outcome(R.ReadFieldBegin(old(Reader())), r, Reader())
    {
      var t := ReadByteDirect();
      if t == None {
        return None;
      }
      var octet := t.value;
      assert And(octet, 0x0f) == octet % 16 && Shr(And(octet, 0xf0), 4) == octet / 16 by { SplitNibbles(octet); }
      var code := And(octet, 0x0f);
      if code == CompactType(STOP) {
        return Some(R.Header(STOP, 0));
      }
      var modifier := Shr(And(octet, 0xf0), 4);
      if lastField == [] {
        return None;
      }
      var lastId := lastField[|lastField| - 1];
      lastField := lastField[..|lastField| - 1];
      var fieldId := lastId + modifier;
      if modifier == 0 {
        var id := ReadI16();
        if id == None {
          return None;
        }
        fieldId := id.value;
      }
      if code == COMPACT_BOOLEAN_TRUE || code == COMPACT_BOOLEAN_FALSE {
        boolValue := Some(code == COMPACT_BOOLEAN_TRUE);
      }
      lastField := lastField + [fieldId];
      match R.TTypeOf(code)
      case None => r := None;
      case Some(ttype) => r := Some(R.Header(ttype, fieldId));
    }

    method ReadMapBegin() returns (r: Option<R.MapSpec>)
      modifies `input
      ensures Outcome(R.ReadMapBegin(old(Reader())), r, Reader())
    {
      var v := ReadVarintValue();
      if v == None {
        return None;
      }
      var size := S32(v.value);
      var types: byte := 0;
      if size != 0 {
        var b := ReadByteDirect();
        if b == None {
          return None;
        }
        types := b.value;
      }
      assert And(types, 0x0f) == types % 16 by { SplitNibbles(types); }
      assert Shr(types, 4) == types / 16 by { HighNibble(types); }
      match (R.TTypeOf(Shr(types, 4)), R.TTypeOf(And(types, 0x0f)))
      case (Some(kt), Some(vt)) => r := Some(R.MapSpec(kt, vt, size));
      case _ => r := None;
    }

    method ReadListBegin() returns (r: Option<R.ListSpec>)
      modifies `input
      ensures Outcome(R.ReadListBegin(old(Reader())), r, Reader())
    {
      var b := ReadByteDirect();
      if b == None {
        return None;
      }
      var sizeAndType := b.value;
      assert And(sizeAndType, 0x0f) == sizeAndType % 16 by { SplitNibbles(sizeAndType); }
      assert Shr(sizeAndType, 4) == sizeAndType / 16 by { HighNibble(sizeAndType); }
      var size := Shr(sizeAndType, 4);
      if size == 15 {
        var v := ReadVarintValue();
        if v == None {
          return None;
        }
        size := S32(v.value);
      }
      match R.TTypeOf(And(sizeAndType, 0x0f))
      case None => r := None;
      case Some(et) => r := Some(R.ListSpec(et, size));
    }

    // read_set_begin
    method ReadSetBegin() returns (r: Option<R.ListSpec>)
      modifies `input
      ensures Outcome(R.ReadListBegin(old(Reader())), r, Reader())
    {
      r := ReadListBegin();
    }

    // ----- skipping: BaseProtocol#skip -----

    method Skip(t: TType) returns (r: Option<()>)
      modifies `input, `lastField, `boolValue
      ensures Outcome(R.Skip(old(Reader()), t), r, Reader())
      decreases |input|, 1, 0
    {
      match t
      case STOP => r := Some(());
      case BOOL => var v := ReadBool(); r := Done(v);
      case BYTE => var v := ReadByte(); r := Done(v);
      case I16 => var v := ReadI16(); r := Done(v);
      case I32 => var v := ReadI32(); r := Done(v);
      case I64 => var v := ReadI64(); r := Done(v);
      case DOUBLE => var v := ReadDouble(); r := Done(v);
      case STRING => var v := ReadBinary(); r := Done(v);
      case STRUCT => r := SkipStruct();
      case MAP =>
        var h := ReadMapBegin();
        if h == None {
          return None;
        }
        r := SkipEntries(h.value.keyType, h.value.valueType, R.Count(h.value.size));
      case SET =>
        var h := ReadSetBegin();
        if h == None {
          return None;
        }
        r := SkipElems(h.value.elemType, R.Count(h.value.size));
      case LIST =>
        var h := ReadListBegin();
        if h == None {
          return None;
        }
        r := SkipElems(h.value.elemType, R.Count(h.value.size));
    }

    // skip_list_or_set_contents
    method SkipElems(et: TType, size: nat) returns (r: Option<()>)
      modifies `input, `lastField, `boolValue
      ensures Outcome(R.SkipElems(old(Reader()), et, size), r, Reader())
      decreases |input|, 2, 0
    {
      hide R.Skip;
      ghost var whole := R.SkipElems(Reader(), et, size);
      var left := size;
      while left > 0
        invariant |input| <= |old(input)|
        invariant whole == R.SkipElems(Reader(), et, left)
      {
        var e := Skip(et);
        if e == None {
          return None;
        }
        left := left - 1;
      }
      r := Some(());
    }

    // skip_map_contents
    method SkipEntries(kt: TType, vt: TType, size: nat) returns (r: Option<()>)
      modifies `input, `lastField, `boolValue
      ensures Outcome(R.SkipEntries(old(Reader()), kt, vt, size), r, Reader())
      decreases |input|, 2, 0
    {
      hide R.Skip;
      ghost var whole := R.SkipEntries(Reader(), kt, vt, size);
      var left := size;
      while left > 0
        invariant |input| <= |old(input)|
        invariant whole == R.SkipEntries(Reader(), kt, vt, left)
      {
        var more := SkipEntry(kt, vt, left, whole);
        if !more {
          return None;
        }
        left := left - 1;
      }
      r := Some(());
    }

    method SkipEntry(kt: TType, vt: TType, ghost n: nat, ghost whole: R.Result<()>) returns (more: bool)
      requires n > 0 && whole == R.SkipEntries(Reader(), kt, vt, n)
      modifies `input, `lastField, `boolValue
      ensures if more then |input| <= |old(input)| && whole == R.SkipEntries(Reader(), kt, vt, n - 1)
              else whole == R.Err
      decreases |input|, 1, 1
    {
      hide R.Skip;
      var k := Skip(kt);
      if k == None {
        return false;
      }
      var v := Skip(vt);
      more := v != None;
    }

    method SkipStruct() returns (r: Option<()>)
      modifies `input, `lastField, `boolValue
      ensures Outcome(R.Skip(old(Reader()), STRUCT), r, Reader())
      decreases |input|, 0, 0
    {
      ReadStructBegin();
      ghost var whole := R.SkipFields(Reader());
      while true
        invariant |input| <= |old(input)|
        invariant whole == R.SkipFields(Reader())
        decreases |input|
      {
        var h := ReadFieldBegin();
        if h == None {
          return None;
        }
        if h.value.ttype == STOP {
          break;
        }
        var v := Skip(h.value.ttype);
        if v == None {
          return None;
        }
      }
      ReadStructEnd();
      r := Some(());
    }
  }

  function Done<T>(v: Option<T>): Option<()> {
    match v case Some(_) => Some(()) case None => None
  }

  lemma HighNibble(b: byte)
    ensures Shr(b, 4) == b / 16
  {
    var four := 4;
    assert Pow2(four) == 16 by { Pow2Values(); }
    ShrIsDiv(b, four);
  }

  lemma VarintTurn(n: nat)
    requires n < TWO64
    ensures And(n, U64(-128)) == 0 <==> n < 128
    ensures n < 128 ==> And(n, 0x7f) == n && EncodeVarint(n) == [n]
    ensures n >= 128 ==> Or(And(n, 0x7f), 0x80) == n % 128 + 128 && Shr(n, 7) == n / 128
                         && EncodeVarint(n) == [(n % 128 + 128) as byte] + EncodeVarint(n / 128)
  {
    WriteTurn64(n);
    SevenBits(n);
  }
}
