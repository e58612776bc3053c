/** TCompactProtocol of the Go library: the object whose write calls CompactWriter.GoStep specifies. */
module GoProtocol {
  import opened Bits
  import opened Varint
  import opened Wire
  import opened Wrappers
  import opened Compact
  import opened CompactWriter

  lemma TypePair(k: byte, v: byte) returns (both: byte)
    requires k < 16 && v < 16
    ensures both == Or(Shl(k, 4), v) == 16 * k + v
  {
    JoinNibbles(k, v);
    both := 16 * k + v;
  }

  class TCompactProtocol {
    var trans: seq<byte>
    var lastField: seq<int>
    var lastFieldId: int
    var booleanField: Option<int>

    constructor ()
      ensures State() == Go([], [], 0, None)
    {
      trans, lastField, lastFieldId, booleanField := [], [], 0, None;
    }

    function State(): Go
      reads this
    {
      Go(trans, lastField, lastFieldId, booleanField)
    }

    predicate Valid()
      reads this
    {
      Pending16(booleanField)
    }

    method WriteByteDirect(b: byte)
      modifies `trans
      ensures trans == old(trans) + [b]
    {
      trans := trans + [b];
    }

    method WriteVarint(n: int)
      requires IsInt32(n)
      modifies `trans
      ensures trans == old(trans) + EncodeVarint(U32(n))
    {
      var bytes := WriteVarint32(n);
      trans := trans + bytes;
    }

    // writeVarint32(int32(size))
    method WriteSize(size: int)
      requires 0 <= size < TWO31
      modifies `trans
      ensures trans == old(trans) + EncodeVarint(size)
    {
      WriteVarint(size);
    }

    method WriteStructBegin()
      requires Valid()
      modifies this
      ensures Some(State()) == GoStep(old(State()), StructBegin)
    {
      lastField := lastField + [lastFieldId];
      lastFieldId := 0;
    }

    method WriteStructEnd()
      requires Valid() && lastField != []
      modifies this
      ensures Some(State()) == GoStep(old(State()), StructEnd)
    {
      lastFieldId := lastField[|lastField| - 1];
      lastField := lastField[..|lastField| - 1];
    }

    method WriteFieldBegin(t: WireType, id: int)
      requires Valid() && IsInt16(id)
      modifies this
      ensures Some(State()) == GoStep(old(State()), FieldBegin(t, id))
    {
      if t == BOOL {
        booleanField := Some(id);
        return;
      }
      WriteFieldBeginInternal(t, id, 0xFF);
    }

    method WriteFieldBeginInternal(t: WireType, id: int, typeOverride: byte)
      requires IsInt16(id) && (typeOverride == 0xFF || typeOverride < 16)
      modifies `trans, `lastFieldId
      ensures State() == GoField(old(State()), id, if typeOverride == 0xFF then CompactType(t) else typeOverride)
    {
      var typeToWrite := if typeOverride == 0xFF then CompactType(t) else typeOverride;
      if id > lastFieldId && id - lastFieldId <= 15 {
        var delta := id - lastFieldId;
        assert Or(Shl(delta, 4), typeToWrite) == 16 * delta + typeToWrite by { JoinNibbles(delta, typeToWrite); }
        WriteByteDirect(Or(Shl(delta, 4), typeToWrite));
      } else {
        WriteByteDirect(typeToWrite);
        WriteI16(id);
        Concat3(old(trans), [typeToWrite], ZigzagVarint32(id));
      }
      lastFieldId := id;
    }

    method WriteFieldStop()
      requires Valid()
      modifies this
      ensures Some(State()) == GoStep(old(State()), FieldStop)
    {
      WriteByteDirect(CompactType(STOP));
    }

    method WriteMapBegin(kt: WireType, vt: WireType, size: int)
      requires Valid() && 0 <= size < TWO31
      modifies this
      ensures Some(State()) == GoStep(old(State()), MapBegin(kt, vt, size))
    {
      hide EncodeVarint;
      if size == 0 {
        WriteByteDirect(0);
        return;
      }
      WriteSize(size);
      ghost var types := TypePair(CompactType(kt), CompactType(vt));
      WriteByteDirect(Or(Shl(CompactType(kt), 4), CompactType(vt)));
      assert trans == old(trans) + MapHeader(kt, vt, size) by {
        Concat3(old(trans), EncodeVarint(size), [types]);
      }
    }

    method WriteCollectionBegin(et: WireType, size: int)
      requires 0 <= size < TWO31
      modifies `trans
      ensures trans == old(trans) + CollectionHeader(et, size)
    {
      var code := CompactType(et);
      if size <= 14 {
        JoinNibbles(size, code);
        WriteByteDirect(Or(Shl(size, 4), code));
        return;
      }
      JoinHighNibble(code);
      var head: byte := Or(0xf0, code);
      WriteByteDirect(head);
      WriteSize(size);
      Concat3(old(trans), [head], EncodeVarint(size));
    }

    method WriteListBegin(et: WireType, size: int)
      requires Valid() && 0 <= size < TWO31
      modifies this
      ensures Some(State()) == GoStep(old(State()), ListBegin(et, size))
    {
      WriteCollectionBegin(et, size);
    }

    method WriteSetBegin(et: WireType, size: int)
      requires Valid() && 0 <= size < TWO31
      modifies this
      ensures Some(State()) == GoStep(old(State()), SetBegin(et, size))
    {
      WriteCollectionBegin(et, size);
    }

    method WriteBool(value: bool)
      requires Valid()
      modifies this
      ensures Some(State()) == GoStep(old(State()), Bool(value))
    {
      var v: byte := COMPACT_BOOLEAN_FALSE;
      if value {
        v := COMPACT_BOOLEAN_TRUE;
      }
      if booleanField != None {
        WriteFieldBeginInternal(BOOL, booleanField.value, v);
        booleanField := None;
        return;
      }
      WriteByteDirect(v);
    }

    /** `value` is the signed value of the octet. */
    method WriteByte(value: int)
      requires Valid() && IsInt8(value)
      modifies this
      ensures Some(State()) == GoStep(old(State()), Byte(value))
    {
      WriteByteDirect(value % 256);
    }

    method WriteI16(value: int)
      requires IsInt16(value)
      modifies `trans
      ensures trans == old(trans) + ZigzagVarint32(value)
    {
      WriteVarint(Int32ToZigzag(value));
    }

    method WriteI32(value: int)
      requires Valid() && IsInt32(value)
      modifies this
      ensures Some(State()) == GoStep(old(State()), I32Value(value))
    {
      WriteVarint(Int32ToZigzag(value));
    }

    method WriteI64(value: int)
      requires Valid() && IsInt64(value)
      modifies this
      ensures Some(State()) == GoStep(old(State()), I64Value(value))
    {
      var bytes := WriteVarint64(Int64ToZigzag(value));
      trans := trans + bytes;
    }

    /** The eight bytes of the double, low byte first. */
    method WriteDouble(bits: seq<byte>)
      requires Valid() && |bits| == 8
      modifies this
      ensures Some(State()) == GoStep(old(State()), Double(bits))
    {
      trans := trans + bits;
    }

    method WriteBinary(bin: seq<byte>)
      requires Valid() && |bin| < TWO31
      modifies this
      ensures Some(State()) == GoStep(old(State()), Binary(bin))
    {
      WriteSize(|bin|);
      Concat3(old(trans), EncodeVarint(|bin|), bin);
      if |bin| > 0 {
        trans := trans + bin;
      } else {
        assert trans == trans + bin;
      }
    }
  }
}
