/** The byte layout of the compact protocol as a function of the value tree. */
module Compact {
  import opened Bits
  import opened Varint
  import opened Wire

  const COMPACT_BOOLEAN_TRUE := 0x01
  const COMPACT_BOOLEAN_FALSE := 0x02

  // ttypeToCompactType in Go, get_compact_type in Ruby
  function CompactType(t: TType): (c: byte)
    ensures c < 16
  {
    match t
    case STOP => 0
    case BOOL => COMPACT_BOOLEAN_TRUE
    case BYTE => 0x03
    case I16 => 0x04
    case I32 => 0x05
    case I64 => 0x06
    case DOUBLE => 0x07
    case STRING => 0x08
    case LIST => 0x09
    case SET => 0x0A
    case MAP => 0x0B
    case STRUCT => 0x0C
  }

  function BoolCode(b: bool): byte {
    if b then COMPACT_BOOLEAN_TRUE else COMPACT_BOOLEAN_FALSE
  }

  function ZigzagVarint32(i: int): seq<byte>
    requires IsInt32(i)
  {
    EncodeVarint(U32(Int32ToZigzag(i)))
  }

  function ZigzagVarint64(i: int): seq<byte>
    requires IsInt64(i)
  {
    EncodeVarint(U64(Int64ToZigzag(i)))
  }

  /** A field header: the id as a delta of 1 to 15 in the high nibble, or in full. */
  function FieldHeader(last: int, id: int, code: byte): seq<byte>
    requires IsInt16(id) && code < 16
  {
    if 0 < id - last <= 15 then [16 * (id - last) + code]
    else [code] + ZigzagVarint32(id)
  }

  function CollectionHeader(et: TType, size: nat): seq<byte>
    requires size < TWO31
  {
    if size <= 14 then [16 * size + CompactType(et)]
    else [0xf0 + CompactType(et)] + EncodeVarint(size)
  }

  function MapHeader(kt: TType, vt: TType, size: nat): seq<byte>
    requires size < TWO31
  {
    if size == 0 then [0]
    else EncodeVarint(size) + [16 * CompactType(kt) + CompactType(vt)]
  }

  function Encode(v: Value): seq<byte>
    requires WellFormed(v)
    decreases v, 1
  {
    match v
    case VBool(b) => [BoolCode(b)]
    case VByte(i) => [i % 256]
    case VI16(i) => ZigzagVarint32(i)
    case VI32(i) => ZigzagVarint32(i)
    case VI64(i) => ZigzagVarint64(i)
    case VDouble(bits) => bits
    case VString(bytes) => EncodeVarint(|bytes|) + bytes
    case VStruct(fields) => EncodeFields(0, fields)
    case VMap(kt, vt, entries) => MapHeader(kt, vt, |entries|) + EncodeEntries(entries)
    case VSet(et, elems) => CollectionHeader(et, |elems|) + EncodeElems(elems)
    case VList(et, elems) => CollectionHeader(et, |elems|) + EncodeElems(elems)
  }

  /** A field: its header and, unless it is a bool (whose value is in the header), its value. */
  function EncodeField(last: int, f: Field): seq<byte>
    requires IsInt16(f.id) && WellFormed(f.v)
    decreases f, 1
  {
    if f.v.VBool? then FieldHeader(last, f.id, BoolCode(f.v.b))
    else FieldHeader(last, f.id, CompactType(TypeOf(f.v))) + Encode(f.v)
  }

  function EncodeFields(last: int, fs: seq<Field>): seq<byte>
    requires WellFormedFields(fs)
    decreases fs, 0
  {
    if fs == [] then [0]
    else EncodeField(last, fs[0]) + EncodeFields(fs[0].id, fs[1..])
  }

  function EncodeEntry(e: Entry): seq<byte>
    requires WellFormed(e.k) && WellFormed(e.v)
    decreases e, 0
  {
    Encode(e.k) + Encode(e.v)
  }

  function EncodeEntries(es: seq<Entry>): seq<byte>
    requires WellFormedEntries(es)
    decreases es, 0
  {
    if es == [] then []
    else EncodeEntry(es[0]) + EncodeEntries(es[1..])
  }

  function EncodeElems(es: seq<Value>): seq<byte>
    requires WellFormedElems(es)
    decreases es, 0
  {
    if es == [] then [] else Encode(es[0]) + EncodeElems(es[1..])
  }

  // ----- how short the headers are -----

  /** A field header is one byte exactly for ids 1 to 15 above the last, with the type in its low half;
      any other is longer. */
  lemma FieldHeaderLength(last: int, id: int, code: byte)
    requires IsInt16(id) && code < 16
    ensures var h := FieldHeader(last, id, code);
            h != [] && (|h| == 1 <==> 1 <= id - last <= 15) && h[0] % 16 == code
  {
    assert |ZigzagVarint32(id)| > 0;
  }

  /** The header of a list or set is one byte exactly for sizes up to 14. */
  lemma CollectionHeaderLength(et: TType, size: nat)
    requires size < TWO31
    ensures var h := CollectionHeader(et, size);
            h != [] && (|h| == 1 <==> size <= 14) && h[0] % 16 == CompactType(et)
  {
    assert |EncodeVarint(size)| > 0;
  }

  /** A map header is one byte exactly for the empty map. */
  lemma MapHeaderLength(kt: TType, vt: TType, size: nat)
    requires size < TWO31
    ensures |MapHeader(kt, vt, size)| == 1 <==> size == 0
  {
    assert |EncodeVarint(size)| > 0;
  }
}
