/** Message headers of the two wire protocols, and exactly which of them read back as written. */
module Messages {
  import opened Bits
  import opened Varint
  import opened Wire
  import B = Binary
  import C = CompactReader
  import CompactSkip

  datatype Message = Message(name: seq<byte>, typeId: int, seqId: int)

  predicate ValidMessage(m: Message) {
    |m.name| < TWO31 && IsInt32(m.typeId) && IsInt32(m.seqId)
  }

  // ----- binary -----

  const VERSION_1 := 0x80010000
  const VERSION_MASK := 0xffff0000

  function StringBytes(name: seq<byte>): seq<byte>
    requires |name| < TWO31
  {
    B.BigEndian(|name|, 4) + name
  }

  /** WriteMessageBegin: the strict form leads with a version word, the old one with the name. */
  function BinaryHeader(m: Message, strictWrite: bool): seq<byte>
    requires ValidMessage(m)
  {
    if strictWrite then
      B.BigEndian(U32(Or(VERSION_1, U32(m.typeId))), 4) + (StringBytes(m.name) + B.BigEndian(U32(m.seqId), 4))
    else
      StringBytes(m.name) + ([m.typeId % 256] + B.BigEndian(U32(m.seqId), 4))
  }

  const NONE := Message([], 0, 0)

  function ReadBinaryHeader(st: B.Reader, strictRead: bool): (r: B.Read<Message>)
    requires B.Valid(st)
    ensures B.Valid(r.st)
  {
    var size := B.ReadI32(st);
    if !size.ok then B.Read(NONE, false, size.st)
    else if size.value < 0 then
      var typeId := And(U32(size.value), 0xff);
      if And(U32(size.value), VERSION_MASK) != VERSION_1 then B.Read(Message([], typeId, 0), false, size.st)
      else
        var name := B.ReadString(size.st);
        if !name.ok then B.Read(Message(name.value, typeId, 0), false, name.st)
        else
          var seqId := B.ReadI32(name.st);
          B.Read(Message(name.value, typeId, seqId.value), seqId.ok, seqId.st)
    else if strictRead then B.Read(NONE, false, size.st)
    else
      var name := B.ReadStringBody(size.st, size.value);
      if !name.ok then B.Read(Message(name.value, 0, 0), false, name.st)
      else
        var typeId := B.ReadByte(name.st);
        if !typeId.ok then B.Read(Message(name.value, 0, 0), false, typeId.st)
        else
          var seqId := B.ReadI32(typeId.st);
          B.Read(Message(name.value, typeId.value, seqId.value), seqId.ok, seqId.st)
  }

  predicate ReadBack(r: B.Read<Message>, m: Message, rest: seq<byte>) {
    r.ok && r.value == m && r.st.rem == rest
  }

  lemma VersionWord(t: nat)
    requires t < 256
    ensures Or(VERSION_1, t) == VERSION_1 + t
    ensures And(VERSION_1 + t, 0xff) == t && And(VERSION_1 + t, VERSION_MASK) == VERSION_1
  {
    hide And, Or, Shl, Shr;
    var eight, sixteen := 8, 16;
    assert Pow2(eight) == 256 && Pow2(sixteen) == TWO16 by { Pow2Values(); Pow2Add(eight, eight); }
    assert Shl(VERSION_1 / 256, eight) == VERSION_1 by { ShlIsMul(VERSION_1 / 256, eight); }
    OrComm(VERSION_1, t);
    OrDisjoint(t, VERSION_1 / 256, eight);
    AndMask(VERSION_1 + t, eight);
    assert Shl(0xffff, sixteen) == VERSION_MASK by { ShlIsMul(0xffff, sixteen); }
    AndShift(VERSION_1 + t, 0xffff, sixteen);
    ShrIsDiv(VERSION_1 + t, sixteen);
    AndMask(0x8001, sixteen);
    ShlIsMul(0x8001, sixteen);
  }

  /** On the wire: a strict header leads with 80 01 00 and the type. */
  lemma StrictHeaderBytes(m: Message)
    requires ValidMessage(m) && 0 <= m.typeId < 256
    ensures BinaryHeader(m, true)[..4] == [0x80, 0x01, 0x00, m.typeId]
  {
    hide Or, And, StringBytes, B.BigEndian;
    VersionWord(m.typeId);
    FourBytes(0x80, 0x01, 0x00, m.typeId);
  }

  lemma FourBytes(a: byte, b: byte, c: byte, d: byte)
    ensures var n: nat := 256 * (256 * (256 * a as int + b as int) + c as int) + d as int;
            B.BigEndian(n, 4) == [a, b, c, d]
  {
    hide B.BigEndian;
    var n1: nat, n2: nat, n3: nat := a as int, 256 * a as int + b as int, 256 * (256 * a as int + b as int) + c as int;
    NextByte(0, a, 0);
    NextByte(n1, b, 1);
    NextByte(n2, c, 2);
    NextByte(n3, d, 3);
    assert B.BigEndian(0, 0) == [] by { assert |B.BigEndian(0, 0)| == 0; }
  }

  lemma NextByte(n: nat, b: byte, k: nat)
    ensures B.BigEndian(256 * n + b as int, k + 1) == B.BigEndian(n, k) + [b]
  {
    var m := 256 * n + b as int;
    assert m / 256 == n && m % 256 == b;
  }

  lemma AndByte(u: nat)
    ensures And(u, 0xff) < 256
  {
    var eight := 8;
    assert Pow2(eight) == 256 by { Pow2Values(); }
    AndMask(u, eight);
  }

  lemma TypeIsByte(st: B.Reader, strictRead: bool)
    requires B.Valid(st)
    ensures 0 <= ReadBinaryHeader(st, strictRead).value.typeId < 256
  {
    AndByte(U32(B.ReadI32(st).value));
  }

  lemma ReadNameAt(st: B.Reader, name: seq<byte>, rest: seq<byte>)
    requires B.Valid(st) && |name| < TWO31 && st.rem == StringBytes(name) + rest
    ensures var r := B.ReadString(st); r.ok && r.value == name && r.st.rem == rest
  {
    Concat3(B.BigEndian(|name|, 4), name, rest);
    B.ReadStringAt(st, name, rest);
  }

  lemma StrictReadsBack(st: B.Reader, m: Message, strictRead: bool, rest: seq<byte>)
    requires B.Valid(st) && ValidMessage(m) && 0 <= m.typeId < 256
    requires st.rem == BinaryHeader(m, true) + rest
    ensures ReadBack(ReadBinaryHeader(st, strictRead), m, rest)
  {
    hide B.ReadI32, B.ReadString, B.BigEndian, And, Or, StringBytes;
    VersionWord(m.typeId);
    var word := VERSION_1 + m.typeId;
    var seq4 := B.BigEndian(U32(m.seqId), 4);
    Concat3(B.BigEndian(word, 4), StringBytes(m.name) + seq4, rest);
    Concat3(StringBytes(m.name), seq4, rest);
    B.ReadI32At(st, word - TWO32, StringBytes(m.name) + (seq4 + rest));
    var st1 := B.ReadI32(st).st;
    ReadNameAt(st1, m.name, seq4 + rest);
    B.ReadI32At(B.ReadString(st1).st, m.seqId, rest);
  }

  lemma LooseReadsBack(st: B.Reader, m: Message, rest: seq<byte>)
    requires B.Valid(st) && ValidMessage(m) && 0 <= m.typeId < 256
    requires st.rem == BinaryHeader(m, false) + rest
    ensures ReadBack(ReadBinaryHeader(st, false), m, rest)
  {
    hide B.ReadI32, B.ReadByte, B.BigEndian, And;
    var seq4 := B.BigEndian(U32(m.seqId), 4);
    Concat3(StringBytes(m.name), [m.typeId] + seq4, rest);
    Concat3([m.typeId], seq4, rest);
    Concat3(B.BigEndian(|m.name|, 4), m.name, [m.typeId] + (seq4 + rest));
    B.ReadI32At(st, |m.name|, m.name + ([m.typeId] + (seq4 + rest)));
    var st1 := B.ReadStringBody(B.ReadI32(st).st, |m.name|).st;
    B.ReadTypeByte(st1, m.typeId, seq4 + rest);
    B.ReadI32At(B.ReadByte(st1).st, m.seqId, rest);
  }

  lemma LooseIsRefused(st: B.Reader, m: Message, rest: seq<byte>)
    requires B.Valid(st) && ValidMessage(m) && st.rem == BinaryHeader(m, false) + rest
    ensures !ReadBinaryHeader(st, true).ok
  {
    hide B.ReadI32, B.BigEndian;
    var tail := [m.typeId % 256] + B.BigEndian(U32(m.seqId), 4);
    Concat3(StringBytes(m.name), tail, rest);
    Concat3(B.BigEndian(|m.name|, 4), m.name, tail + rest);
    B.ReadI32At(st, |m.name|, m.name + (tail + rest));
  }

  /** A binary header reads back if and only if the type fits the byte it is cut to, and the reader
      does not insist on a version the writer left out. */
  lemma BinaryHeaderRoundTrip(st: B.Reader, m: Message, strictWrite: bool, strictRead: bool, rest: seq<byte>)
    requires B.Valid(st) && ValidMessage(m) && st.rem == BinaryHeader(m, strictWrite) + rest
    ensures ReadBack(ReadBinaryHeader(st, strictRead), m, rest)
       <==> 0 <= m.typeId < 256 && (strictWrite || !strictRead)
  {
    hide BinaryHeader, ReadBinaryHeader;
    TypeIsByte(st, strictRead);
    if 0 <= m.typeId < 256 {
      if strictWrite {
        StrictReadsBack(st, m, strictRead, rest);
      } else if strictRead {
        LooseIsRefused(st, m, rest);
      } else {
        LooseReadsBack(st, m, rest);
      }
    }
  }

  // ----- compact -----

  const PROTOCOL_ID: byte := 0x82
  const COMPACT_VERSION := 1
  const COMPACT_VERSION_MASK := 0x1f
  const TYPE_MASK := 0xE0

  /** (VERSION & VERSION_MASK) | ((type << 5) & TYPE_MASK), in a byte. */
  function VersionAndType(typeId: int): (b: nat) {
    Or(And(COMPACT_VERSION, COMPACT_VERSION_MASK), And(Shl(typeId % 256, 5) % 256, TYPE_MASK))
  }

  lemma FivePow()
    ensures Pow2(5) == 32 && Pow2(3) == 8 && Pow2(2) == 4 && Pow2(8) == 256
  {
  }

  lemma TypeBits(t: byte)
    ensures And(Shl(t, 5) % 256, TYPE_MASK) == 32 * (t % 8)
  {
    hide And, Shl, Shr, Pow2;
    FivePow();
    var low, five := t % 8, 5;
    ShlMod(t, five, 8);
    ShlIsMul(low, five);
    ShlIsMul(7, five);
    AndShift(32 * low, 7, five);
    ShrIsDiv(32 * low, five);
    AndMask(low, 3);
  }

  lemma VersionAndTypeBits(typeId: int)
    ensures var b := VersionAndType(typeId);
            && b == 1 + 32 * (typeId % 8)
            && And(b, COMPACT_VERSION_MASK) == COMPACT_VERSION
            && And(Shr(b, 5), 3) == typeId % 4
  {
    hide And, Or, Shl, Shr, Pow2;
    FivePow();
    var low, five := typeId % 8, 5;
    TypeBits(typeId % 256);
    AndMask(1, five);
    ShlIsMul(low, five);
    OrDisjoint(1, low, five);
    var b := 1 + 32 * low;
    assert VersionAndType(typeId) == b;
    AndMask(b, five);
    ShrIsDiv(b, five);
    AndMask(low, 2);
  }

  function CompactHeader(m: Message): seq<byte>
    requires ValidMessage(m)
  {
    VersionAndTypeBits(m.typeId);
    [PROTOCOL_ID, VersionAndType(m.typeId)]
      + (EncodeVarint(U32(m.seqId)) + (EncodeVarint(|m.name|) + m.name))
  }

  /** On the wire: a compact header leads with 82, then version 1 below the type's three bits. */
  lemma CompactHeaderBytes(m: Message)
    requires ValidMessage(m)
    ensures CompactHeader(m)[..2] == [0x82, 1 + 32 * (m.typeId % 8)]
  {
    VersionAndTypeBits(m.typeId);
    hide VersionAndType, EncodeVarint;
  }

  /** rb_thrift_compact_proto_read_message_begin, exceptions as Err. */
  function ReadCompactHeader(st: C.Reader): C.Result<Message> {
    match C.ReadOctet(st)
    case Err => C.Err
    case Ok(id, st1) =>
      if id != PROTOCOL_ID then C.Err
      else match C.ReadOctet(st1)
        case Err => C.Err
        case Ok(b, st2) =>
          if And(b, COMPACT_VERSION_MASK) != COMPACT_VERSION then C.Err
          else match C.ReadVarint(st2)
            case Err => C.Err
            case Ok(seqId, st3) => match C.ReadBinary(st3)
              case Err => C.Err
              case Ok(name, st4) => C.Ok(Message(name, And(Shr(b, 5), 3), S32(seqId)), st4)
  }

  lemma ReadSeqId(st: C.Reader, i: int, rest: seq<byte>)
    requires IsInt32(i) && st.rem == EncodeVarint(U32(i)) + rest
    ensures var r := C.ReadVarint(st); r.Ok? && S32(r.value) == i && r.st == st.(rem := rest)
  {
    CompactSkip.ReadUnsigned(st, U32(i), rest);
  }

  /** Name and sequence id survive every compact header; the type survives modulo 4, so the header
      reads back if and only if the type is below 4. ONEWAY, which is 4, comes back as 0. */
  lemma CompactHeaderRoundTrip(st: C.Reader, m: Message, rest: seq<byte>)
    requires ValidMessage(m) && st.rem == CompactHeader(m) + rest
    ensures ReadCompactHeader(st) == C.Ok(m.(typeId := m.typeId % 4), st.(rem := rest))
    ensures ReadCompactHeader(st) == C.Ok(m, st.(rem := rest)) <==> 0 <= m.typeId < 4
  {
    hide VersionAndType, And, Shr, C.ReadVarint, C.ReadBinary, EncodeVarint;
    VersionAndTypeBits(m.typeId);
    var b := VersionAndType(m.typeId);
    var name := EncodeVarint(|m.name|) + m.name;
    var body := EncodeVarint(U32(m.seqId)) + name;
    Concat3([PROTOCOL_ID, b], body, rest);
    assert st.rem == [PROTOCOL_ID] + ([b] + (body + rest));
    var st2 := st.(rem := body + rest);
    Concat3(EncodeVarint(U32(m.seqId)), name, rest);
    ReadSeqId(st2, m.seqId, name + rest);
    Concat3(EncodeVarint(|m.name|), m.name, rest);
    CompactSkip.ReadBinaryAt(st2.(rem := name + rest), m.name, rest);
  }
}
