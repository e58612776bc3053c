/** A whole message read back from the Go JSON protocol. */
module JsonMessage {
  import opened Bits
  import opened Wire
  import opened Json
  import opened JsonGrammar
  import opened JsonReader
  import opened JsonTree

  datatype Message = Message(name: seq<byte>, typeId: int, seqId: int, args: Value)

  datatype Head = Head(name: seq<byte>, typeId: int, seqId: int)

  /** ReadMessageBegin: any version but 1 is refused; the type is cut to a byte. */
  function ReadMessageBegin(p: Parse): Result<Head> {
    match Enter(p, LBracket, LIST_FIRST)
    case Err => Err
    case Ok(_, p1) => match ParseI64(p1)
      case Err => Err
      case Ok(version, p2) =>
        if S32(version) != 1 then Err
        else match ReadString(p2)
          case Err => Err
          case Ok(name, p3) => match ParseI64(p3)
            case Err => Err
            case Ok(t, p4) => match ParseI64(p4)
              case Err => Err
              case Ok(seqId, p5) => Ok(Head(name, t % 256, S32(seqId)), p5)
  }

  /** Begin, the arguments by their tags, end. */
  function ReadMessage(p: Parse, t: WireType): Result<Message> {
    match ReadMessageBegin(p)
    case Err => Err
    case Ok(h, p1) => match ReadAny(p1, t)
      case Err => Err
      case Ok(v, p2) => match ParseListEnd(p2)
        case Err => Err
        case Ok(_, p3) => Ok(Message(h.name, h.typeId, h.seqId, v), p3)
  }

  lemma NumberInList(ctx: Stack, first: bool, i: int, rest: seq<Token>)
    ensures ParseI64(Parse((if first then [] else [Comma]) + [Plain(Number(i))] + rest,
                           ctx + [if first then LIST_FIRST else IN_LIST]))
         == Ok(i, Parse(rest, ctx + [IN_LIST]))
  {
    hide ParseI64, PostValue;
    var inner: Stack := ctx + [if first then LIST_FIRST else IN_LIST];
    NumberAt(inner, i, rest);
    PostTop(ctx, if first then LIST_FIRST else IN_LIST);
  }

  lemma NameInList(ctx: Stack, name: seq<byte>, rest: seq<Token>)
    ensures ReadString(Parse([Comma] + [Quoted(Chars(name))] + rest, ctx + [IN_LIST]))
         == Ok(name, Parse(rest, ctx + [IN_LIST]))
  {
    hide ReadString, PostValue;
    var inner: Stack := ctx + [IN_LIST];
    ReadScalarAt(inner, Chars(name), rest);
    PostTop(ctx, IN_LIST);
  }

  lemma BeginReadsBack(name: seq<byte>, typeId: int, seqId: int, rest: seq<Token>)
    requires IsInt32(seqId)
    ensures ReadMessageBegin(Parse([LBracket, Plain(Number(1)), Comma, Quoted(Chars(name)), Comma,
                                    Plain(Number(typeId % 256)), Comma, Plain(Number(seqId))] + rest, FRESH.ctx))
         == Ok(Head(name, typeId % 256, seqId), Parse(rest, FRESH.ctx + [IN_LIST]))
  {
    hide Enter, ParseI64, ReadString;
    var ctx := FRESH.ctx;
    var r4 := [Comma] + [Plain(Number(seqId))] + rest;
    var r3 := [Comma] + [Plain(Number(typeId % 256))] + r4;
    var r2 := [Comma] + [Quoted(Chars(name))] + r3;
    var r1 := [] + [Plain(Number(1))] + r2;
    EntersAt(ctx, LBracket, LIST_FIRST, r1);
    NumberInList(ctx, true, 1, r2);
    NameInList(ctx, name, r3);
    NumberInList(ctx, false, typeId % 256, r4);
    NumberInList(ctx, false, seqId, rest);
    assert [] + [LBracket] + r1
        == [LBracket, Plain(Number(1)), Comma, Quoted(Chars(name)), Comma, Plain(Number(typeId % 256)), Comma,
            Plain(Number(seqId))] + rest;
  }

  /** What the writer outputs for a message is read back as that message, with anything behind it
      untouched and the stack as at the start, if and only if its type fits a byte and nothing in its
      arguments is announced as a 16-bit integer. */
  lemma MessageRoundTrip(name: seq<byte>, typeId: int, seqId: int, v: Value, rest: seq<Token>)
    requires WellFormed(v) && IsInt32(typeId) && IsInt32(seqId)
    ensures ReadMessage(Parse(MessageText(name, typeId, seqId, v) + rest, FRESH.ctx), TypeOf(v))
         == Ok(Message(name, typeId, seqId, v), Parse(rest, FRESH.ctx))
       <==> Untagged(v) && 0 <= typeId < 256
  {
    hide ReadMessageBegin, ReadAny, Text, Untagged, ParseListEnd;
    var tail := [Comma] + Text(v) + ([RBracket] + rest);
    BeginReadsBack(name, typeId, seqId, tail);
    assert MessageText(name, typeId, seqId, v) + rest
        == [LBracket, Plain(Number(1)), Comma, Quoted(Chars(name)), Comma, Plain(Number(typeId % 256)), Comma,
            Plain(Number(seqId))] + tail;
    if Untagged(v) {
      ValueInList(FRESH.ctx, v, [RBracket] + rest);
      LeavesList(FRESH.ctx, rest);
      assert PostValue(FRESH.ctx) == FRESH.ctx;
    } else {
      WrongInList(FRESH.ctx, v, [RBracket] + rest);
    }
  }
}
