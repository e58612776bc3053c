/** The reading half of the Go JSON protocol on a fully buffered message: the same context machine, fed
    tokens. A reader that goes by the type tags it finds recovers the tree, 16-bit integers apart. */
module JsonReader {
  import opened Bits
  import opened Wire
  import opened Json

  datatype Parse = Parse(rem: seq<Token>, ctx: Stack)

  datatype Result<+T> = Ok(value: T, p: Parse) | Err

  ghost predicate Consumes<T>(r: Result<T>, p: Parse) {
    r.Ok? ==> |r.p.rem| <= |p.rem|
  }

  ghost predicate Shortens<T>(r: Result<T>, p: Parse) {
    r.Ok? ==> |r.p.rem| < |p.rem|
  }

  function ParsePreValue(p: Parse): (r: Result<()>)
    ensures Consumes(r, p)
  {
    if p.rem == [] then Ok((), p)
    else match Top(p.ctx)
      case IN_LIST => Expect(p, RBracket, Comma)
      case OBJECT_NEXT_KEY => Expect(p, RBrace, Comma)
      case OBJECT_NEXT_VALUE => if p.rem[0] == Colon then Ok((), p.(rem := p.rem[1..])) else Err
      case _ => Ok((), p)
  }

  // the end is left for the End call, the separator is consumed
  function Expect(p: Parse, end: Token, separator: Token): (r: Result<()>)
    requires p.rem != []
    ensures Consumes(r, p)
  {
    if p.rem[0] == end then Ok((), p)
    else if p.rem[0] == separator then Ok((), p.(rem := p.rem[1..]))
    else Err
  }

  function Took<T>(value: T, p: Parse): Result<T>
    requires p.rem != []
  {
    Ok(value, Parse(p.rem[1..], PostValue(p.ctx)))
  }

  /** A number, quoted or not. */
  function ParseI64(p: Parse): (r: Result<int>)
    ensures Shortens(r, p)
  {
    match ParsePreValue(p)
    case Err => Err
    case Ok(_, p1) =>
      if p1.rem == [] then Err
      else match p1.rem[0]
        case Plain(Number(i)) => Took(i, p1)
        case Quoted(Number(i)) => Took(i, p1)
        case _ => Err
  }

  function ReadDouble(p: Parse): (r: Result<seq<byte>>)
    ensures Shortens(r, p)
  {
    match ParsePreValue(p)
    case Err => Err
    case Ok(_, p1) =>
      if p1.rem == [] then Err
      else match p1.rem[0]
        case Plain(Real(bits)) => Took(bits, p1)
        case Quoted(Real(bits)) => Took(bits, p1)
        case _ => Err
  }

  /** Only the bare words; at the end of the input, false. */
  function ReadBool(p: Parse): (r: Result<bool>)
    ensures Consumes(r, p)
  {
    match ParsePreValue(p)
    case Err => Err
    case Ok(_, p1) =>
      if p1.rem == [] then Ok(false, Parse([], PostValue(p1.ctx)))
      else match p1.rem[0]
        case Plain(Flag(b)) => Took(b, p1)
        case _ => Err
  }

  function ReadString(p: Parse): (r: Result<seq<byte>>)
    ensures Shortens(r, p)
  {
    match ParsePreValue(p)
    case Err => Err
    case Ok(_, p1) =>
      if p1.rem == [] then Err
      else match p1.rem[0]
        case Quoted(Chars(bytes)) => Took(bytes, p1)
        case _ => Err
  }

  // ParseObjectStart and ParseListBegin
  function Enter(p: Parse, open: Token, context: Context): (r: Result<()>)
    ensures Shortens(r, p)
  {
    match ParsePreValue(p)
    case Err => Err
    case Ok(_, p1) =>
      if p1.rem != [] && p1.rem[0] == open then Ok((), Parse(p1.rem[1..], p1.ctx + [context])) else Err
  }

  function ParseObjectEnd(p: Parse): (r: Result<()>)
    ensures Shortens(r, p)
  {
    if IsKey(Top(p.ctx)) then Leave(p, RBrace) else Err
  }

  function ParseListEnd(p: Parse): (r: Result<()>)
    ensures Shortens(r, p)
  {
    if Top(p.ctx) == IN_LIST then Leave(p, RBracket) else Err
  }

  // Err stands for the panic on an empty stack too
  function Leave(p: Parse, close: Token): (r: Result<()>)
    ensures Shortens(r, p)
  {
    if p.rem != [] && p.rem[0] == close && |p.ctx| > 1 then
      Ok((), Parse(p.rem[1..], PostValue(p.ctx[..|p.ctx| - 1])))
    else Err
  }

  // ----- call by call -----

  /** The read call that answers a write call, giving back its scalar. */
  function ReadCall(p: Parse, c: Call): Result<Call> {
    match c
    case Value(Number(_)) => (match ParseI64(p) case Ok(i, p1) => Ok(Value(Number(i)), p1) case Err => Err)
    case Value(Flag(_)) => (match ReadBool(p) case Ok(b, p1) => Ok(Value(Flag(b)), p1) case Err => Err)
    case Value(Chars(_)) => (match ReadString(p) case Ok(s, p1) => Ok(Value(Chars(s)), p1) case Err => Err)
    case Value(Real(_)) => (match ReadDouble(p) case Ok(d, p1) => Ok(Value(Real(d)), p1) case Err => Err)
    case ObjectBegin => (match Enter(p, LBrace, OBJECT_FIRST) case Ok(_, p1) => Ok(c, p1) case Err => Err)
    case ListBegin => (match Enter(p, LBracket, LIST_FIRST) case Ok(_, p1) => Ok(c, p1) case Err => Err)
    case ObjectEnd => (match ParseObjectEnd(p) case Ok(_, p1) => Ok(c, p1) case Err => Err)
    case ListEnd => (match ParseListEnd(p) case Ok(_, p1) => Ok(c, p1) case Err => Err)
  }

  /** A boolean key is written quoted, which ReadBool refuses; an object must be left between
      members, and a list after an element. */
  predicate Readable(ctx: Stack, c: Call) {
    match c
    case Value(s) => s.Flag? ==> !IsKey(Top(ctx))
    case ObjectEnd => |ctx| > 1 && IsKey(Top(ctx))
    case ListEnd => |ctx| > 1 && Top(ctx) == IN_LIST
    case _ => true
  }

  /** Lockstep, one call: with equal stacks, the reader takes exactly the tokens the writer put, gives
      back the call, and the stacks are equal again, if and only if the call is readable there. */
  lemma CallLockstep(ctx: Stack, c: Call, rest: seq<Token>)
    requires CanCall(ctx, c)
    ensures ReadCall(Parse(CallTokens(ctx, c) + rest, ctx), c) == Ok(c, Parse(rest, CallContext(ctx, c)))
       <==> Readable(ctx, c)
  {
    var p := Parse(CallTokens(ctx, c) + rest, ctx);
    match c
    case ObjectEnd => assert p.rem[1..] == rest;
    case ListEnd => assert p.rem[1..] == rest;
    case Value(s) => PreValueThen(ctx, ScalarToken(s, Top(ctx)), rest);
    case ObjectBegin => PreValueThen(ctx, LBrace, rest);
    case ListBegin => PreValueThen(ctx, LBracket, rest);
  }

  /** Every separator the writer puts is consumed once. */
  lemma PreValueThen(ctx: Stack, t: Token, rest: seq<Token>)
    requires t != RBrace && t != RBracket && t != Comma && t != Colon
    ensures ParsePreValue(Parse(Separator(Top(ctx)) + [t] + rest, ctx)) == Ok((), Parse([t] + rest, ctx))
    ensures ([t] + rest)[0] == t && ([t] + rest)[1..] == rest
  {
    var sep := Separator(Top(ctx));
    assert sep + [t] + rest == sep + ([t] + rest);
    if sep == [] {
      assert sep + ([t] + rest) == [t] + rest;
    } else {
      assert (sep + ([t] + rest))[1..] == [t] + rest;
    }
  }

  function ReadCalls(p: Parse, cs: seq<Call>): Result<seq<Call>>
    decreases cs
  {
    if cs == [] then Ok([], p)
    else match ReadCall(p, cs[0])
      case Err => Err
      case Ok(c, p1) => match ReadCalls(p1, cs[1..])
        case Err => Err
        case Ok(more, p2) => Ok([c] + more, p2)
  }

  predicate AllReadable(ctx: Stack, cs: seq<Call>)
    decreases cs
  {
    cs == [] || (CanCall(ctx, cs[0]) && Readable(ctx, cs[0]) && AllReadable(CallContext(ctx, cs[0]), cs[1..]))
  }

  function Emitted(ctx: Stack, cs: seq<Call>): seq<Token>
    decreases cs
  {
    if cs == [] || !CanCall(ctx, cs[0]) then []
    else CallTokens(ctx, cs[0]) + Emitted(CallContext(ctx, cs[0]), cs[1..])
  }

  /** Lockstep over every sequence of readable calls: the reader's stack follows the writer's, every
      token is consumed once, and the same calls come back. */
  lemma {:induction false} RunLockstep(d: Dump, cs: seq<Call>, rest: seq<Token>)
    requires AllReadable(d.ctx, cs)
    ensures Run(d, cs).Done? && Run(d, cs).d.out == d.out + Emitted(d.ctx, cs)
    ensures ReadCalls(Parse(Emitted(d.ctx, cs) + rest, d.ctx), cs) == Ok(cs, Parse(rest, Run(d, cs).d.ctx))
    decreases cs
  {
    hide ReadCall, CallTokens, CallContext, Readable;
    if cs == [] {
      assert [] + rest == rest;
    } else {
      var d1 := Step(d, cs[0]);
      var here, later := CallTokens(d.ctx, cs[0]), Emitted(d1.ctx, cs[1..]);
      CallLockstep(d.ctx, cs[0], later + rest);
      RunLockstep(d1, cs[1..], rest);
      Concat3(here, later, rest);
      Concat3(d.out, here, later);
      assert [cs[0]] + cs[1..] == cs;
    }
  }

  // ----- tags -----

  /** StringToTypeId, to the types of this model. The test for I16 is for "16", which is not how
      TypeIdToString spells it; unknown names are STOP. */
  function StringToTypeId(s: seq<byte>): TType {
    if s == Ascii("stp") then STOP
    else if s == Ascii("tf") then BOOL
    else if s == Ascii("i8") then BYTE
    else if s == Ascii("dbl") then DOUBLE
    else if s == Ascii("16") then I16
    else if s == Ascii("i32") then I32
    else if s == Ascii("i64") then I64
    else if s == Ascii("str") then STRING
    else if s == Ascii("rec") then STRUCT
    else if s == Ascii("map") then MAP
    else if s == Ascii("set") then SET
    else if s == Ascii("lst") then LIST
    else STOP
  }

  predicate Spells(s: seq<byte>, a: int, b: int, c: int) {
    |s| == 3 && s[0] == a && s[1] == b && s[2] == c
  }

  lemma Spelled()
    ensures Spells(Ascii("stp"), 115, 116, 112) && Spells(Ascii("dbl"), 100, 98, 108)
    ensures Spells(Ascii("i16"), 105, 49, 54) && Spells(Ascii("i32"), 105, 51, 50) && Spells(Ascii("i64"), 105, 54, 52)
    ensures Spells(Ascii("str"), 115, 116, 114) && Spells(Ascii("rec"), 114, 101, 99) && Spells(Ascii("map"), 109, 97, 112)
    ensures Spells(Ascii("set"), 115, 101, 116) && Spells(Ascii("lst"), 108, 115, 116)
    ensures |Ascii("tf")| == |Ascii("i8")| == |Ascii("16")| == 2
    ensures Ascii("tf")[0] == 116 && Ascii("i8")[0] == 105 && Ascii("16")[0] == 49
  {
    hide Ascii;
  }

  /** Every tag the writer spells reads back, except I16, which reads as STOP. */
  lemma TagsReadBack(t: TType)
    ensures StringToTypeId(Ascii(TypeName(t))) == if t == I16 then STOP else t
  {
    hide Ascii;
    Spelled();
  }
}
