/** Reading a tree back from the Go JSON protocol by the tags in the text. */
module JsonTree {
  import opened Bits
  import opened Wire
  import opened Wrappers
  import opened Json
  import opened JsonReader

  datatype FieldHead = FieldHead(id: int, t: TType)

  /** ReadFieldBegin: at a closing token, or at the end, there is no field. */
  function ReadFieldBegin(p: Parse): (r: Result<Option<FieldHead>>)
    ensures r.Ok? ==> if r.value.Some? then |r.p.rem| < |p.rem| else r.p == p
  {
    if p.rem == [] || p.rem[0] == RBrace || p.rem[0] == RBracket then Ok(None, p)
    else match ParseI64(p)
      case Err => Err
      case Ok(id, p1) => match Enter(p1, LBrace, OBJECT_FIRST)
        case Err => Err
        case Ok(_, p2) => match ReadString(p2)
          case Err => Err
          case Ok(name, p3) => Ok(Some(FieldHead(S16(id), StringToTypeId(name))), p3)
  }

  /** A value of a known type; containers and fields by the tags they carry. A tag that is STOP ends a
      struct, as it does for a generated reader, and fits no element. */
  function ReadAny(p: Parse, t: WireType): (r: Result<Value>)
    ensures Consumes(r, p)
    decreases |p.rem|, 1, 0
  {
    match t
    case BOOL => (match ReadBool(p) case Ok(b, p1) => Ok(VBool(b), p1) case Err => Err)
    case BYTE => (match ParseI64(p) case Ok(i, p1) => Ok(VByte(S8(i)), p1) case Err => Err)
    case I16 => (match ParseI64(p) case Ok(i, p1) => Ok(VI16(S16(i)), p1) case Err => Err)
    case I32 => (match ParseI64(p) case Ok(i, p1) => Ok(VI32(S32(i)), p1) case Err => Err)
    case I64 => (match ParseI64(p) case Ok(i, p1) => Ok(VI64(i), p1) case Err => Err)
    case DOUBLE => (match ReadDouble(p) case Ok(d, p1) => Ok(VDouble(d), p1) case Err => Err)
    case STRING => (match ReadString(p) case Ok(s, p1) => Ok(VString(s), p1) case Err => Err)
    case STRUCT => ReadStruct(p)
    case MAP => ReadMap(p)
    case SET => (match ReadList(p) case Ok(l, p1) => Ok(VSet(l.0, l.1), p1) case Err => Err)
    case LIST => (match ReadList(p) case Ok(l, p1) => Ok(VList(l.0, l.1), p1) case Err => Err)
  }

  function ReadStruct(p: Parse): (r: Result<Value>)
    ensures Consumes(r, p)
    decreases |p.rem|, 0, 0
  {
    match Enter(p, LBrace, OBJECT_FIRST)
    case Err => Err
    case Ok(_, p1) => match ReadFields(p1)
      case Err => Err
      case Ok(fs, p2) => match ParseObjectEnd(p2)
        case Err => Err
        case Ok(_, p3) => Ok(VStruct(fs), p3)
  }

  function ReadFields(p: Parse): (r: Result<seq<Field>>)
    ensures Consumes(r, p)
    decreases |p.rem|, 2, 0
  {
    match ReadFieldBegin(p)
    case Err => Err
    case Ok(None, p1) => Ok([], p1)
    case Ok(Some(head), p1) =>
      if head.t == STOP then Ok([], p1)
      else match ReadAny(p1, head.t)
        case Err => Err
        case Ok(v, p2) => match ParseObjectEnd(p2)
          case Err => Err
          case Ok(_, p3) => match ReadFields(p3)
            case Err => Err
            case Ok(fs, p4) => Ok([Field(head.id, v)] + fs, p4)
  }

  function ReadTag(p: Parse): (r: Result<TType>)
    ensures Shortens(r, p)
  {
    match ReadString(p)
    case Err => Err
    case Ok(name, p1) => Ok(StringToTypeId(name), p1)
  }

  function ReadList(p: Parse): (r: Result<(WireType, seq<Value>)>)
    ensures Consumes(r, p)
    decreases |p.rem|, 0, 0
  {
    match Enter(p, LBracket, LIST_FIRST)
    case Err => Err
    case Ok(_, p1) => match ReadTag(p1)
      case Err => Err
      case Ok(et, p2) => match ParseI64(p2)
        case Err => Err
        case Ok(size, p3) =>
          if et == STOP then Err
          else match ReadElems(p3, et, if size < 0 then 0 else size)
            case Err => Err
            case Ok(es, p4) => match ParseListEnd(p4)
              case Err => Err
              case Ok(_, p5) => Ok((et, es), p5)
  }

  function ReadElems(p: Parse, et: WireType, n: nat): (r: Result<seq<Value>>)
    ensures Consumes(r, p)
    decreases |p.rem|, 2, n
  {
    if n == 0 then Ok([], p)
    else match ReadAny(p, et)
      case Err => Err
      case Ok(v, p1) => match ReadElems(p1, et, n - 1)
        case Err => Err
        case Ok(es, p2) => Ok([v] + es, p2)
  }

  function ReadMap(p: Parse): (r: Result<Value>)
    ensures Consumes(r, p)
    decreases |p.rem|, 0, 0
  {
    match Enter(p, LBracket, LIST_FIRST)
    case Err => Err
    case Ok(_, p1) => match ReadTag(p1)
      case Err => Err
      case Ok(kt, p2) => match ReadTag(p2)
        case Err => Err
        case Ok(vt, p3) => match ParseI64(p3)
          case Err => Err
          case Ok(size, p4) =>
            if kt == STOP || vt == STOP then Err
            else match ReadEntries(p4, kt, vt, if size < 0 then 0 else size)
              case Err => Err
              case Ok(es, p5) => match ParseListEnd(p5)
                case Err => Err
                case Ok(_, p6) => Ok(VMap(kt, vt, es), p6)
  }

  function ReadEntries(p: Parse, kt: WireType, vt: WireType, n: nat): (r: Result<seq<Entry>>)
    ensures Consumes(r, p)
    decreases |p.rem|, 2, n
  {
    if n == 0 then Ok([], p)
    else match ReadAny(p, kt)
      case Err => Err
      case Ok(k, p1) => match ReadAny(p1, vt)
        case Err => Err
        case Ok(v, p2) => match ReadEntries(p2, kt, vt, n - 1)
          case Err => Err
          case Ok(es, p3) => Ok([Entry(k, v)] + es, p3)
  }

  // ----- which trees have no 16-bit tag -----

  /** No field, element, key or value below is announced as I16, and an integer that stands alone fits
      its width. */
  predicate Untagged(v: Value)
    decreases v, 1
  {
    match v
    case VStruct(fs) => UntaggedFields(fs)
    case VMap(kt, vt, es) => kt != I16 && vt != I16 && UntaggedEntries(es)
    case VSet(et, es) => et != I16 && UntaggedElems(es)
    case VList(et, es) => et != I16 && UntaggedElems(es)
    case VI16(i) => IsInt16(i)
    case _ => true
  }

  predicate UntaggedField(f: Field)
    decreases f, 0
  {
    !f.v.VI16? && Untagged(f.v)
  }

  predicate UntaggedFields(fs: seq<Field>)
    decreases fs, 0
  {
    fs == [] || (UntaggedField(fs[0]) && UntaggedFields(fs[1..]))
  }

  predicate UntaggedEntry(e: Entry)
    decreases e, 0
  {
    Untagged(e.k) && Untagged(e.v)
  }

  predicate UntaggedEntries(es: seq<Entry>)
    decreases es, 0
  {
    es == [] || (UntaggedEntry(es[0]) && UntaggedEntries(es[1..]))
  }

  predicate UntaggedElems(es: seq<Value>)
    decreases es, 0
  {
    es == [] || (Untagged(es[0]) && UntaggedElems(es[1..]))
  }

  // ----- one value at a time -----

  /** Text in place: the separator of the context, the text, what follows. */
  function Placed(ctx: Stack, ts: seq<Token>, rest: seq<Token>): Parse {
    Parse(Separator(Top(ctx)) + ts + rest, ctx)
  }

  lemma ReadScalarAt(ctx: Stack, s: Scalar, rest: seq<Token>)
    requires s.Flag? ==> !IsKey(Top(ctx))
    ensures ReadCall(Placed(ctx, [ScalarToken(s, Top(ctx))], rest), Value(s)) == Ok(Value(s), Parse(rest, PostValue(ctx)))
  {
    CallLockstep(ctx, Value(s), rest);
  }

  /** The scalar that spells a value which is not a container. */
  function ScalarOf(v: Value): Scalar {
    match v
    case VBool(b) => Flag(b)
    case VByte(i) => Number(i % 256)
    case VI16(i) => Number(i)
    case VI32(i) => Number(i)
    case VI64(i) => Number(i)
    case VDouble(bits) => Real(bits)
    case VString(bytes) => Chars(bytes)
    case _ => Flag(false)
  }

  lemma ScalarText(c: Context, v: Value)
    requires WellFormed(v) && !IsKey(c) && !v.VStruct? && !v.VMap? && !v.VSet? && !v.VList?
    ensures Text(v) == [ScalarToken(ScalarOf(v), c)]
  {
  }

  lemma ScalarReads(p: Parse, v: Value, p1: Parse)
    requires WellFormed(v) && Untagged(v) && !v.VStruct? && !v.VMap? && !v.VSet? && !v.VList?
    requires ReadCall(p, Value(ScalarOf(v))) == Ok(Value(ScalarOf(v)), p1)
    ensures ReadAny(p, TypeOf(v)) == Ok(v, p1)
  {
    hide ParseI64, ReadBool, ReadString, ReadDouble, ReadStruct, ReadMap, ReadList;
  }

  lemma ReadsScalar(ctx: Stack, v: Value, rest: seq<Token>)
    requires WellFormed(v) && Untagged(v) && !IsKey(Top(ctx)) && !v.VStruct? && !v.VMap? && !v.VSet? && !v.VList?
    ensures ReadAny(Placed(ctx, Text(v), rest), TypeOf(v)) == Ok(v, Parse(rest, PostValue(ctx)))
  {
    hide WellFormed, ReadAny, ReadCall, Text, Placed, PostValue;
    ScalarText(Top(ctx), v);
    ReadScalarAt(ctx, ScalarOf(v), rest);
    ScalarReads(Placed(ctx, Text(v), rest), v, Parse(rest, PostValue(ctx)));
  }

  lemma EntersAt(ctx: Stack, open: Token, context: Context, rest: seq<Token>)
    requires open == LBrace || open == LBracket
    ensures Enter(Placed(ctx, [open], rest), open, context) == Ok((), Parse(rest, ctx + [context]))
  {
    PreValueThen(ctx, open, rest);
  }

  lemma NumberAt(ctx: Stack, i: int, rest: seq<Token>)
    ensures ParseI64(Placed(ctx, [ScalarToken(Number(i), Top(ctx))], rest)) == Ok(i, Parse(rest, PostValue(ctx)))
  {
    ReadScalarAt(ctx, Number(i), rest);
  }

  lemma TagAt(ctx: Stack, t: TType, rest: seq<Token>)
    ensures ReadTag(Placed(ctx, [Quoted(TypeScalar(t))], rest))
         == Ok(if t == I16 then STOP else t, Parse(rest, PostValue(ctx)))
  {
    hide StringToTypeId, Ascii;
    ReadScalarAt(ctx, TypeScalar(t), rest);
    TagsReadBack(t);
  }

  // ----- trees -----

  lemma {:induction false} ReadsBack(ctx: Stack, v: Value, rest: seq<Token>)
    requires WellFormed(v) && Untagged(v) && !IsKey(Top(ctx))
    ensures ReadAny(Placed(ctx, Text(v), rest), TypeOf(v)) == Ok(v, Parse(rest, PostValue(ctx)))
    decreases v, 1
  {
    hide ReadStruct, ReadMap, ReadList, Placed, PostValue, ParseI64, ReadBool, ReadString, ReadDouble;
    match v
    case VStruct(fs) => ReadsStruct(ctx, fs, rest);
    case VMap(kt, vt, es) => ReadsMap(ctx, kt, vt, es, rest);
    case VSet(et, es) => ReadsList(ctx, et, es, rest);
    case VList(et, es) => ReadsList(ctx, et, es, rest);
    case _ => ReadsScalar(ctx, v, rest);
  }

  lemma LeavesObject(ctx: Stack, first: bool, rest: seq<Token>)
    ensures ParseObjectEnd(Parse([RBrace] + rest, ctx + [FieldContext(first)])) == Ok((), Parse(rest, PostValue(ctx)))
  {
    assert ([RBrace] + rest)[1..] == rest;
    assert (ctx + [FieldContext(first)])[..|ctx|] == ctx;
  }

  lemma LeavesList(ctx: Stack, rest: seq<Token>)
    ensures ParseListEnd(Parse([RBracket] + rest, ctx + [IN_LIST])) == Ok((), Parse(rest, PostValue(ctx)))
  {
    assert ([RBracket] + rest)[1..] == rest;
    assert (ctx + [IN_LIST])[..|ctx|] == ctx;
  }

  lemma {:induction false} ReadsStruct(ctx: Stack, fs: seq<Field>, rest: seq<Token>)
    requires WellFormedFields(fs) && UntaggedFields(fs)
    ensures ReadStruct(Placed(ctx, [LBrace] + TextFields(fs, true) + [RBrace], rest))
         == Ok(VStruct(fs), Parse(rest, PostValue(ctx)))
    decreases fs, 1
  {
    hide TextFields, Enter, ReadFields, ParseObjectEnd, PostValue, Separator;
    var tail := TextFields(fs, true) + ([RBrace] + rest);
    assert Separator(Top(ctx)) + ([LBrace] + TextFields(fs, true) + [RBrace]) + rest
        == Separator(Top(ctx)) + [LBrace] + tail;
    EntersAt(ctx, LBrace, OBJECT_FIRST, tail);
    ReadsFields(ctx, true, fs, [RBrace] + rest);
    LeavesObject(ctx, fs == [], rest);
  }

  /** The remaining fields of an open object, up to its closing brace. */
  lemma {:induction false} ReadsFields(outer: Stack, first: bool, fs: seq<Field>, rest: seq<Token>)
    requires WellFormedFields(fs) && UntaggedFields(fs) && rest != [] && rest[0] == RBrace
    ensures ReadFields(Parse(TextFields(fs, first) + rest, outer + [FieldContext(first)]))
         == Ok(fs, Parse(rest, outer + [FieldContext(first && fs == [])]))
    decreases fs, 0
  {
    hide TextField, TextFields, ParseObjectEnd, ReadAny, ReadFieldBegin, ReadFields, FieldReads;
    var p := Parse(TextFields(fs, first) + rest, outer + [FieldContext(first)]);
    if fs == [] {
      NoFields(outer, first, rest);
    } else {
      var tail := TextFields(fs[1..], false) + rest;
      FirstField(fs, first, rest);
      ReadsField(outer, first, fs[0], tail);
      ReadsFields(outer, false, fs[1..], rest);
      FieldsStep(p, fs[0], Parse(tail, outer + [OBJECT_NEXT_KEY]), fs[1..], Parse(rest, outer + [OBJECT_NEXT_KEY]));
      assert [Field(fs[0].id, fs[0].v)] + fs[1..] == fs;
    }
  }

  lemma NoFields(outer: Stack, first: bool, rest: seq<Token>)
    requires rest != [] && rest[0] == RBrace
    ensures ReadFields(Parse(TextFields([], first) + rest, outer + [FieldContext(first)]))
         == Ok([], Parse(rest, outer + [FieldContext(first)]))
  {
    assert TextFields([], first) + rest == rest;
  }

  lemma FirstField(fs: seq<Field>, first: bool, rest: seq<Token>)
    requires WellFormedFields(fs) && fs != []
    ensures TextFields(fs, first) + rest
         == (if first then [] else [Comma]) + TextField(fs[0]) + (TextFields(fs[1..], false) + rest)
  {
    hide TextField;
    Concat3((if first then [] else [Comma]) + TextField(fs[0]), TextFields(fs[1..], false), rest);
  }

  /** One field read, then the rest of them. */
  predicate FieldReads(p: Parse, f: Field, next: Parse) {
    match ReadFieldBegin(p)
    case Ok(Some(head), p1) =>
      head == FieldHead(f.id, TypeOf(f.v)) && (match ReadAny(p1, TypeOf(f.v))
        case Ok(v, p2) => v == f.v && ParseObjectEnd(p2) == Ok((), next)
        case Err => false)
    case _ => false
  }

  lemma FieldsStep(p: Parse, f: Field, next: Parse, fs: seq<Field>, last: Parse)
    requires FieldReads(p, f, next) && ReadFields(next) == Ok(fs, last)
    ensures ReadFields(p) == Ok([Field(f.id, f.v)] + fs, last)
  {
    hide ReadFieldBegin, ReadAny, ParseObjectEnd;
  }

  lemma {:induction false} ReadsField(outer: Stack, first: bool, f: Field, rest: seq<Token>)
    requires IsInt16(f.id) && WellFormed(f.v) && UntaggedField(f)
    ensures FieldReads(Parse((if first then [] else [Comma]) + TextField(f) + rest, outer + [FieldContext(first)]),
                       f, Parse(rest, outer + [OBJECT_NEXT_KEY]))
    decreases f, 0
  {
    hide Text, ReadAny, ParseObjectEnd, ReadFieldBegin, TypeScalar, PostValue;
    var ctx: Stack := outer + [OBJECT_NEXT_VALUE];
    var inner: Stack := ctx + [OBJECT_NEXT_VALUE];
    var tail := [Colon] + Text(f.v) + ([RBrace] + rest);
    FieldBeginAt(outer, first, f, tail);
    assert (if first then [] else [Comma]) + TextField(f) + rest
        == (if first then [] else [Comma]) + ([Quoted(Number(f.id)), Colon, LBrace, Quoted(TypeScalar(TypeOf(f.v)))] + tail);
    ReadsBack(inner, f.v, [RBrace] + rest);
    PostTop(ctx, OBJECT_NEXT_VALUE);
    LeavesObject(ctx, false, rest);
    PostTop(outer, OBJECT_NEXT_VALUE);
  }

  lemma KeyAt(outer: Stack, first: bool, id: int, rest: seq<Token>)
    ensures ParseI64(Parse((if first then [] else [Comma]) + [Quoted(Number(id))] + rest, outer + [FieldContext(first)]))
         == Ok(id, Parse(rest, outer + [OBJECT_NEXT_VALUE]))
  {
    hide ParseI64, PostValue;
    var ctx: Stack := outer + [FieldContext(first)];
    NumberAt(ctx, id, rest);
    PostTop(outer, FieldContext(first));
  }

  lemma ObjectAt(outer: Stack, rest: seq<Token>)
    ensures Enter(Parse([Colon] + [LBrace] + rest, outer + [OBJECT_NEXT_VALUE]), LBrace, OBJECT_FIRST)
         == Ok((), Parse(rest, outer + [OBJECT_NEXT_VALUE] + [OBJECT_FIRST]))
  {
    hide Enter;
    var ctx: Stack := outer + [OBJECT_NEXT_VALUE];
    EntersAt(ctx, LBrace, OBJECT_FIRST, rest);
  }

  lemma NameAt(outer: Stack, t: TType, rest: seq<Token>)
    ensures ReadTag(Parse([Quoted(TypeScalar(t))] + rest, outer + [OBJECT_FIRST]))
         == Ok(if t == I16 then STOP else t, Parse(rest, outer + [OBJECT_NEXT_VALUE]))
  {
    hide ReadTag, TypeScalar, PostValue;
    var ctx: Stack := outer + [OBJECT_FIRST];
    assert [] + [Quoted(TypeScalar(t))] + rest == [Quoted(TypeScalar(t))] + rest;
    TagAt(ctx, t, rest);
    PostTop(outer, OBJECT_FIRST);
  }

  lemma FieldBeginStep(p: Parse, id: int, p1: Parse, p2: Parse, t: TType, p3: Parse)
    requires p.rem != [] && p.rem[0] != RBrace && p.rem[0] != RBracket
    requires ParseI64(p) == Ok(id, p1) && Enter(p1, LBrace, OBJECT_FIRST) == Ok((), p2) && ReadTag(p2) == Ok(t, p3)
    ensures ReadFieldBegin(p) == Ok(Some(FieldHead(S16(id), t)), p3)
  {
    hide ParseI64, Enter, ReadString, StringToTypeId;
  }

  lemma FieldBeginAt(outer: Stack, first: bool, f: Field, rest: seq<Token>)
    requires IsInt16(f.id) && !f.v.VI16?
    ensures ReadFieldBegin(Parse((if first then [] else [Comma])
              + ([Quoted(Number(f.id)), Colon, LBrace, Quoted(TypeScalar(TypeOf(f.v)))] + rest),
              outer + [FieldContext(first)]))
         == Ok(Some(FieldHead(f.id, TypeOf(f.v))), Parse(rest, outer + [OBJECT_NEXT_VALUE] + [OBJECT_NEXT_VALUE]))
  {
    hide ReadFieldBegin, TypeScalar, ParseI64, Enter, ReadTag;
    var ctx: Stack := outer + [OBJECT_NEXT_VALUE];
    var name := Quoted(TypeScalar(TypeOf(f.v)));
    var sep := if first then [] else [Comma];
    var after := [Colon] + [LBrace] + ([name] + rest);
    var p := Parse(sep + [Quoted(Number(f.id))] + after, outer + [FieldContext(first)]);
    KeyAt(outer, first, f.id, after);
    ObjectAt(outer, [name] + rest);
    NameAt(ctx, TypeOf(f.v), rest);
    assert p.rem == sep + ([Quoted(Number(f.id)), Colon, LBrace, name] + rest);
    FieldBeginStep(p, f.id, Parse(after, ctx), Parse([name] + rest, ctx + [OBJECT_FIRST]), TypeOf(f.v),
                   Parse(rest, ctx + [OBJECT_NEXT_VALUE]));
  }

  lemma {:induction false} ReadsList(ctx: Stack, et: WireType, es: seq<Value>, rest: seq<Token>)
    requires |es| < TWO31 && WellFormedElems(es) && UntaggedElems(es) && et != I16
    requires forall e | e in es :: TypeOf(e) == et
    ensures ReadList(Placed(ctx, [LBracket, Quoted(TypeScalar(et)), Comma, Plain(Number(|es|))]
                                   + TextElems(es) + [RBracket], rest))
         == Ok((et, es), Parse(rest, PostValue(ctx)))
    decreases es, 1
  {
    hide TextElems, Enter, ReadElems, ParseListEnd, PostValue, Separator, TypeScalar, ReadTag, ParseI64;
    var t, n := Quoted(TypeScalar(et)), Plain(Number(|es|));
    var tail := TextElems(es) + ([RBracket] + rest);
    assert Separator(Top(ctx)) + ([LBracket, t, Comma, n] + TextElems(es) + [RBracket]) + rest
        == Separator(Top(ctx)) + [LBracket] + ([t, Comma, n] + tail);
    EntersAt(ctx, LBracket, LIST_FIRST, [t, Comma, n] + tail);
    FirstInList(ctx, et, [Comma, n] + tail);
    assert [t] + ([Comma, n] + tail) == [t, Comma, n] + tail;
    SizeInList(ctx, |es|, tail);
    assert [Comma, n] + tail == [Comma] + [n] + tail;
    ReadsElems(ctx, et, es, [RBracket] + rest);
    LeavesList(ctx, rest);
  }

  lemma FirstInList(ctx: Stack, t: TType, rest: seq<Token>)
    ensures ReadTag(Parse([Quoted(TypeScalar(t))] + rest, ctx + [LIST_FIRST]))
         == Ok(if t == I16 then STOP else t, Parse(rest, ctx + [IN_LIST]))
  {
    hide TypeScalar, ReadTag;
    var inner: Stack := ctx + [LIST_FIRST];
    assert [] + [Quoted(TypeScalar(t))] + rest == [Quoted(TypeScalar(t))] + rest;
    TagAt(inner, t, rest);
    PostTop(ctx, LIST_FIRST);
  }

  lemma TagInList(ctx: Stack, t: TType, rest: seq<Token>)
    ensures ReadTag(Parse([Comma] + [Quoted(TypeScalar(t))] + rest, ctx + [IN_LIST]))
         == Ok(if t == I16 then STOP else t, Parse(rest, ctx + [IN_LIST]))
  {
    hide TypeScalar, ReadTag;
    var inner: Stack := ctx + [IN_LIST];
    TagAt(inner, t, rest);
    PostTop(ctx, IN_LIST);
  }

  lemma SizeInList(ctx: Stack, n: nat, rest: seq<Token>)
    ensures ParseI64(Parse([Comma] + [Plain(Number(n))] + rest, ctx + [IN_LIST])) == Ok(n, Parse(rest, ctx + [IN_LIST]))
  {
    hide ParseI64;
    var inner: Stack := ctx + [IN_LIST];
    NumberAt(inner, n, rest);
    PostTop(ctx, IN_LIST);
  }

  lemma {:induction false} ValueInList(ctx: Stack, v: Value, rest: seq<Token>)
    requires WellFormed(v) && Untagged(v)
    ensures ReadAny(Parse([Comma] + Text(v) + rest, ctx + [IN_LIST]), TypeOf(v)) == Ok(v, Parse(rest, ctx + [IN_LIST]))
    decreases v, 2
  {
    hide Text, ReadAny;
    var inner: Stack := ctx + [IN_LIST];
    ReadsBack(inner, v, rest);
    PostTop(ctx, IN_LIST);
  }

  lemma {:induction false} ReadsElems(ctx: Stack, et: WireType, es: seq<Value>, rest: seq<Token>)
    requires WellFormedElems(es) && UntaggedElems(es) && forall e | e in es :: TypeOf(e) == et
    ensures ReadElems(Parse(TextElems(es) + rest, ctx + [IN_LIST]), et, |es|) == Ok(es, Parse(rest, ctx + [IN_LIST]))
    decreases es, 0
  {
    hide Text, ReadAny;
    if es == [] {
      assert [] + rest == rest;
    } else {
      var tail := TextElems(es[1..]) + rest;
      Concat3([Comma] + Text(es[0]), TextElems(es[1..]), rest);
      ValueInList(ctx, es[0], tail);
      ReadsElems(ctx, et, es[1..], rest);
      assert [es[0]] + es[1..] == es;
    }
  }

  lemma {:induction false} ReadsMap(ctx: Stack, kt: WireType, vt: WireType, es: seq<Entry>, rest: seq<Token>)
    requires |es| < TWO31 && WellFormedEntries(es) && UntaggedEntries(es) && kt != I16 && vt != I16
    requires forall e | e in es :: TypeOf(e.k) == kt && TypeOf(e.v) == vt
    ensures ReadMap(Placed(ctx, [LBracket, Quoted(TypeScalar(kt)), Comma, Quoted(TypeScalar(vt)), Comma, Plain(Number(|es|))]
                                  + TextEntries(es) + [RBracket], rest))
         == Ok(VMap(kt, vt, es), Parse(rest, PostValue(ctx)))
    decreases es, 1
  {
    hide TextEntries, Enter, ReadEntries, ParseListEnd, PostValue, Separator, TypeScalar, ReadTag, ParseI64;
    var k, v, n := Quoted(TypeScalar(kt)), Quoted(TypeScalar(vt)), Plain(Number(|es|));
    var tail := TextEntries(es) + ([RBracket] + rest);
    assert Separator(Top(ctx)) + ([LBracket, k, Comma, v, Comma, n] + TextEntries(es) + [RBracket]) + rest
        == Separator(Top(ctx)) + [LBracket] + ([k, Comma, v, Comma, n] + tail);
    EntersAt(ctx, LBracket, LIST_FIRST, [k, Comma, v, Comma, n] + tail);
    FirstInList(ctx, kt, [Comma, v, Comma, n] + tail);
    assert [k] + ([Comma, v, Comma, n] + tail) == [k, Comma, v, Comma, n] + tail;
    TagInList(ctx, vt, [Comma, n] + tail);
    assert [Comma] + [v] + ([Comma, n] + tail) == [Comma, v, Comma, n] + tail;
    SizeInList(ctx, |es|, tail);
    assert [Comma, n] + tail == [Comma] + [n] + tail;
    ReadsEntries(ctx, kt, vt, es, [RBracket] + rest);
    LeavesList(ctx, rest);
  }

  lemma {:induction false} ReadsEntries(ctx: Stack, kt: WireType, vt: WireType, es: seq<Entry>, rest: seq<Token>)
    requires WellFormedEntries(es) && UntaggedEntries(es)
    requires forall e | e in es :: TypeOf(e.k) == kt && TypeOf(e.v) == vt
    ensures ReadEntries(Parse(TextEntries(es) + rest, ctx + [IN_LIST]), kt, vt, |es|) == Ok(es, Parse(rest, ctx + [IN_LIST]))
    decreases es, 0
  {
    hide TextEntry, ReadAny;
    if es == [] {
      assert [] + rest == rest;
    } else {
      var tail := TextEntries(es[1..]) + rest;
      Concat3(TextEntry(es[0]), TextEntries(es[1..]), rest);
      ReadsEntry(ctx, es[0], tail);
      ReadsEntries(ctx, kt, vt, es[1..], rest);
      assert [Entry(es[0].k, es[0].v)] + es[1..] == es;
    }
  }

  lemma {:induction false} ReadsEntry(ctx: Stack, e: Entry, rest: seq<Token>)
    requires WellFormed(e.k) && WellFormed(e.v) && UntaggedEntry(e)
    ensures match ReadAny(Parse(TextEntry(e) + rest, ctx + [IN_LIST]), TypeOf(e.k))
            case Ok(k, p1) => k == e.k && ReadAny(p1, TypeOf(e.v)) == Ok(e.v, Parse(rest, ctx + [IN_LIST]))
            case Err => false
    decreases e, 0
  {
    hide Text, ReadAny;
    var more := [Comma] + Text(e.v) + rest;
    assert TextEntry(e) + rest == [Comma] + Text(e.k) + more;
    ValueInList(ctx, e.k, more);
    ValueInList(ctx, e.v, rest);
  }

  // ----- and the others do not come back -----

  ghost predicate Differs<T>(r: Result<T>, v: T) {
    r.Ok? ==> r.value != v
  }

  lemma {:induction false} ReadsWrong(ctx: Stack, v: Value, rest: seq<Token>)
    requires WellFormed(v) && !Untagged(v) && !IsKey(Top(ctx))
    ensures Differs(ReadAny(Placed(ctx, Text(v), rest), TypeOf(v)), v)
    decreases v, 1
  {
    hide ReadStruct, ReadMap, ReadList, Placed, ParseI64, ReadBool, ReadString, ReadDouble;
    hide TextFields, TextEntries, TextElems, TypeScalar, UntaggedFields, UntaggedEntries, UntaggedElems;
    match v
    case VStruct(fs) => StructWrong(ctx, fs, rest);
    case VMap(kt, vt, es) => MapWrong(ctx, kt, vt, es, rest);
    case VSet(et, es) => ListWrong(ctx, et, es, rest);
    case VList(et, es) => ListWrong(ctx, et, es, rest);
    case _ =>
  }

  lemma {:induction false} StructWrong(ctx: Stack, fs: seq<Field>, rest: seq<Token>)
    requires WellFormedFields(fs) && !UntaggedFields(fs)
    ensures Differs(ReadStruct(Placed(ctx, [LBrace] + TextFields(fs, true) + [RBrace], rest)), VStruct(fs))
    decreases fs, 1
  {
    hide TextFields, Enter, ReadFields, ParseObjectEnd, Separator;
    var tail := TextFields(fs, true) + ([RBrace] + rest);
    assert Separator(Top(ctx)) + ([LBrace] + TextFields(fs, true) + [RBrace]) + rest
        == Separator(Top(ctx)) + [LBrace] + tail;
    EntersAt(ctx, LBrace, OBJECT_FIRST, tail);
    FieldsWrong(ctx, true, fs, [RBrace] + rest);
  }

  lemma {:induction false} FieldsWrong(outer: Stack, first: bool, fs: seq<Field>, rest: seq<Token>)
    requires WellFormedFields(fs) && !UntaggedFields(fs)
    ensures Differs(ReadFields(Parse(TextFields(fs, first) + rest, outer + [FieldContext(first)])), fs)
    decreases fs, 0
  {
    hide TextField, TextFields, ParseObjectEnd, ReadAny, ReadFieldBegin, ReadFields;
    var p := Parse(TextFields(fs, first) + rest, outer + [FieldContext(first)]);
    var tail := TextFields(fs[1..], false) + rest;
    FirstField(fs, first, rest);
    if UntaggedField(fs[0]) {
      ReadsField(outer, first, fs[0], tail);
      FieldsWrong(outer, false, fs[1..], rest);
      LaterFieldWrong(p, fs[0], Parse(tail, outer + [OBJECT_NEXT_KEY]), fs);
    } else {
      FieldWrong(outer, first, fs[0], tail);
      FirstFieldWrong(p, fs);
    }
  }

  lemma LaterFieldWrong(p: Parse, f: Field, next: Parse, fs: seq<Field>)
    requires fs != [] && f == fs[0] && FieldReads(p, f, next) && Differs(ReadFields(next), fs[1..])
    ensures Differs(ReadFields(p), fs)
  {
    hide ReadFieldBegin, ReadAny, ParseObjectEnd;
    match ReadFields(next)
    case Ok(more, _) => assert ([Field(f.id, f.v)] + more)[1..] == more;
    case Err =>
  }

  /** The field is taken for the end of the struct, or its value comes back different. */
  predicate FieldReadsWrong(p: Parse, f: Field) {
    match ReadFieldBegin(p)
    case Ok(Some(head), p1) =>
      head.t == STOP || (match ReadAny(p1, head.t) case Ok(v, _) => v != f.v case Err => true)
    case Ok(None, _) => true
    case Err => true
  }

  lemma FirstFieldWrong(p: Parse, fs: seq<Field>)
    requires fs != [] && FieldReadsWrong(p, fs[0])
    ensures Differs(ReadFields(p), fs)
  {
    hide ReadFieldBegin, ReadAny, ParseObjectEnd;
  }

  lemma {:induction false} FieldWrong(outer: Stack, first: bool, f: Field, rest: seq<Token>)
    requires IsInt16(f.id) && WellFormed(f.v) && !UntaggedField(f)
    ensures FieldReadsWrong(Parse((if first then [] else [Comma]) + TextField(f) + rest, outer + [FieldContext(first)]), f)
    decreases f, 0
  {
    hide Text, ReadAny, ReadFieldBegin, TypeScalar;
    var inner: Stack := outer + [OBJECT_NEXT_VALUE] + [OBJECT_NEXT_VALUE];
    var tail := [Colon] + Text(f.v) + ([RBrace] + rest);
    assert (if first then [] else [Comma]) + TextField(f) + rest
        == (if first then [] else [Comma]) + ([Quoted(Number(f.id)), Colon, LBrace, Quoted(TypeScalar(TypeOf(f.v)))] + tail);
    if f.v.VI16? {
      ShortFieldBegin(outer, first, f, tail);
    } else {
      FieldBeginAt(outer, first, f, tail);
      ReadsWrong(inner, f.v, [RBrace] + rest);
    }
  }

  /** A 16-bit field reads as the end of its struct. */
  lemma ShortFieldBegin(outer: Stack, first: bool, f: Field, rest: seq<Token>)
    requires f.v.VI16?
    ensures ReadFieldBegin(Parse((if first then [] else [Comma])
              + ([Quoted(Number(f.id)), Colon, LBrace, Quoted(TypeScalar(TypeOf(f.v)))] + rest),
              outer + [FieldContext(first)]))
         == Ok(Some(FieldHead(S16(f.id), STOP)), Parse(rest, outer + [OBJECT_NEXT_VALUE] + [OBJECT_NEXT_VALUE]))
  {
    hide ReadFieldBegin, TypeScalar, ParseI64, Enter, ReadTag;
    var ctx: Stack := outer + [OBJECT_NEXT_VALUE];
    var name := Quoted(TypeScalar(I16));
    var sep := if first then [] else [Comma];
    var after := [Colon] + [LBrace] + ([name] + rest);
    var p := Parse(sep + [Quoted(Number(f.id))] + after, outer + [FieldContext(first)]);
    KeyAt(outer, first, f.id, after);
    ObjectAt(outer, [name] + rest);
    NameAt(ctx, I16, rest);
    assert p.rem == sep + ([Quoted(Number(f.id)), Colon, LBrace, name] + rest);
    FieldBeginStep(p, f.id, Parse(after, ctx), Parse([name] + rest, ctx + [OBJECT_FIRST]), STOP,
                   Parse(rest, ctx + [OBJECT_NEXT_VALUE]));
  }

  lemma {:induction false} ListWrong(ctx: Stack, et: WireType, es: seq<Value>, rest: seq<Token>)
    requires |es| < TWO31 && WellFormedElems(es) && (et == I16 || !UntaggedElems(es))
    requires forall e | e in es :: TypeOf(e) == et
    ensures Differs(ReadList(Placed(ctx, [LBracket, Quoted(TypeScalar(et)), Comma, Plain(Number(|es|))]
                                           + TextElems(es) + [RBracket], rest)), (et, es))
    decreases es, 1
  {
    hide TextElems, Enter, ReadElems, ParseListEnd, Separator, TypeScalar, ReadTag, ParseI64;
    var t, n := Quoted(TypeScalar(et)), Plain(Number(|es|));
    var tail := TextElems(es) + ([RBracket] + rest);
    assert Separator(Top(ctx)) + ([LBracket, t, Comma, n] + TextElems(es) + [RBracket]) + rest
        == Separator(Top(ctx)) + [LBracket] + ([t, Comma, n] + tail);
    EntersAt(ctx, LBracket, LIST_FIRST, [t, Comma, n] + tail);
    FirstInList(ctx, et, [Comma, n] + tail);
    assert [t] + ([Comma, n] + tail) == [t, Comma, n] + tail;
    SizeInList(ctx, |es|, tail);
    assert [Comma, n] + tail == [Comma] + [n] + tail;
    if et != I16 {
      ElemsWrong(ctx, et, es, [RBracket] + rest);
    }
  }

  lemma {:induction false} WrongInList(ctx: Stack, v: Value, rest: seq<Token>)
    requires WellFormed(v) && !Untagged(v)
    ensures Differs(ReadAny(Parse([Comma] + Text(v) + rest, ctx + [IN_LIST]), TypeOf(v)), v)
    decreases v, 2
  {
    hide Text, ReadAny;
    var inner: Stack := ctx + [IN_LIST];
    ReadsWrong(inner, v, rest);
  }

  lemma {:induction false} ElemsWrong(ctx: Stack, et: WireType, es: seq<Value>, rest: seq<Token>)
    requires WellFormedElems(es) && !UntaggedElems(es) && forall e | e in es :: TypeOf(e) == et
    ensures Differs(ReadElems(Parse(TextElems(es) + rest, ctx + [IN_LIST]), et, |es|), es)
    decreases es, 0
  {
    hide Text, ReadAny, Untagged;
    var tail := TextElems(es[1..]) + rest;
    Concat3([Comma] + Text(es[0]), TextElems(es[1..]), rest);
    if Untagged(es[0]) {
      ValueInList(ctx, es[0], tail);
      ElemsWrong(ctx, et, es[1..], rest);
      match ReadElems(Parse(tail, ctx + [IN_LIST]), et, |es| - 1)
      case Ok(more, _) => assert ([es[0]] + more)[1..] == more;
      case Err =>
    } else {
      WrongInList(ctx, es[0], tail);
    }
  }

  lemma {:induction false} MapWrong(ctx: Stack, kt: WireType, vt: WireType, es: seq<Entry>, rest: seq<Token>)
    requires |es| < TWO31 && WellFormedEntries(es) && (kt == I16 || vt == I16 || !UntaggedEntries(es))
    requires forall e | e in es :: TypeOf(e.k) == kt && TypeOf(e.v) == vt
    ensures Differs(ReadMap(Placed(ctx, [LBracket, Quoted(TypeScalar(kt)), Comma, Quoted(TypeScalar(vt)), Comma,
                                         Plain(Number(|es|))] + TextEntries(es) + [RBracket], rest)), VMap(kt, vt, es))
    decreases es, 1
  {
    hide TextEntries, Enter, ReadEntries, ParseListEnd, Separator, TypeScalar, ReadTag, ParseI64;
    var k, v, n := Quoted(TypeScalar(kt)), Quoted(TypeScalar(vt)), Plain(Number(|es|));
    var tail := TextEntries(es) + ([RBracket] + rest);
    assert Separator(Top(ctx)) + ([LBracket, k, Comma, v, Comma, n] + TextEntries(es) + [RBracket]) + rest
        == Separator(Top(ctx)) + [LBracket] + ([k, Comma, v, Comma, n] + tail);
    EntersAt(ctx, LBracket, LIST_FIRST, [k, Comma, v, Comma, n] + tail);
    FirstInList(ctx, kt, [Comma, v, Comma, n] + tail);
    assert [k] + ([Comma, v, Comma, n] + tail) == [k, Comma, v, Comma, n] + tail;
    TagInList(ctx, vt, [Comma, n] + tail);
    assert [Comma] + [v] + ([Comma, n] + tail) == [Comma, v, Comma, n] + tail;
    SizeInList(ctx, |es|, tail);
    assert [Comma, n] + tail == [Comma] + [n] + tail;
    if kt != I16 && vt != I16 {
      EntriesWrong(ctx, kt, vt, es, [RBracket] + rest);
    }
  }

  lemma {:induction false} EntriesWrong(ctx: Stack, kt: WireType, vt: WireType, es: seq<Entry>, rest: seq<Token>)
    requires WellFormedEntries(es) && !UntaggedEntries(es)
    requires forall e | e in es :: TypeOf(e.k) == kt && TypeOf(e.v) == vt
    ensures Differs(ReadEntries(Parse(TextEntries(es) + rest, ctx + [IN_LIST]), kt, vt, |es|), es)
    decreases es, 0
  {
    hide TextEntry, ReadAny, UntaggedEntry;
    var tail := TextEntries(es[1..]) + rest;
    Concat3(TextEntry(es[0]), TextEntries(es[1..]), rest);
    if UntaggedEntry(es[0]) {
      ReadsEntry(ctx, es[0], tail);
      EntriesWrong(ctx, kt, vt, es[1..], rest);
      match ReadEntries(Parse(tail, ctx + [IN_LIST]), kt, vt, |es| - 1)
      case Ok(more, _) => assert ([Entry(es[0].k, es[0].v)] + more)[1..] == more;
      case Err =>
    } else {
      EntryWrong(ctx, es[0], tail);
    }
  }

  lemma {:induction false} EntryWrong(ctx: Stack, e: Entry, rest: seq<Token>)
    requires WellFormed(e.k) && WellFormed(e.v) && !UntaggedEntry(e)
    ensures match ReadAny(Parse(TextEntry(e) + rest, ctx + [IN_LIST]), TypeOf(e.k))
            case Ok(k, p1) => k != e.k || Differs(ReadAny(p1, TypeOf(e.v)), e.v)
            case Err => true
    decreases e, 0
  {
    hide Text, ReadAny, Untagged;
    var more := [Comma] + Text(e.v) + rest;
    assert TextEntry(e) + rest == [Comma] + Text(e.k) + more;
    if Untagged(e.k) {
      ValueInList(ctx, e.k, more);
      WrongInList(ctx, e.v, rest);
    } else {
      WrongInList(ctx, e.k, more);
    }
  }

  // ----- main result -----

  /** Whatever surrounds it, the text the writer produces for a tree is read back, by its own tags, as
      that tree, with what follows it untouched and the stack where the writer's is, if and only if no
      field, element, key or value in it is announced as a 16-bit integer. */
  lemma JsonRoundTrip(ctx: Stack, v: Value, rest: seq<Token>)
    requires WellFormed(v) && !IsKey(Top(ctx))
    ensures Run(Dump([], ctx), Calls(v)) == Done(Dump(Separator(Top(ctx)) + Text(v), PostValue(ctx)))
    ensures ReadAny(Parse(Separator(Top(ctx)) + Text(v) + rest, ctx), TypeOf(v)) == Ok(v, Parse(rest, PostValue(ctx)))
       <==> Untagged(v)
  {
    hide Text, Calls, Run, ReadAny, Untagged;
    Writes(Dump([], ctx), v);
    assert [] + (Separator(Top(ctx)) + Text(v)) == Separator(Top(ctx)) + Text(v);
    if Untagged(v) {
      ReadsBack(ctx, v, rest);
    } else {
      ReadsWrong(ctx, v, rest);
    }
  }
}
