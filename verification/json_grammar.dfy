/** The grammar of RFC 8259, sections 4 and 5, over tokens, as a recogniser that knows nothing of the
    writer; and the texts the writer produces in it. */
module JsonGrammar {
  import opened Bits
  import opened Wire
  import opened Wrappers
  import opened Json

  type Rest = Option<seq<Token>>

  /** The eleven exponent bits of a double kept low byte first. */
  function ExponentField(bits: seq<byte>): nat
    requires |bits| == 8
  {
    var low: int, high: int := bits[6], bits[7];
    16 * (high % 128) + low / 16
  }

  /** Numbers, true and false may stand bare. Characters may not, nor may an infinity or a NaN, whose
      exponent bits are all ones: section 6 has no spelling for them. */
  predicate MayBeBare(s: Scalar) {
    match s
    case Chars(_) => false
    case Real(bits) => |bits| == 8 && ExponentField(bits) != 2047
    case _ => true
  }

  // value = object / array / string / number / true / false
  function AcceptValue(ts: seq<Token>): (r: Rest)
    ensures r.Some? ==> |r.value| < |ts|
    decreases |ts|, 0
  {
    if ts == [] then None
    else match ts[0]
      case Plain(s) => if MayBeBare(s) then Some(ts[1..]) else None
      case Quoted(_) => Some(ts[1..])
      case LBrace => if |ts| > 1 && ts[1] == RBrace then Some(ts[2..]) else AcceptMembers(ts[1..])
      case LBracket => if |ts| > 1 && ts[1] == RBracket then Some(ts[2..]) else AcceptElements(ts[1..])
      case _ => None
  }

  // value *( value-separator value ) end-array
  function AcceptElements(ts: seq<Token>): (r: Rest)
    ensures r.Some? ==> |r.value| < |ts|
    decreases |ts|, 1
  {
    match AcceptValue(ts)
    case None => None
    case Some(rest) =>
      if rest == [] then None
      else if rest[0] == Comma then AcceptElements(rest[1..])
      else if rest[0] == RBracket then Some(rest[1..])
      else None
  }

  // string name-separator value *( value-separator member ) end-object
  function AcceptMembers(ts: seq<Token>): (r: Rest)
    ensures r.Some? ==> |r.value| < |ts|
    decreases |ts|, 1
  {
    if |ts| < 2 || !ts[0].Quoted? || ts[1] != Colon then None
    else match AcceptValue(ts[2..])
      case None => None
      case Some(rest) =>
        if rest == [] then None
        else if rest[0] == Comma then AcceptMembers(rest[1..])
        else if rest[0] == RBrace then Some(rest[1..])
        else None
  }

  predicate IsJson(ts: seq<Token>) {
    AcceptValue(ts) == Some([])
  }

  /** Every tree's text is one JSON value: commas, colons and quoted keys are where the grammar wants
      them, at any nesting. */
  lemma {:induction false} TextIsValue(v: Value, rest: seq<Token>)
    requires WellFormed(v)
    ensures AcceptValue(Text(v) + rest) == Some(rest)
    decreases v, 1
  {
    match v
    case VStruct(fs) => StructIsValue(fs, rest);
    case VMap(kt, vt, es) => MapIsValue(kt, vt, es, rest);
    case VSet(et, es) => ListIsValue(et, es, rest);
    case VList(et, es) => ListIsValue(et, es, rest);
    case VDouble(bits) =>
      QuotedIff(Real(bits), TOPLEVEL);
      ScalarIsValue(ScalarToken(Real(bits), TOPLEVEL), rest);
    case _ =>
      var t := Text(v)[0];
      assert Text(v) + rest == [t] + rest;
      ScalarIsValue(t, rest);
  }

  /** Outside a key a scalar is quoted if and only if it may not be bare; in a key always. */
  lemma QuotedIff(s: Scalar, c: Context)
    requires s.Real? ==> |s.bits| == 8
    ensures var t := ScalarToken(s, c);
            (t == Quoted(s) || t == Plain(s)) && (t.Quoted? <==> IsKey(c) || !MayBeBare(s))
  {
  }

  lemma ScalarIsValue(t: Token, rest: seq<Token>)
    requires t.Quoted? || (t.Plain? && MayBeBare(t.s))
    ensures AcceptValue([t] + rest) == Some(rest)
  {
    assert ([t] + rest)[1..] == rest;
  }

  lemma {:induction false} StructIsValue(fs: seq<Field>, rest: seq<Token>)
    requires WellFormedFields(fs)
    ensures AcceptValue([LBrace] + TextFields(fs, true) + [RBrace] + rest) == Some(rest)
    decreases fs, 1
  {
    hide AcceptMembers;
    var ts := [LBrace] + TextFields(fs, true) + [RBrace] + rest;
    if fs == [] {
      assert ts == [LBrace, RBrace] + rest;
      assert ts[2..] == rest;
    } else {
      FieldsAreMembers(fs, rest);
      assert ts[1..] == TextFields(fs, true) + ([RBrace] + rest);
      FirstToken(fs);
      assert ts[1] == TextFields(fs, true)[0];
    }
  }

  lemma FirstToken(fs: seq<Field>)
    requires WellFormedFields(fs) && fs != []
    ensures TextFields(fs, true) != [] && TextFields(fs, true)[0].Quoted?
  {
    hide Text;
    var one := TextField(fs[0]);
    assert one[0] == Quoted(Number(fs[0].id));
    assert TextFields(fs, true) == [] + one + TextFields(fs[1..], false);
    hide TextField;
  }

  lemma CommaFields(fs: seq<Field>)
    requires WellFormedFields(fs) && fs != []
    ensures TextFields(fs, false) == [Comma] + TextFields(fs, true)
  {
    hide Text, TextField;
    var one := TextField(fs[0]);
    assert [] + one + TextFields(fs[1..], false) == one + TextFields(fs[1..], false);
    Concat3([Comma], one, TextFields(fs[1..], false));
  }

  // one member: its name, its value, and what follows decides

  lemma MemberThen(name: Token, value: seq<Token>, tail: seq<Token>)
    requires name.Quoted? && tail != [] && AcceptValue(value + tail) == Some(tail)
    ensures AcceptMembers([name, Colon] + value + tail)
         == if tail[0] == Comma then AcceptMembers(tail[1..])
            else if tail[0] == RBrace then Some(tail[1..]) else None
  {
    hide AcceptValue, AcceptElements;
    assert ([name, Colon] + value + tail)[2..] == value + tail;
  }

  lemma ElementThen(value: seq<Token>, tail: seq<Token>)
    requires tail != [] && AcceptValue(value + tail) == Some(tail)
    ensures AcceptElements(value + tail)
         == if tail[0] == Comma then AcceptElements(tail[1..])
            else if tail[0] == RBracket then Some(tail[1..]) else None
  {
    hide AcceptValue;
  }

  lemma {:induction false} FieldsAreMembers(fs: seq<Field>, rest: seq<Token>)
    requires WellFormedFields(fs) && fs != []
    ensures AcceptMembers(TextFields(fs, true) + ([RBrace] + rest)) == Some(rest)
    decreases fs, 0
  {
    hide Text, AcceptValue, AcceptMembers, TextField;
    var tail := TextFields(fs[1..], false) + ([RBrace] + rest);
    FieldIsMember(fs[0], tail, if fs[1..] == [] then RBrace else Comma);
    assert TextFields(fs, true) + ([RBrace] + rest) == TextField(fs[0]) + tail;
    if fs[1..] == [] {
      assert tail == [RBrace] + rest;
    } else {
      CommaFields(fs[1..]);
      FieldsAreMembers(fs[1..], rest);
      assert tail[1..] == TextFields(fs[1..], true) + ([RBrace] + rest);
    }
  }

  lemma {:induction false} FieldIsMember(f: Field, tail: seq<Token>, next: Token)
    requires WellFormed(f.v)
    ensures tail != [] && tail[0] == next && (next == RBrace || next == Comma) ==>
              AcceptMembers(TextField(f) + tail) == if next == Comma then AcceptMembers(tail[1..]) else Some(tail[1..])
    decreases f, 0
  {
    hide Text, AcceptValue, AcceptMembers, TypeScalar;
    var name := Quoted(TypeScalar(TypeOf(f.v)));
    var inner := [name, Colon] + Text(f.v) + ([RBrace] + tail);
    TextIsValue(f.v, [RBrace] + tail);
    MemberThen(name, Text(f.v), [RBrace] + tail);
    assert ([RBrace] + tail)[1..] == tail;
    var value := [LBrace, name, Colon] + Text(f.v) + [RBrace];
    assert value + tail == [LBrace] + inner;
    ObjectIs(inner);
    if tail != [] {
      MemberThen(Quoted(Number(f.id)), value, tail);
      assert TextField(f) + tail == [Quoted(Number(f.id)), Colon] + value + tail;
    }
  }

  lemma ObjectIs(inner: seq<Token>)
    requires inner != [] && inner[0] != RBrace
    ensures AcceptValue([LBrace] + inner) == AcceptMembers(inner)
  {
    assert ([LBrace] + inner)[1..] == inner;
    hide AcceptMembers;
  }

  lemma ArrayIs(inner: seq<Token>)
    requires inner != [] && inner[0] != RBracket
    ensures AcceptValue([LBracket] + inner) == AcceptElements(inner)
  {
    assert ([LBracket] + inner)[1..] == inner;
    hide AcceptElements;
  }

  /** A scalar element and the comma after it. */
  lemma ScalarElement(t: Token, more: seq<Token>)
    requires t.Quoted? || (t.Plain? && MayBeBare(t.s))
    ensures AcceptElements([t, Comma] + more) == AcceptElements(more)
  {
    hide AcceptElements, AcceptValue;
    ScalarIsValue(t, [Comma] + more);
    ElementThen([t], [Comma] + more);
    assert [t, Comma] + more == [t] + ([Comma] + more);
    assert ([Comma] + more)[1..] == more;
  }

  lemma {:induction false} ListIsValue(et: WireType, es: seq<Value>, rest: seq<Token>)
    requires WellFormedElems(es)
    ensures AcceptValue([LBracket, Quoted(TypeScalar(et)), Comma, Plain(Number(|es|))] + TextElems(es) + [RBracket] + rest)
         == Some(rest)
    decreases es, 2
  {
    hide AcceptElements, AcceptValue, Text, TypeScalar;
    var t, n := Quoted(TypeScalar(et)), Plain(Number(|es|));
    var more := [n] + (TextElems(es) + ([RBracket] + rest));
    ElemsAreElements(n, es, rest);
    ScalarElement(t, more);
    ArrayIs([t, Comma] + more);
    assert [LBracket, t, Comma, n] + TextElems(es) + [RBracket] + rest == [LBracket] + ([t, Comma] + more);
  }

  /** An accepted value and then the elements of a list. */
  lemma {:induction false} ElemsAreElements(t: Token, es: seq<Value>, rest: seq<Token>)
    requires WellFormedElems(es) && (t.Quoted? || (t.Plain? && MayBeBare(t.s)))
    ensures AcceptElements([t] + (TextElems(es) + ([RBracket] + rest))) == Some(rest)
    decreases es, 1
  {
    hide AcceptElements, AcceptValue, Text;
    var tail := TextElems(es) + ([RBracket] + rest);
    ScalarIsValue(t, tail);
    ElementThen([t], tail);
    MoreElements(es, rest);
  }

  lemma {:induction false} MoreElements(es: seq<Value>, rest: seq<Token>)
    requires WellFormedElems(es)
    ensures var tail := TextElems(es) + ([RBracket] + rest);
            && tail[0] == (if es == [] then RBracket else Comma)
            && (es == [] ==> tail[1..] == rest)
            && (es != [] ==> AcceptElements(tail[1..]) == Some(rest))
    decreases es, 0
  {
    hide AcceptElements, AcceptValue, Text;
    if es == [] {
      assert [] + ([RBracket] + rest) == [RBracket] + rest;
    } else {
      var tail := TextElems(es[1..]) + ([RBracket] + rest);
      MoreElements(es[1..], rest);
      OneMoreElement(es[0], tail);
      ElemsThen(es, [RBracket] + rest);
    }
  }

  lemma OneMoreElement(v: Value, tail: seq<Token>)
    requires WellFormed(v) && tail != [] && (tail[0] == Comma || tail[0] == RBracket)
    ensures AcceptElements(Text(v) + tail) == if tail[0] == Comma then AcceptElements(tail[1..]) else Some(tail[1..])
    decreases v, 2
  {
    hide AcceptElements, AcceptValue, Text;
    TextIsValue(v, tail);
    ElementThen(Text(v), tail);
  }

  lemma ElemsThen(es: seq<Value>, end: seq<Token>)
    requires WellFormedElems(es) && es != []
    ensures TextElems(es) + end == [Comma] + (Text(es[0]) + (TextElems(es[1..]) + end))
  {
    hide Text;
    assert TextElems(es) == [Comma] + Text(es[0]) + TextElems(es[1..]);
    hide TextElems;
  }

  lemma {:induction false} MapIsValue(kt: WireType, vt: WireType, es: seq<Entry>, rest: seq<Token>)
    requires WellFormedEntries(es)
    ensures AcceptValue([LBracket, Quoted(TypeScalar(kt)), Comma, Quoted(TypeScalar(vt)), Comma, Plain(Number(|es|))]
                        + TextEntries(es) + [RBracket] + rest)
         == Some(rest)
    decreases es, 1
  {
    hide AcceptElements, AcceptValue, TextEntry, TypeScalar;
    var k, v, n := Quoted(TypeScalar(kt)), Quoted(TypeScalar(vt)), Plain(Number(|es|));
    var tail := TextEntries(es) + ([RBracket] + rest);
    MoreEntries(es, rest);
    ScalarIsValue(n, tail);
    ElementThen([n], tail);
    ScalarElement(v, [n] + tail);
    ScalarElement(k, [v, Comma] + ([n] + tail));
    ArrayIs([k, Comma] + ([v, Comma] + ([n] + tail)));
    assert [LBracket, k, Comma, v, Comma, n] + TextEntries(es) + [RBracket] + rest
        == [LBracket] + ([k, Comma] + ([v, Comma] + ([n] + tail)));
  }

  lemma {:induction false} MoreEntries(es: seq<Entry>, rest: seq<Token>)
    requires WellFormedEntries(es)
    ensures var tail := TextEntries(es) + ([RBracket] + rest);
            && tail[0] == (if es == [] then RBracket else Comma)
            && (es == [] ==> tail[1..] == rest)
            && (es != [] ==> AcceptElements(tail[1..]) == Some(rest))
    decreases es, 0
  {
    hide AcceptElements, AcceptValue, Text, TextEntry;
    if es == [] {
      assert [] + ([RBracket] + rest) == [RBracket] + rest;
    } else {
      MoreEntries(es[1..], rest);
      var tail := TextEntries(es[1..]) + ([RBracket] + rest);
      EntryIsElements(es[0], tail);
      assert TextEntries(es) + ([RBracket] + rest) == TextEntry(es[0]) + tail;
    }
  }

  lemma {:induction false} EntryIsElements(e: Entry, tail: seq<Token>)
    requires WellFormed(e.k) && WellFormed(e.v) && tail != [] && (tail[0] == Comma || tail[0] == RBracket)
    ensures var ts := TextEntry(e) + tail;
            && ts[0] == Comma
            && AcceptElements(ts[1..]) == if tail[0] == Comma then AcceptElements(tail[1..]) else Some(tail[1..])
    decreases e, 0
  {
    hide AcceptElements, AcceptValue, Text;
    TextIsValue(e.v, tail);
    ElementThen(Text(e.v), tail);
    var more := [Comma] + (Text(e.v) + tail);
    TextIsValue(e.k, more);
    ElementThen(Text(e.k), more);
    assert more[1..] == Text(e.v) + tail;
    assert (TextEntry(e) + tail)[1..] == Text(e.k) + more;
  }

  /** A fresh protocol writing any tree: the output is JSON, and the stack is back where it was. The
      constructor leaves two TOPLEVEL entries. */
  const FRESH := Dump([], [TOPLEVEL, TOPLEVEL])

  lemma WriterWritesJson(v: Value)
    requires WellFormed(v)
    ensures Run(FRESH, Calls(v)) == Done(Dump(Text(v), FRESH.ctx)) && IsJson(Text(v))
  {
    hide Text, Calls, Run, AcceptValue;
    Writes(FRESH, v);
    assert Wrote(FRESH, Text(v)) == Dump(Text(v), FRESH.ctx);
    assert Text(v) + [] == Text(v);
    TextIsValue(v, []);
  }

  /** A whole message: version, name, type, sequence id and the tree are one array. */
  function MessageCalls(name: seq<byte>, typeId: int, seqId: int, v: Value): seq<Call>
    requires WellFormed(v)
  {
    [ListBegin, Value(Number(1)), Value(Chars(name)), Value(Number(typeId % 256)), Value(Number(seqId))]
    + Calls(v) + [ListEnd]
  }

  function MessageText(name: seq<byte>, typeId: int, seqId: int, v: Value): seq<Token>
    requires WellFormed(v)
  {
    [LBracket, Plain(Number(1)), Comma, Quoted(Chars(name)), Comma, Plain(Number(typeId % 256)), Comma,
     Plain(Number(seqId))] + ([Comma] + Text(v)) + [RBracket]
  }

  lemma MessageHead(name: seq<byte>, typeId: int, seqId: int)
    ensures Run(FRESH, [ListBegin, Value(Number(1)), Value(Chars(name)), Value(Number(typeId % 256)), Value(Number(seqId))])
         == Done(Dump([] + (Separator(Top(FRESH.ctx))
                        + [LBracket, Plain(Number(1)), Comma, Quoted(Chars(name)), Comma, Plain(Number(typeId % 256)),
                           Comma, Plain(Number(seqId))]),
                      FRESH.ctx + [IN_LIST]))
  {
    hide Run, Step;
    var ctx := FRESH.ctx;
    var d1 := Dump([] + ([] + [LBracket]), ctx + [LIST_FIRST]);
    var d2 := Dump(d1.out + ([] + [Plain(Number(1))]), ctx + [IN_LIST]);
    var d3 := Dump(d2.out + ([Comma] + [Quoted(Chars(name))]), ctx + [IN_LIST]);
    var d4 := Dump(d3.out + ([Comma] + [Plain(Number(typeId % 256))]), ctx + [IN_LIST]);
    var d5 := Dump(d4.out + ([Comma] + [Plain(Number(seqId))]), ctx + [IN_LIST]);
    StepBegin([], ctx);
    StepValue(d1.out, ctx, LIST_FIRST, Number(1));
    StepValue(d2.out, ctx, IN_LIST, Chars(name));
    StepValue(d3.out, ctx, IN_LIST, Number(typeId % 256));
    StepValue(d4.out, ctx, IN_LIST, Number(seqId));
    var c2, c3, c4, c5 := Value(Number(1)), Value(Chars(name)), Value(Number(typeId % 256)), Value(Number(seqId));
    RunOne(d4, c5);
    RunCons(d3, c4, [c5]);
    RunCons(d2, c3, [c4] + [c5]);
    RunCons(d1, c2, [c3] + ([c4] + [c5]));
    RunCons(FRESH, ListBegin, [c2] + ([c3] + ([c4] + [c5])));
    assert [ListBegin] + ([c2] + ([c3] + ([c4] + [c5]))) == [ListBegin, c2, c3, c4, c5];
  }

  lemma MessageIsWritten(name: seq<byte>, typeId: int, seqId: int, v: Value)
    requires WellFormed(v)
    ensures Run(FRESH, MessageCalls(name, typeId, seqId, v)) == Done(Dump(MessageText(name, typeId, seqId, v), FRESH.ctx))
  {
    hide Run, Step, Calls, Text;
    var c2, c3, c4, c5 := Value(Number(1)), Value(Chars(name)), Value(Number(typeId % 256)), Value(Number(seqId));
    var open := [LBracket, Plain(Number(1)), Comma, Quoted(Chars(name)), Comma, Plain(Number(typeId % 256)), Comma,
                 Plain(Number(seqId))];
    MessageHead(name, typeId, seqId);
    var inner := Dump([] + (Separator(Top(FRESH.ctx)) + open), FRESH.ctx + [IN_LIST]);
    Writes(inner, v);
    InList(inner, Text(v));
    assert [ListBegin, c2, c3, c4, c5] == [ListBegin] + [c2, c3, c4, c5];
    Encloses(FRESH, ListBegin, [c2, c3, c4, c5], Calls(v), ListEnd, open, IN_LIST, [Comma] + Text(v), IN_LIST, RBracket);
    assert Wrote(FRESH, MessageText(name, typeId, seqId, v)) == Dump(MessageText(name, typeId, seqId, v), FRESH.ctx);
  }

  lemma MessageIsArray(name: seq<byte>, typeId: int, seqId: int, v: Value)
    requires WellFormed(v)
    ensures IsJson(MessageText(name, typeId, seqId, v))
  {
    hide Text, AcceptValue, AcceptElements;
    var t1, t2, t3, t4 := Plain(Number(1)), Quoted(Chars(name)), Plain(Number(typeId % 256)), Plain(Number(seqId));
    TextIsValue(v, [RBracket]);
    ElementThen(Text(v), [RBracket]);
    var last := Text(v) + [RBracket];
    ScalarElement(t4, last);
    ScalarElement(t3, [t4, Comma] + last);
    ScalarElement(t2, [t3, Comma] + ([t4, Comma] + last));
    var all := [t2, Comma] + ([t3, Comma] + ([t4, Comma] + last));
    ScalarElement(t1, all);
    ArrayIs([t1, Comma] + all);
    assert MessageText(name, typeId, seqId, v) == [LBracket] + ([t1, Comma] + all);
  }
}
