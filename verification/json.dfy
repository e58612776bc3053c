/** What the Go JSON protocol writes: a stack of contexts decides which comma, colon or quote goes
    before each value. Text is a sequence of tokens; a scalar token stands for its spelling. */
module Json {
  import opened Bits
  import opened Wire

  datatype Context = TOPLEVEL | LIST_FIRST | IN_LIST | OBJECT_FIRST | OBJECT_NEXT_KEY | OBJECT_NEXT_VALUE

  datatype Scalar = Number(i: int) | Flag(b: bool) | Chars(bytes: seq<byte>) | Real(bits: seq<byte>)

  datatype Token =
    | LBrace | RBrace | LBracket | RBracket | Comma | Colon
    | Plain(s: Scalar)   // a number, true or false
    | Quoted(s: Scalar)  // the same, or characters, between quotes

  type Stack = s: seq<Context> | s != [] witness [TOPLEVEL]

  // ----- the context machine -----

  /** OutputPreValue: what separates a value from what came before it. */
  function Separator(c: Context): seq<Token> {
    match c
    case IN_LIST => [Comma]
    case OBJECT_NEXT_KEY => [Comma]
    case OBJECT_NEXT_VALUE => [Colon]
    case _ => []
  }

  /** OutputPostValue: the context after a value. */
  function After(c: Context): Context {
    match c
    case LIST_FIRST => IN_LIST
    case OBJECT_FIRST => OBJECT_NEXT_VALUE
    case OBJECT_NEXT_KEY => OBJECT_NEXT_VALUE
    case OBJECT_NEXT_VALUE => OBJECT_NEXT_KEY
    case _ => c
  }

  function Top(s: Stack): Context { s[|s| - 1] }

  function PostValue(s: Stack): Stack { s[..|s| - 1] + [After(Top(s))] }

  predicate IsKey(c: Context) { c == OBJECT_FIRST || c == OBJECT_NEXT_KEY }

  /** Infinities and NaNs: exponent bits all ones, in a double kept low byte first. */
  predicate NotFinite(bits: seq<byte>) {
    |bits| == 8 && bits[7] % 128 == 127 && bits[6] >= 240
  }

  /** Characters and the special doubles are always quoted, the rest only as a key. */
  function ScalarToken(s: Scalar, c: Context): Token {
    if s.Chars? || IsKey(c) || (s.Real? && NotFinite(s.bits)) then Quoted(s) else Plain(s)
  }

  datatype Dump = Dump(out: seq<Token>, ctx: Stack)

  /** The Output calls. The Go code indexes an empty stack, and panics, on an end too many. */
  datatype Call = Value(s: Scalar) | ObjectBegin | ObjectEnd | ListBegin | ListEnd

  predicate CanCall(ctx: Stack, c: Call) {
    c.ObjectEnd? || c.ListEnd? ==> |ctx| > 1
  }

  function CallTokens(ctx: Stack, c: Call): seq<Token> {
    match c
    case Value(s) => Separator(Top(ctx)) + [ScalarToken(s, Top(ctx))]
    case ObjectBegin => Separator(Top(ctx)) + [LBrace]
    case ListBegin => Separator(Top(ctx)) + [LBracket]
    case ObjectEnd => [RBrace]
    case ListEnd => [RBracket]
  }

  function CallContext(ctx: Stack, c: Call): Stack
    requires CanCall(ctx, c)
  {
    match c
    case Value(_) => PostValue(ctx)
    case ObjectBegin => ctx + [OBJECT_FIRST]
    case ListBegin => ctx + [LIST_FIRST]
    case ObjectEnd => PostValue(ctx[..|ctx| - 1])
    case ListEnd => PostValue(ctx[..|ctx| - 1])
  }

  function Step(d: Dump, c: Call): Dump
    requires CanCall(d.ctx, c)
  {
    Dump(d.out + CallTokens(d.ctx, c), CallContext(d.ctx, c))
  }

  // ----- the layout of TJSONProtocol -----

  function TypeName(t: TType): string {
    match t
    case STOP => "stp"
    case BOOL => "tf"
    case BYTE => "i8"
    case DOUBLE => "dbl"
    case I16 => "i16"
    case I32 => "i32"
    case I64 => "i64"
    case STRING => "str"
    case STRUCT => "rec"
    case MAP => "map"
    case SET => "set"
    case LIST => "lst"
  }

  function Ascii(s: string): (r: seq<byte>)
    ensures |r| == |s| && forall i :: 0 <= i < |s| ==> r[i] == s[i] as int % 256
  {
    if s == [] then [] else [s[0] as int % 256] + Ascii(s[1..])
  }

  function TypeScalar(t: TType): Scalar { Chars(Ascii(TypeName(t))) }

  /** The calls that write a tree. */
  function Calls(v: Value): seq<Call>
    requires WellFormed(v)
    decreases v, 1
  {
    match v
    case VBool(b) => [Value(Flag(b))]
    case VByte(i) => [Value(Number(i % 256))]
    case VI16(i) => [Value(Number(i))]
    case VI32(i) => [Value(Number(i))]
    case VI64(i) => [Value(Number(i))]
    case VDouble(bits) => [Value(Real(bits))]
    case VString(bytes) => [Value(Chars(bytes))]
    case VStruct(fs) => [ObjectBegin] + CallsFields(fs) + [ObjectEnd]
    case VMap(kt, vt, es) =>
      [ListBegin, Value(TypeScalar(kt)), Value(TypeScalar(vt)), Value(Number(|es|))] + CallsEntries(es) + [ListEnd]
    case VSet(et, es) => [ListBegin, Value(TypeScalar(et)), Value(Number(|es|))] + CallsElems(es) + [ListEnd]
    case VList(et, es) => [ListBegin, Value(TypeScalar(et)), Value(Number(|es|))] + CallsElems(es) + [ListEnd]
  }

  function CallsField(f: Field): seq<Call>
    requires WellFormed(f.v)
    decreases f, 0
  {
    [Value(Number(f.id)), ObjectBegin, Value(TypeScalar(TypeOf(f.v)))] + Calls(f.v) + [ObjectEnd]
  }

  function CallsFields(fs: seq<Field>): seq<Call>
    requires WellFormedFields(fs)
    decreases fs, 0
  {
    if fs == [] then [] else CallsField(fs[0]) + CallsFields(fs[1..])
  }

  function CallsEntry(e: Entry): seq<Call>
    requires WellFormed(e.k) && WellFormed(e.v)
    decreases e, 0
  {
    Calls(e.k) + Calls(e.v)
  }

  function CallsEntries(es: seq<Entry>): seq<Call>
    requires WellFormedEntries(es)
    decreases es, 0
  {
    if es == [] then [] else CallsEntry(es[0]) + CallsEntries(es[1..])
  }

  function CallsElems(es: seq<Value>): seq<Call>
    requires WellFormedElems(es)
    decreases es, 0
  {
    if es == [] then [] else Calls(es[0]) + CallsElems(es[1..])
  }

  /** Running calls; None is the panic. */
  datatype Outcome = Done(d: Dump) | Panic

  function Run(d: Dump, cs: seq<Call>): Outcome
    decreases cs
  {
    if cs == [] then Done(d)
    else if CanCall(d.ctx, cs[0]) then Run(Step(d, cs[0]), cs[1..])
    else Panic
  }

  lemma {:induction false} RunConcat(d: Dump, a: seq<Call>, b: seq<Call>)
    ensures Run(d, a + b) == match Run(d, a) case Done(d1) => Run(d1, b) case Panic => Panic
    decreases a
  {
    if a == [] {
      assert a + b == b;
    } else {
      assert (a + b)[1..] == a[1..] + b;
      if CanCall(d.ctx, a[0]) {
        RunConcat(Step(d, a[0]), a[1..], b);
      }
    }
  }

  // ----- the text of a tree, without contexts -----

  /** The tokens of a tree in value position, and of its parts with the separators before them. */
  function Text(v: Value): (ts: seq<Token>)
    requires WellFormed(v)
    decreases v, 1
  {
    match v
    case VBool(b) => [Plain(Flag(b))]
    case VByte(i) => [Plain(Number(i % 256))]
    case VI16(i) => [Plain(Number(i))]
    case VI32(i) => [Plain(Number(i))]
    case VI64(i) => [Plain(Number(i))]
    case VDouble(bits) => [if NotFinite(bits) then Quoted(Real(bits)) else Plain(Real(bits))]
    case VString(bytes) => [Quoted(Chars(bytes))]
    case VStruct(fs) => [LBrace] + TextFields(fs, true) + [RBrace]
    case VMap(kt, vt, es) =>
      [LBracket, Quoted(TypeScalar(kt)), Comma, Quoted(TypeScalar(vt)), Comma, Plain(Number(|es|))]
      + TextEntries(es) + [RBracket]
    case VSet(et, es) =>
      [LBracket, Quoted(TypeScalar(et)), Comma, Plain(Number(|es|))] + TextElems(es) + [RBracket]
    case VList(et, es) =>
      [LBracket, Quoted(TypeScalar(et)), Comma, Plain(Number(|es|))] + TextElems(es) + [RBracket]
  }

  function TextField(f: Field): seq<Token>
    requires WellFormed(f.v)
    decreases f, 0
  {
    [Quoted(Number(f.id)), Colon, LBrace, Quoted(TypeScalar(TypeOf(f.v))), Colon] + Text(f.v) + [RBrace]
  }

  function TextFields(fs: seq<Field>, first: bool): seq<Token>
    requires WellFormedFields(fs)
    decreases fs, 0
  {
    if fs == [] then [] else (if first then [] else [Comma]) + TextField(fs[0]) + TextFields(fs[1..], false)
  }

  function TextEntry(e: Entry): seq<Token>
    requires WellFormed(e.k) && WellFormed(e.v)
    decreases e, 0
  {
    [Comma] + Text(e.k) + [Comma] + Text(e.v)
  }

  function TextEntries(es: seq<Entry>): seq<Token>
    requires WellFormedEntries(es)
    decreases es, 0
  {
    if es == [] then [] else TextEntry(es[0]) + TextEntries(es[1..])
  }

  function TextElems(es: seq<Value>): seq<Token>
    requires WellFormedElems(es)
    decreases es, 0
  {
    if es == [] then [] else [Comma] + Text(es[0]) + TextElems(es[1..])
  }

  // ----- the writer writes that text -----

  /** The dump after a value: separator and text behind what was there, one post-value step. */
  function Wrote(d: Dump, ts: seq<Token>): Dump {
    Dump(d.out + (Separator(Top(d.ctx)) + ts), PostValue(d.ctx))
  }

  lemma RunOne(d: Dump, c: Call)
    requires CanCall(d.ctx, c)
    ensures Run(d, [c]) == Done(Step(d, c))
  {
    assert [c][1..] == [];
    assert Run(Step(d, c), []) == Done(Step(d, c));
  }

  lemma RunCons(d: Dump, c: Call, cs: seq<Call>)
    requires CanCall(d.ctx, c)
    ensures Run(d, [c] + cs) == Run(Step(d, c), cs)
  {
    assert ([c] + cs)[1..] == cs;
  }

  /** In any context but a key's, the writer leaves the stack as it found it, apart from the one
      post-value step, and appends the separator and the text of the tree. */
  lemma {:induction false} Writes(d: Dump, v: Value)
    requires WellFormed(v) && !IsKey(Top(d.ctx))
    ensures Run(d, Calls(v)) == Done(Wrote(d, Text(v)))
    decreases v, 1
  {
    match v
    case VStruct(fs) => WritesStruct(d, fs);
    case VMap(kt, vt, es) => WritesMap(d, kt, vt, es);
    case VSet(et, es) => WritesList(d, et, es);
    case VList(et, es) => WritesList(d, et, es);
    case _ =>
      var c := Calls(v)[0];
      assert Calls(v) == [c];
      RunOne(d, c);
  }

  // one call, with the top of the stack apart

  lemma StepValue(out: seq<Token>, outer: seq<Context>, c: Context, s: Scalar)
    ensures Step(Dump(out, outer + [c]), Value(s))
         == Dump(out + (Separator(c) + [ScalarToken(s, c)]), outer + [After(c)])
  {
  }

  lemma StepBegin(out: seq<Token>, ctx: Stack)
    ensures Step(Dump(out, ctx), ObjectBegin) == Dump(out + (Separator(Top(ctx)) + [LBrace]), ctx + [OBJECT_FIRST])
    ensures Step(Dump(out, ctx), ListBegin) == Dump(out + (Separator(Top(ctx)) + [LBracket]), ctx + [LIST_FIRST])
  {
  }

  lemma StepEnd(out: seq<Token>, ctx: Stack, c: Context)
    ensures Step(Dump(out, ctx + [c]), ObjectEnd) == Dump(out + [RBrace], PostValue(ctx))
    ensures Step(Dump(out, ctx + [c]), ListEnd) == Dump(out + [RBracket], PostValue(ctx))
  {
    assert (ctx + [c])[..|ctx|] == ctx;
  }

  /** From an opened object or list to its end, the enclosing stack is untouched. */
  lemma Encloses(d: Dump, begin: Call, head: seq<Call>, body: seq<Call>, end: Call, open: seq<Token>, first: Context,
                 middle: seq<Token>, last: Context, close: Token)
    requires begin == ObjectBegin || begin == ListBegin
    requires (end == ObjectEnd && close == RBrace) || (end == ListEnd && close == RBracket)
    requires Run(d, [begin] + head) == Done(Dump(d.out + (Separator(Top(d.ctx)) + open), d.ctx + [first]))
    requires Run(Dump(d.out + (Separator(Top(d.ctx)) + open), d.ctx + [first]), body)
          == Done(Dump(d.out + (Separator(Top(d.ctx)) + open) + middle, d.ctx + [last]))
    ensures Run(d, [begin] + head + body + [end]) == Done(Wrote(d, open + middle + [close]))
  {
    hide Run, Step, Separator, PostValue;
    var d2 := Dump(d.out + (Separator(Top(d.ctx)) + open) + middle, d.ctx + [last]);
    RunConcat(d, [begin] + head, body);
    RunConcat(d, [begin] + head + body, [end]);
    RunOne(d2, end);
    StepEnd(d2.out, d.ctx, last);
    assert d2.out + [close] == d.out + (Separator(Top(d.ctx)) + (open + middle + [close]));
  }

  lemma {:induction false} WritesStruct(d: Dump, fs: seq<Field>)
    requires WellFormedFields(fs)
    ensures Run(d, [ObjectBegin] + CallsFields(fs) + [ObjectEnd])
         == Done(Wrote(d, [LBrace] + TextFields(fs, true) + [RBrace]))
    decreases fs, 1
  {
    hide Run, Step, CallsFields, TextFields;
    RunOne(d, ObjectBegin);
    StepBegin(d.out, d.ctx);
    assert [ObjectBegin] + [] == [ObjectBegin];
    var inner := Dump(d.out + (Separator(Top(d.ctx)) + [LBrace]), d.ctx + [OBJECT_FIRST]);
    WritesFields(inner, d.ctx, true, fs);
    Encloses(d, ObjectBegin, [], CallsFields(fs), ObjectEnd, [LBrace], OBJECT_FIRST,
             TextFields(fs, true), FieldContext(fs == []), RBrace);
  }

  function FieldContext(first: bool): Context {
    if first then OBJECT_FIRST else OBJECT_NEXT_KEY
  }

  lemma {:induction false} WritesFields(d: Dump, outer: seq<Context>, first: bool, fs: seq<Field>)
    requires WellFormedFields(fs) && d.ctx == outer + [FieldContext(first)]
    ensures Run(d, CallsFields(fs))
         == Done(Dump(d.out + TextFields(fs, first), outer + [FieldContext(first && fs == [])]))
    decreases fs, 0
  {
    if fs == [] {
      assert d.out + [] == d.out;
    } else {
      hide CallsField, TextField, Run;
      var sep := if first then [] else [Comma];
      WritesField(d, outer, first, fs[0]);
      RunConcat(d, CallsField(fs[0]), CallsFields(fs[1..]));
      var d1 := Dump(d.out + (sep + TextField(fs[0])), outer + [OBJECT_NEXT_KEY]);
      WritesFields(d1, outer, false, fs[1..]);
      Concat3(d.out, sep + TextField(fs[0]), TextFields(fs[1..], false));
    }
  }

  lemma {:induction false} WritesField(d: Dump, outer: seq<Context>, first: bool, f: Field)
    requires WellFormed(f.v) && d.ctx == outer + [FieldContext(first)]
    ensures Run(d, CallsField(f))
         == Done(Dump(d.out + ((if first then [] else [Comma]) + TextField(f)), outer + [OBJECT_NEXT_KEY]))
    decreases f, 0
  {
    hide Run, Calls, Text, Step, PostValue, Separator, ScalarToken, TypeScalar;
    var sep := if first then [] else [Comma];
    var id, name := Value(Number(f.id)), Value(TypeScalar(TypeOf(f.v)));
    var ctx: Stack := outer + [OBJECT_NEXT_VALUE];
    var d1 := Dump(d.out + (sep + [Quoted(Number(f.id))]), ctx);
    var d2 := Dump(d1.out + [Colon, LBrace], ctx + [OBJECT_FIRST]);
    var d3 := Dump(d2.out + [Quoted(TypeScalar(TypeOf(f.v)))], ctx + [OBJECT_NEXT_VALUE]);
    FieldOpens(d, outer, first, f, d1, d2, d3);
    RunOne(d, id);
    FieldHead(d1, ctx, name, d2, d3);
    Writes(d3, f.v);
    var d4 := Dump(d3.out + ([Colon] + Text(f.v)), ctx + [OBJECT_NEXT_KEY]);
    assert Wrote(d3, Text(f.v)) == d4 by { PostTop(ctx, OBJECT_NEXT_VALUE); Separators(); }
    FieldTail(d1, outer, ctx, [ObjectBegin, name], Calls(f.v), d3, d4);
    RunConcat(d, [id], [ObjectBegin, name] + Calls(f.v) + [ObjectEnd]);
    assert CallsField(f) == [id] + ([ObjectBegin, name] + Calls(f.v) + [ObjectEnd]);
    assert d4.out + [RBrace] == d.out + (sep + TextField(f));
  }

  lemma PostTop(outer: seq<Context>, c: Context)
    ensures PostValue(outer + [c]) == outer + [After(c)]
  {
  }

  lemma Separators()
    ensures Separator(OBJECT_NEXT_VALUE) == [Colon]
  {
  }

  lemma FieldOpens(d: Dump, outer: seq<Context>, first: bool, f: Field, d1: Dump, d2: Dump, d3: Dump)
    requires d.ctx == outer + [FieldContext(first)]
    requires d1 == Dump(d.out + ((if first then [] else [Comma]) + [Quoted(Number(f.id))]), outer + [OBJECT_NEXT_VALUE])
    requires d2 == Dump(d1.out + [Colon, LBrace], d1.ctx + [OBJECT_FIRST])
    requires d3 == Dump(d2.out + [Quoted(TypeScalar(TypeOf(f.v)))], d1.ctx + [OBJECT_NEXT_VALUE])
    ensures Step(d, Value(Number(f.id))) == d1
    ensures Step(d1, ObjectBegin) == d2
    ensures Step(d2, Value(TypeScalar(TypeOf(f.v)))) == d3
  {
    hide Step;
    StepValue(d.out, outer, FieldContext(first), Number(f.id));
    StepBegin(d1.out, d1.ctx);
    assert [Colon] + [LBrace] == [Colon, LBrace];
    StepValue(d2.out, d1.ctx, OBJECT_FIRST, TypeScalar(TypeOf(f.v)));
    assert [] + [Quoted(TypeScalar(TypeOf(f.v)))] == [Quoted(TypeScalar(TypeOf(f.v)))];
  }

  lemma FieldHead(d1: Dump, ctx: Stack, name: Call, d2: Dump, d3: Dump)
    requires name.Value? && Step(d1, ObjectBegin) == d2 && Step(d2, name) == d3
    ensures Run(d1, [ObjectBegin, name]) == Done(d3)
  {
    hide Run, Step;
    assert [ObjectBegin, name] == [ObjectBegin] + [name];
    RunConcat(d1, [ObjectBegin], [name]);
    RunOne(d1, ObjectBegin);
    RunOne(d2, name);
  }

  lemma FieldTail(d1: Dump, outer: seq<Context>, ctx: Stack, head: seq<Call>, body: seq<Call>, d3: Dump, d4: Dump)
    requires ctx == outer + [OBJECT_NEXT_VALUE] && d4.ctx == ctx + [OBJECT_NEXT_KEY]
    requires Run(d1, head) == Done(d3) && Run(d3, body) == Done(d4)
    ensures Run(d1, head + body + [ObjectEnd]) == Done(Dump(d4.out + [RBrace], outer + [OBJECT_NEXT_KEY]))
  {
    hide Run, Step, PostValue;
    RunConcat(d1, head, body);
    RunConcat(d1, head + body, [ObjectEnd]);
    RunOne(d4, ObjectEnd);
    StepEnd(d4.out, ctx, OBJECT_NEXT_KEY);
    PostTop(outer, OBJECT_NEXT_VALUE);
  }

  /** A list opened, its type scalars and its size. */
  lemma ListHead(d: Dump, et: TType, n: nat)
    ensures Run(d, [ListBegin, Value(TypeScalar(et)), Value(Number(n))])
         == Done(Dump(d.out + (Separator(Top(d.ctx)) + [LBracket, Quoted(TypeScalar(et)), Comma, Plain(Number(n))]),
                      d.ctx + [IN_LIST]))
  {
    hide Run, Step, Separator, TypeScalar;
    var t, size := Value(TypeScalar(et)), Value(Number(n));
    Opens(d, et);
    var d2 := Dump(d.out + (Separator(Top(d.ctx)) + [LBracket, Quoted(TypeScalar(et))]), d.ctx + [IN_LIST]);
    RunConcat(d, [ListBegin, t], [size]);
    RunOne(d2, size);
    StepValue(d2.out, d.ctx, IN_LIST, Number(n));
    assert Separator(IN_LIST) == [Comma] by { CommaInList(); }
    assert [ListBegin, t] + [size] == [ListBegin, t, size];
    assert d2.out + ([Comma] + [Plain(Number(n))])
        == d.out + (Separator(Top(d.ctx)) + [LBracket, Quoted(TypeScalar(et)), Comma, Plain(Number(n))]);
  }

  lemma CommaInList()
    ensures Separator(IN_LIST) == [Comma] && Separator(LIST_FIRST) == []
    ensures forall t :: TypeScalar(t).Chars?
  {
  }

  lemma Opens(d: Dump, t: TType)
    ensures Run(d, [ListBegin, Value(TypeScalar(t))])
         == Done(Dump(d.out + (Separator(Top(d.ctx)) + [LBracket, Quoted(TypeScalar(t))]), d.ctx + [IN_LIST]))
  {
    hide Run, Step, Separator, TypeScalar;
    CommaInList();
    var d1 := Dump(d.out + (Separator(Top(d.ctx)) + [LBracket]), d.ctx + [LIST_FIRST]);
    StepBegin(d.out, d.ctx);
    RunOne(d, ListBegin);
    RunConcat(d, [ListBegin], [Value(TypeScalar(t))]);
    RunOne(d1, Value(TypeScalar(t)));
    StepValue(d1.out, d.ctx, LIST_FIRST, TypeScalar(t));
    assert [ListBegin] + [Value(TypeScalar(t))] == [ListBegin, Value(TypeScalar(t))];
    assert d1.out + ([] + [Quoted(TypeScalar(t))])
        == d.out + (Separator(Top(d.ctx)) + [LBracket, Quoted(TypeScalar(t))]);
  }

  lemma MapHead(d: Dump, kt: TType, vt: TType, n: nat)
    ensures Run(d, [ListBegin, Value(TypeScalar(kt)), Value(TypeScalar(vt)), Value(Number(n))])
         == Done(Dump(d.out + (Separator(Top(d.ctx))
                        + [LBracket, Quoted(TypeScalar(kt)), Comma, Quoted(TypeScalar(vt)), Comma, Plain(Number(n))]),
                      d.ctx + [IN_LIST]))
  {
    hide Run, Step, Separator, TypeScalar;
    CommaInList();
    var k, v, size := Value(TypeScalar(kt)), Value(TypeScalar(vt)), Value(Number(n));
    Opens(d, kt);
    var sep := Separator(Top(d.ctx));
    var d2 := Dump(d.out + (sep + [LBracket, Quoted(TypeScalar(kt))]), d.ctx + [IN_LIST]);
    var d3 := Dump(d2.out + ([Comma] + [Quoted(TypeScalar(vt))]), d.ctx + [IN_LIST]);
    StepValue(d2.out, d.ctx, IN_LIST, TypeScalar(vt));
    StepValue(d3.out, d.ctx, IN_LIST, Number(n));
    RunConcat(d, [ListBegin, k], [v]);
    RunOne(d2, v);
    RunConcat(d, [ListBegin, k] + [v], [size]);
    RunOne(d3, size);
    assert [ListBegin, k] + [v] + [size] == [ListBegin, k, v, size];
    assert d3.out + ([Comma] + [Plain(Number(n))])
        == d.out + (sep + [LBracket, Quoted(TypeScalar(kt)), Comma, Quoted(TypeScalar(vt)), Comma, Plain(Number(n))]);
  }

  lemma {:induction false} WritesMap(d: Dump, kt: WireType, vt: WireType, es: seq<Entry>)
    requires WellFormedEntries(es) && |es| < TWO31
    ensures Run(d, [ListBegin, Value(TypeScalar(kt)), Value(TypeScalar(vt)), Value(Number(|es|))]
                     + CallsEntries(es) + [ListEnd])
         == Done(Wrote(d, [LBracket, Quoted(TypeScalar(kt)), Comma, Quoted(TypeScalar(vt)), Comma, Plain(Number(|es|))]
                            + TextEntries(es) + [RBracket]))
    decreases es, 1
  {
    hide Run, Step, CallsEntries, TextEntries, TypeScalar, Separator;
    var k, v, n := Value(TypeScalar(kt)), Value(TypeScalar(vt)), Value(Number(|es|));
    var open := [LBracket, Quoted(TypeScalar(kt)), Comma, Quoted(TypeScalar(vt)), Comma, Plain(Number(|es|))];
    MapHead(d, kt, vt, |es|);
    var inner := Dump(d.out + (Separator(Top(d.ctx)) + open), d.ctx + [IN_LIST]);
    WritesEntries(inner, es);
    assert [ListBegin, k, v, n] == [ListBegin] + [k, v, n];
    Encloses(d, ListBegin, [k, v, n], CallsEntries(es), ListEnd, open, IN_LIST, TextEntries(es), IN_LIST, RBracket);
  }

  lemma {:induction false} WritesList(d: Dump, et: WireType, es: seq<Value>)
    requires WellFormedElems(es) && |es| < TWO31
    ensures Run(d, [ListBegin, Value(TypeScalar(et)), Value(Number(|es|))] + CallsElems(es) + [ListEnd])
         == Done(Wrote(d, [LBracket, Quoted(TypeScalar(et)), Comma, Plain(Number(|es|))] + TextElems(es) + [RBracket]))
    decreases es, 1
  {
    hide Run, Step, CallsElems, TextElems, TypeScalar, Separator;
    var t, n := Value(TypeScalar(et)), Value(Number(|es|));
    var open := [LBracket, Quoted(TypeScalar(et)), Comma, Plain(Number(|es|))];
    ListHead(d, et, |es|);
    var inner := Dump(d.out + (Separator(Top(d.ctx)) + open), d.ctx + [IN_LIST]);
    WritesElems(inner, es);
    assert [ListBegin, t, n] == [ListBegin] + [t, n];
    Encloses(d, ListBegin, [t, n], CallsElems(es), ListEnd, open, IN_LIST, TextElems(es), IN_LIST, RBracket);
  }

  lemma {:induction false} WritesEntries(d: Dump, es: seq<Entry>)
    requires WellFormedEntries(es) && Top(d.ctx) == IN_LIST
    ensures Run(d, CallsEntries(es)) == Done(d.(out := d.out + TextEntries(es)))
    decreases es, 0
  {
    if es == [] {
      assert d.out + [] == d.out;
    } else {
      hide Run, CallsEntry, TextEntry;
      WritesEntry(d, es[0]);
      RunConcat(d, CallsEntry(es[0]), CallsEntries(es[1..]));
      WritesEntries(d.(out := d.out + TextEntry(es[0])), es[1..]);
      Concat3(d.out, TextEntry(es[0]), TextEntries(es[1..]));
    }
  }

  lemma InList(d: Dump, ts: seq<Token>)
    requires Top(d.ctx) == IN_LIST
    ensures Wrote(d, ts) == d.(out := d.out + ([Comma] + ts))
  {
  }

  lemma {:induction false} WritesEntry(d: Dump, e: Entry)
    requires WellFormed(e.k) && WellFormed(e.v) && Top(d.ctx) == IN_LIST
    ensures Run(d, CallsEntry(e)) == Done(d.(out := d.out + TextEntry(e)))
    decreases e, 0
  {
    hide Run, Calls, Text;
    Writes(d, e.k);
    InList(d, Text(e.k));
    var d1 := d.(out := d.out + ([Comma] + Text(e.k)));
    Writes(d1, e.v);
    InList(d1, Text(e.v));
    RunConcat(d, Calls(e.k), Calls(e.v));
    assert d1.out + ([Comma] + Text(e.v)) == d.out + TextEntry(e);
  }

  lemma {:induction false} WritesElems(d: Dump, es: seq<Value>)
    requires WellFormedElems(es) && Top(d.ctx) == IN_LIST
    ensures Run(d, CallsElems(es)) == Done(d.(out := d.out + TextElems(es)))
    decreases es, 0
  {
    if es == [] {
      assert d.out + [] == d.out;
    } else {
      hide Run, Calls, Text;
      Writes(d, es[0]);
      InList(d, Text(es[0]));
      RunConcat(d, Calls(es[0]), CallsElems(es[1..]));
      var d1 := d.(out := d.out + ([Comma] + Text(es[0])));
      WritesElems(d1, es[1..]);
      Concat3(d.out, [Comma] + Text(es[0]), TextElems(es[1..]));
    }
  }
}
