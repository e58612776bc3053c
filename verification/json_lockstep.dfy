/** Writer and reader of the Go JSON protocol, call by call over whole trees and messages. */
module JsonLockstep {
  import opened Bits
  import opened Wire
  import opened Json
  import opened JsonGrammar
  import opened JsonReader

  lemma {:induction false} ReadableConcat(d: Dump, a: seq<Call>, b: seq<Call>)
    requires AllReadable(d.ctx, a) && Run(d, a).Done? && AllReadable(Run(d, a).d.ctx, b)
    ensures AllReadable(d.ctx, a + b)
    ensures Emitted(d.ctx, a + b) == Emitted(d.ctx, a) + Emitted(Run(d, a).d.ctx, b)
    decreases a
  {
    hide CallTokens, CallContext, Readable;
    if a == [] {
      assert a + b == b;
    } else {
      assert (a + b)[1..] == a[1..] + b;
      var d1 := Step(d, a[0]);
      ReadableConcat(d1, a[1..], b);
      Concat3(CallTokens(d.ctx, a[0]), Emitted(d1.ctx, a[1..]), Emitted(Run(d, a).d.ctx, b));
    }
  }

  lemma ReadableOne(d: Dump, c: Call)
    requires CanCall(d.ctx, c) && Readable(d.ctx, c)
    ensures AllReadable(d.ctx, [c]) && Run(d, [c]) == Done(Step(d, c))
  {
    RunOne(d, c);
    assert AllReadable(Step(d, c).ctx, [c][1..]);
  }

  lemma ReadableCons(d: Dump, c: Call, cs: seq<Call>)
    requires CanCall(d.ctx, c) && Readable(d.ctx, c) && AllReadable(CallContext(d.ctx, c), cs)
    ensures AllReadable(d.ctx, [c] + cs)
  {
    assert ([c] + cs)[1..] == cs;
  }

  /** A head that ends in d1, a readable body that ends in d2, and a readable end. */
  lemma ReadableWithin(d: Dump, head: seq<Call>, body: seq<Call>, end: Call, d1: Dump, d2: Dump)
    requires AllReadable(d.ctx, head) && Run(d, head) == Done(d1)
    requires AllReadable(d1.ctx, body) && Run(d1, body) == Done(d2)
    requires CanCall(d2.ctx, end) && Readable(d2.ctx, end)
    ensures AllReadable(d.ctx, head + body + [end])
  {
    hide Run, AllReadable, CanCall, Readable, Emitted;
    ReadableConcat(d, head, body);
    RunConcat(d, head, body);
    ReadableOne(d2, end);
    ReadableConcat(d, head + body, [end]);
  }

  /** Every call that writes a tree, in any context but a key's, is readable where it is made. */
  lemma {:induction false} TreeReadable(d: Dump, v: Value)
    requires WellFormed(v) && !IsKey(Top(d.ctx))
    ensures AllReadable(d.ctx, Calls(v))
    decreases v, 1
  {
    match v
    case VStruct(fs) => StructReadable(d, fs);
    case VMap(kt, vt, es) => MapReadable(d, kt, vt, es);
    case VSet(et, es) => ListReadable(d, et, es);
    case VList(et, es) => ListReadable(d, et, es);
    case _ =>
      var c := Calls(v)[0];
      assert Calls(v) == [c];
      ReadableOne(d, c);
  }

  lemma {:induction false} StructReadable(d: Dump, fs: seq<Field>)
    requires WellFormedFields(fs)
    ensures AllReadable(d.ctx, [ObjectBegin] + CallsFields(fs) + [ObjectEnd])
    decreases fs, 1
  {
    hide Run, Step, AllReadable, CallsFields, TextFields;
    var inner := Dump(d.out + (Separator(Top(d.ctx)) + [LBrace]), d.ctx + [OBJECT_FIRST]);
    StepBegin(d.out, d.ctx);
    ReadableOne(d, ObjectBegin);
    FieldsReadable(inner, d.ctx, true, fs);
    WritesFields(inner, d.ctx, true, fs);
    var last := Dump(inner.out + TextFields(fs, true), d.ctx + [FieldContext(fs == [])]);
    ReadableWithin(d, [ObjectBegin], CallsFields(fs), ObjectEnd, inner, last);
  }

  lemma {:induction false} FieldsReadable(d: Dump, outer: Stack, first: bool, fs: seq<Field>)
    requires WellFormedFields(fs) && d.ctx == outer + [FieldContext(first)]
    ensures AllReadable(d.ctx, CallsFields(fs))
    decreases fs, 0
  {
    if fs == [] {
      assert CallsFields(fs) == [];
    } else {
      hide Run, AllReadable, CallsField, TextField;
      FieldReadable(d, outer, first, fs[0]);
      WritesField(d, outer, first, fs[0]);
      var next := Dump(d.out + ((if first then [] else [Comma]) + TextField(fs[0])), outer + [OBJECT_NEXT_KEY]);
      FieldsReadable(next, outer, false, fs[1..]);
      ReadableConcat(d, CallsField(fs[0]), CallsFields(fs[1..]));
    }
  }

  lemma {:induction false} FieldReadable(d: Dump, outer: Stack, first: bool, f: Field)
    requires WellFormed(f.v) && d.ctx == outer + [FieldContext(first)]
    ensures AllReadable(d.ctx, CallsField(f))
    decreases f, 0
  {
    hide Run, Step, AllReadable, Calls, Text, TypeScalar;
    var id, name := Value(Number(f.id)), Value(TypeScalar(TypeOf(f.v)));
    var sep := if first then [] else [Comma];
    var d1 := Dump(d.out + (sep + [Quoted(Number(f.id))]), outer + [OBJECT_NEXT_VALUE]);
    var d2 := Dump(d1.out + [Colon, LBrace], d1.ctx + [OBJECT_FIRST]);
    var d3 := Dump(d2.out + [Quoted(TypeScalar(TypeOf(f.v)))], d1.ctx + [OBJECT_NEXT_VALUE]);
    FieldOpens(d, outer, first, f, d1, d2, d3);
    CommaInList();
    ReadableOne(d2, name);
    HeadReadable(d, id, d1, d2, name, d3);
    TreeReadable(d3, f.v);
    Writes(d3, f.v);
    ReadableWithin(d, [id, ObjectBegin, name], Calls(f.v), ObjectEnd, d3, Wrote(d3, Text(f.v)));
  }

  lemma HeadReadable(d: Dump, id: Call, d1: Dump, d2: Dump, name: Call, d3: Dump)
    requires id.Value? && id.s.Number? && name.Value? && name.s.Chars?
    requires Step(d, id) == d1 && Step(d1, ObjectBegin) == d2 && Step(d2, name) == d3
    ensures AllReadable(d.ctx, [id, ObjectBegin, name]) && Run(d, [id, ObjectBegin, name]) == Done(d3)
  {
    hide Run, AllReadable, CallContext, CallTokens;
    ReadableOne(d2, name);
    ReadableCons(d1, ObjectBegin, [name]);
    ReadableCons(d, id, [ObjectBegin] + [name]);
    RunCons(d1, ObjectBegin, [name]);
    RunCons(d, id, [ObjectBegin] + [name]);
    assert [id] + ([ObjectBegin] + [name]) == [id, ObjectBegin, name];
  }

  /** Opening a list and writing scalars that are no booleans is readable anywhere. */
  lemma {:induction false} ScalarsReadable(ctx: Stack, cs: seq<Call>)
    requires forall c | c in cs :: c.ListBegin? || (c.Value? && !c.s.Flag?)
    ensures AllReadable(ctx, cs)
    decreases cs
  {
    if cs != [] {
      assert cs[0] in cs && forall c | c in cs[1..] :: c in cs;
      ScalarsReadable(CallContext(ctx, cs[0]), cs[1..]);
    }
  }

  lemma {:induction false} ListReadable(d: Dump, et: WireType, es: seq<Value>)
    requires WellFormedElems(es) && |es| < TWO31
    ensures AllReadable(d.ctx, [ListBegin, Value(TypeScalar(et)), Value(Number(|es|))] + CallsElems(es) + [ListEnd])
    decreases es, 1
  {
    hide Run, Step, AllReadable, CallsElems, TextElems, TypeScalar;
    var head := [ListBegin, Value(TypeScalar(et)), Value(Number(|es|))];
    var open := [LBracket, Quoted(TypeScalar(et)), Comma, Plain(Number(|es|))];
    CommaInList();
    ScalarsReadable(d.ctx, head);
    ListHead(d, et, |es|);
    var inner := Dump(d.out + (Separator(Top(d.ctx)) + open), d.ctx + [IN_LIST]);
    ElemsReadable(inner, es);
    WritesElems(inner, es);
    ReadableWithin(d, head, CallsElems(es), ListEnd, inner, inner.(out := inner.out + TextElems(es)));
  }

  lemma {:induction false} ElemsReadable(d: Dump, es: seq<Value>)
    requires WellFormedElems(es) && Top(d.ctx) == IN_LIST
    ensures AllReadable(d.ctx, CallsElems(es))
    decreases es, 0
  {
    if es == [] {
      assert CallsElems(es) == [];
    } else {
      hide Run, AllReadable, Calls, Text;
      TreeReadable(d, es[0]);
      Writes(d, es[0]);
      InList(d, Text(es[0]));
      ElemsReadable(Wrote(d, Text(es[0])), es[1..]);
      ReadableConcat(d, Calls(es[0]), CallsElems(es[1..]));
    }
  }

  lemma {:induction false} MapReadable(d: Dump, kt: WireType, vt: WireType, es: seq<Entry>)
    requires WellFormedEntries(es) && |es| < TWO31
    ensures AllReadable(d.ctx, [ListBegin, Value(TypeScalar(kt)), Value(TypeScalar(vt)), Value(Number(|es|))]
                                 + CallsEntries(es) + [ListEnd])
    decreases es, 1
  {
    hide Run, Step, AllReadable, CallsEntries, TextEntries, TypeScalar;
    var head := [ListBegin, Value(TypeScalar(kt)), Value(TypeScalar(vt)), Value(Number(|es|))];
    var open := [LBracket, Quoted(TypeScalar(kt)), Comma, Quoted(TypeScalar(vt)), Comma, Plain(Number(|es|))];
    CommaInList();
    ScalarsReadable(d.ctx, head);
    MapHead(d, kt, vt, |es|);
    var inner := Dump(d.out + (Separator(Top(d.ctx)) + open), d.ctx + [IN_LIST]);
    EntriesReadable(inner, es);
    WritesEntries(inner, es);
    ReadableWithin(d, head, CallsEntries(es), ListEnd, inner, inner.(out := inner.out + TextEntries(es)));
  }

  lemma {:induction false} EntriesReadable(d: Dump, es: seq<Entry>)
    requires WellFormedEntries(es) && Top(d.ctx) == IN_LIST
    ensures AllReadable(d.ctx, CallsEntries(es))
    decreases es, 0
  {
    if es == [] {
      assert CallsEntries(es) == [];
    } else {
      hide Run, AllReadable, CallsEntry, TextEntry;
      EntryReadable(d, es[0]);
      WritesEntry(d, es[0]);
      EntriesReadable(d.(out := d.out + TextEntry(es[0])), es[1..]);
      ReadableConcat(d, CallsEntry(es[0]), CallsEntries(es[1..]));
    }
  }

  lemma {:induction false} EntryReadable(d: Dump, e: Entry)
    requires WellFormed(e.k) && WellFormed(e.v) && Top(d.ctx) == IN_LIST
    ensures AllReadable(d.ctx, CallsEntry(e))
    decreases e, 0
  {
    hide Run, AllReadable, Calls, Text;
    TreeReadable(d, e.k);
    Writes(d, e.k);
    InList(d, Text(e.k));
    TreeReadable(Wrote(d, Text(e.k)), e.v);
    ReadableConcat(d, Calls(e.k), Calls(e.v));
  }

  lemma MessageReadable(name: seq<byte>, typeId: int, seqId: int, v: Value)
    requires WellFormed(v)
    ensures AllReadable(FRESH.ctx, MessageCalls(name, typeId, seqId, v))
  {
    hide Run, Step, AllReadable, Calls, Text;
    var head := [ListBegin, Value(Number(1)), Value(Chars(name)), Value(Number(typeId % 256)), Value(Number(seqId))];
    ScalarsReadable(FRESH.ctx, head);
    MessageHead(name, typeId, seqId);
    var inner := Run(FRESH, head).d;
    TreeReadable(inner, v);
    Writes(inner, v);
    InList(inner, Text(v));
    ReadableWithin(FRESH, head, Calls(v), ListEnd, inner, Wrote(inner, Text(v)));
  }

  // ----- equal stacks after every call -----

  lemma {:induction false} ReadableSplits(d: Dump, a: seq<Call>, b: seq<Call>)
    requires AllReadable(d.ctx, a + b)
    ensures AllReadable(d.ctx, a) && Run(d, a).Done? && AllReadable(Run(d, a).d.ctx, b)
    decreases a
  {
    hide CallTokens, CallContext, Readable;
    if a == [] {
      assert a + b == b;
    } else {
      assert (a + b)[1..] == a[1..] + b;
      ReadableSplits(Step(d, a[0]), a[1..], b);
    }
  }

  /** The reader, given the text of all the calls, has read back the first k of them: its stack is the
      writer's after k calls, and it stands at the text of the others. */
  predicate InStep(ctx: Stack, cs: seq<Call>, rest: seq<Token>, k: nat)
    requires k <= |cs|
  {
    match Run(Dump([], ctx), cs[..k])
    case Done(d) =>
      && d.out == Emitted(ctx, cs[..k])
      && ReadCalls(Parse(Emitted(ctx, cs) + rest, ctx), cs[..k])
         == Ok(cs[..k], Parse(Emitted(d.ctx, cs[k..]) + rest, d.ctx))
    case Panic => false
  }

  lemma LockstepThroughout(ctx: Stack, cs: seq<Call>, rest: seq<Token>, k: nat)
    requires AllReadable(ctx, cs) && k <= |cs|
    ensures InStep(ctx, cs, rest, k)
  {
    hide AllReadable, Run, ReadCalls, Emitted;
    var d, a, b := Dump([], ctx), cs[..k], cs[k..];
    assert cs == a + b;
    ReadableSplits(d, a, b);
    ReadableConcat(d, a, b);
    var later := Emitted(Run(d, a).d.ctx, b) + rest;
    RunLockstep(d, a, later);
    Concat3(Emitted(ctx, a), Emitted(Run(d, a).d.ctx, b), rest);
    assert [] + Emitted(ctx, a) == Emitted(ctx, a);
  }

  /** Over any tree in any context but a key's, whatever follows: after every call the two stacks are
      equal and every token so far has been consumed once. The text is the tree's. */
  lemma TreeInStep(ctx: Stack, v: Value, rest: seq<Token>, k: nat)
    requires WellFormed(v) && !IsKey(Top(ctx)) && k <= |Calls(v)|
    ensures Emitted(ctx, Calls(v)) == Separator(Top(ctx)) + Text(v)
    ensures InStep(ctx, Calls(v), rest, k)
  {
    hide AllReadable, Run, ReadCalls, Emitted, Calls, Text, InStep;
    var d := Dump([], ctx);
    TreeReadable(d, v);
    Writes(d, v);
    RunLockstep(d, Calls(v), rest);
    assert [] + Emitted(ctx, Calls(v)) == Emitted(ctx, Calls(v));
    assert [] + (Separator(Top(ctx)) + Text(v)) == Separator(Top(ctx)) + Text(v);
    LockstepThroughout(ctx, Calls(v), rest, k);
  }

  /** Over any whole message from a fresh protocol. */
  lemma MessageInStep(name: seq<byte>, typeId: int, seqId: int, v: Value, rest: seq<Token>, k: nat)
    requires WellFormed(v) && k <= |MessageCalls(name, typeId, seqId, v)|
    ensures Emitted(FRESH.ctx, MessageCalls(name, typeId, seqId, v)) == MessageText(name, typeId, seqId, v)
    ensures InStep(FRESH.ctx, MessageCalls(name, typeId, seqId, v), rest, k)
  {
    hide AllReadable, Run, ReadCalls, Emitted, MessageCalls, MessageText, InStep;
    var cs := MessageCalls(name, typeId, seqId, v);
    MessageReadable(name, typeId, seqId, v);
    MessageIsWritten(name, typeId, seqId, v);
    RunLockstep(FRESH, cs, rest);
    assert [] + Emitted(FRESH.ctx, cs) == Emitted(FRESH.ctx, cs);
    LockstepThroughout(FRESH.ctx, cs, rest, k);
  }
}
