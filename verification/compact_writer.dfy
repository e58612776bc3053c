/** The compact protocol's write calls in Go and in the Ruby extension, as state machines. */
module CompactWriter {
  import opened Bits
  import opened Varint
  import opened Wire
  import opened Wrappers
  import opened Compact

  /** The write half of TProtocol. The calls that end a field, list, set or map do nothing. */
  datatype Call =
    | StructBegin
    | StructEnd
    | FieldBegin(t: WireType, id: int)
    | FieldStop
    | MapBegin(kt: WireType, vt: WireType, size: nat)
    | ListBegin(et: WireType, size: nat)
    | SetBegin(et: WireType, size: nat)
    | Bool(b: bool)
    | Byte(i: int)
    | I16Value(i: int)
    | I32Value(i: int)
    | I64Value(i: int)
    | Double(bits: seq<byte>)
    | Binary(bytes: seq<byte>)

  /** Arguments fit their type; a 16-bit integer may be any int32, which Ruby writes whole. In Go it is
      an int16. */
  predicate ValidCall(c: Call) {
    match c
    case FieldBegin(_, id) => IsInt16(id)
    case MapBegin(_, _, size) => size < TWO31
    case ListBegin(_, size) => size < TWO31
    case SetBegin(_, size) => size < TWO31
    case Byte(i) => IsInt8(i)
    case I16Value(i) => IsInt32(i)
    case I32Value(i) => IsInt32(i)
    case I64Value(i) => IsInt64(i)
    case Double(bits) => |bits| == 8
    case Binary(bytes) => |bytes| < TWO31
    case _ => true
  }

  /** Bytes of a call that does not look at the field stack. */
  function PlainBytes(c: Call): seq<byte>
    requires ValidCall(c)
  {
    match c
    case FieldStop => [0]
    case MapBegin(kt, vt, size) => MapHeader(kt, vt, size)
    case ListBegin(et, size) => CollectionHeader(et, size)
    case SetBegin(et, size) => CollectionHeader(et, size)
    case Byte(i) => [i % 256]
    case I16Value(i) => ZigzagVarint32(i)
    case I32Value(i) => ZigzagVarint32(i)
    case I64Value(i) => ZigzagVarint64(i)
    case Double(bits) => bits
    case Binary(bytes) => EncodeVarint(|bytes|) + bytes
    case _ => []
  }

  // ----- Go -----

  /** Bytes written, lastField, lastFieldId, and the id of booleanField. */
  datatype Go = Go(out: seq<byte>, lastField: seq<int>, lastFieldId: int, booleanField: Option<int>)

  function GoField(s: Go, id: int, code: byte): Go
    requires IsInt16(id) && code < 16
  {
    s.(out := s.out + FieldHeader(s.lastFieldId, id, code), lastFieldId := id)
  }

  /** None is the index panic of WriteStructEnd on an empty stack. */
  function GoStep(s: Go, c: Call): Option<Go>
    requires ValidCall(c)
    requires s.booleanField.Some? ==> IsInt16(s.booleanField.value)
  {
    match c
    case StructBegin => Some(s.(lastField := s.lastField + [s.lastFieldId], lastFieldId := 0))
    case StructEnd =>
      if s.lastField == [] then None
      else Some(s.(lastFieldId := s.lastField[|s.lastField| - 1], lastField := s.lastField[..|s.lastField| - 1]))
    case FieldBegin(t, id) =>
      if t == BOOL then Some(s.(booleanField := Some(id))) else Some(GoField(s, id, CompactType(t)))
    case Bool(b) =>
      (match s.booleanField
       case Some(id) => Some(GoField(s, id, BoolCode(b)).(booleanField := None))
       case None => Some(s.(out := s.out + [BoolCode(b)])))
    case _ => Some(s.(out := s.out + PlainBytes(c)))
  }

  // ----- Ruby -----

  /** Bytes written, @last_field with the current struct's last id at the end, and @boolean_field. */
  datatype Ruby = Ruby(out: seq<byte>, lastField: seq<int>, booleanField: Option<int>)

  function RubyField(s: Ruby, id: int, code: byte): Option<Ruby>
    requires IsInt16(id) && code < 16
  {
    if s.lastField == [] then None
    else
      var top := |s.lastField| - 1;
      Some(s.(out := s.out + FieldHeader(s.lastField[top], id, code), lastField := s.lastField[..top] + [id]))
  }

  /** None is the exception raised when the id popped from an empty stack is nil. */
  function RubyStep(s: Ruby, c: Call): Option<Ruby>
    requires ValidCall(c)
    requires s.booleanField.Some? ==> IsInt16(s.booleanField.value)
  {
    match c
    case StructBegin => Some(s.(lastField := s.lastField + [0]))
    case StructEnd => Some(if s.lastField == [] then s else s.(lastField := s.lastField[..|s.lastField| - 1]))
    case FieldBegin(t, id) =>
      if t == BOOL then Some(s.(booleanField := Some(id))) else RubyField(s, id, CompactType(t))
    case Bool(b) =>
      (match s.booleanField
       case Some(id) => (match RubyField(s, id, BoolCode(b))
         case Some(s1) => Some(s1.(booleanField := None))
         case None => None)
       case None => Some(s.(out := s.out + [BoolCode(b)])))
    case _ => Some(s.(out := s.out + PlainBytes(c)))
  }

  // ----- simulation -----

  /** Ruby keeps the current id on top of the stack, Go beside it. */
  predicate Related(g: Go, r: Ruby) {
    && r.out == g.out
    && r.lastField == g.lastField + [g.lastFieldId]
    && r.booleanField == g.booleanField
    && (g.booleanField.Some? ==> IsInt16(g.booleanField.value))
  }

  lemma StepSimulates(g: Go, r: Ruby, c: Call)
    requires ValidCall(c) && Related(g, r)
    ensures GoStep(g, c).Some? ==> RubyStep(r, c).Some? && Related(GoStep(g, c).value, RubyStep(r, c).value)
    ensures GoStep(g, c) == None <==> c == StructEnd && g.lastField == []
  {
    var top := |r.lastField| - 1;
    assert r.lastField[..top] == g.lastField;
  }

  predicate Pending16(p: Option<int>) {
    p.Some? ==> IsInt16(p.value)
  }

  function GoRun(s: Go, cs: seq<Call>): (r: Option<Go>)
    requires Pending16(s.booleanField) && forall c | c in cs :: ValidCall(c)
    ensures r.Some? ==> Pending16(r.value.booleanField)
    decreases |cs|
  {
    if cs == [] then Some(s)
    else match GoStep(s, cs[0])
      case Some(s1) => GoRun(s1, cs[1..])
      case None => None
  }

  function RubyRun(s: Ruby, cs: seq<Call>): Option<Ruby>
    requires Pending16(s.booleanField) && forall c | c in cs :: ValidCall(c)
    decreases |cs|
  {
    if cs == [] then Some(s)
    else match RubyStep(s, cs[0])
      case Some(s1) => RubyRun(s1, cs[1..])
      case None => None
  }

  /** On every call sequence that Go accepts, Ruby writes the same bytes and ends in the related
      state; Go rejects exactly the sequences that end more structs than they began. */
  lemma {:induction false} RunSimulates(g: Go, r: Ruby, cs: seq<Call>)
    requires Related(g, r) && forall c | c in cs :: ValidCall(c)
    ensures GoRun(g, cs).Some? ==> RubyRun(r, cs).Some? && Related(GoRun(g, cs).value, RubyRun(r, cs).value)
    ensures GoRun(g, cs).Some? <==> Bracketed(|g.lastField|, cs)
    decreases |cs|
  {
    if cs == [] {
    } else {
      StepSimulates(g, r, cs[0]);
      if GoStep(g, cs[0]).Some? {
        RunSimulates(GoStep(g, cs[0]).value, RubyStep(r, cs[0]).value, cs[1..]);
      }
    }
  }

  /** No struct end without an open struct. */
  predicate Bracketed(depth: nat, cs: seq<Call>)
    decreases |cs|
  {
    if cs == [] then true
    else match cs[0]
      case StructBegin => Bracketed(depth + 1, cs[1..])
      case StructEnd => depth > 0 && Bracketed(depth - 1, cs[1..])
      case _ => Bracketed(depth, cs[1..])
  }

  /** The two initial states are related, so fresh protocols agree from the start. */
  lemma FreshRelated()
    ensures Related(Go([], [], 0, None), Ruby([], [0], None))
  {
  }

  // ----- the calls that write a value tree -----

  function Calls(v: Value): (cs: seq<Call>)
    requires WellFormed(v)
    ensures forall c | c in cs :: ValidCall(c)
    decreases v, 1
  {
    match v
    case VBool(b) => [Bool(b)]
    case VByte(i) => [Byte(i)]
    case VI16(i) => [I16Value(i)]
    case VI32(i) => [I32Value(i)]
    case VI64(i) => [I64Value(i)]
    case VDouble(bits) => [Double(bits)]
    case VString(bytes) => [Binary(bytes)]
    case VStruct(fs) => [StructBegin] + (CallsFields(fs) + END)
    case VMap(kt, vt, es) => [MapBegin(kt, vt, |es|)] + CallsEntries(es)
    case VSet(et, es) => [SetBegin(et, |es|)] + CallsElems(es)
    case VList(et, es) => [ListBegin(et, |es|)] + CallsElems(es)
  }

  function CallsField(f: Field): (cs: seq<Call>)
    requires IsInt16(f.id) && WellFormed(f.v)
    ensures forall c | c in cs :: ValidCall(c)
    decreases f, 0
  {
    [FieldBegin(TypeOf(f.v), f.id)] + Calls(f.v)
  }

  function CallsFields(fs: seq<Field>): (cs: seq<Call>)
    requires WellFormedFields(fs)
    ensures forall c | c in cs :: ValidCall(c)
    decreases fs, 0
  {
    if fs == [] then [] else CallsField(fs[0]) + CallsFields(fs[1..])
  }

  function CallsEntry(e: Entry): (cs: seq<Call>)
    requires WellFormed(e.k) && WellFormed(e.v)
    ensures forall c | c in cs :: ValidCall(c)
    decreases e, 0
  {
    Calls(e.k) + Calls(e.v)
  }

  function CallsEntries(es: seq<Entry>): (cs: seq<Call>)
    requires WellFormedEntries(es)
    ensures forall c | c in cs :: ValidCall(c)
    decreases es, 0
  {
    if es == [] then [] else CallsEntry(es[0]) + CallsEntries(es[1..])
  }

  function CallsElems(es: seq<Value>): (cs: seq<Call>)
    requires WellFormedElems(es)
    ensures forall c | c in cs :: ValidCall(c)
    decreases es, 0
  {
    if es == [] then [] else Calls(es[0]) + CallsElems(es[1..])
  }

  // ----- Go writes the layout -----

  lemma {:induction false} GoRunConcat(s: Go, a: seq<Call>, b: seq<Call>)
    requires Pending16(s.booleanField) && (forall c | c in a :: ValidCall(c)) && forall c | c in b :: ValidCall(c)
    ensures GoRun(s, a + b)
         == match GoRun(s, a) case Some(s1) => GoRun(s1, b) case None => None
    decreases |a|
  {
    if a == [] {
      assert a + b == b;
    } else {
      assert (a + b)[1..] == a[1..] + b;
      var r := GoStep(s, a[0]);
      if r.Some? { GoRunConcat(r.value, a[1..], b); }
    }
  }

  lemma GoRunOne(s: Go, c: Call)
    requires Pending16(s.booleanField) && ValidCall(c)
    ensures GoRun(s, [c]) == GoStep(s, c)
  {
    assert [c][1..] == [];
  }

  /** Writing v outside a bool field appends Encode(v) and changes nothing else: stack, last id and
      pending bool are as before. */
  lemma {:induction false} GoWrites(s: Go, v: Value)
    requires WellFormed(v) && s.booleanField == None
    ensures GoRun(s, Calls(v)) == Some(s.(out := s.out + Encode(v)))
    decreases v, 1
  {
    match v
    case VStruct(fs) => GoWritesStruct(s, fs);
    case VMap(kt, vt, es) =>
      var s1 := s.(out := s.out + MapHeader(kt, vt, |es|));
      GoWritesEntries(s1, es);
      Concat3(s.out, MapHeader(kt, vt, |es|), EncodeEntries(es));
    case VSet(et, es) => GoWritesCollection(s, SetBegin(et, |es|), et, es);
    case VList(et, es) => GoWritesCollection(s, ListBegin(et, |es|), et, es);
    case _ => GoWritesScalar(s, v);
  }

  lemma GoWritesScalar(s: Go, v: Value)
    requires WellFormed(v) && s.booleanField == None
    requires !v.VStruct? && !v.VMap? && !v.VSet? && !v.VList?
    ensures GoRun(s, Calls(v)) == Some(s.(out := s.out + Encode(v)))
  {
    var c := Calls(v)[0];
    assert Calls(v) == [c];
    GoRunOne(s, c);
  }

  lemma {:induction false} GoWritesCollection(s: Go, c: Call, et: WireType, es: seq<Value>)
    requires |es| < TWO31 && WellFormedElems(es) && s.booleanField == None
    requires c == SetBegin(et, |es|) || c == ListBegin(et, |es|)
    ensures GoRun(s, [c] + CallsElems(es))
         == Some(s.(out := s.out + (CollectionHeader(et, |es|) + EncodeElems(es))))
    decreases es, 1
  {
    var s1 := s.(out := s.out + CollectionHeader(et, |es|));
    assert ([c] + CallsElems(es))[1..] == CallsElems(es);
    GoWritesElems(s1, es);
    Concat3(s.out, CollectionHeader(et, |es|), EncodeElems(es));
  }

  lemma {:induction false} GoWritesStruct(s: Go, fs: seq<Field>)
    requires WellFormedFields(fs) && s.booleanField == None
    ensures GoRun(s, [StructBegin] + (CallsFields(fs) + END)) == Some(s.(out := s.out + EncodeFields(0, fs)))
    decreases fs, 1
  {
    var tail := CallsFields(fs) + END;
    assert ([StructBegin] + tail)[1..] == tail;
    var s1 := GoStep(s, StructBegin).value;
    GoWritesFields(s1, fs);
    assert s1.lastField[..|s1.lastField| - 1] == s.lastField;
  }

  /** The state after the stop byte and the struct end. */
  function Ended(s: Go, body: seq<byte>): Go
    requires s.lastField != []
  {
    var top := |s.lastField| - 1;
    Go(s.out + body, s.lastField[..top], s.lastField[top], s.booleanField)
  }

  const END := [FieldStop, StructEnd]

  lemma GoEndsStruct(s: Go)
    requires s.booleanField == None && s.lastField != []
    ensures GoRun(s, END) == Some(Ended(s, [0]))
  {
    GoRunConcat(s, [FieldStop], [StructEnd]);
    assert END == [FieldStop] + [StructEnd];
    GoRunOne(s, FieldStop);
    GoRunOne(s.(out := s.out + [0]), StructEnd);
  }

  /** The rest of an open struct: remaining fields, stop byte and struct end. */
  lemma {:induction false} GoWritesFields(s: Go, fs: seq<Field>)
    requires WellFormedFields(fs) && s.booleanField == None && s.lastField != []
    ensures GoRun(s, CallsFields(fs) + END) == Some(Ended(s, EncodeFields(s.lastFieldId, fs)))
    decreases fs, 0
  {
    if fs == [] {
      assert CallsFields(fs) + END == END;
      GoEndsStruct(s);
    } else {
      var head, tail := CallsField(fs[0]), CallsFields(fs[1..]) + END;
      assert CallsFields(fs) + END == head + tail;
      GoWritesField(s, fs[0]);
      GoRunConcat(s, head, tail);
      var field := EncodeField(s.lastFieldId, fs[0]);
      var s1 := s.(out := s.out + field, lastFieldId := fs[0].id);
      GoWritesFields(s1, fs[1..]);
      Concat3(s.out, field, EncodeFields(fs[0].id, fs[1..]));
    }
  }

  lemma {:induction false} GoWritesField(s: Go, f: Field)
    requires IsInt16(f.id) && WellFormed(f.v) && s.booleanField == None
    ensures GoRun(s, CallsField(f))
         == Some(s.(out := s.out + EncodeField(s.lastFieldId, f), lastFieldId := f.id))
    decreases f, 0
  {
    assert CallsField(f)[1..] == Calls(f.v);
    var s1 := GoStep(s, FieldBegin(TypeOf(f.v), f.id)).value;
    if f.v.VBool? {
      var c := Bool(f.v.b);
      assert Calls(f.v) == [c];
      GoRunOne(s1, c);
    } else {
      GoWrites(s1, f.v);
      Concat3(s.out, FieldHeader(s.lastFieldId, f.id, CompactType(TypeOf(f.v))), Encode(f.v));
    }
  }

  lemma {:induction false} GoWritesEntries(s: Go, es: seq<Entry>)
    requires WellFormedEntries(es) && s.booleanField == None
    ensures GoRun(s, CallsEntries(es)) == Some(s.(out := s.out + EncodeEntries(es)))
    decreases es, 0
  {
    if es == [] {
      assert s.out + [] == s.out;
    } else {
      GoWritesEntry(s, es[0]);
      GoRunConcat(s, CallsEntry(es[0]), CallsEntries(es[1..]));
      var s1 := s.(out := s.out + EncodeEntry(es[0]));
      GoWritesEntries(s1, es[1..]);
      Concat3(s.out, EncodeEntry(es[0]), EncodeEntries(es[1..]));
    }
  }

  lemma {:induction false} GoWritesEntry(s: Go, e: Entry)
    requires WellFormed(e.k) && WellFormed(e.v) && s.booleanField == None
    ensures GoRun(s, CallsEntry(e)) == Some(s.(out := s.out + EncodeEntry(e)))
    decreases e, 0
  {
    GoWrites(s, e.k);
    GoRunConcat(s, Calls(e.k), Calls(e.v));
    var s1 := s.(out := s.out + Encode(e.k));
    GoWrites(s1, e.v);
    Concat3(s.out, Encode(e.k), Encode(e.v));
  }

  lemma {:induction false} GoWritesElems(s: Go, es: seq<Value>)
    requires WellFormedElems(es) && s.booleanField == None
    ensures GoRun(s, CallsElems(es)) == Some(s.(out := s.out + EncodeElems(es)))
    decreases es, 0
  {
    if es == [] {
      assert s.out + [] == s.out;
    } else {
      GoWrites(s, es[0]);
      GoRunConcat(s, Calls(es[0]), CallsElems(es[1..]));
      var s1 := s.(out := s.out + Encode(es[0]));
      GoWritesElems(s1, es[1..]);
      Concat3(s.out, Encode(es[0]), EncodeElems(es[1..]));
    }
  }
}
