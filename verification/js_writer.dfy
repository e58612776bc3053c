/** The writer of thrift.js: values are pushed on `tstack`, `tpos` remembers where each open container
    stands, and every end call folds what is above into one string. */
module JsWriter {
  import opened Wrappers
  import opened Wire
  import JsonText

  /** What can stand on tstack. A number is known by its spelling and by whether it is NaN. */
  datatype Item =
    | Num(text: string, nan: bool)
    | Str(text: string)
    | Null
    | Arr(items: seq<Item>)
    | Obj(members: seq<Member>)
    | Info(fieldId: string, fieldType: string)

  /** A property; names here are quoted ids, which a JavaScript object lists in order of insertion. */
  datatype Member = Member(key: string, value: string)

  // Thrift.Protocol.Type
  function TypeText(t: WireType): string {
    match t
    case BOOL => "\"tf\""
    case BYTE => "\"i8\""
    case I16 => "\"i16\""
    case I32 => "\"i32\""
    case I64 => "\"i64\""
    case DOUBLE => "\"dbl\""
    case STRUCT => "\"rec\""
    case STRING => "\"str\""
    case MAP => "\"map\""
    case LIST => "\"lst\""
    case SET => "\"set\""
  }

  function Digits(n: nat): string {
    if n < 10 then [Digit(n)] else Digits(n / 10) + [Digit(n % 10)]
  }

  function Digit(d: nat): char
    requires d < 10
  {
    "0123456789"[d]
  }

  function Decimal(n: int): string {
    if n < 0 then "-" + Digits(-n) else Digits(n)
  }

  function Integer(n: int): Item { Num(Decimal(n), false) }

  // ----- strings of items -----

  /** Conversion to a string by `+`. */
  function Plus(i: Item): string
    decreases i, 1
  {
    match i
    case Num(text, _) => text
    case Str(text) => text
    case Null => "null"
    case Arr(items) => Join(items)
    case _ => "[object Object]"
  }

  /** Array.join(','), where null becomes nothing. */
  function Join(items: seq<Item>): string
    decreases items, 0
  {
    if items == [] then ""
    else (if items[0].Null? then "" else Plus(items[0]))
         + if |items| == 1 then "" else "," + Join(items[1..])
  }

  /** isNaN: of a string it is true unless the string is empty, since all others on the stack start
      with a quote, a bracket or a brace. */
  predicate IsNaN(i: Item) {
    match i
    case Num(_, nan) => nan
    case Str(text) => text != ""
    case Null => false
    case _ => true
  }

  function KeyText(k: Item): string {
    if !IsNaN(k) then "\"" + Plus(k) + "\"" else Plus(k)
  }

  /** Keys and values in turn, in stack order. */
  function Pairs(items: seq<Item>): string {
    if |items| < 2 then ""
    else KeyText(items[0]) + ":" + Plus(items[1]) + if |items| < 4 then "" else "," + Pairs(items[2..])
  }

  function Members(ms: seq<Member>): string {
    if ms == [] then ""
    else ms[0].key + ":" + ms[0].value + if |ms| == 1 then "" else "," + Members(ms[1..])
  }

  /** obj[key] = value: in place when the property is there. */
  function Put(ms: seq<Member>, key: string, value: string): seq<Member> {
    if ms == [] then [Member(key, value)]
    else if ms[0].key == key then [Member(key, value)] + ms[1..]
    else [ms[0]] + Put(ms[1..], key, value)
  }

  // ----- the calls -----

  datatype State = State(tstack: seq<Item>, tpos: seq<nat>)

  datatype Call =
    | Push(i: Item)
    | StructBegin
    | StructEnd
    | FieldBegin(t: WireType, id: int)
    | FieldEnd
    | MapBegin(kt: WireType, vt: WireType)
    | MapEnd
    | ListBegin(et: WireType, size: int)
    | ListEnd

  function QuotedId(id: int): string { "\"" + Decimal(id) + "\"" }

  function Opened(s: State, i: Item): State {
    State(s.tstack + [i], s.tpos + [|s.tstack|])
  }

  /** The last position recorded, when it is one of the stack's. */
  function Open(s: State): Option<nat> {
    if s.tpos != [] && s.tpos[|s.tpos| - 1] < |s.tstack| then Some(s.tpos[|s.tpos| - 1]) else None
  }

  function Pop(tpos: seq<nat>): seq<nat> {
    if tpos == [] then [] else tpos[..|tpos| - 1]
  }

  // writeMapEnd pads a lone key with an empty string
  function Paired(items: seq<Item>): (r: seq<Item>)
    ensures |r| % 2 == 0
  {
    if |items| % 2 == 0 then items else items + [Str("")]
  }

  function MapText(head: seq<Item>, items: seq<Item>): string
    requires head != []
  {
    var all := Paired(items);
    "[" + Join(head[..|head| - 1] + [Integer(|all| / 2), Str("{" + Pairs(all) + "}")]) + "]"
  }

  /** None is a TypeError, or an end call that meets something it did not open. */
  function Step(s: State, c: Call): Option<State> {
    match c
    case Push(i) => Some(s.(tstack := s.tstack + [i]))
    case StructBegin => Some(Opened(s, Obj([])))
    case FieldBegin(t, id) => Some(Opened(s, Info(QuotedId(id), TypeText(t))))
    case MapBegin(kt, vt) => Some(Opened(s, Arr([Str(TypeText(kt)), Str(TypeText(vt)), Integer(0)])))
    case ListBegin(et, size) => Some(Opened(s, Arr([Str(TypeText(et)), Integer(size)])))
    case StructEnd => (match Open(s)
      case Some(p) =>
        if s.tstack[p].Obj? then
          Some(State(s.tstack[p := Str("{" + Members(s.tstack[p].members) + "}")], Pop(s.tpos)))
        else None
      case None => None)
    case FieldEnd =>
      var n := |s.tstack|;
      if n >= 3 && s.tpos != [] && s.tstack[n - 2].Info? && s.tstack[n - 3].Obj? then
        var info := s.tstack[n - 2];
        var text := "{" + info.fieldType + ":" + Plus(s.tstack[n - 1]) + "}";
        Some(State(s.tstack[..n - 3] + [Obj(Put(s.tstack[n - 3].members, info.fieldId, text))], Pop(s.tpos)))
      else None
    case MapEnd => (match Open(s)
      case None => if s.tpos != [] && s.tpos[|s.tpos| - 1] == |s.tstack| then Some(s.(tpos := Pop(s.tpos))) else None
      case Some(p) =>
        if s.tstack[p].Arr? && s.tstack[p].items != [] then
          Some(State(s.tstack[..p] + [Str(MapText(s.tstack[p].items, s.tstack[p + 1..]))], Pop(s.tpos)))
        else None)
    case ListEnd => (match Open(s)
      case Some(p) =>
        if s.tstack[p].Arr? then
          Some(State(s.tstack[..p] + [Str("[" + Join(s.tstack[p].items + s.tstack[p + 1..]) + "]")], Pop(s.tpos)))
        else None
      case None => None)
  }

  function Run(s: State, cs: seq<Call>): Option<State>
    decreases cs
  {
    if cs == [] then Some(s)
    else match Step(s, cs[0])
      case Some(s1) => Run(s1, cs[1..])
      case None => None
  }

  lemma {:induction false} RunConcat(s: State, a: seq<Call>, b: seq<Call>)
    ensures Run(s, a + b) == match Run(s, a) case Some(s1) => Run(s1, b) case None => None
    decreases a
  {
    if a == [] {
      assert a + b == b;
    } else {
      assert (a + b)[1..] == a[1..] + b;
      match Step(s, a[0])
      case Some(s1) => RunConcat(s1, a[1..], b);
      case None =>
    }
  }

  lemma RunOne(s: State, c: Call)
    ensures Run(s, [c]) == Step(s, c)
  {
    assert [c][1..] == [];
  }

  // ----- trees and their rendering -----

  datatype Tree =
    | Scalar(i: Item)
    | Text(s: string)
    | Struct(fields: seq<FieldOf>)
    | Map(kt: WireType, vt: WireType, entries: seq<EntryOf>)
    | List(et: WireType, size: int, elems: seq<Tree>)

  datatype FieldOf = FieldOf(id: int, t: WireType, v: Tree)
  datatype EntryOf = EntryOf(k: Tree, v: Tree)

  /** JavaScript spells a finite number as JSON does, and the others as words. Booleans are the numbers
      1 and 0. */
  predicate IsScalar(i: Item) {
    match i
    case Num(text, nan) =>
      (nan <==> text == "NaN") && (nan || text == "Infinity" || text == "-Infinity" || JsonText.IsNumber(text))
    case Null => true
    case _ => false
  }

  predicate WellFormedTree(v: Tree)
    decreases v
  {
    match v
    case Scalar(i) => IsScalar(i)
    case Text(_) => true
    case Struct(fs) => forall f | f in fs :: WellFormedTree(f.v)
    case Map(_, _, es) => forall e | e in es :: WellFormedTree(e.k) && WellFormedTree(e.v)
    case List(_, _, es) => forall e | e in es :: WellFormedTree(e)
  }

  /** The one element a tree leaves on the stack. */
  function Rendered(v: Tree): Item
    decreases v, 1
  {
    match v
    case Scalar(i) => i
    case Text(s) => Quoted(s)
    case Struct(fs) => Str("{" + Members(MembersOf([], fs)) + "}")
    case Map(kt, vt, es) =>
      Str("[" + Join([Str(TypeText(kt)), Str(TypeText(vt)), Integer(|es|), Str("{" + Pairs(ItemsOfEntries(es)) + "}")])
          + "]")
    case List(et, size, es) => Str("[" + Join([Str(TypeText(et)), Integer(size)] + ItemsOf(es)) + "]")
  }

  function FieldText(f: FieldOf): string
    decreases f, 0
  {
    "{" + TypeText(f.t) + ":" + Plus(Rendered(f.v)) + "}"
  }

  function MembersOf(ms: seq<Member>, fs: seq<FieldOf>): seq<Member>
    decreases fs, 0
  {
    if fs == [] then ms else MembersOf(Put(ms, QuotedId(fs[0].id), FieldText(fs[0])), fs[1..])
  }

  function ItemsOf(es: seq<Tree>): seq<Item>
    decreases es, 0
  {
    if es == [] then [] else [Rendered(es[0])] + ItemsOf(es[1..])
  }

  function ItemsOfEntry(e: EntryOf): (r: seq<Item>)
    ensures |r| == 2
    decreases e, 0
  {
    [Rendered(e.k), Rendered(e.v)]
  }

  function ItemsOfEntries(es: seq<EntryOf>): (r: seq<Item>)
    ensures |r| == 2 * |es|
    decreases es, 0
  {
    if es == [] then [] else ItemsOfEntry(es[0]) + ItemsOfEntries(es[1..])
  }

  function Calls(v: Tree): seq<Call>
    decreases v, 1
  {
    match v
    case Scalar(i) => [Push(i)]
    case Text(s) => [Push(Quoted(s))]
    case Struct(fs) => [StructBegin] + CallsFields(fs) + [StructEnd]
    case Map(kt, vt, es) => [MapBegin(kt, vt)] + CallsEntries(es) + [MapEnd]
    case List(et, size, es) => [ListBegin(et, size)] + CallsElems(es) + [ListEnd]
  }

  function CallsField(f: FieldOf): seq<Call>
    decreases f, 0
  {
    [FieldBegin(f.t, f.id)] + Calls(f.v) + [FieldEnd]
  }

  function CallsFields(fs: seq<FieldOf>): seq<Call>
    decreases fs, 0
  {
    if fs == [] then [] else CallsField(fs[0]) + CallsFields(fs[1..])
  }

  function CallsEntry(e: EntryOf): seq<Call>
    decreases e, 0
  {
    Calls(e.k) + Calls(e.v)
  }

  function CallsEntries(es: seq<EntryOf>): seq<Call>
    decreases es, 0
  {
    if es == [] then [] else CallsEntry(es[0]) + CallsEntries(es[1..])
  }

  function CallsElems(es: seq<Tree>): seq<Call>
    decreases es, 0
  {
    if es == [] then [] else Calls(es[0]) + CallsElems(es[1..])
  }

  // ----- one element per tree -----

  lemma Bracket(s: State, begin: Call, open: Item, body: seq<Call>, end: Call, full: State, closed: State)
    requires Step(s, begin) == Some(Opened(s, open)) && Run(Opened(s, open), body) == Some(full)
    requires Step(full, end) == Some(closed)
    ensures Run(s, [begin] + body + [end]) == Some(closed)
  {
    hide Step, Run;
    RunOne(s, begin);
    RunConcat(s, [begin], body);
    RunConcat(s, [begin] + body, [end]);
    RunOne(full, end);
  }

  /** Writing any tree leaves tpos as it was and tstack longer by one element, the tree's rendering. */
  lemma {:induction false} Writes(s: State, v: Tree)
    ensures Run(s, Calls(v)) == Some(s.(tstack := s.tstack + [Rendered(v)]))
    decreases v, 1
  {
    match v
    case Scalar(i) => RunOne(s, Push(i));
    case Text(t) => RunOne(s, Push(Quoted(t)));
    case Struct(fs) => WritesStruct(s, fs);
    case Map(kt, vt, es) => WritesMap(s, kt, vt, es);
    case List(et, size, es) => WritesList(s, et, size, es);
  }

  lemma {:induction false} WritesStruct(s: State, fs: seq<FieldOf>)
    ensures Run(s, [StructBegin] + CallsFields(fs) + [StructEnd])
         == Some(s.(tstack := s.tstack + [Str("{" + Members(MembersOf([], fs)) + "}")]))
    decreases fs, 1
  {
    hide Run, CallsFields, MembersOf, Members;
    var open := Obj(MembersOf([], fs));
    var full := State(s.tstack + [open], s.tpos + [|s.tstack|]);
    WritesFields(s, [], fs);
    Closes(s, open, []);
    assert s.tstack + [open] + [] == s.tstack + [open];
    Bracket(s, StructBegin, Obj([]), CallsFields(fs), StructEnd, full,
            s.(tstack := s.tstack + [Str("{" + Members(MembersOf([], fs)) + "}")]));
  }

  lemma {:induction false} WritesMap(s: State, kt: WireType, vt: WireType, es: seq<EntryOf>)
    ensures Run(s, [MapBegin(kt, vt)] + CallsEntries(es) + [MapEnd])
         == Some(s.(tstack := s.tstack + [Rendered(Map(kt, vt, es))]))
    decreases es, 1
  {
    hide Run, CallsEntries, ItemsOfEntries, MapText, Rendered, TypeText;
    var head := Arr([Str(TypeText(kt)), Str(TypeText(vt)), Integer(0)]);
    var full := State(s.tstack + [head] + ItemsOfEntries(es), s.tpos + [|s.tstack|]);
    WritesEntries(Opened(s, head), es);
    Closes(s, head, ItemsOfEntries(es));
    MapClosed(kt, vt, es);
    Bracket(s, MapBegin(kt, vt), head, CallsEntries(es), MapEnd, full,
            s.(tstack := s.tstack + [Rendered(Map(kt, vt, es))]));
  }

  lemma {:induction false} WritesList(s: State, et: WireType, size: int, es: seq<Tree>)
    ensures Run(s, [ListBegin(et, size)] + CallsElems(es) + [ListEnd])
         == Some(s.(tstack := s.tstack + [Str("[" + Join([Str(TypeText(et)), Integer(size)] + ItemsOf(es)) + "]")]))
    decreases es, 1
  {
    hide Run, CallsElems, ItemsOf, Join, TypeText;
    var head := Arr([Str(TypeText(et)), Integer(size)]);
    var full := State(s.tstack + [head] + ItemsOf(es), s.tpos + [|s.tstack|]);
    WritesElems(Opened(s, head), es);
    Closes(s, head, ItemsOf(es));
    Bracket(s, ListBegin(et, size), head, CallsElems(es), ListEnd, full,
            s.(tstack := s.tstack + [Str("[" + Join([Str(TypeText(et)), Integer(size)] + ItemsOf(es)) + "]")]));
  }

  /** An end call finds the item its begin left, whatever was pushed above it since. */
  lemma Closes(s: State, open: Item, above: seq<Item>)
    ensures var full := State(s.tstack + [open] + above, s.tpos + [|s.tstack|]);
            && Open(full) == Some(|s.tstack|) && full.tstack[|s.tstack|] == open
            && full.tstack[..|s.tstack|] == s.tstack && full.tstack[|s.tstack| + 1..] == above
            && Pop(full.tpos) == s.tpos
            && (above == [] ==> forall i :: full.tstack[|s.tstack| := i] == s.tstack + [i])
  {
  }

  lemma MapClosed(kt: WireType, vt: WireType, es: seq<EntryOf>)
    ensures Str(MapText([Str(TypeText(kt)), Str(TypeText(vt)), Integer(0)], ItemsOfEntries(es))) == Rendered(Map(kt, vt, es))
  {
    var head := [Str(TypeText(kt)), Str(TypeText(vt)), Integer(0)];
    var items := ItemsOfEntries(es);
    assert |items| / 2 == |es| && Paired(items) == items;
    assert head[..2] + [Integer(|es|), Str("{" + Pairs(items) + "}")]
        == [Str(TypeText(kt)), Str(TypeText(vt)), Integer(|es|), Str("{" + Pairs(items) + "}")];
  }

  lemma {:induction false} WritesFields(s: State, ms: seq<Member>, fs: seq<FieldOf>)
    ensures Run(State(s.tstack + [Obj(ms)], s.tpos + [|s.tstack|]), CallsFields(fs))
         == Some(State(s.tstack + [Obj(MembersOf(ms, fs))], s.tpos + [|s.tstack|]))
    decreases fs, 0
  {
    if fs != [] {
      hide Run, CallsField, FieldText;
      WritesField(s, ms, fs[0]);
      var next := Put(ms, QuotedId(fs[0].id), FieldText(fs[0]));
      RunConcat(State(s.tstack + [Obj(ms)], s.tpos + [|s.tstack|]), CallsField(fs[0]), CallsFields(fs[1..]));
      WritesFields(s, next, fs[1..]);
    }
  }

  lemma {:induction false} WritesField(s: State, ms: seq<Member>, f: FieldOf)
    ensures Run(State(s.tstack + [Obj(ms)], s.tpos + [|s.tstack|]), CallsField(f))
         == Some(State(s.tstack + [Obj(Put(ms, QuotedId(f.id), FieldText(f)))], s.tpos + [|s.tstack|]))
    decreases f, 0
  {
    hide Run, Calls, Rendered, Put;
    var s1 := State(s.tstack + [Obj(ms)], s.tpos + [|s.tstack|]);
    var info := Info(QuotedId(f.id), TypeText(f.t));
    var s2 := Opened(s1, info);
    Writes(s2, f.v);
    var full := s2.(tstack := s2.tstack + [Rendered(f.v)]);
    assert full.tstack == s.tstack + [Obj(ms), info, Rendered(f.v)];
    var n := |full.tstack|;
    assert full.tstack[..n - 3] == s.tstack && Pop(full.tpos) == s1.tpos;
    Bracket(s1, FieldBegin(f.t, f.id), info, Calls(f.v), FieldEnd, full,
            State(s.tstack + [Obj(Put(ms, QuotedId(f.id), FieldText(f)))], s1.tpos));
  }

  lemma {:induction false} WritesEntries(s: State, es: seq<EntryOf>)
    ensures Run(s, CallsEntries(es)) == Some(s.(tstack := s.tstack + ItemsOfEntries(es)))
    decreases es, 0
  {
    if es == [] {
      assert s.tstack + [] == s.tstack;
    } else {
      hide Run, CallsEntry, ItemsOfEntry;
      WritesEntry(s, es[0]);
      RunConcat(s, CallsEntry(es[0]), CallsEntries(es[1..]));
      WritesEntries(s.(tstack := s.tstack + ItemsOfEntry(es[0])), es[1..]);
      Concat3(s.tstack, ItemsOfEntry(es[0]), ItemsOfEntries(es[1..]));
    }
  }

  lemma {:induction false} WritesEntry(s: State, e: EntryOf)
    ensures Run(s, CallsEntry(e)) == Some(s.(tstack := s.tstack + ItemsOfEntry(e)))
    decreases e, 0
  {
    hide Run, Calls, Rendered;
    Writes(s, e.k);
    var s1 := s.(tstack := s.tstack + [Rendered(e.k)]);
    Writes(s1, e.v);
    RunConcat(s, Calls(e.k), Calls(e.v));
    assert s1.tstack + [Rendered(e.v)] == s.tstack + ItemsOfEntry(e);
  }

  lemma {:induction false} WritesElems(s: State, es: seq<Tree>)
    ensures Run(s, CallsElems(es)) == Some(s.(tstack := s.tstack + ItemsOf(es)))
    decreases es, 0
  {
    if es == [] {
      assert s.tstack + [] == s.tstack;
    } else {
      hide Run, Calls, Rendered;
      Writes(s, es[0]);
      RunConcat(s, Calls(es[0]), CallsElems(es[1..]));
      var s1 := s.(tstack := s.tstack + [Rendered(es[0])]);
      WritesElems(s1, es[1..]);
      Concat3(s.tstack, [Rendered(es[0])], ItemsOf(es[1..]));
    }
  }

  // ----- repeated field ids -----

  function Lookup(ms: seq<Member>, key: string): Option<string> {
    if ms == [] then None else if ms[0].key == key then Some(ms[0].value) else Lookup(ms[1..], key)
  }

  function Keys(ms: seq<Member>): seq<string> {
    if ms == [] then [] else [ms[0].key] + Keys(ms[1..])
  }

  lemma {:induction false} PutInPlace(ms: seq<Member>, key: string, value: string, other: string)
    ensures Lookup(Put(ms, key, value), other) == if other == key then Some(value) else Lookup(ms, other)
    ensures Keys(Put(ms, key, value)) == if key in Keys(ms) then Keys(ms) else Keys(ms) + [key]
  {
    if ms != [] && ms[0].key != key {
      PutInPlace(ms[1..], key, value, other);
      assert ([ms[0].key] + Keys(ms[1..])) + [key] == [ms[0].key] + (Keys(ms[1..]) + [key]);
    }
  }

  /** The last field with a given id, if any. */
  function LastText(fs: seq<FieldOf>, key: string): Option<string> {
    if fs == [] then None
    else if LastText(fs[1..], key).Some? then LastText(fs[1..], key)
    else if QuotedId(fs[0].id) == key then Some(FieldText(fs[0]))
    else None
  }

  /** A field id written twice keeps its first place and its last value. */
  lemma {:induction false} LastFieldWins(ms: seq<Member>, fs: seq<FieldOf>, key: string)
    ensures Lookup(MembersOf(ms, fs), key) == if LastText(fs, key).Some? then LastText(fs, key) else Lookup(ms, key)
    ensures Keys(ms) <= Keys(MembersOf(ms, fs))
    decreases fs
  {
    if fs != [] {
      var id := QuotedId(fs[0].id);
      PutInPlace(ms, id, FieldText(fs[0]), key);
      LastFieldWins(Put(ms, id, FieldText(fs[0])), fs[1..], key);
    }
  }

  // ----- map keys -----

  /** "keys need to be strings": a key comes out quoted if and only if it is not NaN and not a
      container. */
  lemma KeyIsString(k: Tree)
    requires WellFormedTree(k)
    ensures var t := KeyText(Rendered(k));
            (t != [] && t[0] == '"') <==> k.Text? || (k.Scalar? && !(k.i.Num? && k.i.nan))
  {
  }

  // ----- strings -----

  function EscapeChar(c: char): string {
    if c == '"' then "\\\""
    else if c == '\\' then "\\\\"
    else if c == BACKSPACE then "\\b"
    else if c == FORM_FEED then "\\f"
    else if c == '\n' then "\\n"
    else if c == '\r' then "\\r"
    else if c == '\t' then "\\t"
    else [c]
  }

  const BACKSPACE := 8 as char
  const FORM_FEED := 12 as char

  // what writeString pushes
  function Quoted(s: string): Item {
    Str("\"" + Escape(s) + "\"")
  }

  function Escape(s: string): string {
    if s == "" then "" else EscapeChar(s[0]) + Escape(s[1..])
  }

  /** The character a two-character escape of RFC 8259 section 7 stands for. */
  function Unescaped(c: char): Option<char> {
    if c == '"' || c == '\\' || c == '/' then Some(c)
    else if c == 'b' then Some(BACKSPACE)
    else if c == 'f' then Some(FORM_FEED)
    else if c == 'n' then Some('\n')
    else if c == 'r' then Some('\r')
    else if c == 't' then Some('\t')
    else None
  }

  /** Reads a string body up to its closing quote; four-digit escapes are not needed here. */
  function ReadBody(s: string): (r: Option<(string, string)>)
    ensures r.Some? ==> |r.value.1| < |s|
  {
    if s == "" then None
    else if s[0] == '"' then Some(("", s[1..]))
    else if s[0] == '\\' then
      if |s| < 2 then None
      else match (Unescaped(s[1]), ReadBody(s[2..]))
        case (Some(c), Some((body, rest))) => Some(([c] + body, rest))
        case _ => None
    else match ReadBody(s[1..])
      case Some((body, rest)) => Some(([s[0]] + body, rest))
      case None => None
  }

  /** Every string is read back from its escaped form, and the quote put after it is the one that
      ends it. */
  lemma {:induction false} EscapeReadsBack(s: string, rest: string)
    ensures ReadBody(Escape(s) + ("\"" + rest)) == Some((s, rest))
  {
    if s == "" {
      assert Escape(s) + ("\"" + rest) == "\"" + rest;
      assert ("\"" + rest)[1..] == rest;
    } else {
      EscapeReadsBack(s[1..], rest);
      var tail := Escape(s[1..]) + ("\"" + rest);
      Concat3(EscapeChar(s[0]), Escape(s[1..]), "\"" + rest);
      CharReadsBack(s[0], tail);
      assert [s[0]] + s[1..] == s;
    }
  }

  lemma PlainReadsBack(c: char, tail: string)
    requires ReadBody(tail).Some? && c != '"' && c != '\\'
    ensures ReadBody([c] + tail) == Some(([c] + ReadBody(tail).value.0, ReadBody(tail).value.1))
  {
    assert ([c] + tail)[1..] == tail;
  }

  lemma PairReadsBack(c: char, e: char, tail: string)
    requires ReadBody(tail).Some? && Unescaped(e) == Some(c)
    ensures ReadBody(['\\', e] + tail) == Some(([c] + ReadBody(tail).value.0, ReadBody(tail).value.1))
  {
    assert (['\\', e] + tail)[2..] == tail;
  }

  lemma CharReadsBack(c: char, tail: string)
    requires ReadBody(tail).Some?
    ensures ReadBody(EscapeChar(c) + tail) == Some(([c] + ReadBody(tail).value.0, ReadBody(tail).value.1))
  {
    hide ReadBody;
    var e := EscapeChar(c);
    if |e| == 1 {
      PlainReadsBack(c, tail);
    } else {
      assert e == ['\\', e[1]] && Unescaped(e[1]) == Some(c);
      PairReadsBack(c, e[1], tail);
    }
  }

  predicate Printable(s: string) {
    forall c | c in s :: c >= ' '
  }

  predicate HasShortEscape(c: char) {
    c == BACKSPACE || c == FORM_FEED || c == '\n' || c == '\r' || c == '\t'
  }

  /** Each control character is one of the five with a short escape. */
  predicate IsSafe(s: string) {
    forall c | c in s :: c >= ' ' || HasShortEscape(c)
  }

  /** RFC 8259 forbids bare control characters: the result has none if and only if every control
      character of the string is one of the five with a short escape. */
  lemma {:induction false} EscapedIsPrintable(s: string)
    ensures Printable(Escape(s)) <==> IsSafe(s)
  {
    if s != "" {
      EscapedIsPrintable(s[1..]);
      var e, rest := EscapeChar(s[0]), Escape(s[1..]);
      assert Printable(e) <==> s[0] >= ' ' || HasShortEscape(s[0]) by { CharIsPrintable(s[0]); }
      assert forall c :: c in e + rest <==> c in e || c in rest;
      assert s == [s[0]] + s[1..];
      assert forall c :: c in s <==> c == s[0] || c in s[1..];
    }
  }

  lemma CharIsPrintable(c: char)
    ensures Printable(EscapeChar(c)) <==> c >= ' ' || HasShortEscape(c)
  {
    assert c in [c];
  }

  // ----- the object -----

  lemma {:induction false} MembersSnoc(ms: seq<Member>, m: Member)
    ensures Members(ms + [m]) == Members(ms) + (if ms == [] then "" else ",") + (m.key + ":" + m.value)
  {
    if ms == [] {
    } else {
      MembersSnoc(ms[1..], m);
      assert (ms + [m])[1..] == ms[1..] + [m];
      if |ms| == 1 {
        assert ms[1..] == [];
      }
    }
  }

  class Protocol {
    var tstack: seq<Item>
    var tpos: seq<nat>

    constructor ()
      ensures Stacks() == State([], [])
    {
      tstack, tpos := [], [];
    }

    function Stacks(): State
      reads this
    {
      State(tstack, tpos)
    }

    method PushOpen(i: Item)
      modifies this
      ensures Stacks() == Opened(old(Stacks()), i)
    {
      tpos := tpos + [|tstack|];
      tstack := tstack + [i];
    }

    method PopPos() returns (p: nat)
      requires tpos != []
      modifies `tpos
      ensures p == old(tpos)[|old(tpos)| - 1] && tpos == Pop(old(tpos))
    {
      p := tpos[|tpos| - 1];
      tpos := tpos[..|tpos| - 1];
    }

    method WriteStructBegin()
      modifies this
      ensures Some(Stacks()) == Step(old(Stacks()), StructBegin)
    {
      PushOpen(Obj([]));
    }

    method WriteStructEnd()
      requires Step(Stacks(), StructEnd).Some?
      modifies this
      ensures Some(Stacks()) == Step(old(Stacks()), StructEnd)
    {
      var p := PopPos();
      var struct := tstack[p].members;
      var str, first := "{", true;
      var i := 0;
      while i < |struct|
        invariant 0 <= i <= |struct| && str == "{" + Members(struct[..i]) && first == (i == 0)
        invariant tstack == old(tstack) && tpos == Pop(old(tpos))
      {
        assert struct[..i + 1] == struct[..i] + [struct[i]];
        MembersSnoc(struct[..i], struct[i]);
        if first {
          first := false;
        } else {
          str := str + ",";
        }
        str := str + (struct[i].key + ":" + struct[i].value);
        i := i + 1;
      }
      assert struct[..i] == struct;
      str := str + "}";
      tstack := tstack[p := Str(str)];
    }

    method WriteFieldBegin(t: WireType, id: int)
      modifies this
      ensures Some(Stacks()) == Step(old(Stacks()), FieldBegin(t, id))
    {
      PushOpen(Info(QuotedId(id), TypeText(t)));
    }

    method WriteFieldEnd()
      requires Step(Stacks(), FieldEnd).Some?
      modifies this
      ensures Some(Stacks()) == Step(old(Stacks()), FieldEnd)
    {
      var value := tstack[|tstack| - 1];
      tstack := tstack[..|tstack| - 1];
      var fieldInfo := tstack[|tstack| - 1];
      tstack := tstack[..|tstack| - 1];
      var top := |tstack| - 1;
      var members := Put(tstack[top].members, fieldInfo.fieldId, "{" + fieldInfo.fieldType + ":" + Plus(value) + "}");
      tstack := tstack[top := Obj(members)];
      assert tstack == old(tstack)[..|old(tstack)| - 3] + [Obj(members)];
      var _ := PopPos();
    }

    method WriteMapBegin(kt: WireType, vt: WireType)
      modifies this
      ensures Some(Stacks()) == Step(old(Stacks()), MapBegin(kt, vt))
    {
      PushOpen(Arr([Str(TypeText(kt)), Str(TypeText(vt)), Integer(0)]));
    }

    // the padding, the size, and the pop-and-prepend loop of writeMapEnd
    method FoldPairs(p: nat) returns (size: nat, map_: string)
      requires p < |tstack|
      modifies `tstack
      ensures var all := Paired(old(tstack)[p + 1..]);
              tstack == old(tstack)[..p + 1] && size == |all| / 2 && map_ == "{" + Pairs(all) + "}"
    {
      hide Pairs, KeyText, Plus;
      ghost var base, all := tstack[..p + 1], Paired(tstack[p + 1..]);
      if (|tstack| - p - 1) % 2 != 0 {
        tstack := tstack + [Str("")];
      }
      assert tstack == base + all;
      hide Paired;
      size := (|tstack| - p - 1) / 2;
      map_ := "}";
      var first := true;
      ghost var j := |all|;
      NoPairs();
      assert all[j..] == [] && all[..j] == all;
      while |tstack| > p + 1
        invariant 0 <= j <= |all| && j % 2 == 0 && |tstack| == p + 1 + j
        invariant tstack == base + all[..j] && first == (j == |all|)
        invariant map_ == Pairs(all[j..]) + "}"
        decreases j
      {
        var v := tstack[|tstack| - 1];
        tstack := tstack[..|tstack| - 1];
        var k := tstack[|tstack| - 1];
        tstack := tstack[..|tstack| - 1];
        PairsBefore(all, j, k, v);
        if first {
          first := false;
        } else {
          map_ := "," + map_;
        }
        map_ := KeyText(k) + ":" + Plus(v) + map_;
        j := j - 2;
      }
      assert all[0..] == all;
      map_ := "{" + map_;
    }

    /** Pops value and key in turn and puts the pair in front, so the pairs keep their order. */
    method WriteMapEnd()
      requires Step(Stacks(), MapEnd).Some?
      modifies this
      ensures Some(Stacks()) == Step(old(Stacks()), MapEnd)
    {
      MapEndIs(Stacks());
      hide Step, MapText;
      var p := PopPos();
      if p != |tstack| {
        CloseMap(p);
      }
    }

    // the array below the pairs becomes one string with them
    method CloseMap(p: nat)
      requires p < |tstack| && tstack[p].Arr? && tstack[p].items != []
      modifies `tstack
      ensures tstack == old(tstack)[..p] + [Str(MapText(old(tstack)[p].items, old(tstack)[p + 1..]))]
    {
      hide Pairs, Paired, Join, MapText;
      var head := tstack[p].items;
      var size, map_ := FoldPairs(p);
      MapTextIs(head, old(tstack)[p + 1..], size, map_);
      head := head[|head| - 1 := Integer(size)];
      tstack := tstack[p := Str("[" + Join(head + [Str(map_)]) + "]")];
    }

    method WriteListBegin(et: WireType, size: int)
      modifies this
      ensures Some(Stacks()) == Step(old(Stacks()), ListBegin(et, size))
    {
      PushOpen(Arr([Str(TypeText(et)), Integer(size)]));
    }

    /** Takes the element right above the list and pushes it on the list, until none is left: the
        elements keep their order. writeSetEnd is the same. */
    method WriteListEnd()
      requires Step(Stacks(), ListEnd).Some?
      modifies this
      ensures Some(Stacks()) == Step(old(Stacks()), ListEnd)
    {
      var p := PopPos();
      ghost var below, whole := tstack[..p], tstack[p].items + tstack[p + 1..];
      while |tstack| > p + 1
        invariant p < |tstack| && tstack[..p] == below && tstack[p].Arr? && tpos == Pop(old(tpos))
        invariant tstack[p].items + tstack[p + 1..] == whole
        decreases |tstack|
      {
        var tmpVal := tstack[p + 1];
        ghost var rest := tstack[p + 2..];
        assert tstack[p + 1..] == [tmpVal] + rest;
        Concat3(tstack[p].items, [tmpVal], rest);
        tstack := tstack[..p + 1] + tstack[p + 2..];
        tstack := tstack[p := Arr(tstack[p].items + [tmpVal])];
        assert tstack[p + 1..] == rest;
      }
      assert tstack[p + 1..] == [] && tstack[p].items + [] == tstack[p].items;
      tstack := tstack[p := Str("[" + Join(tstack[p].items) + "]")];
      assert tstack == below + [Str("[" + Join(whole) + "]")];
    }

    method WriteBool(value: bool)
      modifies `tstack
      ensures Some(Stacks()) == Step(old(Stacks()), Push(Integer(if value then 1 else 0)))
    {
      tstack := tstack + [Integer(if value then 1 else 0)];
    }

    // writeByte, writeI16, writeI32, writeI64 and writeDouble
    method WriteNumber(text: string, nan: bool)
      modifies `tstack
      ensures Some(Stacks()) == Step(old(Stacks()), Push(Num(text, nan)))
    {
      tstack := tstack + [Num(text, nan)];
    }

    method WriteString(str: Option<string>)
      modifies `tstack
      ensures Some(Stacks()) == Step(old(Stacks()), Push(match str case Some(s) => Quoted(s) case None => Null))
    {
      match str {
        case None => tstack := tstack + [Null];
        case Some(s) =>
          var escapedString, i := "", 0;
          while i < |s|
            invariant 0 <= i <= |s| && escapedString + Escape(s[i..]) == Escape(s) && tstack == old(tstack)
          {
            var ch := s[i];
            ghost var done := escapedString;
            Concat3(done, EscapeChar(ch), Escape(s[i + 1..]));
            assert s[i..][1..] == s[i + 1..];
            if ch == '"' {
              escapedString := escapedString + "\\\"";
            } else if ch == '\\' {
              escapedString := escapedString + "\\\\";
            } else if ch == BACKSPACE {
              escapedString := escapedString + "\\b";
            } else if ch == FORM_FEED {
              escapedString := escapedString + "\\f";
            } else if ch == '\n' {
              escapedString := escapedString + "\\n";
            } else if ch == '\r' {
              escapedString := escapedString + "\\r";
            } else if ch == '\t' {
              escapedString := escapedString + "\\t";
            } else {
              escapedString := escapedString + [ch];
            }
            i := i + 1;
          }
          assert s[i..] == "" && escapedString + "" == escapedString;
          tstack := tstack + [Str("\"" + escapedString + "\"")];
      }
    }
  }

  lemma MapEndIs(s: State)
    requires Step(s, MapEnd).Some?
    ensures s.tpos != [] && s.tpos[|s.tpos| - 1] <= |s.tstack|
    ensures var p := s.tpos[|s.tpos| - 1];
            if p == |s.tstack| then Step(s, MapEnd) == Some(s.(tpos := Pop(s.tpos)))
            else
              && s.tstack[p].Arr? && s.tstack[p].items != []
              && Step(s, MapEnd)
              == Some(State(s.tstack[..p] + [Str(MapText(s.tstack[p].items, s.tstack[p + 1..]))], Pop(s.tpos)))
  {
  }

  lemma MapTextIs(head: seq<Item>, items: seq<Item>, size: nat, map_: string)
    requires head != [] && size == |Paired(items)| / 2 && map_ == "{" + Pairs(Paired(items)) + "}"
    ensures "[" + Join(head[|head| - 1 := Integer(size)] + [Str(map_)]) + "]" == MapText(head, items)
  {
    hide Join, Pairs, Paired;
    assert head[|head| - 1 := Integer(size)] + [Str(map_)] == head[..|head| - 1] + [Integer(size), Str(map_)];
  }

  lemma NoPairs()
    ensures Pairs([]) == ""
  {
  }

  lemma PairsBefore(all: seq<Item>, j: nat, k: Item, v: Item)
    requires 2 <= j <= |all| && |all| % 2 == 0 == j % 2 && all[j - 2] == k && all[j - 1] == v
    ensures KeyText(k) + ":" + Plus(v) + ((if j == |all| then "" else ",") + (Pairs(all[j..]) + "}")) == Pairs(all[j - 2..]) + "}"
    ensures j == |all| ==> Pairs(all[j..]) == "" && "" + (Pairs(all[j..]) + "}") == Pairs(all[j..]) + "}"
  {
    hide KeyText, Plus;
    NoPairs();
    assert all[j - 2..] == [k, v] + all[j..];
    PairsCons(k, v, all[j..]);
    var more := Pairs(all[j..]);
    hide Pairs;
    var head := KeyText(k) + ":" + Plus(v);
    if j < |all| {
      assert head + ("," + (more + "}")) == head + ("," + more) + "}";
    } else {
      assert head + ("" + ("" + "}")) == head + "" + "}";
    }
  }

  lemma PairsCons(k: Item, v: Item, rest: seq<Item>)
    ensures Pairs([k, v] + rest) == KeyText(k) + ":" + Plus(v) + if |rest| < 2 then "" else "," + Pairs(rest)
  {
    assert ([k, v] + rest)[2..] == rest;
  }
}
