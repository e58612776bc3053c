/** Reading back what thrift.js writes: a reader that goes by the type names and the sizes in the text,
    and what it recovers of every tree. */
module JsReader {
  import opened Wrappers
  import opened Wire
  import opened JsonText
  import opened JsWriter
  import opened JsJson

  /** What a text says. A number is its spelling, and so is a key that was quoted. */
  datatype Back =
    | Number(text: string)
    | Nothing
    | Chars(s: string)
    | Record(fields: seq<BackField>)
    | Dict(kt: WireType, vt: WireType, size: int, pairs: seq<BackPair>)
    | Items(et: WireType, size: int, elems: seq<Back>)

  datatype BackField = BackField(id: int, t: WireType, v: Back)
  datatype BackPair = BackPair(k: string, v: Back)

  type Got<T> = Option<(T, string)>

  // Thrift.Protocol.RType
  function RType(name: string): Option<WireType> {
    if name == "tf" then Some(BOOL)
    else if name == "i8" then Some(BYTE)
    else if name == "i16" then Some(I16)
    else if name == "i32" then Some(I32)
    else if name == "i64" then Some(I64)
    else if name == "dbl" then Some(DOUBLE)
    else if name == "rec" then Some(STRUCT)
    else if name == "str" then Some(STRING)
    else if name == "map" then Some(MAP)
    else if name == "lst" then Some(LIST)
    else if name == "set" then Some(SET)
    else None
  }

  // ----- pieces -----

  function DigitValue(c: char): nat
    requires IsDigit(c)
  {
    c as int - '0' as int
  }

  function NatOf(s: string): Option<nat> {
    if s == "" || !IsDigit(s[|s| - 1]) then None
    else if |s| == 1 then Some(DigitValue(s[0]))
    else match NatOf(s[..|s| - 1])
      case Some(n) => Some(10 * n + DigitValue(s[|s| - 1]))
      case None => None
  }

  // parseInt(s, 10)
  function IntOf(s: string): Option<int> {
    var negative := s != "" && s[0] == '-';
    match NatOf(if negative then s[1..] else s)
    case Some(n) => var value: int := n; Some(if negative then -value else value)
    case None => None
  }

  predicate Ends(c: char) { c == ',' || c == ']' || c == '}' }

  /** Up to the next comma or closing bracket. */
  function Bare(s: string): (r: (string, string))
    ensures |r.0| + |r.1| == |s|
  {
    if s == "" || Ends(s[0]) then ("", s)
    else var r := Bare(s[1..]); ([s[0]] + r.0, r.1)
  }

  function Expect(s: string, c: char): (r: Option<string>)
    ensures r.Some? ==> |r.value| < |s|
  {
    if s != "" && s[0] == c then Some(s[1..]) else None
  }

  function ReadQuoted(s: string): (r: Got<string>)
    ensures r.Some? ==> |r.value.1| < |s|
  {
    if s != "" && s[0] == '"' then ReadBody(s[1..]) else None
  }

  function ReadType(s: string): (r: Got<WireType>)
    ensures r.Some? ==> |r.value.1| < |s|
  {
    match ReadQuoted(s)
    case Some((name, rest)) => (match RType(name) case Some(t) => Some((t, rest)) case None => None)
    case None => None
  }

  function ReadInt(s: string): (r: Got<int>)
    ensures r.Some? ==> |r.value.1| <= |s|
  {
    var (text, rest) := Bare(s);
    match IntOf(text) case Some(n) => Some((n, rest)) case None => None
  }

  function ReadScalar(s: string): (r: Got<Back>)
    ensures r.Some? ==> |r.value.1| < |s|
  {
    var (text, rest) := Bare(s);
    if text == "null" then Some((Nothing, rest))
    else if text != "" && IsNumber(text) then Some((Number(text), rest))
    else None
  }

  // ----- values -----

  datatype Head = ListHead(et: WireType, size: int) | MapHead(kt: WireType, vt: WireType, size: int)

  /** The types and the size, up to the elements or to the map's object. A second type makes a map. */
  function ReadHead(s: string): (r: Got<Head>)
    ensures r.Some? ==> |r.value.1| < |s|
  {
    match ReadType(s)
    case None => None
    case Some((t, s1)) => match Expect(s1, ',')
      case None => None
      case Some(s2) =>
        if s2 != "" && s2[0] == '"' then ReadMapHead(t, s2)
        else match ReadInt(s2)
          case Some((size, rest)) => Some((ListHead(t, size), rest))
          case None => None
  }

  function ReadMapHead(kt: WireType, s: string): (r: Got<Head>)
    ensures r.Some? ==> |r.value.1| < |s|
  {
    match ReadType(s)
    case None => None
    case Some((vt, s1)) => match Expect(s1, ',')
      case None => None
      case Some(s2) => match ReadInt(s2)
        case None => None
        case Some((size, s3)) => match Expect(s3, ',')
          case None => None
          case Some(s4) => match Expect(s4, '{')
            case Some(rest) => Some((MapHead(kt, vt, size), rest))
            case None => None
  }

  /** A quoted id, and the opening of the object that holds the value under its type. */
  function ReadFieldHead(s: string): (r: Got<(int, WireType)>)
    ensures r.Some? ==> |r.value.1| < |s|
  {
    match ReadQuoted(s)
    case None => None
    case Some((key, s1)) => match (IntOf(key), Expect(s1, ':'))
      case (Some(id), Some(s2)) => (match Expect(s2, '{')
        case None => None
        case Some(s3) => match ReadType(s3)
          case None => None
          case Some((t, s4)) => match Expect(s4, ':')
            case Some(rest) => Some(((id, t), rest))
            case None => None)
      case _ => None
  }

  function ReadValue(s: string): (r: Got<Back>)
    ensures r.Some? ==> |r.value.1| < |s|
    decreases |s|, 0
  {
    if s == "" then None
    else if s[0] == '"' then
      match ReadQuoted(s) case Some((chars, rest)) => Some((Chars(chars), rest)) case None => None
    else if s[0] == '{' then
      if |s| > 1 && s[1] == '}' then Some((Record([]), s[2..]))
      else match ReadFields(s[1..]) case Some((fs, rest)) => Some((Record(fs), rest)) case None => None
    else if s[0] == '[' then ReadArray(s[1..])
    else ReadScalar(s)
  }

  function ReadField(s: string): (r: Got<BackField>)
    ensures r.Some? ==> |r.value.1| < |s|
    decreases |s|, 1
  {
    match ReadFieldHead(s)
    case None => None
    case Some((head, s1)) => match ReadValue(s1)
      case None => None
      case Some((v, s2)) => match Expect(s2, '}')
        case Some(rest) => Some((BackField(head.0, head.1, v), rest))
        case None => None
  }

  function ReadFields(s: string): (r: Got<seq<BackField>>)
    ensures r.Some? ==> |r.value.1| < |s|
    decreases |s|, 2
  {
    match ReadField(s)
    case None => None
    case Some((f, s1)) =>
      if s1 == "" then None
      else if s1[0] == '}' then Some(([f], s1[1..]))
      else if s1[0] == ',' then
        match ReadFields(s1[1..]) case Some((fs, rest)) => Some(([f] + fs, rest)) case None => None
      else None
  }

  function ReadArray(s: string): (r: Got<Back>)
    ensures r.Some? ==> |r.value.1| < |s|
    decreases |s|, 1
  {
    match ReadHead(s)
    case None => None
    case Some((ListHead(et, size), s1)) => (match ReadElems(s1)
      case Some((es, rest)) => Some((Items(et, size, es), rest))
      case None => None)
    case Some((MapHead(kt, vt, size), s1)) => (match ReadPairs(s1)
      case None => None
      case Some((ps, s2)) => match Expect(s2, ']')
        case Some(rest) => Some((Dict(kt, vt, size, ps), rest))
        case None => None)
  }

  function ReadElems(s: string): (r: Got<seq<Back>>)
    ensures r.Some? ==> |r.value.1| < |s|
    decreases |s|, 2
  {
    if s == "" then None
    else if s[0] == ']' then Some(([], s[1..]))
    else if s[0] != ',' then None
    else match ReadValue(s[1..])
      case None => None
      case Some((v, s1)) => match ReadElems(s1)
        case Some((es, rest)) => Some(([v] + es, rest))
        case None => None
  }

  function ReadPair(s: string): (r: Got<BackPair>)
    ensures r.Some? ==> |r.value.1| < |s|
    decreases |s|, 1
  {
    match ReadQuoted(s)
    case None => None
    case Some((k, s1)) => match Expect(s1, ':')
      case None => None
      case Some(s2) => match ReadValue(s2)
        case Some((v, rest)) => Some((BackPair(k, v), rest))
        case None => None
  }

  function ReadPairs(s: string): (r: Got<seq<BackPair>>)
    ensures r.Some? ==> |r.value.1| < |s|
    decreases |s|, 2
  {
    if s != "" && s[0] == '}' then Some(([], s[1..])) else ReadSomePairs(s)
  }

  function ReadSomePairs(s: string): (r: Got<seq<BackPair>>)
    ensures r.Some? ==> |r.value.1| < |s|
    decreases |s|, 2, 0
  {
    match ReadPair(s)
    case None => None
    case Some((p, s1)) =>
      if s1 == "" then None
      else if s1[0] == '}' then Some(([p], s1[1..]))
      else if s1[0] == ',' then
        match ReadSomePairs(s1[1..]) case Some((ps, rest)) => Some(([p] + ps, rest)) case None => None
      else None
  }

  // ----- what should be recovered -----

  /** A key's spelling. */
  function Spelling(k: Tree): string {
    match k
    case Scalar(i) => Plus(i)
    case Text(s) => s
    case _ => ""
  }

  /** The tree: types, sizes, order of elements and pairs, scalars by their spelling, and of the fields
      with one id the last value in the first place. */
  function BackOf(v: Tree): Back
    decreases v, 1
  {
    match v
    case Scalar(i) => if i.Null? then Nothing else Number(Plus(i))
    case Text(s) => Chars(s)
    case Struct(fs) => Record(BackFields([], fs))
    case Map(kt, vt, es) => Dict(kt, vt, |es|, BackPairs(es))
    case List(et, size, es) => Items(et, size, BackElems(es))
  }

  function BackOfField(f: FieldOf): BackField
    decreases f, 0
  {
    BackField(f.id, f.t, BackOf(f.v))
  }

  function PutField(bs: seq<BackField>, b: BackField): seq<BackField> {
    if bs == [] then [b] else if bs[0].id == b.id then [b] + bs[1..] else [bs[0]] + PutField(bs[1..], b)
  }

  function BackFields(bs: seq<BackField>, fs: seq<FieldOf>): seq<BackField>
    decreases fs, 0
  {
    if fs == [] then bs else BackFields(PutField(bs, BackOfField(fs[0])), fs[1..])
  }

  function BackOfEntry(e: EntryOf): BackPair
    decreases e, 0
  {
    BackPair(Spelling(e.k), BackOf(e.v))
  }

  function BackPairs(es: seq<EntryOf>): seq<BackPair>
    decreases es, 0
  {
    if es == [] then [] else [BackOfEntry(es[0])] + BackPairs(es[1..])
  }

  function BackElems(es: seq<Tree>): seq<Back>
    decreases es, 0
  {
    if es == [] then [] else [BackOf(es[0])] + BackElems(es[1..])
  }

  // ----- the pieces read back -----

  predicate NeverEnds(s: string) {
    forall i | 0 <= i < |s| :: !Ends(s[i])
  }

  lemma {:induction false} BareThen(s: string, r: string)
    requires NeverEnds(s) && Delimited(r)
    ensures Bare(s + r) == (s, r)
    decreases s
  {
    if s == "" {
      assert s + r == r;
    } else {
      assert (s + r)[1..] == s[1..] + r && [s[0]] + s[1..] == s;
      BareThen(s[1..], r);
    }
  }

  lemma {:induction false} NumberNeverEnds(s: string, q: NumberState)
    requires AcceptNumber(s, q) == Some("")
    ensures NeverEnds(s)
    decreases s
  {
    if s != "" {
      NumberNeverEnds(s[1..], NumberStep(q, s[0]).value);
      forall i | 0 <= i < |s|
        ensures !Ends(s[i])
      {
        assert i > 0 ==> s[i] == s[1..][i - 1];
      }
    }
  }

  lemma {:induction false} NatReads(n: nat)
    ensures NatOf(Digits(n)) == Some(n)
  {
    var s := Digits(n);
    if n >= 10 {
      NatReads(n / 10);
      DigitsStart(n / 10);
      assert s[..|s| - 1] == Digits(n / 10) && s[|s| - 1] == Digit(n % 10);
    }
  }

  lemma DecimalReads(n: int)
    ensures IntOf(Decimal(n)) == Some(n)
  {
    hide Digits, NatOf;
    if n < 0 {
      NatReads(-n);
      assert Decimal(n)[1..] == Digits(-n);
    } else {
      NatReads(n);
      DigitsStart(n);
    }
  }

  lemma IntReads(n: int, r: string)
    requires Delimited(r)
    ensures ReadInt(Decimal(n) + r) == Some((n, r))
  {
    hide Bare, IntOf, Decimal, IsPlain;
    DecimalIsNumber(n);
    NumberNeverEnds(Decimal(n), Start);
    BareThen(Decimal(n), r);
    DecimalReads(n);
  }

  lemma {:induction false} PlainBody(s: string, r: string)
    requires IsPlain(s)
    ensures ReadBody(s + ("\"" + r)) == Some((s, r))
    decreases s
  {
    if s == "" {
      assert s + ("\"" + r) == "\"" + r;
      assert ("\"" + r)[1..] == r;
    } else {
      PlainBody(s[1..], r);
      assert (s + ("\"" + r))[1..] == s[1..] + ("\"" + r) && [s[0]] + s[1..] == s;
    }
  }

  lemma QuotedReads(body: string, s: string, r: string)
    requires ReadBody(body + ("\"" + r)) == Some((s, r))
    ensures ReadQuoted("\"" + body + "\"" + r) == Some((s, r))
  {
    hide ReadBody;
    var t := "\"" + body + "\"" + r;
    assert t[1..] == body + ("\"" + r);
  }

  lemma TypeNames(t: WireType)
    ensures var name := TypeText(t)[1..|TypeText(t)| - 1];
            TypeText(t) == "\"" + name + "\"" && IsPlain(name) && RType(name) == Some(t)
  {
    match t
    case BOOL => NameOf(t, "tf");
    case BYTE => NameOf(t, "i8");
    case I16 => NameOf(t, "i16");
    case I32 => NameOf(t, "i32");
    case I64 => NameOf(t, "i64");
    case DOUBLE => NameOf(t, "dbl");
    case STRUCT => NameOf(t, "rec");
    case STRING => NameOf(t, "str");
    case MAP => NameOf(t, "map");
    case LIST => NameOf(t, "lst");
    case SET => NameOf(t, "set");
  }

  lemma NameOf(t: WireType, name: string)
    requires TypeText(t) == "\"" + name + "\"" && RType(name) == Some(t)
    ensures TypeText(t)[1..|TypeText(t)| - 1] == name && IsPlain(name)
  {
    hide TypeText;
  }

  lemma TypeReads(t: WireType, r: string)
    ensures ReadType(TypeText(t) + r) == Some((t, r))
  {
    var name := TypeText(t)[1..|TypeText(t)| - 1];
    hide TypeText, RType, IsPlain, ReadQuoted;
    TypeNames(t);
    PlainBody(name, r);
    QuotedReads(name, name, r);
  }

  lemma ExpectThen(c: char, r: string)
    ensures Expect([c] + r, c) == Some(r)
  {
    assert ([c] + r)[1..] == r;
  }

  lemma KeyReads(k: Tree, r: string)
    requires WellFormedTree(k) && CleanKey(k)
    ensures ReadQuoted(KeyText(Rendered(k)) + r) == Some((Spelling(k), r))
  {
    hide ReadQuoted;
    match k
    case Text(s) =>
      EscapeReadsBack(s, r);
      QuotedReads(Escape(s), s, r);
    case Scalar(i) => ScalarKeyReads(i, r);
  }

  lemma ScalarKeyReads(i: Item, r: string)
    requires IsScalar(i) && !(i.Num? && i.nan)
    ensures ReadQuoted(KeyText(i) + r) == Some((Plus(i), r))
  {
    hide ReadQuoted, AcceptNumber;
    if i.Num? && IsNumber(i.text) {
      NumberIsPlain(i.text, Start);
    }
    PlainBody(Plus(i), r);
    QuotedReads(Plus(i), Plus(i), r);
  }

  // ----- values read back -----

  /** In any place, the text is read whole, as x. */
  ghost predicate ReadsAs(text: string, x: Back) {
    forall r | Delimited(r) :: ReadValue(text + r) == Some((x, r))
  }

  lemma ReadsAt(text: string, x: Back, r: string)
    requires ReadsAs(text, x) && Delimited(r)
    ensures ReadValue(text + r) == Some((x, r))
  {
  }

  lemma ScalarReads(i: Item)
    requires IsScalar(i) && (i.Null? || (i.Num? && IsNumber(i.text)))
    ensures ReadsAs(Plus(i), if i.Null? then Nothing else Number(Plus(i)))
  {
    var t := Plus(i);
    assert t != "" && t[0] != '"' && t[0] != '{' && t[0] != '[';
    if i.Num? {
      NumberNeverEnds(t, Start);
    }
    forall r | Delimited(r)
      ensures ReadValue(t + r) == Some((if i.Null? then Nothing else Number(t), r))
    {
      BareThen(t, r);
      assert i.Num? ==> t != "null" by { hide Bare; assert !IsNumber("null"); }
      hide Bare, IsNumber;
      assert (t + r)[0] == t[0];
    }
  }

  lemma TextReads(s: string)
    ensures ReadsAs(Plus(Quoted(s)), Chars(s))
  {
    var t := Plus(Quoted(s));
    forall r | Delimited(r)
      ensures ReadValue(t + r) == Some((Chars(s), r))
    {
      EscapeReadsBack(s, r);
      QuotedReads(Escape(s), s, r);
      assert (t + r)[0] == '"';
    }
  }

  // ----- fields -----

  /** The member is read as the field. */
  ghost predicate MemberReads(m: Member, b: BackField) {
    forall r :: ReadField(m.key + ":" + m.value + r) == Some((b, r))
  }

  lemma HeadReads(id: int, t: WireType, r: string)
    ensures ReadFieldHead(QuotedId(id) + (":{" + (TypeText(t) + (":" + r)))) == Some(((id, t), r))
  {
    hide ReadQuoted, ReadType, IntOf, Expect, TypeText, Decimal, IsPlain;
    var tail := ":{" + (TypeText(t) + (":" + r));
    DecimalIsNumber(id);
    PlainBody(Decimal(id), tail);
    QuotedReads(Decimal(id), Decimal(id), tail);
    DecimalReads(id);
    TypeReads(t, ":" + r);
    assert tail == ":" + ("{" + (TypeText(t) + (":" + r)));
    ExpectThen(':', "{" + (TypeText(t) + (":" + r)));
    ExpectThen('{', TypeText(t) + (":" + r));
    ExpectThen(':', r);
  }

  lemma FieldReads(id: int, t: WireType, text: string, x: Back)
    requires ReadsAs(text, x)
    ensures MemberReads(Member(QuotedId(id), "{" + TypeText(t) + ":" + text + "}"), BackField(id, t, x))
  {
    hide ReadFieldHead, ReadValue, Expect, TypeText, QuotedId, ReadsAs;
    var m := Member(QuotedId(id), "{" + TypeText(t) + ":" + text + "}");
    forall r
      ensures ReadField(m.key + ":" + m.value + r) == Some((BackField(id, t, x), r))
    {
      var rest := text + ("}" + r);
      assert m.key + ":" + m.value + r == QuotedId(id) + (":{" + (TypeText(t) + (":" + rest)));
      HeadReads(id, t, rest);
      ReadsAt(text, x, "}" + r);
      ExpectThen('}', r);
    }
  }

  ghost predicate MembersRead(ms: seq<Member>, bs: seq<BackField>) {
    |ms| == |bs| && forall i | 0 <= i < |ms| :: MemberReads(ms[i], bs[i])
  }

  lemma MemberReadsAt(m: Member, b: BackField, r: string)
    requires MemberReads(m, b)
    ensures ReadField(m.key + ":" + m.value + r) == Some((b, r))
  {
  }

  lemma FieldsStep(s: string, b: BackField, tail: string)
    requires ReadField(s) == Some((b, tail)) && tail != "" && (tail[0] == ',' || tail[0] == '}')
    ensures ReadFields(s)
         == if tail[0] == '}' then Some(([b], tail[1..]))
            else match ReadFields(tail[1..]) case Some((bs, rest)) => Some(([b] + bs, rest)) case None => None
  {
    hide ReadField;
  }

  function MembersTail(ms: seq<Member>, r: string): string
    requires ms != []
  {
    if |ms| == 1 then "}" + r else "," + (Members(ms[1..]) + ("}" + r))
  }

  lemma MembersText(ms: seq<Member>, r: string)
    requires ms != []
    ensures Members(ms) + ("}" + r) == ms[0].key + ":" + ms[0].value + MembersTail(ms, r)
  {
    var head := ms[0].key + ":" + ms[0].value;
    if |ms| > 1 {
      var more := Members(ms[1..]);
      Concat3(head, "," + more, "}" + r);
      Concat3(",", more, "}" + r);
    } else {
      Concat3(head, "", "}" + r);
      assert "" + ("}" + r) == "}" + r;
    }
  }

  lemma {:induction false} MembersReadBack(ms: seq<Member>, bs: seq<BackField>, r: string)
    requires ms != [] && MembersRead(ms, bs)
    ensures ReadFields(Members(ms) + ("}" + r)) == Some((bs, r))
    decreases ms
  {
    hide ReadField, ReadFields, MemberReads;
    var m := ms[0];
    var tail := MembersTail(ms, r);
    MembersText(ms, r);
    hide Members;
    assert MemberReads(ms[0], bs[0]);
    MemberReadsAt(m, bs[0], tail);
    FieldsStep(m.key + ":" + m.value + tail, bs[0], tail);
    if |ms| > 1 {
      assert MembersRead(ms[1..], bs[1..]);
      MembersReadBack(ms[1..], bs[1..], r);
      assert tail[1..] == Members(ms[1..]) + ("}" + r) && [bs[0]] + bs[1..] == bs;
    } else {
      assert tail[1..] == r && [bs[0]] == bs;
    }
  }

  lemma RecordReads(ms: seq<Member>, bs: seq<BackField>)
    requires MembersRead(ms, bs) && forall m | m in ms :: m.key != "" && m.key[0] == '"'
    ensures ReadsAs("{" + Members(ms) + "}", Record(bs))
  {
    hide ReadFields, MemberReads;
    var t := "{" + Members(ms) + "}";
    forall r | Delimited(r)
      ensures ReadValue(t + r) == Some((Record(bs), r))
    {
      if ms == [] {
        assert (t + r)[2..] == r && bs == [];
      } else {
        assert (t + r)[1..] == Members(ms) + ("}" + r);
        assert (t + r)[1] == ms[0].key[0];
        MembersReadBack(ms, bs, r);
      }
    }
  }

  /** Member by member: the same ids, and read back unless a field to come overwrites it. */
  ghost predicate Matches(m: Member, b: BackField, fs: seq<FieldOf>) {
    m.key == QuotedId(b.id) && (KeyComes(m.key, fs) || MemberReads(m, b))
  }

  ghost predicate AllMatch(ms: seq<Member>, bs: seq<BackField>, fs: seq<FieldOf>) {
    |ms| == |bs| && forall i | 0 <= i < |ms| :: Matches(ms[i], bs[i], fs)
  }

  lemma {:induction false} PutMatches(ms: seq<Member>, bs: seq<BackField>, fs: seq<FieldOf>, m: Member, b: BackField)
    requires fs != [] && DistinctKeys(ms) && AllMatch(ms, bs, fs) && m.key == QuotedId(fs[0].id)
    requires Matches(m, b, fs[1..])
    ensures AllMatch(Put(ms, m.key, m.value), PutField(bs, b), fs[1..])
    decreases ms
  {
    hide QuotedId, MemberReads, KeyComes;
    if ms != [] {
      KeyComesCons(ms[0].key, fs);
      assert Matches(ms[0], bs[0], fs);
      if ms[0].key == m.key {
        QuotedIdInjective(bs[0].id, b.id);
        forall i | 0 < i < |ms|
          ensures Matches(ms[i], bs[i], fs[1..])
        {
          assert ms[i] == ms[1..][i - 1] && ms[i] in ms[1..];
          KeyComesCons(ms[i].key, fs);
        }
      } else {
        assert AllMatch(ms[1..], bs[1..], fs);
        PutMatches(ms[1..], bs[1..], fs, m, b);
      }
    }
  }

  // ----- pairs and elements -----

  lemma PairReads(key: string, k: string, value: string, x: Back, tail: string)
    requires ReadQuoted(key + (":" + (value + tail))) == Some((k, ":" + (value + tail)))
    requires ReadsAs(value, x) && Delimited(tail)
    ensures ReadPair(key + ":" + value + tail) == Some((BackPair(k, x), tail))
  {
    hide ReadQuoted, ReadValue, Expect, ReadsAs;
    assert key + ":" + value + tail == key + (":" + (value + tail));
    ExpectThen(':', value + tail);
    ReadsAt(value, x, tail);
  }

  lemma SomePairsStep(s: string, p: BackPair, tail: string)
    requires ReadPair(s) == Some((p, tail)) && tail != "" && (tail[0] == ',' || tail[0] == '}')
    ensures ReadSomePairs(s)
         == if tail[0] == '}' then Some(([p], tail[1..]))
            else match ReadSomePairs(tail[1..]) case Some((ps, rest)) => Some(([p] + ps, rest)) case None => None
  {
    hide ReadPair;
  }

  /** The elements behind a head, each behind a comma. */
  function Behind(items: seq<Item>): string {
    if items == [] then "" else "," + Plus(items[0]) + Behind(items[1..])
  }

  lemma {:induction false} JoinIsBehind(items: seq<Item>)
    requires items != [] && forall i | i in items :: !i.Null?
    ensures Join(items) == Plus(items[0]) + Behind(items[1..])
    decreases items
  {
    hide Plus;
    if |items| > 1 {
      assert forall i | i in items[1..] :: i in items;
      JoinIsBehind(items[1..]);
      assert items[1..][0] == items[1] && items[1..][1..] == items[1..][1..];
      assert "," + (Plus(items[1]) + Behind(items[1..][1..])) == "," + Plus(items[1]) + Behind(items[1..][1..]);
    } else {
      assert items[1..] == [] && Plus(items[0]) + "" == Plus(items[0]);
    }
  }

  // ----- trees -----

  /** Every clean tree is read back, wherever its rendering stands in a text. */
  lemma {:induction false} TreeReadsBack(v: Tree)
    requires WellFormedTree(v) && IsClean(v)
    ensures ReadsAs(Plus(Rendered(v)), BackOf(v))
    decreases v, 1
  {
    match v
    case Scalar(i) => ScalarReads(i);
    case Text(s) => TextReads(s);
    case Struct(fs) => StructReadsBack(fs);
    case Map(kt, vt, es) => MapReadsBack(kt, vt, es);
    case List(et, size, es) => ListReadsBack(et, size, es);
  }

  lemma {:induction false} StructReadsBack(fs: seq<FieldOf>)
    requires CleanFields(fs) && forall f | f in fs :: WellFormedTree(f.v)
    ensures ReadsAs(Plus(Rendered(Struct(fs))), BackOf(Struct(fs)))
    decreases fs, 1
  {
    hide MembersOf, BackFields, Members, ReadsAs, CleanFields, WellFormedTree, MemberReads, QuotedId;
    FieldsReadBack([], [], fs);
    var ms, bs := MembersOf([], fs), BackFields([], fs);
    forall m | m in ms
      ensures m.key != "" && m.key[0] == '"'
    {
      var i :| 0 <= i < |ms| && ms[i] == m;
      assert Matches(ms[i], bs[i], []);
      QuotedIdIsClosed(bs[i].id);
    }
    forall i | 0 <= i < |ms|
      ensures MemberReads(ms[i], bs[i])
    {
      assert Matches(ms[i], bs[i], []);
    }
    RecordReads(ms, bs);
  }

  lemma {:induction false} FieldsReadBack(ms: seq<Member>, bs: seq<BackField>, fs: seq<FieldOf>)
    requires DistinctKeys(ms) && AllMatch(ms, bs, fs)
    requires CleanFields(fs) && forall f | f in fs :: WellFormedTree(f.v)
    ensures AllMatch(MembersOf(ms, fs), BackFields(bs, fs), [])
    decreases fs, 0
  {
    if fs != [] {
      hide MemberReads, QuotedId, Put, PutField, DistinctKeys, AllMatch, KeyComes, Overwritten, IsClean, WellFormedTree;
      hide FieldText, BackOf;
      var m := Member(QuotedId(fs[0].id), FieldText(fs[0]));
      KeyComesIs(fs[0].id, fs[1..]);
      if !Overwritten(fs[0].id, fs[1..]) {
        FieldReadsBack(fs[0]);
      }
      PutMatches(ms, bs, fs, m, BackOfField(fs[0]));
      PutMembers(ms, m.key, m.value);
      FieldsReadBack(Put(ms, m.key, m.value), PutField(bs, BackOfField(fs[0])), fs[1..]);
    }
  }

  lemma {:induction false} FieldReadsBack(f: FieldOf)
    requires WellFormedTree(f.v) && CleanField(f)
    ensures MemberReads(Member(QuotedId(f.id), FieldText(f)), BackOfField(f))
    decreases f, 0
  {
    hide MemberReads, QuotedId, ReadsAs, TypeText, Plus, Rendered, BackOf, WellFormedTree, IsClean;
    assert IsClean(f.v) by { CleanFieldIs(f); }
    TreeReadsBack(f.v);
    FieldReads(f.id, f.t, Plus(Rendered(f.v)), BackOf(f.v));
  }

  lemma CleanFieldIs(f: FieldOf)
    ensures CleanField(f) <==> IsClean(f.v)
  {
  }

  lemma ElemsStep(text: string, x: Back, tail: string)
    requires ReadValue(text + tail) == Some((x, tail))
    ensures ReadElems("," + (text + tail))
         == match ReadElems(tail) case Some((es, rest)) => Some(([x] + es, rest)) case None => None
  {
    hide ReadValue;
    assert ("," + (text + tail))[1..] == text + tail;
  }

  lemma BehindCons(i: Item, items: seq<Item>, r: string)
    ensures Behind([i] + items) + ("]" + r) == "," + (Plus(i) + (Behind(items) + ("]" + r)))
  {
    hide Plus;
    assert ([i] + items)[1..] == items;
    assert "," + Plus(i) + Behind(items) + ("]" + r) == "," + (Plus(i) + (Behind(items) + ("]" + r)));
  }

  lemma {:induction false} NoNulls(es: seq<Tree>)
    requires CleanElems(es)
    ensures forall i | i in ItemsOf(es) :: !i.Null?
    decreases es
  {
    if es != [] {
      hide IsClean;
      NoNulls(es[1..]);
      RenderedIsNull(es[0]);
      hide Rendered;
    }
  }

  lemma {:induction false} ElemsReadBack(es: seq<Tree>, r: string)
    requires CleanElems(es) && forall e | e in es :: WellFormedTree(e)
    ensures ReadElems(Behind(ItemsOf(es)) + ("]" + r)) == Some((BackElems(es), r))
    decreases es, 0
  {
    if es == [] {
      assert ("]" + r)[1..] == r && Behind(ItemsOf(es)) + ("]" + r) == "]" + r;
    } else {
      hide ReadValue, ReadElems, Plus, IsClean, WellFormedTree, BackOf, ReadsAs, Rendered, Behind;
      var later := ItemsOf(es[1..]);
      TreeReadsBack(es[0]);
      ElemsReadBack(es[1..], r);
      BehindCons(Rendered(es[0]), later, r);
      BehindStarts(later, r);
      ReadsAt(Plus(Rendered(es[0])), BackOf(es[0]), Behind(later) + ("]" + r));
      ElemsStep(Plus(Rendered(es[0])), BackOf(es[0]), Behind(later) + ("]" + r));
    }
  }

  lemma BehindStarts(items: seq<Item>, r: string)
    ensures Delimited(Behind(items) + ("]" + r))
  {
  }

  lemma ListHeadReads(et: WireType, size: int, rest: string)
    requires Delimited(rest)
    ensures ReadHead(TypeText(et) + ("," + (Decimal(size) + rest))) == Some((ListHead(et, size), rest))
  {
    hide ReadType, ReadInt, Expect, TypeText, ReadMapHead;
    TypeReads(et, "," + (Decimal(size) + rest));
    ExpectThen(',', Decimal(size) + rest);
    IntReads(size, rest);
    DecimalStarts(size);
    assert (Decimal(size) + rest)[0] == Decimal(size)[0];
  }

  lemma DecimalStarts(n: int)
    ensures Decimal(n) != "" && Decimal(n)[0] != '"'
  {
    DecimalIsNumber(n);
    assert Decimal(n) != "";
  }

  lemma ArrayReads(inner: string)
    ensures ReadValue("[" + inner) == ReadArray(inner)
  {
    hide ReadArray;
    assert ("[" + inner)[1..] == inner;
  }

  lemma ListArray(inner: string, et: WireType, size: int, rest: string, xs: seq<Back>, r: string)
    requires ReadHead(inner) == Some((ListHead(et, size), rest)) && ReadElems(rest) == Some((xs, r))
    ensures ReadArray(inner) == Some((Items(et, size, xs), r))
  {
    hide ReadHead, ReadElems;
  }

  lemma MapArray(inner: string, kt: WireType, vt: WireType, size: int, rest: string, ps: seq<BackPair>, r: string)
    requires ReadHead(inner) == Some((MapHead(kt, vt, size), rest)) && ReadPairs(rest) == Some((ps, "]" + r))
    ensures ReadArray(inner) == Some((Dict(kt, vt, size, ps), r))
  {
    hide ReadHead, ReadPairs, Expect;
    ExpectThen(']', r);
  }

  lemma {:induction false} ListReadsBack(et: WireType, size: int, es: seq<Tree>)
    requires CleanElems(es) && forall e | e in es :: WellFormedTree(e)
    ensures ReadsAs(Plus(Rendered(List(et, size, es))), BackOf(List(et, size, es)))
    decreases es, 2
  {
    hide ReadValue, Plus, Rendered, BackOf, CleanElems, WellFormedTree, Delimited;
    forall r | Delimited(r)
      ensures ReadValue(Plus(Rendered(List(et, size, es))) + r) == Some((BackOf(List(et, size, es)), r))
    {
      ListReadsAt(et, size, es, r);
    }
  }

  lemma {:induction false} ListReadsAt(et: WireType, size: int, es: seq<Tree>, r: string)
    requires CleanElems(es) && forall e | e in es :: WellFormedTree(e)
    ensures ReadValue(Plus(Rendered(List(et, size, es))) + r) == Some((BackOf(List(et, size, es)), r))
    decreases es, 1
  {
    hide TypeText, Decimal, ItemsOf, CleanElems, WellFormedTree, Behind, ReadElems, ReadHead, Rendered, BackElems;
    hide ReadValue, ReadArray, Plus, Delimited;
    var rest := Behind(ItemsOf(es)) + ("]" + r);
    var inner := TypeText(et) + ("," + (Decimal(size) + rest));
    ElemsReadBack(es, r);
    BehindStarts(ItemsOf(es), r);
    ListHeadReads(et, size, rest);
    ListArray(inner, et, size, rest, BackElems(es), r);
    ArrayReads(inner);
    ListTextAt(et, size, es, r);
  }

  lemma ListTextAt(et: WireType, size: int, es: seq<Tree>, r: string)
    requires CleanElems(es)
    ensures Plus(Rendered(List(et, size, es))) + r
         == "[" + (TypeText(et) + ("," + (Decimal(size) + (Behind(ItemsOf(es)) + ("]" + r)))))
  {
    hide TypeText, Decimal, ItemsOf, CleanElems, Behind;
    var items := ItemsOf(es);
    assert Plus(Rendered(List(et, size, es))) == "[" + Join([Str(TypeText(et)), Integer(size)] + items) + "]";
    hide Plus, Rendered, Join, Integer;
    NoNulls(es);
    ListText(et, size, items);
    assert "[" + (TypeText(et) + ("," + (Decimal(size) + Behind(items)))) + "]" + r
        == "[" + (TypeText(et) + ("," + (Decimal(size) + (Behind(items) + ("]" + r)))));
  }

  lemma ListText(et: WireType, size: int, items: seq<Item>)
    requires forall i | i in items :: !i.Null?
    ensures Join([Str(TypeText(et)), Integer(size)] + items) == TypeText(et) + ("," + (Decimal(size) + Behind(items)))
  {
    hide TypeText, Decimal, Join;
    var a, b := Str(TypeText(et)), Integer(size);
    var all := [a, b] + items;
    assert forall i | i in all :: !i.Null?;
    JoinIsBehind(all);
    assert all[1..] == [b] + items && ([b] + items)[1..] == items;
  }

  lemma MapHeadReads(kt: WireType, vt: WireType, size: nat, rest: string)
    ensures ReadHead(TypeText(kt) + ("," + (TypeText(vt) + ("," + (Decimal(size) + (",{" + rest))))))
         == Some((MapHead(kt, vt, size), rest))
  {
    var tail := TypeText(vt) + ("," + (Decimal(size) + (",{" + rest)));
    assert TypeText(vt)[0] == '"' && tail[0] == TypeText(vt)[0];
    hide ReadType, ReadInt, Expect, TypeText, Decimal, ReadMapHead;
    TypeReads(kt, "," + tail);
    ExpectThen(',', tail);
    MapRestReads(kt, vt, size, rest);
  }

  lemma MapRestReads(kt: WireType, vt: WireType, size: nat, rest: string)
    ensures ReadMapHead(kt, TypeText(vt) + ("," + (Decimal(size) + (",{" + rest)))) == Some((MapHead(kt, vt, size), rest))
  {
    hide ReadType, ReadInt, Expect, TypeText, Decimal;
    TypeReads(vt, "," + (Decimal(size) + (",{" + rest)));
    ExpectThen(',', Decimal(size) + (",{" + rest));
    IntReads(size, ",{" + rest);
    assert ",{" + rest == "," + ("{" + rest);
    ExpectThen(',', "{" + rest);
    ExpectThen('{', rest);
  }

  lemma {:induction false} PairsReadBack(es: seq<EntryOf>, r: string)
    requires es != [] && CleanEntries(es) && forall e | e in es :: WellFormedTree(e.k) && WellFormedTree(e.v)
    ensures ReadSomePairs(Pairs(ItemsOfEntries(es)) + ("}" + r)) == Some((BackPairs(es), r))
    decreases es, 0
  {
    hide ReadPair, ReadSomePairs, Plus, KeyText, WellFormedTree, CleanEntry, ItemsOfEntry;
    var items, later := ItemsOfEntry(es[0]), ItemsOfEntries(es[1..]);
    var key, value := KeyText(items[0]), Plus(items[1]);
    var tail := if |es| == 1 then "}" + r else "," + (Pairs(later) + ("}" + r));
    assert ItemsOfEntries(es) == items + later && (items + later)[2..] == later;
    assert Pairs(ItemsOfEntries(es)) + ("}" + r) == key + ":" + value + tail by {
      assert |es| > 1 ==> key + ":" + value + ("," + Pairs(later)) + ("}" + r) == key + ":" + value + tail;
    }
    EntryReadsBack(es[0], tail);
    SomePairsStep(key + ":" + value + tail, BackOfEntry(es[0]), tail);
    if |es| > 1 {
      PairsReadBack(es[1..], r);
      assert tail[1..] == Pairs(later) + ("}" + r);
    } else {
      assert tail[1..] == r && es[1..] == [] && [BackOfEntry(es[0])] + BackPairs(es[1..]) == [BackOfEntry(es[0])];
    }
  }

  lemma {:induction false} EntryReadsBack(e: EntryOf, tail: string)
    requires WellFormedTree(e.k) && WellFormedTree(e.v) && CleanEntry(e) && Delimited(tail)
    ensures var items := ItemsOfEntry(e);
            ReadPair(KeyText(items[0]) + ":" + Plus(items[1]) + tail) == Some((BackOfEntry(e), tail))
    decreases e, 0
  {
    hide ReadPair, ReadQuoted, Plus, KeyText, WellFormedTree, CleanKey, IsClean, Rendered, BackOf, ReadsAs, Spelling;
    var value := Plus(Rendered(e.v));
    TreeReadsBack(e.v);
    KeyReads(e.k, ":" + (value + tail));
    PairReads(KeyText(Rendered(e.k)), Spelling(e.k), value, BackOf(e.v), tail);
  }

  lemma BehindStep(i: Item, items: seq<Item>)
    ensures Behind([i] + items) == "," + (Plus(i) + Behind(items))
  {
    hide Plus;
    assert ([i] + items)[1..] == items;
    assert "," + Plus(i) + Behind(items) == "," + (Plus(i) + Behind(items));
  }

  lemma MapJoins(kt: WireType, vt: WireType, size: nat, text: string)
    ensures "[" + Join([Str(TypeText(kt)), Str(TypeText(vt)), Integer(size), Str("{" + text + "}")]) + "]"
         == "[" + (TypeText(kt) + ("," + (TypeText(vt) + ("," + (Decimal(size) + (",{" + (text + "}]")))))))
  {
    hide TypeText, Decimal, Join, Behind;
    var a, b, c, d := Str(TypeText(kt)), Str(TypeText(vt)), Integer(size), Str("{" + text + "}");
    assert [a] + [b, c, d] == [a, b, c, d] && [b] + [c, d] == [b, c, d] && [c] + [d] == [c, d] && [d] + [] == [d];
    JoinIsBehind([a, b, c, d]);
    BehindStep(b, [c, d]);
    BehindStep(c, [d]);
    BehindStep(d, []);
    assert Behind([]) == "" by { BehindNothing(); }
    MapJoined(TypeText(kt), TypeText(vt), Decimal(size), text);
  }

  lemma BehindNothing()
    ensures Behind([]) == ""
  {
  }

  lemma MapJoined(a: string, b: string, c: string, text: string)
    ensures "[" + (a + ("," + (b + ("," + (c + ("," + (("{" + text + "}") + ""))))))) + "]"
         == "[" + (a + ("," + (b + ("," + (c + (",{" + (text + "}]")))))))
  {
    var t6 := "," + (("{" + text + "}") + "");
    var t5 := c + t6;
    var t4 := "," + t5;
    var t3 := b + t4;
    var t2 := "," + t3;
    Concat3("[", a + t2, "]");
    Concat3(a, t2, "]");
    Concat3(",", t3, "]");
    Concat3(b, t4, "]");
    Concat3(",", t5, "]");
    Concat3(c, t6, "]");
    assert t6 + "]" == ",{" + (text + "}]");
  }

  lemma {:induction false} PairsEnd(es: seq<EntryOf>, r: string)
    requires CleanEntries(es) && forall e | e in es :: WellFormedTree(e.k) && WellFormedTree(e.v)
    ensures ReadPairs(Pairs(ItemsOfEntries(es)) + ("}" + r)) == Some((BackPairs(es), r))
    decreases es, 1
  {
    hide ReadSomePairs;
    var s := Pairs(ItemsOfEntries(es)) + ("}" + r);
    if es == [] {
      assert s == "}" + r && ("}" + r)[1..] == r;
    } else {
      PairsReadBack(es, r);
      KeyStarts(es[0].k);
      assert s[0] == KeyText(Rendered(es[0].k))[0];
    }
  }

  lemma KeyStarts(k: Tree)
    requires WellFormedTree(k)
    ensures KeyText(Rendered(k)) != "" && KeyText(Rendered(k))[0] != '}'
  {
    KeyIsClosed(k);
  }

  lemma {:induction false} MapReadsBack(kt: WireType, vt: WireType, es: seq<EntryOf>)
    requires CleanEntries(es) && forall e | e in es :: WellFormedTree(e.k) && WellFormedTree(e.v)
    ensures ReadsAs(Plus(Rendered(Map(kt, vt, es))), BackOf(Map(kt, vt, es)))
    decreases es, 3
  {
    hide ReadValue, Plus, Rendered, BackOf, CleanEntries, WellFormedTree, Delimited;
    forall r | Delimited(r)
      ensures ReadValue(Plus(Rendered(Map(kt, vt, es))) + r) == Some((BackOf(Map(kt, vt, es)), r))
    {
      MapReadsAt(kt, vt, es, r);
    }
  }

  lemma {:induction false} MapReadsAt(kt: WireType, vt: WireType, es: seq<EntryOf>, r: string)
    requires CleanEntries(es) && forall e | e in es :: WellFormedTree(e.k) && WellFormedTree(e.v)
    ensures ReadValue(Plus(Rendered(Map(kt, vt, es))) + r) == Some((BackOf(Map(kt, vt, es)), r))
    decreases es, 2
  {
    hide TypeText, Decimal, ItemsOfEntries, CleanEntries, WellFormedTree, Pairs, ReadPairs, ReadHead, Rendered, BackPairs;
    hide ReadValue, ReadArray, Plus;
    var rest := Pairs(ItemsOfEntries(es)) + ("}" + ("]" + r));
    var inner := TypeText(kt) + ("," + (TypeText(vt) + ("," + (Decimal(|es|) + (",{" + rest)))));
    MapHeadReads(kt, vt, |es|, rest);
    PairsEnd(es, "]" + r);
    MapArray(inner, kt, vt, |es|, rest, BackPairs(es), r);
    ArrayReads(inner);
    MapTextAt(kt, vt, es, r);
  }

  lemma MapTail(a: string, b: string, c: string, text: string, r: string)
    ensures "[" + (a + ("," + (b + ("," + (c + (",{" + (text + "}]"))))))) + r
         == "[" + (a + ("," + (b + ("," + (c + (",{" + (text + ("}" + ("]" + r)))))))))
  {
    var t7 := text + "}]";
    var t6 := ",{" + t7;
    var t5 := c + t6;
    var t4 := "," + t5;
    var t3 := b + t4;
    var t2 := "," + t3;
    Concat3("[", a + t2, r);
    Concat3(a, t2, r);
    Concat3(",", t3, r);
    Concat3(b, t4, r);
    Concat3(",", t5, r);
    Concat3(c, t6, r);
    Concat3(",{", t7, r);
    Concat3(text, "}]", r);
    assert "}]" + r == "}" + ("]" + r);
  }

  lemma MapTextAt(kt: WireType, vt: WireType, es: seq<EntryOf>, r: string)
    ensures Plus(Rendered(Map(kt, vt, es))) + r
         == "[" + (TypeText(kt) + ("," + (TypeText(vt) + ("," + (Decimal(|es|)
                + (",{" + (Pairs(ItemsOfEntries(es)) + ("}" + ("]" + r)))))))))
  {
    hide TypeText, Decimal, ItemsOfEntries, Pairs;
    var text := Pairs(ItemsOfEntries(es));
    assert Plus(Rendered(Map(kt, vt, es)))
        == "[" + Join([Str(TypeText(kt)), Str(TypeText(vt)), Integer(|es|), Str("{" + text + "}")]) + "]";
    hide Plus, Rendered, Join, Integer;
    MapJoins(kt, vt, |es|, text);
    MapTail(TypeText(kt), TypeText(vt), Decimal(|es|), text, r);
  }

  /** From a fresh protocol, what a clean tree leaves on the stack is read back as the tree, and nothing
      is left over. */
  lemma WrittenReadsBack(v: Tree)
    requires WellFormedTree(v) && IsClean(v)
    ensures Run(State([], []), Calls(v)) == Some(State([Rendered(v)], []))
    ensures ReadValue(Plus(Rendered(v))) == Some((BackOf(v), ""))
  {
    hide Run, Calls, Rendered, ReadValue, IsClean, BackOf, ReadsAs;
    WritesJsonIff(v);
    TreeReadsBack(v);
    ReadsAt(Plus(Rendered(v)), BackOf(v), "");
    assert Plus(Rendered(v)) + "" == Plus(Rendered(v));
  }
}
