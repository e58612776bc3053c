/** Exactly which trees the writer of thrift.js renders as JSON. */
module JsJson {
  import opened Wrappers
  import opened Wire
  import opened JsonText
  import opened JsWriter

  // ----- strings and keys -----

  /** Characters that stand for themselves inside quotes. */
  predicate IsPlain(s: string) {
    forall i | 0 <= i < |s| :: s[i] >= ' ' && s[i] != '"' && s[i] != '\\'
  }

  lemma {:induction false} PlainThen(s: string, r: string)
    requires IsPlain(s)
    ensures AcceptString(s + ("\"" + r)) == Some(r)
  {
    if s == "" {
      assert s + ("\"" + r) == "\"" + r;
      assert ("\"" + r)[1..] == r;
    } else {
      PlainThen(s[1..], r);
      assert (s + ("\"" + r))[1..] == s[1..] + ("\"" + r);
    }
  }

  lemma {:induction false} NumberIsPlain(s: string, q: NumberState)
    requires AcceptNumber(s, q) == Some("")
    ensures IsPlain(s)
    decreases s
  {
    if s != "" {
      NumberIsPlain(s[1..], NumberStep(q, s[0]).value);
      forall i | 0 <= i < |s|
        ensures s[i] >= ' ' && s[i] != '"' && s[i] != '\\'
      {
        assert i > 0 ==> s[i] == s[1..][i - 1];
      }
    }
  }

  lemma EscapedCharThen(c: char, r: string)
    ensures AcceptString(EscapeChar(c) + r) == if c >= ' ' || HasShortEscape(c) then AcceptString(r) else None
  {
    var e := EscapeChar(c);
    assert (e + r)[|e|..] == r;
  }

  lemma {:induction false} EscapedThen(s: string, r: string)
    ensures AcceptString(Escape(s) + ("\"" + r)) == if IsSafe(s) then Some(r) else None
  {
    if s == "" {
      assert Escape(s) + ("\"" + r) == "\"" + r;
      assert ("\"" + r)[1..] == r;
    } else {
      hide AcceptString, EscapeChar;
      var tail := Escape(s[1..]) + ("\"" + r);
      EscapedThen(s[1..], r);
      Concat3(EscapeChar(s[0]), Escape(s[1..]), "\"" + r);
      EscapedCharThen(s[0], tail);
      assert s == [s[0]] + s[1..];
    }
  }

  lemma QuoteOpens(body: string, r: string)
    ensures var s := "\"" + body + "\"" + r;
            AcceptKey(s) == AcceptValue(s) == AcceptString(body + ("\"" + r))
  {
    hide AcceptString;
    var s := "\"" + body + "\"" + r;
    assert s[1..] == body + ("\"" + r);
  }

  /** A text between quotes, from what its body does. */
  lemma QuotedIsClosed(body: string, ok: bool)
    requires forall r :: AcceptString(body + ("\"" + r)) == if ok then Some(r) else None
    ensures var t := "\"" + body + "\"";
            && ClosedKey(t) && (AcceptKey(t) == Some("") <==> ok)
            && Closed(t) && (IsJson(t) <==> ok)
  {
    hide AcceptString, AcceptKey, AcceptValue, ClosedKey, Closed, IsJson;
    var t := "\"" + body + "\"";
    forall r
      ensures AcceptKey(t + r) == AcceptValue(t + r) == if ok then Some(r) else None
    {
      QuoteOpens(body, r);
    }
    ClosedKeyBy(t, ok);
    ClosedBy(t, ok);
  }

  lemma TextIsClosed(s: string)
    ensures var t := Plus(Quoted(s));
            && ClosedKey(t) && (AcceptKey(t) == Some("") <==> IsSafe(s))
            && Closed(t) && (IsJson(t) <==> IsSafe(s))
  {
    hide AcceptString;
    forall r
      ensures AcceptString(Escape(s) + ("\"" + r)) == if IsSafe(s) then Some(r) else None
    {
      EscapedThen(s, r);
    }
    QuotedIsClosed(Escape(s), IsSafe(s));
  }

  lemma PlainIsClosed(s: string)
    requires IsPlain(s)
    ensures var t := "\"" + s + "\"";
            ClosedKey(t) && AcceptKey(t) == Some("") && Closed(t) && IsJson(t)
  {
    hide AcceptString;
    forall r
      ensures AcceptString(s + ("\"" + r)) == Some(r)
    {
      PlainThen(s, r);
    }
    QuotedIsClosed(s, true);
  }

  lemma TypeTextIsClosed(t: WireType)
    ensures ClosedKey(TypeText(t)) && AcceptKey(TypeText(t)) == Some("") && Closed(TypeText(t)) && IsJson(TypeText(t))
    ensures TypeText(t) != "" && TypeText(t)[0] == '"'
  {
    var s := TypeText(t)[1..|TypeText(t)| - 1];
    assert TypeText(t) == "\"" + s + "\"";
    PlainIsClosed(s);
    hide AcceptKey, AcceptValue;
  }

  // ----- decimal integers -----

  lemma {:induction false} DigitsThen(n: nat, q: NumberState, r: string)
    requires (q == Start || q == Minus) && n > 0
    ensures AcceptNumber(Digits(n) + r, q) == AcceptNumber(r, Int)
    decreases n
  {
    if n < 10 {
      assert (Digits(n) + r)[1..] == r;
    } else {
      var last := [Digit(n % 10)] + r;
      DigitsThen(n / 10, q, last);
      Concat3(Digits(n / 10), [Digit(n % 10)], r);
      assert last[1..] == r;
    }
  }

  lemma DecimalIsNumber(n: int)
    ensures IsNumber(Decimal(n)) && IsPlain(Decimal(n))
  {
    if n == 0 {
      assert Decimal(n)[1..] == "";
    } else if n > 0 {
      DigitsThen(n, Start, "");
      assert Digits(n) + "" == Digits(n);
    } else {
      DigitsThen(-n, Minus, "");
      assert Digits(-n) + "" == Digits(-n);
      assert Decimal(n)[1..] == Digits(-n);
    }
    NumberIsPlain(Decimal(n), Start);
  }

  // ----- arrays: what join makes of closed items -----

  ghost predicate ClosedItems(items: seq<Item>) {
    forall i | i in items :: i.Null? || Closed(Plus(i))
  }

  /** A null is joined as nothing at all. */
  predicate ItemIsJson(i: Item) {
    !i.Null? && IsJson(Plus(i))
  }

  predicate AllJson(items: seq<Item>) {
    forall i | i in items :: ItemIsJson(i)
  }

  lemma ElementThen(text: string, tail: string)
    requires Closed(text) && tail != "" && (tail[0] == ',' || tail[0] == ']')
    ensures AcceptElements(text + tail)
         == if !IsJson(text) then None else if tail[0] == ',' then AcceptElements(tail[1..]) else Some(tail[1..])
  {
    hide AcceptValue, IsJson;
    ClosedAt(text, tail);
  }

  lemma NothingThen(tail: string)
    requires tail != "" && (tail[0] == ',' || tail[0] == ']')
    ensures AcceptElements(tail) == None
  {
  }

  lemma {:induction false} JoinThen(items: seq<Item>, r: string)
    requires items != [] && ClosedItems(items)
    ensures AcceptElements(Join(items) + ("]" + r)) == if AllJson(items) then Some(r) else None
    decreases items
  {
    hide AcceptElements, Plus, IsJson, Closed;
    var here := if items[0].Null? then "" else Plus(items[0]);
    var tail := if |items| == 1 then "]" + r else "," + (Join(items[1..]) + ("]" + r));
    assert Join(items) + ("]" + r) == here + tail by {
      assert |items| > 1 ==> here + ("," + Join(items[1..])) + ("]" + r) == here + tail;
    }
    assert items == [items[0]] + items[1..];
    assert AllJson(items) <==> ItemIsJson(items[0]) && AllJson(items[1..]);
    if items[0].Null? {
      assert here + tail == tail;
      NothingThen(tail);
    } else {
      ElementThen(here, tail);
    }
    if |items| > 1 {
      JoinThen(items[1..], r);
      assert tail[1..] == Join(items[1..]) + ("]" + r);
    } else {
      NoItems();
      assert tail[1..] == r && items[1..] == [];
    }
  }

  lemma NoItems()
    ensures AllJson([]) && ClosedItems([])
  {
  }

  lemma ArrayOpens(inner: string)
    requires inner != "" && inner[0] != ']'
    ensures AcceptValue("[" + inner) == AcceptElements(inner)
  {
    hide AcceptElements;
    assert ("[" + inner)[1..] == inner;
  }

  lemma JoinStarts(items: seq<Item>)
    requires items != [] && !items[0].Null? && Plus(items[0]) != ""
    ensures Join(items) != "" && Join(items)[0] == Plus(items[0])[0]
  {
  }

  lemma ArrayIsClosed(items: seq<Item>)
    requires items != [] && ClosedItems(items)
    requires !items[0].Null? && Plus(items[0]) != "" && Plus(items[0])[0] == '"'
    ensures var t := "[" + Join(items) + "]"; Closed(t) && (IsJson(t) <==> AllJson(items))
  {
    hide AcceptElements, AcceptValue, Plus, Join, AllJson, ClosedItems, IsJson, Closed;
    var t := "[" + Join(items) + "]";
    JoinStarts(items);
    forall r | Delimited(r)
      ensures AcceptValue(t + r) == if AllJson(items) then Some(r) else None
    {
      JoinThen(items, r);
      var inner := Join(items) + ("]" + r);
      assert t + r == "[" + inner;
      ArrayOpens(inner);
    }
    ClosedBy(t, AllJson(items));
  }

  // ----- objects -----

  lemma MemberOpens(s: string, value: string)
    requires AcceptKey(s) == Some(":" + value)
    ensures AcceptMembers(s)
         == match AcceptValue(value)
            case None => None
            case Some(rest) =>
              if rest == "" then None
              else if rest[0] == ',' then AcceptMembers(rest[1..])
              else if rest[0] == '}' then Some(rest[1..])
              else None
  {
    hide AcceptValue, AcceptKey;
    assert (":" + value)[1..] == value;
  }

  lemma NoMember(s: string)
    requires AcceptKey(s) == None
    ensures AcceptMembers(s) == None
  {
    hide AcceptKey;
  }

  lemma MemberThen(key: string, value: string, tail: string)
    requires ClosedKey(key) && Closed(value) && tail != "" && (tail[0] == ',' || tail[0] == '}')
    ensures AcceptMembers(key + ":" + value + tail)
         == if AcceptKey(key) != Some("") || !IsJson(value) then None
            else if tail[0] == ',' then AcceptMembers(tail[1..]) else Some(tail[1..])
  {
    hide AcceptValue, AcceptKey, AcceptMembers, IsJson, Closed, ClosedKey;
    var rest := ":" + (value + tail);
    assert key + ":" + value + tail == key + rest;
    ClosedKeyAt(key, rest);
    ClosedAt(value, tail);
    if AcceptKey(key) == Some("") {
      MemberOpens(key + rest, value + tail);
    } else {
      NoMember(key + rest);
    }
  }

  lemma ObjectOpens(inner: string)
    requires inner != ""
    ensures AcceptValue("{" + inner) == if inner[0] == '}' then Some(inner[1..]) else AcceptMembers(inner)
  {
    hide AcceptMembers;
    assert ("{" + inner)[1..] == inner && ("{" + inner)[2..] == inner[1..];
  }

  lemma ObjectIsClosed(body: string, ok: bool)
    requires body == "" ==> ok
    requires body != "" ==> body[0] != '}'
    requires body != "" ==> forall r :: AcceptMembers(body + ("}" + r)) == if ok then Some(r) else None
    ensures var t := "{" + body + "}"; Closed(t) && (IsJson(t) <==> ok)
  {
    hide AcceptMembers, AcceptValue, IsJson, Closed;
    var t := "{" + body + "}";
    forall r | Delimited(r)
      ensures AcceptValue(t + r) == if ok then Some(r) else None
    {
      var inner := body + ("}" + r);
      assert t + r == "{" + inner;
      ObjectOpens(inner);
      assert body == "" ==> inner[1..] == r;
    }
    ClosedBy(t, ok);
  }

  ghost predicate ClosedMembers(ms: seq<Member>) {
    forall m | m in ms ::
      m.key != "" && m.key[0] == '"' && ClosedKey(m.key) && AcceptKey(m.key) == Some("") && Closed(m.value)
  }

  predicate MembersAreJson(ms: seq<Member>) {
    forall m | m in ms :: IsJson(m.value)
  }

  lemma {:induction false} MembersThen(ms: seq<Member>, r: string)
    requires ms != [] && ClosedMembers(ms)
    ensures AcceptMembers(Members(ms) + ("}" + r)) == if MembersAreJson(ms) then Some(r) else None
    decreases ms
  {
    hide AcceptMembers, AcceptKey, IsJson, Closed, ClosedKey;
    var m := ms[0];
    var tail := if |ms| == 1 then "}" + r else "," + (Members(ms[1..]) + ("}" + r));
    assert Members(ms) + ("}" + r) == m.key + ":" + m.value + tail by {
      assert |ms| > 1 ==> m.key + ":" + m.value + ("," + Members(ms[1..])) + ("}" + r) == m.key + ":" + m.value + tail;
    }
    assert ms == [m] + ms[1..];
    MemberThen(m.key, m.value, tail);
    if |ms| > 1 {
      MembersThen(ms[1..], r);
      assert tail[1..] == Members(ms[1..]) + ("}" + r);
    } else {
      assert tail[1..] == r && ms[1..] == [];
    }
  }

  lemma StructIsClosed(ms: seq<Member>)
    requires ClosedMembers(ms)
    ensures var t := "{" + Members(ms) + "}"; Closed(t) && (IsJson(t) <==> MembersAreJson(ms))
  {
    hide AcceptMembers, AcceptKey, IsJson, Closed, ClosedKey;
    if ms != [] {
      assert Members(ms)[0] == ms[0].key[0];
      forall r
        ensures AcceptMembers(Members(ms) + ("}" + r)) == if MembersAreJson(ms) then Some(r) else None
      {
        MembersThen(ms, r);
      }
    }
    ObjectIsClosed(Members(ms), MembersAreJson(ms));
  }

  ghost predicate ClosedPairs(items: seq<Item>) {
    |items| < 2
    || (&& KeyText(items[0]) != "" && KeyText(items[0])[0] != '}' && ClosedKey(KeyText(items[0]))
        && Closed(Plus(items[1])) && ClosedPairs(items[2..]))
  }

  predicate PairsAreJson(items: seq<Item>) {
    |items| < 2
    || (AcceptKey(KeyText(items[0])) == Some("") && IsJson(Plus(items[1])) && PairsAreJson(items[2..]))
  }

  lemma {:induction false} PairsThen(items: seq<Item>, r: string)
    requires |items| >= 2 && |items| % 2 == 0 && ClosedPairs(items)
    ensures AcceptMembers(Pairs(items) + ("}" + r)) == if PairsAreJson(items) then Some(r) else None
    decreases |items|
  {
    hide AcceptMembers, AcceptKey, IsJson, Closed, ClosedKey, KeyText, Plus;
    var key, value := KeyText(items[0]), Plus(items[1]);
    var tail := if |items| < 4 then "}" + r else "," + (Pairs(items[2..]) + ("}" + r));
    assert Pairs(items) + ("}" + r) == key + ":" + value + tail by {
      assert |items| >= 4 ==> key + ":" + value + ("," + Pairs(items[2..])) + ("}" + r) == key + ":" + value + tail;
    }
    MemberThen(key, value, tail);
    if |items| >= 4 {
      PairsThen(items[2..], r);
      assert tail[1..] == Pairs(items[2..]) + ("}" + r);
    } else {
      assert tail[1..] == r && items[2..] == [];
    }
  }

  lemma MapIsClosed(items: seq<Item>)
    requires |items| % 2 == 0 && ClosedPairs(items)
    ensures var t := "{" + Pairs(items) + "}"; Closed(t) && (IsJson(t) <==> PairsAreJson(items))
  {
    hide AcceptMembers, AcceptKey, IsJson, Closed, ClosedKey, KeyText, Plus;
    if |items| >= 2 {
      assert Pairs(items)[0] == KeyText(items[0])[0];
      forall r
        ensures AcceptMembers(Pairs(items) + ("}" + r)) == if PairsAreJson(items) then Some(r) else None
      {
        PairsThen(items, r);
      }
    }
    ObjectIsClosed(Pairs(items), PairsAreJson(items));
  }

  // ----- which trees -----

  predicate IsNull(v: Tree) { v.Scalar? && v.i.Null? }

  /** A later field of the list has the same id. */
  predicate Overwritten(id: int, later: seq<FieldOf>) {
    exists f | f in later :: f.id == id
  }

  /** No map key is NaN or a container, no number elsewhere is NaN or infinite, no string has a control
      character without a short escape, no list or set has a null; fields overwritten by a later one
      with the same id do not count. */
  predicate IsClean(v: Tree)
    decreases v, 1
  {
    match v
    case Scalar(i) => i.Null? || (i.Num? && IsNumber(i.text))
    case Text(s) => IsSafe(s)
    case Struct(fs) => CleanFields(fs)
    case Map(_, _, es) => CleanEntries(es)
    case List(_, _, es) => CleanElems(es)
  }

  predicate CleanField(f: FieldOf)
    decreases f, 0
  {
    IsClean(f.v)
  }

  predicate CleanFields(fs: seq<FieldOf>)
    decreases fs, 0
  {
    fs == [] || ((Overwritten(fs[0].id, fs[1..]) || CleanField(fs[0])) && CleanFields(fs[1..]))
  }

  predicate CleanKey(k: Tree) {
    match k
    case Scalar(i) => !(i.Num? && i.nan)
    case Text(s) => IsSafe(s)
    case _ => false
  }

  predicate CleanEntry(e: EntryOf)
    decreases e, 0
  {
    CleanKey(e.k) && IsClean(e.v)
  }

  predicate CleanEntries(es: seq<EntryOf>)
    decreases es, 0
  {
    es == [] || (CleanEntry(es[0]) && CleanEntries(es[1..]))
  }

  predicate CleanElem(v: Tree)
    decreases v, 2
  {
    !IsNull(v) && IsClean(v)
  }

  predicate CleanElems(es: seq<Tree>)
    decreases es, 0
  {
    es == [] || (CleanElem(es[0]) && CleanElems(es[1..]))
  }

  // ----- numbers and null -----

  lemma NullIsClosed()
    ensures Closed("null") && IsJson("null")
  {
    forall r | Delimited(r)
      ensures AcceptValue("null" + r) == Some(r)
    {
      assert ("null" + r)[4..] == r;
    }
    hide AcceptValue;
    ClosedBy("null", true);
  }

  lemma WordIsClosed(t: string)
    requires t == "NaN" || t == "Infinity" || t == "-Infinity"
    ensures Closed(t) && !IsJson(t) && !IsNumber(t)
  {
    forall r
      ensures AcceptValue(t + r) == None && AcceptNumber(t + r, Start) == None
    {
      assert t == "-Infinity" ==> (t + r)[1] == 'I';
    }
    assert t + "" == t;
    hide AcceptValue, AcceptNumber;
    ClosedBy(t, false);
  }

  lemma ScalarIsClosed(i: Item)
    requires IsScalar(i)
    ensures Closed(Plus(i)) && (IsJson(Plus(i)) <==> IsClean(Scalar(i)))
  {
    hide Closed, IsJson, IsNumber;
    if i.Null? {
      NullIsClosed();
    } else if IsNumber(i.text) {
      NumberIsClosed(i.text);
    } else {
      WordIsClosed(i.text);
    }
  }

  // ----- fields -----

  lemma {:induction false} DigitsInjective(a: nat, b: nat)
    requires Digits(a) == Digits(b)
    ensures a == b
  {
    assert a >= 10 ==> Digits(a) == Digits(a / 10) + [Digit(a % 10)] && |Digits(a / 10)| > 0;
    assert b >= 10 ==> Digits(b) == Digits(b / 10) + [Digit(b % 10)] && |Digits(b / 10)| > 0;
    assert Digit(a % 10) == Digits(a)[|Digits(a)| - 1] == Digits(b)[|Digits(b)| - 1] == Digit(b % 10);
    if a >= 10 {
      assert Digits(a / 10) == Digits(a)[..|Digits(a)| - 1] == Digits(b)[..|Digits(b)| - 1] == Digits(b / 10);
      DigitsInjective(a / 10, b / 10);
    }
  }

  lemma {:induction false} DigitsStart(n: nat)
    ensures Digits(n) != "" && IsDigit(Digits(n)[0])
  {
    if n >= 10 {
      DigitsStart(n / 10);
    }
  }

  lemma QuotedIdInjective(a: int, b: int)
    requires QuotedId(a) == QuotedId(b)
    ensures a == b
  {
    hide Digits;
    var x, y := Decimal(a), Decimal(b);
    assert x == QuotedId(a)[1..|x| + 1] && y == QuotedId(b)[1..|y| + 1];
    if a >= 0 {
      DigitsStart(a);
    }
    if b >= 0 {
      DigitsStart(b);
    }
    var m: nat, n: nat := if a < 0 then -a else a, if b < 0 then -b else b;
    assert Digits(m) == Digits(n) by {
      assert a < 0 ==> Digits(m) == x[1..];
      assert b < 0 ==> Digits(n) == y[1..];
    }
    DigitsInjective(m, n);
  }

  predicate DistinctKeys(ms: seq<Member>) {
    ms == [] || ((forall m | m in ms[1..] :: m.key != ms[0].key) && DistinctKeys(ms[1..]))
  }

  lemma {:induction false} PutMembers(ms: seq<Member>, key: string, value: string)
    requires DistinctKeys(ms)
    ensures DistinctKeys(Put(ms, key, value))
    ensures forall m :: m in Put(ms, key, value) <==> m == Member(key, value) || (m in ms && m.key != key)
  {
    if ms != [] {
      assert ms == [ms[0]] + ms[1..];
      PutMembers(ms[1..], key, value);
    }
  }

  lemma FieldIsClosed(t: WireType, value: string)
    requires Closed(value)
    ensures var text := "{" + TypeText(t) + ":" + value + "}"; Closed(text) && (IsJson(text) <==> IsJson(value))
  {
    hide Closed, IsJson, AcceptKey, ClosedKey, TypeText;
    TypeTextIsClosed(t);
    var ms := [Member(TypeText(t), value)];
    StructIsClosed(ms);
    assert Members(ms) == TypeText(t) + ":" + value + "";
    assert "{" + Members(ms) + "}" == "{" + TypeText(t) + ":" + value + "}";
  }

  lemma QuotedIdIsClosed(id: int)
    ensures var t := QuotedId(id); t != "" && t[0] == '"' && ClosedKey(t) && AcceptKey(t) == Some("")
  {
    hide ClosedKey, AcceptKey, Decimal, IsPlain;
    DecimalIsNumber(id);
    PlainIsClosed(Decimal(id));
  }

  predicate KeyComes(key: string, fs: seq<FieldOf>) {
    exists f | f in fs :: QuotedId(f.id) == key
  }

  lemma KeyComesIs(id: int, fs: seq<FieldOf>)
    ensures KeyComes(QuotedId(id), fs) <==> Overwritten(id, fs)
  {
    hide QuotedId;
    forall f | f in fs && QuotedId(f.id) == QuotedId(id)
      ensures f.id == id
    {
      QuotedIdInjective(f.id, id);
    }
  }

  /** The properties that no later field overwrites are JSON. */
  predicate LastingAreJson(ms: seq<Member>, fs: seq<FieldOf>) {
    forall m | m in ms :: IsJson(m.value) || KeyComes(m.key, fs)
  }

  lemma LastingStep(ms: seq<Member>, fs: seq<FieldOf>, text: string)
    requires fs != [] && DistinctKeys(ms) && ClosedMembers(ms) && Closed(text)
    ensures var next := Put(ms, QuotedId(fs[0].id), text);
            && DistinctKeys(next) && ClosedMembers(next)
            && (LastingAreJson(next, fs[1..])
                <==> LastingAreJson(ms, fs) && (IsJson(text) || Overwritten(fs[0].id, fs[1..])))
  {
    hide Closed, IsJson, AcceptKey, ClosedKey, QuotedId, Put, DistinctKeys, KeyComes, Overwritten;
    var key := QuotedId(fs[0].id);
    var next := Put(ms, key, text);
    PutMembers(ms, key, text);
    QuotedIdIsClosed(fs[0].id);
    KeyComesIs(fs[0].id, fs[1..]);
    forall m | m in ms
      ensures KeyComes(m.key, fs) <==> m.key == key || KeyComes(m.key, fs[1..])
    {
      KeyComesCons(m.key, fs);
    }
    assert Member(key, text) in next;
    assert LastingAreJson(next, fs[1..])
      <==> (IsJson(text) || KeyComes(key, fs[1..])) && forall m | m in ms && m.key != key :: IsJson(m.value) || KeyComes(m.key, fs[1..]);
  }

  lemma KeyComesCons(key: string, fs: seq<FieldOf>)
    requires fs != []
    ensures KeyComes(key, fs) <==> key == QuotedId(fs[0].id) || KeyComes(key, fs[1..])
  {
    hide QuotedId;
    assert fs == [fs[0]] + fs[1..];
  }

  // ----- trees -----

  /** A tree's rendering is read whole wherever it stands, and is one JSON value if and only if the tree
      is clean. */
  lemma {:induction false} TreeIsClosed(v: Tree)
    requires WellFormedTree(v)
    ensures Closed(Plus(Rendered(v))) && (IsJson(Plus(Rendered(v))) <==> IsClean(v))
    decreases v, 1
  {
    match v
    case Scalar(i) =>
      ScalarIsClosed(i);
    case Text(s) =>
      TextIsClosed(s);
    case Struct(fs) =>
      FieldsAreClosed([], fs);
      StructIsClosed(MembersOf([], fs));
    case Map(kt, vt, es) =>
      MapTreeIsClosed(kt, vt, es);
    case List(et, size, es) =>
      ListTreeIsClosed(et, size, es);
  }

  lemma {:induction false} FieldsAreClosed(ms: seq<Member>, fs: seq<FieldOf>)
    requires DistinctKeys(ms) && ClosedMembers(ms)
    requires forall f | f in fs :: WellFormedTree(f.v)
    ensures ClosedMembers(MembersOf(ms, fs))
    ensures MembersAreJson(MembersOf(ms, fs)) <==> CleanFields(fs) && LastingAreJson(ms, fs)
    decreases fs, 0
  {
    if fs != [] {
      hide Closed, IsJson, IsClean, Plus, Rendered, Put, DistinctKeys, ClosedMembers, MembersAreJson, LastingAreJson;
      hide Overwritten, WellFormedTree, QuotedId, FieldText, CleanField;
      FieldTextIsClosed(fs[0]);
      LastingStep(ms, fs, FieldText(fs[0]));
      FieldsAreClosed(Put(ms, QuotedId(fs[0].id), FieldText(fs[0])), fs[1..]);
    }
  }

  lemma FieldTextIsClosed(f: FieldOf)
    requires WellFormedTree(f.v)
    ensures Closed(FieldText(f)) && (IsJson(FieldText(f)) <==> CleanField(f))
    decreases f, 0
  {
    hide Closed, IsJson, IsClean, Plus, Rendered, WellFormedTree, TypeText;
    TreeIsClosed(f.v);
    FieldIsClosed(f.t, Plus(Rendered(f.v)));
  }

  lemma {:induction false} ElemsAreClosed(es: seq<Tree>)
    requires forall e | e in es :: WellFormedTree(e)
    ensures ClosedItems(ItemsOf(es)) && (AllJson(ItemsOf(es)) <==> CleanElems(es))
    decreases es, 0
  {
    if es != [] {
      hide Closed, IsJson, IsClean, Plus, WellFormedTree;
      TreeIsClosed(es[0]);
      ElemsAreClosed(es[1..]);
      RenderedIsNull(es[0]);
      hide Rendered;
      ItemsCons(Rendered(es[0]), ItemsOf(es[1..]));
    }
  }

  lemma RenderedIsNull(v: Tree)
    ensures Rendered(v).Null? <==> IsNull(v)
  {
  }

  lemma ItemsCons(i: Item, items: seq<Item>)
    ensures ClosedItems([i] + items) <==> (i.Null? || Closed(Plus(i))) && ClosedItems(items)
    ensures AllJson([i] + items) <==> ItemIsJson(i) && AllJson(items)
  {
    hide Closed, IsJson, Plus;
    assert forall j :: j in [i] + items <==> j == i || j in items;
  }

  /** The items a list, a set or a map starts with. */
  lemma HeadIsClosed(t: WireType, n: int)
    ensures ClosedItems([Str(TypeText(t)), Integer(n)]) && AllJson([Str(TypeText(t)), Integer(n)])
    ensures TypeText(t) != "" && TypeText(t)[0] == '"'
  {
    TypeTextIsClosed(t);
    DecimalIsNumber(n);
    NumberIsClosed(Decimal(n));
    hide Closed, IsJson, TypeText, Decimal, IsNumber;
  }

  lemma ItemsConcat(a: seq<Item>, b: seq<Item>)
    ensures ClosedItems(a + b) <==> ClosedItems(a) && ClosedItems(b)
    ensures AllJson(a + b) <==> AllJson(a) && AllJson(b)
  {
    hide Closed, IsJson, Plus, ItemIsJson;
    assert forall i :: i in a + b <==> i in a || i in b;
  }

  lemma ListTreeIsClosed(et: WireType, size: int, es: seq<Tree>)
    requires forall e | e in es :: WellFormedTree(e)
    ensures var t := Plus(Rendered(List(et, size, es))); Closed(t) && (IsJson(t) <==> CleanElems(es))
    decreases es, 1
  {
    hide Closed, IsJson, AllJson, ClosedItems, TypeText, Integer, ItemsOf, Join, CleanElems, WellFormedTree;
    var head := [Str(TypeText(et)), Integer(size)];
    ElemsAreClosed(es);
    HeadIsClosed(et, size);
    ItemsConcat(head, ItemsOf(es));
    ArrayIsClosed(head + ItemsOf(es));
  }

  lemma {:induction false} EntriesAreClosed(es: seq<EntryOf>)
    requires forall e | e in es :: WellFormedTree(e.k) && WellFormedTree(e.v)
    ensures ClosedPairs(ItemsOfEntries(es)) && (PairsAreJson(ItemsOfEntries(es)) <==> CleanEntries(es))
    decreases es, 0
  {
    if es != [] {
      EntryIsClosed(es[0]);
      EntriesAreClosed(es[1..]);
      hide Closed, IsJson, IsClean, Plus, KeyText, AcceptKey, ClosedKey, WellFormedTree, CleanEntry, ItemsOfEntry;
      assert ItemsOfEntries(es)[2..] == ItemsOfEntries(es[1..]);
    }
  }

  lemma EntryIsClosed(e: EntryOf)
    requires WellFormedTree(e.k) && WellFormedTree(e.v)
    ensures var items := ItemsOfEntry(e); var key, value := KeyText(items[0]), Plus(items[1]);
            && key != "" && key[0] != '}' && ClosedKey(key) && Closed(value)
            && (AcceptKey(key) == Some("") && IsJson(value) <==> CleanEntry(e))
    decreases e, 0
  {
    hide Closed, IsJson, IsClean, Plus, KeyText, AcceptKey, ClosedKey, WellFormedTree, CleanKey, Rendered;
    KeyIsClosed(e.k);
    TreeIsClosed(e.v);
  }

  lemma NotAKey(t: string)
    requires t != "" && t[0] != '"'
    ensures ClosedKey(t) && AcceptKey(t) == None
  {
  }

  lemma KeyIsClosed(k: Tree)
    requires WellFormedTree(k)
    ensures var t := KeyText(Rendered(k));
            t != "" && t[0] != '}' && ClosedKey(t) && (AcceptKey(t) == Some("") <==> CleanKey(k))
  {
    hide ClosedKey, AcceptKey;
    match k
    case Text(s) => TextIsClosed(s);
    case Scalar(i) =>
      if i.Num? && i.nan {
        NotAKey(i.text);
      } else {
        if i.Num? && IsNumber(i.text) {
          NumberIsPlain(i.text, Start);
        }
        PlainIsClosed(Plus(i));
      }
    case _ => NotAKey(KeyText(Rendered(k)));
  }

  lemma MapTreeIsClosed(kt: WireType, vt: WireType, es: seq<EntryOf>)
    requires forall e | e in es :: WellFormedTree(e.k) && WellFormedTree(e.v)
    ensures var t := Plus(Rendered(Map(kt, vt, es))); Closed(t) && (IsJson(t) <==> CleanEntries(es))
    decreases es, 1
  {
    hide Closed, IsJson, AllJson, ClosedItems, TypeText, Integer, ItemsOfEntries, Join, CleanEntries, Pairs, WellFormedTree;
    hide ClosedPairs, PairsAreJson;
    var k, text := Str(TypeText(kt)), "{" + Pairs(ItemsOfEntries(es)) + "}";
    EntriesAreClosed(es);
    MapIsClosed(ItemsOfEntries(es));
    MapHeadIsClosed(kt, vt, |es|, text);
    ArrayIsClosed([k, Str(TypeText(vt)), Integer(|es|), Str(text)]);
  }

  lemma MapHeadIsClosed(kt: WireType, vt: WireType, size: nat, text: string)
    requires Closed(text)
    ensures var items := [Str(TypeText(kt)), Str(TypeText(vt)), Integer(size), Str(text)];
            ClosedItems(items) && (AllJson(items) <==> IsJson(text))
    ensures TypeText(kt) != "" && TypeText(kt)[0] == '"'
  {
    hide Closed, IsJson, AllJson, ClosedItems, TypeText, Integer;
    var k, v, n := Str(TypeText(kt)), Str(TypeText(vt)), Integer(size);
    HeadIsClosed(kt, size);
    HeadIsClosed(vt, size);
    ItemsConcat([k], [n]);
    ItemsConcat([k], [v, n]);
    TextItem(text);
    ItemsConcat([k, v, n], [Str(text)]);
    assert [k] + [n] == [k, n] && [k] + [v, n] == [k, v, n] && [k, v, n] + [Str(text)] == [k, v, n, Str(text)];
  }

  lemma TextItem(text: string)
    ensures ClosedItems([Str(text)]) <==> Closed(text)
    ensures AllJson([Str(text)]) <==> IsJson(text)
  {
    hide Closed, IsJson;
    assert Str(text) in [Str(text)];
  }

  /** From a fresh protocol, writing a tree leaves one string on the stack, and that string is one JSON
      value if and only if the tree is clean. */
  lemma WritesJsonIff(v: Tree)
    requires WellFormedTree(v)
    ensures Run(State([], []), Calls(v)) == Some(State([Rendered(v)], []))
    ensures IsJson(Plus(Rendered(v))) <==> IsClean(v)
  {
    hide Run, Calls, Rendered, IsJson, IsClean;
    Writes(State([], []), v);
    assert [] + [Rendered(v)] == [Rendered(v)];
    TreeIsClosed(v);
  }
}
