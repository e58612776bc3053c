/** JSON text, character by character: a recogniser of RFC 8259, sections 2 to 7, for texts without
    the optional white space. */
module JsonText {
  import opened Wrappers

  type Rest = Option<string>

  // ----- section 6: numbers -----

  datatype NumberState = Start | Minus | Zero | Int | Dot | Frac | E | Sign | Exp

  predicate IsDigit(c: char) { '0' <= c <= '9' }

  /** What the number grammar allows next. */
  function NumberStep(q: NumberState, c: char): Option<NumberState> {
    match q
    case Start => if c == '-' then Some(Minus) else FirstDigit(c)
    case Minus => FirstDigit(c)
    case Zero => if c == '.' then Some(Dot) else Exponent(c)
    case Int => if IsDigit(c) then Some(Int) else if c == '.' then Some(Dot) else Exponent(c)
    case Dot => if IsDigit(c) then Some(Frac) else None
    case Frac => if IsDigit(c) then Some(Frac) else Exponent(c)
    case E => if c == '+' || c == '-' then Some(Sign) else if IsDigit(c) then Some(Exp) else None
    case Sign => if IsDigit(c) then Some(Exp) else None
    case Exp => if IsDigit(c) then Some(Exp) else None
  }

  function FirstDigit(c: char): Option<NumberState> {
    if c == '0' then Some(Zero) else if IsDigit(c) then Some(Int) else None
  }

  function Exponent(c: char): Option<NumberState> {
    if c == 'e' || c == 'E' then Some(E) else None
  }

  predicate Complete(q: NumberState) { q == Zero || q == Int || q == Frac || q == Exp }

  /** Takes the longest number there is. */
  function AcceptNumber(s: string, q: NumberState): (r: Rest)
    ensures r.Some? ==> |r.value| <= |s|
  {
    if s == "" || NumberStep(q, s[0]) == None then if Complete(q) then Some(s) else None
    else AcceptNumber(s[1..], NumberStep(q, s[0]).value)
  }

  predicate IsNumber(s: string) {
    AcceptNumber(s, Start) == Some("")
  }

  // ----- section 7: strings -----

  predicate IsHex(c: char) { IsDigit(c) || 'a' <= c <= 'f' || 'A' <= c <= 'F' }

  predicate IsEscape(c: char) {
    c == '"' || c == '\\' || c == '/' || c == 'b' || c == 'f' || c == 'n' || c == 'r' || c == 't'
  }

  /** From behind the opening quote to behind the closing one. */
  function AcceptString(s: string): (r: Rest)
    ensures r.Some? ==> |r.value| < |s|
  {
    if s == "" || s[0] < ' ' then None
    else if s[0] == '"' then Some(s[1..])
    else if s[0] != '\\' then AcceptString(s[1..])
    else if |s| >= 2 && IsEscape(s[1]) then AcceptString(s[2..])
    else if |s| >= 6 && s[1] == 'u' && IsHex(s[2]) && IsHex(s[3]) && IsHex(s[4]) && IsHex(s[5]) then
      AcceptString(s[6..])
    else None
  }

  function AcceptKey(s: string): (r: Rest)
    ensures r.Some? ==> |r.value| < |s|
  {
    if s != "" && s[0] == '"' then AcceptString(s[1..]) else None
  }

  // ----- sections 3 to 5: values, objects, arrays -----

  function AcceptWord(s: string, word: string): (r: Rest)
    ensures r.Some? ==> |r.value| + |word| == |s|
  {
    if word <= s then Some(s[|word|..]) else None
  }

  function AcceptValue(s: string): (r: Rest)
    ensures r.Some? ==> |r.value| < |s|
    decreases |s|, 0
  {
    if s == "" then None
    else if s[0] == '"' then AcceptKey(s)
    else if s[0] == '{' then if |s| > 1 && s[1] == '}' then Some(s[2..]) else AcceptMembers(s[1..])
    else if s[0] == '[' then if |s| > 1 && s[1] == ']' then Some(s[2..]) else AcceptElements(s[1..])
    else if s[0] == 'n' then AcceptWord(s, "null")
    else if s[0] == 't' then AcceptWord(s, "true")
    else if s[0] == 'f' then AcceptWord(s, "false")
    else match NumberStep(Start, s[0])
      case Some(q) => AcceptNumber(s[1..], q)
      case None => None
  }

  function AcceptElements(s: string): (r: Rest)
    ensures r.Some? ==> |r.value| < |s|
    decreases |s|, 1
  {
    match AcceptValue(s)
    case None => None
    case Some(rest) =>
      if rest == "" then None
      else if rest[0] == ',' then AcceptElements(rest[1..])
      else if rest[0] == ']' then Some(rest[1..])
      else None
  }

  function AcceptMembers(s: string): (r: Rest)
    ensures r.Some? ==> |r.value| < |s|
    decreases |s|, 1
  {
    match AcceptKey(s)
    case None => None
    case Some(colon) =>
      if colon == "" || colon[0] != ':' then None
      else match AcceptValue(colon[1..])
        case None => None
        case Some(rest) =>
          if rest == "" then None
          else if rest[0] == ',' then AcceptMembers(rest[1..])
          else if rest[0] == '}' then Some(rest[1..])
          else None
  }

  predicate IsJson(s: string) {
    AcceptValue(s) == Some("")
  }

  // ----- texts that stand on their own -----

  /** What may follow a value inside a text. */
  predicate Delimited(r: string) {
    r == "" || r[0] == ',' || r[0] == ']' || r[0] == '}'
  }

  /** Whatever delimited text follows, it is taken whole if it is JSON, and refused if it is not. */
  ghost predicate Closed(text: string) {
    forall r | Delimited(r) :: AcceptValue(text + r) == if IsJson(text) then Some(r) else None
  }

  lemma ClosedAt(text: string, r: string)
    requires Closed(text) && Delimited(r)
    ensures AcceptValue(text + r) == if IsJson(text) then Some(r) else None
  {
  }

  /** The same for something in the place of a key. */
  ghost predicate ClosedKey(text: string) {
    forall r :: AcceptKey(text + r) == if AcceptKey(text) == Some("") then Some(r) else None
  }

  lemma ClosedKeyAt(text: string, r: string)
    requires ClosedKey(text)
    ensures AcceptKey(text + r) == if AcceptKey(text) == Some("") then Some(r) else None
  {
  }

  /** Closed, from what it does before every delimited text. */
  lemma ClosedBy(text: string, ok: bool)
    requires forall r | Delimited(r) :: AcceptValue(text + r) == if ok then Some(r) else None
    ensures Closed(text) && (IsJson(text) <==> ok)
  {
    assert text + "" == text;
    assert AcceptValue(text + "") == if ok then Some("") else None;
  }

  lemma ClosedKeyBy(text: string, ok: bool)
    requires forall r :: AcceptKey(text + r) == if ok then Some(r) else None
    ensures ClosedKey(text) && (AcceptKey(text) == Some("") <==> ok)
  {
    assert text + "" == text;
    assert AcceptKey(text + "") == if ok then Some("") else None;
  }

  lemma {:induction false} NumberThen(t: string, q: NumberState, r: string)
    requires AcceptNumber(t, q) == Some("") && Delimited(r)
    ensures AcceptNumber(t + r, q) == Some(r)
    decreases t
  {
    if t == "" {
      assert t + r == r;
    } else {
      assert (t + r)[1..] == t[1..] + r;
      NumberThen(t[1..], NumberStep(q, t[0]).value, r);
    }
  }

  lemma NumberIsClosed(t: string)
    requires IsNumber(t)
    ensures Closed(t) && IsJson(t)
  {
    forall r | Delimited(r)
      ensures AcceptValue(t + r) == Some(r)
    {
      NumberThen(t, Start, r);
      assert t != "" && (t + r)[1..] == t[1..] + r;
    }
    ClosedBy(t, true);
  }
}
