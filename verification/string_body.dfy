/** Finding the end of a JSON string: the Go reader reads to the next quote, counts the backslashes
    before it, and goes on when the count is odd. */
module StringBody {
  import opened Bits
  import opened Wire
  import opened Wrappers

  const QUOTE: byte := 0x22
  const BACKSLASH: byte := 0x5c

  // ----- RFC 8259 section 7, left to right -----

  /** The offset of the quote that ends a string body; a backslash escapes the byte after it. */
  function Scan(s: seq<byte>, escaped: bool): (r: Option<nat>)
    ensures r.Some? ==> r.value < |s|
  {
    if s == [] then None
    else if !escaped && s[0] == QUOTE then Some(0)
    else Shift(1, Scan(s[1..], !escaped && s[0] == BACKSLASH))
  }

  function Shift(n: nat, r: Option<nat>): Option<nat> {
    match r
    case Some(k) => Some(n + k)
    case None => None
  }

  // ----- the reader's way -----

  /** The offset of the first quote. */
  function FirstQuote(s: seq<byte>): (r: Option<nat>)
    ensures r.Some? ==> r.value < |s| && s[r.value] == QUOTE && QUOTE !in s[..r.value]
    ensures r.None? ==> QUOTE !in s
  {
    if s == [] then None
    else if s[0] == QUOTE then Some(0)
    else
      var r := FirstQuote(s[1..]);
      assert r.Some? ==> s[..r.value + 1] == [s[0]] + s[1..][..r.value];
      assert s == [s[0]] + s[1..];
      Shift(1, r)
  }

  /** Backslashes at the end. */
  function Trailing(s: seq<byte>): (n: nat)
    ensures n <= |s|
  {
    if s == [] || s[|s| - 1] != BACKSLASH then 0 else 1 + Trailing(s[..|s| - 1])
  }

  /** Where the read-to-quote recursion stops. */
  function BodyEnd(s: seq<byte>): (r: Option<nat>)
    ensures r.Some? ==> r.value < |s|
    decreases |s|
  {
    match FirstQuote(s)
    case None => None
    case Some(q) => if Trailing(s[..q]) % 2 == 0 then Some(q) else Shift(q + 1, BodyEnd(s[q + 1..]))
  }

  // ----- they agree -----

  /** Whether the automaton is after an unescaped backslash. */
  function Escaped(p: seq<byte>, start: bool): bool {
    if p == [] then start else !Escaped(p[..|p| - 1], start) && p[|p| - 1] == BACKSLASH
  }

  lemma {:induction false} EscapedIsOdd(p: seq<byte>)
    ensures Escaped(p, false) <==> Trailing(p) % 2 == 1
  {
    if p != [] { EscapedIsOdd(p[..|p| - 1]); }
  }

  lemma {:induction false} ScanPast(p: seq<byte>, rest: seq<byte>, start: bool)
    requires QUOTE !in p
    ensures Scan(p + rest, start) == Shift(|p|, Scan(rest, Escaped(p, start)))
    decreases |p|
  {
    if p == [] {
      assert p + rest == rest;
    } else {
      var before, c := p[..|p| - 1], p[|p| - 1];
      assert p + rest == before + ([c] + rest);
      ScanPast(before, [c] + rest, start);
      assert ([c] + rest)[1..] == rest;
    }
  }

  lemma ScanAtQuote(s: seq<byte>)
    requires s != [] && s[0] == QUOTE
    ensures Scan(s, false) == Some(0) && Scan(s, true) == Shift(1, Scan(s[1..], false))
  {
  }

  lemma BodyEndTurn(s: seq<byte>)
    ensures match FirstQuote(s)
            case None => BodyEnd(s) == None
            case Some(q) =>
              BodyEnd(s) == if Trailing(s[..q]) % 2 == 0 then Some(q) else Shift(q + 1, BodyEnd(s[q + 1..]))
  {
  }

  /** The recursion stops at exactly the quote where the automaton stops, for every input: any number
      of escaped quotes and backslashes, and input that never ends the string. */
  lemma {:induction false} BodyEndIsScan(s: seq<byte>)
    ensures BodyEnd(s) == Scan(s, false)
    decreases |s|
  {
    hide Scan, BodyEnd, FirstQuote, Trailing, Escaped;
    BodyEndTurn(s);
    match FirstQuote(s)
    case None =>
      assert s + [] == s;
      ScanPast(s, [], false);
      NothingToScan();
    case Some(q) =>
      var rest := s[q..];
      assert s == s[..q] + rest && rest[1..] == s[q + 1..];
      ScanPast(s[..q], rest, false);
      ScanAtQuote(rest);
      EscapedIsOdd(s[..q]);
      BodyEndIsScan(s[q + 1..]);
  }

  lemma NothingToScan()
    ensures Scan([], false) == None && Scan([], true) == None
  {
  }

  /** What a string body read returns, and what is left. */
  predicate Delivers(s: seq<byte>, body: seq<byte>, ok: bool, rest: seq<byte>) {
    match Scan(s, false)
    case Some(k) => ok && body == s[..k + 1] && rest == s[k + 1..]
    case None => !ok
  }

  lemma DeliversLater(s: seq<byte>, q: nat, body: seq<byte>, ok: bool, rest: seq<byte>)
    requires FirstQuote(s) == Some(q) && Trailing(s[..q]) % 2 == 1
    requires Delivers(s[q + 1..], body, ok, rest)
    ensures Delivers(s, s[..q + 1] + body, ok, rest)
  {
    hide Scan, BodyEnd, FirstQuote, Trailing;
    BodyEndIsScan(s);
    BodyEndIsScan(s[q + 1..]);
    BodyEndTurn(s);
    match BodyEnd(s[q + 1..])
    case Some(k) => assert s[..q + 1] + s[q + 1..][..k + 1] == s[..q + 1 + k + 1];
    case None =>
  }

  class StringReader {
    var input: seq<byte>
    /** json.Unmarshal of a quoted string. */
    const unquote: seq<byte> -> Option<seq<byte>>

    // bufio.Reader.ReadString('"')
    method ReadToQuote() returns (line: seq<byte>, ok: bool)
      modifies this
      ensures match FirstQuote(old(input))
              case Some(q) => ok && line == old(input)[..q + 1] && input == old(input)[q + 1..]
              case None => !ok && input == []
    {
      match FirstQuote(input) {
        case Some(q) => line, ok, input := input[..q + 1], true, input[q + 1..];
        case None => line, ok, input := input, false, [];
      }
    }

    /** One more than the backslashes before the closing quote. */
    method CountEscapes(line: seq<byte>) returns (i: nat)
      requires line != []
      ensures i == 1 + Trailing(line[..|line| - 1])
    {
      var l := |line|;
      i := 1;
      while i < l
        invariant 1 <= i <= l
        invariant Trailing(line[..l - 1]) == i - 1 + Trailing(line[..l - i])
      {
        assert line[..l - i][..l - i - 1] == line[..l - i - 1];
        if line[l - i - 1] != BACKSLASH {
          break;
        }
        i := i + 1;
      }
    }

    method ParseQuotedStringBody() returns (body: seq<byte>, ok: bool)
      modifies this
      ensures Delivers(old(input), body, ok, input)
      decreases |input|
    {
      ghost var s := input;
      BodyEndIsScan(s);
      BodyEndTurn(s);
      hide Scan, BodyEnd, FirstQuote, Trailing;
      var line, e := ReadToQuote();
      if !e {
        return [], false;
      }
      assert line[..|line| - 1] == s[..|line| - 1];
      var i := CountEscapes(line);
      if i % 2 == 1 {
        return line, true;
      }
      var more, e2 := ParseQuotedStringBody();
      DeliversLater(s, |line| - 1, more, e2, input);
      if !e2 {
        return [], false;
      }
      return line + more, true;
    }

    /** The body goes to unquote with both quotes. When it has no escaped quote, a failed unquote is
        reported as an empty string and no error; when it has one, as an error. */
    method ParseStringBody() returns (value: seq<byte>, ok: bool)
      modifies this
      ensures Scan(old(input), false) == None ==> !ok
      ensures match Scan(old(input), false)
              case None => true
              case Some(k) =>
                && input == old(input)[k + 1..]
                && (match unquote([QUOTE] + old(input)[..k + 1])
                    case Some(v) => ok && value == v
                    case None => value == [] && (ok <==> FirstQuote(old(input)) == Some(k)))
    {
      ghost var s := input;
      BodyEndIsScan(s);
      BodyEndTurn(s);
      hide Scan, BodyEnd, FirstQuote, Trailing;
      var line, e := ReadToQuote();
      if !e {
        return [], false;
      }
      assert line[..|line| - 1] == s[..|line| - 1];
      var i := CountEscapes(line);
      if i % 2 == 1 {
        match unquote([QUOTE] + line) {
          case Some(v) => return v, true;
          case None => return [], true;
        }
      }
      var more, e2 := ParseQuotedStringBody();
      DeliversLater(s, |line| - 1, more, e2, input);
      if !e2 {
        return [], false;
      }
      Concat3([QUOTE], line, more);
      match unquote([QUOTE] + line + more) {
        case Some(v) => return v, true;
        case None => return [], false;
      }
    }
  }
}
