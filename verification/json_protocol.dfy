/** TJSONProtocol of the Go library: two context stacks, replaced at the top by every value, and the
    calls that lay structs, fields, lists and maps out over them. */
module JsonProtocol {
  import opened Bits
  import opened Wire
  import opened Wrappers
  import opened Json
  import R = JsonReader
  import T = JsonTree

  class TJSONProtocol {
    var writer: seq<Token>
    var dumpContext: seq<Context>
    var reader: seq<Token>
    var parseContextStack: seq<Context>

    predicate Valid()
      reads this
    {
      dumpContext != [] && parseContextStack != []
    }

    function Writing(): Dump
      requires Valid()
      reads this
    {
      Dump(writer, dumpContext)
    }

    function Reading(): R.Parse
      requires Valid()
      reads this
    {
      R.Parse(reader, parseContextStack)
    }

    // the embedded protocol's constructor pushes TOPLEVEL, and this one pushes it again
    constructor (input: seq<Token>)
      ensures Valid() && Writing() == Dump([], [TOPLEVEL, TOPLEVEL])
      ensures Reading() == R.Parse(input, [TOPLEVEL, TOPLEVEL])
    {
      writer, dumpContext := [], [TOPLEVEL] + [TOPLEVEL];
      reader, parseContextStack := input, [TOPLEVEL] + [TOPLEVEL];
    }

    // ----- output -----

    method OutputPreValue()
      requires Valid()
      modifies `writer
      ensures writer == old(writer) + Separator(Top(dumpContext))
    {
      var cxt := dumpContext[|dumpContext| - 1];
      if cxt == IN_LIST || cxt == OBJECT_NEXT_KEY {
        writer := writer + [Comma];
      } else if cxt == OBJECT_NEXT_VALUE {
        writer := writer + [Colon];
      }
    }

    method OutputPostValue()
      requires Valid()
      modifies `dumpContext
      ensures Valid() && dumpContext == PostValue(old(dumpContext))
    {
      var cxt := dumpContext[|dumpContext| - 1];
      if cxt == LIST_FIRST {
        dumpContext := dumpContext[..|dumpContext| - 1];
        dumpContext := dumpContext + [IN_LIST];
      } else if cxt == OBJECT_FIRST || cxt == OBJECT_NEXT_KEY {
        dumpContext := dumpContext[..|dumpContext| - 1];
        dumpContext := dumpContext + [OBJECT_NEXT_VALUE];
      } else if cxt == OBJECT_NEXT_VALUE {
        dumpContext := dumpContext[..|dumpContext| - 1];
        dumpContext := dumpContext + [OBJECT_NEXT_KEY];
      }
    }

    // OutputBool, OutputF64, OutputI64 and OutputString, by the kind of scalar
    method OutputScalar(s: Scalar)
      requires Valid()
      modifies `writer, `dumpContext
      ensures Valid() && Writing() == Step(old(Writing()), Value(s))
    {
      OutputPreValue();
      var v := Plain(s);
      var cxt := dumpContext[|dumpContext| - 1];
      if s.Chars? || (s.Real? && NotFinite(s.bits)) || cxt == OBJECT_FIRST || cxt == OBJECT_NEXT_KEY {
        v := Quoted(s);
      }
      Concat3(old(writer), Separator(Top(dumpContext)), [v]);
      writer := writer + [v];
      OutputPostValue();
    }

    method OutputBegin(open: Call)
      requires Valid() && (open == ObjectBegin || open == ListBegin)
      modifies `writer, `dumpContext
      ensures Valid() && Writing() == Step(old(Writing()), open)
    {
      OutputPreValue();
      var token := if open == ObjectBegin then LBrace else LBracket;
      Concat3(old(writer), Separator(Top(dumpContext)), [token]);
      writer := writer + [token];
      dumpContext := dumpContext + [if open == ObjectBegin then OBJECT_FIRST else LIST_FIRST];
    }

    method OutputEnd(close: Call)
      requires Valid() && |dumpContext| > 1 && (close == ObjectEnd || close == ListEnd)
      modifies `writer, `dumpContext
      ensures Valid() && Writing() == Step(old(Writing()), close)
    {
      writer := writer + [if close == ObjectEnd then RBrace else RBracket];
      dumpContext := dumpContext[..|dumpContext| - 1];
      OutputPostValue();
    }

    // ----- layout -----

    method WriteFieldBegin(t: WireType, id: int)
      requires Valid()
      modifies `writer, `dumpContext
      ensures Valid()
      ensures Done(Writing()) == Run(old(Writing()), [Value(Number(id)), ObjectBegin, Value(TypeScalar(t))])
    {
      hide Run, Step, TypeScalar;
      ghost var d0 := Writing();
      OutputScalar(Number(id));
      ghost var d1 := Writing();
      OutputBegin(ObjectBegin);
      ghost var d2 := Writing();
      OutputScalar(TypeScalar(t));
      Three(d0, Value(Number(id)), d1, ObjectBegin, d2, Value(TypeScalar(t)), Writing());
    }

    method WriteListBegin(et: WireType, size: nat)
      requires Valid()
      modifies `writer, `dumpContext
      ensures Valid()
      ensures Done(Writing()) == Run(old(Writing()), [ListBegin, Value(TypeScalar(et)), Value(Number(size))])
    {
      hide Run, Step, TypeScalar;
      ghost var d0 := Writing();
      OutputBegin(ListBegin);
      ghost var d1 := Writing();
      OutputScalar(TypeScalar(et));
      ghost var d2 := Writing();
      OutputScalar(Number(size));
      Three(d0, ListBegin, d1, Value(TypeScalar(et)), d2, Value(Number(size)), Writing());
    }

    method WriteMapBegin(kt: WireType, vt: WireType, size: nat)
      requires Valid()
      modifies `writer, `dumpContext
      ensures Valid()
      ensures Done(Writing())
           == Run(old(Writing()), [ListBegin, Value(TypeScalar(kt)), Value(TypeScalar(vt)), Value(Number(size))])
    {
      hide Run, Step, TypeScalar;
      ghost var d0 := Writing();
      OutputBegin(ListBegin);
      ghost var d1 := Writing();
      OutputScalar(TypeScalar(kt));
      ghost var d2 := Writing();
      OutputScalar(TypeScalar(vt));
      ghost var d3 := Writing();
      OutputScalar(Number(size));
      Three(d1, Value(TypeScalar(kt)), d2, Value(TypeScalar(vt)), d3, Value(Number(size)), Writing());
      RunCons(d0, ListBegin, [Value(TypeScalar(kt)), Value(TypeScalar(vt)), Value(Number(size))]);
      assert [ListBegin] + [Value(TypeScalar(kt)), Value(TypeScalar(vt)), Value(Number(size))]
          == [ListBegin, Value(TypeScalar(kt)), Value(TypeScalar(vt)), Value(Number(size))];
    }

    // ----- parsing -----

    method ParsePreValue() returns (ok: bool)
      requires Valid()
      modifies `reader
      ensures match R.ParsePreValue(old(Reading()))
              case Ok(_, p) => ok && Reading() == p
              case Err => !ok
    {
      var cxt := parseContextStack[|parseContextStack| - 1];
      if |reader| < 1 {
        return true;
      }
      var b := reader[0];
      if cxt == IN_LIST {
        if b == RBracket {
          return true;
        } else if b == Comma {
          reader := reader[1..];
          return true;
        }
        return false;
      } else if cxt == OBJECT_NEXT_KEY {
        if b == RBrace {
          return true;
        } else if b == Comma {
          reader := reader[1..];
          return true;
        }
        return false;
      } else if cxt == OBJECT_NEXT_VALUE {
        if b == Colon {
          reader := reader[1..];
          return true;
        }
        return false;
      }
      return true;
    }

    method ParsePostValue()
      requires Valid()
      modifies `parseContextStack
      ensures Valid() && parseContextStack == PostValue(old(parseContextStack))
    {
      var cxt := parseContextStack[|parseContextStack| - 1];
      if cxt == LIST_FIRST {
        parseContextStack := parseContextStack[..|parseContextStack| - 1];
        parseContextStack := parseContextStack + [IN_LIST];
      } else if cxt == OBJECT_FIRST || cxt == OBJECT_NEXT_KEY {
        parseContextStack := parseContextStack[..|parseContextStack| - 1];
        parseContextStack := parseContextStack + [OBJECT_NEXT_VALUE];
      } else if cxt == OBJECT_NEXT_VALUE {
        parseContextStack := parseContextStack[..|parseContextStack| - 1];
        parseContextStack := parseContextStack + [OBJECT_NEXT_KEY];
      }
    }

    method ParseI64() returns (value: int, ok: bool)
      requires Valid()
      modifies `reader, `parseContextStack
      ensures Valid()
      ensures match R.ParseI64(old(Reading()))
              case Ok(i, p) => ok && value == i && Reading() == p
              case Err => !ok
    {
      value := 0;
      ok := ParsePreValue();
      if !ok || reader == [] {
        return value, false;
      }
      match reader[0] {
        case Plain(Number(i)) => value := i;
        case Quoted(Number(i)) => value := i;
        case _ => return value, false;
      }
      reader := reader[1..];
      ParsePostValue();
    }

    method ReadBool() returns (value: bool, ok: bool)
      requires Valid()
      modifies `reader, `parseContextStack
      ensures Valid()
      ensures match R.ReadBool(old(Reading()))
              case Ok(b, p) => ok && value == b && Reading() == p
              case Err => !ok
    {
      value := false;
      ok := ParsePreValue();
      if !ok {
        return;
      }
      if |reader| > 0 {
        match reader[0] {
          case Plain(Flag(b)) => value := b;
          case _ => return value, false;
        }
        reader := reader[1..];
      }
      ParsePostValue();
    }

    method ReadString() returns (value: seq<byte>, ok: bool)
      requires Valid()
      modifies `reader, `parseContextStack
      ensures Valid()
      ensures match R.ReadString(old(Reading()))
              case Ok(s, p) => ok && value == s && Reading() == p
              case Err => !ok
    {
      value := [];
      ok := ParsePreValue();
      if !ok || reader == [] {
        return value, false;
      }
      match reader[0] {
        case Quoted(Chars(bytes)) => value := bytes;
        case _ => return value, false;
      }
      reader := reader[1..];
      ParsePostValue();
    }

    // ParseObjectStart and ParseListBegin
    method ParseBegin(open: Token, context: Context) returns (ok: bool)
      requires Valid()
      modifies `reader, `parseContextStack
      ensures Valid()
      ensures match R.Enter(old(Reading()), open, context)
              case Ok(_, p) => ok && Reading() == p
              case Err => !ok
    {
      ok := ParsePreValue();
      if !ok || reader == [] || reader[0] != open {
        return false;
      }
      reader := reader[1..];
      parseContextStack := parseContextStack + [context];
    }

    // ParseObjectEnd and ParseListEnd
    method ParseEnd(close: Token) returns (ok: bool)
      requires Valid() && |parseContextStack| > 1 && (close == RBrace || close == RBracket)
      modifies `reader, `parseContextStack
      ensures Valid()
      ensures match (if close == RBrace then R.ParseObjectEnd(old(Reading())) else R.ParseListEnd(old(Reading())))
              case Ok(_, p) => ok && Reading() == p
              case Err => !ok
    {
      var cxt := parseContextStack[|parseContextStack| - 1];
      if close == RBrace {
        if cxt != OBJECT_FIRST && cxt != OBJECT_NEXT_KEY {
          return false;
        }
      } else if cxt != IN_LIST {
        return false;
      }
      if reader == [] || reader[0] != close {
        return false;
      }
      reader := reader[1..];
      parseContextStack := parseContextStack[..|parseContextStack| - 1];
      ParsePostValue();
      ok := true;
    }

    method ReadFieldBegin() returns (head: Option<T.FieldHead>, ok: bool)
      requires Valid()
      modifies `reader, `parseContextStack
      ensures Valid()
      ensures match T.ReadFieldBegin(old(Reading()))
              case Ok(h, p) => ok && head == h && Reading() == p
              case Err => !ok
    {
      hide R.ParseI64, R.ReadString, R.Enter, R.StringToTypeId;
      head, ok := None, true;
      if |reader| < 1 || reader[0] == RBrace || reader[0] == RBracket {
        return;
      }
      var fieldId, e := ParseI64();
      if !e {
        return head, false;
      }
      e := ParseBegin(LBrace, OBJECT_FIRST);
      if !e {
        return head, false;
      }
      var sType;
      sType, ok := ReadString();
      head := Some(T.FieldHead(S16(fieldId), R.StringToTypeId(sType)));
    }
  }

  lemma Three(d0: Dump, c1: Call, d1: Dump, c2: Call, d2: Dump, c3: Call, d3: Dump)
    requires !c1.ObjectEnd? && !c1.ListEnd? && !c2.ObjectEnd? && !c2.ListEnd? && !c3.ObjectEnd? && !c3.ListEnd?
    requires d1 == Step(d0, c1) && d2 == Step(d1, c2) && d3 == Step(d2, c3)
    ensures Run(d0, [c1, c2, c3]) == Done(d3)
  {
    hide Run, Step;
    RunOne(d2, c3);
    RunCons(d1, c2, [c3]);
    RunCons(d0, c1, [c2] + [c3]);
    assert [c1] + ([c2] + [c3]) == [c1, c2, c3];
  }
}
