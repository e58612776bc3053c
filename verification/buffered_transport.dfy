/** TBufferedTransport of the Go library: fixed arrays between the caller and a transport that may
    take part of a write, or fail. */
module BufferedTransport {
  import opened Bits
  import opened Wire

  // ----- what the transport below will do -----

  /** One coming write: how much it would take, and whether it fails. */
  datatype Reply = Reply(n: nat, ok: bool)

  /** How much of a write of len bytes goes down. A write that does not fail makes progress. */
  function Taken(len: nat, r: Reply): (n: nat)
    ensures n <= len && (r.ok && len > 0 ==> n > 0)
  {
    if r.n > len then len else if r.ok && r.n == 0 && len > 0 then 1 else r.n
  }

  datatype Fate = Fate(sent: nat, drained: bool, left: seq<Reply>)

  /** What becomes of a flush of len bytes: bytes sent, whether it got to the end, replies not used.
      When the replies run out, writes go through. */
  function FlushFate(len: nat, replies: seq<Reply>): (f: Fate)
    ensures f.sent <= len && (f.drained ==> f.sent == len)
    decreases replies
  {
    if len == 0 then Fate(0, true, replies)
    else if replies == [] then Fate(len, true, [])
    else
      var n := Taken(len, replies[0]);
      if !replies[0].ok then Fate(n, false, replies[1..])
      else
        var f := FlushFate(len - n, replies[1..]);
        Fate(n + f.sent, f.drained, f.left)
  }

  lemma FateUnfolds(len: nat, replies: seq<Reply>)
    requires len > 0
    ensures replies == [] ==> FlushFate(len, replies) == Fate(len, true, []) && FlushFate(0, []) == Fate(0, true, [])
    ensures replies != [] ==>
              var n, f := Taken(len, replies[0]), FlushFate(len - Taken(len, replies[0]), replies[1..]);
              FlushFate(len, replies)
              == if replies[0].ok then Fate(n + f.sent, f.drained, f.left) else Fate(n, false, replies[1..])
  {
  }

  lemma NothingToFlush(replies: seq<Reply>)
    ensures FlushFate(0, replies) == Fate(0, true, replies)
  {
  }

  /** What is left of len bytes once these replies have taken theirs. */
  function Remaining(len: nat, replies: seq<Reply>): nat
    decreases replies
  {
    if replies == [] then len else Remaining(len - Taken(len, replies[0]), replies[1..])
  }

  lemma {:induction false} NothingRemains(replies: seq<Reply>)
    ensures Remaining(0, replies) == 0
    decreases replies
  {
    if replies != [] { NothingRemains(replies[1..]); }
  }

  /** No reply fails while bytes remain. */
  predicate NoFailure(len: nat, replies: seq<Reply>) {
    forall i | 0 <= i < |replies| && !replies[i].ok :: Remaining(len, replies[..i]) == 0
  }

  /** A flush gets to the end if and only if no reply fails while bytes remain. */
  lemma {:induction false} DrainedIff(len: nat, replies: seq<Reply>)
    ensures FlushFate(len, replies).drained <==> NoFailure(len, replies)
    decreases replies
  {
    if len == 0 {
      forall i | 0 <= i < |replies|
        ensures Remaining(len, replies[..i]) == 0
      {
        NothingRemains(replies[..i]);
      }
    } else if replies != [] {
      var rest, later := replies[1..], len - Taken(len, replies[0]);
      forall i | 0 <= i < |rest|
        ensures Remaining(len, replies[..i + 1]) == Remaining(later, rest[..i])
      {
        assert replies[..i + 1][1..] == rest[..i];
      }
      if replies[0].ok {
        DrainedIff(later, rest);
        if NoFailure(later, rest) {
          forall i | 0 <= i < |replies| && !replies[i].ok
            ensures Remaining(len, replies[..i]) == 0
          {
            assert Remaining(len, replies[..i - 1 + 1]) == Remaining(later, rest[..i - 1]);
          }
        } else {
          var i :| 0 <= i < |rest| && !rest[i].ok && Remaining(later, rest[..i]) != 0;
          assert !replies[i + 1].ok && Remaining(len, replies[..i + 1]) != 0;
        }
      } else {
        assert Remaining(len, replies[..0]) == len;
      }
    }
  }

  /** The stream survives a flush if and only if no reply fails while bytes remain, or the very first
      one fails and takes nothing. */
  lemma ConservesIff(len: nat, replies: seq<Reply>)
    ensures var f := FlushFate(len, replies);
            (f.drained || f.sent == 0)
            <==> NoFailure(len, replies) || (replies != [] && !replies[0].ok && Taken(len, replies[0]) == 0)
  {
    DrainedIff(len, replies);
  }

  // ----- the writing side over whole runs -----

  /** Bytes that went down, bytes that wait, the prefixes accepted so far, and the replies to come. */
  datatype Sender = Sender(out: seq<byte>, waiting: seq<byte>, accepted: seq<byte>, replies: seq<Reply>)

  datatype Call = WriteCall(buf: seq<byte>) | FlushCall

  function Flushed(s: Sender): Sender {
    var f := FlushFate(|s.waiting|, s.replies);
    s.(out := s.out + s.waiting[..f.sent], waiting := if f.drained then [] else s.waiting, replies := f.left)
  }

  /** Accepted behind what waits, as much as the buffer holds. */
  function Buffered(capacity: nat, s: Sender, buf: seq<byte>): Sender
    requires |s.waiting| <= capacity
  {
    var n := if |buf| <= capacity - |s.waiting| then |buf| else capacity - |s.waiting|;
    s.(waiting := s.waiting + buf[..n], accepted := s.accepted + buf[..n])
  }

  function Written(capacity: nat, s: Sender, buf: seq<byte>): Sender
    requires |s.waiting| <= capacity
  {
    Buffered(capacity, if |s.waiting| + |buf| > capacity then Flushed(s) else s, buf)
  }

  function Called(capacity: nat, s: Sender, c: Call): (r: Sender)
    requires |s.waiting| <= capacity
    ensures |r.waiting| <= capacity
  {
    match c
    case WriteCall(buf) => Written(capacity, s, buf)
    case FlushCall => Flushed(s)
  }

  function CalledAll(capacity: nat, s: Sender, calls: seq<Call>): (r: Sender)
    requires |s.waiting| <= capacity
    ensures |r.waiting| <= capacity
    decreases calls
  {
    if calls == [] then s else CalledAll(capacity, Called(capacity, s, calls[0]), calls[1..])
  }

  /** The call flushes, and by its replies that flush fails after part of the buffer has gone. */
  predicate Repeats(capacity: nat, s: Sender, c: Call) {
    var f := FlushFate(|s.waiting|, s.replies);
    (c.FlushCall? || |s.waiting| + |c.buf| > capacity) && !f.drained && f.sent > 0
  }

  predicate NeverRepeats(capacity: nat, s: Sender, calls: seq<Call>)
    requires |s.waiting| <= capacity
    decreases calls
  {
    calls == []
    || (!Repeats(capacity, s, calls[0]) && NeverRepeats(capacity, Called(capacity, s, calls[0]), calls[1..]))
  }

  /** What went down and what waits are the accepted prefixes, in order. */
  predicate Conserved(s: Sender) {
    s.out + s.waiting == s.accepted
  }

  function Surplus(s: Sender): int {
    |s.out| + |s.waiting| - |s.accepted|
  }

  lemma FlushSurplus(s: Sender)
    ensures var f := FlushFate(|s.waiting|, s.replies);
            && Surplus(Flushed(s)) == Surplus(s) + (if f.drained then 0 else f.sent)
            && (f.drained || f.sent == 0 ==> Flushed(s).out + Flushed(s).waiting == s.out + s.waiting)
  {
    hide FlushFate;
  }

  lemma BufferedKeeps(capacity: nat, s: Sender, buf: seq<byte>)
    requires |s.waiting| <= capacity
    ensures var r := Buffered(capacity, s, buf); Surplus(r) == Surplus(s) && (Conserved(s) ==> Conserved(r))
  {
    var r := Buffered(capacity, s, buf);
    Concat3(s.out, s.waiting, r.waiting[|s.waiting|..]);
  }

  /** A call never takes bytes back, and adds some twice exactly when it repeats. */
  lemma CallSurplus(capacity: nat, s: Sender, c: Call)
    requires |s.waiting| <= capacity
    ensures var r := Called(capacity, s, c);
            && Surplus(r) >= Surplus(s) && (Surplus(r) > Surplus(s) <==> Repeats(capacity, s, c))
            && (Conserved(s) && !Repeats(capacity, s, c) ==> Conserved(r))
  {
    hide FlushFate, Buffered;
    FlushSurplus(s);
    if c.WriteCall? {
      BufferedKeeps(capacity, if |s.waiting| + |c.buf| > capacity then Flushed(s) else s, c.buf);
    }
  }

  lemma {:induction false} SurplusGrows(capacity: nat, s: Sender, calls: seq<Call>)
    requires |s.waiting| <= capacity
    ensures Surplus(CalledAll(capacity, s, calls)) >= Surplus(s)
    decreases calls
  {
    hide Called, Surplus;
    if calls != [] {
      CallSurplus(capacity, s, calls[0]);
      SurplusGrows(capacity, Called(capacity, s, calls[0]), calls[1..]);
    }
  }

  /** Over any writes and flushes and any replies of the transport: the accepted prefixes come down in
      order, none lost or repeated, if and only if no flush, asked for or made by a Write, fails after
      part of the buffer has gone. */
  lemma {:induction false} RunConservesIff(capacity: nat, s: Sender, calls: seq<Call>)
    requires |s.waiting| <= capacity && Conserved(s)
    ensures Conserved(CalledAll(capacity, s, calls)) <==> NeverRepeats(capacity, s, calls)
    decreases calls
  {
    if calls != [] {
      hide Called, Repeats;
      var r := Called(capacity, s, calls[0]);
      CallSurplus(capacity, s, calls[0]);
      if Repeats(capacity, s, calls[0]) {
        SurplusGrows(capacity, r, calls[1..]);
        assert Surplus(CalledAll(capacity, r, calls[1..])) > 0;
      } else {
        RunConservesIff(capacity, r, calls[1..]);
      }
    }
  }

  /** The transport below. `replies` is what its coming writes do; how much a read brings, and whether
      a read or a flush fails, is its own choice. */
  class Pipe {
    var out: seq<byte>
    var input: seq<byte>
    var replies: seq<Reply>

    method Write(b: seq<byte>) returns (n: nat, ok: bool)
      modifies `out, `replies
      ensures n <= |b| && out == old(out) + b[..n]
      ensures old(replies) == [] ==> n == |b| && ok && replies == []
      ensures old(replies) != [] ==>
                n == Taken(|b|, old(replies)[0]) && ok == old(replies)[0].ok && replies == old(replies)[1..]
    {
      if replies == [] {
        n, ok := |b|, true;
      } else {
        n, ok, replies := Taken(|b|, replies[0]), replies[0].ok, replies[1..];
      }
      out := out + b[..n];
    }

    method Read(b: array<byte>) returns (n: nat, ok: bool)
      modifies `input, b
      ensures n <= b.Length && b[..n] + input == old(input)
    {
      ok := *;
      n :| 0 <= n <= b.Length && n <= |input|;
      var i := 0;
      while i < n
        invariant 0 <= i <= n && input == old(input) && b[..i] == input[..i]
      {
        b[i] := input[i];
        i := i + 1;
      }
      input := input[n..];
    }

    method Flush() returns (ok: bool)
    {
      ok := *;
    }
  }

  class TBufferedTransport {
    const tp: Pipe
    const rbuf: array<byte>
    var rpos: nat
    var rlimit: nat
    const wbuf: array<byte>
    var wpos: nat
    /** The prefixes that Write has accepted, in order. */
    ghost var accepted: seq<byte>
    /** Some flush failed after part of the buffer had gone down. */
    ghost var faulted: bool

    ghost predicate Valid()
      reads this, tp, rbuf, wbuf
    {
      && rbuf != wbuf
      && rpos <= rlimit <= rbuf.Length
      && wpos <= wbuf.Length
      && (!faulted ==> Outgoing() == accepted)
      && (faulted <==> |Outgoing()| > |accepted|)
    }

    /** All that went down, then all that waits. */
    ghost function Outgoing(): seq<byte>
      requires wpos <= wbuf.Length
      reads this, tp, wbuf
    {
      tp.out + wbuf[..wpos]
    }

    /** The writing side, as a value. */
    ghost function Sending(): Sender
      requires wpos <= wbuf.Length
      reads this, tp, wbuf
    {
      Sender(tp.out, wbuf[..wpos], accepted, tp.replies)
    }

    /** What the caller has yet to read. */
    ghost function Incoming(): seq<byte>
      requires rpos <= rlimit <= rbuf.Length
      reads this, tp, rbuf
    {
      rbuf[rpos..rlimit] + tp.input
    }

    constructor (tp: Pipe, bufferSize: nat)
      ensures Valid() && this.tp == tp && fresh(rbuf) && fresh(wbuf)
      ensures rbuf.Length == wbuf.Length == bufferSize && wpos == 0 && !faulted
      ensures accepted == tp.out && Incoming() == tp.input
    {
      this.tp := tp;
      rbuf, rpos, rlimit := new byte[bufferSize](_ => 0), 0, 0;
      wbuf, wpos := new byte[bufferSize](_ => 0), 0;
      accepted, faulted := tp.out, false;
      new;
      assert tp.out + wbuf[..0] == tp.out;
    }

    // the loop of Flush
    method Drain() returns (ok: bool)
      requires wpos <= wbuf.Length
      modifies tp`out, tp`replies
      ensures var f := FlushFate(wpos, old(tp.replies));
              ok == f.drained && tp.out == old(tp.out) + wbuf[..f.sent] && tp.replies == f.left
    {
      hide FlushFate, Taken;
      var start := 0;
      ghost var f := FlushFate(wpos, tp.replies);
      while start < wpos
        invariant start <= wpos
        invariant tp.out == old(tp.out) + wbuf[..start]
        invariant var g := FlushFate(wpos - start, tp.replies); f == Fate(start + g.sent, g.drained, g.left)
        decreases wpos - start
      {
        FateUnfolds(wpos - start, tp.replies);
        var n, e := tp.Write(wbuf[start..wpos]);
        assert wbuf[..start + n] == wbuf[..start] + wbuf[start..wpos][..n];
        Concat3(old(tp.out), wbuf[..start], wbuf[start..wpos][..n]);
        if !e {
          return false;
        }
        start := start + n;
      }
      NothingToFlush(tp.replies);
      ok := true;
    }

    /** A failure keeps in the buffer what already went down, so the stream is conserved exactly under
        the condition of ConservesIff on the replies to come. */
    method Flush() returns (ok: bool)
      requires Valid()
      modifies this`wpos, this`faulted, tp`out, tp`replies
      ensures var f := FlushFate(old(wpos), old(tp.replies));
              && Valid() && tp.out == old(tp.out) + wbuf[..f.sent] && tp.replies == f.left
              && wpos == (if f.drained then 0 else old(wpos))
              && (!f.drained ==> !ok)
              && (Outgoing() == old(Outgoing()) <==> f.drained || f.sent == 0)
              && (faulted <==> old(faulted) || (!f.drained && f.sent > 0))
      ensures Sending() == Flushed(old(Sending()))
    {
      hide FlushFate;
      ghost var f := FlushFate(wpos, tp.replies);
      ok := Drain();
      assert |tp.out + wbuf[..wpos]| == |old(Outgoing())| + f.sent;
      assert wbuf[..wpos][..f.sent] == wbuf[..f.sent];
      if ok {
        wpos := 0;
        assert tp.out + wbuf[..0] == tp.out;
        ok := tp.Flush();
      } else {
        faulted := faulted || f.sent > 0;
        assert f.sent == 0 ==> tp.out == old(tp.out);
      }
    }

    method CopyIn(buf: seq<byte>) returns (n: nat)
      requires wpos <= wbuf.Length
      modifies wbuf
      ensures n == (if |buf| <= wbuf.Length - wpos then |buf| else wbuf.Length - wpos)
      ensures wbuf[..wpos + n] == old(wbuf[..wpos]) + buf[..n]
    {
      n := if |buf| <= wbuf.Length - wpos then |buf| else wbuf.Length - wpos;
      var i := 0;
      while i < n
        invariant 0 <= i <= n && wbuf[..wpos + i] == old(wbuf[..wpos]) + buf[..i]
      {
        wbuf[wpos + i] := buf[i];
        i := i + 1;
      }
    }

    /** Accepts what fits, after a flush when the whole does not; a failed flush goes unnoticed. So the
        whole is accepted if and only if it fits behind what waits, or no reply fails while that goes
        down and it fits the buffer. What goes down, and whether bytes were repeated, is the flush's. */
    method Write(buf: seq<byte>) returns (n: nat)
      requires Valid()
      modifies this`wpos, this`accepted, this`faulted, tp`out, tp`replies, wbuf
      ensures Valid() && n <= |buf| && accepted == old(accepted) + buf[..n]
      ensures n == |buf| <==>
                old(wpos) + |buf| <= wbuf.Length
                || (NoFailure(old(wpos), old(tp.replies)) && |buf| <= wbuf.Length)
      ensures n < |buf| ==> wpos == wbuf.Length
      ensures old(wpos) + |buf| <= wbuf.Length ==>
                tp.out == old(tp.out) && tp.replies == old(tp.replies) && faulted == old(faulted)
      ensures old(wpos) + |buf| > wbuf.Length ==>
                var f := FlushFate(old(wpos), old(tp.replies));
                && tp.out == old(tp.out) + old(wbuf[..wpos])[..f.sent] && tp.replies == f.left
                && (faulted <==> old(faulted) || (!f.drained && f.sent > 0))
      ensures Outgoing() == accepted <==> !faulted
      ensures Sending() == Written(wbuf.Length, old(Sending()), buf)
    {
      DrainedIff(wpos, tp.replies);
      hide FlushFate, NoFailure;
      if wpos + |buf| > wbuf.Length {
        var _ := Flush();
      }
      n := Accept(buf);
    }

    // copy, and the new position
    method Accept(buf: seq<byte>) returns (n: nat)
      requires Valid()
      modifies this`wpos, this`accepted, wbuf
      ensures n == (if |buf| <= wbuf.Length - old(wpos) then |buf| else wbuf.Length - old(wpos))
      ensures Valid() && accepted == old(accepted) + buf[..n] && wpos == old(wpos) + n
      ensures Outgoing() == accepted <==> !faulted
      ensures Sending() == Buffered(wbuf.Length, old(Sending()), buf)
    {
      ghost var out, kept := tp.out, wbuf[..wpos];
      n := CopyIn(buf);
      Concat3(out, kept, buf[..n]);
      wpos := wpos + n;
      accepted := accepted + buf[..n];
    }

    method CopyOut(buf: array<byte>, n: nat)
      requires rpos + n <= rlimit <= rbuf.Length && n <= buf.Length && buf != rbuf
      modifies buf
      ensures buf[..n] == rbuf[rpos..rpos + n]
    {
      var i := 0;
      while i < n
        invariant 0 <= i <= n && buf[..i] == rbuf[rpos..rpos + i]
      {
        buf[i] := rbuf[rpos + i];
        i := i + 1;
      }
    }

    /** Bytes come out in the order they came up, none lost or repeated, whatever the sizes and even
        when the transport fails after delivering part. */
    method Read(buf: array<byte>) returns (n: nat, ok: bool)
      requires Valid() && buf != rbuf && buf != wbuf
      modifies this`rpos, this`rlimit, tp`input, rbuf, buf
      ensures Valid() && n <= buf.Length && buf[..n] + Incoming() == old(Incoming())
      ensures !ok ==> n == 0
      ensures old(rpos) < old(rlimit) && buf.Length > 0 ==> ok && n > 0
      ensures ok ==> n == buf.Length || rpos == rlimit
    {
      if rpos == rlimit {
        rpos := 0;
        rlimit, ok := tp.Read(rbuf);
        assert Incoming() == old(Incoming());
        if !ok {
          return 0, false;
        }
      }
      ok := true;
      n := Deliver(buf);
    }

    // copy, and the new position
    method Deliver(buf: array<byte>) returns (n: nat)
      requires rpos <= rlimit <= rbuf.Length && buf != rbuf
      modifies this`rpos, buf
      ensures rpos <= rlimit && n == (if buf.Length <= rlimit - old(rpos) then buf.Length else rlimit - old(rpos))
      ensures buf[..n] + Incoming() == old(Incoming()) && rpos == old(rpos) + n
    {
      n := if buf.Length <= rlimit - rpos then buf.Length else rlimit - rpos;
      CopyOut(buf, n);
      assert rbuf[rpos..rlimit] == rbuf[rpos..rpos + n] + rbuf[rpos + n..rlimit];
      rpos := rpos + n;
      Concat3(buf[..n], rbuf[rpos..rlimit], tp.input);
    }
  }
}
