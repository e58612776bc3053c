/** TFramedTransport of the Go library over a FIFO of bytes: each flush is one frame behind a four-byte
    size; reads are served from one frame at a time. */
module FramedTransport {
  import opened Bits
  import opened Wire
  import B = Binary

  // ----- frames -----

  /** A frame as Flush sends it: the size is cut to 32 bits. */
  function Frame(payload: seq<byte>): seq<byte> {
    B.BigEndian(U32(|payload|), 4) + payload
  }

  function Frames(payloads: seq<seq<byte>>): seq<byte> {
    if payloads == [] then [] else Frame(payloads[0]) + Frames(payloads[1..])
  }

  function Concat(payloads: seq<seq<byte>>): seq<byte> {
    if payloads == [] then [] else payloads[0] + Concat(payloads[1..])
  }

  /** The header tells the size if and only if the size fits it. */
  lemma HeaderIsSize(payload: seq<byte>)
    ensures B.FromBigEndian(Frame(payload)[..4]) == |payload| <==> |payload| < TWO32
  {
    hide B.BigEndian, B.FromBigEndian;
    assert Frame(payload)[..4] == B.BigEndian(U32(|payload|), 4);
    B.BigEndianWidths(U32(|payload|));
  }

  lemma {:induction false} FramesSnoc(payloads: seq<seq<byte>>, p: seq<byte>)
    ensures Frames(payloads + [p]) == Frames(payloads) + Frame(p)
    ensures Concat(payloads + [p]) == Concat(payloads) + p
  {
    hide B.BigEndian;
    if payloads == [] {
      assert payloads + [p] == [p];
      assert Frames([p]) == Frame(p) + Frames([]);
    } else {
      assert (payloads + [p])[1..] == payloads[1..] + [p];
      FramesSnoc(payloads[1..], p);
      Concat3(Frame(payloads[0]), Frames(payloads[1..]), Frame(p));
      Concat3(payloads[0], Concat(payloads[1..]), p);
    }
  }

  // ----- reads, as a function -----

  /** The current frame's unread bytes, and the frames not yet read. */
  datatype Receiver = Receiver(buffer: seq<byte>, frames: seq<seq<byte>>)

  function Pending(r: Receiver): seq<byte> {
    r.buffer + Concat(r.frames)
  }

  /** readFrame: an empty frame leaves the buffer as it is, and so does the end of the input. */
  function NextFrame(r: Receiver): Receiver {
    if r.frames == [] then r
    else if r.frames[0] == [] then r.(frames := r.frames[1..])
    else Receiver(r.frames[0], r.frames[1..])
  }

  datatype Got = Got(data: seq<byte>, eof: bool, r: Receiver)

  // bytes.Buffer.Read
  function BufferRead(r: Receiver, size: nat): Got {
    var n := if size <= |r.buffer| then size else |r.buffer|;
    Got(r.buffer[..n], r.buffer == [] && size > 0, r.(buffer := r.buffer[n..]))
  }

  function ReadStep(r: Receiver, size: nat): Got {
    if r.buffer != [] && size > 0 then BufferRead(r, size) else BufferRead(NextFrame(r), size)
  }

  /** One read: what it returns and what is still pending make up what was pending, except for a
      zero-size read of an unfinished frame with a non-empty frame behind it. */
  lemma ReadConserves(r: Receiver, size: nat)
    ensures var g := ReadStep(r, size);
            g.data + Pending(g.r) == Pending(r) <==>
              !(size == 0 && r.buffer != [] && r.frames != [] && r.frames[0] != [])
  {
    var g := ReadStep(r, size);
    assert |Concat(r.frames)| == if r.frames == [] then 0 else |r.frames[0]| + |Concat(r.frames[1..])|;
    if r.buffer != [] && size > 0 {
      Concat3(g.data, g.r.buffer, Concat(r.frames));
    } else if r.frames != [] && r.frames[0] != [] {
      if r.buffer == [] {
        Concat3(g.data, g.r.buffer, Concat(r.frames[1..]));
      } else {
        assert |g.data + Pending(g.r)| == |Concat(r.frames)| < |Pending(r)|;
      }
    }
  }

  /** What is left of the frame that a read is served from. */
  function Current(r: Receiver): seq<byte> {
    if r.buffer != [] then r.buffer else if r.frames != [] then r.frames[0] else []
  }

  /** A read gives as much of the current frame as fits, and never of the next. It returns nothing,
      with an end-of-file error, exactly when the buffer is spent and the next frame is empty or
      missing. */
  lemma ReadStaysInFrame(r: Receiver, size: nat)
    requires size > 0
    ensures var g := ReadStep(r, size);
            && g.data == Current(r)[..if size <= |Current(r)| then size else |Current(r)|]
            && (r.buffer != [] ==> g.data <= r.buffer && g.r.frames == r.frames)
            && (r.buffer == [] && r.frames != [] ==> g.data <= r.frames[0] && g.r.frames == r.frames[1..])
            && (g.data == [] <==> g.eof)
            && (g.eof <==> r.buffer == [] && (r.frames == [] || r.frames[0] == []))
  {
  }

  // ----- runs -----

  /** A flush at one end of the stream, or a read at the other. */
  datatype Op = Send(payload: seq<byte>) | Receive(size: nat)

  function RunStep(r: Receiver, op: Op): Got {
    match op
    case Send(payload) => Got([], false, r.(frames := r.frames + [payload]))
    case Receive(size) => ReadStep(r, size)
  }

  function Delivered(r: Receiver, ops: seq<Op>): (seq<byte>, Receiver)
    decreases ops
  {
    if ops == [] then ([], r)
    else
      var g := RunStep(r, ops[0]);
      var (data, last) := Delivered(g.r, ops[1..]);
      (g.data + data, last)
  }

  function SentBy(op: Op): seq<byte> {
    if op.Send? then op.payload else []
  }

  function Sent(ops: seq<Op>): seq<byte> {
    if ops == [] then [] else SentBy(ops[0]) + Sent(ops[1..])
  }

  predicate PositiveReads(ops: seq<Op>) {
    forall op | op in ops :: op.Receive? ==> op.size > 0
  }

  /** A zero-size read of an unfinished frame with a non-empty frame behind it. */
  predicate Drops(r: Receiver, op: Op) {
    op.Receive? && op.size == 0 && r.buffer != [] && r.frames != [] && r.frames[0] != []
  }

  predicate NeverDrops(r: Receiver, ops: seq<Op>)
    decreases ops
  {
    ops == [] || (!Drops(r, ops[0]) && NeverDrops(RunStep(r, ops[0]).r, ops[1..]))
  }

  /** One step conserves the stream unless it drops, and then it is shorter. */
  lemma StepConserves(r: Receiver, op: Op)
    ensures var g := RunStep(r, op);
            if Drops(r, op) then |g.data| + |Pending(g.r)| < |Pending(r)| + |SentBy(op)|
            else g.data + Pending(g.r) == Pending(r) + SentBy(op)
  {
    match op
    case Send(payload) =>
      FramesSnoc(r.frames, payload);
      Concat3(r.buffer, Concat(r.frames), payload);
    case Receive(size) =>
      ReadConserves(r, size);
      assert Pending(r) + [] == Pending(r);
      if Drops(r, op) {
        assert Concat(r.frames) == r.frames[0] + Concat(r.frames[1..]);
      }
  }

  lemma {:induction false} RunNeverGrows(r: Receiver, ops: seq<Op>)
    ensures var (data, last) := Delivered(r, ops); |data| + |Pending(last)| <= |Pending(r)| + |Sent(ops)|
    decreases ops
  {
    if ops != [] {
      StepConserves(r, ops[0]);
      hide RunStep, Pending, Drops;
      RunNeverGrows(RunStep(r, ops[0]).r, ops[1..]);
    }
  }

  /** Any payloads, any frame boundaries, empty ones included, any read sizes, flushes and reads in any
      order: the bytes come out in the order they went in, none lost and none repeated, if and only if
      no step is a zero-size read of an unfinished frame with a non-empty frame behind it. */
  lemma {:induction false} TransferConservesIff(r: Receiver, ops: seq<Op>)
    ensures var (data, last) := Delivered(r, ops);
            data + Pending(last) == Pending(r) + Sent(ops) <==> NeverDrops(r, ops)
    decreases ops
  {
    if ops == [] {
      assert [] + Pending(r) == Pending(r) + [];
    } else {
      var g := RunStep(r, ops[0]);
      StepConserves(r, ops[0]);
      hide RunStep, Pending, Drops, SentBy;
      TransferConservesIff(g.r, ops[1..]);
      RunNeverGrows(g.r, ops[1..]);
      assert Sent(ops) == SentBy(ops[0]) + Sent(ops[1..]);
      assert Delivered(r, ops) == (g.data + Delivered(g.r, ops[1..]).0, Delivered(g.r, ops[1..]).1);
      if !Drops(r, ops[0]) {
        Rejoined(r, g, ops);
      }
    }
  }

  /** Behind a step that conserves, the whole is conserved if and only if the rest is. */
  lemma Rejoined(r: Receiver, g: Got, ops: seq<Op>)
    requires ops != [] && g.data + Pending(g.r) == Pending(r) + SentBy(ops[0])
    ensures var (data, last) := Delivered(g.r, ops[1..]);
            g.data + data + Pending(last) == Pending(r) + (SentBy(ops[0]) + Sent(ops[1..]))
            <==> data + Pending(last) == Pending(g.r) + Sent(ops[1..])
  {
    hide RunStep, Pending, SentBy, Delivered, Sent;
    var (data, last) := Delivered(g.r, ops[1..]);
    var x, y := data + Pending(last), Pending(g.r) + Sent(ops[1..]);
    Concat3(g.data, data, Pending(last));
    Concat3(g.data, Pending(g.r), Sent(ops[1..]));
    Concat3(Pending(r), SentBy(ops[0]), Sent(ops[1..]));
    assert (g.data + x)[|g.data|..] == x && (g.data + y)[|g.data|..] == y;
  }

  /** In particular when no read is of size zero. */
  lemma TransferConserves(r: Receiver, ops: seq<Op>)
    requires PositiveReads(ops)
    ensures var (data, last) := Delivered(r, ops); data + Pending(last) == Pending(r) + Sent(ops)
  {
    PositiveNeverDrops(r, ops);
    TransferConservesIff(r, ops);
  }

  lemma {:induction false} PositiveNeverDrops(r: Receiver, ops: seq<Op>)
    requires PositiveReads(ops)
    ensures NeverDrops(r, ops)
    decreases ops
  {
    if ops != [] {
      assert ops[0] in ops && forall op | op in ops[1..] :: op in ops;
      PositiveNeverDrops(RunStep(r, ops[0]).r, ops[1..]);
    }
  }

  // ----- the object -----

  /** The transport below: what is written is read, in order. `frames` are the flushed payloads that
      have not been read. */
  class Fifo {
    var bytes: seq<byte>
    ghost var frames: seq<seq<byte>>

    ghost predicate Valid()
      reads this
    {
      && bytes == Frames(frames)
      && forall p | p in frames :: |p| < TWO32
    }

    constructor ()
      ensures Valid() && frames == []
    {
      bytes, frames := [], [];
    }

    // io.ReadFull
    method ReadFull(n: nat) returns (data: seq<byte>, ok: bool)
      modifies `bytes
      ensures ok <==> n <= |old(bytes)|
      ensures data + bytes == old(bytes) && (ok ==> |data| == n)
      ensures !ok ==> bytes == []
    {
      ok := n <= |bytes|;
      if ok {
        data, bytes := bytes[..n], bytes[n..];
      } else {
        data, bytes := bytes, [];
      }
    }
  }

  class TFramedTransport {
    const transport: Fifo
    var writeBuffer: seq<byte>
    var readBuffer: seq<byte>

    constructor (transport: Fifo)
      ensures this.transport == transport && writeBuffer == [] && readBuffer == []
    {
      this.transport, writeBuffer, readBuffer := transport, [], [];
    }

    ghost function Receiving(): Receiver
      reads this, transport
    {
      Receiver(readBuffer, transport.frames)
    }

    method Write(buf: seq<byte>) returns (n: nat)
      modifies `writeBuffer
      ensures n == |buf| && writeBuffer == old(writeBuffer) + buf
    {
      writeBuffer := writeBuffer + buf;
      n := |buf|;
    }

    /** Everything written since the last flush becomes one frame behind all others. */
    method Flush()
      modifies `writeBuffer, transport
      ensures writeBuffer == [] && transport.bytes == old(transport.bytes) + Frame(old(writeBuffer))
      ensures transport.frames == old(transport.frames) + [old(writeBuffer)]
      ensures old(transport.Valid()) && |old(writeBuffer)| < TWO32 ==> transport.Valid()
      ensures Concat(transport.frames) == old(Concat(transport.frames)) + old(writeBuffer)
    {
      hide B.BigEndian;
      var size := |writeBuffer|;
      var header := B.BigEndian(U32(size), 4);
      FramesSnoc(transport.frames, writeBuffer);
      ghost var payload := writeBuffer;
      transport.frames := transport.frames + [writeBuffer];
      transport.bytes := transport.bytes + header;
      Concat3(old(transport.bytes), header, payload);
      if size > 0 {
        transport.bytes := transport.bytes + writeBuffer;
        writeBuffer := [];
      } else {
        assert header + payload == header;
      }
    }

    method ReadFrame()
      requires transport.Valid()
      modifies `readBuffer, transport
      ensures transport.Valid() && Receiving() == NextFrame(old(Receiving()))
    {
      hide B.BigEndian, B.FromBigEndian;
      ghost var frames := transport.frames;
      if frames != [] {
        FirstFrame(frames);
      }
      var buf, ok := transport.ReadFull(4);
      if !ok {
        return;
      }
      assert buf == (buf + transport.bytes)[..4];
      var size := B.FromBigEndian(buf);
      transport.frames := frames[1..];
      if size == 0 {
        return;
      }
      ghost var rest := transport.bytes;
      buf, ok := transport.ReadFull(size);
      assert buf == (buf + transport.bytes)[..size];
      if !ok {
        return;
      }
      readBuffer := buf;
    }

    method FromBuffer(buf: array<byte>) returns (got: nat, eof: bool)
      modifies `readBuffer, buf
      ensures got <= buf.Length
      ensures Got(buf[..got], eof, Receiving()) == BufferRead(old(Receiving()), buf.Length)
    {
      eof := readBuffer == [] && buf.Length > 0;
      got := if buf.Length <= |readBuffer| then buf.Length else |readBuffer|;
      var i := 0;
      while i < got
        invariant 0 <= i <= got && readBuffer == old(readBuffer) && buf[..i] == readBuffer[..i]
      {
        buf[i] := readBuffer[i];
        i := i + 1;
      }
      readBuffer := readBuffer[got..];
    }

    method Read(buf: array<byte>) returns (got: nat, eof: bool)
      requires transport.Valid()
      modifies `readBuffer, transport, buf
      ensures transport.Valid() && got <= buf.Length
      ensures Got(buf[..got], eof, Receiving()) == ReadStep(old(Receiving()), buf.Length)
    {
      if |readBuffer| > 0 {
        got, eof := FromBuffer(buf);
        if got > 0 {
          return;
        }
      }
      ReadFrame();
      got, eof := FromBuffer(buf);
    }
  }

  lemma FirstFrame(frames: seq<seq<byte>>)
    requires frames != [] && |frames[0]| < TWO32
    ensures var s := Frames(frames);
            && |s| >= 4 && B.FromBigEndian(s[..4]) == |frames[0]|
            && |s[4..]| >= |frames[0]|
            && s[4..][..|frames[0]|] == frames[0]
            && s[4..][|frames[0]|..] == Frames(frames[1..])
  {
    hide B.BigEndian, B.FromBigEndian;
    var s, p, rest := Frames(frames), frames[0], Frames(frames[1..]);
    HeaderIsSize(p);
    Concat3(B.BigEndian(U32(|p|), 4), p, rest);
    assert s[..4] == Frame(p)[..4];
    assert s[4..] == p + rest;
  }
}
