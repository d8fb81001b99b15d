/** The I/O loops of the framing, over sockets that move as few bytes per call as they please. */
module WireIo {
  import opened Common
  import opened WireFormat

  /** What the next `send` or `recv` does: EINTR, a hard error, or a transfer of at most `n` bytes. */
  datatype Event = Interrupted | Broken | Chunk(n: nat)

  datatype Transfer = Moved(n: nat) | Interrupt | Failure

  ghost predicate NeverFails(script: seq<Event>) {
    forall i | 0 <= i < |script| :: script[i] != Broken && script[i] != Chunk(0)
  }

  /** The event that was consumed last. */
  ghost predicate LastEvent(before: seq<Event>, after: seq<Event>, e: Event) {
    |after| < |before| && before[|before| - |after| - 1] == e
  }

  ghost predicate IsTail(s: seq<Event>, of: seq<Event>) {
    |s| <= |of| && s == of[|of| - |s|..]
  }

  /** A stream socket; when its script has run out it transfers all that is asked. */
  class Socket {
    var incoming: seq<Byte>     // still to be received, then end of file
    var outgoing: seq<Byte>     // sent so far
    var script: seq<Event>

    constructor (incoming: seq<Byte>, script: seq<Event>)
      ensures this.incoming == incoming && this.script == script && outgoing == []
    {
      this.incoming, this.script, outgoing := incoming, script, [];
    }

    method NextEvent(most: nat) returns (e: Event)
      modifies `script
      ensures old(script) == [] ==> script == [] && e == Chunk(most)
      ensures old(script) != [] ==> script == old(script)[1..] && e == old(script)[0]
    {
      if script == [] {
        return Chunk(most);
      }
      e := script[0];
      script := script[1..];
    }

    method Send(data: seq<Byte>) returns (t: Transfer)
      requires data != []
      modifies `script, `outgoing
      ensures IsTail(script, old(script)) && (t.Interrupt? ==> |script| < |old(script)|)
      ensures t.Moved? ==> t.n <= |data| && outgoing == old(outgoing) + data[..t.n]
      ensures !t.Moved? ==> outgoing == old(outgoing)
      ensures NeverFails(old(script)) ==> !t.Failure? && (t.Moved? ==> t.n > 0)
      ensures t.Failure? ==> LastEvent(old(script), script, Broken)
      ensures t.Moved? && t.n == 0 ==> LastEvent(old(script), script, Chunk(0))
    {
      var e := NextEvent(|data|);
      match e {
        case Interrupted => return Interrupt;
        case Broken => return Failure;
        case Chunk(n) =>
          var w := if n <= |data| then n else |data|;
          outgoing := outgoing + data[..w];
          return Moved(w);
      }
    }

    /** Reads nothing only at the end of the stream. */
    method Recv(most: nat) returns (t: Transfer, bytes: seq<Byte>)
      requires most > 0
      modifies `script, `incoming
      ensures IsTail(script, old(script)) && (t.Interrupt? ==> |script| < |old(script)|)
      ensures old(incoming) == bytes + incoming && |bytes| <= most
      ensures t.Moved? ==> t.n == |bytes| && (t.n == 0 <==> old(incoming) == [])
      ensures !t.Moved? ==> bytes == []
      ensures NeverFails(old(script)) ==> !t.Failure?
      ensures t.Failure? ==> LastEvent(old(script), script, Broken)
    {
      var e := NextEvent(most);
      match e {
        case Interrupted => return Interrupt, [];
        case Broken => return Failure, [];
        case Chunk(n) =>
          var k := if n == 0 then 1 else n;
          if k > most { k := most; }
          if k > |incoming| { k := |incoming|; }
          SplitAt(incoming, k);
          bytes := incoming[..k];
          incoming := incoming[k..];
          return Moved(k), bytes;
      }
    }
  }

  /** Writes all the bytes, or a proper prefix of them before it fails. */
  method WriteAll(fd: Socket, data: seq<Byte>) returns (r: Result<()>)
    modifies fd`script, fd`outgoing
    ensures IsTail(fd.script, old(fd.script))
    ensures r.Ok? ==> fd.outgoing == old(fd.outgoing) + data
    ensures r.Err? ==> exists k | 0 <= k < |data| :: fd.outgoing == old(fd.outgoing) + data[..k]
    ensures r.Err? ==>
      || (r.error == IoError && LastEvent(old(fd.script), fd.script, Broken))
      || (r.error == Closed && LastEvent(old(fd.script), fd.script, Chunk(0)))
    ensures NeverFails(old(fd.script)) ==> r.Ok?
  {
    var p, n := 0, |data|;
    while n != 0
      invariant 0 <= p && 0 <= n && p + n == |data|
      invariant fd.outgoing == old(fd.outgoing) + data[..p]
      invariant IsTail(fd.script, old(fd.script))
      decreases n, |fd.script|
    {
      var w := fd.Send(data[p..]);
      if w == Interrupt {
        continue;
      }
      if w == Failure {
        return Err(IoError);
      }
      if w.n == 0 {
        return Err(Closed);
      }
      TakeThenTake(data, p, w.n);
      Regroup(old(fd.outgoing), data[..p], data[p..][..w.n]);
      p := p + w.n;
      n := n - w.n;
    }
    assert data[..p] == data;
    return Ok(());
  }

  /** Reads exactly `len` bytes, or reports that the stream ended or broke first. */
  method ReadExact(fd: Socket, len: nat) returns (r: Result<seq<Byte>>)
    modifies fd`script, fd`incoming
    ensures IsTail(fd.script, old(fd.script))
    ensures r.Ok? ==> len <= |old(fd.incoming)| && r.value == old(fd.incoming)[..len]
    ensures r.Ok? ==> fd.incoming == old(fd.incoming)[len..]
    ensures r.Err? ==>
      || (r.error == IoError && LastEvent(old(fd.script), fd.script, Broken))
      || (r.error == Closed && |old(fd.incoming)| < len && fd.incoming == [])
    ensures NeverFails(old(fd.script)) ==> (r.Ok? <==> len <= |old(fd.incoming)|) && r != Err(IoError)
  {
    var buf: seq<Byte> := [];
    var n := len;
    while n != 0
      invariant 0 <= n && |buf| + n == len
      invariant old(fd.incoming) == buf + fd.incoming
      invariant IsTail(fd.script, old(fd.script))
      decreases n, |fd.script|
    {
      var got, bytes := fd.Recv(n);
      if got == Interrupt {
        continue;
      }
      if got == Failure {
        return Err(IoError);
      }
      if got.n == 0 {
        return Err(Closed);
      }
      Regroup(buf, bytes, fd.incoming);
      buf := buf + bytes;
      n := n - got.n;
    }
    TakenApart(buf, fd.incoming);
    return Ok(buf);
  }

  // ---- Headers in their buffers ----

  /** `memcpy(out + at, bytes, |bytes|)` */
  method CopyTo(out: array<Byte>, at: nat, bytes: seq<Byte>)
    requires at + |bytes| <= out.Length
    modifies out
    ensures out[..] == old(out[..at]) + bytes + old(out[at + |bytes|..])
  {
    for i := 0 to |bytes|
      invariant out[..] == old(out[..at]) + bytes[..i] + old(out[at + i..])
    {
      out[at + i] := bytes[i];
    }
  }

  method EncodeHeader(h: Header, out: array<Byte>)
    requires out.Length == HEADER_LEN
    modifies out
    ensures out[..] == HeaderBytes(h)
  {
    CopyTo(out, 0, Be32(h.magic));
    CopyTo(out, 4, Be16(h.version));
    CopyTo(out, 6, Be16(h.headerLen));
    CopyTo(out, 8, Be32(h.payloadLen));
    CopyTo(out, 12, Be32(h.flags));
  }

  method DecodeHeader(b: seq<Byte>) returns (r: Result<Header>)
    requires |b| == HEADER_LEN
    ensures r == ParseHeader(b)
  {
    var h := Header(FromBe32(b[0..4]), FromBe16(b[4..6]), FromBe16(b[6..8]), FromBe32(b[8..12]), FromBe32(b[12..16]));
    if h.magic != PROTOCOL_MAGIC {
      return Err(ProtocolError);
    }
    if h.version != PROTOCOL_VERSION {
      return Err(ProtocolError);
    }
    if h.headerLen != HEADER_LEN {
      return Err(ProtocolError);
    }
    if h.payloadLen > MAX_FRAME_PAYLOAD {
      return Err(ProtocolError);
    }
    return Ok(h);
  }

  // ---- Frames ----

  /** A header cut short, and a payload cut short, are the frame cut short. */
  lemma PartOfHeader(f: Frame, k: nat)
    requires Sendable(f) && k < HEADER_LEN
    ensures HeaderBytes(FrameHeader(f))[..k] == FrameBytes(f)[..k]
  {
  }

  lemma PartOfPayload(before: seq<Byte>, f: Frame, k: nat)
    requires Sendable(f) && k <= |f.msg|
    ensures before + HeaderBytes(FrameHeader(f)) + f.msg[..k] == before + FrameBytes(f)[..HEADER_LEN + k]
  {
    assert FrameBytes(f)[..HEADER_LEN + k] == HeaderBytes(FrameHeader(f)) + f.msg[..k];
  }

  lemma WholeFrame(before: seq<Byte>, f: Frame)
    requires Sendable(f)
    ensures before + HeaderBytes(FrameHeader(f)) + f.msg == before + FrameBytes(f)
  {
  }

  /** Writes the whole frame, or a proper prefix of it before it fails. */
  method WriteFrame(fd: Socket, f: Frame) returns (r: Result<()>)
    modifies fd`script, fd`outgoing
    ensures IsTail(fd.script, old(fd.script))
    ensures r == Err(InvalidArgument) <==> |f.msg| > 65536
    ensures r.Err? ==>
      || r.error == InvalidArgument
      || (r.error == IoError && LastEvent(old(fd.script), fd.script, Broken))
      || (r.error == Closed && LastEvent(old(fd.script), fd.script, Chunk(0)))
    ensures r == Err(InvalidArgument) ==> fd.outgoing == old(fd.outgoing)
    ensures r.Ok? ==> fd.outgoing == old(fd.outgoing) + FrameBytes(f)
    ensures r.Err? && Sendable(f) ==>
      exists k | 0 <= k < |FrameBytes(f)| :: fd.outgoing == old(fd.outgoing) + FrameBytes(f)[..k]
    ensures NeverFails(old(fd.script)) && Sendable(f) ==> r.Ok?
  {
    if |f.msg| > MAX_FRAME_PAYLOAD {
      return Err(InvalidArgument);
    }
    var hdr := new Byte[HEADER_LEN](i => 0);
    EncodeHeader(FrameHeader(f), hdr);
    ghost var header := HeaderBytes(FrameHeader(f));
    r := WriteAll(fd, hdr[..]);
    if r.Err? {
      ghost var k :| 0 <= k < HEADER_LEN && fd.outgoing == old(fd.outgoing) + header[..k];
      PartOfHeader(f, k);
      return;
    }
    assert fd.outgoing == old(fd.outgoing) + header;
    label body:
    r := WriteAll(fd, f.msg);
    if r.Err? {
      ghost var k :| 0 <= k < |f.msg| && fd.outgoing == old@body(fd.outgoing) + f.msg[..k];
      PartOfPayload(old(fd.outgoing), f, k);
    } else {
      WholeFrame(old(fd.outgoing), f);
    }
  }

  /** Unless the socket breaks, reads the next frame off the stream as `ParseFrame` does. */
  method ReadFrame(fd: Socket) returns (r: Result<Message>)
    modifies fd`script, fd`incoming
    ensures IsTail(fd.script, old(fd.script))
    ensures r == Err(IoError) || (r, fd.incoming) == ParseFrame(old(fd.incoming))
    ensures r == Err(IoError) ==> LastEvent(old(fd.script), fd.script, Broken)
    ensures NeverFails(old(fd.script)) ==> r != Err(IoError)
  {
    var hdr := ReadExact(fd, HEADER_LEN);
    if hdr.Err? {
      return Err(hdr.error);
    }
    var decoded := DecodeHeader(hdr.value);
    if decoded.Err? {
      return Err(decoded.error);
    }
    var len := decoded.value.payloadLen;
    if len == 0 {
      assert fd.incoming[..0] == [] && fd.incoming[0..] == fd.incoming;
      return Ok([]);
    }
    r := ReadExact(fd, len);
  }

  // ---- A sender and a receiver ----

  /** What is on the wire after a sender that stopped: `n` whole frames, and at most part of the next. */
  ghost predicate CutAfter(fs: seq<Frame>, n: nat, wire: seq<Byte>) {
    && n <= |fs| && AllSendable(fs[..n])
    && (wire == Stream(fs[..n])
        || (n < |fs| && Sendable(fs[n])
            && exists k | 0 <= k < |FrameBytes(fs[n])| :: wire == Stream(fs[..n]) + FrameBytes(fs[n])[..k]))
  }

  /** The part of a frame at the end is as good as nothing. */
  lemma ParseCut(fs: seq<Frame>, n: nat, wire: seq<Byte>)
    requires CutAfter(fs, n, wire)
    ensures ParseStream(wire) == (Messages(fs)[..n], Closed)
  {
    assert Messages(fs[..n]) == Messages(fs)[..n];
    if wire == Stream(fs[..n]) {
      StreamRoundTrip(fs[..n]);
    } else {
      var k :| 0 <= k < |FrameBytes(fs[n])| && wire == Stream(fs[..n]) + FrameBytes(fs[n])[..k];
      PartAtTheEnd(fs[..n], fs[n], k);
    }
  }

  /** Sends frames until one fails, or is too large; `n` counts those whose `WriteFrame` returned Ok. */
  method SendFrames(fd: Socket, fs: seq<Frame>) returns (r: Result<()>, n: nat)
    requires fd.outgoing == []
    modifies fd`script, fd`outgoing
    ensures CutAfter(fs, n, fd.outgoing)
    ensures r.Ok? ==> n == |fs|
    ensures r.Err? ==> n < |fs| && (r.error == InvalidArgument <==> !Sendable(fs[n]))
    ensures NeverFails(old(fd.script)) ==> (r.Ok? <==> AllSendable(fs))
  {
    n := 0;
    while n < |fs|
      invariant n <= |fs| && AllSendable(fs[..n]) && fd.outgoing == Stream(fs[..n])
      invariant IsTail(fd.script, old(fd.script))
    {
      r := WriteFrame(fd, fs[n]);
      if r.Err? {
        return;
      }
      assert fs[..n + 1] == fs[..n] + [fs[n]];
      StreamSnoc(fs[..n], fs[n]);
      n := n + 1;
    }
    assert fs[..|fs|] == fs;
    return Ok(()), n;
  }

  /** Receives frames until one fails. */
  method ReceiveFrames(fd: Socket) returns (ms: seq<Message>, e: Error)
    modifies fd`script, fd`incoming
    ensures ms <= ParseStream(old(fd.incoming)).0
    ensures e != IoError ==> ms == ParseStream(old(fd.incoming)).0 && e == ParseStream(old(fd.incoming)).1
    ensures NeverFails(old(fd.script)) ==> e != IoError
  {
    ms := [];
    ghost var ahead := ParseStream(fd.incoming).0;
    while true
      invariant ahead == ParseStream(fd.incoming).0 && ms + ahead == ParseStream(old(fd.incoming)).0
      invariant ParseStream(fd.incoming).1 == ParseStream(old(fd.incoming)).1
      invariant IsTail(fd.script, old(fd.script))
      decreases |fd.incoming|
    {
      StreamUnfolds(fd.incoming);
      var r := ReadFrame(fd);
      if r.Err? {
        assert r.error == IoError || ms + ahead == ms;
        return ms, r.error;
      }
      Shift(ms, r.value, ahead);
      ms := ms + [r.value];
      ahead := ahead[1..];
    }
  }

  lemma Shift(ms: seq<Message>, m: Message, ahead: seq<Message>)
    requires ahead != [] && ahead[0] == m
    ensures ms + ahead == ms + [m] + ahead[1..]
  {
  }

  /**
    A whole conversation, under any chunking, interruption and failure on both sides. The sender stops at
    its first failure, in the middle of a frame perhaps, and closes; the receiver reads until an error. If
    the receiver's socket does not break, what arrives is exactly the `n` messages whose write returned Ok,
    and then a closed connection; if it breaks, a prefix of them.
   */
  method Conversation(fs: seq<Frame>, sending: seq<Event>, receiving: seq<Event>)
    returns (sent: Result<()>, n: nat, ms: seq<Message>, e: Error)
    ensures n <= |fs| && (sent.Ok? <==> n == |fs|)
    ensures sent.Err? ==> (sent.error == InvalidArgument <==> !Sendable(fs[n]))
    ensures e == Closed || e == IoError
    ensures e == Closed ==> ms == Messages(fs)[..n]
    ensures ms <= Messages(fs)[..n]
    ensures NeverFails(sending) ==> (sent.Ok? <==> AllSendable(fs))
    ensures NeverFails(receiving) ==> e == Closed
  {
    var a := new Socket([], sending);
    sent, n := SendFrames(a, fs);
    var b := new Socket(a.outgoing, receiving);
    ms, e := ReceiveFrames(b);
    ParseCut(fs, n, a.outgoing);
  }
}
