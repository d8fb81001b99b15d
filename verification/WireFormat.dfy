/** The framing of a byte stream: a 16-byte header in network byte order, then the payload. */
module WireFormat {
  import opened Common

  const HEADER_LEN: nat := 16
  const MAX_FRAME_PAYLOAD: nat := 65536
  const PROTOCOL_MAGIC: U32 := 0x44554354
  const PROTOCOL_VERSION: U16 := 1

  type U16 = x: int | 0 <= x < 0x1_0000
  type U32 = x: int | 0 <= x < 0x1_0000_0000

  datatype Header = Header(magic: U32, version: U16, headerLen: U16, payloadLen: U32, flags: U32)

  /** A message and the flags it is sent with. */
  datatype Frame = Frame(msg: Message, flags: U32)

  /** The bytes of `htons(x)` and `htonl(x)`, most significant first on any host. */
  function Be16(x: U16): (b: seq<Byte>)
    ensures |b| == 2
  {
    [x / 256, x % 256]
  }

  function Be32(x: U32): (b: seq<Byte>)
    ensures |b| == 4
  {
    Be16(x / 0x1_0000) + Be16(x % 0x1_0000)
  }

  function FromBe16(b: seq<Byte>): U16
    requires |b| == 2
  {
    var hi: int, lo: int := b[0], b[1];
    hi * 256 + lo
  }

  function FromBe32(b: seq<Byte>): U32
    requires |b| == 4
  {
    var hi: int, lo: int := FromBe16(b[..2]), FromBe16(b[2..]);
    hi * 0x1_0000 + lo
  }

  lemma Be32RoundTrip(x: U32)
    ensures FromBe32(Be32(x)) == x
  {
    assert Be32(x)[..2] == Be16(x / 0x1_0000) && Be32(x)[2..] == Be16(x % 0x1_0000);
  }

  lemma Be32Unique(b: seq<Byte>)
    requires |b| == 4
    ensures Be32(FromBe32(b)) == b
  {
    assert b == b[..2] + b[2..];
    var hi: int, lo: int := FromBe16(b[..2]), FromBe16(b[2..]);
    assert (hi * 0x1_0000 + lo) / 0x1_0000 == hi && (hi * 0x1_0000 + lo) % 0x1_0000 == lo;
    assert Be16(hi) == b[..2] && Be16(lo) == b[2..];
  }

  // ---- Headers ----

  function HeaderBytes(h: Header): (b: seq<Byte>)
    ensures |b| == HEADER_LEN
  {
    Be32(h.magic) + Be16(h.version) + Be16(h.headerLen) + Be32(h.payloadLen) + Be32(h.flags)
  }

  function RawHeader(b: seq<Byte>): Header
    requires |b| == HEADER_LEN
  {
    Header(FromBe32(b[0..4]), FromBe16(b[4..6]), FromBe16(b[6..8]), FromBe32(b[8..12]), FromBe32(b[12..16]))
  }

  predicate Acceptable(h: Header) {
    && h.magic == PROTOCOL_MAGIC && h.version == PROTOCOL_VERSION
    && h.headerLen == HEADER_LEN && h.payloadLen <= MAX_FRAME_PAYLOAD
  }

  function ParseHeader(b: seq<Byte>): Result<Header>
    requires |b| == HEADER_LEN
  {
    if Acceptable(RawHeader(b)) then Ok(RawHeader(b)) else Err(ProtocolError)
  }

  /** The last field of a concatenation, and a field that is wholly in the part before it. */
  lemma LastField(front: seq<Byte>, last: seq<Byte>)
    ensures (front + last)[|front|..|front| + |last|] == last
  {
  }

  lemma EarlierField(front: seq<Byte>, last: seq<Byte>, i: nat, j: nat)
    requires i <= j <= |front|
    ensures (front + last)[i..j] == front[i..j]
  {
  }

  lemma FieldsOfBytes(h: Header)
    ensures
      var b := HeaderBytes(h);
      && b[0..4] == Be32(h.magic) && b[4..6] == Be16(h.version) && b[6..8] == Be16(h.headerLen)
      && b[8..12] == Be32(h.payloadLen) && b[12..16] == Be32(h.flags)
  {
    var upTo4 := Be32(h.magic);
    var upTo6 := upTo4 + Be16(h.version);
    var upTo8 := upTo6 + Be16(h.headerLen);
    var upTo12 := upTo8 + Be32(h.payloadLen);
    LastField(upTo12, Be32(h.flags));
    EarlierField(upTo12, Be32(h.flags), 8, 12);
    LastField(upTo8, Be32(h.payloadLen));
    EarlierField(upTo12, Be32(h.flags), 0, 8);
    EarlierField(upTo8, Be32(h.payloadLen), 0, 8);
    FieldsUpTo8(h, upTo8 + Be32(h.payloadLen) + Be32(h.flags));
  }

  lemma FieldsUpTo8(h: Header, b: seq<Byte>)
    requires |b| >= 8 && b[0..8] == Be32(h.magic) + Be16(h.version) + Be16(h.headerLen)
    ensures b[0..4] == Be32(h.magic) && b[4..6] == Be16(h.version) && b[6..8] == Be16(h.headerLen)
  {
    assert b[0..4] == b[0..8][0..4] && b[4..6] == b[0..8][4..6] && b[6..8] == b[0..8][6..8];
  }

  lemma RawOfBytes(h: Header)
    ensures RawHeader(HeaderBytes(h)) == h
  {
    FieldsOfBytes(h);
    Be32RoundTrip(h.magic);
    Be32RoundTrip(h.payloadLen);
    Be32RoundTrip(h.flags);
  }

  lemma BytesOfRaw(b: seq<Byte>)
    requires |b| == HEADER_LEN
    ensures HeaderBytes(RawHeader(b)) == b
  {
    Be32Unique(b[0..4]);
    Be32Unique(b[8..12]);
    Be32Unique(b[12..16]);
    assert Be16(FromBe16(b[4..6])) == b[4..6];
    assert Be16(FromBe16(b[6..8])) == b[6..8];
  }

  /** A header survives the trip exactly when it is acceptable; any other is refused. */
  lemma HeaderRoundTrip(h: Header)
    ensures ParseHeader(HeaderBytes(h)) == if Acceptable(h) then Ok(h) else Err(ProtocolError)
  {
    RawOfBytes(h);
  }

  /** Only canonical bytes are accepted: re-encoding what was decoded gives the same 16 bytes. */
  lemma HeaderCanonical(b: seq<Byte>)
    requires |b| == HEADER_LEN
    ensures ParseHeader(b).Ok? ==> HeaderBytes(ParseHeader(b).value) == b
    ensures ParseHeader(b).Ok? <==> exists h :: Acceptable(h) && HeaderBytes(h) == b
  {
    BytesOfRaw(b);
    forall h | Acceptable(h) && HeaderBytes(h) == b
      ensures ParseHeader(b).Ok?
    {
      RawOfBytes(h);
    }
  }

  /** Two and four bytes, most significant first, and the numbers they stand for. */
  lemma BigEndian(x: U16, y: U32)
    ensures (Be16(x)[0] as int) * 256 + Be16(x)[1] == x
    ensures
      var b := Be32(y);
      (b[0] as int) * 0x100_0000 + (b[1] as int) * 0x1_0000 + (b[2] as int) * 256 + b[3] == y
  {
    assert Be32(y)[0] == Be16(y / 0x1_0000)[0] && Be32(y)[1] == Be16(y / 0x1_0000)[1];
    assert Be32(y)[2] == Be16(y % 0x1_0000)[0] && Be32(y)[3] == Be16(y % 0x1_0000)[1];
  }

  lemma SliceAt(b: seq<Byte>, i: nat, part: seq<Byte>)
    requires i + |part| <= |b| && b[i..i + |part|] == part
    ensures forall k | 0 <= k < |part| :: part[k] == b[i + k]
  {
  }

  /** Where each field of a header is, and in what order its bytes are. */
  lemma NetworkOrder(h: Header)
    ensures
      var b := HeaderBytes(h);
      && h.magic == (b[0] as int) * 0x100_0000 + (b[1] as int) * 0x1_0000 + (b[2] as int) * 256 + b[3]
      && h.version == (b[4] as int) * 256 + b[5]
      && h.headerLen == (b[6] as int) * 256 + b[7]
      && h.payloadLen == (b[8] as int) * 0x100_0000 + (b[9] as int) * 0x1_0000 + (b[10] as int) * 256 + b[11]
      && h.flags == (b[12] as int) * 0x100_0000 + (b[13] as int) * 0x1_0000 + (b[14] as int) * 256 + b[15]
  {
    var b := HeaderBytes(h);
    FieldsOfBytes(h);
    SliceAt(b, 0, Be32(h.magic));
    SliceAt(b, 4, Be16(h.version));
    SliceAt(b, 6, Be16(h.headerLen));
    SliceAt(b, 8, Be32(h.payloadLen));
    SliceAt(b, 12, Be32(h.flags));
    BigEndian(h.version, h.magic);
    BigEndian(h.headerLen, h.payloadLen);
    BigEndian(0, h.flags);
  }

  // ---- Frames and streams ----

  ghost predicate Sendable(f: Frame) {
    |f.msg| <= MAX_FRAME_PAYLOAD
  }

  function FrameHeader(f: Frame): Header
    requires |f.msg| <= MAX_FRAME_PAYLOAD
  {
    Header(PROTOCOL_MAGIC, PROTOCOL_VERSION, HEADER_LEN, |f.msg|, f.flags)
  }

  function FrameBytes(f: Frame): seq<Byte>
    requires |f.msg| <= MAX_FRAME_PAYLOAD
  {
    HeaderBytes(FrameHeader(f)) + f.msg
  }

  ghost predicate AllSendable(fs: seq<Frame>) {
    forall i | 0 <= i < |fs| :: Sendable(fs[i])
  }

  ghost function Stream(fs: seq<Frame>): seq<Byte>
    requires AllSendable(fs)
  {
    if fs == [] then [] else FrameBytes(fs[0]) + Stream(fs[1..])
  }

  /** What `read_frame` makes of the rest of a stream that ends: its result, and what it leaves unread. */
  function ParseFrame(s: seq<Byte>): (r: (Result<Message>, seq<Byte>))
    ensures r.0.Ok? ==> |r.1| + HEADER_LEN <= |s|
  {
    if |s| < HEADER_LEN then (Err(Closed), [])
    else
      match ParseHeader(s[..HEADER_LEN])
      case Err(e) => (Err(e), s[HEADER_LEN..])
      case Ok(h) =>
        var body := s[HEADER_LEN..];
        if |body| < h.payloadLen then (Err(Closed), [])
        else (Ok(body[..h.payloadLen]), body[h.payloadLen..])
  }

  /** What reading frames until the first error gives: the messages, and that error. */
  function ParseStream(s: seq<Byte>): (seq<Message>, Error)
    decreases |s|
  {
    var (r, rest) := ParseFrame(s);
    match r
    case Err(e) => ([], e)
    case Ok(m) =>
      var (ms, e) := ParseStream(rest);
      ([m] + ms, e)
  }

  lemma StreamUnfolds(s: seq<Byte>)
    ensures ParseFrame(s).0.Err? ==> ParseStream(s).0 == [] && ParseStream(s).1 == ParseFrame(s).0.error
    ensures ParseFrame(s).0.Ok? ==>
      && ParseStream(s).0 == [ParseFrame(s).0.value] + ParseStream(ParseFrame(s).1).0
      && ParseStream(s).1 == ParseStream(ParseFrame(s).1).1
  {
  }

  function Messages(fs: seq<Frame>): seq<Message> {
    seq(|fs|, i requires 0 <= i < |fs| => fs[i].msg)
  }

  /** A frame on the wire: "DUCT", version 1, header length 16, the payload's length, the flags, the payload. */
  lemma FrameLayout(f: Frame)
    requires Sendable(f)
    ensures
      var b := FrameBytes(f);
      && |b| == 16 + |f.msg| && b[16..] == f.msg
      && b[0] == 'D' as int && b[1] == 'U' as int && b[2] == 'C' as int && b[3] == 'T' as int
      && b[4] == 0 && b[5] == 1 && b[6] == 0 && b[7] == 16
      && |f.msg| == (b[8] as int) * 0x100_0000 + (b[9] as int) * 0x1_0000 + (b[10] as int) * 256 + b[11]
      && f.flags == (b[12] as int) * 0x100_0000 + (b[13] as int) * 0x1_0000 + (b[14] as int) * 256 + b[15]
  {
    var h := FrameHeader(f);
    var b := FrameBytes(f);
    NetworkOrder(h);
    TakenApart(HeaderBytes(h), f.msg);
    assert forall k | 0 <= k < 16 :: b[k] == HeaderBytes(h)[k];
    MagicBytes(b[0], b[1], b[2], b[3]);
  }

  lemma MagicBytes(b0: Byte, b1: Byte, b2: Byte, b3: Byte)
    requires (b0 as int) * 0x100_0000 + (b1 as int) * 0x1_0000 + (b2 as int) * 256 + b3 == PROTOCOL_MAGIC
    ensures b0 == 'D' as int && b1 == 'U' as int && b2 == 'C' as int && b3 == 'T' as int
  {
  }

  /** How many frames are wholly inside the first `k` bytes of their stream. */
  ghost function Whole(fs: seq<Frame>, k: int): (n: nat)
    requires AllSendable(fs)
    ensures n <= |fs|
  {
    if fs == [] || k < |FrameBytes(fs[0])| then 0 else 1 + Whole(fs[1..], k - |FrameBytes(fs[0])|)
  }

  /** `Whole` is what it says: its frames fit in `k` bytes, and one more would not. */
  lemma {:induction false} WholeIsMaximal(fs: seq<Frame>, k: nat)
    requires AllSendable(fs)
    ensures |Stream(fs[..Whole(fs, k)])| <= k
    ensures Whole(fs, k) < |fs| ==> |Stream(fs[..Whole(fs, k) + 1])| > k
  {
    if fs == [] {
    } else if k < |FrameBytes(fs[0])| {
      assert fs[..1][1..] == [];
    } else {
      WholeIsMaximal(fs[1..], k - |FrameBytes(fs[0])|);
      var n := Whole(fs[1..], k - |FrameBytes(fs[0])|);
      assert fs[..n + 1][1..] == fs[1..][..n];
      if n + 1 < |fs| { assert fs[..n + 2][1..] == fs[1..][..n + 1]; }
    }
  }

  /** A whole frame at the front is read, and the rest is left as it was. */
  lemma ParseWholeFrame(f: Frame, rest: seq<Byte>)
    requires Sendable(f)
    ensures ParseFrame(FrameBytes(f) + rest) == (Ok(f.msg), rest)
  {
    var s := FrameBytes(f) + rest;
    assert s[..HEADER_LEN] == HeaderBytes(FrameHeader(f));
    HeaderRoundTrip(FrameHeader(f));
    assert s[HEADER_LEN..] == f.msg + rest;
  }

  /** `s` begins with the frame `f`, and `rest` follows. */
  ghost predicate BeginsWith(s: seq<Byte>, f: Frame, rest: seq<Byte>) {
    Sendable(f) && s == FrameBytes(f) + rest
  }

  /** The first sixteen bytes are no header that anybody would send. */
  ghost predicate BadHeader(s: seq<Byte>) {
    |s| >= 16 && forall h :: Acceptable(h) ==> HeaderBytes(h) != s[..16]
  }

  lemma SplitsAsFrame(s: seq<Byte>, h: Header)
    requires |s| >= HEADER_LEN && Acceptable(h) && s[..HEADER_LEN] == HeaderBytes(h)
    requires |s| - HEADER_LEN >= h.payloadLen
    ensures
      var f := Frame(s[HEADER_LEN..HEADER_LEN + h.payloadLen], h.flags);
      Sendable(f) && FrameHeader(f) == h && s == FrameBytes(f) + s[HEADER_LEN + h.payloadLen..]
  {
    assert s == s[..HEADER_LEN] + s[HEADER_LEN..HEADER_LEN + h.payloadLen] + s[HEADER_LEN + h.payloadLen..];
  }

  /** A bad header is refused, and its sixteen bytes are gone. */
  lemma BadHeaderRefused(s: seq<Byte>)
    requires |s| >= HEADER_LEN
    ensures BadHeader(s) <==> ParseHeader(s[..HEADER_LEN]).Err?
    ensures BadHeader(s) ==> ParseFrame(s) == (Err(ProtocolError), s[HEADER_LEN..])
  {
    HeaderCanonical(s[..HEADER_LEN]);
  }

  /**
    What `read_frame` makes of any bytes at all. It returns a message exactly if a frame is there, and then
    that frame's, leaving what follows; a protocol error exactly if a bad header is there; and otherwise, with
    too few bytes for a header or for its payload, it reports a closed connection.
   */
  lemma FrameReads(s: seq<Byte>)
    ensures ParseFrame(s).0.Ok? <==> exists f, rest :: BeginsWith(s, f, rest)
    ensures forall f, rest | BeginsWith(s, f, rest) :: ParseFrame(s) == (Ok(f.msg), rest)
    ensures ParseFrame(s).0 == Err(ProtocolError) <==> BadHeader(s)
    ensures BadHeader(s) ==> ParseFrame(s).1 == s[16..]
    ensures ParseFrame(s).0.Err? ==> ParseFrame(s).0.error == ProtocolError || ParseFrame(s) == (Err(Closed), [])
  {
    if |s| >= HEADER_LEN {
      BadHeaderRefused(s);
      HeaderCanonical(s[..HEADER_LEN]);
      if ParseFrame(s).0.Ok? {
        var h := ParseHeader(s[..HEADER_LEN]).value;
        SplitsAsFrame(s, h);
        assert BeginsWith(s, Frame(s[HEADER_LEN..HEADER_LEN + h.payloadLen], h.flags), s[HEADER_LEN + h.payloadLen..]);
      }
    }
    forall f, rest | BeginsWith(s, f, rest)
      ensures ParseFrame(s) == (Ok(f.msg), rest)
    {
      ParseWholeFrame(f, rest);
    }
  }

  /** Part of a frame at the end of the stream reads as a closed connection. */
  lemma ParsePartFrame(f: Frame, k: nat)
    requires Sendable(f) && k < |FrameBytes(f)|
    ensures ParseFrame(FrameBytes(f)[..k]) == (Err(Closed), [])
  {
    var s := FrameBytes(f)[..k];
    if k >= HEADER_LEN {
      assert s[..HEADER_LEN] == HeaderBytes(FrameHeader(f));
      HeaderRoundTrip(FrameHeader(f));
    }
  }

  /** Reading one frame off the front, then the rest. */
  lemma ParseOneMore(f: Frame, rest: seq<Byte>)
    requires Sendable(f)
    ensures ParseStream(FrameBytes(f) + rest) == ([f.msg] + ParseStream(rest).0, ParseStream(rest).1)
  {
    ParseWholeFrame(f, rest);
  }

  lemma CutInFirst(fs: seq<Frame>, k: nat)
    requires AllSendable(fs) && fs != [] && k < |FrameBytes(fs[0])|
    ensures k <= |Stream(fs)| && ParseStream(Stream(fs)[..k]).0 == [] && ParseStream(Stream(fs)[..k]).1 == Closed
  {
    assert Stream(fs)[..k] == FrameBytes(fs[0])[..k];
    ParsePartFrame(fs[0], k);
  }

  lemma MessagesCons(fs: seq<Frame>, w: nat)
    requires fs != [] && w <= |fs| - 1
    ensures Messages(fs)[..w + 1] == [fs[0].msg] + Messages(fs[1..])[..w]
  {
  }

  /** The first frame and what the cut leaves of the rest. */
  lemma CutRest(fs: seq<Frame>, k: nat)
    requires AllSendable(fs) && fs != [] && |FrameBytes(fs[0])| <= k <= |Stream(fs)|
    ensures Stream(fs)[..k] == FrameBytes(fs[0]) + Stream(fs[1..])[..k - |FrameBytes(fs[0])|]
  {
  }

  lemma CutAfterFirst(fs: seq<Frame>, k: nat, w: nat)
    requires AllSendable(fs) && fs != [] && |FrameBytes(fs[0])| <= k <= |Stream(fs)| && w < |fs|
    requires ParseStream(Stream(fs[1..])[..k - |FrameBytes(fs[0])|]).0 == Messages(fs[1..])[..w]
    ensures ParseStream(Stream(fs)[..k]).0 == Messages(fs)[..w + 1]
    ensures ParseStream(Stream(fs)[..k]).1 == ParseStream(Stream(fs[1..])[..k - |FrameBytes(fs[0])|]).1
  {
    CutRest(fs, k);
    ParseOneMore(fs[0], Stream(fs[1..])[..k - |FrameBytes(fs[0])|]);
    MessagesCons(fs, w);
  }

  /**
    However a stream of frames is cut, reading it yields exactly the frames that are wholly there, and
    then that the peer has closed.
   */
  lemma {:induction false} TruncatedStream(fs: seq<Frame>, k: nat)
    requires AllSendable(fs) && k <= |Stream(fs)|
    ensures ParseStream(Stream(fs)[..k]).0 == Messages(fs)[..Whole(fs, k)]
    ensures ParseStream(Stream(fs)[..k]).1 == Closed
  {
    if fs == [] {
      assert Stream(fs)[..k] == [];
    } else if k < |FrameBytes(fs[0])| {
      CutInFirst(fs, k);
    } else {
      TruncatedStream(fs[1..], k - |FrameBytes(fs[0])|);
      CutAfterFirst(fs, k, Whole(fs[1..], k - |FrameBytes(fs[0])|));
    }
  }

  /** Uncut, every message comes back. */
  lemma StreamRoundTrip(fs: seq<Frame>)
    requires AllSendable(fs)
    ensures ParseStream(Stream(fs)).0 == Messages(fs) && ParseStream(Stream(fs)).1 == Closed
  {
    TruncatedStream(fs, |Stream(fs)|);
    WholeOfAll(fs);
    assert Stream(fs)[..|Stream(fs)|] == Stream(fs);
    assert Messages(fs)[..|fs|] == Messages(fs);
  }

  lemma {:induction false} WholeOfAll(fs: seq<Frame>)
    requires AllSendable(fs)
    ensures Whole(fs, |Stream(fs)|) == |fs|
  {
    if fs == [] {
    } else {
      WholeOfAll(fs[1..]);
    }
  }

  lemma {:induction false} StreamSnoc(fs: seq<Frame>, f: Frame)
    requires AllSendable(fs) && Sendable(f)
    ensures AllSendable(fs + [f]) && Stream(fs + [f]) == Stream(fs) + FrameBytes(f)
  {
    if fs == [] {
      assert [f][1..] == [];
    } else {
      StreamSnoc(fs[1..], f);
      assert (fs + [f])[1..] == fs[1..] + [f];
    }
  }

  lemma {:induction false} WholeOfPart(fs: seq<Frame>, f: Frame, k: nat)
    requires AllSendable(fs) && Sendable(f) && k < |FrameBytes(f)|
    ensures AllSendable(fs + [f]) && Whole(fs + [f], |Stream(fs)| + k) == |fs|
  {
    if fs == [] {
      assert [] + [f] == [f];
    } else {
      WholeOfPart(fs[1..], f, k);
      assert (fs + [f])[1..] == fs[1..] + [f];
    }
  }

  lemma CutInLast(a: seq<Byte>, b: seq<Byte>, k: nat)
    requires k <= |b|
    ensures (a + b)[..|a| + k] == a + b[..k]
  {
  }

  lemma MessagesSnoc(fs: seq<Frame>, f: Frame)
    ensures Messages(fs + [f])[..|fs|] == Messages(fs)
  {
  }

  lemma ReadsWholeOnes(fs: seq<Frame>, k: nat, n: nat)
    requires AllSendable(fs) && k <= |Stream(fs)| && n == Whole(fs, k)
    ensures ParseStream(Stream(fs)[..k]) == (Messages(fs)[..n], Closed)
  {
    TruncatedStream(fs, k);
  }

  /** Whole frames and then part of one read as the whole ones, then closed. */
  lemma PartAtTheEnd(fs: seq<Frame>, f: Frame, k: nat)
    requires AllSendable(fs) && Sendable(f) && k < |FrameBytes(f)|
    ensures ParseStream(Stream(fs) + FrameBytes(f)[..k]) == (Messages(fs), Closed)
  {
    var all, bytes, last := fs + [f], Stream(fs), FrameBytes(f);
    StreamSnoc(fs, f);
    WholeOfPart(fs, f, k);
    ReadsWholeOnes(all, |bytes| + k, |fs|);
    CutInLast(bytes, last, k);
    MessagesSnoc(fs, f);
  }

  /** Whole frames, and then something that is none. */
  ghost predicate ReadsUpTo(s: seq<Byte>, fs: seq<Frame>, tail: seq<Byte>) {
    AllSendable(fs) && s == Stream(fs) + tail && forall f, rest :: !BeginsWith(tail, f, rest)
  }

  /**
    Any bytes at all, read to the first error: the messages of the whole frames at the front, and then a
    protocol error if a bad header follows them, and a closed connection otherwise.
   */
  lemma {:induction false} AnyStream(s: seq<Byte>) returns (fs: seq<Frame>, tail: seq<Byte>)
    ensures ReadsUpTo(s, fs, tail)
    ensures ParseStream(s) == (Messages(fs), if BadHeader(tail) then ProtocolError else Closed)
    decreases |s|
  {
    FrameReads(s);
    if ParseFrame(s).0.Err? {
      fs, tail := [], s;
      assert Messages(fs) == [];
      assert Stream(fs) + s == s;
    } else {
      var f, rest :| BeginsWith(s, f, rest);
      var gs: seq<Frame>;
      gs, tail := AnyStream(rest);
      fs := [f] + gs;
      OneMoreFrame(f, gs, tail);
      ParseOneMore(f, rest);
    }
  }

  lemma OneMoreFrame(f: Frame, gs: seq<Frame>, tail: seq<Byte>)
    requires Sendable(f) && AllSendable(gs)
    ensures AllSendable([f] + gs) && Stream([f] + gs) + tail == FrameBytes(f) + (Stream(gs) + tail)
    ensures Messages([f] + gs) == [f.msg] + Messages(gs)
  {
    TailOfCons(f, gs);
    Regroup(FrameBytes(f), Stream(gs), tail);
  }
}
