/** The Envoy frame layout and what its parser computes. The slice payload[at:end] the program passes
    on is the payload with the positions at and end. */
module EnvoyModel {
  import opened Bytes
  import opened BigEndian

  const HEADER_LEN: nat := 28
  const MAX_MESSAGE_LEN: nat := 1024 * 1024 * 16
  const MAGIC: nat := 0x454E5659
  const TYPE_DATA: byte := 1

  datatype Header = Header(
    magic: nat, version: byte, kind: byte, flags: byte, streamId: nat, length: nat, timestamp: nat, checksum: nat)

  datatype Message = Message(header: Header, payload: Bytes, isRequest: bool, isUDP: bool)

  datatype Result<T> = Ok(value: T) | Err(why: string)

  /** The header fields; the checksum is read from the four bytes behind the header if there are any. */
  function ReadHeader(p: Bytes, at: nat, end: nat): Header
    requires at + HEADER_LEN <= end <= |p|
  {
    Header(Number(p, at, 4), p[at + 4], p[at + 5], p[at + 6], Number(p, at + 8, 8), Number(p, at + 16, 4),
           Number(p, at + 20, 8), if end - at >= 32 then Number(p, at + 28, 4) else 0)
  }

  function ParseHeader(p: Bytes, at: nat, end: nat): Result<Header>
    requires at <= end <= |p|
  {
    if end - at < HEADER_LEN then Err("invalid header size")
    else
      var h := ReadHeader(p, at, end);
      if h.magic != MAGIC then Err("invalid Envoy magic")
      else if h.length > MAX_MESSAGE_LEN then Err("message too large")
      else Ok(h)
  }

  predicate StartsWithThree(s: Bytes, a: char, b: char, c: char)
    requires |s| >= 3 && a < 128 as char && b < 128 as char && c < 128 as char
  {
    s[0] == a as byte && s[1] == b as byte && s[2] == c as byte
  }

  function IsRequest(h: Header, payload: Bytes): bool {
    if h.flags / 2 % 2 != 0 then false
    else if |payload| > 4 && (|| StartsWithThree(payload, 'G', 'E', 'T')
                              || (StartsWithThree(payload, 'P', 'O', 'S') && payload[3] == 'T' as byte)
                              || StartsWithThree(payload, 'P', 'U', 'T')
                              || StartsWithThree(payload, 'D', 'E', 'L')) then true
    else if |payload| > 4 && StartsWithThree(payload, 'H', 'T', 'T') && payload[3] == 'P' as byte then false
    else h.kind == TYPE_DATA
  }

  /** The payload a header announces, cut off where the buffer ends. */
  function Body(p: Bytes, at: nat, end: nat, length: nat): Bytes
    requires at + HEADER_LEN <= end <= |p|
  {
    p[at + HEADER_LEN..if at + HEADER_LEN + length > end then end else at + HEADER_LEN + length]
  }

  function Parse(p: Bytes, at: nat, end: nat): Result<Message>
    requires at <= end <= |p|
  {
    if end - at < HEADER_LEN then Err("payload too small for Envoy header")
    else
      match ParseHeader(p, at, end)
      case Err(why) => Err(why)
      case Ok(h) =>
        var payload := if h.length > 0 then Body(p, at, end, h.length) else [];
        Ok(Message(h, payload, IsRequest(h, payload), h.flags % 2 != 0))
  }

  /** The messages from position at on; after a frame that cannot be parsed the program tries the next byte. */
  function ParseStream(p: Bytes, at: nat): seq<Message>
    requires at <= |p|
    decreases |p| - at
  {
    if at == |p| || |p| - at < HEADER_LEN then []
    else
      match ParseHeader(p, at, |p|)
      case Err(_) => []
      case Ok(h) =>
        var next := at + HEADER_LEN + h.length;
        if next > |p| then []
        else
          match Parse(p, at, next)
          case Err(_) => ParseStream(p, at + 1)
          case Ok(msg) => [msg] + ParseStream(p, next)
  }

  function ParseMultiple(p: Bytes): seq<Message> { ParseStream(p, 0) }

  function ExtractInnerPayload(p: Bytes): Bytes {
    if |p| < HEADER_LEN then p
    else
      match ParseHeader(p, 0, |p|)
      case Err(_) => p
      case Ok(h) => Body(p, 0, |p|, h.length)
  }

  /** A whole frame with an acceptable header starts at this position. */
  predicate FrameStarts(p: Bytes, at: nat) {
    && at + HEADER_LEN <= |p| && ParseHeader(p, at, |p|).Ok?
    && at + HEADER_LEN + ParseHeader(p, at, |p|).value.length <= |p|
  }

  // ---------- the recovery branch ----------

  /** A frame that is complete and has an acceptable header always parses: the branch that skips a
      byte is never taken. */
  lemma RecoveryUnreachable(p: Bytes, at: nat)
    requires FrameStarts(p, at)
    ensures Parse(p, at, at + HEADER_LEN + ParseHeader(p, at, |p|).value.length).Ok?
  {
  }

  lemma StreamStep(p: Bytes, at: nat, next: nat, msg: Message)
    requires FrameStarts(p, at) && next == at + HEADER_LEN + ParseHeader(p, at, |p|).value.length
    requires Parse(p, at, next) == Ok(msg)
    ensures ParseStream(p, at) == [msg] + ParseStream(p, next)
  {
    hide ReadHeader, Body, IsRequest;
  }

  // ---------- frames and their encoding ----------

  /** What a sender puts on the wire; the byte after the flags is never read. */
  datatype Frame = Frame(version: byte, kind: byte, flags: byte, reserved: byte, streamId: nat, timestamp: nat, payload: Bytes)
  {
    predicate Valid() {
      streamId < 0x1_0000_0000_0000_0000 && timestamp < 0x1_0000_0000_0000_0000 && |payload| <= MAX_MESSAGE_LEN
    }
  }

  function EncodeHeader(f: Frame): (s: Bytes)
    ensures |s| == HEADER_LEN
  {
    BytesOf(MAGIC, 4) + [f.version, f.kind, f.flags, f.reserved] + BytesOf(f.streamId, 8) +
    BytesOf(|f.payload|, 4) + BytesOf(f.timestamp, 8)
  }

  function Encode(f: Frame): (s: Bytes)
    ensures |s| == HEADER_LEN + |f.payload|
  {
    EncodeHeader(f) + f.payload
  }

  function EncodeAll(fs: seq<Frame>): Bytes {
    if fs == [] then [] else Encode(fs[0]) + EncodeAll(fs[1..])
  }

  /** The message a frame stands for. Its checksum field overlaps the payload. */
  function MessageOf(f: Frame): Message {
    var h := Header(MAGIC, f.version, f.kind, f.flags, f.streamId, |f.payload|, f.timestamp,
                    if |f.payload| >= 4 then Number(f.payload, 0, 4) else 0);
    Message(h, f.payload, IsRequest(h, f.payload), f.flags % 2 != 0)
  }

  predicate Starts(payload: Bytes, text: string) {
    |text| <= |payload| && forall i :: 0 <= i < |text| ==> payload[i] as int == text[i] as int
  }

  /** The message of a frame has the frame's fields. It is a request if the second lowest bit of the flags is clear, and
      either a payload of more than four bytes starts like an HTTP request, or it does not start like a response and
      the frame carries data. The lowest bit of the flags says UDP. */
  lemma MessageSays(f: Frame)
    ensures var m, p := MessageOf(f), f.payload;
            var long := |p| > 4;
            && m.payload == p && m.header.version == f.version && m.header.kind == f.kind && m.header.flags == f.flags
            && m.header.streamId == f.streamId && m.header.timestamp == f.timestamp && m.header.length == |p|
            && (m.isUDP <==> f.flags % 2 == 1)
            && (m.isRequest <==>
                  f.flags % 4 < 2 &&
                  if long && (Starts(p, "GET") || Starts(p, "POST") || Starts(p, "PUT") || Starts(p, "DEL")) then true
                  else !(long && Starts(p, "HTTP")) && f.kind == 1)
  {
    assert f.flags / 2 % 2 != 0 <==> f.flags % 4 >= 2;
    if |f.payload| > 4 {
      StartsIs(f.payload);
    }
  }

  lemma StartsIs(p: Bytes)
    requires |p| > 4
    ensures Starts(p, "GET") <==> StartsWithThree(p, 'G', 'E', 'T')
    ensures Starts(p, "POST") <==> StartsWithThree(p, 'P', 'O', 'S') && p[3] == 'T' as byte
    ensures Starts(p, "PUT") <==> StartsWithThree(p, 'P', 'U', 'T')
    ensures Starts(p, "DEL") <==> StartsWithThree(p, 'D', 'E', 'L')
    ensures Starts(p, "HTTP") <==> StartsWithThree(p, 'H', 'T', 'T') && p[3] == 'P' as byte
  {
  }

  function MessagesOf(fs: seq<Frame>): seq<Message> {
    if fs == [] then [] else [MessageOf(fs[0])] + MessagesOf(fs[1..])
  }

  // ---------- reading what was printed ----------

  lemma Part(p: Bytes, at: nat, a: Bytes, b: Bytes, c: Bytes, mid: nat)
    requires Holds(p, at, a + b + c) && mid == at + |a|
    ensures Holds(p, mid, b)
  {
    forall i | 0 <= i < |b|
      ensures p[mid + i] == b[i]
    {
      assert p[at + (|a| + i)] == (a + b + c)[|a| + i];
    }
  }

  lemma NumberPart(p: Bytes, at: nat, a: Bytes, v: nat, n: nat, c: Bytes, mid: nat)
    requires Holds(p, at, a + BytesOf(v, n) + c) && mid == at + |a| && v < Pow256(n)
    ensures mid + n <= |p| && Number(p, mid, n) == v
  {
    Part(p, at, a, BytesOf(v, n), c, mid);
    NumberOfBytes(p, mid, v, n);
  }

  lemma HeaderStart(p: Bytes, at: nat, f: Frame)
    requires f.Valid() && Holds(p, at, EncodeHeader(f))
    ensures Number(p, at, 4) == MAGIC && p[at + 4] == f.version && p[at + 5] == f.kind && p[at + 6] == f.flags
  {
    Widths();
    hide BytesOf, Number, Pow256;
    var bytes := [f.version, f.kind, f.flags, f.reserved];
    var rest := BytesOf(f.streamId, 8) + BytesOf(|f.payload|, 4) + BytesOf(f.timestamp, 8);
    assert EncodeHeader(f) == BytesOf(MAGIC, 4) + bytes + rest;
    assert EncodeHeader(f) == [] + BytesOf(MAGIC, 4) + (bytes + rest);
    NumberPart(p, at, [], MAGIC, 4, bytes + rest, at);
    Part(p, at, BytesOf(MAGIC, 4), bytes, rest, at + 4);
    assert p[at + 4 + 0] == bytes[0] && p[at + 4 + 1] == bytes[1] && p[at + 4 + 2] == bytes[2];
  }

  lemma HeaderNumbers(p: Bytes, at: nat, f: Frame)
    requires f.Valid() && Holds(p, at, EncodeHeader(f))
    ensures Number(p, at + 8, 8) == f.streamId && Number(p, at + 16, 4) == |f.payload| && Number(p, at + 20, 8) == f.timestamp
  {
    Widths();
    hide BytesOf, Number, Pow256, Holds;
    var a := BytesOf(MAGIC, 4) + [f.version, f.kind, f.flags, f.reserved];
    var id, len, time := BytesOf(f.streamId, 8), BytesOf(|f.payload|, 4), BytesOf(f.timestamp, 8);
    assert EncodeHeader(f) == a + id + (len + time);
    NumberPart(p, at, a, f.streamId, 8, len + time, at + 8);
    assert EncodeHeader(f) == a + id + len + time;
    NumberPart(p, at, a + id, |f.payload|, 4, time, at + 16);
    assert EncodeHeader(f) == a + id + len + time + [];
    NumberPart(p, at, a + id + len, f.timestamp, 8, [], at + 20);
  }

  lemma {:induction false} NumberMoves(p: Bytes, at: nat, q: Bytes, n: nat)
    requires Holds(p, at, q) && n <= |q|
    ensures Number(p, at, n) == Number(q, 0, n)
  {
    if n > 0 {
      NumberMoves(p, at, q, n - 1);
      assert p[at + (n - 1)] == q[n - 1];
    }
  }

  lemma HeaderRead(p: Bytes, at: nat, f: Frame, end: nat)
    requires f.Valid() && Holds(p, at, Encode(f)) && at + |Encode(f)| <= end <= |p|
    ensures ParseHeader(p, at, end) == Ok(ReadHeader(p, at, end))
    ensures ReadHeader(p, at, end) == MessageOf(f).header.(checksum := ReadHeader(p, at, end).checksum)
  {
    HoldsParts(p, at, EncodeHeader(f), f.payload, at + HEADER_LEN);
    HeaderStart(p, at, f);
    HeaderNumbers(p, at, f);
  }

  lemma ChecksumRead(p: Bytes, at: nat, f: Frame, next: nat)
    requires Holds(p, at, Encode(f)) && next == at + |Encode(f)|
    ensures ReadHeader(p, at, next).checksum == MessageOf(f).header.checksum
    ensures Body(p, at, next, |f.payload|) == f.payload
  {
    HoldsParts(p, at, EncodeHeader(f), f.payload, at + HEADER_LEN);
    HoldsSlice(p, at + HEADER_LEN, f.payload, next);
    if |f.payload| >= 4 {
      NumberMoves(p, at + HEADER_LEN, f.payload, 4);
    }
  }

  /** A printed frame is recognized and read back exactly. */
  lemma FrameRead(p: Bytes, at: nat, f: Frame, next: nat)
    requires f.Valid() && Holds(p, at, Encode(f)) && next == at + |Encode(f)|
    ensures FrameStarts(p, at) && ParseHeader(p, at, |p|).value.length == |f.payload|
    ensures Parse(p, at, next) == Ok(MessageOf(f))
  {
    HeaderRead(p, at, f, |p|);
    HeaderRead(p, at, f, next);
    ChecksumRead(p, at, f, next);
  }

  // ---------- streams ----------

  lemma {:induction false} StreamRead(p: Bytes, at: nat, fs: seq<Frame>, next: nat)
    requires (forall f <- fs :: f.Valid()) && Holds(p, at, EncodeAll(fs)) && next == at + |EncodeAll(fs)|
    ensures ParseStream(p, at) == MessagesOf(fs) + ParseStream(p, next)
    decreases |fs|
  {
    hide Parse, ParseHeader, FrameStarts, ReadHeader, Encode, EncodeHeader, MessageOf, Holds;
    if fs != [] {
      var f, rest := fs[0], fs[1..];
      var mid := at + |Encode(f)|;
      HoldsParts(p, at, Encode(f), EncodeAll(rest), mid);
      FrameRead(p, at, f, mid);
      StreamStep(p, at, mid, MessageOf(f));
      StreamRead(p, mid, rest, next);
      Regroup([MessageOf(f)], MessagesOf(rest), ParseStream(p, next));
    }
  }

  /** A list of frames followed by anything that does not start with a whole frame is returned exactly. */
  lemma {:induction false} FramesRead(fs: seq<Frame>, tail: Bytes)
    requires forall f <- fs :: f.Valid()
    requires !FrameStarts(EncodeAll(fs) + tail, |EncodeAll(fs)|)
    ensures ParseMultiple(EncodeAll(fs) + tail) == MessagesOf(fs)
  {
    var p := EncodeAll(fs) + tail;
    assert Holds(p, 0, EncodeAll(fs));
    StreamRead(p, 0, fs, |EncodeAll(fs)|);
  }

  // ---------- every buffer is frames and a rest ----------

  /** The frame that starts at a position. */
  function FrameAt(p: Bytes, at: nat): Frame
    requires FrameStarts(p, at)
  {
    var h := ReadHeader(p, at, |p|);
    Frame(h.version, h.kind, h.flags, p[at + 7], h.streamId, h.timestamp, p[at + HEADER_LEN..at + HEADER_LEN + h.length])
  }

  /** What a frame's checks and fields say about its bytes. */
  lemma FrameAtFields(p: Bytes, at: nat)
    requires FrameStarts(p, at)
    ensures var f := FrameAt(p, at);
            && at + HEADER_LEN + |f.payload| <= |p| && |f.payload| <= MAX_MESSAGE_LEN
            && Number(p, at, 4) == MAGIC && Number(p, at + 8, 8) == f.streamId
            && Number(p, at + 16, 4) == |f.payload| && Number(p, at + 20, 8) == f.timestamp
            && Holds(p, at + 4, [f.version, f.kind, f.flags, f.reserved]) && Holds(p, at + HEADER_LEN, f.payload)
  {
    hide Number;
  }

  /** Decoding a frame and encoding it again gives the bytes it was read from. */
  lemma FrameAtEncodes(p: Bytes, at: nat)
    requires FrameStarts(p, at)
    ensures FrameAt(p, at).Valid() && Holds(p, at, Encode(FrameAt(p, at)))
  {
    FrameAtFields(p, at);
    Widths();
    var f := FrameAt(p, at);
    hide Holds, Number, BytesOf, Pow256, FrameStarts, FrameAt, ReadHeader, ParseHeader;
    var magic, bytes, id := BytesOf(MAGIC, 4), [f.version, f.kind, f.flags, f.reserved], BytesOf(f.streamId, 8);
    var len, time := BytesOf(|f.payload|, 4), BytesOf(f.timestamp, 8);
    BytesOfNumber(p, at, 4);
    BytesOfNumber(p, at + 8, 8);
    BytesOfNumber(p, at + 16, 4);
    BytesOfNumber(p, at + 20, 8);
    HoldsConcat(p, at, magic, bytes, at + 4);
    HoldsConcat(p, at, magic + bytes, id, at + 8);
    HoldsConcat(p, at, magic + bytes + id, len, at + 16);
    HoldsConcat(p, at, magic + bytes + id + len, time, at + 20);
    HoldsConcat(p, at, EncodeHeader(f), f.payload, at + HEADER_LEN);
  }

  lemma {:induction false} StreamTiles(p: Bytes, at: nat) returns (fs: seq<Frame>, next: nat)
    requires at <= |p|
    ensures (forall f <- fs :: f.Valid()) && Holds(p, at, EncodeAll(fs)) && next == at + |EncodeAll(fs)|
    ensures !FrameStarts(p, next) && ParseStream(p, at) == MessagesOf(fs)
    decreases |p| - at
  {
    fs, next := [], at;
    if FrameStarts(p, at) {
      var f := FrameAt(p, at);
      var mid := at + |Encode(f)|;
      FrameAtEncodes(p, at);
      FrameRead(p, at, f, mid);
      StreamStep(p, at, mid, MessageOf(f));
      var rest;
      rest, next := StreamTiles(p, mid);
      fs := [f] + rest;
      assert fs[1..] == rest;
      HoldsConcat(p, at, Encode(f), EncodeAll(rest), mid);
    }
  }

  /** Every buffer whatsoever is a list of frames and a rest that does not start with a whole frame;
      the result is those frames, so the messages tile a prefix of the buffer and none is missed. */
  lemma {:induction false} MessagesTile(p: Bytes) returns (fs: seq<Frame>, rest: Bytes)
    ensures (forall f <- fs :: f.Valid()) && p == EncodeAll(fs) + rest
    ensures !FrameStarts(p, |EncodeAll(fs)|) && ParseMultiple(p) == MessagesOf(fs)
  {
    hide FrameStarts, MessagesOf, ParseStream;
    var next;
    fs, next := StreamTiles(p, 0);
    HoldsSlice(p, 0, EncodeAll(fs), next);
    rest := p[next..];
    assert p == p[0..next] + rest;
  }

  /** Wherever Parse accepts a buffer the extracted payload is the parsed one, and elsewhere it is the buffer. */
  lemma ExtractAgreesWithParse(p: Bytes)
    ensures ExtractInnerPayload(p) == if Parse(p, 0, |p|).Ok? then Parse(p, 0, |p|).value.payload else p
  {
  }

  /** On a printed frame both give back what was wrapped. */
  lemma ExtractUnwraps(f: Frame)
    requires f.Valid()
    ensures ExtractInnerPayload(Encode(f)) == f.payload
  {
    assert Holds(Encode(f), 0, Encode(f));
    FrameRead(Encode(f), 0, f, |Encode(f)|);
    ExtractAgreesWithParse(Encode(f));
  }
}
