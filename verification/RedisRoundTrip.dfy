/** The Redis parser inverts the RESP printer, whatever bytes the strings contain and whatever follows. */
module RedisRoundTrip {
  import opened Options
  import opened Bytes
  import opened Decimal
  import opened RedisModel

  // ---------- RESP frames and their encoding ----------

  datatype Frame =
    | Array(items: seq<Bytes>)
    | Simple(text: Bytes)
    | Error(text: Bytes)
    | Integer(n: int)
    | Bulk(data: Bytes)
    | NullBulk

  /** A line must not contain the line end; every other frame may carry any bytes. */
  ghost predicate Printable(f: Frame) {
    f.Simple? || f.Error? ==> forall j :: !CRLFAt(f.text, j)
  }

  function Line(c: byte, text: Bytes): Bytes { [c] + text + CRLF }

  function BulkBytes(d: Bytes): Bytes { Line(DOLLAR, DecimalBytes(|d|)) + d + CRLF }

  function BulkList(items: seq<Bytes>): Bytes {
    if items == [] then [] else BulkBytes(items[0]) + BulkList(items[1..])
  }

  function Encode(f: Frame): Bytes {
    match f
    case Array(items) => Line(STAR, DecimalBytes(|items|)) + BulkList(items)
    case Simple(text) => Line(PLUS, text)
    case Error(text) => Line(MINUS, text)
    case Integer(n) => Line(COLON, SignedBytes(n))
    case Bulk(data) => BulkBytes(data)
    case NullBulk => Line(DOLLAR, MINUS_ONE)
  }

  function EncodeAll(fs: seq<Frame>): Bytes {
    if fs == [] then [] else Encode(fs[0]) + EncodeAll(fs[1..])
  }

  /** u is w with its small letters made capital. Text that is not plain ASCII is left to Go's library. */
  predicate Capital(lib: Library, w: Bytes, u: Bytes) {
    if exists b <- w :: b >= 128 then u == lib.upper(w)
    else |u| == |w| && forall i :: 0 <= i < |w| ==> u[i] == if 97 <= w[i] <= 122 then w[i] - 32 else w[i]
  }

  /** A request made of these words: the first one is the command, the second the key, the others are arguments. */
  predicate ReadsWords(lib: Library, words: seq<Bytes>, c: Command) {
    && !c.isResponse
    && (if words == [] then c.command == [] else Capital(lib, words[0], c.command))
    && c.key == (if |words| <= 1 then [] else words[1])
    && |words| == |c.args| + (if |words| <= 2 then |words| else 2)
    && forall i :: 2 <= i < |words| ==> words[i] == c.args[i - 2]
  }

  /** What a frame is read as. */
  predicate Reads(lib: Library, f: Frame, c: Command) {
    match f
    case Array(items) => ReadsWords(lib, items, c)
    case Simple(text) => c == Command([PLUS], text, [], true)
    case Error(text) => c == Command([MINUS], text, [], true)
    case Integer(n) => c == Command([COLON], SignedBytes(n), [], true)
    case Bulk(data) => c == Command([DOLLAR], DecimalBytes(|data|), if data == [] then [] else [data], true)
    case NullBulk => c == Command([DOLLAR], MINUS_ONE, [], true)
  }

  predicate ReadsAll(lib: Library, fs: seq<Frame>, cs: seq<Command>) {
    |cs| == |fs| && forall i :: 0 <= i < |fs| ==> Reads(lib, fs[i], cs[i])
  }

  /** The command record that the parser makes for a frame. */
  function Expected(lib: Library, f: Frame): Command {
    match f
    case Array(items) => CommandOf(lib, items)
    case Simple(text) => Command([PLUS], text, [], true)
    case Error(text) => Command([MINUS], text, [], true)
    case Integer(n) => Command([COLON], SignedBytes(n), [], true)
    case Bulk(data) => Command([DOLLAR], DecimalBytes(|data|), if data == [] then [] else [data], true)
    case NullBulk => Command([DOLLAR], MINUS_ONE, [], true)
  }

  lemma WordsRead(lib: Library, words: seq<Bytes>, c: Command)
    ensures c == CommandOf(lib, words) <==> ReadsWords(lib, words, c)
  {
    if words != [] {
      CapitalRead(lib, words[0], c.command);
    }
    if ReadsWords(lib, words, c) && |words| > 2 {
      assert c.args == words[2..];
    }
  }

  lemma CapitalRead(lib: Library, w: Bytes, u: Bytes)
    ensures u == ToUpper(lib, w) <==> Capital(lib, w, u)
  {
    if Capital(lib, w, u) && IsAscii(w) {
      assert u == ToUpper(lib, w);
    }
  }

  /** Each frame is read as one command. */
  lemma ExpectedReads(lib: Library, f: Frame, c: Command)
    ensures c == Expected(lib, f) <==> Reads(lib, f, c)
  {
    hide CommandOf, ReadsWords;
    if f.Array? {
      WordsRead(lib, f.items, c);
    }
  }

  lemma ExpectedAllReads(lib: Library, fs: seq<Frame>, cs: seq<Command>)
    ensures cs == ExpectedAll(lib, fs) <==> ReadsAll(lib, fs, cs)
  {
    hide Expected, Reads;
    if |cs| == |fs| {
      forall i | 0 <= i < |fs|
        ensures cs[i] == Expected(lib, fs[i]) <==> Reads(lib, fs[i], cs[i])
      {
        ExpectedReads(lib, fs[i], cs[i]);
      }
    }
  }

  // ---------- pieces of a payload ----------

  lemma HoldsLine(p: Bytes, at: nat, c: byte, text: Bytes, k: nat)
    requires Holds(p, at, Line(c, text)) && k == at + 1 + |text|
    ensures at < |p| && p[at] == c && Holds(p, at + 1, text) && CRLFAt(p, k)
  {
    HoldsParts(p, at, [c] + text, CRLF, k);
    HoldsParts(p, at, [c], text, at + 1);
    assert p[at + 0] == [c][0];
    assert p[k + 0] == CRLF[0] && p[k + 1] == CRLF[1];
  }

  lemma {:induction false} FirstCRLF(p: Bytes, at: nat, k: nat)
    requires at <= k && CRLFAt(p, k) && forall j :: at <= j < k ==> !CRLFAt(p, j)
    ensures IndexCRLF(p, at) == k
    decreases k - at
  {
    if at < k {
      assert !CRLFAt(p, at);
      FirstCRLF(p, at + 1, k);
    }
  }

  /** The first line end after the start of a printed line is its own. */
  lemma LineEnd(p: Bytes, at: nat, c: byte, text: Bytes, k: nat)
    requires Holds(p, at, Line(c, text)) && c != CR && k == at + 1 + |text|
    requires forall j :: !CRLFAt(text, j)
    ensures at < |p| && p[at] == c && IndexCRLF(p, at) == k && Holds(p, at + 1, text) && p[at + 1..k] == text
  {
    HoldsLine(p, at, c, text, k);
    HoldsSlice(p, at + 1, text, k);
    forall j | at <= j < k
      ensures !CRLFAt(p, j)
    {
      if at < j {
        var i := j - at - 1;
        assert !CRLFAt(text, i);
        assert p[at + 1 + i] == text[i];
        if i + 1 < |text| {
          assert p[at + 1 + (i + 1)] == text[i + 1];
        }
      }
    }
    FirstCRLF(p, at, k);
  }

  lemma NumberLine(p: Bytes, at: nat, c: byte, n: int, k: nat)
    requires Holds(p, at, Line(c, SignedBytes(n))) && c != CR && k == at + 1 + |SignedBytes(n)|
    ensures at < |p| && p[at] == c && IndexCRLF(p, at) == k && p[at + 1..k] == SignedBytes(n)
    ensures Atoi(p, at + 1, k) == if -MAX_INT - 1 <= n <= MAX_INT then Some(n) else None
  {
    var text := SignedBytes(n);
    forall j
      ensures !CRLFAt(text, j)
    {
      if 0 <= j < |text| {
        assert text[j] in text;
      }
    }
    LineEnd(p, at, c, text, k);
    AtoiReadsDecimal(p, at + 1, n);
  }

  // ---------- one frame ----------

  lemma BulkRead(p: Bytes, at: nat, d: Bytes, next: nat)
    requires |p| <= MAX_INT && Holds(p, at, BulkBytes(d)) && next == at + |BulkBytes(d)|
    ensures at < |p| && ReadElement(p, at) == Element(d, next)
  {
    var head := Line(DOLLAR, DecimalBytes(|d|));
    var k := at + 1 + |DecimalBytes(|d|)|;
    HoldsParts(p, at, head + d, CRLF, next - 2);
    HoldsParts(p, at, head, d, k + 2);
    assert SignedBytes(|d|) == DecimalBytes(|d|);
    NumberLine(p, at, DOLLAR, |d|, k);
    HoldsSlice(p, k + 2, d, k + 2 + |d|);
  }

  lemma {:induction false} BulksRead(p: Bytes, at: nat, items: seq<Bytes>, next: nat)
    requires |p| <= MAX_INT && Holds(p, at, BulkList(items)) && next == at + |BulkList(items)|
    ensures ReadElements(p, at, |items|) == Elements(items, next)
    ensures |items| <= |BulkList(items)|
    decreases |items|
  {
    hide Holds, BulkBytes, ReadElement;
    if items != [] {
      var mid := at + |BulkBytes(items[0])|;
      HoldsParts(p, at, BulkBytes(items[0]), BulkList(items[1..]), mid);
      BulkRead(p, at, items[0], mid);
      BulksRead(p, mid, items[1..], next);
      ReadElementsStep(p, at, |items|, items[0], mid, |items| - 1);
      assert items == [items[0]] + items[1..];
    }
  }

  lemma ArrayHeader(lib: Library, p: Bytes, at: nat, k: nat, n: nat, start: nat)
    requires at < k < |p| && p[at] == STAR && IndexCRLF(p, at) == k && Atoi(p, at + 1, k) == Some(n) && start == k + 2
    ensures ParseArray(lib, p, at) ==
            if n == 0 then Failed("invalid RESP array length")
            else Parsed(CommandOf(lib, ReadElements(p, start, n).args), ReadElements(p, start, n).next)
  {
    hide ReadElements, CommandOf, IndexCRLF, Atoi;
  }

  lemma ArrayHeaderRead(lib: Library, p: Bytes, at: nat, n: nat, start: nat)
    requires |p| <= MAX_INT && n <= |p| && Holds(p, at, Line(STAR, DecimalBytes(n))) && start == at + |Line(STAR, DecimalBytes(n))|
    ensures at < |p|
    ensures ParseSingle(lib, p, at) ==
            if n == 0 then Failed("invalid RESP array length")
            else Parsed(CommandOf(lib, ReadElements(p, start, n).args), ReadElements(p, start, n).next)
  {
    assert SignedBytes(n) == DecimalBytes(n);
    NumberLine(p, at, STAR, n, start - 2);
    ArrayHeader(lib, p, at, start - 2, n, start);
  }

  lemma ArrayRead(lib: Library, p: Bytes, at: nat, items: seq<Bytes>, next: nat)
    requires |p| <= MAX_INT && Holds(p, at, Encode(Array(items))) && next == at + |Encode(Array(items))|
    ensures at < |p|
    ensures ParseSingle(lib, p, at) ==
            if items == [] then Failed("invalid RESP array length") else Parsed(CommandOf(lib, items), next)
  {
    var head := Line(STAR, DecimalBytes(|items|));
    var start := at + |head|;
    HoldsParts(p, at, head, BulkList(items), start);
    BulksRead(p, start, items, next);
    ArrayHeaderRead(lib, p, at, |items|, start);
  }

  lemma BulkReply(p: Bytes, at: nat, k: nat, n: nat, data: Bytes, next: nat)
    requires at < k < |p| && p[at] == DOLLAR && IndexCRLF(p, at) == k && p[at + 1..k] != MINUS_ONE
    requires Atoi(p, at + 1, k) == Some(n) && next == k + 2 + n + 2 <= |p| && p[k + 2..k + 2 + n] == data
    ensures ParseResponse(p, at) ==
            if n == 0 then Parsed(Command([DOLLAR], p[at + 1..k], [], true), next - 2)
            else Parsed(Command([DOLLAR], p[at + 1..k], [data], true), next)
  {
  }

  lemma BulkReplyRead(lib: Library, p: Bytes, at: nat, d: Bytes, next: nat)
    requires |p| <= MAX_INT && Holds(p, at, BulkBytes(d)) && next == at + |BulkBytes(d)|
    ensures at < |p|
    ensures ParseSingle(lib, p, at) == Parsed(Expected(lib, Bulk(d)), if d == [] then next - 2 else next)
  {
    var digits := DecimalBytes(|d|);
    var head, k := Line(DOLLAR, digits), at + 1 + |digits|;
    HoldsParts(p, at, head + d, CRLF, next - 2);
    HoldsParts(p, at, head, d, k + 2);
    assert SignedBytes(|d|) == digits;
    NumberLine(p, at, DOLLAR, |d|, k);
    HoldsSlice(p, k + 2, d, k + 2 + |d|);
    assert digits != MINUS_ONE by { assert digits[0] in digits; }
    BulkReply(p, at, k, |d|, d, next);
  }

  lemma LineReplyRead(lib: Library, p: Bytes, at: nat, f: Frame, next: nat)
    requires f.Simple? || f.Error? || f.Integer? || f.NullBulk?
    requires Printable(f) && Holds(p, at, Encode(f)) && next == at + |Encode(f)|
    ensures at < |p| && ParseSingle(lib, p, at) == Parsed(Expected(lib, f), next)
  {
    match f
    case Simple(text) => LineEnd(p, at, PLUS, text, next - 2);
    case Error(text) => LineEnd(p, at, MINUS, text, next - 2);
    case Integer(n) => NumberLine(p, at, COLON, n, next - 2);
    case NullBulk =>
      assert MINUS_ONE[0] != CR && MINUS_ONE[1] != CR;
      LineEnd(p, at, DOLLAR, MINUS_ONE, next - 2);
  }

  /** An array without elements is refused, and of an empty bulk reply the last line end is left over. */
  predicate Stops(f: Frame) {
    f == Array([]) || f == Bulk([])
  }

  lemma FrameParsed(lib: Library, p: Bytes, at: nat, f: Frame, next: nat)
    requires |p| <= MAX_INT && Printable(f) && Holds(p, at, Encode(f)) && next == at + |Encode(f)| && !Stops(f)
    ensures at < |p| && ParseSingle(lib, p, at) == Parsed(Expected(lib, f), next)
  {
    match f
    case Array(items) => ArrayRead(lib, p, at, items, next);
    case Bulk(d) => BulkReplyRead(lib, p, at, d, next);
    case _ => LineReplyRead(lib, p, at, f, next);
  }

  /** Any frame that does not stop the parser is read back exactly and completely. */
  lemma FrameRead(lib: Library, p: Bytes, at: nat, f: Frame, next: nat)
    requires |p| <= MAX_INT && Printable(f) && Holds(p, at, Encode(f)) && next == at + |Encode(f)| && !Stops(f)
    ensures at < |p|
    ensures var r := ParseSingle(lib, p, at); r.Parsed? && r.next == next && Reads(lib, f, r.cmd)
  {
    FrameParsed(lib, p, at, f, next);
    ExpectedReads(lib, f, Expected(lib, f));
  }

  // ---------- a stream of frames ----------

  /** What is read of a list of frames: everything up to a frame that stops the parser, and of such
      frames the empty bulk reply itself. */
  function ReadBack(lib: Library, fs: seq<Frame>): seq<Command> {
    if fs == [] || fs[0] == Array([]) then []
    else if fs[0] == Bulk([]) then [Expected(lib, fs[0])]
    else [Expected(lib, fs[0])] + ReadBack(lib, fs[1..])
  }

  predicate Flows(fs: seq<Frame>) {
    fs == [] || (!Stops(fs[0]) && Flows(fs[1..]))
  }

  lemma EncodesBulk(d: Bytes)
    ensures Encode(Bulk(d)) == BulkBytes(d)
  {
  }

  lemma LeftoverStops(lib: Library, p: Bytes, at: nat, next: nat)
    requires |p| <= MAX_INT && Holds(p, at, BulkBytes([])) && next == at + |BulkBytes([])|
    ensures at < |p| && ParseStream(lib, p, at) == [Expected(lib, Bulk([]))]
  {
    BulkReplyRead(lib, p, at, [], next);
    HoldsParts(p, at, Line(DOLLAR, DecimalBytes(0)) + [], CRLF, next - 2);
    assert p[next - 2 + 0] == CRLF[0];
    assert ParseSingle(lib, p, next - 2).Failed?;
  }

  lemma EmptyArrayStops(lib: Library, p: Bytes, at: nat)
    requires |p| <= MAX_INT && Holds(p, at, Encode(Array([])))
    ensures ParseStream(lib, p, at) == []
  {
    hide ParseSingle, Encode;
    ArrayRead(lib, p, at, [], at + |Encode(Array([]))|);
  }

  lemma FrameThenStream(lib: Library, p: Bytes, at: nat, f: Frame, mid: nat)
    requires |p| <= MAX_INT && Printable(f) && Holds(p, at, Encode(f)) && mid == at + |Encode(f)| && !Stops(f)
    ensures ParseStream(lib, p, at) == [Expected(lib, f)] + ParseStream(lib, p, mid)
  {
    FrameParsed(lib, p, at, f, mid);
  }

  lemma {:induction false} StreamRead(lib: Library, p: Bytes, at: nat, fs: seq<Frame>, next: nat)
    requires |p| <= MAX_INT && (forall f <- fs :: Printable(f))
    requires Holds(p, at, EncodeAll(fs)) && next == at + |EncodeAll(fs)|
    ensures ParseStream(lib, p, at) == ReadBack(lib, fs) + if Flows(fs) then ParseStream(lib, p, next) else []
    decreases |fs|
  {
    hide ParseStream, Encode, BulkBytes, Holds, Printable, Expected;
    if fs != [] {
      var f, rest := fs[0], fs[1..];
      var mid := at + |Encode(f)|;
      HoldsParts(p, at, Encode(f), EncodeAll(rest), mid);
      if f == Array([]) {
        EmptyArrayStops(lib, p, at);
      } else if f == Bulk([]) {
        assert Encode(f) == BulkBytes([]) by {
          EncodesBulk([]);
        }
        LeftoverStops(lib, p, at, mid);
      } else {
        FrameThenStream(lib, p, at, f, mid);
        StreamRead(lib, p, mid, rest, next);
        Regroup([Expected(lib, f)], ReadBack(lib, rest), if Flows(rest) then ParseStream(lib, p, next) else []);
      }
    }
  }

  lemma EncodeAllHead(fs: seq<Frame>)
    requires fs != []
    ensures EncodeAll(fs) == Encode(fs[0]) + EncodeAll(fs[1..])
  {
  }

  lemma StartHolds(t: Bytes, tail: Bytes)
    ensures Holds(t + tail, 0, t)
  {
  }

  lemma FramesParsed(lib: Library, fs: seq<Frame>, tail: Bytes)
    requires fs != [] && (forall f <- fs :: Printable(f)) && |EncodeAll(fs) + tail| <= MAX_INT
    ensures var p := EncodeAll(fs) + tail;
            ParseMultiple(lib, p) ==
            if fs[0] == Array([]) then Err("invalid RESP array length")
            else Ok(ReadBack(lib, fs) + if Flows(fs) then ParseStream(lib, p, |EncodeAll(fs)|) else [])
  {
    hide Holds, EncodeAll, Encode, Printable;
    var p := EncodeAll(fs) + tail;
    StartHolds(EncodeAll(fs), tail);
    EncodeAllHead(fs);
    StreamRead(lib, p, 0, fs, |EncodeAll(fs)|);
    HoldsParts(p, 0, Encode(fs[0]), EncodeAll(fs[1..]), |Encode(fs[0])|);
    if fs[0] == Array([]) {
      ArrayRead(lib, p, 0, [], |Encode(fs[0])|);
    } else if fs[0] == Bulk([]) {
      EncodesBulk([]);
      BulkReplyRead(lib, p, 0, [], |Encode(fs[0])|);
    } else {
      FrameParsed(lib, p, 0, fs[0], |Encode(fs[0])|);
    }
  }

  /** How many frames are read: all before one that stops the parser, and that one if it is a bulk reply. */
  function Reached(fs: seq<Frame>): (n: nat)
    ensures n <= |fs|
  {
    if fs == [] || fs[0] == Array([]) then 0 else if fs[0] == Bulk([]) then 1 else 1 + Reached(fs[1..])
  }

  lemma {:induction false} ReadBackIs(lib: Library, fs: seq<Frame>)
    ensures ReadBack(lib, fs) == ExpectedAll(lib, fs[..Reached(fs)])
  {
    hide Expected;
    if fs != [] && fs[0] != Array([]) {
      var n := Reached(fs);
      if fs[0] != Bulk([]) {
        ReadBackIs(lib, fs[1..]);
        assert fs[1..][..n - 1] == fs[..n][1..];
      }
      assert ExpectedAll(lib, fs[..n]) == [Expected(lib, fs[0])] + ExpectedAll(lib, fs[..n][1..]);
    }
  }

  /** For every list of frames with any bytes after it: the frames up to the first that stops the parser are read, an
      empty bulk reply included, and the parser goes on behind the list precisely when nothing in it stops it. */
  lemma FramesRead(lib: Library, fs: seq<Frame>, tail: Bytes)
    requires fs != [] && (forall f <- fs :: Printable(f)) && |EncodeAll(fs) + tail| <= MAX_INT
    ensures var p, n := EncodeAll(fs) + tail, Reached(fs); var r := ParseMultiple(lib, p);
            if fs[0] == Array([]) then r == Err("invalid RESP array length")
            else
              && r.Ok? && |r.commands| >= n && ReadsAll(lib, fs[..n], r.commands[..n])
              && r.commands[n..] == if Flows(fs) then ParseStream(lib, p, |EncodeAll(fs)|) else []
  {
    hide ParseMultiple, EncodeAll, Printable, ReadsAll, ExpectedAll, Reached, ReadBack;
    FramesParsed(lib, fs, tail);
    ReadBackIs(lib, fs);
    ExpectedAllReads(lib, fs[..Reached(fs)], ExpectedAll(lib, fs[..Reached(fs)]));
  }

  function ExpectedAll(lib: Library, fs: seq<Frame>): (r: seq<Command>)
    ensures |r| == |fs|
  {
    seq(|fs|, i requires 0 <= i < |fs| => Expected(lib, fs[i]))
  }

  /** No empty array anywhere, and an empty bulk reply at most in the last place. */
  predicate Readable(fs: seq<Frame>) {
    forall i :: 0 <= i < |fs| ==> fs[i] != Array([]) && (fs[i] == Bulk([]) ==> i == |fs| - 1)
  }

  lemma {:induction false} ReadBackAll(lib: Library, fs: seq<Frame>)
    ensures Readable(fs) ==> ReadBack(lib, fs) == ExpectedAll(lib, fs)
    ensures !Readable(fs) ==> |ReadBack(lib, fs)| < |fs|
    ensures |ReadBack(lib, fs)| <= |fs|
  {
    if fs != [] {
      var rest := fs[1..];
      ReadBackAll(lib, rest);
      assert forall i :: 0 <= i < |rest| ==> rest[i] == fs[i + 1];
      if Readable(fs) {
        assert fs[0] != Array([]);
        forall i | 0 <= i < |rest|
          ensures rest[i] != Array([]) && (rest[i] == Bulk([]) ==> i == |rest| - 1)
        {
          assert rest[i] == fs[i + 1];
        }
        assert ExpectedAll(lib, fs) == [Expected(lib, fs[0])] + ExpectedAll(lib, rest);
      } else if fs[0] != Array([]) && fs[0] != Bulk([]) {
        var i :| 0 <= i < |fs| && !(fs[i] != Array([]) && (fs[i] == Bulk([]) ==> i == |fs| - 1));
        assert rest[i - 1] == fs[i];
      }
    }
  }

  /** The round trip, and exactly when it holds: a printed list of frames is returned completely if and
      only if it has no empty array and no empty bulk reply before the last place. */
  lemma {:induction false} RoundTripIff(lib: Library, fs: seq<Frame>)
    requires fs != [] && (forall f <- fs :: Printable(f)) && |EncodeAll(fs)| <= MAX_INT
    ensures var r := ParseMultiple(lib, EncodeAll(fs)); r.Ok? && ReadsAll(lib, fs, r.commands) <==> Readable(fs)
  {
    hide ReadsAll;
    var r := ParseMultiple(lib, EncodeAll(fs));
    if r.Ok? {
      ExpectedAllReads(lib, fs, r.commands);
    }
    FramesParsed(lib, fs, []);
    assert EncodeAll(fs) + [] == EncodeAll(fs);
    ReadBackAll(lib, fs);
    assert ParseStream(lib, EncodeAll(fs), |EncodeAll(fs)|) == [];
  }

  lemma {:induction false} FlowsWhenNothingStops(lib: Library, fs: seq<Frame>)
    requires forall f <- fs :: !Stops(f)
    ensures Flows(fs) && ReadBack(lib, fs) == ExpectedAll(lib, fs)
  {
    if fs != [] {
      assert !Stops(fs[0]) by { assert fs[0] in fs; }
      FlowsWhenNothingStops(lib, fs[1..]);
      assert ExpectedAll(lib, fs) == [Expected(lib, fs[0])] + ExpectedAll(lib, fs[1..]);
    }
  }

  /** With any bytes behind it, a list without stopping frames is the beginning of the result. */
  lemma RoundTripWithTail(lib: Library, fs: seq<Frame>, tail: Bytes)
    requires fs != [] && (forall f <- fs :: Printable(f) && !Stops(f)) && |EncodeAll(fs) + tail| <= MAX_INT
    ensures var p := EncodeAll(fs) + tail;
            var r := ParseMultiple(lib, p);
            && r.Ok? && |r.commands| >= |fs| && ReadsAll(lib, fs, r.commands[..|fs|])
            && r.commands[|fs|..] == ParseStream(lib, p, |EncodeAll(fs)|)
  {
    hide ParseMultiple, ReadsAll, EncodeAll, Encode;
    ExpectedAllReads(lib, fs, ExpectedAll(lib, fs));
    FramesParsed(lib, fs, tail);
    FlowsWhenNothingStops(lib, fs);
    assert !Stops(fs[0]) by { assert fs[0] in fs; }
  }

  /** An empty bulk reply in front hides the reply behind it. */
  lemma EmptyBulkHidesTheRest(lib: Library)
    ensures ParseMultiple(lib, EncodeAll([Bulk([]), Integer(7)])) == Ok([Command([DOLLAR], [ZERO], [], true)])
  {
    var fs := [Bulk([]), Integer(7)];
    assert fs[1..] == [Integer(7)] && fs[1..][1..] == [];
    assert Digits(0) == [0] && Digits(7) == [7];
    assert DecimalBytes(0) == [ZERO];
    assert |EncodeAll(fs)| <= MAX_INT;
    assert EncodeAll(fs) + [] == EncodeAll(fs);
    FramesParsed(lib, fs, []);
  }

  // ---------- inline commands ----------

  /** A line that starts with a capital letter is read as the words that it has, with or without a line feed behind
      it. */
  lemma InlineRead(lib: Library, p: Bytes, at: nat, line: Bytes, next: nat)
    requires line != [] && 65 <= line[0] <= 90 && LF !in line
    requires Holds(p, at, line) && next == at + |line| && (next == |p| || p[next] == LF)
    ensures var r := ParseSingle(lib, p, at);
            && r.Parsed? && r.next == (if next == |p| then next else next + 1)
            && ReadsWords(lib, lib.fields(line), r.cmd)
  {
    assert p[at + 0] == line[0];
    assert p[at..next] == line;
    NextFeed(p, at, next);
    WordsRead(lib, lib.fields(line), CommandOf(lib, lib.fields(line)));
  }

  lemma {:induction false} NextFeed(p: Bytes, at: nat, next: nat)
    requires at <= next <= |p| && LF !in p[at..next] && (next == |p| || p[next] == LF)
    ensures IndexByte(p, LF, at) == next
    decreases next - at
  {
    if at < next {
      assert p[at] == p[at..next][0] && p[at + 1..next] == p[at..next][1..];
      NextFeed(p, at + 1, next);
    }
  }
}
