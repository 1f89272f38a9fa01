/** What the Redis parser computes, and the library functions it uses. The slice payload[at:] the
    program passes on is a payload together with the position at; a parse ends at a position, too,
    which may lie up to two bytes behind the end. */
module RedisModel {
  import opened Bytes

  const STAR: byte := '*' as byte
  const DOLLAR: byte := '$' as byte
  const COLON: byte := ':' as byte
  const CRLF: Bytes := [CR, LF]
  const MINUS_ONE: Bytes := [MINUS, '1' as byte]

  /** What the parser takes from Go's strings package for text that is not plain ASCII: ToUpper,
      and Fields after TrimSpace. */
  datatype Library = Library(upper: Bytes -> Bytes, fields: Bytes -> seq<Bytes>)

  datatype Command = Command(command: Bytes, key: Bytes, args: seq<Bytes>, isResponse: bool)

  datatype Parsed = Parsed(cmd: Command, next: nat) | Failed(why: string)

  // ---------- library functions ----------

  predicate CRLFAt(s: Bytes, i: int) {
    0 <= i < |s| - 1 && s[i] == CR && s[i + 1] == LF
  }

  /** bytes.Index(s[i:], CRLF), as a position in s, or -1. */
  function IndexCRLF(s: Bytes, i: nat): (r: int)
    ensures r == -1 || (i <= r && CRLFAt(s, r))
    decreases |s| - i
  {
    if i + 1 >= |s| then -1 else if CRLFAt(s, i) then i else IndexCRLF(s, i + 1)
  }

  /** bytes.IndexByte(s[i:], b), as a position in s, or the length. */
  function IndexByte(s: Bytes, b: byte, i: nat): (r: nat)
    requires i <= |s|
    ensures i <= r <= |s| && (r < |s| ==> s[r] == b)
    decreases |s| - i
  {
    if i == |s| || s[i] == b then i else IndexByte(s, b, i + 1)
  }

  predicate IsAscii(s: Bytes) { forall b <- s :: b < 128 }

  function UpperByte(b: byte): byte {
    if 'a' as byte <= b <= 'z' as byte then b - 32 else b
  }

  /** strings.ToUpper. */
  function ToUpper(lib: Library, s: Bytes): Bytes {
    if IsAscii(s) then seq(|s|, i requires 0 <= i < |s| => UpperByte(s[i])) else lib.upper(s)
  }

  // ---------- what the parser computes ----------

  /** An array element and where it ends, or where the cursor is when the loop gives up. */
  datatype Element = Element(data: Bytes, next: nat) | Stop(next: nat)

  function ReadElement(p: Bytes, at: nat): (e: Element)
    requires at < |p|
    ensures e.Element? ==> at < e.next
  {
    var crlf := IndexCRLF(p, at);
    if p[at] != DOLLAR || crlf < 0 then Stop(at)
    else
      var len := Atoi(p, at + 1, crlf);
      if len.None? || len.value < 0 then Stop(at)
      else if crlf + 2 + len.value > |p| then Stop(crlf + 2)
      else Element(p[crlf + 2..crlf + 2 + len.value], crlf + 2 + len.value + 2)
  }

  /** The bulk strings read for at most n array elements. */
  datatype Elements = Elements(args: seq<Bytes>, next: nat)

  function ReadElements(p: Bytes, at: nat, n: nat): Elements
    decreases n
  {
    if n == 0 || at >= |p| then Elements([], at)
    else
      match ReadElement(p, at)
      case Stop(next) => Elements([], next)
      case Element(data, next) =>
        var rest := ReadElements(p, next, n - 1);
        Elements([data] + rest.args, rest.next)
  }

  lemma ReadElementsStep(p: Bytes, at: nat, n: nat, data: Bytes, next: nat, left: nat)
    requires at < |p| && ReadElement(p, at) == Element(data, next) && n == left + 1
    ensures ReadElements(p, at, n).args == [data] + ReadElements(p, next, left).args
    ensures ReadElements(p, at, n).next == ReadElements(p, next, left).next
  {
  }

  lemma ElementsEnd(p: Bytes, at: nat, n: nat)
    ensures n == 0 || at >= |p| ==> ReadElements(p, at, n) == Elements([], at)
    ensures n > 0 && at < |p| && ReadElement(p, at).Stop? ==> ReadElements(p, at, n) == Elements([], ReadElement(p, at).next)
  {
  }

  function CommandOf(lib: Library, words: seq<Bytes>): Command {
    if words == [] then Command([], [], [], false)
    else Command(ToUpper(lib, words[0]), if |words| > 1 then words[1] else [], if |words| > 2 then words[2..] else [], false)
  }

  function ParseArray(lib: Library, p: Bytes, at: nat): Parsed
    requires at < |p| && p[at] == STAR
  {
    var crlf := IndexCRLF(p, at);
    if crlf < 0 then Failed("invalid RESP format")
    else
      var num := Atoi(p, at + 1, crlf);
      if num.None? || num.value <= 0 then Failed("invalid RESP array length")
      else
        var elements := ReadElements(p, crlf + 2, num.value);
        Parsed(CommandOf(lib, elements.args), elements.next)
  }

  function ParseResponse(p: Bytes, at: nat): Parsed
    requires at < |p|
    requires p[at] != CR
  {
    var crlf := if IndexCRLF(p, at) < 0 then |p| else IndexCRLF(p, at);
    var key := p[at + 1..crlf];
    var pos := crlf + 2;
    var len := Atoi(p, at + 1, crlf);
    if p[at] == DOLLAR && key != MINUS_ONE && len.Some? && len.value > 0 && pos + len.value <= |p| then
      Parsed(Command([p[at]], key, [p[pos..pos + len.value]], true), pos + len.value + 2)
    else
      Parsed(Command([p[at]], key, [], true), pos)
  }

  function ParseInline(lib: Library, p: Bytes, at: nat): Parsed
    requires at <= |p|
  {
    var newline := IndexByte(p, LF, at);
    Parsed(CommandOf(lib, lib.fields(p[at..newline])), if newline < |p| then newline + 1 else newline)
  }

  function ParseSingle(lib: Library, p: Bytes, at: nat): Parsed
    requires at <= |p|
  {
    if at == |p| then Failed("empty payload")
    else if p[at] == STAR then ParseArray(lib, p, at)
    else if p[at] == PLUS || p[at] == MINUS || p[at] == COLON || p[at] == DOLLAR then ParseResponse(p, at)
    else if 'A' as byte <= p[at] <= 'Z' as byte then ParseInline(lib, p, at)
    else Failed("invalid redis payload")
  }

  lemma {:induction false} ElementsAdvance(p: Bytes, at: nat, n: nat)
    ensures ReadElements(p, at, n).next >= at
    decreases n
  {
    if n > 0 && at < |p| && ReadElement(p, at).Element? {
      ElementsAdvance(p, ReadElement(p, at).next, n - 1);
    }
  }

  lemma {:induction false} SingleAdvances(lib: Library, p: Bytes, at: nat)
    requires at <= |p|
    ensures ParseSingle(lib, p, at).Parsed? ==> ParseSingle(lib, p, at).next > at
  {
    if at < |p| && p[at] == STAR && ParseSingle(lib, p, at).Parsed? {
      var crlf := IndexCRLF(p, at);
      ElementsAdvance(p, crlf + 2, Atoi(p, at + 1, crlf).value);
    }
  }

  /** The commands from position at up to the first position where nothing can be read. */
  function ParseStream(lib: Library, p: Bytes, at: nat): seq<Command>
    decreases |p| - at
  {
    if at >= |p| then []
    else
      match ParseSingle(lib, p, at)
      case Failed(_) => []
      case Parsed(cmd, next) =>
        SingleAdvances(lib, p, at);
        [cmd] + ParseStream(lib, p, next)
  }

  datatype Result = Ok(commands: seq<Command>) | Err(why: string)

  /** A failure counts only when there is no command before it. */
  function ParseMultiple(lib: Library, p: Bytes): Result {
    if p != [] && ParseSingle(lib, p, 0).Failed? then Err(ParseSingle(lib, p, 0).why)
    else Ok(ParseStream(lib, p, 0))
  }
}
