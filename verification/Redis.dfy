/** The Redis wire parser: cursor loops over length-prefixed frames, proved to compute what RedisModel says. */
module Redis {
  import opened Bytes
  import opened RedisModel

  class RedisParser {
    const lib: Library

    constructor (lib: Library)
      ensures this.lib == lib
    {
      this.lib := lib;
    }

    method ParseMultiple(payload: Bytes) returns (r: Result)
      ensures r == RedisModel.ParseMultiple(lib, payload)
    {
      var commands := [];
      var pos := 0;
      ghost var rest := ParseStream(lib, payload, 0);
      while pos < |payload|
        invariant rest == ParseStream(lib, payload, pos)
        invariant commands + rest == ParseStream(lib, payload, 0)
        invariant commands == [] ==> pos == 0
        invariant pos > 0 ==> payload != [] && RedisModel.ParseSingle(lib, payload, 0).Parsed?
        decreases |payload| - pos
      {
        SingleAdvances(lib, payload, pos);
        var single := ParseSingle(payload, pos);
        if single.Failed? {
          if |commands| > 0 {
            break;
          }
          return Err(single.why);
        }
        pos := single.next;
        rest := ParseStream(lib, payload, pos);
        assert commands + ([single.cmd] + rest) == commands + [single.cmd] + rest;
        commands := commands + [single.cmd];
      }
      r := Ok(commands);
    }

    method ParseSingle(payload: Bytes, at: nat) returns (r: Parsed)
      requires at <= |payload|
      ensures r == RedisModel.ParseSingle(lib, payload, at)
    {
      if at == |payload| {
        return Failed("empty payload");
      }
      var first := payload[at];
      if first == STAR {
        r := ParseRESPArray(payload, at);
      } else if first == PLUS || first == MINUS || first == COLON || first == DOLLAR {
        r := ParseRESPResponse(payload, at);
      } else if 'A' as byte <= first <= 'Z' as byte {
        r := ParseInlineCommand(payload, at);
      } else {
        r := Failed("invalid redis payload");
      }
    }

    method ParseRESPArray(payload: Bytes, at: nat) returns (r: Parsed)
      requires at < |payload| && payload[at] == STAR
      ensures r == ParseArray(lib, payload, at)
    {
      var crlfPos := IndexCRLF(payload, at);
      if crlfPos < 0 {
        return Failed("invalid RESP format");
      }
      var numArgs := Atoi(payload, at + 1, crlfPos);
      if numArgs.None? || numArgs.value <= 0 {
        return Failed("invalid RESP array length");
      }
      var start, n: nat := crlfPos + 2, numArgs.value;
      var args, pos := ParseBulkStrings(payload, start, n);
      assert ParseArray(lib, payload, at) ==
        Parsed(CommandOf(lib, ReadElements(payload, start, n).args), ReadElements(payload, start, n).next);
      r := Parsed(CommandOf(lib, args), pos);
    }

    /** The loop of parseRESPArray. */
    method ParseBulkStrings(payload: Bytes, start: nat, numArgs: nat) returns (args: seq<Bytes>, pos: nat)
      ensures args == ReadElements(payload, start, numArgs).args && pos == ReadElements(payload, start, numArgs).next
    {
      hide ReadElements, Atoi, IndexCRLF;
      args, pos := [], start;
      var i := 0;
      ghost var whole := ReadElements(payload, start, numArgs);
      ghost var left, rest := numArgs, whole;
      while i < numArgs && pos < |payload|
        invariant i + left == numArgs
        invariant rest == ReadElements(payload, pos, left)
        invariant args + rest.args == whole.args && rest.next == whole.next
      {
        ghost var before, wanted := pos, left;
        ElementsEnd(payload, pos, left);
        if payload[pos] != DOLLAR {
          break;
        }
        var crlfPos := IndexCRLF(payload, pos);
        if crlfPos < 0 {
          break;
        }
        var argLen := Atoi(payload, pos + 1, crlfPos);
        if argLen.None? || argLen.value < 0 {
          break;
        }
        pos := crlfPos + 2;
        if pos + argLen.value > |payload| {
          assert ReadElement(payload, before) == Stop(pos);
          break;
        }
        var arg := payload[pos..pos + argLen.value];
        pos := pos + argLen.value + 2;
        i := i + 1;
        left := left - 1;
        assert ReadElement(payload, before) == Element(arg, pos);
        ReadElementsStep(payload, before, wanted, arg, pos, left);
        rest := ReadElements(payload, pos, left);
        Regroup(args, [arg], rest.args);
        args := args + [arg];
      }
      ElementsEnd(payload, pos, left);
    }

    method ParseRESPResponse(payload: Bytes, at: nat) returns (r: Parsed)
      requires at < |payload| && payload[at] != CR
      ensures r == ParseResponse(payload, at)
    {
      var crlfPos := IndexCRLF(payload, at);
      if crlfPos < 0 {
        crlfPos := |payload|;
      }
      var cmd := Command([payload[at]], [], [], true);
      if crlfPos > at + 1 {
        cmd := cmd.(key := payload[at + 1..crlfPos]);
      }
      var pos: nat := crlfPos + 2;
      if payload[at] == DOLLAR && cmd.key != MINUS_ONE {
        var bulkLen := Atoi(payload, at + 1, crlfPos);
        if bulkLen.Some? && bulkLen.value > 0 {
          if pos + bulkLen.value <= |payload| {
            cmd := cmd.(args := [payload[pos..pos + bulkLen.value]]);
            pos := pos + bulkLen.value + 2;
          }
        }
      }
      r := Parsed(cmd, pos);
    }

    method ParseInlineCommand(payload: Bytes, at: nat) returns (r: Parsed)
      requires at <= |payload|
      ensures r == ParseInline(lib, payload, at)
    {
      var newlinePos := IndexByte(payload, LF, at);
      var parts := lib.fields(payload[at..newlinePos]);
      var pos := newlinePos;
      if pos < |payload| && payload[pos] == LF {
        pos := pos + 1;
      }
      r := Parsed(CommandOf(lib, parts), pos);
    }
  }
}
