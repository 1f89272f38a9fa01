/** The Envoy frame parser, proved to compute what EnvoyModel says. */
module Envoy {
  import opened Bytes
  import opened EnvoyModel

  class EnvoyParser {
    constructor () {}

    /** The branch that skips a byte after a frame that does not parse is never taken
        (RecoveryUnreachable) and is left out. */
    method ParseMultiple(payload: Bytes) returns (messages: seq<Message>)
      ensures messages == EnvoyModel.ParseMultiple(payload)
    {
      hide ReadHeader, Body, IsRequest;
      messages := [];
      var pos := 0;
      ghost var rest := ParseStream(payload, 0);
      while pos < |payload|
        invariant pos <= |payload|
        invariant rest == ParseStream(payload, pos)
        invariant messages + rest == ParseStream(payload, 0)
      {
        if |payload| - pos < HEADER_LEN {
          break;
        }
        var header := ParseHeader(payload, pos, |payload|);
        if header.Err? {
          break;
        }
        var msgLen := HEADER_LEN + header.value.length;
        if pos + msgLen > |payload| {
          break;
        }
        RecoveryUnreachable(payload, pos);
        var before := pos;
        pos := pos + msgLen;
        var msg := Parse(payload, before, pos);
        StreamStep(payload, before, pos, msg.value);
        rest := ParseStream(payload, pos);
        assert messages + ([msg.value] + rest) == messages + [msg.value] + rest;
        messages := messages + [msg.value];
      }
    }
  }
}
