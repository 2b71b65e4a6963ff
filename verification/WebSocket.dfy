/** The connection of pkg/cdp/websocket.go: frames written to the server, and
    messages read from what it sends. */
module WebSocket {
  import opened Wrappers
  import opened ByteOrder
  import opened Utf8
  import F = WebSocketFrames
  import W = WebSocketWire
  import opened WebSocketMessages

  /** A frame that was written, and the mask chosen for it. */
  datatype Sent = Sent(reply: Reply, mask: F.Mask)

  /** Frames as they are written. */
  function Wire(sent: seq<Sent>): Bytes {
    if sent == [] then []
    else
      var last := sent[|sent| - 1];
      Wire(sent[..|sent| - 1]) + F.FrameBytes(last.reply.opcode, last.reply.payload, last.mask)
  }

  function RepliesOf(sent: seq<Sent>): (replies: seq<Reply>)
    ensures |replies| == |sent|
  {
    seq(|sent|, i requires 0 <= i < |sent| => sent[i].reply)
  }

  class Socket {
    /** What the server has yet to send, and what has been sent to it. */
    var input: Bytes
    var output: Bytes
    ghost var sent: seq<Sent>

    ghost predicate Valid()
      reads this
    {
      output == Wire(sent)
    }

    constructor (input: Bytes)
      ensures Valid() && this.input == input && sent == []
    {
      this.input, this.output, this.sent := input, [], [];
    }

    // ----- writing -----

    /** Sends one masked frame, unless the write fails. */
    method WriteFrame(opcode: F.Opcode, payload: Bytes) returns (ok: bool)
      requires Valid() && |payload| < TWO_64
      modifies this`output, this`sent
      ensures Valid()
      ensures if ok then RepliesOf(sent) == RepliesOf(old(sent)) + [Reply(opcode, payload)] else sent == old(sent)
      ensures if ok then old(output) <= output && W.CarriesAll(output[|old(output)|..], opcode, payload)
              else output == old(output)
    {
      hide BigEndian, F.Masked, W.CarriesAll;
      var header: Bytes := [128 + opcode];
      var length := |payload|;
      if length < 126 {
        header := header + [128 + length];
      } else if length <= 0xffff {
        header := header + [128 + 126];
        header := header + BigEndian(length, 2);
      } else {
        header := header + [128 + 127];
        header := header + BigEndian(length, 8);
      }
      var mask: F.Mask := *;
      assert header == [128 + opcode] + F.LengthField(length);
      header := header + mask;
      var masked := new Byte[length](i requires 0 <= i < length => payload[i]);
      assert masked[..] == payload;
      Mask(masked, mask);
      assert header + masked[..] == F.FrameBytes(opcode, payload, mask);
      ok := *;
      if ok {
        W.FrameIsCarried(opcode, payload, mask);
        output := output + (header + masked[..]);
        assert output[|old(output)|..] == header + masked[..];
        sent := sent + [Sent(Reply(opcode, payload), mask)];
        assert sent[..|sent| - 1] == old(sent);
      }
    }

    /** WriteMessage: one text message. */
    method WriteMessage(data: Bytes) returns (ok: bool)
      requires Valid() && |data| < TWO_64
      modifies this`output, this`sent
      ensures Valid()
      ensures if ok then RepliesOf(sent) == RepliesOf(old(sent)) + [Reply(OP_TEXT, data)] else sent == old(sent)
      ensures if ok then old(output) <= output && W.CarriesAll(output[|old(output)|..], 0x1, data)
              else output == old(output)
    {
      ok := WriteFrame(OP_TEXT, data);
    }

    // ----- reading -----

    /** io.ReadFull: exactly so many bytes, or none. */
    method ReadFull(count: nat) returns (r: Result<Bytes, F.Failure>)
      modifies this`input
      ensures if |old(input)| >= count then r == Ok(old(input)[..count]) && input == old(input)[count..]
              else r == Err(F.Missing(old(input))) && input == []
    {
      if |input| < count {
        r := Err(F.Missing(input));
        input := [];
      } else {
        r := Ok(input[..count]);
        input := input[count..];
      }
    }

    /** Reads one frame, unmasking it if the server masked it. */
    method ReadFrame() returns (r: Result<F.Frame, F.Failure>)
      modifies this`input
      ensures F.FrameRead(r, input) == F.ReadFrame(old(input))
    {
      hide F.ReadPayload, FromBigEndian;
      var header := ReadFull(2);
      if header.Err? {
        return Err(header.error);
      }
      var final, opcode := header.value[0] >= 128, header.value[0] % 16;
      if header.value[0] / 16 % 8 != 0 {
        return Err(F.Protocol);
      }
      var length: nat := header.value[1] % 128;
      var size := if length == 126 then 2 else if length == 127 then 8 else 0;
      if size > 0 {
        var extended := ReadFull(size);
        if extended.Err? {
          return Err(extended.error);
        }
        length := FromBigEndian(extended.value);
      }
      assert input == old(input)[2..][size..];
      if length > F.MAX_MESSAGE_BYTES {
        return Err(F.TooLarge);
      }
      r := ReadPayload(final, opcode, header.value[1] >= 128, length);
    }

    method ReadPayload(final: bool, opcode: F.Opcode, masked: bool, length: nat) returns (r: Result<F.Frame, F.Failure>)
      modifies this`input
      ensures F.FrameRead(r, input) == F.ReadPayload(final, opcode, masked, length, old(input))
    {
      hide F.Masked;
      var mask: F.Mask := [0, 0, 0, 0];
      if masked {
        var read := ReadFull(4);
        if read.Err? {
          return Err(read.error);
        }
        mask := read.value;
      }
      var body := ReadFull(length);
      if body.Err? {
        return Err(body.error);
      }
      var payload := new Byte[length](i requires 0 <= i < length => body.value[i]);
      assert payload[..] == body.value;
      if masked {
        Mask(payload, mask);
      }
      return Ok(F.Frame(final, opcode, payload[..]));
    }

    /** ReadMessage: the next text or binary message, pings answered on the way. */
    method ReadMessage() returns (r: Result<Bytes, F.Failure>, ghost failed: bool)
      requires Valid()
      modifies this
      ensures Valid()
      ensures r != Err(F.WriteFailed) ==>
                r == MessageFrom(old(input), None).result && input == MessageFrom(old(input), None).rest
      ensures r == Err(F.WriteFailed) ==> failed
      ensures !failed ==> RepliesOf(sent) == RepliesOf(old(sent)) + MessageFrom(old(input), None).replies
    {
      hide F.ReadFrame, Wire, RepliesOf, MessageFrom;
      ghost var all := MessageFrom(input, None);
      ghost var before, replies := RepliesOf(sent), [];
      assert before + [] == before && [] + all.replies == all.replies;
      failed := false;
      var message: Option<Bytes> := None;
      while true
        invariant Valid() && !failed && RepliesOf(sent) == before + replies
        invariant var later := MessageFrom(input, message);
                  all == MessageRead(later.result, replies + later.replies, later.rest)
        decreases |input|
      {
        MessageStep(input, message);
        ghost var now := replies;
        var frame := ReadFrame();
        if frame.Err? {
          return Err(frame.error), false;
        }
        var opcode, payload := frame.value.opcode, frame.value.payload;
        replies := replies + RepliesTo(frame.value);
        if opcode == OP_PING {
          var ok := WriteFrame(OP_PONG, payload);
          if !ok {
            return Err(F.WriteFailed), true;
          }
          assert before + now + RepliesTo(frame.value) == before + replies;
        } else if opcode == OP_PONG {
          assert replies == now;
        } else if opcode == OP_CLOSE {
          var ok := WriteFrame(OP_CLOSE, []);
          assert before + now + RepliesTo(frame.value) == before + replies;
          return Err(F.EndOfStream), !ok;
        } else {
          assert replies == now;
          if opcode == OP_TEXT || opcode == OP_BINARY {
            if message.Some? {
              return Err(F.Protocol), false;
            }
            message := Some(payload);
          } else if opcode == OP_CONTINUATION {
            if message.None? {
              return Err(F.Protocol), false;
            }
            if |message.value| + |payload| > F.MAX_MESSAGE_BYTES {
              return Err(F.TooLarge), false;
            }
            message := Some(message.value + payload);
          } else {
            return Err(F.Protocol), false;
          }
          if frame.value.final {
            return Ok(message.value), false;
          }
        }
        assert all.replies == replies + MessageFrom(input, message).replies;
      }
    }
  }

  /** Masks, or unmasks, a payload in place. */
  method Mask(payload: array<Byte>, mask: F.Mask)
    modifies payload
    ensures payload[..] == F.Masked(old(payload[..]), mask)
    ensures W.Scrambled(payload[..], old(payload[..]), mask)
  {
    hide F.XorByte, W.Scrambled;
    ghost var before := payload[..];
    W.MaskedIsScrambled(before, mask);
    for i := 0 to payload.Length
      invariant forall k :: 0 <= k < i ==> payload[k] == F.XorByte(before[k], mask[k % 4])
      invariant forall k :: i <= k < payload.Length ==> payload[k] == before[k]
    {
      payload[i] := F.XorByte(payload[i], mask[i % 4]);
    }
  }
}
