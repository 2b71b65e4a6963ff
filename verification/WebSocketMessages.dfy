/** Messages in pkg/cdp/websocket.go:226-271, section 5.4 of RFC 6455: their
    fragments joined, control frames answered on the way. */
module WebSocketMessages {
  import opened Wrappers
  import opened ByteOrder
  import opened Utf8
  import opened WebSocketFrames

  const OP_CONTINUATION: Opcode := 0x0
  const OP_TEXT: Opcode := 0x1
  const OP_BINARY: Opcode := 0x2
  const OP_CLOSE: Opcode := 0x8
  const OP_PING: Opcode := 0x9
  const OP_PONG: Opcode := 0xa

  /** A frame sent in answer: its opcode and payload. */
  datatype Reply = Reply(opcode: Opcode, payload: Bytes)

  datatype MessageRead = MessageRead(result: Result<Bytes, Failure>, replies: seq<Reply>, rest: Bytes)

  // ----- the loop, as a function -----

  /** What one frame does to the message so far: it goes on with the message, or ends. */
  datatype Turn = Continue(message: Option<Bytes>) | End(result: Result<Bytes, Failure>)

  function TurnOf(frame: Frame, message: Option<Bytes>): Turn {
    if frame.opcode == OP_PING || frame.opcode == OP_PONG then Continue(message)
    else if frame.opcode == OP_CLOSE then End(Err(EndOfStream))
    else if frame.opcode == OP_TEXT || frame.opcode == OP_BINARY then
      if message.Some? then End(Err(Protocol)) else Added(frame, frame.payload)
    else if frame.opcode == OP_CONTINUATION then
      if message.None? then End(Err(Protocol))
      else if |message.value| + |frame.payload| > MAX_MESSAGE_BYTES then End(Err(TooLarge))
      else Added(frame, message.value + frame.payload)
    else End(Err(Protocol))
  }

  function Added(frame: Frame, message: Bytes): Turn {
    if frame.final then End(Ok(message)) else Continue(Some(message))
  }

  function RepliesTo(frame: Frame): seq<Reply> {
    if frame.opcode == OP_PING then [Reply(OP_PONG, frame.payload)]
    else if frame.opcode == OP_CLOSE then [Reply(OP_CLOSE, [])]
    else []
  }

  /** Reading goes on with the message so far. */
  function MessageFrom(stream: Bytes, message: Option<Bytes>): MessageRead
    decreases |stream|
  {
    var read := ReadFrame(stream);
    if read.result.Err? then MessageRead(Err(read.result.error), [], read.rest)
    else
      var frame := read.result.value;
      match TurnOf(frame, message)
      case End(result) => MessageRead(result, RepliesTo(frame), read.rest)
      case Continue(next) =>
        var later := MessageFrom(read.rest, next);
        later.(replies := RepliesTo(frame) + later.replies)
  }

  // ----- what a message is -----

  /** The frames that come first in a stream, and what follows them. */
  ghost predicate Frames(stream: Bytes, frames: seq<Frame>, rest: Bytes)
    decreases frames
  {
    if frames == [] then rest == stream
    else var read := ReadFrame(stream); read.result == Ok(frames[0]) && Frames(read.rest, frames[1..], rest)
  }

  predicate IsData(frame: Frame) {
    frame.opcode < 8
  }

  /** The frames that carry data. */
  function DataFrames(frames: seq<Frame>): seq<Frame> {
    if frames == [] then []
    else (if IsData(frames[0]) then [frames[0]] else []) + DataFrames(frames[1..])
  }

  /** Their payloads, one after the other. */
  function Payloads(frames: seq<Frame>): Bytes {
    if frames == [] then [] else frames[0].payload + Payloads(frames[1..])
  }

  function Pongs(frames: seq<Frame>): seq<Reply> {
    if frames == [] then [] else RepliesTo(frames[0]) + Pongs(frames[1..])
  }

  /** A message's fragments without its last: a text or binary frame first,
      continuations after it, none of them final. */
  ghost predicate OpenFragments(data: seq<Frame>) {
    && (forall i :: 0 <= i < |data| ==> !data[i].final)
    && (forall i :: 0 < i < |data| ==> data[i].opcode == OP_CONTINUATION)
    && (|data| > 0 ==> data[0].opcode == OP_TEXT || data[0].opcode == OP_BINARY)
    && |Payloads(data)| <= MAX_MESSAGE_BYTES
  }

  ghost predicate OnlyPingsAndPongs(frames: seq<Frame>) {
    forall i :: 0 <= i < |frames| && !IsData(frames[i]) ==> frames[i].opcode == OP_PING || frames[i].opcode == OP_PONG
  }

  /** Frames after which a message is still open, or has not begun. */
  ghost predicate Unfinished(frames: seq<Frame>) {
    OnlyPingsAndPongs(frames) && OpenFragments(DataFrames(frames))
  }

  /** The message so far. */
  function SoFar(frames: seq<Frame>): Option<Bytes> {
    if DataFrames(frames) == [] then None else Some(Payloads(DataFrames(frames)))
  }

  // ----- unfinished messages -----

  lemma {:induction false} DataFramesSnoc(frames: seq<Frame>, frame: Frame)
    ensures DataFrames(frames + [frame]) == DataFrames(frames) + (if IsData(frame) then [frame] else [])
    ensures Pongs(frames + [frame]) == Pongs(frames) + RepliesTo(frame)
  {
    hide RepliesTo, IsData;
    if frames == [] {
      assert frames + [frame] == [frame];
    } else {
      assert (frames + [frame])[1..] == frames[1..] + [frame];
      DataFramesSnoc(frames[1..], frame);
    }
  }

  lemma {:induction false} PayloadsSnoc(frames: seq<Frame>, frame: Frame)
    ensures Payloads(frames + [frame]) == Payloads(frames) + frame.payload
  {
    if frames == [] {
      assert frames + [frame] == [frame];
    } else {
      assert (frames + [frame])[1..] == frames[1..] + [frame];
      PayloadsSnoc(frames[1..], frame);
    }
  }

  lemma {:induction false} FramesSnoc(stream: Bytes, frames: seq<Frame>, middle: Bytes, frame: Frame)
    requires Frames(stream, frames, middle) && ReadFrame(middle).result == Ok(frame)
    ensures Frames(stream, frames + [frame], ReadFrame(middle).rest)
    decreases frames
  {
    hide ReadFrame;
    if frames == [] {
      assert frames + [frame] == [frame];
    } else {
      assert (frames + [frame])[1..] == frames[1..] + [frame];
      FramesSnoc(ReadFrame(stream).rest, frames[1..], middle, frame);
    }
  }

  lemma ControlSnoc(frames: seq<Frame>, frame: Frame)
    requires OnlyPingsAndPongs(frames)
    ensures OnlyPingsAndPongs(frames + [frame]) <==> IsData(frame) || frame.opcode == OP_PING || frame.opcode == OP_PONG
  {
    assert (frames + [frame])[|frames|] == frame;
    assert forall i :: 0 <= i < |frames| ==> (frames + [frame])[i] == frames[i];
  }

  lemma FragmentsSnoc(data: seq<Frame>, frame: Frame)
    requires OpenFragments(data) && |frame.payload| <= MAX_MESSAGE_BYTES
    ensures OpenFragments(data + [frame]) <==>
              && !frame.final && |Payloads(data)| + |frame.payload| <= MAX_MESSAGE_BYTES
              && if data == [] then frame.opcode in {OP_TEXT, OP_BINARY} else frame.opcode == OP_CONTINUATION
    ensures Payloads(data + [frame]) == Payloads(data) + frame.payload
    ensures data == [] ==> Payloads(data + [frame]) == frame.payload && Payloads(data) == []
  {
    PayloadsSnoc(data, frame);
    var all := data + [frame];
    assert all[|data|] == frame;
    assert forall i :: 0 <= i < |data| ==> all[i] == data[i];
  }

  /** A frame leaves the message open exactly when it goes on as a message
      does, and then the loop holds its payloads so far. */
  lemma OpenIff(frames: seq<Frame>, frame: Frame)
    requires Unfinished(frames) && |frame.payload| <= MAX_MESSAGE_BYTES
    ensures TurnOf(frame, SoFar(frames)).Continue? <==> Unfinished(frames + [frame])
    ensures Unfinished(frames + [frame]) ==> TurnOf(frame, SoFar(frames)) == Continue(SoFar(frames + [frame]))
  {
    hide DataFrames, OpenFragments, OnlyPingsAndPongs, Payloads;
    DataFramesSnoc(frames, frame);
    ControlSnoc(frames, frame);
    if IsData(frame) {
      FragmentsSnoc(DataFrames(frames), frame);
    } else {
      assert DataFrames(frames) + [] == DataFrames(frames);
    }
  }

  // ----- what reading a message does -----

  /** How a message ends, after frames that leave it open. */
  ghost predicate Ends(frames: seq<Frame>, last: FrameRead, result: Result<Bytes, Failure>) {
    if last.result.Err? then result == Err(last.result.error)
    else
      var frame, started := last.result.value, DataFrames(frames) != [];
      && (frame.opcode == OP_CLOSE ==> result == Err(EndOfStream))
      && (started && (frame.opcode == OP_TEXT || frame.opcode == OP_BINARY) ==> result == Err(Protocol))
      && (!started && frame.opcode == OP_CONTINUATION ==> result == Err(Protocol))
      && (frame.opcode !in {OP_CONTINUATION, OP_TEXT, OP_BINARY, OP_CLOSE, OP_PING, OP_PONG} ==>
          result == Err(Protocol))
      && (started && frame.opcode == OP_CONTINUATION ==>
            if |Payloads(DataFrames(frames)) + frame.payload| > MAX_MESSAGE_BYTES then result == Err(TooLarge)
            else frame.final && result == Ok(Payloads(DataFrames(frames + [frame]))))
      && (!started && (frame.opcode == OP_TEXT || frame.opcode == OP_BINARY) ==>
            frame.final && result == Ok(Payloads(DataFrames(frames + [frame]))))
      && frame.opcode != OP_PING && frame.opcode != OP_PONG
  }

  lemma EndsAsTurn(frames: seq<Frame>, last: FrameRead, result: Result<Bytes, Failure>)
    requires Unfinished(frames) && last.result.Ok? && TurnOf(last.result.value, SoFar(frames)) == End(result)
    ensures Ends(frames, last, result)
  {
    var frame := last.result.value;
    DataFramesSnoc(frames, frame);
    PayloadsSnoc(DataFrames(frames), frame);
    if DataFrames(frames) == [] {
      assert Payloads(DataFrames(frames)) == [] && [] + frame.payload == frame.payload;
    }
  }

  /** After frames that leave the message open, every stream is read as one
      message: more frames that leave it open, and the frame that ends it. */
  lemma {:induction false} ReadOn(stream: Bytes, frames: seq<Frame>, middle: Bytes)
      returns (all: seq<Frame>, rest: Bytes)
    requires Frames(stream, frames, middle) && Unfinished(frames)
    ensures Frames(stream, all, rest) && Unfinished(all) && frames <= all
    ensures var r, last := MessageFrom(middle, SoFar(frames)), ReadFrame(rest);
            && Ends(all, last, r.result) && r.rest == last.rest
            && Pongs(frames) + r.replies == Pongs(all) + (if last.result.Ok? then RepliesTo(last.result.value) else [])
    decreases |middle|
  {
    hide ReadFrame, Unfinished, Ends, TurnOf, SoFar, Pongs, Frames, RepliesTo;
    var read := ReadFrame(middle);
    all, rest := frames, middle;
    if read.result.Err? {
      EndsInFailure(frames, read);
    } else {
      var frame := read.result.value;
      OpenIff(frames, frame);
      if TurnOf(frame, SoFar(frames)).End? {
        EndsAsTurn(frames, read, TurnOf(frame, SoFar(frames)).result);
      } else {
        FramesSnoc(stream, frames, middle, frame);
        DataFramesSnoc(frames, frame);
        all, rest := ReadOn(stream, frames + [frame], read.rest);
        assert (Pongs(frames) + RepliesTo(frame)) + MessageFrom(read.rest, SoFar(frames + [frame])).replies
            == Pongs(frames) + MessageFrom(middle, SoFar(frames)).replies;
      }
    }
  }

  lemma EndsInFailure(frames: seq<Frame>, last: FrameRead)
    requires last.result.Err?
    ensures Ends(frames, last, Err(last.result.error))
  {
  }

  /** What the pings among frames carry. */
  function PingsIn(frames: seq<Frame>): seq<Bytes> {
    if frames == [] then []
    else (if frames[0].opcode == 0x9 then [frames[0].payload] else []) + PingsIn(frames[1..])
  }

  function PongsFor(payloads: seq<Bytes>): (pongs: seq<Reply>)
    ensures |pongs| == |payloads|
  {
    seq(|payloads|, i requires 0 <= i < |payloads| => Reply(0xa, payloads[i]))
  }

  /** Each ping is answered by a pong that carries the same, in order. */
  lemma {:induction false} PongsAnswerPings(frames: seq<Frame>)
    requires OnlyPingsAndPongs(frames)
    ensures Pongs(frames) == PongsFor(PingsIn(frames))
  {
    if frames != [] {
      var frame, later := frames[0], frames[1..];
      assert OnlyPingsAndPongs(later);
      PongsAnswerPings(later);
      assert PongsFor([frame.payload] + PingsIn(later)) == [Reply(0xa, frame.payload)] + PongsFor(PingsIn(later));
    }
  }

  /** Every stream is read as one message: frames that leave it open, then the
      one that ends it; pings are answered in order, and a close. */
  lemma OneMessage(stream: Bytes) returns (frames: seq<Frame>, rest: Bytes)
    ensures Frames(stream, frames, rest) && Unfinished(frames)
    ensures var r, last := MessageFrom(stream, None), ReadFrame(rest);
            && Ends(frames, last, r.result) && r.rest == last.rest
            && r.replies == PongsFor(PingsIn(frames))
                            + (if last.result.Ok? && last.result.value.opcode == 0x8 then [Reply(0x8, [])] else [])
  {
    hide MessageFrom, ReadFrame;
    NoFrames(stream);
    frames, rest := ReadOn(stream, [], stream);
    assert Pongs([]) + MessageFrom(stream, None).replies == MessageFrom(stream, None).replies;
    PongsAnswerPings(frames);
  }

  lemma NoFrames(stream: Bytes)
    ensures Frames(stream, [], stream) && Unfinished([]) && SoFar([]) == None && Pongs([]) == []
  {
    assert DataFrames([]) == [] && Payloads([]) == [];
  }

  /** Conversely: the fragments of a message, with pings and pongs between them, are read as their payloads joined. */
  lemma {:induction false} FragmentsAreJoined(before: seq<Frame>, frames: seq<Frame>, middle: Bytes, rest: Bytes)
    requires Frames(middle, frames, rest) && Unfinished(before + frames)
    requires ReadFrame(rest).result.Ok?
    requires var last := ReadFrame(rest).result.value;
             && last.final && IsData(last) && OpenFragments(DataFrames(before + frames) + [last.(final := false)])
    ensures var r := MessageFrom(middle, SoFar(before));
            r.result == Ok(Payloads(DataFrames(before + frames + [ReadFrame(rest).result.value]))) &&
              r.rest == ReadFrame(rest).rest
    decreases frames
  {
    if frames == [] {
      hide ReadFrame, Unfinished, OpenFragments, TurnOf, SoFar, RepliesTo, DataFrames, Payloads, IsData;
      assert before + frames == before && middle == rest;
      LastFragment(before, ReadFrame(rest).result.value);
    } else {
      hide ReadFrame, Unfinished, OpenFragments, TurnOf, SoFar, RepliesTo, DataFrames, Payloads, IsData, MessageFrom;
      var frame := frames[0];
      assert before + frames == (before + [frame]) + frames[1..];
      PayloadFits(middle);
      UnfinishedPrefix(before, before + frames);
      UnfinishedPrefix(before + [frame], before + frames);
      OpenIff(before, frame);
      MessageStep(middle, SoFar(before));
      FragmentsAreJoined(before + [frame], frames[1..], ReadFrame(middle).rest, rest);
    }
  }

  /** One frame of reading a message. */
  lemma MessageStep(stream: Bytes, message: Option<Bytes>)
    ensures var r, read := MessageFrom(stream, message), ReadFrame(stream);
            if read.result.Err? then r == MessageRead(Err(read.result.error), [], read.rest)
            else match TurnOf(read.result.value, message)
              case End(result) => r == MessageRead(result, RepliesTo(read.result.value), read.rest)
              case Continue(next) =>
                var later := MessageFrom(read.rest, next);
                r == MessageRead(later.result, RepliesTo(read.result.value) + later.replies, later.rest)
  {
    hide ReadFrame, TurnOf, RepliesTo;
  }

  lemma PayloadFits(stream: Bytes)
    requires ReadFrame(stream).result.Ok?
    ensures |ReadFrame(stream).result.value.payload| <= MAX_MESSAGE_BYTES
  {
  }

  lemma LastFragment(before: seq<Frame>, last: Frame)
    requires last.final && IsData(last) && OpenFragments(DataFrames(before) + [last.(final := false)])
    ensures TurnOf(last, SoFar(before)) == End(Ok(Payloads(DataFrames(before + [last]))))
  {
    var data, open := DataFrames(before), last.(final := false);
    DataFramesSnoc(before, last);
    PayloadsSnoc(data, last);
    PayloadsSnoc(data, open);
    assert (data + [open])[|data|] == open;
    if data == [] {
      assert Payloads(data) == [] && [] + last.payload == last.payload;
    }
  }

  lemma {:induction false} UnfinishedPrefix(frames: seq<Frame>, more: seq<Frame>)
    requires frames <= more && Unfinished(more)
    ensures Unfinished(frames)
    decreases |more|
  {
    if |frames| == |more| {
      assert frames == more;
    } else {
      var front, last := more[..|more| - 1], more[|more| - 1];
      assert more == front + [last];
      UnfinishedFront(front, last);
      UnfinishedPrefix(frames, front);
    }
  }

  lemma UnfinishedFront(front: seq<Frame>, last: Frame)
    requires Unfinished(front + [last])
    ensures Unfinished(front)
  {
    DataFramesSnoc(front, last);
    var data, all := DataFrames(front), DataFrames(front + [last]);
    assert forall i :: 0 <= i < |front| ==> (front + [last])[i] == front[i];
    if IsData(last) {
      assert forall i :: 0 <= i < |data| ==> all[i] == data[i];
      PayloadsSnoc(data, last);
    } else {
      assert all == data;
    }
  }

  /** A message of the protocol: frames that leave it open, and the final one that ends it. */
  ghost predicate IsMessage(frames: seq<Frame>, last: Frame, message: Bytes) {
    && Unfinished(frames) && IsData(last) && last.final
    && OpenFragments(DataFrames(frames) + [last.(final := false)])
    && message == Payloads(DataFrames(frames + [last]))
  }

  /** A stream begins with the frames of a message. */
  ghost predicate BeginsWithMessage(stream: Bytes, frames: seq<Frame>, rest: Bytes, message: Bytes) {
    Frames(stream, frames, rest) && ReadFrame(rest).result.Ok? &&
      IsMessage(frames, ReadFrame(rest).result.value, message)
  }

  /** A message is returned exactly when the stream begins with its frames. */
  lemma MessageIff(stream: Bytes, message: Bytes)
    ensures MessageFrom(stream, None).result == Ok(message)
       <==> exists frames: seq<Frame>, rest: Bytes :: BeginsWithMessage(stream, frames, rest, message)
  {
    hide MessageFrom, ReadFrame, Frames, Ends, IsMessage;
    if MessageFrom(stream, None).result == Ok(message) {
      var frames, rest := OneMessage(stream);
      if ReadFrame(rest).result.Ok? {
        PayloadFits(rest);
      }
      EndsInMessage(frames, ReadFrame(rest), message);
      assert BeginsWithMessage(stream, frames, rest, message);
    }
    if frames: seq<Frame>, rest: Bytes :| BeginsWithMessage(stream, frames, rest, message) {
      MessageReadBack(stream, frames, rest, message);
    }
  }

  lemma EndsInMessage(frames: seq<Frame>, last: FrameRead, message: Bytes)
    requires Unfinished(frames) && Ends(frames, last, Ok(message))
    requires last.result.Ok? ==> |last.result.value.payload| <= MAX_MESSAGE_BYTES
    ensures last.result.Ok? && IsMessage(frames, last.result.value, message)
  {
    hide DataFrames, Payloads;
    var frame := last.result.value;
    FragmentsSnoc(DataFrames(frames), frame.(final := false));
  }

  lemma MessageReadBack(stream: Bytes, frames: seq<Frame>, rest: Bytes, message: Bytes)
    requires BeginsWithMessage(stream, frames, rest, message)
    ensures MessageFrom(stream, None).result == Ok(message)
  {
    hide MessageFrom, ReadFrame, Frames, Unfinished, OpenFragments, DataFrames, Payloads;
    NoFrames(stream);
    assert [] + frames == frames;
    FragmentsAreJoined([], frames, stream, rest);
  }
}
