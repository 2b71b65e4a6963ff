/** The frames of pkg/cdp/websocket.go:132-224, sections 5.2 and 5.3 of
    RFC 6455: what is written, and what is read from a stream of bytes. */
module WebSocketFrames {
  import opened Wrappers
  import opened ByteOrder
  import opened Utf8

  const MAX_MESSAGE_BYTES: nat := 64 * 1024 * 1024

  type Opcode = o: int | 0 <= o < 16

  type Mask = m: Bytes | |m| == 4 witness [0, 0, 0, 0]

  datatype Frame = Frame(final: bool, opcode: Opcode, payload: Bytes)

  datatype Failure = EndOfStream | CutShort | Protocol | TooLarge | WriteFailed

  /** What a read gives, and the rest of the stream. */
  datatype FrameRead = FrameRead(result: Result<Frame, Failure>, rest: Bytes)

  // ----- masking -----

  function XorDigit(a: nat, b: nat): nat {
    if a == b then 0 else 1
  }

  /** The exclusive or of two numbers, bit by bit. */
  function XorBits(a: nat, b: nat): nat {
    if a == 0 && b == 0 then 0 else 2 * XorBits(a / 2, b / 2) + XorDigit(a % 2, b % 2)
  }

  predicate PowerOfTwo(n: nat) {
    n == 1 || (n > 0 && n % 2 == 0 && PowerOfTwo(n / 2))
  }

  lemma {:induction false} XorBelow(a: nat, b: nat, n: nat)
    requires PowerOfTwo(n) && a < n && b < n
    ensures XorBits(a, b) < n
  {
    if n > 1 && (a > 0 || b > 0) {
      XorBelow(a / 2, b / 2, n / 2);
    }
  }

  lemma XorUnfolds(a: nat, b: nat)
    ensures XorBits(a, b) == 2 * XorBits(a / 2, b / 2) + XorDigit(a % 2, b % 2)
  {
  }

  lemma Halves(half: nat, digit: nat)
    requires digit < 2
    ensures (2 * half + digit) / 2 == half && (2 * half + digit) % 2 == digit
  {
  }

  lemma {:induction false} XorTwice(a: nat, b: nat)
    ensures XorBits(XorBits(a, b), b) == a
    decreases a + b
  {
    if a > 0 || b > 0 {
      hide XorBits;
      var x, y := XorBits(a, b), XorBits(a / 2, b / 2);
      XorUnfolds(a, b);
      Halves(y, XorDigit(a % 2, b % 2));
      XorUnfolds(x, b);
      XorTwice(a / 2, b / 2);
    }
  }

  function XorByte(a: Byte, b: Byte): Byte {
    XorBelow256(a, b);
    XorBits(a, b)
  }

  lemma XorBelow256(a: Byte, b: Byte)
    ensures XorBits(a, b) < 256
  {
    assert PowerOfTwo(16);
    assert PowerOfTwo(256) by {
      assert PowerOfTwo(64);
    }
    XorBelow(a, b, 256);
  }

  lemma XorByteTwice(a: Byte, b: Byte)
    ensures XorByte(XorByte(a, b), b) == a
  {
    XorTwice(a, b);
  }

  function Masked(payload: Bytes, mask: Mask): (masked: Bytes)
    ensures |masked| == |payload|
  {
    seq(|payload|, i requires 0 <= i < |payload| => XorByte(payload[i], mask[i % 4]))
  }

  lemma MaskedTwice(payload: Bytes, mask: Mask)
    ensures Masked(Masked(payload, mask), mask) == payload
  {
    hide XorByte;
    forall i | 0 <= i < |payload|
      ensures Masked(Masked(payload, mask), mask)[i] == payload[i]
    {
      XorByteTwice(payload[i], mask[i % 4]);
    }
  }

  // ----- writing -----

  /** The length of a payload, marked as masked. */
  function LengthField(length: nat): Bytes {
    if length < 126 then [128 + length]
    else if length <= 0xffff then [128 + 126] + BigEndian(length, 2)
    else [128 + 127] + BigEndian(length, 8)
  }

  /** One masked frame, the final one of its message. */
  function FrameBytes(opcode: Opcode, payload: Bytes, mask: Mask): Bytes {
    [128 + opcode] + LengthField(|payload|) + mask + Masked(payload, mask)
  }

  // ----- reading -----

  /** io.ReadFull's error on a stream that is too short. */
  function Missing(stream: Bytes): Failure {
    if stream == [] then EndOfStream else CutShort
  }

  function ReadFrame(stream: Bytes): (r: FrameRead)
    ensures r.result.Ok? ==> |r.rest| <= |stream| - 2 && |r.result.value.payload| <= MAX_MESSAGE_BYTES
    ensures r.result.Err? ==> r.result.error != WriteFailed
  {
    if |stream| < 2 then FrameRead(Err(Missing(stream)), [])
    else if stream[0] / 16 % 8 != 0 then FrameRead(Err(Protocol), stream[2..])
    else
      var code, after := stream[1] % 128, stream[2..];
      var size := if code == 126 then 2 else if code == 127 then 8 else 0;
      if |after| < size then FrameRead(Err(Missing(after)), [])
      else
        var length := if size == 0 then code else FromBigEndian(after[..size]);
        if length > MAX_MESSAGE_BYTES then FrameRead(Err(TooLarge), after[size..])
        else ReadPayload(stream[0] >= 128, stream[0] % 16, stream[1] >= 128, length, after[size..])
  }

  /** The payload, unmasked if it was masked. */
  function ReadPayload(final: bool, opcode: Opcode, masked: bool, length: nat, stream: Bytes): (r: FrameRead)
    ensures r.result.Ok? ==> |r.rest| <= |stream| && |r.result.value.payload| == length
    ensures r.result.Err? ==> r.result.error != WriteFailed
  {
    if masked && |stream| < 4 then FrameRead(Err(Missing(stream)), [])
    else
      var body := if masked then stream[4..] else stream;
      if |body| < length then FrameRead(Err(Missing(body)), [])
      else
        var payload := if masked then Masked(body[..length], stream[..4]) else body[..length];
        FrameRead(Ok(Frame(final, opcode, payload)), body[length..])
  }

  /** The payload of a masked frame is read back, whatever follows it. */
  lemma PayloadRoundTrip(final: bool, opcode: Opcode, payload: Bytes, mask: Mask, rest: Bytes)
    ensures ReadPayload(final, opcode, true, |payload|, mask + Masked(payload, mask) + rest)
         == FrameRead(Ok(Frame(final, opcode, payload)), rest)
  {
    var stream := mask + Masked(payload, mask) + rest;
    assert stream[..4] == mask && stream[4..] == Masked(payload, mask) + rest;
    MaskedTwice(payload, mask);
  }

  /** A frame's header, its length and what follows. */
  lemma ReadFrameParts(stream: Bytes, opcode: Opcode, code: nat, digits: Bytes, length: nat, body: Bytes)
    requires code < 128 && |digits| == (if code == 126 then 2 else if code == 127 then 8 else 0)
    requires length == if |digits| == 0 then code else FromBigEndian(digits)
    requires stream == [128 + opcode, 128 + code] + (digits + body)
    ensures if length <= MAX_MESSAGE_BYTES then ReadFrame(stream) == ReadPayload(true, opcode, true, length, body)
            else ReadFrame(stream).result == Err(TooLarge)
  {
    hide ReadPayload, FromBigEndian;
    assert stream[2..] == digits + body;
    assert stream[2..][..|digits|] == digits && stream[2..][|digits|..] == body;
  }

  /** Reading undoes writing, for every opcode, mask and payload up to the limit, and refuses what is over it. */
  lemma FrameRoundTripIff(opcode: Opcode, payload: Bytes, mask: Mask, rest: Bytes)
    requires |payload| < TWO_64
    ensures var r := ReadFrame(FrameBytes(opcode, payload, mask) + rest);
            if |payload| <= MAX_MESSAGE_BYTES then r == FrameRead(Ok(Frame(true, opcode, payload)), rest)
            else r.result == Err(TooLarge)
  {
    hide Masked, ReadFrame, ReadPayload, BigEndian, FromBigEndian;
    var length, stream := |payload|, FrameBytes(opcode, payload, mask) + rest;
    var body := mask + Masked(payload, mask) + rest;
    Powers256();
    PayloadRoundTrip(true, opcode, payload, mask, rest);
    if length < 126 {
      assert stream == [128 + opcode, 128 + length] + ([] + body);
      ReadFrameParts(stream, opcode, length, [], length, body);
    } else {
      var size, code := if length <= 0xffff then 2 else 8, if length <= 0xffff then 126 else 127;
      var digits := BigEndian(length, size);
      BigEndianRoundTrip(length, size);
      assert stream == [128 + opcode, 128 + code] + (digits + body);
      ReadFrameParts(stream, opcode, code, digits, length, body);
    }
  }
}
