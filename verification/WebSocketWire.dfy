/** Frames byte by byte and bit by bit, as sections 5.2 and 5.3 of RFC 6455 lay
    them out: what FrameBytes and ReadFrame come to, without either. */
module WebSocketWire {
  import opened Wrappers
  import opened ByteOrder
  import opened Utf8
  import opened WebSocketFrames

  // ----- bits -----

  /** A bit of a byte, counted from the least significant. */
  predicate Bit(b: nat, k: nat) {
    if k == 0 then b % 2 == 1 else Bit(b / 2, k - 1)
  }

  /** Byte i of the one has exactly the bits in which byte i of the other and byte i % 4 of the mask differ. */
  ghost predicate Scrambled(bytes: Bytes, payload: Bytes, mask: Bytes)
    requires |mask| == 4
  {
    && |bytes| == |payload|
    && forall i, k :: 0 <= i < |payload| && 0 <= k < 8 ==>
         (Bit(bytes[i], k) <==> Bit(payload[i], k) != Bit(mask[i % 4], k))
  }

  lemma {:induction false} XorBit(a: nat, b: nat, k: nat)
    ensures Bit(XorBits(a, b), k) <==> Bit(a, k) != Bit(b, k)
  {
    hide XorBits;
    XorUnfolds(a, b);
    Halves(XorBits(a / 2, b / 2), XorDigit(a % 2, b % 2));
    if k > 0 {
      XorBit(a / 2, b / 2, k - 1);
    }
  }

  lemma MaskedIsScrambled(payload: Bytes, mask: Mask)
    ensures Scrambled(Masked(payload, mask), payload, mask)
  {
    hide XorBits, Bit;
    forall i, k | 0 <= i < |payload| && 0 <= k < 8
      ensures Bit(Masked(payload, mask)[i], k) <==> Bit(payload[i], k) != Bit(mask[i % 4], k)
    {
      XorBit(payload[i], mask[i % 4], k);
    }
  }

  /** Two bytes of the same eight bits are the same. */
  lemma SameBits(a: Byte, b: Byte)
    requires forall k :: 0 <= k < 8 ==> Bit(a, k) == Bit(b, k)
    ensures a == b
  {
    BitsSum(a, 8);
    BitsSum(b, 8);
    SameSums(a, b, 8);
  }

  /** The number of the low bits. */
  function LowBits(b: nat, n: nat): nat {
    if n == 0 then 0 else b % 2 + 2 * LowBits(b / 2, n - 1)
  }

  function Power2(n: nat): nat {
    if n == 0 then 1 else 2 * Power2(n - 1)
  }

  lemma {:induction false} BitsSum(b: nat, n: nat)
    ensures b < Power2(n) ==> LowBits(b, n) == b
  {
    if n > 0 && b < Power2(n) {
      BitsSum(b / 2, n - 1);
    }
  }

  lemma {:induction false} SameSums(a: nat, b: nat, n: nat)
    requires forall k :: 0 <= k < n ==> Bit(a, k) == Bit(b, k)
    ensures LowBits(a, n) == LowBits(b, n)
  {
    if n > 0 {
      assert Bit(a, 0) == Bit(b, 0);
      forall k | 0 <= k < n - 1
        ensures Bit(a / 2, k) == Bit(b / 2, k)
      {
        assert Bit(a, k + 1) == Bit(b, k + 1);
      }
      SameSums(a / 2, b / 2, n - 1);
    }
  }

  lemma ScrambledIs(bytes: Bytes, payload: Bytes, mask: Mask)
    ensures Scrambled(bytes, payload, mask) <==> bytes == Masked(payload, mask)
  {
    hide XorByte, Bit;
    MaskedIsScrambled(payload, mask);
    if Scrambled(bytes, payload, mask) {
      var masked := Masked(payload, mask);
      forall i | 0 <= i < |payload|
        ensures bytes[i] == masked[i]
      {
        assert forall k :: 0 <= k < 8 ==> Bit(bytes[i], k) == Bit(masked[i], k);
        SameBits(bytes[i], masked[i]);
      }
    }
  }

  // ----- frames -----

  /** How many bytes give the length, where the second byte does not. */
  function LengthSize(code: nat): nat {
    if code == 126 then 2 else if code == 127 then 8 else 0
  }

  /** The length after the first two bytes, the most significant byte first. */
  function Announced(bytes: Bytes): nat
    requires |bytes| >= 2 && |bytes| >= 2 + LengthSize(bytes[1] % 128)
  {
    var code, b: seq<int> := bytes[1] % 128, bytes;
    if code == 126 then 0x100 * b[2] + b[3]
    else if code == 127 then
      0x100_0000_0000_0000 * b[2] + 0x1_0000_0000_0000 * b[3] + 0x100_0000_0000 * b[4] + 0x1_0000_0000 * b[5]
      + 0x100_0000 * b[6] + 0x1_0000 * b[7] + 0x100 * b[8] + b[9]
    else code
  }

  /** The bytes are a frame: the final bit and the opcode in the first byte,
      the masking bit and the length in the next ones, the mask if there is one,
      and the payload, scrambled with that mask. */
  ghost predicate Carries(bytes: Bytes, f: Frame, masked: bool) {
    && |bytes| >= 2
    && bytes[0] == (if f.final then 0x80 else 0) + f.opcode
    && (masked <==> bytes[1] >= 0x80)
    && var header := 2 + LengthSize(bytes[1] % 128);
       && |bytes| == header + (if masked then 4 else 0) + |f.payload|
       && Announced(bytes) == |f.payload|
       && if masked then Scrambled(bytes[header + 4..], f.payload, bytes[header..header + 4])
          else bytes[header..] == f.payload
  }

  /** The length is given in as few bytes as it takes. */
  predicate Shortest(bytes: Bytes, length: nat)
    requires |bytes| >= 2
  {
    LengthSize(bytes[1] % 128) == if length < 126 then 0 else if length <= 0xffff then 2 else 8
  }

  /** The bytes are one whole message: its only frame, masked, with its length in the fewest bytes. */
  ghost predicate CarriesAll(bytes: Bytes, opcode: Opcode, payload: Bytes) {
    Carries(bytes, Frame(true, opcode, payload), true) && Shortest(bytes, |payload|)
  }

  lemma FrameIsCarried(opcode: Opcode, payload: Bytes, mask: Mask)
    requires |payload| < TWO_64
    ensures var bytes := FrameBytes(opcode, payload, mask);
            && CarriesAll(bytes, opcode, payload)
            && |bytes| >= |payload| + 4 && bytes[|bytes| - |payload| - 4..|bytes| - |payload|] == mask
  {
    hide Masked, BigEndian, FromBigEndian, Scrambled;
    var length, bytes := |payload|, FrameBytes(opcode, payload, mask);
    var scrambled := Masked(payload, mask);
    ScrambledIs(scrambled, payload, mask);
    Powers256();
    if length < 126 {
      assert bytes == [128 + opcode, 128 + length] + mask + scrambled;
    } else {
      var size, code := if length <= 0xffff then 2 else 8, if length <= 0xffff then 126 else 127;
      var digits := BigEndian(length, size);
      assert bytes == [128 + opcode, 128 + code] + digits + mask + scrambled;
      BigEndianRoundTrip(length, size);
      DigitsOf(digits);
    }
  }

  /** A frame is read exactly where the stream begins with its bytes, in any
      form the layout allows, and is no longer than the limit. */
  lemma ReadIff(stream: Bytes, f: Frame, rest: Bytes)
    ensures ReadFrame(stream) == FrameRead(Ok(f), rest)
            <==> |f.payload| <= 0x400_0000
                 && exists bytes, masked :: stream == bytes + rest && Carries(bytes, f, masked)
  {
    hide ReadFrame, Carries;
    if ReadFrame(stream) == FrameRead(Ok(f), rest) {
      ReadIsCarried(stream, f, rest);
    }
    if |f.payload| <= MAX_MESSAGE_BYTES && exists bytes, masked :: stream == bytes + rest && Carries(bytes, f, masked) {
      var bytes, masked :| stream == bytes + rest && Carries(bytes, f, masked);
      CarriedIsRead(bytes, f, masked, rest);
    }
  }

  /** The header of a stream: two bytes and those of the length. */
  lemma HeaderRead(stream: Bytes)
    requires |stream| >= 2 && stream[0] / 16 % 8 == 0 && |stream| >= 2 + LengthSize(stream[1] % 128)
    ensures var header := 2 + LengthSize(stream[1] % 128);
            if Announced(stream) <= MAX_MESSAGE_BYTES then
              ReadFrame(stream) == ReadPayload(stream[0] >= 128, stream[0] % 16, stream[1] >= 128, Announced(stream),
                                               stream[header..])
            else ReadFrame(stream) == FrameRead(Err(TooLarge), stream[header..])
  {
    hide ReadPayload, FromBigEndian;
    var size := LengthSize(stream[1] % 128);
    assert stream[2..][size..] == stream[2 + size..];
    DigitsOf(stream[2..][..size]);
  }

  /** A frame was read from a whole header with no reserved bits, and the payload after it. */
  lemma ReadParts(stream: Bytes, f: Frame, rest: Bytes)
    requires ReadFrame(stream) == FrameRead(Ok(f), rest)
    ensures |stream| >= 2 && stream[0] / 16 % 8 == 0 && |stream| >= 2 + LengthSize(stream[1] % 128)
    ensures |f.payload| <= MAX_MESSAGE_BYTES && Announced(stream) <= MAX_MESSAGE_BYTES
    ensures ReadPayload(stream[0] >= 128, stream[0] % 16, stream[1] >= 128, Announced(stream),
                        stream[2 + LengthSize(stream[1] % 128)..]) == FrameRead(Ok(f), rest)
  {
    hide ReadPayload, FromBigEndian;
    HeaderRead(stream);
  }

  lemma PayloadParts(final: bool, opcode: Opcode, masked: bool, length: nat, body: Bytes, f: Frame, rest: Bytes)
    requires ReadPayload(final, opcode, masked, length, body) == FrameRead(Ok(f), rest)
    ensures f.final == final && f.opcode == opcode && |f.payload| == length
    ensures var n := (if masked then 4 else 0) + length;
            && n <= |body| && rest == body[n..]
            && if masked then Scrambled(body[4..n], f.payload, body[..4]) else body[..n] == f.payload
  {
    hide Masked, Scrambled;
    if masked {
      var part := body[4..][..length];
      assert part == body[4..4 + length];
      MaskedTwice(part, body[..4]);
      ScrambledIs(part, f.payload, body[..4]);
    }
  }

  lemma SameLength(a: Bytes, b: Bytes)
    requires |a| >= 2 && |a| >= 2 + LengthSize(a[1] % 128) && a <= b
    ensures Announced(a) == Announced(b)
  {
  }

  lemma ReadIsCarried(stream: Bytes, f: Frame, rest: Bytes)
    requires ReadFrame(stream) == FrameRead(Ok(f), rest)
    ensures |f.payload| <= MAX_MESSAGE_BYTES
    ensures exists bytes, masked :: stream == bytes + rest && Carries(bytes, f, masked)
  {
    hide ReadFrame, ReadPayload, FromBigEndian, Scrambled, Announced;
    ReadParts(stream, f, rest);
    var masked, header := stream[1] >= 128, 2 + LengthSize(stream[1] % 128);
    var body := stream[header..];
    PayloadParts(stream[0] >= 128, stream[0] % 16, masked, Announced(stream), body, f, rest);
    var n := (if masked then 4 else 0) + |f.payload|;
    var bytes := stream[..header + n];
    SameLength(bytes, stream);
    assert bytes[header..] == body[..n] && rest == stream[header + n..];
    assert masked ==> bytes[header + 4..] == body[4..n] && bytes[header..header + 4] == body[..4];
    assert Carries(bytes, f, masked);
    assert stream == bytes + rest;
  }

  lemma CarriedIsRead(bytes: Bytes, f: Frame, masked: bool, rest: Bytes)
    requires Carries(bytes, f, masked) && |f.payload| <= MAX_MESSAGE_BYTES
    ensures ReadFrame(bytes + rest) == FrameRead(Ok(f), rest)
  {
    hide ReadFrame, Masked, FromBigEndian, Scrambled, Announced;
    var stream := bytes + rest;
    var header := 2 + LengthSize(bytes[1] % 128);
    SameLength(bytes, stream);
    HeaderRead(stream);
    var body := stream[header..];
    if masked {
      var mask: Mask := bytes[header..header + 4];
      ScrambledIs(bytes[header + 4..], f.payload, mask);
      MaskedTwice(f.payload, mask);
      assert body[..4] == mask && body[4..][..|f.payload|] == bytes[header + 4..];
      assert body[4..][|f.payload|..] == rest;
    } else {
      assert body[..|f.payload|] == f.payload && body[|f.payload|..] == rest;
    }
  }
}
