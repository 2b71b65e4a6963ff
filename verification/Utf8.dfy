/** UTF-8 as Go's unicode/utf8 reads and writes it: the byte forms that num-val
    matching (pkg/abnf/parse.go) compares an input with. */
module Utf8 {

  type Byte = b: int | 0 <= b < 256
  type Bytes = seq<Byte>

  const RUNE_ERROR := 0xFFFD
  const MAX_RUNE := 0x10FFFF

  predicate IsSurrogate(r: int) {
    0xD800 <= r <= 0xDFFF
  }

  /** A Unicode scalar value: what UTF-8 can encode. */
  predicate IsScalar(r: int) {
    0 <= r <= MAX_RUNE && !IsSurrogate(r)
  }

  /** The bytes of `string(rune(r))`; anything but a scalar value is written as U+FFFD. */
  function EncodeRune(r: int): (b: Bytes)
    ensures 1 <= |b| <= 4
  {
    if !IsScalar(r) then [0xEF, 0xBF, 0xBD]
    else if r < 0x80 then [r]
    else if r < 0x800 then [0xC0 + r / 64, 0x80 + r % 64]
    else if r < 0x10000 then [0xE0 + r / 4096, 0x80 + r / 64 % 64, 0x80 + r % 64]
    else [0xF0 + r / 262144, 0x80 + r / 4096 % 64, 0x80 + r / 64 % 64, 0x80 + r % 64]
  }

  function EncodeRunes(runes: seq<int>): Bytes {
    if runes == [] then [] else EncodeRunes(runes[..|runes| - 1]) + EncodeRune(runes[|runes| - 1])
  }

  datatype Decoded = Decoded(rune: int, size: nat) {
    /** Whether decoding failed, on empty or on invalid input. */
    predicate Failed() {
      rune == RUNE_ERROR && size <= 1
    }
  }

  predicate IsContinuation(b: Byte) {
    0x80 <= b < 0xC0
  }

  /** The range of second bytes that a three-byte form starting with `first` accepts. */
  predicate AcceptsSecond3(first: Byte, second: Byte) {
    (if first == 0xE0 then 0xA0 else 0x80) <= second <= (if first == 0xED then 0x9F else 0xBF)
  }

  predicate AcceptsSecond4(first: Byte, second: Byte) {
    (if first == 0xF0 then 0x90 else 0x80) <= second <= (if first == 0xF4 then 0x8F else 0xBF)
  }

  /** The bits read so far, followed by the six of a continuation byte. */
  function Join(prefix: int, next: int): int {
    prefix * 64 + (next - 0x80)
  }

  /** utf8.DecodeRune: the first rune of the bytes and its width. */
  function DecodeRune(s: Bytes): (d: Decoded)
    ensures d.size <= |s|
  {
    if |s| == 0 then Decoded(RUNE_ERROR, 0)
    else if s[0] < 0x80 then Decoded(s[0], 1)
    else if 0xC2 <= s[0] < 0xE0 && |s| >= 2 && IsContinuation(s[1]) then
      Decoded(Join(s[0] - 0xC0, s[1]), 2)
    else if 0xE0 <= s[0] < 0xF0 && |s| >= 3 && AcceptsSecond3(s[0], s[1]) && IsContinuation(s[2]) then
      Decoded(Join(Join(s[0] - 0xE0, s[1]), s[2]), 3)
    else if 0xF0 <= s[0] < 0xF5 && |s| >= 4 && AcceptsSecond4(s[0], s[1])
            && IsContinuation(s[2]) && IsContinuation(s[3]) then
      Decoded(Join(Join(Join(s[0] - 0xF0, s[1]), s[2]), s[3]), 4)
    else Decoded(RUNE_ERROR, 1)
  }

  lemma SplitJoin(prefix: int, next: Byte)
    requires IsContinuation(next)
    ensures Join(prefix, next) / 64 == prefix && Join(prefix, next) % 64 == next - 0x80
  {
  }

  lemma JoinSplit(r: int)
    ensures Join(r / 64, 0x80 + r % 64) == r
  {
  }

  /** A scalar value is read back from its encoding, whatever follows it. */
  lemma DecodeEncoded(r: int, s: Bytes)
    requires IsScalar(r) && EncodeRune(r) <= s
    ensures DecodeRune(s) == Decoded(r, |EncodeRune(r)|)
  {
    var b := EncodeRune(r);
    assert forall k :: 0 <= k < |b| ==> s[k] == b[k];
    JoinSplit(r);
    JoinSplit(r / 64);
    JoinSplit(r / 4096);
    DivideTwice(r);
  }

  lemma DivideTwice(r: int)
    ensures r / 64 / 64 == r / 4096 && r / 4096 / 64 == r / 262144
  {
  }

  /** What decoding returns without failing is a scalar value, and the bytes it read are its encoding. */
  lemma EncodeDecoded(s: Bytes)
    requires !DecodeRune(s).Failed()
    ensures IsScalar(DecodeRune(s).rune)
    ensures EncodeRune(DecodeRune(s).rune) == s[..DecodeRune(s).size]
  {
    var d := DecodeRune(s);
    if d.size == 2 {
      SplitJoin(s[0] - 0xC0, s[1]);
    } else if d.size == 3 {
      SplitJoin(s[0] - 0xE0, s[1]);
      SplitJoin(Join(s[0] - 0xE0, s[1]), s[2]);
      DivideTwice(d.rune);
    } else if d.size == 4 {
      SplitJoin(s[0] - 0xF0, s[1]);
      SplitJoin(Join(s[0] - 0xF0, s[1]), s[2]);
      SplitJoin(Join(Join(s[0] - 0xF0, s[1]), s[2]), s[3]);
      DivideTwice(d.rune);
    }
  }

  // ----- section 3 of RFC 3629 -----

  /** One to four bytes, the bits of the value shared out among them, and in no more bytes than it takes. */
  predicate Spells(b: seq<int>, r: int) {
    || (|b| == 1 && r == b[0] && 0 <= r < 0x80)
    || (|b| == 2 && 0x80 <= r < 0x800 && 0xC0 <= b[0] < 0xE0 && 0x80 <= b[1] < 0xC0
        && r == 0x40 * (b[0] - 0xC0) + (b[1] - 0x80))
    || (|b| == 3 && 0x800 <= r < 0x1_0000 && 0xE0 <= b[0] < 0xF0 && 0x80 <= b[1] < 0xC0 && 0x80 <= b[2] < 0xC0
        && r == 0x1000 * (b[0] - 0xE0) + 0x40 * (b[1] - 0x80) + (b[2] - 0x80))
    || (|b| == 4 && 0x1_0000 <= r < 0x11_0000 && 0xF0 <= b[0] < 0xF8 && 0x80 <= b[1] < 0xC0 && 0x80 <= b[2] < 0xC0
        && 0x80 <= b[3] < 0xC0
        && r == 0x4_0000 * (b[0] - 0xF0) + 0x1000 * (b[1] - 0x80) + 0x40 * (b[2] - 0x80) + (b[3] - 0x80))
  }

  lemma EncodingSpells(r: int)
    requires IsScalar(r)
    ensures Spells(EncodeRune(r), r)
  {
    DivideTwice(r);
    assert r == 64 * (r / 64) + r % 64;
    assert r / 64 == 64 * (r / 64 / 64) + r / 64 % 64;
    assert r / 4096 == 64 * (r / 4096 / 64) + r / 4096 % 64;
  }

  /** No other bytes spell a value. */
  lemma OneSpelling(b: Bytes, r: int)
    requires Spells(b, r) && IsScalar(r)
    ensures b == EncodeRune(r)
  {
    if |b| == 2 {
      SplitJoin(b[0] - 0xC0, b[1]);
    } else if |b| == 3 {
      SplitJoin(b[0] - 0xE0, b[1]);
      SplitJoin(Join(b[0] - 0xE0, b[1]), b[2]);
      DivideTwice(r);
    } else if |b| == 4 {
      SplitJoin(b[0] - 0xF0, b[1]);
      SplitJoin(Join(b[0] - 0xF0, b[1]), b[2]);
      SplitJoin(Join(Join(b[0] - 0xF0, b[1]), b[2]), b[3]);
      DivideTwice(r);
    }
  }

  /** Decoding succeeds if and only if the bytes begin with those that spell a scalar value. */
  lemma RuneDecodesIff(s: Bytes, r: int, size: nat)
    ensures (DecodeRune(s) == Decoded(r, size) && !DecodeRune(s).Failed())
            <==> IsScalar(r) && size <= |s| && Spells(s[..size], r)
  {
    if DecodeRune(s) == Decoded(r, size) && !DecodeRune(s).Failed() {
      EncodeDecoded(s);
      EncodingSpells(r);
    }
    if IsScalar(r) && size <= |s| && Spells(s[..size], r) {
      OneSpelling(s[..size], r);
      DecodeEncoded(r, s);
    }
  }

  /** Values are spelled one after the other, and U+FFFD for what is no scalar value. */
  lemma {:induction false} SeriesSpells(runes: seq<int>, k: nat)
    requires k < |runes|
    ensures EncodeRunes([]) == []
    ensures EncodeRunes(runes) == EncodeRunes(runes[..k]) + EncodeRune(runes[k]) + EncodeRunes(runes[k + 1..])
    ensures Spells(EncodeRune(runes[k]), if IsScalar(runes[k]) then runes[k] else 0xFFFD)
    decreases |runes|
  {
    hide EncodeRune, Spells;
    var front, last := runes[..|runes| - 1], runes[|runes| - 1];
    RuneSpells(runes[k]);
    if k < |front| {
      SeriesSpells(front, k);
      assert front[..k] == runes[..k];
      assert runes[k + 1..][..|runes| - 1 - (k + 1)] == front[k + 1..];
    } else {
      assert runes[..k] == front && runes[k + 1..] == [];
    }
  }

  lemma RuneSpells(r: int)
    ensures Spells(EncodeRune(r), if IsScalar(r) then r else 0xFFFD)
  {
    if IsScalar(r) {
      EncodingSpells(r);
    }
  }
}
