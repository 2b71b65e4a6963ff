/** The bit stream of byte mode (pkg/encoding/qr/qr.go:167-218): the writer,
    the codewords it makes of some data, and what a reader gets back. */
module BitStream {
  import opened GaloisField

  // ----- numbers as bits -----

  /** The bit of a number with 2^index of weight. */
  function NumberBit(value: nat, index: nat): bool {
    if index == 0 then value % 2 == 1 else NumberBit(value / 2, index - 1)
  }

  /** The low bits of a number, the most significant first. */
  function BitsOf(value: nat, width: nat): (bits: seq<bool>)
    ensures |bits| == width
  {
    seq(width, k requires 0 <= k < width => NumberBit(value, width - 1 - k))
  }

  /** The number that bits stand for, the most significant first. */
  function NumberOf(bits: seq<bool>): nat {
    if bits == [] then 0 else 2 * NumberOf(bits[..|bits| - 1]) + (if bits[|bits| - 1] then 1 else 0)
  }

  lemma {:induction false} NumberRoundTrip(value: nat, width: nat)
    requires value < Pow2(width)
    ensures NumberOf(BitsOf(value, width)) == value
  {
    if width > 0 {
      NumberRoundTrip(value / 2, width - 1);
      var bits, front := BitsOf(value, width), BitsOf(value / 2, width - 1);
      forall k | 0 <= k < width - 1
        ensures bits[k] == front[k]
      {
        assert bits[k] == NumberBit(value, width - 1 - k) == NumberBit(value / 2, width - 2 - k);
      }
      assert bits[..width - 1] == front;
      assert bits[width - 1] == NumberBit(value, 0);
    }
  }

  // ----- codewords as bits -----

  /** The bits of a codeword in the order they are written, the most significant first. */
  function WordBits(w: Word): (bits: seq<bool>)
    ensures |bits| == 8
  {
    seq(8, k requires 0 <= k < 8 => w[7 - k])
  }

  function FlatBits(words: seq<Word>): (bits: seq<bool>)
    ensures |bits| == 8 * |words|
  {
    if words == [] then [] else FlatBits(words[..|words| - 1]) + WordBits(words[|words| - 1])
  }

  lemma {:induction false} FlatBitsAt(words: seq<Word>, index: nat)
    requires index < 8 * |words|
    ensures FlatBits(words)[index] == words[index / 8][7 - index % 8]
  {
    if index < 8 * (|words| - 1) {
      FlatBitsAt(words[..|words| - 1], index);
    }
  }

  /** Eight bits at a time, the most significant first. */
  function Words(bits: seq<bool>): (words: seq<Word>)
    ensures |words| == |bits| / 8
  {
    seq(|bits| / 8, n requires 0 <= n < |bits| / 8 => seq(8, k requires 0 <= k < 8 => bits[8 * n + 7 - k]))
  }

  lemma WordsOfFlatBits(words: seq<Word>)
    ensures Words(FlatBits(words)) == words
  {
    var bits := FlatBits(words);
    forall n | 0 <= n < |words|
      ensures Words(bits)[n] == words[n]
    {
      forall k | 0 <= k < 8
        ensures Words(bits)[n][k] == words[n][k]
      {
        FlatBitsAt(words, 8 * n + 7 - k);
        assert (8 * n + 7 - k) / 8 == n && (8 * n + 7 - k) % 8 == 7 - k;
      }
    }
  }

  lemma {:induction false} FlatBitsAppend(xs: seq<Word>, ys: seq<Word>)
    ensures FlatBits(xs + ys) == FlatBits(xs) + FlatBits(ys)
  {
    if ys == [] {
      assert xs + ys == xs;
    } else {
      assert (xs + ys)[..|xs + ys| - 1] == xs + ys[..|ys| - 1];
      FlatBitsAppend(xs, ys[..|ys| - 1]);
    }
  }

  // ----- the writer -----

  /** bitWriter: appends bits most significant first. */
  class BitWriter {
    var bytes: seq<Word>
    var count: nat

    /** The bytes hold the bits written, and zeros to the end of the last byte. */
    ghost predicate Valid()
      reads this
    {
      && |bytes| == (count + 7) / 8
      && forall k :: count <= k < 8 * |bytes| ==> !FlatBits(bytes)[k]
    }

    ghost function Contents(): seq<bool>
      reads this
      requires Valid()
    {
      FlatBits(bytes)[..count]
    }

    constructor ()
      ensures Valid() && Contents() == []
    {
      bytes, count := [], 0;
    }

    method Write(value: nat, width: nat)
      requires Valid()
      modifies this
      ensures Valid() && Contents() == old(Contents()) + BitsOf(value, width)
      ensures count == old(count) + width
    {
      ghost var before := Contents();
      var i := width;
      while i > 0
        invariant 0 <= i <= width
        invariant Valid() && count == old(count) + width - i
        invariant Contents() == before + BitsOf(value, width)[..width - i]
      {
        i := i - 1;
        WriteBit(NumberBit(value, i));
        assert BitsOf(value, width)[..width - i] == BitsOf(value, width)[..width - i - 1] + [NumberBit(value, i)];
      }
      assert BitsOf(value, width)[..width] == BitsOf(value, width);
    }

    method WriteBit(bit: bool)
      requires Valid()
      modifies this
      ensures Valid() && Contents() == old(Contents()) + [bit] && count == old(count) + 1
    {
      hide WordBits, FlatBits, ZERO;
      ghost var contents := Contents();
      if count % 8 == 0 {
        AppendZero(bytes);
        bytes := bytes + [ZERO];
      }
      ghost var bits := FlatBits(bytes);
      assert bits[..count] == contents && forall k :: count <= k < |bits| ==> !bits[k];
      assert bits[count := true][..count + 1] == contents + [true] && bits[..count + 1] == contents + [bits[count]];
      if bit {
        var last := |bytes| - 1;
        var w := bytes[last][7 - count % 8 := true];
        SetWordBit(bytes[last], count % 8);
        assert bytes == bytes[..last] + [bytes[last]] && count == 8 * last + count % 8;
        SetBit(bytes[..last], bytes[last], w, count % 8);
        bytes := bytes[..last] + [w];
      }
      count := count + 1;
    }
  }

  lemma AppendZero(bytes: seq<Word>)
    ensures FlatBits(bytes + [ZERO]) == FlatBits(bytes) + seq(8, k => false)
  {
    assert (bytes + [ZERO])[..|bytes|] == bytes;
  }

  /** Setting a bit of the last byte sets that bit of the stream. */
  lemma SetBit(front: seq<Word>, w: Word, w': Word, r: nat)
    requires r < 8 && WordBits(w') == WordBits(w)[r := true]
    ensures FlatBits(front + [w']) == FlatBits(front + [w])[8 * |front| + r := true]
  {
    var a, b := FlatBits(front), WordBits(w);
    FlatBitsSnoc(front, w);
    FlatBitsSnoc(front, w');
    UpdateRight(a, b, r);
  }

  lemma UpdateRight(a: seq<bool>, b: seq<bool>, r: nat)
    requires r < |b|
    ensures (a + b)[|a| + r := true] == a + b[r := true]
  {
  }

  lemma FlatBitsSnoc(words: seq<Word>, w: Word)
    ensures FlatBits(words + [w]) == FlatBits(words) + WordBits(w)
  {
    assert (words + [w])[..|words|] == words;
  }

  lemma SetWordBit(w: Word, r: nat)
    requires r < 8
    ensures WordBits(w[7 - r := true]) == WordBits(w)[r := true]
  {
  }
}
