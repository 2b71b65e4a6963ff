/** Byte mode (pkg/encoding/qr/qr.go:146-212, pkg/encoding/qr/tables.go): the
    version that holds some data, the data codewords it fills, and the reader
    that gets the data back. */
module ByteMode {
  import opened Wrappers
  import opened GaloisField
  import opened BitStream

  // ----- the tables -----

  /** How a symbol's codewords divide into error-correction blocks. */
  datatype BlockSpec = BlockSpec(ecPerBlock: nat, group1Blocks: nat, group1Data: nat, group2Blocks: nat,
                                 group2Data: nat)
  {
    function DataCodewords(): nat {
      group1Blocks * group1Data + group2Blocks * group2Data
    }

    function TotalCodewords(): nat {
      DataCodewords() + (group1Blocks + group2Blocks) * ecPerBlock
    }
  }

  const MAX_VERSION: nat := 10

  const BLOCK_SPECS: seq<seq<BlockSpec>> := [
    [BlockSpec(7, 1, 19, 0, 0), BlockSpec(10, 1, 16, 0, 0), BlockSpec(13, 1, 13, 0, 0), BlockSpec(17, 1, 9, 0, 0)],
    [BlockSpec(10, 1, 34, 0, 0), BlockSpec(16, 1, 28, 0, 0), BlockSpec(22, 1, 22, 0, 0), BlockSpec(28, 1, 16, 0, 0)],
    [BlockSpec(15, 1, 55, 0, 0), BlockSpec(26, 1, 44, 0, 0), BlockSpec(18, 2, 17, 0, 0), BlockSpec(22, 2, 13, 0, 0)],
    [BlockSpec(20, 1, 80, 0, 0), BlockSpec(18, 2, 32, 0, 0), BlockSpec(26, 2, 24, 0, 0), BlockSpec(16, 4, 9, 0, 0)],
    [BlockSpec(26, 1, 108, 0, 0), BlockSpec(24, 2, 43, 0, 0), BlockSpec(18, 2, 15, 2, 16), BlockSpec(22, 2, 11, 2, 12)],
    [BlockSpec(18, 2, 68, 0, 0), BlockSpec(16, 4, 27, 0, 0), BlockSpec(24, 4, 19, 0, 0), BlockSpec(28, 4, 15, 0, 0)],
    [BlockSpec(20, 2, 78, 0, 0), BlockSpec(18, 4, 31, 0, 0), BlockSpec(18, 2, 14, 4, 15), BlockSpec(26, 4, 13, 1, 14)],
    [BlockSpec(24, 2, 97, 0, 0), BlockSpec(22, 2, 38, 2, 39), BlockSpec(22, 4, 18, 2, 19), BlockSpec(26, 4, 14, 2, 15)],
    [BlockSpec(30, 2, 116, 0, 0), BlockSpec(22, 3, 36, 2, 37), BlockSpec(20, 4, 16, 4, 17),
     BlockSpec(24, 4, 12, 4, 13)],
    [BlockSpec(18, 2, 68, 2, 69), BlockSpec(26, 4, 43, 1, 44), BlockSpec(24, 6, 19, 2, 20),
     BlockSpec(28, 6, 15, 2, 16)]]

  const TOTAL_CODEWORDS: seq<nat> := [26, 44, 70, 100, 134, 172, 196, 242, 292, 346]

  predicate KnownVersion(version: nat) {
    1 <= version <= MAX_VERSION
  }

  predicate KnownLevel(level: int) {
    0 <= level <= 3
  }

  function SpecOf(version: nat, level: int): BlockSpec
    requires KnownVersion(version) && KnownLevel(level)
  {
    BLOCK_SPECS[version - 1][level]
  }

  function CharacterCountBits(version: nat): nat {
    if version <= 9 then 8 else 16
  }

  /** The two tables agree, and every block has data and error correction. */
  lemma TablesAgree(version: nat, level: int)
    requires KnownVersion(version) && KnownLevel(level)
    ensures SpecOf(version, level).TotalCodewords() == TOTAL_CODEWORDS[version - 1]
    ensures var spec := SpecOf(version, level);
            && spec.group1Blocks >= 1 && spec.group1Data >= 1 && 1 <= spec.ecPerBlock
            && spec.group1Data + spec.ecPerBlock <= 255 && spec.group2Data + spec.ecPerBlock <= 255
  {
  }

  // ----- the version -----

  datatype Error = NotALevel | NotAMask | DataTooLong

  /** The version holds a number of bytes at the level. */
  predicate Holds(version: nat, level: int, length: nat)
    requires KnownVersion(version) && KnownLevel(level)
  {
    4 + CharacterCountBits(version) + 8 * length <= 8 * SpecOf(version, level).DataCodewords()
  }

  /** What fits has a length that fits its field. */
  lemma HeldLength(version: nat, level: int, length: nat)
    requires KnownVersion(version) && KnownLevel(level) && Holds(version, level, length)
    ensures length < Pow2(CharacterCountBits(version))
  {
    assert Pow2(4) == 16 && Pow2(8) == 256 by {
      assert Pow2(4) == 16;
    }
    assert Pow2(16) == 65536 by {
      assert Pow2(12) == 4096 by {
        assert Pow2(10) == 1024;
      }
    }
    assert SpecOf(version, level).DataCodewords() <= TOTAL_CODEWORDS[version - 1] by {
      TablesAgree(version, level);
    }
  }

  /** The smallest version that holds the data, if there is one. */
  method ChooseVersion(length: nat, level: int) returns (r: Result<nat, Error>)
    ensures r == Err(NotALevel) <==> !KnownLevel(level)
    ensures r.Ok? ==> KnownLevel(level) && KnownVersion(r.value) && Holds(r.value, level, length)
    ensures r.Ok? ==> forall v :: 1 <= v < r.value ==> !Holds(v, level, length)
    ensures r.Err? && KnownLevel(level) ==>
              r.error == DataTooLong && forall v :: KnownVersion(v) ==> !Holds(v, level, length)
  {
    if !KnownLevel(level) {
      return Err(NotALevel);
    }
    for version := 1 to MAX_VERSION + 1
      invariant forall v :: 1 <= v < version ==> !Holds(v, level, length)
    {
      if Holds(version, level, length) {
        return Ok(version);
      }
    }
    return Err(DataTooLong);
  }

  // ----- the bit stream -----

  const PAD_EVEN: Word := [false, false, true, true, false, true, true, true]
  const PAD_ODD: Word := [true, false, false, false, true, false, false, false]

  function Light(n: nat): (bits: seq<bool>)
    ensures |bits| == n
  {
    seq(n, k => false)
  }

  /** The mode, the length and the bytes. */
  function Segment(data: seq<Word>, countBits: nat): (bits: seq<bool>)
    ensures |bits| == 4 + countBits + 8 * |data|
  {
    BitsOf(4, 4) + BitsOf(|data|, countBits) + FlatBits(data)
  }

  /** A terminator of up to four bits, as many as there is room for, and zeros to the end of the byte. */
  function Tail(written: nat, capacity: nat): nat
    requires written <= 8 * capacity
    ensures (written + Tail(written, capacity)) % 8 == 0 && written + Tail(written, capacity) <= 8 * capacity
  {
    var terminator := if 8 * capacity - written < 4 then 8 * capacity - written else 4;
    terminator + (8 - (written + terminator) % 8) % 8
  }

  function Padding(n: nat): (words: seq<Word>)
    ensures |words| == n
  {
    seq(n, k requires 0 <= k < n => if k % 2 == 0 then PAD_EVEN else PAD_ODD)
  }

  /** The whole bit stream of some data. */
  function Stream(data: seq<Word>, countBits: nat, capacity: nat): (bits: seq<bool>)
    requires 4 + countBits + 8 * |data| <= 8 * capacity
    ensures |bits| == 8 * capacity
  {
    var segment := Segment(data, countBits);
    var tail := Tail(|segment|, capacity);
    segment + Light(tail) + FlatBits(Padding(capacity - (|segment| + tail) / 8))
  }

  /** What a reader of byte mode makes of a bit stream. */
  function ReadByteMode(bits: seq<bool>, countBits: nat): Option<seq<Word>> {
    if |bits| < 4 + countBits || NumberOf(bits[..4]) != 4 then None
    else
      var length := NumberOf(bits[4..4 + countBits]);
      if |bits| < 4 + countBits + 8 * length then None
      else Some(Words(bits[4 + countBits..4 + countBits + 8 * length]))
  }

  /** The reader gets back the data, whatever follows it. */
  lemma SegmentRoundTrip(data: seq<Word>, countBits: nat, rest: seq<bool>)
    requires |data| < Pow2(countBits)
    ensures ReadByteMode(Segment(data, countBits) + rest, countBits) == Some(data)
  {
    var bits := Segment(data, countBits) + rest;
    assert bits[..4] == BitsOf(4, 4);
    assert bits[4..4 + countBits] == BitsOf(|data|, countBits);
    assert bits[4 + countBits..4 + countBits + 8 * |data|] == FlatBits(data);
    assert Pow2(4) == 16;
    NumberRoundTrip(4, 4);
    NumberRoundTrip(|data|, countBits);
    WordsOfFlatBits(data);
  }

  lemma StreamRoundTrip(data: seq<Word>, countBits: nat, capacity: nat)
    requires 4 + countBits + 8 * |data| <= 8 * capacity && |data| < Pow2(countBits)
    ensures ReadByteMode(Stream(data, countBits, capacity), countBits) == Some(data)
  {
    hide FlatBits, BitsOf, ReadByteMode, Tail, Segment, Light, Padding, Pow2;
    var segment := Segment(data, countBits);
    var tail := Tail(|segment|, capacity);
    var padding := FlatBits(Padding(capacity - (|segment| + tail) / 8));
    assert segment + Light(tail) + padding == segment + (Light(tail) + padding);
    SegmentRoundTrip(data, countBits, Light(tail) + padding);
  }

  // ----- writing it -----

  lemma {:induction false} ValueBit(bits: seq<bool>, k: nat)
    requires k < |bits|
    ensures NumberBit(Value(bits), k) == bits[k]
  {
    if k > 0 {
      ValueBit(bits[1..], k - 1);
    }
  }

  lemma ByteBits(w: Word)
    ensures BitsOf(Value(w), 8) == WordBits(w)
  {
    forall k | 0 <= k < 8
      ensures BitsOf(Value(w), 8)[k] == WordBits(w)[k]
    {
      ValueBit(w, 7 - k);
    }
  }

  lemma ValueOfFour(bits: seq<bool>, rest: seq<bool>)
    requires |bits| == 4
    ensures Value(bits + rest)
         == (if bits[0] then 1 else 0) + (if bits[1] then 2 else 0) + (if bits[2] then 4 else 0)
          + (if bits[3] then 8 else 0) + 16 * Value(rest)
  {
    var all := bits + rest;
    assert all[1..][1..][1..][1..] == rest;
    assert Value(all[1..][1..]) == (if bits[2] then 1 else 0) + 2 * ((if bits[3] then 1 else 0) + 2 * Value(rest));
  }

  lemma NoValue()
    ensures Value([]) == 0
  {
  }

  lemma PadValues()
    ensures Value(PAD_EVEN) == 0xec && Value(PAD_ODD) == 0x11
  {
    assert PAD_EVEN == PAD_EVEN[..4] + PAD_EVEN[4..] && PAD_EVEN[4..] == PAD_EVEN[4..] + [];
    assert PAD_ODD == PAD_ODD[..4] + PAD_ODD[4..] && PAD_ODD[4..] == PAD_ODD[4..] + [];
    hide Value;
    ValueOfFour(PAD_EVEN[..4], PAD_EVEN[4..]);
    ValueOfFour(PAD_EVEN[4..], []);
    ValueOfFour(PAD_ODD[..4], PAD_ODD[4..]);
    ValueOfFour(PAD_ODD[4..], []);
    NoValue();
  }

  lemma {:induction false} ZeroBits(width: nat)
    ensures BitsOf(0, width) == Light(width)
  {
    forall k | 0 <= k < width
      ensures !BitsOf(0, width)[k]
    {
      ZeroBit(width - 1 - k);
    }
  }

  lemma {:induction false} ZeroBit(index: nat)
    ensures !NumberBit(0, index)
  {
    if index > 0 {
      ZeroBit(index - 1);
    }
  }

  method WriteBytes(writer: BitWriter, data: seq<Word>)
    requires writer.Valid()
    modifies writer
    ensures writer.Valid() && writer.Contents() == old(writer.Contents()) + FlatBits(data)
    ensures writer.count == old(writer.count) + 8 * |data|
  {
    hide *;
    ghost var before := writer.Contents();
    NoBits();
    assert data[..0] == [];
    for n := 0 to |data|
      invariant writer.Valid() && writer.count == old(writer.count) + 8 * n
      invariant writer.Contents() == before + FlatBits(data[..n])
    {
      writer.Write(Value(data[n]), 8);
      ByteBits(data[n]);
      assert data[..n + 1] == data[..n] + [data[n]];
      FlatBitsSnoc(data[..n], data[n]);
    }
    assert data[..|data|] == data;
  }

  lemma NoBits()
    ensures FlatBits([]) == []
  {
  }

  /** The terminator, and zeros to the end of the byte. */
  method Terminate(writer: BitWriter, capacity: nat)
    requires writer.Valid() && writer.count <= 8 * capacity
    modifies writer
    ensures writer.Valid()
    ensures writer.Contents() == old(writer.Contents()) + Light(Tail(old(writer.count), capacity))
    ensures writer.count == old(writer.count) + Tail(old(writer.count), capacity)
  {
    hide FlatBits, BitsOf;
    var room := 8 * capacity - writer.count;
    var terminator := if room < 4 then room else 4;
    writer.Write(0, terminator);
    ZeroBits(terminator);
    if writer.count % 8 != 0 {
      var align := 8 - writer.count % 8;
      writer.Write(0, align);
      ZeroBits(align);
      assert Light(terminator) + Light(align) == Light(terminator + align);
    }
  }

  /** Pad codewords up to the capacity. */
  method Pad(writer: BitWriter, capacity: nat)
    requires writer.Valid() && writer.count % 8 == 0 && writer.count <= 8 * capacity
    modifies writer
    ensures writer.Valid() && writer.count == 8 * capacity
    ensures writer.Contents() == old(writer.Contents()) + FlatBits(Padding(capacity - old(writer.count) / 8))
  {
    hide FlatBits, WordBits, BitsOf, Value, PAD_EVEN, PAD_ODD;
    ghost var before := writer.Contents();
    var pad := 0;
    PadValues();
    NoBits();
    assert Padding(0) == [];
    while |writer.bytes| < capacity
      invariant writer.Valid()
      invariant writer.count == old(writer.count) + 8 * pad <= 8 * capacity
      invariant writer.Contents() == before + FlatBits(Padding(pad))
      decreases capacity - |writer.bytes|
    {
      if pad % 2 == 0 {
        writer.Write(0xec, 8);
        ByteBits(PAD_EVEN);
      } else {
        writer.Write(0x11, 8);
        ByteBits(PAD_ODD);
      }
      ghost var w := if pad % 2 == 0 then PAD_EVEN else PAD_ODD;
      assert Padding(pad + 1) == Padding(pad) + [w];
      FlatBitsSnoc(Padding(pad), w);
      pad := pad + 1;
    }
  }

  method DataCodewords(data: seq<Word>, version: nat, spec: BlockSpec) returns (codewords: seq<Word>)
    requires 4 + CharacterCountBits(version) + 8 * |data| <= 8 * spec.DataCodewords()
    ensures |codewords| == spec.DataCodewords()
    ensures FlatBits(codewords) == Stream(data, CharacterCountBits(version), spec.DataCodewords())
  {
    hide FlatBits, BitsOf, Tail, CharacterCountBits, WordBits, Light, Padding, BlockSpec.DataCodewords;
    var capacity, countBits := spec.DataCodewords(), CharacterCountBits(version);
    var writer := new BitWriter();
    writer.Write(4, 4);
    writer.Write(|data|, countBits);
    WriteBytes(writer, data);
    ghost var segment := Segment(data, countBits);
    assert writer.Contents() == segment;
    Terminate(writer, capacity);
    Pad(writer, capacity);
    codewords := writer.bytes;
    assert writer.Contents() == Stream(data, countBits, capacity);
    assert FlatBits(codewords)[..8 * capacity] == FlatBits(codewords);
  }
}
