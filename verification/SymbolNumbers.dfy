/** The numbers of ISO/IEC 18004 that the tables and check bits of
    pkg/encoding/qr come to: the format and version words, the capacities, the
    masks said in another way, and the bits a stream begins and is padded with. */
module SymbolNumbers {
  import opened GaloisField
  import opened BitStream
  import opened ByteMode
  import opened Patterns
  import opened Symbols
  import Zigzag

  // ----- the format and version words -----

  /** The format information of each level and mask, as a number. */
  function FormatWord(level: int, mask: int): nat
    requires KnownLevel(level) && KnownMask(mask)
  {
    if level == 0 then [0x77c4, 0x72f3, 0x7daa, 0x789d, 0x662f, 0x6318, 0x6c41, 0x6976][mask]
    else if level == 1 then [0x5412, 0x5125, 0x5e7c, 0x5b4b, 0x45f9, 0x40ce, 0x4f97, 0x4aa0][mask]
    else if level == 2 then [0x355f, 0x3068, 0x3f31, 0x3a06, 0x24b4, 0x2183, 0x2eda, 0x2bed][mask]
    else [0x1689, 0x13be, 0x1ce7, 0x19d0, 0x0762, 0x0255, 0x0d0c, 0x083b][mask]
  }

  /** The version information of the versions that carry it, as a number. */
  function VersionWord(version: nat): nat
    requires 7 <= version <= MAX_VERSION
  {
    [0x07c94, 0x085bc, 0x09a99, 0x0a4d3][version - 7]
  }

  /** One step of the division, bit by bit. */
  function FormatNext(r: seq<bool>): (next: seq<bool>)
    requires |r| == 10
    ensures |next| == 10
  {
    [r[9], r[0] != r[9], r[1] != r[9], r[2], r[3] != r[9],
     r[4] != r[9], r[5], r[6], r[7] != r[9], r[8]]
  }

  /** 0x537 without its leading term, the lowest bit first. */
  predicate IsFormatGenerator(g: seq<bool>) {
    |g| == 10 && g[0] && g[1] && g[2] && !g[3] && g[4] && g[5]
    && !g[6] && !g[7] && g[8] && !g[9]
  }

  lemma FormatGeneratorIs()
    ensures IsFormatGenerator(FORMAT_GENERATOR) && |FORMAT_GENERATOR| == 10
  {
  }

  lemma FormatShifted(g: seq<bool>, r: seq<bool>)
    requires IsFormatGenerator(g) && |r| == 10
    ensures Shifted(r, g) == FormatNext(r)
  {
  }

  /** So many steps. */
  function FormatSteps(r: seq<bool>, steps: nat): (bits: seq<bool>)
    requires |r| == 10
    ensures |bits| == 10
  {
    if steps == 0 then r else FormatNext(FormatSteps(r, steps - 1))
  }

  lemma {:induction false} FormatStepsAre(g: seq<bool>, r: seq<bool>, steps: nat)
    requires IsFormatGenerator(g) && |r| == 10
    ensures CheckBits(r, g, steps) == FormatSteps(r, steps)
  {
    hide IsFormatGenerator, FormatNext, Shifted;
    if steps > 0 {
      FormatStepsAre(g, r, steps - 1);
      FormatShifted(g, FormatSteps(r, steps - 1));
    }
  }

  /** One step of the division, bit by bit. */
  function VersionNext(r: seq<bool>): (next: seq<bool>)
    requires |r| == 12
    ensures |next| == 12
  {
    [r[11], r[0], r[1] != r[11], r[2], r[3], r[4] != r[11],
     r[5], r[6], r[7] != r[11], r[8] != r[11], r[9] != r[11], r[10] != r[11]]
  }

  /** 0x1f25 without its leading term, the lowest bit first. */
  predicate IsVersionGenerator(g: seq<bool>) {
    |g| == 12 && g[0] && !g[1] && g[2] && !g[3] && !g[4] && g[5]
    && !g[6] && !g[7] && g[8] && g[9] && g[10] && g[11]
  }

  lemma VersionGeneratorIs()
    ensures IsVersionGenerator(VERSION_GENERATOR) && |VERSION_GENERATOR| == 12
  {
  }

  lemma VersionShifted(g: seq<bool>, r: seq<bool>)
    requires IsVersionGenerator(g) && |r| == 12
    ensures Shifted(r, g) == VersionNext(r)
  {
  }

  /** So many steps. */
  function VersionSteps(r: seq<bool>, steps: nat): (bits: seq<bool>)
    requires |r| == 12
    ensures |bits| == 12
  {
    if steps == 0 then r else VersionNext(VersionSteps(r, steps - 1))
  }

  lemma {:induction false} VersionStepsAre(g: seq<bool>, r: seq<bool>, steps: nat)
    requires IsVersionGenerator(g) && |r| == 12
    ensures CheckBits(r, g, steps) == VersionSteps(r, steps)
  {
    hide IsVersionGenerator, VersionNext, Shifted;
    if steps > 0 {
      VersionStepsAre(g, r, steps - 1);
      VersionShifted(g, VersionSteps(r, steps - 1));
    }
  }

  /** The data bits of a level and a mask. */
  lemma FormatDataIs(level: int, mask: int)
    requires KnownLevel(level) && KnownMask(mask)
    ensures var data := FormatData(level, mask);
            && data[0] == (mask % 2 == 1) && data[1] == (mask / 2 % 2 == 1) && data[2] == (mask / 4 == 1)
            && data[3] == (level == 0 || level == 2) && data[4] == (level == 2 || level == 3)
  {
    assert NumberBit(mask, 1) == NumberBit(mask / 2, 0);
    assert NumberBit(mask, 2) == NumberBit(mask / 2, 1) == NumberBit(mask / 2 / 2, 0);
    assert NumberBit(LevelBits(level), 1) == NumberBit(LevelBits(level) / 2, 0);
    var data := FormatData(level, mask);
    assert data[3] == NumberBit(LevelBits(level), 0) && data[4] == NumberBit(LevelBits(level), 1);
  }

  function Digit(bit: bool, weight: nat): nat {
    if bit then weight else 0
  }

  lemma {:induction false} ValueOfFive(bits: seq<bool>)
    requires |bits| >= 5
    ensures Value(bits) == Digit(bits[0], 1) + Digit(bits[1], 2) + Digit(bits[2], 4) + Digit(bits[3], 8)
                              + Digit(bits[4], 16) + 32 * Value(bits[5..])
  {
    assert bits[1..][1..] == bits[2..] && bits[2..][1..] == bits[3..];
    assert bits[3..][1..] == bits[4..] && bits[4..][1..] == bits[5..];
    assert Value(bits[1..]) == Digit(bits[1], 1) + 2 * Value(bits[2..]);
    assert Value(bits[2..]) == Digit(bits[2], 1) + 2 * Value(bits[3..]);
    assert Value(bits[3..]) == Digit(bits[3], 1) + 2 * Value(bits[4..]);
    assert Value(bits[4..]) == Digit(bits[4], 1) + 2 * Value(bits[5..]);
  }

  lemma ValueOfFifteen(bits: seq<bool>)
    requires |bits| >= 15
    ensures Value(bits)
         == Digit(bits[0], 0x1) + Digit(bits[1], 0x2) + Digit(bits[2], 0x4) + Digit(bits[3], 0x8)
            + Digit(bits[4], 0x10) + Digit(bits[5], 0x20) + Digit(bits[6], 0x40) + Digit(bits[7], 0x80)
            + Digit(bits[8], 0x100) + Digit(bits[9], 0x200) + Digit(bits[10], 0x400) + Digit(bits[11], 0x800)
            + Digit(bits[12], 0x1000) + Digit(bits[13], 0x2000) + Digit(bits[14], 0x4000)
            + 0x8000 * Value(bits[15..])
  {
    hide Value;
    var middle, last := bits[5..], bits[10..];
    ValueOfFive(bits);
    ValueOfFive(middle);
    ValueOfFive(last);
    assert middle[5..] == last && last[5..] == bits[15..];
    assert middle[0] == bits[5] && middle[1] == bits[6] && middle[2] == bits[7];
    assert middle[3] == bits[8] && middle[4] == bits[9];
  }

  lemma ValueOfThree(bits: seq<bool>)
    requires |bits| == 3
    ensures Value(bits) == Digit(bits[0], 1) + Digit(bits[1], 2) + Digit(bits[2], 4)
  {
    var two, one := bits[1..], bits[2..];
    assert two[1..] == one && one[1..] == [];
    assert Value(two) == Digit(bits[1], 1) + 2 * Value(one);
  }

  lemma ValueOfEighteen(bits: seq<bool>)
    requires |bits| == 18
    ensures Value(bits)
         == Digit(bits[0], 0x1) + Digit(bits[1], 0x2) + Digit(bits[2], 0x4) + Digit(bits[3], 0x8)
            + Digit(bits[4], 0x10) + Digit(bits[5], 0x20) + Digit(bits[6], 0x40) + Digit(bits[7], 0x80)
            + Digit(bits[8], 0x100) + Digit(bits[9], 0x200) + Digit(bits[10], 0x400) + Digit(bits[11], 0x800)
            + Digit(bits[12], 0x1000) + Digit(bits[13], 0x2000) + Digit(bits[14], 0x4000)
            + 0x8000 * (Digit(bits[15], 1) + Digit(bits[16], 2) + Digit(bits[17], 4))
  {
    hide Value, Digit;
    ValueOfFifteen(bits);
    ValueOfThree(bits[15..]);
  }

  /** The format information is the word that the standard lists for the level and the mask. */
  lemma FormatWordIs(level: int, mask: int)
    requires KnownLevel(level) && KnownMask(mask)
    ensures Value(FormatInformation(level, mask)) == FormatWord(level, mask)
  {
    hide FormatData, Value, CheckBits, FormatSteps;
    FormatDataIs(level, mask);
    var d, bits := FormatData(level, mask), FormatInformation(level, mask);
    FormatGeneratorIs();
    hide FORMAT_GENERATOR, IsFormatGenerator;
    FormatStepsAre(FORMAT_GENERATOR, d + Light(5), 10);
    TenSteps(d + Light(5));
    ValueOfFifteen(bits);
    NoValue();
    assert bits[15..] == [];
  }

  lemma TenSteps(r: seq<bool>)
    requires |r| == 10
    ensures var half := FormatNext(FormatNext(FormatNext(FormatNext(FormatNext(r)))));
            FormatSteps(r, 10) == FormatNext(FormatNext(FormatNext(FormatNext(FormatNext(half)))))
  {
    hide FormatNext;
    assert FormatSteps(r, 0) == r;
    assert FormatSteps(r, 2) == FormatNext(FormatNext(r));
    assert FormatSteps(r, 4) == FormatNext(FormatNext(FormatSteps(r, 2)));
    assert FormatSteps(r, 6) == FormatNext(FormatNext(FormatSteps(r, 4)));
    assert FormatSteps(r, 8) == FormatNext(FormatNext(FormatSteps(r, 6)));
  }

  /** The data bits of the versions that carry their number. */
  lemma VersionDataIs(version: nat, data: seq<bool>)
    requires 7 <= version <= MAX_VERSION && |data| == 6
    requires forall k :: 0 <= k < 6 ==> data[k] == NumberBit(version, k)
    ensures data[0] == (version % 2 == 1) && data[1] == (version < 8 || version == 10) && data[2] == (version == 7)
    ensures data[3] == (version >= 8) && !data[4] && !data[5]
  {
    assert NumberBit(version, 1) == NumberBit(version / 2, 0);
    assert NumberBit(version, 2) == NumberBit(version / 2, 1) == NumberBit(version / 2 / 2, 0);
    var eighth := version / 2 / 2 / 2;
    assert eighth == if version < 8 then 0 else 1;
    assert NumberBit(version, 3) == NumberBit(version / 2, 2) == NumberBit(version / 2 / 2, 1) == NumberBit(eighth, 0);
    assert NumberBit(version, 4) == NumberBit(version / 2, 3) == NumberBit(version / 2 / 2, 2) == NumberBit(eighth, 1);
    assert NumberBit(version, 5) == NumberBit(version / 2, 4) == NumberBit(version / 2 / 2, 3) == NumberBit(eighth, 2);
    ZeroBit(0);
    ZeroBit(1);
  }

  /** The version information is the word that the standard lists for the version. */
  lemma VersionWordIs(version: nat)
    requires 7 <= version <= MAX_VERSION
    ensures Value(VersionInformation(version)) == VersionWord(version)
  {
    hide CheckBits, Value, VersionSteps;
    VersionGeneratorIs();
    hide VERSION_GENERATOR, IsVersionGenerator;
    var data := seq(6, k requires 0 <= k => NumberBit(version, k));
    var bits, r := VersionInformation(version), data + Light(6);
    VersionDataIs(version, data);
    VersionStepsAre(VERSION_GENERATOR, r, 12);
    TwelveSteps(r);
    ValueOfEighteen(bits);
  }

  lemma TwelveSteps(r: seq<bool>)
    requires |r| == 12
    ensures var half := VersionNext(VersionNext(VersionNext(VersionNext(VersionNext(VersionNext(r))))));
            VersionSteps(r, 12)
            == VersionNext(VersionNext(VersionNext(VersionNext(VersionNext(VersionNext(half))))))
  {
    hide VersionNext;
    assert VersionSteps(r, 0) == r;
    assert VersionSteps(r, 2) == VersionNext(VersionNext(r));
    assert VersionSteps(r, 4) == VersionNext(VersionNext(VersionSteps(r, 2)));
    assert VersionSteps(r, 6) == VersionNext(VersionNext(VersionSteps(r, 4)));
    assert VersionSteps(r, 8) == VersionNext(VersionNext(VersionSteps(r, 6)));
    assert VersionSteps(r, 10) == VersionNext(VersionNext(VersionSteps(r, 8)));
  }

  /** x^8 is x^4 + x^3 + x^2 + 1: the field is reduced by 0x11d. */
  lemma EighthPower()
    ensures Power(8) == [true, false, true, true, true, false, false, false]
  {
    assert Power(4) == [false, false, false, false, true, false, false, false];
    assert Power(6) == [false, false, false, false, false, false, true, false];
  }

  // ----- the masks -----

  /** The eight masks, said in another way: by what divides, and by remainders of six. */
  lemma InvertsIff(mask: int, x: nat, y: nat)
    requires KnownMask(mask)
    ensures mask == 0 ==> (Inverts(mask, x, y) <==> x % 2 == y % 2)
    ensures mask == 1 ==> (Inverts(mask, x, y) <==> 2 * (y / 2) == y)
    ensures mask == 2 ==> (Inverts(mask, x, y) <==> 3 * (x / 3) == x)
    ensures mask == 3 ==> (Inverts(mask, x, y) <==> (x % 3 + y % 3) % 3 == 0)
    ensures mask == 4 ==> (Inverts(mask, x, y) <==> x / 3 % 2 == y / 2 % 2)
    ensures mask == 5 ==> (Inverts(mask, x, y) <==> x * y % 6 == 0)
    ensures mask == 6 ==> (Inverts(mask, x, y) <==> x * y % 6 < 3)
    ensures mask == 7 ==> (Inverts(mask, x, y) <==> (x % 2 == y % 2 <==> x * y % 3 != 1))
  {
    if mask < 5 {
      SameParity(x, y);
      SameParity(x / 3, y / 2);
      SumOfThirds(x, y);
    } else {
      Remainders(x * y);
      SameParity(x, y);
    }
  }

  lemma SameParity(x: nat, y: nat)
    ensures (x + y) % 2 == if x % 2 == y % 2 then 0 else 1
  {
  }

  lemma SumOfThirds(x: nat, y: nat)
    ensures (x + y) % 3 == (x % 3 + y % 3) % 3
  {
  }

  lemma Remainders(n: nat)
    ensures n % 2 + n % 3 == 0 <==> n % 6 == 0
    ensures (n % 2 + n % 3) % 2 == 0 <==> n % 6 < 3
    ensures (1 + n % 3) % 2 == 0 <==> n % 3 == 1
    ensures n % 3 % 2 == 0 <==> n % 3 != 1
  {
    var q, r := n / 6, n % 6;
    assert n == 6 * q + r;
    assert n % 2 == r % 2 && n % 3 == r % 3;
  }

  // ----- the tables -----

  /** How many data codewords each version holds at each level. */
  function Capacity(version: nat, level: int): nat
    requires KnownVersion(version) && KnownLevel(level)
  {
    if level == 0 then [19, 34, 55, 80, 108, 136, 156, 194, 232, 274][version - 1]
    else if level == 1 then [16, 28, 44, 64, 86, 108, 124, 154, 182, 216][version - 1]
    else if level == 2 then [13, 22, 34, 48, 62, 76, 88, 110, 132, 154][version - 1]
    else [9, 16, 26, 36, 46, 60, 66, 86, 100, 122][version - 1]
  }

  /** In how many blocks. */
  function Blocks(version: nat, level: int): nat
    requires KnownVersion(version) && KnownLevel(level)
  {
    if level == 0 then [1, 1, 1, 1, 1, 2, 2, 2, 2, 4][version - 1]
    else if level == 1 then [1, 1, 1, 2, 2, 4, 4, 4, 5, 5][version - 1]
    else if level == 2 then [1, 1, 2, 2, 4, 4, 6, 6, 8, 8][version - 1]
    else [1, 1, 2, 4, 4, 4, 5, 6, 8, 8][version - 1]
  }

  lemma CapacityIs(version: nat, level: int)
    requires KnownVersion(version) && KnownLevel(level)
    ensures SpecOf(version, level).DataCodewords() == Capacity(version, level)
  {
  }

  lemma BlocksIs(version: nat, level: int)
    requires KnownVersion(version) && KnownLevel(level)
    ensures var spec := SpecOf(version, level);
            && spec.group1Blocks + spec.group2Blocks == Blocks(version, level)
            && spec.group1Blocks > 0 && (spec.group2Blocks > 0 ==> spec.group2Data == spec.group1Data + 1)
  {
  }

  /** A symbol's codewords are shared out as evenly as they can be: the shorter
      blocks first, the longer ones by one codeword, and the rest of the symbol
      equally among their corrections. */
  lemma BlocksAre(version: nat, level: int)
    requires KnownVersion(version) && KnownLevel(level)
    ensures var spec, data, blocks := SpecOf(version, level), Capacity(version, level), Blocks(version, level);
            && blocks > 0
            && spec.DataCodewords() == data
            && spec.group1Blocks + spec.group2Blocks == blocks
            && spec.group1Data == data / blocks && spec.group2Blocks == data % blocks
            && (spec.group2Blocks > 0 ==> spec.group2Data == data / blocks + 1)
            && TOTAL_CODEWORDS[version - 1] == data + blocks * spec.ecPerBlock
  {
    hide SpecOf, Capacity, Blocks, TOTAL_CODEWORDS;
    CapacityIs(version, level);
    BlocksIs(version, level);
    TablesAgree(version, level);
    Shares(SpecOf(version, level), Blocks(version, level));
  }

  lemma Shares(spec: BlockSpec, blocks: nat)
    requires spec.group1Blocks + spec.group2Blocks == blocks && spec.group1Blocks > 0
    requires spec.group2Blocks > 0 ==> spec.group2Data == spec.group1Data + 1
    ensures spec.group1Data == spec.DataCodewords() / blocks && spec.group2Blocks == spec.DataCodewords() % blocks
    ensures spec.TotalCodewords() == spec.DataCodewords() + blocks * spec.ecPerBlock
  {
    var a, b, d := spec.group1Blocks, spec.group2Blocks, spec.group1Data;
    assert spec.DataCodewords() == blocks * d + b;
    var data := spec.DataCodewords();
    Zigzag.DivisionIsUnique(blocks, d, b, data / blocks, data % blocks);
  }

  // ----- the bits of a stream -----

  /** A digit of a number in binary, counted from the most significant of so many. */
  predicate CountBit(value: nat, width: nat, k: nat)
    requires k < width
  {
    NumberBit(value, width - 1 - k)
  }

  /** A stream begins with the mode 0100, the length from its highest bit, and each byte from its highest bit. */
  lemma StreamBegins(data: seq<Word>, countBits: nat, capacity: nat)
    requires 4 + countBits + 8 * |data| <= 8 * capacity
    ensures var bits := Stream(data, countBits, capacity);
            && bits[..4] == [false, true, false, false]
            && (forall k :: 0 <= k < countBits ==> bits[4 + k] == CountBit(|data|, countBits, k))
            && (forall k :: 0 <= k < 8 * |data| ==> bits[4 + countBits + k] == data[k / 8][7 - k % 8])
  {
    hide FlatBits, Tail, BitsOf, Segment, Light, Padding, CountBit;
    var segment, bits := Segment(data, countBits), Stream(data, countBits, capacity);
    SegmentBits(data, countBits);
    assert bits[..|segment|] == segment;
    assert bits[..4] == segment[..4];
  }

  /** It goes on with zeros to the end of a byte, and 11101100 and 00010001 in turn. */
  lemma StreamEnds(data: seq<Word>, countBits: nat, capacity: nat)
    requires 4 + countBits + 8 * |data| <= 8 * capacity
    ensures var bits, n := Stream(data, countBits, capacity), 4 + countBits + 8 * |data|;
            var filled := n + Tail(n, capacity);
            && (forall k :: n <= k < filled ==> !bits[k])
            && (forall k :: 0 <= k < 8 * capacity - filled ==> bits[filled + k] == PadBit(k))
  {
    hide FlatBits, Tail, BitsOf, Segment, Light, Padding, PadBit;
    var n := 4 + countBits + 8 * |data|;
    var filled := n + Tail(n, capacity);
    var segment, tail, pads := Segment(data, countBits), Light(filled - n), Padding(capacity - filled / 8);
    NothingLit(filled - n);
    StreamParts(segment, tail, FlatBits(pads), n, filled);
    forall k | 0 <= k < 8 * capacity - filled
      ensures FlatBits(pads)[k] == PadBit(k)
    {
      PadBitIs(capacity - filled / 8, k);
    }
  }

  lemma NothingLit(n: nat)
    ensures forall k :: 0 <= k < n ==> !Light(n)[k]
  {
  }

  /** The bits of 0xec and 0x11 in turn. */
  function PadBit(k: nat): bool {
    if k / 8 % 2 == 0 then [true, true, true, false, true, true, false, false][k % 8]
    else [false, false, false, true, false, false, false, true][k % 8]
  }

  lemma PadBitIs(n: nat, k: nat)
    requires k < 8 * n
    ensures FlatBits(Padding(n))[k] == PadBit(k)
  {
    hide FlatBits;
    FlatBitsAt(Padding(n), k);
  }

  lemma StreamParts(a: seq<bool>, b: seq<bool>, c: seq<bool>, n: nat, m: nat)
    requires |a| == n <= m && |b| == m - n && forall k :: 0 <= k < |b| ==> !b[k]
    ensures var all := a + b + c;
            && (forall k :: n <= k < m ==> !all[k])
            && forall k :: 0 <= k < |c| ==> all[m + k] == c[k]
  {
  }

  lemma SegmentBits(data: seq<Word>, countBits: nat)
    ensures var bits := Segment(data, countBits);
            && bits[..4] == [false, true, false, false]
            && (forall k :: 0 <= k < countBits ==> bits[4 + k] == CountBit(|data|, countBits, k))
            && (forall k :: 0 <= k < 8 * |data| ==> bits[4 + countBits + k] == data[k / 8][7 - k % 8])
  {
    hide FlatBits;
    var bits := Segment(data, countBits);
    assert bits[..4] == BitsOf(4, 4) == [NumberBit(4, 3), NumberBit(4, 2), NumberBit(4, 1), NumberBit(4, 0)];
    assert NumberBit(4, 3) == NumberBit(2, 2) == NumberBit(1, 1) == NumberBit(0, 0);
    assert bits[4..4 + countBits] == BitsOf(|data|, countBits);
    forall k | 0 <= k < 8 * |data|
      ensures bits[4 + countBits + k] == data[k / 8][7 - k % 8]
    {
      FlatBitsAt(data, k);
    }
  }

  /** The terminator has four bits, or as many as there is room for, and ends with its byte. */
  lemma TailIs(written: nat, capacity: nat)
    requires written <= 8 * capacity
    ensures var least := if 8 * capacity - written < 4 then 8 * capacity - written else 4;
            var tail := Tail(written, capacity);
            least <= tail < least + 8 && (written + tail) % 8 == 0
  {
  }
}
