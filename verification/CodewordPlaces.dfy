/** Where the codewords of a symbol and their bits stand, said by their numbers
    (pkg/encoding/qr/qr.go:214-249 and 426-489). */
module CodewordPlaces {
  import opened GaloisField
  import opened BitStream
  import opened ByteMode
  import opened ReedSolomon
  import opened Interleaving
  import opened Zigzag
  import opened Patterns
  import opened Symbols
  import Layout

  // ----- the codewords -----

  /** Blocks in two groups, those of the second longer by one codeword. */
  predicate Even(spec: BlockSpec) {
    spec.group1Blocks > 0 && spec.ecPerBlock > 0 && (spec.group2Blocks > 0 ==> spec.group2Data == spec.group1Data + 1)
  }

  function BlockLength(spec: BlockSpec, b: nat): nat {
    if b < spec.group1Blocks then spec.group1Data else spec.group1Data + 1
  }

  /** How many data codewords come before a block. */
  function BlockStart(spec: BlockSpec, b: nat): nat {
    b * spec.group1Data + (if b < spec.group1Blocks then 0 else b - spec.group1Blocks)
  }

  lemma LengthsPrefix(spec: BlockSpec, b: nat)
    requires Even(spec) && b < |DataLengths(spec)|
    ensures DataLengths(spec)[b] == BlockLength(spec, b)
    ensures DataLengths(spec)[..b + 1] == DataLengths(spec)[..b] + [BlockLength(spec, b)]
  {
  }

  lemma {:induction false} TotalBefore(spec: BlockSpec, b: nat)
    requires Even(spec) && b <= |DataLengths(spec)|
    ensures Total(DataLengths(spec)[..b]) == BlockStart(spec, b)
  {
    if b > 0 {
      TotalBefore(spec, b - 1);
      LengthsPrefix(spec, b - 1);
      assert b * spec.group1Data == (b - 1) * spec.group1Data + spec.group1Data;
    }
  }

  lemma {:induction false} RowSizeBefore(spec: BlockSpec, b: nat, i: nat)
    requires Even(spec) && b <= |DataLengths(spec)| && i <= spec.group1Data
    ensures RowSize(DataLengths(spec)[..b], i)
         == if i < spec.group1Data then b else if b < spec.group1Blocks then 0 else b - spec.group1Blocks
  {
    if b > 0 {
      RowSizeBefore(spec, b - 1, i);
      LengthsPrefix(spec, b - 1);
    }
  }

  lemma {:induction false} OffsetIs(spec: BlockSpec, i: nat)
    requires Even(spec) && i <= spec.group1Data
    ensures Offset(DataLengths(spec), i) == i * |DataLengths(spec)|
  {
    var lengths := DataLengths(spec);
    if i > 0 {
      OffsetIs(spec, i - 1);
      RowSizeBefore(spec, |lengths|, i - 1);
      assert lengths[..|lengths|] == lengths;
      assert i * |lengths| == (i - 1) * |lengths| + |lengths|;
    }
  }

  lemma {:induction false} CorrectionRow(blocks: nat, count: nat, b: nat, i: nat)
    requires b <= blocks && i < count
    ensures RowSize(CorrectionLengths(blocks, count)[..b], i) == b
  {
    if b > 0 {
      CorrectionRow(blocks, count, b - 1, i);
      assert CorrectionLengths(blocks, count)[..b] == CorrectionLengths(blocks, count)[..b - 1] + [count];
    }
  }

  lemma {:induction false} CorrectionOffset(blocks: nat, count: nat, i: nat)
    requires i <= count
    ensures Offset(CorrectionLengths(blocks, count), i) == i * blocks
  {
    var lengths := CorrectionLengths(blocks, count);
    if i > 0 {
      CorrectionOffset(blocks, count, i - 1);
      CorrectionRow(blocks, count, blocks, i - 1);
      assert lengths[..blocks] == lengths;
      assert i * blocks == (i - 1) * blocks + blocks;
    }
  }

  /** A block is the data between where it starts and where it ends. */
  lemma {:induction false} SplitIs(data: seq<Word>, lengths: seq<nat>, b: nat)
    requires |data| == Total(lengths) && b < |lengths|
    ensures Total(lengths[..b]) + lengths[b] <= |data|
    ensures Split(data, lengths)[b] == data[Total(lengths[..b])..Total(lengths[..b]) + lengths[b]]
    decreases lengths
  {
    var n := |lengths| - 1;
    var front, rest := lengths[..n], |data| - lengths[n];
    if b == n {
      assert lengths[..b] == front;
    } else {
      SplitIs(data[..rest], front, b);
      assert lengths[..b] == front[..b];
    }
  }

  /** The first codewords of all blocks, then the second ones, and so on, with
      the longer blocks' last ones at the end; then the corrections likewise. */
  lemma CodewordsAt(data: seq<Word>, spec: BlockSpec, b: nat, i: nat)
    requires Even(spec) && |data| == spec.DataCodewords() && b < spec.group1Blocks + spec.group2Blocks
    ensures Total(DataLengths(spec)) == |data| && BlockStart(spec, b) + BlockLength(spec, b) <= |data|
    ensures var codewords := Codewords(data, DataLengths(spec), Rows(spec), spec.ecPerBlock);
            var blocks, start := spec.group1Blocks + spec.group2Blocks, BlockStart(spec, b);
            var block := data[start..start + BlockLength(spec, b)];
            && (i < |block| ==>
                  var k := i * blocks + b - (if i < spec.group1Data then 0 else spec.group1Blocks);
                  0 <= k < |codewords| && codewords[k] == block[i])
            && (i < spec.ecPerBlock ==>
                  var k := |data| + i * blocks + b;
                  0 <= k < |codewords| && codewords[k] == Remainder(block, spec.ecPerBlock)[i])
  {
    hide Total, Interleaved, Split, Offset, RowSize, Remainder, DataLengths;
    var lengths, count := DataLengths(spec), spec.ecPerBlock;
    DataLengthsTotal(spec);
    CodewordsParts(data, lengths, Rows(spec), count);
    LengthsPrefix(spec, b);
    TotalBefore(spec, b);
    SplitIs(data, lengths, b);
    var blocks := Split(data, lengths);
    if i < lengths[b] {
      InterleavedAt(blocks, Rows(spec), b, i);
      OffsetIs(spec, i);
      RowSizeBefore(spec, b, i);
    }
    if i < count {
      InterleavedAt(Corrections(blocks, count), count, b, i);
      CorrectionOffset(|lengths|, count, i);
      CorrectionRow(|lengths|, count, b, i);
    }
  }

  // ----- the bits -----

  /** How many of the modules take data. */
  function FreeIn(reserved: Modules, cells: seq<nat>): nat
    requires InRange(cells, |reserved|)
  {
    if cells == [] then 0
    else FreeIn(reserved, cells[..|cells| - 1]) + (if reserved[cells[|cells| - 1]] then 0 else 1)
  }

  lemma {:induction false} PlacedIndex(modules: Modules, reserved: Modules, bits: seq<bool>, cells: seq<nat>)
    requires |reserved| == |modules| && InRange(cells, |modules|)
    ensures var free := FreeIn(reserved, cells);
            Placed(modules, reserved, bits, cells).index == if free < |bits| then free else |bits|
  {
    if cells != [] {
      PlacedIndex(modules, reserved, bits, cells[..|cells| - 1]);
    }
  }

  /** A module takes the bit whose number is that of the modules for data before it. */
  lemma {:induction false} PlacedAt(modules: Modules, reserved: Modules, bits: seq<bool>, cells: seq<nat>, n: nat)
    requires |reserved| == |modules| && InRange(cells, |modules|) && Zigzag.Distinct(cells)
    requires n < |cells| && !reserved[cells[n]] && FreeIn(reserved, cells[..n]) < |bits|
    ensures Placed(modules, reserved, bits, cells).dark[cells[n]] == bits[FreeIn(reserved, cells[..n])]
  {
    var front := cells[..|cells| - 1];
    if n == |front| {
      PlacedIndex(modules, reserved, bits, front);
    } else {
      assert front[..n] == cells[..n];
      PlacedAt(modules, reserved, bits, front, n);
    }
  }

  /** How many modules for data the zigzag passes before its module of a number. */
  function BitNumber(version: nat, n: nat): nat
    requires KnownVersion(version) && n < |Order(SizeOf(version))|
  {
    OrderDistinct(SizeOf(version));
    FreeIn(FunctionModules(version), Order(SizeOf(version))[..n])
  }

  /** What a finished symbol shows at a module. */
  function Shown(codewords: seq<Word>, version: nat, level: int, mask: int, x: nat, y: nat): bool
    requires KnownVersion(version) && KnownLevel(level) && KnownMask(mask)
    requires x < SizeOf(version) && y < SizeOf(version)
  {
    Layout.ModuleIn(Finished(Unmasked(codewords, version, level), version, level, mask), SizeOf(version), x, y)
  }

  /** Every bit of every codeword, the most significant first, stands at the
      module for data that its number gives it in the zigzag, inverted where the
      mask says so. */
  lemma BitStands(codewords: seq<Word>, version: nat, level: int, mask: int, n: nat, x: nat, y: nat)
    requires KnownVersion(version) && KnownLevel(level) && KnownMask(mask)
    requires x < SizeOf(version) && y < SizeOf(version) && Layout.FunctionAt(version, level, mask, x, y).None?
    requires n < |Order(SizeOf(version))| && Order(SizeOf(version))[n] == y * SizeOf(version) + x
    requires BitNumber(version, n) < 8 * |codewords|
    ensures var k := BitNumber(version, n);
            Shown(codewords, version, level, mask, x, y) == (codewords[k / 8][7 - k % 8] != Inverts(mask, x, y))
  {
    hide Order, FunctionModules, Drawn, PatternWrites, Finished, FlatBits, Inverts, Placed, FreeIn;
    hide Layout.FunctionAt, Layout.ModuleIn, Blank;
    var size := SizeOf(version);
    var cells, reserved, k := Order(size), FunctionModules(version), BitNumber(version, n);
    var modules := Unmasked(codewords, version, level);
    OrderDistinct(size);
    Layout.DataModuleAt(modules, version, level, mask, x, y);
    Layout.FunctionModuleIff(version, level, mask, x, y);
    ModuleIs(modules, size, x, y);
    ModuleIs(reserved, size, x, y);
    FlatBitsAt(codewords, k);
    PlacedAt(Drawn(Blank(version), PatternWrites(version, level)), reserved, FlatBits(codewords), cells, n);
  }

  lemma ModuleIs(modules: Modules, size: nat, x: nat, y: nat)
    requires |modules| == size * size && x < size && y < size
    ensures Cell(size, x, y) < |modules| && Layout.ModuleIn(modules, size, x, y) == modules[Cell(size, x, y)]
  {
    CellInside(size, x, y);
  }
}
