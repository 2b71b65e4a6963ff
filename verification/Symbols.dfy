/** A symbol being drawn (pkg/encoding/qr/qr.go:106-144, pkg/encoding/qr/qr.go:251-320,
    pkg/encoding/qr/qr.go:382-489): patterns, data, masks, and reading it back. */
module Symbols {
  import opened Wrappers
  import opened GaloisField
  import opened ReedSolomon
  import opened BitStream
  import opened ByteMode
  import opened Interleaving
  import opened Zigzag
  import opened Patterns

  // ----- masks -----

  /** The module at column x and row y is inverted. */
  predicate Inverts(mask: int, x: nat, y: nat)
    requires KnownMask(mask)
  {
    if mask == 0 then (x + y) % 2 == 0
    else if mask == 1 then y % 2 == 0
    else if mask == 2 then x % 3 == 0
    else if mask == 3 then (x + y) % 3 == 0
    else if mask == 4 then (x / 3 + y / 2) % 2 == 0
    else if mask == 5 then x * y % 2 + x * y % 3 == 0
    else if mask == 6 then (x * y % 2 + x * y % 3) % 2 == 0
    else ((x + y) % 2 + x * y % 3) % 2 == 0
  }

  /** The data modules the mask selects are inverted. */
  function Masked(modules: Modules, reserved: Modules, size: nat, mask: int): (masked: Modules)
    requires |modules| == |reserved| && size > 0 && KnownMask(mask)
    ensures |masked| == |modules|
  {
    seq(|modules|, k requires 0 <= k < |modules| =>
      modules[k] != (!reserved[k] && Inverts(mask, k % size, k / size)))
  }

  /** Masking twice undoes it, and it leaves the function modules alone. */
  lemma MaskedTwice(modules: Modules, reserved: Modules, size: nat, mask: int)
    requires |modules| == |reserved| && size > 0 && KnownMask(mask)
    ensures Masked(Masked(modules, reserved, size, mask), reserved, size, mask) == modules
    ensures forall k :: 0 <= k < |modules| && reserved[k] ==> Masked(modules, reserved, size, mask)[k] == modules[k]
  {
    hide Inverts;
  }

  // ----- the whole symbol, as a value -----

  /** Nothing but light modules. */
  function Blank(version: nat): (modules: Modules)
    ensures |modules| == SizeOf(version) * SizeOf(version)
  {
    Light(SizeOf(version) * SizeOf(version))
  }

  /** The patterns and the codewords, before any mask. */
  function Unmasked(codewords: seq<Word>, version: nat, level: int): (modules: Modules)
    requires KnownVersion(version) && KnownLevel(level)
    ensures |modules| == SizeOf(version) * SizeOf(version)
  {
    var size := SizeOf(version);
    OrderDistinct(size);
    Placed(Drawn(Blank(version), PatternWrites(version, level)), FunctionModules(version), FlatBits(codewords),
           Order(size)).dark
  }

  /** The mask and its format information over some modules. */
  function Finished(modules: Modules, version: nat, level: int, mask: int): (finished: Modules)
    requires KnownVersion(version) && KnownLevel(level) && KnownMask(mask)
    requires |modules| == SizeOf(version) * SizeOf(version)
    ensures |finished| == |modules|
  {
    Drawn(Masked(modules, FunctionModules(version), SizeOf(version), mask),
          FormatWrites(SizeOf(version), FormatInformation(level, mask), 31))
  }

  function DataOf(data: seq<Word>, version: nat, level: int): (codewords: seq<Word>)
    requires KnownVersion(version) && KnownLevel(level) && Holds(version, level, |data|)
    ensures |codewords| == SpecOf(version, level).DataCodewords()
  {
    Words(Stream(data, CharacterCountBits(version), SpecOf(version, level).DataCodewords()))
  }

  function CodewordsOf(data: seq<Word>, version: nat, level: int): seq<Word>
    requires KnownVersion(version) && KnownLevel(level) && Holds(version, level, |data|)
  {
    var spec := SpecOf(version, level);
    TablesAgree(version, level);
    DataLengthsTotal(spec);
    Codewords(DataOf(data, version, level), DataLengths(spec), Rows(spec), spec.ecPerBlock)
  }

  function SymbolOf(data: seq<Word>, version: nat, level: int, mask: int): Modules
    requires KnownVersion(version) && KnownLevel(level) && KnownMask(mask) && Holds(version, level, |data|)
  {
    Finished(Unmasked(CodewordsOf(data, version, level), version, level), version, level, mask)
  }

  // ----- masks and format information in place -----

  /** A module of the format information. */
  predicate FormatTouches(size: nat, cell: nat)
    requires KnownSize(size)
  {
    exists i :: 0 <= i < 31 && FormatCell(size, i) == cell
  }

  lemma FormatTouchesAll(size: nat, bits: seq<bool>, cell: nat)
    requires KnownSize(size) && |bits| == 15
    ensures Touches(FormatWrites(size, bits, 31), cell) <==> FormatTouches(size, cell)
  {
    hide FormatCell;
    var writes := FormatWrites(size, bits, 31);
    if Touches(writes, cell) {
      var i :| 0 <= i < |writes| && writes[i].cell == cell;
      assert FormatCell(size, i) == cell;
    }
    if FormatTouches(size, cell) {
      var i :| 0 <= i < 31 && FormatCell(size, i) == cell;
      assert writes[i].cell == cell;
    }
  }

  lemma TouchesConcat(a: seq<Write>, b: seq<Write>, c: seq<Write>, cell: nat)
    requires Touches(b, cell)
    ensures Touches(a + b + c, cell)
  {
    var i :| 0 <= i < |b| && b[i].cell == cell;
    assert (a + b + c)[|a| + i].cell == cell;
  }

  /** The format information is drawn over function modules only. */
  lemma FormatIsReserved(version: nat, cell: nat)
    requires KnownVersion(version) && cell < SizeOf(version) * SizeOf(version)
    requires FormatTouches(SizeOf(version), cell)
    ensures FunctionModules(version)[cell]
  {
    hide TimingWrites, FinderWrites, AllAlignments, FormatWrites, FormatInformation, VersionPart, FormatTouches;
    var size := SizeOf(version);
    CentersAreRoomy(version);
    FormatTouchesAll(size, FormatInformation(0, 0), cell);
    TouchesConcat(TimingWrites(size, size) + FinderWrites(size, 3, 3, 9) + FinderWrites(size, size - 4, 3, 9)
      + FinderWrites(size, 3, size - 4, 9) + AllAlignments(size, CentersOf(version), |CentersOf(version)|),
      FormatWrites(size, FormatInformation(0, 0), 31), VersionPart(version), cell);
    Marked(Blank(version), PatternWrites(version, 0), cell);
  }

  /** Modules that agree outside the format information. */
  predicate AgreeOutsideFormat(modules: Modules, modules': Modules, size: nat)
    requires KnownSize(size)
  {
    && |modules| == |modules'|
    && forall k :: 0 <= k < |modules| ==> modules[k] == modules'[k] || FormatTouches(size, k)
  }

  /** What an earlier mask left of its format information does not show. */
  lemma FinishedAlike(modules: Modules, modules': Modules, version: nat, level: int, mask: int)
    requires KnownVersion(version) && KnownLevel(level) && KnownMask(mask)
    requires |modules| == SizeOf(version) * SizeOf(version)
    requires AgreeOutsideFormat(modules, modules', SizeOf(version))
    ensures Finished(modules, version, level, mask) == Finished(modules', version, level, mask)
  {
    hide FunctionModules, FormatTouches, FormatWrites, FormatInformation, Inverts, Touches;
    var size, reserved := SizeOf(version), FunctionModules(version);
    var writes := FormatWrites(size, FormatInformation(level, mask), 31);
    var masked, masked' := Masked(modules, reserved, size, mask), Masked(modules', reserved, size, mask);
    forall k | 0 <= k < |modules|
      ensures Drawn(masked, writes)[k] == Drawn(masked', writes)[k]
    {
      FormatTouchesAll(size, FormatInformation(level, mask), k);
      DrawnOver(masked, masked', writes, k);
    }
  }

  /** Masking a finished symbol again gives back its data modules. */
  lemma UnmaskedFinished(modules: Modules, version: nat, level: int, mask: int)
    requires KnownVersion(version) && KnownLevel(level) && KnownMask(mask)
    requires |modules| == SizeOf(version) * SizeOf(version)
    ensures AgreeOutsideFormat(
              Masked(Finished(modules, version, level, mask), FunctionModules(version), SizeOf(version), mask),
              modules, SizeOf(version))
  {
    hide FunctionModules, FormatTouches, FormatWrites, FormatInformation, Inverts, Touches;
    var size, reserved := SizeOf(version), FunctionModules(version);
    var writes := FormatWrites(size, FormatInformation(level, mask), 31);
    var masked := Masked(modules, reserved, size, mask);
    forall k | 0 <= k < |modules| && !FormatTouches(size, k)
      ensures Masked(Drawn(masked, writes), reserved, size, mask)[k] == modules[k]
    {
      FormatTouchesAll(size, FormatInformation(level, mask), k);
      DrawnElsewhere(masked, writes, k);
    }
  }

  // ----- reading a symbol -----

  function ModuleAt(modules: Modules, k: nat): bool {
    k < |modules| && modules[k]
  }

  /** The first copy of the format information. */
  function ReadFormat(modules: Modules, size: nat): (bits: seq<bool>)
    requires KnownSize(size)
    ensures |bits| == 15
  {
    seq(15, k requires 0 <= k < 15 => ModuleAt(modules, FormatCell(size, k)))
  }

  /** The codewords of a symbol, its mask undone. */
  function ReadCodewords(modules: Modules, version: nat, mask: int): seq<Word>
    requires KnownVersion(version) && KnownMask(mask) && |modules| == SizeOf(version) * SizeOf(version)
  {
    var size := SizeOf(version);
    OrderDistinct(size);
    Words(Read(Masked(modules, FunctionModules(version), size, mask), FunctionModules(version), Order(size)))
  }

  /** What a reader makes of a symbol without errors, knowing only its size. */
  function Decoded(modules: Modules, version: nat): Option<seq<Word>>
    requires KnownVersion(version) && |modules| == SizeOf(version) * SizeOf(version)
  {
    var format := ReadFormat(modules, SizeOf(version));
    var lengths := DataLengths(SpecOf(version, ReadLevel(format)));
    var codewords := ReadCodewords(modules, version, ReadMask(format));
    ReadByteMode(FlatBits(Joined(ReadBlocks(codewords, lengths))), CharacterCountBits(version))
  }

  /** How many modules take data. */
  function DataModules(version: nat): nat
    requires KnownVersion(version)
  {
    OrderDistinct(SizeOf(version));
    |Read(Blank(version), FunctionModules(version), Order(SizeOf(version)))|
  }

  lemma {:induction false} ReadLength(modules: Modules, modules': Modules, reserved: Modules, cells: seq<nat>)
    requires |reserved| == |modules| == |modules'| && InRange(cells, |modules|)
    ensures |Read(modules, reserved, cells)| == |Read(modules', reserved, cells)|
  {
    if cells != [] {
      ReadLength(modules, modules', reserved, cells[..|cells| - 1]);
    }
  }

  lemma FormatCellsDistinct(size: nat, i: nat, j: nat)
    requires KnownSize(size) && i < j < 31
    ensures FormatCell(size, i) != FormatCell(size, j)
  {
    FormatCellParts(size, i);
    FormatCellParts(size, j);
  }

  /** The column and row of a module of the format information. */
  function FormatX(size: nat, k: nat): nat
    requires KnownSize(size) && k < 31
  {
    if k < 8 then 8 else if k == 8 then 7 else if k < 15 then 14 - k else if k < 23 then size - 1 - (k - 15) else 8
  }

  function FormatY(size: nat, k: nat): nat
    requires KnownSize(size) && k < 31
  {
    if k < 6 then k else if k == 6 then 7 else if k < 23 then 8 else if k < 30 then size - 30 + k else size - 8
  }

  lemma FormatCellParts(size: nat, k: nat)
    requires KnownSize(size) && k < 31
    ensures FormatCell(size, k) == Cell(size, FormatX(size, k), FormatY(size, k)) < size * size
    ensures FormatCell(size, k) % size == FormatX(size, k) && FormatCell(size, k) / size == FormatY(size, k)
  {
    hide Cell;
    CellParts(size, FormatX(size, k), FormatY(size, k));
    CellInside(size, FormatX(size, k), FormatY(size, k));
  }

  lemma {:induction false} DrawnAt(modules: Modules, writes: seq<Write>, i: nat)
    requires i < |writes| && writes[i].cell < |modules|
    requires forall j :: i < j < |writes| ==> writes[j].cell != writes[i].cell
    ensures Drawn(modules, writes)[writes[i].cell] == writes[i].dark
  {
    if i < |writes| - 1 {
      var front := writes[..|writes| - 1];
      assert writes[|writes| - 1].cell != front[i].cell;
      DrawnAt(modules, front, i);
    }
  }

  lemma FormatIsRead(modules: Modules, version: nat, level: int, mask: int)
    requires KnownVersion(version) && KnownLevel(level) && KnownMask(mask)
    requires |modules| == SizeOf(version) * SizeOf(version)
    ensures ReadFormat(Finished(modules, version, level, mask), SizeOf(version)) == FormatInformation(level, mask)
  {
    hide FunctionModules, FormatInformation, Drawn, FormatCell, Masked;
    var size, bits := SizeOf(version), FormatInformation(level, mask);
    var writes := FormatWrites(size, bits, 31);
    var masked := Masked(modules, FunctionModules(version), size, mask);
    forall k | 0 <= k < 15
      ensures ModuleAt(Drawn(masked, writes), FormatCell(size, k)) == bits[k]
    {
      FormatCellParts(size, k);
      forall j | k < j < 31
        ensures writes[j].cell != writes[k].cell
      {
        FormatCellsDistinct(size, k, j);
      }
      DrawnAt(masked, writes, k);
    }
  }

  lemma WordsOfPrefix(words: seq<Word>, rest: seq<bool>)
    ensures Words(FlatBits(words) + rest) == words + Words(rest)
  {
    hide FlatBits;
    var bits, n := FlatBits(words) + rest, |words|;
    assert |bits| / 8 == n + |rest| / 8;
    WordsOfFlatBits(words);
    forall i | 0 <= i < |bits| / 8
      ensures Words(bits)[i] == (words + Words(rest))[i]
    {
      if i < n {
        assert Words(bits)[i] == Words(FlatBits(words))[i];
      } else {
        assert Words(bits)[i] == Words(rest)[i - n];
      }
    }
  }

  /** A reader who knows the mask finds the codewords, and then the remainder bits. */
  lemma CodewordsAreRead(codewords: seq<Word>, version: nat, level: int, mask: int)
    requires KnownVersion(version) && KnownLevel(level) && KnownMask(mask)
    requires 8 * |codewords| <= DataModules(version)
    ensures var read := ReadCodewords(Finished(Unmasked(codewords, version, level), version, level, mask), version,
                                      mask);
            codewords <= read && |read| == DataModules(version) / 8
  {
    hide FunctionModules, PatternWrites, FlatBits, Words, Order, Drawn, Finished, Masked, FormatTouches, Placed, Read;
    var size, reserved := SizeOf(version), FunctionModules(version);
    var cells, bits, start := Order(size), FlatBits(codewords), Drawn(Blank(version), PatternWrites(version, level));
    var placed := Unmasked(codewords, version, level);
    OrderDistinct(size);
    PlacedReads(start, reserved, bits, cells);
    ReadLength(start, Blank(version), reserved, cells);
    var before := Read(start, reserved, cells);
    assert Read(placed, reserved, cells) == bits + before[|bits|..] by {
      assert bits[..|bits|] == bits;
    }
    WordsOfPrefix(codewords, before[|bits|..]);
    UnmaskedFinished(placed, version, level, mask);
    var read := Masked(Finished(placed, version, level, mask), reserved, size, mask);
    forall i | 0 <= i < |cells| && !reserved[cells[i]]
      ensures read[cells[i]] == placed[cells[i]]
    {
      if FormatTouches(size, cells[i]) {
        FormatIsReserved(version, cells[i]);
      }
    }
    ReadUnaffected(read, placed, reserved, cells);
    assert |Words(Read(read, reserved, cells))| == |before| / 8;
  }

  lemma CodewordsOfLength(data: seq<Word>, version: nat, level: int)
    requires KnownVersion(version) && KnownLevel(level) && Holds(version, level, |data|)
    ensures |CodewordsOf(data, version, level)| == TOTAL_CODEWORDS[version - 1]
  {
    var spec := SpecOf(version, level);
    TablesAgree(version, level);
    hide BLOCK_SPECS, Stream, Words, Codewords, DataLengths, Total, BlockSpec.TotalCodewords, BlockSpec.DataCodewords;
    DataLengthsTotal(spec);
    CodewordsParts(DataOf(data, version, level), DataLengths(spec), Rows(spec), spec.ecPerBlock);
  }

  /** The blocks a reader finds hold the data's codewords, and vanish where they should. */
  lemma BlocksAreRead(data: seq<Word>, version: nat, level: int, read: seq<Word>)
    requires KnownVersion(version) && KnownLevel(level) && Holds(version, level, |data|)
    requires CodewordsOf(data, version, level) <= read
    ensures var spec := SpecOf(version, level);
            && Joined(ReadBlocks(read, DataLengths(spec))) == DataOf(data, version, level)
            && BlocksVanish(read, DataLengths(spec), spec.ecPerBlock)
  {
    hide Holds, SpecOf, BLOCK_SPECS, TOTAL_CODEWORDS, DataOf, Codewords, DataLengths, Total, Rows;
    hide BlocksVanish, ReadBlocks, Joined, BlockSpec.TotalCodewords, BlockSpec.DataCodewords;
    TablesAgree(version, level);
    var spec := SpecOf(version, level);
    DataLengthsTotal(spec);
    ReadFromPrefix(DataOf(data, version, level), DataLengths(spec), Rows(spec), spec.ecPerBlock, read);
  }

  /** A reader gets back the data, from the modules and their number alone. */
  lemma SymbolReadsBack(data: seq<Word>, version: nat, level: int, mask: int)
    requires KnownVersion(version) && KnownLevel(level) && KnownMask(mask) && Holds(version, level, |data|)
    requires 8 * TOTAL_CODEWORDS[version - 1] <= DataModules(version)
    ensures Decoded(SymbolOf(data, version, level, mask), version) == Some(data)
  {
    hide BLOCK_SPECS, TOTAL_CODEWORDS, Stream, Words, CodewordsOf, DataLengths, FlatBits, Finished, Unmasked, Pow2;
    hide ReadCodewords, ReadFormat, FormatInformation, ReadLevel, ReadMask, ReadBlocks, Joined, ReadByteMode;
    hide DataModules, CharacterCountBits, BlockSpec.DataCodewords, BlocksVanish;
    var codewords := CodewordsOf(data, version, level);
    var modules := Unmasked(codewords, version, level);
    CodewordsOfLength(data, version, level);
    FormatIsRead(modules, version, level, mask);
    FormatReadsBack(level, mask);
    CodewordsAreRead(codewords, version, level, mask);
    var read := ReadCodewords(Finished(modules, version, level, mask), version, mask);
    BlocksAreRead(data, version, level, read);
    HeldLength(version, level, |data|);
    DataStream(data, version, level);
    StreamRoundTrip(data, CharacterCountBits(version), SpecOf(version, level).DataCodewords());
  }

  lemma DataStream(data: seq<Word>, version: nat, level: int)
    requires KnownVersion(version) && KnownLevel(level) && Holds(version, level, |data|)
    ensures FlatBits(DataOf(data, version, level))
         == Stream(data, CharacterCountBits(version), SpecOf(version, level).DataCodewords())
  {
    hide BLOCK_SPECS, Stream, Words, FlatBits, BlockSpec.DataCodewords;
    BitsOfWords(Stream(data, CharacterCountBits(version), SpecOf(version, level).DataCodewords()));
  }

  lemma BitsOfWords(bits: seq<bool>)
    requires |bits| % 8 == 0
    ensures FlatBits(Words(bits)) == bits
  {
    hide FlatBits;
    var words := Words(bits);
    forall k | 0 <= k < |bits|
      ensures FlatBits(words)[k] == bits[k]
    {
      FlatBitsAt(words, k);
      assert words[k / 8][7 - k % 8] == bits[8 * (k / 8) + 7 - (7 - k % 8)];
    }
  }

  /** Data and masks never overwrite a function module: outside the format
      information, which is drawn last, each keeps what the patterns drew. */
  lemma PatternsStand(codewords: seq<Word>, version: nat, level: int, mask: int, k: nat)
    requires KnownVersion(version) && KnownLevel(level) && KnownMask(mask)
    requires k < SizeOf(version) * SizeOf(version) && FunctionModules(version)[k]
    requires !FormatTouches(SizeOf(version), k)
    ensures Finished(Unmasked(codewords, version, level), version, level, mask)[k]
         == Drawn(Blank(version), PatternWrites(version, level))[k]
  {
    hide FunctionModules, PatternWrites, FlatBits, Order, Drawn, FormatTouches, FormatWrites, FormatInformation;
    hide Placed, Touches, Inverts;
    var size, reserved := SizeOf(version), FunctionModules(version);
    var bits := FormatInformation(level, mask);
    OrderDistinct(size);
    PlacedElsewhere(Drawn(Blank(version), PatternWrites(version, level)), reserved, FlatBits(codewords), Order(size),
                    k);
    FormatTouchesAll(size, bits, k);
    DrawnElsewhere(Masked(Unmasked(codewords, version, level), reserved, size, mask), FormatWrites(size, bits, 31), k);
  }
}
