/** The encoder of pkg/encoding/qr/qr.go: the symbol drawn in place, the masks
    tried in place, and the finished code. */
module Drawing {
  import opened Wrappers
  import opened GaloisField
  import opened ReedSolomon
  import opened BitStream
  import opened ByteMode
  import opened Interleaving
  import opened Zigzag
  import opened Patterns
  import opened Symbols
  import opened Capacity

  /** An encoded symbol. */
  datatype Code = Code(version: nat, level: int, mask: int, size: nat, dark: Modules)

  class Symbol {
    const version: nat
    const level: int
    const size: nat
    const dark: array<bool>
    const reserved: array<bool>

    predicate Valid() {
      && KnownVersion(version) && KnownLevel(level) && size == SizeOf(version)
      && dark != reserved && dark.Length == reserved.Length == size * size
    }

    /** newSymbol: everything but a mask and the format information. */
    constructor (tables: Tables, version: nat, level: int, data: seq<Word>)
      requires tables.Valid()
      requires KnownVersion(version) && KnownLevel(level) && Holds(version, level, |data|)
      ensures Valid() && this.version == version && this.level == level && fresh(dark) && fresh(reserved)
      ensures reserved[..] == FunctionModules(version)
      ensures dark[..] == Unmasked(CodewordsOf(data, version, level), version, level)
    {
      this.version, this.level, this.size := version, level, SizeOf(version);
      this.dark := new bool[SizeOf(version) * SizeOf(version)](k => false);
      this.reserved := new bool[SizeOf(version) * SizeOf(version)](k => false);
      new;
      hide *;
      Draw(tables, data);
    }

    /** Patterns and codewords, on light modules. */
    method Draw(tables: Tables, data: seq<Word>)
      requires Valid() && tables.Valid() && Holds(version, level, |data|)
      requires dark[..] == Blank(version) && reserved[..] == Blank(version)
      modifies dark, reserved
      ensures reserved[..] == FunctionModules(version)
      ensures dark[..] == Unmasked(CodewordsOf(data, version, level), version, level)
    {
      hide BLOCK_SPECS, FunctionModules, PatternWrites, CodewordsOf, FlatBits, Order, Drawn, Placed, Marks, Stream;
      hide Holds;
      DrawFunctionPatterns();
      ReservedIs(version, level);
      var codewords := MakeCodewords(tables, data, version, level);
      DrawCodewords(codewords);
    }

    // ----- the function patterns -----

    method SetFunction(x: nat, y: nat, value: bool)
      requires Valid() && x < size && y < size
      modifies dark, reserved
      ensures dark[..] == Drawn(old(dark[..]), [Write(Cell(size, x, y), value)])
      ensures reserved[..] == Drawn(old(reserved[..]), Marks([Write(Cell(size, x, y), value)]))
    {
      CellInside(size, x, y);
      DrawnOne(dark[..], Write(Cell(size, x, y), value));
      DrawnOne(reserved[..], Write(Cell(size, x, y), true));
      assert Marks([Write(Cell(size, x, y), value)]) == [Write(Cell(size, x, y), true)];
      dark[y * size + x] := value;
      reserved[y * size + x] := true;
    }

    method DrawTiming()
      requires Valid()
      modifies dark, reserved
      ensures dark[..] == Drawn(old(dark[..]), TimingWrites(size, size))
      ensures reserved[..] == Drawn(old(reserved[..]), Marks(TimingWrites(size, size)))
    {
      hide Drawn, Marks, Cell;
      ghost var d, r := dark[..], reserved[..];
      NothingDrawn(d, r);
      for i := 0 to size
        invariant dark[..] == Drawn(d, TimingWrites(size, i))
        invariant reserved[..] == Drawn(r, Marks(TimingWrites(size, i)))
      {
        ghost var a := [Write(Cell(size, 6, i), i % 2 == 0)];
        SetFunction(6, i, i % 2 == 0);
        DrawnThen(d, r, TimingWrites(size, i), a);
        SetFunction(i, 6, i % 2 == 0);
        DrawnThen(d, r, TimingWrites(size, i) + a, [Write(Cell(size, i, 6), i % 2 == 0)]);
      }
    }

    method DrawFinder(cx: nat, cy: nat)
      requires Valid()
      modifies dark, reserved
      ensures dark[..] == Drawn(old(dark[..]), FinderWrites(size, cx, cy, 9))
      ensures reserved[..] == Drawn(old(reserved[..]), Marks(FinderWrites(size, cx, cy, 9)))
    {
      hide Drawn, Marks, FinderRow;
      ghost var d, r := dark[..], reserved[..];
      NothingDrawn(d, r);
      for dy := -4 to 5
        invariant dark[..] == Drawn(d, FinderWrites(size, cx, cy, dy + 4))
        invariant reserved[..] == Drawn(r, Marks(FinderWrites(size, cx, cy, dy + 4)))
      {
        DrawFinderRow(cx, cy, dy);
        DrawnThen(d, r, FinderWrites(size, cx, cy, dy + 4), FinderRow(size, cx, cy, dy, 9));
      }
    }

    method DrawFinderRow(cx: nat, cy: nat, dy: int)
      requires Valid()
      modifies dark, reserved
      ensures dark[..] == Drawn(old(dark[..]), FinderRow(size, cx, cy, dy, 9))
      ensures reserved[..] == Drawn(old(reserved[..]), Marks(FinderRow(size, cx, cy, dy, 9)))
    {
      hide Drawn, Marks, Cell, Distance;
      ghost var d, r := dark[..], reserved[..];
      NothingDrawn(d, r);
      for dx := -4 to 5
        invariant dark[..] == Drawn(d, FinderRow(size, cx, cy, dy, dx + 4))
        invariant reserved[..] == Drawn(r, Marks(FinderRow(size, cx, cy, dy, dx + 4)))
      {
        ghost var before := FinderRow(size, cx, cy, dy, dx + 4);
        var x, y := cx + dx, cy + dy;
        if x < 0 || y < 0 || x >= size || y >= size {
          assert FinderRow(size, cx, cy, dy, dx + 5) == before + [] == before;
          continue;
        }
        var distance := Distance(dx, dy);
        SetFunction(x, y, distance != 2 && distance != 4);
        DrawnThen(d, r, before, [Write(Cell(size, x, y), distance != 2 && distance != 4)]);
      }
    }

    method DrawAlignment(cx: nat, cy: nat)
      requires Valid() && Roomy(size, cx) && Roomy(size, cy)
      modifies dark, reserved
      ensures dark[..] == Drawn(old(dark[..]), AlignmentWrites(size, cx, cy, 5))
      ensures reserved[..] == Drawn(old(reserved[..]), Marks(AlignmentWrites(size, cx, cy, 5)))
    {
      hide Drawn, Marks, AlignmentRow;
      ghost var d, r := dark[..], reserved[..];
      NothingDrawn(d, r);
      for dy := -2 to 3
        invariant dark[..] == Drawn(d, AlignmentWrites(size, cx, cy, dy + 2))
        invariant reserved[..] == Drawn(r, Marks(AlignmentWrites(size, cx, cy, dy + 2)))
      {
        DrawAlignmentRow(cx, cy, dy);
        DrawnThen(d, r, AlignmentWrites(size, cx, cy, dy + 2), AlignmentRow(size, cx, cy, dy, 5));
      }
    }

    method DrawAlignmentRow(cx: nat, cy: nat, dy: int)
      requires Valid() && Roomy(size, cx) && Roomy(size, cy) && -2 <= dy <= 2
      modifies dark, reserved
      ensures dark[..] == Drawn(old(dark[..]), AlignmentRow(size, cx, cy, dy, 5))
      ensures reserved[..] == Drawn(old(reserved[..]), Marks(AlignmentRow(size, cx, cy, dy, 5)))
    {
      hide Drawn, Marks, Cell, Distance;
      ghost var d, r := dark[..], reserved[..];
      NothingDrawn(d, r);
      for dx := -2 to 3
        invariant dark[..] == Drawn(d, AlignmentRow(size, cx, cy, dy, dx + 2))
        invariant reserved[..] == Drawn(r, Marks(AlignmentRow(size, cx, cy, dy, dx + 2)))
      {
        SetFunction(cx + dx, cy + dy, Distance(dx, dy) != 1);
        DrawnThen(d, r, AlignmentRow(size, cx, cy, dy, dx + 2),
                  [Write(Cell(size, cx + dx, cy + dy), Distance(dx, dy) != 1)]);
      }
    }

    method DrawAlignments()
      requires Valid() && CentersFit(size, CentersOf(version))
      modifies dark, reserved
      ensures dark[..] == Drawn(old(dark[..]), AllAlignments(size, CentersOf(version), |CentersOf(version)|))
      ensures reserved[..]
              == Drawn(old(reserved[..]), Marks(AllAlignments(size, CentersOf(version), |CentersOf(version)|)))
    {
      hide Drawn, Marks, AlignmentsOf, ALIGNMENT_CENTERS;
      ghost var d, r := dark[..], reserved[..];
      NothingDrawn(d, r);
      var centers := CentersOf(version);
      for i := 0 to |centers|
        invariant dark[..] == Drawn(d, AllAlignments(size, centers, i))
        invariant reserved[..] == Drawn(r, Marks(AllAlignments(size, centers, i)))
      {
        DrawAlignmentsOf(centers, i);
        DrawnThen(d, r, AllAlignments(size, centers, i), AlignmentsOf(size, centers, i, |centers|));
      }
    }

    method DrawAlignmentsOf(centers: seq<nat>, i: nat)
      requires Valid() && CentersFit(size, centers) && i < |centers|
      modifies dark, reserved
      ensures dark[..] == Drawn(old(dark[..]), AlignmentsOf(size, centers, i, |centers|))
      ensures reserved[..] == Drawn(old(reserved[..]), Marks(AlignmentsOf(size, centers, i, |centers|)))
    {
      hide Drawn, Marks, AlignmentWrites;
      ghost var d, r := dark[..], reserved[..];
      NothingDrawn(d, r);
      for j := 0 to |centers|
        invariant dark[..] == Drawn(d, AlignmentsOf(size, centers, i, j))
        invariant reserved[..] == Drawn(r, Marks(AlignmentsOf(size, centers, i, j)))
      {
        ghost var before := AlignmentsOf(size, centers, i, j);
        if FinderCorner(i, j, |centers| - 1) {
          assert AlignmentsOf(size, centers, i, j + 1) == before + [] == before;
          continue;
        }
        DrawAlignment(centers[i], centers[j]);
        DrawnThen(d, r, before, AlignmentWrites(size, centers[i], centers[j], 5));
      }
    }

    /** Both copies of the format information, and the dark module. */
    method DrawFormat(mask: int)
      requires Valid() && KnownMask(mask)
      modifies dark, reserved
      ensures dark[..] == Drawn(old(dark[..]), FormatWrites(size, FormatInformation(level, mask), 31))
      ensures reserved[..] == Drawn(old(reserved[..]), Marks(FormatWrites(size, FormatInformation(level, mask), 31)))
    {
      hide Drawn, Marks, Cell, FormatInformation;
      ghost var d, r := dark[..], reserved[..];
      NothingDrawn(d, r);
      var bits := FormatInformation(level, mask);
      for i := 0 to 6
        invariant dark[..] == Drawn(d, FormatWrites(size, bits, i))
        invariant reserved[..] == Drawn(r, Marks(FormatWrites(size, bits, i)))
      {
        SetFunction(8, i, bits[i]);
        FormatNext(d, r, size, bits, i);
      }
      SetFunction(8, 7, bits[6]);
      FormatNext(d, r, size, bits, 6);
      SetFunction(8, 8, bits[7]);
      FormatNext(d, r, size, bits, 7);
      SetFunction(7, 8, bits[8]);
      FormatNext(d, r, size, bits, 8);
      for i := 9 to 15
        invariant dark[..] == Drawn(d, FormatWrites(size, bits, i))
        invariant reserved[..] == Drawn(r, Marks(FormatWrites(size, bits, i)))
      {
        SetFunction(14 - i, 8, bits[i]);
        FormatNext(d, r, size, bits, i);
      }
      for i := 0 to 8
        invariant dark[..] == Drawn(d, FormatWrites(size, bits, 15 + i))
        invariant reserved[..] == Drawn(r, Marks(FormatWrites(size, bits, 15 + i)))
      {
        SetFunction(size - 1 - i, 8, bits[i]);
        FormatNext(d, r, size, bits, 15 + i);
      }
      for i := 8 to 15
        invariant dark[..] == Drawn(d, FormatWrites(size, bits, 15 + i))
        invariant reserved[..] == Drawn(r, Marks(FormatWrites(size, bits, 15 + i)))
      {
        SetFunction(8, size - 15 + i, bits[i]);
        FormatNext(d, r, size, bits, 15 + i);
      }
      SetFunction(8, size - 8, true);
      FormatNext(d, r, size, bits, 30);
    }

    method DrawVersion()
      requires Valid()
      modifies dark, reserved
      ensures dark[..] == Drawn(old(dark[..]), VersionPart(version))
      ensures reserved[..] == Drawn(old(reserved[..]), Marks(VersionPart(version)))
    {
      hide Drawn, Marks, Cell, VersionInformation;
      ghost var d, r := dark[..], reserved[..];
      NothingDrawn(d, r);
      if version < 7 {
        return;
      }
      var bits := VersionInformation(version);
      for i := 0 to 18
        invariant dark[..] == Drawn(d, VersionWrites(size, bits, i))
        invariant reserved[..] == Drawn(r, Marks(VersionWrites(size, bits, i)))
      {
        var a, b := size - 11 + i % 3, i / 3;
        ghost var first := [Write(Cell(size, a, b), bits[i])];
        SetFunction(a, b, bits[i]);
        DrawnThen(d, r, VersionWrites(size, bits, i), first);
        SetFunction(b, a, bits[i]);
        DrawnThen(d, r, VersionWrites(size, bits, i) + first, [Write(Cell(size, b, a), bits[i])]);
      }
    }

    method DrawFunctionPatterns()
      requires Valid()
      modifies dark, reserved
      ensures dark[..] == Drawn(old(dark[..]), PatternWrites(version, level))
      ensures reserved[..] == Drawn(old(reserved[..]), Marks(PatternWrites(version, level)))
    {
      hide Drawn, Marks, TimingWrites, FinderWrites, AllAlignments, FormatWrites, FormatInformation, VersionPart;
      hide ALIGNMENT_CENTERS;
      ghost var d, r := dark[..], reserved[..];
      CentersAreRoomy(version);
      DrawTiming();
      ghost var writes := TimingWrites(size, size);
      DrawFinder(3, 3);
      DrawnThen(d, r, writes, FinderWrites(size, 3, 3, 9));
      writes := writes + FinderWrites(size, 3, 3, 9);
      DrawFinder(size - 4, 3);
      DrawnThen(d, r, writes, FinderWrites(size, size - 4, 3, 9));
      writes := writes + FinderWrites(size, size - 4, 3, 9);
      DrawFinder(3, size - 4);
      DrawnThen(d, r, writes, FinderWrites(size, 3, size - 4, 9));
      writes := writes + FinderWrites(size, 3, size - 4, 9);
      DrawAlignments();
      ghost var alignments := AllAlignments(size, CentersOf(version), |CentersOf(version)|);
      DrawnThen(d, r, writes, alignments);
      writes := writes + alignments;
      DrawFormat(0);
      DrawnThen(d, r, writes, FormatWrites(size, FormatInformation(level, 0), 31));
      writes := writes + FormatWrites(size, FormatInformation(level, 0), 31);
      DrawVersion();
      DrawnThen(d, r, writes, VersionPart(version));
    }

    // ----- the codewords -----

    /** Places the next bit in a module, unless it is reserved or nothing is left to place. */
    method PlaceModule(x: nat, y: nat, codewords: seq<Word>, index: nat,
                       ghost start: Modules, ghost cells: seq<nat>) returns (next: nat)
      requires Valid() && x < size && y < size && |start| == dark.Length && InRange(cells, |start|)
      requires Placing(dark[..], index) == Placed(start, reserved[..], FlatBits(codewords), cells)
      modifies dark
      ensures Cell(size, x, y) < |start|
      ensures Placing(dark[..], next) == Placed(start, reserved[..], FlatBits(codewords), cells + [Cell(size, x, y)])
    {
      hide FlatBits;
      CellInside(size, x, y);
      assert (cells + [Cell(size, x, y)])[..|cells|] == cells;
      if reserved[y * size + x] || index >= |codewords| * 8 {
        return index;
      }
      FlatBitsAt(codewords, index);
      dark[y * size + x] := codewords[index / 8][7 - index % 8];
      return index + 1;
    }

    /** Two columns, upward or downward. */
    method DrawStrip(right: nat, codewords: seq<Word>, index: nat,
                     ghost start: Modules, ghost cells: seq<nat>) returns (next: nat)
      requires Valid() && 1 <= right < size && |start| == dark.Length && InRange(cells, |start|)
      requires Placing(dark[..], index) == Placed(start, reserved[..], FlatBits(codewords), cells)
      modifies dark
      ensures InRange(cells + Strip(size, right, size), |start|)
      ensures Placing(dark[..], next)
              == Placed(start, reserved[..], FlatBits(codewords), cells + Strip(size, right, size))
    {
      hide FlatBits, Placed, Cell;
      next := index;
      var upward := Upward(right);
      assert cells + Strip(size, right, 0) == cells;
      for vertical := 0 to size
        invariant InRange(cells + Strip(size, right, vertical), |start|)
        invariant Placing(dark[..], next)
               == Placed(start, reserved[..], FlatBits(codewords), cells + Strip(size, right, vertical))
      {
        var y := vertical;
        if upward {
          y := size - 1 - vertical;
        }
        ghost var before := cells + Strip(size, right, vertical);
        next := PlaceModule(right, y, codewords, next, start, before);
        ghost var between := before + [Cell(size, right, y)];
        next := PlaceModule(right - 1, y, codewords, next, start, between);
        assert cells + Strip(size, right, vertical + 1) == between + [Cell(size, right - 1, y)];
      }
    }

    /** The codewords' bits in the zigzag order. */
    method DrawCodewords(codewords: seq<Word>)
      requires Valid()
      modifies dark
      ensures InRange(Order(size), dark.Length)
      ensures dark[..] == Placed(old(dark[..]), reserved[..], FlatBits(codewords), Order(size)).dark
    {
      hide FlatBits, Strip, Placed, ZigzagFrom;
      ghost var start := dark[..];
      ghost var cells: seq<nat> := [];
      NothingPlaced(start, reserved[..], FlatBits(codewords));
      var index := 0;
      var right := size - 1;
      while right >= 1
        invariant -2 <= right < size
        invariant InRange(cells, |start|) && Order(size) == cells + ZigzagFrom(size, right)
        invariant Placing(dark[..], index) == Placed(start, reserved[..], FlatBits(codewords), cells)
        decreases right + 2
      {
        ghost var from := right;
        if right == 6 {
          right := 5;
        }
        index := DrawStrip(right, codewords, index, start, cells);
        ZigzagStep(size, from, cells);
        cells := cells + Strip(size, right, size);
        right := right - 2;
      }
      ZigzagEnds(size, right);
      assert Order(size) == cells + [] == cells;
    }

    // ----- masks -----

    method ApplyMask(mask: int)
      requires Valid() && KnownMask(mask)
      modifies dark
      ensures dark[..] == Masked(old(dark[..]), reserved[..], size, mask)
    {
      hide Inverts;
      ghost var masked := Masked(dark[..], reserved[..], size, mask);
      for y := 0 to size
        invariant Cell(size, 0, y) <= dark.Length
        invariant forall k :: 0 <= k < Cell(size, 0, y) ==> dark[k] == masked[k]
        invariant forall k :: Cell(size, 0, y) <= k < dark.Length ==> dark[k] == old(dark[k])
      {
        assert Cell(size, 0, y + 1) == Cell(size, 0, y) + size;
        CellInside(size, size - 1, y);
        for x := 0 to size
          invariant forall k :: 0 <= k < Cell(size, x, y) ==> dark[k] == masked[k]
          invariant forall k :: Cell(size, x, y) <= k < dark.Length ==> dark[k] == old(dark[k])
        {
          CellParts(size, x, y);
          CellInside(size, x, y);
          if !reserved[y * size + x] && Inverts(mask, x, y) {
            dark[y * size + x] := !dark[y * size + x];
          }
        }
      }
    }

    /** Finishes the symbol with a mask and its format information. */
    method Finish(mask: int) returns (code: Code)
      requires Valid() && KnownMask(mask) && reserved[..] == FunctionModules(version)
      modifies dark, reserved
      ensures code == Code(version, level, mask, size, Finished(old(dark[..]), version, level, mask))
    {
      hide FunctionModules, Drawn, FormatWrites, FormatInformation, Inverts;
      ApplyMask(mask);
      DrawFormat(mask);
      code := Code(version, level, mask, size, dark[..]);
    }

    /** Tries a mask: draws the finished symbol, scores it, and takes the mask off again. */
    method Try(mask: int, penalty: Modules -> nat, ghost start: Modules) returns (score: nat)
      requires Valid() && KnownMask(mask) && |start| == dark.Length
      requires reserved[..] == FunctionModules(version) && AgreeOutsideFormat(dark[..], start, size)
      modifies dark, reserved
      ensures score == penalty(Finished(start, version, level, mask))
      ensures reserved[..] == FunctionModules(version) && AgreeOutsideFormat(dark[..], start, size)
    {
      hide FunctionModules, Drawn, FormatWrites, FormatInformation, Inverts, AgreeOutsideFormat, Marks;
      FinishedAlike(dark[..], start, version, level, mask);
      ApplyMask(mask);
      DrawFormat(mask);
      StillReserved(version, FormatInformation(level, mask));
      assert dark[..] == Finished(start, version, level, mask);
      score := penalty(dark[..]);
      ApplyMask(mask);
      UnmaskedFinished(start, version, level, mask);
    }
  }

  // ----- small facts about drawing -----

  lemma NothingPlaced(modules: Modules, reserved: Modules, bits: seq<bool>)
    requires |reserved| == |modules|
    ensures Placed(modules, reserved, bits, []) == Placing(modules, 0)
  {
  }

  lemma ZigzagStep(size: nat, right: int, cells: seq<nat>)
    requires 1 <= right < size
    ensures cells + ZigzagFrom(size, right)
         == cells + Strip(size, Skip(right), size) + ZigzagFrom(size, Skip(right) - 2)
  {
    hide Strip;
  }

  lemma ZigzagEnds(size: nat, right: int)
    requires -2 <= right < 1 && right < size
    ensures ZigzagFrom(size, right) == []
  {
  }

  lemma DrawnOne(modules: Modules, w: Write)
    ensures w.cell < |modules| ==> Drawn(modules, [w]) == modules[w.cell := w.dark]
  {
    assert [w][..0] == [];
  }

  lemma NothingDrawn(modules: Modules, reserved: Modules)
    ensures Drawn(modules, []) == modules && Drawn(reserved, Marks([])) == reserved
  {
  }

  lemma FormatNext(modules: Modules, reserved: Modules, size: nat, bits: seq<bool>, k: nat)
    requires KnownSize(size) && |bits| == 15 && k < 31
    ensures Drawn(Drawn(modules, FormatWrites(size, bits, k)), [FormatWrite(size, bits, k)])
         == Drawn(modules, FormatWrites(size, bits, k + 1))
    ensures Drawn(Drawn(reserved, Marks(FormatWrites(size, bits, k))), Marks([FormatWrite(size, bits, k)]))
         == Drawn(reserved, Marks(FormatWrites(size, bits, k + 1)))
  {
    assert FormatWrites(size, bits, k + 1) == FormatWrites(size, bits, k) + [FormatWrite(size, bits, k)];
    DrawnThen(modules, reserved, FormatWrites(size, bits, k), [FormatWrite(size, bits, k)]);
  }

  lemma ReservedIs(version: nat, level: int)
    requires KnownVersion(version) && KnownLevel(level)
    ensures Drawn(Blank(version), Marks(PatternWrites(version, level))) == FunctionModules(version)
  {
    hide PatternWrites, Drawn, Marks;
    SameMarks(version, level, 0);
  }

  /** Marking the format information again changes nothing. */
  lemma StillReserved(version: nat, bits: seq<bool>)
    requires KnownVersion(version) && |bits| == 15
    ensures Drawn(FunctionModules(version), Marks(FormatWrites(SizeOf(version), bits, 31))) == FunctionModules(version)
  {
    hide FunctionModules, Drawn, FormatTouches, Touches, FormatWrites;
    var size, reserved := SizeOf(version), FunctionModules(version);
    var writes := FormatWrites(size, bits, 31);
    forall k | 0 <= k < |reserved|
      ensures Drawn(reserved, Marks(writes))[k] == reserved[k]
    {
      Marked(reserved, writes, k);
      FormatTouchesAll(size, bits, k);
      if FormatTouches(size, k) {
        FormatIsReserved(version, k);
      }
    }
  }

  method MakeCodewords(tables: Tables, data: seq<Word>, version: nat, level: int) returns (codewords: seq<Word>)
    requires tables.Valid()
    requires KnownVersion(version) && KnownLevel(level) && Holds(version, level, |data|)
    ensures codewords == CodewordsOf(data, version, level)
  {
    var spec := SpecOf(version, level);
    TablesAgree(version, level);
    hide BLOCK_SPECS, FlatBits, Words, Stream, BlockSpec.DataCodewords, BlockSpec.TotalCodewords, Codewords;
    hide DataLengths;
    var dataCodewords := DataCodewords(data, version, spec);
    WordsOfFlatBits(dataCodewords);
    codewords := Interleave(tables, dataCodewords, spec);
  }

  // ----- the encoder -----

  /** No mask below some limit does better than the best, and none before it as well. */
  ghost predicate Best(start: Modules, version: nat, level: int, penalty: Modules -> nat, best: int, limit: int)
    requires KnownVersion(version) && KnownLevel(level) && KnownMask(best) && 0 <= limit <= 8
    requires |start| == SizeOf(version) * SizeOf(version)
  {
    forall mask :: 0 <= mask < limit ==>
      var score, least := penalty(Finished(start, version, level, mask)),
          penalty(Finished(start, version, level, best));
      least <= score && (mask < best ==> least < score)
  }

  /** Encodes data in the smallest version that holds it, with the first mask of least penalty. */
  method Encode(tables: Tables, data: seq<Word>, level: int, penalty: Modules -> nat) returns (r: Result<Code, Error>)
    requires tables.Valid()
    ensures r.Err? ==> r.error == if KnownLevel(level) then DataTooLong else NotALevel
    ensures r.Err? && KnownLevel(level) ==> forall v :: KnownVersion(v) ==> !Holds(v, level, |data|)
    ensures r.Ok? ==> var code := r.value;
              && code.level == level && KnownLevel(level) && KnownMask(code.mask) && KnownVersion(code.version)
              && Holds(code.version, level, |data|) && (forall v :: 1 <= v < code.version ==> !Holds(v, level, |data|))
              && code.size == SizeOf(code.version)
              && code.dark == SymbolOf(data, code.version, level, code.mask)
              && Decoded(code.dark, code.version) == Some(data)
              && Best(Unmasked(CodewordsOf(data, code.version, level), code.version, level), code.version, level,
                      penalty, code.mask, 8)
  {
    hide FunctionModules, Unmasked, CodewordsOf, Holds, Finished, AgreeOutsideFormat, BLOCK_SPECS, Decoded;
    var chosen := ChooseVersion(|data|, level);
    if chosen.Err? {
      return Err(chosen.error);
    }
    var version := chosen.value;
    var symbol := new Symbol(tables, version, level, data);
    ghost var start := symbol.dark[..];
    AgreesWithItself(start, symbol.size);
    var best, bestPenalty: int := 0, -1;
    for mask := 0 to 8
      invariant symbol.reserved[..] == FunctionModules(version)
      invariant AgreeOutsideFormat(symbol.dark[..], start, symbol.size)
      invariant KnownMask(best) && (mask > 0 ==> bestPenalty == penalty(Finished(start, version, level, best)))
      invariant mask == 0 ==> bestPenalty == -1
      invariant mask > 0 ==> best < mask && Best(start, version, level, penalty, best, mask)
    {
      var score := symbol.Try(mask, penalty, start);
      if bestPenalty < 0 || score < bestPenalty {
        best, bestPenalty := mask, score;
      }
    }
    FinishedAlike(symbol.dark[..], start, version, level, best);
    EncodedReadsBack(data, version, level, best);
    var code := symbol.Finish(best);
    return Ok(code);
  }

  lemma AgreesWithItself(modules: Modules, size: nat)
    requires KnownSize(size)
    ensures AgreeOutsideFormat(modules, modules, size)
  {
  }

  /** Encodes data with the mask given. */
  method EncodeWithMask(tables: Tables, data: seq<Word>, level: int, mask: int) returns (r: Result<Code, Error>)
    requires tables.Valid()
    ensures r == Err(NotAMask) <==> !KnownMask(mask)
    ensures r.Err? && KnownMask(mask) ==> r.error == if KnownLevel(level) then DataTooLong else NotALevel
    ensures r.Err? && KnownMask(mask) && KnownLevel(level) ==> forall v :: KnownVersion(v) ==> !Holds(v, level, |data|)
    ensures r.Ok? ==> var code := r.value;
              && code.level == level && KnownLevel(level) && code.mask == mask && KnownVersion(code.version)
              && Holds(code.version, level, |data|) && (forall v :: 1 <= v < code.version ==> !Holds(v, level, |data|))
              && code.size == SizeOf(code.version)
              && code.dark == SymbolOf(data, code.version, level, mask)
              && Decoded(code.dark, code.version) == Some(data)
  {
    hide FunctionModules, Unmasked, CodewordsOf, Holds, Finished, BLOCK_SPECS, Decoded;
    if mask < 0 || mask > 7 {
      return Err(NotAMask);
    }
    var chosen := ChooseVersion(|data|, level);
    if chosen.Err? {
      return Err(chosen.error);
    }
    var symbol := new Symbol(tables, chosen.value, level, data);
    EncodedReadsBack(data, chosen.value, level, mask);
    var code := symbol.Finish(mask);
    return Ok(code);
  }
}
