/** The room a symbol has: the function patterns leave enough modules for the
    codewords of its version (pkg/encoding/qr/tables.go:43-59), so that what
    is encoded is always read back. */
module Capacity {
  import opened Wrappers
  import opened GaloisField
  import opened BitStream
  import opened ByteMode
  import opened Zigzag
  import opened Patterns
  import opened Symbols

  // ----- counting -----

  /** A list that has all numbers below n has at least n entries. */
  lemma {:induction false} Covering(n: nat, s: seq<nat>)
    requires forall k :: 0 <= k < n ==> k in s
    ensures n <= |s|
  {
    if n > 0 {
      assert n - 1 in s;
      var i :| 0 <= i < |s| && s[i] == n - 1;
      var rest := s[..i] + s[i + 1..];
      forall k | 0 <= k < n - 1
        ensures k in rest
      {
        assert k in s;
        var j :| 0 <= j < |s| && s[j] == k;
        assert k == rest[if j < i then j else j - 1];
      }
      Covering(n - 1, rest);
    }
  }

  /** The cells that are not reserved. */
  function FreeCells(reserved: Modules, cells: seq<nat>): seq<nat>
    requires InRange(cells, |reserved|)
  {
    if cells == [] then []
    else
      var front, cell := FreeCells(reserved, cells[..|cells| - 1]), cells[|cells| - 1];
      if reserved[cell] then front else front + [cell]
  }

  lemma {:induction false} FreeCellsRead(modules: Modules, reserved: Modules, cells: seq<nat>)
    requires |modules| == |reserved| && InRange(cells, |modules|)
    ensures |Read(modules, reserved, cells)| == |FreeCells(reserved, cells)|
  {
    if cells != [] {
      FreeCellsRead(modules, reserved, cells[..|cells| - 1]);
    }
  }

  lemma {:induction false} FreeCellsHave(reserved: Modules, cells: seq<nat>, cell: nat)
    requires InRange(cells, |reserved|) && cell in cells && !reserved[cell]
    ensures cell in FreeCells(reserved, cells)
  {
    var last := |cells| - 1;
    if cells[last] != cell {
      assert cells == cells[..last] + [cells[last]];
      FreeCellsHave(reserved, cells[..last], cell);
    }
  }

  // ----- where the patterns are -----

  /** A module no further from a centre than some distance, in both directions. */
  predicate Near(size: nat, cell: nat, cx: int, cy: int, distance: nat) {
    size > 0 && Abs(cell % size - cx) <= distance && Abs(cell / size - cy) <= distance
  }

  lemma TouchesEither(a: seq<Write>, b: seq<Write>, cell: nat)
    requires Touches(a + b, cell)
    ensures Touches(a, cell) || Touches(b, cell)
  {
    var i :| 0 <= i < |a + b| && (a + b)[i].cell == cell;
    if i < |a| {
      assert a[i].cell == cell;
    } else {
      assert b[i - |a|].cell == cell;
    }
  }

  lemma {:induction false} TimingIs(size: nat, n: nat, cell: nat)
    requires KnownSize(size) && n <= size && Touches(TimingWrites(size, n), cell)
    ensures cell % size == 6 || cell / size == 6
  {
    if n > 0 {
      hide Touches, Cell;
      var i := n - 1;
      var before, a, b := TimingWrites(size, i), [Write(Cell(size, 6, i), i % 2 == 0)],
          [Write(Cell(size, i, 6), i % 2 == 0)];
      TouchesEither(before + a, b, cell);
      if Touches(b, cell) {
        TouchesOne(b[0], cell);
        CellParts(size, i, 6);
      } else {
        TouchesEither(before, a, cell);
        if Touches(a, cell) {
          TouchesOne(a[0], cell);
          CellParts(size, 6, i);
        } else {
          TimingIs(size, i, cell);
        }
      }
    }
  }

  lemma TouchesOne(w: Write, cell: nat)
    requires Touches([w], cell)
    ensures w.cell == cell
  {
  }

  lemma {:induction false} FinderRowIs(size: nat, cx: int, cy: int, dy: int, n: nat, cell: nat)
    requires -4 <= dy <= 4 && n <= 9 && Touches(FinderRow(size, cx, cy, dy, n), cell)
    ensures Near(size, cell, cx, cy, 4)
  {
    if n > 0 {
      hide Touches, Cell, Distance;
      var dx := n - 1 - 4;
      var front := FinderRow(size, cx, cy, dy, n - 1);
      var place := if Inside(size, cx + dx, cy + dy) then Cell(size, cx + dx, cy + dy) else 0;
      var w := Write(place, Distance(dx, dy) != 2 && Distance(dx, dy) != 4);
      if Inside(size, cx + dx, cy + dy) {
        TouchesEither(front, [w], cell);
        if Touches([w], cell) {
          TouchesOne(w, cell);
          CellParts(size, cx + dx, cy + dy);
        } else {
          FinderRowIs(size, cx, cy, dy, n - 1, cell);
        }
      } else {
        assert front + [] == front;
        FinderRowIs(size, cx, cy, dy, n - 1, cell);
      }
    }
  }

  lemma {:induction false} FinderIs(size: nat, cx: int, cy: int, n: nat, cell: nat)
    requires n <= 9 && Touches(FinderWrites(size, cx, cy, n), cell)
    ensures Near(size, cell, cx, cy, 4)
  {
    if n > 0 {
      hide Touches, FinderRow, Near;
      TouchesEither(FinderWrites(size, cx, cy, n - 1), FinderRow(size, cx, cy, n - 1 - 4, 9), cell);
      if Touches(FinderRow(size, cx, cy, n - 1 - 4, 9), cell) {
        FinderRowIs(size, cx, cy, n - 1 - 4, 9, cell);
      } else {
        FinderIs(size, cx, cy, n - 1, cell);
      }
    }
  }

  lemma {:induction false} AlignmentRowIs(size: nat, cx: nat, cy: nat, dy: int, n: nat, cell: nat)
    requires Roomy(size, cx) && Roomy(size, cy) && -2 <= dy <= 2 && n <= 5
    requires Touches(AlignmentRow(size, cx, cy, dy, n), cell)
    ensures Near(size, cell, cx, cy, 2)
  {
    if n > 0 {
      hide Touches, Cell, Distance;
      var dx := n - 1 - 2;
      var w := Write(Cell(size, cx + dx, cy + dy), Distance(dx, dy) != 1);
      TouchesEither(AlignmentRow(size, cx, cy, dy, n - 1), [w], cell);
      if Touches([w], cell) {
        TouchesOne(w, cell);
        CellParts(size, cx + dx, cy + dy);
      } else {
        AlignmentRowIs(size, cx, cy, dy, n - 1, cell);
      }
    }
  }

  lemma {:induction false} AlignmentIs(size: nat, cx: nat, cy: nat, n: nat, cell: nat)
    requires Roomy(size, cx) && Roomy(size, cy) && n <= 5 && Touches(AlignmentWrites(size, cx, cy, n), cell)
    ensures Near(size, cell, cx, cy, 2)
  {
    if n > 0 {
      hide Touches, AlignmentRow, Near;
      TouchesEither(AlignmentWrites(size, cx, cy, n - 1), AlignmentRow(size, cx, cy, n - 1 - 2, 5), cell);
      if Touches(AlignmentRow(size, cx, cy, n - 1 - 2, 5), cell) {
        AlignmentRowIs(size, cx, cy, n - 1 - 2, 5, cell);
      } else {
        AlignmentIs(size, cx, cy, n - 1, cell);
      }
    }
  }

  lemma {:induction false} AlignmentsOfAre(size: nat, centers: seq<nat>, i: nat, n: nat, cell: nat) returns (j: nat)
    requires CentersFit(size, centers) && i < |centers| && n <= |centers|
    requires Touches(AlignmentsOf(size, centers, i, n), cell)
    ensures j < |centers| && !FinderCorner(i, j, |centers| - 1) && Near(size, cell, centers[i], centers[j], 2)
  {
    hide Touches, AlignmentWrites, Near;
    j := 0;
    if n == 0 {
      NothingTouched(cell);
    } else {
      var front := AlignmentsOf(size, centers, i, n - 1);
      if FinderCorner(i, n - 1, |centers| - 1) {
        assert front + [] == front;
        j := AlignmentsOfAre(size, centers, i, n - 1, cell);
      } else {
        TouchesEither(front, AlignmentWrites(size, centers[i], centers[n - 1], 5), cell);
        if Touches(front, cell) {
          j := AlignmentsOfAre(size, centers, i, n - 1, cell);
        } else {
          AlignmentIs(size, centers[i], centers[n - 1], 5, cell);
          j := n - 1;
        }
      }
    }
  }

  lemma NothingTouched(cell: nat)
    ensures !Touches([], cell)
  {
  }

  lemma {:induction false} AllAlignmentsAre(size: nat, centers: seq<nat>, n: nat, cell: nat) returns (i: nat, j: nat)
    requires CentersFit(size, centers) && n <= |centers| && Touches(AllAlignments(size, centers, n), cell)
    ensures i < |centers| && j < |centers| && !FinderCorner(i, j, |centers| - 1)
    ensures Near(size, cell, centers[i], centers[j], 2)
  {
    hide Touches, AlignmentsOf, Near;
    i, j := 0, 0;
    if n == 0 {
      NothingTouched(cell);
    } else {
      TouchesEither(AllAlignments(size, centers, n - 1), AlignmentsOf(size, centers, n - 1, |centers|), cell);
      if Touches(AllAlignments(size, centers, n - 1), cell) {
        i, j := AllAlignmentsAre(size, centers, n - 1, cell);
      } else {
        i := n - 1;
        j := AlignmentsOfAre(size, centers, i, |centers|, cell);
      }
    }
  }

  lemma {:induction false} VersionIs(size: nat, bits: seq<bool>, n: nat, cell: nat)
    requires KnownSize(size) && n <= 18 && |bits| == 18 && Touches(VersionWrites(size, bits, n), cell)
    ensures var x, y := cell % size, cell / size;
            (size - 11 <= x < size - 8 && y < 6) || (size - 11 <= y < size - 8 && x < 6)
  {
    if n > 0 {
      hide Touches, Cell;
      var i := n - 1;
      var a, b := size - 11 + i % 3, i / 3;
      var before, v, w := VersionWrites(size, bits, i), [Write(Cell(size, a, b), bits[i])],
          [Write(Cell(size, b, a), bits[i])];
      TouchesEither(before + v, w, cell);
      if Touches(w, cell) {
        TouchesOne(w[0], cell);
        CellParts(size, b, a);
      } else {
        TouchesEither(before, v, cell);
        if Touches(v, cell) {
          TouchesOne(v[0], cell);
          CellParts(size, a, b);
        } else {
          VersionIs(size, bits, i, cell);
        }
      }
    }
  }

  // ----- the rectangles they are in -----

  function RectRow(size: nat, x: nat, y: nat, width: nat): (cells: seq<nat>)
    ensures |cells| == width && forall i :: 0 <= i < width ==> cells[i] == Cell(size, x + i, y)
  {
    if width == 0 then [] else RectRow(size, x, y, width - 1) + [Cell(size, x + width - 1, y)]
  }

  function RectCells(size: nat, x: nat, y: nat, width: nat, height: nat): (cells: seq<nat>)
    ensures |cells| == height * width
  {
    if height == 0 then []
    else
      assert height * width == (height - 1) * width + width;
      RectCells(size, x, y, width, height - 1)
      + RectRow(size, x, y + height - 1, width)
  }

  predicate InRect(size: nat, cell: nat, x: nat, y: nat, width: nat, height: nat) {
    size > 0 && x <= cell % size < x + width && y <= cell / size < y + height
  }

  lemma {:induction false} RectHas(size: nat, x: nat, y: nat, width: nat, height: nat, cell: nat)
    requires InRect(size, cell, x, y, width, height)
    ensures cell in RectCells(size, x, y, width, height)
  {
    if cell / size == y + height - 1 {
      CellOf(size, cell);
      assert RectRow(size, x, y + height - 1, width)[cell % size - x] == cell;
    } else {
      RectHas(size, x, y, width, height - 1, cell);
    }
  }

  lemma CellOf(size: nat, cell: nat)
    requires size > 0
    ensures Cell(size, cell % size, cell / size) == cell
  {
  }

  /** The finders with their separators and format information, and the timing patterns between them. */
  function Frame(size: nat): (cells: seq<nat>)
    requires KnownSize(size)
    ensures |cells| == 225 + 2 * (size - 17)
  {
    RectCells(size, 0, 0, 9, 9) + RectCells(size, size - 8, 0, 8, 9) + RectCells(size, 0, size - 8, 9, 8)
    + RectCells(size, 9, 6, size - 17, 1) + RectCells(size, 6, 9, 1, size - 17)
  }

  predicate InFrame(size: nat, cell: nat)
    requires KnownSize(size)
  {
    || InRect(size, cell, 0, 0, 9, 9) || InRect(size, cell, size - 8, 0, 8, 9) || InRect(size, cell, 0, size - 8, 9, 8)
    || InRect(size, cell, 9, 6, size - 17, 1) || InRect(size, cell, 6, 9, 1, size - 17)
  }

  lemma FrameHas(size: nat, cell: nat)
    requires KnownSize(size) && InFrame(size, cell)
    ensures cell in Frame(size)
  {
    hide RectCells, InRect;
    if InRect(size, cell, 0, 0, 9, 9) {
      RectHas(size, 0, 0, 9, 9, cell);
    } else if InRect(size, cell, size - 8, 0, 8, 9) {
      RectHas(size, size - 8, 0, 8, 9, cell);
    } else if InRect(size, cell, 0, size - 8, 9, 8) {
      RectHas(size, 0, size - 8, 9, 8, cell);
    } else if InRect(size, cell, 9, 6, size - 17, 1) {
      RectHas(size, 9, 6, size - 17, 1, cell);
    } else {
      RectHas(size, 6, 9, 1, size - 17, cell);
    }
  }

  /** What an alignment pattern has outside the timing patterns. */
  function AlignmentCells(size: nat, cx: nat, cy: nat): (cells: seq<nat>)
    requires cx >= 2 && cy >= 2
    ensures |cells| == if cx == 6 || cy == 6 then 20 else 25
  {
    if cy == 6 then RectCells(size, cx - 2, 4, 5, 2) + RectCells(size, cx - 2, 7, 5, 2)
    else if cx == 6 then RectCells(size, 4, cy - 2, 2, 5) + RectCells(size, 7, cy - 2, 2, 5)
    else RectCells(size, cx - 2, cy - 2, 5, 5)
  }

  lemma AlignmentHas(size: nat, cx: nat, cy: nat, cell: nat)
    requires cx >= 2 && cy >= 2 && Near(size, cell, cx, cy, 2)
    ensures cell in AlignmentCells(size, cx, cy) || (cy == 6 && cell / size == 6) || (cx == 6 && cell % size == 6)
  {
    hide RectCells;
    if cy == 6 {
      if cell / size < 6 {
        RectHas(size, cx - 2, 4, 5, 2, cell);
      } else if cell / size > 6 {
        RectHas(size, cx - 2, 7, 5, 2, cell);
      }
    } else if cx == 6 {
      if cell % size < 6 {
        RectHas(size, 4, cy - 2, 2, 5, cell);
      } else if cell % size > 6 {
        RectHas(size, 7, cy - 2, 2, 5, cell);
      }
    } else {
      RectHas(size, cx - 2, cy - 2, 5, 5, cell);
    }
  }

  /** The centres of a version, as the cover takes them. */
  ghost predicate KnownCenters(size: nat, centers: seq<nat>) {
    && KnownSize(size) && CentersFit(size, centers) && |centers| in {0, 2, 3}
    && (|centers| > 0 ==> centers[0] == 6 && forall i :: 0 < i < |centers| ==> centers[i] > 6)
  }

  /** The alignment patterns of a version with two centres, or with three. */
  ghost function AlignmentsCover(size: nat, centers: seq<nat>): (cells: seq<nat>)
    requires KnownCenters(size, centers)
    ensures |cells| == if centers == [] then 0 else if |centers| == 2 then 25 else 140
  {
    if centers == [] then []
    else if |centers| == 2 then AlignmentCells(size, centers[1], centers[1])
    else
      AlignmentCells(size, centers[0], centers[1]) + AlignmentCells(size, centers[1], centers[0])
      + AlignmentCells(size, centers[1], centers[1]) + AlignmentCells(size, centers[1], centers[2])
      + AlignmentCells(size, centers[2], centers[1]) + AlignmentCells(size, centers[2], centers[2])
  }

  lemma AlignmentsCoverHas(size: nat, centers: seq<nat>, i: nat, j: nat, cell: nat)
    requires KnownCenters(size, centers)
    requires i < |centers| && j < |centers| && !FinderCorner(i, j, |centers| - 1)
    ensures forall c :: c in AlignmentCells(size, centers[i], centers[j]) ==> c in AlignmentsCover(size, centers)
  {
    hide AlignmentCells;
    if |centers| == 2 {
      assert i == 1 && j == 1;
    } else {
      assert i == 0 ==> j == 1;
      assert i == 1 ==> j == 0 || j == 1 || j == 2;
      assert i == 2 ==> j == 1 || j == 2;
    }
  }

  function VersionCover(version: nat): (cells: seq<nat>)
    requires KnownVersion(version)
    ensures |cells| == if version < 7 then 0 else 36
  {
    var size := SizeOf(version);
    if version < 7 then [] else RectCells(size, size - 11, 0, 3, 6) + RectCells(size, 0, size - 11, 6, 3)
  }

  /** The alignment centres of every version. */
  lemma CentersOfVersions(version: nat)
    requires KnownVersion(version)
    ensures var centers := CentersOf(version);
            && KnownCenters(SizeOf(version), centers)
            && |centers| == (if version == 1 then 0 else if version < 7 then 2 else 3)
  {
    CentersAreRoomy(version);
  }

  /** Everything the patterns reserve. */
  ghost function Cover(version: nat): seq<nat>
    requires KnownVersion(version)
  {
    CentersOfVersions(version);
    Frame(SizeOf(version)) + AlignmentsCover(SizeOf(version), CentersOf(version)) + VersionCover(version)
  }

  lemma OnTimingRow(size: nat, cell: nat)
    requires KnownSize(size) && cell / size == 6
    ensures InFrame(size, cell)
  {
  }

  lemma OnTimingColumn(size: nat, cell: nat)
    requires KnownSize(size) && cell % size == 6 && cell / size < size
    ensures InFrame(size, cell)
  {
  }

  lemma FormatInFrame(size: nat, cell: nat)
    requires KnownSize(size) && FormatTouches(size, cell)
    ensures InFrame(size, cell)
  {
    hide FormatCell;
    var i :| 0 <= i < 31 && FormatCell(size, i) == cell;
    FormatCellParts(size, i);
  }

  lemma RowInside(size: nat, cell: nat)
    requires size > 0 && cell < size * size
    ensures cell / size < size
  {
    assert cell == size * (cell / size) + cell % size;
    if cell / size > size {
      Grows(size, size, cell / size);
    }
  }

  lemma VersionHas(version: nat, cell: nat)
    requires KnownVersion(version) && Touches(VersionPart(version), cell)
    ensures cell in VersionCover(version)
  {
    hide RectCells, VersionWrites, VersionInformation;
    var size := SizeOf(version);
    if version < 7 {
      NothingTouched(cell);
    } else {
      VersionIs(size, VersionInformation(version), 18, cell);
      if cell / size < 6 && size - 11 <= cell % size < size - 8 {
        RectHas(size, size - 11, 0, 3, 6, cell);
      } else {
        RectHas(size, 0, size - 11, 6, 3, cell);
      }
    }
  }

  lemma AlignmentsCovered(size: nat, centers: seq<nat>, cell: nat)
    requires KnownCenters(size, centers) && cell / size < size
    requires Touches(AllAlignments(size, centers, |centers|), cell)
    ensures cell in AlignmentsCover(size, centers) || InFrame(size, cell)
  {
    hide AlignmentsCover, AlignmentCells, InFrame, AllAlignments, Touches, Near, FinderCorner;
    var i, j := AllAlignmentsAre(size, centers, |centers|, cell);
    AlignmentHas(size, centers[i], centers[j], cell);
    AlignmentsCoverHas(size, centers, i, j, cell);
    if cell / size == 6 {
      OnTimingRow(size, cell);
    } else if cell % size == 6 {
      OnTimingColumn(size, cell);
    }
  }

  lemma AlignmentsHas(version: nat, cell: nat)
    requires KnownVersion(version) && cell < SizeOf(version) * SizeOf(version)
    requires CentersFit(SizeOf(version), CentersOf(version))
    requires Touches(AllAlignments(SizeOf(version), CentersOf(version), |CentersOf(version)|), cell)
    ensures cell in Cover(version)
  {
    CentersOfVersions(version);
    RowInside(SizeOf(version), cell);
    hide ALIGNMENT_CENTERS, Frame, AlignmentsCover, VersionCover, InFrame, AllAlignments, Touches;
    AlignmentsCovered(SizeOf(version), CentersOf(version), cell);
    if InFrame(SizeOf(version), cell) {
      FrameHas(SizeOf(version), cell);
    }
  }

  /** Every reserved module is in the cover. */
  lemma CoverHas(version: nat, cell: nat)
    requires KnownVersion(version) && cell < SizeOf(version) * SizeOf(version) && FunctionModules(version)[cell]
    ensures cell in Cover(version)
  {
    hide ALIGNMENT_CENTERS, Frame, AlignmentsCover, VersionCover, InFrame, Touches;
    hide TimingWrites, FinderWrites, AllAlignments, FormatWrites, FormatInformation, VersionPart, FormatTouches;
    var size := SizeOf(version);
    CentersAreRoomy(version);
    CentersOfVersions(version);
    Marked(Blank(version), PatternWrites(version, 0), cell);
    RowInside(size, cell);
    var timing, finder1, finder2, finder3 := TimingWrites(size, size), FinderWrites(size, 3, 3, 9),
        FinderWrites(size, size - 4, 3, 9), FinderWrites(size, 3, size - 4, 9);
    var alignments := AllAlignments(size, CentersOf(version), |CentersOf(version)|);
    var format := FormatWrites(size, FormatInformation(0, 0), 31);
    TouchesEither(timing + finder1 + finder2 + finder3 + alignments + format, VersionPart(version), cell);
    if Touches(VersionPart(version), cell) {
      VersionHas(version, cell);
    } else {
      TouchesEither(timing + finder1 + finder2 + finder3 + alignments, format, cell);
      if Touches(format, cell) {
        FormatTouchesAll(size, FormatInformation(0, 0), cell);
        FormatInFrame(size, cell);
        FrameHas(size, cell);
      } else {
        TouchesEither(timing + finder1 + finder2 + finder3, alignments, cell);
        if Touches(alignments, cell) {
          AlignmentsHas(version, cell);
        } else {
          FrameTouched(size, cell);
          FrameHas(size, cell);
        }
      }
    }
  }

  lemma FrameTouched(size: nat, cell: nat)
    requires KnownSize(size) && cell / size < size
    requires Touches(TimingWrites(size, size) + FinderWrites(size, 3, 3, 9) + FinderWrites(size, size - 4, 3, 9)
                     + FinderWrites(size, 3, size - 4, 9), cell)
    ensures InFrame(size, cell)
  {
    hide Touches, TimingWrites, FinderWrites;
    var timing, finder1, finder2, finder3 := TimingWrites(size, size), FinderWrites(size, 3, 3, 9),
        FinderWrites(size, size - 4, 3, 9), FinderWrites(size, 3, size - 4, 9);
    TouchesEither(timing + finder1 + finder2, finder3, cell);
    if Touches(finder3, cell) {
      FinderIs(size, 3, size - 4, 9, cell);
    } else {
      TouchesEither(timing + finder1, finder2, cell);
      if Touches(finder2, cell) {
        FinderIs(size, size - 4, 3, 9, cell);
      } else {
        TouchesEither(timing, finder1, cell);
        if Touches(finder1, cell) {
          FinderIs(size, 3, 3, 9, cell);
        } else {
          TimingIs(size, size, cell);
          if cell / size == 6 {
            OnTimingRow(size, cell);
          } else {
            OnTimingColumn(size, cell);
          }
        }
      }
    }
  }

  // ----- the room there is -----

  lemma ColumnSixReserved(version: nat, y: nat)
    requires KnownVersion(version) && y < SizeOf(version)
    ensures Cell(SizeOf(version), 6, y) < SizeOf(version) * SizeOf(version)
    ensures FunctionModules(version)[Cell(SizeOf(version), 6, y)]
  {
    hide TimingWrites, FinderWrites, AllAlignments, FormatWrites, FormatInformation, VersionPart, Touches;
    hide ALIGNMENT_CENTERS, Cell;
    var size := SizeOf(version);
    CentersAreRoomy(version);
    TimingTouches(size, size, y);
    CellInside(size, 6, y);
    var rest := FinderWrites(size, 3, 3, 9);
    TouchesLeft(TimingWrites(size, size), FinderWrites(size, 3, 3, 9), Cell(size, 6, y));
    var a := TimingWrites(size, size) + FinderWrites(size, 3, 3, 9);
    TouchesLeft(a, FinderWrites(size, size - 4, 3, 9), Cell(size, 6, y));
    var b := a + FinderWrites(size, size - 4, 3, 9);
    TouchesLeft(b, FinderWrites(size, 3, size - 4, 9), Cell(size, 6, y));
    var c := b + FinderWrites(size, 3, size - 4, 9);
    TouchesLeft(c, AllAlignments(size, CentersOf(version), |CentersOf(version)|), Cell(size, 6, y));
    var d := c + AllAlignments(size, CentersOf(version), |CentersOf(version)|);
    TouchesLeft(d, FormatWrites(size, FormatInformation(0, 0), 31), Cell(size, 6, y));
    var e := d + FormatWrites(size, FormatInformation(0, 0), 31);
    TouchesLeft(e, VersionPart(version), Cell(size, 6, y));
    Marked(Blank(version), PatternWrites(version, 0), Cell(size, 6, y));
  }

  lemma TouchesLeft(a: seq<Write>, b: seq<Write>, cell: nat)
    requires Touches(a, cell)
    ensures Touches(a + b, cell)
  {
    var i :| 0 <= i < |a| && a[i].cell == cell;
    assert (a + b)[i].cell == cell;
  }

  lemma {:induction false} TimingTouches(size: nat, n: nat, y: nat)
    requires y < n <= size
    ensures Touches(TimingWrites(size, n), Cell(size, 6, y))
  {
    hide Cell;
    var i := n - 1;
    var before, a, b := TimingWrites(size, i), [Write(Cell(size, 6, i), i % 2 == 0)],
        [Write(Cell(size, i, 6), i % 2 == 0)];
    if y == i {
      assert (before + a + b)[|before|].cell == Cell(size, 6, y);
    } else {
      TimingTouches(size, i, y);
      TouchesLeft(before, a, Cell(size, 6, y));
      TouchesLeft(before + a, b, Cell(size, 6, y));
    }
  }

  /** The zigzag passes every data module. */
  lemma OrderHasData(version: nat, cell: nat)
    requires KnownVersion(version) && cell < SizeOf(version) * SizeOf(version) && !FunctionModules(version)[cell]
    ensures cell in Order(SizeOf(version))
  {
    hide FunctionModules, Order, Cell;
    var size := SizeOf(version);
    RowInside(size, cell);
    CellOf(size, cell);
    if cell % size == 6 {
      ColumnSixReserved(version, cell / size);
    } else {
      OrderCovers(size, cell % size, cell / size);
    }
  }

  /** Every version has room for its codewords. */
  lemma RoomForCodewords(version: nat)
    requires KnownVersion(version)
    ensures 8 * TOTAL_CODEWORDS[version - 1] <= DataModules(version)
  {
    hide FunctionModules, Order, Cover, TOTAL_CODEWORDS;
    var size, reserved := SizeOf(version), FunctionModules(version);
    OrderDistinct(size);
    var free := FreeCells(reserved, Order(size));
    FreeCellsRead(Blank(version), reserved, Order(size));
    forall cell | 0 <= cell < size * size
      ensures cell in free + Cover(version)
    {
      if reserved[cell] {
        CoverHas(version, cell);
      } else {
        OrderHasData(version, cell);
        FreeCellsHave(reserved, Order(size), cell);
      }
    }
    Covering(size * size, free + Cover(version));
    CoverIsSmall(version);
  }

  /** The most modules that a version's patterns reserve. */
  function CoverSize(version: nat): nat
    requires KnownVersion(version)
  {
    225 + 8 * version + (if version == 1 then 0 else if version < 7 then 25 else 140) + (if version < 7 then 0 else 36)
  }

  lemma CoverIsSmall(version: nat)
    requires KnownVersion(version)
    ensures 8 * TOTAL_CODEWORDS[version - 1] + |Cover(version)| <= SizeOf(version) * SizeOf(version)
  {
    CentersOfVersions(version);
    RoomLeft(version);
    hide ALIGNMENT_CENTERS, TOTAL_CODEWORDS, Frame, AlignmentsCover, VersionCover;
    assert |Cover(version)| == CoverSize(version);
  }

  lemma RoomLeft(version: nat)
    requires KnownVersion(version)
    ensures 8 * TOTAL_CODEWORDS[version - 1] + CoverSize(version) <= SizeOf(version) * SizeOf(version)
  {
    assert SizeOf(version) * SizeOf(version) == 289 + 136 * version + 16 * version * version;
    if version <= 5 {
      assert version == 1 || version == 2 || version == 3 || version == 4 || version == 5;
    } else {
      assert version == 6 || version == 7 || version == 8 || version == 9 || version == 10;
    }
  }

  /** Whatever is encoded is read back, from the modules and their number alone. */
  lemma EncodedReadsBack(data: seq<Word>, version: nat, level: int, mask: int)
    requires KnownVersion(version) && KnownLevel(level) && KnownMask(mask) && Holds(version, level, |data|)
    ensures Decoded(SymbolOf(data, version, level, mask), version) == Some(data)
  {
    hide *;
    RoomForCodewords(version);
    SymbolReadsBack(data, version, level, mask);
  }
}
