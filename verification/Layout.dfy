/** A symbol module by module: which modules are function modules, and which of
    those are dark, by their column and row alone. */
module Layout {
  import opened Wrappers
  import opened GaloisField
  import opened BitStream
  import opened ByteMode
  import opened Zigzag
  import opened Patterns
  import opened Symbols

  // ----- the regions of a symbol -----

  function Larger(a: nat, b: nat): nat {
    if a < b then b else a
  }

  /** How many rings of modules a module is from a centre. */
  function Ring(x: int, y: int, cx: int, cy: int): nat {
    Larger(if x < cx then cx - x else x - cx, if y < cy then cy - y else y - cy)
  }

  /** The three corners of eight modules a side: a finder and its separator. */
  predicate InFinder(size: nat, x: nat, y: nat) {
    (x < 8 && y < 8) || (x + 8 >= size && y < 8) || (x < 8 && y + 8 >= size)
  }

  /** A dark ring, a dark centre of three by three, and light between and around them. */
  function FinderDark(size: nat, x: nat, y: nat): bool {
    var ring := Ring(x, y, if x < 8 then 3 else size - 4, if y < 8 then 3 else size - 4);
    ring <= 1 || ring == 3
  }

  /** The columns, and rows, of alignment centres: 6, the seventh from the far
      edge, and from version 7 on the one between them. */
  predicate CenterLine(version: nat, c: nat) {
    version >= 2 && (c == 6 || c == 4 * version + 10 || (version >= 7 && c == 2 * version + 8))
  }

  /** An alignment centre, away from the finders. */
  predicate AlignmentCenter(version: nat, cx: nat, cy: nat) {
    && CenterLine(version, cx) && CenterLine(version, cy)
    && !(cx == 6 && cy == 6) && !(cx == 6 && cy == 4 * version + 10) && !(cx == 4 * version + 10 && cy == 6)
  }

  /** The centre line that a column or row is within two of, or an impossible one. */
  function NearLine(version: nat, x: nat): nat {
    if 4 <= x <= 8 then 6
    else if 4 * version + 8 <= x <= 4 * version + 12 then 4 * version + 10
    else 2 * version + 8
  }

  predicate InAlignment(version: nat, x: nat, y: nat) {
    var cx, cy := NearLine(version, x), NearLine(version, y);
    AlignmentCenter(version, cx, cy) && Ring(x, y, cx, cy) <= 2
  }

  /** A dark ring around a dark centre. */
  function AlignmentDark(version: nat, x: nat, y: nat): bool {
    Ring(x, y, NearLine(version, x), NearLine(version, y)) != 1
  }

  /** Which bit of the format information a module holds, the lowest being 0:
      around the upper left finder, and again in two parts beside the others. */
  function FormatBit(size: nat, x: nat, y: nat): Option<nat> {
    if x == 8 && y < 6 then Some(y)
    else if x == 8 && y == 7 then Some(6)
    else if x == 8 && y == 8 then Some(7)
    else if x == 7 && y == 8 then Some(8)
    else if y == 8 && x < 6 then Some(14 - x)
    else if y == 8 && size - 8 <= x < size then Some(size - 1 - x)
    else if x == 8 && size - 7 <= y < size then Some(15 - (size - y))
    else None
  }

  /** Which bit of the version information a module holds: six rows of three
      beside the upper right finder, and the same turned over. */
  function VersionBit(version: nat, x: nat, y: nat): Option<nat> {
    var first := 4 * version + 6;
    if version < 7 then None
    else if y < 6 && first <= x < first + 3 then Some(3 * y + (x - first))
    else if x < 6 && first <= y < first + 3 then Some(3 * x + (y - first))
    else None
  }

  /** What a function module shows, or None for a module that takes data. */
  function FunctionAt(version: nat, level: int, mask: int, x: nat, y: nat): Option<bool>
    requires KnownVersion(version) && KnownLevel(level) && KnownMask(mask)
  {
    var size := 17 + 4 * version;
    var format, vers := FormatBit(size, x, y), VersionBit(version, x, y);
    if format.Some? && format.value < 15 then Some(FormatInformation(level, mask)[format.value])
    else if x == 8 && y == size - 8 then Some(true)
    else if vers.Some? && vers.value < 18 then Some(VersionInformation(version)[vers.value])
    else if InAlignment(version, x, y) then Some(AlignmentDark(version, x, y))
    else if InFinder(size, x, y) then Some(FinderDark(size, x, y))
    else if x == 6 || y == 6 then Some((x + y) % 2 == 0)
    else None
  }

  // ----- the last write to a module -----

  function LastWrite(writes: seq<Write>, cell: nat): Option<bool> {
    if writes == [] then None
    else if writes[|writes| - 1].cell == cell then Some(writes[|writes| - 1].dark)
    else LastWrite(writes[..|writes| - 1], cell)
  }

  /** One of two answers, the later one if there is one. */
  function Later(earlier: Option<bool>, later: Option<bool>): Option<bool> {
    if later.Some? then later else earlier
  }

  lemma {:induction false} LastWriteAppend(a: seq<Write>, b: seq<Write>, cell: nat)
    ensures LastWrite(a + b, cell) == Later(LastWrite(a, cell), LastWrite(b, cell))
  {
    if b == [] {
      assert a + b == a;
    } else {
      assert (a + b)[..|a + b| - 1] == a + b[..|b| - 1];
      LastWriteAppend(a, b[..|b| - 1], cell);
    }
  }

  lemma {:induction false} DrawnIs(modules: Modules, writes: seq<Write>, cell: nat)
    requires cell < |modules|
    ensures Drawn(modules, writes)[cell]
         == match LastWrite(writes, cell)
            case Some(dark) => dark
            case None => modules[cell]
    ensures LastWrite(writes, cell).Some? <==> Touches(writes, cell)
  {
    if writes != [] {
      var front, last := writes[..|writes| - 1], |writes| - 1;
      DrawnIs(modules, front, cell);
      if Touches(front, cell) {
        var i :| 0 <= i < |front| && front[i].cell == cell;
        assert writes[i].cell == cell;
      }
      if Touches(writes, cell) && writes[last].cell != cell {
        var i :| 0 <= i < |writes| && writes[i].cell == cell;
        assert front[i].cell == cell;
      }
    }
  }

  lemma OneWrite(size: nat, a: nat, b: nat, dark: bool, x: nat, y: nat)
    requires a < size && x < size
    ensures LastWrite([Write(Cell(size, a, b), dark)], Cell(size, x, y))
         == if x == a && y == b then Some(dark) else None
  {
    hide Cell;
    CellParts(size, a, b);
    CellParts(size, x, y);
    var w := [Write(Cell(size, a, b), dark)];
    assert w[..0] == [];
  }

  // ----- where each pattern writes -----

  lemma {:induction false} TimingAt(size: nat, n: nat, x: nat, y: nat)
    requires KnownSize(size) && n <= size && x < size
    ensures LastWrite(TimingWrites(size, n), Cell(size, x, y))
         == if (x == 6 && y < n) || (y == 6 && x < n) then Some((x + y) % 2 == 0) else None
  {
    if n > 0 {
      hide Cell, LastWrite;
      var i, dark := n - 1, (n - 1) % 2 == 0;
      var front, a, b := TimingWrites(size, i), Write(Cell(size, 6, i), dark), Write(Cell(size, i, 6), dark);
      TimingAt(size, i, x, y);
      OneWrite(size, 6, i, dark, x, y);
      OneWrite(size, i, 6, dark, x, y);
      assert dark <==> (6 + i) % 2 == 0;
      LastWriteAppend(front, [a], Cell(size, x, y));
      LastWriteAppend(front + [a], [b], Cell(size, x, y));
    } else {
      assert TimingWrites(size, n) == [];
    }
  }

  function FinderValue(x: int, y: int, cx: int, cy: int): bool {
    Ring(x, y, cx, cy) != 2 && Ring(x, y, cx, cy) != 4
  }

  lemma {:induction false} FinderRowAt(size: nat, cx: int, cy: int, dy: int, n: nat, x: nat, y: nat)
    requires x < size && y < size && n <= 9
    ensures LastWrite(FinderRow(size, cx, cy, dy, n), Cell(size, x, y))
         == if y == cy + dy && cx - 4 <= x < cx - 4 + n then Some(FinderValue(x, y, cx, cy)) else None
  {
    if n > 0 {
      hide Cell, LastWrite;
      var dx := n - 1 - 4;
      var front := FinderRow(size, cx, cy, dy, n - 1);
      FinderRowAt(size, cx, cy, dy, n - 1, x, y);
      if Inside(size, cx + dx, cy + dy) {
        var dark := Distance(dx, dy) != 2 && Distance(dx, dy) != 4;
        OneWrite(size, cx + dx, cy + dy, dark, x, y);
        LastWriteAppend(front, [Write(Cell(size, cx + dx, cy + dy), dark)], Cell(size, x, y));
      } else {
        assert front + [] == front;
      }
    } else {
      assert FinderRow(size, cx, cy, dy, n) == [];
    }
  }

  lemma {:induction false} FinderAt(size: nat, cx: int, cy: int, n: nat, x: nat, y: nat)
    requires x < size && y < size && n <= 9
    ensures LastWrite(FinderWrites(size, cx, cy, n), Cell(size, x, y))
         == if cy - 4 <= y < cy - 4 + n && cx - 4 <= x <= cx + 4 then Some(FinderValue(x, y, cx, cy)) else None
  {
    if n > 0 {
      hide Cell, LastWrite, FinderRow;
      FinderAt(size, cx, cy, n - 1, x, y);
      FinderRowAt(size, cx, cy, n - 1 - 4, 9, x, y);
      LastWriteAppend(FinderWrites(size, cx, cy, n - 1), FinderRow(size, cx, cy, n - 1 - 4, 9), Cell(size, x, y));
    } else {
      assert FinderWrites(size, cx, cy, n) == [];
    }
  }

  lemma {:induction false} AlignmentRowAt(size: nat, cx: nat, cy: nat, dy: int, n: nat, x: nat, y: nat)
    requires Roomy(size, cx) && Roomy(size, cy) && -2 <= dy <= 2 && n <= 5 && x < size
    ensures LastWrite(AlignmentRow(size, cx, cy, dy, n), Cell(size, x, y))
         == if y == cy + dy && cx - 2 <= x < cx - 2 + n then Some(Ring(x, y, cx, cy) != 1) else None
  {
    if n > 0 {
      hide Cell, LastWrite;
      var dx := n - 1 - 2;
      var w := Write(Cell(size, cx + dx, cy + dy), Distance(dx, dy) != 1);
      AlignmentRowAt(size, cx, cy, dy, n - 1, x, y);
      OneWrite(size, cx + dx, cy + dy, Distance(dx, dy) != 1, x, y);
      LastWriteAppend(AlignmentRow(size, cx, cy, dy, n - 1), [w], Cell(size, x, y));
    } else {
      assert AlignmentRow(size, cx, cy, dy, n) == [];
    }
  }

  lemma {:induction false} AlignmentAt(size: nat, cx: nat, cy: nat, n: nat, x: nat, y: nat)
    requires Roomy(size, cx) && Roomy(size, cy) && n <= 5 && x < size
    ensures LastWrite(AlignmentWrites(size, cx, cy, n), Cell(size, x, y))
         == if cy - 2 <= y < cy - 2 + n && cx - 2 <= x <= cx + 2 then Some(Ring(x, y, cx, cy) != 1) else None
  {
    if n > 0 {
      hide Cell, LastWrite, AlignmentRow;
      AlignmentAt(size, cx, cy, n - 1, x, y);
      AlignmentRowAt(size, cx, cy, n - 1 - 2, 5, x, y);
      LastWriteAppend(AlignmentWrites(size, cx, cy, n - 1), AlignmentRow(size, cx, cy, n - 1 - 2, 5),
                      Cell(size, x, y));
    } else {
      assert AlignmentWrites(size, cx, cy, n) == [];
    }
  }

  /** The alignment pattern a module is in, the last of the first few in a column of them. */
  function FoundIn(centers: seq<nat>, i: nat, n: nat, x: nat, y: nat): Option<bool>
    requires i < |centers| && n <= |centers|
  {
    if n == 0 then None
    else if !FinderCorner(i, n - 1, |centers| - 1) && Ring(x, y, centers[i], centers[n - 1]) <= 2 then
      Some(Ring(x, y, centers[i], centers[n - 1]) != 1)
    else FoundIn(centers, i, n - 1, x, y)
  }

  function FoundAmong(centers: seq<nat>, n: nat, x: nat, y: nat): Option<bool>
    requires n <= |centers|
  {
    if n == 0 then None
    else Later(FoundAmong(centers, n - 1, x, y), FoundIn(centers, n - 1, |centers|, x, y))
  }

  lemma {:induction false} AlignmentsOfAt(size: nat, centers: seq<nat>, i: nat, n: nat, x: nat, y: nat)
    requires CentersFit(size, centers) && i < |centers| && n <= |centers| && x < size
    ensures LastWrite(AlignmentsOf(size, centers, i, n), Cell(size, x, y)) == FoundIn(centers, i, n, x, y)
  {
    hide Cell, LastWrite, AlignmentWrites;
    if n == 0 {
      NoWrites(Cell(size, x, y));
    } else {
      var front := AlignmentsOf(size, centers, i, n - 1);
      AlignmentsOfAt(size, centers, i, n - 1, x, y);
      if FinderCorner(i, n - 1, |centers| - 1) {
        assert front + [] == front;
      } else {
        AlignmentAt(size, centers[i], centers[n - 1], 5, x, y);
        LastWriteAppend(front, AlignmentWrites(size, centers[i], centers[n - 1], 5), Cell(size, x, y));
      }
    }
  }

  lemma NoWrites(cell: nat)
    ensures LastWrite([], cell) == None
  {
  }

  lemma {:induction false} AllAlignmentsAt(size: nat, centers: seq<nat>, n: nat, x: nat, y: nat)
    requires CentersFit(size, centers) && n <= |centers| && x < size
    ensures LastWrite(AllAlignments(size, centers, n), Cell(size, x, y)) == FoundAmong(centers, n, x, y)
  {
    hide Cell, LastWrite, AlignmentsOf, FoundIn;
    if n == 0 {
      NoWrites(Cell(size, x, y));
    } else {
      AllAlignmentsAt(size, centers, n - 1, x, y);
      AlignmentsOfAt(size, centers, n - 1, |centers|, x, y);
      LastWriteAppend(AllAlignments(size, centers, n - 1), AlignmentsOf(size, centers, n - 1, |centers|),
                      Cell(size, x, y));
    }
  }

  /** The centres of each version, by a formula. */
  lemma CentersAre(version: nat)
    requires KnownVersion(version)
    ensures CentersOf(version)
         == if version == 1 then [] else if version < 7 then [6, 4 * version + 10]
            else [6, 2 * version + 8, 4 * version + 10]
  {
  }

  lemma FoundWhere(version: nat, x: nat, y: nat)
    requires KnownVersion(version) && x < SizeOf(version) && y < SizeOf(version)
    ensures FoundAmong(CentersOf(version), |CentersOf(version)|, x, y)
         == if InAlignment(version, x, y) then Some(AlignmentDark(version, x, y)) else None
  {
    hide ALIGNMENT_CENTERS, InAlignment, AlignmentDark, Ring, FoundIn;
    CentersAre(version);
    var c := CentersOf(version);
    if version == 1 {
      NoCenters(x, y);
    } else if version < 7 {
      FoundInTwo(c, 0, x, y);
      FoundInTwo(c, 1, x, y);
      assert FoundAmong(c, 1, x, y) == Later(FoundAmong(c, 0, x, y), FoundIn(c, 0, 2, x, y)) == None;
      OnePattern(version, x, y);
    } else {
      FoundInThree(c, 0, x, y);
      FoundInThree(c, 1, x, y);
      FoundInThree(c, 2, x, y);
      assert FoundAmong(c, 1, x, y) == Later(FoundAmong(c, 0, x, y), FoundIn(c, 0, 3, x, y));
      assert FoundAmong(c, 2, x, y) == Later(FoundAmong(c, 1, x, y), FoundIn(c, 1, 3, x, y));
      SixPatterns(version, x, y);
    }
  }

  lemma NoCenters(x: nat, y: nat)
    ensures !InAlignment(1, x, y)
  {
  }

  lemma OnePattern(version: nat, x: nat, y: nat)
    requires 2 <= version < 7 && x < SizeOf(version) && y < SizeOf(version)
    ensures var b := 4 * version + 10;
            (if InAlignment(version, x, y) then Some(AlignmentDark(version, x, y)) else None)
            == if Ring(x, y, b, b) <= 2 then Some(Ring(x, y, b, b) != 1) else None
  {
  }

  lemma SixPatterns(version: nat, x: nat, y: nat)
    requires 7 <= version <= MAX_VERSION && x < SizeOf(version) && y < SizeOf(version)
    ensures var a, m, b := 6, 2 * version + 8, 4 * version + 10;
            (if InAlignment(version, x, y) then Some(AlignmentDark(version, x, y)) else None)
            == if Ring(x, y, b, b) <= 2 then Some(Ring(x, y, b, b) != 1)
               else if Ring(x, y, b, m) <= 2 then Some(Ring(x, y, b, m) != 1)
               else if Ring(x, y, m, b) <= 2 then Some(Ring(x, y, m, b) != 1)
               else if Ring(x, y, m, m) <= 2 then Some(Ring(x, y, m, m) != 1)
               else if Ring(x, y, m, a) <= 2 then Some(Ring(x, y, m, a) != 1)
               else if Ring(x, y, a, m) <= 2 then Some(Ring(x, y, a, m) != 1)
               else None
  {
  }

  lemma FoundInTwo(c: seq<nat>, i: nat, x: nat, y: nat)
    requires |c| == 2 && i < 2
    ensures FoundIn(c, i, 2, x, y)
         == if i == 1 && Ring(x, y, c[1], c[1]) <= 2 then Some(Ring(x, y, c[1], c[1]) != 1) else None
  {
    assert FoundIn(c, i, 1, x, y) == None;
  }

  lemma FoundInThree(c: seq<nat>, i: nat, x: nat, y: nat)
    requires |c| == 3 && i < 3
    ensures FoundIn(c, i, 3, x, y)
         == if i > 0 && Ring(x, y, c[i], c[2]) <= 2 then Some(Ring(x, y, c[i], c[2]) != 1)
            else if Ring(x, y, c[i], c[1]) <= 2 then Some(Ring(x, y, c[i], c[1]) != 1)
            else if i == 1 && Ring(x, y, c[1], c[0]) <= 2 then Some(Ring(x, y, c[1], c[0]) != 1)
            else None
  {
    assert FoundIn(c, i, 1, x, y)
        == if i == 1 && Ring(x, y, c[1], c[0]) <= 2 then Some(Ring(x, y, c[1], c[0]) != 1) else None;
  }

  // ----- the format and version information -----

  /** Which module drawn with the format information one is, if it is one. */
  function FormatIndex(size: nat, x: nat, y: nat): Option<nat> {
    if x == 8 && y < 6 then Some(y)
    else if x == 8 && y == 7 then Some(6)
    else if x == 8 && y == 8 then Some(7)
    else if x == 7 && y == 8 then Some(8)
    else if y == 8 && x < 6 then Some(14 - x)
    else if y == 8 && size - 8 <= x < size then Some(14 + (size - x))
    else if x == 8 && size - 8 < y < size then Some(30 - (size - y))
    else if x == 8 && y == size - 8 then Some(30)
    else None
  }

  lemma FormatIndexIs(size: nat, x: nat, y: nat, k: nat)
    requires KnownSize(size) && x < size && y < size && k < 31
    ensures FormatCell(size, k) == Cell(size, x, y) <==> FormatIndex(size, x, y) == Some(k)
  {
    hide Cell;
    FormatCellParts(size, k);
    CellParts(size, x, y);
  }

  lemma {:induction false} FormatWritesAt(size: nat, bits: seq<bool>, n: nat, x: nat, y: nat)
    requires KnownSize(size) && n <= 31 && |bits| == 15 && x < size && y < size
    ensures LastWrite(FormatWrites(size, bits, n), Cell(size, x, y))
         == match FormatIndex(size, x, y)
            case Some(k) =>
              if k >= n then None
              else Some(if k < 15 then bits[k] else if k < 30 then bits[k - 15] else true)
            case None => None
  {
    hide Cell, FormatIndex, FormatCell;
    if n > 0 {
      FormatWritesAt(size, bits, n - 1, x, y);
      FormatIndexIs(size, x, y, n - 1);
      assert FormatWrites(size, bits, n)[..n - 1] == FormatWrites(size, bits, n - 1);
    }
  }

  lemma {:induction false} VersionWritesAt(version: nat, bits: seq<bool>, n: nat, x: nat, y: nat)
    requires 7 <= version && n <= 18 && |bits| == 18 && x < SizeOf(version) && y < SizeOf(version)
    ensures LastWrite(VersionWrites(SizeOf(version), bits, n), Cell(SizeOf(version), x, y))
         == match VersionBit(version, x, y)
            case Some(k) => if k < n then Some(bits[k]) else None
            case None => None
  {
    hide Cell, LastWrite;
    var size := SizeOf(version);
    if n == 0 {
      NoWrites(Cell(size, x, y));
    } else {
      var i := n - 1;
      var a, b := size - 11 + i % 3, i / 3;
      var front := VersionWrites(size, bits, i);
      VersionWritesAt(version, bits, i, x, y);
      OneWrite(size, a, b, bits[i], x, y);
      OneWrite(size, b, a, bits[i], x, y);
      LastWriteAppend(front, [Write(Cell(size, a, b), bits[i])], Cell(size, x, y));
      LastWriteAppend(front + [Write(Cell(size, a, b), bits[i])], [Write(Cell(size, b, a), bits[i])], Cell(size, x, y));
    }
  }

  // ----- all of them -----

  /** The module at a column and a row. */
  function ModuleIn(modules: Modules, size: nat, x: nat, y: nat): bool
    requires |modules| == size * size && x < size && y < size
  {
    CellInside(size, x, y);
    modules[y * size + x]
  }

  lemma ThreeFinders(size: nat, x: nat, y: nat)
    requires KnownSize(size) && x < size && y < size
    ensures var a, b, c := LastWrite(FinderWrites(size, 3, 3, 9), Cell(size, x, y)),
                           LastWrite(FinderWrites(size, size - 4, 3, 9), Cell(size, x, y)),
                           LastWrite(FinderWrites(size, 3, size - 4, 9), Cell(size, x, y));
            Later(Later(a, b), c) == if InFinder(size, x, y) then Some(FinderDark(size, x, y)) else None
  {
    hide Cell, LastWrite, FinderWrites;
    FinderAt(size, 3, 3, 9, x, y);
    FinderAt(size, size - 4, 3, 9, x, y);
    FinderAt(size, 3, size - 4, 9, x, y);
  }

  lemma FormatIs(size: nat, bits: seq<bool>, x: nat, y: nat)
    requires KnownSize(size) && |bits| == 15 && x < size && y < size
    ensures LastWrite(FormatWrites(size, bits, 31), Cell(size, x, y))
         == match FormatBit(size, x, y)
            case Some(k) => Some(bits[k])
            case None => if x == 8 && y == size - 8 then Some(true) else None
  {
    hide Cell, LastWrite, FormatWrites;
    FormatWritesAt(size, bits, 31, x, y);
  }

  lemma VersionIs(version: nat, x: nat, y: nat)
    requires KnownVersion(version) && x < SizeOf(version) && y < SizeOf(version)
    ensures LastWrite(VersionPart(version), Cell(SizeOf(version), x, y))
         == match VersionBit(version, x, y)
            case Some(k) => Some(VersionInformation(version)[k])
            case None => None
  {
    hide Cell, LastWrite, VersionWrites, VersionInformation;
    if version < 7 {
      NoWrites(Cell(SizeOf(version), x, y));
    } else {
      VersionWritesAt(version, VersionInformation(version), 18, x, y);
    }
  }

  /** What is drawn at a module before the data, with the format information of mask 0. */
  lemma PatternsAt(version: nat, level: int, x: nat, y: nat)
    requires KnownVersion(version) && KnownLevel(level) && x < SizeOf(version) && y < SizeOf(version)
    ensures LastWrite(PatternWrites(version, level), Cell(SizeOf(version), x, y)) == FunctionAt(version, level, 0, x, y)
  {
    hide Cell, LastWrite, TimingWrites, FinderWrites, AllAlignments, FormatWrites, FormatInformation, VersionPart;
    hide VersionInformation, FoundAmong, InAlignment, AlignmentDark, InFinder, FinderDark, ALIGNMENT_CENTERS;
    var size, cell := SizeOf(version), Cell(SizeOf(version), x, y);
    CentersAreRoomy(version);
    var timing, f1, f2, f3 := TimingWrites(size, size), FinderWrites(size, 3, 3, 9), FinderWrites(size, size - 4, 3, 9),
        FinderWrites(size, 3, size - 4, 9);
    var alignments := AllAlignments(size, CentersOf(version), |CentersOf(version)|);
    var format := FormatWrites(size, FormatInformation(level, 0), 31);
    LastWriteAppend(timing, f1, cell);
    LastWriteAppend(timing + f1, f2, cell);
    LastWriteAppend(timing + f1 + f2, f3, cell);
    LastWriteAppend(timing + f1 + f2 + f3, alignments, cell);
    LastWriteAppend(timing + f1 + f2 + f3 + alignments, format, cell);
    LastWriteAppend(timing + f1 + f2 + f3 + alignments + format, VersionPart(version), cell);
    TimingAt(size, size, x, y);
    ThreeFinders(size, x, y);
    AllAlignmentsAt(size, CentersOf(version), |CentersOf(version)|, x, y);
    FoundWhere(version, x, y);
    FormatIs(size, FormatInformation(level, 0), x, y);
    VersionIs(version, x, y);
  }

  /** A module is a function module if and only if a pattern lies over it. */
  lemma FunctionModuleIff(version: nat, level: int, mask: int, x: nat, y: nat)
    requires KnownVersion(version) && KnownLevel(level) && KnownMask(mask)
    requires x < SizeOf(version) && y < SizeOf(version)
    ensures ModuleIn(FunctionModules(version), SizeOf(version), x, y) <==> FunctionAt(version, level, mask, x, y).Some?
  {
    hide FunctionModules, Drawn, PatternWrites, LastWrite, FormatInformation, VersionInformation, Touches;
    hide InAlignment, AlignmentDark, InFinder, FinderDark, VersionBit, FormatBit;
    var size, cell := SizeOf(version), Cell(SizeOf(version), x, y);
    CellInside(size, x, y);
    PatternsAt(version, 0, x, y);
    FunctionModulesAre(version, cell);
  }

  lemma FunctionModulesAre(version: nat, cell: nat)
    requires KnownVersion(version) && cell < SizeOf(version) * SizeOf(version)
    ensures FunctionModules(version)[cell] <==> LastWrite(PatternWrites(version, 0), cell).Some?
  {
    hide Drawn, PatternWrites, LastWrite, Touches;
    Marked(Blank(version), PatternWrites(version, 0), cell);
    DrawnIs(Blank(version), PatternWrites(version, 0), cell);
  }

  /** Every function module of a finished symbol, by its column and row. */
  lemma FunctionModuleAt(codewords: seq<Word>, version: nat, level: int, mask: int, x: nat, y: nat)
    requires KnownVersion(version) && KnownLevel(level) && KnownMask(mask)
    requires x < SizeOf(version) && y < SizeOf(version) && FunctionAt(version, level, mask, x, y).Some?
    ensures ModuleIn(Finished(Unmasked(codewords, version, level), version, level, mask), SizeOf(version), x, y)
         == FunctionAt(version, level, mask, x, y).value
  {
    hide FunctionModules, Drawn, PatternWrites, LastWrite, FormatWrites, FormatInformation, VersionInformation, Touches;
    hide InAlignment, AlignmentDark, InFinder, FinderDark, VersionBit, Unmasked, Masked, FormatTouches, Blank;
    var size, cell := SizeOf(version), Cell(SizeOf(version), x, y);
    var modules := Unmasked(codewords, version, level);
    CellInside(size, x, y);
    FunctionModuleIff(version, level, mask, x, y);
    FormatIs(size, FormatInformation(level, mask), x, y);
    DrawnIs(Masked(modules, FunctionModules(version), size, mask),
            FormatWrites(size, FormatInformation(level, mask), 31), cell);
    FormatTouchesAll(size, FormatInformation(level, mask), cell);
    if !FormatTouches(size, cell) {
      PatternsStand(codewords, version, level, mask, cell);
      PatternsAt(version, level, x, y);
      DrawnIs(Blank(version), PatternWrites(version, level), cell);
    }
  }

  /** Every other module shows the bit placed there, inverted where the mask says so. */
  lemma DataModuleAt(modules: Modules, version: nat, level: int, mask: int, x: nat, y: nat)
    requires KnownVersion(version) && KnownLevel(level) && KnownMask(mask)
    requires |modules| == SizeOf(version) * SizeOf(version)
    requires x < SizeOf(version) && y < SizeOf(version) && FunctionAt(version, level, mask, x, y) == None
    ensures ModuleIn(Finished(modules, version, level, mask), SizeOf(version), x, y)
         == (ModuleIn(modules, SizeOf(version), x, y) != Inverts(mask, x, y))
  {
    hide FunctionModules, Drawn, LastWrite, FormatWrites, FormatInformation, VersionInformation, Touches, Inverts;
    hide InAlignment, AlignmentDark, InFinder, FinderDark, VersionBit;
    var size, cell := SizeOf(version), Cell(SizeOf(version), x, y);
    CellInside(size, x, y);
    CellParts(size, x, y);
    FunctionModuleIff(version, level, mask, x, y);
    FormatIs(size, FormatInformation(level, mask), x, y);
    DrawnIs(Masked(modules, FunctionModules(version), size, mask),
            FormatWrites(size, FormatInformation(level, mask), 31), cell);
  }
}
