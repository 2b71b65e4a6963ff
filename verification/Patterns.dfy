/** The function patterns of a symbol (pkg/encoding/qr/qr.go:291-420) as lists
    of the modules they set. */
module Patterns {
  import opened BitStream
  import opened ByteMode
  import opened Zigzag

  /** One module set: where it is kept, and whether it is dark. */
  datatype Write = Write(cell: nat, dark: bool)

  /** The modules after some writes. */
  function Drawn(modules: Modules, writes: seq<Write>): (drawn: Modules)
    ensures |drawn| == |modules|
  {
    if writes == [] then modules
    else
      var front, w := Drawn(modules, writes[..|writes| - 1]), writes[|writes| - 1];
      if w.cell < |front| then front[w.cell := w.dark] else front
  }

  /** The same cells, to be marked as reserved. */
  function Marks(writes: seq<Write>): (marks: seq<Write>)
    ensures |marks| == |writes|
  {
    seq(|writes|, i requires 0 <= i < |writes| => Write(writes[i].cell, true))
  }

  /** A module is set by some writes. */
  predicate Touches(writes: seq<Write>, cell: nat) {
    exists i :: 0 <= i < |writes| && writes[i].cell == cell
  }

  // ----- drawing -----

  lemma {:induction false} DrawnAppend(modules: Modules, a: seq<Write>, b: seq<Write>)
    ensures Drawn(Drawn(modules, a), b) == Drawn(modules, a + b)
  {
    if b == [] {
      assert a + b == a;
    } else {
      assert (a + b)[..|a + b| - 1] == a + b[..|b| - 1];
      DrawnAppend(modules, a, b[..|b| - 1]);
    }
  }

  lemma DrawnThen(modules: Modules, reserved: Modules, a: seq<Write>, b: seq<Write>)
    ensures Drawn(Drawn(modules, a), b) == Drawn(modules, a + b)
    ensures Drawn(Drawn(reserved, Marks(a)), Marks(b)) == Drawn(reserved, Marks(a + b))
  {
    DrawnAppend(modules, a, b);
    DrawnAppend(reserved, Marks(a), Marks(b));
    assert Marks(a) + Marks(b) == Marks(a + b);
  }

  lemma {:induction false} DrawnElsewhere(modules: Modules, writes: seq<Write>, k: nat)
    requires k < |modules| && !Touches(writes, k)
    ensures Drawn(modules, writes)[k] == modules[k]
  {
    if writes != [] {
      var front := writes[..|writes| - 1];
      forall i | 0 <= i < |front|
        ensures front[i].cell != k
      {
        assert writes[i].cell != k;
      }
      DrawnElsewhere(modules, front, k);
    }
  }

  /** What was there before a module is set does not matter. */
  lemma {:induction false} DrawnOver(modules: Modules, modules': Modules, writes: seq<Write>, k: nat)
    requires k < |modules| == |modules'|
    requires modules[k] == modules'[k] || Touches(writes, k)
    ensures Drawn(modules, writes)[k] == Drawn(modules', writes)[k]
  {
    if writes != [] {
      var front, last := writes[..|writes| - 1], |writes| - 1;
      if writes[last].cell != k {
        if modules[k] != modules'[k] {
          var i :| 0 <= i < |writes| && writes[i].cell == k;
          assert front[i].cell == k;
        }
        DrawnOver(modules, modules', front, k);
      }
    }
  }

  /** The modules that writes set are marked, and marks stay. */
  lemma {:induction false} Marked(reserved: Modules, writes: seq<Write>, k: nat)
    requires k < |reserved|
    ensures Drawn(reserved, Marks(writes))[k] <==> reserved[k] || Touches(writes, k)
  {
    if writes != [] {
      var front, last := writes[..|writes| - 1], |writes| - 1;
      assert Marks(writes)[..last] == Marks(front);
      Marked(reserved, front, k);
      if Touches(front, k) {
        var i :| 0 <= i < |front| && front[i].cell == k;
        assert writes[i].cell == k;
      }
      if Touches(writes, k) && writes[last].cell != k {
        var i :| 0 <= i < |writes| && writes[i].cell == k;
        assert front[i].cell == k;
      }
    }
  }

  // ----- the format and version information -----

  /** One step of the division by a generator polynomial over GF(2), whose
      leading term cancels the bit shifted out. Lowest power first. */
  function Shifted(remainder: seq<bool>, generator: seq<bool>): (next: seq<bool>)
    requires |generator| == |remainder|
    ensures |next| == |remainder|
  {
    seq(|remainder|, k requires 0 <= k < |remainder| =>
      (k > 0 && remainder[k - 1]) != (remainder[|remainder| - 1] && generator[k]))
  }

  function CheckBits(remainder: seq<bool>, generator: seq<bool>, steps: nat): (bits: seq<bool>)
    requires |generator| == |remainder|
    ensures |bits| == |remainder|
  {
    if steps == 0 then remainder else Shifted(CheckBits(remainder, generator, steps - 1), generator)
  }

  /** 0x537, 0x5412 and 0x1f25, lowest bit first, the generators without their leading terms. */
  const FORMAT_GENERATOR: seq<bool> :=
    [true, true, true, false, true, true, false, false, true, false]
  const FORMAT_MASK: seq<bool> :=
    [false, true, false, false, true, false, false, false, false, false, true, false, true, false, true]
  const VERSION_GENERATOR: seq<bool> :=
    [true, false, true, false, false, true, false, false, true, true, true, true]

  /** A level as the format information writes it. */
  function LevelBits(level: int): nat
    requires KnownLevel(level)
  {
    if level == 0 then 1 else if level == 1 then 0 else if level == 2 then 3 else 2
  }

  predicate KnownMask(mask: int) {
    0 <= mask <= 7
  }

  /** The five bits of format data: the mask, then the level. */
  function FormatData(level: int, mask: int): (bits: seq<bool>)
    requires KnownLevel(level) && KnownMask(mask)
    ensures |bits| == 5
  {
    seq(5, k requires 0 <= k < 5 => if k < 3 then NumberBit(mask, k) else NumberBit(LevelBits(level), k - 3))
  }

  function FormatInformation(level: int, mask: int): (bits: seq<bool>)
    requires KnownLevel(level) && KnownMask(mask)
    ensures |bits| == 15
  {
    var data := FormatData(level, mask);
    var word := CheckBits(data + Light(5), FORMAT_GENERATOR, 10) + data;
    seq(15, k requires 0 <= k < 15 => word[k] != FORMAT_MASK[k])
  }

  function VersionInformation(version: nat): (bits: seq<bool>)
    ensures |bits| == 18
  {
    var data := seq(6, k requires 0 <= k => NumberBit(version, k));
    CheckBits(data + Light(6), VERSION_GENERATOR, 12) + data
  }

  /** What the format information says, to a reader of a symbol without errors. */
  function ReadMask(bits: seq<bool>): (mask: nat)
    requires |bits| == 15
    ensures KnownMask(mask)
  {
    FormatDigit(bits, 10, 1) + FormatDigit(bits, 11, 2) + FormatDigit(bits, 12, 4)
  }

  function ReadLevel(bits: seq<bool>): (level: nat)
    requires |bits| == 15
    ensures KnownLevel(level)
  {
    var written := FormatDigit(bits, 13, 1) + FormatDigit(bits, 14, 2);
    if written == 1 then 0 else if written == 0 then 1 else if written == 3 then 2 else 3
  }

  function FormatDigit(bits: seq<bool>, k: nat, weight: nat): (digit: nat)
    requires |bits| == 15 && k < 15
    ensures digit == 0 || digit == weight
  {
    if bits[k] != FORMAT_MASK[k] then weight else 0
  }

  lemma FormatReadsBack(level: int, mask: int)
    requires KnownLevel(level) && KnownMask(mask)
    ensures ReadMask(FormatInformation(level, mask)) == mask
    ensures ReadLevel(FormatInformation(level, mask)) == level
  {
    hide CheckBits;
    assert NumberBit(mask, 1) == NumberBit(mask / 2, 0);
    assert NumberBit(mask, 2) == NumberBit(mask / 2, 1) == NumberBit(mask / 2 / 2, 0);
    var bits, data := FormatInformation(level, mask), FormatData(level, mask);
    assert forall k :: 10 <= k < 15 ==> bits[k] == (data[k - 10] != FORMAT_MASK[k]);
    assert data[3] == NumberBit(LevelBits(level), 0) && data[4] == NumberBit(LevelBits(level), 1);
    assert NumberBit(LevelBits(level), 1) == NumberBit(LevelBits(level) / 2, 0);
  }

  // ----- the patterns -----

  predicate KnownSize(size: nat) {
    size >= 21
  }

  function SizeOf(version: nat): nat {
    17 + 4 * version
  }

  function TimingWrites(size: nat, n: nat): seq<Write> {
    if n == 0 then []
    else
      var i := n - 1;
      TimingWrites(size, i) + [Write(Cell(size, 6, i), i % 2 == 0)] + [Write(Cell(size, i, 6), i % 2 == 0)]
  }

  function Abs(value: int): nat {
    if value < 0 then -value else value
  }

  function Distance(dx: int, dy: int): nat {
    if Abs(dx) < Abs(dy) then Abs(dy) else Abs(dx)
  }

  predicate Inside(size: nat, x: int, y: int) {
    0 <= x < size && 0 <= y < size
  }

  /** A finder pattern and its separator, as far as the symbol reaches. */
  function FinderRow(size: nat, cx: int, cy: int, dy: int, n: nat): seq<Write> {
    if n == 0 then []
    else
      var dx := n - 1 - 4;
      FinderRow(size, cx, cy, dy, n - 1)
      + if Inside(size, cx + dx, cy + dy)
        then [Write(Cell(size, cx + dx, cy + dy), Distance(dx, dy) != 2 && Distance(dx, dy) != 4)]
        else []
  }

  function FinderWrites(size: nat, cx: int, cy: int, n: nat): seq<Write> {
    if n == 0 then [] else FinderWrites(size, cx, cy, n - 1) + FinderRow(size, cx, cy, n - 1 - 4, 9)
  }

  /** An alignment pattern's centre leaves room for it. */
  predicate Roomy(size: nat, c: nat) {
    2 <= c && c + 2 < size
  }

  function AlignmentRow(size: nat, cx: nat, cy: nat, dy: int, n: nat): seq<Write>
    requires Roomy(size, cx) && Roomy(size, cy) && -2 <= dy <= 2 && n <= 5
  {
    if n == 0 then []
    else
      var dx := n - 1 - 2;
      AlignmentRow(size, cx, cy, dy, n - 1) + [Write(Cell(size, cx + dx, cy + dy), Distance(dx, dy) != 1)]
  }

  function AlignmentWrites(size: nat, cx: nat, cy: nat, n: nat): seq<Write>
    requires Roomy(size, cx) && Roomy(size, cy) && n <= 5
  {
    if n == 0 then [] else AlignmentWrites(size, cx, cy, n - 1) + AlignmentRow(size, cx, cy, n - 1 - 2, 5)
  }

  const ALIGNMENT_CENTERS: seq<seq<nat>> :=
    [[], [6, 18], [6, 22], [6, 26], [6, 30], [6, 34], [6, 22, 38], [6, 24, 42], [6, 26, 46], [6, 28, 50]]

  function CentersOf(version: nat): seq<nat>
    requires KnownVersion(version)
  {
    ALIGNMENT_CENTERS[version - 1]
  }

  ghost predicate CentersFit(size: nat, centers: seq<nat>) {
    forall i :: 0 <= i < |centers| ==> Roomy(size, centers[i])
  }

  lemma CentersAreRoomy(version: nat)
    requires KnownVersion(version)
    ensures CentersFit(SizeOf(version), CentersOf(version))
  {
  }

  /** The three corners the finders occupy. */
  predicate FinderCorner(i: nat, j: nat, last: int) {
    (i == 0 && j == 0) || (i == 0 && j == last) || (i == last && j == 0)
  }

  function AlignmentsOf(size: nat, centers: seq<nat>, i: nat, n: nat): seq<Write>
    requires CentersFit(size, centers) && i < |centers| && n <= |centers|
  {
    if n == 0 then []
    else
      AlignmentsOf(size, centers, i, n - 1)
      + if FinderCorner(i, n - 1, |centers| - 1) then []
        else AlignmentWrites(size, centers[i], centers[n - 1], 5)
  }

  function AllAlignments(size: nat, centers: seq<nat>, n: nat): seq<Write>
    requires CentersFit(size, centers) && n <= |centers|
  {
    if n == 0 then []
    else AllAlignments(size, centers, n - 1) + AlignmentsOf(size, centers, n - 1, |centers|)
  }

  /** Where the format information is drawn, in order: two copies and the dark module. */
  function FormatCell(size: nat, k: nat): nat
    requires KnownSize(size) && k < 31
  {
    if k < 6 then Cell(size, 8, k)
    else if k == 6 then Cell(size, 8, 7)
    else if k == 7 then Cell(size, 8, 8)
    else if k == 8 then Cell(size, 7, 8)
    else if k < 15 then Cell(size, 14 - k, 8)
    else if k < 23 then Cell(size, size - 1 - (k - 15), 8)
    else if k < 30 then Cell(size, 8, size - 15 + (k - 15))
    else Cell(size, 8, size - 8)
  }

  function FormatWrite(size: nat, bits: seq<bool>, k: nat): Write
    requires KnownSize(size) && k < 31 && |bits| == 15
  {
    Write(FormatCell(size, k), if k < 15 then bits[k] else if k < 30 then bits[k - 15] else true)
  }

  function FormatWrites(size: nat, bits: seq<bool>, n: nat): (writes: seq<Write>)
    requires KnownSize(size) && n <= 31 && |bits| == 15
    ensures |writes| == n
  {
    seq(n, k requires 0 <= k < n => FormatWrite(size, bits, k))
  }

  function VersionWrites(size: nat, bits: seq<bool>, n: nat): seq<Write>
    requires KnownSize(size) && n <= 18 && |bits| == 18
  {
    if n == 0 then []
    else
      var i := n - 1;
      var a, b := size - 11 + i % 3, i / 3;
      VersionWrites(size, bits, i) + [Write(Cell(size, a, b), bits[i])] + [Write(Cell(size, b, a), bits[i])]
  }

  function VersionPart(version: nat): seq<Write>
    requires KnownVersion(version)
  {
    if version < 7 then [] else VersionWrites(SizeOf(version), VersionInformation(version), 18)
  }

  /** Everything drawn before the data, in order. */
  function PatternWrites(version: nat, level: int): seq<Write>
    requires KnownVersion(version) && KnownLevel(level)
  {
    var size := SizeOf(version);
    CentersAreRoomy(version);
    TimingWrites(size, size) + FinderWrites(size, 3, 3, 9) + FinderWrites(size, size - 4, 3, 9)
    + FinderWrites(size, 3, size - 4, 9) + AllAlignments(size, CentersOf(version), |CentersOf(version)|)
    + FormatWrites(size, FormatInformation(level, 0), 31) + VersionPart(version)
  }

  lemma MarksAppend(a: seq<Write>, b: seq<Write>)
    ensures Marks(a + b) == Marks(a) + Marks(b)
  {
  }

  /** The levels set the same modules. */
  lemma SameMarks(version: nat, level: int, level': int)
    requires KnownVersion(version) && KnownLevel(level) && KnownLevel(level')
    ensures Marks(PatternWrites(version, level)) == Marks(PatternWrites(version, level'))
  {
    hide TimingWrites, FinderWrites, AllAlignments, FormatInformation, VersionPart, FormatCell;
    var size := SizeOf(version);
    CentersAreRoomy(version);
    var front := TimingWrites(size, size) + FinderWrites(size, 3, 3, 9) + FinderWrites(size, size - 4, 3, 9)
      + FinderWrites(size, 3, size - 4, 9) + AllAlignments(size, CentersOf(version), |CentersOf(version)|);
    var format, format' := FormatWrites(size, FormatInformation(level, 0), 31),
        FormatWrites(size, FormatInformation(level', 0), 31);
    assert Marks(format) == Marks(format');
    MarksAppend(front, format);
    MarksAppend(front, format');
    MarksAppend(front + format, VersionPart(version));
    MarksAppend(front + format', VersionPart(version));
  }

  /** The modules that data and masks leave alone. */
  function FunctionModules(version: nat): (reserved: Modules)
    requires KnownVersion(version)
    ensures |reserved| == SizeOf(version) * SizeOf(version)
  {
    Drawn(Light(SizeOf(version) * SizeOf(version)), Marks(PatternWrites(version, 0)))
  }
}
