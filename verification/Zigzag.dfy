/** The order in which a symbol's modules take the codewords' bits
    (pkg/encoding/qr/qr.go:422-449), placing bits in it, and reading them. */
module Zigzag {

  /** The modules of a symbol, row by row. */
  type Modules = seq<bool>

  /** Where the module at column x and row y is kept. */
  function Cell(size: nat, x: nat, y: nat): nat {
    y * size + x
  }

  lemma {:induction false} Grows(d: nat, a: nat, b: nat)
    requires a < b
    ensures d * a + d <= d * b
  {
    assert d * b == d * (b - 1) + d;
    if a < b - 1 {
      Grows(d, a, b - 1);
    }
  }

  lemma CellInside(size: nat, x: nat, y: nat)
    requires x < size && y < size
    ensures Cell(size, x, y) < size * size
  {
    Grows(size, y, size);
  }

  lemma DivisionIsUnique(d: nat, q: nat, r: nat, q': nat, r': nat)
    requires d * q + r == d * q' + r' && r < d && r' < d
    ensures q == q' && r == r'
  {
    if q < q' {
      Grows(d, q, q');
    } else if q' < q {
      Grows(d, q', q);
    }
  }

  lemma CellParts(size: nat, x: nat, y: nat)
    requires x < size
    ensures Cell(size, x, y) % size == x && Cell(size, x, y) / size == y
  {
    var k := Cell(size, x, y);
    DivisionIsUnique(size, y, x, k / size, k % size);
  }

  predicate InRange(cells: seq<nat>, n: nat) {
    forall i :: 0 <= i < |cells| ==> cells[i] < n
  }

  predicate Distinct(cells: seq<nat>) {
    forall i, j :: 0 <= i < j < |cells| ==> cells[i] != cells[j]
  }

  // ----- the order -----

  function Upward(right: nat): bool {
    (right + 1) / 2 % 2 == 0
  }

  function RowAt(size: nat, right: nat, vertical: nat): nat
    requires vertical < size
  {
    if Upward(right) then size - 1 - vertical else vertical
  }

  /** The first rows of two columns, from the right. */
  function Strip(size: nat, right: nat, rows: nat): (cells: seq<nat>)
    requires 1 <= right < size && rows <= size
    ensures |cells| == 2 * rows
  {
    if rows == 0 then []
    else
      var y := RowAt(size, right, rows - 1);
      Strip(size, right, rows - 1) + [Cell(size, right, y), Cell(size, right - 1, y)]
  }

  /** Passing over the vertical timing pattern. */
  function Skip(right: int): int {
    if right == 6 then 5 else right
  }

  /** Two columns at a time, from a column leftward. */
  function ZigzagFrom(size: nat, right: int): seq<nat>
    requires -2 <= right < size
    decreases right + 2
  {
    if right < 1 then [] else Strip(size, Skip(right), size) + ZigzagFrom(size, Skip(right) - 2)
  }

  function Order(size: nat): seq<nat>
    requires size >= 1
  {
    ZigzagFrom(size, size - 1)
  }

  // ----- no module comes twice -----

  /** The columns and rows that a strip has passed. */
  predicate InStrip(size: nat, right: nat, rows: nat, cell: nat)
    requires 1 <= right < size && rows <= size
  {
    && (cell % size == right || cell % size == right - 1)
    && if Upward(right) then size - rows <= cell / size < size else cell / size < rows
  }

  lemma {:induction false} StripIs(size: nat, right: nat, rows: nat)
    requires 1 <= right < size && rows <= size
    ensures InRange(Strip(size, right, rows), size * size) && Distinct(Strip(size, right, rows))
    ensures forall cell :: cell in Strip(size, right, rows) ==> InStrip(size, right, rows, cell)
  {
    if rows > 0 {
      hide Cell, Upward;
      StripIs(size, right, rows - 1);
      var y := RowAt(size, right, rows - 1);
      CellParts(size, right, y);
      CellParts(size, right - 1, y);
      CellInside(size, right, y);
      CellInside(size, right - 1, y);
      var a, b := Cell(size, right, y), Cell(size, right - 1, y);
      assert !InStrip(size, right, rows - 1, a) && !InStrip(size, right, rows - 1, b);
    }
  }

  lemma {:induction false} ZigzagIs(size: nat, right: int)
    requires -2 <= right < size
    ensures InRange(ZigzagFrom(size, right), size * size) && Distinct(ZigzagFrom(size, right))
    ensures forall cell :: cell in ZigzagFrom(size, right) ==> size > 0 && cell % size <= right
    decreases right + 2
  {
    if right >= 1 {
      hide Upward, Strip;
      var r := Skip(right);
      StripIs(size, r, size);
      ZigzagIs(size, r - 2);
      var strip, rest := Strip(size, r, size), ZigzagFrom(size, r - 2);
      forall i, j | 0 <= i < |strip| && 0 <= j < |rest|
        ensures strip[i] != rest[j]
      {
        assert strip[i] in strip && InStrip(size, r, size, strip[i]);
        assert rest[j] in rest;
      }
      DistinctConcat(strip, rest);
      forall cell | cell in strip
        ensures cell % size <= right
      {
        assert InStrip(size, r, size, cell);
      }
    }
  }

  lemma DistinctConcat(a: seq<nat>, b: seq<nat>)
    requires Distinct(a) && Distinct(b)
    requires forall i, j :: 0 <= i < |a| && 0 <= j < |b| ==> a[i] != b[j]
    ensures Distinct(a + b)
  {
    forall i, j | 0 <= i < j < |a + b|
      ensures (a + b)[i] != (a + b)[j]
    {
      if i < |a| <= j {
        assert a[i] != b[j - |a|];
      }
    }
  }

  /** No module of a symbol comes twice. */
  lemma OrderDistinct(size: nat)
    requires size >= 1
    ensures Distinct(Order(size)) && InRange(Order(size), size * size)
  {
    ZigzagIs(size, size - 1);
  }

  // ----- every module but those of the vertical timing pattern comes -----

  lemma {:induction false} StripCovers(size: nat, right: nat, rows: nat, x: nat, v: nat)
    requires 1 <= right < size && v < rows <= size && (x == right || x == right - 1)
    ensures Cell(size, x, RowAt(size, right, v)) in Strip(size, right, rows)
  {
    if v < rows - 1 {
      StripCovers(size, right, rows - 1, x, v);
    }
  }

  lemma {:induction false} ZigzagCovers(size: nat, right: int, x: nat, y: nat)
    requires -2 <= right < size && x <= right && y < size && x != 6
    requires right >= 6 ==> right % 2 == 0
    requires right < 6 ==> right % 2 == 1
    ensures Cell(size, x, y) in ZigzagFrom(size, right)
    decreases right + 2
  {
    hide Cell, Upward, Strip;
    var r := Skip(right);
    if x >= r - 1 {
      StripCovers(size, r, size, x, if Upward(r) then size - 1 - y else y);
    } else {
      ZigzagCovers(size, r - 2, x, y);
    }
  }

  /** Every module outside column 6 comes, in a symbol of an odd number of modules a side. */
  lemma OrderCovers(size: nat, x: nat, y: nat)
    requires size >= 7 && size % 2 == 1 && x < size && y < size && x != 6
    ensures Cell(size, x, y) in Order(size)
  {
    ZigzagCovers(size, size - 1, x, y);
  }

  // ----- where each module comes -----

  lemma {:induction false} StripAt(size: nat, right: nat, rows: nat, v: nat, j: nat)
    requires 1 <= right < size && v < rows <= size && j < 2
    ensures Strip(size, right, rows)[2 * v + j] == Cell(size, right - j, RowAt(size, right, v))
  {
    if v < rows - 1 {
      StripAt(size, right, rows - 1, v, j);
    }
  }

  /** The right column of a strip, counted from a column leftward. */
  function StripColumn(right: int, k: nat): int {
    if right >= 6 && right - 2 * k <= 6 then right - 2 * k - 1 else right - 2 * k
  }

  lemma {:induction false} ZigzagAt(size: nat, right: int, k: nat, v: nat, j: nat, n: int)
    requires 1 <= right < size && v < size && j < 2 && StripColumn(right, k) >= 1
    requires if right >= 6 then right % 2 == 0 else right % 2 == 1
    requires n == 2 * size * k + 2 * v + j
    ensures 0 <= n < |ZigzagFrom(size, right)|
    ensures var c := StripColumn(right, k); ZigzagFrom(size, right)[n] == Cell(size, c - j, RowAt(size, c, v))
    decreases k
  {
    hide Cell, Upward, Strip, RowAt, StripColumn;
    var r := Skip(right);
    FirstColumn(right, k);
    if k == 0 {
      StripAt(size, r, size, v, j);
    } else {
      OneMoreOf(2 * size, k);
      ZigzagAt(size, r - 2, k - 1, v, j, n - 2 * size);
    }
  }

  lemma FirstColumn(right: int, k: nat)
    requires right >= 1 && (if right >= 6 then right % 2 == 0 else right % 2 == 1) && StripColumn(right, k) >= 1
    ensures if k == 0 then StripColumn(right, k) == Skip(right)
            else Skip(right) - 2 >= 1 && StripColumn(right, k) == StripColumn(Skip(right) - 2, k - 1)
  {
  }

  lemma OneMoreOf(d: nat, k: nat)
    requires k > 0
    ensures d * k == d + d * (k - 1) && 0 <= d * (k - 1)
  {
  }

  /** The order said outright, for the sizes symbols have: strips of two columns
      from the right, the timing column left out, the first one upward and then
      downward and upward in turn, each row from the right. */
  lemma OrderAt(size: nat, k: nat, v: nat, j: nat, n: int)
    requires size >= 9 && size % 4 == 1 && 2 * k < size - 1 && v < size && j < 2
    requires n == 2 * size * k + 2 * v + j
    ensures 0 <= n < |Order(size)|
    ensures var y := if k % 2 == 0 then size - 1 - v else v;
            var x := if size - 1 - 2 * k > 6 then size - 1 - 2 * k - j else size - 2 - 2 * k - j;
            Order(size)[n] == y * size + x
  {
    hide Upward, StripColumn, ZigzagFrom, Cell, RowAt;
    ColumnIs(size, k);
    RowIs(size, k, v);
    ZigzagAt(size, size - 1, k, v, j, n);
    CellIs(size, StripColumn(size - 1, k) - j, RowAt(size, StripColumn(size - 1, k), v));
  }

  lemma RowIs(size: nat, k: nat, v: nat)
    requires size >= 9 && size % 4 == 1 && 2 * k < size - 1 && v < size
    ensures StripColumn(size - 1, k) >= 0
    ensures RowAt(size, StripColumn(size - 1, k), v) == if k % 2 == 0 then size - 1 - v else v
  {
    hide Upward, StripColumn;
    ColumnIs(size, k);
  }

  lemma CellIs(size: nat, x: nat, y: nat)
    ensures Cell(size, x, y) == y * size + x
  {
  }

  lemma ColumnIs(size: nat, k: nat)
    requires size >= 9 && size % 4 == 1 && 2 * k < size - 1
    ensures var c := StripColumn(size - 1, k);
            && 1 <= c < size && c == (if size - 1 - 2 * k > 6 then size - 1 - 2 * k else size - 2 - 2 * k)
            && (Upward(c) <==> k % 2 == 0)
  {
    var m := size / 4;
    assert size == 4 * m + 1;
    assert (StripColumn(size - 1, k) + 1) / 2 == 2 * m - k;
  }

  // ----- placing and reading bits -----

  datatype Placing = Placing(dark: Modules, index: nat)

  /** The modules and the number of bits placed, after some cells. */
  function Placed(modules: Modules, reserved: Modules, bits: seq<bool>, cells: seq<nat>): (p: Placing)
    requires |reserved| == |modules| && InRange(cells, |modules|)
    ensures |p.dark| == |modules| && p.index <= |bits|
  {
    if cells == [] then Placing(modules, 0)
    else
      var p, cell := Placed(modules, reserved, bits, cells[..|cells| - 1]), cells[|cells| - 1];
      if reserved[cell] || p.index >= |bits| then p
      else Placing(p.dark[cell := bits[p.index]], p.index + 1)
  }

  /** What is read from the modules that are not reserved, in order. */
  function Read(modules: Modules, reserved: Modules, cells: seq<nat>): seq<bool>
    requires |reserved| == |modules| && InRange(cells, |modules|)
  {
    if cells == [] then []
    else
      var front, cell := Read(modules, reserved, cells[..|cells| - 1]), cells[|cells| - 1];
      if reserved[cell] then front else front + [modules[cell]]
  }

  lemma {:induction false} ReadUnaffected(modules: Modules, modules': Modules, reserved: Modules, cells: seq<nat>)
    requires |reserved| == |modules| == |modules'| && InRange(cells, |modules|)
    requires forall i :: 0 <= i < |cells| && !reserved[cells[i]] ==> modules[cells[i]] == modules'[cells[i]]
    ensures Read(modules, reserved, cells) == Read(modules', reserved, cells)
  {
    if cells != [] {
      ReadUnaffected(modules, modules', reserved, cells[..|cells| - 1]);
    }
  }

  /** Reading gives the bits that were placed, and then what was there before. */
  lemma {:induction false} PlacedReads(modules: Modules, reserved: Modules, bits: seq<bool>, cells: seq<nat>)
    requires |reserved| == |modules| && InRange(cells, |modules|) && Distinct(cells)
    ensures var p, before := Placed(modules, reserved, bits, cells), Read(modules, reserved, cells);
            && p.index == (if |bits| < |before| then |bits| else |before|)
            && Read(p.dark, reserved, cells) == bits[..p.index] + before[p.index..]
  {
    if cells != [] {
      var front, cell := cells[..|cells| - 1], cells[|cells| - 1];
      PlacedReads(modules, reserved, bits, front);
      PlacedElsewhere(modules, reserved, bits, front, cell);
      var p, p' := Placed(modules, reserved, bits, front), Placed(modules, reserved, bits, cells);
      ReadUnaffected(p.dark, p'.dark, reserved, front);
    }
  }

  /** Reserved modules, and modules not among the cells, stay as they were. */
  lemma {:induction false} PlacedElsewhere(modules: Modules, reserved: Modules, bits: seq<bool>, cells: seq<nat>,
                                           k: nat)
    requires |reserved| == |modules| && InRange(cells, |modules|) && k < |modules|
    requires reserved[k] || k !in cells
    ensures Placed(modules, reserved, bits, cells).dark[k] == modules[k]
  {
    if cells != [] {
      PlacedElsewhere(modules, reserved, bits, cells[..|cells| - 1], k);
    }
  }
}
