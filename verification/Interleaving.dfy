/** The blocks of a symbol (pkg/encoding/qr/qr.go:214-249): the data split into
    blocks, each with its error correction, interleaved, and read back. */
module Interleaving {
  import opened GaloisField
  import opened ReedSolomon
  import opened ByteMode

  type Block = seq<Word>

  // ----- the interleaved sequence -----

  /** The codewords at one index of the blocks that reach it. */
  function Row(blocks: seq<Block>, i: nat): seq<Word> {
    if blocks == [] then []
    else Row(blocks[..|blocks| - 1], i) + At(blocks[|blocks| - 1], i)
  }

  function At(block: Block, i: nat): seq<Word> {
    if i < |block| then [block[i]] else []
  }

  /** The first rows, one after the other. */
  function Interleaved(blocks: seq<Block>, rows: nat): seq<Word> {
    if rows == 0 then [] else Interleaved(blocks, rows - 1) + Row(blocks, rows - 1)
  }

  // ----- where a codeword is, by the lengths of the blocks alone -----

  function LengthsOf(blocks: seq<Block>): (lengths: seq<nat>)
    ensures |lengths| == |blocks|
  {
    seq(|blocks|, b requires 0 <= b < |blocks| => |blocks[b]|)
  }

  function RowSize(lengths: seq<nat>, i: nat): nat {
    if lengths == [] then 0
    else RowSize(lengths[..|lengths| - 1], i) + (if i < lengths[|lengths| - 1] then 1 else 0)
  }

  function Offset(lengths: seq<nat>, rows: nat): nat {
    if rows == 0 then 0 else Offset(lengths, rows - 1) + RowSize(lengths, rows - 1)
  }

  function Total(lengths: seq<nat>): nat {
    if lengths == [] then 0 else Total(lengths[..|lengths| - 1]) + lengths[|lengths| - 1]
  }

  function Position(lengths: seq<nat>, b: nat, i: nat): nat
    requires b < |lengths|
  {
    Offset(lengths, i) + RowSize(lengths[..b], i)
  }

  predicate Within(lengths: seq<nat>, rows: nat) {
    forall b :: 0 <= b < |lengths| ==> lengths[b] <= rows
  }

  lemma {:induction false} RowLength(blocks: seq<Block>, i: nat)
    ensures |Row(blocks, i)| == RowSize(LengthsOf(blocks), i)
  {
    if blocks != [] {
      var front := blocks[..|blocks| - 1];
      assert LengthsOf(blocks)[..|front|] == LengthsOf(front);
      RowLength(front, i);
    }
  }

  lemma {:induction false} InterleavedLength(blocks: seq<Block>, rows: nat)
    ensures |Interleaved(blocks, rows)| == Offset(LengthsOf(blocks), rows)
  {
    if rows > 0 {
      InterleavedLength(blocks, rows - 1);
      RowLength(blocks, rows - 1);
    }
  }

  /** A codeword's place in its row. */
  lemma {:induction false} RowAt(blocks: seq<Block>, b: nat, i: nat)
    requires b < |blocks| && i < |blocks[b]|
    ensures var k := RowSize(LengthsOf(blocks)[..b], i); k < |Row(blocks, i)| && Row(blocks, i)[k] == blocks[b][i]
  {
    var front := blocks[..|blocks| - 1];
    if b == |front| {
      assert LengthsOf(blocks)[..b] == LengthsOf(front);
      RowLength(front, i);
    } else {
      RowAt(front, b, i);
      assert LengthsOf(blocks)[..b] == LengthsOf(front)[..b];
    }
  }

  /** A codeword's place in the whole sequence. */
  lemma {:induction false} InterleavedAt(blocks: seq<Block>, rows: nat, b: nat, i: nat)
    requires b < |blocks| && i < |blocks[b]| && i < rows
    ensures var k := Position(LengthsOf(blocks), b, i);
            k < |Interleaved(blocks, rows)| && Interleaved(blocks, rows)[k] == blocks[b][i]
  {
    hide Row, RowSize;
    if i == rows - 1 {
      RowAt(blocks, b, i);
      InterleavedLength(blocks, i);
    } else {
      InterleavedAt(blocks, rows - 1, b, i);
    }
  }

  lemma {:induction false} OffsetSnoc(front: seq<nat>, last: nat, rows: nat)
    ensures Offset(front + [last], rows) == Offset(front, rows) + (if last < rows then last else rows)
  {
    if rows > 0 {
      OffsetSnoc(front, last, rows - 1);
      assert (front + [last])[..|front|] == front;
    }
  }

  /** With enough rows every codeword is there. */
  lemma {:induction false} OffsetTotal(lengths: seq<nat>, rows: nat)
    requires Within(lengths, rows)
    ensures Offset(lengths, rows) == Total(lengths)
  {
    if lengths == [] {
      NoBlocks(rows);
    } else {
      var front, last := lengths[..|lengths| - 1], lengths[|lengths| - 1];
      assert lengths == front + [last];
      OffsetTotal(front, rows);
      OffsetSnoc(front, last, rows);
    }
  }

  lemma {:induction false} NoBlocks(rows: nat)
    ensures Offset([], rows) == 0
  {
    if rows > 0 {
      NoBlocks(rows - 1);
    }
  }

  lemma {:induction false} RowSizePrefix(lengths: seq<nat>, b: nat, i: nat)
    requires b < |lengths| && i < lengths[b]
    ensures RowSize(lengths[..b], i) < RowSize(lengths, i)
  {
    var front := lengths[..|lengths| - 1];
    if b == |front| {
      assert lengths[..b] == front;
    } else {
      assert lengths[..b] == front[..b];
      RowSizePrefix(front, b, i);
    }
  }

  lemma {:induction false} PositionInside(lengths: seq<nat>, rows: nat, b: nat, i: nat)
    requires b < |lengths| && i < lengths[b] && i < rows
    ensures Position(lengths, b, i) < Offset(lengths, rows)
  {
    if i == rows - 1 {
      RowSizePrefix(lengths, b, i);
    } else {
      PositionInside(lengths, rows - 1, b, i);
    }
  }

  // ----- taking it apart -----

  /** The word at an index, or zero past the end. */
  function WordAt(codewords: seq<Word>, k: nat): Word {
    if k < |codewords| then codewords[k] else ZERO
  }

  /** The blocks that interleaved codewords are made of. */
  function Deinterleaved(codewords: seq<Word>, lengths: seq<nat>): (blocks: seq<Block>)
    ensures |blocks| == |lengths|
  {
    seq(|lengths|, b requires 0 <= b < |lengths| =>
      seq(lengths[b], i requires 0 <= i < lengths[b] => WordAt(codewords, Position(lengths, b, i))))
  }

  lemma DeinterleavedInterleaved(blocks: seq<Block>, rows: nat, rest: seq<Word>)
    requires Within(LengthsOf(blocks), rows)
    ensures Deinterleaved(Interleaved(blocks, rows) + rest, LengthsOf(blocks)) == blocks
  {
    var codewords := Interleaved(blocks, rows) + rest;
    var lengths := LengthsOf(blocks);
    forall b | 0 <= b < |blocks|
      ensures Deinterleaved(codewords, lengths)[b] == blocks[b]
    {
      assert |blocks[b]| == lengths[b] <= rows;
      forall i | 0 <= i < |blocks[b]|
        ensures Deinterleaved(codewords, lengths)[b][i] == blocks[b][i]
      {
        InterleavedAt(blocks, rows, b, i);
      }
    }
  }

  // ----- the blocks of some data -----

  function Joined(blocks: seq<Block>): seq<Word> {
    if blocks == [] then [] else Joined(blocks[..|blocks| - 1]) + blocks[|blocks| - 1]
  }

  function Split(data: seq<Word>, lengths: seq<nat>): (blocks: seq<Block>)
    requires |data| == Total(lengths)
    ensures |blocks| == |lengths|
    decreases lengths
  {
    if lengths == [] then []
    else
      var rest := |data| - lengths[|lengths| - 1];
      Split(data[..rest], lengths[..|lengths| - 1]) + [data[rest..]]
  }

  lemma SplitSnoc(data: seq<Word>, lengths: seq<nat>, last: Block)
    requires |data| == Total(lengths)
    ensures Total(lengths + [|last|]) == |data| + |last|
    ensures Split(data + last, lengths + [|last|]) == Split(data, lengths) + [last]
  {
    assert (lengths + [|last|])[..|lengths|] == lengths;
    assert (data + last)[..|data|] == data && (data + last)[|data|..] == last;
  }

  lemma {:induction false} JoinedSplit(data: seq<Word>, lengths: seq<nat>)
    requires |data| == Total(lengths)
    ensures Joined(Split(data, lengths)) == data && LengthsOf(Split(data, lengths)) == lengths
    decreases lengths
  {
    if lengths != [] {
      var n := |lengths| - 1;
      var front, rest := lengths[..n], |data| - lengths[n];
      var last := data[rest..];
      assert data == data[..rest] + last && lengths == front + [|last|];
      SplitSnoc(data[..rest], front, last);
      JoinedSplit(data[..rest], front);
      var blocks := Split(data[..rest], front);
      assert (blocks + [last])[..n] == blocks;
      assert LengthsOf(blocks + [last]) == LengthsOf(blocks) + [|last|];
    }
  }

  function DataLengths(spec: BlockSpec): (lengths: seq<nat>)
    ensures |lengths| == spec.group1Blocks + spec.group2Blocks
  {
    seq(spec.group1Blocks, b => spec.group1Data) + seq(spec.group2Blocks, b => spec.group2Data)
  }

  function CorrectionLengths(blocks: nat, count: nat): (lengths: seq<nat>)
    ensures |lengths| == blocks
  {
    seq(blocks, b => count)
  }

  function Rows(spec: BlockSpec): nat {
    if spec.group1Data < spec.group2Data then spec.group2Data else spec.group1Data
  }

  lemma {:induction false} TotalOfEqual(prefix: seq<nat>, count: nat, length: nat)
    ensures Total(prefix + seq(count, b => length)) == Total(prefix) + count * length
  {
    if count == 0 {
      assert prefix + seq(count, b => length) == prefix;
    } else {
      TotalOfEqual(prefix, count - 1, length);
      var all := prefix + seq(count, b => length);
      assert all[..|all| - 1] == prefix + seq(count - 1, b => length) && all[|all| - 1] == length;
      assert count * length == (count - 1) * length + length;
    }
  }

  /** The blocks of a specification hold its data codewords, and with their error correction its total. */
  lemma DataLengthsTotal(spec: BlockSpec)
    ensures Total(DataLengths(spec)) == spec.DataCodewords() && Within(DataLengths(spec), Rows(spec))
    ensures Total(DataLengths(spec)) + |DataLengths(spec)| * spec.ecPerBlock == spec.TotalCodewords()
  {
    var group1 := seq(spec.group1Blocks, b => spec.group1Data);
    NothingSplit();
    TotalOfEqual([], spec.group1Blocks, spec.group1Data);
    assert [] + group1 == group1;
    TotalOfEqual(group1, spec.group2Blocks, spec.group2Data);
  }

  lemma NothingSplit()
    ensures Total([]) == 0 && Split([], []) == []
  {
  }

  // ----- the codewords of a symbol -----

  function Corrections(blocks: seq<Block>, count: nat): (corrections: seq<Block>)
    requires count >= 1
    ensures |corrections| == |blocks|
  {
    seq(|blocks|, b requires 0 <= b < |blocks| => Remainder(blocks[b], count))
  }

  /** The blocks' data interleaved, then their error correction. */
  function Codewords(data: seq<Word>, lengths: seq<nat>, rows: nat, count: nat): seq<Word>
    requires |data| == Total(lengths) && count >= 1
  {
    Interleaved(Split(data, lengths), rows) + Interleaved(Corrections(Split(data, lengths), count), count)
  }

  /** The data blocks a reader finds in a symbol's codewords, and the blocks of error correction after them. */
  function ReadBlocks(codewords: seq<Word>, lengths: seq<nat>): (blocks: seq<Block>)
    ensures |blocks| == |lengths|
  {
    Deinterleaved(codewords, lengths)
  }

  function ReadCorrections(codewords: seq<Word>, lengths: seq<nat>, count: nat): (corrections: seq<Block>)
    ensures |corrections| == |lengths|
  {
    var start := if Total(lengths) <= |codewords| then Total(lengths) else |codewords|;
    Deinterleaved(codewords[start..], CorrectionLengths(|lengths|, count))
  }

  /** Every block a reader finds vanishes, with its error correction, at the roots of the generator polynomial. */
  predicate BlocksVanish(codewords: seq<Word>, lengths: seq<nat>, count: nat) {
    forall b, i :: 0 <= b < |lengths| && 0 <= i < count ==>
      Eval(ReadBlocks(codewords, lengths)[b] + ReadCorrections(codewords, lengths, count)[b], Power(i)) == ZERO
  }

  lemma CodewordsParts(data: seq<Word>, lengths: seq<nat>, rows: nat, count: nat)
    requires |data| == Total(lengths) && count >= 1 && Within(lengths, rows)
    ensures |Interleaved(Split(data, lengths), rows)| == |data|
    ensures |Codewords(data, lengths, rows, count)| == |data| + |lengths| * count
    ensures LengthsOf(Split(data, lengths)) == lengths
    ensures LengthsOf(Corrections(Split(data, lengths), count)) == CorrectionLengths(|lengths|, count)
  {
    hide Interleaved, Split, Total, Offset;
    var blocks := Split(data, lengths);
    var corrections := Corrections(blocks, count);
    JoinedSplit(data, lengths);
    InterleavedLength(blocks, rows);
    OffsetTotal(lengths, rows);
    var corrected := CorrectionLengths(|lengths|, count);
    assert LengthsOf(corrections) == corrected;
    InterleavedLength(corrections, count);
    OffsetTotal(corrected, count);
    CorrectionsTotal(|lengths|, count);
  }

  lemma CorrectionsTotal(blocks: nat, count: nat)
    ensures Total(CorrectionLengths(blocks, count)) == blocks * count
  {
    NothingSplit();
    TotalOfEqual([], blocks, count);
    assert [] + CorrectionLengths(blocks, count) == CorrectionLengths(blocks, count);
  }

  /** A reader gets back the data, and blocks that vanish where they should, whatever follows the codewords. */
  lemma CodewordsReadBack(data: seq<Word>, lengths: seq<nat>, rows: nat, count: nat, rest: seq<Word>)
    requires |data| == Total(lengths) && count >= 1 && Within(lengths, rows)
    ensures Joined(ReadBlocks(Codewords(data, lengths, rows, count) + rest, lengths)) == data
    ensures BlocksVanish(Codewords(data, lengths, rows, count) + rest, lengths, count)
  {
    hide Remainder, Eval, Power, Interleaved, Split, Total, Deinterleaved;
    var blocks := Split(data, lengths);
    var corrections := Corrections(blocks, count);
    var front, back := Interleaved(blocks, rows), Interleaved(corrections, count);
    CodewordsParts(data, lengths, rows, count);
    var codewords := Codewords(data, lengths, rows, count) + rest;
    assert codewords == front + (back + rest) && codewords[|data|..] == back + rest;
    JoinedSplit(data, lengths);
    DeinterleavedInterleaved(blocks, rows, back + rest);
    DeinterleavedInterleaved(corrections, count, rest);
    assert ReadBlocks(codewords, lengths) == blocks && ReadCorrections(codewords, lengths, count) == corrections;
    forall b, i | 0 <= b < |blocks| && 0 <= i < count
      ensures Eval(blocks[b] + corrections[b], Power(i)) == ZERO
    {
      BlockVanishes(blocks[b], count, i);
    }
  }

  lemma ReadFromPrefix(data: seq<Word>, lengths: seq<nat>, rows: nat, count: nat, read: seq<Word>)
    requires |data| == Total(lengths) && count >= 1 && Within(lengths, rows)
    requires Codewords(data, lengths, rows, count) <= read
    ensures Joined(ReadBlocks(read, lengths)) == data && BlocksVanish(read, lengths, count)
  {
    hide *;
    var codewords := Codewords(data, lengths, rows, count);
    var rest := read[|codewords|..];
    assert read == codewords + rest;
    CodewordsReadBack(data, lengths, rows, count, rest);
  }

  // ----- the program -----

  lemma RowSnoc(blocks: seq<Block>, b: nat, i: nat)
    requires b < |blocks|
    ensures Row(blocks[..b + 1], i) == Row(blocks[..b], i) + At(blocks[b], i)
  {
    assert blocks[..b + 1][..b] == blocks[..b];
  }

  lemma MoreOfEqual(lengths: seq<nat>, n: nat, length: nat)
    ensures lengths + seq(n + 1, b => length) == lengths + seq(n, b => length) + [length]
  {
  }

  /** Splits off the next blocks of one group. */
  method TakeBlocks(data: seq<Word>, offset: nat, count: nat, length: nat, ghost lengths: seq<nat>, taken: seq<Block>)
    returns (blocks: seq<Block>, next: nat)
    requires offset == Total(lengths) && offset + count * length <= |data|
    requires taken == Split(data[..offset], lengths)
    ensures next == offset + count * length == Total(lengths + seq(count, b => length))
    ensures blocks == Split(data[..next], lengths + seq(count, b => length))
  {
    hide Total, Split;
    blocks, next := taken, offset;
    assert lengths + seq(0, b => length) == lengths;
    for n := 0 to count
      invariant next == offset + n * length == Total(lengths + seq(n, b => length))
      invariant blocks == Split(data[..next], lengths + seq(n, b => length))
    {
      assert next + length <= offset + count * length by {
        assert (n + 1) * length == n * length + length;
        assert (n + 1) * length <= count * length;
      }
      ghost var last := data[next..next + length];
      assert data[..next + length] == data[..next] + last;
      SplitSnoc(data[..next], lengths + seq(n, b => length), last);
      MoreOfEqual(lengths, n, length);
      blocks := blocks + [data[next..next + length]];
      next := next + length;
    }
  }

  method AppendRow(blocks: seq<Block>, i: nat, start: seq<Word>) returns (result: seq<Word>)
    ensures result == start + Row(blocks, i)
  {
    result := start;
    for b := 0 to |blocks|
      invariant result == start + Row(blocks[..b], i)
    {
      RowSnoc(blocks, b, i);
      if i < |blocks[b]| {
        result := result + [blocks[b][i]];
      }
    }
    assert blocks[..|blocks|] == blocks;
  }

  /** One row after another. */
  method AppendRows(blocks: seq<Block>, rows: nat, start: seq<Word>) returns (result: seq<Word>)
    ensures result == start + Interleaved(blocks, rows)
  {
    hide Row;
    result := start;
    for i := 0 to rows
      invariant result == start + Interleaved(blocks, i)
    {
      result := AppendRow(blocks, i, result);
    }
  }

  method Interleave(tables: Tables, data: seq<Word>, spec: BlockSpec) returns (result: seq<Word>)
    requires tables.Valid()
    requires |data| == spec.DataCodewords() && 1 <= spec.ecPerBlock <= 510
    ensures Total(DataLengths(spec)) == |data|
    ensures result == Codewords(data, DataLengths(spec), Rows(spec), spec.ecPerBlock)
  {
    hide Remainder, Interleaved, Split, Total, Rows;
    ghost var group1 := seq(spec.group1Blocks, b => spec.group1Data);
    assert [] + group1 == group1;
    DataLengthsTotal(spec);
    NothingSplit();
    assert data[..0] == [];
    var blocks, offset := TakeBlocks(data, 0, spec.group1Blocks, spec.group1Data, [], []);
    blocks, offset := TakeBlocks(data, offset, spec.group2Blocks, spec.group2Data, group1, blocks);
    assert data[..offset] == data;

    var corrections := CorrectBlocks(tables, blocks, spec.ecPerBlock);
    result := AppendRows(blocks, Rows(spec), []);
    result := AppendRows(corrections, spec.ecPerBlock, result);
  }

  method CorrectBlocks(tables: Tables, blocks: seq<Block>, count: nat) returns (corrections: seq<Block>)
    requires tables.Valid() && 1 <= count <= 510
    ensures corrections == Corrections(blocks, count)
  {
    corrections := [];
    for b := 0 to |blocks|
      invariant corrections == Corrections(blocks[..b], count)
    {
      var correction := tables.ErrorCorrection(blocks[b], count);
      corrections := corrections + [correction[..]];
      assert Corrections(blocks[..b + 1], count) == Corrections(blocks[..b], count) + [Remainder(blocks[b], count)];
    }
    assert blocks[..|blocks|] == blocks;
  }
}
