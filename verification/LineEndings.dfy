/** Line endings in pkg/abnf/lint/source.go:27-79 and in
    pkg/abnf/minify/minify.go:99-110: how a definition is normalized, and how
    offsets in the normalized bytes lead back to the definition. */
module LineEndings {
  import opened Utf8

  const LF: Byte := 10
  const CR: Byte := 13

  // ----- normalizing -----

  /** Every line feed that no carriage return precedes gets one. */
  function WithReturns(s: Bytes, afterCr: bool): Bytes {
    if s == [] then [] else Ending(s[0], afterCr) + WithReturns(s[1..], s[0] == CR)
  }

  function Ending(b: Byte, afterCr: bool): (r: Bytes)
    ensures 1 <= |r| <= 2 && r[|r| - 1] == b
  {
    if b == LF && !afterCr then [CR, LF] else [b]
  }

  predicate Terminated(s: Bytes) {
    s == [] || (|s| >= 2 && s[|s| - 2] == CR && s[|s| - 1] == LF)
  }

  /** The last line is terminated as well. */
  function Closed(s: Bytes): (r: Bytes)
    ensures Terminated(r)
  {
    if Terminated(s) then s else s + [CR, LF]
  }

  function Normalized(s: Bytes): Bytes {
    Closed(WithReturns(s, false))
  }

  /** bytes.ReplaceAll of CRLF by LF. */
  function WithoutReturns(s: Bytes): Bytes {
    if s == [] then []
    else if |s| >= 2 && s[0] == CR && s[1] == LF then [LF] + WithoutReturns(s[2..])
    else [s[0]] + WithoutReturns(s[1..])
  }

  /** bytes.ReplaceAll of LF by CRLF. */
  function AllReturns(s: Bytes): Bytes {
    if s == [] then [] else (if s[0] == LF then [CR, LF] else [s[0]]) + AllReturns(s[1..])
  }

  lemma AfterOther(s: Bytes)
    requires s == [] || s[0] != LF
    ensures WithReturns(s, true) == WithReturns(s, false)
  {
  }

  lemma {:induction false} ReplacedTwice(s: Bytes)
    ensures AllReturns(WithoutReturns(s)) == WithReturns(s, false)
    decreases |s|
  {
    if s != [] {
      if |s| >= 2 && s[0] == CR && s[1] == LF {
        ReplacedTwice(s[2..]);
        assert s[1..][0] == LF && s[1..][1..] == s[2..];
        assert ([LF] + WithoutReturns(s[2..]))[1..] == WithoutReturns(s[2..]);
      } else {
        ReplacedTwice(s[1..]);
        assert ([s[0]] + WithoutReturns(s[1..]))[1..] == WithoutReturns(s[1..]);
        if s[0] == CR {
          AfterOther(s[1..]);
        }
      }
    }
  }

  /** The minifier's way of normalizing, by replacing twice. */
  function ReplacedAndClosed(s: Bytes): Bytes {
    Closed(AllReturns(WithoutReturns(s)))
  }

  /** The linter and the minifier normalize alike. */
  lemma NormalizersAgree(s: Bytes)
    ensures ReplacedAndClosed(s) == Normalized(s)
  {
    ReplacedTwice(s);
  }

  /** Every line feed comes after a carriage return. */
  predicate Paired(s: Bytes, afterCr: bool) {
    s == [] || ((s[0] == LF ==> afterCr) && Paired(s[1..], s[0] == CR))
  }

  lemma {:induction false} WithReturnsPairs(s: Bytes, afterCr: bool)
    ensures Paired(WithReturns(s, afterCr), afterCr)
  {
    if s != [] {
      WithReturnsPairs(s[1..], s[0] == CR);
      var rest := WithReturns(s[1..], s[0] == CR);
      assert ([s[0]] + rest)[1..] == rest && ([CR, LF] + rest)[1..] == [LF] + rest && ([LF] + rest)[1..] == rest;
    }
  }

  lemma {:induction false} PairedStays(s: Bytes, afterCr: bool)
    requires Paired(s, afterCr)
    ensures WithReturns(s, afterCr) == s
  {
    if s != [] {
      PairedStays(s[1..], s[0] == CR);
    }
  }

  lemma {:induction false} PairedClosed(s: Bytes, afterCr: bool)
    requires Paired(s, afterCr)
    ensures Paired(s + [CR, LF], afterCr)
  {
    if s == [] {
      assert s + [CR, LF] == [CR, LF] && [CR, LF][1..] == [LF] && [LF][1..] == [];
    } else {
      PairedClosed(s[1..], s[0] == CR);
      assert (s + [CR, LF])[1..] == s[1..] + [CR, LF];
    }
  }

  /** Normalizing again changes nothing. */
  lemma NormalizingSettles(s: Bytes)
    ensures Normalized(Normalized(s)) == Normalized(s)
  {
    hide WithReturns;
    var body := WithReturns(s, false);
    WithReturnsPairs(s, false);
    if !Terminated(body) {
      PairedClosed(body, false);
    }
    PairedStays(Normalized(s), false);
  }

  /** A byte 0x0a comes after a byte 0x0d. */
  predicate HasReturn(s: Bytes, k: nat, afterCr: bool)
    requires k < |s|
  {
    s[k] == 0x0a ==> if k == 0 then afterCr else s[k - 1] == 0x0d
  }

  /** Every byte 0x0a comes after a byte 0x0d, and the two are the last bytes there are. */
  predicate EndsLines(s: Bytes) {
    && (forall k :: 0 <= k < |s| ==> HasReturn(s, k, false))
    && (s == [] || (|s| >= 2 && s[|s| - 2] == 0x0d && s[|s| - 1] == 0x0a))
  }

  lemma {:induction false} PairedIff(s: Bytes, afterCr: bool)
    ensures Paired(s, afterCr) <==> forall k :: 0 <= k < |s| ==> HasReturn(s, k, afterCr)
  {
    if s != [] {
      var rest, first := s[1..], s[0] == CR;
      PairedIff(rest, first);
      assert HasReturn(s, 0, afterCr) <==> (s[0] == LF ==> afterCr);
      if forall k :: 0 <= k < |s| ==> HasReturn(s, k, afterCr) {
        forall k | 0 <= k < |rest|
          ensures HasReturn(rest, k, first)
        {
          assert HasReturn(s, k + 1, afterCr);
        }
      }
      forall k | 0 <= k < |s| && Paired(s, afterCr)
        ensures HasReturn(s, k, afterCr)
      {
        if k > 0 {
          assert HasReturn(rest, k - 1, first);
        }
      }
    }
  }

  /** What is normalized ends its lines with both bytes, and whatever does so is left as it is. */
  lemma NormalizedIff(s: Bytes)
    ensures EndsLines(Normalized(s))
    ensures Normalized(s) == s <==> EndsLines(s)
  {
    hide WithReturns;
    var body := WithReturns(s, false);
    WithReturnsPairs(s, false);
    PairedClosed(body, false);
    PairedIff(Normalized(s), false);
    PairedIff(s, false);
    if EndsLines(s) {
      PairedStays(s, false);
    }
  }

  // ----- where the bytes come from -----

  /** How many bytes are added before, or with, the first bytes of a definition. */
  function Added(s: Bytes, n: nat): (added: nat)
    requires n <= |s|
  {
    if n == 0 then 0 else Added(s, n - 1) + (if Bare(s, n - 1) then 1 else 0)
  }

  /** A line feed that no carriage return precedes. */
  predicate Bare(s: Bytes, i: nat)
    requires i < |s|
  {
    s[i] == LF && (i == 0 || s[i - 1] != CR)
  }

  /** Where a byte of the definition is in the normalized bytes. */
  function Place(s: Bytes, i: nat): nat
    requires i < |s|
  {
    i + Added(s, i + 1)
  }

  ghost predicate Ascending(offsets: seq<nat>) {
    forall j, k :: 0 <= j < k < |offsets| ==> offsets[j] <= offsets[k]
  }

  /** How many offsets come before one. */
  function CountBelow(offsets: seq<nat>, offset: nat): nat {
    if offsets == [] then 0
    else CountBelow(offsets[..|offsets| - 1], offset) + (if offsets[|offsets| - 1] < offset then 1 else 0)
  }

  /** The normalized bytes of the first bytes, and the offsets of what was added to them. */
  function BodyOf(s: Bytes, n: nat): Bytes
    requires n <= |s|
  {
    if n == 0 then [] else BodyOf(s, n - 1) + (if Bare(s, n - 1) then [CR, LF] else [s[n - 1]])
  }

  function InsertionsOf(s: Bytes, n: nat): seq<nat>
    requires n <= |s|
  {
    if n == 0 then []
    else InsertionsOf(s, n - 1) + (if Bare(s, n - 1) then [|BodyOf(s, n - 1)|] else [])
  }

  lemma {:induction false} BodyLength(s: Bytes, n: nat)
    requires n <= |s|
    ensures |BodyOf(s, n)| == n + Added(s, n) && |InsertionsOf(s, n)| == Added(s, n)
  {
    if n > 0 {
      BodyLength(s, n - 1);
    }
  }

  lemma WithReturnsStep(s: Bytes, n: nat, afterCr: bool)
    requires n < |s|
    ensures WithReturns(s[n..], afterCr) == Ending(s[n], afterCr) + WithReturns(s[n + 1..], s[n] == CR)
  {
    assert s[n..][1..] == s[n + 1..];
  }

  /** The byte before another is a carriage return. */
  predicate AfterReturn(s: Bytes, n: nat)
    requires n <= |s|
  {
    n > 0 && s[n - 1] == CR
  }

  lemma BodyStep(s: Bytes, n: nat)
    requires n < |s|
    ensures BodyOf(s, n + 1) == BodyOf(s, n) + Ending(s[n], AfterReturn(s, n))
    ensures WithReturns(s[n..], AfterReturn(s, n)) == Ending(s[n], AfterReturn(s, n))
            + WithReturns(s[n + 1..], AfterReturn(s, n + 1))
  {
    WithReturnsStep(s, n, AfterReturn(s, n));
  }

  lemma Regroup(a: Bytes, b: Bytes, c: Bytes)
    ensures (a + b) + c == a + (b + c)
  {
  }

  lemma {:induction false} BodyIs(s: Bytes, n: nat)
    requires n <= |s|
    ensures BodyOf(s, n) + WithReturns(s[n..], AfterReturn(s, n)) == WithReturns(s, false)
  {
    if n == 0 {
      assert s[0..] == s;
    } else {
      hide *;
      BodyIs(s, n - 1);
      BodyStep(s, n - 1);
      Regroup(BodyOf(s, n - 1), Ending(s[n - 1], AfterReturn(s, n - 1)), WithReturns(s[n..], AfterReturn(s, n)));
    }
  }

  /** The byte at a byte's place is that byte. */
  lemma {:induction false} PlaceIs(s: Bytes, n: nat, i: nat)
    requires i < n <= |s|
    ensures Place(s, i) < |BodyOf(s, n)| && BodyOf(s, n)[Place(s, i)] == s[i]
  {
    BodyLength(s, n);
    BodyLength(s, n - 1);
    if i < n - 1 {
      PlaceIs(s, n - 1, i);
    }
  }

  /** The additions before an offset of the body are those of the bytes before it. */
  lemma {:induction false} InsertionsBelow(s: Bytes, n: nat, offset: nat)
    requires n <= |s|
    ensures offset >= |BodyOf(s, n)| ==> CountBelow(InsertionsOf(s, n), offset) == Added(s, n)
    ensures forall k :: 0 <= k < |InsertionsOf(s, n)| ==> InsertionsOf(s, n)[k] < |BodyOf(s, n)|
    ensures Ascending(InsertionsOf(s, n))
  {
    if n > 0 {
      InsertionsBelow(s, n - 1, offset);
      var before, all := InsertionsOf(s, n - 1), InsertionsOf(s, n);
      if Bare(s, n - 1) {
        assert all[..|all| - 1] == before;
      } else {
        assert all == before;
      }
    }
  }

  /** At a byte's place, the additions before it are counted. */
  lemma {:induction false} CountAtPlace(s: Bytes, n: nat, i: nat)
    requires i < n <= |s|
    ensures CountBelow(InsertionsOf(s, n), Place(s, i)) == Added(s, i + 1)
  {
    var before, all := InsertionsOf(s, n - 1), InsertionsOf(s, n);
    BodyLength(s, n - 1);
    if Bare(s, n - 1) {
      assert all[..|all| - 1] == before;
    } else {
      assert all == before;
    }
    if i < n - 1 {
      CountAtPlace(s, n - 1, i);
      PlaceIs(s, n - 1, i);
    } else {
      InsertionsBelow(s, n - 1, Place(s, i));
    }
  }

  // ----- the program -----

  /** How many bytes of the definition are line feeds. */
  function Lines(s: Bytes): nat {
    if s == [] then 0 else Lines(s[..|s| - 1]) + (if s[|s| - 1] == LF then 1 else 0)
  }

  /** slices.BinarySearch: where an offset is, or would be. */
  method BinarySearch(offsets: seq<nat>, offset: nat) returns (i: nat, found: bool)
    requires Ascending(offsets)
    ensures i <= |offsets| && i == CountBelow(offsets, offset)
    ensures (forall k :: 0 <= k < i ==> offsets[k] < offset) &&
            (forall k :: i <= k < |offsets| ==> offsets[k] >= offset)
    ensures found <==> i < |offsets| && offsets[i] == offset
  {
    i := 0;
    var high := |offsets|;
    while i < high
      invariant 0 <= i <= high <= |offsets|
      invariant forall k :: 0 <= k < i ==> offsets[k] < offset
      invariant forall k :: high <= k < |offsets| ==> offsets[k] >= offset
    {
      var middle := (i + high) / 2;
      if offsets[middle] < offset {
        i := middle + 1;
      } else {
        high := middle;
      }
    }
    CountIs(offsets, offset, i);
    found := i < |offsets| && offsets[i] == offset;
  }

  lemma {:induction false} CountIs(offsets: seq<nat>, offset: nat, i: nat)
    requires i <= |offsets|
    requires (forall k :: 0 <= k < i ==> offsets[k] < offset) &&
             (forall k :: i <= k < |offsets| ==> offsets[k] >= offset)
    ensures CountBelow(offsets, offset) == i
  {
    if offsets != [] {
      CountIs(offsets[..|offsets| - 1], offset, if i == |offsets| then i - 1 else i);
    }
  }

  datatype Position = Position(offset: nat, line: nat, column: nat)

  class Source {
    const original: Bytes
    const normalized: Bytes
    const insertions: seq<nat>
    const lineStarts: seq<nat>

    ghost predicate Valid() {
      && normalized == Normalized(original)
      && insertions == AllInsertions(original) && Ascending(insertions)
      && lineStarts == StartsOf(original, |original|)
    }

    constructor (original: Bytes)
      ensures Valid() && this.original == original
    {
      var normalized: Bytes := [];
      var insertions: seq<nat> := [];
      for i := 0 to |original|
        invariant normalized == BodyOf(original, i) && insertions == InsertionsOf(original, i)
      {
        var b := original[i];
        if b == LF && (i == 0 || original[i - 1] != CR) {
          insertions := insertions + [|normalized|];
          normalized := normalized + [CR];
        }
        normalized := normalized + [b];
      }
      BodyIs(original, |original|);
      assert original[|original|..] == [];
      assert normalized + [] == normalized;
      AllInsertionsAscend(original);
      if !Terminated(normalized) {
        insertions := insertions + [|normalized|, |normalized|];
        normalized := normalized + [CR, LF];
      }
      var lineStarts: seq<nat> := [0];
      for i := 0 to |original|
        invariant lineStarts == StartsOf(original, i)
      {
        if original[i] == LF {
          lineStarts := lineStarts + [i + 1];
        }
      }
      this.original, this.normalized, this.insertions, this.lineStarts := original, normalized, insertions, lineStarts;
    }

    /** Where an offset of the normalized bytes is in the definition. */
    method PositionAt(normalizedOffset: nat) returns (p: Position)
      requires Valid() && normalizedOffset <= |normalized|
      ensures p.offset == OffsetAt(original, normalizedOffset) && IsPosition(original, p)
    {
      OffsetInside(original, normalizedOffset);
      var inserted, _ := BinarySearch(insertions, normalizedOffset);
      p := PositionOf(if normalizedOffset >= inserted then normalizedOffset - inserted else 0);
    }

    /** The line and the column of an offset of the definition. */
    method PositionOf(offset: nat) returns (p: Position)
      requires Valid() && offset <= |original|
      ensures p.offset == offset && IsPosition(original, p)
    {
      StartsAscend(original, |original|);
      var line, found := BinarySearch(lineStarts, offset);
      if !found {
        line := line - 1;
      }
      StartIs(original, |original|, line, offset);
      p := Position(offset, line + 1, offset - lineStarts[line] + 1);
    }
  }

  /** The offsets of every byte that was added, the end of an unterminated last line included. */
  function AllInsertions(s: Bytes): seq<nat> {
    var body := BodyOf(s, |s|);
    InsertionsOf(s, |s|) + if Terminated(body) then [] else [|body|, |body|]
  }

  lemma AllInsertionsAscend(s: Bytes)
    ensures Ascending(AllInsertions(s))
  {
    InsertionsBelow(s, |s|, 0);
  }

  /** The offset of the definition that an offset of the normalized bytes leads to. */
  function OffsetAt(s: Bytes, offset: nat): nat {
    var inserted := CountBelow(AllInsertions(s), offset);
    if offset >= inserted then offset - inserted else 0
  }

  function StartsOf(s: Bytes, n: nat): (starts: seq<nat>)
    requires n <= |s|
    ensures |starts| >= 1 && starts[0] == 0
  {
    if n == 0 then [0] else StartsOf(s, n - 1) + (if s[n - 1] == LF then [n] else [])
  }

  /** A position says how many lines end before it, and how far the last of them is behind it. */
  ghost predicate IsPosition(s: Bytes, p: Position) {
    && p.offset <= |s| && p.line == Lines(s[..p.offset]) + 1 && 1 <= p.column <= p.offset + 1
    && (forall k :: p.offset - (p.column - 1) <= k < p.offset ==> s[k] != LF)
    && (p.column - 1 < p.offset ==> s[p.offset - p.column] == LF)
  }

  lemma {:induction false} StartsAscend(s: Bytes, n: nat)
    requires n <= |s|
    ensures Ascending(StartsOf(s, n)) && forall k :: 0 <= k < |StartsOf(s, n)| ==> StartsOf(s, n)[k] <= n
    ensures forall j, k :: 0 <= j < k < |StartsOf(s, n)| ==> StartsOf(s, n)[j] < StartsOf(s, n)[k]
  {
    if n > 0 {
      StartsAscend(s, n - 1);
    }
  }

  lemma {:induction false} LastStart(s: Bytes, n: nat)
    requires n <= |s|
    ensures var starts := StartsOf(s, n); var last := starts[|starts| - 1];
            && |starts| == Lines(s[..n]) + 1 && last <= n
            && (forall k :: last <= k < n ==> s[k] != LF) && (last > 0 ==> s[last - 1] == LF)
  {
    if n > 0 {
      LastStart(s, n - 1);
      assert s[..n][..n - 1] == s[..n - 1];
    } else {
      assert s[..0] == [];
    }
  }

  /** Later lines start later. */
  lemma {:induction false} LaterStarts(s: Bytes, m: nat, n: nat)
    requires m <= n <= |s|
    ensures StartsOf(s, m) <= StartsOf(s, n)
    ensures forall k :: |StartsOf(s, m)| <= k < |StartsOf(s, n)| ==> StartsOf(s, n)[k] > m
  {
    if m < n {
      LaterStarts(s, m, n - 1);
    }
  }

  /** The last line that starts at or before an offset is the line of that offset. */
  lemma StartIs(s: Bytes, n: nat, line: nat, offset: nat)
    requires offset <= n <= |s| && line < |StartsOf(s, n)|
    requires StartsOf(s, n)[line] <= offset && (line + 1 < |StartsOf(s, n)| ==> offset < StartsOf(s, n)[line + 1])
    ensures Lines(s[..offset]) == line
    ensures forall k :: StartsOf(s, n)[line] <= k < offset ==> s[k] != LF
    ensures StartsOf(s, n)[line] > 0 ==> s[StartsOf(s, n)[line] - 1] == LF
  {
    LastStart(s, offset);
    LaterStarts(s, offset, n);
    var here := StartsOf(s, offset);
    assert forall k :: 0 <= k < |here| ==> StartsOf(s, n)[k] == here[k];
    StartsAscend(s, offset);
  }

  // ----- where offsets lead -----

  lemma {:induction false} NoFurther(s: Bytes, n: nat, offset: nat)
    requires n <= |s| && offset <= |BodyOf(s, n)|
    ensures offset <= n + CountBelow(InsertionsOf(s, n), offset)
  {
    if n > 0 {
      BodyLength(s, n - 1);
      var before, all := InsertionsOf(s, n - 1), InsertionsOf(s, n);
      if Bare(s, n - 1) {
        assert all[..|all| - 1] == before;
      } else {
        assert all == before;
      }
      if offset <= |BodyOf(s, n - 1)| {
        NoFurther(s, n - 1, offset);
      } else {
        InsertionsBelow(s, n - 1, offset);
      }
    }
  }

  lemma CountAll(s: Bytes, offset: nat)
    ensures var n, count := |BodyOf(s, |s|)|, CountBelow(InsertionsOf(s, |s|), offset);
            CountBelow(AllInsertions(s), offset) == count + if !Terminated(BodyOf(s, |s|)) && n < offset then 2 else 0
  {
    var some, all := InsertionsOf(s, |s|), AllInsertions(s);
    if !Terminated(BodyOf(s, |s|)) {
      assert all[..|all| - 1][..|all| - 2] == some;
    } else {
      assert all == some;
    }
  }

  lemma NormalizedIs(s: Bytes)
    ensures Normalized(s) == Closed(BodyOf(s, |s|))
  {
    BodyIs(s, |s|);
    assert s[|s|..] == [];
    assert BodyOf(s, |s|) + [] == BodyOf(s, |s|);
  }

  /** No offset leads past the end of the definition. */
  lemma OffsetInside(s: Bytes, offset: nat)
    requires offset <= |Normalized(s)|
    ensures OffsetAt(s, offset) <= |s|
  {
    NormalizedIs(s);
    CountAll(s, offset);
    InsertionsBelow(s, |s|, offset);
    BodyLength(s, |s|);
    if offset <= |BodyOf(s, |s|)| {
      NoFurther(s, |s|, offset);
    }
  }

  /** Every byte of the definition is among the normalized bytes, and its place leads back to it. */
  lemma EveryByteReturns(s: Bytes, i: nat)
    requires i < |s|
    ensures Place(s, i) < |Normalized(s)| && Normalized(s)[Place(s, i)] == s[i]
    ensures OffsetAt(s, Place(s, i)) == i
  {
    NormalizedIs(s);
    PlaceIs(s, |s|, i);
    CountAtPlace(s, |s|, i);
    CountAll(s, Place(s, i));
  }

  /** A carriage return that was added leads to the line feed it was added for. */
  lemma AddedReturnLeadsToItsFeed(s: Bytes, i: nat)
    requires i < |s| && Bare(s, i)
    ensures 0 < Place(s, i) <= |Normalized(s)| && Normalized(s)[Place(s, i) - 1] == CR
    ensures OffsetAt(s, Place(s, i) - 1) == i
  {
    NormalizedIs(s);
    PlaceIs(s, |s|, i);
    BeforePlace(s, |s|, i);
    CountBeforePlace(s, |s|, i);
    CountAll(s, Place(s, i) - 1);
  }

  lemma {:induction false} BeforePlace(s: Bytes, n: nat, i: nat)
    requires i < n <= |s| && Bare(s, i)
    ensures 0 < Place(s, i) < |BodyOf(s, n)| && BodyOf(s, n)[Place(s, i) - 1] == CR
  {
    BodyLength(s, n - 1);
    BodyLength(s, n);
    if i < n - 1 {
      BeforePlace(s, n - 1, i);
    }
  }

  lemma {:induction false} CountBeforePlace(s: Bytes, n: nat, i: nat)
    requires i < n <= |s| && Bare(s, i) && Place(s, i) > 0
    ensures CountBelow(InsertionsOf(s, n), Place(s, i) - 1) == Added(s, i)
  {
    hide BodyOf;
    BodyLength(s, n - 1);
    var before, all := InsertionsOf(s, n - 1), InsertionsOf(s, n);
    if Bare(s, n - 1) {
      assert all[..|all| - 1] == before;
    } else {
      assert all == before;
    }
    if i < n - 1 {
      BeforePlace(s, n - 1, i);
      CountBeforePlace(s, n - 1, i);
    } else {
      InsertionsBelow(s, n - 1, Place(s, i) - 1);
    }
  }

  /** The end leads to the end. Of the two bytes added to an unterminated last
      line, the first leads to the end as well; the offset between the two
      leads one byte too far back. */
  lemma EndReturns(s: Bytes)
    ensures OffsetAt(s, |Normalized(s)|) == |s|
    ensures !Terminated(BodyOf(s, |s|)) ==>
              |Normalized(s)| == |BodyOf(s, |s|)| + 2
              && OffsetAt(s, |Normalized(s)| - 2) == |s| && OffsetAt(s, |Normalized(s)| - 1) == |s| - 1
  {
    NormalizedIs(s);
    BodyLength(s, |s|);
    var n := |BodyOf(s, |s|)|;
    CountAll(s, n);
    CountAll(s, n + 1);
    CountAll(s, n + 2);
    InsertionsBelow(s, |s|, n);
    InsertionsBelow(s, |s|, n + 1);
    InsertionsBelow(s, |s|, n + 2);
  }

  // ----- when offsets keep their order -----

  ghost predicate StrictlyAscending(offsets: seq<nat>) {
    forall j, k :: 0 <= j < k < |offsets| ==> offsets[j] < offsets[k]
  }

  lemma {:induction false} InsertionsStrictlyAscend(s: Bytes, n: nat)
    requires n <= |s|
    ensures StrictlyAscending(InsertionsOf(s, n))
  {
    if n > 0 {
      InsertionsStrictlyAscend(s, n - 1);
      InsertionsBelow(s, n - 1, 0);
    }
  }

  /** One offset further, no more than one addition more is counted. */
  lemma {:induction false} CountOneFurther(offsets: seq<nat>, m: nat)
    requires StrictlyAscending(offsets)
    ensures CountBelow(offsets, m) <= CountBelow(offsets, m + 1) <= CountBelow(offsets, m) + 1
    ensures m in offsets || CountBelow(offsets, m + 1) == CountBelow(offsets, m)
  {
    if offsets != [] {
      var front, last := offsets[..|offsets| - 1], offsets[|offsets| - 1];
      CountOneFurther(front, m);
      assert m in front ==> exists k :: 0 <= k < |front| && offsets[k] == m;
    }
  }

  lemma {:induction false} CountIsNoMore(offsets: seq<nat>, m: nat)
    requires StrictlyAscending(offsets)
    ensures CountBelow(offsets, m) <= m
  {
    if m == 0 {
      NoneBelowZero(offsets);
    } else {
      CountIsNoMore(offsets, m - 1);
      CountOneFurther(offsets, m - 1);
    }
  }

  lemma {:induction false} NoneBelowZero(offsets: seq<nat>)
    ensures CountBelow(offsets, 0) == 0
  {
    if offsets != [] {
      NoneBelowZero(offsets[..|offsets| - 1]);
    }
  }

  lemma {:induction false} CountFurther(offsets: seq<nat>, m: nat, n: nat)
    requires StrictlyAscending(offsets) && m <= n
    ensures CountBelow(offsets, n) <= CountBelow(offsets, m) + (n - m)
  {
    if m < n {
      CountFurther(offsets, m, n - 1);
      CountOneFurther(offsets, n - 1);
    }
  }

  /** Up to the end of the body, offsets keep their order. */
  lemma BodyKeepsOrder(s: Bytes, m: nat, n: nat)
    requires m <= n && (n <= |BodyOf(s, |s|)| || Terminated(BodyOf(s, |s|)))
    ensures OffsetAt(s, m) <= OffsetAt(s, n)
  {
    var insertions := InsertionsOf(s, |s|);
    InsertionsStrictlyAscend(s, |s|);
    CountAll(s, m);
    CountAll(s, n);
    CountIsNoMore(insertions, m);
    CountIsNoMore(insertions, n);
    CountFurther(insertions, m, n);
  }

  /** The last line is terminated exactly when the definition ends in a line feed. */
  lemma TerminatedIff(s: Bytes)
    ensures Terminated(BodyOf(s, |s|)) <==> s == [] || s[|s| - 1] == LF
  {
    hide BodyOf;
    BodyLength(s, |s|);
    if s != [] {
      var n, body := |s|, BodyOf(s, |s|);
      BodyEnds(s, n);
      if s[n - 1] == LF && !Bare(s, n - 1) {
        var front := BodyOf(s, n - 1);
        BodyEnds(s, n - 1);
        assert body[|body| - 2] == front[|front| - 1] == CR;
      }
    }
  }

  /** The last bytes of the body so far. */
  lemma BodyEnds(s: Bytes, n: nat)
    requires 0 < n <= |s|
    ensures var body := BodyOf(s, n);
            && |body| >= 1 && body[|body| - 1] == s[n - 1]
            && (Bare(s, n - 1) ==> |body| >= 2 && body[|body| - 2] == CR)
            && (!Bare(s, n - 1) ==> body[..|body| - 1] == BodyOf(s, n - 1))
  {
  }

  /** Offsets of the normalized bytes lead to the definition in their order
      exactly when nothing is added at its end. */
  lemma OrderIsKeptIff(s: Bytes)
    ensures (forall m: nat, n: nat :: m <= n <= |Normalized(s)| ==> OffsetAt(s, m) <= OffsetAt(s, n))
            <==> s == [] || s[|s| - 1] == LF
  {
    hide BodyOf, OffsetAt, Terminated, Normalized;
    TerminatedIff(s);
    if Terminated(BodyOf(s, |s|)) {
      forall m: nat, n: nat | m <= n <= |Normalized(s)|
        ensures OffsetAt(s, m) <= OffsetAt(s, n)
      {
        BodyKeepsOrder(s, m, n);
      }
    } else {
      EndReturns(s);
      var between := |Normalized(s)| - 1;
      assert between - 1 <= between <= |Normalized(s)| && OffsetAt(s, between - 1) > OffsetAt(s, between);
    }
  }

  /** The offset between the two bytes added at the end is the only one out of order. */
  lemma OtherOffsetsKeepOrder(s: Bytes, m: nat, n: nat)
    requires m <= n <= |Normalized(s)| && m != |Normalized(s)| - 1 && n != |Normalized(s)| - 1
    ensures OffsetAt(s, m) <= OffsetAt(s, n)
  {
    hide OffsetAt, BodyOf;
    NormalizedIs(s);
    EndReturns(s);
    OffsetInside(s, m);
    if n < |Normalized(s)| || Terminated(BodyOf(s, |s|)) {
      BodyKeepsOrder(s, m, n);
    }
  }
}
