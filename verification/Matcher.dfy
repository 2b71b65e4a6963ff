/** The search as pkg/abnf/parse.go runs it, in loops that accumulate paths.
    The depth is a ghost bound on the nesting of rulenames: the methods answer
    whenever the search does at some depth, and guarded grammars give one. */
module Matcher {
  import opened Spans
  import opened Utf8
  import opened Wrappers
  import opened Abnf
  import opened Denotation
  import opened SolverShape
  import opened SolverExact
  import opened SolverDepth
  import opened SolverGuard
  import S = Solver

  type Path = S.Path

  // ----- prefixes of an answered search are answered -----

  lemma {:induction false} AlternativesPrefix(g: Grammar, depth: nat, cs: seq<Concatenation>, s: Bytes, i: nat, n: nat)
    requires n <= |cs| && S.SolveAlternatives(g, depth, cs, s, i).Some?
    ensures S.SolveAlternatives(g, depth, cs[..n], s, i).Some?
    decreases |cs|
  {
    if n < |cs| {
      AlternativesPrefix(g, depth, cs[..|cs| - 1], s, i, n);
      assert cs[..|cs| - 1][..n] == cs[..n];
    } else {
      assert cs[..n] == cs;
    }
  }

  lemma {:induction false} RepetitionsPrefix(g: Grammar, depth: nat, rs: seq<Repetition>, s: Bytes, i: nat, n: nat)
    requires 1 <= n <= |rs| && S.SolveRepetitions(g, depth, rs, s, i).Some?
    ensures S.SolveRepetitions(g, depth, rs[..n], s, i).Some?
    decreases |rs|
  {
    if n < |rs| {
      RepetitionsPrefix(g, depth, rs[..|rs| - 1], s, i, n);
      assert rs[..|rs| - 1][..n] == rs[..n];
    } else {
      assert rs[..n] == rs;
    }
  }

  lemma {:induction false} ExtensionsPrefix(g: Grammar, depth: nat, before: seq<Path>, r: Repetition, s: Bytes,
                                            i: nat, n: nat)
    requires n <= |before| && S.SolveExtensions(g, depth, before, r, s, i).Some?
    ensures S.SolveExtensions(g, depth, before[..n], r, s, i).Some?
    decreases |before|
  {
    if n < |before| {
      ExtensionsPrefix(g, depth, before[..|before| - 1], r, s, i, n);
      assert before[..|before| - 1][..n] == before[..n];
    } else {
      assert before[..n] == before;
    }
  }

  lemma {:induction false} NextPrefix(g: Grammar, depth: nat, r: Repetition, s: Bytes, before: seq<Path>,
                                      iteration: nat, n: nat)
    requires n <= |before| && S.SolveNext(g, depth, r, s, before, iteration).Some?
    ensures S.SolveNext(g, depth, r, s, before[..n], iteration).Some?
    decreases |before|
  {
    if n < |before| {
      NextPrefix(g, depth, r, s, before[..|before| - 1], iteration, n);
      assert before[..|before| - 1][..n] == before[..n];
    } else {
      assert before[..n] == before;
    }
  }

  // ----- terminals -----

  method MatchCharVal(sensitive: bool, value: string, s: Bytes, i: nat) returns (paths: seq<Path>)
    requires i <= |s|
    ensures paths == S.CharValPaths(sensitive, value, s, i)
  {
    var end := i + |value|;
    if end > |s| {
      return [];
    }
    for k := 0 to |value|
      invariant forall m :: 0 <= m < k ==> CharMatches(sensitive, value[m], s[i + m])
    {
      if !CharMatches(sensitive, value[k], s[i + k]) {
        return [];
      }
    }
    return [S.Leaf(i, end)];
  }

  lemma {:induction false} RunesPrefix(values: seq<string>, base: string, n: nat)
    requires n <= |values| && Runes(values, base).Some?
    ensures Runes(values[..n], base) == Some(Runes(values, base).value[..n])
    decreases |values|
  {
    var runes := Runes(values, base).value;
    if n < |values| {
      RunesPrefix(values[..|values| - 1], base, n);
      assert values[..|values| - 1][..n] == values[..n];
      assert runes[..|values| - 1][..n] == runes[..n];
    } else {
      assert values[..n] == values && runes[..n] == runes;
    }
  }

  lemma {:induction false} EncodePrefix(runes: seq<int>, n: nat)
    requires n <= |runes|
    ensures EncodeRunes(runes[..n]) <= EncodeRunes(runes)
    decreases |runes|
  {
    if n < |runes| {
      EncodePrefix(runes[..|runes| - 1], n);
      assert runes[..|runes| - 1][..n] == runes[..n];
    } else {
      assert runes[..n] == runes;
    }
  }

  lemma NextSlice(s: Bytes, i: nat, end: nat, done: Bytes, expected: Bytes, bytes: Bytes)
    requires i <= end <= |s| && s[i..end] == done && done + expected <= bytes
    requires i + |bytes| <= |s| && s[i..i + |bytes|] == bytes
    ensures end + |expected| <= |s| && s[end..end + |expected|] == expected
  {
    forall k | 0 <= k < |expected|
      ensures s[end + k] == expected[k]
    {
      assert s[end + k] == s[i..i + |bytes|][|done| + k] == (done + expected)[|done| + k];
    }
  }

  /** The bytes of one more numeral follow those of the numerals before it. */
  lemma EncodeNext(runes: seq<int>, k: nat)
    requires k < |runes|
    ensures EncodeRunes(runes[..k + 1]) == EncodeRunes(runes[..k]) + EncodeRune(runes[k])
  {
    assert runes[..k + 1][..k] == runes[..k];
  }

  lemma SeriesAbsent(runes: seq<int>, k: nat, s: Bytes, i: nat, end: nat, expected: Bytes)
    requires k < |runes| && i <= end <= |s| && s[i..end] == EncodeRunes(runes[..k])
    requires expected == EncodeRune(runes[k])
    requires !(end + |expected| <= |s| && s[end..end + |expected|] == expected)
    ensures S.BytesPaths(EncodeRunes(runes), s, i) == []
  {
    EncodePrefix(runes, k + 1);
    EncodeNext(runes, k);
    Absent(s, i, end, EncodeRunes(runes[..k]), expected, EncodeRunes(runes));
  }

  lemma Absent(s: Bytes, i: nat, end: nat, done: Bytes, expected: Bytes, bytes: Bytes)
    requires i <= end <= |s| && s[i..end] == done && done + expected <= bytes
    requires !(end + |expected| <= |s| && s[end..end + |expected|] == expected)
    ensures S.BytesPaths(bytes, s, i) == []
  {
    if i + |bytes| <= |s| && s[i..i + |bytes|] == bytes {
      NextSlice(s, i, end, done, expected, bytes);
    }
  }

  lemma SeriesStep(runes: seq<int>, k: nat, s: Bytes, i: nat, end: nat, next: nat)
    requires k < |runes| && i <= end <= next <= |s| && s[i..end] == EncodeRunes(runes[..k])
    requires s[end..next] == EncodeRune(runes[k])
    ensures s[i..next] == EncodeRunes(runes[..k + 1])
  {
    assert s[i..next] == s[i..end] + s[end..next];
    EncodeNext(runes, k);
  }

  method MatchBytes(expected: Bytes, s: Bytes, end: nat) returns (next: Option<nat>)
    requires end <= |s|
    ensures next.Some? <==> end + |expected| <= |s| && s[end..end + |expected|] == expected
    ensures next.Some? ==> next.value == end + |expected|
  {
    if end + |expected| > |s| || s[end..end + |expected|] != expected {
      return None;
    }
    return Some(end + |expected|);
  }

  method MatchSeries(base: string, values: seq<string>, s: Bytes, i: nat) returns (paths: seq<Path>)
    requires i <= |s| && Runes(values, base).Some?
    ensures paths == S.BytesPaths(EncodeRunes(Runes(values, base).value), s, i)
  {
    ghost var runes := Runes(values, base).value;
    var end := i;
    for k := 0 to |values|
      invariant i <= end <= |s| && s[i..end] == EncodeRunes(runes[..k])
    {
      var expected := EncodeRune(ParseNumVal(values[k], base).value);
      var next := MatchBytes(expected, s, end);
      if next == None {
        SeriesAbsent(runes, k, s, i, end, expected);
        return [];
      }
      SeriesStep(runes, k, s, i, end, next.value);
      end := next.value;
    }
    assert runes[..|values|] == runes;
    return [S.Leaf(i, end)];
  }

  // ----- the search -----

  method MatchElement(g: Grammar, e: Element, s: Bytes, i: nat, ghost depth: nat) returns (paths: seq<Path>)
    requires WellFormed(e) && GrammarWellFormed(g)
    requires i <= |s| && S.SolveElement(g, depth, e, s, i).Some?
    ensures Some(paths) == S.SolveElement(g, depth, e, s, i)
    decreases depth, e, 0, 0
  {
    match e
    case Rulename(name) =>
      var rule := g.Lookup(name);
      if rule == None {
        return [];
      }
      LookupWellFormed(g, name);
      var found := MatchAlternation(g, rule.value.alternation, s, i, depth - 1);
      paths := [];
      for k := 0 to |found|
        invariant paths == S.StampedAll(found, name)[..k]
      {
        paths := paths + [S.Stamped(found[k], name)];
      }
      assert S.StampedAll(found, name)[..|found|] == S.StampedAll(found, name);
    case Group(a) =>
      paths := MatchAlternation(g, a, s, i, depth);
    case Optional(a) =>
      var found := MatchAlternation(g, a, s, i, depth);
      paths := [S.EmptyIteration(i)] + found;
    case List(_, _, _, expansion) =>
      paths := MatchAlternation(g, expansion, s, i, depth);
    case CharVal(sensitive, value) =>
      paths := MatchCharVal(sensitive, value, s, i);
    case NumVal(base, status, values) =>
      if status == Series {
        paths := MatchSeries(base, values, s, i);
      } else {
        var low, high := ParseNumVal(values[0], base).value, ParseNumVal(values[1], base).value;
        var d := DecodeRune(s[i..]);
        paths := if !d.Failed() && low <= d.rune <= high then [S.Leaf(i, i + d.size)] else [];
      }
    case ProseVal(_) =>
      paths := [];
  }

  method MatchAlternation(g: Grammar, a: Alternation, s: Bytes, i: nat, ghost depth: nat) returns (paths: seq<Path>)
    requires AlternationWellFormed(a) && GrammarWellFormed(g)
    requires i <= |s| && S.SolveAlternation(g, depth, a, s, i).Some?
    ensures Some(paths) == S.SolveAlternation(g, depth, a, s, i)
    decreases depth, a, 1, 0
  {
    var cs := a.concatenations;
    paths := [];
    for k := 0 to |cs|
      invariant S.SolveAlternatives(g, depth, cs[..k], s, i) == Some(paths)
    {
      AlternativesPrefix(g, depth, cs, s, i, k + 1);
      assert cs[..k + 1][..k] == cs[..k];
      var found := MatchConcatenation(g, cs[k], s, i, depth);
      paths := paths + found;
    }
    assert cs[..|cs|] == cs;
  }

  method MatchConcatenation(g: Grammar, c: Concatenation, s: Bytes, i: nat, ghost depth: nat) returns (paths: seq<Path>)
    requires ConcatenationWellFormed(c) && GrammarWellFormed(g)
    requires i <= |s| && S.SolveConcatenation(g, depth, c, s, i).Some?
    ensures Some(paths) == S.SolveConcatenation(g, depth, c, s, i)
    decreases depth, c, 1, 0
  {
    var rs := c.repetitions;
    RepetitionsPrefix(g, depth, rs, s, i, 1);
    assert rs[..1] == [rs[0]];
    var first := MatchRepetition(g, rs[0], s, i, depth);
    paths := [];
    for k := 0 to |first|
      invariant paths == S.Wrapped(first, i)[..k]
    {
      paths := paths + [S.Path.Path([first[k]], "", i, first[k].end)];
    }
    assert S.Wrapped(first, i)[..|first|] == S.Wrapped(first, i);
    for k := 1 to |rs|
      invariant S.SolveRepetitions(g, depth, rs[..k], s, i) == Some(paths)
    {
      RepetitionsPrefix(g, depth, rs, s, i, k + 1);
      assert rs[..k + 1][..k] == rs[..k];
      RepetitionsFrom(g, depth, rs[..k], s, i);
      paths := MatchExtensions(g, paths, rs[k], s, i, depth);
    }
    assert rs[..|rs|] == rs;
  }

  /** Multiplies the paths so far with the paths of the next repetition. */
  method MatchExtensions(g: Grammar, before: seq<Path>, r: Repetition, s: Bytes, i: nat, ghost depth: nat)
    returns (paths: seq<Path>)
    requires RepetitionWellFormed(r) && GrammarWellFormed(g)
    requires i <= |s| && From(before, s, i) && S.SolveExtensions(g, depth, before, r, s, i).Some?
    ensures Some(paths) == S.SolveExtensions(g, depth, before, r, s, i)
    decreases depth, r, 4, |before|
  {
    paths := [];
    for k := 0 to |before|
      invariant S.SolveExtensions(g, depth, before[..k], r, s, i) == Some(paths)
    {
      ExtensionsPrefix(g, depth, before, r, s, i, k + 1);
      assert before[..k + 1][..k] == before[..k];
      var found := MatchRepetition(g, r, s, before[k].end, depth);
      var extended := Extend(before[k], found, i);
      paths := paths + extended;
    }
    assert before[..|before|] == before;
  }

  method Extend(before: Path, found: seq<Path>, i: nat) returns (paths: seq<Path>)
    ensures paths == S.ExtendedAll(before, found, i)
  {
    paths := [];
    for m := 0 to |found|
      invariant paths == S.ExtendedAll(before, found, i)[..m]
    {
      if found[m].start == found[m].end {
        // An empty path does not extend the previous path.
        paths := paths + [before];
      } else {
        // A trailing empty part is dropped before extending.
        var subpaths := before.subpaths;
        if |subpaths| != 0 && subpaths[|subpaths| - 1].start == subpaths[|subpaths| - 1].end {
          subpaths := subpaths[..|subpaths| - 1];
        }
        paths := paths + [S.Path.Path(subpaths + [found[m]], "", i, found[m].end)];
      }
    }
  }

  method MatchRepetition(g: Grammar, r: Repetition, s: Bytes, i: nat, ghost depth: nat) returns (paths: seq<Path>)
    requires RepetitionWellFormed(r) && GrammarWellFormed(g)
    requires i <= |s| && S.SolveRepetition(g, depth, r, s, i).Some?
    ensures Some(paths) == S.SolveRepetition(g, depth, r, s, i)
    decreases depth, r, 3, 0
  {
    paths := [];
    if r.min == 0 {
      paths := [S.EmptyIteration(i)];
    }
    if !S.ShouldContinue(r, s, i, 0) {
      return;
    }
    var first := MatchElement(g, r.element, s, i, depth);
    ElementFrom(g, depth, r.element, s, i);
    var iterations := [first];
    ghost var steps := S.StepLimit(r, s);
    ghost var all := S.SolveIterations(g, depth, r, s, [first], steps);
    var k := 1;
    while k != r.max
      invariant k == |iterations| && AllFrom(iterations, s, i)
      invariant S.SolveIterations(g, depth, r, s, iterations, steps) == all && all.Some?
      decreases steps
    {
      NextFrom(g, depth, r, s, iterations[k - 1], k, i);
      var current := MatchNext(g, r, s, iterations[k - 1], k, i, depth);
      if |current| == 0 {
        break;
      }
      iterations := iterations + [current];
      steps := steps - 1;
      k := k + 1;
    }
    assert all == Some(iterations);
    var collected := Collect(iterations, S.Max(1, r.min));
    paths := paths + collected;
  }

  /** Collects the numbers of iterations that satisfy the bounds. */
  method Collect(iterations: seq<seq<Path>>, least: nat) returns (paths: seq<Path>)
    requires 1 <= least
    ensures paths == if least <= |iterations| then S.Flattened(iterations[least - 1..]) else []
  {
    paths := [];
    if least > |iterations| {
      return;
    }
    for n := least to |iterations| + 1
      invariant paths == S.Flattened(iterations[least - 1..n - 1])
    {
      assert iterations[least - 1..n][..n - least] == iterations[least - 1..n - 1];
      paths := paths + iterations[n - 1];
    }
    assert iterations[least - 1..|iterations|] == iterations[least - 1..];
  }

  /** One further iteration after each path so far. */
  method MatchNext(g: Grammar, r: Repetition, s: Bytes, before: seq<Path>, iteration: nat, ghost i: nat,
                   ghost depth: nat)
    returns (paths: seq<Path>)
    requires RepetitionWellFormed(r) && GrammarWellFormed(g)
    requires i <= |s| && From(before, s, i) && S.SolveNext(g, depth, r, s, before, iteration).Some?
    ensures Some(paths) == S.SolveNext(g, depth, r, s, before, iteration)
    decreases depth, r, 1, |before|
  {
    paths := [];
    for k := 0 to |before|
      invariant S.SolveNext(g, depth, r, s, before[..k], iteration) == Some(paths)
    {
      NextPrefix(g, depth, r, s, before, iteration, k + 1);
      assert before[..k + 1][..k] == before[..k];
      if S.ShouldContinue(r, s, before[k].end, iteration) {
        var found := MatchElement(g, r.element, s, before[k].end, depth);
        ghost var done := paths;
        for m := 0 to |found|
          invariant paths == done + S.IteratedAll(before[k], found)[..m]
        {
          paths := paths + [S.Path.Path(before[k].subpaths + [found[m]], "", before[k].start, found[m].end)];
        }
        assert S.IteratedAll(before[k], found)[..|found|] == S.IteratedAll(before[k], found);
      }
    }
    assert before[..|before|] == before;
  }
}
