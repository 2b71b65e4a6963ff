/** Whenever the search answers, its paths are exactly the parse trees that
    start where it did: every path is one (the Trees lemmas), and none is
    missing (the Found lemmas). */
module ParseTreesFound {
  import opened Spans
  import opened Utf8
  import opened Wrappers
  import opened Abnf
  import opened Denotation
  import opened Solver
  import opened SolverShape
  import opened SolverExact
  import opened ParseTrees

  // ----- rows and chains -----

  lemma {:induction false} NonEmptyHas(parts: seq<Path>)
    ensures forall p :: p in NonEmpty(parts) ==> !p.IsEmpty()
    ensures |parts| > 0 && NonEmpty(parts) == [] ==> parts[0].IsEmpty()
  {
    if |parts| > 1 {
      NonEmptyHas(parts[..|parts| - 1]);
      assert parts[..|parts| - 1][0] == parts[0];
    } else if |parts| == 1 {
      assert parts[..0] == [];
    }
  }

  /** One more repetition extends a row as the search extends a path. */
  lemma RowSnoc(parts: seq<Path>, p: Path)
    requires parts != [] && parts[|parts| - 1].end == p.start
    ensures Row(parts + [p]) == Extended(Row(parts), p, parts[0].start)
  {
    NonEmptyHas(parts);
    assert (parts + [p])[..|parts|] == parts;
    var shown := Shown(parts);
    if NonEmpty(parts) == [] {
      assert shown == [parts[0]] && shown[..0] == [] && Kept(shown) == [];
    } else {
      assert shown[|shown| - 1] in NonEmpty(parts);
      assert Kept(shown) == shown;
    }
  }

  /** One more iteration extends a chain as the search extends a path. */
  lemma ChainSnoc(parts: seq<Path>, p: Path)
    requires parts != []
    ensures Chain(parts + [p]) == Iterated(Chain(parts), p)
  {
    assert (parts + [p])[1..] == parts[1..] + [p];
    assert (parts[0].subpaths + parts[1..]) + [p] == parts[0].subpaths + (parts[1..] + [p]);
    if |parts| == 1 {
      assert parts[1..] == [];
      assert parts[0].subpaths + [] == parts[0].subpaths;
    }
  }

  lemma AdjoiningSnoc(parts: seq<Path>, p: Path)
    requires Adjoining(parts) && (parts != [] ==> parts[|parts| - 1].end == p.start)
    ensures Adjoining(parts + [p])
  {
  }

  /** A chain of a given number of the element's trees. */
  ghost predicate ChainTree(g: Grammar, depth: nat, e: Element, count: nat, p: Path, s: Bytes) {
    exists parts: seq<Path> :: ChainParts(g, depth, e, parts, s) && |parts| == count && p == Chain(parts)
  }

  lemma FirstChain(g: Grammar, depth: nat, e: Element, p: Path, s: Bytes)
    requires ElementTree(g, depth, e, p, s)
    ensures ChainTree(g, depth, e, 1, p, s)
  {
    assert ChainParts(g, depth, e, [p], s) && Chain([p]) == p;
  }

  lemma LongerChain(g: Grammar, depth: nat, e: Element, count: nat, before: Path, p: Path, s: Bytes)
    requires ChainTree(g, depth, e, count, before, s) && ElementTree(g, depth, e, p, s) && p.start == before.end
    ensures ChainTree(g, depth, e, count + 1, Iterated(before, p), s)
  {
    var parts :| ChainParts(g, depth, e, parts, s) && |parts| == count && before == Chain(parts);
    AdjoiningSnoc(parts, p);
    ChainSnoc(parts, p);
    assert ChainParts(g, depth, e, parts + [p], s);
  }

  lemma FirstRow(g: Grammar, depth: nat, r: Repetition, p: Path, s: Bytes)
    requires RepetitionTree(g, depth, r, p, s)
    ensures RowTree(g, depth, [r], Path([p], "", p.start, p.end), s)
  {
    assert RowParts(g, depth, [r], [p], s);
    assert [p][..0] == [] && [p][0] == p;
    assert NonEmpty([p]) == NonEmpty([]) + (if p.start == p.end then [] else [p]);
  }

  lemma LongerRow(g: Grammar, depth: nat, rs: seq<Repetition>, r: Repetition, before: Path, p: Path, s: Bytes)
    requires RowTree(g, depth, rs, before, s) && RepetitionTree(g, depth, r, p, s) && p.start == before.end
    ensures RowTree(g, depth, rs + [r], Extended(before, p, before.start), s)
  {
    var parts :| RowParts(g, depth, rs, parts, s) && before == Row(parts);
    AdjoiningSnoc(parts, p);
    RowSnoc(parts, p);
    assert RowParts(g, depth, rs + [r], parts + [p], s);
  }

  // ----- every path is a tree -----

  lemma TerminalTrees(g: Grammar, depth: nat, e: Element, s: Bytes, i: nat, p: Path)
    requires e.CharVal? || e.NumVal?
    requires SolveElement(g, depth, e, s, i).Some? && p in SolveElement(g, depth, e, s, i).value
    ensures ElementTree(g, depth, e, p, s)
  {
    var ps := SolveElement(g, depth, e, s, i).value;
    assert |ps| == 1 && p == ps[0] && p == Leaf(i, p.end);
    assert HasEnd(ps, p.end);
    if e.CharVal? {
      CharValExact(e.sensitive, e.value, s, i);
    } else {
      NumValExact(e.base, e.status, e.values, s, i);
    }
  }

  lemma {:induction false} ElementTrees(g: Grammar, depth: nat, e: Element, s: Bytes, i: nat, p: Path)
    requires i <= |s| && SolveElement(g, depth, e, s, i).Some? && p in SolveElement(g, depth, e, s, i).value
    ensures ElementTree(g, depth, e, p, s)
    decreases depth, e, 0, 0
  {
    match e
    case Rulename(name) =>
      var a := g.Lookup(name).value.alternation;
      var ps := SolveAlternation(g, depth - 1, a, s, i).value;
      var k :| 0 <= k < |ps| && p == Stamped(ps[k], name);
      AlternationTrees(g, depth - 1, a, s, i, ps[k]);
      assert p.(matchRule := "") == ps[k];
    case Group(a) => AlternationTrees(g, depth, a, s, i, p);
    case Optional(a) =>
      if p != EmptyIteration(i) {
        AlternationTrees(g, depth, a, s, i, p);
      }
    case List(_, _, _, a) => AlternationTrees(g, depth, a, s, i, p);
    case CharVal(_, _) => TerminalTrees(g, depth, e, s, i, p);
    case NumVal(_, _, _) => TerminalTrees(g, depth, e, s, i, p);
    case ProseVal(_) =>
  }

  /** Every path found for an alternation is a parse tree of it. */
  lemma {:induction false} AlternationTrees(g: Grammar, depth: nat, a: Alternation, s: Bytes, i: nat, p: Path)
    requires i <= |s| && SolveAlternation(g, depth, a, s, i).Some? && p in SolveAlternation(g, depth, a, s, i).value
    ensures AlternationTree(g, depth, a, p, s) && p.matchRule == ""
    decreases depth, a, 1, 0
  {
    var k := AlternativesTrees(g, depth, a.concatenations, s, i, p);
    assert ConcatenationTree(g, depth, a.concatenations[k], p, s);
  }

  lemma {:induction false} AlternativesTrees(g: Grammar, depth: nat, cs: seq<Concatenation>, s: Bytes, i: nat, p: Path)
    returns (k: nat)
    requires i <= |s| && SolveAlternatives(g, depth, cs, s, i).Some? && p in SolveAlternatives(g, depth, cs, s, i).value
    ensures k < |cs| && ConcatenationTree(g, depth, cs[k], p, s)
    decreases depth, cs, 0, 0
  {
    var front := cs[..|cs| - 1];
    if p in SolveAlternatives(g, depth, front, s, i).value {
      k := AlternativesTrees(g, depth, front, s, i, p);
    } else {
      k := |cs| - 1;
      RowTrees(g, depth, cs[k].repetitions, s, i, p);
    }
  }

  lemma {:induction false} RowTrees(g: Grammar, depth: nat, rs: seq<Repetition>, s: Bytes, i: nat, p: Path)
    requires i <= |s| && SolveRepetitions(g, depth, rs, s, i).Some? && p in SolveRepetitions(g, depth, rs, s, i).value
    ensures RowTree(g, depth, rs, p, s)
    decreases depth, rs, 0, 0
  {
    if |rs| == 1 {
      var ps := SolveRepetition(g, depth, rs[0], s, i).value;
      var k :| 0 <= k < |ps| && p == Path([ps[k]], "", i, ps[k].end);
      RepetitionTrees(g, depth, rs[0], s, i, ps[k]);
      RepetitionFrom(g, depth, rs[0], s, i);
      FirstRow(g, depth, rs[0], ps[k], s);
      assert rs == [rs[0]];
    } else {
      var front, r := rs[..|rs| - 1], rs[|rs| - 1];
      var before := SolveRepetitions(g, depth, front, s, i).value;
      RepetitionsFrom(g, depth, front, s, i);
      forall b | b in before
        ensures RowTree(g, depth, front, b, s)
      {
        RowTrees(g, depth, front, s, i, b);
      }
      assert rs == front + [r];
      ExtensionTrees(g, depth, front, before, r, s, i, p);
    }
  }

  lemma {:induction false} ExtensionTrees(g: Grammar, depth: nat, rs: seq<Repetition>, before: seq<Path>,
                                          r: Repetition, s: Bytes, i: nat, p: Path)
    requires i <= |s| && From(before, s, i) && forall b :: b in before ==> RowTree(g, depth, rs, b, s)
    requires SolveExtensions(g, depth, before, r, s, i).Some?
    requires p in SolveExtensions(g, depth, before, r, s, i).value
    ensures RowTree(g, depth, rs + [r], p, s)
    decreases depth, r, 4, |before|
  {
    var front, last := before[..|before| - 1], before[|before| - 1];
    if p in SolveExtensions(g, depth, front, r, s, i).value {
      ExtensionTrees(g, depth, rs, front, r, s, i, p);
    } else {
      var ps := SolveRepetition(g, depth, r, s, last.end).value;
      var k :| 0 <= k < |ps| && p == Extended(last, ps[k], i);
      RepetitionTrees(g, depth, r, s, last.end, ps[k]);
      RepetitionFrom(g, depth, r, s, last.end);
      LongerRow(g, depth, rs, r, last, ps[k], s);
    }
  }

  /** What a repetition answers, in terms of the answers for its iterations. */
  lemma RepetitionAnswers(g: Grammar, depth: nat, r: Repetition, s: Bytes, i: nat)
    requires SolveRepetition(g, depth, r, s, i).Some?
    ensures var empty := if r.min == 0 then [EmptyIteration(i)] else [];
            var ps, least := SolveRepetition(g, depth, r, s, i).value, Max(1, r.min);
            if !ShouldContinue(r, s, i, 0) then ps == empty
            else
              && SolveElement(g, depth, r.element, s, i).Some?
              && var first := [SolveElement(g, depth, r.element, s, i).value];
              && SolveIterations(g, depth, r, s, first, StepLimit(r, s)).Some?
              && var iterations := SolveIterations(g, depth, r, s, first, StepLimit(r, s)).value;
                 ps == empty + (if least <= |iterations| then Flattened(iterations[least - 1..]) else [])
  {
    hide SolveElement, SolveIterations, Flattened, ShouldContinue, StepLimit;
  }

  lemma {:induction false} RepetitionTrees(g: Grammar, depth: nat, r: Repetition, s: Bytes, i: nat, p: Path)
    requires i <= |s| && SolveRepetition(g, depth, r, s, i).Some? && p in SolveRepetition(g, depth, r, s, i).value
    ensures RepetitionTree(g, depth, r, p, s)
    decreases depth, r, 3, 0
  {
    hide SolveElement, SolveIterations, SolveRepetition, Flattened, ElementTree, ChainParts, Chain, StepLimit;
    RepetitionAnswers(g, depth, r, s, i);
    if r.min == 0 && p == EmptyIteration(i) {
      assert IsNothing(p);
    } else {
      var first := SolveElement(g, depth, r.element, s, i).value;
      ElementFrom(g, depth, r.element, s, i);
      forall q | q in first
        ensures ChainTree(g, depth, r.element, 1, q, s)
      {
        ElementTrees(g, depth, r.element, s, i, q);
        FirstChain(g, depth, r.element, q, s);
      }
      IterationTrees(g, depth, r, s, [first], StepLimit(r, s), i);
      var iterations := SolveIterations(g, depth, r, s, [first], StepLimit(r, s)).value;
      var least := Max(1, r.min);
      var k := FlattenedHas(iterations[least - 1..], p);
      assert p in iterations[least - 1 + k];
      var parts :| && ChainParts(g, depth, r.element, parts, s) && |parts| == least + k && p == Chain(parts);
      assert Permits(r.min, r.max, |parts|);
    }
  }

  lemma {:induction false} FlattenedHas(iterations: seq<seq<Path>>, p: Path) returns (k: nat)
    requires p in Flattened(iterations)
    ensures k < |iterations| && p in iterations[k]
  {
    if p in iterations[|iterations| - 1] {
      k := |iterations| - 1;
    } else {
      k := FlattenedHas(iterations[..|iterations| - 1], p);
    }
  }

  /** The paths after each number of iterations are chains of that many trees. */
  ghost predicate Chained(g: Grammar, depth: nat, e: Element, iterations: seq<seq<Path>>, s: Bytes) {
    forall k, p :: 0 <= k < |iterations| && p in iterations[k] ==> ChainTree(g, depth, e, k + 1, p, s)
  }

  lemma {:induction false} IterationTrees(g: Grammar, depth: nat, r: Repetition, s: Bytes, iterations: seq<seq<Path>>,
                                          steps: nat, i: nat)
    requires i <= |s| && AllFrom(iterations, s, i) && Chained(g, depth, r.element, iterations, s)
    requires SolveIterations(g, depth, r, s, iterations, steps).Some?
    requires r.max == INF || |iterations| <= r.max
    ensures Chained(g, depth, r.element, SolveIterations(g, depth, r, s, iterations, steps).value, s)
    ensures r.max == INF || |SolveIterations(g, depth, r, s, iterations, steps).value| <= r.max
    decreases depth, r, 2, steps
  {
    if |iterations| != 0 && |iterations| != r.max {
      var last := iterations[|iterations| - 1];
      var next := SolveNext(g, depth, r, s, last, |iterations|).value;
      if next != [] {
        NextFrom(g, depth, r, s, last, |iterations|, i);
        forall p | p in next
          ensures ChainTree(g, depth, r.element, |iterations| + 1, p, s)
        {
          NextTrees(g, depth, r, s, last, |iterations|, i, p);
        }
        IterationTrees(g, depth, r, s, iterations + [next], steps - 1, i);
      }
    }
  }

  lemma {:induction false} NextTrees(g: Grammar, depth: nat, r: Repetition, s: Bytes, before: seq<Path>,
                                     iteration: nat, i: nat, p: Path)
    requires i <= |s| && From(before, s, i)
    requires forall b :: b in before ==> ChainTree(g, depth, r.element, iteration, b, s)
    requires SolveNext(g, depth, r, s, before, iteration).Some?
    requires p in SolveNext(g, depth, r, s, before, iteration).value
    ensures ChainTree(g, depth, r.element, iteration + 1, p, s)
    decreases depth, r, 1, |before|
  {
    var front, last := before[..|before| - 1], before[|before| - 1];
    if p in SolveNext(g, depth, r, s, front, iteration).value {
      NextTrees(g, depth, r, s, front, iteration, i, p);
    } else {
      var ps := SolveElement(g, depth, r.element, s, last.end).value;
      var k :| 0 <= k < |ps| && p == Iterated(last, ps[k]);
      ElementTrees(g, depth, r.element, s, last.end, ps[k]);
      ElementFrom(g, depth, r.element, s, last.end);
      LongerChain(g, depth, r.element, iteration, last, ps[k], s);
    }
  }

  // ----- every tree is a path -----

  lemma TerminalFound(g: Grammar, depth: nat, e: Element, s: Bytes, i: nat, p: Path)
    requires (e.CharVal? || e.NumVal?) && ElementTree(g, depth, e, p, s) && p.start == i
    ensures CouldMatch(e, s, i) || !WellFormed(e)
    ensures e.CharVal? ==> p in CharValPaths(e.sensitive, e.value, s, i)
    ensures e.NumVal? ==> p in NumValPaths(e.base, e.status, e.values, s, i)
  {
    if e.CharVal? {
      CharValExact(e.sensitive, e.value, s, i);
      assert HasEnd(CharValPaths(e.sensitive, e.value, s, i), p.end);
    } else {
      NumValExact(e.base, e.status, e.values, s, i);
      assert HasEnd(NumValPaths(e.base, e.status, e.values, s, i), p.end);
      if WellFormed(e) && !CouldMatch(e, s, i) {
        PruningIsExact(e, name => iset{}, s, i, p.end);
      }
    }
  }

  /** No parse tree is missing from what the search finds for an element,
      whatever depth its rulenames are nested to. */
  lemma {:induction false} ElementFound(g: Grammar, depth: nat, e: Element, s: Bytes, i: nat, d: nat, p: Path)
    requires GrammarWellFormed(g) && WellFormed(e)
    requires i <= |s| && SolveElement(g, depth, e, s, i).Some?
    requires ElementTree(g, d, e, p, s) && p.start == i
    ensures p in SolveElement(g, depth, e, s, i).value
    decreases depth, e, 0, 0
  {
    match e
    case Rulename(name) =>
      var a := g.Lookup(name).value.alternation;
      LookupWellFormed(g, name);
      var unnamed := p.(matchRule := "");
      AlternationFound(g, depth - 1, a, s, i, d - 1, unnamed);
      var ps := SolveAlternation(g, depth - 1, a, s, i).value;
      var k :| 0 <= k < |ps| && ps[k] == unnamed;
      assert StampedAll(ps, name)[k] == p;
    case Group(a) => AlternationFound(g, depth, a, s, i, d, p);
    case Optional(a) =>
      if !IsNothing(p) {
        AlternationFound(g, depth, a, s, i, d, p);
      }
    case List(_, _, _, a) => AlternationFound(g, depth, a, s, i, d, p);
    case CharVal(_, _) => TerminalFound(g, d, e, s, i, p);
    case NumVal(_, _, _) => TerminalFound(g, d, e, s, i, p);
    case ProseVal(_) =>
  }

  lemma {:induction false} AlternationFound(g: Grammar, depth: nat, a: Alternation, s: Bytes, i: nat, d: nat, p: Path)
    requires GrammarWellFormed(g) && AlternationWellFormed(a)
    requires i <= |s| && SolveAlternation(g, depth, a, s, i).Some?
    requires AlternationTree(g, d, a, p, s) && p.start == i
    ensures p in SolveAlternation(g, depth, a, s, i).value
    decreases depth, a, 1, 0
  {
    var k :| 0 <= k < |a.concatenations| && ConcatenationTree(g, d, a.concatenations[k], p, s);
    AlternativesFound(g, depth, a.concatenations, s, i, d, k, p);
  }

  lemma {:induction false} AlternativesFound(g: Grammar, depth: nat, cs: seq<Concatenation>, s: Bytes, i: nat, d: nat,
                                             k: nat, p: Path)
    requires GrammarWellFormed(g) && forall m :: 0 <= m < |cs| ==> ConcatenationWellFormed(cs[m])
    requires i <= |s| && SolveAlternatives(g, depth, cs, s, i).Some?
    requires k < |cs| && ConcatenationTree(g, d, cs[k], p, s) && p.start == i
    ensures p in SolveAlternatives(g, depth, cs, s, i).value
    decreases depth, cs, 0, 0
  {
    if k == |cs| - 1 {
      var rs := cs[k].repetitions;
      var parts :| RowParts(g, d, rs, parts, s) && p == Row(parts);
      RowFound(g, depth, rs, s, i, d, parts);
    } else {
      AlternativesFound(g, depth, cs[..|cs| - 1], s, i, d, k, p);
    }
  }

  lemma {:induction false} RowFound(g: Grammar, depth: nat, rs: seq<Repetition>, s: Bytes, i: nat, d: nat,
                                    parts: seq<Path>)
    requires GrammarWellFormed(g) && forall m :: 0 <= m < |rs| ==> RepetitionWellFormed(rs[m])
    requires i <= |s| && SolveRepetitions(g, depth, rs, s, i).Some?
    requires RowParts(g, d, rs, parts, s) && parts[0].start == i
    ensures Row(parts) in SolveRepetitions(g, depth, rs, s, i).value
    decreases depth, rs, 0, 0
  {
    if |rs| == 1 {
      RepetitionFound(g, depth, rs[0], s, i, d, parts[0]);
      WrappedFound(SolveRepetition(g, depth, rs[0], s, i).value, i, parts);
    } else {
      var front, p := parts[..|parts| - 1], parts[|parts| - 1];
      var rs', r := rs[..|rs| - 1], rs[|rs| - 1];
      FrontParts(g, d, rs, parts, s);
      RowFound(g, depth, rs', s, i, d, front);
      RepetitionsFrom(g, depth, rs', s, i);
      ExtensionFound(g, depth, SolveRepetitions(g, depth, rs', s, i).value, r, s, i, Row(front));
      RepetitionFound(g, depth, r, s, p.start, d, p);
    }
  }

  lemma FrontParts(g: Grammar, d: nat, rs: seq<Repetition>, parts: seq<Path>, s: Bytes)
    requires RowParts(g, d, rs, parts, s) && |rs| > 1
    ensures var front, p := parts[..|parts| - 1], parts[|parts| - 1];
            && RowParts(g, d, rs[..|rs| - 1], front, s)
            && front[0] == parts[0]
            && Row(front).end == p.start
            && Row(parts) == Extended(Row(front), p, parts[0].start)
  {
    var front, p := parts[..|parts| - 1], parts[|parts| - 1];
    assert front[|front| - 1] == parts[|parts| - 2];
    assert parts == front + [p];
    RowSnoc(front, p);
  }

  lemma WrappedFound(ps: seq<Path>, i: nat, parts: seq<Path>)
    requires |parts| == 1 && parts[0] in ps && parts[0].start == i
    ensures Row(parts) in Wrapped(ps, i)
  {
    var p := parts[0];
    var k :| 0 <= k < |ps| && ps[k] == p;
    assert parts == [p] && parts[..0] == [];
    assert NonEmpty(parts) == NonEmpty([]) + (if p.start == p.end then [] else [p]);
    assert Wrapped(ps, i)[k] == Row(parts);
  }

  /** Every path so far is extended by every path of the next repetition. */
  lemma {:induction false} ExtensionFound(g: Grammar, depth: nat, before: seq<Path>, r: Repetition, s: Bytes, i: nat,
                                          b: Path)
    requires SolveExtensions(g, depth, before, r, s, i).Some? && b in before
    ensures SolveRepetition(g, depth, r, s, b.end).Some?
    ensures forall p :: p in SolveRepetition(g, depth, r, s, b.end).value
                        ==> Extended(b, p, i) in SolveExtensions(g, depth, before, r, s, i).value
  {
    var front, last := before[..|before| - 1], before[|before| - 1];
    if b == last {
      var ps := SolveRepetition(g, depth, r, s, b.end).value;
      forall p | p in ps
        ensures Extended(b, p, i) in ExtendedAll(last, ps, i)
      {
        var k :| 0 <= k < |ps| && ps[k] == p;
        assert ExtendedAll(last, ps, i)[k] == Extended(b, p, i);
      }
    } else {
      ExtensionFound(g, depth, front, r, s, i, b);
    }
  }

  /** The trees a repetition is made of, or none if it matched nothing. */
  lemma PartsOf(g: Grammar, d: nat, r: Repetition, p: Path, s: Bytes) returns (parts: seq<Path>)
    requires RepetitionTree(g, d, r, p, s)
    ensures parts == [] ==> r.min == 0 && p == EmptyIteration(p.start)
    ensures parts != [] ==> ChainParts(g, d, r.element, parts, s) && Permits(r.min, r.max, |parts|) && p == Chain(parts)
    ensures parts != [] ==> parts[0].start == p.start
  {
    hide ElementTree;
    if r.min == 0 && IsNothing(p) {
      parts := [];
    } else {
      parts :| ChainParts(g, d, r.element, parts, s) && Permits(r.min, r.max, |parts|) && p == Chain(parts);
    }
  }

  lemma FirstLink(parts: seq<Path>)
    requires parts != []
    ensures parts[..1] != [] && Chain(parts[..1]) == parts[0]
  {
  }

  lemma {:induction false} RepetitionFound(g: Grammar, depth: nat, r: Repetition, s: Bytes, i: nat, d: nat, p: Path)
    requires GrammarWellFormed(g) && RepetitionWellFormed(r)
    requires i <= |s| && SolveRepetition(g, depth, r, s, i).Some?
    requires RepetitionTree(g, d, r, p, s) && p.start == i
    ensures p in SolveRepetition(g, depth, r, s, i).value
    decreases depth, r, 3, 0
  {
    hide SolveElement, SolveIterations, SolveRepetition, Flattened, ElementTree, StepLimit, ShouldContinue;
    hide RepetitionTree, WellFormed, From, Chain, IsNothing;
    RepetitionAnswers(g, depth, r, s, i);
    var parts := PartsOf(g, d, r, p, s);
    if parts != [] {
      Continues(g, d, r, s, parts[0], 0);
      ElementFound(g, depth, r.element, s, i, d, parts[0]);
      ElementFrom(g, depth, r.element, s, i);
      var first := SolveElement(g, depth, r.element, s, i).value;
      FirstLink(parts);
      ChainFound(g, depth, r, s, [first], StepLimit(r, s), i, d, parts);
      var iterations := SolveIterations(g, depth, r, s, [first], StepLimit(r, s)).value;
      var least := Max(1, r.min);
      FlattenedFound(iterations[least - 1..], |parts| - least, p);
    }
  }

  /** The look-ahead lets every tree through. */
  lemma Continues(g: Grammar, d: nat, r: Repetition, s: Bytes, p: Path, iteration: nat)
    requires WellFormed(r.element) && ElementTree(g, d, r.element, p, s) && (r.max == INF || iteration < r.max)
    ensures ShouldContinue(r, s, p.start, iteration)
  {
    if r.element.CharVal? || r.element.NumVal? {
      TerminalFound(g, d, r.element, s, p.start, p);
    }
  }

  lemma {:induction false} FlattenedFound(iterations: seq<seq<Path>>, k: nat, p: Path)
    requires k < |iterations| && p in iterations[k]
    ensures p in Flattened(iterations)
  {
    if k < |iterations| - 1 {
      FlattenedFound(iterations[..|iterations| - 1], k, p);
    }
  }

  lemma {:induction false} IterationsKept(g: Grammar, depth: nat, r: Repetition, s: Bytes, iterations: seq<seq<Path>>,
                                          steps: nat)
    requires SolveIterations(g, depth, r, s, iterations, steps).Some?
    ensures iterations <= SolveIterations(g, depth, r, s, iterations, steps).value
    decreases steps
  {
    if |iterations| != 0 && |iterations| != r.max {
      var next := SolveNext(g, depth, r, s, iterations[|iterations| - 1], |iterations|).value;
      if next != [] {
        IterationsKept(g, depth, r, s, iterations + [next], steps - 1);
      }
    }
  }

  /** A chain whose beginning is among the latest paths is found when its turn comes. */
  lemma {:induction false} ChainFound(g: Grammar, depth: nat, r: Repetition, s: Bytes, iterations: seq<seq<Path>>,
                                      steps: nat, i: nat, d: nat, parts: seq<Path>)
    requires GrammarWellFormed(g) && WellFormed(r.element) && i <= |s| && AllFrom(iterations, s, i)
    requires SolveIterations(g, depth, r, s, iterations, steps).Some?
    requires ChainParts(g, d, r.element, parts, s) && (r.max == INF || |parts| <= r.max)
    requires 1 <= |iterations| <= |parts| && Chain(parts[..|iterations|]) in iterations[|iterations| - 1]
    ensures |parts| <= |SolveIterations(g, depth, r, s, iterations, steps).value|
    ensures Chain(parts) in SolveIterations(g, depth, r, s, iterations, steps).value[|parts| - 1]
    decreases depth, r, 2, steps
  {
    hide Chain, ChainParts, SolveNext, SolveElement, WellFormed, GrammarWellFormed, From, ShouldContinue;
    var n := |iterations|;
    if n == |parts| {
      assert parts[..n] == parts;
      IterationsKept(g, depth, r, s, iterations, steps);
    } else {
      var last := iterations[n - 1];
      var next := SolveNext(g, depth, r, s, last, n).value;
      LinkFound(g, depth, r, s, last, n, i, d, parts);
      NextFrom(g, depth, r, s, last, n, i);
      ChainFound(g, depth, r, s, iterations + [next], steps - 1, i, d, parts);
    }
  }

  /** The chain of one more tree is among the paths of the next iteration. */
  lemma {:induction false} LinkFound(g: Grammar, depth: nat, r: Repetition, s: Bytes, before: seq<Path>, n: nat,
                                     i: nat, d: nat, parts: seq<Path>)
    requires GrammarWellFormed(g) && WellFormed(r.element) && i <= |s| && From(before, s, i)
    requires SolveNext(g, depth, r, s, before, n).Some?
    requires ChainParts(g, d, r.element, parts, s) && (r.max == INF || |parts| <= r.max)
    requires 1 <= n < |parts| && Chain(parts[..n]) in before
    ensures Chain(parts[..n + 1]) in SolveNext(g, depth, r, s, before, n).value
    decreases depth, r, 1, 0
  {
    var b, p := Chain(parts[..n]), parts[n];
    assert b.end == parts[n - 1].end == p.start;
    Continues(g, d, r, s, p, n);
    NextFound(g, depth, r, s, before, n, b);
    ElementFound(g, depth, r.element, s, p.start, d, p);
    assert parts[..n + 1] == parts[..n] + [p];
    ChainSnoc(parts[..n], p);
  }

  /** Every path so far that may go on is followed by every path of the element. */
  lemma {:induction false} NextFound(g: Grammar, depth: nat, r: Repetition, s: Bytes, before: seq<Path>,
                                     iteration: nat, b: Path)
    requires SolveNext(g, depth, r, s, before, iteration).Some? && b in before
    requires ShouldContinue(r, s, b.end, iteration)
    ensures SolveElement(g, depth, r.element, s, b.end).Some?
    ensures forall p :: p in SolveElement(g, depth, r.element, s, b.end).value
                        ==> Iterated(b, p) in SolveNext(g, depth, r, s, before, iteration).value
  {
    var front, last := before[..|before| - 1], before[|before| - 1];
    if b == last {
      var ps := SolveElement(g, depth, r.element, s, b.end).value;
      forall p | p in ps
        ensures Iterated(b, p) in IteratedAll(last, ps)
      {
        var k :| 0 <= k < |ps| && ps[k] == p;
        assert IteratedAll(last, ps)[k] == Iterated(b, p);
      }
    } else {
      NextFound(g, depth, r, s, front, iteration, b);
    }
  }

  // ----- the paths of a search are all the trees -----

  /** What the search finds for an element is all its parse trees from there. */
  lemma ElementExactly(g: Grammar, depth: nat, e: Element, s: Bytes, i: nat, p: Path)
    requires GrammarWellFormed(g) && WellFormed(e) && i <= |s| && SolveElement(g, depth, e, s, i).Some?
    ensures p in SolveElement(g, depth, e, s, i).value <==> TreeOfElement(g, e, p, s) && p.start == i
  {
    if p in SolveElement(g, depth, e, s, i).value {
      ElementFrom(g, depth, e, s, i);
      ElementTrees(g, depth, e, s, i, p);
    }
    if TreeOfElement(g, e, p, s) && p.start == i {
      var d: nat :| ElementTree(g, d, e, p, s);
      ElementFound(g, depth, e, s, i, d, p);
    }
  }

  /** What the search finds for an alternation is all its parse trees from there. */
  lemma AlternationExactly(g: Grammar, depth: nat, a: Alternation, s: Bytes, i: nat, p: Path)
    requires GrammarWellFormed(g) && AlternationWellFormed(a) && i <= |s| && SolveAlternation(g, depth, a, s, i).Some?
    ensures p in SolveAlternation(g, depth, a, s, i).value <==> TreeOfAlternation(g, a, p, s) && p.start == i
  {
    if p in SolveAlternation(g, depth, a, s, i).value {
      AlternationFrom(g, depth, a, s, i);
      AlternationTrees(g, depth, a, s, i, p);
    }
    if TreeOfAlternation(g, a, p, s) && p.start == i {
      var d: nat :| AlternationTree(g, d, a, p, s);
      AlternationFound(g, depth, a, s, i, d, p);
    }
  }
}
