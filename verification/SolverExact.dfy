/** Whenever the search answers, its end offsets are exactly those that the
    derivation relation allows. */
module SolverExact {
  import opened Spans
  import opened Utf8
  import opened Wrappers
  import opened Abnf
  import opened Denotation
  import opened Solver
  import opened SolverShape

  // ----- well-formed trees -----

  /** What the parser and semantic validation guarantee of a tree: a
      concatenation has a repetition, and a num-val valid numerals, two of them
      for a range. */
  predicate WellFormed(e: Element)
    decreases e, 0
  {
    match e
    case Group(a) => AlternationWellFormed(a)
    case Optional(a) => AlternationWellFormed(a)
    case NumVal(base, status, values) => values != [] && Runes(values, base).Some? &&
      (status == Range ==> |values| == 2)
    case List(_, _, _, expansion) => AlternationWellFormed(expansion)
    case _ => true
  }

  predicate AlternationWellFormed(a: Alternation)
    decreases a, 1
  {
    forall k :: 0 <= k < |a.concatenations| ==> ConcatenationWellFormed(a.concatenations[k])
  }

  predicate ConcatenationWellFormed(c: Concatenation)
    decreases c, 1
  {
    c.repetitions != [] && forall k :: 0 <= k < |c.repetitions| ==> RepetitionWellFormed(c.repetitions[k])
  }

  predicate RepetitionWellFormed(r: Repetition)
    decreases r, 1
  {
    WellFormed(r.element)
  }

  predicate RulesWellFormed(rules: seq<Rule>) {
    forall k :: 0 <= k < |rules| ==> AlternationWellFormed(rules[k].alternation)
  }

  predicate GrammarWellFormed(g: Grammar) {
    RulesWellFormed(g.rules) && RulesWellFormed(g.coreRules)
  }

  lemma LookupInWellFormed(rules: seq<Rule>, key: string)
    requires RulesWellFormed(rules) && LookupIn(rules, key).Some?
    ensures AlternationWellFormed(LookupIn(rules, key).value.alternation)
  {
    if Lower(rules[|rules| - 1].name) != key {
      LookupInWellFormed(rules[..|rules| - 1], key);
    }
  }

  lemma LookupWellFormed(g: Grammar, name: string)
    requires GrammarWellFormed(g) && g.Lookup(name).Some?
    ensures AlternationWellFormed(g.Lookup(name).value.alternation)
  {
    if LookupIn(g.rules, Lower(name)).Some? {
      LookupInWellFormed(g.rules, Lower(name));
    } else {
      LookupInWellFormed(g.coreRules, Lower(name));
    }
  }

  // ----- end offsets -----

  ghost predicate HasEnd(ps: seq<Path>, j: nat) {
    exists k :: 0 <= k < |ps| && ps[k].end == j
  }

  /** The paths end exactly where the relation leads from i. */
  ghost predicate Exact(ps: seq<Path>, i: nat, rel: Rel) {
    forall j: nat :: HasEnd(ps, j) <==> (i, j) in rel
  }

  /** The relation leads to j from the end of one of the paths. */
  ghost predicate Follows(before: seq<Path>, rel: Rel, j: nat) {
    exists k :: 0 <= k < |before| && (before[k].end, j) in rel
  }

  ghost predicate ExactAfter(ps: seq<Path>, before: seq<Path>, rel: Rel) {
    forall j: nat :: HasEnd(ps, j) <==> Follows(before, rel, j)
  }

  lemma ExactCompose(ps: seq<Path>, before: seq<Path>, i: nat, a: Rel, b: Rel)
    requires Exact(before, i, a) && ExactAfter(ps, before, b)
    ensures Exact(ps, i, Compose(a, b))
  {
    forall j: nat
      ensures HasEnd(ps, j) <==> (i, j) in Compose(a, b)
    {
      if Follows(before, b, j) {
        var k :| 0 <= k < |before| && (before[k].end, j) in b;
        assert HasEnd(before, before[k].end);
        assert (i, before[k].end) in a;
      }
      if (i, j) in Compose(a, b) {
        var m: nat :| (i, m) in a && (m, j) in b;
        assert HasEnd(before, m);
      }
    }
  }

  lemma HasEndAppend(xs: seq<Path>, ys: seq<Path>, j: nat)
    ensures HasEnd(xs + ys, j) <==> HasEnd(xs, j) || HasEnd(ys, j)
  {
    if HasEnd(xs, j) {
      var k :| 0 <= k < |xs| && xs[k].end == j;
      assert (xs + ys)[k].end == j;
    }
    if HasEnd(ys, j) {
      var k :| 0 <= k < |ys| && ys[k].end == j;
      assert (xs + ys)[|xs| + k].end == j;
    }
  }

  lemma SameEnds(xs: seq<Path>, ys: seq<Path>)
    requires |xs| == |ys| && forall k :: 0 <= k < |xs| ==> xs[k].end == ys[k].end
    ensures forall j: nat :: HasEnd(xs, j) <==> HasEnd(ys, j)
  {
    forall j: nat
      ensures HasEnd(xs, j) <==> HasEnd(ys, j)
    {
      if HasEnd(xs, j) {
        var k :| 0 <= k < |xs| && xs[k].end == j;
        assert ys[k].end == j;
      }
      if HasEnd(ys, j) {
        var k :| 0 <= k < |ys| && ys[k].end == j;
        assert xs[k].end == j;
      }
    }
  }

  /** The paths after all but the last path, and those after the last, are all of them. */
  lemma FollowsLast(before: seq<Path>, rel: Rel, front: seq<Path>, last: seq<Path>)
    requires before != []
    requires ExactAfter(front, before[..|before| - 1], rel)
    requires Exact(last, before[|before| - 1].end, rel)
    ensures ExactAfter(front + last, before, rel)
  {
    forall j: nat
      ensures HasEnd(front + last, j) <==> Follows(before, rel, j)
    {
      HasEndAppend(front, last, j);
      if Follows(before[..|before| - 1], rel, j) {
        var k :| 0 <= k < |before| - 1 && (before[..|before| - 1][k].end, j) in rel;
        assert (before[k].end, j) in rel;
      }
      if Follows(before, rel, j) {
        var k :| 0 <= k < |before| && (before[k].end, j) in rel;
        if k < |before| - 1 {
          assert (before[..|before| - 1][k].end, j) in rel;
        }
      }
    }
  }

  lemma {:induction false} FlattenedEnds(iterations: seq<seq<Path>>, j: nat)
    ensures HasEnd(Flattened(iterations), j) <==> exists k :: 0 <= k < |iterations| && HasEnd(iterations[k], j)
  {
    if iterations != [] {
      var front := iterations[..|iterations| - 1];
      FlattenedEnds(front, j);
      HasEndAppend(Flattened(front), iterations[|iterations| - 1], j);
      if HasEnd(Flattened(front), j) {
        var k :| 0 <= k < |front| && HasEnd(front[k], j);
        assert HasEnd(iterations[k], j);
      }
      if exists k :: 0 <= k < |iterations| && HasEnd(iterations[k], j) {
        var k :| 0 <= k < |iterations| && HasEnd(iterations[k], j);
        if k < |front| {
          assert HasEnd(front[k], j);
        }
      }
    }
  }

  // ----- terminals -----

  lemma LeafExact(i: nat, end: nat, found: bool, rel: Rel)
    requires forall j: nat :: (i, j) in rel <==> found && j == end
    ensures Exact(if found then [Leaf(i, end)] else [], i, rel)
  {
    if found {
      assert [Leaf(i, end)][0].end == end;
    }
  }

  lemma CharValExact(sensitive: bool, value: string, s: Bytes, i: nat)
    ensures Exact(CharValPaths(sensitive, value, s, i), i, CharValRel(sensitive, value, s))
  {
    LeafExact(i, i + |value|, i + |value| <= |s| && CharsMatch(sensitive, value, s, i),
              CharValRel(sensitive, value, s));
  }

  lemma BytesExact(bytes: Bytes, s: Bytes, i: nat)
    ensures Exact(BytesPaths(bytes, s, i), i, BytesRel(bytes, s))
  {
    LeafExact(i, i + |bytes|, i + |bytes| <= |s| && s[i..i + |bytes|] == bytes, BytesRel(bytes, s));
  }

  lemma RangeExact(low: int, high: int, s: Bytes, i: nat)
    ensures Exact(RangePaths(low, high, s, i), i, RangeRel(low, high, s))
  {
    if i <= |s| {
      var d := DecodeRune(s[i..]);
      LeafExact(i, i + d.size, !d.Failed() && low <= d.rune <= high, RangeRel(low, high, s));
    }
  }

  lemma NumValExact(base: string, status: NumValStatus, values: seq<string>, s: Bytes, i: nat)
    ensures Exact(NumValPaths(base, status, values, s, i), i, NumValRel(base, status, values, s))
  {
    match status
    case Series =>
      if Runes(values, base).Some? {
        BytesExact(EncodeRunes(Runes(values, base).value), s, i);
      }
    case Range =>
      if |values| >= 2 {
        var low, high := ParseNumVal(values[0], base), ParseNumVal(values[1], base);
        if low.Some? && high.Some? {
          RangeExact(low.value, high.value, s, i);
        }
      }
  }

  lemma EncodeRunesNonempty(runes: seq<int>)
    requires runes != []
    ensures |EncodeRunes(runes)| >= 1
  {
  }

  /** Where shouldContinueRepetition gives up, the element has no match. */
  lemma PruningIsExact(e: Element, env: Environment, s: Bytes, i: nat, j: nat)
    requires WellFormed(e) && !CouldMatch(e, s, i)
    ensures (i, j) !in ElementRel(e, env, s)
  {
    if e.NumVal? {
      EncodeRunesNonempty(Runes(e.values, e.base).value);
    }
  }

  // ----- the search -----

  lemma {:induction false} ElementExact(g: Grammar, depth: nat, e: Element, s: Bytes, i: nat)
    requires GrammarWellFormed(g) && WellFormed(e) && i <= |s| && SolveElement(g, depth, e, s, i).Some?
    ensures Exact(SolveElement(g, depth, e, s, i).value, i, ElementRel(e, RulesRel(g, depth, s), s))
    decreases depth, e, 0, 0
  {
    match e
    case Rulename(name) =>
      var rule := g.Lookup(name);
      if rule.Some? {
        LookupWellFormed(g, name);
        AlternationExact(g, depth - 1, rule.value.alternation, s, i);
        var ps := SolveAlternation(g, depth - 1, rule.value.alternation, s, i).value;
        SameEnds(ps, StampedAll(ps, name));
      }
    case Group(a) => AlternationExact(g, depth, a, s, i);
    case Optional(a) =>
      AlternationExact(g, depth, a, s, i);
      OptionalExact(SolveAlternation(g, depth, a, s, i).value, i, AlternationRel(a, RulesRel(g, depth, s), s));
    case List(_, _, _, a) => AlternationExact(g, depth, a, s, i);
    case CharVal(sensitive, value) => CharValExact(sensitive, value, s, i);
    case NumVal(base, status, values) => NumValExact(base, status, values, s, i);
    case ProseVal(_) =>
  }

  lemma OptionalExact(ps: seq<Path>, i: nat, rel: Rel)
    requires Exact(ps, i, rel)
    ensures Exact([EmptyIteration(i)] + ps, i, Repeat(0, 1, rel))
  {
    PowerOne(rel);
    forall j: nat
      ensures HasEnd([EmptyIteration(i)] + ps, j) <==> (i, j) in Repeat(0, 1, rel)
    {
      HasEndAppend([EmptyIteration(i)], ps, j);
      assert HasEnd([EmptyIteration(i)], j) <==> j == i by {
        assert [EmptyIteration(i)][0].end == i;
      }
      if j == i {
        assert Permits(0, 1, 0) && (i, j) in Power(rel, 0);
      }
      if (i, j) in rel {
        assert Permits(0, 1, 1) && (i, j) in Power(rel, 1);
      }
      if IsRepeated(0, 1, rel, (i, j)) {
        var count: nat :| Permits(0, 1, count) && (i, j) in Power(rel, count);
        assert count == 0 || count == 1;
      }
    }
  }

  /** The end offsets found for an alternation are exactly those its rules derive at the search's depth. */
  lemma {:induction false} AlternationExact(g: Grammar, depth: nat, a: Alternation, s: Bytes, i: nat)
    requires GrammarWellFormed(g) && AlternationWellFormed(a) && i <= |s| && SolveAlternation(g, depth, a, s, i).Some?
    ensures Exact(SolveAlternation(g, depth, a, s, i).value, i, AlternationRel(a, RulesRel(g, depth, s), s))
    decreases depth, a, 1, 0
  {
    AlternativesExact(g, depth, a.concatenations, s, i);
  }

  lemma {:induction false} AlternativesExact(g: Grammar, depth: nat, cs: seq<Concatenation>, s: Bytes, i: nat)
    requires GrammarWellFormed(g) && (forall k :: 0 <= k < |cs| ==> ConcatenationWellFormed(cs[k]))
    requires i <= |s| && SolveAlternatives(g, depth, cs, s, i).Some?
    ensures Exact(SolveAlternatives(g, depth, cs, s, i).value, i, AlternativesRel(cs, RulesRel(g, depth, s), s))
    decreases depth, cs, 0, 0
  {
    if cs != [] {
      var front, last := cs[..|cs| - 1], cs[|cs| - 1];
      AlternativesExact(g, depth, front, s, i);
      ConcatenationExact(g, depth, last, s, i);
      forall j: nat {
        HasEndAppend(SolveAlternatives(g, depth, front, s, i).value, SolveConcatenation(g, depth, last, s, i).value, j);
      }
    }
  }

  lemma {:induction false} ConcatenationExact(g: Grammar, depth: nat, c: Concatenation, s: Bytes, i: nat)
    requires GrammarWellFormed(g) && ConcatenationWellFormed(c) && i <= |s| &&
             SolveConcatenation(g, depth, c, s, i).Some?
    ensures Exact(SolveConcatenation(g, depth, c, s, i).value, i, ConcatenationRel(c, RulesRel(g, depth, s), s))
    decreases depth, c, 1, 0
  {
    RepetitionsExact(g, depth, c.repetitions, s, i);
  }

  lemma {:induction false} RepetitionsExact(g: Grammar, depth: nat, rs: seq<Repetition>, s: Bytes, i: nat)
    requires GrammarWellFormed(g) && rs != [] && (forall k :: 0 <= k < |rs| ==> RepetitionWellFormed(rs[k]))
    requires i <= |s| && SolveRepetitions(g, depth, rs, s, i).Some?
    ensures Exact(SolveRepetitions(g, depth, rs, s, i).value, i, RepetitionsRel(rs, RulesRel(g, depth, s), s))
    decreases depth, rs, 0, 0
  {
    var env := RulesRel(g, depth, s);
    if |rs| == 1 {
      assert rs == [rs[0]];
      SingleRepetition(rs[0], env, s);
      RepetitionExact(g, depth, rs[0], s, i);
      var ps := SolveRepetition(g, depth, rs[0], s, i).value;
      SameEnds(ps, Wrapped(ps, i));
    } else {
      var front, last := rs[..|rs| - 1], rs[|rs| - 1];
      RepetitionsExact(g, depth, front, s, i);
      RepetitionsFrom(g, depth, front, s, i);
      var before := SolveRepetitions(g, depth, front, s, i).value;
      ExtensionsExact(g, depth, before, last, s, i);
      ExactCompose(SolveExtensions(g, depth, before, last, s, i).value, before, i,
                   RepetitionsRel(front, env, s), RepetitionRel(last, env, s));
    }
  }

  lemma {:induction false} ExtensionsExact(g: Grammar, depth: nat, before: seq<Path>, r: Repetition, s: Bytes, i: nat)
    requires GrammarWellFormed(g) && RepetitionWellFormed(r)
    requires i <= |s| && From(before, s, i) && SolveExtensions(g, depth, before, r, s, i).Some?
    ensures ExactAfter(SolveExtensions(g, depth, before, r, s, i).value, before,
                       RepetitionRel(r, RulesRel(g, depth, s), s))
    decreases depth, r, 4, |before|
  {
    if before != [] {
      var front, last := before[..|before| - 1], before[|before| - 1];
      ExtensionsExact(g, depth, front, r, s, i);
      RepetitionExact(g, depth, r, s, last.end);
      RepetitionFrom(g, depth, r, s, last.end);
      var ps := SolveRepetition(g, depth, r, s, last.end).value;
      SameEnds(ps, ExtendedAll(last, ps, i));
      FollowsLast(before, RepetitionRel(r, RulesRel(g, depth, s), s),
                  SolveExtensions(g, depth, front, r, s, i).value, ExtendedAll(last, ps, i));
    }
  }

  /** The number of iterations each entry stands for. */
  ghost predicate Powers(iterations: seq<seq<Path>>, i: nat, rel: Rel) {
    forall k :: 0 <= k < |iterations| ==> Exact(iterations[k], i, Power(rel, k + 1))
  }

  ghost predicate Dead(rel: Rel, i: nat, count: nat) {
    forall j: nat :: (i, j) !in Power(rel, count)
  }

  lemma {:induction false} DeadStaysDead(rel: Rel, i: nat, count: nat, count': nat)
    requires Dead(rel, i, count) && count <= count'
    ensures Dead(rel, i, count')
    decreases count'
  {
    if count < count' {
      DeadStaysDead(rel, i, count, count' - 1);
    }
  }

  lemma {:induction false} RepetitionExact(g: Grammar, depth: nat, r: Repetition, s: Bytes, i: nat)
    requires GrammarWellFormed(g) && RepetitionWellFormed(r) && i <= |s| && SolveRepetition(g, depth, r, s, i).Some?
    ensures Exact(SolveRepetition(g, depth, r, s, i).value, i, RepetitionRel(r, RulesRel(g, depth, s), s))
    decreases depth, r, 3, 0
  {
    var env := RulesRel(g, depth, s);
    var rel := ElementRel(r.element, env, s);
    PowerOne(rel);
    if !ShouldContinue(r, s, i, 0) {
      if !CouldMatch(r.element, s, i) {
        forall j: nat {
          PruningIsExact(r.element, env, s, i, j);
        }
        assert Dead(rel, i, 1);
      }
      CollectedExact(r, [], i, rel);
    } else {
      var first := SolveElement(g, depth, r.element, s, i).value;
      ElementExact(g, depth, r.element, s, i);
      ElementFrom(g, depth, r.element, s, i);
      IterationsExact(g, depth, r, s, [first], StepLimit(r, s), i);
      CollectedExact(r, SolveIterations(g, depth, r, s, [first], StepLimit(r, s)).value, i, rel);
    }
  }

  function Collected(r: Repetition, iterations: seq<seq<Path>>, i: nat): seq<Path> {
    var least := Max(1, r.min);
    (if r.min == 0 then [EmptyIteration(i)] else [])
    + (if least <= |iterations| then Flattened(iterations[least - 1..]) else [])
  }

  /** Where a collected path ends: at the start, or where a permitted number of iterations leads. */
  lemma CollectedEnds(r: Repetition, iterations: seq<seq<Path>>, i: nat, j: nat)
    ensures HasEnd(Collected(r, iterations, i), j) <==>
            || (r.min == 0 && j == i)
            || exists k :: Max(1, r.min) - 1 <= k < |iterations| && HasEnd(iterations[k], j)
  {
    var least := Max(1, r.min);
    var empty := if r.min == 0 then [EmptyIteration(i)] else [];
    var rest := if least <= |iterations| then Flattened(iterations[least - 1..]) else [];
    HasEndAppend(empty, rest, j);
    assert HasEnd(empty, j) <==> r.min == 0 && j == i by {
      assert r.min == 0 ==> empty[0].end == i;
    }
    if least <= |iterations| {
      var kept := iterations[least - 1..];
      FlattenedEnds(kept, j);
      if HasEnd(rest, j) {
        var k :| 0 <= k < |kept| && HasEnd(kept[k], j);
        assert kept[k] == iterations[least - 1 + k];
      }
      if k :| least - 1 <= k < |iterations| && HasEnd(iterations[k], j) {
        assert kept[k - (least - 1)] == iterations[k];
      }
    }
  }

  /** The iterations are those of the repetition, and there is nothing past them. */
  ghost predicate Complete(iterations: seq<seq<Path>>, r: Repetition, i: nat, rel: Rel) {
    && Powers(iterations, i, rel)
    && (r.max == INF || |iterations| <= r.max)
    && (r.max == |iterations| || Dead(rel, i, |iterations| + 1))
  }

  lemma CollectedSound(r: Repetition, iterations: seq<seq<Path>>, i: nat, rel: Rel, k: nat, j: nat)
    requires Complete(iterations, r, i, rel)
    requires Max(1, r.min) - 1 <= k < |iterations| && HasEnd(iterations[k], j)
    ensures (i, j) in Repeat(r.min, r.max, rel)
  {
    assert Exact(iterations[k], i, Power(rel, k + 1));
    assert Permits(r.min, r.max, k + 1) && (i, j) in Power(rel, k + 1);
  }

  lemma CollectedComplete(r: Repetition, iterations: seq<seq<Path>>, i: nat, rel: Rel, count: nat, j: nat)
    requires Complete(iterations, r, i, rel)
    requires Permits(r.min, r.max, count) && (i, j) in Power(rel, count)
    ensures (r.min == 0 && j == i) || (Max(1, r.min) <= count <= |iterations| && HasEnd(iterations[count - 1], j))
  {
    if count > |iterations| {
      DeadStaysDead(rel, i, |iterations| + 1, count);
    } else if count > 0 {
      assert Exact(iterations[count - 1], i, Power(rel, count));
    }
  }

  /** Collecting the permitted numbers of iterations gives exactly the repetition. */
  lemma CollectedExact(r: Repetition, iterations: seq<seq<Path>>, i: nat, rel: Rel)
    requires Complete(iterations, r, i, rel)
    ensures Exact(Collected(r, iterations, i), i, Repeat(r.min, r.max, rel))
  {
    forall j: nat
      ensures HasEnd(Collected(r, iterations, i), j) <==> (i, j) in Repeat(r.min, r.max, rel)
    {
      CollectedEnds(r, iterations, i, j);
      if r.min == 0 && j == i {
        assert Permits(r.min, r.max, 0) && (i, j) in Power(rel, 0);
      } else if k :| Max(1, r.min) - 1 <= k < |iterations| && HasEnd(iterations[k], j) {
        CollectedSound(r, iterations, i, rel, k, j);
      } else if IsRepeated(r.min, r.max, rel, (i, j)) {
        var count: nat :| Permits(r.min, r.max, count) && (i, j) in Power(rel, count);
        CollectedComplete(r, iterations, i, rel, count, j);
      }
    }
  }

  lemma PowersStep(iterations: seq<seq<Path>>, next: seq<Path>, i: nat, rel: Rel)
    requires iterations != [] && Powers(iterations, i, rel)
    requires ExactAfter(next, iterations[|iterations| - 1], rel)
    ensures Powers(iterations + [next], i, rel)
    ensures next == [] ==> Dead(rel, i, |iterations| + 1)
  {
    ExactCompose(next, iterations[|iterations| - 1], i, Power(rel, |iterations|), rel);
    if next == [] {
      assert forall j: nat :: !HasEnd(next, j);
    }
  }

  lemma {:induction false} IterationsExact(g: Grammar, depth: nat, r: Repetition, s: Bytes,
                                           iterations: seq<seq<Path>>, steps: nat, i: nat)
    requires GrammarWellFormed(g) && RepetitionWellFormed(r) && i <= |s|
    requires AllFrom(iterations, s, i) && Powers(iterations, i, ElementRel(r.element, RulesRel(g, depth, s), s))
    requires 0 < |iterations| && (r.max == INF || |iterations| <= r.max)
    requires SolveIterations(g, depth, r, s, iterations, steps).Some?
    ensures Complete(SolveIterations(g, depth, r, s, iterations, steps).value, r, i,
                     ElementRel(r.element, RulesRel(g, depth, s), s))
    decreases depth, r, 2, steps
  {
    if |iterations| != r.max {
      var last := iterations[|iterations| - 1];
      NextExact(g, depth, r, s, last, |iterations|, i);
      NextFrom(g, depth, r, s, last, |iterations|, i);
      var next := SolveNext(g, depth, r, s, last, |iterations|).value;
      PowersStep(iterations, next, i, ElementRel(r.element, RulesRel(g, depth, s), s));
      if next != [] {
        IterationsExact(g, depth, r, s, iterations + [next], steps - 1, i);
      }
    }
  }

  lemma {:induction false} NextExact(g: Grammar, depth: nat, r: Repetition, s: Bytes,
                                     before: seq<Path>, iteration: nat, i: nat)
    requires GrammarWellFormed(g) && RepetitionWellFormed(r) && i <= |s| && From(before, s, i)
    requires r.max == INF || iteration < r.max
    requires SolveNext(g, depth, r, s, before, iteration).Some?
    ensures ExactAfter(SolveNext(g, depth, r, s, before, iteration).value, before,
                       ElementRel(r.element, RulesRel(g, depth, s), s))
    decreases depth, r, 1, |before|
  {
    if before != [] {
      var env := RulesRel(g, depth, s);
      var rel := ElementRel(r.element, env, s);
      var front, last := before[..|before| - 1], before[|before| - 1];
      NextExact(g, depth, r, s, front, iteration, i);
      var done := SolveNext(g, depth, r, s, front, iteration).value;
      if !ShouldContinue(r, s, last.end, iteration) {
        forall j: nat {
          PruningIsExact(r.element, env, s, last.end, j);
        }
        FollowsLast(before, rel, done, []);
        assert done + [] == done;
      } else {
        ElementExact(g, depth, r.element, s, last.end);
        var ps := SolveElement(g, depth, r.element, s, last.end).value;
        SameEnds(ps, IteratedAll(last, ps));
        FollowsLast(before, rel, done, IteratedAll(last, ps));
      }
    }
  }
}
