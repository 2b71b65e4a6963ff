/** The paths a search finds: where they start and end, and how their parts line up. */
module SolverShape {
  import opened Spans
  import opened Utf8
  import opened Wrappers
  import opened Abnf
  import opened Denotation
  import opened Solver

  /** The parts of a path follow one another without gaps, the last one ends
      where the path does, and none starts before it. */
  predicate Shaped(p: Path) {
    && p.start <= p.end
    && Consecutive(p.subpaths)
    && (p.subpaths != [] ==> p.start <= p.subpaths[0].start && p.subpaths[|p.subpaths| - 1].end == p.end)
    && forall k :: 0 <= k < |p.subpaths| ==> Shaped(p.subpaths[k])
  }

  predicate Consecutive(ps: seq<Path>) {
    forall k :: 0 < k < |ps| ==> ps[k - 1].end == ps[k].start
  }

  /** Shaped paths from one offset, within the input. */
  predicate From(ps: seq<Path>, s: Bytes, i: nat) {
    forall k :: 0 <= k < |ps| ==> ps[k].start == i && ps[k].end <= |s| && Shaped(ps[k])
  }

  predicate AllFrom(iterations: seq<seq<Path>>, s: Bytes, i: nat) {
    forall k :: 0 <= k < |iterations| ==> From(iterations[k], s, i)
  }

  lemma {:induction false} FlattenedFrom(iterations: seq<seq<Path>>, s: Bytes, i: nat)
    requires AllFrom(iterations, s, i)
    ensures From(Flattened(iterations), s, i)
  {
    if iterations != [] {
      FlattenedFrom(iterations[..|iterations| - 1], s, i);
    }
  }

  lemma ExtendedShaped(before: Path, p: Path, i: nat)
    requires Shaped(before) && Shaped(p) && before.start == i && p.start == before.end
    ensures Shaped(Extended(before, p, i)) && Extended(before, p, i).start == i && Extended(before, p, i).end == p.end
  {
    if !p.IsEmpty() {
      var kept := Kept(before.subpaths);
      var e := Extended(before, p, i);
      assert kept != [] ==> kept[|kept| - 1].end == before.end;
      assert Consecutive(e.subpaths);
    }
  }

  lemma IteratedShaped(before: Path, p: Path)
    requires Shaped(before) && Shaped(p) && p.start == before.end
    ensures Shaped(Iterated(before, p))
  {
    var parts := before.subpaths + [p];
    assert Iterated(before, p).subpaths == parts;
    forall k | 0 <= k < |parts|
      ensures Shaped(parts[k]) && (k > 0 ==> parts[k - 1].end == parts[k].start)
    {
      assert parts[k] == if k < |before.subpaths| then before.subpaths[k] else p;
    }
  }

  lemma LeafFrom(s: Bytes, i: nat, end: nat)
    requires i <= end <= |s|
    ensures From([Leaf(i, end)], s, i)
  {
  }

  lemma LeafCharVal(sensitive: bool, value: string, s: Bytes, i: nat)
    ensures From(CharValPaths(sensitive, value, s, i), s, i)
  {
  }

  lemma NumValFrom(base: string, status: NumValStatus, values: seq<string>, s: Bytes, i: nat)
    requires i <= |s|
    ensures From(NumValPaths(base, status, values, s, i), s, i)
  {
    var ps := NumValPaths(base, status, values, s, i);
    if ps != [] {
      LeafFrom(s, i, ps[0].end);
    }
  }

  lemma {:induction false} ElementFrom(g: Grammar, depth: nat, e: Element, s: Bytes, i: nat)
    requires i <= |s| && SolveElement(g, depth, e, s, i).Some?
    ensures From(SolveElement(g, depth, e, s, i).value, s, i)
    decreases depth, e, 0, 0
  {
    match e
    case Rulename(name) =>
      var rule := g.Lookup(name);
      if rule.Some? {
        AlternationFrom(g, depth - 1, rule.value.alternation, s, i);
      }
    case Group(a) => AlternationFrom(g, depth, a, s, i);
    case Optional(a) => AlternationFrom(g, depth, a, s, i);
    case List(_, _, _, a) => AlternationFrom(g, depth, a, s, i);
    case CharVal(_, value) => LeafCharVal(e.sensitive, value, s, i);
    case NumVal(base, status, values) => NumValFrom(base, status, values, s, i);
    case ProseVal(_) =>
  }

  /** Every path found for an alternation starts where the search did, ends
      within the input, and has its parts consecutive and ending where it does. */
  lemma {:induction false} AlternationFrom(g: Grammar, depth: nat, a: Alternation, s: Bytes, i: nat)
    requires i <= |s| && SolveAlternation(g, depth, a, s, i).Some?
    ensures From(SolveAlternation(g, depth, a, s, i).value, s, i)
    decreases depth, a, 1, 0
  {
    AlternativesFrom(g, depth, a.concatenations, s, i);
  }

  lemma {:induction false} AlternativesFrom(g: Grammar, depth: nat, cs: seq<Concatenation>, s: Bytes, i: nat)
    requires i <= |s| && SolveAlternatives(g, depth, cs, s, i).Some?
    ensures From(SolveAlternatives(g, depth, cs, s, i).value, s, i)
    decreases depth, cs, 0, 0
  {
    if cs != [] {
      AlternativesFrom(g, depth, cs[..|cs| - 1], s, i);
      ConcatenationFrom(g, depth, cs[|cs| - 1], s, i);
    }
  }

  lemma {:induction false} ConcatenationFrom(g: Grammar, depth: nat, c: Concatenation, s: Bytes, i: nat)
    requires i <= |s| && SolveConcatenation(g, depth, c, s, i).Some?
    ensures From(SolveConcatenation(g, depth, c, s, i).value, s, i)
    decreases depth, c, 1, 0
  {
    RepetitionsFrom(g, depth, c.repetitions, s, i);
  }

  lemma {:induction false} RepetitionsFrom(g: Grammar, depth: nat, rs: seq<Repetition>, s: Bytes, i: nat)
    requires i <= |s| && SolveRepetitions(g, depth, rs, s, i).Some?
    ensures From(SolveRepetitions(g, depth, rs, s, i).value, s, i)
    decreases depth, rs, 0, 0
  {
    if |rs| == 1 {
      RepetitionFrom(g, depth, rs[0], s, i);
    } else if |rs| > 1 {
      RepetitionsFrom(g, depth, rs[..|rs| - 1], s, i);
      ExtensionsFrom(g, depth, SolveRepetitions(g, depth, rs[..|rs| - 1], s, i).value, rs[|rs| - 1], s, i);
    }
  }

  lemma {:induction false} ExtensionsFrom(g: Grammar, depth: nat, before: seq<Path>, r: Repetition, s: Bytes, i: nat)
    requires i <= |s| && From(before, s, i) && SolveExtensions(g, depth, before, r, s, i).Some?
    ensures From(SolveExtensions(g, depth, before, r, s, i).value, s, i)
    decreases depth, r, 4, |before|
  {
    if before != [] {
      var last := before[|before| - 1];
      ExtensionsFrom(g, depth, before[..|before| - 1], r, s, i);
      RepetitionFrom(g, depth, r, s, last.end);
      var ps := SolveRepetition(g, depth, r, s, last.end).value;
      forall k | 0 <= k < |ps|
        ensures Shaped(ExtendedAll(last, ps, i)[k])
      {
        ExtendedShaped(last, ps[k], i);
      }
    }
  }

  lemma {:induction false} RepetitionFrom(g: Grammar, depth: nat, r: Repetition, s: Bytes, i: nat)
    requires i <= |s| && SolveRepetition(g, depth, r, s, i).Some?
    ensures From(SolveRepetition(g, depth, r, s, i).value, s, i)
    decreases depth, r, 3, 0
  {
    if ShouldContinue(r, s, i, 0) {
      var first := SolveElement(g, depth, r.element, s, i).value;
      ElementFrom(g, depth, r.element, s, i);
      IterationsFrom(g, depth, r, s, [first], StepLimit(r, s), i);
      var iterations := SolveIterations(g, depth, r, s, [first], StepLimit(r, s)).value;
      var least := Max(1, r.min);
      if least <= |iterations| {
        FlattenedFrom(iterations[least - 1..], s, i);
      }
    }
  }

  lemma {:induction false} IterationsFrom(g: Grammar, depth: nat, r: Repetition, s: Bytes,
                                          iterations: seq<seq<Path>>, steps: nat, i: nat)
    requires i <= |s| && AllFrom(iterations, s, i)
    requires SolveIterations(g, depth, r, s, iterations, steps).Some?
    ensures AllFrom(SolveIterations(g, depth, r, s, iterations, steps).value, s, i)
    decreases depth, r, 2, steps
  {
    if |iterations| != 0 && |iterations| != r.max {
      NextFrom(g, depth, r, s, iterations[|iterations| - 1], |iterations|, i);
      var next := SolveNext(g, depth, r, s, iterations[|iterations| - 1], |iterations|).value;
      if next != [] {
        IterationsFrom(g, depth, r, s, iterations + [next], steps - 1, i);
      }
    }
  }

  lemma {:induction false} NextFrom(g: Grammar, depth: nat, r: Repetition, s: Bytes,
                                    before: seq<Path>, iteration: nat, i: nat)
    requires i <= |s| && From(before, s, i) && SolveNext(g, depth, r, s, before, iteration).Some?
    ensures From(SolveNext(g, depth, r, s, before, iteration).value, s, i)
    decreases depth, r, 1, |before|
  {
    if before != [] {
      var last := before[|before| - 1];
      NextFrom(g, depth, r, s, before[..|before| - 1], iteration, i);
      if ShouldContinue(r, s, last.end, iteration) {
        ElementFrom(g, depth, r.element, s, last.end);
        var ps := SolveElement(g, depth, r.element, s, last.end).value;
        forall k | 0 <= k < |ps|
          ensures Shaped(IteratedAll(last, ps)[k])
        {
          IteratedShaped(last, ps[k]);
        }
      }
    }
  }
}
