/** Searching deeper never changes an answer, so an answer at any depth is
    about everything a rule derives. */
module SolverDepth {
  import opened Spans
  import opened Utf8
  import opened Wrappers
  import opened Abnf
  import opened Denotation
  import opened Solver
  import opened SolverExact

  lemma {:induction false} ElementDeeper(g: Grammar, depth: nat, deeper: nat, e: Element, s: Bytes, i: nat)
    requires depth <= deeper && SolveElement(g, depth, e, s, i).Some?
    ensures SolveElement(g, deeper, e, s, i) == SolveElement(g, depth, e, s, i)
    decreases depth, e, 0, 0
  {
    match e
    case Rulename(name) =>
      var rule := g.Lookup(name);
      if rule.Some? {
        AlternationDeeper(g, depth - 1, deeper - 1, rule.value.alternation, s, i);
      }
    case Group(a) => AlternationDeeper(g, depth, deeper, a, s, i);
    case Optional(a) => AlternationDeeper(g, depth, deeper, a, s, i);
    case List(_, _, _, a) => AlternationDeeper(g, depth, deeper, a, s, i);
    case _ =>
  }

  lemma {:induction false} AlternationDeeper(g: Grammar, depth: nat, deeper: nat, a: Alternation, s: Bytes, i: nat)
    requires depth <= deeper && SolveAlternation(g, depth, a, s, i).Some?
    ensures SolveAlternation(g, deeper, a, s, i) == SolveAlternation(g, depth, a, s, i)
    decreases depth, a, 1, 0
  {
    AlternativesDeeper(g, depth, deeper, a.concatenations, s, i);
  }

  lemma {:induction false} AlternativesDeeper(g: Grammar, depth: nat, deeper: nat, cs: seq<Concatenation>, s: Bytes,
                                              i: nat)
    requires depth <= deeper && SolveAlternatives(g, depth, cs, s, i).Some?
    ensures SolveAlternatives(g, deeper, cs, s, i) == SolveAlternatives(g, depth, cs, s, i)
    decreases depth, cs, 0, 0
  {
    if cs != [] {
      AlternativesDeeper(g, depth, deeper, cs[..|cs| - 1], s, i);
      ConcatenationDeeper(g, depth, deeper, cs[|cs| - 1], s, i);
    }
  }

  lemma {:induction false} ConcatenationDeeper(g: Grammar, depth: nat, deeper: nat, c: Concatenation, s: Bytes, i: nat)
    requires depth <= deeper && SolveConcatenation(g, depth, c, s, i).Some?
    ensures SolveConcatenation(g, deeper, c, s, i) == SolveConcatenation(g, depth, c, s, i)
    decreases depth, c, 1, 0
  {
    RepetitionsDeeper(g, depth, deeper, c.repetitions, s, i);
  }

  lemma {:induction false} RepetitionsDeeper(g: Grammar, depth: nat, deeper: nat, rs: seq<Repetition>, s: Bytes, i: nat)
    requires depth <= deeper && SolveRepetitions(g, depth, rs, s, i).Some?
    ensures SolveRepetitions(g, deeper, rs, s, i) == SolveRepetitions(g, depth, rs, s, i)
    decreases depth, rs, 0, 0
  {
    if |rs| == 1 {
      RepetitionDeeper(g, depth, deeper, rs[0], s, i);
    } else if |rs| > 1 {
      RepetitionsDeeper(g, depth, deeper, rs[..|rs| - 1], s, i);
      var before := SolveRepetitions(g, depth, rs[..|rs| - 1], s, i).value;
      ExtensionsDeeper(g, depth, deeper, before, rs[|rs| - 1], s, i);
    }
  }

  lemma {:induction false} ExtensionsDeeper(g: Grammar, depth: nat, deeper: nat, before: seq<Path>, r: Repetition,
                                            s: Bytes, i: nat)
    requires depth <= deeper && SolveExtensions(g, depth, before, r, s, i).Some?
    ensures SolveExtensions(g, deeper, before, r, s, i) == SolveExtensions(g, depth, before, r, s, i)
    decreases depth, r, 4, |before|
  {
    if before != [] {
      ExtensionsDeeper(g, depth, deeper, before[..|before| - 1], r, s, i);
      RepetitionDeeper(g, depth, deeper, r, s, before[|before| - 1].end);
    }
  }

  lemma {:induction false} RepetitionDeeper(g: Grammar, depth: nat, deeper: nat, r: Repetition, s: Bytes, i: nat)
    requires depth <= deeper && SolveRepetition(g, depth, r, s, i).Some?
    ensures SolveRepetition(g, deeper, r, s, i) == SolveRepetition(g, depth, r, s, i)
    decreases depth, r, 3, 0
  {
    if ShouldContinue(r, s, i, 0) {
      ElementDeeper(g, depth, deeper, r.element, s, i);
      IterationsDeeper(g, depth, deeper, r, s, [SolveElement(g, depth, r.element, s, i).value], StepLimit(r, s));
    }
  }

  lemma {:induction false} IterationsDeeper(g: Grammar, depth: nat, deeper: nat, r: Repetition, s: Bytes,
                                            iterations: seq<seq<Path>>, steps: nat)
    requires depth <= deeper && SolveIterations(g, depth, r, s, iterations, steps).Some?
    ensures SolveIterations(g, deeper, r, s, iterations, steps) == SolveIterations(g, depth, r, s, iterations, steps)
    decreases depth, r, 2, steps
  {
    if |iterations| != 0 && |iterations| != r.max {
      var last := iterations[|iterations| - 1];
      NextDeeper(g, depth, deeper, r, s, last, |iterations|);
      var next := SolveNext(g, depth, r, s, last, |iterations|).value;
      if next != [] {
        IterationsDeeper(g, depth, deeper, r, s, iterations + [next], steps - 1);
      }
    }
  }

  lemma {:induction false} NextDeeper(g: Grammar, depth: nat, deeper: nat, r: Repetition, s: Bytes,
                                      before: seq<Path>, iteration: nat)
    requires depth <= deeper && SolveNext(g, depth, r, s, before, iteration).Some?
    ensures SolveNext(g, deeper, r, s, before, iteration) == SolveNext(g, depth, r, s, before, iteration)
    decreases depth, r, 1, |before|
  {
    if before != [] {
      var last := before[|before| - 1];
      NextDeeper(g, depth, deeper, r, s, before[..|before| - 1], iteration);
      if ShouldContinue(r, s, last.end, iteration) {
        ElementDeeper(g, depth, deeper, r.element, s, last.end);
      }
    }
  }

  /** Soundness and completeness: if searching for a rule answers at any depth,
      the answer ends exactly where the rule derives something at all. */
  lemma RuleExact(g: Grammar, depth: nat, name: string, s: Bytes, i: nat)
    requires GrammarWellFormed(g) && i <= |s| && SolveElement(g, depth, Rulename(name), s, i).Some?
    ensures Exact(SolveElement(g, depth, Rulename(name), s, i).value, i, Language(g, name, s))
  {
    var e := Rulename(name);
    var ps := SolveElement(g, depth, e, s, i).value;
    forall j: nat
      ensures HasEnd(ps, j) <==> (i, j) in Language(g, name, s)
    {
      ElementExact(g, depth, e, s, i);
      assert HasEnd(ps, j) <==> (i, j) in RuleRel(g, depth, name, s);
      if d: nat :| (i, j) in RuleRel(g, d, name, s) {
        if d <= depth {
          RulesMonotone(g, d, depth, s);
          assert RulesRel(g, d, s)(name) <= RulesRel(g, depth, s)(name);
        } else {
          ElementDeeper(g, depth, d, e, s, i);
          ElementExact(g, d, e, s, i);
          assert HasEnd(ps, j) <==> (i, j) in RuleRel(g, d, name, s);
        }
      }
    }
  }
}
