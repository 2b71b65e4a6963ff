/** Exactly when an unbounded repetition runs dry (pkg/abnf/parse.go:175-200). */
module SolverLoops {
  import opened Spans
  import opened Utf8
  import opened Wrappers
  import opened Abnf
  import opened Denotation
  import opened Solver
  import opened SolverShape
  import opened SolverExact

  /** Some number of repetitions leads to an offset where one more repetition matches nothing. */
  ghost predicate Loops(rel: Rel, i: nat) {
    exists m: nat, count: nat :: (i, m) in Power(rel, count) && (m, m) in rel
  }

  /** Spans lie within the input and do not run backwards. */
  ghost predicate Inside(rel: Rel, length: nat) {
    forall p :: p in rel && p.0 <= length ==> p.0 <= p.1 <= length
  }

  lemma NotLooping(rel: Rel, i: nat, count: nat, m: nat)
    requires !Loops(rel, i) && (i, m) in Power(rel, count)
    ensures (m, m) !in rel
  {
  }

  lemma StepAdvances(rel: Rel, m: nat, j: nat, length: nat)
    requires Inside(rel, length) && m <= length && (m, j) in rel && (m, m) !in rel
    ensures m < j <= length
  {
    var p := (m, j);
    assert p in rel && p.0 <= length;
  }

  lemma LastStep(rel: Rel, i: nat, count: nat, j: nat) returns (m: nat)
    requires count > 0 && (i, j) in Power(rel, count)
    ensures (i, m) in Power(rel, count - 1) && (m, j) in rel
  {
    m :| (i, m) in Power(rel, count - 1) && (m, j) in rel;
  }

  lemma NoStep(rel: Rel, i: nat, j: nat)
    requires (i, j) in Power(rel, 0)
    ensures i == j
  {
  }

  lemma {:induction false} Advances(rel: Rel, i: nat, count: nat, j: nat, length: nat)
    requires Inside(rel, length) && i <= length && !Loops(rel, i) && (i, j) in Power(rel, count)
    ensures i + count <= j <= length
    decreases count
  {
    hide Power, Inside, Loops;
    if count == 0 {
      NoStep(rel, i, j);
    } else {
      var m := LastStep(rel, i, count, j);
      NotLooping(rel, i, count - 1, m);
      Advances(rel, i, count - 1, m, length);
      StepAdvances(rel, m, j, length);
    }
  }

  lemma {:induction false} StaysAlive(rel: Rel, i: nat, m: nat, count: nat, count': nat)
    requires (i, m) in Power(rel, count) && (m, m) in rel && count <= count'
    ensures (i, m) in Power(rel, count')
    decreases count'
  {
    if count < count' {
      StaysAlive(rel, i, m, count, count' - 1);
    }
  }

  /** Repetition stops having matches at some count exactly when it does not loop. */
  lemma RunsDryIff(rel: Rel, i: nat, length: nat)
    requires Inside(rel, length) && i <= length
    ensures (exists count: nat :: Dead(rel, i, count)) <==> !Loops(rel, i)
  {
    hide Power, Inside;
    if Loops(rel, i) {
      var m: nat, count: nat :| (i, m) in Power(rel, count) && (m, m) in rel;
      forall n: nat
        ensures !Dead(rel, i, n)
      {
        StaysAlive(rel, i, m, count, count + n);
        if Dead(rel, i, n) {
          DeadStaysDead(rel, i, n, count + n);
        }
      }
    } else {
      forall j: nat
        ensures (i, j) !in Power(rel, length + 1)
      {
        if (i, j) in Power(rel, length + 1) {
          Advances(rel, i, length + 1, j, length);
        }
      }
      assert Dead(rel, i, length + 1);
    }
  }

  /** Searching for the element gives an answer from every offset. */
  ghost predicate Answers(g: Grammar, depth: nat, e: Element, s: Bytes) {
    forall i: nat :: i <= |s| ==> SolveElement(g, depth, e, s, i).Some?
  }

  lemma AnsweredInside(g: Grammar, depth: nat, e: Element, s: Bytes)
    requires GrammarWellFormed(g) && WellFormed(e) && Answers(g, depth, e, s)
    ensures Inside(ElementRel(e, RulesRel(g, depth, s), s), |s|)
  {
    var rel := ElementRel(e, RulesRel(g, depth, s), s);
    forall p | p in rel && p.0 <= |s|
      ensures p.0 <= p.1 <= |s|
    {
      ElementExact(g, depth, e, s, p.0);
      ElementFrom(g, depth, e, s, p.0);
      var ps := SolveElement(g, depth, e, s, p.0).value;
      assert (p.0, p.1) in rel;
      assert HasEnd(ps, p.1);
    }
  }

  lemma {:induction false} NextAnswers(g: Grammar, depth: nat, r: Repetition, s: Bytes, before: seq<Path>,
                                       iteration: nat, i: nat)
    requires Answers(g, depth, r.element, s) && From(before, s, i)
    ensures SolveNext(g, depth, r, s, before, iteration).Some?
  {
    if before != [] {
      NextAnswers(g, depth, r, s, before[..|before| - 1], iteration, i);
    }
  }

  lemma NotTooMany(g: Grammar, depth: nat, r: Repetition, s: Bytes, iterations: seq<seq<Path>>, i: nat)
    requires GrammarWellFormed(g) && RepetitionWellFormed(r) && Answers(g, depth, r.element, s)
    requires i <= |s| && 0 < |iterations| && iterations[|iterations| - 1] != []
    requires Powers(iterations, i, ElementRel(r.element, RulesRel(g, depth, s), s))
    requires !Loops(ElementRel(r.element, RulesRel(g, depth, s), s), i)
    ensures |iterations| <= |s|
  {
    hide ElementRel, GrammarWellFormed, WellFormed;
    var rel := ElementRel(r.element, RulesRel(g, depth, s), s);
    var last := iterations[|iterations| - 1];
    assert HasEnd(last, last[0].end);
    assert (i, last[0].end) in Power(rel, |iterations|);
    AnsweredInside(g, depth, r.element, s);
    Advances(rel, i, |iterations|, last[0].end, |s|);
  }

  lemma {:induction false} IterationsAnswer(g: Grammar, depth: nat, r: Repetition, s: Bytes,
                                            iterations: seq<seq<Path>>, steps: nat, i: nat)
    requires GrammarWellFormed(g) && RepetitionWellFormed(r) && r.max == INF && Answers(g, depth, r.element, s)
    requires i <= |s| && 0 < |iterations| && |s| + 1 < steps + |iterations|
    requires AllFrom(iterations, s, i) && Powers(iterations, i, ElementRel(r.element, RulesRel(g, depth, s), s))
    requires |iterations| == 1 || iterations[|iterations| - 1] != []
    requires !Loops(ElementRel(r.element, RulesRel(g, depth, s), s), i)
    ensures SolveIterations(g, depth, r, s, iterations, steps).Some?
    decreases steps
  {
    hide ElementRel, SolveNext, Loops, GrammarWellFormed, WellFormed, Answers, HasEnd;
    var rel := ElementRel(r.element, RulesRel(g, depth, s), s);
    var last := iterations[|iterations| - 1];
    if last != [] {
      NotTooMany(g, depth, r, s, iterations, i);
    }
    NextAnswers(g, depth, r, s, last, |iterations|, i);
    NextExact(g, depth, r, s, last, |iterations|, i);
    NextFrom(g, depth, r, s, last, |iterations|, i);
    var next := SolveNext(g, depth, r, s, last, |iterations|).value;
    PowersStep(iterations, next, i, rel);
    if next != [] {
      IterationsAnswer(g, depth, r, s, iterations + [next], steps - 1, i);
    }
  }

  lemma AnswerRunsDry(g: Grammar, depth: nat, r: Repetition, s: Bytes, i: nat)
    requires GrammarWellFormed(g) && RepetitionWellFormed(r) && r.max == INF && i <= |s|
    requires SolveRepetition(g, depth, r, s, i).Some?
    ensures exists count: nat :: Dead(ElementRel(r.element, RulesRel(g, depth, s), s), i, count)
  {
    var rel := ElementRel(r.element, RulesRel(g, depth, s), s);
    PowerOne(rel);
    if !ShouldContinue(r, s, i, 0) {
      forall j: nat {
        PruningIsExact(r.element, RulesRel(g, depth, s), s, i, j);
      }
      assert Dead(rel, i, 1);
    } else {
      ElementExact(g, depth, r.element, s, i);
      ElementFrom(g, depth, r.element, s, i);
      var first := SolveElement(g, depth, r.element, s, i).value;
      IterationsExact(g, depth, r, s, [first], StepLimit(r, s), i);
      assert Dead(rel, i, |SolveIterations(g, depth, r, s, [first], StepLimit(r, s)).value| + 1);
    }
  }

  lemma LoopFreeAnswers(g: Grammar, depth: nat, r: Repetition, s: Bytes, i: nat)
    requires GrammarWellFormed(g) && RepetitionWellFormed(r) && r.max == INF && i <= |s|
    requires Answers(g, depth, r.element, s)
    requires !Loops(ElementRel(r.element, RulesRel(g, depth, s), s), i)
    ensures SolveRepetition(g, depth, r, s, i).Some?
  {
    if ShouldContinue(r, s, i, 0) {
      PowerOne(ElementRel(r.element, RulesRel(g, depth, s), s));
      ElementExact(g, depth, r.element, s, i);
      ElementFrom(g, depth, r.element, s, i);
      IterationsAnswer(g, depth, r, s, [SolveElement(g, depth, r.element, s, i).value], StepLimit(r, s), i);
    }
  }

  /** Given answers for its element, an unbounded repetition gives an answer from
      an offset exactly when some number of iterations has no match any more,
      which is exactly when no reachable offset lets the element match empty. */
  lemma UnboundedAnswersIff(g: Grammar, depth: nat, r: Repetition, s: Bytes, i: nat)
    requires GrammarWellFormed(g) && RepetitionWellFormed(r) && r.max == INF && i <= |s|
    requires Answers(g, depth, r.element, s)
    ensures SolveRepetition(g, depth, r, s, i).Some?
            <==> exists count: nat :: Dead(ElementRel(r.element, RulesRel(g, depth, s), s), i, count)
    ensures SolveRepetition(g, depth, r, s, i).Some? <==> !Loops(ElementRel(r.element, RulesRel(g, depth, s), s), i)
  {
    AnsweredInside(g, depth, r.element, s);
    RunsDryIff(ElementRel(r.element, RulesRel(g, depth, s), s), i, |s|);
    if SolveRepetition(g, depth, r, s, i).Some? {
      AnswerRunsDry(g, depth, r, s, i);
    } else if !Loops(ElementRel(r.element, RulesRel(g, depth, s), s), i) {
      LoopFreeAnswers(g, depth, r, s, i);
    }
  }
}
