/** When the search terminates: guarded grammars, which recurse to the left
    only through ever lower ranked rules and repeat without bound only what
    cannot match empty. */
module SolverGuard {
  import opened Spans
  import opened Utf8
  import opened Wrappers
  import opened Abnf
  import opened Denotation
  import opened Solver
  import opened SolverShape
  import opened SolverExact

  /** Which rules may match empty, and a rank below `ranks` for every rule, by
      lowercase name. */
  datatype Guard = Guard(nullable: set<string>, rank: map<string, nat>, ranks: nat)

  predicate MayBeEmpty(guard: Guard, e: Element)
    decreases e, 0
  {
    match e
    case Rulename(name) => Lower(name) in guard.nullable
    case Group(a) => AlternationMayBeEmpty(guard, a)
    case Optional(_) => true
    case CharVal(_, value) => value == ""
    case NumVal(_, _, _) => false
    case List(_, _, _, expansion) => AlternationMayBeEmpty(guard, expansion)
    case ProseVal(_) => false
  }

  predicate AlternationMayBeEmpty(guard: Guard, a: Alternation)
    decreases a, 1
  {
    AlternativesMayBeEmpty(guard, a.concatenations)
  }

  predicate AlternativesMayBeEmpty(guard: Guard, cs: seq<Concatenation>)
    decreases cs, 0
  {
    cs != [] && (AlternativesMayBeEmpty(guard, cs[..|cs| - 1]) || ConcatenationMayBeEmpty(guard, cs[|cs| - 1]))
  }

  predicate ConcatenationMayBeEmpty(guard: Guard, c: Concatenation)
    decreases c, 1
  {
    RepetitionsMayBeEmpty(guard, c.repetitions)
  }

  predicate RepetitionsMayBeEmpty(guard: Guard, rs: seq<Repetition>)
    decreases rs, 0
  {
    rs == [] || (RepetitionsMayBeEmpty(guard, rs[..|rs| - 1]) && RepetitionMayBeEmpty(guard, rs[|rs| - 1]))
  }

  predicate RepetitionMayBeEmpty(guard: Guard, r: Repetition)
    decreases r, 1
  {
    r.min == 0 || MayBeEmpty(guard, r.element)
  }

  /** Rules that can be entered before anything is matched rank below `bound`;
      an unbounded repetition repeats what cannot match empty. */
  predicate Guarded(g: Grammar, guard: Guard, bound: nat, e: Element)
    decreases e, 0
  {
    match e
    case Rulename(name) =>
      g.Lookup(name).Some? ==> Lower(name) in guard.rank && guard.rank[Lower(name)] < bound
    case Group(a) => AlternationGuarded(g, guard, bound, a)
    case Optional(a) => AlternationGuarded(g, guard, bound, a)
    case List(_, _, _, expansion) => AlternationGuarded(g, guard, bound, expansion)
    case _ => true
  }

  predicate AlternationGuarded(g: Grammar, guard: Guard, bound: nat, a: Alternation)
    decreases a, 1
  {
    AlternativesGuarded(g, guard, bound, a.concatenations)
  }

  predicate AlternativesGuarded(g: Grammar, guard: Guard, bound: nat, cs: seq<Concatenation>)
    decreases cs, 0
  {
    cs == []
    || (AlternativesGuarded(g, guard, bound, cs[..|cs| - 1]) && ConcatenationGuarded(g, guard, bound, cs[|cs| - 1]))
  }

  predicate ConcatenationGuarded(g: Grammar, guard: Guard, bound: nat, c: Concatenation)
    decreases c, 1
  {
    RepetitionsGuarded(g, guard, bound, c.repetitions)
  }

  predicate RepetitionsGuarded(g: Grammar, guard: Guard, bound: nat, rs: seq<Repetition>)
    decreases rs, 0
  {
    rs == []
    || (&& RepetitionsGuarded(g, guard, bound, rs[..|rs| - 1])
        && RepetitionGuarded(g, guard, if RepetitionsMayBeEmpty(guard, rs[..|rs| - 1]) then bound else guard.ranks,
                             rs[|rs| - 1]))
  }

  predicate RepetitionGuarded(g: Grammar, guard: Guard, bound: nat, r: Repetition)
    decreases r, 1
  {
    Guarded(g, guard, bound, r.element) && (r.max == INF ==> !MayBeEmpty(guard, r.element))
  }

  predicate RuleGuarded(g: Grammar, guard: Guard, rule: Rule) {
    var key := Lower(rule.name);
    && key in guard.rank
    && guard.rank[key] < guard.ranks
    && (AlternationMayBeEmpty(guard, rule.alternation) ==> key in guard.nullable)
    && AlternationGuarded(g, guard, guard.rank[key], rule.alternation)
  }

  predicate RulesGuarded(g: Grammar, guard: Guard, rules: seq<Rule>) {
    forall k :: 0 <= k < |rules| ==> RuleGuarded(g, guard, rules[k])
  }

  predicate GrammarGuarded(g: Grammar, guard: Guard) {
    RulesGuarded(g, guard, g.rules) && RulesGuarded(g, guard, g.coreRules)
  }

  lemma LookupInGuarded(g: Grammar, guard: Guard, rules: seq<Rule>, key: string)
    requires RulesGuarded(g, guard, rules) && LookupIn(rules, key).Some?
    ensures RuleGuarded(g, guard, LookupIn(rules, key).value) && Lower(LookupIn(rules, key).value.name) == key
  {
    if Lower(rules[|rules| - 1].name) != key {
      LookupInGuarded(g, guard, rules[..|rules| - 1], key);
    }
  }

  lemma LookupGuarded(g: Grammar, guard: Guard, name: string)
    requires GrammarGuarded(g, guard) && g.Lookup(name).Some?
    ensures RuleGuarded(g, guard, g.Lookup(name).value) && Lower(g.Lookup(name).value.name) == Lower(name)
  {
    if LookupIn(g.rules, Lower(name)).Some? {
      LookupInGuarded(g, guard, g.rules, Lower(name));
    } else {
      LookupInGuarded(g, guard, g.coreRules, Lower(name));
    }
  }

  // ----- a higher bound guards less -----

  lemma {:induction false} GuardedHigher(g: Grammar, guard: Guard, bound: nat, higher: nat, e: Element)
    requires bound <= higher <= guard.ranks && Guarded(g, guard, bound, e)
    ensures Guarded(g, guard, higher, e)
    decreases e, 0
  {
    match e
    case Group(a) => AlternativesGuardedHigher(g, guard, bound, higher, a.concatenations);
    case Optional(a) => AlternativesGuardedHigher(g, guard, bound, higher, a.concatenations);
    case List(_, _, _, a) => AlternativesGuardedHigher(g, guard, bound, higher, a.concatenations);
    case _ =>
  }

  lemma {:induction false} AlternativesGuardedHigher(g: Grammar, guard: Guard, bound: nat, higher: nat,
                                                     cs: seq<Concatenation>)
    requires bound <= higher <= guard.ranks && AlternativesGuarded(g, guard, bound, cs)
    ensures AlternativesGuarded(g, guard, higher, cs)
    decreases cs, 0
  {
    if cs != [] {
      AlternativesGuardedHigher(g, guard, bound, higher, cs[..|cs| - 1]);
      RepetitionsGuardedHigher(g, guard, bound, higher, cs[|cs| - 1].repetitions);
    }
  }

  lemma {:induction false} RepetitionsGuardedHigher(g: Grammar, guard: Guard, bound: nat, higher: nat,
                                                    rs: seq<Repetition>)
    requires bound <= higher <= guard.ranks && RepetitionsGuarded(g, guard, bound, rs)
    ensures RepetitionsGuarded(g, guard, higher, rs)
    decreases rs, 0
  {
    if rs != [] {
      RepetitionsGuardedHigher(g, guard, bound, higher, rs[..|rs| - 1]);
      if RepetitionsMayBeEmpty(guard, rs[..|rs| - 1]) {
        RepetitionGuardedHigher(g, guard, bound, higher, rs[|rs| - 1]);
      }
    }
  }

  lemma {:induction false} RepetitionGuardedHigher(g: Grammar, guard: Guard, bound: nat, higher: nat, r: Repetition)
    requires bound <= higher <= guard.ranks && RepetitionGuarded(g, guard, bound, r)
    ensures RepetitionGuarded(g, guard, higher, r)
    decreases r, 1
  {
    GuardedHigher(g, guard, bound, higher, r.element);
  }

  // ----- what cannot match empty -----

  ghost predicate Forward(rel: Rel) {
    forall p :: p in rel ==> p.0 <= p.1
  }

  /** Nothing but what may match empty matches empty. */
  ghost predicate Truthful(rel: Rel, mayBeEmpty: bool) {
    Forward(rel) && (!mayBeEmpty ==> forall p :: p in rel ==> p.0 < p.1)
  }

  ghost predicate EnvironmentTruthful(guard: Guard, env: Environment) {
    forall name :: Truthful(env(name), Lower(name) in guard.nullable)
  }

  lemma ComposeTruthful(a: Rel, b: Rel, aMayBeEmpty: bool, bMayBeEmpty: bool)
    requires Truthful(a, aMayBeEmpty) && Truthful(b, bMayBeEmpty)
    ensures Truthful(Compose(a, b), aMayBeEmpty && bMayBeEmpty)
  {
  }

  lemma {:induction false} PowerTruthful(rel: Rel, count: nat, mayBeEmpty: bool)
    requires Truthful(rel, mayBeEmpty)
    ensures Truthful(Power(rel, count), count == 0 || mayBeEmpty)
  {
    if count > 0 {
      PowerTruthful(rel, count - 1, mayBeEmpty);
      ComposeTruthful(Power(rel, count - 1), rel, count - 1 == 0 || mayBeEmpty, mayBeEmpty);
    }
  }

  lemma RepeatTruthful(min: nat, max: Bound, rel: Rel, mayBeEmpty: bool)
    requires Truthful(rel, mayBeEmpty)
    ensures Truthful(Repeat(min, max, rel), min == 0 || mayBeEmpty)
  {
    forall p | IsRepeated(min, max, rel, p)
      ensures p.0 <= p.1 && (min != 0 && !mayBeEmpty ==> p.0 < p.1)
    {
      var count: nat :| Permits(min, max, count) && p in Power(rel, count);
      PowerTruthful(rel, count, mayBeEmpty);
    }
  }

  lemma {:induction false} ElementTruthful(guard: Guard, e: Element, env: Environment, s: Bytes)
    requires WellFormed(e) && EnvironmentTruthful(guard, env)
    ensures Truthful(ElementRel(e, env, s), MayBeEmpty(guard, e))
    decreases e, 0
  {
    match e
    case Group(a) => AlternationTruthful(guard, a, env, s);
    case Optional(a) =>
      AlternationTruthful(guard, a, env, s);
      RepeatTruthful(0, 1, AlternationRel(a, env, s), AlternationMayBeEmpty(guard, a));
    case List(_, _, _, a) => AlternationTruthful(guard, a, env, s);
    case NumVal(base, status, values) =>
      EncodeRunesNonempty(Runes(values, base).value);
      if status == Range {
        forall p | p in NumValRel(base, status, values, s)
          ensures p.0 < p.1
        {
          EncodeDecoded(s[p.0..]);
        }
      }
    case _ =>
  }

  lemma {:induction false} AlternationTruthful(guard: Guard, a: Alternation, env: Environment, s: Bytes)
    requires AlternationWellFormed(a) && EnvironmentTruthful(guard, env)
    ensures Truthful(AlternationRel(a, env, s), AlternationMayBeEmpty(guard, a))
    decreases a, 1
  {
    AlternativesTruthful(guard, a.concatenations, env, s);
  }

  lemma {:induction false} AlternativesTruthful(guard: Guard, cs: seq<Concatenation>, env: Environment, s: Bytes)
    requires (forall k :: 0 <= k < |cs| ==> ConcatenationWellFormed(cs[k])) && EnvironmentTruthful(guard, env)
    ensures Truthful(AlternativesRel(cs, env, s), AlternativesMayBeEmpty(guard, cs))
    decreases cs, 0
  {
    if cs != [] {
      AlternativesTruthful(guard, cs[..|cs| - 1], env, s);
      ConcatenationTruthful(guard, cs[|cs| - 1], env, s);
    }
  }

  lemma {:induction false} ConcatenationTruthful(guard: Guard, c: Concatenation, env: Environment, s: Bytes)
    requires ConcatenationWellFormed(c) && EnvironmentTruthful(guard, env)
    ensures Truthful(ConcatenationRel(c, env, s), ConcatenationMayBeEmpty(guard, c))
    decreases c, 1
  {
    RepetitionsTruthful(guard, c.repetitions, env, s);
  }

  lemma {:induction false} RepetitionsTruthful(guard: Guard, rs: seq<Repetition>, env: Environment, s: Bytes)
    requires (forall k :: 0 <= k < |rs| ==> RepetitionWellFormed(rs[k])) && EnvironmentTruthful(guard, env)
    ensures Truthful(RepetitionsRel(rs, env, s), RepetitionsMayBeEmpty(guard, rs))
    decreases rs, 0
  {
    if rs != [] {
      var front, last := rs[..|rs| - 1], rs[|rs| - 1];
      RepetitionsTruthful(guard, front, env, s);
      RepetitionTruthful(guard, last, env, s);
      ComposeTruthful(RepetitionsRel(front, env, s), RepetitionRel(last, env, s),
                      RepetitionsMayBeEmpty(guard, front), RepetitionMayBeEmpty(guard, last));
    }
  }

  lemma {:induction false} RepetitionTruthful(guard: Guard, r: Repetition, env: Environment, s: Bytes)
    requires RepetitionWellFormed(r) && EnvironmentTruthful(guard, env)
    ensures Truthful(RepetitionRel(r, env, s), RepetitionMayBeEmpty(guard, r))
    decreases r, 1
  {
    ElementTruthful(guard, r.element, env, s);
    RepeatTruthful(r.min, r.max, ElementRel(r.element, env, s), MayBeEmpty(guard, r.element));
  }

  lemma {:induction false} RulesTruthful(g: Grammar, guard: Guard, depth: nat, s: Bytes)
    requires GrammarWellFormed(g) && GrammarGuarded(g, guard)
    ensures EnvironmentTruthful(guard, RulesRel(g, depth, s))
  {
    forall name
      ensures Truthful(RulesRel(g, depth, s)(name), Lower(name) in guard.nullable)
    {
      if depth > 0 && g.Lookup(name).Some? {
        LookupWellFormed(g, name);
        LookupGuarded(g, guard, name);
        RulesTruthful(g, guard, depth - 1, s);
        AlternationTruthful(guard, g.Lookup(name).value.alternation, RulesRel(g, depth - 1, s), s);
      }
    }
  }

  // ----- termination -----

  /** How deep a search from i can go, with rules below the bound entered first. */
  function Need(guard: Guard, s: Bytes, i: nat, bound: nat): nat
    requires i <= |s|
  {
    (|s| - i) * guard.ranks + bound
  }

  lemma NeedLater(guard: Guard, s: Bytes, i: nat, later: nat, bound: nat)
    requires i < later <= |s|
    ensures Need(guard, s, later, guard.ranks) <= Need(guard, s, i, bound)
  {
    assert (|s| - later) * guard.ranks + guard.ranks == (|s| - later + 1) * guard.ranks;
    MultiplyMonotone(|s| - later + 1, |s| - i, guard.ranks);
  }

  lemma NeedRule(guard: Guard, s: Bytes, i: nat, bound: nat, rank: nat)
    requires i <= |s| && rank < bound
    ensures Need(guard, s, i, rank) + 1 <= Need(guard, s, i, bound)
  {
  }

  lemma MultiplyMonotone(a: nat, b: nat, c: nat)
    requires a <= b
    ensures a * c <= b * c
  {
  }

  lemma {:induction false} ElementTerminates(g: Grammar, guard: Guard, depth: nat, bound: nat, e: Element, s: Bytes,
                                             i: nat)
    requires GrammarWellFormed(g) && GrammarGuarded(g, guard) && WellFormed(e) && Guarded(g, guard, bound, e)
    requires bound <= guard.ranks && i <= |s| && Need(guard, s, i, bound) <= depth
    ensures SolveElement(g, depth, e, s, i).Some?
    decreases depth, e, 0, 0
  {
    match e
    case Rulename(name) =>
      var rule := g.Lookup(name);
      if rule.Some? {
        LookupWellFormed(g, name);
        LookupGuarded(g, guard, name);
        NeedRule(guard, s, i, bound, guard.rank[Lower(name)]);
        AlternationTerminates(g, guard, depth - 1, guard.rank[Lower(name)], rule.value.alternation, s, i);
      }
    case Group(a) => AlternationTerminates(g, guard, depth, bound, a, s, i);
    case Optional(a) => AlternationTerminates(g, guard, depth, bound, a, s, i);
    case List(_, _, _, a) => AlternationTerminates(g, guard, depth, bound, a, s, i);
    case _ =>
  }

  lemma {:induction false} AlternationTerminates(g: Grammar, guard: Guard, depth: nat, bound: nat, a: Alternation,
                                                 s: Bytes, i: nat)
    requires GrammarWellFormed(g) && GrammarGuarded(g, guard) && AlternationWellFormed(a) &&
             AlternationGuarded(g, guard, bound, a)
    requires bound <= guard.ranks && i <= |s| && Need(guard, s, i, bound) <= depth
    ensures SolveAlternation(g, depth, a, s, i).Some?
    decreases depth, a, 1, 0
  {
    AlternativesTerminate(g, guard, depth, bound, a.concatenations, s, i);
  }

  lemma {:induction false} AlternativesTerminate(g: Grammar, guard: Guard, depth: nat, bound: nat,
                                                 cs: seq<Concatenation>, s: Bytes, i: nat)
    requires GrammarWellFormed(g) && GrammarGuarded(g, guard)
    requires (forall k :: 0 <= k < |cs| ==> ConcatenationWellFormed(cs[k])) && AlternativesGuarded(g, guard, bound, cs)
    requires bound <= guard.ranks && i <= |s| && Need(guard, s, i, bound) <= depth
    ensures SolveAlternatives(g, depth, cs, s, i).Some?
    decreases depth, cs, 0, 0
  {
    if cs != [] {
      AlternativesTerminate(g, guard, depth, bound, cs[..|cs| - 1], s, i);
      ConcatenationTerminates(g, guard, depth, bound, cs[|cs| - 1], s, i);
    }
  }

  lemma {:induction false} ConcatenationTerminates(g: Grammar, guard: Guard, depth: nat, bound: nat, c: Concatenation,
                                                   s: Bytes, i: nat)
    requires GrammarWellFormed(g) && GrammarGuarded(g, guard) && ConcatenationWellFormed(c) &&
             ConcatenationGuarded(g, guard, bound, c)
    requires bound <= guard.ranks && i <= |s| && Need(guard, s, i, bound) <= depth
    ensures SolveConcatenation(g, depth, c, s, i).Some?
    decreases depth, c, 1, 0
  {
    RepetitionsTerminate(g, guard, depth, bound, c.repetitions, s, i);
  }

  lemma {:induction false} RepetitionsTerminate(g: Grammar, guard: Guard, depth: nat, bound: nat, rs: seq<Repetition>,
                                                s: Bytes, i: nat)
    requires GrammarWellFormed(g) && GrammarGuarded(g, guard)
    requires rs != [] && (forall k :: 0 <= k < |rs| ==> RepetitionWellFormed(rs[k])) &&
             RepetitionsGuarded(g, guard, bound, rs)
    requires bound <= guard.ranks && i <= |s| && Need(guard, s, i, bound) <= depth
    ensures SolveRepetitions(g, depth, rs, s, i).Some?
    decreases depth, rs, 0, 0
  {
    var front, last := rs[..|rs| - 1], rs[|rs| - 1];
    if |rs| == 1 {
      assert RepetitionsMayBeEmpty(guard, front);
      RepetitionTerminates(g, guard, depth, bound, last, s, i);
    } else {
      RepetitionsTerminate(g, guard, depth, bound, front, s, i);
      RepetitionsFrom(g, depth, front, s, i);
      RepetitionsExact(g, depth, front, s, i);
      RulesTruthful(g, guard, depth, s);
      RepetitionsTruthful(guard, front, RulesRel(g, depth, s), s);
      var before := SolveRepetitions(g, depth, front, s, i).value;
      var bound' := if RepetitionsMayBeEmpty(guard, front) then bound else guard.ranks;
      forall k | 0 <= k < |before|
        ensures before[k].end == i ==> bound' == bound
      {
        assert HasEnd(before, before[k].end);
        assert (i, before[k].end) in RepetitionsRel(front, RulesRel(g, depth, s), s);
      }
      ExtensionsTerminate(g, guard, depth, bound, bound', before, last, s, i);
    }
  }

  /** Paths that moved on need the repetition guarded by any rank, paths that did not by the bound. */
  lemma {:induction false} ExtensionsTerminate(g: Grammar, guard: Guard, depth: nat, bound: nat, bound': nat,
                                               before: seq<Path>, r: Repetition, s: Bytes, i: nat)
    requires GrammarWellFormed(g) && GrammarGuarded(g, guard) && RepetitionWellFormed(r)
    requires bound <= bound' <= guard.ranks && RepetitionGuarded(g, guard, bound', r)
    requires i <= |s| && Need(guard, s, i, bound) <= depth && From(before, s, i)
    requires forall k :: 0 <= k < |before| && before[k].end == i ==> bound' == bound
    ensures SolveExtensions(g, depth, before, r, s, i).Some?
    decreases depth, r, 4, |before|
  {
    if before != [] {
      var last := before[|before| - 1];
      ExtensionsTerminate(g, guard, depth, bound, bound', before[..|before| - 1], r, s, i);
      if last.end == i {
        RepetitionTerminates(g, guard, depth, bound, r, s, i);
      } else {
        RepetitionGuardedHigher(g, guard, bound', guard.ranks, r);
        NeedLater(guard, s, i, last.end, bound);
        RepetitionTerminates(g, guard, depth, guard.ranks, r, s, last.end);
      }
    }
  }

  lemma {:induction false} RepetitionTerminates(g: Grammar, guard: Guard, depth: nat, bound: nat, r: Repetition,
                                                s: Bytes, i: nat)
    requires GrammarWellFormed(g) && GrammarGuarded(g, guard) && RepetitionWellFormed(r) &&
             RepetitionGuarded(g, guard, bound, r)
    requires bound <= guard.ranks && i <= |s| && Need(guard, s, i, bound) <= depth
    ensures SolveRepetition(g, depth, r, s, i).Some?
    decreases depth, r, 3, 0
  {
    if ShouldContinue(r, s, i, 0) {
      ElementTerminates(g, guard, depth, bound, r.element, s, i);
      ElementFrom(g, depth, r.element, s, i);
      var first := SolveElement(g, depth, r.element, s, i).value;
      if r.max == INF {
        AdvancesBy(g, guard, depth, r.element, s, i);
      }
      if first == [] {
        assert SolveNext(g, depth, r, s, first, 1) == Some([]);
      } else {
        IterationsTerminate(g, guard, depth, bound, r, s, [first], StepLimit(r, s), i);
      }
    }
  }

  /** What cannot match empty moves on. */
  lemma AdvancesBy(g: Grammar, guard: Guard, depth: nat, e: Element, s: Bytes, i: nat)
    requires GrammarWellFormed(g) && GrammarGuarded(g, guard) && WellFormed(e) && !MayBeEmpty(guard, e)
    requires i <= |s| && SolveElement(g, depth, e, s, i).Some?
    ensures var ps := SolveElement(g, depth, e, s, i).value; forall k :: 0 <= k < |ps| ==> i < ps[k].end
  {
    ElementExact(g, depth, e, s, i);
    RulesTruthful(g, guard, depth, s);
    ElementTruthful(guard, e, RulesRel(g, depth, s), s);
    var ps := SolveElement(g, depth, e, s, i).value;
    forall k | 0 <= k < |ps|
      ensures i < ps[k].end
    {
      assert HasEnd(ps, ps[k].end);
      assert (i, ps[k].end) in ElementRel(e, RulesRel(g, depth, s), s);
    }
  }

  predicate EndAtLeast(ps: seq<Path>, j: nat) {
    forall k :: 0 <= k < |ps| ==> j <= ps[k].end
  }

  /** An unbounded repetition moves on with every iteration, so it runs dry. */
  lemma {:induction false} IterationsTerminate(g: Grammar, guard: Guard, depth: nat, bound: nat, r: Repetition,
                                               s: Bytes, iterations: seq<seq<Path>>, steps: nat, i: nat)
    requires GrammarWellFormed(g) && GrammarGuarded(g, guard) && RepetitionWellFormed(r) &&
             RepetitionGuarded(g, guard, bound, r)
    requires bound <= guard.ranks && i <= |s| && Need(guard, s, i, bound) <= depth
    requires 0 < |iterations| && AllFrom(iterations, s, i) && iterations[|iterations| - 1] != []
    requires r.max == INF ==> EndAtLeast(iterations[|iterations| - 1], i + |iterations|)
    requires if r.max == INF then |s| < steps + |iterations| else |iterations| <= r.max <= steps + |iterations|
    ensures SolveIterations(g, depth, r, s, iterations, steps).Some?
    decreases depth, r, 2, steps
  {
    if |iterations| != r.max {
      var last := iterations[|iterations| - 1];
      assert last[0].end <= |s|;
      assert r.max == INF ==> i + |iterations| <= last[0].end;
      NextTerminates(g, guard, depth, bound, r, s, last, |iterations|, i);
      NextFrom(g, depth, r, s, last, |iterations|, i);
      var next := SolveNext(g, depth, r, s, last, |iterations|).value;
      if next != [] {
        IterationsTerminate(g, guard, depth, bound, r, s, iterations + [next], steps - 1, i);
      }
    }
  }

  lemma {:induction false} NextTerminates(g: Grammar, guard: Guard, depth: nat, bound: nat, r: Repetition, s: Bytes,
                                          before: seq<Path>, iteration: nat, i: nat)
    requires GrammarWellFormed(g) && GrammarGuarded(g, guard) && RepetitionWellFormed(r) &&
             RepetitionGuarded(g, guard, bound, r)
    requires bound <= guard.ranks && i <= |s| && Need(guard, s, i, bound) <= depth
    requires From(before, s, i)
    requires r.max == INF ==> EndAtLeast(before, i + iteration)
    ensures SolveNext(g, depth, r, s, before, iteration).Some?
    ensures r.max == INF ==> EndAtLeast(SolveNext(g, depth, r, s, before, iteration).value, i + iteration + 1)
    decreases depth, r, 1, |before|
  {
    if before != [] {
      var last := before[|before| - 1];
      NextTerminates(g, guard, depth, bound, r, s, before[..|before| - 1], iteration, i);
      if ShouldContinue(r, s, last.end, iteration) {
        if last.end == i {
          ElementTerminates(g, guard, depth, bound, r.element, s, i);
        } else {
          GuardedHigher(g, guard, bound, guard.ranks, r.element);
          NeedLater(guard, s, i, last.end, bound);
          ElementTerminates(g, guard, depth, guard.ranks, r.element, s, last.end);
        }
        if r.max == INF {
          AdvancesBy(g, guard, depth, r.element, s, last.end);
        }
      }
    }
  }
}
