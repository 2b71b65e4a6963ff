/** The linter's claim that a rule no root leads to is dead
    (pkg/abnf/lint/analyze.go): the walk it makes, and what removing the rules
    it does not reach changes. */
module Reachability {
  import opened Spans
  import opened Utf8
  import opened Wrappers
  import opened Abnf
  import opened Denotation
  import opened Solver
  import opened Parser

  // ----- dependencies -----

  function ElementDependencies(e: Element): seq<string>
    decreases e, 0
  {
    match e
    case Rulename(name) => [name]
    case Group(a) => Dependencies(a)
    case Optional(a) => Dependencies(a)
    case List(_, _, _, expansion) => Dependencies(expansion)
    case _ => []
  }

  /** The rule names an alternation refers to, in order. */
  function Dependencies(a: Alternation): seq<string>
    decreases a, 1
  {
    AlternativesDependencies(a.concatenations)
  }

  function AlternativesDependencies(cs: seq<Concatenation>): seq<string>
    decreases cs, 0
  {
    if cs == [] then []
    else AlternativesDependencies(cs[..|cs| - 1]) + ConcatenationDependencies(cs[|cs| - 1])
  }

  function ConcatenationDependencies(c: Concatenation): seq<string>
    decreases c, 1
  {
    RepetitionsDependencies(c.repetitions)
  }

  function RepetitionsDependencies(rs: seq<Repetition>): seq<string>
    decreases rs, 0
  {
    if rs == [] then []
    else RepetitionsDependencies(rs[..|rs| - 1]) + RepetitionDependencies(rs[|rs| - 1])
  }

  function RepetitionDependencies(r: Repetition): seq<string>
    decreases r, 1
  {
    ElementDependencies(r.element)
  }

  /** The element is a rulename, or a rulename is somewhere inside its groups, options and lists. */
  ghost predicate Mentions(e: Element, name: string)
    decreases e, 0
  {
    || e == Rulename(name)
    || (e.Group? && MentionedIn(e.alternation, name))
    || (e.Optional? && MentionedIn(e.alternation, name))
    || (e.List? && MentionedIn(e.expansion, name))
  }

  ghost predicate MentionedIn(a: Alternation, name: string)
    decreases a, 1
  {
    exists i, j :: 0 <= i < |a.concatenations| && 0 <= j < |a.concatenations[i].repetitions|
                   && Mentions(a.concatenations[i].repetitions[j].element, name)
  }

  /** The dependencies are the rulenames that stand in the tree. */
  lemma {:induction false} DependsIff(a: Alternation, name: string)
    ensures name in Dependencies(a) <==> MentionedIn(a, name)
    decreases a, 1
  {
    hide Mentions;
    AlternativesDepend(a.concatenations, name);
    forall i, j | 0 <= i < |a.concatenations| && 0 <= j < |a.concatenations[i].repetitions|
      ensures name in ElementDependencies(a.concatenations[i].repetitions[j].element)
              <==> Mentions(a.concatenations[i].repetitions[j].element, name)
    {
      ElementDependsIff(a.concatenations[i].repetitions[j].element, name);
    }
  }

  lemma {:induction false} ElementDependsIff(e: Element, name: string)
    ensures name in ElementDependencies(e) <==> Mentions(e, name)
    decreases e, 0
  {
    hide MentionedIn;
    match e
    case Group(a) => DependsIff(a, name);
    case Optional(a) => DependsIff(a, name);
    case List(_, _, _, expansion) => DependsIff(expansion, name);
    case _ =>
  }

  lemma {:induction false} AlternativesDepend(cs: seq<Concatenation>, name: string)
    ensures name in AlternativesDependencies(cs)
            <==> exists i, j :: 0 <= i < |cs| && 0 <= j < |cs[i].repetitions|
                                && name in ElementDependencies(cs[i].repetitions[j].element)
  {
    if cs != [] {
      AlternativesDepend(cs[..|cs| - 1], name);
      RepetitionsDepend(cs[|cs| - 1].repetitions, name);
    }
  }

  lemma {:induction false} RepetitionsDepend(rs: seq<Repetition>, name: string)
    ensures name in RepetitionsDependencies(rs)
            <==> exists j :: 0 <= j < |rs| && name in ElementDependencies(rs[j].element)
  {
    if rs != [] {
      RepetitionsDepend(rs[..|rs| - 1], name);
    }
  }

  /** walkAlternation: appends to the dependencies found so far. */
  method WalkAlternation(a: Alternation, found: seq<string>) returns (dependencies: seq<string>)
    ensures dependencies == found + Dependencies(a)
    decreases a, 1
  {
    dependencies := found;
    var cs := a.concatenations;
    for i := 0 to |cs|
      invariant dependencies == found + AlternativesDependencies(cs[..i])
    {
      assert cs[..i + 1][..i] == cs[..i];
      dependencies := WalkConcatenation(cs[i], dependencies);
    }
    assert cs[..|cs|] == cs;
  }

  method WalkConcatenation(c: Concatenation, found: seq<string>) returns (dependencies: seq<string>)
    ensures dependencies == found + ConcatenationDependencies(c)
    decreases c, 1
  {
    dependencies := found;
    var rs := c.repetitions;
    for j := 0 to |rs|
      invariant dependencies == found + RepetitionsDependencies(rs[..j])
    {
      assert rs[..j + 1][..j] == rs[..j];
      dependencies := WalkElement(rs[j].element, dependencies);
    }
    assert rs[..|rs|] == rs;
  }

  method WalkElement(e: Element, found: seq<string>) returns (dependencies: seq<string>)
    ensures dependencies == found + ElementDependencies(e)
    decreases e, 0
  {
    match e
    case Rulename(name) => dependencies := found + [name];
    case Group(a) => dependencies := WalkAlternation(a, found);
    case Optional(a) => dependencies := WalkAlternation(a, found);
    case List(_, _, _, expansion) => dependencies := WalkAlternation(expansion, found);
    case _ => dependencies := found;
  }

  // ----- the walk -----

  function DefinedKeys(g: Grammar): set<string> {
    set i | 0 <= i < |g.rules| :: Lower(g.rules[i].name)
  }

  /** The rules the rule under a key refers to are all in the set. */
  ghost predicate Leads(g: Grammar, key: string, keys: set<string>) {
    match LookupIn(g.rules, key)
    case Some(rule) => AllIn(Dependencies(rule.alternation), keys)
    case None => true
  }

  predicate AllIn(names: seq<string>, keys: set<string>) {
    forall k :: 0 <= k < |names| ==> Lower(names[k]) in keys
  }

  ghost predicate Closed(g: Grammar, keys: set<string>) {
    forall key :: key in keys ==> Leads(g, key, keys)
  }

  /** Everything reached beyond what was reached before leads only to what is reached. */
  ghost predicate ClosedBeyond(g: Grammar, before: set<string>, keys: set<string>) {
    forall key :: key in keys && key !in before ==> Leads(g, key, keys)
  }

  /** Nothing is reached needlessly. */
  ghost predicate Least(g: Grammar, least: set<string>, keys: set<string>) {
    forall closed: set<string> :: Closed(g, closed) && least <= closed ==> keys <= closed
  }

  lemma {:induction false} LookupDefined(rules: seq<Rule>, key: string)
    requires LookupIn(rules, key).Some?
    ensures exists i :: 0 <= i < |rules| && rules[i] == LookupIn(rules, key).value && Lower(rules[i].name) == key
  {
    var last := |rules| - 1;
    if Lower(rules[last].name) == key {
      assert rules[last] == LookupIn(rules, key).value;
    } else {
      LookupDefined(rules[..last], key);
      var i :| 0 <= i < last && rules[..last][i] == LookupIn(rules, key).value && Lower(rules[..last][i].name) == key;
      assert rules[i] == LookupIn(rules, key).value;
    }
  }

  /** Nothing is reached that the names and what was reached before do not need. */
  ghost predicate LeastFor(g: Grammar, before: set<string>, names: seq<string>, keys: set<string>) {
    forall closed: set<string> :: Closed(g, closed) && before <= closed && AllIn(names, closed) ==> keys <= closed
  }

  method Visit(g: Grammar, rulename: string, before: set<string>) returns (reached: set<string>)
    ensures before <= reached && Lower(rulename) in reached
    ensures ClosedBeyond(g, before, reached)
    ensures Least(g, before + {Lower(rulename)}, reached)
    decreases |DefinedKeys(g) - before|, 0
  {
    var key := Lower(rulename);
    reached := before;
    if key in reached {
      return;
    }
    reached := reached + {key};
    var rule := LookupIn(g.rules, key);
    if rule == None {
      return;
    }
    FewerDefined(g, before, key);
    var dependencies := WalkAlternation(rule.value.alternation, []);
    assert dependencies == Dependencies(rule.value.alternation);
    reached := VisitAll(g, dependencies, reached);
    assert Leads(g, key, reached);
    RuleLeast(g, key, rule.value, before + {key}, reached);
  }

  lemma RuleLeast(g: Grammar, key: string, rule: Rule, least: set<string>, reached: set<string>)
    requires key in least && LookupIn(g.rules, key) == Some(rule)
    requires LeastFor(g, least, Dependencies(rule.alternation), reached)
    ensures Least(g, least, reached)
  {
    forall closed: set<string> | Closed(g, closed) && least <= closed
      ensures reached <= closed
    {
      assert Leads(g, key, closed);
    }
  }

  method VisitAll(g: Grammar, names: seq<string>, before: set<string>) returns (reached: set<string>)
    ensures before <= reached && AllIn(names, reached)
    ensures ClosedBeyond(g, before, reached)
    ensures LeastFor(g, before, names, reached)
    decreases |DefinedKeys(g) - before|, 1
  {
    reached := before;
    for i := 0 to |names|
      invariant before <= reached && AllIn(names[..i], reached)
      invariant ClosedBeyond(g, before, reached)
      invariant LeastFor(g, before, names, reached)
    {
      FewerLeft(DefinedKeys(g) - reached, DefinedKeys(g) - before);
      ghost var earlier := reached;
      reached := Visit(g, names[i], reached);
      StillClosedBeyond(g, before, earlier, reached);
      StillLeast(g, before, earlier, reached, names, i);
    }
  }

  lemma StillLeast(g: Grammar, before: set<string>, earlier: set<string>, reached: set<string>, names: seq<string>,
                   i: nat)
    requires i < |names| && LeastFor(g, before, names, earlier) && Least(g, earlier + {Lower(names[i])}, reached)
    ensures LeastFor(g, before, names, reached)
  {
    forall closed: set<string> | Closed(g, closed) && before <= closed && AllIn(names, closed)
      ensures reached <= closed
    {
      assert earlier + {Lower(names[i])} <= closed;
    }
  }

  lemma StillClosedBeyond(g: Grammar, before: set<string>, earlier: set<string>, reached: set<string>)
    requires earlier <= reached && ClosedBeyond(g, before, earlier) && ClosedBeyond(g, earlier, reached)
    ensures ClosedBeyond(g, before, reached)
  {
    forall key | key in reached && key !in before
      ensures Leads(g, key, reached)
    {
      if key in earlier {
        assert Leads(g, key, earlier);
      }
    }
  }

  lemma FewerDefined(g: Grammar, before: set<string>, key: string)
    requires key !in before && LookupIn(g.rules, key).Some?
    ensures |DefinedKeys(g) - (before + {key})| < |DefinedKeys(g) - before|
  {
    LookupDefined(g.rules, key);
    assert key in DefinedKeys(g);
    FewerLeft(DefinedKeys(g) - (before + {key}), DefinedKeys(g) - before);
  }

  lemma FewerLeft(a: set<string>, b: set<string>)
    requires a <= b
    ensures |a| <= |b| && (a < b ==> |a| < |b|)
  {
    var rest := b - a;
    assert b == a + rest && a !! rest;
    assert |b| == |a| + |rest|;
    if a < b {
      assert rest != {};
    }
  }

  datatype Report = RootNotFound(root: string) | Unreachable(names: seq<string>)

  function KeysOf(names: seq<string>): set<string> {
    set k | 0 <= k < |names| :: Lower(names[k])
  }

  /** The rules under the given keys, or the others. */
  function Kept(rules: seq<Rule>, keys: set<string>): seq<Rule> {
    if rules == [] then []
    else
      Kept(rules[..|rules| - 1], keys)
      + (if Lower(rules[|rules| - 1].name) in keys then [rules[|rules| - 1]] else [])
  }

  function UnreachedNames(rules: seq<Rule>, keys: set<string>): seq<string> {
    if rules == [] then []
    else
      UnreachedNames(rules[..|rules| - 1], keys)
      + (if Lower(rules[|rules| - 1].name) in keys then [] else [rules[|rules| - 1].name])
  }

  /** unreachableFindings: the rules that none of the roots leads to, found by
      the least set of keys that holds the roots and is closed under
      dependencies. */
  method FindUnreachable(g: Grammar, roots: seq<string>) returns (report: Report, ghost reached: set<string>)
    ensures report.RootNotFound? <==> exists k :: 0 <= k < |roots| && g.Lookup(roots[k]) == None
    ensures report.RootNotFound? ==> report.root in roots && g.Lookup(report.root) == None
    ensures report.Unreachable? ==>
              && KeysOf(roots) <= reached && Closed(g, reached) && Least(g, KeysOf(roots), reached)
              && report.names == UnreachedNames(g.rules, reached)
  {
    var found: set<string> := {};
    reached := {};
    for k := 0 to |roots|
      invariant forall m :: 0 <= m < k ==> g.Lookup(roots[m]).Some?
      invariant KeysOf(roots[..k]) <= found && Closed(g, found) && Least(g, KeysOf(roots), found)
    {
      if g.Lookup(roots[k]) == None {
        return RootNotFound(roots[k]), {};
      }
      ghost var before := found;
      found := Visit(g, roots[k], found);
      StillClosed(g, before, found);
      RootLeast(g, roots, k, before, found);
      assert roots[..k + 1] == roots[..k] + [roots[k]];
      assert KeysOf(roots[..k + 1]) == KeysOf(roots[..k]) + {Lower(roots[k])};
    }
    assert roots[..|roots|] == roots;
    reached := found;
    var names := [];
    for k := 0 to |g.rules|
      invariant names == UnreachedNames(g.rules[..k], found)
    {
      assert g.rules[..k + 1][..k] == g.rules[..k];
      if Lower(g.rules[k].name) !in found {
        names := names + [g.rules[k].name];
      }
    }
    assert g.rules[..|g.rules|] == g.rules;
    return Unreachable(names), found;
  }

  lemma StillClosed(g: Grammar, before: set<string>, reached: set<string>)
    requires Closed(g, before) && before <= reached && ClosedBeyond(g, before, reached)
    ensures Closed(g, reached)
  {
    forall key | key in reached
      ensures Leads(g, key, reached)
    {
      if key in before {
        assert Leads(g, key, before);
      }
    }
  }

  lemma RootLeast(g: Grammar, roots: seq<string>, k: nat, before: set<string>, reached: set<string>)
    requires k < |roots| && Least(g, KeysOf(roots), before) && Least(g, before + {Lower(roots[k])}, reached)
    ensures Least(g, KeysOf(roots), reached)
  {
    assert Lower(roots[k]) in KeysOf(roots);
    forall closed: set<string> | Closed(g, closed) && KeysOf(roots) <= closed
      ensures reached <= closed
    {
      assert before + {Lower(roots[k])} <= closed;
    }
  }

  // ----- removing what is not reached -----

  function Pruned(g: Grammar, keys: set<string>): Grammar {
    Grammar(Kept(g.rules, keys), g.coreRules)
  }

  /** A name is looked up alike before and after: its rule is kept, or the grammar has none for it. */
  ghost predicate Safe(g: Grammar, keys: set<string>, name: string) {
    Lower(name) in keys || LookupIn(g.rules, Lower(name)) == None
  }

  ghost predicate AllSafe(g: Grammar, keys: set<string>, names: seq<string>) {
    forall k :: 0 <= k < |names| ==> Safe(g, keys, names[k])
  }

  /** The parser refuses a grammar that redefines a core rule, and core rules lead only to core rules. */
  ghost predicate CoreApart(g: Grammar) {
    && (forall k :: 0 <= k < |g.rules| ==> LookupIn(g.coreRules, Lower(g.rules[k].name)) == None)
    && (forall k, m :: 0 <= k < |g.coreRules| && 0 <= m < |Dependencies(g.coreRules[k].alternation)| ==>
          LookupIn(g.coreRules, Lower(Dependencies(g.coreRules[k].alternation)[m])).Some?)
  }

  lemma {:induction false} KeptLookup(rules: seq<Rule>, keys: set<string>, key: string)
    requires key in keys || LookupIn(rules, key) == None
    ensures LookupIn(Kept(rules, keys), key) == LookupIn(rules, key)
  {
    if rules != [] {
      var front, last := rules[..|rules| - 1], rules[|rules| - 1];
      if Lower(last.name) == key {
        assert Kept(rules, keys)[|Kept(rules, keys)| - 1] == last;
      } else {
        KeptLookup(front, keys, key);
        assert Lower(last.name) !in keys ==> Kept(rules, keys) == Kept(front, keys);
        if Lower(last.name) in keys {
          assert Kept(rules, keys)[..|Kept(rules, keys)| - 1] == Kept(front, keys);
        }
      }
    }
  }

  lemma SafeLookup(g: Grammar, keys: set<string>, name: string)
    requires Safe(g, keys, name)
    ensures Pruned(g, keys).Lookup(name) == g.Lookup(name)
  {
    KeptLookup(g.rules, keys, Lower(name));
  }

  /** What a rule looked up safely refers to is looked up safely too. */
  lemma SafeBody(g: Grammar, keys: set<string>, name: string)
    requires Closed(g, keys) && CoreApart(g) && Safe(g, keys, name) && g.Lookup(name).Some?
    ensures AllSafe(g, keys, Dependencies(g.Lookup(name).value.alternation))
  {
    var key := Lower(name);
    var names := Dependencies(g.Lookup(name).value.alternation);
    if LookupIn(g.rules, key).Some? {
      assert Leads(g, key, keys);
    } else {
      LookupDefined(g.coreRules, key);
      var i :| 0 <= i < |g.coreRules| && g.coreRules[i] == LookupIn(g.coreRules, key).value;
      forall m | 0 <= m < |names|
        ensures Safe(g, keys, names[m])
      {
        assert LookupIn(g.coreRules, Lower(names[m])).Some?;
        if LookupIn(g.rules, Lower(names[m])).Some? {
          LookupDefined(g.rules, Lower(names[m]));
        }
      }
    }
  }

  lemma SafeParts(g: Grammar, keys: set<string>, xs: seq<string>, ys: seq<string>)
    requires AllSafe(g, keys, xs + ys)
    ensures AllSafe(g, keys, xs) && AllSafe(g, keys, ys)
  {
    forall k | 0 <= k < |xs|
      ensures Safe(g, keys, xs[k])
    {
      assert (xs + ys)[k] == xs[k];
    }
    forall k | 0 <= k < |ys|
      ensures Safe(g, keys, ys[k])
    {
      assert (xs + ys)[|xs| + k] == ys[k];
    }
  }

  lemma {:induction false} ElementUnchanged(g: Grammar, keys: set<string>, depth: nat, e: Element, s: Bytes, i: nat)
    requires Closed(g, keys) && CoreApart(g) && AllSafe(g, keys, ElementDependencies(e))
    ensures SolveElement(Pruned(g, keys), depth, e, s, i) == SolveElement(g, depth, e, s, i)
    decreases depth, e, 0, 0
  {
    match e
    case Rulename(name) =>
      assert ElementDependencies(e)[0] == name;
      SafeLookup(g, keys, name);
      if g.Lookup(name).Some? && depth > 0 {
        SafeBody(g, keys, name);
        AlternationUnchanged(g, keys, depth - 1, g.Lookup(name).value.alternation, s, i);
      }
    case Group(a) => AlternationUnchanged(g, keys, depth, a, s, i);
    case Optional(a) => AlternationUnchanged(g, keys, depth, a, s, i);
    case List(_, _, _, a) => AlternationUnchanged(g, keys, depth, a, s, i);
    case _ =>
  }

  lemma {:induction false} AlternationUnchanged(g: Grammar, keys: set<string>, depth: nat, a: Alternation, s: Bytes,
                                                i: nat)
    requires Closed(g, keys) && CoreApart(g) && AllSafe(g, keys, Dependencies(a))
    ensures SolveAlternation(Pruned(g, keys), depth, a, s, i) == SolveAlternation(g, depth, a, s, i)
    decreases depth, a, 1, 0
  {
    AlternativesUnchanged(g, keys, depth, a.concatenations, s, i);
  }

  lemma {:induction false} AlternativesUnchanged(g: Grammar, keys: set<string>, depth: nat, cs: seq<Concatenation>,
                                                 s: Bytes, i: nat)
    requires Closed(g, keys) && CoreApart(g) && AllSafe(g, keys, AlternativesDependencies(cs))
    ensures SolveAlternatives(Pruned(g, keys), depth, cs, s, i) == SolveAlternatives(g, depth, cs, s, i)
    decreases depth, cs, 0, 0
  {
    if cs != [] {
      SafeParts(g, keys, AlternativesDependencies(cs[..|cs| - 1]), ConcatenationDependencies(cs[|cs| - 1]));
      AlternativesUnchanged(g, keys, depth, cs[..|cs| - 1], s, i);
      ConcatenationUnchanged(g, keys, depth, cs[|cs| - 1], s, i);
    }
  }

  lemma {:induction false} ConcatenationUnchanged(g: Grammar, keys: set<string>, depth: nat, c: Concatenation,
                                                  s: Bytes, i: nat)
    requires Closed(g, keys) && CoreApart(g) && AllSafe(g, keys, ConcatenationDependencies(c))
    ensures SolveConcatenation(Pruned(g, keys), depth, c, s, i) == SolveConcatenation(g, depth, c, s, i)
    decreases depth, c, 1, 0
  {
    RepetitionsUnchanged(g, keys, depth, c.repetitions, s, i);
  }

  lemma {:induction false} RepetitionsUnchanged(g: Grammar, keys: set<string>, depth: nat, rs: seq<Repetition>,
                                                s: Bytes, i: nat)
    requires Closed(g, keys) && CoreApart(g) && AllSafe(g, keys, RepetitionsDependencies(rs))
    ensures SolveRepetitions(Pruned(g, keys), depth, rs, s, i) == SolveRepetitions(g, depth, rs, s, i)
    decreases depth, rs, 0, 0
  {
    if rs != [] {
      var front, last := rs[..|rs| - 1], rs[|rs| - 1];
      SafeParts(g, keys, RepetitionsDependencies(front), RepetitionDependencies(last));
      if |rs| == 1 {
        RepetitionUnchanged(g, keys, depth, last, s, i);
      } else {
        RepetitionsUnchanged(g, keys, depth, front, s, i);
        if SolveRepetitions(g, depth, front, s, i).Some? {
          ExtensionsUnchanged(g, keys, depth, SolveRepetitions(g, depth, front, s, i).value, last, s, i);
        }
      }
    }
  }

  lemma {:induction false} ExtensionsUnchanged(g: Grammar, keys: set<string>, depth: nat, before: seq<Path>,
                                               r: Repetition, s: Bytes, i: nat)
    requires Closed(g, keys) && CoreApart(g) && AllSafe(g, keys, RepetitionDependencies(r))
    ensures SolveExtensions(Pruned(g, keys), depth, before, r, s, i) == SolveExtensions(g, depth, before, r, s, i)
    decreases depth, r, 4, |before|
  {
    if before != [] {
      ExtensionsUnchanged(g, keys, depth, before[..|before| - 1], r, s, i);
      RepetitionUnchanged(g, keys, depth, r, s, before[|before| - 1].end);
    }
  }

  lemma {:induction false} RepetitionUnchanged(g: Grammar, keys: set<string>, depth: nat, r: Repetition, s: Bytes,
                                               i: nat)
    requires Closed(g, keys) && CoreApart(g) && AllSafe(g, keys, RepetitionDependencies(r))
    ensures SolveRepetition(Pruned(g, keys), depth, r, s, i) == SolveRepetition(g, depth, r, s, i)
    decreases depth, r, 3, 0
  {
    ElementUnchanged(g, keys, depth, r.element, s, i);
    if SolveElement(g, depth, r.element, s, i).Some? {
      IterationsUnchanged(g, keys, depth, r, s, [SolveElement(g, depth, r.element, s, i).value], StepLimit(r, s));
    }
  }

  lemma {:induction false} IterationsUnchanged(g: Grammar, keys: set<string>, depth: nat, r: Repetition, s: Bytes,
                                               iterations: seq<seq<Path>>, steps: nat)
    requires Closed(g, keys) && CoreApart(g) && AllSafe(g, keys, RepetitionDependencies(r))
    ensures SolveIterations(Pruned(g, keys), depth, r, s, iterations, steps)
         == SolveIterations(g, depth, r, s, iterations, steps)
    decreases depth, r, 2, steps
  {
    if |iterations| != 0 && |iterations| != r.max && steps != 0 {
      var last := iterations[|iterations| - 1];
      NextUnchanged(g, keys, depth, r, s, last, |iterations|);
      var next := SolveNext(g, depth, r, s, last, |iterations|);
      if next.Some? {
        IterationsUnchanged(g, keys, depth, r, s, iterations + [next.value], steps - 1);
      }
    }
  }

  lemma {:induction false} NextUnchanged(g: Grammar, keys: set<string>, depth: nat, r: Repetition, s: Bytes,
                                         before: seq<Path>, iteration: nat)
    requires Closed(g, keys) && CoreApart(g) && AllSafe(g, keys, RepetitionDependencies(r))
    ensures SolveNext(Pruned(g, keys), depth, r, s, before, iteration) == SolveNext(g, depth, r, s, before, iteration)
    decreases depth, r, 1, |before|
  {
    if before != [] {
      NextUnchanged(g, keys, depth, r, s, before[..|before| - 1], iteration);
      ElementUnchanged(g, keys, depth, r.element, s, before[|before| - 1].end);
    }
  }

  /** Removing every rule outside a closed set of keys changes nothing about
      parsing from a root in the set: the same solutions with the same paths,
      and an answer at the same depths. */
  lemma PrunedParsesAlike(g: Grammar, keys: set<string>, depth: nat, root: string, s: Bytes)
    requires Closed(g, keys) && CoreApart(g) && Lower(root) in keys
    ensures Parsed(Pruned(g, keys), depth, root, s) == Parsed(g, depth, root, s)
  {
    SafeLookup(g, keys, root);
    if g.Lookup(root).Some? {
      SafeBody(g, keys, root);
      AlternationUnchanged(g, keys, depth, g.Lookup(root).value.alternation, s, 0);
    }
  }
}
