/** Parse (pkg/abnf/parse.go:85-104): every way a root rule matches a whole input. */
module Parser {
  import opened Spans
  import opened Utf8
  import opened Wrappers
  import opened Abnf
  import opened Denotation
  import opened SolverShape
  import opened SolverExact
  import opened SolverDepth
  import opened SolverGuard
  import opened Matcher
  import opened ParseTrees
  import opened ParseTreesFound
  import S = Solver

  datatype Outcome = RuleNotFound(rulename: string) | Solutions(paths: seq<Path>)

  /** The paths that consumed the whole input, named after the root rule. */
  function Solving(ps: seq<Path>, length: nat, root: string): seq<Path> {
    if ps == [] then []
    else
      Solving(ps[..|ps| - 1], length, root)
      + (if ps[|ps| - 1].end == length then [S.Stamped(ps[|ps| - 1], root)] else [])
  }

  /** What Parse returns, if the search answers at the depth. */
  function Parsed(g: Grammar, depth: nat, root: string, s: Bytes): Option<Outcome> {
    var rule := g.Lookup(root);
    if rule == None then Some(RuleNotFound(root))
    else
      match S.SolveAlternation(g, depth, rule.value.alternation, s, 0)
      case Some(ps) => Some(Solutions(Solving(ps, |s|, root)))
      case None => None
  }

  lemma {:induction false} SolvingCovers(ps: seq<Path>, s: Bytes, root: string)
    requires From(ps, s, 0)
    ensures var r := Solving(ps, |s|, root);
            From(r, s, 0) && forall k :: 0 <= k < |r| ==> r[k].end == |s| && r[k].matchRule == root
  {
    if ps != [] {
      SolvingCovers(ps[..|ps| - 1], s, root);
    }
  }

  lemma {:induction false} SolvingFinds(ps: seq<Path>, length: nat, root: string)
    ensures Solving(ps, length, root) != [] <==> HasEnd(ps, length)
  {
    if ps != [] {
      var front, last := ps[..|ps| - 1], ps[|ps| - 1];
      assert ps == front + [last];
      SolvingFinds(front, length, root);
      HasEndAppend(front, [last], length);
      assert [last][0] == last;
    }
  }

  /** What a caller of Parse may rely on: there is a solution exactly when the
      root rule derives the whole input, and the solutions are all the parse
      trees of the root rule over the whole input. */
  ghost predicate Answered(g: Grammar, root: string, s: Bytes, outcome: Outcome) {
    match outcome
    case RuleNotFound(name) => name == root && g.Lookup(root) == None
    case Solutions(paths) =>
      && g.Lookup(root).Some?
      && (paths != [] <==> (0, |s|) in Language(g, root, s))
      && From(paths, s, 0)
      && forall p :: p in paths <==> RuleTree(g, root, p, s) && p.start == 0 && p.end == |s|
  }

  lemma {:induction false} SolvingHas(ps: seq<Path>, length: nat, root: string, p: Path)
    requires p in ps && p.end == length
    ensures S.Stamped(p, root) in Solving(ps, length, root)
  {
    if p != ps[|ps| - 1] {
      SolvingHas(ps[..|ps| - 1], length, root, p);
    }
  }

  lemma {:induction false} SolvingOf(ps: seq<Path>, length: nat, root: string, p: Path) returns (q: Path)
    requires p in Solving(ps, length, root)
    ensures q in ps && q.end == length && p == S.Stamped(q, root)
  {
    var last := ps[|ps| - 1];
    if last.end == length && p == S.Stamped(last, root) {
      q := last;
    } else {
      q := SolvingOf(ps[..|ps| - 1], length, root, p);
    }
  }

  /** The solutions are the trees of the root rule that cover the input. */
  lemma SolutionsAreTrees(g: Grammar, depth: nat, root: string, s: Bytes, p: Path)
    requires GrammarWellFormed(g) && g.Lookup(root).Some?
    requires S.SolveAlternation(g, depth, g.Lookup(root).value.alternation, s, 0).Some?
    ensures p in Solving(S.SolveAlternation(g, depth, g.Lookup(root).value.alternation, s, 0).value, |s|, root)
            <==> RuleTree(g, root, p, s) && p.start == 0 && p.end == |s|
  {
    var a := g.Lookup(root).value.alternation;
    var ps := S.SolveAlternation(g, depth, a, s, 0).value;
    AlternationFrom(g, depth, a, s, 0);
    if p in Solving(ps, |s|, root) {
      var q := SolvingOf(ps, |s|, root, p);
      AlternationTrees(g, depth, a, s, 0, q);
      assert p.(matchRule := "") == q;
      assert ElementTree(g, depth + 1, Rulename(root), p, s);
    }
    if RuleTree(g, root, p, s) && p.start == 0 && p.end == |s| {
      var d: nat :| ElementTree(g, d, Rulename(root), p, s);
      var q := p.(matchRule := "");
      LookupWellFormed(g, root);
      AlternationFound(g, depth, a, s, 0, d - 1, q);
      SolvingHas(ps, |s|, root, q);
      assert S.Stamped(q, root) == p;
    }
  }

  /** Whenever Parse returns, its solutions are sound and complete. */
  lemma ParsedExact(g: Grammar, depth: nat, root: string, s: Bytes)
    requires GrammarWellFormed(g) && Parsed(g, depth, root, s).Some?
    ensures Answered(g, root, s, Parsed(g, depth, root, s).value)
  {
    var rule := g.Lookup(root);
    if rule.Some? {
      var ps := S.SolveAlternation(g, depth, rule.value.alternation, s, 0).value;
      AlternationFrom(g, depth, rule.value.alternation, s, 0);
      SolvingCovers(ps, s, root);
      SolvingFinds(ps, |s|, root);
      RuleExact(g, depth + 1, root, s, 0);
      SameEnds(ps, S.StampedAll(ps, root));
      forall p
        ensures p in Solving(ps, |s|, root) <==> RuleTree(g, root, p, s) && p.start == 0 && p.end == |s|
      {
        SolutionsAreTrees(g, depth, root, s, p);
      }
    }
  }

  /** Parsing with a guarded grammar returns, whatever the input. */
  lemma ParseTerminates(g: Grammar, guard: Guard, root: string, s: Bytes)
    requires GrammarWellFormed(g) && GrammarGuarded(g, guard)
    ensures Parsed(g, Need(guard, s, 0, guard.ranks), root, s).Some?
  {
    if g.Lookup(root).Some? {
      LookupWellFormed(g, root);
      LookupGuarded(g, guard, root);
      AlternationTerminates(g, guard, Need(guard, s, 0, guard.ranks), guard.rank[Lower(root)],
                            g.Lookup(root).value.alternation, s, 0);
    }
  }

  method Parse(s: Bytes, g: Grammar, root: string, ghost guard: Guard) returns (outcome: Outcome)
    requires GrammarWellFormed(g) && GrammarGuarded(g, guard)
    ensures Some(outcome) == Parsed(g, Need(guard, s, 0, guard.ranks), root, s)
    ensures Answered(g, root, s, outcome)
  {
    ghost var depth := Need(guard, s, 0, guard.ranks);
    ParseTerminates(g, guard, root, s);
    ParsedExact(g, depth, root, s);
    var rule := g.Lookup(root);
    if rule == None {
      return RuleNotFound(root);
    }
    LookupWellFormed(g, root);
    var possibilities := MatchAlternation(g, rule.value.alternation, s, 0, depth);
    var solutions := [];
    for k := 0 to |possibilities|
      invariant solutions == Solving(possibilities[..k], |s|, root)
    {
      assert possibilities[..k + 1][..k] == possibilities[..k];
      if possibilities[k].end == |s| {
        solutions := solutions + [S.Stamped(possibilities[k], root)];
      }
    }
    assert possibilities[..|possibilities|] == possibilities;
    return Solutions(solutions);
  }
}
