/** Rewriting every rule of a grammar into one that matches the same, whatever
    the rules it refers to match, leaves every language unchanged. */
module Rewriting {
  import opened Spans
  import opened Utf8
  import opened Wrappers
  import opened Abnf
  import opened Denotation

  ghost predicate SameMeaning(a: Alternation, a': Alternation, s: Bytes) {
    forall env :: AlternationRel(a, env, s) == AlternationRel(a', env, s)
  }

  /** The same names are defined, by alternations that mean the same. */
  ghost predicate Equivalent(g: Grammar, g': Grammar, s: Bytes) {
    forall name ::
      && g.Lookup(name).Some? == g'.Lookup(name).Some?
      && (g.Lookup(name).Some? ==>
            SameMeaning(g.Lookup(name).value.alternation, g'.Lookup(name).value.alternation, s))
  }

  lemma AlternationSameEnvironment(a: Alternation, env: Environment, env': Environment, s: Bytes)
    requires forall name :: env(name) == env'(name)
    ensures AlternationRel(a, env, s) == AlternationRel(a, env', s)
  {
    assert Within(env, env') && Within(env', env);
    AlternativesMonotone(a.concatenations, env, env', s);
    AlternativesMonotone(a.concatenations, env', env, s);
  }

  /** Induction on the unfolding depth carries the equivalence through mutual recursion between rules. */
  lemma {:induction false} EquivalentRules(g: Grammar, g': Grammar, depth: nat, name: string, s: Bytes)
    requires Equivalent(g, g', s)
    ensures RuleRel(g, depth, name, s) == RuleRel(g', depth, name, s)
    decreases depth
  {
    if depth > 0 && g.Lookup(name).Some? {
      var env, env' := RulesRel(g, depth - 1, s), RulesRel(g', depth - 1, s);
      forall n
        ensures env(n) == env'(n)
      {
        EquivalentRules(g, g', depth - 1, n, s);
      }
      AlternationSameEnvironment(g'.Lookup(name).value.alternation, env, env', s);
      assert SameMeaning(g.Lookup(name).value.alternation, g'.Lookup(name).value.alternation, s);
    }
  }

  lemma EquivalentLanguages(g: Grammar, g': Grammar, name: string, s: Bytes)
    requires Equivalent(g, g', s)
    ensures Language(g, name, s) == Language(g', name, s)
  {
    forall p
      ensures Derives(g, name, s, p) <==> Derives(g', name, s, p)
    {
      forall depth: nat
        ensures RuleRel(g, depth, name, s) == RuleRel(g', depth, name, s)
      {
        EquivalentRules(g, g', depth, name, s);
      }
    }
  }

  /** The rules with their alternations rewritten and their names left alone. */
  function Rewritten(rules: seq<Rule>, rewrite: Alternation -> Alternation): (r: seq<Rule>)
    ensures |r| == |rules|
  {
    seq(|rules|, k requires 0 <= k < |rules| => Rule(rules[k].name, rewrite(rules[k].alternation)))
  }

  lemma RewrittenMore(rules: seq<Rule>, rule: Rule, rewrite: Alternation -> Alternation)
    ensures Rewritten(rules + [rule], rewrite) == Rewritten(rules, rewrite)
            + [Rule(rule.name, rewrite(rule.alternation))]
  {
  }

  lemma {:induction false} LookupRewritten(rules: seq<Rule>, rewrite: Alternation -> Alternation, key: string)
    ensures LookupIn(Rewritten(rules, rewrite), key).Some? == LookupIn(rules, key).Some?
    ensures LookupIn(rules, key).Some? ==>
              && LookupIn(rules, key).value in rules
              && LookupIn(Rewritten(rules, rewrite), key).value.alternation
                 == rewrite(LookupIn(rules, key).value.alternation)
  {
    if rules != [] {
      var front := rules[..|rules| - 1];
      assert Rewritten(rules, rewrite)[..|rules| - 1] == Rewritten(front, rewrite);
      LookupRewritten(front, rewrite, key);
    }
  }

  /** Rewriting the rules of a grammar, each to a form of the same meaning. */
  lemma RewrittenEquivalent(g: Grammar, rewrite: Alternation -> Alternation, s: Bytes)
    requires forall k :: 0 <= k < |g.rules| ==> SameMeaning(g.rules[k].alternation, rewrite(g.rules[k].alternation), s)
    ensures Equivalent(g, Grammar(Rewritten(g.rules, rewrite), g.coreRules), s)
  {
    var g' := Grammar(Rewritten(g.rules, rewrite), g.coreRules);
    forall name
      ensures g.Lookup(name).Some? == g'.Lookup(name).Some?
      ensures g.Lookup(name).Some? ==>
                SameMeaning(g.Lookup(name).value.alternation, g'.Lookup(name).value.alternation, s)
    {
      LookupRewritten(g.rules, rewrite, Lower(name));
    }
  }
}
