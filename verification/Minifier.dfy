/** Writing a grammar out in its smallest form (pkg/abnf/minify/minify.go,
    transform.go): lists expanded and expressions simplified as the options ask. */
module Minifier {
  import opened Spans
  import opened Wrappers
  import opened Abnf
  import opened Text
  import opened Rewriting
  import opened Simplifier
  import opened SimplifierShrinks
  import opened SimplifierSettles
  import opened ListExpansion
  import opened TreeNodes
  import opened SimplifyInPlace
  import opened ExpandInPlace
  import opened GrammarWriter
  import opened GrammarCopies
  import opened NormalForm

  const MAX_SIMPLIFICATION_PASSES: nat := 8

  const ALL_TRANSFORMS: Transforms := {GroupTransform, NumValTransform, LiteralTransform}

  datatype Options = Options(simplify: bool, expandLists: bool)

  /** What the options make of the rules: two passes are all that simplification takes. */
  function Minified(rules: seq<Rule>, options: Option<Options>): seq<Rule> {
    match options
    case None => rules
    case Some(o) =>
      var expanded := if o.expandLists then Rewritten(rules, ExpandedAlternation) else rules;
      if o.simplify then Passed(expanded, ALL_TRANSFORMS, 2) else expanded
  }

  // ----- repeated passes -----

  /** Passes until the text settles, or the bound is met. */
  method SimplifyToFixedPoint(rules: seq<RuleNode>, t: Transforms, ghost rs: seq<RuleShape>)
    returns (ghost rs': seq<RuleShape>)
    requires RulesGood(rs) && rules == RuleRefs(rs)
    modifies RulesNodes(rs)
    ensures RulesGood(rs') && rules == RuleRefs(rs') && fresh(RulesNodes(rs') - RulesNodes(rs))
    ensures RulesValue(rs') == Passed(RulesValue(rs), t, 2)
    ensures SimplifiedRules(RulesValue(rs'), t) == RulesValue(rs') && AllNormal(RulesValue(rs'), t)
  {
    hide RulesGood, RulesNodes, RulesValue, SimplifiedRules, RulesText, AllNormal;
    ghost var start := RulesValue(rs);
    PassedIsNormal(start, t);
    rs' := rs;
    var previous := "";
    for pass := 0 to MAX_SIMPLIFICATION_PASSES
      invariant RulesGood(rs') && rules == RuleRefs(rs') && fresh(RulesNodes(rs') - RulesNodes(rs))
      invariant RulesValue(rs') == Passed(start, t, pass)
      invariant previous == if pass == 0 then "" else RulesText(Passed(start, t, pass))
    {
      rs' := SimplifyGrammar(rules, t, rs');
      RulesAllocated(rs');
      var current := WriteGrammar(rules, rs');
      if current == previous {
        SameTextSettles(start, t, pass);
        return;
      }
      previous := current;
    }
    FurtherPasses(start, t, MAX_SIMPLIFICATION_PASSES);
    SettledRules(start, t);
  }

  /** A text that comes out twice is the text of settled rules. */
  lemma SameTextSettles(start: seq<Rule>, t: Transforms, pass: nat)
    requires RulesText(Passed(start, t, pass + 1)) == if pass == 0 then "" else RulesText(Passed(start, t, pass))
    ensures Passed(start, t, pass + 1) == Passed(start, t, 2)
    ensures SimplifiedRules(Passed(start, t, pass + 1), t) == Passed(start, t, pass + 1)
  {
    hide SimplifiedRules, RulesText;
    if pass == 0 {
      NothingWrittenForNoRules(SimplifiedRules(start, t));
      NoRulesToSimplify(t);
      assert Passed(start, t, 1) == SimplifiedRules(start, t) == [];
      assert Passed(start, t, 2) == SimplifiedRules([], t);
    } else {
      FurtherPasses(start, t, pass + 1);
      SettledRules(start, t);
    }
  }

  lemma NothingWrittenForNoRules(rules: seq<Rule>)
    ensures RulesText(rules) == "" <==> rules == []
  {
    if rules != [] {
      assert |RuleText(rules[|rules| - 1])| >= 3;
    }
  }

  lemma NoRulesToSimplify(t: Transforms)
    ensures SimplifiedRules([], t) == []
  {
  }

  // ----- what is written -----

  /** The text of one rule, simplified on a copy: the rule itself is left alone. */
  method RenderRule(rule: RuleNode, t: Transforms, ghost r: RuleShape) returns (text: string)
    requires RuleGood(r) && r.node == rule
    ensures text == RulesText(if t == {} then [RuleValue(r)] else Passed([RuleValue(r)], t, 2))
  {
    hide RulesGood, RuleGood, RulesNodes, AltNodes, RulesValue, RuleValue, RulesText;
    if t == {} {
      OneRule(r);
      text := WriteGrammar([rule], [r]);
    } else {
      var copy;
      ghost var c;
      copy, c := CloneRule(rule, r);
      OneRule(c);
      ghost var cs := SimplifyToFixedPoint([copy], t, [c]);
      text := WriteGrammar([copy], cs);
    }
  }

  /** The minified definition of a grammar. */
  method MakeDefinition(rules: seq<RuleNode>, options: Option<Options>, ghost rs: seq<RuleShape>)
    returns (text: string, ghost rs': seq<RuleShape>)
    requires RulesGood(rs) && rules == RuleRefs(rs)
    modifies RulesNodes(rs)
    ensures RulesGood(rs') && rules == RuleRefs(rs') && RulesValue(rs') == Minified(RulesValue(rs), options)
    ensures text == RulesText(Minified(RulesValue(rs), options))
    ensures options.Some? && options.value.simplify ==> AllNormal(RulesValue(rs'), ALL_TRANSFORMS)
  {
    hide RulesGood, RulesNodes, RulesValue, RulesText, Passed, ExpandedAlternation, AllNormal;
    rs' := rs;
    if options.Some? && options.value.expandLists {
      rs' := ExpandLists(rules, rs');
    }
    if options.Some? && options.value.simplify {
      rs' := SimplifyToFixedPoint(rules, ALL_TRANSFORMS, rs');
    }
    RulesAllocated(rs');
    text := WriteGrammar(rules, rs');
  }
}
