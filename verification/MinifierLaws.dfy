/** What minification promises of its result: the same languages, a text that
    the parser of grammars reads, and nothing left to simplify. */
module MinifierLaws {
  import opened Spans
  import opened Utf8
  import opened Wrappers
  import opened Abnf
  import opened Denotation
  import opened Rewriting
  import opened Simplifier
  import opened SimplifierLanguage
  import opened SimplifierSettles
  import opened SimplifierKeeps
  import opened ListExpansion
  import opened ExpansionKeeps
  import opened Minifier
  import Derivations
  import Text
  import Rules
  import opened TextDerivable
  import Parser
  import AbnfParses
  import WrittenScan

  // ----- passes -----

  ghost predicate AllSurrogateFree(rules: seq<Rule>) {
    forall k :: 0 <= k < |rules| ==> AlternationSurrogateFree(rules[k].alternation)
  }

  lemma PassSurrogateFree(rules: seq<Rule>, t: Transforms)
    requires AllSurrogateFree(rules)
    ensures AllSurrogateFree(SimplifiedRules(rules, t))
  {
    hide AlternationSurrogateFree, SimplifiedAlternation;
    forall k | 0 <= k < |rules|
      ensures AlternationSurrogateFree(SimplifiedRules(rules, t)[k].alternation)
    {
      StaysSurrogateFree(rules[k].alternation, t);
    }
  }

  /** Any number of passes leaves every language as it was. */
  lemma {:induction false} PassesPreserveLanguage(rules: seq<Rule>, core: seq<Rule>, t: Transforms, passes: nat,
                                                  name: string, s: Bytes)
    requires AllSurrogateFree(rules)
    ensures Language(Grammar(Passed(rules, t, passes), core), name, s) == Language(Grammar(rules, core), name, s)
    ensures AllSurrogateFree(Passed(rules, t, passes))
  {
    hide SimplifiedRules, AllSurrogateFree, Language;
    if passes > 0 {
      var before := Passed(rules, t, passes - 1);
      PassesPreserveLanguage(rules, core, t, passes - 1, name, s);
      PassSurrogateFree(before, t);
      OnePass(before, core, t, name, s);
    }
  }

  lemma OnePass(rules: seq<Rule>, core: seq<Rule>, t: Transforms, name: string, s: Bytes)
    requires AllSurrogateFree(rules)
    ensures Language(Grammar(SimplifiedRules(rules, t), core), name, s) == Language(Grammar(rules, core), name, s)
  {
    hide SimplifiedRules, Language, AlternationSurrogateFree;
    LanguagePreserved(Grammar(rules, core), t, name, s);
  }

  // ----- the same languages -----

  /** The parser builds every list with its expansion; a range over a surrogate matches nothing until it is
      rewritten. */
  ghost predicate MayMinify(rules: seq<Rule>, o: Options) {
    forall k :: 0 <= k < |rules| ==>
      && (o.expandLists ==> AlternationFaithful(rules[k].alternation))
      && (o.simplify && o.expandLists ==> AlternationNoSurrogates(rules[k].alternation))
      && (o.simplify && !o.expandLists ==> AlternationSurrogateFree(rules[k].alternation))
  }

  /** Whatever the options, every rule matches what it matched, in every input. */
  lemma MinifiedMeansTheSame(g: Grammar, options: Option<Options>, name: string, s: Bytes)
    requires options.Some? ==> MayMinify(g.rules, options.value)
    ensures Language(Grammar(Minified(g.rules, options), g.coreRules), name, s) == Language(g, name, s)
  {
    hide Language, Passed, AlternationFaithful, AlternationNoSurrogates, AlternationSurrogateFree, ExpandedAlternation;
    if options.Some? {
      var o := options.value;
      var expanded := if o.expandLists then Rewritten(g.rules, ExpandedAlternation) else g.rules;
      if o.expandLists {
        ExpansionPreservesLanguage(g, name, s);
      } else {
        assert Grammar(expanded, g.coreRules) == g;
      }
      if o.simplify {
        ExpandedSurrogateFree(g.rules, o);
        PassesPreserveLanguage(expanded, g.coreRules, ALL_TRANSFORMS, 2, name, s);
      }
    }
  }

  lemma ExpandedSurrogateFree(rules: seq<Rule>, o: Options)
    requires MayMinify(rules, o) && o.simplify
    ensures AllSurrogateFree(if o.expandLists then Rewritten(rules, ExpandedAlternation) else rules)
  {
    hide AlternationFaithful, AlternationNoSurrogates, AlternationSurrogateFree, ExpandedAlternation;
    forall k | 0 <= k < |rules|
      ensures AlternationNoSurrogates(rules[k].alternation) ==>
                AlternationSurrogateFree(ExpandedAlternation(rules[k].alternation))
    {
      ExpansionStaysPlain(rules[k].alternation, NoRepeats);
    }
  }

  // ----- a text that parses -----

  /** Rules well-formed with such repeated lists only. */
  predicate AllOk(rules: seq<Rule>, k: Repeats) {
    forall i :: 0 <= i < |rules| ==> RuleOk(rules[i], k)
  }

  predicate AllFit(rules: seq<Rule>, k: Repeats) {
    forall i :: 0 <= i < |rules| ==> AlternationFit(rules[i].alternation, k)
  }

  lemma PassKeeps(rules: seq<Rule>, t: Transforms, k: Repeats)
    requires AllOk(rules, AnyCounts) && GroupTransform in t
    ensures AllOk(SimplifiedRules(rules, t), AnyCounts)
    ensures AllOk(SimplifiedRules(rules, t), k) <==> AllFit(rules, k)
    ensures AllFit(SimplifiedRules(rules, t), k) <==> AllFit(rules, k)
  {
    hide AlternationFit, AlternationOk, SimplifiedAlternation;
    forall i | 0 <= i < |rules|
      ensures SimplifiedRules(rules, t)[i].name == rules[i].name && NameOk(rules[i].name)
      ensures AlternationOk(SimplifiedRules(rules, t)[i].alternation, AnyCounts)
      ensures AlternationOk(SimplifiedRules(rules, t)[i].alternation, k) <==> AlternationFit(rules[i].alternation, k)
      ensures AlternationFit(SimplifiedRules(rules, t)[i].alternation, k) <==> AlternationFit(rules[i].alternation, k)
    {
      assert RuleOk(rules[i], AnyCounts);
      StaysOkIff(rules[i].alternation, t, k);
    }
    var after := SimplifiedRules(rules, t);
    if AllOk(after, k) {
      forall i | 0 <= i < |rules|
        ensures AlternationFit(rules[i].alternation, k)
      {
        assert RuleOk(after[i], k);
      }
    }
    if AllFit(after, k) {
      forall i | 0 <= i < |rules|
        ensures AlternationFit(rules[i].alternation, k)
      {
        assert AlternationFit(after[i].alternation, k);
      }
    }
  }

  lemma {:induction false} PassesKeep(rules: seq<Rule>, t: Transforms, k: Repeats, passes: nat)
    requires AllOk(rules, AnyCounts) && GroupTransform in t
    ensures |Passed(rules, t, passes)| == |rules| && AllOk(Passed(rules, t, passes), AnyCounts)
    ensures AllFit(Passed(rules, t, passes), k) <==> AllFit(rules, k)
    ensures passes > 0 ==> (AllOk(Passed(rules, t, passes), k) <==> AllFit(rules, k))
  {
    hide AllOk, AllFit;
    if passes > 0 {
      PassesKeep(rules, t, k, passes - 1);
      PassKeeps(Passed(rules, t, passes - 1), t, k);
    }
  }

  lemma AllOkWider(rules: seq<Rule>, k: Repeats, l: Repeats)
    requires AllOk(rules, k) && Stricter(k, l)
    ensures AllOk(rules, l)
  {
    hide AlternationOk;
    forall i | 0 <= i < |rules|
      ensures RuleOk(rules[i], l)
    {
      assert RuleOk(rules[i], k);
      OkWider(rules[i].alternation, k, l);
    }
  }

  lemma ExpandedIsFit(rules: seq<Rule>, k: Repeats)
    requires AllOk(rules, NoRepeats)
    ensures AllOk(Rewritten(rules, ExpandedAlternation), NoRepeats)
    ensures AllFit(Rewritten(rules, ExpandedAlternation), k)
  {
    hide AlternationFit, AlternationOk, ExpandedAlternation;
    forall i | 0 <= i < |rules|
      ensures AlternationOk(ExpandedAlternation(rules[i].alternation))
      ensures AlternationFit(ExpandedAlternation(rules[i].alternation), k)
    {
      assert RuleOk(rules[i]);
      ExpansionStaysPlain(rules[i].alternation, k);
    }
  }

  /** Whether simplification leaves lists in the rules. */
  predicate KeepsLists(options: Option<Options>) {
    options.Some? && options.value.simplify && !options.value.expandLists
  }

  /** Minifying parsed rules leaves well-formed ones, except that where lists
      are kept a repeated group that holds only a list leaves a repeated list. */
  lemma MinifiedIsOkIff(rules: seq<Rule>, options: Option<Options>, k: Repeats)
    requires AllOk(rules, NoRepeats)
    ensures |Minified(rules, options)| == |rules| && AllOk(Minified(rules, options), AnyCounts)
    ensures AllOk(Minified(rules, options), k) <==> (KeepsLists(options) ==> AllFit(rules, k))
  {
    hide AllOk, AllFit, ExpandedAlternation, Passed;
    AllOkWider(rules, NoRepeats, AnyCounts);
    AllOkWider(rules, NoRepeats, k);
    if options.Some? {
      var o := options.value;
      var expanded := if o.expandLists then Rewritten(rules, ExpandedAlternation) else rules;
      if o.expandLists {
        ExpandedIsFit(rules, k);
        AllOkWider(expanded, NoRepeats, AnyCounts);
        AllOkWider(expanded, NoRepeats, k);
      }
      if o.simplify {
        PassesKeep(expanded, ALL_TRANSFORMS, k, 2);
      }
    }
  }

  /** The definition that is written is parsed again if and only if, where
      lists are kept, no group that holds only a list is repeated between two
      counts. Otherwise the verification of the written text fails. */
  lemma MinifiedTextParses(rules: seq<Rule>, options: Option<Options>, outcome: Parser.Outcome)
    requires rules != [] && AllOk(rules, NoRepeats)
    ensures Derivations.IsAscii(Text.RulesText(Minified(rules, options)))
    ensures Parser.Answered(Rules.ABNF_GRAMMAR, "rulelist",
                            Derivations.BytesOf(Text.RulesText(Minified(rules, options))), outcome) ==>
              outcome.Solutions? && (outcome.paths != [] <==> (KeepsLists(options) ==> AllFit(rules, EqualCounts)))
  {
    hide RuleOk, AllFit, Minified, Text.RulesText, Rules.ABNF_GRAMMAR, Parser.Answered, Derives;
    var minified := Minified(rules, options);
    MinifiedIsOkIff(rules, options, EqualCounts);
    WrittenScan.TextDerivableIff(minified);
    if Parser.Answered(Rules.ABNF_GRAMMAR, "rulelist", Derivations.BytesOf(Text.RulesText(minified)), outcome) {
      AbnfParses.WrittenTextParses(minified, outcome);
    }
  }

  // ----- nothing left to simplify -----

  /** Minifying what simplification left changes nothing. */
  lemma MinifiedIsSettled(rules: seq<Rule>, o: Options)
    requires o.simplify
    ensures Minified(Minified(rules, Some(o)), Some(Options(true, false))) == Minified(rules, Some(o))
  {
    hide Passed, SimplifiedRules, ExpandedAlternation;
    var expanded := if o.expandLists then Rewritten(rules, ExpandedAlternation) else rules;
    SettledRules(expanded, ALL_TRANSFORMS);
    SettledStays(Passed(expanded, ALL_TRANSFORMS, 2), ALL_TRANSFORMS);
  }

  lemma SettledStays(rules: seq<Rule>, t: Transforms)
    requires SimplifiedRules(rules, t) == rules
    ensures Passed(rules, t, 2) == rules
  {
    hide SimplifiedRules;
    assert Passed(rules, t, 0) == rules && Passed(rules, t, 1) == rules;
  }
}
