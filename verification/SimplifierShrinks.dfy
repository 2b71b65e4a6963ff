/** A simplification pass leaves a grammar as it was or makes its text strictly
    shorter, so repeated passes settle. */
module SimplifierShrinks {
  import opened Spans
  import opened Wrappers
  import opened Abnf
  import opened Text
  import opened Rewriting
  import opened Simplifier
  import opened SimplifierLanguage

  /** One separator stands between two texts that are both there. */
  function Separators(left: nat, right: nat): nat {
    if left > 0 && right > 0 then 1 else 0
  }

  lemma {:induction false} JoinLength(xs: seq<string>, ys: seq<string>, separator: string)
    requires |separator| == 1
    ensures |Join(xs + ys, separator)|
         == |Join(xs, separator)| + |Join(ys, separator)| + Separators(|xs|, |ys|)
  {
    if ys == [] {
      assert xs + ys == xs;
    } else {
      assert (xs + ys)[..|xs + ys| - 1] == xs + ys[..|ys| - 1];
      JoinLength(xs, ys[..|ys| - 1], separator);
      if |ys| == 1 && xs == [] {
        assert xs + ys == ys;
      }
    }
  }

  lemma {:induction false} AlternativesLength(xs: seq<Concatenation>, ys: seq<Concatenation>)
    ensures |AlternativesText(xs + ys)| == |AlternativesText(xs)| + |AlternativesText(ys)| + Separators(|xs|, |ys|)
  {
    if ys == [] {
      assert xs + ys == xs;
    } else {
      assert (xs + ys)[..|xs + ys| - 1] == xs + ys[..|ys| - 1];
      AlternativesLength(xs, ys[..|ys| - 1]);
    }
  }

  lemma {:induction false} RepetitionsLength(xs: seq<Repetition>, ys: seq<Repetition>)
    ensures |RepetitionsText(xs + ys)| == |RepetitionsText(xs)| + |RepetitionsText(ys)| + Separators(|xs|, |ys|)
  {
    if ys == [] {
      assert xs + ys == xs;
    } else {
      assert (xs + ys)[..|xs + ys| - 1] == xs + ys[..|ys| - 1];
      RepetitionsLength(xs, ys[..|ys| - 1]);
    }
  }

  /** Replacing a front and a last part by parts that are the same or shorter. */
  lemma ReplacedAlternatives(front: seq<Concatenation>, front': seq<Concatenation>,
                             last: Concatenation, end: seq<Concatenation>)
    requires front' == front || |AlternativesText(front')| < |AlternativesText(front)|
    requires end == [last] || |AlternativesText(end)| < |AlternativesText([last])|
    ensures front' + end == front + [last]
         || |AlternativesText(front' + end)| < |AlternativesText(front + [last])|
  {
    AlternativesLength(front', end);
    AlternativesLength(front, [last]);
  }

  lemma ReplacedRepetitions(front: seq<Repetition>, front': seq<Repetition>, last: Repetition, end: seq<Repetition>)
    requires front' == front || |RepetitionsText(front')| < |RepetitionsText(front)|
    requires end == [last] || |RepetitionsText(end)| < |RepetitionsText([last])|
    ensures front' + end == front + [last]
         || |RepetitionsText(front' + end)| < |RepetitionsText(front + [last])|
  {
    RepetitionsLength(front', end);
    RepetitionsLength(front, [last]);
  }

  lemma SingleTexts(c: Concatenation, r: Repetition)
    ensures AlternativesText([c]) == ConcatenationText(c)
    ensures RepetitionsText([r]) == RepetitionText(r)
  {
    assert [c][..0] == [] && [r][..0] == [];
  }

  lemma SingleTextLength(r: Repetition)
    requires IsSingle(r)
    ensures |RepetitionText(r)| == |ElementText(r.element)|
  {
  }

  lemma GroupTextLength(r: Repetition)
    requires IsSingle(r) && r.element.Group?
    ensures |RepetitionText(r)| == |AlternationText(r.element.alternation)| + 2
  {
    SingleTextLength(r);
  }

  lemma NumValShrinks(base: string, status: NumValStatus, values: seq<string>)
    ensures var e := SimplifiedNumVal(base, status, values);
            e == NumVal(base, status, values) || |ElementText(e)| < |NumValText(base, status, values)|
  {
    if status == Range && |values| == 2 {
      JoinLength([values[0]], [values[1]], "-");
      assert values == [values[0]] + [values[1]];
      assert |NumValText(base, Range, values)| == 1 + |base| + |values[0]| + 1 + |values[1]|;
      assert |NumValText(base, Series, [values[0]])| == 1 + |base| + |values[0]|;
    }
  }

  lemma MergedElementShrinks(left: Element, right: Element)
    requires MergedElement(left, right).Some?
    ensures |ElementText(MergedElement(left, right).value)| < |ElementText(left)| + 1 + |ElementText(right)|
  {
    if left.NumVal? {
      JoinLength(left.values, right.values, ".");
    }
  }

  lemma RefinedShrinks(left: Element, right: Element, t: Transforms)
    requires MergedElement(left, right).Some?
    ensures |ElementText(Refined(MergedElement(left, right).value, t))| < |ElementText(left)| + 1 + |ElementText(right)|
  {
    hide MergedElement, SimplifiedNumVal;
    MergedElementShrinks(left, right);
    var e := MergedElement(left, right).value;
    if e.NumVal? {
      NumValShrinks(e.base, e.status, e.values);
    }
  }

  lemma JoinedShrinks(merged: seq<Repetition>, r: Repetition, t: Transforms)
    ensures Joined(merged, r, t) == merged + [r]
         || |RepetitionsText(Joined(merged, r, t))| < |RepetitionsText(merged + [r])|
  {
    hide MergedElement, Refined, ElementText, RepetitionsText, RepetitionText;
    if Joined(merged, r, t) != merged + [r] {
      var front, last := merged[..|merged| - 1], merged[|merged| - 1];
      RefinedShrinks(last.element, r.element, t);
      var joined := One(Refined(MergedElement(last.element, r.element).value, t));
      assert front + [last] == merged;
      RepetitionsLength(front, [joined]);
      RepetitionsLength(front, [last]);
      RepetitionsLength(merged, [r]);
      SingleTexts(Cat([]), joined);
      SingleTexts(Cat([]), last);
      SingleTexts(Cat([]), r);
      SingleTextLength(joined);
      SingleTextLength(last);
      SingleTextLength(r);
    }
  }

  lemma {:induction false} MergedLiteralsShrink(rs: seq<Repetition>, t: Transforms)
    ensures MergedLiterals(rs, t) == rs || |RepetitionsText(MergedLiterals(rs, t))| < |RepetitionsText(rs)|
  {
    if LiteralTransform in t && rs != [] {
      var front, last := rs[..|rs| - 1], rs[|rs| - 1];
      assert rs == front + [last];
      MergedLiteralsShrink(front, t);
      ReplacedRepetitions(front, JoinedAll(front, t), last, [last]);
      JoinedShrinks(JoinedAll(front, t), last, t);
    }
  }

  lemma SplicedConcatenationShrinks(c: Concatenation, t: Transforms)
    ensures SplicedConcatenation(c, t) == [c]
         || |AlternativesText(SplicedConcatenation(c, t))| < |AlternativesText([c])|
  {
    if SoleGroup(c, t).Some? {
      SingleTexts(c, c.repetitions[0]);
      assert c.repetitions == [c.repetitions[0]];
      GroupTextLength(c.repetitions[0]);
    }
  }

  lemma SplicedRepetitionShrinks(r: Repetition, t: Transforms)
    ensures SplicedRepetition(r, t) == [r]
         || |RepetitionsText(SplicedRepetition(r, t))| < |RepetitionsText([r])|
  {
    if r.element.Group? && |r.element.alternation.concatenations| == 1 {
      var cs := r.element.alternation.concatenations;
      assert cs == [cs[0]];
      SingleTexts(cs[0], r);
      if IsSingle(r) {
        GroupTextLength(r);
      }
    }
  }

  lemma {:induction false} AlternativesShrink(cs: seq<Concatenation>, t: Transforms)
    ensures SimplifiedAlternatives(cs, t) == cs
         || |AlternativesText(SimplifiedAlternatives(cs, t))| < |AlternativesText(cs)|
    decreases cs, 0
  {
    if cs != [] {
      var front, last := cs[..|cs| - 1], cs[|cs| - 1];
      var front', end := SimplifiedAlternatives(front, t), SplicedConcatenation(SimplifiedConcatenation(last, t), t);
      assert cs == front + [last] && SimplifiedAlternatives(cs, t) == front' + end;
      AlternativesShrink(front, t);
      ContributionShrinks(last, t);
      ReplacedAlternatives(front, front', last, end);
    }
  }

  /** What takes the place of a concatenation is the same or shorter. */
  lemma {:induction false} ContributionShrinks(c: Concatenation, t: Transforms)
    ensures SplicedConcatenation(SimplifiedConcatenation(c, t), t) == [c]
         || |AlternativesText(SplicedConcatenation(SimplifiedConcatenation(c, t), t))| < |AlternativesText([c])|
    decreases c, 2
  {
    var c' := SimplifiedConcatenation(c, t);
    ConcatenationShrinks(c, t);
    SplicedConcatenationShrinks(c', t);
    SingleTexts(c, One(ProseVal("")));
    SingleTexts(c', One(ProseVal("")));
  }

  lemma {:induction false} ConcatenationShrinks(c: Concatenation, t: Transforms)
    ensures SimplifiedConcatenation(c, t) == c
         || |ConcatenationText(SimplifiedConcatenation(c, t))| < |ConcatenationText(c)|
    decreases c, 1
  {
    RepetitionsShrink(c.repetitions, t);
    MergedLiteralsShrink(SimplifiedRepetitions(c.repetitions, t), t);
  }

  lemma {:induction false} RepetitionsShrink(rs: seq<Repetition>, t: Transforms)
    ensures SimplifiedRepetitions(rs, t) == rs
         || |RepetitionsText(SimplifiedRepetitions(rs, t))| < |RepetitionsText(rs)|
    decreases rs, 0
  {
    if rs != [] {
      var front, last := rs[..|rs| - 1], rs[|rs| - 1];
      var front', end := SimplifiedRepetitions(front, t), SplicedRepetition(SimplifiedRepetition(last, t), t);
      assert rs == front + [last] && SimplifiedRepetitions(rs, t) == front' + end;
      RepetitionsShrink(front, t);
      InsertionShrinks(last, t);
      ReplacedRepetitions(front, front', last, end);
    }
  }

  /** What takes the place of a repetition is the same or shorter. */
  lemma {:induction false} InsertionShrinks(r: Repetition, t: Transforms)
    ensures SplicedRepetition(SimplifiedRepetition(r, t), t) == [r]
         || |RepetitionsText(SplicedRepetition(SimplifiedRepetition(r, t), t))| < |RepetitionsText([r])|
    decreases r, 2
  {
    var r' := SimplifiedRepetition(r, t);
    RepetitionShrinks(r, t);
    SplicedRepetitionShrinks(r', t);
    SingleTexts(Cat([]), r);
    SingleTexts(Cat([]), r');
  }

  lemma {:induction false} RepetitionShrinks(r: Repetition, t: Transforms)
    ensures SimplifiedRepetition(r, t) == r
         || |RepetitionText(SimplifiedRepetition(r, t))| < |RepetitionText(r)|
    decreases r, 1
  {
    ElementShrinks(r.element, t);
  }

  lemma {:induction false} ElementShrinks(e: Element, t: Transforms)
    ensures SimplifiedElement(e, t) == e || |ElementText(SimplifiedElement(e, t))| < |ElementText(e)|
    decreases e, 0
  {
    match e
    case Group(a) =>
      AlternativesShrink(a.concatenations, t);
      var a' := SimplifiedAlternation(a, t);
      if SoleElement(a').Some? {
        var c := a'.concatenations[0];
        assert a'.concatenations == [c] && c.repetitions == [c.repetitions[0]];
        SingleTexts(c, c.repetitions[0]);
      }
    case Optional(a) => AlternativesShrink(a.concatenations, t);
    case NumVal(base, status, values) => NumValShrinks(base, status, values);
    case _ =>
  }

  lemma {:induction false} RulesShrink(rules: seq<Rule>, t: Transforms)
    ensures SimplifiedRules(rules, t) == rules
         || |RulesText(SimplifiedRules(rules, t))| < |RulesText(rules)|
  {
    if rules != [] {
      var front, last := rules[..|rules| - 1], rules[|rules| - 1];
      assert SimplifiedRules(rules, t)[..|rules| - 1] == SimplifiedRules(front, t);
      RulesShrink(front, t);
      AlternativesShrink(last.alternation.concatenations, t);
      assert rules == front + [last];
    }
  }

  /** A pass that leaves the text of a grammar as it was has changed nothing. */
  lemma SameTextSameGrammar(g: Grammar, t: Transforms)
    requires RulesText(SimplifiedGrammar(g, t).rules) == RulesText(g.rules)
    ensures SimplifiedGrammar(g, t) == g
  {
    RulesShrink(g.rules, t);
  }
}
