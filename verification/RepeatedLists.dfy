/** What a repeated list is read as once it is written
    (pkg/abnf/minify/minify.go:164-209): its repeat count and the least count of
    the list stand next to each other, and are read as one number. */
module RepeatedLists {
  import opened Spans
  import opened Utf8
  import opened Wrappers
  import opened Abnf
  import opened Denotation
  import opened LanguageEquations
  import opened Lists
  import opened Rewriting
  import opened Simplifier
  import opened SimplifierSettles
  import opened SimplifierKeeps
  import opened Text
  import opened TextDerivable
  import opened Minifier
  import opened OneReading
  import opened MinifierLaws

  // ----- counts that run together -----

  /** The number whose digits are those of one number and then those of another. */
  function Followed(n: nat, m: nat): nat {
    if m < 10 then 10 * n + m else 10 * Followed(n, m / 10) + m % 10
  }

  lemma {:induction false} FollowedText(n: nat, m: nat)
    requires n > 0
    ensures Followed(n, m) > 0 && Itoa(Followed(n, m)) == Itoa(n) + Itoa(m)
  {
    if m < 10 {
      assert (10 * n + m) / 10 == n && (10 * n + m) % 10 == m;
    } else {
      FollowedText(n, m / 10);
      var f := Followed(n, m / 10);
      assert (10 * f + m % 10) / 10 == f && (10 * f + m % 10) % 10 == m % 10;
      assert Itoa(n) + Itoa(m / 10) + [(m % 10 + 48) as char] == Itoa(n) + Itoa(m);
    }
  }

  /** The least count that the reader of a repeated list sees. */
  function ReadCount(n: nat, min: nat): nat {
    if min == 0 then n else Followed(n, min)
  }

  lemma ReadCountText(n: nat, min: nat)
    requires n > 0
    ensures ReadCount(n, min) > 0 && CountText(ReadCount(n, min)) == Itoa(n) + CountText(min)
  {
    FollowedText(n, min);
  }

  lemma {:induction false} NoLeadingZero(n: nat)
    requires n > 0
    ensures Itoa(n) != "" && Itoa(n)[0] != '0'
  {
    if n >= 10 {
      NoLeadingZero(n / 10);
    }
  }

  // ----- one repeated list -----

  /** A list as the parser builds it. */
  function ListOperator(min: nat, max: Bound, e: Element): Element {
    List(min, max, e, ExpandList(min, max, e))
  }

  /** What a list with one repeat count is read as. */
  lemma RepeatedListText(n: nat, min: nat, max: Bound, e: Element, x: Alternation)
    requires n >= 2
    ensures RepetitionText(Repetition(n, n, List(min, max, e, x)))
         == RepetitionText(One(ListOperator(ReadCount(n, min), max, e)))
  {
    hide Itoa, ElementText, ReadCount;
    ReadCountText(n, min);
    assert Itoa(n) + (CountText(min) + "#" + BoundText(max) + ElementText(e))
        == Itoa(n) + CountText(min) + "#" + BoundText(max) + ElementText(e);
    ListText(n, n, min, max, e, x);
    ListText(1, 1, ReadCount(n, min), max, e, ExpandList(ReadCount(n, min), max, e));
  }

  lemma ListText(n: nat, m: Bound, min: nat, max: Bound, e: Element, x: Alternation)
    ensures RepetitionText(Repetition(n, m, List(min, max, e, x)))
         == RepeatText(n, m) + (CountText(min) + "#" + BoundText(max) + ElementText(e))
  {
  }

  /** The first character after some digits. */
  predicate MarkAt(t: string, digits: nat, mark: char) {
    digits < |t| && t[digits] == mark && forall i :: 0 <= i < digits ==> IsDigit(t[i])
  }

  lemma OneMark(t: string, m: nat, n: nat, c: char, d: char)
    requires MarkAt(t, m, c) && MarkAt(t, n, d) && !IsDigit(c) && !IsDigit(d)
    ensures m == n && c == d
  {
  }

  lemma UnrepeatedMark(r: Repetition)
    requires IsSingle(r) && r.element.List?
    ensures MarkAt(RepetitionText(r), |CountText(r.element.min)|, '#')
    ensures RepetitionText(r)[0] != '0'
  {
    hide ElementText;
    var e := r.element;
    CountsAreDigits(e.min, e.max);
    ListText(1, 1, e.min, e.max, e.element, e.expansion);
    var t := RepetitionText(r);
    assert t == CountText(e.min) + "#" + BoundText(e.max) + ElementText(e.element);
    assert forall i :: 0 <= i < |CountText(e.min)| ==> t[i] == CountText(e.min)[i];
    if e.min > 0 {
      NoLeadingZero(e.min);
    }
  }

  lemma RangedMark(n: nat, m: Bound, min: nat, max: Bound, e: Element, x: Alternation)
    requires n != m
    ensures MarkAt(RepetitionText(Repetition(n, m, List(min, max, e, x))), |CountText(n)|, '*')
  {
    hide ElementText;
    CountsAreDigits(n, m);
    ListText(n, m, min, max, e, x);
    var t := RepetitionText(Repetition(n, m, List(min, max, e, x)));
    assert t == CountText(n) + "*" + BoundText(m) + (CountText(min) + "#" + BoundText(max) + ElementText(e));
    assert forall i :: 0 <= i < |CountText(n)| ==> t[i] == CountText(n)[i];
  }

  lemma ZeroFirst(min: nat, max: Bound, e: Element, x: Alternation)
    ensures RepetitionText(Repetition(0, 0, List(min, max, e, x)))
         == "0" + RepetitionText(One(List(min, max, e, x)))
  {
    hide ElementText;
    ListText(0, 0, min, max, e, x);
    ListText(1, 1, min, max, e, x);
  }

  /** The text of an unrepeated list. */
  predicate IsListText(r: Repetition, t: string) {
    IsSingle(r) && r.element.List? && RepetitionText(r) == t
  }

  /** A repeated list is written as an unrepeated list is, if and only if it is
      repeated one and the same number of times, other than zero. Repeated no
      times, it is written with a zero before its least count. */
  lemma WrittenAsUnrepeatedIff(n: nat, m: Bound, min: nat, max: Bound, e: Element, x: Alternation)
    ensures var t := RepetitionText(Repetition(n, m, List(min, max, e, x)));
            (exists r :: IsListText(r, t)) <==> n == m && n > 0
    ensures n == m == 0 ==>
              RepetitionText(Repetition(n, m, List(min, max, e, x))) == "0" + RepetitionText(One(List(min, max, e, x)))
  {
    hide RepetitionText;
    var r := Repetition(n, m, List(min, max, e, x));
    var t := RepetitionText(r);
    if n == m && n > 0 {
      if n == 1 {
        assert IsListText(r, t);
      } else {
        RepeatedListText(n, min, max, e, x);
        assert IsListText(One(ListOperator(ReadCount(n, min), max, e)), t);
      }
    } else {
      if n != m {
        RangedMark(n, m, min, max, e, x);
      } else {
        ZeroFirst(min, max, e, x);
      }
      if other :| IsListText(other, t) {
        UnrepeatedMark(other);
        if n != m {
          OneMark(t, |CountText(n)|, |CountText(other.element.min)|, '*', '#');
        }
      }
    }
  }

  // ----- whole trees -----

  function Respelled(a: Alternation): Alternation
    decreases a, 1
  {
    Alternation(RespelledAlternatives(a.concatenations))
  }

  function RespelledAlternatives(cs: seq<Concatenation>): (cs': seq<Concatenation>)
    ensures |cs'| == |cs|
    decreases cs, 0
  {
    if cs == [] then []
    else
      RespelledAlternatives(cs[..|cs| - 1])
      + [Cat(RespelledRepetitions(cs[|cs| - 1].repetitions))]
  }

  function RespelledRepetitions(rs: seq<Repetition>): (rs': seq<Repetition>)
    ensures |rs'| == |rs|
    decreases rs, 0
  {
    if rs == [] then [] else RespelledRepetitions(rs[..|rs| - 1]) + [RespelledRepetition(rs[|rs| - 1])]
  }

  /** A list repeated several times as the list that its text is read as. */
  function RespelledRepetition(r: Repetition): Repetition
    decreases r, 1
  {
    if r.element.List? then
      if r.min == r.max >= 2 then One(ListOperator(ReadCount(r.min, r.element.min), r.element.max, r.element.element))
      else r
    else Repetition(r.min, r.max, RespelledElement(r.element))
  }

  function RespelledElement(e: Element): Element
    decreases e, 0
  {
    match e
    case Group(a) => Group(Respelled(a))
    case Optional(a) => Optional(Respelled(a))
    case _ => e
  }

  /** Respelling changes no text; it leaves a tree that the parser could have
      built, and another one than before unless that was one. */
  lemma {:induction false} RespelledAlternativesRight(cs: seq<Concatenation>)
    requires forall i :: 0 <= i < |cs| ==> ConcatenationOk(cs[i], PositiveCounts)
    ensures AlternativesText(RespelledAlternatives(cs)) == AlternativesText(cs)
    ensures forall i :: 0 <= i < |cs| ==> ConcatenationOk(RespelledAlternatives(cs)[i])
    ensures RespelledAlternatives(cs) == cs <==> forall i :: 0 <= i < |cs| ==> ConcatenationOk(cs[i])
    decreases cs, 0
  {
    hide ConcatenationOk, RespelledRepetitions, RepetitionsText;
    if cs != [] {
      var front, last := cs[..|cs| - 1], cs[|cs| - 1];
      RespelledAlternativesRight(front);
      RespelledConcatenationRight(last);
      var front', last' := RespelledAlternatives(front), Cat(RespelledRepetitions(last.repetitions));
      assert cs == front + [last];
      assert RespelledAlternatives(cs) == front' + [last'];
      assert (front' + [last'])[..|cs| - 1] == front';
      SameSnoc(front, last, front', last');
    }
  }

  lemma SameSnoc<T>(front: seq<T>, last: T, front': seq<T>, last': T)
    requires |front| == |front'|
    ensures front' + [last'] == front + [last] <==> front' == front && last' == last
  {
    var s, s' := front + [last], front' + [last'];
    assert s[..|front|] == front && s'[..|front|] == front' && s[|front|] == last && s'[|front|] == last';
  }

  lemma {:induction false} RespelledConcatenationRight(c: Concatenation)
    requires ConcatenationOk(c, PositiveCounts)
    ensures var c' := Cat(RespelledRepetitions(c.repetitions));
            && ConcatenationText(c') == ConcatenationText(c) && ConcatenationOk(c')
            && (c' == c <==> ConcatenationOk(c))
    decreases c, 1
  {
    hide RepetitionOk, RepetitionsText, RespelledRepetitions;
    RespelledRepetitionsRight(c.repetitions);
  }

  lemma {:induction false} RespelledRepetitionsRight(rs: seq<Repetition>)
    requires forall i :: 0 <= i < |rs| ==> RepetitionOk(rs[i], PositiveCounts)
    ensures RepetitionsText(RespelledRepetitions(rs)) == RepetitionsText(rs)
    ensures forall i :: 0 <= i < |rs| ==> RepetitionOk(RespelledRepetitions(rs)[i])
    ensures RespelledRepetitions(rs) == rs <==> forall i :: 0 <= i < |rs| ==> RepetitionOk(rs[i])
    decreases rs, 0
  {
    hide RepetitionOk, RespelledRepetition, RepetitionText;
    if rs != [] {
      var front, last := rs[..|rs| - 1], rs[|rs| - 1];
      RespelledRepetitionsRight(front);
      RespelledRepetitionRight(last);
      var front', last' := RespelledRepetitions(front), RespelledRepetition(last);
      assert rs == front + [last];
      assert RespelledRepetitions(rs) == front' + [last'];
      assert (front' + [last'])[..|rs| - 1] == front';
      SameSnoc(front, last, front', last');
    }
  }

  lemma {:induction false} RespelledRepetitionRight(r: Repetition)
    requires RepetitionOk(r, PositiveCounts)
    ensures RepetitionText(RespelledRepetition(r)) == RepetitionText(r)
    ensures RepetitionOk(RespelledRepetition(r))
    ensures RespelledRepetition(r) == r <==> RepetitionOk(r)
    decreases r, 1
  {
    if r.element.List? {
      if r.min == r.max >= 2 {
        RepeatedListText(r.min, r.element.min, r.element.max, r.element.element, r.element.expansion);
      }
    } else {
      RespelledElementRight(r.element);
    }
  }

  lemma {:induction false} RespelledElementRight(e: Element)
    requires ElementOk(e, PositiveCounts)
    ensures ElementText(RespelledElement(e)) == ElementText(e) && ElementOk(RespelledElement(e))
    ensures !RespelledElement(e).List? && (RespelledElement(e) == e <==> ElementOk(e))
    decreases e, 0
  {
    hide ConcatenationOk, AlternativesText;
    match e
    case Group(a) => RespelledAlternativesRight(a.concatenations);
    case Optional(a) => RespelledAlternativesRight(a.concatenations);
    case _ =>
  }

  lemma RespelledRight(a: Alternation)
    requires AlternationOk(a, PositiveCounts)
    ensures AlternationText(Respelled(a)) == AlternationText(a) && AlternationOk(Respelled(a))
    ensures Respelled(a) == a <==> AlternationOk(a)
  {
    hide ConcatenationOk, AlternativesText;
    RespelledAlternativesRight(a.concatenations);
  }

  // ----- whole grammars -----

  function RespelledRules(rules: seq<Rule>): seq<Rule> {
    Rewritten(rules, Respelled)
  }

  lemma {:induction false} RespelledRulesText(rules: seq<Rule>)
    requires AllOk(rules, PositiveCounts)
    ensures RulesText(RespelledRules(rules)) == RulesText(rules)
  {
    hide RuleText, AlternationOk, Respelled;
    if rules != [] {
      var front, last := rules[..|rules| - 1], rules[|rules| - 1];
      assert RuleOk(last, PositiveCounts) && forall i :: 0 <= i < |front| ==> front[i] == rules[i];
      RespelledRulesText(front);
      assert RespelledRules(rules)[..|rules| - 1] == RespelledRules(front);
      RespelledRuleText(last);
    }
  }

  lemma RespelledRuleText(rule: Rule)
    requires AlternationOk(rule.alternation, PositiveCounts)
    ensures RuleText(Rule(rule.name, Respelled(rule.alternation))) == RuleText(rule)
  {
    hide AlternationOk, Respelled, AlternationText;
    RespelledRight(rule.alternation);
  }

  lemma RespelledRulesRight(rules: seq<Rule>)
    requires AllOk(rules, PositiveCounts)
    ensures AllOk(RespelledRules(rules), NoRepeats)
    ensures RespelledRules(rules) == rules <==> AllOk(rules, NoRepeats)
  {
    hide AlternationOk, Respelled;
    forall i | 0 <= i < |rules|
      ensures RuleOk(RespelledRules(rules)[i])
      ensures RespelledRules(rules)[i] == rules[i] <==> RuleOk(rules[i])
    {
      assert RuleOk(rules[i], PositiveCounts);
      RespelledRight(rules[i].alternation);
    }
  }

  /** What minification writes for parsed rules, as long as no group that holds
      only a list, where lists are kept, is repeated between two counts or no
      times, is the text of well-formed rules, and of no others but for the
      expansions that lists keep. They are the minified rules themselves if and
      only if no group that holds only a list is repeated at all. */
  lemma MinifiedTextReadsAs(rules: seq<Rule>, options: Option<Options>)
    requires AllOk(rules, NoRepeats) && (KeepsLists(options) ==> AllFit(rules, PositiveCounts))
    ensures var minified := Minified(rules, options);
            && RulesText(RespelledRules(minified)) == RulesText(minified) && AllOk(RespelledRules(minified), NoRepeats)
            && (RespelledRules(minified) == minified <==> (KeepsLists(options) ==> AllFit(rules, NoRepeats)))
    ensures forall others :: AllOk(others, NoRepeats) && RulesText(others) == RulesText(Minified(rules, options)) ==>
              BareRules(others) == BareRules(RespelledRules(Minified(rules, options)))
  {
    hide AllFit, Minified, RespelledRules, RulesText, BareRules, RuleOk;
    MinifiedIsOkIff(rules, options, PositiveCounts);
    MinifiedIsOkIff(rules, options, NoRepeats);
    RespelledRulesText(Minified(rules, options));
    RespelledRulesRight(Minified(rules, options));
    forall others | AllOk(others, NoRepeats) && RulesText(others) == RulesText(Minified(rules, options))
      ensures BareRules(others) == BareRules(RespelledRules(Minified(rules, options)))
    {
      SameTextIff(others, RespelledRules(Minified(rules, options)));
    }
  }

  // ----- a definition that changes its meaning -----

  function Defining(r: Repetition): seq<Rule> {
    [Rule("a", Alternation([Cat([r])]))]
  }

  /** For instance a=2(#e). */
  function RepeatedGroup(n: nat, max: Bound, e: Element): Repetition {
    Repetition(n, n, Grp([Cat([One(ListOperator(0, max, e))])]))
  }

  /** What a rule of one repetition derives. */
  lemma DefinedMeans(r: Repetition, core: seq<Rule>, s: Bytes)
    ensures var g := Grammar(Defining(r), core); Language(g, "a", s) == RepetitionRel(r, Languages(g, s), s)
  {
    hide RepetitionRel;
    var g, rules := Grammar(Defining(r), core), Defining(r);
    var env := Languages(g, s);
    assert rules[0] == Rule("a", Alternation([Cat([r])])) && LookupIn(rules, Lower("a")) == Some(rules[0]);
    assert g.Lookup("a") == Some(rules[0]);
    LanguageEquation(g, "a", s);
    SingleConcatenation(Cat([r]), env, s);
    SingleRepetition(r, env, s);
  }

  lemma {:induction false} PowerStays(rel: Rel, count: nat, i: nat)
    requires (i, i) in rel
    ensures (i, i) in Power(rel, count)
  {
    if count > 0 {
      PowerStays(rel, count - 1, i);
    }
  }

  /** Any number of lists that may be empty is empty at times. */
  lemma GroupMatchesNothing(n: nat, max: Bound, e: Element, env: Environment, s: Bytes)
    ensures (0, 0) in RepetitionRel(RepeatedGroup(n, max, e), env, s)
  {
    hide ExpandList, Power, ExpansionRel, ElementRel, RepetitionsRel, AlternativesRel;
    var list := ListOperator(0, max, e);
    var rel := ElementRel(Grp([Cat([One(list)])]), env, s);
    GroupMeaning([One(list)], env, s);
    SingleRepetition(One(list), env, s);
    OneMeaning(list, env, s);
    ListMeans(0, max, e, env, s);
    EmptyExpansion(max, ElementRel(e, env, s), env(OWS), Comma(s));
    PowerStays(rel, n, 0);
    assert Permits(n, n, n) && (0, 0) in Power(rel, n);
  }

  lemma ListMeans(min: nat, max: Bound, e: Element, env: Environment, s: Bytes)
    ensures ElementRel(ListOperator(min, max, e), env, s)
         == ExpansionRel(min, max, ElementRel(e, env, s), env(OWS), Comma(s))
  {
    hide ExpandList, ExpansionRel;
    ExpansionMeaning(min, max, e, env, s);
  }

  lemma EmptyExpansion(max: Bound, e: Rel, ows: Rel, comma: Rel)
    ensures (0, 0) in ExpansionRel(0, max, e, ows, comma)
  {
    if max == INF {
      OptionalIs(Compose(comma + e, TolerantRel(e, ows, comma)), (0, 0));
    } else {
      OptionalIs(Compose(e, Repeat(0, RemainingMaximum(max), Compose(Separator(ows, comma), e))), (0, 0));
    }
  }

  /** A list of at least two elements holds a comma. */
  lemma ListNeedsComma(n: nat, max: Bound, e: Element, env: Environment)
    requires n >= 2
    ensures (0, 0) !in RepetitionRel(One(ListOperator(n, max, e)), env, [])
  {
    hide ExpandList, ElementRel, Elements;
    OneMeaning(ListOperator(n, max, e), env, []);
    ListMeans(n, max, e, env, []);
    var rel, ows, comma := ElementRel(e, env, []), env(OWS), Comma([]);
    BoundedList(n, max, rel, ows, comma);
    if (0, 0) in ListOf(n, max, rel, Separator(ows, comma)) {
      var count: nat :| Permits(n, max, count) && (0, 0) in Elements(count, rel, Separator(ows, comma));
      NoElements(count, rel, ows, comma);
    }
  }

  lemma NoElements(count: nat, e: Rel, ows: Rel, comma: Rel)
    requires count >= 2 && comma == iset{}
    ensures Elements(count, e, Separator(ows, comma)) == iset{}
  {
    var separator := Separator(ows, comma);
    assert separator == iset{};
    assert Compose(separator, e) == iset{};
    assert Power(Compose(separator, e), count - 1) == iset{};
  }

  /** A group that holds only a list is replaced by the list. */
  lemma GroupDropped(n: nat, max: Bound, e: Element, t: Transforms)
    requires GroupTransform in t && n >= 2
    ensures SimplifiedAlternation(Defining(RepeatedGroup(n, max, e))[0].alternation, t)
         == Alternation([Cat([Repetition(n, n, ListOperator(0, max, e))])])
    ensures SimplifiedAlternation(Alternation([Cat([Repetition(n, n, ListOperator(0, max, e))])]), t)
         == Alternation([Cat([Repetition(n, n, ListOperator(0, max, e))])])
  {
    hide ExpandList, SimplifiedRepetitions, SimplifiedAlternatives, JoinedAll;
    var list := ListOperator(0, max, e);
    ListStays(list, t);
    OneSimplified(Cat([One(list)]), One(list), t);
    OneJoined(One(list), t);
    OneOfList(One(list), t);
    var inner := Grp([Cat([One(list)])]);
    assert SimplifiedElement(inner, t) == list;
    OneOfList(Repetition(n, n, inner), t);
    OneOfList(Repetition(n, n, list), t);
  }

  /** An alternation of one repetition that comes down to a list. */
  lemma OneOfList(r: Repetition, t: Transforms)
    requires SimplifiedElement(r.element, t).List?
    ensures SimplifiedAlternation(Alternation([Cat([r])]), t)
         == Alternation([Cat([Repetition(r.min, r.max, SimplifiedElement(r.element, t))])])
  {
    hide SimplifiedElement, SimplifiedRepetitions, SimplifiedAlternatives, JoinedAll;
    var r' := SimplifiedRepetition(r, t);
    OneSimplified(Cat([r]), r, t);
    assert SplicedRepetition(r', t) == [r'];
    OneJoined(r', t);
    assert SimplifiedConcatenation(Cat([r]), t) == Cat([r']);
    assert SplicedConcatenation(Cat([r']), t) == [Cat([r'])];
  }

  lemma OneRulePasses(n: nat, max: Bound, e: Element, t: Transforms)
    requires GroupTransform in t && n >= 2
    ensures Passed(Defining(RepeatedGroup(n, max, e)), t, 2) == Defining(Repetition(n, n, ListOperator(0, max, e)))
  {
    hide SimplifiedAlternation, ExpandList;
    var rules, list := Defining(RepeatedGroup(n, max, e)), Defining(Repetition(n, n, ListOperator(0, max, e)));
    GroupDropped(n, max, e, t);
    assert SimplifiedRules(rules, t) == list && SimplifiedRules(list, t) == list;
    assert Passed(rules, t, 0) == rules && Passed(rules, t, 1) == list;
  }

  /** The definition a=n(#e), simplified with its list kept, is written as
      a=n#e is, which does not match what it matches: the empty input, say,
      wherever the rules are used. */
  lemma MinifiedMeansAnother(n: nat, max: Bound, e: Element, core: seq<Rule>)
    requires n >= 2
    ensures var rules, other := Defining(RepeatedGroup(n, max, e)), Defining(One(ListOperator(n, max, e)));
            && RulesText(Minified(rules, Some(Options(true, false)))) == RulesText(other)
            && (0, 0) in Language(Grammar(rules, core), "a", [])
            && (0, 0) !in Language(Grammar(other, core), "a", [])
  {
    hide RepetitionRel, RepetitionText, Language, ExpandList, Passed;
    var group, list := RepeatedGroup(n, max, e), Repetition(n, n, ListOperator(0, max, e));
    var other := One(ListOperator(n, max, e));
    DefinedMeans(group, core, []);
    GroupMatchesNothing(n, max, e, Languages(Grammar(Defining(group), core), []), []);
    DefinedMeans(other, core, []);
    ListNeedsComma(n, max, e, Languages(Grammar(Defining(other), core), []));
    OneRulePasses(n, max, e, ALL_TRANSFORMS);
    RepeatedListText(n, 0, max, e, ExpandList(0, max, e));
    SameRuleText(list, other);
  }

  lemma SameRuleText(q: Repetition, r: Repetition)
    requires RepetitionText(q) == RepetitionText(r)
    ensures RulesText(Defining(q)) == RulesText(Defining(r))
  {
    hide RepetitionText;
    OneRuleText(q);
    OneRuleText(r);
  }

  lemma OneRuleText(r: Repetition)
    ensures RulesText(Defining(r)) == "a=" + RepetitionText(r) + "\r\n"
  {
    hide RepetitionText;
    var c, rules := Cat([r]), Defining(r);
    assert [r][..0] == [] && RepetitionsText([r]) == RepetitionText(r);
    assert [c][..0] == [] && AlternativesText([c]) == RepetitionText(r);
    assert rules[..0] == [] && RulesText([]) == "" && RulesText(rules) == RuleText(rules[0]);
  }
}
