/** Parsing grammar definitions: the grammar of ABNF is well-formed and guarded,
    so that the matcher of pkg/abnf/parse.go answers on every definition, and
    accepts the text that pkg/abnf/minify/minify.go writes. */
module AbnfParses {
  import opened Spans
  import opened Utf8
  import opened Wrappers
  import opened Abnf
  import opened Denotation
  import D = Derivations
  import opened SolverExact
  import opened SolverGuard
  import opened Parser
  import opened Rules
  import opened RulesGuard
  import A = AbnfSpelling
  import Text
  import WrittenScan
  import T = TextDerivable

  // ----- the grammar of ABNF is well-formed -----

  lemma RangeFormed(a: char, b: char, c: char, d: char)
    requires DigitValue(a) < 16 && DigitValue(b) < 16 && DigitValue(c) < 16 && DigitValue(d) < 16
    ensures WellFormed(NumRange([a, b], [c, d]))
  {
    hide DigitValue, ParseNumVal;
    A.TwoDigits(a, b);
    A.TwoDigits(c, d);
    var values, low, high := [[a, b], [c, d]], 16 * DigitValue(a) + DigitValue(b), 16 * DigitValue(c) + DigitValue(d);
    D.OneNumeral([a, b], low);
    assert values[..1] == [[a, b]] && Runes(values[..1], "x").Some?;
  }

  predicate FormedCat(rs: seq<Repetition>) {
    rs != [] && forall k :: 0 <= k < |rs| ==> WellFormed(rs[k].element)
  }

  lemma Formed(cs: seq<Concatenation>)
    requires forall i :: 0 <= i < |cs| ==> FormedCat(cs[i].repetitions)
    ensures WellFormed(Grp(cs)) && WellFormed(Opt(cs))
  {
    RuleFormed(Rule("", Alternation(cs)));
  }

  lemma RuleFormed(rule: Rule)
    requires forall i :: 0 <= i < |rule.alternation.concatenations| ==>
               FormedCat(rule.alternation.concatenations[i].repetitions)
    ensures AlternationWellFormed(rule.alternation)
  {
    forall i | 0 <= i < |rule.alternation.concatenations|
      ensures ConcatenationWellFormed(rule.alternation.concatenations[i])
    {
      assert FormedCat(rule.alternation.concatenations[i].repetitions);
    }
  }

  lemma SeriesFormed(a: char, b: char)
    requires DigitValue(a) < 16 && DigitValue(b) < 16
    ensures WellFormed(NumSeries([a, b]))
  {
    hide DigitValue, ParseNumVal, Runes;
    A.TwoDigits(a, b);
    D.OneNumeral([a, b], 16 * DigitValue(a) + DigitValue(b));
  }

  lemma AlphaRuleIsFormed()
    ensures AlternationWellFormed(AlphaRule().alternation)
  {
    hide ParseNumVal, Runes;
    RangeFormed('4', '1', '5', 'A');
    RangeFormed('6', '1', '7', 'A');
    RuleFormed(AlphaRule());
  }

  lemma BitRuleIsFormed()
    ensures AlternationWellFormed(BitRule().alternation)
  {
    hide ParseNumVal, Runes;
    RuleFormed(BitRule());
  }

  lemma CharRuleIsFormed()
    ensures AlternationWellFormed(CharRule().alternation)
  {
    hide ParseNumVal, Runes;
    RangeFormed('0', '1', '7', 'F');
    RuleFormed(CharRule());
  }

  lemma CrRuleIsFormed()
    ensures AlternationWellFormed(CrRule().alternation)
  {
    hide ParseNumVal, Runes;
    SeriesFormed('0', 'D');
    RuleFormed(CrRule());
  }

  lemma CrlfRuleIsFormed()
    ensures AlternationWellFormed(CrlfRule().alternation)
  {
    hide ParseNumVal, Runes;
    RuleFormed(CrlfRule());
  }

  lemma CtlRuleIsFormed()
    ensures AlternationWellFormed(CtlRule().alternation)
  {
    hide ParseNumVal, Runes;
    RangeFormed('0', '0', '1', 'F');
    SeriesFormed('7', 'F');
    RuleFormed(CtlRule());
  }

  lemma DigitRuleIsFormed()
    ensures AlternationWellFormed(DigitRule().alternation)
  {
    hide ParseNumVal, Runes;
    RangeFormed('3', '0', '3', '9');
    RuleFormed(DigitRule());
  }

  lemma DquoteRuleIsFormed()
    ensures AlternationWellFormed(DquoteRule().alternation)
  {
    hide ParseNumVal, Runes;
    SeriesFormed('2', '2');
    RuleFormed(DquoteRule());
  }

  lemma HexdigRuleIsFormed()
    ensures AlternationWellFormed(HexdigRule().alternation)
  {
    hide ParseNumVal, Runes;
    RuleFormed(HexdigRule());
  }

  lemma HtabRuleIsFormed()
    ensures AlternationWellFormed(HtabRule().alternation)
  {
    hide ParseNumVal, Runes;
    SeriesFormed('0', '9');
    RuleFormed(HtabRule());
  }

  lemma LfRuleIsFormed()
    ensures AlternationWellFormed(LfRule().alternation)
  {
    hide ParseNumVal, Runes;
    SeriesFormed('0', 'A');
    RuleFormed(LfRule());
  }

  lemma LwspRuleIsFormed()
    ensures AlternationWellFormed(LwspRule().alternation)
  {
    hide ParseNumVal, Runes;
    Formed([Cat([One(Ref("WSP"))]), Cat([One(Ref("CRLF")), One(Ref("WSP"))])]);
    RuleFormed(LwspRule());
  }

  lemma OctetRuleIsFormed()
    ensures AlternationWellFormed(OctetRule().alternation)
  {
    hide ParseNumVal, Runes;
    RangeFormed('0', '0', 'F', 'F');
    RuleFormed(OctetRule());
  }

  lemma SpRuleIsFormed()
    ensures AlternationWellFormed(SpRule().alternation)
  {
    hide ParseNumVal, Runes;
    SeriesFormed('2', '0');
    RuleFormed(SpRule());
  }

  lemma VcharRuleIsFormed()
    ensures AlternationWellFormed(VcharRule().alternation)
  {
    hide ParseNumVal, Runes;
    RangeFormed('2', '1', '7', 'E');
    RuleFormed(VcharRule());
  }

  lemma WspRuleIsFormed()
    ensures AlternationWellFormed(WspRule().alternation)
  {
    hide ParseNumVal, Runes;
    RuleFormed(WspRule());
  }

  lemma RulelistRuleIsFormed()
    ensures AlternationWellFormed(RulelistRule().alternation)
  {
    hide ParseNumVal, Runes;
    Formed([Cat([Rep(0, INF, Ref("WSP")), One(Ref("c-nl"))])]);
    Formed([Cat([One(Ref("rule"))]), Cat([One(Grp([Cat([Rep(0, INF, Ref("WSP")), One(Ref("c-nl"))])]))])]);
    RuleFormed(RulelistRule());
  }

  lemma RuleRuleIsFormed()
    ensures AlternationWellFormed(RuleRule().alternation)
  {
    hide ParseNumVal, Runes;
    RuleFormed(RuleRule());
  }

  lemma RulenameRuleIsFormed()
    ensures AlternationWellFormed(RulenameRule().alternation)
  {
    hide ParseNumVal, Runes;
    Formed([Cat([One(Ref("ALPHA"))]), Cat([One(Ref("DIGIT"))]), Cat([One(Str("-"))])]);
    RuleFormed(RulenameRule());
  }

  lemma DefinedAsRuleIsFormed()
    ensures AlternationWellFormed(DefinedAsRule().alternation)
  {
    hide ParseNumVal, Runes;
    Formed([Cat([One(Str("="))]), Cat([One(Str("=/"))])]);
    RuleFormed(DefinedAsRule());
  }

  lemma ElementsRuleIsFormed()
    ensures AlternationWellFormed(ElementsRule().alternation)
  {
    hide ParseNumVal, Runes;
    RuleFormed(ElementsRule());
  }

  lemma CWspRuleIsFormed()
    ensures AlternationWellFormed(CWspRule().alternation)
  {
    hide ParseNumVal, Runes;
    Formed([Cat([One(Ref("c-nl")), One(Ref("WSP"))])]);
    RuleFormed(CWspRule());
  }

  lemma CNlRuleIsFormed()
    ensures AlternationWellFormed(CNlRule().alternation)
  {
    hide ParseNumVal, Runes;
    RuleFormed(CNlRule());
  }

  lemma CommentRuleIsFormed()
    ensures AlternationWellFormed(CommentRule().alternation)
  {
    hide ParseNumVal, Runes;
    Formed([Cat([One(Ref("WSP"))]), Cat([One(Ref("VCHAR"))])]);
    RuleFormed(CommentRule());
  }

  lemma AlternationRuleIsFormed()
    ensures AlternationWellFormed(AlternationRule().alternation)
  {
    hide ParseNumVal, Runes;
    Formed([Cat([Rep(0, INF, Ref("c-wsp")), One(Str("/")), Rep(0, INF, Ref("c-wsp")), One(Ref("concatenation"))])]);
    RuleFormed(AlternationRule());
  }

  lemma ConcatenationRuleIsFormed()
    ensures AlternationWellFormed(ConcatenationRule().alternation)
  {
    hide ParseNumVal, Runes;
    Formed([Cat([Rep(1, INF, Ref("c-wsp")), One(Ref("repetition"))])]);
    RuleFormed(ConcatenationRule());
  }

  lemma RepetitionRuleIsFormed()
    ensures AlternationWellFormed(RepetitionRule().alternation)
  {
    hide ParseNumVal, Runes;
    Formed([Cat([One(Ref("repeat"))])]);
    RuleFormed(RepetitionRule());
  }

  lemma RepeatRuleIsFormed()
    ensures AlternationWellFormed(RepeatRule().alternation)
  {
    hide ParseNumVal, Runes;
    Formed([Cat([Rep(0, INF, Ref("DIGIT")), One(Str("*")), Rep(0, INF, Ref("DIGIT"))])]);
    Formed([Cat([Rep(0, INF, Ref("DIGIT")), One(Str("#")), Rep(0, INF, Ref("DIGIT"))])]);
    RuleFormed(RepeatRule());
  }

  lemma ElementRuleIsFormed()
    ensures AlternationWellFormed(ElementRule().alternation)
  {
    hide ParseNumVal, Runes;
    RuleFormed(ElementRule());
  }

  lemma GroupRuleIsFormed()
    ensures AlternationWellFormed(GroupRule().alternation)
  {
    hide ParseNumVal, Runes;
    RuleFormed(GroupRule());
  }

  lemma OptionRuleIsFormed()
    ensures AlternationWellFormed(OptionRule().alternation)
  {
    hide ParseNumVal, Runes;
    RuleFormed(OptionRule());
  }

  lemma CharValRuleIsFormed()
    ensures AlternationWellFormed(CharValRule().alternation)
  {
    hide ParseNumVal, Runes;
    RuleFormed(CharValRule());
  }

  lemma CaseInsensitiveStringRuleIsFormed()
    ensures AlternationWellFormed(CaseInsensitiveStringRule().alternation)
  {
    hide ParseNumVal, Runes;
    Formed([Cat([One(Str("%i"))])]);
    RuleFormed(CaseInsensitiveStringRule());
  }

  lemma CaseSensitiveStringRuleIsFormed()
    ensures AlternationWellFormed(CaseSensitiveStringRule().alternation)
  {
    hide ParseNumVal, Runes;
    RuleFormed(CaseSensitiveStringRule());
  }

  lemma QuotedStringRuleIsFormed()
    ensures AlternationWellFormed(QuotedStringRule().alternation)
  {
    hide ParseNumVal, Runes;
    RangeFormed('2', '0', '2', '1');
    RangeFormed('2', '3', '7', 'E');
    Formed([Cat([One(NumRange("20", "21"))]), Cat([One(NumRange("23", "7E"))])]);
    RuleFormed(QuotedStringRule());
  }

  lemma NumValRuleIsFormed()
    ensures AlternationWellFormed(NumValRule().alternation)
  {
    hide ParseNumVal, Runes;
    Formed([Cat([One(Ref("bin-val"))]), Cat([One(Ref("dec-val"))]), Cat([One(Ref("hex-val"))])]);
    RuleFormed(NumValRule());
  }

  lemma BinValRuleIsFormed()
    ensures AlternationWellFormed(BinValRule().alternation)
  {
    hide ParseNumVal, Runes;
    Formed([Cat([One(Str(".")), Rep(1, INF, Ref("BIT"))])]);
    Formed([Cat([One(Str("-")), Rep(1, INF, Ref("BIT"))])]);
    Formed([Cat([Rep(1, INF, Grp([Cat([One(Str(".")), Rep(1, INF, Ref("BIT"))])]))]),
            Cat([One(Grp([Cat([One(Str("-")), Rep(1, INF, Ref("BIT"))])]))])]);
    RuleFormed(BinValRule());
  }

  lemma DecValRuleIsFormed()
    ensures AlternationWellFormed(DecValRule().alternation)
  {
    hide ParseNumVal, Runes;
    Formed([Cat([One(Str(".")), Rep(1, INF, Ref("DIGIT"))])]);
    Formed([Cat([One(Str("-")), Rep(1, INF, Ref("DIGIT"))])]);
    Formed([Cat([Rep(1, INF, Grp([Cat([One(Str(".")), Rep(1, INF, Ref("DIGIT"))])]))]),
            Cat([One(Grp([Cat([One(Str("-")), Rep(1, INF, Ref("DIGIT"))])]))])]);
    RuleFormed(DecValRule());
  }

  lemma HexValRuleIsFormed()
    ensures AlternationWellFormed(HexValRule().alternation)
  {
    hide ParseNumVal, Runes;
    Formed([Cat([One(Str(".")), Rep(1, INF, Ref("HEXDIG"))])]);
    Formed([Cat([One(Str("-")), Rep(1, INF, Ref("HEXDIG"))])]);
    Formed([Cat([Rep(1, INF, Grp([Cat([One(Str(".")), Rep(1, INF, Ref("HEXDIG"))])]))]),
            Cat([One(Grp([Cat([One(Str("-")), Rep(1, INF, Ref("HEXDIG"))])]))])]);
    RuleFormed(HexValRule());
  }

  lemma ProseValRuleIsFormed()
    ensures AlternationWellFormed(ProseValRule().alternation)
  {
    hide ParseNumVal, Runes;
    RangeFormed('2', '0', '3', 'D');
    RangeFormed('3', 'F', '7', 'E');
    Formed([Cat([One(NumRange("20", "3D"))]), Cat([One(NumRange("3F", "7E"))])]);
    RuleFormed(ProseValRule());
  }

  lemma CoreRulesAreFormed()
    ensures RulesWellFormed(CORE_RULES)
  {
    hide AlternationWellFormed;
    hide AlphaRule, BitRule, CharRule, CrRule, CrlfRule, CtlRule, DigitRule, DquoteRule, HexdigRule, HtabRule;
    hide LfRule, LwspRule, OctetRule, SpRule, VcharRule, WspRule;
    AlphaRuleIsFormed();
    BitRuleIsFormed();
    CharRuleIsFormed();
    CrRuleIsFormed();
    CrlfRuleIsFormed();
    CtlRuleIsFormed();
    DigitRuleIsFormed();
    DquoteRuleIsFormed();
    HexdigRuleIsFormed();
    HtabRuleIsFormed();
    LfRuleIsFormed();
    LwspRuleIsFormed();
    OctetRuleIsFormed();
    SpRuleIsFormed();
    VcharRuleIsFormed();
    WspRuleIsFormed();
  }

  lemma AbnfRulesAreFormed()
    ensures RulesWellFormed(ABNF_RULES)
  {
    hide AlternationWellFormed;
    hide RulelistRule, RuleRule, RulenameRule, DefinedAsRule, ElementsRule, CWspRule, CNlRule, CommentRule;
    hide AlternationRule, ConcatenationRule, RepetitionRule, RepeatRule, ElementRule, GroupRule, OptionRule;
    hide CharValRule, CaseInsensitiveStringRule, CaseSensitiveStringRule, QuotedStringRule, NumValRule;
    hide BinValRule, DecValRule, HexValRule, ProseValRule;
    RulelistRuleIsFormed();
    RuleRuleIsFormed();
    RulenameRuleIsFormed();
    DefinedAsRuleIsFormed();
    ElementsRuleIsFormed();
    CWspRuleIsFormed();
    CNlRuleIsFormed();
    CommentRuleIsFormed();
    AlternationRuleIsFormed();
    ConcatenationRuleIsFormed();
    RepetitionRuleIsFormed();
    RepeatRuleIsFormed();
    ElementRuleIsFormed();
    GroupRuleIsFormed();
    OptionRuleIsFormed();
    CharValRuleIsFormed();
    CaseInsensitiveStringRuleIsFormed();
    CaseSensitiveStringRuleIsFormed();
    QuotedStringRuleIsFormed();
    NumValRuleIsFormed();
    BinValRuleIsFormed();
    DecValRuleIsFormed();
    HexValRuleIsFormed();
    ProseValRuleIsFormed();
  }

  lemma AbnfIsWellFormed()
    ensures GrammarWellFormed(ABNF_GRAMMAR)
  {
    hide RulesWellFormed, CORE_RULES, ABNF_RULES;
    CoreRulesAreFormed();
    AbnfRulesAreFormed();
  }

  // ----- parsing -----

  /** The parser answers on every definition, and finds a parse exactly when there is one. */
  method ParseDefinition(s: Bytes) returns (outcome: Outcome)
    ensures Answered(ABNF_GRAMMAR, "rulelist", s, outcome)
  {
    hide ABNF_GRAMMAR, ABNF_GUARD, GrammarWellFormed, GrammarGuarded, Answered;
    AbnfIsWellFormed();
    AbnfIsGuarded();
    outcome := Parse(s, ABNF_GRAMMAR, "rulelist", ABNF_GUARD);
  }

  /** What is written for rules that are well-formed but for repeated lists is
      parsed if and only if no list is repeated between two counts. */
  lemma WrittenTextParses(rules: seq<Rule>, outcome: Outcome)
    requires rules != [] && forall i :: 0 <= i < |rules| ==> T.RuleOk(rules[i], T.AnyCounts)
    requires D.IsAscii(Text.RulesText(rules))
    requires Answered(ABNF_GRAMMAR, "rulelist", D.BytesOf(Text.RulesText(rules)), outcome)
    ensures outcome.Solutions?
    ensures outcome.paths != [] <==> forall i :: 0 <= i < |rules| ==> T.RuleOk(rules[i], T.EqualCounts)
  {
    hide ABNF_GRAMMAR, T.RuleOk, Text.RulesText, Derives;
    WrittenScan.TextDerivableIff(rules);
    T.RulelistFound();
  }
}
