/** The grammar of ABNF is guarded, so that parsing a grammar definition always
    terminates (pkg/abnf/rules.go:121-323). */
module RulesGuard {
  import opened Spans
  import opened Wrappers
  import opened Abnf
  import opened SolverGuard
  import opened Rules
  import opened RuleLookup

  // ----- the guard -----

  /** The core rules, and then those of ABNF. */
  function RuleAt(k: nat): Rule
    requires k < 40 && |CORE_RULES| == 16 && |ABNF_RULES| == 24
  {
    if k < 16 then CORE_RULES[k] else ABNF_RULES[k - 16]
  }

  /** The ranks of the rules, in the same order: a rule enters only lower ranked rules before it matches anything. */
  const RANKS: seq<nat> := [
    0, 0, 0, 0, 1, 0, 0, 0, 1, 0, 0, 2, 0, 0, 0, 1,
    3, 2, 1, 4, 8, 3, 2, 0, 7, 6, 5, 1, 4, 0, 0, 3,
    2, 0, 1, 0, 0, 0, 0, 0]

  const TOP: nat := 9

  /** The core rule LWSP is the only one that may match empty. */
  const LWSP_PLACE: nat := 11

  function RankMap(n: nat): map<string, nat>
    requires n <= 40
  {
    if n == 0 then map[] else RankMap(n - 1)[Lower(NameAt(n - 1)) := RANKS[n - 1]]
  }

  function NameAt(k: nat): string
    requires k < 40
  {
    TheyAreThatMany();
    RuleAt(k).name
  }

  /** Their names. */
  const NAMES: seq<string> := [
    "ALPHA", "BIT", "CHAR", "CR", "CRLF", "CTL", "DIGIT", "DQUOTE",
    "HEXDIG", "HTAB", "LF", "LWSP", "OCTET", "SP", "VCHAR", "WSP",
    "rulelist", "rule", "rulename", "defined-as", "elements", "c-wsp", "c-nl", "comment",
    "alternation", "concatenation", "repetition", "repeat", "element", "group", "option", "char-val",
    "case-insensitive-string", "case-sensitive-string", "quoted-string", "num-val", "bin-val", "dec-val", "hex-val",
    "prose-val"]

  lemma NamesAre()
    ensures forall k :: 0 <= k < 40 ==> NameAt(k) == NAMES[k]
  {
    hide AlphaRule, BitRule, CharRule, CrRule, CrlfRule, CtlRule, DigitRule, DquoteRule, HexdigRule, HtabRule;
    hide LfRule, LwspRule, OctetRule, SpRule, VcharRule, WspRule, RulelistRule, RuleRule, RulenameRule;
    hide DefinedAsRule, ElementsRule, CWspRule, CNlRule, CommentRule, AlternationRule, ConcatenationRule;
    hide RepetitionRule, RepeatRule, ElementRule, GroupRule, OptionRule, CharValRule, CaseInsensitiveStringRule;
    hide CaseSensitiveStringRule, QuotedStringRule, NumValRule, BinValRule, DecValRule, HexValRule, ProseValRule;
    forall k | 0 <= k < 40
      ensures NameAt(k) == NAMES[k]
    {
      if k < 20 {
        FirstNames(k);
      } else {
        LastNames(k);
      }
    }
  }

  lemma FirstNames(k: nat)
    requires k < 20
    ensures NameAt(k) == NAMES[k]
  {
    hide AlphaRule, BitRule, CharRule, CrRule, CrlfRule, CtlRule, DigitRule, DquoteRule, HexdigRule, HtabRule;
    hide LfRule, LwspRule, OctetRule, SpRule, VcharRule, WspRule, RulelistRule, RuleRule, RulenameRule;
    hide DefinedAsRule, ElementsRule, CWspRule, CNlRule, CommentRule, AlternationRule, ConcatenationRule;
    hide RepetitionRule, RepeatRule, ElementRule, GroupRule, OptionRule, CharValRule, CaseInsensitiveStringRule;
    hide CaseSensitiveStringRule, QuotedStringRule, NumValRule, BinValRule, DecValRule, HexValRule, ProseValRule;
  }

  lemma LastNames(k: nat)
    requires 20 <= k < 40
    ensures NameAt(k) == NAMES[k]
  {
    hide AlphaRule, BitRule, CharRule, CrRule, CrlfRule, CtlRule, DigitRule, DquoteRule, HexdigRule, HtabRule;
    hide LfRule, LwspRule, OctetRule, SpRule, VcharRule, WspRule, RulelistRule, RuleRule, RulenameRule;
    hide DefinedAsRule, ElementsRule, CWspRule, CNlRule, CommentRule, AlternationRule, ConcatenationRule;
    hide RepetitionRule, RepeatRule, ElementRule, GroupRule, OptionRule, CharValRule, CaseInsensitiveStringRule;
    hide CaseSensitiveStringRule, QuotedStringRule, NumValRule, BinValRule, DecValRule, HexValRule, ProseValRule;
  }

  const ABNF_GUARD: Guard := Guard({Lower(NameAt(LWSP_PLACE))}, RankMap(40), TOP)

  lemma TheyAreThatMany()
    ensures |CORE_RULES| == 16 && |ABNF_RULES| == 24
  {
  }

  /** No two rules share a name. */
  lemma NamesDiffer(j: nat, k: nat)
    requires j < 40 && k < 40 && j != k
    ensures Lower(NameAt(j)) != Lower(NameAt(k))
  {
    hide CORE_RULES, ABNF_RULES, CORE_SIGNS, ABNF_SIGNS, PLACES, Sign;
    TheyAreThatMany();
    CoreSigns();
    AbnfSigns();
    CorePlaces();
    MoreCorePlaces();
    AbnfPlaces();
    if Lower(NameAt(j)) == Lower(NameAt(k)) {
      SameSign(NameAt(j), NameAt(k));
    }
  }

  lemma {:induction false} RankIs(k: nat, n: nat)
    requires k < n <= 40
    ensures Lower(NameAt(k)) in RankMap(n) && RankMap(n)[Lower(NameAt(k))] == RANKS[k]
  {
    hide NameAt, RANKS;
    if k < n - 1 {
      NamesDiffer(k, n - 1);
      RankIs(k, n - 1);
    }
  }

  // ----- pieces of a guarded grammar -----

  /** An element that matches something, and enters only rules that rank below the bound before it does. */
  predicate Fine(bound: nat, e: Element) {
    Guarded(ABNF_GRAMMAR, ABNF_GUARD, bound, e) && !MayBeEmpty(ABNF_GUARD, e)
  }

  predicate Loose(bound: nat, r: Repetition) {
    RepetitionGuarded(ABNF_GRAMMAR, ABNF_GUARD, bound, r)
  }

  predicate Solid(bound: nat, r: Repetition) {
    Loose(bound, r) && !RepetitionMayBeEmpty(ABNF_GUARD, r)
  }

  predicate FineCat(bound: nat, rs: seq<Repetition>) {
    RepetitionsGuarded(ABNF_GRAMMAR, ABNF_GUARD, bound, rs) && !RepetitionsMayBeEmpty(ABNF_GUARD, rs)
  }

  lemma Repeats(e: Element, min: nat, max: Bound, bound: nat)
    requires Fine(bound, e)
    ensures Loose(bound, Rep(min, max, e)) && (min > 0 ==> Solid(bound, Rep(min, max, e)))
  {
    hide Guarded, MayBeEmpty, ABNF_GRAMMAR, ABNF_GUARD;
  }

  lemma LeafRepeats(e: Element, min: nat, max: Bound, bound: nat)
    requires e.NumVal? || (e.CharVal? && e.value != "")
    ensures Loose(bound, Rep(min, max, e)) && (min > 0 ==> Solid(bound, Rep(min, max, e)))
  {
    hide ABNF_GRAMMAR, ABNF_GUARD;
    Repeats(e, min, max, bound);
  }

  lemma RefRepeats(k: nat, name: string, min: nat, max: Bound, bound: nat)
    requires k < 40 && k != LWSP_PLACE && NAMES[k] == name && RANKS[k] < bound
    ensures Loose(bound, Rep(min, max, Ref(name))) && (min > 0 ==> Solid(bound, Rep(min, max, Ref(name))))
  {
    hide NameAt, NAMES, RANKS, RankMap, Grammar.Lookup, ABNF_GRAMMAR;
    NamesAre();
    RankIs(k, 40);
    NamesDiffer(k, LWSP_PLACE);
    Repeats(Ref(name), min, max, bound);
  }

  lemma {:induction false} AlternativesFine(cs: seq<Concatenation>, bound: nat)
    requires forall i :: 0 <= i < |cs| ==> FineCat(bound, cs[i].repetitions)
    ensures AlternativesGuarded(ABNF_GRAMMAR, ABNF_GUARD, bound, cs) && !AlternativesMayBeEmpty(ABNF_GUARD, cs)
  {
    hide ABNF_GRAMMAR, ABNF_GUARD, RepetitionsGuarded, RepetitionsMayBeEmpty;
    if cs != [] {
      AlternativesFine(cs[..|cs| - 1], bound);
      assert FineCat(bound, cs[|cs| - 1].repetitions);
    }
  }

  lemma GroupRepeats(cs: seq<Concatenation>, min: nat, max: Bound, bound: nat)
    requires forall i :: 0 <= i < |cs| ==> FineCat(bound, cs[i].repetitions)
    ensures Loose(bound, Rep(min, max, Grp(cs))) && (min > 0 ==> Solid(bound, Rep(min, max, Grp(cs))))
  {
    hide ABNF_GRAMMAR, ABNF_GUARD, FineCat, AlternativesGuarded, AlternativesMayBeEmpty;
    AlternativesFine(cs, bound);
    assert AlternationGuarded(ABNF_GRAMMAR, ABNF_GUARD, bound, Alternation(cs));
    assert !AlternationMayBeEmpty(ABNF_GUARD, Alternation(cs));
    Repeats(Grp(cs), min, max, bound);
  }

  lemma OptionLoose(cs: seq<Concatenation>, bound: nat)
    requires forall i :: 0 <= i < |cs| ==> FineCat(bound, cs[i].repetitions)
    ensures Loose(bound, One(Opt(cs)))
  {
    hide ABNF_GRAMMAR, ABNF_GUARD, FineCat, AlternativesGuarded, AlternativesMayBeEmpty;
    AlternativesFine(cs, bound);
    assert AlternationGuarded(ABNF_GRAMMAR, ABNF_GUARD, bound, Alternation(cs));
    assert Guarded(ABNF_GRAMMAR, ABNF_GUARD, bound, Opt(cs));
  }

  /** A concatenation whose element at one place matches something: what comes after it may rank anything. */
  lemma {:induction false} CatFine(rs: seq<Repetition>, k: nat, bound: nat)
    requires k < |rs| && bound <= TOP && Solid(bound, rs[k])
    requires (forall i :: 0 <= i < k ==> Loose(bound, rs[i])) && (forall i :: k < i < |rs| ==> Loose(TOP, rs[i]))
    ensures FineCat(bound, rs)
  {
    hide ABNF_GRAMMAR, RankMap, NameAt, RepetitionGuarded, RepetitionMayBeEmpty;
    var last := |rs| - 1;
    if k < last {
      CatFine(rs[..last], k, bound);
    } else {
      LooseBefore(rs[..last], bound);
      if !RepetitionsMayBeEmpty(ABNF_GUARD, rs[..last]) {
        RepetitionGuardedHigher(ABNF_GRAMMAR, ABNF_GUARD, bound, TOP, rs[last]);
      }
    }
  }

  lemma {:induction false} LooseBefore(rs: seq<Repetition>, bound: nat)
    requires bound <= TOP && forall i :: 0 <= i < |rs| ==> Loose(bound, rs[i])
    ensures RepetitionsGuarded(ABNF_GRAMMAR, ABNF_GUARD, bound, rs)
  {
    hide ABNF_GRAMMAR, RankMap, NameAt, RepetitionGuarded, RepetitionMayBeEmpty;
    if rs != [] {
      var last := |rs| - 1;
      LooseBefore(rs[..last], bound);
      if !RepetitionsMayBeEmpty(ABNF_GUARD, rs[..last]) {
        RepetitionGuardedHigher(ABNF_GRAMMAR, ABNF_GUARD, bound, TOP, rs[last]);
      }
    }
  }

  lemma RuleFine(k: nat, rule: Rule)
    requires k < 40 && NAMES[k] == rule.name && RANKS[k] < TOP
    requires forall i :: 0 <= i < |rule.alternation.concatenations| ==>
               FineCat(RANKS[k], rule.alternation.concatenations[i].repetitions)
    ensures RuleGuarded(ABNF_GRAMMAR, ABNF_GUARD, rule)
  {
    NamesAre();
    hide NameAt, NAMES, RankMap, ABNF_GRAMMAR, FineCat, AlternativesGuarded, AlternativesMayBeEmpty;
    AlternativesFine(rule.alternation.concatenations, RANKS[k]);
    RankIs(k, 40);
  }

  // ----- the rules -----

  lemma AlphaRuleIsGuarded()
    ensures RuleGuarded(ABNF_GRAMMAR, ABNF_GUARD, AlphaRule())
  {
    hide Fine, Loose, Solid, FineCat, NameAt, ABNF_GRAMMAR, ABNF_GUARD;
    LeafRepeats(NumRange("41", "5A"), 1, 1, 0);
    CatFine([One(NumRange("41", "5A"))], 0, 0);
    LeafRepeats(NumRange("61", "7A"), 1, 1, 0);
    CatFine([One(NumRange("61", "7A"))], 0, 0);
    RuleFine(0, AlphaRule());
  }

  lemma BitRuleIsGuarded()
    ensures RuleGuarded(ABNF_GRAMMAR, ABNF_GUARD, BitRule())
  {
    hide Fine, Loose, Solid, FineCat, NameAt, ABNF_GRAMMAR, ABNF_GUARD;
    LeafRepeats(Str("0"), 1, 1, 0);
    CatFine([One(Str("0"))], 0, 0);
    LeafRepeats(Str("1"), 1, 1, 0);
    CatFine([One(Str("1"))], 0, 0);
    RuleFine(1, BitRule());
  }

  lemma CharRuleIsGuarded()
    ensures RuleGuarded(ABNF_GRAMMAR, ABNF_GUARD, CharRule())
  {
    hide Fine, Loose, Solid, FineCat, NameAt, ABNF_GRAMMAR, ABNF_GUARD;
    LeafRepeats(NumRange("01", "7F"), 1, 1, 0);
    CatFine([One(NumRange("01", "7F"))], 0, 0);
    RuleFine(2, CharRule());
  }

  lemma CrRuleIsGuarded()
    ensures RuleGuarded(ABNF_GRAMMAR, ABNF_GUARD, CrRule())
  {
    hide Fine, Loose, Solid, FineCat, NameAt, ABNF_GRAMMAR, ABNF_GUARD;
    LeafRepeats(NumSeries("0D"), 1, 1, 0);
    CatFine([One(NumSeries("0D"))], 0, 0);
    RuleFine(3, CrRule());
  }

  lemma CrlfRuleIsGuarded()
    ensures RuleGuarded(ABNF_GRAMMAR, ABNF_GUARD, CrlfRule())
  {
    hide Fine, Loose, Solid, FineCat, NameAt, ABNF_GRAMMAR, ABNF_GUARD;
    RefRepeats(3, "CR", 1, 1, 1);
    RefRepeats(10, "LF", 1, 1, 9);
    var rs1 := [One(Ref("CR")), One(Ref("LF"))];
    CatFine(rs1, 0, 1);
    RuleFine(4, CrlfRule());
  }

  lemma CtlRuleIsGuarded()
    ensures RuleGuarded(ABNF_GRAMMAR, ABNF_GUARD, CtlRule())
  {
    hide Fine, Loose, Solid, FineCat, NameAt, ABNF_GRAMMAR, ABNF_GUARD;
    LeafRepeats(NumRange("00", "1F"), 1, 1, 0);
    CatFine([One(NumRange("00", "1F"))], 0, 0);
    LeafRepeats(NumSeries("7F"), 1, 1, 0);
    CatFine([One(NumSeries("7F"))], 0, 0);
    RuleFine(5, CtlRule());
  }

  lemma DigitRuleIsGuarded()
    ensures RuleGuarded(ABNF_GRAMMAR, ABNF_GUARD, DigitRule())
  {
    hide Fine, Loose, Solid, FineCat, NameAt, ABNF_GRAMMAR, ABNF_GUARD;
    LeafRepeats(NumRange("30", "39"), 1, 1, 0);
    CatFine([One(NumRange("30", "39"))], 0, 0);
    RuleFine(6, DigitRule());
  }

  lemma DquoteRuleIsGuarded()
    ensures RuleGuarded(ABNF_GRAMMAR, ABNF_GUARD, DquoteRule())
  {
    hide Fine, Loose, Solid, FineCat, NameAt, ABNF_GRAMMAR, ABNF_GUARD;
    LeafRepeats(NumSeries("22"), 1, 1, 0);
    CatFine([One(NumSeries("22"))], 0, 0);
    RuleFine(7, DquoteRule());
  }

  lemma HexdigRuleIsGuarded()
    ensures RuleGuarded(ABNF_GRAMMAR, ABNF_GUARD, HexdigRule())
  {
    hide Fine, Loose, Solid, FineCat, NameAt, ABNF_GRAMMAR, ABNF_GUARD;
    RefRepeats(6, "DIGIT", 1, 1, 1);
    CatFine([One(Ref("DIGIT"))], 0, 1);
    LeafRepeats(Str("A"), 1, 1, 1);
    CatFine([One(Str("A"))], 0, 1);
    LeafRepeats(Str("B"), 1, 1, 1);
    CatFine([One(Str("B"))], 0, 1);
    LeafRepeats(Str("C"), 1, 1, 1);
    CatFine([One(Str("C"))], 0, 1);
    LeafRepeats(Str("D"), 1, 1, 1);
    CatFine([One(Str("D"))], 0, 1);
    LeafRepeats(Str("E"), 1, 1, 1);
    CatFine([One(Str("E"))], 0, 1);
    LeafRepeats(Str("F"), 1, 1, 1);
    CatFine([One(Str("F"))], 0, 1);
    RuleFine(8, HexdigRule());
  }

  lemma HtabRuleIsGuarded()
    ensures RuleGuarded(ABNF_GRAMMAR, ABNF_GUARD, HtabRule())
  {
    hide Fine, Loose, Solid, FineCat, NameAt, ABNF_GRAMMAR, ABNF_GUARD;
    LeafRepeats(NumSeries("09"), 1, 1, 0);
    CatFine([One(NumSeries("09"))], 0, 0);
    RuleFine(9, HtabRule());
  }

  lemma LfRuleIsGuarded()
    ensures RuleGuarded(ABNF_GRAMMAR, ABNF_GUARD, LfRule())
  {
    hide Fine, Loose, Solid, FineCat, NameAt, ABNF_GRAMMAR, ABNF_GUARD;
    LeafRepeats(NumSeries("0A"), 1, 1, 0);
    CatFine([One(NumSeries("0A"))], 0, 0);
    RuleFine(10, LfRule());
  }

  lemma LwspRuleIsGuarded()
    ensures RuleGuarded(ABNF_GRAMMAR, ABNF_GUARD, LwspRule())
  {
    hide Fine, Loose, Solid, FineCat, NameAt, ABNF_GRAMMAR, ABNF_GUARD;
    RefRepeats(15, "WSP", 1, 1, 2);
    CatFine([One(Ref("WSP"))], 0, 2);
    RefRepeats(4, "CRLF", 1, 1, 2);
    RefRepeats(15, "WSP", 1, 1, TOP);
    CatFine([One(Ref("CRLF")), One(Ref("WSP"))], 0, 2);
    GroupRepeats([Cat([One(Ref("WSP"))]), Cat([One(Ref("CRLF")), One(Ref("WSP"))])], 0, INF, 2);
    LwspFine();
  }

  lemma LwspKey()
    ensures var key := Lower("LWSP");
            key in ABNF_GUARD.rank && ABNF_GUARD.rank[key] == 2 && ABNF_GUARD.ranks == TOP && key in ABNF_GUARD.nullable
  {
    NamesAre();
    hide NameAt, RankMap, Lower;
    RankIs(LWSP_PLACE, 40);
  }

  lemma LwspFine()
    requires Loose(2, LwspRule().alternation.concatenations[0].repetitions[0])
    ensures RuleGuarded(ABNF_GRAMMAR, ABNF_GUARD, LwspRule())
  {
    hide ABNF_GRAMMAR, ABNF_GUARD, RepetitionGuarded, RepetitionsGuarded, RuleGuarded, Loose;
    LwspKey();
    var rs := LwspRule().alternation.concatenations[0].repetitions;
    LooseBefore(rs, 2);
    MayMatchEmpty(LwspRule(), rs);
  }

  lemma MayMatchEmpty(rule: Rule, rs: seq<Repetition>)
    requires rule.alternation == Alternation([Cat(rs)]) && RepetitionsGuarded(ABNF_GRAMMAR, ABNF_GUARD, 2, rs)
    requires var key := Lower(rule.name);
             key in ABNF_GUARD.rank && ABNF_GUARD.rank[key] == 2 && ABNF_GUARD.ranks == TOP &&
             key in ABNF_GUARD.nullable
    ensures RuleGuarded(ABNF_GRAMMAR, ABNF_GUARD, rule)
  {
    hide ABNF_GRAMMAR, ABNF_GUARD, RepetitionsGuarded;
    var cs := rule.alternation.concatenations;
    assert cs[..0] == [] && AlternativesGuarded(ABNF_GRAMMAR, ABNF_GUARD, 2, cs[..0]);
    assert ConcatenationGuarded(ABNF_GRAMMAR, ABNF_GUARD, 2, cs[0]);
    assert AlternativesGuarded(ABNF_GRAMMAR, ABNF_GUARD, 2, cs);
  }

  lemma OctetRuleIsGuarded()
    ensures RuleGuarded(ABNF_GRAMMAR, ABNF_GUARD, OctetRule())
  {
    hide Fine, Loose, Solid, FineCat, NameAt, ABNF_GRAMMAR, ABNF_GUARD;
    LeafRepeats(NumRange("00", "FF"), 1, 1, 0);
    CatFine([One(NumRange("00", "FF"))], 0, 0);
    RuleFine(12, OctetRule());
  }

  lemma SpRuleIsGuarded()
    ensures RuleGuarded(ABNF_GRAMMAR, ABNF_GUARD, SpRule())
  {
    hide Fine, Loose, Solid, FineCat, NameAt, ABNF_GRAMMAR, ABNF_GUARD;
    LeafRepeats(NumSeries("20"), 1, 1, 0);
    CatFine([One(NumSeries("20"))], 0, 0);
    RuleFine(13, SpRule());
  }

  lemma VcharRuleIsGuarded()
    ensures RuleGuarded(ABNF_GRAMMAR, ABNF_GUARD, VcharRule())
  {
    hide Fine, Loose, Solid, FineCat, NameAt, ABNF_GRAMMAR, ABNF_GUARD;
    LeafRepeats(NumRange("21", "7E"), 1, 1, 0);
    CatFine([One(NumRange("21", "7E"))], 0, 0);
    RuleFine(14, VcharRule());
  }

  lemma WspRuleIsGuarded()
    ensures RuleGuarded(ABNF_GRAMMAR, ABNF_GUARD, WspRule())
  {
    hide Fine, Loose, Solid, FineCat, NameAt, ABNF_GRAMMAR, ABNF_GUARD;
    RefRepeats(13, "SP", 1, 1, 1);
    CatFine([One(Ref("SP"))], 0, 1);
    RefRepeats(9, "HTAB", 1, 1, 1);
    CatFine([One(Ref("HTAB"))], 0, 1);
    RuleFine(15, WspRule());
  }

  lemma RulelistRuleIsGuarded()
    ensures RuleGuarded(ABNF_GRAMMAR, ABNF_GUARD, RulelistRule())
  {
    hide Fine, Loose, Solid, FineCat, NameAt, ABNF_GRAMMAR, ABNF_GUARD;
    RefRepeats(17, "rule", 1, 1, 3);
    CatFine([One(Ref("rule"))], 0, 3);
    RefRepeats(15, "WSP", 0, INF, 3);
    RefRepeats(22, "c-nl", 1, 1, 3);
    var rs1 := [Rep(0, INF, Ref("WSP")), One(Ref("c-nl"))];
    CatFine(rs1, 1, 3);
    var cs2 := [Cat(rs1)];
    GroupRepeats(cs2, 1, 1, 3);
    var rs3 := [One(Grp(cs2))];
    CatFine(rs3, 0, 3);
    var cs4 := [Cat([One(Ref("rule"))]), Cat(rs3)];
    GroupRepeats(cs4, 1, INF, 3);
    var rs5 := [Rep(1, INF, Grp(cs4))];
    CatFine(rs5, 0, 3);
    RuleFine(16, RulelistRule());
  }

  lemma RuleRuleIsGuarded()
    ensures RuleGuarded(ABNF_GRAMMAR, ABNF_GUARD, RuleRule())
  {
    hide Fine, Loose, Solid, FineCat, NameAt, ABNF_GRAMMAR, ABNF_GUARD;
    RefRepeats(18, "rulename", 1, 1, 2);
    RefRepeats(19, "defined-as", 1, 1, 9);
    RefRepeats(20, "elements", 1, 1, 9);
    RefRepeats(22, "c-nl", 1, 1, 9);
    var rs1 := [One(Ref("rulename")), One(Ref("defined-as")), One(Ref("elements")), One(Ref("c-nl"))];
    CatFine(rs1, 0, 2);
    RuleFine(17, RuleRule());
  }

  lemma RulenameRuleIsGuarded()
    ensures RuleGuarded(ABNF_GRAMMAR, ABNF_GUARD, RulenameRule())
  {
    hide Fine, Loose, Solid, FineCat, NameAt, ABNF_GRAMMAR, ABNF_GUARD;
    RefRepeats(0, "ALPHA", 1, 1, 1);
    RefRepeats(0, "ALPHA", 1, 1, 9);
    CatFine([One(Ref("ALPHA"))], 0, 9);
    RefRepeats(6, "DIGIT", 1, 1, 9);
    CatFine([One(Ref("DIGIT"))], 0, 9);
    LeafRepeats(Str("-"), 1, 1, 9);
    CatFine([One(Str("-"))], 0, 9);
    var cs1 := [Cat([One(Ref("ALPHA"))]), Cat([One(Ref("DIGIT"))]), Cat([One(Str("-"))])];
    GroupRepeats(cs1, 0, INF, 9);
    var rs2 := [One(Ref("ALPHA")), Rep(0, INF, Grp(cs1))];
    CatFine(rs2, 0, 1);
    RuleFine(18, RulenameRule());
  }

  lemma DefinedAsRuleIsGuarded()
    ensures RuleGuarded(ABNF_GRAMMAR, ABNF_GUARD, DefinedAsRule())
  {
    hide Fine, Loose, Solid, FineCat, NameAt, ABNF_GRAMMAR, ABNF_GUARD;
    RefRepeats(21, "c-wsp", 0, INF, 4);
    LeafRepeats(Str("="), 1, 1, 4);
    CatFine([One(Str("="))], 0, 4);
    LeafRepeats(Str("=/"), 1, 1, 4);
    CatFine([One(Str("=/"))], 0, 4);
    var cs1 := [Cat([One(Str("="))]), Cat([One(Str("=/"))])];
    GroupRepeats(cs1, 1, 1, 4);
    RefRepeats(21, "c-wsp", 0, INF, 9);
    var rs2 := [Rep(0, INF, Ref("c-wsp")), One(Grp(cs1)), Rep(0, INF, Ref("c-wsp"))];
    CatFine(rs2, 1, 4);
    RuleFine(19, DefinedAsRule());
  }

  lemma ElementsRuleIsGuarded()
    ensures RuleGuarded(ABNF_GRAMMAR, ABNF_GUARD, ElementsRule())
  {
    hide Fine, Loose, Solid, FineCat, NameAt, ABNF_GRAMMAR, ABNF_GUARD;
    RefRepeats(24, "alternation", 1, 1, 8);
    RefRepeats(15, "WSP", 0, INF, 9);
    var rs1 := [One(Ref("alternation")), Rep(0, INF, Ref("WSP"))];
    CatFine(rs1, 0, 8);
    RuleFine(20, ElementsRule());
  }

  lemma CWspRuleIsGuarded()
    ensures RuleGuarded(ABNF_GRAMMAR, ABNF_GUARD, CWspRule())
  {
    hide Fine, Loose, Solid, FineCat, NameAt, ABNF_GRAMMAR, ABNF_GUARD;
    RefRepeats(15, "WSP", 1, 1, 3);
    CatFine([One(Ref("WSP"))], 0, 3);
    RefRepeats(22, "c-nl", 1, 1, 3);
    RefRepeats(15, "WSP", 1, 1, 9);
    var rs1 := [One(Ref("c-nl")), One(Ref("WSP"))];
    CatFine(rs1, 0, 3);
    var cs2 := [Cat(rs1)];
    GroupRepeats(cs2, 1, 1, 3);
    var rs3 := [One(Grp(cs2))];
    CatFine(rs3, 0, 3);
    RuleFine(21, CWspRule());
  }

  lemma CNlRuleIsGuarded()
    ensures RuleGuarded(ABNF_GRAMMAR, ABNF_GUARD, CNlRule())
  {
    hide Fine, Loose, Solid, FineCat, NameAt, ABNF_GRAMMAR, ABNF_GUARD;
    RefRepeats(23, "comment", 1, 1, 2);
    CatFine([One(Ref("comment"))], 0, 2);
    RefRepeats(4, "CRLF", 1, 1, 2);
    CatFine([One(Ref("CRLF"))], 0, 2);
    RuleFine(22, CNlRule());
  }

  lemma CommentRuleIsGuarded()
    ensures RuleGuarded(ABNF_GRAMMAR, ABNF_GUARD, CommentRule())
  {
    hide Fine, Loose, Solid, FineCat, NameAt, ABNF_GRAMMAR, ABNF_GUARD;
    LeafRepeats(Str(";"), 1, 1, 0);
    RefRepeats(15, "WSP", 1, 1, 9);
    CatFine([One(Ref("WSP"))], 0, 9);
    RefRepeats(14, "VCHAR", 1, 1, 9);
    CatFine([One(Ref("VCHAR"))], 0, 9);
    var cs1 := [Cat([One(Ref("WSP"))]), Cat([One(Ref("VCHAR"))])];
    GroupRepeats(cs1, 0, INF, 9);
    RefRepeats(4, "CRLF", 1, 1, 9);
    var rs2 := [One(Str(";")), Rep(0, INF, Grp(cs1)), One(Ref("CRLF"))];
    CatFine(rs2, 0, 0);
    RuleFine(23, CommentRule());
  }

  lemma AlternationRuleIsGuarded()
    ensures RuleGuarded(ABNF_GRAMMAR, ABNF_GUARD, AlternationRule())
  {
    hide Fine, Loose, Solid, FineCat, NameAt, ABNF_GRAMMAR, ABNF_GUARD;
    RefRepeats(25, "concatenation", 1, 1, 7);
    RefRepeats(21, "c-wsp", 0, INF, 9);
    LeafRepeats(Str("/"), 1, 1, 9);
    RefRepeats(25, "concatenation", 1, 1, 9);
    var rs1 := [Rep(0, INF, Ref("c-wsp")), One(Str("/")), Rep(0, INF, Ref("c-wsp")), One(Ref("concatenation"))];
    CatFine(rs1, 1, 9);
    var cs2 := [Cat(rs1)];
    GroupRepeats(cs2, 0, INF, 9);
    var rs3 := [One(Ref("concatenation")), Rep(0, INF, Grp(cs2))];
    CatFine(rs3, 0, 7);
    RuleFine(24, AlternationRule());
  }

  lemma ConcatenationRuleIsGuarded()
    ensures RuleGuarded(ABNF_GRAMMAR, ABNF_GUARD, ConcatenationRule())
  {
    hide Fine, Loose, Solid, FineCat, NameAt, ABNF_GRAMMAR, ABNF_GUARD;
    RefRepeats(26, "repetition", 1, 1, 6);
    RefRepeats(21, "c-wsp", 1, INF, 9);
    RefRepeats(26, "repetition", 1, 1, 9);
    var rs1 := [Rep(1, INF, Ref("c-wsp")), One(Ref("repetition"))];
    CatFine(rs1, 0, 9);
    var cs2 := [Cat(rs1)];
    GroupRepeats(cs2, 0, INF, 9);
    var rs3 := [One(Ref("repetition")), Rep(0, INF, Grp(cs2))];
    CatFine(rs3, 0, 6);
    RuleFine(25, ConcatenationRule());
  }

  lemma RepetitionRuleIsGuarded()
    ensures RuleGuarded(ABNF_GRAMMAR, ABNF_GUARD, RepetitionRule())
  {
    hide Fine, Loose, Solid, FineCat, NameAt, ABNF_GRAMMAR, ABNF_GUARD;
    RefRepeats(27, "repeat", 1, 1, 5);
    CatFine([One(Ref("repeat"))], 0, 5);
    OptionLoose([Cat([One(Ref("repeat"))])], 5);
    RefRepeats(28, "element", 1, 1, 5);
    var rs1 := [One(Opt([Cat([One(Ref("repeat"))])])), One(Ref("element"))];
    CatFine(rs1, 1, 5);
    RuleFine(26, RepetitionRule());
  }

  lemma RepeatRuleIsGuarded()
    ensures RuleGuarded(ABNF_GRAMMAR, ABNF_GUARD, RepeatRule())
  {
    hide Fine, Loose, Solid, FineCat, NameAt, ABNF_GRAMMAR, ABNF_GUARD;
    RefRepeats(6, "DIGIT", 1, INF, 1);
    CatFine([Rep(1, INF, Ref("DIGIT"))], 0, 1);
    RefRepeats(6, "DIGIT", 0, INF, 1);
    LeafRepeats(Str("*"), 1, 1, 1);
    RefRepeats(6, "DIGIT", 0, INF, 9);
    var rs1 := [Rep(0, INF, Ref("DIGIT")), One(Str("*")), Rep(0, INF, Ref("DIGIT"))];
    CatFine(rs1, 1, 1);
    var cs2 := [Cat(rs1)];
    GroupRepeats(cs2, 1, 1, 1);
    var rs3 := [One(Grp(cs2))];
    CatFine(rs3, 0, 1);
    LeafRepeats(Str("#"), 1, 1, 1);
    var rs4 := [Rep(0, INF, Ref("DIGIT")), One(Str("#")), Rep(0, INF, Ref("DIGIT"))];
    CatFine(rs4, 1, 1);
    var cs5 := [Cat(rs4)];
    GroupRepeats(cs5, 1, 1, 1);
    var rs6 := [One(Grp(cs5))];
    CatFine(rs6, 0, 1);
    RuleFine(27, RepeatRule());
  }

  lemma ElementRuleIsGuarded()
    ensures RuleGuarded(ABNF_GRAMMAR, ABNF_GUARD, ElementRule())
  {
    hide Fine, Loose, Solid, FineCat, NameAt, ABNF_GRAMMAR, ABNF_GUARD;
    RefRepeats(18, "rulename", 1, 1, 4);
    CatFine([One(Ref("rulename"))], 0, 4);
    RefRepeats(29, "group", 1, 1, 4);
    CatFine([One(Ref("group"))], 0, 4);
    RefRepeats(30, "option", 1, 1, 4);
    CatFine([One(Ref("option"))], 0, 4);
    RefRepeats(31, "char-val", 1, 1, 4);
    CatFine([One(Ref("char-val"))], 0, 4);
    RefRepeats(35, "num-val", 1, 1, 4);
    CatFine([One(Ref("num-val"))], 0, 4);
    RefRepeats(39, "prose-val", 1, 1, 4);
    CatFine([One(Ref("prose-val"))], 0, 4);
    RuleFine(28, ElementRule());
  }

  lemma GroupRuleIsGuarded()
    ensures RuleGuarded(ABNF_GRAMMAR, ABNF_GUARD, GroupRule())
  {
    hide Fine, Loose, Solid, FineCat, NameAt, ABNF_GRAMMAR, ABNF_GUARD;
    LeafRepeats(Str("("), 1, 1, 0);
    RefRepeats(21, "c-wsp", 0, INF, 9);
    RefRepeats(24, "alternation", 1, 1, 9);
    LeafRepeats(Str(")"), 1, 1, 9);
    var rs1 := [One(Str("(")), Rep(0, INF, Ref("c-wsp")), One(Ref("alternation")), Rep(0, INF, Ref("c-wsp")),
                One(Str(")"))];
    CatFine(rs1, 0, 0);
    RuleFine(29, GroupRule());
  }

  lemma OptionRuleIsGuarded()
    ensures RuleGuarded(ABNF_GRAMMAR, ABNF_GUARD, OptionRule())
  {
    hide Fine, Loose, Solid, FineCat, NameAt, ABNF_GRAMMAR, ABNF_GUARD;
    LeafRepeats(Str("["), 1, 1, 0);
    RefRepeats(21, "c-wsp", 0, INF, 9);
    RefRepeats(24, "alternation", 1, 1, 9);
    LeafRepeats(Str("]"), 1, 1, 9);
    var rs1 := [One(Str("[")), Rep(0, INF, Ref("c-wsp")), One(Ref("alternation")), Rep(0, INF, Ref("c-wsp")),
                One(Str("]"))];
    CatFine(rs1, 0, 0);
    RuleFine(30, OptionRule());
  }

  lemma CharValRuleIsGuarded()
    ensures RuleGuarded(ABNF_GRAMMAR, ABNF_GUARD, CharValRule())
  {
    hide Fine, Loose, Solid, FineCat, NameAt, ABNF_GRAMMAR, ABNF_GUARD;
    RefRepeats(32, "case-insensitive-string", 1, 1, 3);
    var rs1 := [One(Ref("case-insensitive-string"))];
    CatFine(rs1, 0, 3);
    RefRepeats(33, "case-sensitive-string", 1, 1, 3);
    var rs2 := [One(Ref("case-sensitive-string"))];
    CatFine(rs2, 0, 3);
    RuleFine(31, CharValRule());
  }

  lemma CaseInsensitiveStringRuleIsGuarded()
    ensures RuleGuarded(ABNF_GRAMMAR, ABNF_GUARD, CaseInsensitiveStringRule())
  {
    hide Fine, Loose, Solid, FineCat, NameAt, ABNF_GRAMMAR, ABNF_GUARD;
    LeafRepeats(Str("%i"), 1, 1, 2);
    CatFine([One(Str("%i"))], 0, 2);
    OptionLoose([Cat([One(Str("%i"))])], 2);
    RefRepeats(34, "quoted-string", 1, 1, 2);
    var rs1 := [One(Opt([Cat([One(Str("%i"))])])), One(Ref("quoted-string"))];
    CatFine(rs1, 1, 2);
    RuleFine(32, CaseInsensitiveStringRule());
  }

  lemma CaseSensitiveStringRuleIsGuarded()
    ensures RuleGuarded(ABNF_GRAMMAR, ABNF_GUARD, CaseSensitiveStringRule())
  {
    hide Fine, Loose, Solid, FineCat, NameAt, ABNF_GRAMMAR, ABNF_GUARD;
    LeafRepeats(Str("%s"), 1, 1, 0);
    RefRepeats(34, "quoted-string", 1, 1, 9);
    var rs1 := [One(Str("%s")), One(Ref("quoted-string"))];
    CatFine(rs1, 0, 0);
    RuleFine(33, CaseSensitiveStringRule());
  }

  lemma QuotedStringRuleIsGuarded()
    ensures RuleGuarded(ABNF_GRAMMAR, ABNF_GUARD, QuotedStringRule())
  {
    hide Fine, Loose, Solid, FineCat, NameAt, ABNF_GRAMMAR, ABNF_GUARD;
    RefRepeats(7, "DQUOTE", 1, 1, 1);
    LeafRepeats(NumRange("20", "21"), 1, 1, 9);
    CatFine([One(NumRange("20", "21"))], 0, 9);
    LeafRepeats(NumRange("23", "7E"), 1, 1, 9);
    CatFine([One(NumRange("23", "7E"))], 0, 9);
    var cs1 := [Cat([One(NumRange("20", "21"))]), Cat([One(NumRange("23", "7E"))])];
    GroupRepeats(cs1, 0, INF, 9);
    RefRepeats(7, "DQUOTE", 1, 1, 9);
    var rs2 := [One(Ref("DQUOTE")), Rep(0, INF, Grp(cs1)), One(Ref("DQUOTE"))];
    CatFine(rs2, 0, 1);
    RuleFine(34, QuotedStringRule());
  }

  lemma NumValRuleIsGuarded()
    ensures RuleGuarded(ABNF_GRAMMAR, ABNF_GUARD, NumValRule())
  {
    hide Fine, Loose, Solid, FineCat, NameAt, ABNF_GRAMMAR, ABNF_GUARD;
    LeafRepeats(Str("%"), 1, 1, 0);
    RefRepeats(36, "bin-val", 1, 1, 9);
    CatFine([One(Ref("bin-val"))], 0, 9);
    RefRepeats(37, "dec-val", 1, 1, 9);
    CatFine([One(Ref("dec-val"))], 0, 9);
    RefRepeats(38, "hex-val", 1, 1, 9);
    CatFine([One(Ref("hex-val"))], 0, 9);
    var cs1 := [Cat([One(Ref("bin-val"))]), Cat([One(Ref("dec-val"))]), Cat([One(Ref("hex-val"))])];
    GroupRepeats(cs1, 1, 1, 9);
    var rs2 := [One(Str("%")), One(Grp(cs1))];
    CatFine(rs2, 0, 0);
    RuleFine(35, NumValRule());
  }

  lemma BinValRuleIsGuarded()
    ensures RuleGuarded(ABNF_GRAMMAR, ABNF_GUARD, BinValRule())
  {
    hide Fine, Loose, Solid, FineCat, NameAt, ABNF_GRAMMAR, ABNF_GUARD;
    LeafRepeats(Str("b"), 1, 1, 0);
    RefRepeats(1, "BIT", 1, INF, 9);
    LeafRepeats(Str("."), 1, 1, 9);
    var rs1 := [One(Str(".")), Rep(1, INF, Ref("BIT"))];
    CatFine(rs1, 0, 9);
    var cs2 := [Cat(rs1)];
    GroupRepeats(cs2, 1, INF, 9);
    var rs3 := [Rep(1, INF, Grp(cs2))];
    CatFine(rs3, 0, 9);
    LeafRepeats(Str("-"), 1, 1, 9);
    var rs4 := [One(Str("-")), Rep(1, INF, Ref("BIT"))];
    CatFine(rs4, 0, 9);
    var cs5 := [Cat(rs4)];
    GroupRepeats(cs5, 1, 1, 9);
    var rs6 := [One(Grp(cs5))];
    CatFine(rs6, 0, 9);
    var cs7 := [Cat(rs3), Cat(rs6)];
    OptionLoose(cs7, 9);
    var rs8 := [One(Str("b")), Rep(1, INF, Ref("BIT")), One(Opt(cs7))];
    CatFine(rs8, 0, 0);
    RuleFine(36, BinValRule());
  }

  lemma DecValRuleIsGuarded()
    ensures RuleGuarded(ABNF_GRAMMAR, ABNF_GUARD, DecValRule())
  {
    hide Fine, Loose, Solid, FineCat, NameAt, ABNF_GRAMMAR, ABNF_GUARD;
    LeafRepeats(Str("d"), 1, 1, 0);
    RefRepeats(6, "DIGIT", 1, INF, 9);
    LeafRepeats(Str("."), 1, 1, 9);
    var rs1 := [One(Str(".")), Rep(1, INF, Ref("DIGIT"))];
    CatFine(rs1, 0, 9);
    var cs2 := [Cat(rs1)];
    GroupRepeats(cs2, 1, INF, 9);
    var rs3 := [Rep(1, INF, Grp(cs2))];
    CatFine(rs3, 0, 9);
    LeafRepeats(Str("-"), 1, 1, 9);
    var rs4 := [One(Str("-")), Rep(1, INF, Ref("DIGIT"))];
    CatFine(rs4, 0, 9);
    var cs5 := [Cat(rs4)];
    GroupRepeats(cs5, 1, 1, 9);
    var rs6 := [One(Grp(cs5))];
    CatFine(rs6, 0, 9);
    var cs7 := [Cat(rs3), Cat(rs6)];
    OptionLoose(cs7, 9);
    var rs8 := [One(Str("d")), Rep(1, INF, Ref("DIGIT")), One(Opt(cs7))];
    CatFine(rs8, 0, 0);
    RuleFine(37, DecValRule());
  }

  lemma HexValRuleIsGuarded()
    ensures RuleGuarded(ABNF_GRAMMAR, ABNF_GUARD, HexValRule())
  {
    hide Fine, Loose, Solid, FineCat, NameAt, ABNF_GRAMMAR, ABNF_GUARD;
    LeafRepeats(Str("x"), 1, 1, 0);
    RefRepeats(8, "HEXDIG", 1, INF, 9);
    LeafRepeats(Str("."), 1, 1, 9);
    var rs1 := [One(Str(".")), Rep(1, INF, Ref("HEXDIG"))];
    CatFine(rs1, 0, 9);
    var cs2 := [Cat(rs1)];
    GroupRepeats(cs2, 1, INF, 9);
    var rs3 := [Rep(1, INF, Grp(cs2))];
    CatFine(rs3, 0, 9);
    LeafRepeats(Str("-"), 1, 1, 9);
    var rs4 := [One(Str("-")), Rep(1, INF, Ref("HEXDIG"))];
    CatFine(rs4, 0, 9);
    var cs5 := [Cat(rs4)];
    GroupRepeats(cs5, 1, 1, 9);
    var rs6 := [One(Grp(cs5))];
    CatFine(rs6, 0, 9);
    var cs7 := [Cat(rs3), Cat(rs6)];
    OptionLoose(cs7, 9);
    var rs8 := [One(Str("x")), Rep(1, INF, Ref("HEXDIG")), One(Opt(cs7))];
    CatFine(rs8, 0, 0);
    RuleFine(38, HexValRule());
  }

  lemma ProseValRuleIsGuarded()
    ensures RuleGuarded(ABNF_GRAMMAR, ABNF_GUARD, ProseValRule())
  {
    hide Fine, Loose, Solid, FineCat, NameAt, ABNF_GRAMMAR, ABNF_GUARD;
    LeafRepeats(Str("<"), 1, 1, 0);
    LeafRepeats(NumRange("20", "3D"), 1, 1, 9);
    CatFine([One(NumRange("20", "3D"))], 0, 9);
    LeafRepeats(NumRange("3F", "7E"), 1, 1, 9);
    CatFine([One(NumRange("3F", "7E"))], 0, 9);
    var cs1 := [Cat([One(NumRange("20", "3D"))]), Cat([One(NumRange("3F", "7E"))])];
    GroupRepeats(cs1, 0, INF, 9);
    LeafRepeats(Str(">"), 1, 1, 9);
    var rs2 := [One(Str("<")), Rep(0, INF, Grp(cs1)), One(Str(">"))];
    CatFine(rs2, 0, 0);
    RuleFine(39, ProseValRule());
  }

  lemma CoreRulesAreGuarded()
    ensures RulesGuarded(ABNF_GRAMMAR, ABNF_GUARD, CORE_RULES)
  {
    hide RuleGuarded, ABNF_GUARD, ABNF_GRAMMAR, AlphaRule, BitRule, CharRule, CrRule, CrlfRule, CtlRule;
    hide DigitRule, DquoteRule, HexdigRule, HtabRule, LfRule, LwspRule, OctetRule, SpRule, VcharRule, WspRule;
    AlphaRuleIsGuarded();
    BitRuleIsGuarded();
    CharRuleIsGuarded();
    CrRuleIsGuarded();
    CrlfRuleIsGuarded();
    CtlRuleIsGuarded();
    DigitRuleIsGuarded();
    DquoteRuleIsGuarded();
    HexdigRuleIsGuarded();
    HtabRuleIsGuarded();
    LfRuleIsGuarded();
    LwspRuleIsGuarded();
    OctetRuleIsGuarded();
    SpRuleIsGuarded();
    VcharRuleIsGuarded();
    WspRuleIsGuarded();
  }

  lemma AbnfRulesAreGuarded()
    ensures RulesGuarded(ABNF_GRAMMAR, ABNF_GUARD, ABNF_RULES)
  {
    hide RuleGuarded, ABNF_GUARD, ABNF_GRAMMAR, RulelistRule, RuleRule, RulenameRule, DefinedAsRule;
    hide ElementsRule, CWspRule, CNlRule, CommentRule, AlternationRule, ConcatenationRule, RepetitionRule;
    hide RepeatRule, ElementRule, GroupRule, OptionRule, CharValRule, CaseInsensitiveStringRule;
    hide CaseSensitiveStringRule, QuotedStringRule, NumValRule, BinValRule, DecValRule, HexValRule, ProseValRule;
    RulelistRuleIsGuarded();
    RuleRuleIsGuarded();
    RulenameRuleIsGuarded();
    DefinedAsRuleIsGuarded();
    ElementsRuleIsGuarded();
    CWspRuleIsGuarded();
    CNlRuleIsGuarded();
    CommentRuleIsGuarded();
    AlternationRuleIsGuarded();
    ConcatenationRuleIsGuarded();
    RepetitionRuleIsGuarded();
    RepeatRuleIsGuarded();
    ElementRuleIsGuarded();
    GroupRuleIsGuarded();
    OptionRuleIsGuarded();
    CharValRuleIsGuarded();
    CaseInsensitiveStringRuleIsGuarded();
    CaseSensitiveStringRuleIsGuarded();
    QuotedStringRuleIsGuarded();
    NumValRuleIsGuarded();
    BinValRuleIsGuarded();
    DecValRuleIsGuarded();
    HexValRuleIsGuarded();
    ProseValRuleIsGuarded();
  }

  /** Parsing a grammar definition never runs forever. */
  lemma AbnfIsGuarded()
    ensures GrammarGuarded(ABNF_GRAMMAR, ABNF_GUARD)
  {
    hide RulesGuarded, CORE_RULES, ABNF_RULES, ABNF_GUARD;
    CoreRulesAreGuarded();
    AbnfRulesAreGuarded();
  }
}
