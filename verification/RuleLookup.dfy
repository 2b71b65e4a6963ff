/** Looking up the rules of ABNF: no two of them, nor of the core rules, share a
    name (pkg/abnf/rules.go, pkg/abnf/grammar.go:49-55). */
module RuleLookup {
  import opened Wrappers
  import opened Abnf
  import opened Rules

  /** A number that names spelled alike, but for case, share. */
  function Sign(name: string): int {
    if name == "" then 0
    else |name| * 65536 + LowerChar(name[0]) as int * 256 + LowerChar(name[|name| - 1]) as int
  }

  lemma SameSign(a: string, b: string)
    requires Lower(a) == Lower(b)
    ensures Sign(a) == Sign(b)
  {
    if a != "" {
      assert Lower(a)[0] == Lower(b)[0] && Lower(a)[|a| - 1] == Lower(b)[|b| - 1];
    }
  }

  /** The signs of the core rules, and of the rules of ABNF. */
  const CORE_SIGNS: seq<int> := [
    352609, 221812, 287602, 156530, 287590, 222060, 353396, 418917,
    419943, 288866, 158822, 289904, 356212, 160624, 358002, 227184]

  const ABNF_SIGNS: seq<int> := [
    553588, 291429, 553573, 681075, 550259, 353136, 287596, 484212,
    745838, 877422, 684654, 422516, 484724, 354160, 421742, 549740,
    1532775, 1401703, 880999, 487020, 483948, 484460, 485484, 618604]

  lemma CoreSigns()
    ensures |CORE_RULES| == |CORE_SIGNS| == 16
    ensures forall k :: 0 <= k < 16 ==> Sign(CORE_RULES[k].name) == CORE_SIGNS[k]
  {
    hide AlphaRule, BitRule, CharRule, CrRule, CrlfRule, CtlRule, DigitRule, DquoteRule, HexdigRule, HtabRule;
    hide LfRule, LwspRule, OctetRule, SpRule, VcharRule, WspRule;
    assert Sign(CORE_RULES[0].name) == 352609;
    assert Sign(CORE_RULES[1].name) == 221812;
    assert Sign(CORE_RULES[2].name) == 287602;
    assert Sign(CORE_RULES[3].name) == 156530;
    assert Sign(CORE_RULES[4].name) == 287590;
    assert Sign(CORE_RULES[5].name) == 222060;
    assert Sign(CORE_RULES[6].name) == 353396;
    assert Sign(CORE_RULES[7].name) == 418917;
    assert Sign(CORE_RULES[8].name) == 419943;
    assert Sign(CORE_RULES[9].name) == 288866;
    assert Sign(CORE_RULES[10].name) == 158822;
    assert Sign(CORE_RULES[11].name) == 289904;
    assert Sign(CORE_RULES[12].name) == 356212;
    assert Sign(CORE_RULES[13].name) == 160624;
    assert Sign(CORE_RULES[14].name) == 358002;
    assert Sign(CORE_RULES[15].name) == 227184;
  }

  lemma AbnfSigns()
    ensures |ABNF_RULES| == |ABNF_SIGNS| == 24
    ensures forall k :: 0 <= k < 24 ==> Sign(ABNF_RULES[k].name) == ABNF_SIGNS[k]
  {
    hide RulelistRule, RuleRule, RulenameRule, DefinedAsRule, ElementsRule, CWspRule, CNlRule, CommentRule;
    hide AlternationRule, ConcatenationRule, RepetitionRule, RepeatRule, ElementRule, GroupRule, OptionRule;
    hide CharValRule, CaseInsensitiveStringRule, CaseSensitiveStringRule, QuotedStringRule, NumValRule;
    hide BinValRule, DecValRule, HexValRule, ProseValRule;
    assert Sign(ABNF_RULES[0].name) == 553588;
    assert Sign(ABNF_RULES[1].name) == 291429;
    assert Sign(ABNF_RULES[2].name) == 553573;
    assert Sign(ABNF_RULES[3].name) == 681075;
    assert Sign(ABNF_RULES[4].name) == 550259;
    assert Sign(ABNF_RULES[5].name) == 353136;
    assert Sign(ABNF_RULES[6].name) == 287596;
    assert Sign(ABNF_RULES[7].name) == 484212;
    assert Sign(ABNF_RULES[8].name) == 745838;
    assert Sign(ABNF_RULES[9].name) == 877422;
    assert Sign(ABNF_RULES[10].name) == 684654;
    assert Sign(ABNF_RULES[11].name) == 422516;
    assert Sign(ABNF_RULES[12].name) == 484724;
    assert Sign(ABNF_RULES[13].name) == 354160;
    assert Sign(ABNF_RULES[14].name) == 421742;
    assert Sign(ABNF_RULES[15].name) == 549740;
    assert Sign(ABNF_RULES[16].name) == 1532775;
    assert Sign(ABNF_RULES[17].name) == 1401703;
    assert Sign(ABNF_RULES[18].name) == 880999;
    assert Sign(ABNF_RULES[19].name) == 487020;
    assert Sign(ABNF_RULES[20].name) == 483948;
    assert Sign(ABNF_RULES[21].name) == 484460;
    assert Sign(ABNF_RULES[22].name) == 485484;
    assert Sign(ABNF_RULES[23].name) == 618604;
  }

  /** Which rule a sign belongs to: the core rules first. */
  const PLACES: map<int, nat> := map[
    352609 := 0, 221812 := 1, 287602 := 2, 156530 := 3, 287590 := 4,
    222060 := 5, 353396 := 6, 418917 := 7, 419943 := 8, 288866 := 9,
    158822 := 10, 289904 := 11, 356212 := 12, 160624 := 13, 358002 := 14,
    227184 := 15, 553588 := 16, 291429 := 17, 553573 := 18, 681075 := 19,
    550259 := 20, 353136 := 21, 287596 := 22, 484212 := 23, 745838 := 24,
    877422 := 25, 684654 := 26, 422516 := 27, 484724 := 28, 354160 := 29,
    421742 := 30, 549740 := 31, 1532775 := 32, 1401703 := 33, 880999 := 34,
    487020 := 35, 483948 := 36, 484460 := 37, 485484 := 38, 618604 := 39]

  lemma CorePlaces()
    ensures forall k :: 0 <= k < 8 ==> CORE_SIGNS[k] in PLACES && PLACES[CORE_SIGNS[k]] == k
  {
    assert PLACES[352609] == 0;
    assert PLACES[221812] == 1;
    assert PLACES[287602] == 2;
    assert PLACES[156530] == 3;
    assert PLACES[287590] == 4;
    assert PLACES[222060] == 5;
    assert PLACES[353396] == 6;
    assert PLACES[418917] == 7;
  }

  lemma MoreCorePlaces()
    ensures forall k :: 8 <= k < 16 ==> CORE_SIGNS[k] in PLACES && PLACES[CORE_SIGNS[k]] == k
  {
    assert PLACES[419943] == 8;
    assert PLACES[288866] == 9;
    assert PLACES[158822] == 10;
    assert PLACES[289904] == 11;
    assert PLACES[356212] == 12;
    assert PLACES[160624] == 13;
    assert PLACES[358002] == 14;
    assert PLACES[227184] == 15;
  }

  lemma AbnfPlaces()
    ensures forall k :: 0 <= k < 24 ==> ABNF_SIGNS[k] in PLACES && PLACES[ABNF_SIGNS[k]] == 16 + k
  {
    assert PLACES[553588] == 16;
    assert PLACES[291429] == 17;
    assert PLACES[553573] == 18;
    assert PLACES[681075] == 19;
    assert PLACES[550259] == 20;
    assert PLACES[353136] == 21;
    assert PLACES[287596] == 22;
    assert PLACES[484212] == 23;
    assert PLACES[745838] == 24;
    assert PLACES[877422] == 25;
    assert PLACES[684654] == 26;
    assert PLACES[422516] == 27;
    assert PLACES[484724] == 28;
    assert PLACES[354160] == 29;
    assert PLACES[421742] == 30;
    assert PLACES[549740] == 31;
    assert PLACES[1532775] == 32;
    assert PLACES[1401703] == 33;
    assert PLACES[880999] == 34;
    assert PLACES[487020] == 35;
    assert PLACES[483948] == 36;
    assert PLACES[484460] == 37;
    assert PLACES[485484] == 38;
    assert PLACES[618604] == 39;
  }

  /** A list of rules finds a rule by its name, if no later rule shares its sign. */
  lemma {:induction false} FoundIn(rules: seq<Rule>, k: nat)
    requires k < |rules| && forall j :: k < j < |rules| ==> Sign(rules[j].name) != Sign(rules[k].name)
    ensures LookupIn(rules, Lower(rules[k].name)) == Some(rules[k])
  {
    hide Sign;
    var last := |rules| - 1;
    if k < last {
      if Lower(rules[last].name) == Lower(rules[k].name) {
        SameSign(rules[last].name, rules[k].name);
      }
      FoundIn(rules[..last], k);
    }
  }

  lemma {:induction false} NotFoundIn(rules: seq<Rule>, name: string)
    requires forall j :: 0 <= j < |rules| ==> Sign(rules[j].name) != Sign(name)
    ensures LookupIn(rules, Lower(name)) == None
  {
    hide Sign;
    if rules != [] {
      var last := |rules| - 1;
      if Lower(rules[last].name) == Lower(name) {
        SameSign(rules[last].name, name);
      }
      NotFoundIn(rules[..last], name);
    }
  }

  /** Every rule of ABNF is found by its name. */
  lemma AbnfRuleFound(k: nat)
    requires k < 24
    ensures |ABNF_RULES| == 24 && ABNF_GRAMMAR.Lookup(ABNF_RULES[k].name) == Some(ABNF_RULES[k])
  {
    hide Sign, ABNF_RULES, CORE_RULES, PLACES, ABNF_SIGNS, CORE_SIGNS;
    AbnfSigns();
    AbnfPlaces();
    FoundIn(ABNF_RULES, k);
  }

  /** Every core rule is found by its name, for no rule of ABNF has it. */
  lemma CoreRuleFound(k: nat)
    requires k < 16
    ensures |CORE_RULES| == 16 && ABNF_GRAMMAR.Lookup(CORE_RULES[k].name) == Some(CORE_RULES[k])
  {
    hide Sign, ABNF_RULES, CORE_RULES, PLACES, ABNF_SIGNS, CORE_SIGNS;
    AbnfSigns();
    CoreSigns();
    AbnfPlaces();
    CorePlaces();
    MoreCorePlaces();
    FoundIn(CORE_RULES, k);
    NotFoundIn(ABNF_RULES, CORE_RULES[k].name);
  }
}
