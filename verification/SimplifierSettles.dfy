/** Two simplification passes always settle a grammar: a third changes nothing. */
module SimplifierSettles {
  import opened Spans
  import opened Wrappers
  import opened Abnf
  import opened Text
  import opened Rewriting
  import opened Simplifier
  import opened SimplifierLanguage

  // ----- what one pass establishes, and what two passes establish -----

  /** A num-val a pass leaves alone; after one pass, only a series can still become a char-val. */
  predicate NumValTidy(base: string, status: NumValStatus, values: seq<string>, t: Transforms, full: bool) {
    (NumValTransform in t && (full || status == Range)) ==>
      SimplifiedNumVal(base, status, values) == NumVal(base, status, values)
  }

  /** Two neighbours that a pass does not join; after one pass, only char-vals can still be joined. */
  predicate Apart(left: Repetition, right: Repetition, full: bool) {
    (IsSingle(left) && IsSingle(right) && (full || (left.element.NumVal? && right.element.NumVal?))) ==>
      MergedElement(left.element, right.element) == None
  }

  predicate NeighboursApart(rs: seq<Repetition>, full: bool) {
    forall k :: 0 < k < |rs| ==> Apart(rs[k - 1], rs[k], full)
  }

  predicate Tidy(e: Element, t: Transforms, full: bool)
    decreases e, 0
  {
    match e
    case Group(a) => AlternationTidy(a, t, full) && (GroupTransform in t ==> SoleElement(a) == None)
    case Optional(a) => AlternationTidy(a, t, full)
    case NumVal(base, status, values) => NumValTidy(base, status, values, t, full)
    case _ => true
  }

  predicate AlternationTidy(a: Alternation, t: Transforms, full: bool)
    decreases a, 1
  {
    AlternativesTidy(a.concatenations, t, full)
  }

  predicate ConcatenationTidy(c: Concatenation, t: Transforms, full: bool)
    decreases c, 1
  {
    AllTidy(c.repetitions, t, full) && (LiteralTransform in t ==> NeighboursApart(c.repetitions, full))
  }

  /** It is not replaced by what it holds, either. */
  predicate RepetitionTidy(r: Repetition, t: Transforms, full: bool)
    decreases r, 1
  {
    Tidy(r.element, t, full) && !Spliced(r, t)
  }

  predicate Spliced(r: Repetition, t: Transforms) {
    IsSingle(r) && GroupTransform in t && r.element.Group? && |r.element.alternation.concatenations| == 1
  }

  predicate AllTidy(rs: seq<Repetition>, t: Transforms, full: bool)
    decreases rs, 0
  {
    forall k :: 0 <= k < |rs| ==> RepetitionTidy(rs[k], t, full)
  }

  predicate AlternativesTidy(cs: seq<Concatenation>, t: Transforms, full: bool)
    decreases cs, 0
  {
    forall k :: 0 <= k < |cs| ==> SoleGroup(cs[k], t) == None && ConcatenationTidy(cs[k], t, full)
  }

  // ----- num-vals -----

  lemma NumValPass(base: string, status: NumValStatus, values: seq<string>, t: Transforms, full: bool)
    requires NumValTransform in t
    requires full ==> NumValTidy(base, status, values, t, false)
    ensures Tidy(SimplifiedNumVal(base, status, values), t, full)
    ensures !SimplifiedNumVal(base, status, values).Group?
  {
  }

  /** Simplifying a series settles it. */
  lemma RefinedTidy(left: Element, right: Element, t: Transforms, full: bool)
    requires MergedElement(left, right).Some?
    ensures Tidy(Refined(MergedElement(left, right).value, t), t, full)
    ensures !Refined(MergedElement(left, right).value, t).Group?
  {
    var e := MergedElement(left, right).value;
    if e.NumVal? && NumValTransform in t {
      NumValPass(e.base, e.status, e.values, t, full);
    }
  }

  /** A neighbour that stays apart from the first of two literals stays apart from what they become together. */
  lemma ApartFromMerged(before: Repetition, left: Repetition, right: Repetition, t: Transforms, full: bool)
    requires MergedElement(left.element, right.element).Some?
    requires IsSingle(left) && Apart(before, left, full)
    requires full ==> left.element.CharVal?
    ensures Apart(before, One(Refined(MergedElement(left.element, right.element).value, t)), full)
  {
    if left.element.CharVal? && before.element.CharVal? {
      HasLetterAppend(left.element.value, right.element.value);
    }
  }

  lemma HasLetterAppend(x: string, y: string)
    ensures HasLetter(x + y) <==> HasLetter(x) || HasLetter(y)
  {
    if i :| 0 <= i < |x| && IsAsciiLetter(x[i]) {
      assert IsAsciiLetter((x + y)[i]);
    } else if i :| 0 <= i < |y| && IsAsciiLetter(y[i]) {
      assert IsAsciiLetter((x + y)[|x| + i]);
    }
  }

  // ----- joining literals -----

  /** Before a second pass joins literals, only char-vals are left to join. */
  predicate Joinable(rs: seq<Repetition>, full: bool) {
    full ==> NeighboursApart(rs, false)
  }

  /** The last joined repetition, where it is a num-val, is the last one met. */
  predicate LastKept(merged: seq<Repetition>, rs: seq<Repetition>) {
    (rs == [] ==> merged == [])
    && (rs != [] ==> merged != [] && (merged[|merged| - 1].element.NumVal? ==> merged[|merged| - 1] == rs[|rs| - 1]))
  }

  lemma {:induction false} JoinedTidy(rs: seq<Repetition>, t: Transforms, full: bool)
    requires AllTidy(rs, t, full) && Joinable(rs, full)
    ensures AllTidy(JoinedAll(rs, t), t, full) && NeighboursApart(JoinedAll(rs, t), full)
    ensures full ==> LastKept(JoinedAll(rs, t), rs)
  {
    hide RepetitionTidy, Apart;
    if rs != [] {
      var front, last := rs[..|rs| - 1], rs[|rs| - 1];
      JoinedTidy(front, t, full);
      if full && front != [] {
        assert Apart(rs[|rs| - 2], rs[|rs| - 1], false);
      }
      NextTidy(JoinedAll(front, t), front, last, t, full);
    }
  }

  lemma NextTidy(merged: seq<Repetition>, front: seq<Repetition>, r: Repetition, t: Transforms, full: bool)
    requires AllTidy(merged, t, full) && NeighboursApart(merged, full) && RepetitionTidy(r, t, full)
    requires full ==> LastKept(merged, front) && (front != [] ==> Apart(front[|front| - 1], r, false))
    ensures AllTidy(Joined(merged, r, t), t, full) && NeighboursApart(Joined(merged, r, t), full)
    ensures full ==> LastKept(Joined(merged, r, t), front + [r])
  {
    hide RepetitionTidy, MergedElement, Refined;
    if merged != [] && IsSingle(r) && IsSingle(merged[|merged| - 1]) &&
      MergedElement(merged[|merged| - 1].element, r.element).Some? {
      var kept, left := merged[..|merged| - 1], merged[|merged| - 1];
      var e := MergedElement(left.element, r.element).value;
      MergedLiteral(left.element, r.element, t, full);
      LiteralTidy(One(Refined(e, t)), t, full);
      if full {
        assert front != [];
        var before := front[|front| - 1];
        assert Apart(before, r, false);
      }
      if kept != [] {
        assert Apart(kept[|kept| - 1], left, full);
        ApartFromMerged(kept[|kept| - 1], left, r, t, full);
      }
    }
  }

  lemma MergedLiteral(left: Element, right: Element, t: Transforms, full: bool)
    requires MergedElement(left, right).Some?
    ensures left.CharVal? || left.NumVal?
    ensures left.CharVal? <==> right.CharVal?
    ensures left.NumVal? <==> right.NumVal?
    ensures left.CharVal? ==> Refined(MergedElement(left, right).value, t).CharVal?
    ensures var e := Refined(MergedElement(left, right).value, t); e.CharVal? || e.NumVal?
    ensures Tidy(Refined(MergedElement(left, right).value, t), t, full)
    ensures !Refined(MergedElement(left, right).value, t).Group?
  {
    RefinedTidy(left, right, t, full);
  }

  lemma LiteralTidy(r: Repetition, t: Transforms, full: bool)
    requires Tidy(r.element, t, full) && !r.element.Group?
    ensures RepetitionTidy(r, t, full)
  {
  }

  /** What comes out of the joining alone and is no literal went in alone. */
  lemma LoneKept(rs: seq<Repetition>, t: Transforms)
    requires |JoinedAll(rs, t)| == 1
    requires !JoinedAll(rs, t)[0].element.CharVal? && !JoinedAll(rs, t)[0].element.NumVal?
    ensures rs == JoinedAll(rs, t)
  {
    hide Refined, MergedElement;
    var front, r := rs[..|rs| - 1], rs[|rs| - 1];
    var merged := JoinedAll(front, t);
    assert rs == front + [r];
    if merged != [] && IsSingle(r) && IsSingle(merged[|merged| - 1]) &&
      MergedElement(merged[|merged| - 1].element, r.element).Some? {
      MergedLiteral(merged[|merged| - 1].element, r.element, t, true);
    }
    SomeJoined(front, t);
  }

  lemma SomeJoined(rs: seq<Repetition>, t: Transforms)
    ensures JoinedAll(rs, t) == [] <==> rs == []
  {
  }

  // ----- one pass, and a second -----

  lemma {:induction false} AlternativesPass(cs: seq<Concatenation>, t: Transforms, full: bool)
    requires full ==> AlternativesTidy(cs, t, false)
    ensures AlternativesTidy(SimplifiedAlternatives(cs, t), t, full)
    ensures full ==> |SimplifiedAlternatives(cs, t)| == |cs|
    decreases cs, 0
  {
    hide ConcatenationTidy, SimplifiedConcatenation, SoleGroup, SplicedConcatenation;
    if cs != [] {
      var front, last := cs[..|cs| - 1], cs[|cs| - 1];
      AlternativesPass(front, t, full);
      ConcatenationPass(last, t, full);
      ContributionTidy(SimplifiedConcatenation(last, t), t, full);
    }
  }

  lemma ContributionTidy(c: Concatenation, t: Transforms, full: bool)
    requires ConcatenationTidy(c, t, full)
    ensures AlternativesTidy(SplicedConcatenation(c, t), t, full)
    ensures SoleGroup(c, t) == None ==> SplicedConcatenation(c, t) == [c]
  {
    hide AlternativesTidy;
    if SoleGroup(c, t).Some? {
      assert RepetitionTidy(c.repetitions[0], t, full);
      GroupTidy(SoleGroup(c, t).value, t, full);
    } else {
      OneTidy(c, t, full);
    }
  }

  lemma GroupTidy(a: Alternation, t: Transforms, full: bool)
    requires Tidy(Group(a), t, full)
    ensures AlternativesTidy(a.concatenations, t, full)
  {
    hide ConcatenationTidy;
  }

  lemma OneTidy(c: Concatenation, t: Transforms, full: bool)
    requires SoleGroup(c, t) == None && ConcatenationTidy(c, t, full)
    ensures AlternativesTidy([c], t, full)
  {
    hide ConcatenationTidy;
  }

  lemma {:induction false} ConcatenationPass(c: Concatenation, t: Transforms, full: bool)
    requires full ==> ConcatenationTidy(c, t, false)
    ensures ConcatenationTidy(SimplifiedConcatenation(c, t), t, full)
    ensures full && SoleGroup(c, t) == None ==> SoleGroup(SimplifiedConcatenation(c, t), t) == None
    decreases c, 1
  {
    hide RepetitionTidy, SimplifiedRepetitions, SimplifiedRepetition, JoinedAll, NeighboursApart;
    var rs := c.repetitions;
    var rs' := SimplifiedRepetitions(rs, t);
    RepetitionsPass(rs, t, full);
    if LiteralTransform in t {
      if full {
        StillApart(rs, rs');
      }
      JoinedTidy(rs', t, full);
    }
    if full && SoleGroup(SimplifiedConcatenation(c, t), t).Some? {
      if LiteralTransform in t {
        LoneKept(rs', t);
      }
      assert Kept(rs[0], rs'[0]);
    }
  }

  /** What a second pass keeps of a repetition: it stays in its place, and a num-val stays one only unchanged. */
  predicate Kept(r: Repetition, r': Repetition) {
    (r'.element.Group? ==> r.element.Group?) && (IsSingle(r) && r'.element.NumVal? ==> r' == r)
  }

  predicate AllKept(rs: seq<Repetition>, rs': seq<Repetition>) {
    |rs'| == |rs| && forall k :: 0 <= k < |rs| ==>
      rs'[k].min == rs[k].min && rs'[k].max == rs[k].max && Kept(rs[k], rs'[k])
  }

  /** Num-vals that did not join in a first pass do not join in a second. */
  lemma StillApart(rs: seq<Repetition>, rs': seq<Repetition>)
    requires NeighboursApart(rs, false) && AllKept(rs, rs')
    ensures NeighboursApart(rs', false)
  {
    hide MergedElement;
    forall k | 0 < k < |rs'|
      ensures Apart(rs'[k - 1], rs'[k], false)
    {
      assert Apart(rs[k - 1], rs[k], false);
    }
  }

  lemma {:induction false} RepetitionsPass(rs: seq<Repetition>, t: Transforms, full: bool)
    requires full ==> AllTidy(rs, t, false)
    ensures AllTidy(SimplifiedRepetitions(rs, t), t, full)
    ensures full ==> AllKept(rs, SimplifiedRepetitions(rs, t))
    decreases rs, 0
  {
    hide RepetitionTidy, SimplifiedRepetition, SplicedRepetition, Kept;
    if rs != [] {
      var front, last := rs[..|rs| - 1], rs[|rs| - 1];
      RepetitionsPass(front, t, full);
      RepetitionPass(last, t, full);
    }
  }

  lemma {:induction false} RepetitionPass(r: Repetition, t: Transforms, full: bool)
    requires full ==> RepetitionTidy(r, t, false)
    ensures AllTidy(SplicedRepetition(SimplifiedRepetition(r, t), t), t, full)
    ensures full ==>
              var r' := SimplifiedRepetition(r, t);
              SplicedRepetition(r', t) == [r'] && r'.min == r.min && r'.max == r.max && Kept(r, r')
    decreases r, 1
  {
    hide AlternationTidy, SimplifiedAlternation, SimplifiedNumVal;
    ElementPass(r.element, t, full);
    var r' := SimplifiedRepetition(r, t);
    if Spliced(r', t) {
      SpliceTidy(r'.element.alternation, t, full);
    }
  }

  lemma SpliceTidy(a: Alternation, t: Transforms, full: bool)
    requires AlternationTidy(a, t, full) && |a.concatenations| == 1
    ensures AllTidy(a.concatenations[0].repetitions, t, full)
  {
    assert ConcatenationTidy(a.concatenations[0], t, full);
  }

  lemma {:induction false} ElementPass(e: Element, t: Transforms, full: bool)
    requires full ==> Tidy(e, t, false)
    ensures Tidy(SimplifiedElement(e, t), t, full)
    ensures SimplifiedElement(e, t).Group? ==> e.Group?
    ensures full && e.Group? && |e.alternation.concatenations| != 1 ==>
              SimplifiedElement(e, t).Group? && |SimplifiedElement(e, t).alternation.concatenations| != 1
    ensures full && SimplifiedElement(e, t).NumVal? ==> SimplifiedElement(e, t) == e || e.Group?
    decreases e, 0
  {
    match e
    case Group(a) =>
      AlternativesPass(a.concatenations, t, full);
      var a' := SimplifiedAlternation(a, t);
      if SoleElement(a').Some? {
        SpliceTidy(a', t, full);
        assert RepetitionTidy(a'.concatenations[0].repetitions[0], t, full);
      }
    case Optional(a) =>
      AlternativesPass(a.concatenations, t, full);
    case NumVal(base, status, values) =>
      if NumValTransform in t {
        NumValPass(base, status, values, t, full);
      }
    case _ =>
  }

  // ----- what is tidy is left alone -----

  lemma {:induction false} AlternativesSettled(cs: seq<Concatenation>, t: Transforms)
    requires AlternativesTidy(cs, t, true)
    ensures SimplifiedAlternatives(cs, t) == cs
    decreases cs, 0
  {
    hide ConcatenationTidy, SimplifiedConcatenation, SoleGroup, SplicedConcatenation;
    if cs != [] {
      var front, last := cs[..|cs| - 1], cs[|cs| - 1];
      assert cs == front + [last];
      AlternativesSettled(front, t);
      ConcatenationSettled(last, t);
      ContributionTidy(last, t, true);
    }
  }

  lemma {:induction false} ConcatenationSettled(c: Concatenation, t: Transforms)
    requires ConcatenationTidy(c, t, true)
    ensures SimplifiedConcatenation(c, t) == c
    decreases c, 1
  {
    hide RepetitionTidy;
    RepetitionsSettled(c.repetitions, t);
    if LiteralTransform in t {
      NothingToJoin(c.repetitions, t);
    }
  }

  lemma {:induction false} NothingToJoin(rs: seq<Repetition>, t: Transforms)
    requires NeighboursApart(rs, true)
    ensures JoinedAll(rs, t) == rs
  {
    if rs != [] {
      var front, last := rs[..|rs| - 1], rs[|rs| - 1];
      assert rs == front + [last];
      NothingToJoin(front, t);
      if front != [] {
        assert Apart(rs[|rs| - 2], rs[|rs| - 1], true);
      }
    }
  }

  lemma {:induction false} RepetitionsSettled(rs: seq<Repetition>, t: Transforms)
    requires AllTidy(rs, t, true)
    ensures SimplifiedRepetitions(rs, t) == rs
    decreases rs, 0
  {
    if rs != [] {
      var front, last := rs[..|rs| - 1], rs[|rs| - 1];
      assert rs == front + [last];
      RepetitionsSettled(front, t);
      RepetitionSettled(last, t);
    }
  }

  lemma {:induction false} RepetitionSettled(r: Repetition, t: Transforms)
    requires RepetitionTidy(r, t, true)
    ensures SimplifiedRepetition(r, t) == r && SplicedRepetition(r, t) == [r]
    decreases r, 1
  {
    ElementSettled(r.element, t);
  }

  lemma {:induction false} ElementSettled(e: Element, t: Transforms)
    requires Tidy(e, t, true)
    ensures SimplifiedElement(e, t) == e
    decreases e, 0
  {
    match e
    case Group(a) => AlternativesSettled(a.concatenations, t);
    case Optional(a) => AlternativesSettled(a.concatenations, t);
    case _ =>
  }

  // ----- whole grammars -----

  /** A third pass leaves a tree as the second left it, whichever transforms are applied. */
  lemma TwoPassesSettle(a: Alternation, t: Transforms)
    ensures var twice := SimplifiedAlternation(SimplifiedAlternation(a, t), t);
            SimplifiedAlternation(twice, t) == twice
  {
    var once := SimplifiedAlternatives(a.concatenations, t);
    AlternativesPass(a.concatenations, t, false);
    AlternativesPass(once, t, true);
    AlternativesSettled(SimplifiedAlternatives(once, t), t);
  }

  /** So many passes over every rule. */
  function Passed(rules: seq<Rule>, t: Transforms, passes: nat): seq<Rule> {
    if passes == 0 then rules else SimplifiedRules(Passed(rules, t, passes - 1), t)
  }

  lemma SettledRules(rules: seq<Rule>, t: Transforms)
    ensures SimplifiedRules(Passed(rules, t, 2), t) == Passed(rules, t, 2)
  {
    hide SimplifiedAlternation;
    var once := SimplifiedRules(rules, t);
    var twice := SimplifiedRules(once, t);
    assert Passed(rules, t, 1) == once && Passed(rules, t, 2) == twice;
    forall k | 0 <= k < |rules|
      ensures SimplifiedRules(twice, t)[k] == twice[k]
    {
      TwoPassesSettle(rules[k].alternation, t);
      assert twice[k] == Rule(rules[k].name, SimplifiedAlternation(SimplifiedAlternation(rules[k].alternation, t), t));
    }
  }

  /** However many passes follow, the rules are as two passes left them. */
  lemma {:induction false} FurtherPasses(rules: seq<Rule>, t: Transforms, passes: nat)
    requires passes >= 2
    ensures Passed(rules, t, passes) == Passed(rules, t, 2)
  {
    if passes > 2 {
      FurtherPasses(rules, t, passes - 1);
      SettledRules(rules, t);
    }
  }

  function Just(e: Element): Alternation {
    Alternation([Cat([One(e)])])
  }

  /** One pass is not enough: a range over the hyphen becomes a series, and only then a string. */
  lemma OnePassIsNotEnough(t: Transforms)
    requires t == {NumValTransform}
    ensures SimplifiedAlternation(Just(NumVal("x", Range, ["2D", "2D"])), t) == Just(NumVal("x", Series, ["2D"]))
    ensures SimplifiedAlternation(Just(NumVal("x", Series, ["2D"])), t) == Just(CharVal(false, "-"))
  {
    hide SimplifiedAlternation, SimplifiedNumVal, Just;
    HyphenTwice();
    OneElement(NumVal("x", Range, ["2D", "2D"]), t);
    OneElement(NumVal("x", Series, ["2D"]), t);
  }

  lemma OneElement(e: Element, t: Transforms)
    requires t == {NumValTransform}
    ensures SimplifiedAlternation(Just(e), t) == Just(SimplifiedElement(e, t))
  {
    hide SimplifiedElement, SimplifiedAlternatives, SimplifiedRepetitions;
    var e' := SimplifiedElement(e, t);
    OneSimplified(Cat([One(e)]), One(e), t);
    assert SimplifiedRepetition(One(e), t) == One(e') && SplicedRepetition(One(e'), t) == [One(e')];
    assert SimplifiedConcatenation(Cat([One(e)]), t) == Cat([One(e')]);
  }

  lemma OneSimplified(c: Concatenation, r: Repetition, t: Transforms)
    ensures SimplifiedAlternatives([c], t) == SplicedConcatenation(SimplifiedConcatenation(c, t), t)
    ensures SimplifiedRepetitions([r], t) == SplicedRepetition(SimplifiedRepetition(r, t), t)
  {
    hide SimplifiedConcatenation, SimplifiedRepetition, SplicedConcatenation, SplicedRepetition;
    assert [c][..0] == [] && [r][..0] == [];
    assert SimplifiedRepetitions([], t) == [] && SimplifiedAlternatives([], t) == [];
  }

  lemma HyphenTwice()
    ensures SimplifiedNumVal("x", Range, ["2D", "2D"]) == NumVal("x", Series, ["2D"])
    ensures SimplifiedNumVal("x", Series, ["2D"]) == CharVal(false, "-")
  {
    HyphenRunes();
    assert RuneString([45]) == "-" && !HasLetter("-");
    var h := "2D";
    assert Join([h], ".") == h && |NumValText("x", Series, [h])| == 4;
  }

  lemma HyphenRunes()
    ensures Runes(["2D"], "x") == Some([45]) && Runes(["2D", "2D"], "x") == Some([45, 45])
  {
    var h := "2D";
    assert h[..1] == "2" && "2"[..0] == "" && DigitValue('D') == 13 && DigitValue('2') == 2;
    assert ParseDigits("2", 16) == Some(2) && ParseDigits(h, 16) == Some(45);
    RunesOfOne(h, "x");
    RunesOfTwo([h, h], "x");
  }
}
