/** Trees in which nothing is left to simplify, said of the trees and of what
    their literals mean, and not of the rewriting: two passes reach this form
    from any tree, and a pass leaves a tree alone if and only if it has it. */
module NormalForm {
  import opened Spans
  import opened Wrappers
  import opened Abnf
  import opened Rewriting
  import opened Simplifier
  import opened SimplifierSettles
  import SimplifierLanguage
  import opened LiteralMeaning
  import opened TextDerivable

  // ----- the form -----

  /** One literal can stand for two: a char-val that matches what two char-vals
      match together, or a series of the values of two series. */
  ghost predicate OneLiteralDoes(left: Element, right: Element) {
    || (&& left.CharVal? && right.CharVal? && Spellable(left.value) && Spellable(right.value)
        && exists e: Element :: e.CharVal? && ExpressesBoth(e, left, right))
    || (&& left.NumVal? && right.NumVal? && left.status == Series && right.status == Series
        && NumeralBase(left.base).Some? && NumeralBase(left.base) == NumeralBase(right.base))
  }

  /** No range over one value, and no series that a shorter char-val can stand for. */
  ghost predicate NumValNormal(n: Element)
    requires n.NumVal?
  {
    && (n.status == Range && |n.values| == 2 && ParseNumVal(n.values[0], n.base).Some? ==>
          ParseNumVal(n.values[0], n.base) != ParseNumVal(n.values[1], n.base))
    && (n.status == Series && n.values != [] && Runes(n.values, n.base).Some? ==>
          !exists e: Element :: SpellsShorter(e, n))
  }

  /** A group whose parentheses are not needed: one concatenation, which either
      is not repeated as a whole or is one unrepeated element. */
  predicate NeedlessGroup(r: Repetition) {
    && r.element.Group? && |r.element.alternation.concatenations| == 1
    && var inner := r.element.alternation.concatenations[0].repetitions;
       IsSingle(r) || (|inner| == 1 && IsSingle(inner[0]))
  }

  /** An alternative that is nothing but a group. */
  predicate GroupAlone(c: Concatenation) {
    |c.repetitions| == 1 && IsSingle(c.repetitions[0]) && c.repetitions[0].element.Group?
  }

  ghost predicate Normal(e: Element, t: Transforms)
    decreases e, 0
  {
    match e
    case Group(a) => AlternationNormal(a, t)
    case Optional(a) => AlternationNormal(a, t)
    case NumVal(_, _, _) => NumValTransform in t ==> NumValNormal(e)
    case _ => true
  }

  ghost predicate AlternationNormal(a: Alternation, t: Transforms)
    decreases a, 1
  {
    forall k :: 0 <= k < |a.concatenations| ==>
      && (GroupTransform in t ==> !GroupAlone(a.concatenations[k]))
      && ConcatenationNormal(a.concatenations[k], t)
  }

  ghost predicate ConcatenationNormal(c: Concatenation, t: Transforms)
    decreases c, 1
  {
    && (forall k :: 0 <= k < |c.repetitions| ==> RepetitionNormal(c.repetitions[k], t))
    && (LiteralTransform in t ==> NoneJoins(c.repetitions))
  }

  ghost predicate RepetitionNormal(r: Repetition, t: Transforms)
    decreases r, 1
  {
    Normal(r.element, t) && (GroupTransform in t ==> !NeedlessGroup(r))
  }

  /** No two adjacent unrepeated elements for which one literal can stand. */
  ghost predicate NoneJoins(rs: seq<Repetition>) {
    forall k :: 0 < k < |rs| && IsSingle(rs[k - 1]) && IsSingle(rs[k]) ==>
      !OneLiteralDoes(rs[k - 1].element, rs[k].element)
  }

  // ----- what is tidy has the form -----

  /** Elements that a definition can spell are joined exactly where one literal can stand for them. */
  lemma JoinIff(left: Element, right: Element)
    ensures OneLiteralDoes(left, right) ==> MergedElement(left, right).Some?
    ensures ElementOk(left, AnyCounts) && ElementOk(right, AnyCounts) ==>
              (OneLiteralDoes(left, right) <==> MergedElement(left, right).Some?)
  {
    hide ExpressesBoth;
    if left.CharVal? && right.CharVal? && Spellable(left.value) && Spellable(right.value) {
      CharValsJoinIff(left, right);
    }
    if left.NumVal? && right.NumVal? && NumeralBase(left.base).Some? && NumeralBase(right.base).Some? {
      NumValsJoinIff(left, right);
    }
  }

  lemma NumValNormalIff(base: string, status: NumValStatus, values: seq<string>)
    ensures NumValNormal(NumVal(base, status, values))
            <==> SimplifiedNumVal(base, status, values) == NumVal(base, status, values)
  {
    hide SpellsShorter;
    if status == Series && values != [] && Runes(values, base).Some? {
      SeriesKeptIff(base, values);
    }
    if status == Range && |values| == 2 {
      assert values == [values[0], values[1]];
      SimplifierLanguage.RunesOfTwo(values, base);
      if ParseNumVal(values[0], base).Some? && ParseNumVal(values[1], base).Some? {
        RangeKeptIff(base, values[0], values[1]);
      }
    }
  }

  lemma {:induction false} TidyIsNormal(e: Element, t: Transforms)
    requires Tidy(e, t, true)
    ensures Normal(e, t)
    decreases e, 0
  {
    match e
    case Group(a) => AlternationTidyIsNormal(a, t);
    case Optional(a) => AlternationTidyIsNormal(a, t);
    case NumVal(base, status, values) => NumValNormalIff(base, status, values);
    case _ =>
  }

  lemma {:induction false} AlternationTidyIsNormal(a: Alternation, t: Transforms)
    requires AlternationTidy(a, t, true)
    ensures AlternationNormal(a, t)
    decreases a, 1
  {
    hide ConcatenationTidy, ConcatenationNormal;
    forall k | 0 <= k < |a.concatenations|
      ensures ConcatenationNormal(a.concatenations[k], t)
    {
      ConcatenationTidyIsNormal(a.concatenations[k], t);
    }
  }

  lemma {:induction false} ConcatenationTidyIsNormal(c: Concatenation, t: Transforms)
    requires ConcatenationTidy(c, t, true)
    ensures ConcatenationNormal(c, t)
    decreases c, 1
  {
    hide OneLiteralDoes, MergedElement;
    var rs := c.repetitions;
    forall k | 0 <= k < |rs|
      ensures RepetitionNormal(rs[k], t)
    {
      assert RepetitionTidy(rs[k], t, true);
      TidyIsNormal(rs[k].element, t);
    }
    if LiteralTransform in t {
      forall k | 0 < k < |rs| && IsSingle(rs[k - 1]) && IsSingle(rs[k])
        ensures !OneLiteralDoes(rs[k - 1].element, rs[k].element)
      {
        assert Apart(rs[k - 1], rs[k], true);
        JoinIff(rs[k - 1].element, rs[k].element);
      }
    }
  }

  // ----- and conversely, for trees that can be written -----

  lemma {:induction false} NormalIsTidy(e: Element, t: Transforms)
    requires Normal(e, t) && (ElementOk(e, AnyCounts) || e.List?)
    requires GroupTransform in t && e.Group? ==> SoleElement(e.alternation) == None
    ensures Tidy(e, t, true)
    decreases e, 0
  {
    match e
    case Group(a) => AlternationNormalIsTidy(a, t);
    case Optional(a) => AlternationNormalIsTidy(a, t);
    case NumVal(base, status, values) => NumValNormalIff(base, status, values);
    case _ =>
  }

  lemma {:induction false} AlternationNormalIsTidy(a: Alternation, t: Transforms)
    requires AlternationNormal(a, t) && AlternationOk(a, AnyCounts)
    ensures AlternationTidy(a, t, true)
    decreases a, 1
  {
    hide ConcatenationTidy, ConcatenationNormal, ConcatenationOk;
    forall k | 0 <= k < |a.concatenations|
      ensures ConcatenationTidy(a.concatenations[k], t, true)
    {
      ConcatenationNormalIsTidy(a.concatenations[k], t);
    }
  }

  lemma {:induction false} ConcatenationNormalIsTidy(c: Concatenation, t: Transforms)
    requires ConcatenationNormal(c, t) && ConcatenationOk(c, AnyCounts)
    ensures ConcatenationTidy(c, t, true)
    decreases c, 1
  {
    hide OneLiteralDoes, MergedElement;
    var rs := c.repetitions;
    forall k | 0 <= k < |rs|
      ensures RepetitionTidy(rs[k], t, true)
    {
      assert RepetitionNormal(rs[k], t) && RepetitionOk(rs[k], AnyCounts);
      NormalIsTidy(rs[k].element, t);
    }
    if LiteralTransform in t {
      forall k | 0 < k < |rs| && IsSingle(rs[k - 1]) && IsSingle(rs[k])
        ensures MergedElement(rs[k - 1].element, rs[k].element) == None
      {
        assert RepetitionOk(rs[k - 1], AnyCounts) && RepetitionOk(rs[k], AnyCounts);
        ApartIfNormal(rs[k - 1].element, rs[k].element);
      }
    }
  }

  lemma ApartIfNormal(left: Element, right: Element)
    requires !OneLiteralDoes(left, right)
    requires (ElementOk(left, AnyCounts) || left.List?) && (ElementOk(right, AnyCounts) || right.List?)
    ensures MergedElement(left, right) == None
  {
    JoinIff(left, right);
  }

  // ----- passes -----

  /** Two passes leave nothing to simplify, whichever transforms are applied. */
  lemma TwoPassesAreNormal(a: Alternation, t: Transforms)
    ensures AlternationNormal(SimplifiedAlternation(SimplifiedAlternation(a, t), t), t)
  {
    hide AlternativesTidy, AlternationNormal;
    var once := SimplifiedAlternatives(a.concatenations, t);
    AlternativesPass(a.concatenations, t, false);
    AlternativesPass(once, t, true);
    AlternationTidyIsNormal(SimplifiedAlternation(SimplifiedAlternation(a, t), t), t);
  }

  /** A pass leaves a tree that can be written as it is if and only if there is nothing in it to simplify. */
  lemma LeftAloneIff(a: Alternation, t: Transforms)
    requires AlternationOk(a, AnyCounts)
    ensures SimplifiedAlternation(a, t) == a <==> AlternationNormal(a, t)
  {
    hide AlternativesTidy, AlternationNormal, AlternationOk, SimplifiedAlternatives;
    if SimplifiedAlternation(a, t) == a {
      TwoPassesAreNormal(a, t);
    }
    if AlternationNormal(a, t) {
      AlternationNormalIsTidy(a, t);
      AlternativesSettled(a.concatenations, t);
    }
  }

  ghost predicate AllNormal(rules: seq<Rule>, t: Transforms) {
    forall k :: 0 <= k < |rules| ==> AlternationNormal(rules[k].alternation, t)
  }

  /** Whatever the rules were, two passes over them leave nothing to simplify in any of them. */
  lemma PassedIsNormal(rules: seq<Rule>, t: Transforms)
    ensures AllNormal(Passed(rules, t, 2), t)
  {
    hide SimplifiedAlternation, AlternationNormal;
    var once := SimplifiedRules(rules, t);
    var twice := SimplifiedRules(once, t);
    assert Passed(rules, t, 1) == once && Passed(rules, t, 2) == twice;
    forall k | 0 <= k < |rules|
      ensures AlternationNormal(twice[k].alternation, t)
    {
      TwoPassesAreNormal(rules[k].alternation, t);
      assert twice[k] == Rule(rules[k].name, SimplifiedAlternation(SimplifiedAlternation(rules[k].alternation, t), t));
    }
  }
}
