/** The languages of a grammar's rules solve its equations: a rule derives what
    its alternation matches when every rulename matches all that it derives. */
module LanguageEquations {
  import opened Spans
  import opened Utf8
  import opened Wrappers
  import opened Abnf
  import opened Denotation

  /** Every rulename matches all that it derives. */
  ghost function Languages(g: Grammar, s: Bytes): Environment {
    (name: string) => Language(g, name, s)
  }

  function Larger(m: nat, n: nat): nat {
    if m < n then n else m
  }

  lemma DepthsWithin(g: Grammar, depth: nat, s: Bytes)
    ensures Within(RulesRel(g, depth, s), Languages(g, s))
  {
    forall name
      ensures RulesRel(g, depth, s)(name) <= Languages(g, s)(name)
    {
      forall p | p in RuleRel(g, depth, name, s)
        ensures p in Language(g, name, s)
      {
        assert Derives(g, name, s, p);
      }
    }
  }

  // ----- one derivation goes no deeper than some depth -----

  lemma {:induction false} ElementDepth(e: Element, g: Grammar, s: Bytes, p: (nat, nat)) returns (depth: nat)
    requires p in ElementRel(e, Languages(g, s), s)
    ensures p in ElementRel(e, RulesRel(g, depth, s), s)
    decreases e, 0
  {
    depth := 0;
    match e
    case Rulename(name) =>
      assert Derives(g, name, s, p);
      depth :| p in RuleRel(g, depth, name, s);
    case Group(a) => depth := AlternativesDepth(a.concatenations, g, s, p);
    case Optional(a) => depth := OptionalDepth(a, g, s, p);
    case List(_, _, _, a) => depth := AlternativesDepth(a.concatenations, g, s, p);
    case _ =>
  }

  lemma {:induction false} OptionalDepth(a: Alternation, g: Grammar, s: Bytes, p: (nat, nat)) returns (depth: nat)
    requires p in Repeat(0, 1, AlternationRel(a, Languages(g, s), s))
    ensures p in Repeat(0, 1, AlternationRel(a, RulesRel(g, depth, s), s))
    decreases a, 1
  {
    var all := AlternationRel(a, Languages(g, s), s);
    var count: nat :| Permits(0, 1, count) && p in Power(all, count);
    depth := 0;
    if count == 1 {
      PowerOne(all);
      depth := AlternativesDepth(a.concatenations, g, s, p);
      PowerOne(AlternationRel(a, RulesRel(g, depth, s), s));
    }
    assert Permits(0, 1, count) && p in Power(AlternationRel(a, RulesRel(g, depth, s), s), count);
  }

  lemma {:induction false} AlternativesDepth(cs: seq<Concatenation>, g: Grammar, s: Bytes, p: (nat, nat))
    returns (depth: nat)
    requires p in AlternativesRel(cs, Languages(g, s), s)
    ensures p in AlternativesRel(cs, RulesRel(g, depth, s), s)
    decreases cs, 0
  {
    var front, last := cs[..|cs| - 1], cs[|cs| - 1];
    if p in AlternativesRel(front, Languages(g, s), s) {
      depth := AlternativesDepth(front, g, s, p);
    } else {
      depth := RepetitionsDepth(last.repetitions, g, s, p);
    }
  }

  lemma {:induction false} RepetitionsDepth(rs: seq<Repetition>, g: Grammar, s: Bytes, p: (nat, nat))
    returns (depth: nat)
    requires p in RepetitionsRel(rs, Languages(g, s), s)
    ensures p in RepetitionsRel(rs, RulesRel(g, depth, s), s)
    decreases rs, 0
  {
    depth := 0;
    if rs != [] {
      var front, last := rs[..|rs| - 1], rs[|rs| - 1];
      var m: nat :| (p.0, m) in RepetitionsRel(front, Languages(g, s), s) &&
        (m, p.1) in RepetitionRel(last, Languages(g, s), s);
      var d := RepetitionsDepth(front, g, s, (p.0, m));
      var e := RepetitionDepth(last, g, s, (m, p.1));
      depth := Larger(d, e);
      RulesMonotone(g, d, depth, s);
      RulesMonotone(g, e, depth, s);
      RepetitionsMonotone(front, RulesRel(g, d, s), RulesRel(g, depth, s), s);
      RepetitionMonotone(last, RulesRel(g, e, s), RulesRel(g, depth, s), s);
      assert (p.0, m) in RepetitionsRel(front, RulesRel(g, depth, s), s) &&
             (m, p.1) in RepetitionRel(last, RulesRel(g, depth, s), s);
    }
  }

  lemma {:induction false} RepetitionDepth(r: Repetition, g: Grammar, s: Bytes, p: (nat, nat)) returns (depth: nat)
    requires p in RepetitionRel(r, Languages(g, s), s)
    ensures p in RepetitionRel(r, RulesRel(g, depth, s), s)
    decreases r, 1
  {
    var count: nat :| Permits(r.min, r.max, count) && p in Power(ElementRel(r.element, Languages(g, s), s), count);
    depth := PowerDepth(r.element, count, g, s, p);
    assert Permits(r.min, r.max, count) && p in Power(ElementRel(r.element, RulesRel(g, depth, s), s), count);
  }

  lemma SplitPower(a: Rel, count: nat, p: (nat, nat)) returns (m: nat)
    requires count > 0 && p in Power(a, count)
    ensures (p.0, m) in Power(a, count - 1) && (m, p.1) in a
  {
    m :| (p.0, m) in Power(a, count - 1) && (m, p.1) in a;
  }

  lemma JoinPower(a: Rel, count: nat, p: (nat, nat), m: nat)
    requires count > 0 && (p.0, m) in Power(a, count - 1) && (m, p.1) in a
    ensures p in Power(a, count)
  {
  }

  lemma NoPower(a: Rel, b: Rel, p: (nat, nat))
    requires p in Power(a, 0)
    ensures p in Power(b, 0)
  {
  }

  lemma {:induction false} PowerDepth(e: Element, count: nat, g: Grammar, s: Bytes, p: (nat, nat)) returns (depth: nat)
    requires p in Power(ElementRel(e, Languages(g, s), s), count)
    ensures p in Power(ElementRel(e, RulesRel(g, depth, s), s), count)
    decreases e, 1, count
  {
    hide *;
    depth := 0;
    if count == 0 {
      NoPower(ElementRel(e, Languages(g, s), s), ElementRel(e, RulesRel(g, depth, s), s), p);
    } else {
      var m := SplitPower(ElementRel(e, Languages(g, s), s), count, p);
      var d := PowerDepth(e, count - 1, g, s, (p.0, m));
      var f := ElementDepth(e, g, s, (m, p.1));
      depth := if d < f then f else d;
      RulesMonotone(g, d, depth, s);
      RulesMonotone(g, f, depth, s);
      ElementMonotone(e, RulesRel(g, d, s), RulesRel(g, depth, s), s);
      ElementMonotone(e, RulesRel(g, f, s), RulesRel(g, depth, s), s);
      PowerMonotone(ElementRel(e, RulesRel(g, d, s), s), ElementRel(e, RulesRel(g, depth, s), s), count - 1);
      JoinPower(ElementRel(e, RulesRel(g, depth, s), s), count, p, m);
    }
  }

  // ----- the equation -----

  /** A rule derives exactly what its alternation matches. */
  lemma LanguageEquation(g: Grammar, name: string, s: Bytes)
    ensures match g.Lookup(name)
            case Some(rule) => Language(g, name, s) == AlternationRel(rule.alternation, Languages(g, s), s)
            case None => Language(g, name, s) == iset{}
  {
    match g.Lookup(name)
    case None =>
      forall p: (nat, nat)
        ensures p !in Language(g, name, s)
      {
        assert forall depth: nat :: p !in RuleRel(g, depth, name, s);
      }
    case Some(rule) =>
      var a := rule.alternation;
      forall p | p in Language(g, name, s)
        ensures p in AlternationRel(a, Languages(g, s), s)
      {
        var depth: nat :| p in RuleRel(g, depth, name, s);
        DepthsWithin(g, depth - 1, s);
        AlternativesMonotone(a.concatenations, RulesRel(g, depth - 1, s), Languages(g, s), s);
      }
      forall p | p in AlternationRel(a, Languages(g, s), s)
        ensures p in Language(g, name, s)
      {
        var depth := AlternativesDepth(a.concatenations, g, s, p);
        assert p in RuleRel(g, depth + 1, name, s);
        assert Derives(g, name, s, p);
      }
  }
}
