/** What the grammar of ABNF yields, as text: its terminals, and ways to put
    pieces together (pkg/abnf/rules.go). */
module AbnfSpelling {
  import opened Spans
  import opened ByteOrder
  import opened Utf8
  import opened Wrappers
  import opened Abnf
  import opened Denotation
  import opened LanguageEquations
  import D = Derivations
  import opened Rules
  import opened RuleLookup

  /** An element of the grammar of ABNF matches the text wherever it occurs. */
  ghost predicate Spells(e: Element, t: string) {
    D.IsAscii(t) && D.Yields(ABNF_GRAMMAR, e, D.BytesOf(t))
  }

  ghost predicate SpellsTimes(e: Element, count: nat, t: string) {
    D.IsAscii(t) && D.YieldsTimes(ABNF_GRAMMAR, e, count, D.BytesOf(t))
  }

  ghost predicate SpellsRep(r: Repetition, t: string) {
    D.IsAscii(t) && D.YieldsRep(ABNF_GRAMMAR, r, D.BytesOf(t))
  }

  ghost predicate SpellsAll(rs: seq<Repetition>, t: string) {
    D.IsAscii(t) && D.YieldsAll(ABNF_GRAMMAR, rs, D.BytesOf(t))
  }

  // ----- putting pieces together -----

  lemma Once(e: Element, t: string)
    requires Spells(e, t)
    ensures SpellsRep(One(e), t)
  {
    hide D.Yields, D.YieldsRep, ABNF_GRAMMAR;
    D.Once(ABNF_GRAMMAR, e, D.BytesOf(t));
  }

  lemma NoneOf(e: Element)
    ensures SpellsRep(Rep(0, INF, e), "")
  {
    hide D.YieldsRep, ABNF_GRAMMAR;
    D.NoneOf(ABNF_GRAMMAR, e);
    assert D.BytesOf("") == [];
  }

  lemma NoTimes(e: Element)
    ensures SpellsTimes(e, 0, "")
  {
    hide D.YieldsTimes, ABNF_GRAMMAR;
    D.NoTimes(ABNF_GRAMMAR, e);
    assert D.BytesOf("") == [];
  }

  lemma OnceMore(e: Element, count: nat, t: string, u: string)
    requires SpellsTimes(e, count, t) && Spells(e, u)
    ensures SpellsTimes(e, count + 1, t + u)
  {
    hide D.Yields, D.YieldsTimes, ABNF_GRAMMAR, D.BytesOf;
    D.BytesOfConcat(t, u);
    D.OnceMore(ABNF_GRAMMAR, e, count, D.BytesOf(t), D.BytesOf(u));
  }

  lemma Times(e: Element, count: nat, t: string, min: nat)
    requires SpellsTimes(e, count, t) && min <= count
    ensures SpellsRep(Rep(min, INF, e), t)
  {
    hide D.YieldsTimes, D.YieldsRep, ABNF_GRAMMAR;
    D.Times(ABNF_GRAMMAR, e, count, D.BytesOf(t), min, INF);
  }

  lemma Only(r: Repetition, t: string)
    requires SpellsRep(r, t)
    ensures SpellsAll([r], t)
  {
    hide D.YieldsAll, D.YieldsRep, ABNF_GRAMMAR;
    D.Only(ABNF_GRAMMAR, r, D.BytesOf(t));
  }

  lemma Then(rs: seq<Repetition>, t: string, r: Repetition, u: string)
    requires SpellsAll(rs, t) && SpellsRep(r, u)
    ensures SpellsAll(rs + [r], t + u)
  {
    hide D.YieldsAll, D.YieldsRep, ABNF_GRAMMAR, D.BytesOf;
    D.BytesOfConcat(t, u);
    D.Then(ABNF_GRAMMAR, rs, D.BytesOf(t), r, D.BytesOf(u));
  }

  lemma Two(q: Repetition, t: string, r: Repetition, u: string)
    requires SpellsRep(q, t) && SpellsRep(r, u)
    ensures SpellsAll([q, r], t + u)
  {
    hide *;
    Only(q, t);
    Then([q], t, r, u);
    assert [q] + [r] == [q, r];
  }

  lemma Three(q: Repetition, t: string, r: Repetition, u: string, p: Repetition, v: string)
    requires SpellsRep(q, t) && SpellsRep(r, u) && SpellsRep(p, v)
    ensures SpellsAll([q, r, p], t + u + v)
  {
    hide *;
    Two(q, t, r, u);
    Then([q, r], t + u, p, v);
    assert [q, r] + [p] == [q, r, p];
  }

  lemma Grouped(cs: seq<Concatenation>, i: nat, t: string)
    requires i < |cs| && SpellsAll(cs[i].repetitions, t)
    ensures Spells(Grp(cs), t) && Spells(Opt(cs), t)
  {
    hide D.Yields, D.YieldsAll, D.YieldsAny, ABNF_GRAMMAR;
    D.Pick(ABNF_GRAMMAR, cs, i, D.BytesOf(t));
    D.GroupYields(ABNF_GRAMMAR, cs, D.BytesOf(t));
    D.OptionYields(ABNF_GRAMMAR, cs, D.BytesOf(t));
  }

  lemma Omitted(cs: seq<Concatenation>)
    ensures Spells(Opt(cs), "")
  {
    hide D.Yields, ABNF_GRAMMAR;
    D.OptionYieldsNothing(ABNF_GRAMMAR, cs);
    assert D.BytesOf("") == [];
  }

  /** A rule of ABNF by its place in the list of rules. */
  lemma ByRule(k: nat, i: nat, t: string)
    requires k < 24 && |ABNF_RULES| == 24 && i < |ABNF_RULES[k].alternation.concatenations|
    requires SpellsAll(ABNF_RULES[k].alternation.concatenations[i].repetitions, t)
    ensures Spells(Ref(ABNF_RULES[k].name), t)
  {
    hide D.Yields, D.YieldsAll, ABNF_GRAMMAR, ABNF_RULES;
    AbnfRuleFound(k);
    D.RuleYields(ABNF_GRAMMAR, ABNF_RULES[k], i, D.BytesOf(t));
  }

  lemma ByCoreRule(k: nat, i: nat, t: string)
    requires k < 16 && |CORE_RULES| == 16 && i < |CORE_RULES[k].alternation.concatenations|
    requires SpellsAll(CORE_RULES[k].alternation.concatenations[i].repetitions, t)
    ensures Spells(Ref(CORE_RULES[k].name), t)
  {
    hide D.Yields, D.YieldsAll, ABNF_GRAMMAR, CORE_RULES;
    CoreRuleFound(k);
    D.RuleYields(ABNF_GRAMMAR, CORE_RULES[k], i, D.BytesOf(t));
  }

  /** A text of characters that an element matches one by one. */
  lemma {:induction false} Chars(e: Element, t: string)
    requires forall i :: 0 <= i < |t| ==> Spells(e, [t[i]])
    ensures SpellsTimes(e, |t|, t)
  {
    hide Spells, SpellsTimes;
    if t == "" {
      NoTimes(e);
    } else {
      var front, last := t[..|t| - 1], t[|t| - 1];
      assert t == front + [last];
      Chars(e, front);
      OnceMore(e, |front|, front, [last]);
    }
  }

  // ----- terminals -----

  lemma Literal(t: string, u: string)
    requires D.IsAscii(u) && Lower(t) == Lower(u)
    ensures Spells(Str(t), u)
  {
    hide D.Yields, ABNF_GRAMMAR;
    D.StrYields(ABNF_GRAMMAR, t, u);
  }

  /** A literal that is its own text. */
  lemma Itself(t: string)
    requires D.IsAscii(t)
    ensures SpellsRep(One(Str(t)), t)
  {
    hide *;
    Literal(t, t);
    Once(Str(t), t);
  }

  lemma TwoDigits(a: char, b: char)
    requires DigitValue(a) < 16 && DigitValue(b) < 16
    ensures ParseNumVal([a, b], "x") == Some(16 * DigitValue(a) + DigitValue(b))
  {
    hide DigitValue;
    assert ParseDigits("", 16) == Some(0);
    assert [a][..0] == "" && ParseDigits([a], 16) == Some(DigitValue(a));
    assert [a, b][..1] == [a] && ParseDigits([a, b], 16) == Some(16 * DigitValue(a) + DigitValue(b));
    assert NumeralBase("x") == Some(16);
  }

  /** A character between two of two hexadecimal digits. */
  lemma Between(a: char, b: char, c: char, d: char, x: char)
    requires DigitValue(a) < 16 && DigitValue(b) < 16 && DigitValue(c) < 16 && DigitValue(d) < 16
    requires 16 * DigitValue(a) + DigitValue(b) <= CodeOf(x) <= 16 * DigitValue(c) + DigitValue(d) < 0x80
    ensures Spells(NumRange([a, b], [c, d]), [x])
  {
    hide D.Yields, ABNF_GRAMMAR, DigitValue, ParseNumVal;
    TwoDigits(a, b);
    TwoDigits(c, d);
    D.RangeYields(ABNF_GRAMMAR, [a, b], [c, d], CodeOf(x));
    assert D.BytesOf([x]) == [CodeOf(x)];
  }

  lemma Exactly(a: char, b: char, x: char)
    requires DigitValue(a) < 16 && DigitValue(b) < 16 && 16 * DigitValue(a) + DigitValue(b) == CodeOf(x) < 0x80
    ensures Spells(NumSeries([a, b]), [x])
  {
    hide D.Yields, ABNF_GRAMMAR, DigitValue, ParseNumVal;
    TwoDigits(a, b);
    D.SeriesYields(ABNF_GRAMMAR, [a, b], CodeOf(x));
    assert D.BytesOf([x]) == [CodeOf(x)];
  }

  // ----- what follows the first numeral of a num-val -----

  function More(separator: string, digit: string): Element {
    Grp([Cat([One(Str(separator)), Rep(1, INF, Ref(digit))])])
  }

  function Rest(digit: string): Element {
    Opt([Cat([Rep(1, INF, More(".", digit))]), Cat([One(More("-", digit))])])
  }
}
