/** Building derivations: which byte strings a piece of a grammar yields,
    wherever they occur. */
module Derivations {
  import opened Spans
  import opened ByteOrder
  import opened Utf8
  import opened Wrappers
  import opened Abnf
  import opened Denotation
  import opened LanguageEquations

  /** The element matches the bytes wherever they occur. */
  ghost predicate Yields(g: Grammar, e: Element, w: Bytes) {
    forall s: Bytes, p: nat :: At(s, p, w) ==> (p, p + |w|) in ElementRel(e, Languages(g, s), s)
  }

  ghost predicate YieldsTimes(g: Grammar, e: Element, count: nat, w: Bytes) {
    forall s: Bytes, p: nat :: At(s, p, w) ==> (p, p + |w|) in Power(ElementRel(e, Languages(g, s), s), count)
  }

  ghost predicate YieldsRep(g: Grammar, r: Repetition, w: Bytes) {
    forall s: Bytes, p: nat :: At(s, p, w) ==> (p, p + |w|) in RepetitionRel(r, Languages(g, s), s)
  }

  ghost predicate YieldsAll(g: Grammar, rs: seq<Repetition>, w: Bytes) {
    forall s: Bytes, p: nat :: At(s, p, w) ==> (p, p + |w|) in RepetitionsRel(rs, Languages(g, s), s)
  }

  ghost predicate YieldsAny(g: Grammar, cs: seq<Concatenation>, w: Bytes) {
    forall s: Bytes, p: nat :: At(s, p, w) ==> (p, p + |w|) in AlternativesRel(cs, Languages(g, s), s)
  }

  // ----- alternatives and rules -----

  lemma {:induction false} Pick(g: Grammar, cs: seq<Concatenation>, i: nat, w: Bytes)
    requires i < |cs| && YieldsAll(g, cs[i].repetitions, w)
    ensures YieldsAny(g, cs, w)
  {
    hide Languages, RepetitionsRel, At;
    if i < |cs| - 1 {
      Pick(g, cs[..|cs| - 1], i, w);
    }
    forall s: Bytes, p: nat | At(s, p, w)
      ensures (p, p + |w|) in AlternativesRel(cs, Languages(g, s), s)
    {
      if i == |cs| - 1 {
        assert (p, p + |w|) in RepetitionsRel(cs[i].repetitions, Languages(g, s), s);
      } else {
        assert (p, p + |w|) in AlternativesRel(cs[..|cs| - 1], Languages(g, s), s);
      }
    }
  }

  lemma GroupYields(g: Grammar, cs: seq<Concatenation>, w: Bytes)
    requires YieldsAny(g, cs, w)
    ensures Yields(g, Grp(cs), w)
  {
    hide Languages, AlternativesRel, At;
    forall s: Bytes, p: nat | At(s, p, w)
      ensures (p, p + |w|) in ElementRel(Grp(cs), Languages(g, s), s)
    {
      assert (p, p + |w|) in AlternativesRel(cs, Languages(g, s), s);
    }
  }

  lemma OptionYields(g: Grammar, cs: seq<Concatenation>, w: Bytes)
    requires YieldsAny(g, cs, w)
    ensures Yields(g, Opt(cs), w)
  {
    hide Languages, AlternativesRel, At;
    forall s: Bytes, p: nat | At(s, p, w)
      ensures (p, p + |w|) in ElementRel(Opt(cs), Languages(g, s), s)
    {
      var a := AlternativesRel(cs, Languages(g, s), s);
      PowerOne(a);
      assert Permits(0, 1, 1) && (p, p + |w|) in Power(a, 1);
    }
  }

  lemma OptionYieldsNothing(g: Grammar, cs: seq<Concatenation>)
    ensures Yields(g, Opt(cs), [])
  {
    hide Languages, AlternativesRel, At;
    forall s: Bytes, p: nat | At(s, p, [])
      ensures (p, p) in ElementRel(Opt(cs), Languages(g, s), s)
    {
      assert Permits(0, 1, 0) && (p, p) in Power(AlternativesRel(cs, Languages(g, s), s), 0);
    }
  }

  /** A rulename yields what an alternative of its rule yields. */
  lemma RuleYields(g: Grammar, rule: Rule, i: nat, w: Bytes)
    requires g.Lookup(rule.name) == Some(rule) && i < |rule.alternation.concatenations|
    requires YieldsAll(g, rule.alternation.concatenations[i].repetitions, w)
    ensures Yields(g, Ref(rule.name), w)
  {
    Pick(g, rule.alternation.concatenations, i, w);
    hide AlternativesRel, Language, At, Grammar.Lookup;
    forall s: Bytes, p: nat | At(s, p, w)
      ensures (p, p + |w|) in ElementRel(Ref(rule.name), Languages(g, s), s)
    {
      LanguageEquation(g, rule.name, s);
    }
  }

  // ----- repetitions -----

  lemma Once(g: Grammar, e: Element, w: Bytes)
    requires Yields(g, e, w)
    ensures YieldsRep(g, One(e), w)
  {
    hide Languages, ElementRel, At;
    forall s: Bytes, p: nat | At(s, p, w)
      ensures (p, p + |w|) in RepetitionRel(One(e), Languages(g, s), s)
    {
      RepeatOnce(ElementRel(e, Languages(g, s), s));
    }
  }

  lemma NoTimes(g: Grammar, e: Element)
    ensures YieldsTimes(g, e, 0, [])
  {
    hide Languages, ElementRel, At;
  }

  lemma OnceMore(g: Grammar, e: Element, count: nat, w: Bytes, v: Bytes)
    requires YieldsTimes(g, e, count, w) && Yields(g, e, v)
    ensures YieldsTimes(g, e, count + 1, w + v)
  {
    hide Languages, ElementRel, At;
    forall s: Bytes, p: nat | At(s, p, w + v)
      ensures (p, p + |w + v|) in Power(ElementRel(e, Languages(g, s), s), count + 1)
    {
      AtSplit(s, p, w, v);
      var a := ElementRel(e, Languages(g, s), s);
      assert (p, p + |w|) in Power(a, count) && (p + |w|, p + |w| + |v|) in a;
    }
  }

  lemma Times(g: Grammar, e: Element, count: nat, w: Bytes, min: nat, max: Bound)
    requires YieldsTimes(g, e, count, w) && Permits(min, max, count)
    ensures YieldsRep(g, Rep(min, max, e), w)
  {
    hide Languages, ElementRel, At;
    forall s: Bytes, p: nat | At(s, p, w)
      ensures (p, p + |w|) in RepetitionRel(Rep(min, max, e), Languages(g, s), s)
    {
      assert Permits(min, max, count) && (p, p + |w|) in Power(ElementRel(e, Languages(g, s), s), count);
    }
  }

  lemma NoneOf(g: Grammar, e: Element)
    ensures YieldsRep(g, Rep(0, INF, e), [])
  {
    NoTimes(g, e);
    Times(g, e, 0, [], 0, INF);
  }

  /** Two lots of repetitions, one after the other. */
  lemma {:induction false} Together(g: Grammar, e: Element, m: nat, w: Bytes, n: nat, v: Bytes)
    requires YieldsTimes(g, e, m, w) && YieldsTimes(g, e, n, v)
    ensures YieldsTimes(g, e, m + n, w + v)
  {
    hide Languages, ElementRel, At, Power, Compose;
    forall s: Bytes, p: nat | At(s, p, w + v)
      ensures (p, p + |w + v|) in Power(ElementRel(e, Languages(g, s), s), m + n)
    {
      AtSplit(s, p, w, v);
      var a := ElementRel(e, Languages(g, s), s);
      PowerSum(a, m, n);
      InCompose(Power(a, m), Power(a, n), p, p + |w|, p + |w| + |v|);
    }
  }

  // ----- concatenations -----

  lemma Empty(g: Grammar)
    ensures YieldsAll(g, [], [])
  {
    hide Languages, At;
  }

  lemma Then(g: Grammar, rs: seq<Repetition>, w: Bytes, r: Repetition, v: Bytes)
    requires YieldsAll(g, rs, w) && YieldsRep(g, r, v)
    ensures YieldsAll(g, rs + [r], w + v)
  {
    hide Languages, RepetitionRel, At;
    assert (rs + [r])[..|rs|] == rs;
    forall s: Bytes, p: nat | At(s, p, w + v)
      ensures (p, p + |w + v|) in RepetitionsRel(rs + [r], Languages(g, s), s)
    {
      AtSplit(s, p, w, v);
      assert (p, p + |w|) in RepetitionsRel(rs, Languages(g, s), s);
      assert (p + |w|, p + |w| + |v|) in RepetitionRel(r, Languages(g, s), s);
    }
  }

  lemma Only(g: Grammar, r: Repetition, w: Bytes)
    requires YieldsRep(g, r, w)
    ensures YieldsAll(g, [r], w)
  {
    Empty(g);
    Then(g, [], [], r, w);
    assert [] + [r] == [r] && [] + w == w;
  }

  lemma Two(g: Grammar, q: Repetition, w: Bytes, r: Repetition, v: Bytes)
    requires YieldsRep(g, q, w) && YieldsRep(g, r, v)
    ensures YieldsAll(g, [q, r], w + v)
  {
    Only(g, q, w);
    Then(g, [q], w, r, v);
    assert [q] + [r] == [q, r];
  }

  lemma Three(g: Grammar, q: Repetition, w: Bytes, r: Repetition, v: Bytes, t: Repetition, u: Bytes)
    requires YieldsRep(g, q, w) && YieldsRep(g, r, v) && YieldsRep(g, t, u)
    ensures YieldsAll(g, [q, r, t], w + v + u)
  {
    Two(g, q, w, r, v);
    Then(g, [q, r], w + v, t, u);
    assert [q, r] + [t] == [q, r, t];
  }

  // ----- terminals -----

  predicate IsAscii(t: string) {
    forall i :: 0 <= i < |t| ==> CodeOf(t[i]) < 0x80
  }

  /** The bytes of an ASCII text. */
  function BytesOf(t: string): (b: Bytes)
    requires IsAscii(t)
    ensures |b| == |t|
  {
    seq(|t|, i requires 0 <= i < |t| => CodeOf(t[i]))
  }

  lemma BytesOfConcat(t: string, u: string)
    requires IsAscii(t) && IsAscii(u)
    ensures IsAscii(t + u) && BytesOf(t + u) == BytesOf(t) + BytesOf(u)
  {
  }

  /** A char-val yields its characters in either case. */
  lemma StrYields(g: Grammar, t: string, u: string)
    requires IsAscii(u) && Lower(t) == Lower(u)
    ensures Yields(g, Str(t), BytesOf(u))
  {
    hide Languages;
    forall s: Bytes, p: nat | At(s, p, BytesOf(u))
      ensures (p, p + |u|) in ElementRel(Str(t), Languages(g, s), s)
    {
      forall k | 0 <= k < |t|
        ensures CharMatches(false, t[k], s[p + k])
      {
        assert s[p + k] == s[p..p + |u|][k] == BytesOf(u)[k];
        assert Lower(t)[k] == Lower(u)[k];
      }
    }
  }

  /** A num-val range yields every ASCII byte within it. */
  lemma RangeYields(g: Grammar, low: string, high: string, b: Byte)
    requires b < 0x80 && ParseNumVal(low, "x").Some? && ParseNumVal(high, "x").Some?
    requires ParseNumVal(low, "x").value <= b <= ParseNumVal(high, "x").value
    ensures Yields(g, NumRange(low, high), [b])
  {
    hide Languages, ParseNumVal;
    forall s: Bytes, p: nat | At(s, p, [b])
      ensures (p, p + 1) in ElementRel(NumRange(low, high), Languages(g, s), s)
    {
      assert s[p] == s[p..p + 1][0] == b && s[p..][0] == b;
    }
  }

  lemma OneNumeral(value: string, b: int)
    requires ParseNumVal(value, "x") == Some(b)
    ensures Runes([value], "x") == Some([b])
  {
    hide ParseNumVal;
    var values, none: seq<int> := [value], [];
    assert values[..0] == [] && Runes(values[..0], "x") == Some(none);
    assert none + [b] == [b];
  }

  lemma OneAsciiRune(b: Byte)
    requires b < 0x80
    ensures EncodeRunes([b]) == [b]
  {
    var none: Bytes := [];
    assert [b][..0] == [] && EncodeRunes([]) == none && EncodeRune(b) == [b] && none + [b] == [b];
  }

  /** A num-val of one ASCII numeral yields its byte. */
  lemma SeriesYields(g: Grammar, value: string, b: Byte)
    requires b < 0x80 && ParseNumVal(value, "x") == Some(b)
    ensures Yields(g, NumSeries(value), [b])
  {
    hide Languages, ParseNumVal, Runes, EncodeRunes;
    OneNumeral(value, b);
    OneAsciiRune(b);
    forall s: Bytes, p: nat | At(s, p, [b])
      ensures (p, p + 1) in ElementRel(NumSeries(value), Languages(g, s), s)
    {
      assert (p, p + 1) in BytesRel([b], s);
    }
  }
}
