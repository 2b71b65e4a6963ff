/** Simplification leaves what every rule matches unchanged. */
module SimplifierLanguage {
  import opened Spans
  import opened Utf8
  import opened Wrappers
  import opened Abnf
  import opened Denotation
  import opened Rewriting
  import opened Simplifier

  // ----- num-vals -----

  /** The one rewrite that does not preserve the language: a range over a single
      surrogate matches nothing, and the series it becomes matches U+FFFD. */
  predicate IsSurrogateRange(e: Element) {
    && e.NumVal?
    && e.status == Range
    && |e.values| == 2
    && match (ParseNumVal(e.values[0], e.base), ParseNumVal(e.values[1], e.base))
       case (Some(low), Some(high)) => low == high && IsSurrogate(low)
       case _ => false
  }

  lemma RunesOfOne(value: string, base: string)
    ensures Runes([value], base).Some? == ParseNumVal(value, base).Some?
    ensures Runes([value], base).Some? ==> Runes([value], base).value == [ParseNumVal(value, base).value]
  {
    assert [value][..0] == [];
  }

  lemma RunesOfTwo(values: seq<string>, base: string)
    requires |values| == 2
    ensures Runes(values, base).Some? == (ParseNumVal(values[0], base).Some? && ParseNumVal(values[1], base).Some?)
    ensures Runes(values, base).Some? ==>
              Runes(values, base).value == [ParseNumVal(values[0], base).value, ParseNumVal(values[1], base).value]
  {
    RunesOfOne(values[0], base);
    assert values[..1] == [values[0]];
  }

  lemma EncodeOne(r: int)
    ensures EncodeRunes([r]) == EncodeRune(r)
  {
    assert [r][..0] == [];
  }

  lemma RangeOfOneScalar(r: int, s: Bytes)
    requires IsScalar(r)
    ensures RangeRel(r, r, s) == BytesRel(EncodeRune(r), s)
  {
    var bytes := EncodeRune(r);
    forall p | p in RangeRel(r, r, s)
      ensures p in BytesRel(bytes, s)
    {
      EncodeDecoded(s[p.0..]);
      assert s[p.0..][..DecodeRune(s[p.0..]).size] == s[p.0..p.1];
    }
    forall p | p in BytesRel(bytes, s)
      ensures p in RangeRel(r, r, s)
    {
      assert s[p.0..p.1] == s[p.0..][..|bytes|];
      DecodeEncoded(r, s[p.0..]);
    }
  }

  lemma RangeOfSurrogateIsEmpty(r: int, s: Bytes)
    requires IsSurrogate(r)
    ensures RangeRel(r, r, s) == iset{}
  {
    forall p | p in RangeRel(r, r, s)
      ensures false
    {
      EncodeDecoded(s[p.0..]);
    }
  }

  lemma {:induction false} EncodePrintable(runes: seq<int>)
    requires AreCharValRunes(runes)
    ensures EncodeRunes(runes) == runes
  {
    if runes != [] {
      EncodePrintable(runes[..|runes| - 1]);
    }
  }

  lemma CaselessMatch(c: char, b: Byte)
    requires !IsAsciiLetter(c)
    ensures CharMatches(true, c, b) == CharMatches(false, c, b)
  {
  }

  /** Case sensitivity only distinguishes values that hold letters. */
  lemma SensitivityIrrelevant(value: string, s: Bytes)
    requires !HasLetter(value)
    ensures CharValRel(true, value, s) == CharValRel(false, value, s)
  {
    forall p: (nat, nat) | p.0 + |value| == p.1 <= |s|
      ensures CharsMatch(true, value, s, p.0) == CharsMatch(false, value, s, p.0)
    {
      forall k | 0 <= k < |value|
        ensures CharMatches(true, value[k], s[p.0 + k]) == CharMatches(false, value[k], s[p.0 + k])
      {
        CaselessMatch(value[k], s[p.0 + k]);
      }
    }
  }

  lemma PrintableSeriesIsCharVal(runes: seq<int>, s: Bytes)
    requires AreCharValRunes(runes)
    ensures BytesRel(EncodeRunes(runes), s) == CharValRel(HasLetter(RuneString(runes)), RuneString(runes), s)
  {
    var value := RuneString(runes);
    EncodePrintable(runes);
    forall p: (nat, nat) | p.0 + |runes| == p.1 <= |s|
      ensures s[p.0..p.1] == EncodeRunes(runes) <==> CharsMatch(true, value, s, p.0)
    {
      assert forall k :: 0 <= k < |runes| ==> s[p.0..p.1][k] == s[p.0 + k] && CodeOf(value[k]) == runes[k];
      if CharsMatch(true, value, s, p.0) {
        assert forall k :: 0 <= k < |runes| ==> CharMatches(true, value[k], s[p.0 + k]);
      }
    }
    if !HasLetter(value) {
      SensitivityIrrelevant(value, s);
    }
  }

  /** A range over one scalar value and the series of that value match the same. */
  lemma RangePreserved(base: string, values: seq<string>, s: Bytes)
    requires |values| == 2 && Runes(values, base).Some? && Runes(values, base).value[0] == Runes(values, base).value[1]
    requires !IsSurrogate(Runes(values, base).value[0])
    ensures SeriesRel([values[0]], base, s) == NumValRel(base, Range, values, s)
  {
    var r := Runes(values, base).value[0];
    RunesOfOne(values[0], base);
    EncodeOne(r);
    RangeOfOneScalar(r, s);
  }

  lemma NumValPreserved(base: string, status: NumValStatus, values: seq<string>, s: Bytes)
    requires !IsSurrogateRange(NumVal(base, status, values))
    ensures forall env ::
              ElementRel(SimplifiedNumVal(base, status, values), env, s) == NumValRel(base, status, values, s)
  {
    var e := SimplifiedNumVal(base, status, values);
    if e != NumVal(base, status, values) {
      var runes := Runes(values, base).value;
      if status == Range {
        RangePreserved(base, values, s);
      } else {
        PrintableSeriesIsCharVal(runes, s);
      }
    }
  }

  /** The three bytes that tell a surrogate range from the series it becomes. */
  const REPLACEMENT: Bytes := [0xEF, 0xBF, 0xBD]

  /** simplifyNumVal preserves what a num-val matches in every input exactly when
      it is not a range over a single surrogate. */
  lemma NumValPreservedIff(base: string, status: NumValStatus, values: seq<string>, env: Environment)
    ensures (forall s: Bytes ::
               ElementRel(SimplifiedNumVal(base, status, values), env, s) == NumValRel(base, status, values, s))
            <==> !IsSurrogateRange(NumVal(base, status, values))
  {
    var e := NumVal(base, status, values);
    if IsSurrogateRange(e) {
      var r := ParseNumVal(values[0], base).value;
      RunesOfTwo(values, base);
      RunesOfOne(values[0], base);
      EncodeOne(r);
      RangeOfSurrogateIsEmpty(r, REPLACEMENT);
      assert REPLACEMENT[0..3] == EncodeRune(r);
      assert (0, 3) in ElementRel(SimplifiedNumVal(base, status, values), env, REPLACEMENT);
      assert (0, 3) !in NumValRel(base, status, values, REPLACEMENT);
    } else {
      forall s: Bytes
        ensures ElementRel(SimplifiedNumVal(base, status, values), env, s) == NumValRel(base, status, values, s)
      {
        NumValPreserved(base, status, values, s);
      }
    }
  }

  // ----- merging literals -----

  lemma CharValsCompose(sensitive: bool, left: string, right: string, s: Bytes)
    ensures Compose(CharValRel(sensitive, left, s), CharValRel(sensitive, right, s))
         == CharValRel(sensitive, left + right, s)
  {
    forall p: (nat, nat)
      ensures p in Compose(CharValRel(sensitive, left, s), CharValRel(sensitive, right, s))
         <==> p in CharValRel(sensitive, left + right, s)
    {
      var m := p.0 + |left|;
      var joined := left + right;
      assert forall k :: 0 <= k < |left| ==> joined[k] == left[k];
      assert forall k :: 0 <= k < |right| ==> joined[|left| + k] == right[k] && m + k == p.0 + (|left| + k);
      if p in CharValRel(sensitive, joined, s) {
        forall k | 0 <= k < |left|
          ensures CharMatches(sensitive, left[k], s[p.0 + k])
        {
          assert CharMatches(sensitive, joined[k], s[p.0 + k]);
        }
        forall k | 0 <= k < |right|
          ensures CharMatches(sensitive, right[k], s[m + k])
        {
          assert CharMatches(sensitive, joined[|left| + k], s[p.0 + (|left| + k)]);
        }
        assert (p.0, m) in CharValRel(sensitive, left, s) && (m, p.1) in CharValRel(sensitive, right, s);
      }
      if p in Compose(CharValRel(sensitive, left, s), CharValRel(sensitive, right, s)) {
        assert (p.0, m) in CharValRel(sensitive, left, s) && (m, p.1) in CharValRel(sensitive, right, s);
        forall k | 0 <= k < |joined|
          ensures CharMatches(sensitive, joined[k], s[p.0 + k])
        {
          if k >= |left| {
            assert CharMatches(sensitive, right[k - |left|], s[m + (k - |left|)]);
          }
        }
      }
    }
  }

  lemma BytesCompose(left: Bytes, right: Bytes, s: Bytes)
    ensures Compose(BytesRel(left, s), BytesRel(right, s)) == BytesRel(left + right, s)
  {
    forall p: (nat, nat)
      ensures p in Compose(BytesRel(left, s), BytesRel(right, s)) <==> p in BytesRel(left + right, s)
    {
      var m := p.0 + |left|;
      if m <= p.1 <= |s| {
        assert s[p.0..p.1] == s[p.0..m] + s[m..p.1];
      }
      if p in BytesRel(left + right, s) {
        assert s[p.0..m] == (left + right)[..|left|] && s[m..p.1] == (left + right)[|left|..];
        assert (p.0, m) in BytesRel(left, s) && (m, p.1) in BytesRel(right, s);
      }
      if p in Compose(BytesRel(left, s), BytesRel(right, s)) {
        assert (p.0, m) in BytesRel(left, s) && (m, p.1) in BytesRel(right, s);
      }
    }
  }

  lemma {:induction false} EncodeAppend(xs: seq<int>, ys: seq<int>)
    ensures EncodeRunes(xs + ys) == EncodeRunes(xs) + EncodeRunes(ys)
  {
    if ys == [] {
      assert xs + ys == xs;
    } else {
      var front, last := ys[..|ys| - 1], EncodeRune(ys[|ys| - 1]);
      assert (xs + ys)[..|xs + ys| - 1] == xs + front;
      assert EncodeRunes(xs + ys) == EncodeRunes(xs + front) + last;
      EncodeAppend(xs, front);
      assert EncodeRunes(ys) == EncodeRunes(front) + last;
    }
  }

  lemma {:induction false} RunesAppend(xs: seq<string>, ys: seq<string>, base: string)
    ensures Runes(xs + ys, base).Some? == (Runes(xs, base).Some? && Runes(ys, base).Some?)
    ensures Runes(xs + ys, base).Some? ==> Runes(xs + ys, base).value == Runes(xs, base).value + Runes(ys, base).value
  {
    if ys == [] {
      assert xs + ys == xs;
    } else {
      assert (xs + ys)[..|xs + ys| - 1] == xs + ys[..|ys| - 1];
      RunesAppend(xs, ys[..|ys| - 1], base);
    }
  }

  /** The base letter's case does not matter to a numeral. */
  lemma {:induction false} RunesBase(values: seq<string>, base: string, base': string)
    requires Lower(base) == Lower(base')
    ensures Runes(values, base) == Runes(values, base')
  {
    if |base| == 1 {
      assert base == [base[0]] && base' == [base'[0]];
      assert LowerChar(base[0]) == Lower(base)[0] == Lower(base')[0] == LowerChar(base'[0]);
    }
    assert NumeralBase(base) == NumeralBase(base');
    if values != [] {
      RunesBase(values[..|values| - 1], base, base');
    }
  }

  lemma SeriesCompose(base: string, left: seq<string>, right: seq<string>, s: Bytes)
    ensures Compose(SeriesRel(left, base, s), SeriesRel(right, base, s)) == SeriesRel(left + right, base, s)
  {
    RunesAppend(left, right, base);
    if Runes(left, base).Some? && Runes(right, base).Some? {
      var a, b := Runes(left, base).value, Runes(right, base).value;
      EncodeAppend(a, b);
      BytesCompose(EncodeRunes(a), EncodeRunes(b), s);
    }
  }

  /** mergeElements: the merged literal matches what the two match one after the other. */
  lemma MergedElementComposes(left: Element, right: Element, env: Environment, s: Bytes)
    requires MergedElement(left, right).Some?
    ensures ElementRel(MergedElement(left, right).value, env, s)
         == Compose(ElementRel(left, env, s), ElementRel(right, env, s))
  {
    if left.CharVal? {
      if !HasLetter(left.value) {
        SensitivityIrrelevant(left.value, s);
      }
      if !HasLetter(right.value) {
        SensitivityIrrelevant(right.value, s);
      }
      CharValsCompose(MergedElement(left, right).value.sensitive, left.value, right.value, s);
    } else {
      RunesBase(right.values, left.base, right.base);
      SeriesCompose(left.base, left.values, right.values, s);
    }
  }

  lemma RefinedPreserved(e: Element, t: Transforms, env: Environment, s: Bytes)
    requires !IsSurrogateRange(e)
    ensures ElementRel(Refined(e, t), env, s) == ElementRel(e, env, s)
  {
    if e.NumVal? {
      NumValPreserved(e.base, e.status, e.values, s);
    }
  }

  /** Two unrepeated literals and the one they merge into. */
  lemma MergedPairPreserved(left: Repetition, right: Repetition, t: Transforms, env: Environment, s: Bytes)
    requires IsSingle(left) && IsSingle(right) && MergedElement(left.element, right.element).Some?
    ensures RepetitionRel(One(Refined(MergedElement(left.element, right.element).value, t)), env, s)
         == Compose(RepetitionRel(left, env, s), RepetitionRel(right, env, s))
  {
    var e := MergedElement(left.element, right.element).value;
    MergedElementComposes(left.element, right.element, env, s);
    RefinedPreserved(e, t, env, s);
    OneMeaning(Refined(e, t), env, s);
    OneMeaning(left.element, env, s);
    OneMeaning(right.element, env, s);
  }

  lemma JoinedPreserved(merged: seq<Repetition>, r: Repetition, t: Transforms, env: Environment, s: Bytes)
    ensures RepetitionsRel(Joined(merged, r, t), env, s)
         == Compose(RepetitionsRel(merged, env, s), RepetitionRel(r, env, s))
  {
    if Joined(merged, r, t) != merged + [r] {
      var front, last := merged[..|merged| - 1], merged[|merged| - 1];
      var joined := One(Refined(MergedElement(last.element, r.element).value, t));
      assert Joined(merged, r, t) == front + [joined] && merged == front + [last];
      MergedPairPreserved(last, r, t, env, s);
      SnocMeaning(front, joined, env, s);
      SnocMeaning(front, last, env, s);
      ComposeAssociative(RepetitionsRel(front, env, s), RepetitionRel(last, env, s), RepetitionRel(r, env, s));
    } else {
      SnocMeaning(merged, r, env, s);
    }
  }

  lemma {:induction false} MergedLiteralsPreserved(rs: seq<Repetition>, t: Transforms, env: Environment, s: Bytes)
    ensures RepetitionsRel(MergedLiterals(rs, t), env, s) == RepetitionsRel(rs, env, s)
  {
    if LiteralTransform in t && rs != [] {
      var front := rs[..|rs| - 1];
      MergedLiteralsPreserved(front, t, env, s);
      JoinedPreserved(JoinedAll(front, t), rs[|rs| - 1], t, env, s);
    }
  }

  // ----- groups -----

  lemma SoleElementRel(a: Alternation, env: Environment, s: Bytes)
    requires SoleElement(a).Some?
    ensures AlternationRel(a, env, s) == ElementRel(SoleElement(a).value, env, s)
  {
    var c := a.concatenations[0];
    assert a.concatenations == [c] && c.repetitions == [c.repetitions[0]];
    SingleConcatenation(c, env, s);
    SingleRepetition(c.repetitions[0], env, s);
    OneMeaning(c.repetitions[0].element, env, s);
  }

  lemma SplicedConcatenationRel(c: Concatenation, t: Transforms, env: Environment, s: Bytes)
    ensures AlternativesRel(SplicedConcatenation(c, t), env, s) == ConcatenationRel(c, env, s)
  {
    SingleConcatenation(c, env, s);
    if SoleGroup(c, t).Some? {
      assert c.repetitions == [c.repetitions[0]];
      SingleRepetition(c.repetitions[0], env, s);
      OneMeaning(c.repetitions[0].element, env, s);
    }
  }

  lemma SplicedRepetitionRel(r: Repetition, t: Transforms, env: Environment, s: Bytes)
    ensures RepetitionsRel(SplicedRepetition(r, t), env, s) == RepetitionRel(r, env, s)
  {
    SingleRepetition(r, env, s);
    if r.element.Group? && |r.element.alternation.concatenations| == 1 {
      var cs := r.element.alternation.concatenations;
      assert cs == [cs[0]];
      SingleConcatenation(cs[0], env, s);
      OneMeaning(r.element, env, s);
    }
  }

  // ----- whole trees -----

  /** No range over a single surrogate anywhere simplification looks, which is
      everywhere but inside list elements. */
  predicate SurrogateFree(e: Element)
    decreases e, 0
  {
    match e
    case Group(a) => AlternationSurrogateFree(a)
    case Optional(a) => AlternationSurrogateFree(a)
    case NumVal(_, _, _) => !IsSurrogateRange(e)
    case _ => true
  }

  predicate AlternationSurrogateFree(a: Alternation)
    decreases a, 1
  {
    forall i :: 0 <= i < |a.concatenations| ==> ConcatenationSurrogateFree(a.concatenations[i])
  }

  predicate ConcatenationSurrogateFree(c: Concatenation)
    decreases c, 1
  {
    forall i :: 0 <= i < |c.repetitions| ==> RepetitionSurrogateFree(c.repetitions[i])
  }

  predicate RepetitionSurrogateFree(r: Repetition)
    decreases r, 1
  {
    SurrogateFree(r.element)
  }

  /** Simplification preserves what an alternation matches, whatever the rules it refers to match. */
  lemma {:induction false} AlternationPreserved(a: Alternation, t: Transforms, env: Environment, s: Bytes)
    requires NumValTransform in t ==> AlternationSurrogateFree(a)
    ensures AlternationRel(SimplifiedAlternation(a, t), env, s) == AlternationRel(a, env, s)
    decreases a, 1
  {
    AlternativesPreserved(a.concatenations, t, env, s);
  }

  lemma {:induction false} AlternativesPreserved(cs: seq<Concatenation>, t: Transforms, env: Environment, s: Bytes)
    requires NumValTransform in t ==> forall i :: 0 <= i < |cs| ==> ConcatenationSurrogateFree(cs[i])
    ensures AlternativesRel(SimplifiedAlternatives(cs, t), env, s) == AlternativesRel(cs, env, s)
    decreases cs, 0
  {
    if cs != [] {
      var front, last := cs[..|cs| - 1], cs[|cs| - 1];
      AlternativesPreserved(front, t, env, s);
      ConcatenationPreserved(last, t, env, s);
      SplicedConcatenationRel(SimplifiedConcatenation(last, t), t, env, s);
      AlternativesAppend(SimplifiedAlternatives(front, t),
                         SplicedConcatenation(SimplifiedConcatenation(last, t), t), env, s);
    }
  }

  lemma {:induction false} ConcatenationPreserved(c: Concatenation, t: Transforms, env: Environment, s: Bytes)
    requires NumValTransform in t ==> ConcatenationSurrogateFree(c)
    ensures ConcatenationRel(SimplifiedConcatenation(c, t), env, s) == ConcatenationRel(c, env, s)
    decreases c, 1
  {
    RepetitionsPreserved(c.repetitions, t, env, s);
    MergedLiteralsPreserved(SimplifiedRepetitions(c.repetitions, t), t, env, s);
  }

  lemma {:induction false} RepetitionsPreserved(rs: seq<Repetition>, t: Transforms, env: Environment, s: Bytes)
    requires NumValTransform in t ==> forall i :: 0 <= i < |rs| ==> RepetitionSurrogateFree(rs[i])
    ensures RepetitionsRel(SimplifiedRepetitions(rs, t), env, s) == RepetitionsRel(rs, env, s)
    decreases rs, 0
  {
    if rs != [] {
      var front, last := rs[..|rs| - 1], rs[|rs| - 1];
      RepetitionsPreserved(front, t, env, s);
      RepetitionPreserved(last, t, env, s);
      SplicedRepetitionRel(SimplifiedRepetition(last, t), t, env, s);
      RepetitionsAppend(SimplifiedRepetitions(front, t),
                        SplicedRepetition(SimplifiedRepetition(last, t), t), env, s);
    }
  }

  lemma {:induction false} RepetitionPreserved(r: Repetition, t: Transforms, env: Environment, s: Bytes)
    requires NumValTransform in t ==> RepetitionSurrogateFree(r)
    ensures RepetitionRel(SimplifiedRepetition(r, t), env, s) == RepetitionRel(r, env, s)
    decreases r, 1
  {
    ElementPreserved(r.element, t, env, s);
  }

  lemma {:induction false} ElementPreserved(e: Element, t: Transforms, env: Environment, s: Bytes)
    requires NumValTransform in t ==> SurrogateFree(e)
    ensures ElementRel(SimplifiedElement(e, t), env, s) == ElementRel(e, env, s)
    decreases e, 0
  {
    match e
    case Group(a) =>
      AlternationPreserved(a, t, env, s);
      var simplified := SimplifiedAlternation(a, t);
      if SoleElement(simplified).Some? {
        SoleElementRel(simplified, env, s);
      }
    case Optional(a) => AlternationPreserved(a, t, env, s);
    case NumVal(base, status, values) =>
      if NumValTransform in t {
        NumValPreserved(base, status, values, s);
      }
    case _ =>
  }

  // ----- whole grammars -----

  ghost predicate GrammarSurrogateFree(g: Grammar) {
    forall i :: 0 <= i < |g.rules| ==> AlternationSurrogateFree(g.rules[i].alternation)
  }

  lemma SimplifiedEquivalent(g: Grammar, t: Transforms, s: Bytes)
    requires NumValTransform in t ==> GrammarSurrogateFree(g)
    ensures Equivalent(g, SimplifiedGrammar(g, t), s)
  {
    forall k | 0 <= k < |g.rules|
      ensures SameMeaning(g.rules[k].alternation, SimplifiedAlternation(g.rules[k].alternation, t), s)
    {
      forall env {
        AlternationPreserved(g.rules[k].alternation, t, env, s);
      }
    }
    RewrittenEquivalent(g, a => SimplifiedAlternation(a, t), s);
  }

  /** Simplification with any set of transforms leaves the language of every
      rule unchanged, in every input, through mutual recursion between rules. */
  lemma LanguagePreserved(g: Grammar, t: Transforms, name: string, s: Bytes)
    requires NumValTransform in t ==> GrammarSurrogateFree(g)
    ensures Language(SimplifiedGrammar(g, t), name, s) == Language(g, name, s)
  {
    SimplifiedEquivalent(g, t, s);
    EquivalentLanguages(g, SimplifiedGrammar(g, t), name, s);
  }
}
