/** What a grammar matches: the derivation relation of RFC 5234 sections 3 and
    4, with the char-val case rule of RFC 7405, on the spans of one input. An
    element is denoted relative to what the rulenames in it match, and the
    rules of a grammar are unfolded a bounded number of times, so mutual
    recursion between rules is induction on that number. */
module Denotation {
  import opened Spans
  import opened Utf8
  import opened Wrappers
  import opened Abnf

  type Environment = string -> Rel

  // ----- terminals -----

  function LowerByte(b: Byte): Byte {
    if 0x41 <= b <= 0x5A then b + 32 else b
  }

  function CodeOf(c: char): int {
    c as int
  }

  predicate CharMatches(sensitive: bool, c: char, b: Byte) {
    if sensitive then CodeOf(c) == b else CodeOf(LowerChar(c)) == LowerByte(b)
  }

  predicate CharsMatch(sensitive: bool, value: string, s: Bytes, start: nat)
    requires start + |value| <= |s|
  {
    forall k :: 0 <= k < |value| ==> CharMatches(sensitive, value[k], s[start + k])
  }

  ghost function CharValRel(sensitive: bool, value: string, s: Bytes): Rel {
    iset p: (nat, nat) | p.0 + |value| == p.1 <= |s| && CharsMatch(sensitive, value, s, p.0)
  }

  /** Exactly these bytes. */
  ghost function BytesRel(bytes: Bytes, s: Bytes): Rel {
    iset p: (nat, nat) | p.0 + |bytes| == p.1 <= |s| && s[p.0..p.1] == bytes
  }

  ghost function SeriesRel(values: seq<string>, base: string, s: Bytes): Rel {
    match Runes(values, base)
    case Some(runes) => BytesRel(EncodeRunes(runes), s)
    case None => iset{}
  }

  /** One validly encoded code point within the bounds. */
  ghost function RangeRel(low: int, high: int, s: Bytes): Rel {
    iset p: (nat, nat) |
      && p.0 <= |s|
      && !DecodeRune(s[p.0..]).Failed()
      && low <= DecodeRune(s[p.0..]).rune <= high
      && p.1 == p.0 + DecodeRune(s[p.0..]).size
  }

  ghost function NumValRel(base: string, status: NumValStatus, values: seq<string>, s: Bytes): Rel {
    match status
    case Series => SeriesRel(values, base, s)
    case Range =>
      if |values| < 2 then iset{}
      else
        match (ParseNumVal(values[0], base), ParseNumVal(values[1], base))
        case (Some(low), Some(high)) => RangeRel(low, high, s)
        case _ => iset{}
  }

  // ----- the tree -----

  ghost function ElementRel(e: Element, env: Environment, s: Bytes): Rel
    decreases e, 0
  {
    match e
    case Rulename(name) => env(name)
    case Group(a) => AlternationRel(a, env, s)
    case Optional(a) => Repeat(0, 1, AlternationRel(a, env, s))
    case CharVal(sensitive, value) => CharValRel(sensitive, value, s)
    case NumVal(base, status, values) => NumValRel(base, status, values, s)
    case List(_, _, _, expansion) => AlternationRel(expansion, env, s)
    case ProseVal(_) => iset{}
  }

  ghost function AlternationRel(a: Alternation, env: Environment, s: Bytes): Rel
    decreases a, 1
  {
    AlternativesRel(a.concatenations, env, s)
  }

  ghost function AlternativesRel(cs: seq<Concatenation>, env: Environment, s: Bytes): Rel
    decreases cs, 0
  {
    if cs == [] then iset{}
    else AlternativesRel(cs[..|cs| - 1], env, s) + ConcatenationRel(cs[|cs| - 1], env, s)
  }

  ghost function ConcatenationRel(c: Concatenation, env: Environment, s: Bytes): Rel
    decreases c, 1
  {
    RepetitionsRel(c.repetitions, env, s)
  }

  ghost function RepetitionsRel(rs: seq<Repetition>, env: Environment, s: Bytes): Rel
    decreases rs, 0
  {
    if rs == [] then Id()
    else Compose(RepetitionsRel(rs[..|rs| - 1], env, s), RepetitionRel(rs[|rs| - 1], env, s))
  }

  ghost function RepetitionRel(r: Repetition, env: Environment, s: Bytes): Rel
    decreases r, 1
  {
    Repeat(r.min, r.max, ElementRel(r.element, env, s))
  }

  // ----- grammars -----

  /** What a rule matches when rulenames may be unfolded at most `depth` times. */
  ghost function RuleRel(g: Grammar, depth: nat, name: string, s: Bytes): Rel
    decreases depth, 0
  {
    if depth == 0 then iset{}
    else
      match g.Lookup(name)
      case None => iset{}
      case Some(rule) => AlternationRel(rule.alternation, RulesRel(g, depth - 1, s), s)
  }

  ghost function RulesRel(g: Grammar, depth: nat, s: Bytes): Environment
    decreases depth, 1
  {
    (name: string) => RuleRel(g, depth, name, s)
  }

  ghost predicate Derives(g: Grammar, name: string, s: Bytes, p: (nat, nat)) {
    exists depth: nat :: p in RuleRel(g, depth, name, s)
  }

  /** Everything a rule derives, at any depth. */
  ghost function Language(g: Grammar, name: string, s: Bytes): Rel {
    iset p: (nat, nat) | Derives(g, name, s, p)
  }

  // ----- structure -----

  lemma {:induction false} AlternativesAppend(xs: seq<Concatenation>, ys: seq<Concatenation>, env: Environment,
                                              s: Bytes)
    ensures AlternativesRel(xs + ys, env, s) == AlternativesRel(xs, env, s) + AlternativesRel(ys, env, s)
  {
    if ys == [] {
      assert xs + ys == xs;
    } else {
      assert (xs + ys)[..|xs + ys| - 1] == xs + ys[..|ys| - 1];
      AlternativesAppend(xs, ys[..|ys| - 1], env, s);
    }
  }

  lemma {:induction false} RepetitionsAppend(xs: seq<Repetition>, ys: seq<Repetition>, env: Environment, s: Bytes)
    ensures RepetitionsRel(xs + ys, env, s) == Compose(RepetitionsRel(xs, env, s), RepetitionsRel(ys, env, s))
  {
    if ys == [] {
      assert xs + ys == xs;
      ComposeId(RepetitionsRel(xs, env, s));
    } else {
      assert (xs + ys)[..|xs + ys| - 1] == xs + ys[..|ys| - 1];
      RepetitionsAppend(xs, ys[..|ys| - 1], env, s);
      ComposeAssociative(RepetitionsRel(xs, env, s), RepetitionsRel(ys[..|ys| - 1], env, s),
                         RepetitionRel(ys[|ys| - 1], env, s));
    }
  }

  lemma SingleConcatenation(c: Concatenation, env: Environment, s: Bytes)
    ensures AlternativesRel([c], env, s) == ConcatenationRel(c, env, s)
  {
    assert [c][..0] == [];
  }

  lemma SingleRepetition(r: Repetition, env: Environment, s: Bytes)
    ensures RepetitionsRel([r], env, s) == RepetitionRel(r, env, s)
  {
    assert [r][..0] == [];
    ComposeId(RepetitionRel(r, env, s));
  }

  lemma OneMeaning(e: Element, env: Environment, s: Bytes)
    ensures RepetitionRel(One(e), env, s) == ElementRel(e, env, s)
  {
    RepeatOnce(ElementRel(e, env, s));
  }

  lemma SnocMeaning(rs: seq<Repetition>, r: Repetition, env: Environment, s: Bytes)
    ensures RepetitionsRel(rs + [r], env, s) == Compose(RepetitionsRel(rs, env, s), RepetitionRel(r, env, s))
  {
    assert (rs + [r])[..|rs|] == rs;
  }

  /** Matching a larger set for every rulename matches a larger set. */
  ghost predicate Within(env: Environment, env': Environment) {
    forall name :: env(name) <= env'(name)
  }

  lemma {:induction false} ElementMonotone(e: Element, env: Environment, env': Environment, s: Bytes)
    requires Within(env, env')
    ensures ElementRel(e, env, s) <= ElementRel(e, env', s)
    decreases e, 0
  {
    match e
    case Group(a) => AlternativesMonotone(a.concatenations, env, env', s);
    case Optional(a) =>
      AlternativesMonotone(a.concatenations, env, env', s);
      RepeatMonotone(0, 1, AlternationRel(a, env, s), AlternationRel(a, env', s));
    case List(_, _, _, a) => AlternativesMonotone(a.concatenations, env, env', s);
    case _ =>
  }

  lemma {:induction false} AlternativesMonotone(cs: seq<Concatenation>, env: Environment, env': Environment, s: Bytes)
    requires Within(env, env')
    ensures AlternativesRel(cs, env, s) <= AlternativesRel(cs, env', s)
    decreases cs, 0
  {
    if cs != [] {
      AlternativesMonotone(cs[..|cs| - 1], env, env', s);
      RepetitionsMonotone(cs[|cs| - 1].repetitions, env, env', s);
    }
  }

  lemma {:induction false} RepetitionsMonotone(rs: seq<Repetition>, env: Environment, env': Environment, s: Bytes)
    requires Within(env, env')
    ensures RepetitionsRel(rs, env, s) <= RepetitionsRel(rs, env', s)
    decreases rs, 0
  {
    if rs != [] {
      RepetitionsMonotone(rs[..|rs| - 1], env, env', s);
      RepetitionMonotone(rs[|rs| - 1], env, env', s);
    }
  }

  lemma {:induction false} RepetitionMonotone(r: Repetition, env: Environment, env': Environment, s: Bytes)
    requires Within(env, env')
    ensures RepetitionRel(r, env, s) <= RepetitionRel(r, env', s)
    decreases r, 1
  {
    ElementMonotone(r.element, env, env', s);
    RepeatMonotone(r.min, r.max, ElementRel(r.element, env, s), ElementRel(r.element, env', s));
  }

  /** Unfolding rulenames further only adds derivations. */
  lemma {:induction false} RulesMonotone(g: Grammar, depth: nat, depth': nat, s: Bytes)
    requires depth <= depth'
    ensures Within(RulesRel(g, depth, s), RulesRel(g, depth', s))
    decreases depth
  {
    if depth > 0 {
      RulesMonotone(g, depth - 1, depth' - 1, s);
      forall name
        ensures RuleRel(g, depth, name, s) <= RuleRel(g, depth', name, s)
      {
        match g.Lookup(name)
        case Some(rule) =>
          AlternativesMonotone(rule.alternation.concatenations, RulesRel(g, depth - 1, s), RulesRel(g, depth' - 1, s),
                               s);
        case None =>
      }
    }
  }
}
