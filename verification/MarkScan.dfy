/** A scan of the text of a definition that notices a repeat count running into
    the count of a list, as in 2*3#a: nothing that the grammar of ABNF derives
    contains it outside strings, prose and comments (pkg/abnf/rules.go:49-323). */
module MarkScan {
  import opened Spans
  import opened Utf8
  import opened Wrappers
  import opened Abnf
  import opened Denotation
  import opened Rules
  import opened RuleLookup
  import opened AbnfSpelling
  import D = Derivations

  // ----- the scan -----

  datatype Scan = Plain | Starred | Quoted | InProse | InComment | Wrong

  /** After an asterisk and digits no number sign may follow. */
  function Next(q: Scan, b: Byte): Scan {
    match q
    case Starred => if 0x30 <= b <= 0x39 then Starred else if b == 0x23 then Wrong else Opened(b)
    case Plain => Opened(b)
    case Quoted => if b == 0x22 then Plain else Quoted
    case InProse => if b == 0x3E then Plain else InProse
    case InComment => if b == 0x0A then Plain else InComment
    case Wrong => Wrong
  }

  function Opened(b: Byte): Scan {
    if b == 0x22 then Quoted else if b == 0x3C then InProse else if b == 0x3B then InComment
    else if b == 0x2A then Starred else Plain
  }

  function Scanned(q: Scan, s: Bytes): Scan {
    if s == [] then q else Next(Scanned(q, s[..|s| - 1]), s[|s| - 1])
  }

  lemma {:induction false} ScannedAppend(q: Scan, s: Bytes, t: Bytes)
    ensures Scanned(q, s + t) == Scanned(Scanned(q, s), t)
  {
    if t == [] {
      assert s + t == s;
    } else {
      assert (s + t)[..|s + t| - 1] == s + t[..|t| - 1];
      ScannedAppend(q, s, t[..|t| - 1]);
    }
  }

  // ----- what spans do to the scan -----

  ghost predicate TakesAt(p: (nat, nat), s: Bytes, from: set<Scan>, to: set<Scan>) {
    p.0 <= p.1 <= |s| && forall q :: q in from ==> Scanned(q, s[p.0..p.1]) in to
  }

  /** Every span within the input takes the scan from some of these states to some of those. */
  ghost predicate Takes(rel: Rel, s: Bytes, from: set<Scan>, to: set<Scan>) {
    forall p :: p in rel && p.0 <= |s| ==> TakesAt(p, s, from, to)
  }

  lemma TakesThere(rel: Rel, s: Bytes, f: set<Scan>, t: set<Scan>, p: (nat, nat))
    requires Takes(rel, s, f, t) && p in rel && p.0 <= |s|
    ensures TakesAt(p, s, f, t)
  {
  }

  lemma StaysThere(p: (nat, nat), s: Bytes, f: set<Scan>)
    requires p.0 == p.1 <= |s|
    ensures TakesAt(p, s, f, f)
  {
    assert s[p.0..p.1] == [];
  }

  lemma OneByteThere(p: (nat, nat), s: Bytes, f: set<Scan>, t: set<Scan>)
    requires p.0 + 1 == p.1 <= |s| && forall q :: q in f ==> Next(q, s[p.0]) in t
    ensures TakesAt(p, s, f, t)
  {
    assert s[p.0..p.1] == [s[p.0]] && [s[p.0]][..0] == [];
  }

  lemma JoinThere(i: nat, m: nat, j: nat, s: Bytes, f: set<Scan>, u: set<Scan>, t: set<Scan>)
    requires TakesAt((i, m), s, f, u) && TakesAt((m, j), s, u, t)
    ensures TakesAt((i, j), s, f, t)
  {
    assert s[i..m] + s[m..j] == s[i..j];
    forall q | q in f
      ensures Scanned(q, s[i..j]) in t
    {
      ScannedAppend(q, s[i..m], s[m..j]);
    }
  }

  lemma TakesWider(rel: Rel, s: Bytes, f: set<Scan>, t: set<Scan>, f': set<Scan>, t': set<Scan>)
    requires Takes(rel, s, f, t) && f' <= f && t <= t'
    ensures Takes(rel, s, f', t')
  {
    hide Scanned;
    forall p | p in rel && p.0 <= |s|
      ensures TakesAt(p, s, f', t')
    {
      assert TakesAt(p, s, f, t);
    }
  }

  lemma ComposeTakes(a: Rel, b: Rel, s: Bytes, f: set<Scan>, u: set<Scan>, t: set<Scan>)
    requires Takes(a, s, f, u) && Takes(b, s, u, t)
    ensures Takes(Compose(a, b), s, f, t)
  {
    hide TakesAt;
    forall p | p in Compose(a, b) && p.0 <= |s|
      ensures TakesAt(p, s, f, t)
    {
      var m: nat :| (p.0, m) in a && (m, p.1) in b;
      TakesThere(a, s, f, u, (p.0, m));
      Ordered(p.0, m, s, f, u);
      TakesThere(b, s, u, t, (m, p.1));
      JoinThere(p.0, m, p.1, s, f, u, t);
    }
  }

  lemma Ordered(i: nat, m: nat, s: Bytes, f: set<Scan>, t: set<Scan>)
    requires TakesAt((i, m), s, f, t)
    ensures i <= m <= |s|
  {
  }

  lemma {:induction false} PowerTakes(rel: Rel, s: Bytes, f: set<Scan>, count: nat)
    requires Takes(rel, s, f, f)
    ensures Takes(Power(rel, count), s, f, f)
  {
    hide TakesAt;
    if count == 0 {
      forall p | p in Id() && p.0 <= |s|
        ensures TakesAt(p, s, f, f)
      {
        StaysThere(p, s, f);
      }
    } else {
      PowerTakes(rel, s, f, count - 1);
      ComposeTakes(Power(rel, count - 1), rel, s, f, f, f);
    }
  }

  lemma RepeatTakes(rel: Rel, s: Bytes, f: set<Scan>, min: nat, max: Bound)
    requires Takes(rel, s, f, f)
    ensures Takes(Repeat(min, max, rel), s, f, f)
  {
    hide TakesAt;
    forall p | p in Repeat(min, max, rel) && p.0 <= |s|
      ensures TakesAt(p, s, f, f)
    {
      var count: nat :| Permits(min, max, count) && p in Power(rel, count);
      PowerTakes(rel, s, f, count);
    }
  }

  // ----- pieces of the grammar -----

  ghost predicate ElementTakes(e: Element, env: Environment, s: Bytes, from: set<Scan>, to: set<Scan>) {
    Takes(ElementRel(e, env, s), s, from, to)
  }

  ghost predicate RepTakes(r: Repetition, env: Environment, s: Bytes, from: set<Scan>, to: set<Scan>) {
    Takes(RepetitionRel(r, env, s), s, from, to)
  }

  ghost predicate AllTake(rs: seq<Repetition>, env: Environment, s: Bytes, from: set<Scan>, to: set<Scan>) {
    Takes(RepetitionsRel(rs, env, s), s, from, to)
  }

  ghost predicate AnyTakes(cs: seq<Concatenation>, env: Environment, s: Bytes, from: set<Scan>, to: set<Scan>) {
    Takes(AlternativesRel(cs, env, s), s, from, to)
  }

  lemma OnceTakes(e: Element, env: Environment, s: Bytes, f: set<Scan>, t: set<Scan>)
    requires ElementTakes(e, env, s, f, t)
    ensures RepTakes(One(e), env, s, f, t)
  {
    hide ElementRel, Takes;
    RepeatOnce(ElementRel(e, env, s));
  }

  lemma TimesTake(e: Element, env: Environment, s: Bytes, f: set<Scan>, min: nat, max: Bound)
    requires ElementTakes(e, env, s, f, f)
    ensures RepTakes(Rep(min, max, e), env, s, f, f)
  {
    hide ElementRel, Takes;
    RepeatTakes(ElementRel(e, env, s), s, f, min, max);
  }

  lemma OnlyTakes(r: Repetition, env: Environment, s: Bytes, f: set<Scan>, t: set<Scan>)
    requires RepTakes(r, env, s, f, t)
    ensures AllTake([r], env, s, f, t)
  {
    hide RepetitionRel, RepetitionsRel, Takes;
    SingleRepetition(r, env, s);
  }

  lemma ThenTakes(rs: seq<Repetition>, r: Repetition, env: Environment, s: Bytes, f: set<Scan>, u: set<Scan>,
                  t: set<Scan>)
    requires AllTake(rs, env, s, f, u) && RepTakes(r, env, s, u, t)
    ensures AllTake(rs + [r], env, s, f, t)
  {
    hide RepetitionRel, Takes;
    assert (rs + [r])[..|rs + [r]| - 1] == rs;
    ComposeTakes(RepetitionsRel(rs, env, s), RepetitionRel(r, env, s), s, f, u, t);
  }

  lemma TwoTake(q: Repetition, r: Repetition, env: Environment, s: Bytes, f: set<Scan>, u: set<Scan>, t: set<Scan>)
    requires RepTakes(q, env, s, f, u) && RepTakes(r, env, s, u, t)
    ensures AllTake([q, r], env, s, f, t)
  {
    hide AllTake, RepTakes;
    OnlyTakes(q, env, s, f, u);
    ThenTakes([q], r, env, s, f, u, t);
    assert [q] + [r] == [q, r];
  }

  lemma ThreeTake(q: Repetition, r: Repetition, p: Repetition, env: Environment, s: Bytes,
                  f: set<Scan>, u: set<Scan>, v: set<Scan>, t: set<Scan>)
    requires RepTakes(q, env, s, f, u) && RepTakes(r, env, s, u, v) && RepTakes(p, env, s, v, t)
    ensures AllTake([q, r, p], env, s, f, t)
  {
    hide AllTake, RepTakes;
    TwoTake(q, r, env, s, f, u, v);
    ThenTakes([q, r], p, env, s, f, v, t);
    assert [q, r] + [p] == [q, r, p];
  }

  lemma {:induction false} AlternativesTake(cs: seq<Concatenation>, env: Environment, s: Bytes, f: set<Scan>,
                                            t: set<Scan>)
    requires forall k :: 0 <= k < |cs| ==> AllTake(cs[k].repetitions, env, s, f, t)
    ensures AnyTakes(cs, env, s, f, t)
  {
    hide RepetitionsRel, TakesAt;
    if cs == [] {
      assert AlternativesRel(cs, env, s) == iset{};
    } else {
      var front, last := cs[..|cs| - 1], cs[|cs| - 1];
      assert AllTake(last.repetitions, env, s, f, t);
      AlternativesTake(front, env, s, f, t);
      assert AlternativesRel(cs, env, s) == AlternativesRel(front, env, s) + RepetitionsRel(last.repetitions, env, s);
    }
  }

  lemma GroupTakes(cs: seq<Concatenation>, env: Environment, s: Bytes, f: set<Scan>, t: set<Scan>)
    requires forall k :: 0 <= k < |cs| ==> AllTake(cs[k].repetitions, env, s, f, t)
    ensures ElementTakes(Grp(cs), env, s, f, t)
  {
    hide AllTake, Takes, AlternativesRel;
    AlternativesTake(cs, env, s, f, t);
    assert ElementRel(Grp(cs), env, s) == AlternativesRel(cs, env, s);
  }

  /** What may be left out takes the scan where it was or on. */
  lemma OptionTakes(cs: seq<Concatenation>, env: Environment, s: Bytes, f: set<Scan>, t: set<Scan>)
    requires (forall k :: 0 <= k < |cs| ==> AllTake(cs[k].repetitions, env, s, f, t)) && f <= t
    ensures ElementTakes(Opt(cs), env, s, f, t)
  {
    hide AllTake, TakesAt, AlternativesRel;
    AlternativesTake(cs, env, s, f, t);
    var rel := AlternationRel(Alternation(cs), env, s);
    forall p | p in Repeat(0, 1, rel) && p.0 <= |s|
      ensures TakesAt(p, s, f, t)
    {
      var count: nat :| Permits(0, 1, count) && p in Power(rel, count);
      PowerOne(rel);
      if count == 0 {
        StaysThere(p, s, f);
        WiderThere(p, s, f, f, t);
      } else {
        TakesThere(rel, s, f, t, p);
      }
    }
  }

  lemma WiderThere(p: (nat, nat), s: Bytes, f: set<Scan>, t: set<Scan>, t': set<Scan>)
    requires TakesAt(p, s, f, t) && t <= t'
    ensures TakesAt(p, s, f, t')
  {
  }

  // ----- terminals -----

  /** A byte that takes the scan from any of these states to one of those. */
  predicate Moves(b: Byte, from: set<Scan>, to: set<Scan>) {
    forall q :: q in from ==> Next(q, b) in to
  }

  ghost predicate CharMoves(c: char, from: set<Scan>, to: set<Scan>) {
    forall b: Byte :: CharMatches(false, c, b) ==> Moves(b, from, to)
  }

  lemma LiteralTakes(c: char, env: Environment, s: Bytes, f: set<Scan>, t: set<Scan>)
    requires CharMoves(c, f, t)
    ensures RepTakes(One(Str([c])), env, s, f, t)
  {
    hide Scanned, TakesAt;
    forall p | p in ElementRel(Str([c]), env, s) && p.0 <= |s|
      ensures TakesAt(p, s, f, t)
    {
      assert CharMatches(false, [c][0], s[p.0 + 0]);
      OneByteThere(p, s, f, t);
    }
    OnceTakes(Str([c]), env, s, f, t);
  }

  lemma LiteralsTake(c: char, d: char, env: Environment, s: Bytes, f: set<Scan>, u: set<Scan>, t: set<Scan>)
    requires CharMoves(c, f, u) && CharMoves(d, u, t)
    ensures RepTakes(One(Str([c, d])), env, s, f, t)
  {
    hide Scanned, TakesAt;
    forall p | p in ElementRel(Str([c, d]), env, s) && p.0 <= |s|
      ensures TakesAt(p, s, f, t)
    {
      assert CharMatches(false, [c, d][0], s[p.0 + 0]) && CharMatches(false, [c, d][1], s[p.0 + 1]);
      OneByteThere((p.0, p.0 + 1), s, f, u);
      OneByteThere((p.0 + 1, p.1), s, u, t);
      JoinThere(p.0, p.0 + 1, p.1, s, f, u, t);
    }
    OnceTakes(Str([c, d]), env, s, f, t);
  }

  lemma RangeTakes(low: string, high: string, a: int, b: int, env: Environment, s: Bytes, f: set<Scan>, t: set<Scan>)
    requires ParseNumVal(low, "x") == Some(a) && ParseNumVal(high, "x") == Some(b) && b < 0x80
    requires forall c: Byte :: a <= c <= b ==> Moves(c, f, t)
    ensures RepTakes(One(NumRange(low, high)), env, s, f, t)
  {
    hide Scanned, TakesAt, ParseNumVal;
    forall p | p in ElementRel(NumRange(low, high), env, s) && p.0 <= |s|
      ensures TakesAt(p, s, f, t)
    {
      var rest := s[p.0..];
      EncodeDecoded(rest);
      assert EncodeRune(DecodeRune(rest).rune) == [DecodeRune(rest).rune] == rest[..DecodeRune(rest).size];
      assert rest[..DecodeRune(rest).size][0] == rest[0] == s[p.0];
      assert Moves(s[p.0], f, t);
      OneByteThere(p, s, f, t);
    }
    OnceTakes(NumRange(low, high), env, s, f, t);
  }

  lemma SeriesTakes(value: string, b: Byte, env: Environment, s: Bytes, f: set<Scan>, t: set<Scan>)
    requires ParseNumVal(value, "x") == Some(b) && b < 0x80 && Moves(b, f, t)
    ensures RepTakes(One(NumSeries(value)), env, s, f, t)
  {
    hide Scanned, TakesAt, ParseNumVal, Runes, EncodeRunes;
    D.OneNumeral(value, b);
    D.OneAsciiRune(b);
    forall p | p in ElementRel(NumSeries(value), env, s) && p.0 <= |s|
      ensures TakesAt(p, s, f, t)
    {
      assert s[p.0..p.1][0] == s[p.0];
      OneByteThere(p, s, f, t);
    }
    OnceTakes(NumSeries(value), env, s, f, t);
  }

  // ----- what each rule does -----

  const PLAIN := {Plain}
  const OPEN := {Plain, Starred}
  const QUOTED := {Quoted}
  const PROSE := {InProse}
  const COMMENT := {InComment}

  /** What the rules do to the scan. */
  predicate Promised(name: string, from: set<Scan>, to: set<Scan>) {
    || (from == PLAIN && to == PLAIN
        && (name in {"BIT", "DIGIT", "HEXDIG", "CR", "LF", "CRLF", "SP", "HTAB", "WSP"}
            || name in {"rulelist", "rule", "defined-as", "elements", "c-wsp", "c-nl", "comment"}
            || name in {"alternation", "concatenation", "repetition", "bin-val", "dec-val", "hex-val"}))
    || (from == OPEN && to == PLAIN
        && (name in {"ALPHA", "rulename", "element", "group", "option", "char-val", "num-val", "prose-val"}
            || name in {"case-insensitive-string", "case-sensitive-string", "quoted-string"}))
    || (from == PLAIN && to == OPEN && name == "repeat")
    || (from == OPEN && to == OPEN && name == "DIGIT")
    || (from == OPEN && to == QUOTED && name == "DQUOTE")
    || (from == QUOTED && to == PLAIN && name == "DQUOTE")
    || (from == COMMENT && to == COMMENT && name in {"CR", "SP", "HTAB", "WSP", "VCHAR"})
    || (from == COMMENT && to == PLAIN && name in {"LF", "CRLF"})
  }

  ghost predicate Kept(env: Environment, s: Bytes) {
    forall name, f, t :: Promised(name, f, t) ==> Takes(env(name), s, f, t)
  }

  lemma RefTakes(name: string, env: Environment, s: Bytes, f: set<Scan>, t: set<Scan>)
    requires Kept(env, s) && Promised(name, f, t)
    ensures ElementTakes(Ref(name), env, s, f, t) && RepTakes(One(Ref(name)), env, s, f, t)
    ensures AllTake([One(Ref(name))], env, s, f, t)
  {
    hide Takes, Promised;
    assert ElementTakes(Ref(name), env, s, f, t);
    hide ElementTakes, RepTakes, AllTake;
    OnceTakes(Ref(name), env, s, f, t);
    OnlyTakes(One(Ref(name)), env, s, f, t);
  }

  ghost predicate RuleTakes(rule: Rule, env: Environment, s: Bytes, from: set<Scan>, to: set<Scan>) {
    AnyTakes(rule.alternation.concatenations, env, s, from, to)
  }
}
