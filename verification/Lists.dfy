/** The "#" list operator of RFC 9110 section 5.6.1: the standard ABNF it
    stands for (pkg/abnf/list.go), what that matches, and its expansion
    throughout a grammar (pkg/abnf/minify/transform.go). */
module Lists {
  import opened Spans
  import opened Utf8
  import opened Wrappers
  import opened Abnf
  import opened Denotation
  import opened Rewriting

  const OWS := "OWS"

  // ----- expandList -----

  /** `[ OWS element ]`. */
  function OptionalElement(e: Element): Element {
    Opt([Cat([One(Ref(OWS)), One(e)])])
  }

  /** `*( OWS "," [ OWS element ] )`: the empty elements a recipient tolerates. */
  function Tolerant(e: Element): Repetition {
    Rep(0, INF, Grp([Cat([One(Ref(OWS)), One(Str(",")), One(OptionalElement(e))])]))
  }

  /** `*( "," OWS )`. */
  function Leading(): Repetition {
    Rep(0, INF, Grp([Cat([One(Str(",")), One(Ref(OWS))])]))
  }

  /** `( OWS "," OWS element )`. */
  function SeparatedGroup(e: Element): Element {
    Grp([Cat([One(Ref(OWS)), One(Str(",")), One(Ref(OWS)), One(e)])])
  }

  /** `( "," / element )`. */
  function CommaOr(e: Element): Element {
    Grp([Cat([One(Str(","))]), Cat([One(e)])])
  }

  function RemainingMaximum(max: Bound): Bound {
    if max == INF then INF else if max == 0 then 0 else max - 1
  }

  function ExpandList(min: nat, max: Bound, e: Element): Alternation {
    Alternation([Cat(ExpandedList(min, max, e))])
  }

  /** The repetitions of the one concatenation that a list operator expands to. */
  function ExpandedList(min: nat, max: Bound, e: Element): seq<Repetition> {
    if min == 0 && max == INF then
      [One(Opt([Cat([One(CommaOr(e)), Tolerant(e)])]))]
    else if min == 1 && max == INF then
      [Leading(), One(e), Tolerant(e)]
    else if min == 0 then
      [One(Opt([Cat([One(e), Rep(0, RemainingMaximum(max), SeparatedGroup(e))])]))]
    else
      [One(e), Rep(min - 1, RemainingMaximum(max), SeparatedGroup(e))]
  }

  /** The recipient forms, which have no maximum and at most one required element. */
  predicate IsRecipientForm(min: nat, max: Bound) {
    max == INF && min <= 1
  }

  // ----- what an expansion matches -----

  ghost function Comma(s: Bytes): Rel {
    CharValRel(false, ",", s)
  }

  /** What stands between two elements in the sender form. */
  ghost function Separator(ows: Rel, comma: Rel): Rel {
    Compose(Compose(ows, comma), ows)
  }

  /** Exactly `count` elements, separated. */
  ghost function Elements(count: nat, e: Rel, separator: Rel): Rel {
    if count == 0 then Id() else Compose(e, Power(Compose(separator, e), count - 1))
  }

  ghost predicate IsListOf(min: nat, max: Bound, e: Rel, separator: Rel, p: (nat, nat)) {
    exists count: nat :: Permits(min, max, count) && p in Elements(count, e, separator)
  }

  /** A permitted number of elements, separated: the sender form. */
  ghost function ListOf(min: nat, max: Bound, e: Rel, separator: Rel): Rel {
    iset p: (nat, nat) | IsListOf(min, max, e, separator, p)
  }

  ghost function TolerantRel(e: Rel, ows: Rel, comma: Rel): Rel {
    Repeat(0, INF, Compose(Compose(ows, comma), Repeat(0, 1, Compose(ows, e))))
  }

  /** What an expansion matches, in terms of what its element and OWS match. */
  ghost function ExpansionRel(min: nat, max: Bound, e: Rel, ows: Rel, comma: Rel): Rel {
    if min == 0 && max == INF then Repeat(0, 1, Compose(comma + e, TolerantRel(e, ows, comma)))
    else if min == 1 && max == INF then
      Compose(Compose(Repeat(0, INF, Compose(comma, ows)), e), TolerantRel(e, ows, comma))
    else
      var rest := Compose(Separator(ows, comma), e);
      if min == 0 then Repeat(0, 1, Compose(e, Repeat(0, RemainingMaximum(max), rest)))
      else Compose(e, Repeat(min - 1, RemainingMaximum(max), rest))
  }

  lemma PairMeaning(a: Repetition, b: Repetition, env: Environment, s: Bytes)
    ensures RepetitionsRel([a, b], env, s) == Compose(RepetitionRel(a, env, s), RepetitionRel(b, env, s))
  {
    assert [a, b] == [a] + [b];
    SingleRepetition(a, env, s);
    SnocMeaning([a], b, env, s);
  }

  lemma TripleMeaning(a: Repetition, b: Repetition, c: Repetition, env: Environment, s: Bytes)
    ensures RepetitionsRel([a, b, c], env, s)
         == Compose(Compose(RepetitionRel(a, env, s), RepetitionRel(b, env, s)), RepetitionRel(c, env, s))
  {
    assert [a, b, c] == [a, b] + [c];
    PairMeaning(a, b, env, s);
    SnocMeaning([a, b], c, env, s);
  }

  lemma OnesMeaning2(a: Element, b: Element, env: Environment, s: Bytes)
    ensures RepetitionsRel([One(a), One(b)], env, s) == Compose(ElementRel(a, env, s), ElementRel(b, env, s))
  {
    PairMeaning(One(a), One(b), env, s);
    OneMeaning(a, env, s);
    OneMeaning(b, env, s);
  }

  lemma OnesMeaning3(a: Element, b: Element, c: Element, env: Environment, s: Bytes)
    ensures RepetitionsRel([One(a), One(b), One(c)], env, s)
         == Compose(Compose(ElementRel(a, env, s), ElementRel(b, env, s)), ElementRel(c, env, s))
  {
    assert [One(a), One(b), One(c)] == [One(a), One(b)] + [One(c)];
    OnesMeaning2(a, b, env, s);
    OneMeaning(c, env, s);
    SnocMeaning([One(a), One(b)], One(c), env, s);
  }

  lemma OnesMeaning4(a: Element, b: Element, c: Element, d: Element, env: Environment, s: Bytes)
    ensures RepetitionsRel([One(a), One(b), One(c), One(d)], env, s)
         == Compose(Compose(Compose(ElementRel(a, env, s), ElementRel(b, env, s)), ElementRel(c, env, s)),
                    ElementRel(d, env, s))
  {
    assert [One(a), One(b), One(c), One(d)] == [One(a), One(b), One(c)] + [One(d)];
    OnesMeaning3(a, b, c, env, s);
    OneMeaning(d, env, s);
    SnocMeaning([One(a), One(b), One(c)], One(d), env, s);
  }

  /** A group or an option of one concatenation. */
  lemma GroupMeaning(rs: seq<Repetition>, env: Environment, s: Bytes)
    ensures AlternationRel(Alternation([Cat(rs)]), env, s) == RepetitionsRel(rs, env, s)
    ensures ElementRel(Grp([Cat(rs)]), env, s) == RepetitionsRel(rs, env, s)
    ensures ElementRel(Opt([Cat(rs)]), env, s) == Repeat(0, 1, RepetitionsRel(rs, env, s))
  {
    SingleConcatenation(Cat(rs), env, s);
  }

  lemma OptionalPairMeaning(a: Repetition, b: Repetition, env: Environment, s: Bytes)
    ensures RepetitionsRel([One(Opt([Cat([a, b])]))], env, s)
         == Repeat(0, 1, Compose(RepetitionRel(a, env, s), RepetitionRel(b, env, s)))
  {
    PairMeaning(a, b, env, s);
    GroupMeaning([a, b], env, s);
    OneMeaning(Opt([Cat([a, b])]), env, s);
    SingleRepetition(One(Opt([Cat([a, b])])), env, s);
  }

  lemma ChoiceMeaning(a: Element, b: Element, env: Environment, s: Bytes)
    ensures RepetitionRel(One(Grp([Cat([One(a)]), Cat([One(b)])])), env, s)
         == ElementRel(a, env, s) + ElementRel(b, env, s)
  {
    OneMeaning(Grp([Cat([One(a)]), Cat([One(b)])]), env, s);
    var cs := [Cat([One(a)]), Cat([One(b)])];
    assert cs == [cs[0]] + [cs[1]];
    AlternativesAppend([cs[0]], [cs[1]], env, s);
    SingleConcatenation(cs[0], env, s);
    SingleConcatenation(cs[1], env, s);
    SingleRepetition(One(a), env, s);
    SingleRepetition(One(b), env, s);
    OneMeaning(a, env, s);
    OneMeaning(b, env, s);
  }

  lemma OptionalElementMeaning(e: Element, env: Environment, s: Bytes)
    ensures ElementRel(OptionalElement(e), env, s) == Repeat(0, 1, Compose(env(OWS), ElementRel(e, env, s)))
  {
    OnesMeaning2(Ref(OWS), e, env, s);
    GroupMeaning([One(Ref(OWS)), One(e)], env, s);
  }

  lemma TolerantMeaning(e: Element, env: Environment, s: Bytes)
    ensures RepetitionRel(Tolerant(e), env, s) == TolerantRel(ElementRel(e, env, s), env(OWS), Comma(s))
  {
    OptionalElementMeaning(e, env, s);
    OnesMeaning3(Ref(OWS), Str(","), OptionalElement(e), env, s);
    GroupMeaning([One(Ref(OWS)), One(Str(",")), One(OptionalElement(e))], env, s);
  }

  lemma SeparatedMeaning(e: Element, env: Environment, s: Bytes)
    ensures ElementRel(SeparatedGroup(e), env, s)
         == Compose(Separator(env(OWS), Comma(s)), ElementRel(e, env, s))
  {
    OnesMeaning4(Ref(OWS), Str(","), Ref(OWS), e, env, s);
    GroupMeaning([One(Ref(OWS)), One(Str(",")), One(Ref(OWS)), One(e)], env, s);
  }

  lemma CommaMeaning(env: Environment, s: Bytes)
    ensures ElementRel(Str(","), env, s) == Comma(s)
  {
  }

  lemma CommaOrMeaning(e: Element, env: Environment, s: Bytes)
    ensures RepetitionRel(One(CommaOr(e)), env, s) == Comma(s) + ElementRel(e, env, s)
  {
    CommaMeaning(env, s);
    ChoiceMeaning(Str(","), e, env, s);
  }

  lemma AnyRecipientMeaning(e: Element, env: Environment, s: Bytes)
    ensures RepetitionsRel(ExpandedList(0, INF, e), env, s)
         == ExpansionRel(0, INF, ElementRel(e, env, s), env(OWS), Comma(s))
  {
    OptionalPairMeaning(One(CommaOr(e)), Tolerant(e), env, s);
    CommaOrMeaning(e, env, s);
    TolerantMeaning(e, env, s);
  }

  lemma LeadingMeaning(env: Environment, s: Bytes)
    ensures RepetitionRel(Leading(), env, s) == Repeat(0, INF, Compose(Comma(s), env(OWS)))
  {
    OnesMeaning2(Str(","), Ref(OWS), env, s);
    GroupMeaning([One(Str(",")), One(Ref(OWS))], env, s);
  }

  lemma SomeRecipientMeaning(e: Element, env: Environment, s: Bytes)
    ensures RepetitionsRel(ExpandedList(1, INF, e), env, s)
         == ExpansionRel(1, INF, ElementRel(e, env, s), env(OWS), Comma(s))
  {
    TripleMeaning(Leading(), One(e), Tolerant(e), env, s);
    LeadingMeaning(env, s);
    OneMeaning(e, env, s);
    TolerantMeaning(e, env, s);
  }

  lemma BoundedMeaning(min: nat, max: Bound, e: Element, env: Environment, s: Bytes)
    requires !IsRecipientForm(min, max)
    ensures RepetitionsRel(ExpandedList(min, max, e), env, s)
         == ExpansionRel(min, max, ElementRel(e, env, s), env(OWS), Comma(s))
  {
    SeparatedMeaning(e, env, s);
    OneMeaning(e, env, s);
    var rest := Rep(if min == 0 then 0 else min - 1, RemainingMaximum(max), SeparatedGroup(e));
    PairMeaning(One(e), rest, env, s);
    OptionalPairMeaning(One(e), rest, env, s);
  }

  /** An expansion matches what its element and OWS make of it. */
  lemma ExpansionMeaning(min: nat, max: Bound, e: Element, env: Environment, s: Bytes)
    ensures RepetitionsRel(ExpandedList(min, max, e), env, s)
         == ExpansionRel(min, max, ElementRel(e, env, s), env(OWS), Comma(s))
    ensures AlternationRel(ExpandList(min, max, e), env, s)
         == ExpansionRel(min, max, ElementRel(e, env, s), env(OWS), Comma(s))
  {
    GroupMeaning(ExpandedList(min, max, e), env, s);
    if min == 0 && max == INF {
      AnyRecipientMeaning(e, env, s);
    } else if min == 1 && max == INF {
      SomeRecipientMeaning(e, env, s);
    } else {
      BoundedMeaning(min, max, e, env, s);
    }
  }

  // ----- counts of elements -----

  lemma ComposeRepeat(e: Rel, min: nat, max: Bound, rest: Rel, p: (nat, nat))
    ensures p in Compose(e, Repeat(min, max, rest))
            <==> exists count: nat :: Permits(min, max, count) && p in Compose(e, Power(rest, count))
  {
    if p in Compose(e, Repeat(min, max, rest)) {
      var m: nat :| (p.0, m) in e && (m, p.1) in Repeat(min, max, rest);
      assert IsRepeated(min, max, rest, (m, p.1));
      var count: nat :| Permits(min, max, count) && (m, p.1) in Power(rest, count);
      assert p in Compose(e, Power(rest, count));
    }
    if count: nat :| Permits(min, max, count) && p in Compose(e, Power(rest, count)) {
      var m: nat :| (p.0, m) in e && (m, p.1) in Power(rest, count);
      assert IsRepeated(min, max, rest, (m, p.1));
    }
  }

  lemma OptionalIs(a: Rel, p: (nat, nat))
    ensures p in Repeat(0, 1, a) <==> p.0 == p.1 || p in a
  {
    PowerOne(a);
    if p.0 == p.1 {
      assert Permits(0, 1, 0) && p in Power(a, 0);
    }
    if p in a {
      assert Permits(0, 1, 1) && p in Power(a, 1);
    }
    if IsRepeated(0, 1, a, p) {
      var count: nat :| Permits(0, 1, count) && p in Power(a, count);
      assert count == 0 || count == 1;
    }
  }

  /** One element and then a number of separated ones. */
  lemma FirstAndRest(min: nat, max: Bound, e: Rel, separator: Rel, p: (nat, nat))
    requires 1 <= min && (max != 0 || min >= 2)
    ensures p in Compose(e, Repeat(min - 1, RemainingMaximum(max), Compose(separator, e)))
            <==> IsListOf(min, max, e, separator, p)
  {
    var rest := Compose(separator, e);
    ComposeRepeat(e, min - 1, RemainingMaximum(max), rest, p);
    if count: nat :| Permits(min - 1, RemainingMaximum(max), count) && p in Compose(e, Power(rest, count)) {
      assert Permits(min, max, count + 1) && p in Elements(count + 1, e, separator);
    }
    if count: nat :| Permits(min, max, count) && p in Elements(count, e, separator) {
      assert Permits(min - 1, RemainingMaximum(max), count - 1) && p in Compose(e, Power(rest, count - 1));
    }
  }

  lemma BoundedList(min: nat, max: Bound, e: Rel, ows: Rel, comma: Rel)
    requires !IsRecipientForm(min, max) && (max != 0 || min >= 2)
    ensures ExpansionRel(min, max, e, ows, comma) == ListOf(min, max, e, Separator(ows, comma))
  {
    var separator := Separator(ows, comma);
    forall p
      ensures p in ExpansionRel(min, max, e, ows, comma) <==> IsListOf(min, max, e, separator, p)
    {
      if min == 0 {
        OptionalIs(Compose(e, Repeat(0, RemainingMaximum(max), Compose(separator, e))), p);
        FirstAndRest(1, max, e, separator, p);
        NoneOrSome(max, e, separator, p);
      } else {
        FirstAndRest(min, max, e, separator, p);
      }
    }
  }

  lemma NoneOrSome(max: Bound, e: Rel, separator: Rel, p: (nat, nat))
    ensures IsListOf(0, max, e, separator, p) <==> p.0 == p.1 || IsListOf(1, max, e, separator, p)
  {
    if count: nat :| Permits(0, max, count) && p in Elements(count, e, separator) {
      assert count == 0 || Permits(1, max, count);
    }
    if p.0 == p.1 {
      assert Permits(0, max, 0) && p in Elements(0, e, separator);
    }
    if count: nat :| Permits(1, max, count) && p in Elements(count, e, separator) {
      assert Permits(0, max, count);
    }
  }

  /** An expansion means exactly the permitted numbers of separated elements. */
  ghost predicate ExactCounts(min: nat, max: Bound, e: Element, env: Environment, s: Bytes) {
    AlternationRel(ExpandList(min, max, e), env, s)
    == ListOf(min, max, ElementRel(e, env, s), Separator(env(OWS), Comma(s)))
  }

  /** The expansion of a bounded list means exactly the permitted numbers of
      elements, whatever the element, unless its maximum is zero: `0#0a` and
      `1#0a` then match an element all the same. */
  lemma BoundedExactIff(min: nat, max: Bound)
    requires !IsRecipientForm(min, max)
    ensures (forall e, env, s :: ExactCounts(min, max, e, env, s)) <==> max != 0 || min >= 2
  {
    if max != 0 || min >= 2 {
      forall e, env, s {
        BoundedExact(min, max, e, env, s);
      }
    } else {
      var env: Environment := name => iset{};
      ZeroMaximumInexact(min, CharVal(true, "a"), env, [97]);
    }
  }

  lemma BoundedExact(min: nat, max: Bound, e: Element, env: Environment, s: Bytes)
    requires !IsRecipientForm(min, max) && (max != 0 || min >= 2)
    ensures ExactCounts(min, max, e, env, s)
  {
    ExpansionMeaning(min, max, e, env, s);
    BoundedList(min, max, ElementRel(e, env, s), env(OWS), Comma(s));
  }

  lemma ZeroMaximumInexact(min: nat, e: Element, env: Environment, s: Bytes)
    requires min <= 1 && e == CharVal(true, "a") && s == [97]
    ensures !ExactCounts(min, 0, e, env, s)
  {
    ZeroMaximum(min, e, env, s);
    assert (0, 1) !in ListOf(min, 0, ElementRel(e, env, s), Separator(env(OWS), Comma(s)));
  }

  lemma ZeroMaximum(min: nat, e: Element, env: Environment, s: Bytes)
    requires min <= 1 && e == CharVal(true, "a") && s == [97]
    ensures (0, 1) in AlternationRel(ExpandList(min, 0, e), env, s)
    ensures !IsListOf(min, 0, ElementRel(e, env, s), Separator(env(OWS), Comma(s)), (0, 1))
  {
    var a := ElementRel(e, env, s);
    var rest := Compose(Separator(env(OWS), Comma(s)), a);
    var p := (0, 1);
    assert CharMatches(true, 'a', s[0]);
    assert p in a;
    ExpansionMeaning(min, 0, e, env, s);
    assert Permits(0, 0, 0) && (1, 1) in Power(rest, 0);
    assert IsRepeated(0, 0, rest, (1, 1));
    assert p in Compose(a, Repeat(0, 0, rest));
    OptionalIs(Compose(a, Repeat(0, 0, rest)), p);
  }

  lemma SeparatedTolerated(e: Rel, ows: Rel, comma: Rel, count: nat)
    ensures Power(Compose(Separator(ows, comma), e), count) <= TolerantRel(e, ows, comma)
  {
    var one := Compose(Compose(ows, comma), Repeat(0, 1, Compose(ows, e)));
    ComposeAssociative(Compose(ows, comma), ows, e);
    forall p | p in Compose(ows, e)
      ensures p in Repeat(0, 1, Compose(ows, e))
    {
      OptionalIs(Compose(ows, e), p);
    }
    ComposeMonotone(Compose(ows, comma), Compose(ows, e), Compose(ows, comma), Repeat(0, 1, Compose(ows, e)));
    PowerMonotone(Compose(Separator(ows, comma), e), one, count);
    forall p | p in Power(one, count)
      ensures p in TolerantRel(e, ows, comma)
    {
      assert Permits(0, INF, count);
      assert IsRepeated(0, INF, one, p);
    }
  }

  /** The recipient forms accept every list that the sender forms allow. */
  lemma RecipientsAcceptSenders(min: nat, e: Element, env: Environment, s: Bytes)
    requires min <= 1
    ensures ListOf(min, INF, ElementRel(e, env, s), Separator(env(OWS), Comma(s)))
         <= AlternationRel(ExpandList(min, INF, e), env, s)
  {
    var a, ows, comma := ElementRel(e, env, s), env(OWS), Comma(s);
    ExpansionMeaning(min, INF, e, env, s);
    forall p | IsListOf(min, INF, a, Separator(ows, comma), p)
      ensures p in ExpansionRel(min, INF, a, ows, comma)
    {
      var count: nat :| Permits(min, INF, count) && p in Elements(count, a, Separator(ows, comma));
      RecipientAcceptsCount(min, count, a, ows, comma, p);
    }
  }

  lemma SplitCompose(a: Rel, b: Rel, larger: Rel, p: (nat, nat)) returns (m: nat)
    requires p in Compose(a, b) && b <= larger
    ensures (p.0, m) in a && (m, p.1) in larger
  {
    m :| (p.0, m) in a && (m, p.1) in b;
  }

  lemma RepeatedNoTimes(a: Rel, i: nat)
    ensures (i, i) in Repeat(0, INF, a)
  {
    assert Permits(0, INF, 0) && (i, i) in Power(a, 0);
  }

  lemma ToleratedAny(a: Rel, comma: Rel, tolerant: Rel, m: nat, p: (nat, nat))
    requires (p.0, m) in a && (m, p.1) in tolerant
    ensures p in Repeat(0, 1, Compose(comma + a, tolerant))
  {
    InCompose(comma + a, tolerant, p.0, m, p.1);
    OptionalIs(Compose(comma + a, tolerant), p);
  }

  lemma ToleratedSome(a: Rel, leading: Rel, tolerant: Rel, m: nat, p: (nat, nat))
    requires (p.0, m) in a && (m, p.1) in tolerant
    ensures p in Compose(Compose(Repeat(0, INF, leading), a), tolerant)
  {
    RepeatedNoTimes(leading, p.0);
    InCompose(Repeat(0, INF, leading), a, p.0, p.0, m);
    InCompose(Compose(Repeat(0, INF, leading), a), tolerant, p.0, m, p.1);
  }

  /** An element and what may be tolerated after it. */
  lemma RecipientAcceptsSome(min: nat, a: Rel, ows: Rel, comma: Rel, rest: Rel, p: (nat, nat))
    requires min <= 1 && rest <= TolerantRel(a, ows, comma) && p in Compose(a, rest)
    ensures p in ExpansionRel(min, INF, a, ows, comma)
  {
    var m := SplitCompose(a, rest, TolerantRel(a, ows, comma), p);
    ToleratedAny(a, comma, TolerantRel(a, ows, comma), m, p);
    ToleratedSome(a, Compose(comma, ows), TolerantRel(a, ows, comma), m, p);
  }

  lemma RecipientAcceptsNone(a: Rel, ows: Rel, comma: Rel, i: nat)
    ensures (i, i) in ExpansionRel(0, INF, a, ows, comma)
  {
    OptionalIs(Compose(comma + a, TolerantRel(a, ows, comma)), (i, i));
  }

  lemma RecipientAcceptsCount(min: nat, count: nat, a: Rel, ows: Rel, comma: Rel, p: (nat, nat))
    requires min <= 1 && min <= count && p in Elements(count, a, Separator(ows, comma))
    ensures p in ExpansionRel(min, INF, a, ows, comma)
  {
    if count == 0 {
      RecipientAcceptsNone(a, ows, comma, p.0);
    } else {
      SeparatedTolerated(a, ows, comma, count - 1);
      RecipientAcceptsSome(min, a, ows, comma, Power(Compose(Separator(ows, comma), a), count - 1), p);
    }
  }
}
