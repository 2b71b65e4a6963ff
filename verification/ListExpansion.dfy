/** Expanding the list operators throughout a grammar
    (pkg/abnf/minify/transform.go) leaves its languages unchanged and no list
    behind. */
module ListExpansion {
  import opened Spans
  import opened Utf8
  import opened Wrappers
  import opened Abnf
  import opened Denotation
  import opened Rewriting
  import opened Lists

  // ----- expanding the lists of a grammar -----

  /** Every list holds the expansion of its own element, as the parser builds it. */
  predicate Faithful(e: Element)
    decreases e, 0
  {
    match e
    case Group(a) => AlternationFaithful(a)
    case Optional(a) => AlternationFaithful(a)
    case List(min, max, element, expansion) => Faithful(element) && expansion == ExpandList(min, max, element)
    case _ => true
  }

  predicate AlternationFaithful(a: Alternation)
    decreases a, 1
  {
    forall k :: 0 <= k < |a.concatenations| ==> ConcatenationFaithful(a.concatenations[k])
  }

  predicate ConcatenationFaithful(c: Concatenation)
    decreases c, 1
  {
    forall k :: 0 <= k < |c.repetitions| ==> RepetitionFaithful(c.repetitions[k])
  }

  predicate RepetitionFaithful(r: Repetition)
    decreases r, 1
  {
    Faithful(r.element)
  }

  /** expandElement. The program expands the element that a list and its
      expansion share; here the expansion is rebuilt around the expanded element. */
  function ExpandedElement(e: Element): Element
    decreases e, 0
  {
    match e
    case Group(a) => Group(ExpandedAlternation(a))
    case Optional(a) => Optional(ExpandedAlternation(a))
    case List(min, max, element, _) =>
      var expanded := ExpandedElement(element);
      List(min, max, expanded, ExpandList(min, max, expanded))
    case _ => e
  }

  function ExpandedAlternation(a: Alternation): Alternation
    decreases a, 1
  {
    Alternation(ExpandedAlternatives(a.concatenations))
  }

  function ExpandedAlternatives(cs: seq<Concatenation>): (r: seq<Concatenation>)
    ensures |r| == |cs|
    decreases cs, 0
  {
    if cs == [] then []
    else ExpandedAlternatives(cs[..|cs| - 1]) + [ExpandedConcatenation(cs[|cs| - 1])]
  }

  function ExpandedConcatenation(c: Concatenation): Concatenation
    decreases c, 1
  {
    Concatenation(ExpandedRepetitions(c.repetitions))
  }

  function ExpandedRepetitions(rs: seq<Repetition>): seq<Repetition>
    decreases rs, 0
  {
    if rs == [] then []
    else ExpandedRepetitions(rs[..|rs| - 1]) + ExpandedRepetition(rs[|rs| - 1])
  }

  /** What stands where a repetition stood: the expansion of an unrepeated list, or the repetition. */
  function ExpandedRepetition(r: Repetition): seq<Repetition>
    decreases r, 1
  {
    var e := ExpandedElement(r.element);
    if e.List? && IsSingle(r) then e.expansion.concatenations[0].repetitions
    else [Repetition(r.min, r.max, e)]
  }

  function ExpandedGrammar(g: Grammar): Grammar {
    Grammar(Rewritten(g.rules, ExpandedAlternation), g.coreRules)
  }

  lemma {:induction false} ElementExpanded(e: Element, env: Environment, s: Bytes)
    requires Faithful(e)
    ensures ElementRel(ExpandedElement(e), env, s) == ElementRel(e, env, s)
    decreases e, 0
  {
    match e
    case Group(a) => AlternationExpanded(a, env, s);
    case Optional(a) => AlternationExpanded(a, env, s);
    case List(min, max, element, _) =>
      ElementExpanded(element, env, s);
      ExpansionMeaning(min, max, element, env, s);
      ExpansionMeaning(min, max, ExpandedElement(element), env, s);
    case _ =>
  }

  /** Expanding lists preserves what an alternation matches, whatever the rules it refers to match. */
  lemma {:induction false} AlternationExpanded(a: Alternation, env: Environment, s: Bytes)
    requires AlternationFaithful(a)
    ensures AlternationRel(ExpandedAlternation(a), env, s) == AlternationRel(a, env, s)
    decreases a, 1
  {
    AlternativesExpanded(a.concatenations, env, s);
  }

  lemma {:induction false} AlternativesExpanded(cs: seq<Concatenation>, env: Environment, s: Bytes)
    requires forall k :: 0 <= k < |cs| ==> ConcatenationFaithful(cs[k])
    ensures AlternativesRel(ExpandedAlternatives(cs), env, s) == AlternativesRel(cs, env, s)
    decreases cs, 0
  {
    if cs != [] {
      var front, last := cs[..|cs| - 1], cs[|cs| - 1];
      AlternativesExpanded(front, env, s);
      RepetitionsExpanded(last.repetitions, env, s);
      AlternativesAppend(ExpandedAlternatives(front), [ExpandedConcatenation(last)], env, s);
      SingleConcatenation(ExpandedConcatenation(last), env, s);
    }
  }

  lemma {:induction false} RepetitionsExpanded(rs: seq<Repetition>, env: Environment, s: Bytes)
    requires forall k :: 0 <= k < |rs| ==> RepetitionFaithful(rs[k])
    ensures RepetitionsRel(ExpandedRepetitions(rs), env, s) == RepetitionsRel(rs, env, s)
    decreases rs, 0
  {
    if rs != [] {
      var front, last := rs[..|rs| - 1], rs[|rs| - 1];
      RepetitionsExpanded(front, env, s);
      RepetitionExpanded(last, env, s);
      RepetitionsAppend(ExpandedRepetitions(front), ExpandedRepetition(last), env, s);
    }
  }

  lemma {:induction false} RepetitionExpanded(r: Repetition, env: Environment, s: Bytes)
    requires RepetitionFaithful(r)
    ensures RepetitionsRel(ExpandedRepetition(r), env, s) == RepetitionRel(r, env, s)
    decreases r, 1
  {
    var e := ExpandedElement(r.element);
    ElementExpanded(r.element, env, s);
    if e.List? && IsSingle(r) {
      OneMeaning(r.element, env, s);
      GroupMeaning(ExpandedList(e.min, e.max, e.element), env, s);
    } else {
      SingleRepetition(Repetition(r.min, r.max, e), env, s);
    }
  }

  /** ExpandLists leaves the language of every rule unchanged, in every input. */
  lemma ExpansionPreservesLanguage(g: Grammar, name: string, s: Bytes)
    requires forall k :: 0 <= k < |g.rules| ==> AlternationFaithful(g.rules[k].alternation)
    ensures Language(ExpandedGrammar(g), name, s) == Language(g, name, s)
  {
    forall k | 0 <= k < |g.rules|
      ensures SameMeaning(g.rules[k].alternation, ExpandedAlternation(g.rules[k].alternation), s)
    {
      forall env {
        AlternationExpanded(g.rules[k].alternation, env, s);
      }
    }
    RewrittenEquivalent(g, ExpandedAlternation, s);
    EquivalentLanguages(g, ExpandedGrammar(g), name, s);
  }

  // ----- no list is left -----

  predicate ListFree(e: Element)
    decreases e, 0
  {
    match e
    case Group(a) => AlternationListFree(a)
    case Optional(a) => AlternationListFree(a)
    case List(_, _, _, _) => false
    case _ => true
  }

  predicate AlternationListFree(a: Alternation)
    decreases a, 1
  {
    forall k :: 0 <= k < |a.concatenations| ==> ConcatenationListFree(a.concatenations[k])
  }

  predicate ConcatenationListFree(c: Concatenation)
    decreases c, 1
  {
    forall k :: 0 <= k < |c.repetitions| ==> RepetitionListFree(c.repetitions[k])
  }

  predicate RepetitionListFree(r: Repetition)
    decreases r, 1
  {
    ListFree(r.element)
  }

  /** The shape the parser gives lists: one stands only where it is not
      repeated, and its element is not a list itself. */
  predicate ListsUnrepeated(e: Element)
    decreases e, 0
  {
    match e
    case Group(a) => AlternationListsUnrepeated(a)
    case Optional(a) => AlternationListsUnrepeated(a)
    case List(_, _, element, _) => !element.List? && ListsUnrepeated(element)
    case _ => true
  }

  predicate AlternationListsUnrepeated(a: Alternation)
    decreases a, 1
  {
    forall k :: 0 <= k < |a.concatenations| ==> ConcatenationListsUnrepeated(a.concatenations[k])
  }

  predicate ConcatenationListsUnrepeated(c: Concatenation)
    decreases c, 1
  {
    forall k :: 0 <= k < |c.repetitions| ==> RepetitionListsUnrepeated(c.repetitions[k])
  }

  predicate RepetitionListsUnrepeated(r: Repetition)
    decreases r, 1
  {
    (r.element.List? ==> IsSingle(r)) && ListsUnrepeated(r.element)
  }

  lemma {:induction false} NoListLeft(e: Element)
    requires ListsUnrepeated(e)
    ensures if e.List? then ListFree(ExpandedElement(e).element) else ListFree(ExpandedElement(e))
    decreases e, 0
  {
    match e
    case Group(a) => NoListLeftInAlternation(a);
    case Optional(a) => NoListLeftInAlternation(a);
    case List(_, _, element, _) => NoListLeft(element);
    case _ =>
  }

  lemma {:induction false} NoListLeftInAlternation(a: Alternation)
    requires AlternationListsUnrepeated(a)
    ensures AlternationListFree(ExpandedAlternation(a))
    decreases a, 1
  {
    NoListLeftInAlternatives(a.concatenations);
  }

  lemma {:induction false} NoListLeftInAlternatives(cs: seq<Concatenation>)
    requires forall k :: 0 <= k < |cs| ==> ConcatenationListsUnrepeated(cs[k])
    ensures forall c :: c in ExpandedAlternatives(cs) ==> ConcatenationListFree(c)
    decreases cs, 0
  {
    if cs != [] {
      NoListLeftInAlternatives(cs[..|cs| - 1]);
      NoListLeftInConcatenation(cs[|cs| - 1]);
    }
  }

  lemma {:induction false} NoListLeftInConcatenation(c: Concatenation)
    requires ConcatenationListsUnrepeated(c)
    ensures ConcatenationListFree(ExpandedConcatenation(c))
    decreases c, 1
  {
    NoListLeftInRepetitions(c.repetitions);
  }

  lemma {:induction false} NoListLeftInRepetitions(rs: seq<Repetition>)
    requires forall k :: 0 <= k < |rs| ==> RepetitionListsUnrepeated(rs[k])
    ensures forall r :: r in ExpandedRepetitions(rs) ==> RepetitionListFree(r)
    decreases rs, 0
  {
    if rs != [] {
      NoListLeftInRepetitions(rs[..|rs| - 1]);
      NoListLeftAt(rs[|rs| - 1]);
    }
  }

  lemma {:induction false} NoListLeftAt(r: Repetition)
    requires RepetitionListsUnrepeated(r)
    ensures forall r' :: r' in ExpandedRepetition(r) ==> RepetitionListFree(r')
    decreases r, 1
  {
    NoListLeft(r.element);
    if r.element.List? {
      var e := ExpandedElement(r.element);
      ExpandedListFree(e.min, e.max, e.element);
    }
  }

  /** An expansion holds no list but those of its element. */
  lemma ExpandedListFree(min: nat, max: Bound, e: Element)
    requires ListFree(e)
    ensures forall r :: r in ExpandedList(min, max, e) ==> RepetitionListFree(r)
  {
    var inner := Cat([One(Ref(OWS)), One(e)]);
    assert ConcatenationListFree(inner);
    assert ListFree(OptionalElement(e));
    var tolerant := Cat([One(Ref(OWS)), One(Str(",")), One(OptionalElement(e))]);
    assert ConcatenationListFree(tolerant);
    assert RepetitionListFree(Tolerant(e));
    var separated := Cat([One(Ref(OWS)), One(Str(",")), One(Ref(OWS)), One(e)]);
    assert ConcatenationListFree(separated);
    assert ListFree(SeparatedGroup(e));
    assert ConcatenationListFree(Cat([One(Str(","))])) && ConcatenationListFree(Cat([One(e)]));
    assert ListFree(CommaOr(e));
    assert ConcatenationListFree(Cat([One(CommaOr(e)), Tolerant(e)]));
    assert RepetitionListFree(One(Opt([Cat([One(CommaOr(e)), Tolerant(e)])])));
    var rest := Rep(0, RemainingMaximum(max), SeparatedGroup(e));
    assert ConcatenationListFree(Cat([One(e), rest]));
    assert RepetitionListFree(One(Opt([Cat([One(e), rest])])));
    assert ConcatenationListFree(Cat([One(Str(",")), One(Ref(OWS))]));
    assert RepetitionListFree(Leading());
  }
}
