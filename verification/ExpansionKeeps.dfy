/** What expanding lists keeps of a tree: a form that ABNF can spell, and no
    range over a surrogate. */
module ExpansionKeeps {
  import opened Spans
  import opened Wrappers
  import opened Abnf
  import opened Lists
  import opened ListExpansion
  import opened SimplifierLanguage
  import opened SimplifierKeeps
  import opened TextDerivable

  /** No range over a single surrogate anywhere, list elements included. */
  predicate NoSurrogates(e: Element)
    decreases e, 0
  {
    match e
    case Group(a) => AlternationNoSurrogates(a)
    case Optional(a) => AlternationNoSurrogates(a)
    case NumVal(_, _, _) => !IsSurrogateRange(e)
    case List(_, _, element, _) => NoSurrogates(element)
    case _ => true
  }

  predicate AlternationNoSurrogates(a: Alternation)
    decreases a, 1
  {
    forall k :: 0 <= k < |a.concatenations| ==> ConcatenationNoSurrogates(a.concatenations[k])
  }

  predicate ConcatenationNoSurrogates(c: Concatenation)
    decreases c, 1
  {
    forall k :: 0 <= k < |c.repetitions| ==> RepetitionNoSurrogates(c.repetitions[k])
  }

  predicate RepetitionNoSurrogates(r: Repetition)
    decreases r, 1
  {
    NoSurrogates(r.element)
  }

  /** Plain repetitions: what can be spelled, without lists or ranges over a surrogate. */
  predicate Plain(r: Repetition, ok: bool, free: bool) {
    (ok ==> RepetitionOk(r)) && (free ==> RepetitionSurrogateFree(r))
  }

  predicate AllPlain(rs: seq<Repetition>, ok: bool, free: bool) {
    forall k :: 0 <= k < |rs| ==> Plain(rs[k], ok, free)
  }

  predicate AlternativesPlain(cs: seq<Concatenation>, ok: bool, free: bool) {
    forall k :: 0 <= k < |cs| ==> (ok ==> ConcatenationOk(cs[k])) && (free ==> ConcatenationSurrogateFree(cs[k]))
  }

  lemma {:induction false} AlternativesStayPlain(cs: seq<Concatenation>, ok: bool, free: bool)
    requires ok ==> forall k :: 0 <= k < |cs| ==> ConcatenationOk(cs[k])
    requires free ==> forall k :: 0 <= k < |cs| ==> ConcatenationNoSurrogates(cs[k])
    ensures AlternativesPlain(ExpandedAlternatives(cs), ok, free)
    decreases cs, 0
  {
    hide ConcatenationOk, ConcatenationNoSurrogates, ConcatenationSurrogateFree, ExpandedConcatenation;
    if cs != [] {
      AlternativesStayPlain(cs[..|cs| - 1], ok, free);
      ConcatenationStaysPlain(cs[|cs| - 1], ok, free);
    }
  }

  lemma {:induction false} ConcatenationStaysPlain(c: Concatenation, ok: bool, free: bool)
    requires (ok ==> ConcatenationOk(c)) && (free ==> ConcatenationNoSurrogates(c))
    ensures ok ==> ConcatenationOk(ExpandedConcatenation(c))
    ensures free ==> ConcatenationSurrogateFree(ExpandedConcatenation(c))
    decreases c, 1
  {
    hide RepetitionOk, RepetitionNoSurrogates, RepetitionSurrogateFree, ExpandedRepetitions;
    RepetitionsStayPlain(c.repetitions, ok, free);
  }

  lemma {:induction false} RepetitionsStayPlain(rs: seq<Repetition>, ok: bool, free: bool)
    requires ok ==> forall k :: 0 <= k < |rs| ==> RepetitionOk(rs[k])
    requires free ==> forall k :: 0 <= k < |rs| ==> RepetitionNoSurrogates(rs[k])
    ensures AllPlain(ExpandedRepetitions(rs), ok, free) && |ExpandedRepetitions(rs)| >= |rs|
    decreases rs, 0
  {
    hide RepetitionOk, RepetitionNoSurrogates, RepetitionSurrogateFree, ExpandedRepetition;
    if rs != [] {
      RepetitionsStayPlain(rs[..|rs| - 1], ok, free);
      RepetitionStaysPlain(rs[|rs| - 1], ok, free);
    }
  }

  lemma {:induction false} RepetitionStaysPlain(r: Repetition, ok: bool, free: bool)
    requires (ok ==> RepetitionOk(r)) && (free ==> RepetitionNoSurrogates(r))
    ensures AllPlain(ExpandedRepetition(r), ok, free) && ExpandedRepetition(r) != []
    decreases r, 1
  {
    hide ExpandedList;
    if r.element.List? {
      ElementStaysPlain(r.element.element, ok, free);
      var e := ExpandedElement(r.element.element);
      ExpandedListPlain(r.element.min, r.element.max, e, ok, free);
      if IsSingle(r) {
        assert ExpandedRepetition(r) == ExpandedList(r.element.min, r.element.max, e);
      } else {
        ListHasNoSurrogates(ExpandedElement(r.element));
        assert ExpandedRepetition(r) == [Repetition(r.min, r.max, ExpandedElement(r.element))];
      }
    } else {
      ElementStaysPlain(r.element, ok, free);
    }
  }

  lemma ListHasNoSurrogates(e: Element)
    requires e.List?
    ensures SurrogateFree(e)
  {
  }

  lemma {:induction false} ElementStaysPlain(e: Element, ok: bool, free: bool)
    requires (ok ==> ElementOk(e)) && (free ==> NoSurrogates(e))
    ensures ok ==> ElementOk(ExpandedElement(e))
    ensures free ==> SurrogateFree(ExpandedElement(e))
    decreases e, 0
  {
    if e.Group? || e.Optional? {
      var a := e.alternation;
      assert ok ==> AlternationOk(a);
      assert free ==> AlternationNoSurrogates(a);
      AlternativesStayPlain(a.concatenations, ok, free);
      assert ok ==> AlternationOk(ExpandedAlternation(a));
      assert free ==> AlternationSurrogateFree(ExpandedAlternation(a));
    }
  }

  // ----- the expansion of one list -----

  lemma PlainCat(rs: seq<Repetition>, ok: bool, free: bool)
    requires AllPlain(rs, ok, free) && rs != []
    ensures AlternativesPlain([Cat(rs)], ok, free)
  {
    hide RepetitionOk, RepetitionSurrogateFree;
  }

  lemma PlainGroup(min: nat, max: Bound, cs: seq<Concatenation>, ok: bool, free: bool)
    requires AlternativesPlain(cs, ok, free) && cs != []
    ensures Plain(Rep(min, max, Grp(cs)), ok, free) && Plain(Rep(min, max, Opt(cs)), ok, free)
  {
    hide ConcatenationOk, ConcatenationSurrogateFree;
    var a := Alternation(cs);
    assert (ok ==> AlternationOk(a)) && (free ==> AlternationSurrogateFree(a));
    assert (ok ==> ElementOk(Group(a))) && (free ==> SurrogateFree(Group(a)));
    assert (ok ==> ElementOk(Optional(a))) && (free ==> SurrogateFree(Optional(a)));
  }

  lemma PlainLeaves(ok: bool, free: bool)
    ensures Plain(One(Ref(OWS)), ok, free) && Plain(One(Str(",")), ok, free)
  {
  }

  lemma ExpandedListPlain(min: nat, max: Bound, e: Element, ok: bool, free: bool)
    requires (ok ==> ElementOk(e)) && (free ==> SurrogateFree(e))
    ensures AllPlain(ExpandedList(min, max, e), ok, free) && ExpandedList(min, max, e) != []
  {
    hide Plain;
    PlainLeaves(ok, free);
    PlainElement(e, ok, free);
    TolerantPlain(e, ok, free);
    SeparatedPlain(max, min, e, ok, free);
    if min == 0 && max == INF {
      CommaOrPlain(e, ok, free);
      PlainCat([One(CommaOr(e)), Tolerant(e)], ok, free);
      PlainGroup(1, 1, [Cat([One(CommaOr(e)), Tolerant(e)])], ok, free);
    } else if min == 1 && max == INF {
      PlainCat([One(Str(",")), One(Ref(OWS))], ok, free);
      PlainGroup(0, INF, [Cat([One(Str(",")), One(Ref(OWS))])], ok, free);
    } else if min == 0 {
      var rest := Rep(0, RemainingMaximum(max), SeparatedGroup(e));
      PlainCat([One(e), rest], ok, free);
      PlainGroup(1, 1, [Cat([One(e), rest])], ok, free);
    }
  }

  lemma PlainElement(e: Element, ok: bool, free: bool)
    requires (ok ==> ElementOk(e)) && (free ==> SurrogateFree(e))
    ensures Plain(One(e), ok, free)
  {
  }

  lemma TolerantPlain(e: Element, ok: bool, free: bool)
    requires Plain(One(e), ok, free)
    ensures Plain(Tolerant(e), ok, free)
  {
    hide Plain;
    PlainLeaves(ok, free);
    PlainCat([One(Ref(OWS)), One(e)], ok, free);
    PlainGroup(1, 1, [Cat([One(Ref(OWS)), One(e)])], ok, free);
    PlainCat([One(Ref(OWS)), One(Str(",")), One(OptionalElement(e))], ok, free);
    PlainGroup(0, INF, [Cat([One(Ref(OWS)), One(Str(",")), One(OptionalElement(e))])], ok, free);
  }

  lemma SeparatedPlain(max: Bound, min: nat, e: Element, ok: bool, free: bool)
    requires Plain(One(e), ok, free)
    ensures Plain(Rep(0, RemainingMaximum(max), SeparatedGroup(e)), ok, free)
    ensures min > 0 ==> Plain(Rep(min - 1, RemainingMaximum(max), SeparatedGroup(e)), ok, free)
  {
    hide Plain;
    PlainLeaves(ok, free);
    var cs := [Cat([One(Ref(OWS)), One(Str(",")), One(Ref(OWS)), One(e)])];
    PlainCat(cs[0].repetitions, ok, free);
    PlainGroup(0, RemainingMaximum(max), cs, ok, free);
    if min > 0 {
      PlainGroup(min - 1, RemainingMaximum(max), cs, ok, free);
    }
  }

  lemma CommaOrPlain(e: Element, ok: bool, free: bool)
    requires Plain(One(e), ok, free)
    ensures Plain(One(CommaOr(e)), ok, free)
  {
    hide Plain, ConcatenationOk, ConcatenationSurrogateFree;
    PlainLeaves(ok, free);
    PlainCat([One(Str(","))], ok, free);
    PlainCat([One(e)], ok, free);
    var comma, element := Cat([One(Str(","))]), Cat([One(e)]);
    assert [comma][0] == comma && [element][0] == element;
    PlainGroup(1, 1, [comma, element], ok, free);
  }

  // ----- lists -----

  /** In a tree that ABNF can spell, a list is not repeated and lists no list. */
  lemma {:induction false} ListsStandAlone(a: Alternation)
    requires AlternationOk(a)
    ensures AlternationListsUnrepeated(a)
    decreases a, 1
  {
    forall i, k | 0 <= i < |a.concatenations| && 0 <= k < |a.concatenations[i].repetitions|
      ensures RepetitionListsUnrepeated(a.concatenations[i].repetitions[k])
    {
      assert ConcatenationOk(a.concatenations[i]);
      assert RepetitionOk(a.concatenations[i].repetitions[k]);
      var e := a.concatenations[i].repetitions[k].element;
      ElementListsStandAlone(if e.List? then e.element else e);
    }
  }

  lemma {:induction false} ElementListsStandAlone(e: Element)
    requires ElementOk(e)
    ensures ListsUnrepeated(e)
    decreases e, 0
  {
    if e.Group? || e.Optional? {
      assert AlternationOk(e.alternation);
      ListsStandAlone(e.alternation);
    }
  }

  lemma {:induction false} NoListNoneRepeated(a: Alternation, k: Repeats)
    requires AlternationListFree(a)
    ensures AlternationFit(a, k) && !HoldsOnlyList(a)
    decreases a, 1
  {
    forall i, j | 0 <= i < |a.concatenations| && 0 <= j < |a.concatenations[i].repetitions|
      ensures RepetitionFit(a.concatenations[i].repetitions[j], k) && !IsOnlyList(a.concatenations[i].repetitions[j])
    {
      assert ConcatenationListFree(a.concatenations[i]);
      var r := a.concatenations[i].repetitions[j];
      assert RepetitionListFree(r) && ListFree(r.element);
      if r.element.Group? || r.element.Optional? {
        assert AlternationListFree(r.element.alternation);
        NoListNoneRepeated(r.element.alternation, k);
      }
    }
  }

  // ----- whole trees -----

  /** Expansion leaves a form that ABNF can spell, with no list in it, and brings no range over a surrogate with it. */
  lemma ExpansionStaysPlain(a: Alternation, k: Repeats)
    ensures AlternationOk(a) ==> AlternationOk(ExpandedAlternation(a)) && AlternationFit(ExpandedAlternation(a), k)
    ensures AlternationNoSurrogates(a) ==> AlternationSurrogateFree(ExpandedAlternation(a))
  {
    if AlternationOk(a) {
      AlternativesStayPlain(a.concatenations, true, false);
      ListsStandAlone(a);
      NoListLeftInAlternation(a);
      NoListNoneRepeated(ExpandedAlternation(a), k);
    }
    if AlternationNoSurrogates(a) {
      AlternativesStayPlain(a.concatenations, false, true);
    }
  }
}
