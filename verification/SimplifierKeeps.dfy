/** What a simplification pass keeps of a tree, so that the next pass may be
    made and its result be written: no range over a surrogate, and a form that
    ABNF can spell. */
module SimplifierKeeps {
  import opened Spans
  import opened Wrappers
  import opened Abnf
  import opened Rewriting
  import opened Simplifier
  import opened SimplifierLanguage
  import opened SimplifierSettles
  import opened TextDerivable

  // ----- no range over a surrogate -----

  predicate AlternativesSurrogateFree(cs: seq<Concatenation>) {
    forall k :: 0 <= k < |cs| ==> ConcatenationSurrogateFree(cs[k])
  }

  predicate RepetitionsSurrogateFree(rs: seq<Repetition>) {
    forall k :: 0 <= k < |rs| ==> RepetitionSurrogateFree(rs[k])
  }

  lemma {:induction false} AlternativesStaySurrogateFree(cs: seq<Concatenation>, t: Transforms)
    requires AlternativesSurrogateFree(cs)
    ensures AlternativesSurrogateFree(SimplifiedAlternatives(cs, t))
    decreases cs, 0
  {
    hide ConcatenationSurrogateFree, SimplifiedConcatenation, SplicedConcatenation;
    if cs != [] {
      var front, last := cs[..|cs| - 1], cs[|cs| - 1];
      AlternativesStaySurrogateFree(front, t);
      ConcatenationStaysSurrogateFree(last, t);
      ContributionSurrogateFree(SimplifiedConcatenation(last, t), t);
    }
  }

  lemma ContributionSurrogateFree(c: Concatenation, t: Transforms)
    requires ConcatenationSurrogateFree(c)
    ensures AlternativesSurrogateFree(SplicedConcatenation(c, t))
  {
    if SoleGroup(c, t).Some? {
      assert RepetitionSurrogateFree(c.repetitions[0]);
      GroupSurrogateFree(SoleGroup(c, t).value);
    }
  }

  lemma GroupSurrogateFree(a: Alternation)
    requires SurrogateFree(Group(a))
    ensures AlternativesSurrogateFree(a.concatenations)
  {
    hide ConcatenationSurrogateFree;
  }

  lemma {:induction false} ConcatenationStaysSurrogateFree(c: Concatenation, t: Transforms)
    requires ConcatenationSurrogateFree(c)
    ensures ConcatenationSurrogateFree(SimplifiedConcatenation(c, t))
    decreases c, 1
  {
    hide RepetitionSurrogateFree;
    RepetitionsStaySurrogateFree(c.repetitions, t);
    JoinedSurrogateFree(SimplifiedRepetitions(c.repetitions, t), t);
  }

  lemma {:induction false} JoinedSurrogateFree(rs: seq<Repetition>, t: Transforms)
    requires RepetitionsSurrogateFree(rs)
    ensures RepetitionsSurrogateFree(JoinedAll(rs, t))
  {
    hide RepetitionSurrogateFree, MergedElement, Refined;
    if rs != [] {
      var front, r := rs[..|rs| - 1], rs[|rs| - 1];
      JoinedSurrogateFree(front, t);
      var merged := JoinedAll(front, t);
      if merged != [] && MergedElement(merged[|merged| - 1].element, r.element).Some? {
        MergedSurrogateFree(merged[|merged| - 1].element, r.element, t);
      }
    }
  }

  lemma MergedSurrogateFree(left: Element, right: Element, t: Transforms)
    requires MergedElement(left, right).Some?
    ensures RepetitionSurrogateFree(One(Refined(MergedElement(left, right).value, t)))
  {
  }

  lemma {:induction false} RepetitionsStaySurrogateFree(rs: seq<Repetition>, t: Transforms)
    requires RepetitionsSurrogateFree(rs)
    ensures RepetitionsSurrogateFree(SimplifiedRepetitions(rs, t))
    decreases rs, 0
  {
    hide RepetitionSurrogateFree, SimplifiedRepetition, SplicedRepetition;
    if rs != [] {
      var front, last := rs[..|rs| - 1], rs[|rs| - 1];
      RepetitionsStaySurrogateFree(front, t);
      RepetitionStaysSurrogateFree(last, t);
    }
  }

  lemma {:induction false} RepetitionStaysSurrogateFree(r: Repetition, t: Transforms)
    requires RepetitionSurrogateFree(r)
    ensures RepetitionsSurrogateFree(SplicedRepetition(SimplifiedRepetition(r, t), t))
    decreases r, 1
  {
    hide SimplifiedElement;
    ElementStaysSurrogateFree(r.element, t);
    var r' := SimplifiedRepetition(r, t);
    if Spliced(r', t) {
      assert SurrogateFree(r'.element) && AlternationSurrogateFree(r'.element.alternation);
      assert ConcatenationSurrogateFree(r'.element.alternation.concatenations[0]);
    }
  }

  lemma {:induction false} ElementStaysSurrogateFree(e: Element, t: Transforms)
    requires SurrogateFree(e)
    ensures SurrogateFree(SimplifiedElement(e, t))
    decreases e, 0
  {
    match e
    case Group(a) =>
      AlternativesStaySurrogateFree(a.concatenations, t);
      var a' := SimplifiedAlternation(a, t);
      if SoleElement(a').Some? {
        assert ConcatenationSurrogateFree(a'.concatenations[0]);
        assert RepetitionSurrogateFree(a'.concatenations[0].repetitions[0]);
      }
    case Optional(a) => AlternativesStaySurrogateFree(a.concatenations, t);
    case _ =>
  }

  /** A pass brings no range over a surrogate with it. */
  lemma StaysSurrogateFree(a: Alternation, t: Transforms)
    requires AlternationSurrogateFree(a)
    ensures AlternationSurrogateFree(SimplifiedAlternation(a, t))
  {
    AlternativesStaySurrogateFree(a.concatenations, t);
  }

  // ----- a form that ABNF can spell -----

  /** A group that comes down to a single list once redundant groups are dropped. */
  predicate HoldsOnlyList(a: Alternation)
    decreases a, 1
  {
    |a.concatenations| == 1 && |a.concatenations[0].repetitions| == 1 && IsOnlyList(a.concatenations[0].repetitions[0])
  }

  predicate IsOnlyList(r: Repetition)
    decreases r, 0
  {
    IsSingle(r) && (r.element.List? || (r.element.Group? && HoldsOnlyList(r.element.alternation)))
  }

  /** What comes down to a list. */
  predicate ComesToList(e: Element) {
    e.List? || (e.Group? && HoldsOnlyList(e.alternation))
  }

  /** No group that holds only a list has a repeat prefix that a list may not
      have: dropping the group would leave the list with it. */
  predicate Fit(e: Element, k: Repeats := NoRepeats)
    decreases e, 0
  {
    match e
    case Group(a) => AlternationFit(a, k)
    case Optional(a) => AlternationFit(a, k)
    case _ => true
  }

  predicate AlternationFit(a: Alternation, k: Repeats := NoRepeats)
    decreases a, 1
  {
    forall i :: 0 <= i < |a.concatenations| ==> ConcatenationFit(a.concatenations[i], k)
  }

  predicate ConcatenationFit(c: Concatenation, k: Repeats := NoRepeats)
    decreases c, 1
  {
    forall i :: 0 <= i < |c.repetitions| ==> RepetitionFit(c.repetitions[i], k)
  }

  predicate RepetitionFit(r: Repetition, k: Repeats := NoRepeats)
    decreases r, 1
  {
    Fit(r.element, k) && (ComesToList(r.element) ==> MayRepeat(r, k))
  }

  predicate AlternativesOk(cs: seq<Concatenation>, t: Transforms, k: Repeats) {
    && (forall i :: 0 <= i < |cs| ==> ConcatenationOk(cs[i], k))
    && (GroupTransform in t ==> forall i :: 0 <= i < |cs| ==> ConcatenationFit(cs[i], k))
  }

  predicate RepetitionsOk(rs: seq<Repetition>, t: Transforms, k: Repeats) {
    && (forall i :: 0 <= i < |rs| ==> RepetitionOk(rs[i], k))
    && (GroupTransform in t ==> forall i :: 0 <= i < |rs| ==> RepetitionFit(rs[i], k))
  }

  predicate LoneList(rs: seq<Repetition>) {
    |rs| == 1 && IsSingle(rs[0]) && rs[0].element.List?
  }

  predicate LoneListIn(cs: seq<Concatenation>) {
    |cs| == 1 && LoneList(cs[0].repetitions)
  }

  // ----- one pass -----

  lemma {:induction false} AlternativesStayOk(cs: seq<Concatenation>, t: Transforms, k: Repeats)
    requires AlternativesOk(cs, t, k)
    ensures AlternativesOk(SimplifiedAlternatives(cs, t), t, k) && |SimplifiedAlternatives(cs, t)| >= |cs|
    ensures GroupTransform in t && LoneListIn(SimplifiedAlternatives(cs, t)) && cs != [] ==>
              HoldsOnlyList(Alternation(cs))
    decreases cs, 0
  {
    hide ConcatenationOk, ConcatenationFit, SimplifiedConcatenation, SplicedConcatenation, LoneList, IsOnlyList;
    if cs != [] {
      var front, last := cs[..|cs| - 1], cs[|cs| - 1];
      AlternativesStayOk(front, t, k);
      ConcatenationStaysOk(last, t, k);
      ConcatenationPass(last, t, false);
      ContributionOk(SimplifiedConcatenation(last, t), t, k);
    }
  }

  lemma ContributionOk(c: Concatenation, t: Transforms, k: Repeats)
    requires AlternativesOk([c], t, k) && ConcatenationTidy(c, t, false)
    ensures AlternativesOk(SplicedConcatenation(c, t), t, k) && |SplicedConcatenation(c, t)| >= 1
    ensures LoneListIn(SplicedConcatenation(c, t)) ==> LoneList(c.repetitions)
  {
    assert ConcatenationOk([c][0], k);
    if SoleGroup(c, t).Some? {
      var a := SoleGroup(c, t).value;
      assert RepetitionTidy(c.repetitions[0], t, false) && RepetitionOk(c.repetitions[0], k);
      assert Tidy(Group(a), t, false) && ElementOk(Group(a), k);
      assert ConcatenationFit([c][0], k) && RepetitionFit(c.repetitions[0], k) && Fit(Group(a), k);
      GroupOk(a, t, k);
    }
  }

  lemma GroupOk(a: Alternation, t: Transforms, k: Repeats)
    requires ElementOk(Group(a), k) && (GroupTransform in t ==> Fit(Group(a), k))
    ensures AlternativesOk(a.concatenations, t, k) && a.concatenations != []
  {
    hide ConcatenationOk, ConcatenationFit;
  }

  lemma {:induction false} ConcatenationStaysOk(c: Concatenation, t: Transforms, k: Repeats)
    requires AlternativesOk([c], t, k)
    ensures AlternativesOk([SimplifiedConcatenation(c, t)], t, k)
    ensures GroupTransform in t && LoneList(SimplifiedConcatenation(c, t).repetitions) ==>
              |c.repetitions| == 1 && IsOnlyList(c.repetitions[0])
    decreases c, 1
  {
    hide RepetitionOk, RepetitionFit, SimplifiedRepetitions, JoinedAll, IsOnlyList;
    var rs := c.repetitions;
    assert ConcatenationOk([c][0], k) && (GroupTransform in t ==> ConcatenationFit([c][0], k));
    RepetitionsStayOk(rs, t, k);
    var rs' := SimplifiedRepetitions(rs, t);
    JoinedOk(rs', t, k);
    SomeJoined(rs', t);
    if LiteralTransform in t && LoneList(JoinedAll(rs', t)) {
      LoneKept(rs', t);
    }
  }

  lemma {:induction false} JoinedOk(rs: seq<Repetition>, t: Transforms, k: Repeats)
    requires RepetitionsOk(rs, t, k)
    ensures RepetitionsOk(JoinedAll(rs, t), t, k)
  {
    hide RepetitionOk, RepetitionFit, MergedElement, Refined;
    if rs != [] {
      var front, r := rs[..|rs| - 1], rs[|rs| - 1];
      JoinedOk(front, t, k);
      var merged := JoinedAll(front, t);
      if merged != [] && MergedElement(merged[|merged| - 1].element, r.element).Some? {
        MergedOk(merged[|merged| - 1], r, t, k);
      }
    }
  }

  lemma MergedOk(left: Repetition, right: Repetition, t: Transforms, k: Repeats)
    requires MergedElement(left.element, right.element).Some? && RepetitionOk(left, k) && RepetitionOk(right, k)
    ensures RepetitionOk(One(Refined(MergedElement(left.element, right.element).value, t)), k)
    ensures RepetitionFit(One(Refined(MergedElement(left.element, right.element).value, t)), k)
  {
    hide SimplifiedNumVal, MergedElement, NumValOk;
    MergedLiteral(left.element, right.element, t, true);
    MergedIsOk(left.element, right.element, k);
    var e := MergedElement(left.element, right.element).value;
    if e.NumVal? {
      NumValStaysOk(e.base, e.status, e.values, k);
    }
  }

  lemma MergedIsOk(left: Element, right: Element, k: Repeats)
    requires MergedElement(left, right).Some? && ElementOk(left, k) && ElementOk(right, k)
    ensures ElementOk(MergedElement(left, right).value, k)
    ensures var e := MergedElement(left, right).value; e.CharVal? || e.NumVal?
  {
    hide NumeralOk, HasLetter, Lower;
    if left.NumVal? {
      SameBase(left.base, right.base);
      forall v | NumeralOk(right.base, v)
        ensures NumeralOk(left.base, v)
      {
        SameNumerals(left.base, right.base, v);
      }
    }
  }

  lemma SameNumerals(left: string, right: string, v: string)
    requires NumeralBase(left) == NumeralBase(right) && NumeralOk(right, v)
    ensures NumeralOk(left, v)
  {
  }

  lemma SameBase(left: string, right: string)
    requires NumeralBase(left).Some? && NumeralBase(right).Some? && Lower(left) == Lower(right)
    ensures NumeralBase(left) == NumeralBase(right)
  {
    assert Lower(left)[0] == LowerChar(left[0]) && Lower(right)[0] == LowerChar(right[0]);
  }

  lemma NumValStaysOk(base: string, status: NumValStatus, values: seq<string>, k: Repeats)
    requires NumValOk(base, status, values)
    ensures ElementOk(SimplifiedNumVal(base, status, values), k)
  {
  }

  lemma {:induction false} RepetitionsStayOk(rs: seq<Repetition>, t: Transforms, k: Repeats)
    requires RepetitionsOk(rs, t, k)
    ensures RepetitionsOk(SimplifiedRepetitions(rs, t), t, k) && |SimplifiedRepetitions(rs, t)| >= |rs|
    ensures GroupTransform in t && LoneList(SimplifiedRepetitions(rs, t)) && rs != [] ==> |rs| == 1 && IsOnlyList(rs[0])
    decreases rs, 0
  {
    hide RepetitionOk, RepetitionFit, SimplifiedRepetition, SplicedRepetition, IsOnlyList;
    if rs != [] {
      var front, last := rs[..|rs| - 1], rs[|rs| - 1];
      RepetitionsStayOk(front, t, k);
      RepetitionStaysOk(last, t, k);
    }
  }

  lemma {:induction false} RepetitionStaysOk(r: Repetition, t: Transforms, k: Repeats)
    requires RepetitionOk(r, k) && (GroupTransform in t ==> RepetitionFit(r, k))
    ensures RepetitionsOk(SplicedRepetition(SimplifiedRepetition(r, t), t), t, k)
    ensures SplicedRepetition(SimplifiedRepetition(r, t), t) != []
    ensures GroupTransform in t && LoneList(SplicedRepetition(SimplifiedRepetition(r, t), t)) ==> IsOnlyList(r)
    decreases r, 1
  {
    hide SimplifiedElement, HoldsOnlyList;
    var r' := SimplifiedRepetition(r, t);
    if r.element.List? {
      ListStays(r.element, t);
    } else {
      ElementStaysOk(r.element, t, k);
      ElementPass(r.element, t, false);
      if r'.element.Group? && GroupTransform in t {
        HoldsMore(r'.element.alternation, t);
      }
      if Spliced(r', t) {
        var a := r'.element.alternation;
        GroupOk(a, t, k);
        assert ConcatenationOk(a.concatenations[0], k);
        assert ConcatenationFit(a.concatenations[0], k);
      } else {
        assert SplicedRepetition(r', t) == [r'];
        assert RepetitionOk(r', k);
        assert GroupTransform in t ==> RepetitionFit(r', k);
      }
    }
  }

  lemma ListStays(e: Element, t: Transforms)
    requires e.List?
    ensures SimplifiedElement(e, t) == e
  {
  }

  /** A group that a pass leaves behind holds more than a list. */
  lemma HoldsMore(a: Alternation, t: Transforms)
    requires GroupTransform in t && Tidy(Group(a), t, false)
    ensures !HoldsOnlyList(a)
  {
  }

  /** What an element becomes, other than a list, keeps its form. */
  lemma {:induction false} ElementStaysOk(e: Element, t: Transforms, k: Repeats)
    requires ElementOk(e, k) && (GroupTransform in t ==> Fit(e, k))
    ensures var e' := SimplifiedElement(e, t);
            if e'.List? then GroupTransform in t && e.Group? && HoldsOnlyList(e.alternation) && ElementOk(e'.element)
            else ElementOk(e', k) && (GroupTransform in t ==> Fit(e', k))
    decreases e, 0
  {
    match e
    case Group(a) =>
      GroupOk(a, t, k);
      AlternativesStayOk(a.concatenations, t, k);
      var a' := SimplifiedAlternation(a, t);
      if GroupTransform in t && SoleElement(a').Some? {
        var r := a'.concatenations[0].repetitions[0];
        assert ConcatenationOk(a'.concatenations[0], k) && ConcatenationFit(a'.concatenations[0], k);
        assert RepetitionOk(r, k) && RepetitionFit(r, k);
      }
    case Optional(a) =>
      OptionOk(a, t, k);
      AlternativesStayOk(a.concatenations, t, k);
    case NumVal(base, status, values) =>
      NumValStaysOk(base, status, values, k);
    case _ =>
  }

  lemma OptionOk(a: Alternation, t: Transforms, k: Repeats)
    requires ElementOk(Optional(a), k) && (GroupTransform in t ==> Fit(Optional(a), k))
    ensures AlternativesOk(a.concatenations, t, k) && a.concatenations != []
  {
    hide ConcatenationOk, ConcatenationFit;
  }

  // ----- where a repeated list comes from -----

  /** Somewhere a list has a repeat prefix that it may not have. */
  predicate RepeatsList(e: Element, k: Repeats)
    decreases e, 0
  {
    (e.Group? || e.Optional?) && AlternativesRepeatList(e.alternation.concatenations, k)
  }

  predicate AlternativesRepeatList(cs: seq<Concatenation>, k: Repeats)
    decreases cs, 0
  {
    exists i :: 0 <= i < |cs| && RepetitionsRepeatList(cs[i].repetitions, k)
  }

  predicate RepetitionsRepeatList(rs: seq<Repetition>, k: Repeats)
    decreases rs, 0
  {
    exists i :: 0 <= i < |rs| && RepetitionRepeatsList(rs[i], k)
  }

  predicate RepetitionRepeatsList(r: Repetition, k: Repeats)
    decreases r, 1
  {
    (r.element.List? && !MayRepeat(r, k)) || RepeatsList(r.element, k)
  }

  lemma {:induction false} RepeatedListIsNotOk(a: Alternation, k: Repeats)
    requires AlternativesRepeatList(a.concatenations, k)
    ensures !AlternationOk(a, k) && !AlternationFit(a, k)
    decreases a
  {
    var i :| 0 <= i < |a.concatenations| && RepetitionsRepeatList(a.concatenations[i].repetitions, k);
    var c := a.concatenations[i];
    var j :| 0 <= j < |c.repetitions| && RepetitionRepeatsList(c.repetitions[j], k);
    var r := c.repetitions[j];
    if RepeatsList(r.element, k) {
      RepeatedListIsNotOk(r.element.alternation, k);
      assert !ElementOk(r.element, k) && !Fit(r.element, k);
    }
    assert !RepetitionOk(r, k) && !RepetitionFit(r, k);
    assert !ConcatenationOk(c, k) && !ConcatenationFit(c, k);
  }

  lemma AppendedAlternatives(xs: seq<Concatenation>, ys: seq<Concatenation>, k: Repeats)
    requires AlternativesRepeatList(xs, k) || AlternativesRepeatList(ys, k)
    ensures AlternativesRepeatList(xs + ys, k)
  {
    hide RepetitionsRepeatList;
    if i :| 0 <= i < |xs| && RepetitionsRepeatList(xs[i].repetitions, k) {
      assert (xs + ys)[i] == xs[i];
    } else {
      var i :| 0 <= i < |ys| && RepetitionsRepeatList(ys[i].repetitions, k);
      assert (xs + ys)[|xs| + i] == ys[i];
    }
  }

  lemma AppendedRepetitions(xs: seq<Repetition>, ys: seq<Repetition>, k: Repeats)
    requires RepetitionsRepeatList(xs, k) || RepetitionsRepeatList(ys, k)
    ensures RepetitionsRepeatList(xs + ys, k)
  {
    hide RepetitionRepeatsList;
    if i :| 0 <= i < |xs| && RepetitionRepeatsList(xs[i], k) {
      assert (xs + ys)[i] == xs[i];
    } else {
      var i :| 0 <= i < |ys| && RepetitionRepeatsList(ys[i], k);
      assert (xs + ys)[|xs| + i] == ys[i];
    }
  }

  /** A group that holds only a list is replaced by that list. */
  lemma {:induction false} OnlyListComesOut(a: Alternation, t: Transforms)
    requires GroupTransform in t && HoldsOnlyList(a)
    ensures SoleElement(SimplifiedAlternation(a, t)).Some? && SoleElement(SimplifiedAlternation(a, t)).value.List?
    decreases a
  {
    hide SimplifiedAlternatives, SimplifiedRepetitions, JoinedAll;
    var c := a.concatenations[0];
    var r := c.repetitions[0];
    assert a.concatenations == [c] && c.repetitions == [r];
    OneSimplified(c, r, t);
    if r.element.Group? {
      OnlyListComesOut(r.element.alternation, t);
    } else {
      ListStays(r.element, t);
    }
    var r' := SimplifiedRepetition(r, t);
    assert IsSingle(r') && r'.element.List?;
    OneJoined(r', t);
  }

  lemma OnlyListReplaces(e: Element, t: Transforms)
    requires GroupTransform in t && e.Group? && HoldsOnlyList(e.alternation)
    ensures SimplifiedElement(e, t).List?
  {
    hide HoldsOnlyList, SimplifiedAlternatives;
    OnlyListComesOut(e.alternation, t);
  }

  lemma OneJoined(r: Repetition, t: Transforms)
    ensures JoinedAll([r], t) == [r]
  {
    assert [r][..0] == [] && JoinedAll([], t) == [];
  }

  lemma {:induction false} AlternativesUnfit(cs: seq<Concatenation>, t: Transforms, k: Repeats)
    requires GroupTransform in t && exists i :: 0 <= i < |cs| && !ConcatenationFit(cs[i], k)
    ensures AlternativesRepeatList(SimplifiedAlternatives(cs, t), k)
    decreases cs, 0
  {
    hide ConcatenationFit, RepetitionsRepeatList, SimplifiedConcatenation, SplicedConcatenation;
    var front, last := cs[..|cs| - 1], cs[|cs| - 1];
    if !ConcatenationFit(last, k) {
      ConcatenationUnfit(last, t, k);
      RepeatedInContribution(SimplifiedConcatenation(last, t), t, k);
    } else {
      var i :| 0 <= i < |cs| && !ConcatenationFit(cs[i], k);
      assert front[i] == cs[i];
      AlternativesUnfit(front, t, k);
    }
    AppendedAlternatives(SimplifiedAlternatives(front, t), SplicedConcatenation(SimplifiedConcatenation(last, t), t),
                         k);
  }

  lemma RepeatedInContribution(c: Concatenation, t: Transforms, k: Repeats)
    requires RepetitionsRepeatList(c.repetitions, k)
    ensures AlternativesRepeatList(SplicedConcatenation(c, t), k)
  {
    if SoleGroup(c, t) == None {
      assert RepetitionsRepeatList([c][0].repetitions, k);
    } else {
      assert RepetitionRepeatsList(c.repetitions[0], k) && RepeatsList(c.repetitions[0].element, k);
    }
  }

  lemma {:induction false} ConcatenationUnfit(c: Concatenation, t: Transforms, k: Repeats)
    requires GroupTransform in t && !ConcatenationFit(c, k)
    ensures RepetitionsRepeatList(SimplifiedConcatenation(c, t).repetitions, k)
    decreases c, 1
  {
    hide RepetitionFit, RepetitionsRepeatList;
    RepetitionsUnfit(c.repetitions, t, k);
    RepeatedStays(SimplifiedRepetitions(c.repetitions, t), t, k);
  }

  /** Joining literals leaves a repeated list in its place. */
  lemma {:induction false} RepeatedStays(rs: seq<Repetition>, t: Transforms, k: Repeats)
    requires RepetitionsRepeatList(rs, k)
    ensures RepetitionsRepeatList(JoinedAll(rs, t), k)
  {
    hide RepetitionRepeatsList, MergedElement, Refined;
    var front, r := rs[..|rs| - 1], rs[|rs| - 1];
    var merged := JoinedAll(front, t);
    var i :| 0 <= i < |rs| && RepetitionRepeatsList(rs[i], k);
    if i < |front| {
      assert front[i] == rs[i];
      RepeatedStays(front, t, k);
    }
    StaysRepeated(merged, r, t, k);
  }

  lemma StaysRepeated(merged: seq<Repetition>, r: Repetition, t: Transforms, k: Repeats)
    requires RepetitionsRepeatList(merged, k) || RepetitionRepeatsList(r, k)
    ensures RepetitionsRepeatList(Joined(merged, r, t), k)
  {
    hide RepetitionRepeatsList, MergedElement, Refined;
    if merged != [] && MergedElement(merged[|merged| - 1].element, r.element).Some? {
      var front, last := merged[..|merged| - 1], merged[|merged| - 1];
      MergedLiteral(last.element, r.element, t, true);
      LiteralRepeatsNothing(last, k);
      LiteralRepeatsNothing(r, k);
      var i :| 0 <= i < |merged| && RepetitionRepeatsList(merged[i], k);
      assert front[i] == merged[i];
      AppendedRepetitions(front, [One(Refined(MergedElement(last.element, r.element).value, t))], k);
      AppendedRepetitions(merged, [r], k);
    } else {
      assert RepetitionRepeatsList(r, k) ==> RepetitionRepeatsList([r][0], k);
      AppendedRepetitions(merged, [r], k);
    }
  }

  lemma LiteralRepeatsNothing(r: Repetition, k: Repeats)
    requires r.element.CharVal? || r.element.NumVal?
    ensures !RepetitionRepeatsList(r, k)
  {
  }

  lemma {:induction false} RepetitionsUnfit(rs: seq<Repetition>, t: Transforms, k: Repeats)
    requires GroupTransform in t && exists i :: 0 <= i < |rs| && !RepetitionFit(rs[i], k)
    ensures RepetitionsRepeatList(SimplifiedRepetitions(rs, t), k)
    decreases rs, 0
  {
    hide RepetitionFit, RepetitionRepeatsList, SimplifiedRepetition, SplicedRepetition;
    var front, last := rs[..|rs| - 1], rs[|rs| - 1];
    if !RepetitionFit(last, k) {
      RepetitionUnfit(last, t, k);
    } else {
      var i :| 0 <= i < |rs| && !RepetitionFit(rs[i], k);
      assert front[i] == rs[i];
      RepetitionsUnfit(front, t, k);
    }
    AppendedRepetitions(SimplifiedRepetitions(front, t), SplicedRepetition(SimplifiedRepetition(last, t), t), k);
  }

  lemma {:induction false} RepetitionUnfit(r: Repetition, t: Transforms, k: Repeats)
    requires GroupTransform in t && !RepetitionFit(r, k)
    ensures RepetitionsRepeatList(SplicedRepetition(SimplifiedRepetition(r, t), t), k)
    decreases r, 1
  {
    hide HoldsOnlyList, SimplifiedElement;
    var r' := SimplifiedRepetition(r, t);
    if !Fit(r.element, k) {
      ElementUnfit(r.element, t, k);
      assert RepeatsList(r'.element, k);
    } else {
      if r.element.List? {
        ListStays(r.element, t);
      } else {
        OnlyListReplaces(r.element, t);
      }
    }
    assert RepetitionRepeatsList(r', k);
    if Spliced(r', t) {
      assert RepeatsList(r'.element, k);
    } else {
      assert RepetitionRepeatsList([r'][0], k);
    }
  }

  lemma {:induction false} ElementUnfit(e: Element, t: Transforms, k: Repeats)
    requires GroupTransform in t && !Fit(e, k)
    ensures RepeatsList(SimplifiedElement(e, t), k)
    decreases e, 0
  {
    AlternativesUnfit(e.alternation.concatenations, t, k);
    var a' := SimplifiedAlternation(e.alternation, t);
    if e.Group? && SoleElement(a').Some? {
      assert RepetitionsRepeatList(a'.concatenations[0].repetitions, k);
      assert RepetitionRepeatsList(a'.concatenations[0].repetitions[0], k);
    }
  }

  // ----- whole trees -----

  /** Apart from repeated lists, what may be repeated makes no difference. */
  lemma {:induction false} UnrepeatedIsOk(a: Alternation, k: Repeats)
    requires AlternationOk(a, AnyCounts) && !AlternativesRepeatList(a.concatenations, k)
    ensures AlternationOk(a, k)
    decreases a, 1
  {
    forall i | 0 <= i < |a.concatenations|
      ensures ConcatenationOk(a.concatenations[i], k)
    {
      assert ConcatenationOk(a.concatenations[i], AnyCounts);
      assert !RepetitionsRepeatList(a.concatenations[i].repetitions, k);
      UnrepeatedConcatenationIsOk(a.concatenations[i], k);
    }
  }

  lemma {:induction false} UnrepeatedConcatenationIsOk(c: Concatenation, k: Repeats)
    requires ConcatenationOk(c, AnyCounts) && !RepetitionsRepeatList(c.repetitions, k)
    ensures ConcatenationOk(c, k)
    decreases c, 1
  {
    forall i | 0 <= i < |c.repetitions|
      ensures RepetitionOk(c.repetitions[i], k)
    {
      var r := c.repetitions[i];
      assert RepetitionOk(r, AnyCounts) && !RepetitionRepeatsList(r, k);
      if !r.element.List? {
        UnrepeatedElementIsOk(r.element, k);
      }
    }
  }

  lemma {:induction false} UnrepeatedElementIsOk(e: Element, k: Repeats)
    requires ElementOk(e, AnyCounts) && !RepeatsList(e, k)
    ensures ElementOk(e, k)
    decreases e, 0
  {
    if e.Group? || e.Optional? {
      UnrepeatedIsOk(e.alternation, k);
    }
  }

  /** A tree that fits and is otherwise well-formed is well-formed. */
  lemma FitIsOk(a: Alternation, k: Repeats)
    requires AlternationOk(a, AnyCounts) && AlternationFit(a, k)
    ensures AlternationOk(a, k)
  {
    if AlternativesRepeatList(a.concatenations, k) {
      RepeatedListIsNotOk(a, k);
    }
    UnrepeatedIsOk(a, k);
  }

  lemma {:induction false} AnyFits(a: Alternation)
    ensures AlternationFit(a, AnyCounts)
    decreases a
  {
    forall i, j | 0 <= i < |a.concatenations| && 0 <= j < |a.concatenations[i].repetitions|
      ensures RepetitionFit(a.concatenations[i].repetitions[j], AnyCounts)
    {
      var e := a.concatenations[i].repetitions[j].element;
      if e.Group? || e.Optional? {
        AnyFits(e.alternation);
      }
    }
  }

  lemma FitStays(a: Alternation, t: Transforms, k: Repeats)
    requires AlternationOk(a, AnyCounts) && GroupTransform in t && AlternationFit(a, k)
    ensures AlternationOk(SimplifiedAlternation(a, t), k) && AlternationFit(SimplifiedAlternation(a, t), k)
  {
    hide ConcatenationOk, ConcatenationFit, SimplifiedAlternatives;
    FitIsOk(a, k);
    AlternativesStayOk(a.concatenations, t, k);
  }

  /** A pass over a tree of any well-formed kind leaves one; it leaves a list
      with a prefix that a list may not have exactly where a group that holds
      only a list had it. What a pass leaves fits if and only if the tree did,
      so a further pass makes no difference. */
  lemma StaysOkIff(a: Alternation, t: Transforms, k: Repeats)
    requires AlternationOk(a, AnyCounts) && GroupTransform in t
    ensures AlternationOk(SimplifiedAlternation(a, t), AnyCounts)
    ensures AlternationOk(SimplifiedAlternation(a, t), k) <==> AlternationFit(a, k)
    ensures AlternationFit(SimplifiedAlternation(a, t), k) <==> AlternationFit(a, k)
  {
    hide ConcatenationOk, ConcatenationFit, SimplifiedAlternatives;
    AnyFits(a);
    FitStays(a, t, AnyCounts);
    if AlternationFit(a, k) {
      FitStays(a, t, k);
    } else {
      AlternativesUnfit(a.concatenations, t, k);
      RepeatedListIsNotOk(SimplifiedAlternation(a, t), k);
    }
  }

  /** A pass that leaves groups alone keeps a well-formed tree well-formed. */
  lemma StaysOkWithoutGroups(a: Alternation, t: Transforms, k: Repeats)
    requires AlternationOk(a, k) && GroupTransform !in t
    ensures AlternationOk(SimplifiedAlternation(a, t), k)
  {
    hide ConcatenationOk, ConcatenationFit, SimplifiedAlternatives;
    AlternativesStayOk(a.concatenations, t, k);
  }
}
