/** The simplifier of pkg/abnf/minify/simplify.go, overwriting the nodes of a
    tree in place. Each method is given the shape of the tree it is called on
    and gives back the shape it leaves. */
module SimplifyInPlace {
  import opened Spans
  import opened Wrappers
  import opened Abnf
  import opened Rewriting
  import opened Simplifier
  import opened TreeNodes

  predicate IsSingleNode(r: RepetitionNode) {
    r.min == 1 && r.max == 1
  }

  // ----- nodes and what they stand for -----

  /** A concatenation that holds nothing but an unrepeated group. */
  predicate HoldsSoleGroup(c: ConcatenationNode, t: Transforms)
    reads c, c.repetitions
  {
    GroupTransform in t && |c.repetitions| == 1 && IsSingleNode(c.repetitions[0]) && c.repetitions[0].element.GroupItem?
  }

  /** Its shape, and what it contributes to its alternation. */
  lemma SoleGroupShape(c: CatShape, t: Transforms)
    requires CatGood(c)
    ensures HoldsSoleGroup(c.node, t) <==> SoleGroup(CatValue(c), t).Some?
    ensures HoldsSoleGroup(c.node, t) ==>
              |c.kids| == 1 && c.kids[0].item.GroupShape?
              && var g := c.kids[0].item.alternation;
                 && AltGood(g) && AltNodes(g) <= CatNodes(c) && c.node.repetitions[0].element == GroupItem(g.node)
                 && SplicedConcatenation(CatValue(c), t) == CatsValue(g.kids)
    ensures !HoldsSoleGroup(c.node, t) ==> SplicedConcatenation(CatValue(c), t) == [CatValue(c)]
  {
    if |c.kids| == 1 {
      var r := c.kids[0];
      OneRep(r);
      assert c.kids == [r];
      assert RepGood(r) && ItemGood(r.item) && RepsValue(c.kids) == [RepValue(r)];
      if r.item.GroupShape? {
        var g := r.item.alternation;
        assert AltGood(g) && RepValue(r).element == Group(AltValue(g)) &&
               AltValue(g).concatenations == CatsValue(g.kids);
      }
    }
  }

  /** A repetition that is an unrepeated group of one alternative. */
  predicate HoldsSoleAlternative(r: RepetitionNode, t: Transforms)
    reads r, if r.element.GroupItem? then {r.element.group} else {}
  {
    IsSingleNode(r) && GroupTransform in t && r.element.GroupItem? && |r.element.group.concatenations| == 1
  }

  lemma SoleAlternativeShape(r: RepShape, t: Transforms)
    requires RepGood(r)
    ensures HoldsSoleAlternative(r.node, t) ==>
              r.item.GroupShape? && |r.item.alternation.kids| == 1
              && var c := r.item.alternation.kids[0];
                 && CatGood(c) && CatNodes(c) <= RepNodes(r) && r.node.element.group.concatenations == [c.node]
                 && SplicedRepetition(RepValue(r), t) == RepsValue(c.kids)
    ensures !HoldsSoleAlternative(r.node, t) ==> SplicedRepetition(RepValue(r), t) == [RepValue(r)]
  {
    if r.item.GroupShape? {
      var a := r.item.alternation;
      assert ItemGood(r.item) && AltGood(a) && ItemNodes(r.item) == AltNodes(a);
      assert RepValue(r).element == Group(AltValue(a)) && AltValue(a).concatenations == CatsValue(a.kids);
      if |a.kids| == 1 {
        OneCat(a.kids[0]);
        assert a.kids == [a.kids[0]];
      }
    }
  }

  /** An alternation that holds nothing but a single unrepeated element. */
  predicate HoldsSoleElement(a: AlternationNode)
    reads a, a.concatenations, if |a.concatenations| == 1 then a.concatenations[0].repetitions else []
  {
    |a.concatenations| == 1 && |a.concatenations[0].repetitions| == 1 &&
      IsSingleNode(a.concatenations[0].repetitions[0])
  }

  lemma SoleElementShape(a: AltShape)
    requires AltGood(a)
    ensures HoldsSoleElement(a.node) <==> SoleElement(AltValue(a)).Some?
    ensures HoldsSoleElement(a.node) ==>
              |a.kids| == 1 && |a.kids[0].kids| == 1
              && var r := a.kids[0].kids[0];
                 && RepGood(r) && RepNodes(r) <= AltNodes(a) && a.node.concatenations[0].repetitions[0] == r.node
                 && SoleElement(AltValue(a)) == Some(ItemValue(r.item))
  {
    if |a.kids| == 1 {
      var c := a.kids[0];
      OneCat(c);
      assert a.kids == [c];
      if |c.kids| == 1 {
        OneRep(c.kids[0]);
        assert c.kids == [c.kids[0]];
      }
    }
  }

  // ----- literals -----

  /** The element that two elements can be joined in, if they are literals that can be. */
  function MergedItem(left: Item, right: Item): Option<Element> {
    if left.Leaf? && right.Leaf? then MergedElement(left.e, right.e) else None
  }

  lemma MergedItemIs(left: RepShape, right: RepShape)
    requires RepGood(left) && RepGood(right)
    ensures MergedItem(left.node.element, right.node.element)
            == MergedElement(ItemValue(left.item), ItemValue(right.item))
    ensures MergedItem(left.node.element, right.node.element).Some? ==>
              var e := MergedItem(left.node.element, right.node.element).value; e.CharVal? || e.NumVal?
  {
  }

  lemma RefinedIsLeaf(e: Element, t: Transforms)
    requires e.CharVal? || e.NumVal?
    ensures !Refined(e, t).Group? && !Refined(e, t).Optional?
  {
  }

  /** A list of repetitions and its last. */
  lemma LastRep(ms: seq<RepShape>)
    requires ms != [] && RepsGood(ms)
    ensures var front, last := ms[..|ms| - 1], ms[|ms| - 1];
            && RepsGood(front) && RepGood(last) && RepsNodes(front) !! RepNodes(last)
            && RepsNodes(ms) == RepsNodes(front) + RepNodes(last)
            && RepsValue(ms) == RepsValue(front) + [RepValue(last)]
  {
    hide RepNodes, RepGood, RepValue;
  }

  /** One step: the next repetition joins the last one, or follows it. */
  method JoinNext(merged: seq<RepetitionNode>, repetition: RepetitionNode, t: Transforms, ghost ms: seq<RepShape>,
                  ghost r: RepShape)
    returns (next: seq<RepetitionNode>, ghost ns: seq<RepShape>)
    requires RepsGood(ms) && merged == RepRefs(ms) && RepGood(r) && repetition == r.node && RepsNodes(ms) !! RepNodes(r)
    ensures RepsGood(ns) && next == RepRefs(ns) && fresh(RepsNodes(ns) - RepsNodes(ms) - RepNodes(r))
    ensures RepsValue(ns) == Joined(RepsValue(ms), RepValue(r), t)
  {
    hide RepsGood, RepsValue, RepsNodes, RepGood, RepNodes, ItemValue, MergedElement, MergedItem, Refined;
    MoreReps(ms, r);
    if ms != [] {
      LastRep(ms);
    }
    if |merged| != 0 && IsSingleNode(repetition) {
      var previous := merged[|merged| - 1];
      if IsSingleNode(previous) {
        ghost var front, last := ms[..|ms| - 1], ms[|ms| - 1];
        MergedItemIs(last, r);
        var element := MergedItem(previous.element, repetition.element);
        if element.Some? {
          RefinedIsLeaf(element.value, t);
          RepsAllocated(front);
          var node, joined := NewLiteral(Refined(element.value, t));
          MoreReps(front, joined);
          return merged[..|merged| - 1] + [node], front + [joined];
        }
      }
    }
    return merged + [repetition], ms + [r];
  }

  /** A new node for a literal. */
  method NewLiteral(e: Element) returns (node: RepetitionNode, ghost r: RepShape)
    requires !e.Group? && !e.Optional?
    ensures r.node == node && RepGood(r) && fresh(node) && RepNodes(r) == {node} && RepValue(r) == One(e)
  {
    node := new RepetitionNode(1, 1, Leaf(e));
    r := RepShape(node, LeafShape(e));
  }

  /** Joins the adjacent unrepeated literals that a single element can express. */
  method MergeLiterals(repetitions: seq<RepetitionNode>, t: Transforms, ghost rs: seq<RepShape>)
    returns (merged: seq<RepetitionNode>, ghost ms: seq<RepShape>)
    requires RepsGood(rs) && repetitions == RepRefs(rs)
    ensures RepsGood(ms) && merged == RepRefs(ms) && fresh(RepsNodes(ms) - RepsNodes(rs))
    ensures RepsValue(ms) == MergedLiterals(RepsValue(rs), t)
  {
    hide RepsGood, RepsValue, RepsNodes, RepGood, RepNodes, JoinedAll, Joined;
    if LiteralTransform !in t {
      return repetitions, rs;
    }
    merged, ms := [], [];
    NoNodes();
    NothingSimplified(t);
    assert rs[..0] == [];
    RepsAllocated(rs);
    for k := 0 to |repetitions|
      invariant RepsGood(rs) && RepsGood(ms) && merged == RepRefs(ms)
      invariant fresh(RepsNodes(ms) - RepsNodes(rs[..k]))
      invariant RepsValue(ms) == JoinedAll(RepsValue(rs[..k]), t)
    {
      NextRep(rs, k, t);
      RepsAllocated(rs);
      RepsWithin(rs, k);
      merged, ms := JoinNext(merged, repetitions[k], t, ms, rs[k]);
    }
    assert rs[..|rs|] == rs;
  }

  lemma RepsWithin(rs: seq<RepShape>, k: nat)
    requires k < |rs|
    ensures RepNodes(rs[k]) <= RepsNodes(rs)
  {
    hide RepNodes;
    assert rs == rs[..k + 1] + rs[k + 1..] && rs[..k + 1][..k] == rs[..k];
    RepsAppend(rs[..k + 1], rs[k + 1..]);
  }

  /** The next of a good list is good, and apart from those before it. */
  lemma NextRep(rs: seq<RepShape>, k: nat, t: Transforms)
    requires k < |rs| && RepsGood(rs)
    ensures RepGood(rs[k]) && RepsNodes(rs[..k]) !! RepNodes(rs[k]) &&
            RepsNodes(rs[..k + 1]) == RepsNodes(rs[..k]) + RepNodes(rs[k])
    ensures JoinedAll(RepsValue(rs[..k + 1]), t) == Joined(JoinedAll(RepsValue(rs[..k]), t), RepValue(rs[k]), t)
  {
    hide RepsGood, RepsValue, RepsNodes, RepGood, RepNodes, Joined;
    var front := rs[..k + 1];
    assert rs == front + rs[k + 1..];
    RepsSplit(front, rs[k + 1..]);
    LastRep(front);
    assert front[..k] == rs[..k];
    assert (RepsValue(rs[..k]) + [RepValue(rs[k])])[..k] == RepsValue(rs[..k]);
  }

  // ----- trees -----

  lemma RefsAppend(xs: seq<RepShape>, ys: seq<RepShape>)
    ensures RepRefs(xs + ys) == RepRefs(xs) + RepRefs(ys)
  {
  }

  lemma CatRefsAppend(xs: seq<CatShape>, ys: seq<CatShape>)
    ensures CatRefs(xs + ys) == CatRefs(xs) + CatRefs(ys)
  {
  }

  /** What a simplified repetition contributes to its concatenation. */
  method SpliceRepetition(repetition: RepetitionNode, t: Transforms, ghost r: RepShape)
    returns (refs: seq<RepetitionNode>, ghost ext: seq<RepShape>)
    requires RepGood(r) && r.node == repetition
    ensures RepsGood(ext) && refs == RepRefs(ext) && RepsNodes(ext) <= RepNodes(r)
    ensures RepsValue(ext) == SplicedRepetition(RepValue(r), t)
  {
    SoleAlternativeShape(r, t);
    if HoldsSoleAlternative(repetition, t) {
      ext := r.item.alternation.kids[0].kids;
      refs := repetition.element.group.concatenations[0].repetitions;
    } else {
      OneRep(r);
      ext := [r];
      refs := [repetition];
    }
  }

  /** What a simplified concatenation contributes to its alternation. */
  method SpliceConcatenation(concatenation: ConcatenationNode, t: Transforms, ghost c: CatShape)
    returns (refs: seq<ConcatenationNode>, ghost ext: seq<CatShape>)
    requires CatGood(c) && c.node == concatenation
    ensures CatsGood(ext) && refs == CatRefs(ext) && CatsNodes(ext) <= CatNodes(c)
    ensures CatsValue(ext) == SplicedConcatenation(CatValue(c), t)
  {
    SoleGroupShape(c, t);
    if HoldsSoleGroup(concatenation, t) {
      ext := c.kids[0].item.alternation.kids;
      refs := concatenation.repetitions[0].element.group.concatenations;
    } else {
      OneCat(c);
      ext := [c];
      refs := [concatenation];
    }
  }

  method SimplifyRepetition(repetition: RepetitionNode, t: Transforms, ghost r: RepShape) returns (ghost r': RepShape)
    requires RepGood(r) && r.node == repetition
    modifies RepNodes(r)
    ensures r'.node == repetition && RepGood(r') && fresh(RepNodes(r') - RepNodes(r))
    ensures RepValue(r') == SimplifiedRepetition(RepValue(r), t)
    decreases r, 0
  {
    r' := r;
    match repetition.element {
      case GroupItem(group) =>
        r' := SimplifyGroup(repetition, group, t, r);
      case OptionItem(option) =>
        ghost var a := SimplifyAlternation(option, t, r.item.alternation);
        r' := RepShape(repetition, OptionShape(a));
      case Leaf(e) =>
        if e.NumVal? && NumValTransform in t {
          repetition.element := Leaf(SimplifiedNumVal(e.base, e.status, e.values));
          r' := RepShape(repetition, LeafShape(SimplifiedNumVal(e.base, e.status, e.values)));
        }
    }
  }

  method SimplifyGroup(repetition: RepetitionNode, group: AlternationNode, t: Transforms, ghost r: RepShape)
    returns (ghost r': RepShape)
    requires RepGood(r) && r.node == repetition && repetition.element == GroupItem(group)
    modifies RepNodes(r)
    ensures r'.node == repetition && RepGood(r') && fresh(RepNodes(r') - RepNodes(r))
    ensures RepValue(r') == SimplifiedRepetition(RepValue(r), t)
    decreases r, 0, 0
  {
    ghost var a := SimplifyAlternation(group, t, r.item.alternation);
    r' := RepShape(repetition, GroupShape(a));
    SoleElementShape(a);
    if GroupTransform in t {
      if HoldsSoleElement(group) {
        var inner := group.concatenations[0].repetitions[0];
        ghost var q := a.kids[0].kids[0];
        assert ItemNodes(q.item) <= RepNodes(q) <= AltNodes(a);
        repetition.element := inner.element;
        r' := RepShape(repetition, q.item);
      }
    }
  }

  /** Simplifies the next repetition, and adds what it contributes. */
  method SimplifyNextRepetition(repetition: RepetitionNode, t: Transforms, repetitions: seq<RepetitionNode>,
                                ghost kid: RepShape, ghost done: seq<RepShape>, ghost rest: seq<RepShape>)
    returns (more: seq<RepetitionNode>, ghost done': seq<RepShape>)
    requires RepGood(kid) && kid.node == repetition && RepsGood(done) && repetitions == RepRefs(done) && RepsGood(rest)
    requires RepsNodes(done) !! RepNodes(kid) && RepsNodes(rest) !! RepNodes(kid) && RepsNodes(done) !! RepsNodes(rest)
    modifies RepNodes(kid)
    ensures RepsGood(done') && more == RepRefs(done') && RepsGood(rest) && RepsNodes(done') !! RepsNodes(rest)
    ensures fresh(RepsNodes(done') - RepsNodes(done) - RepNodes(kid))
    ensures RepsValue(done') == RepsValue(done) + SplicedRepetition(SimplifiedRepetition(RepValue(kid), t), t)
    decreases kid, 1
  {
    hide RepsGood, RepsNodes, RepsValue, RepGood, RepNodes, RepValue, SplicedRepetition, SimplifiedRepetition;
    RepsAllocated(done);
    RepsAllocated(rest);
    ghost var kid' := SimplifyRepetition(repetition, t, kid);
    var refs;
    ghost var ext;
    refs, ext := SpliceRepetition(repetition, t, kid');
    RepsAppend(done, ext);
    RefsAppend(done, ext);
    more, done' := repetitions + refs, done + ext;
  }

  method SimplifyConcatenation(concatenation: ConcatenationNode, t: Transforms, ghost c: CatShape)
    returns (ghost c': CatShape)
    requires CatGood(c) && c.node == concatenation
    modifies CatNodes(c)
    ensures c'.node == concatenation && CatGood(c') && fresh(CatNodes(c') - CatNodes(c))
    ensures CatValue(c') == SimplifiedConcatenation(CatValue(c), t)
    decreases c, 0
  {
    hide RepsGood, RepsNodes, RepsValue, RepGood, RepNodes, RepValue, SplicedRepetition, SimplifiedRepetitions;
    ghost var kids := c.kids;
    var repetitions: seq<RepetitionNode>;
    ghost var done: seq<RepShape>;
    repetitions, done := SimplifyRepetitions(concatenation, t, c);
    RepsAllocated(kids);
    var merged;
    ghost var ms;
    merged, ms := MergeLiterals(repetitions, t, done);
    RepsAllocated(ms);
    concatenation.repetitions := merged;
    c' := CatShape(concatenation, ms);
  }

  /** Simplifies the repetitions of a concatenation, one after the other, without linking the result yet. */
  method SimplifyRepetitions(concatenation: ConcatenationNode, t: Transforms, ghost c: CatShape)
    returns (repetitions: seq<RepetitionNode>, ghost done: seq<RepShape>)
    requires CatGood(c) && c.node == concatenation
    modifies RepsNodes(c.kids)
    ensures RepsGood(done) && repetitions == RepRefs(done) && concatenation !in RepsNodes(done)
    ensures fresh(RepsNodes(done) - RepsNodes(c.kids))
    ensures RepsValue(done) == SimplifiedRepetitions(RepsValue(c.kids), t)
    decreases c, 0, 0
  {
    hide RepsGood, RepsNodes, RepsValue, RepGood, RepNodes, RepValue, SplicedRepetition, SimplifiedRepetitions;
    hide SimplifiedRepetition;
    ghost var kids := c.kids;
    RepsAllocated(kids);
    NoNodes();
    NothingSimplified(t);
    repetitions, done := [], [];
    assert kids[..0] == [] && kids[0..] == kids;
    for k := 0 to |concatenation.repetitions|
      invariant concatenation.repetitions == RepRefs(kids)
      invariant RepsGood(done) && repetitions == RepRefs(done) && RepsGood(kids[k..])
      invariant RepsNodes(done) !! RepsNodes(kids[k..]) && RepsNodes(kids[k..]) <= RepsNodes(kids)
      invariant fresh(RepsNodes(done) - RepsNodes(kids[..k])) && RepsNodes(kids[..k]) <= RepsNodes(kids)
      invariant RepsValue(done) == SimplifiedRepetitions(RepsValue(kids[..k]), t)
    {
      NextKid(kids, k, t);
      repetitions, done := SimplifyNextRepetition(concatenation.repetitions[k], t, repetitions, kids[k], done,
                                                  kids[k + 1..]);
    }
    assert kids[..|kids|] == kids;
  }

  lemma NothingSimplified(t: Transforms)
    ensures SimplifiedRepetitions([], t) == [] && SimplifiedAlternatives([], t) == [] && JoinedAll([], t) == []
  {
  }

  /** The next of the kids that are left. */
  lemma NextKid(kids: seq<RepShape>, k: nat, t: Transforms)
    requires k < |kids| && RepsGood(kids[k..])
    ensures RepGood(kids[k]) && RepsGood(kids[k + 1..]) && RepNodes(kids[k]) !! RepsNodes(kids[k + 1..])
    ensures RepsNodes(kids[k..]) == RepNodes(kids[k]) + RepsNodes(kids[k + 1..])
    ensures RepsNodes(kids[..k + 1]) == RepsNodes(kids[..k]) + RepNodes(kids[k])
    ensures RepsNodes(kids) == RepsNodes(kids[..k + 1]) + RepsNodes(kids[k + 1..])
    ensures SimplifiedRepetitions(RepsValue(kids[..k + 1]), t)
         == SimplifiedRepetitions(RepsValue(kids[..k]), t)
           + SplicedRepetition(SimplifiedRepetition(RepValue(kids[k]), t), t)
  {
    hide RepsGood, RepsNodes, RepsValue, RepGood, RepNodes, RepValue, SplicedRepetition, SimplifiedRepetition;
    OneRep(kids[k]);
    assert kids[k..] == [kids[k]] + kids[k + 1..];
    RepsSplit([kids[k]], kids[k + 1..]);
    RepsAppend([kids[k]], kids[k + 1..]);
    assert kids[..k + 1] == kids[..k] + [kids[k]] && kids == kids[..k + 1] + kids[k + 1..];
    RepsAppend(kids[..k], [kids[k]]);
    RepsAppend(kids[..k + 1], kids[k + 1..]);
    assert (RepsValue(kids[..k]) + [RepValue(kids[k])])[..k] == RepsValue(kids[..k]);
  }

  /** Simplifies the next concatenation, and adds what it contributes. */
  method SimplifyNextConcatenation(concatenation: ConcatenationNode, t: Transforms,
                                   concatenations: seq<ConcatenationNode>, ghost kid: CatShape,
                                   ghost done: seq<CatShape>, ghost rest: seq<CatShape>)
    returns (more: seq<ConcatenationNode>, ghost done': seq<CatShape>)
    requires CatGood(kid) && kid.node == concatenation && CatsGood(done) && concatenations == CatRefs(done) &&
             CatsGood(rest)
    requires CatsNodes(done) !! CatNodes(kid) && CatsNodes(rest) !! CatNodes(kid) && CatsNodes(done) !! CatsNodes(rest)
    modifies CatNodes(kid)
    ensures CatsGood(done') && more == CatRefs(done') && CatsGood(rest) && CatsNodes(done') !! CatsNodes(rest)
    ensures fresh(CatsNodes(done') - CatsNodes(done) - CatNodes(kid))
    ensures CatsValue(done') == CatsValue(done) + SplicedConcatenation(SimplifiedConcatenation(CatValue(kid), t), t)
    decreases kid, 1
  {
    hide CatsGood, CatsNodes, CatsValue, CatGood, CatNodes, CatValue, SplicedConcatenation, SimplifiedConcatenation;
    CatsAllocated(done);
    CatsAllocated(rest);
    ghost var kid' := SimplifyConcatenation(concatenation, t, kid);
    var refs;
    ghost var ext;
    refs, ext := SpliceConcatenation(concatenation, t, kid');
    CatsAppend(done, ext);
    CatRefsAppend(done, ext);
    more, done' := concatenations + refs, done + ext;
  }

  lemma NextCat(kids: seq<CatShape>, k: nat, t: Transforms)
    requires k < |kids| && CatsGood(kids[k..])
    ensures CatGood(kids[k]) && CatsGood(kids[k + 1..]) && CatNodes(kids[k]) !! CatsNodes(kids[k + 1..])
    ensures CatsNodes(kids[k..]) == CatNodes(kids[k]) + CatsNodes(kids[k + 1..])
    ensures CatsNodes(kids[..k + 1]) == CatsNodes(kids[..k]) + CatNodes(kids[k])
    ensures CatsNodes(kids) == CatsNodes(kids[..k + 1]) + CatsNodes(kids[k + 1..])
    ensures SimplifiedAlternatives(CatsValue(kids[..k + 1]), t)
         == SimplifiedAlternatives(CatsValue(kids[..k]), t)
           + SplicedConcatenation(SimplifiedConcatenation(CatValue(kids[k]), t), t)
  {
    hide CatsGood, CatsNodes, CatsValue, CatGood, CatNodes, CatValue, SplicedConcatenation, SimplifiedConcatenation;
    OneCat(kids[k]);
    assert kids[k..] == [kids[k]] + kids[k + 1..];
    CatsSplit([kids[k]], kids[k + 1..]);
    CatsAppend([kids[k]], kids[k + 1..]);
    assert kids[..k + 1] == kids[..k] + [kids[k]] && kids == kids[..k + 1] + kids[k + 1..];
    CatsAppend(kids[..k], [kids[k]]);
    CatsAppend(kids[..k + 1], kids[k + 1..]);
    assert (CatsValue(kids[..k]) + [CatValue(kids[k])])[..k] == CatsValue(kids[..k]);
  }

  method SimplifyAlternation(alternation: AlternationNode, t: Transforms, ghost a: AltShape)
    returns (ghost a': AltShape)
    requires AltGood(a) && a.node == alternation
    modifies AltNodes(a)
    ensures a'.node == alternation && AltGood(a') && fresh(AltNodes(a') - AltNodes(a))
    ensures AltValue(a') == SimplifiedAlternation(AltValue(a), t)
    decreases a, 0
  {
    hide CatsGood, CatsNodes, CatsValue, CatGood, CatNodes, CatValue, SplicedConcatenation, SimplifiedAlternatives;
    hide SimplifiedConcatenation;
    ghost var kids := a.kids;
    CatsAllocated(kids);
    NoNodes();
    NothingSimplified(t);
    var concatenations: seq<ConcatenationNode> := [];
    ghost var done: seq<CatShape> := [];
    assert kids[..0] == [] && kids[0..] == kids;
    for k := 0 to |alternation.concatenations|
      invariant alternation.concatenations == CatRefs(kids)
      invariant CatsGood(done) && concatenations == CatRefs(done) && CatsGood(kids[k..])
      invariant CatsNodes(done) !! CatsNodes(kids[k..]) && CatsNodes(kids[k..]) <= CatsNodes(kids)
      invariant fresh(CatsNodes(done) - CatsNodes(kids[..k])) && CatsNodes(kids[..k]) <= CatsNodes(kids)
      invariant CatsValue(done) == SimplifiedAlternatives(CatsValue(kids[..k]), t)
    {
      NextCat(kids, k, t);
      concatenations, done := SimplifyNextConcatenation(alternation.concatenations[k], t, concatenations, kids[k],
                                                        done, kids[k + 1..]);
    }
    assert kids[..|kids|] == kids;
    CatsAllocated(done);
    alternation.concatenations := concatenations;
    a' := AltShape(alternation, done);
  }

  // ----- grammars -----

  lemma NextRuleSimplified(rules: seq<Rule>, rule: Rule, t: Transforms)
    ensures SimplifiedRules(rules + [rule], t) == SimplifiedRules(rules, t)
            + [Rule(rule.name, SimplifiedAlternation(rule.alternation, t))]
  {
  }

  /** One pass over every rule. */
  method SimplifyGrammar(rules: seq<RuleNode>, t: Transforms, ghost rs: seq<RuleShape>)
    returns (ghost rs': seq<RuleShape>)
    requires RulesGood(rs) && rules == RuleRefs(rs)
    modifies RulesNodes(rs)
    ensures RulesGood(rs') && rules == RuleRefs(rs') && fresh(RulesNodes(rs') - RulesNodes(rs))
    ensures RulesValue(rs') == SimplifiedRules(RulesValue(rs), t)
  {
    hide RulesGood, RulesNodes, RulesValue, AltGood, AltNodes, AltValue, SimplifiedAlternation;
    RulesAllocated(rs);
    NoRuleNodes();
    rs' := [];
    assert rs[..0] == [] && rs[0..] == rs;
    for k := 0 to |rules|
      invariant RuleRefs(rs') == rules[..k]
      invariant RulesGood(rs') && RulesGood(rs[k..])
      invariant RulesNodes(rs') !! RulesNodes(rs[k..]) && RulesNodes(rs[k..]) <= RulesNodes(rs)
      invariant fresh(RulesNodes(rs') - RulesNodes(rs[..k])) && RulesNodes(rs[..k]) <= RulesNodes(rs)
      invariant RulesValue(rs') == SimplifiedRules(RulesValue(rs[..k]), t)
    {
      NextRule(rs, k);
      RulesAllocated(rs');
      RulesAllocated(rs[k + 1..]);
      NextRuleSimplified(RulesValue(rs[..k]), RuleValue(rs[k]), t);
      ghost var a := SimplifyAlternation(rules[k].alternation, t, rs[k].alternation);
      MoreRules(rs', RuleShape(rules[k], a));
      rs' := rs' + [RuleShape(rules[k], a)];
    }
    assert rs[..|rs|] == rs;
  }
}
