/** Expanding the list operators of a grammar in place (pkg/abnf/minify/transform.go). */
module ExpandInPlace {
  import opened Spans
  import opened Wrappers
  import opened Abnf
  import opened Rewriting
  import opened TreeNodes
  import opened Lists
  import opened ListExpansion

  // ----- nodes for an expansion -----

  method BuildAlternation(a: Alternation) returns (node: AlternationNode, ghost b: AltShape)
    ensures b.node == node && AltGood(b) && fresh(AltNodes(b)) && AltValue(b) == a
    decreases a, 1
  {
    hide CatsGood, CatsNodes, CatsValue, CatGood, CatNodes, CatValue;
    NoNodes();
    var concatenations: seq<ConcatenationNode> := [];
    ghost var done: seq<CatShape> := [];
    for k := 0 to |a.concatenations|
      invariant CatsGood(done) && concatenations == CatRefs(done)
      invariant fresh(CatsNodes(done)) && CatsValue(done) == a.concatenations[..k]
    {
      CatsAllocated(done);
      var repetitions;
      ghost var rs;
      repetitions, rs := BuildRepetitions(a.concatenations[k].repetitions);
      RepsAllocated(rs);
      var next := new ConcatenationNode(repetitions);
      ghost var c := CatShape(next, rs);
      LinkedConcatenation(c);
      MoreCats(done, c);
      concatenations, done := concatenations + [next], done + [c];
    }
    CatsAllocated(done);
    node := new AlternationNode(concatenations);
    b := AltShape(node, done);
  }

  lemma LinkedConcatenation(c: CatShape)
    requires RepsGood(c.kids) && c.node.repetitions == RepRefs(c.kids) && c.node !in RepsNodes(c.kids)
    ensures CatGood(c) && CatNodes(c) == {c.node} + RepsNodes(c.kids) && CatValue(c) == Concatenation(RepsValue(c.kids))
  {
  }

  method BuildRepetitions(rs: seq<Repetition>) returns (nodes: seq<RepetitionNode>, ghost qs: seq<RepShape>)
    ensures nodes == RepRefs(qs) && RepsGood(qs) && fresh(RepsNodes(qs)) && RepsValue(qs) == rs
    decreases rs, 0
  {
    hide RepsGood, RepsNodes, RepsValue, RepGood, RepNodes, RepValue;
    NoNodes();
    nodes, qs := [], [];
    for k := 0 to |rs|
      invariant RepsGood(qs) && nodes == RepRefs(qs)
      invariant fresh(RepsNodes(qs)) && RepsValue(qs) == rs[..k]
    {
      RepsAllocated(qs);
      var next;
      ghost var q;
      next, q := BuildRepetition(rs[k]);
      MoreReps(qs, q);
      nodes, qs := nodes + [next], qs + [q];
    }
  }

  method BuildRepetition(r: Repetition) returns (node: RepetitionNode, ghost q: RepShape)
    ensures q.node == node && RepGood(q) && fresh(RepNodes(q)) && RepValue(q) == r
    decreases r, 1
  {
    hide AltGood, AltNodes, AltValue;
    if r.element.Group? || r.element.Optional? {
      var inner;
      ghost var a;
      inner, a := BuildAlternation(r.element.alternation);
      AltAllocated(a);
      node := new RepetitionNode(r.min, r.max, if r.element.Group? then GroupItem(inner) else OptionItem(inner));
      q := RepShape(node, if r.element.Group? then GroupShape(a) else OptionShape(a));
    } else {
      node := new RepetitionNode(r.min, r.max, Leaf(r.element));
      q := RepShape(node, LeafShape(r.element));
    }
  }

  // ----- expansion -----

  method ExpandAlternation(alternation: AlternationNode, ghost a: AltShape) returns (ghost a': AltShape)
    requires AltGood(a) && a.node == alternation
    modifies AltNodes(a)
    ensures a'.node == alternation && AltGood(a') && fresh(AltNodes(a') - AltNodes(a))
    ensures AltValue(a') == ExpandedAlternation(AltValue(a))
    decreases a, 1
  {
    hide CatsGood, CatsNodes, CatsValue, CatGood, CatNodes, CatValue, ExpandedConcatenation, ExpandedAlternatives;
    ghost var kids := a.kids;
    CatsAllocated(kids);
    NoNodes();
    NothingExpanded();
    ghost var done: seq<CatShape> := [];
    assert kids[..0] == [] && kids[0..] == kids;
    for k := 0 to |alternation.concatenations|
      invariant alternation.concatenations == CatRefs(kids) && CatRefs(done) == CatRefs(kids)[..k]
      invariant CatsGood(done) && CatsGood(kids[k..])
      invariant CatsNodes(done) !! CatsNodes(kids[k..]) && CatsNodes(kids[k..]) <= CatsNodes(kids)
      invariant fresh(CatsNodes(done) - CatsNodes(kids[..k])) && CatsNodes(kids[..k]) <= CatsNodes(kids)
      invariant CatsValue(done) == ExpandedAlternatives(CatsValue(kids[..k]))
    {
      NextCat(kids, k);
      CatsAllocated(done);
      CatsAllocated(kids[k + 1..]);
      ghost var c := ExpandConcatenation(alternation.concatenations[k], kids[k]);
      MoreCats(done, c);
      done := done + [c];
    }
    assert kids[..|kids|] == kids;
    a' := AltShape(alternation, done);
  }

  lemma NothingExpanded()
    ensures ExpandedAlternatives([]) == [] && ExpandedRepetitions([]) == []
  {
  }

  /** The next of the kids that are left. */
  lemma NextCat(kids: seq<CatShape>, k: nat)
    requires k < |kids| && CatsGood(kids[k..])
    ensures CatGood(kids[k]) && CatsGood(kids[k + 1..]) && CatNodes(kids[k]) !! CatsNodes(kids[k + 1..])
    ensures CatsNodes(kids[k..]) == CatNodes(kids[k]) + CatsNodes(kids[k + 1..])
    ensures CatsNodes(kids[..k + 1]) == CatsNodes(kids[..k]) + CatNodes(kids[k])
    ensures CatsNodes(kids) == CatsNodes(kids[..k + 1]) + CatsNodes(kids[k + 1..])
    ensures ExpandedAlternatives(CatsValue(kids[..k + 1]))
         == ExpandedAlternatives(CatsValue(kids[..k])) + [ExpandedConcatenation(CatValue(kids[k]))]
  {
    hide CatsGood, CatsNodes, CatsValue, CatGood, CatNodes, CatValue, ExpandedConcatenation;
    OneCat(kids[k]);
    assert kids[k..] == [kids[k]] + kids[k + 1..];
    CatsSplit([kids[k]], kids[k + 1..]);
    CatsAppend([kids[k]], kids[k + 1..]);
    assert kids[..k + 1] == kids[..k] + [kids[k]] && kids == kids[..k + 1] + kids[k + 1..];
    CatsAppend(kids[..k], [kids[k]]);
    CatsAppend(kids[..k + 1], kids[k + 1..]);
    assert (CatsValue(kids[..k]) + [CatValue(kids[k])])[..k] == CatsValue(kids[..k]);
  }

  lemma NextRep(kids: seq<RepShape>, k: nat)
    requires k < |kids| && RepsGood(kids[k..])
    ensures RepGood(kids[k]) && RepsGood(kids[k + 1..]) && RepNodes(kids[k]) !! RepsNodes(kids[k + 1..])
    ensures RepsNodes(kids[k..]) == RepNodes(kids[k]) + RepsNodes(kids[k + 1..])
    ensures RepsNodes(kids[..k + 1]) == RepsNodes(kids[..k]) + RepNodes(kids[k])
    ensures RepsNodes(kids) == RepsNodes(kids[..k + 1]) + RepsNodes(kids[k + 1..])
    ensures ExpandedRepetitions(RepsValue(kids[..k + 1]))
         == ExpandedRepetitions(RepsValue(kids[..k])) + ExpandedRepetition(RepValue(kids[k]))
  {
    hide RepsGood, RepsNodes, RepsValue, RepGood, RepNodes, RepValue, ExpandedRepetition;
    OneRep(kids[k]);
    assert kids[k..] == [kids[k]] + kids[k + 1..];
    RepsSplit([kids[k]], kids[k + 1..]);
    RepsAppend([kids[k]], kids[k + 1..]);
    assert kids[..k + 1] == kids[..k] + [kids[k]] && kids == kids[..k + 1] + kids[k + 1..];
    RepsAppend(kids[..k], [kids[k]]);
    RepsAppend(kids[..k + 1], kids[k + 1..]);
    assert (RepsValue(kids[..k]) + [RepValue(kids[k])])[..k] == RepsValue(kids[..k]);
  }

  method ExpandConcatenation(concatenation: ConcatenationNode, ghost c: CatShape) returns (ghost c': CatShape)
    requires CatGood(c) && c.node == concatenation
    modifies CatNodes(c)
    ensures c'.node == concatenation && CatGood(c') && fresh(CatNodes(c') - CatNodes(c))
    ensures CatValue(c') == ExpandedConcatenation(CatValue(c))
    decreases c, 1
  {
    hide RepsGood, RepsNodes, RepsValue, RepGood, RepNodes, RepValue, ExpandedRepetition, ExpandedRepetitions;
    ghost var kids := c.kids;
    RepsAllocated(kids);
    NoNodes();
    NothingExpanded();
    var repetitions: seq<RepetitionNode> := [];
    ghost var done: seq<RepShape> := [];
    assert kids[..0] == [] && kids[0..] == kids;
    for k := 0 to |concatenation.repetitions|
      invariant concatenation.repetitions == RepRefs(kids)
      invariant RepsGood(done) && repetitions == RepRefs(done) && RepsGood(kids[k..])
      invariant RepsNodes(done) !! RepsNodes(kids[k..]) && RepsNodes(kids[k..]) <= RepsNodes(kids)
      invariant fresh(RepsNodes(done) - RepsNodes(kids[..k])) && RepsNodes(kids[..k]) <= RepsNodes(kids)
      invariant RepsValue(done) == ExpandedRepetitions(RepsValue(kids[..k]))
    {
      NextRep(kids, k);
      repetitions, done := ExpandNext(concatenation.repetitions[k], repetitions, kids[k], done, kids[k + 1..]);
    }
    assert kids[..|kids|] == kids;
    RepsAllocated(done);
    concatenation.repetitions := repetitions;
    c' := CatShape(concatenation, done);
  }

  /** Expands the next repetition, and adds what stands in its place. */
  method ExpandNext(repetition: RepetitionNode, repetitions: seq<RepetitionNode>,
                    ghost kid: RepShape, ghost done: seq<RepShape>, ghost rest: seq<RepShape>)
    returns (more: seq<RepetitionNode>, ghost done': seq<RepShape>)
    requires RepGood(kid) && kid.node == repetition && RepsGood(done) && repetitions == RepRefs(done) && RepsGood(rest)
    requires RepsNodes(done) !! RepNodes(kid) && RepsNodes(rest) !! RepNodes(kid) && RepsNodes(done) !! RepsNodes(rest)
    modifies RepNodes(kid)
    ensures RepsGood(done') && more == RepRefs(done') && RepsGood(rest) && RepsNodes(done') !! RepsNodes(rest)
    ensures fresh(RepsNodes(done') - RepsNodes(done) - RepNodes(kid))
    ensures RepsValue(done') == RepsValue(done) + ExpandedRepetition(RepValue(kid))
    decreases kid, 1, 1
  {
    hide RepsGood, RepsNodes, RepsValue, RepGood, RepNodes, RepValue, ExpandedRepetition;
    RepsAllocated(done);
    RepsAllocated(rest);
    var refs;
    ghost var ext;
    refs, ext := ExpandRepetition(repetition, kid);
    RepsAppend(done, ext);
    assert RepRefs(done + ext) == RepRefs(done) + RepRefs(ext);
    more, done' := repetitions + refs, done + ext;
  }

  lemma OneExpansion(min: nat, max: Bound, e: Element)
    ensures |ExpandList(min, max, e).concatenations| == 1
  {
  }

  method ExpandRepetition(repetition: RepetitionNode, ghost r: RepShape)
    returns (refs: seq<RepetitionNode>, ghost ext: seq<RepShape>)
    requires RepGood(r) && r.node == repetition
    modifies RepNodes(r)
    ensures RepsGood(ext) && refs == RepRefs(ext) && fresh(RepsNodes(ext) - RepNodes(r))
    ensures RepsValue(ext) == ExpandedRepetition(RepValue(r))
    decreases r, 1, 0
  {
    hide AltGood, AltNodes, AltValue, ExpandedAlternation, ExpandList;
    match repetition.element {
      case GroupItem(group) =>
        ghost var a := ExpandAlternation(group, r.item.alternation);
        ext := [RepShape(repetition, GroupShape(a))];
        OneRep(ext[0]);
        refs := [repetition];
      case OptionItem(option) =>
        ghost var a := ExpandAlternation(option, r.item.alternation);
        ext := [RepShape(repetition, OptionShape(a))];
        OneRep(ext[0]);
        refs := [repetition];
      case Leaf(e) =>
        var e' := ExpandedElement(e);
        if e.List? && repetition.min == 1 && repetition.max == 1 {
          OneExpansion(e'.min, e'.max, e'.element);
          refs, ext := BuildRepetitions(e'.expansion.concatenations[0].repetitions);
        } else {
          repetition.element := Leaf(e');
          ext := [RepShape(repetition, LeafShape(e'))];
          OneRep(ext[0]);
          refs := [repetition];
        }
    }
  }

  /** Expands the lists of every rule. */
  method ExpandLists(rules: seq<RuleNode>, ghost rs: seq<RuleShape>) returns (ghost rs': seq<RuleShape>)
    requires RulesGood(rs) && rules == RuleRefs(rs)
    modifies RulesNodes(rs)
    ensures RulesGood(rs') && rules == RuleRefs(rs') && fresh(RulesNodes(rs') - RulesNodes(rs))
    ensures RulesValue(rs') == Rewritten(RulesValue(rs), ExpandedAlternation)
  {
    hide RulesGood, RulesNodes, RulesValue, AltGood, AltNodes, AltValue, ExpandedAlternation;
    RulesAllocated(rs);
    NoRuleNodes();
    rs' := [];
    assert rs[..0] == [] && rs[0..] == rs;
    for k := 0 to |rules|
      invariant RuleRefs(rs') == rules[..k]
      invariant RulesGood(rs') && RulesGood(rs[k..])
      invariant RulesNodes(rs') !! RulesNodes(rs[k..]) && RulesNodes(rs[k..]) <= RulesNodes(rs)
      invariant fresh(RulesNodes(rs') - RulesNodes(rs[..k])) && RulesNodes(rs[..k]) <= RulesNodes(rs)
      invariant RulesValue(rs') == Rewritten(RulesValue(rs[..k]), ExpandedAlternation)
    {
      NextRule(rs, k);
      RulesAllocated(rs');
      RulesAllocated(rs[k + 1..]);
      RewrittenMore(RulesValue(rs[..k]), RuleValue(rs[k]), ExpandedAlternation);
      ghost var a := ExpandAlternation(rules[k].alternation, rs[k].alternation);
      MoreRules(rs', RuleShape(rules[k], a));
      rs' := rs' + [RuleShape(rules[k], a)];
    }
    assert rs[..|rs|] == rs;
  }
}
