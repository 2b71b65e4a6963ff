/** Copies of trees (pkg/abnf/minify/transform.go): new nodes throughout that
    stand for the same tree, so that overwriting the copy leaves the original alone. */
module GrammarCopies {
  import opened Spans
  import opened Wrappers
  import opened Abnf
  import opened TreeNodes

  method CloneRule(rule: RuleNode, ghost r: RuleShape) returns (copy: RuleNode, ghost c: RuleShape)
    requires RuleGood(r) && r.node == rule
    ensures c.node == copy && RuleGood(c) && fresh(copy) && fresh(AltNodes(c.alternation)) &&
            RuleValue(c) == RuleValue(r)
  {
    var alternation;
    ghost var a;
    alternation, a := CloneAlternation(rule.alternation, r.alternation);
    AltAllocated(a);
    copy := new RuleNode(rule.name, alternation);
    c := RuleShape(copy, a);
  }

  method CloneAlternation(alternation: AlternationNode, ghost a: AltShape)
    returns (copy: AlternationNode, ghost b: AltShape)
    requires AltGood(a) && a.node == alternation
    ensures b.node == copy && AltGood(b) && fresh(AltNodes(b)) && AltValue(b) == AltValue(a)
    decreases a, 1
  {
    hide CatsGood, CatsNodes, CatsValue, CatGood, CatNodes, CatValue;
    AltAllocated(a);
    NoNodes();
    var concatenations: seq<ConcatenationNode> := [];
    ghost var done: seq<CatShape> := [];
    assert a.kids[..0] == [];
    for k := 0 to |alternation.concatenations|
      invariant AltGood(a) && CatsGood(done) && concatenations == CatRefs(done)
      invariant fresh(CatsNodes(done)) && CatsValue(done) == CatsValue(a.kids[..k])
    {
      CatAt(a.kids, k);
      CatsAllocated(done);
      var next;
      ghost var c;
      next, c := CloneConcatenation(alternation.concatenations[k], a.kids[k]);
      MoreCats(done, c);
      concatenations, done := concatenations + [next], done + [c];
    }
    assert a.kids[..|a.kids|] == a.kids;
    CatsAllocated(done);
    copy := new AlternationNode(concatenations);
    b := AltShape(copy, done);
  }

  method CloneConcatenation(concatenation: ConcatenationNode, ghost c: CatShape)
    returns (copy: ConcatenationNode, ghost d: CatShape)
    requires CatGood(c) && c.node == concatenation
    ensures d.node == copy && CatGood(d) && fresh(CatNodes(d)) && CatValue(d) == CatValue(c)
    decreases c, 1
  {
    hide RepsGood, RepsNodes, RepsValue, RepGood, RepNodes, RepValue;
    CatAllocated(c);
    NoNodes();
    var repetitions: seq<RepetitionNode> := [];
    ghost var done: seq<RepShape> := [];
    assert c.kids[..0] == [];
    for k := 0 to |concatenation.repetitions|
      invariant CatGood(c) && RepsGood(done) && repetitions == RepRefs(done)
      invariant fresh(RepsNodes(done)) && RepsValue(done) == RepsValue(c.kids[..k])
    {
      RepAt(c.kids, k);
      RepsAllocated(done);
      var next;
      ghost var r;
      next, r := CloneRepetition(concatenation.repetitions[k], c.kids[k]);
      MoreReps(done, r);
      repetitions, done := repetitions + [next], done + [r];
    }
    assert c.kids[..|c.kids|] == c.kids;
    RepsAllocated(done);
    copy := new ConcatenationNode(repetitions);
    d := CatShape(copy, done);
  }

  method CloneRepetition(repetition: RepetitionNode, ghost r: RepShape)
    returns (copy: RepetitionNode, ghost q: RepShape)
    requires RepGood(r) && r.node == repetition
    ensures q.node == copy && RepGood(q) && fresh(RepNodes(q)) && RepValue(q) == RepValue(r)
    decreases r, 1
  {
    hide AltGood, AltNodes, AltValue;
    match repetition.element {
      case GroupItem(group) =>
        var inner;
        ghost var a;
        inner, a := CloneAlternation(group, r.item.alternation);
        AltAllocated(a);
        copy := new RepetitionNode(repetition.min, repetition.max, GroupItem(inner));
        q := RepShape(copy, GroupShape(a));
      case OptionItem(option) =>
        var inner;
        ghost var a;
        inner, a := CloneAlternation(option, r.item.alternation);
        AltAllocated(a);
        copy := new RepetitionNode(repetition.min, repetition.max, OptionItem(inner));
        q := RepShape(copy, OptionShape(a));
      case Leaf(e) =>
        copy := new RepetitionNode(repetition.min, repetition.max, Leaf(e));
        q := RepShape(copy, LeafShape(e));
    }
  }
}
