/** Grammar trees as the program holds them: nodes whose fields it overwrites
    (pkg/abnf/elements.go). A shape says which nodes make up a tree, and so
    what tree they stand for. */
module TreeNodes {
  import opened Spans
  import opened Wrappers
  import opened Abnf

  class AlternationNode {
    var concatenations: seq<ConcatenationNode>

    constructor (concatenations: seq<ConcatenationNode>)
      ensures this.concatenations == concatenations
    {
      this.concatenations := concatenations;
    }
  }

  class ConcatenationNode {
    var repetitions: seq<RepetitionNode>

    constructor (repetitions: seq<RepetitionNode>)
      ensures this.repetitions == repetitions
    {
      this.repetitions := repetitions;
    }
  }

  class RepetitionNode {
    const min: nat
    const max: Bound
    var element: Item

    constructor (min: nat, max: Bound, element: Item)
      ensures this.min == min && this.max == max && this.element == element
    {
      this.min, this.max, this.element := min, max, element;
    }
  }

  /** An element: a group or an option holds a node; everything else is never overwritten, only replaced. */
  datatype Item = Leaf(e: Element) | GroupItem(group: AlternationNode) | OptionItem(option: AlternationNode)

  // ----- shapes -----

  datatype AltShape = AltShape(node: AlternationNode, kids: seq<CatShape>)

  datatype CatShape = CatShape(node: ConcatenationNode, kids: seq<RepShape>)

  datatype RepShape = RepShape(node: RepetitionNode, item: ItemShape)

  datatype ItemShape = LeafShape(e: Element) | GroupShape(alternation: AltShape) | OptionShape(alternation: AltShape)

  // ----- the tree a shape stands for -----

  ghost function AltValue(a: AltShape): Alternation
    decreases a, 1
  {
    Alternation(CatsValue(a.kids))
  }

  ghost function CatsValue(cs: seq<CatShape>): (v: seq<Concatenation>)
    ensures |v| == |cs|
    decreases cs, 0
  {
    if cs == [] then [] else CatsValue(cs[..|cs| - 1]) + [CatValue(cs[|cs| - 1])]
  }

  ghost function CatValue(c: CatShape): Concatenation
    decreases c, 1
  {
    Concatenation(RepsValue(c.kids))
  }

  ghost function RepsValue(rs: seq<RepShape>): (v: seq<Repetition>)
    ensures |v| == |rs|
    decreases rs, 0
  {
    if rs == [] then [] else RepsValue(rs[..|rs| - 1]) + [RepValue(rs[|rs| - 1])]
  }

  ghost function RepValue(r: RepShape): Repetition
    decreases r, 1
  {
    Repetition(r.node.min, r.node.max, ItemValue(r.item))
  }

  ghost function ItemValue(i: ItemShape): Element
    decreases i, 0
  {
    match i
    case LeafShape(e) => e
    case GroupShape(a) => Group(AltValue(a))
    case OptionShape(a) => Optional(AltValue(a))
  }

  // ----- the nodes of a shape -----

  ghost function AltNodes(a: AltShape): set<object>
    decreases a, 1
  {
    {a.node} + CatsNodes(a.kids)
  }

  ghost function CatsNodes(cs: seq<CatShape>): set<object>
    decreases cs, 0
  {
    if cs == [] then {} else CatsNodes(cs[..|cs| - 1]) + CatNodes(cs[|cs| - 1])
  }

  ghost function CatNodes(c: CatShape): set<object>
    decreases c, 1
  {
    {c.node} + RepsNodes(c.kids)
  }

  ghost function RepsNodes(rs: seq<RepShape>): set<object>
    decreases rs, 0
  {
    if rs == [] then {} else RepsNodes(rs[..|rs| - 1]) + RepNodes(rs[|rs| - 1])
  }

  ghost function RepNodes(r: RepShape): set<object>
    decreases r, 1
  {
    {r.node} + ItemNodes(r.item)
  }

  ghost function ItemNodes(i: ItemShape): set<object>
    decreases i, 0
  {
    match i
    case LeafShape(_) => {}
    case GroupShape(a) => AltNodes(a)
    case OptionShape(a) => AltNodes(a)
  }

  // ----- the nodes are linked as the shape says, and no node occurs twice -----

  ghost function CatRefs(cs: seq<CatShape>): (refs: seq<ConcatenationNode>)
    ensures |refs| == |cs|
  {
    seq(|cs|, k requires 0 <= k < |cs| => cs[k].node)
  }

  ghost function RepRefs(rs: seq<RepShape>): (refs: seq<RepetitionNode>)
    ensures |refs| == |rs|
  {
    seq(|rs|, k requires 0 <= k < |rs| => rs[k].node)
  }

  ghost function ItemRef(i: ItemShape): Item {
    match i
    case LeafShape(e) => Leaf(e)
    case GroupShape(a) => GroupItem(a.node)
    case OptionShape(a) => OptionItem(a.node)
  }

  ghost predicate AltGood(a: AltShape)
    reads AltNodes(a)
    decreases a, 1
  {
    a.node !in CatsNodes(a.kids) && a.node.concatenations == CatRefs(a.kids) && CatsGood(a.kids)
  }

  ghost predicate CatsGood(cs: seq<CatShape>)
    reads CatsNodes(cs)
    decreases cs, 0
  {
    cs == []
    || (&& CatsGood(cs[..|cs| - 1]) && CatGood(cs[|cs| - 1])
        && CatsNodes(cs[..|cs| - 1]) !! CatNodes(cs[|cs| - 1]))
  }

  ghost predicate CatGood(c: CatShape)
    reads CatNodes(c)
    decreases c, 1
  {
    c.node !in RepsNodes(c.kids) && c.node.repetitions == RepRefs(c.kids) && RepsGood(c.kids)
  }

  ghost predicate RepsGood(rs: seq<RepShape>)
    reads RepsNodes(rs)
    decreases rs, 0
  {
    rs == []
    || (&& RepsGood(rs[..|rs| - 1]) && RepGood(rs[|rs| - 1])
        && RepsNodes(rs[..|rs| - 1]) !! RepNodes(rs[|rs| - 1]))
  }

  ghost predicate RepGood(r: RepShape)
    reads RepNodes(r)
    decreases r, 1
  {
    r.node !in ItemNodes(r.item) && r.node.element == ItemRef(r.item) && ItemGood(r.item)
  }

  ghost predicate ItemGood(i: ItemShape)
    reads ItemNodes(i)
    decreases i, 0
  {
    match i
    case LeafShape(e) => !e.Group? && !e.Optional?
    case GroupShape(a) => AltGood(a)
    case OptionShape(a) => AltGood(a)
  }

  // ----- lists of nodes -----

  lemma {:induction false} CatsAppend(xs: seq<CatShape>, ys: seq<CatShape>)
    ensures CatsValue(xs + ys) == CatsValue(xs) + CatsValue(ys)
    ensures CatsNodes(xs + ys) == CatsNodes(xs) + CatsNodes(ys)
    ensures CatsGood(xs) && CatsGood(ys) && CatsNodes(xs) !! CatsNodes(ys) ==> CatsGood(xs + ys)
    decreases ys
  {
    hide CatValue, CatNodes, CatGood;
    if ys == [] {
      assert xs + ys == xs;
    } else {
      assert (xs + ys)[..|xs + ys| - 1] == xs + ys[..|ys| - 1] && (xs + ys)[|xs + ys| - 1] == ys[|ys| - 1];
      CatsAppend(xs, ys[..|ys| - 1]);
    }
  }

  lemma {:induction false} RepsAppend(xs: seq<RepShape>, ys: seq<RepShape>)
    ensures RepsValue(xs + ys) == RepsValue(xs) + RepsValue(ys)
    ensures RepsNodes(xs + ys) == RepsNodes(xs) + RepsNodes(ys)
    ensures RepsGood(xs) && RepsGood(ys) && RepsNodes(xs) !! RepsNodes(ys) ==> RepsGood(xs + ys)
    decreases ys
  {
    hide RepValue, RepNodes, RepGood;
    if ys == [] {
      assert xs + ys == xs;
    } else {
      assert (xs + ys)[..|xs + ys| - 1] == xs + ys[..|ys| - 1] && (xs + ys)[|xs + ys| - 1] == ys[|ys| - 1];
      RepsAppend(xs, ys[..|ys| - 1]);
    }
  }

  /** The first of a good list are good, and apart from the rest. */
  lemma {:induction false} CatsSplit(xs: seq<CatShape>, ys: seq<CatShape>)
    requires CatsGood(xs + ys)
    ensures CatsGood(xs) && CatsGood(ys) && CatsNodes(xs) !! CatsNodes(ys)
    decreases ys
  {
    hide CatNodes, CatGood;
    CatsAppend(xs, ys);
    if ys == [] {
      assert xs + ys == xs;
    } else {
      var front := ys[..|ys| - 1];
      assert (xs + ys)[..|xs + ys| - 1] == xs + front && (xs + ys)[|xs + ys| - 1] == ys[|ys| - 1];
      CatsSplit(xs, front);
      CatsAppend(xs, front);
    }
  }

  lemma {:induction false} RepsSplit(xs: seq<RepShape>, ys: seq<RepShape>)
    requires RepsGood(xs + ys)
    ensures RepsGood(xs) && RepsGood(ys) && RepsNodes(xs) !! RepsNodes(ys)
    decreases ys
  {
    hide RepNodes, RepGood;
    RepsAppend(xs, ys);
    if ys == [] {
      assert xs + ys == xs;
    } else {
      var front := ys[..|ys| - 1];
      assert (xs + ys)[..|xs + ys| - 1] == xs + front && (xs + ys)[|xs + ys| - 1] == ys[|ys| - 1];
      RepsSplit(xs, front);
      RepsAppend(xs, front);
    }
  }

  lemma OneCat(c: CatShape)
    ensures CatsValue([c]) == [CatValue(c)] && CatsNodes([c]) == CatNodes(c) && (CatsGood([c]) <==> CatGood(c))
  {
    hide CatValue, CatNodes, CatGood;
    assert [c][..0] == [];
    assert CatsValue([]) == [] && CatsNodes([]) == {} && CatsGood([]);
  }

  lemma OneRep(r: RepShape)
    ensures RepsValue([r]) == [RepValue(r)] && RepsNodes([r]) == RepNodes(r) && (RepsGood([r]) <==> RepGood(r))
  {
    hide RepValue, RepNodes, RepGood;
    assert [r][..0] == [];
    assert RepsValue([]) == [] && RepsNodes([]) == {} && RepsGood([]);
  }

  lemma NoNodes()
    ensures CatsGood([]) && CatsNodes([]) == {} && CatsValue([]) == [] && CatRefs([]) == []
    ensures RepsGood([]) && RepsNodes([]) == {} && RepsValue([]) == [] && RepRefs([]) == []
  {
  }

  lemma MoreCats(cs: seq<CatShape>, c: CatShape)
    ensures CatsValue(cs + [c]) == CatsValue(cs) + [CatValue(c)] && CatRefs(cs + [c]) == CatRefs(cs) + [c.node]
    ensures CatsNodes(cs + [c]) == CatsNodes(cs) + CatNodes(c)
    ensures CatsGood(cs) && CatGood(c) && CatsNodes(cs) !! CatNodes(c) ==> CatsGood(cs + [c])
  {
    hide CatsGood, CatsNodes, CatsValue, CatGood, CatNodes, CatValue;
    OneCat(c);
    CatsAppend(cs, [c]);
  }

  lemma MoreReps(rs: seq<RepShape>, r: RepShape)
    ensures RepsValue(rs + [r]) == RepsValue(rs) + [RepValue(r)] && RepRefs(rs + [r]) == RepRefs(rs) + [r.node]
    ensures RepsNodes(rs + [r]) == RepsNodes(rs) + RepNodes(r)
    ensures RepsGood(rs) && RepGood(r) && RepsNodes(rs) !! RepNodes(r) ==> RepsGood(rs + [r])
  {
    hide RepsGood, RepsNodes, RepsValue, RepGood, RepNodes, RepValue;
    OneRep(r);
    RepsAppend(rs, [r]);
  }

  // ----- every node of a shape is allocated -----

  lemma {:induction false} AltAllocated(a: AltShape)
    ensures forall o :: o in AltNodes(a) ==> allocated(o)
    decreases a, 1
  {
    CatsAllocated(a.kids);
  }

  lemma {:induction false} CatsAllocated(cs: seq<CatShape>)
    ensures forall o :: o in CatsNodes(cs) ==> allocated(o)
    decreases cs, 0
  {
    if cs != [] {
      CatsAllocated(cs[..|cs| - 1]);
      CatAllocated(cs[|cs| - 1]);
    }
  }

  lemma {:induction false} CatAllocated(c: CatShape)
    ensures forall o :: o in CatNodes(c) ==> allocated(o)
    decreases c, 1
  {
    RepsAllocated(c.kids);
  }

  lemma {:induction false} RepsAllocated(rs: seq<RepShape>)
    ensures forall o :: o in RepsNodes(rs) ==> allocated(o)
    decreases rs, 0
  {
    if rs != [] {
      RepsAllocated(rs[..|rs| - 1]);
      RepAllocated(rs[|rs| - 1]);
    }
  }

  lemma {:induction false} RepAllocated(r: RepShape)
    ensures forall o :: o in RepNodes(r) ==> allocated(o)
    decreases r, 1
  {
    match r.item
    case LeafShape(_) =>
    case GroupShape(a) =>
      AltAllocated(a);
      assert ItemNodes(r.item) == AltNodes(a);
    case OptionShape(a) =>
      AltAllocated(a);
      assert ItemNodes(r.item) == AltNodes(a);
  }

  // ----- rules -----

  class RuleNode {
    const name: string
    const alternation: AlternationNode

    constructor (name: string, alternation: AlternationNode)
      ensures this.name == name && this.alternation == alternation
    {
      this.name, this.alternation := name, alternation;
    }
  }

  datatype RuleShape = RuleShape(node: RuleNode, alternation: AltShape)

  ghost function RuleValue(r: RuleShape): Rule {
    Rule(r.node.name, AltValue(r.alternation))
  }

  ghost function RulesValue(rs: seq<RuleShape>): (v: seq<Rule>)
    ensures |v| == |rs|
  {
    if rs == [] then [] else RulesValue(rs[..|rs| - 1]) + [RuleValue(rs[|rs| - 1])]
  }

  ghost function RulesNodes(rs: seq<RuleShape>): set<object> {
    if rs == [] then {} else RulesNodes(rs[..|rs| - 1]) + AltNodes(rs[|rs| - 1].alternation)
  }

  ghost function RuleRefs(rs: seq<RuleShape>): (refs: seq<RuleNode>)
    ensures |refs| == |rs|
  {
    seq(|rs|, k requires 0 <= k < |rs| => rs[k].node)
  }

  ghost predicate RuleGood(r: RuleShape)
    reads AltNodes(r.alternation)
  {
    r.node.alternation == r.alternation.node && AltGood(r.alternation)
  }

  ghost predicate RulesGood(rs: seq<RuleShape>)
    reads RulesNodes(rs)
  {
    rs == []
    || (&& RulesGood(rs[..|rs| - 1]) && RuleGood(rs[|rs| - 1])
        && RulesNodes(rs[..|rs| - 1]) !! AltNodes(rs[|rs| - 1].alternation))
  }

  lemma {:induction false} RulesAppend(xs: seq<RuleShape>, ys: seq<RuleShape>)
    ensures RulesValue(xs + ys) == RulesValue(xs) + RulesValue(ys)
    ensures RulesNodes(xs + ys) == RulesNodes(xs) + RulesNodes(ys)
    ensures RulesGood(xs) && RulesGood(ys) && RulesNodes(xs) !! RulesNodes(ys) ==> RulesGood(xs + ys)
    decreases ys
  {
    hide RuleValue, AltNodes, RuleGood;
    if ys == [] {
      assert xs + ys == xs;
    } else {
      assert (xs + ys)[..|xs + ys| - 1] == xs + ys[..|ys| - 1] && (xs + ys)[|xs + ys| - 1] == ys[|ys| - 1];
      RulesAppend(xs, ys[..|ys| - 1]);
    }
  }

  lemma {:induction false} RulesSplit(xs: seq<RuleShape>, ys: seq<RuleShape>)
    requires RulesGood(xs + ys)
    ensures RulesGood(xs) && RulesGood(ys) && RulesNodes(xs) !! RulesNodes(ys)
    decreases ys
  {
    hide AltNodes, RuleGood;
    RulesAppend(xs, ys);
    if ys == [] {
      assert xs + ys == xs;
    } else {
      var front := ys[..|ys| - 1];
      assert (xs + ys)[..|xs + ys| - 1] == xs + front && (xs + ys)[|xs + ys| - 1] == ys[|ys| - 1];
      RulesSplit(xs, front);
      RulesAppend(xs, front);
    }
  }

  lemma OneRule(r: RuleShape)
    ensures RulesValue([r]) == [RuleValue(r)] && RulesNodes([r]) == AltNodes(r.alternation)
    ensures RulesGood([r]) <==> RuleGood(r)
  {
    hide RuleValue, AltNodes, RuleGood;
    assert [r][..0] == [];
    assert RulesValue([]) == [] && RulesNodes([]) == {} && RulesGood([]);
  }

  lemma {:induction false} RulesAllocated(rs: seq<RuleShape>)
    ensures forall o :: o in RulesNodes(rs) ==> allocated(o)
  {
    if rs != [] {
      RulesAllocated(rs[..|rs| - 1]);
      AltAllocated(rs[|rs| - 1].alternation);
    }
  }

  // ----- the next of a list -----

  lemma CatAt(cs: seq<CatShape>, k: nat)
    requires k < |cs| && CatsGood(cs)
    ensures CatGood(cs[k]) && CatNodes(cs[k]) <= CatsNodes(cs)
    ensures CatsValue(cs[..k + 1]) == CatsValue(cs[..k]) + [CatValue(cs[k])]
  {
    hide CatsGood, CatsNodes, CatsValue, CatGood, CatNodes, CatValue;
    OneCat(cs[k]);
    assert cs[..k + 1] == cs[..k] + [cs[k]] && cs == cs[..k + 1] + cs[k + 1..];
    CatsAppend(cs[..k], [cs[k]]);
    CatsAppend(cs[..k + 1], cs[k + 1..]);
    CatsSplit(cs[..k + 1], cs[k + 1..]);
    CatsSplit(cs[..k], [cs[k]]);
  }

  lemma RepAt(rs: seq<RepShape>, k: nat)
    requires k < |rs| && RepsGood(rs)
    ensures RepGood(rs[k]) && RepNodes(rs[k]) <= RepsNodes(rs)
    ensures RepsValue(rs[..k + 1]) == RepsValue(rs[..k]) + [RepValue(rs[k])]
  {
    hide RepsGood, RepsNodes, RepsValue, RepGood, RepNodes, RepValue;
    OneRep(rs[k]);
    assert rs[..k + 1] == rs[..k] + [rs[k]] && rs == rs[..k + 1] + rs[k + 1..];
    RepsAppend(rs[..k], [rs[k]]);
    RepsAppend(rs[..k + 1], rs[k + 1..]);
    RepsSplit(rs[..k + 1], rs[k + 1..]);
    RepsSplit(rs[..k], [rs[k]]);
  }

  lemma RuleAt(rs: seq<RuleShape>, k: nat)
    requires k < |rs| && RulesGood(rs)
    ensures RuleGood(rs[k]) && AltNodes(rs[k].alternation) <= RulesNodes(rs)
    ensures RulesValue(rs[..k + 1]) == RulesValue(rs[..k]) + [RuleValue(rs[k])]
  {
    hide RulesGood, RulesNodes, RulesValue, RuleGood, AltNodes, RuleValue;
    OneRule(rs[k]);
    assert rs[..k + 1] == rs[..k] + [rs[k]] && rs == rs[..k + 1] + rs[k + 1..];
    RulesAppend(rs[..k], [rs[k]]);
    RulesAppend(rs[..k + 1], rs[k + 1..]);
    RulesSplit(rs[..k + 1], rs[k + 1..]);
    RulesSplit(rs[..k], [rs[k]]);
  }

  lemma NoRuleNodes()
    ensures RulesGood([]) && RulesNodes([]) == {} && RulesValue([]) == [] && RuleRefs([]) == []
  {
  }

  lemma MoreRules(rs: seq<RuleShape>, r: RuleShape)
    ensures RulesValue(rs + [r]) == RulesValue(rs) + [RuleValue(r)] && RuleRefs(rs + [r]) == RuleRefs(rs) + [r.node]
    ensures RulesNodes(rs + [r]) == RulesNodes(rs) + AltNodes(r.alternation)
    ensures RulesGood(rs) && RuleGood(r) && RulesNodes(rs) !! AltNodes(r.alternation) ==> RulesGood(rs + [r])
  {
    hide RulesGood, RulesNodes, RulesValue, RuleGood, AltNodes, RuleValue;
    OneRule(r);
    RulesAppend(rs, [r]);
  }

  /** The next of the rules that are left. */
  lemma NextRule(rs: seq<RuleShape>, k: nat)
    requires k < |rs| && RulesGood(rs[k..])
    ensures RuleGood(rs[k]) && RulesGood(rs[k + 1..]) && AltNodes(rs[k].alternation) !! RulesNodes(rs[k + 1..])
    ensures RulesNodes(rs[k..]) == AltNodes(rs[k].alternation) + RulesNodes(rs[k + 1..])
    ensures RulesNodes(rs[..k + 1]) == RulesNodes(rs[..k]) + AltNodes(rs[k].alternation)
    ensures RulesNodes(rs) == RulesNodes(rs[..k + 1]) + RulesNodes(rs[k + 1..])
    ensures RulesValue(rs[..k + 1]) == RulesValue(rs[..k]) + [RuleValue(rs[k])]
  {
    hide RulesGood, RulesNodes, RulesValue, RuleGood, AltNodes, RuleValue;
    OneRule(rs[k]);
    assert rs[k..] == [rs[k]] + rs[k + 1..];
    RulesSplit([rs[k]], rs[k + 1..]);
    RulesAppend([rs[k]], rs[k + 1..]);
    assert rs[..k + 1] == rs[..k] + [rs[k]] && rs == rs[..k + 1] + rs[k + 1..];
    RulesAppend(rs[..k], [rs[k]]);
    RulesAppend(rs[..k + 1], rs[k + 1..]);
  }
}
