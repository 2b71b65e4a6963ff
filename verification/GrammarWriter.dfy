/** The writer of pkg/abnf/minify/minify.go, which appends the minified text of
    a grammar to a builder. */
module GrammarWriter {
  import opened Spans
  import opened Wrappers
  import opened Abnf
  import opened Text
  import opened TreeNodes

  class StringBuilder {
    var text: string

    constructor ()
      ensures text == ""
    {
      text := "";
    }

    method WriteString(s: string)
      modifies this
      ensures text == old(text) + s
    {
      text := text + s;
    }
  }

  method WriteGrammar(rules: seq<RuleNode>, ghost rs: seq<RuleShape>) returns (text: string)
    requires RulesGood(rs) && rules == RuleRefs(rs)
    ensures text == RulesText(RulesValue(rs))
  {
    hide RulesGood, RuleGood, RulesNodes, AltNodes, RulesValue, RuleValue, RuleText;
    RulesAllocated(rs);
    var sb := new StringBuilder();
    assert rs[..0] == [];
    NothingSaid();
    for k := 0 to |rules|
      invariant RulesGood(rs)
      invariant sb.text == RulesText(RulesValue(rs[..k]))
    {
      RuleAt(rs, k);
      MoreRuleText(RulesValue(rs[..k]), RuleValue(rs[k]));
      var written := WriteRule(rules[k], rs[k]);
      sb.WriteString(written);
    }
    assert rs[..|rs|] == rs;
    text := sb.text;
  }

  lemma NothingSaid()
    ensures RulesValue([]) == [] && RulesText([]) == ""
  {
  }

  lemma MoreRuleText(front: seq<Rule>, rule: Rule)
    ensures RulesText(front + [rule]) == RulesText(front) + RuleText(rule)
  {
    assert (front + [rule])[..|front|] == front;
  }

  method WriteRule(rule: RuleNode, ghost r: RuleShape) returns (text: string)
    requires RuleGood(r) && r.node == rule
    ensures text == RuleText(RuleValue(r))
  {
    hide AltGood, AltNodes, AltValue, AlternationText;
    AltAllocated(r.alternation);
    var sb := new StringBuilder();
    sb.WriteString(rule.name);
    sb.WriteString("=");
    WriteAlternation(sb, rule.alternation, r.alternation);
    sb.WriteString("\r\n");
    text := sb.text;
  }

  method WriteAlternation(sb: StringBuilder, alternation: AlternationNode, ghost a: AltShape)
    requires AltGood(a) && a.node == alternation && sb !in AltNodes(a)
    modifies sb
    ensures sb.text == old(sb.text) + AlternationText(AltValue(a))
    decreases a, 1
  {
    hide CatsGood, CatsNodes, CatsValue, CatGood, CatNodes, CatValue, AlternativesText, ConcatenationText;
    AltAllocated(a);
    assert a.kids[..0] == [];
    NothingWritten();
    for k := 0 to |alternation.concatenations|
      invariant AltGood(a)
      invariant sb.text == old(sb.text) + AlternativesText(CatsValue(a.kids[..k]))
    {
      CatAt(a.kids, k);
      MoreAlternatives(old(sb.text), CatsValue(a.kids[..k]), CatValue(a.kids[k]));
      if k != 0 {
        sb.WriteString("/");
      }
      WriteConcatenation(sb, alternation.concatenations[k], a.kids[k]);
    }
    assert a.kids[..|a.kids|] == a.kids;
  }

  lemma NothingWritten()
    ensures AlternativesText(CatsValue([])) == "" && RepetitionsText(RepsValue([])) == ""
  {
  }

  lemma MoreAlternatives(before: string, front: seq<Concatenation>, c: Concatenation)
    ensures before + AlternativesText(front + [c])
         == before + AlternativesText(front) + (if front == [] then "" else "/") + ConcatenationText(c)
  {
    assert (front + [c])[..|front|] == front;
  }

  method WriteConcatenation(sb: StringBuilder, concatenation: ConcatenationNode, ghost c: CatShape)
    requires CatGood(c) && c.node == concatenation && sb !in CatNodes(c)
    modifies sb
    ensures sb.text == old(sb.text) + ConcatenationText(CatValue(c))
    decreases c, 1
  {
    hide RepsGood, RepsNodes, RepsValue, RepGood, RepNodes, RepValue, RepetitionsText, RepetitionText;
    CatAllocated(c);
    assert c.kids[..0] == [];
    NothingWritten();
    for k := 0 to |concatenation.repetitions|
      invariant CatGood(c)
      invariant sb.text == old(sb.text) + RepetitionsText(RepsValue(c.kids[..k]))
    {
      RepAt(c.kids, k);
      MoreRepetitions(old(sb.text), RepsValue(c.kids[..k]), RepValue(c.kids[k]));
      if k != 0 {
        sb.WriteString(" ");
      }
      WriteRepetition(sb, concatenation.repetitions[k], c.kids[k]);
    }
    assert c.kids[..|c.kids|] == c.kids;
  }

  lemma MoreRepetitions(before: string, front: seq<Repetition>, r: Repetition)
    ensures before + RepetitionsText(front + [r])
         == before + RepetitionsText(front) + (if front == [] then "" else " ") + RepetitionText(r)
  {
    assert (front + [r])[..|front|] == front;
  }

  method WriteRepetition(sb: StringBuilder, repetition: RepetitionNode, ghost r: RepShape)
    requires RepGood(r) && r.node == repetition && sb !in RepNodes(r)
    modifies sb
    ensures sb.text == old(sb.text) + RepetitionText(RepValue(r))
    decreases r, 1
  {
    hide AltGood, AltNodes, AltValue, RepeatText, ItemValue, ElementText;
    RepAllocated(r);
    WriteRepeat(sb, repetition.min, repetition.max);
    WriteElement(sb, repetition.element, r.item);
  }

  method WriteRepeat(sb: StringBuilder, min: nat, max: Bound)
    modifies sb
    ensures sb.text == old(sb.text) + RepeatText(min, max)
  {
    hide Itoa;
    if min == max {
      if min != 1 {
        sb.WriteString(Itoa(min));
      }
    } else {
      if min != 0 {
        sb.WriteString(Itoa(min));
      }
      sb.WriteString("*");
      if max != INF {
        sb.WriteString(Itoa(max));
      }
    }
  }

  method WriteElement(sb: StringBuilder, item: Item, ghost i: ItemShape)
    requires ItemGood(i) && ItemRef(i) == item && sb !in ItemNodes(i)
    modifies sb
    ensures sb.text == old(sb.text) + ElementText(ItemValue(i))
    decreases i, 1
  {
    hide AltGood, AltNodes, AltValue, AlternationText;
    match item {
      case GroupItem(group) =>
        AltAllocated(i.alternation);
        sb.WriteString("(");
        WriteAlternation(sb, group, i.alternation);
        sb.WriteString(")");
      case OptionItem(option) =>
        AltAllocated(i.alternation);
        sb.WriteString("[");
        WriteAlternation(sb, option, i.alternation);
        sb.WriteString("]");
      case Leaf(e) =>
        WriteLeaf(sb, e);
    }
  }

  /** The "#" operator is kept as written; the element it repeats follows. */
  method WriteLeaf(sb: StringBuilder, e: Element)
    modifies sb
    ensures sb.text == old(sb.text) + ElementText(e)
    decreases e
  {
    hide AlternationText, Itoa;
    if e.List? {
      if e.min != 0 {
        sb.WriteString(Itoa(e.min));
      }
      sb.WriteString("#");
      if e.max != INF {
        sb.WriteString(Itoa(e.max));
      }
      WriteLeaf(sb, e.element);
    } else {
      sb.WriteString(ElementText(e));
    }
  }
}
