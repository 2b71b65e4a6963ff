/** The rewriting of expressions into shorter equivalent ones
    (pkg/abnf/minify/simplify.go), as functions on trees. */
module Simplifier {
  import opened Spans
  import opened Wrappers
  import opened Abnf
  import opened Text
  import opened Rewriting

  datatype Transform = GroupTransform | NumValTransform | LiteralTransform

  type Transforms = set<Transform>

  predicate IsAsciiLetter(c: char) {
    'A' <= c <= 'Z' || 'a' <= c <= 'z'
  }

  predicate HasLetter(value: string) {
    exists i :: 0 <= i < |value| && IsAsciiLetter(value[i])
  }

  predicate IsCharValRune(r: int) {
    0x20 <= r <= 0x21 || 0x23 <= r <= 0x7E
  }

  predicate AreCharValRunes(runes: seq<int>) {
    forall i :: 0 <= i < |runes| ==> IsCharValRune(runes[i])
  }

  function RuneString(runes: seq<int>): (value: string)
    requires AreCharValRunes(runes)
    ensures |value| == |runes|
  {
    seq(|runes|, i requires 0 <= i < |runes| => runes[i] as char)
  }

  // ----- literals -----

  /** simplifyNumVal: a range over one value becomes a series, and a series of
      printable characters a char-val if that is shorter. */
  function SimplifiedNumVal(base: string, status: NumValStatus, values: seq<string>): Element {
    var kept := NumVal(base, status, values);
    if values == [] then kept
    else
      match Runes(values, base)
      case None => kept
      case Some(runes) =>
        if status == Range then
          if |runes| == 2 && runes[0] == runes[1] then NumVal(base, Series, [values[0]]) else kept
        else if !AreCharValRunes(runes) then kept
        else
          var value := RuneString(runes);
          if |CharValText(HasLetter(value), value)| >= |NumValText(base, status, values)| then kept
          else CharVal(HasLetter(value), value)
  }

  /** mergeElements: the literal matching the concatenation of two literals, if one does. */
  function MergedElement(left: Element, right: Element): Option<Element> {
    match (left, right)
    case (CharVal(leftSensitive, leftValue), CharVal(rightSensitive, rightValue)) =>
      var leftCased, rightCased := HasLetter(leftValue), HasLetter(rightValue);
      if leftCased && rightCased && leftSensitive != rightSensitive then None
      else
        Some(CharVal((leftCased && leftSensitive) || (rightCased && rightSensitive), leftValue + rightValue))
    case (NumVal(leftBase, leftStatus, leftValues), NumVal(rightBase, rightStatus, rightValues)) =>
      if leftStatus != Series || rightStatus != Series || Lower(leftBase) != Lower(rightBase) then None
      else Some(NumVal(leftBase, Series, leftValues + rightValues))
    case _ => None
  }

  /** Joining num-vals can produce a series that a char-val expresses better. */
  function Refined(e: Element, t: Transforms): Element {
    if e.NumVal? && NumValTransform in t then SimplifiedNumVal(e.base, e.status, e.values) else e
  }

  /** One step of mergeLiterals: the next repetition joins the last one, or follows it. */
  function Joined(merged: seq<Repetition>, r: Repetition, t: Transforms): seq<Repetition> {
    if merged != [] && IsSingle(r) && IsSingle(merged[|merged| - 1]) then
      match MergedElement(merged[|merged| - 1].element, r.element)
      case Some(e) => merged[..|merged| - 1] + [One(Refined(e, t))]
      case None => merged + [r]
    else merged + [r]
  }

  function JoinedAll(rs: seq<Repetition>, t: Transforms): seq<Repetition> {
    if rs == [] then [] else Joined(JoinedAll(rs[..|rs| - 1], t), rs[|rs| - 1], t)
  }

  function MergedLiterals(rs: seq<Repetition>, t: Transforms): seq<Repetition> {
    if LiteralTransform in t then JoinedAll(rs, t) else rs
  }

  // ----- groups -----

  /** soleGroup: the alternation of a group that is all a concatenation holds. */
  function SoleGroup(c: Concatenation, t: Transforms): Option<Alternation> {
    if GroupTransform in t && |c.repetitions| == 1 && IsSingle(c.repetitions[0]) && c.repetitions[0].element.Group?
    then Some(c.repetitions[0].element.alternation)
    else None
  }

  /** soleElement: the single unrepeated element that is all an alternation holds. */
  function SoleElement(a: Alternation): Option<Element> {
    if |a.concatenations| == 1 && |a.concatenations[0].repetitions| == 1
       && IsSingle(a.concatenations[0].repetitions[0])
    then Some(a.concatenations[0].repetitions[0].element)
    else None
  }

  /** What a simplified concatenation contributes to its alternation. */
  function SplicedConcatenation(c: Concatenation, t: Transforms): seq<Concatenation> {
    match SoleGroup(c, t)
    case Some(a) => a.concatenations
    case None => [c]
  }

  /** What a simplified repetition contributes to its concatenation. */
  function SplicedRepetition(r: Repetition, t: Transforms): seq<Repetition> {
    if IsSingle(r) && GroupTransform in t && r.element.Group? && |r.element.alternation.concatenations| == 1
    then r.element.alternation.concatenations[0].repetitions
    else [r]
  }

  // ----- the rewrite, bottom up -----

  function SimplifiedAlternation(a: Alternation, t: Transforms): Alternation
    decreases a, 1
  {
    Alternation(SimplifiedAlternatives(a.concatenations, t))
  }

  function SimplifiedAlternatives(cs: seq<Concatenation>, t: Transforms): seq<Concatenation>
    decreases cs, 0
  {
    if cs == [] then []
    else
      SimplifiedAlternatives(cs[..|cs| - 1], t)
      + SplicedConcatenation(SimplifiedConcatenation(cs[|cs| - 1], t), t)
  }

  function SimplifiedConcatenation(c: Concatenation, t: Transforms): Concatenation
    decreases c, 1
  {
    Concatenation(MergedLiterals(SimplifiedRepetitions(c.repetitions, t), t))
  }

  function SimplifiedRepetitions(rs: seq<Repetition>, t: Transforms): seq<Repetition>
    decreases rs, 0
  {
    if rs == [] then []
    else
      SimplifiedRepetitions(rs[..|rs| - 1], t)
      + SplicedRepetition(SimplifiedRepetition(rs[|rs| - 1], t), t)
  }

  function SimplifiedRepetition(r: Repetition, t: Transforms): Repetition
    decreases r, 1
  {
    Repetition(r.min, r.max, SimplifiedElement(r.element, t))
  }

  /** What becomes of the element of a repetition. */
  function SimplifiedElement(e: Element, t: Transforms): Element
    decreases e, 0
  {
    match e
    case Group(a) =>
      var simplified := SimplifiedAlternation(a, t);
      if GroupTransform in t && SoleElement(simplified).Some? then SoleElement(simplified).value
      else Group(simplified)
    case Optional(a) => Optional(SimplifiedAlternation(a, t))
    case NumVal(base, status, values) =>
      if NumValTransform in t then SimplifiedNumVal(base, status, values) else e
    case _ => e
  }

  function SimplifiedRules(rules: seq<Rule>, t: Transforms): seq<Rule> {
    Rewritten(rules, a => SimplifiedAlternation(a, t))
  }

  /** simplifyGrammar: one pass over every rule; rule names are left alone. */
  function SimplifiedGrammar(g: Grammar, t: Transforms): Grammar {
    Grammar(SimplifiedRules(g.rules, t), g.coreRules)
  }
}
