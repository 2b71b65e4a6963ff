/** The parse trees of a grammar over an input, read off the grammar alone: no
    part of the search appears in them. The paths a search returns are exactly
    these trees (ParseTreesFound). */
module ParseTrees {
  import opened Spans
  import opened Utf8
  import opened Wrappers
  import opened Abnf
  import opened Denotation
  import opened Solver

  /** Each part starts where the one before it ends. */
  predicate Adjoining(parts: seq<Path>) {
    forall k :: 0 < k < |parts| ==> parts[k - 1].end == parts[k].start
  }

  /** A stretch of the input without parts and without a rule. */
  predicate IsPlain(p: Path) {
    p.subpaths == [] && p.matchRule == ""
  }

  /** A repetition that matched no times: one empty part, and no rule. */
  predicate IsNothing(p: Path) {
    p == Path([Path([], "", p.start, p.start)], "", p.start, p.start)
  }

  function NonEmpty(parts: seq<Path>): seq<Path> {
    if parts == [] then []
    else
      var last := parts[|parts| - 1];
      NonEmpty(parts[..|parts| - 1]) + (if last.start == last.end then [] else [last])
  }

  /** The parts a concatenation shows: those that matched something, or the first where none did. */
  function Shown(parts: seq<Path>): seq<Path>
    requires parts != []
  {
    if NonEmpty(parts) == [] then [parts[0]] else NonEmpty(parts)
  }

  /** The tree of a concatenation whose repetitions have these trees. */
  function Row(parts: seq<Path>): Path
    requires parts != []
  {
    Path(Shown(parts), "", parts[0].start, parts[|parts| - 1].end)
  }

  /** The tree of a repetition whose iterations have these trees: that of the
      only one, or else the parts of the first and each further one. */
  function Chain(parts: seq<Path>): Path
    requires parts != []
  {
    if |parts| == 1 then parts[0]
    else Path(parts[0].subpaths + parts[1..], "", parts[0].start, parts[|parts| - 1].end)
  }

  /** A rulename has a tree of its rule's alternation that bears the rulename,
      and no other element has a tree that bears a name. Rulenames are unfolded
      at most `depth` times. */
  ghost predicate ElementTree(g: Grammar, depth: nat, e: Element, p: Path, s: Bytes)
    decreases depth, e, 0
  {
    match e
    case Rulename(name) =>
      && p.matchRule == name
      && depth > 0
      && g.Lookup(name).Some?
      && AlternationTree(g, depth - 1, g.Lookup(name).value.alternation, p.(matchRule := ""), s)
    case Group(a) => AlternationTree(g, depth, a, p, s)
    case Optional(a) => IsNothing(p) || AlternationTree(g, depth, a, p, s)
    case List(_, _, _, expansion) => AlternationTree(g, depth, expansion, p, s)
    case CharVal(sensitive, value) => IsPlain(p) && (p.start, p.end) in CharValRel(sensitive, value, s)
    case NumVal(base, status, values) => IsPlain(p) && (p.start, p.end) in NumValRel(base, status, values, s)
    case ProseVal(_) => false
  }

  /** A tree of one of the concatenations. */
  ghost predicate AlternationTree(g: Grammar, depth: nat, a: Alternation, p: Path, s: Bytes)
    decreases depth, a, 2
  {
    exists k :: 0 <= k < |a.concatenations| && ConcatenationTree(g, depth, a.concatenations[k], p, s)
  }

  ghost predicate ConcatenationTree(g: Grammar, depth: nat, c: Concatenation, p: Path, s: Bytes)
    decreases depth, c, 1
  {
    RowTree(g, depth, c.repetitions, p, s)
  }

  /** Adjoining trees of all the repetitions, in order. */
  ghost predicate RowTree(g: Grammar, depth: nat, rs: seq<Repetition>, p: Path, s: Bytes)
    decreases depth, rs, 1
  {
    exists parts: seq<Path> :: RowParts(g, depth, rs, parts, s) && p == Row(parts)
  }

  ghost predicate RowParts(g: Grammar, depth: nat, rs: seq<Repetition>, parts: seq<Path>, s: Bytes)
    decreases depth, rs, 0
  {
    && |parts| == |rs| > 0
    && Adjoining(parts)
    && forall k :: 0 <= k < |rs| ==> RepetitionTree(g, depth, rs[k], parts[k], s)
  }

  /** Nothing, if the repetition allows that, or adjoining trees of the element, as many as it allows. */
  ghost predicate RepetitionTree(g: Grammar, depth: nat, r: Repetition, p: Path, s: Bytes)
    decreases depth, r, 2
  {
    || (r.min == 0 && IsNothing(p))
    || exists parts: seq<Path> ::
         && ChainParts(g, depth, r.element, parts, s)
         && Permits(r.min, r.max, |parts|)
         && p == Chain(parts)
  }

  ghost predicate ChainParts(g: Grammar, depth: nat, e: Element, parts: seq<Path>, s: Bytes)
    decreases depth, e, 1
  {
    && parts != []
    && Adjoining(parts)
    && forall k :: 0 <= k < |parts| ==> ElementTree(g, depth, e, parts[k], s)
  }

  // ----- trees however deep rulenames are nested -----

  ghost predicate TreeOfElement(g: Grammar, e: Element, p: Path, s: Bytes) {
    exists depth: nat :: ElementTree(g, depth, e, p, s)
  }

  ghost predicate TreeOfAlternation(g: Grammar, a: Alternation, p: Path, s: Bytes) {
    exists depth: nat :: AlternationTree(g, depth, a, p, s)
  }

  /** A tree of the named rule. */
  ghost predicate RuleTree(g: Grammar, name: string, p: Path, s: Bytes) {
    TreeOfElement(g, Rulename(name), p, s)
  }
}
