/** The backtracking all-solutions search of pkg/abnf/parse.go, as functions.
    A search unfolds rulenames to a given depth and answers None when it needs
    more; a larger depth then either gives the answer or, where the program
    recurses for ever, never does. The depth is no part of the program: see
    Matcher for the loops themselves. */
module Solver {
  import opened Spans
  import opened Utf8
  import opened Wrappers
  import opened Abnf
  import opened Denotation

  /** A portion of the input that matched, with its ordered parts. */
  datatype Path = Path(subpaths: seq<Path>, matchRule: string, start: nat, end: nat) {
    predicate IsEmpty() {
      start == end
    }
  }

  function Leaf(start: nat, end: nat): Path {
    Path([], "", start, end)
  }

  type Answer = Option<seq<Path>>

  // ----- terminals -----

  function CharValPaths(sensitive: bool, value: string, s: Bytes, i: nat): seq<Path> {
    if i + |value| <= |s| && CharsMatch(sensitive, value, s, i) then [Leaf(i, i + |value|)] else []
  }

  function RangePaths(low: int, high: int, s: Bytes, i: nat): seq<Path> {
    if i > |s| || DecodeRune(s[i..]).Failed() then []
    else
      var d := DecodeRune(s[i..]);
      if low <= d.rune <= high then [Leaf(i, i + d.size)] else []
  }

  function BytesPaths(bytes: Bytes, s: Bytes, i: nat): seq<Path> {
    if i + |bytes| <= |s| && s[i..i + |bytes|] == bytes then [Leaf(i, i + |bytes|)] else []
  }

  function NumValPaths(base: string, status: NumValStatus, values: seq<string>, s: Bytes, i: nat): seq<Path> {
    match status
    case Series =>
      var runes := Runes(values, base);
      if runes.Some? then BytesPaths(EncodeRunes(runes.value), s, i) else []
    case Range =>
      if |values| < 2 then []
      else
        var low, high := ParseNumVal(values[0], base), ParseNumVal(values[1], base);
        if low.Some? && high.Some? then RangePaths(low.value, high.value, s, i) else []
  }

  // ----- paths -----

  function Stamped(p: Path, name: string): Path {
    Path(p.subpaths, name, p.start, p.end)
  }

  function StampedAll(ps: seq<Path>, name: string): (r: seq<Path>)
    ensures |r| == |ps|
  {
    seq(|ps|, k requires 0 <= k < |ps| => Stamped(ps[k], name))
  }

  /** A concatenation starts with the paths of its first repetition. */
  function Wrapped(ps: seq<Path>, i: nat): (r: seq<Path>)
    ensures |r| == |ps|
  {
    seq(|ps|, k requires 0 <= k < |ps| => Path([ps[k]], "", i, ps[k].end))
  }

  /** The parts of a concatenation path that a further part follows: an empty last part gives way to it. */
  function Kept(subpaths: seq<Path>): seq<Path> {
    if subpaths != [] && subpaths[|subpaths| - 1].IsEmpty() then subpaths[..|subpaths| - 1] else subpaths
  }

  function Extended(before: Path, p: Path, i: nat): Path {
    if p.IsEmpty() then before else Path(Kept(before.subpaths) + [p], "", i, p.end)
  }

  function ExtendedAll(before: Path, ps: seq<Path>, i: nat): (r: seq<Path>)
    ensures |r| == |ps|
  {
    seq(|ps|, k requires 0 <= k < |ps| => Extended(before, ps[k], i))
  }

  /** A further iteration of a repetition. */
  function Iterated(before: Path, p: Path): Path {
    Path(before.subpaths + [p], "", before.start, p.end)
  }

  function IteratedAll(before: Path, ps: seq<Path>): (r: seq<Path>)
    ensures |r| == |ps|
  {
    seq(|ps|, k requires 0 <= k < |ps| => Iterated(before, ps[k]))
  }

  function Flattened(iterations: seq<seq<Path>>): seq<Path> {
    if iterations == [] then [] else Flattened(iterations[..|iterations| - 1]) + iterations[|iterations| - 1]
  }

  function Max(a: nat, b: nat): nat {
    if a > b then a else b
  }

  /** shouldContinueRepetition. */
  function CouldMatch(e: Element, s: Bytes, i: nat): bool {
    match e
    case NumVal(_, _, _) => i < |s|
    case CharVal(_, value) => i + |value| <= |s|
    case ProseVal(_) => false
    case _ => true
  }

  function ShouldContinue(r: Repetition, s: Bytes, i: nat, iteration: nat): bool {
    CouldMatch(r.element, s, i) && (r.max == INF || iteration < r.max)
  }

  /** How many further iterations of a repetition can be needed: after more of
      an unbounded one than the input has bytes, it goes on for ever. */
  function StepLimit(r: Repetition, s: Bytes): nat {
    if r.max == INF then |s| + 2 else r.max
  }

  // ----- the search -----

  function SolveElement(g: Grammar, depth: nat, e: Element, s: Bytes, i: nat): Answer
    decreases depth, e, 0, 0
  {
    match e
    case Rulename(name) =>
      var rule := g.Lookup(name);
      if rule == None then Some([])
      else if depth == 0 then None
      else
        (match SolveAlternation(g, depth - 1, rule.value.alternation, s, i)
         case Some(ps) => Some(StampedAll(ps, name))
         case None => None)
    case Group(a) => SolveAlternation(g, depth, a, s, i)
    case Optional(a) =>
      // A repetition of zero to one times.
      (match SolveAlternation(g, depth, a, s, i)
       case Some(ps) => Some([EmptyIteration(i)] + ps)
       case None => None)
    case List(_, _, _, expansion) => SolveAlternation(g, depth, expansion, s, i)
    case CharVal(sensitive, value) => Some(CharValPaths(sensitive, value, s, i))
    case NumVal(base, status, values) => Some(NumValPaths(base, status, values, s, i))
    case ProseVal(_) => Some([])
  }

  function EmptyIteration(i: nat): Path {
    Path([Leaf(i, i)], "", i, i)
  }

  function SolveAlternation(g: Grammar, depth: nat, a: Alternation, s: Bytes, i: nat): Answer
    decreases depth, a, 1, 0
  {
    SolveAlternatives(g, depth, a.concatenations, s, i)
  }

  function SolveAlternatives(g: Grammar, depth: nat, cs: seq<Concatenation>, s: Bytes, i: nat): Answer
    decreases depth, cs, 0, 0
  {
    if cs == [] then Some([])
    else
      var front := SolveAlternatives(g, depth, cs[..|cs| - 1], s, i);
      if front == None then None
      else
        var last := SolveConcatenation(g, depth, cs[|cs| - 1], s, i);
        if last == None then None else Some(front.value + last.value)
  }

  function SolveConcatenation(g: Grammar, depth: nat, c: Concatenation, s: Bytes, i: nat): Answer
    decreases depth, c, 1, 0
  {
    SolveRepetitions(g, depth, c.repetitions, s, i)
  }

  function SolveRepetitions(g: Grammar, depth: nat, rs: seq<Repetition>, s: Bytes, i: nat): Answer
    decreases depth, rs, 0, 0
  {
    if rs == [] then Some([])
    else if |rs| == 1 then
      match SolveRepetition(g, depth, rs[0], s, i)
      case Some(ps) => Some(Wrapped(ps, i))
      case None => None
    else
      match SolveRepetitions(g, depth, rs[..|rs| - 1], s, i)
      case Some(before) => SolveExtensions(g, depth, before, rs[|rs| - 1], s, i)
      case None => None
  }

  /** Every path so far, extended by every path of the next repetition from where it ends. */
  function SolveExtensions(g: Grammar, depth: nat, before: seq<Path>, r: Repetition, s: Bytes, i: nat): Answer
    decreases depth, r, 4, |before|
  {
    if before == [] then Some([])
    else
      var front := SolveExtensions(g, depth, before[..|before| - 1], r, s, i);
      if front == None then None
      else
        var last := before[|before| - 1];
        match SolveRepetition(g, depth, r, s, last.end)
        case Some(ps) => Some(front.value + ExtendedAll(last, ps, i))
        case None => None
  }

  function SolveRepetition(g: Grammar, depth: nat, r: Repetition, s: Bytes, i: nat): Answer
    decreases depth, r, 3, 0
  {
    var empty := if r.min == 0 then [EmptyIteration(i)] else [];
    if !ShouldContinue(r, s, i, 0) then Some(empty)
    else
      var first := SolveElement(g, depth, r.element, s, i);
      if first == None then None
      else
        match SolveIterations(g, depth, r, s, [first.value], StepLimit(r, s))
        case Some(iterations) =>
          var least := Max(1, r.min);
          Some(empty + (if least <= |iterations| then Flattened(iterations[least - 1..]) else []))
        case None => None
  }

  /** The paths of each number of iterations, until one has none or the maximum is reached. */
  function SolveIterations(g: Grammar, depth: nat, r: Repetition, s: Bytes, iterations: seq<seq<Path>>, steps: nat)
    : Option<seq<seq<Path>>>
    decreases depth, r, 2, steps
  {
    if |iterations| == 0 || |iterations| == r.max then Some(iterations)
    else if steps == 0 then None
    else
      match SolveNext(g, depth, r, s, iterations[|iterations| - 1], |iterations|)
      case Some(next) =>
        if next == [] then Some(iterations)
        else SolveIterations(g, depth, r, s, iterations + [next], steps - 1)
      case None => None
  }

  /** Every path so far, followed by one more match of the element. */
  function SolveNext(g: Grammar, depth: nat, r: Repetition, s: Bytes, before: seq<Path>, iteration: nat): Answer
    decreases depth, r, 1, |before|
  {
    if before == [] then Some([])
    else
      var front := SolveNext(g, depth, r, s, before[..|before| - 1], iteration);
      if front == None then None
      else
        var last := before[|before| - 1];
        if !ShouldContinue(r, s, last.end, iteration) then front
        else
          match SolveElement(g, depth, r.element, s, last.end)
          case Some(ps) => Some(front.value + IteratedAll(last, ps))
          case None => None
  }
}
