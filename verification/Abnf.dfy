/** The grammar trees of pkg/abnf, as values. */
module Abnf {
  import opened Spans
  import opened Utf8
  import opened Wrappers

  datatype Rule = Rule(name: string, alternation: Alternation)

  datatype Alternation = Alternation(concatenations: seq<Concatenation>)

  datatype Concatenation = Concatenation(repetitions: seq<Repetition>)

  datatype Repetition = Repetition(min: nat, max: Bound, element: Element)

  datatype NumValStatus = Series | Range

  /** A list element carries the standard ABNF it stands for. The characters of
      a char-val stand for bytes. */
  datatype Element =
    | Rulename(name: string)
    | Group(alternation: Alternation)
    | Optional(alternation: Alternation)
    | CharVal(sensitive: bool, value: string)
    | NumVal(base: string, status: NumValStatus, values: seq<string>)
    | List(min: nat, max: Bound, element: Element, expansion: Alternation)
    | ProseVal(prose: string)

  // ----- builders (pkg/abnf/builders.go) -----

  function Rep(min: nat, max: Bound, element: Element): Repetition {
    Repetition(min, max, element)
  }

  function One(element: Element): Repetition {
    Rep(1, 1, element)
  }

  function Cat(repetitions: seq<Repetition>): Concatenation {
    Concatenation(repetitions)
  }

  function Grp(concatenations: seq<Concatenation>): Element {
    Group(Alternation(concatenations))
  }

  function Opt(concatenations: seq<Concatenation>): Element {
    Optional(Alternation(concatenations))
  }

  function Ref(name: string): Element {
    Rulename(name)
  }

  function Str(value: string): Element {
    CharVal(false, value)
  }

  function NumRange(low: string, high: string): Element {
    NumVal("x", Range, [low, high])
  }

  function NumSeries(value: string): Element {
    NumVal("x", Series, [value])
  }

  /** Whether the repetition matches its element exactly once. */
  predicate IsSingle(r: Repetition) {
    r.min == 1 && r.max == 1
  }

  // ----- rule lookup (pkg/abnf/grammar.go) -----

  function LowerChar(c: char): char {
    if 'A' <= c <= 'Z' then (c as int + 32) as char else c
  }

  function Lower(s: string): (l: string)
    ensures |l| == |s|
  {
    seq(|s|, i requires 0 <= i < |s| => LowerChar(s[i]))
  }

  /** The rule a rulemap built from the rules holds under a lowercase name: a
      later rule overwrites an earlier one. */
  function LookupIn(rules: seq<Rule>, key: string): Option<Rule> {
    if rules == [] then None
    else if Lower(rules[|rules| - 1].name) == key then Some(rules[|rules| - 1])
    else LookupIn(rules[..|rules| - 1], key)
  }

  /** A grammar and the core rules its lookups fall back to. */
  datatype Grammar = Grammar(rules: seq<Rule>, coreRules: seq<Rule>) {
    function Lookup(name: string): Option<Rule> {
      var key := Lower(name);
      match LookupIn(rules, key)
      case Some(rule) => Some(rule)
      case None => LookupIn(coreRules, key)
    }
  }

  /** The last of the rules that have the name, whatever the case of its letters. */
  ghost predicate IsLast(rules: seq<Rule>, key: string, rule: Rule) {
    exists k :: && 0 <= k < |rules| && rules[k] == rule && Lower(rule.name) == key
                && forall j :: k < j < |rules| ==> Lower(rules[j].name) != key
  }

  ghost predicate IsNamed(rules: seq<Rule>, key: string) {
    exists k :: 0 <= k < |rules| && Lower(rules[k].name) == key
  }

  lemma {:induction false} LookupInIs(rules: seq<Rule>, key: string)
    ensures match LookupIn(rules, key)
            case Some(rule) => IsLast(rules, key, rule)
            case None => !IsNamed(rules, key)
  {
    if rules != [] {
      var front, last := rules[..|rules| - 1], rules[|rules| - 1];
      LookupInIs(front, key);
      if Lower(last.name) != key && LookupIn(front, key).Some? {
        var rule := LookupIn(front, key).value;
        var k :| && 0 <= k < |front| && front[k] == rule && Lower(rule.name) == key
                 && forall j :: k < j < |front| ==> Lower(front[j].name) != key;
        assert rules[k] == rule && forall j :: k < j < |front| ==> rules[j] == front[j];
      }
      if Lower(last.name) != key && LookupIn(front, key).None? && IsNamed(rules, key) {
        var k :| 0 <= k < |rules| && Lower(rules[k].name) == key;
        NotNamed(front, key, k, rules[k]);
      }
    }
  }

  lemma NotNamed(rules: seq<Rule>, key: string, k: nat, rule: Rule)
    requires !IsNamed(rules, key)
    ensures k < |rules| && rules[k] == rule ==> Lower(rule.name) != key
  {
  }

  /** A name means the last rule of the grammar that has it, or else the last core rule that has it. */
  lemma LookupIs(g: Grammar, name: string)
    ensures match g.Lookup(name)
            case Some(rule) =>
              if IsNamed(g.rules, Lower(name)) then IsLast(g.rules, Lower(name), rule)
              else IsLast(g.coreRules, Lower(name), rule)
            case None => !IsNamed(g.rules, Lower(name)) && !IsNamed(g.coreRules, Lower(name))
  {
    LookupInIs(g.rules, Lower(name));
    LookupInIs(g.coreRules, Lower(name));
    LastIsNamed(g.rules, Lower(name));
  }

  lemma LastIsNamed(rules: seq<Rule>, key: string)
    ensures forall rule :: IsLast(rules, key, rule) ==> IsNamed(rules, key)
  {
  }

  // ----- numerals (pkg/abnf/elements.go) -----

  function DigitValue(c: char): nat {
    if '0' <= c <= '9' then c as int - '0' as int
    else if 'a' <= c <= 'f' then c as int - 'a' as int + 10
    else if 'A' <= c <= 'F' then c as int - 'A' as int + 10
    else 16
  }

  function NumeralBase(base: string): Option<nat> {
    if base == "B" || base == "b" then Some(2)
    else if base == "D" || base == "d" then Some(10)
    else if base == "X" || base == "x" then Some(16)
    else None
  }

  function ParseDigits(value: string, base: nat): Option<nat> {
    if value == "" then Some(0)
    else
      var digit := DigitValue(value[|value| - 1]);
      match ParseDigits(value[..|value| - 1], base)
      case Some(prefix) => if digit < base then Some(prefix * base + digit) else None
      case None => None
  }

  /** The code point a numeral stands for, or None where ParseNumVal reports an invalid numeral. */
  function ParseNumVal(value: string, base: string): (r: Option<int>)
    ensures r.Some? ==> 0 <= r.value <= MAX_RUNE
  {
    match NumeralBase(base)
    case None => None
    case Some(b) =>
      if value == "" then None
      else
        match ParseDigits(value, b)
        case Some(number) => if number > MAX_RUNE then None else Some(number)
        case None => None
  }

  /** The code points of the numerals, or None if any is invalid. */
  function Runes(values: seq<string>, base: string): (r: Option<seq<int>>)
    ensures r.Some? ==> |r.value| == |values|
    ensures r.Some? ==> forall i :: 0 <= i < |values| ==> ParseNumVal(values[i], base) == Some(r.value[i])
  {
    if values == [] then Some([])
    else
      var runes, rune := Runes(values[..|values| - 1], base), ParseNumVal(values[|values| - 1], base);
      if runes.Some? && rune.Some? then Some(runes.value + [rune.value]) else None
  }
}
