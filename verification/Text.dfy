/** The minified text of a grammar tree (pkg/abnf/minify/minify.go). */
module Text {
  import opened Spans
  import opened Wrappers
  import opened Abnf

  /** strconv.Itoa on a count. */
  function Itoa(n: nat): string {
    if n < 10 then [(n + 48) as char] else Itoa(n / 10) + [(n % 10 + 48) as char]
  }

  function Join(values: seq<string>, separator: string): string {
    if values == [] then ""
    else if |values| == 1 then values[0]
    else Join(values[..|values| - 1], separator) + separator + values[|values| - 1]
  }

  function CharValText(sensitive: bool, value: string): string {
    (if sensitive then "%s\"" else "\"") + value + "\""
  }

  function NumValText(base: string, status: NumValStatus, values: seq<string>): string {
    "%" + base + Join(values, if status == Range then "-" else ".")
  }

  function CountText(count: nat): string {
    if count == 0 then "" else Itoa(count)
  }

  function BoundText(bound: Bound): string {
    if bound == INF then "" else Itoa(bound)
  }

  /** The repeat prefix of an element. */
  function RepeatText(min: nat, max: Bound): string {
    if min == max then (if min == 1 then "" else Itoa(min))
    else CountText(min) + "*" + BoundText(max)
  }

  function ElementText(e: Element): string
    decreases e, 0
  {
    match e
    case Rulename(name) => name
    case Group(a) => "(" + AlternationText(a) + ")"
    case Optional(a) => "[" + AlternationText(a) + "]"
    case CharVal(sensitive, value) => CharValText(sensitive, value)
    case NumVal(base, status, values) => NumValText(base, status, values)
    case List(min, max, element, _) => CountText(min) + "#" + BoundText(max) + ElementText(element)
    case ProseVal(prose) => "<" + prose + ">"
  }

  function AlternationText(a: Alternation): string
    decreases a, 1
  {
    AlternativesText(a.concatenations)
  }

  function AlternativesText(cs: seq<Concatenation>): string
    decreases cs, 0
  {
    if cs == [] then ""
    else
      AlternativesText(cs[..|cs| - 1])
      + (if |cs| == 1 then "" else "/")
      + ConcatenationText(cs[|cs| - 1])
  }

  function ConcatenationText(c: Concatenation): string
    decreases c, 1
  {
    RepetitionsText(c.repetitions)
  }

  function RepetitionsText(rs: seq<Repetition>): string
    decreases rs, 0
  {
    if rs == [] then ""
    else
      RepetitionsText(rs[..|rs| - 1])
      + (if |rs| == 1 then "" else " ")
      + RepetitionText(rs[|rs| - 1])
  }

  function RepetitionText(r: Repetition): string
    decreases r, 1
  {
    RepeatText(r.min, r.max) + ElementText(r.element)
  }

  function RuleText(rule: Rule): string {
    rule.name + "=" + AlternationText(rule.alternation) + "\r\n"
  }

  function RulesText(rules: seq<Rule>): string {
    if rules == [] then "" else RulesText(rules[..|rules| - 1]) + RuleText(rules[|rules| - 1])
  }
}
