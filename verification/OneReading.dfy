/** Reading what the writer of grammars (pkg/abnf/minify/minify.go:112-215)
    writes, by the notation of RFC 5234, RFC 7405 and section 5.6.1 of RFC 9110
    alone: the reader gets every well-formed grammar back, so no two are written
    the same. */
module OneReading {
  import opened Spans
  import opened Wrappers
  import opened Abnf
  import opened Text
  import opened TextDerivable

  // ----- trees without their expansions -----

  /** What a list says, apart from the expansion that is kept with it. */
  function Bare(e: Element): Element
    decreases e, 0
  {
    match e
    case Group(a) => Group(BareAlternation(a))
    case Optional(a) => Optional(BareAlternation(a))
    case List(min, max, element, _) => List(min, max, Bare(element), Alternation([]))
    case _ => e
  }

  function BareAlternation(a: Alternation): Alternation
    decreases a, 1
  {
    Alternation(BareAlternatives(a.concatenations))
  }

  function BareAlternatives(cs: seq<Concatenation>): seq<Concatenation>
    decreases cs, 0
  {
    if cs == [] then [] else [Cat(BareRepetitions(cs[0].repetitions))] + BareAlternatives(cs[1..])
  }

  function BareRepetitions(rs: seq<Repetition>): seq<Repetition>
    decreases rs, 0
  {
    if rs == [] then [] else [BareRepetition(rs[0])] + BareRepetitions(rs[1..])
  }

  function BareRepetition(r: Repetition): Repetition
    decreases r, 1
  {
    Repetition(r.min, r.max, Bare(r.element))
  }

  function BareRules(rules: seq<Rule>): seq<Rule> {
    if rules == [] then []
    else [Rule(rules[0].name, BareAlternation(rules[0].alternation))] + BareRules(rules[1..])
  }

  // ----- the reader -----

  /** What was read, and the text after it. */
  datatype Read<T> = Read(value: T, rest: string)

  /** The first characters of a kind. */
  function Run(s: string, of: char -> bool): (run: string)
    ensures |run| <= |s|
  {
    if s == "" || !of(s[0]) then "" else [s[0]] + Run(s[1..], of)
  }

  predicate NotQuote(c: char) {
    c != '"'
  }

  predicate NotAngle(c: char) {
    c != '>'
  }

  /** What decimal digits stand for. */
  function Decimal(digits: string): nat
    requires forall i :: 0 <= i < |digits| ==> IsDigit(digits[i])
  {
    if digits == "" then 0
    else 10 * Decimal(digits[..|digits| - 1]) + DigitValue(digits[|digits| - 1])
  }

  /** The rest of a text that begins with some character. */
  function After(s: string, c: char): (rest: Option<string>)
    ensures rest.Some? ==> |rest.value| < |s|
  {
    if s != "" && s[0] == c then Some(s[1..]) else None
  }

  /** Characters up to a closing one. */
  function ReadUpTo(s: string, of: char -> bool, close: char): (r: Option<Read<string>>)
    ensures r.Some? ==> |r.value.rest| < |s|
  {
    var run := Run(s, of);
    match After(s[|run|..], close)
    case Some(rest) => Some(Read(run, rest))
    case None => None
  }

  /** Numerals with a separator before each. */
  function ReadMore(s: string, separator: char): (r: Read<seq<string>>)
    ensures |r.rest| <= |s|
    decreases |s|
  {
    match After(s, separator)
    case None => Read([], s)
    case Some(t) =>
      var numeral := Run(t, IsHexdig);
      var more := ReadMore(t[|numeral|..], separator);
      Read([numeral] + more.value, more.rest)
  }

  /** A range has a hyphen, a series periods or nothing. */
  function ReadNumVal(base: string, s: string): (r: Read<Element>)
    ensures |r.rest| <= |s|
  {
    var first := Run(s, IsHexdig);
    var rest := s[|first|..];
    var status := if After(rest, '-').Some? then Range else Series;
    var more := ReadMore(rest, if status == Range then '-' else '.');
    Read(NumVal(base, status, [first] + more.value), more.rest)
  }

  function ReadElement(s: string): (r: Option<Read<Element>>)
    ensures r.Some? ==> |r.value.rest| < |s|
    decreases |s|, 0
  {
    if s == "" then None
    else if s[0] == '(' then
      match ReadBracketed(s[1..], ')')
      case Some(r) => Some(Read(Group(r.value), r.rest))
      case None => None
    else if s[0] == '[' then
      match ReadBracketed(s[1..], ']')
      case Some(r) => Some(Read(Optional(r.value), r.rest))
      case None => None
    else if s[0] == '"' then ReadCharVal(s[1..], false)
    else if s[0] == '%' then
      if |s| < 2 then None
      else if s[1] == 's' then if After(s[2..], '"').None? then None else ReadCharVal(s[3..], true)
      else
        var r := ReadNumVal(s[1..2], s[2..]);
        Some(r)
    else if s[0] == '<' then
      match ReadUpTo(s[1..], NotAngle, '>')
      case Some(r) => Some(Read(ProseVal(r.value), r.rest))
      case None => None
    else
      var name := Run(s, IsNameChar);
      if name == "" then None else Some(Read(Rulename(name), s[|name|..]))
  }

  function ReadCharVal(s: string, sensitive: bool): (r: Option<Read<Element>>)
    ensures r.Some? ==> |r.value.rest| < |s|
  {
    match ReadUpTo(s, NotQuote, '"')
    case Some(r) => Some(Read(CharVal(sensitive, r.value), r.rest))
    case None => None
  }

  function ReadBracketed(s: string, close: char): (r: Option<Read<Alternation>>)
    ensures r.Some? ==> |r.value.rest| < |s|
    decreases |s|, 4
  {
    match ReadAlternatives(s)
    case None => None
    case Some(r) =>
      match After(r.rest, close)
      case Some(rest) => Some(Read(Alternation(r.value), rest))
      case None => None
  }

  /** Digits, a star and digits are the least and the greatest count, digits
      alone the only one; a number sign in place of the star makes a list. */
  function ReadRepetition(s: string): (r: Option<Read<Repetition>>)
    ensures r.Some? ==> |r.value.rest| < |s|
    decreases |s|, 1
  {
    var least := Run(s, IsDigit);
    RunIn(s, IsDigit);
    var rest := s[|least|..];
    if rest == "" || (rest[0] != '*' && rest[0] != '#') then
      match ReadElement(rest)
      case Some(r) =>
        var count := if least == "" then 1 else Decimal(least);
        Some(Read(Repetition(count, count, r.value), r.rest))
      case None => None
    else
      var greatest := Run(rest[1..], IsDigit);
      RunIn(rest[1..], IsDigit);
      var min, max: Bound := Decimal(least), if greatest == "" then INF else Decimal(greatest);
      match ReadElement(rest[1..][|greatest|..])
      case Some(r) =>
        Some(Read(if rest[0] == '*' then Repetition(min, max, r.value)
                  else One(List(min, max, r.value, Alternation([]))), r.rest))
      case None => None
  }

  function ReadRepetitions(s: string): (r: Option<Read<seq<Repetition>>>)
    ensures r.Some? ==> |r.value.rest| < |s|
    decreases |s|, 2
  {
    match ReadRepetition(s)
    case None => None
    case Some(first) =>
      match After(first.rest, ' ')
      case None => Some(Read([first.value], first.rest))
      case Some(t) =>
        match ReadRepetitions(t)
        case Some(r) => Some(Read([first.value] + r.value, r.rest))
        case None => None
  }

  function ReadAlternatives(s: string): (r: Option<Read<seq<Concatenation>>>)
    ensures r.Some? ==> |r.value.rest| < |s|
    decreases |s|, 3
  {
    match ReadRepetitions(s)
    case None => None
    case Some(first) =>
      match After(first.rest, '/')
      case None => Some(Read([Cat(first.value)], first.rest))
      case Some(t) =>
        match ReadAlternatives(t)
        case Some(r) => Some(Read([Cat(first.value)] + r.value, r.rest))
        case None => None
  }

  /** A name, an equals sign, alternatives and a line end. */
  function ReadRule(s: string): (r: Option<Read<Rule>>)
    ensures r.Some? ==> |r.value.rest| < |s|
  {
    var name := Run(s, IsNameChar);
    match After(s[|name|..], '=')
    case None => None
    case Some(t) =>
      match ReadAlternatives(t)
      case None => None
      case Some(r) =>
        if |r.rest| >= 2 && r.rest[..2] == "\r\n" then Some(Read(Rule(name, Alternation(r.value)), r.rest[2..]))
        else None
  }

  function ReadRules(s: string): Option<seq<Rule>>
    decreases |s|
  {
    if s == "" then Some([])
    else
      match ReadRule(s)
      case None => None
      case Some(r) =>
        match ReadRules(r.rest)
        case Some(rules) => Some([r.value] + rules)
        case None => None
  }

  // ----- runs of characters -----

  predicate StopsRun(s: string, of: char -> bool) {
    s == "" || !of(s[0])
  }

  predicate AllIn(s: string, of: char -> bool) {
    forall i :: 0 <= i < |s| ==> of(s[i])
  }

  lemma {:induction false} RunIn(s: string, of: char -> bool)
    ensures AllIn(Run(s, of), of)
  {
    if s != "" && of(s[0]) {
      RunIn(s[1..], of);
    }
  }

  /** Where some characters end is seen from what follows them. */
  lemma {:induction false} RunIs(x: string, s: string, of: char -> bool)
    requires AllIn(x, of) && StopsRun(s, of)
    ensures Run(x + s, of) == x && (x + s)[|x|..] == s
  {
    if x == "" {
      assert x + s == s;
    } else {
      assert (x + s)[0] == x[0] && (x + s)[1..] == x[1..] + s;
      RunIs(x[1..], s, of);
      assert x == [x[0]] + x[1..];
    }
  }

  lemma AfterIs(c: char, s: string)
    ensures After([c] + s, c) == Some(s)
  {
  }

  lemma UpToIs(x: string, of: char -> bool, close: char, s: string)
    requires AllIn(x, of) && !of(close)
    ensures ReadUpTo(x + ([close] + s), of, close) == Some(Read(x, s))
  {
    RunIs(x, [close] + s, of);
    AfterIs(close, s);
  }

  // ----- counts -----

  lemma {:induction false} DecimalIs(n: nat)
    ensures AllIn(Itoa(n), IsDigit) && Itoa(n) != "" && Decimal(Itoa(n)) == n
  {
    ItoaDigits(n);
    var s := Itoa(n);
    if n < 10 {
      assert s[..0] == "";
    } else {
      DecimalIs(n / 10);
      assert s[..|s| - 1] == Itoa(n / 10);
    }
  }

  // ----- leaves -----

  /** What can follow an element: nothing, a space, or a delimiter. */
  predicate Follows(s: string) {
    s == "" || s[0] == ' ' || s[0] == '/' || s[0] == ')' || s[0] == ']' || s[0] == '\r'
  }

  /** With which character an element begins. */
  predicate Begins(e: Element, c: char) {
    match e
    case Rulename(_) => IsAlpha(c)
    case Group(_) => c == '('
    case Optional(_) => c == '['
    case CharVal(sensitive, _) => c == if sensitive then '%' else '"'
    case NumVal(_, _, _) => c == '%'
    case List(_, _, _, _) => false
    case ProseVal(_) => c == '<'
  }

  lemma ElementBegins(e: Element)
    requires ElementOk(e)
    ensures ElementText(e) != "" && Begins(e, ElementText(e)[0])
    ensures e.CharVal? && e.sensitive ==> |ElementText(e)| >= 2 && ElementText(e)[1] == 's'
    ensures e.NumVal? ==> |ElementText(e)| >= 2 && ElementText(e)[1] in "bBdDxX"
  {
    match e
    case Rulename(name) =>
    case CharVal(sensitive, value) =>
    case NumVal(base, status, values) =>
      assert ElementText(e) == "%" + base + Join(values, if status == Range then "-" else ".");
    case _ =>
  }

  lemma {:induction false} JoinFromFront(values: seq<string>, separator: string)
    requires |values| > 1
    ensures Join(values, separator) == values[0] + separator + Join(values[1..], separator)
  {
    var front, last := values[..|values| - 1], values[|values| - 1];
    if |values| == 2 {
      assert values[1..] == [values[1]];
    } else {
      JoinFromFront(front, separator);
      assert values[1..][..|values| - 2] == front[1..] && values[1..][|values| - 2] == last;
      assert Join(values[1..], separator) == Join(front[1..], separator) + separator + last;
      assert values[0] + separator + (Join(front[1..], separator) + separator + last)
          == values[0] + separator + Join(front[1..], separator) + separator + last;
    }
  }

  predicate Numerals(values: seq<string>) {
    values != [] && forall i :: 0 <= i < |values| ==> values[i] != "" && AllIn(values[i], IsHexdig)
  }

  /** What follows the first of some values. */
  function AfterFirst(values: seq<string>, separator: string, s: string): string
    requires values != []
  {
    if |values| == 1 then s else separator + (Join(values[1..], separator) + s)
  }

  lemma JoinThen(values: seq<string>, separator: string, s: string)
    requires values != []
    ensures Join(values, separator) + s == values[0] + AfterFirst(values, separator, s)
  {
    hide Join;
    if |values| > 1 {
      JoinFromFront(values, separator);
      FourParts(values[0], separator, Join(values[1..], separator), s);
    } else {
      assert values == [values[0]];
      JoinOne(values[0], separator);
    }
  }

  lemma JoinOne(value: string, separator: string)
    ensures Join([value], separator) == value
  {
  }

  lemma FourParts(a: string, b: string, c: string, d: string)
    ensures a + b + c + d == a + (b + (c + d))
  {
  }

  lemma NumeralsOk(base: string, values: seq<string>)
    requires values != [] && forall i :: 0 <= i < |values| ==> NumeralOk(base, values[i])
    ensures Numerals(values)
  {
  }

  lemma {:induction false} MoreIs(values: seq<string>, separator: char, s: string)
    requires Numerals(values) && (separator == '.' || separator == '-') && Follows(s)
    ensures ReadMore([separator] + (Join(values, [separator]) + s), separator) == Read(values, s)
    decreases |values|
  {
    hide Join;
    var text, rest := Join(values, [separator]) + s, AfterFirst(values, [separator], s);
    JoinThen(values, [separator], s);
    AfterIs(separator, text);
    RunIs(values[0], rest, IsHexdig);
    assert values == [values[0]] + values[1..];
    if |values| > 1 {
      MoreIs(values[1..], separator, s);
    } else {
      assert After(s, separator) == None;
    }
  }

  lemma NumValIs(base: string, status: NumValStatus, values: seq<string>, s: string)
    requires Numerals(values) && Follows(s) && (status == Range ==> |values| == 2)
    ensures var separator := if status == Range then "-" else ".";
            ReadNumVal(base, Join(values, separator) + s) == Read(NumVal(base, status, values), s)
  {
    hide Join, ReadMore, Run, After, ReadNumVal;
    var c := if status == Range then '-' else '.';
    JoinThen(values, [c], s);
    FirstNumeral(base, values, c, s);
    if |values| > 1 {
      MoreIs(values[1..], c, s);
      SeparatorRead(c, Join(values[1..], [c]) + s);
      assert values == [values[0]] + values[1..];
    } else {
      NoMore(s);
      assert values == [values[0]] + [];
    }
  }

  /** After the first numeral, what separates it from the next says what follows. */
  lemma FirstNumeral(base: string, values: seq<string>, c: char, s: string)
    requires Numerals(values) && Follows(s) && (c == '-' || c == '.')
    ensures var rest := AfterFirst(values, [c], s);
            var status := if After(rest, '-').Some? then Range else Series;
            var more := ReadMore(rest, if status == Range then '-' else '.');
            ReadNumVal(base, values[0] + rest) == Read(NumVal(base, status, [values[0]] + more.value), more.rest)
  {
    hide Join, Run, ReadMore;
    RunIs(values[0], AfterFirst(values, [c], s), IsHexdig);
  }

  lemma SeparatorRead(c: char, s: string)
    requires c == '-' || c == '.'
    ensures After([c] + s, '-').Some? <==> c == '-'
  {
  }

  lemma NoMore(s: string)
    requires Follows(s)
    ensures After(s, '-') == None && ReadMore(s, '.') == Read([], s)
  {
  }

  // ----- repeat prefixes -----

  /** The digits before the mark of a repeat prefix. */
  function Least(r: Repetition): string {
    if r.element.List? then CountText(r.element.min)
    else if r.min == r.max then (if r.min == 1 then "" else Itoa(r.min))
    else CountText(r.min)
  }

  function Mark(r: Repetition): string {
    if r.element.List? then "#" else if r.min == r.max then "" else "*"
  }

  /** The digits after it. */
  function Greatest(r: Repetition): string {
    if r.element.List? then BoundText(r.element.max) else if r.min == r.max then "" else BoundText(r.max)
  }

  function Core(r: Repetition): Element {
    if r.element.List? then r.element.element else r.element
  }

  lemma InParts(r: Repetition, s: string)
    requires RepetitionOk(r)
    ensures RepetitionText(r) + s == Least(r) + (Mark(r) + (Greatest(r) + (ElementText(Core(r)) + s)))
  {
    hide ElementText;
    var e := r.element;
    if e.List? {
      ListInParts(r);
      FiveParts(CountText(e.min), "#", BoundText(e.max), ElementText(e.element), s);
    } else if r.min == r.max {
      FiveParts(Least(r), "", "", ElementText(e), s);
      assert Least(r) + "" + "" == Least(r);
    } else {
      FiveParts(CountText(r.min), "*", BoundText(r.max), ElementText(e), s);
    }
  }

  lemma ListInParts(r: Repetition)
    requires IsSingle(r) && r.element.List?
    ensures RepetitionText(r)
         == CountText(r.element.min) + "#" + BoundText(r.element.max) + ElementText(r.element.element)
  {
  }

  lemma FiveParts(a: string, b: string, c: string, d: string, e: string)
    ensures a + b + c + d + e == a + (b + (c + (d + e)))
  {
  }

  lemma PartsAreDigits(r: Repetition)
    ensures AllIn(Least(r), IsDigit) && AllIn(Greatest(r), IsDigit)
  {
    if r.element.List? {
      CountsAreDigits(r.element.min, r.element.max);
    } else {
      CountsAreDigits(r.min, r.max);
    }
  }

  lemma CoreBegins(r: Repetition, s: string)
    requires RepetitionOk(r)
    ensures ElementOk(Core(r)) && ElementText(Core(r)) + s != ""
    ensures var c := (ElementText(Core(r)) + s)[0]; !IsDigit(c) && c != '*' && c != '#'
  {
    hide ElementText;
    ElementBegins(Core(r));
    assert (ElementText(Core(r)) + s)[0] == ElementText(Core(r))[0];
  }

  lemma NoGreatest(r: Repetition)
    ensures Mark(r) == "" ==> Greatest(r) == ""
    ensures Mark(r) == "" || Mark(r) == "*" || Mark(r) == "#"
  {
  }

  /** The mark, or else the element, is the first that is no digit. */
  lemma MarkStops(r: Repetition, e: string)
    requires e != "" && !IsDigit(e[0]) && e[0] != '*' && e[0] != '#'
    requires Mark(r) == "" ==> Greatest(r) == ""
    ensures var rest := Mark(r) + (Greatest(r) + e);
            && rest != "" && StopsRun(rest, IsDigit)
            && (Mark(r) == if rest[0] == '*' then "*" else if rest[0] == '#' then "#" else "")
  {
    hide Greatest;
    if Mark(r) == "" {
      assert "" + ("" + e) == e;
    }
  }

  // ----- trees -----

  /** What can follow a concatenation. */
  predicate FollowsRepetitions(s: string) {
    s == "" || s[0] == '/' || s[0] == ')' || s[0] == ']' || s[0] == '\r'
  }

  /** What can follow an alternation. */
  predicate FollowsAlternatives(s: string) {
    s == "" || s[0] == ')' || s[0] == ']' || s[0] == '\r'
  }

  lemma {:induction false} RepetitionsFromFront(rs: seq<Repetition>)
    requires |rs| > 1
    ensures RepetitionsText(rs) == RepetitionText(rs[0]) + " " + RepetitionsText(rs[1..])
  {
    hide RepetitionText;
    var front, last := rs[..|rs| - 1], rs[|rs| - 1];
    assert RepetitionsText(rs) == RepetitionsText(front) + " " + RepetitionText(last);
    if |rs| == 2 {
      assert front == [rs[0]] && rs[1..] == [rs[1]];
      assert [rs[0]][..0] == [] && [rs[1]][..0] == [];
    } else {
      RepetitionsFromFront(front);
      var rest := rs[1..];
      assert rest[..|rest| - 1] == front[1..] && rest[|rest| - 1] == last;
      assert RepetitionsText(rest) == RepetitionsText(front[1..]) + " " + RepetitionText(last);
      Regrouped(RepetitionText(rs[0]), " ", RepetitionsText(front[1..]), RepetitionText(last));
    }
  }

  lemma Regrouped(a: string, b: string, c: string, d: string)
    ensures a + b + c + b + d == a + b + (c + b + d)
  {
  }

  lemma {:induction false} AlternativesFromFront(cs: seq<Concatenation>)
    requires |cs| > 1
    ensures AlternativesText(cs) == ConcatenationText(cs[0]) + "/" + AlternativesText(cs[1..])
  {
    hide ConcatenationText;
    var front, last := cs[..|cs| - 1], cs[|cs| - 1];
    assert AlternativesText(cs) == AlternativesText(front) + "/" + ConcatenationText(last);
    if |cs| == 2 {
      assert front == [cs[0]] && cs[1..] == [cs[1]];
      assert [cs[0]][..0] == [] && [cs[1]][..0] == [];
    } else {
      AlternativesFromFront(front);
      var rest := cs[1..];
      assert rest[..|rest| - 1] == front[1..] && rest[|rest| - 1] == last;
      assert AlternativesText(rest) == AlternativesText(front[1..]) + "/" + ConcatenationText(last);
      Regrouped(ConcatenationText(cs[0]), "/", AlternativesText(front[1..]), ConcatenationText(last));
    }
  }

  /** What follows the first of some repetitions. */
  function AfterRepetition(rs: seq<Repetition>, s: string): string
    requires rs != []
  {
    if |rs| == 1 then s else " " + (RepetitionsText(rs[1..]) + s)
  }

  lemma RepetitionsThen(rs: seq<Repetition>, s: string)
    requires rs != []
    ensures RepetitionsText(rs) + s == RepetitionText(rs[0]) + AfterRepetition(rs, s)
  {
    hide RepetitionText;
    if |rs| == 1 {
      assert rs[..0] == [];
    } else {
      RepetitionsFromFront(rs);
      hide RepetitionsText;
      FourParts(RepetitionText(rs[0]), " ", RepetitionsText(rs[1..]), s);
    }
  }

  function AfterConcatenation(cs: seq<Concatenation>, s: string): string
    requires cs != []
  {
    if |cs| == 1 then s else "/" + (AlternativesText(cs[1..]) + s)
  }

  lemma AlternativesThen(cs: seq<Concatenation>, s: string)
    requires cs != []
    ensures AlternativesText(cs) + s == ConcatenationText(cs[0]) + AfterConcatenation(cs, s)
  {
    hide ConcatenationText;
    if |cs| == 1 {
      assert cs[..0] == [];
    } else {
      AlternativesFromFront(cs);
      hide AlternativesText;
      FourParts(ConcatenationText(cs[0]), "/", AlternativesText(cs[1..]), s);
    }
  }

  lemma NameIsRead(name: string, s: string)
    requires NameOk(name) && Follows(s)
    ensures ReadElement(name + s) == Some(Read(Rulename(name), s))
  {
    hide ReadBracketed, ReadNumVal;
    RunIs(name, s, IsNameChar);
    assert (name + s)[0] == name[0];
  }

  lemma CharValIsRead(sensitive: bool, value: string, s: string)
    requires AllIn(value, IsQuotable)
    ensures ReadElement(CharValText(sensitive, value) + s) == Some(Read(CharVal(sensitive, value), s))
  {
    hide ReadBracketed, ReadNumVal, ReadUpTo, Run;
    UpToIs(value, NotQuote, '"', s);
    var quoted := value + ("\"" + s);
    assert CharValText(sensitive, value) + s == (if sensitive then "%s\"" else "\"") + quoted;
    var text := CharValText(sensitive, value) + s;
    if sensitive {
      assert text[2..] == "\"" + quoted && text[3..] == quoted;
    } else {
      assert text[1..] == quoted;
    }
  }

  lemma NumValIsRead(base: string, status: NumValStatus, values: seq<string>, s: string)
    requires NumValOk(base, status, values) && Follows(s)
    ensures ReadElement(NumValText(base, status, values) + s) == Some(Read(NumVal(base, status, values), s))
  {
    hide ReadBracketed, ReadNumVal, Join, Run;
    assert |base| == 1 && base[0] in "bBdDxX";
    NumeralsOk(base, values);
    NumValIs(base, status, values, s);
    var text, rest := NumValText(base, status, values) + s, Join(values, if status == Range then "-" else ".") + s;
    assert text == "%" + base + rest;
    assert text[1..2] == base && text[2..] == rest;
  }

  lemma ProseIsRead(prose: string, s: string)
    requires AllIn(prose, IsProse)
    ensures ReadElement("<" + prose + ">" + s) == Some(Read(ProseVal(prose), s))
  {
    hide ReadBracketed, ReadNumVal, ReadUpTo, Run;
    UpToIs(prose, NotAngle, '>', s);
    var text := "<" + prose + ">" + s;
    assert text[1..] == prose + (">" + s);
  }

  lemma {:induction false} ElementIsRead(e: Element, s: string)
    requires ElementOk(e) && Follows(s)
    ensures ReadElement(ElementText(e) + s) == Some(Read(Bare(e), s))
    decreases e, 0
  {
    hide ReadAlternatives, AlternativesText, CharValText, NumValText;
    match e
    case Rulename(name) => NameIsRead(name, s);
    case Group(a) => BracketsAreRead('(', a, ')', s);
    case Optional(a) => BracketsAreRead('[', a, ']', s);
    case CharVal(sensitive, value) => CharValIsRead(sensitive, value, s);
    case NumVal(base, status, values) => NumValIsRead(base, status, values, s);
    case ProseVal(prose) => ProseIsRead(prose, s);
  }

  lemma {:induction false} BracketsAreRead(open: char, a: Alternation, close: char, s: string)
    requires AlternationOk(a) && (close == ')' || close == ']')
    ensures ([open] + AlternationText(a) + [close] + s)[0] == open
    ensures ReadBracketed(([open] + AlternationText(a) + [close] + s)[1..], close) == Some(Read(BareAlternation(a), s))
    decreases a, 1
  {
    hide ReadAlternatives, AlternativesText;
    AlternativesAreRead(a.concatenations, [close] + s);
    AfterIs(close, s);
    FourParts([open], AlternationText(a), [close], s);
    assert ([open] + AlternationText(a) + [close] + s)[1..] == AlternationText(a) + ([close] + s);
  }

  lemma {:induction false} RepetitionIsRead(r: Repetition, s: string)
    requires RepetitionOk(r) && Follows(s)
    ensures ReadRepetition(RepetitionText(r) + s) == Some(Read(BareRepetition(r), s))
    decreases r, 1
  {
    hide ElementText, RepetitionText, ReadElement, Least, Mark, Greatest;
    var e := ElementText(Core(r)) + s;
    var after := Greatest(r) + e;
    InParts(r, s);
    PartsAreDigits(r);
    CoreBegins(r, s);
    NoGreatest(r);
    MarkStops(r, e);
    RunIs(Least(r), Mark(r) + after, IsDigit);
    RunIs(Greatest(r), e, IsDigit);
    ElementIsRead(Core(r), s);
    if Mark(r) == "" {
      assert Mark(r) + after == e;
    } else {
      assert (Mark(r) + after)[1..] == after;
    }
    CountsAreRead(r);
  }

  /** The digits before and after the mark stand for the counts. */
  lemma CountsAreRead(r: Repetition)
    requires RepetitionOk(r)
    ensures AllIn(Least(r), IsDigit) && AllIn(Greatest(r), IsDigit)
    ensures Mark(r) == "" ==> !r.element.List? && r.min == r.max == if Least(r) == "" then 1 else Decimal(Least(r))
    ensures Mark(r) == "*" ==> !r.element.List? && r.min == Decimal(Least(r))
                               && r.max == if Greatest(r) == "" then INF else Decimal(Greatest(r))
    ensures Mark(r) == "#" ==> r.element.List? && IsSingle(r) && r.element.min == Decimal(Least(r))
                               && r.element.max == if Greatest(r) == "" then INF else Decimal(Greatest(r))
  {
    hide ElementOk;
    var e := r.element;
    PartsAreDigits(r);
    DecimalIs(r.min);
    if r.max != INF {
      DecimalIs(r.max);
    }
    if e.List? {
      DecimalIs(e.min);
      if e.max != INF {
        DecimalIs(e.max);
      }
    }
  }

  lemma {:induction false} RepetitionsAreRead(rs: seq<Repetition>, s: string)
    requires rs != [] && (forall i :: 0 <= i < |rs| ==> RepetitionOk(rs[i])) && FollowsRepetitions(s)
    ensures ReadRepetitions(RepetitionsText(rs) + s) == Some(Read(BareRepetitions(rs), s))
    decreases rs, 0
  {
    hide RepetitionText, RepetitionsText, RepetitionOk, BareRepetition, ReadRepetition;
    var rest := AfterRepetition(rs, s);
    RepetitionsThen(rs, s);
    RepetitionIsRead(rs[0], rest);
    if |rs| > 1 {
      AfterIs(' ', RepetitionsText(rs[1..]) + s);
      RepetitionsAreRead(rs[1..], s);
    } else {
      assert rs[1..] == [] && BareRepetitions(rs) == [BareRepetition(rs[0])] + [] == [BareRepetition(rs[0])];
      assert After(s, ' ') == None;
    }
  }

  lemma {:induction false} AlternativesAreRead(cs: seq<Concatenation>, s: string)
    requires cs != [] && (forall i :: 0 <= i < |cs| ==> ConcatenationOk(cs[i])) && FollowsAlternatives(s)
    ensures ReadAlternatives(AlternativesText(cs) + s) == Some(Read(BareAlternatives(cs), s))
    decreases cs, 0
  {
    hide RepetitionsText, AlternativesText, RepetitionOk, BareRepetitions, ReadRepetitions;
    var rest := AfterConcatenation(cs, s);
    AlternativesThen(cs, s);
    assert ConcatenationOk(cs[0]);
    RepetitionsAreRead(cs[0].repetitions, rest);
    if |cs| > 1 {
      AfterIs('/', AlternativesText(cs[1..]) + s);
      AlternativesAreRead(cs[1..], s);
    } else {
      var c := Cat(BareRepetitions(cs[0].repetitions));
      assert cs[1..] == [] && BareAlternatives(cs) == [c] + [] == [c];
      assert After(s, '/') == None;
    }
  }

  // ----- grammars -----

  lemma {:induction false} RulesFromFront(rules: seq<Rule>)
    requires rules != []
    ensures RulesText(rules) == RuleText(rules[0]) + RulesText(rules[1..])
  {
    hide RuleText;
    var front, last := rules[..|rules| - 1], rules[|rules| - 1];
    if |rules| == 1 {
      assert rules[1..] == [] && front == [];
    } else {
      RulesFromFront(front);
      var rest := rules[1..];
      assert rest[..|rest| - 1] == front[1..] && rest[|rest| - 1] == last;
      assert RuleText(rules[0]) + RulesText(front[1..]) + RuleText(last)
          == RuleText(rules[0]) + (RulesText(front[1..]) + RuleText(last));
    }
  }

  lemma RuleThen(rule: Rule, s: string)
    ensures RuleText(rule) + s
         == rule.name + ("=" + (AlternativesText(rule.alternation.concatenations) + ("\r\n" + s)))
  {
    hide AlternativesText;
    FiveParts(rule.name, "=", AlternationText(rule.alternation), "\r\n", s);
  }

  // ----- expansions are not written -----

  lemma {:induction false} BareElementText(e: Element)
    ensures ElementText(Bare(e)) == ElementText(e)
    decreases e, 0
  {
    hide AlternativesText;
    match e
    case Group(a) => BareAlternativesText(a.concatenations);
    case Optional(a) => BareAlternativesText(a.concatenations);
    case List(_, _, element, _) => BareElementText(element);
    case _ =>
  }

  lemma {:induction false} BareRepetitionText(r: Repetition)
    ensures RepetitionText(BareRepetition(r)) == RepetitionText(r)
    decreases r, 1
  {
    hide ElementText;
    BareElementText(r.element);
  }

  lemma {:induction false} BareRepetitionsText(rs: seq<Repetition>)
    ensures RepetitionsText(BareRepetitions(rs)) == RepetitionsText(rs)
    ensures |BareRepetitions(rs)| == |rs|
    decreases rs, 0
  {
    if rs != [] {
      var bare := BareRepetitions(rs);
      assert bare[0] == BareRepetition(rs[0]) && bare[1..] == BareRepetitions(rs[1..]);
      hide RepetitionsText, RepetitionText, BareRepetition;
      BareRepetitionText(rs[0]);
      BareRepetitionsText(rs[1..]);
      RepetitionsThen(rs, "");
      RepetitionsThen(bare, "");
      assert RepetitionsText(rs) + "" == RepetitionsText(rs) && RepetitionsText(bare) + "" == RepetitionsText(bare);
    }
  }

  lemma {:induction false} BareAlternativesText(cs: seq<Concatenation>)
    ensures AlternativesText(BareAlternatives(cs)) == AlternativesText(cs)
    ensures |BareAlternatives(cs)| == |cs|
    decreases cs, 0
  {
    if cs != [] {
      var bare := BareAlternatives(cs);
      assert bare[0] == Cat(BareRepetitions(cs[0].repetitions)) && bare[1..] == BareAlternatives(cs[1..]);
      hide AlternativesText, RepetitionsText, BareRepetitions;
      BareRepetitionsText(cs[0].repetitions);
      BareAlternativesText(cs[1..]);
      AlternativesThen(cs, "");
      AlternativesThen(bare, "");
      assert AlternativesText(cs) + "" == AlternativesText(cs) && AlternativesText(bare) + "" == AlternativesText(bare);
    }
  }

  lemma {:induction false} BareRulesText(rules: seq<Rule>)
    ensures RulesText(BareRules(rules)) == RulesText(rules)
  {
    if rules != [] {
      var bare := BareRules(rules);
      assert bare[0] == Rule(rules[0].name, BareAlternation(rules[0].alternation));
      assert bare[1..] == BareRules(rules[1..]);
      hide RulesText, AlternativesText, BareAlternatives;
      BareAlternativesText(rules[0].alternation.concatenations);
      BareRulesText(rules[1..]);
      RulesFromFront(rules);
      RulesFromFront(bare);
    }
  }

  lemma RuleIsRead(rule: Rule, s: string)
    requires RuleOk(rule)
    ensures ReadRule(RuleText(rule) + s) == Some(Read(Rule(rule.name, BareAlternation(rule.alternation)), s))
  {
    hide AlternativesText, RuleText, ConcatenationOk, BareAlternatives, ReadAlternatives;
    RuleThen(rule, s);
    var line := "\r\n" + s;
    var text := AlternativesText(rule.alternation.concatenations) + line;
    RunIs(rule.name, "=" + text, IsNameChar);
    AfterIs('=', text);
    AlternativesAreRead(rule.alternation.concatenations, line);
    assert line[..2] == "\r\n" && line[2..] == s;
  }

  /** The reader gets back every well-formed grammar that is written, but for
      the expansions that lists keep. */
  lemma {:induction false} ReadsBack(rules: seq<Rule>)
    requires forall i :: 0 <= i < |rules| ==> RuleOk(rules[i])
    ensures ReadRules(RulesText(rules)) == Some(BareRules(rules))
    decreases |rules|
  {
    hide RuleText, AlternationOk, BareAlternation, ReadRule;
    if rules != [] {
      RulesFromFront(rules);
      SomeText(rules);
      RuleIsRead(rules[0], RulesText(rules[1..]));
      ReadsBack(rules[1..]);
    }
  }

  lemma SomeText(rules: seq<Rule>)
    ensures RulesText(rules) == "" <==> rules == []
  {
    if rules != [] {
      assert |RuleText(rules[|rules| - 1])| >= 2;
    }
  }

  /** Well-formed rules have the same text if and only if they are the same, but for the expansions that lists keep. */
  lemma SameTextIff(rules: seq<Rule>, others: seq<Rule>)
    requires forall i :: 0 <= i < |rules| ==> RuleOk(rules[i])
    requires forall i :: 0 <= i < |others| ==> RuleOk(others[i])
    ensures RulesText(rules) == RulesText(others) <==> BareRules(rules) == BareRules(others)
  {
    hide RulesText, RuleOk, BareRules, ReadRules;
    BareRulesText(rules);
    BareRulesText(others);
    ReadsBack(rules);
    ReadsBack(others);
  }
}
