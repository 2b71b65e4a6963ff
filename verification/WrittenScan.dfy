/** The text that is written for a tree brings a repeat count up against the
    count of a list exactly where the tree repeats a list between two counts
    (pkg/abnf/minify/minify.go:164-209). */
module WrittenScan {
  import opened Spans
  import opened Wrappers
  import opened Abnf
  import opened Denotation
  import opened Text
  import opened MarkScan
  import opened TextDerivable
  import opened SimplifierKeeps
  import opened D = Derivations
  import Rules
  import DerivedScan

  /** A text takes the scan from one state to another. */
  ghost predicate Reads(t: string, from: Scan, to: Scan) {
    IsAscii(t) && Scanned(from, BytesOf(t)) == to
  }

  lemma ReadsThen(t: string, u: string, q: Scan, r: Scan, p: Scan)
    requires Reads(t, q, r) && Reads(u, r, p)
    ensures Reads(t + u, q, p)
  {
    BytesOfConcat(t, u);
    ScannedAppend(q, BytesOf(t), BytesOf(u));
  }

  lemma CharReads(c: char, q: Scan)
    requires CodeOf(c) < 0x80
    ensures Reads([c], q, Next(q, CodeOf(c)))
  {
    assert BytesOf([c]) == [CodeOf(c)] && [CodeOf(c)][..0] == [];
  }

  lemma NothingReads(q: Scan)
    ensures Reads("", q, q)
  {
    assert BytesOf("") == [];
  }

  lemma {:induction false} EachReads(t: string, q: Scan)
    requires forall i :: 0 <= i < |t| ==> CodeOf(t[i]) < 0x80 && Next(q, CodeOf(t[i])) == q
    ensures Reads(t, q, q)
  {
    hide Reads;
    if t == "" {
      NothingReads(q);
    } else {
      var front, last := t[..|t| - 1], t[|t| - 1];
      EachReads(front, q);
      CharReads(last, q);
      ReadsThen(front, [last], q, q, q);
      assert front + [last] == t;
    }
  }

  /** What is wrong stays wrong. */
  lemma WrongReads(t: string)
    requires IsAscii(t)
    ensures Reads(t, Wrong, Wrong)
  {
    EachReads(t, Wrong);
  }

  // ----- leaves -----

  /** The states in which an element can begin. */
  predicate Ready(q: Scan) {
    q == Plain || q == Starred
  }

  lemma FirstReads(t: string, q: Scan)
    requires t != "" && Ready(q) && CodeOf(t[0]) < 0x80 && !IsDigit(t[0]) && t[0] != '#'
    requires forall i :: 1 <= i < |t| ==> CodeOf(t[i]) < 0x80 && Next(Plain, CodeOf(t[i])) == Plain
    requires Next(Plain, CodeOf(t[0])) == Plain
    ensures Reads(t, q, Plain)
  {
    hide Reads;
    CharReads(t[0], q);
    EachReads(t[1..], Plain);
    ReadsThen([t[0]], t[1..], q, Plain, Plain);
    assert [t[0]] + t[1..] == t;
  }

  lemma DigitsRead(t: string, q: Scan)
    requires AllDigits(t) && Ready(q)
    ensures Reads(t, q, q)
  {
    EachReads(t, q);
  }

  lemma CharValReads(sensitive: bool, value: string, q: Scan)
    requires Ready(q) && forall i :: 0 <= i < |value| ==> IsQuotable(value[i])
    ensures Reads(CharValText(sensitive, value), q, Plain)
  {
    hide Reads;
    var open := if sensitive then "%s\"" else "\"";
    if sensitive {
      FirstReads("%s", q);
      CharReads('"', Plain);
      ReadsThen("%s", "\"", q, Plain, Quoted);
      assert "%s" + "\"" == open;
    } else {
      CharReads('"', q);
    }
    EachReads(value, Quoted);
    CharReads('"', Quoted);
    ReadsThen(open, value, q, Quoted, Quoted);
    ReadsThen(open + value, "\"", q, Quoted, Plain);
  }

  lemma ProseReads(prose: string, q: Scan)
    requires Ready(q) && forall i :: 0 <= i < |prose| ==> IsProse(prose[i])
    ensures Reads("<" + prose + ">", q, Plain)
  {
    hide Reads;
    CharReads('<', q);
    EachReads(prose, InProse);
    CharReads('>', InProse);
    ReadsThen("<", prose, q, InProse, InProse);
    ReadsThen("<" + prose, ">", q, InProse, Plain);
  }

  predicate IsPlainChar(c: char) {
    IsDigit(c) || IsAlpha(c) || c == '.' || c == '-'
  }

  lemma {:induction false} JoinIsPlain(values: seq<string>, separator: string)
    requires separator == "." || separator == "-"
    requires forall i, j :: 0 <= i < |values| && 0 <= j < |values[i]| ==> IsPlainChar(values[i][j])
    ensures forall j :: 0 <= j < |Text.Join(values, separator)| ==> IsPlainChar(Text.Join(values, separator)[j])
  {
    if |values| > 1 {
      JoinIsPlain(values[..|values| - 1], separator);
    }
  }

  lemma NumValReads(base: string, status: NumValStatus, values: seq<string>, q: Scan)
    requires Ready(q) && NumValOk(base, status, values)
    ensures Reads(NumValText(base, status, values), q, Plain)
  {
    hide Reads, Text.Join;
    var t := NumValText(base, status, values);
    var joined := Text.Join(values, if status == Range then "-" else ".");
    forall i, j | 0 <= i < |values| && 0 <= j < |values[i]|
      ensures IsPlainChar(values[i][j])
    {
      assert NumeralOk(base, values[i]);
    }
    JoinIsPlain(values, if status == Range then "-" else ".");
    BaseIsPlain(base);
    forall i | 1 <= i < |t|
      ensures IsPlainChar(t[i])
    {
      assert t == "%" + base + joined;
      assert t[i] == if i < 1 + |base| then base[i - 1] else joined[i - 1 - |base|];
    }
    FirstReads(t, q);
  }

  lemma BaseIsPlain(base: string)
    requires NumeralBase(base).Some?
    ensures forall i :: 0 <= i < |base| ==> IsPlainChar(base[i])
  {
    forall i | 0 <= i < |base|
      ensures IsPlainChar(base[i])
    {
      assert Lower(base)[i] == LowerChar(base[i]);
    }
  }

  // ----- trees -----

  /** Where the scan ends: wrong if a list is repeated between two counts. */
  function End(repeats: bool): Scan {
    if repeats then Wrong else Plain
  }

  lemma OnFrom(t: string, u: string, q: Scan, bad: bool, worse: bool)
    requires Reads(t, q, End(bad)) && Reads(u, Plain, End(worse))
    ensures Reads(t + u, q, End(bad || worse))
  {
    hide Reads;
    if bad {
      Ascii(u, Plain, End(worse));
      WrongReads(u);
    }
    ReadsThen(t, u, q, End(bad), End(bad || worse));
  }

  lemma Ascii(t: string, q: Scan, r: Scan)
    requires Reads(t, q, r)
    ensures IsAscii(t)
  {
  }

  lemma {:induction false} ElementReads(e: Element, q: Scan)
    requires ElementOk(e, AnyCounts) && Ready(q)
    ensures Reads(ElementText(e), q, End(RepeatsList(e, EqualCounts)))
    decreases e, 0
  {
    hide Reads, AlternativesRepeatList;
    match e
    case Rulename(name) => FirstReads(name, q);
    case Group(a) =>
      AlternationReads(a);
      BracketsRead('(', AlternationText(a), ')', q, RepeatsList(e, EqualCounts));
    case Optional(a) =>
      AlternationReads(a);
      BracketsRead('[', AlternationText(a), ']', q, RepeatsList(e, EqualCounts));
    case CharVal(sensitive, value) => CharValReads(sensitive, value, q);
    case NumVal(base, status, values) => NumValReads(base, status, values, q);
    case ProseVal(prose) => ProseReads(prose, q);
  }

  lemma BracketsRead(open: char, t: string, close: char, q: Scan, bad: bool)
    requires Ready(q) && ((open == '(' && close == ')') || (open == '[' && close == ']'))
    requires Reads(t, Plain, End(bad))
    ensures Reads([open] + t + [close], q, End(bad))
  {
    hide Reads;
    CharReads(open, q);
    CharReads(close, Plain);
    ReadsThen([open], t, q, Plain, End(bad));
    OnFrom([open] + t, [close], q, bad, false);
  }

  /** What a repeat prefix leaves. */
  function After(r: Repetition): Scan {
    if r.min == r.max then Plain else Starred
  }

  lemma PrefixReads(r: Repetition)
    ensures Reads(RepeatText(r.min, r.max), Plain, After(r))
  {
    hide Reads;
    CountsAreDigits(r.min, r.max);
    if r.min == r.max {
      DigitsRead(RepeatText(r.min, r.max), Plain);
    } else {
      DigitsRead(CountText(r.min), Plain);
      CharReads('*', Plain);
      DigitsRead(BoundText(r.max), Starred);
      hide CountText, BoundText;
      ReadsThen(CountText(r.min), "*", Plain, Plain, Starred);
      ReadsThen(CountText(r.min) + "*", BoundText(r.max), Plain, Starred, Starred);
    }
  }

  lemma {:induction false} ListReads(r: Repetition)
    requires r.element.List? && ElementOk(r.element.element)
    ensures Reads(RepetitionText(r), Plain, End(r.min != r.max))
    decreases r.element, 1
  {
    hide Reads;
    var repeat, min, max := RepeatText(r.min, r.max), CountText(r.element.min), BoundText(r.element.max);
    PrefixReads(r);
    CountsAreDigits(r.element.min, r.element.max);
    DigitsRead(min, After(r));
    ReadsThen(repeat, min, Plain, After(r), After(r));
    CharReads('#', After(r));
    ReadsThen(repeat + min, "#", Plain, After(r), End(r.min != r.max));
    DigitsRead(max, Plain);
    OnFrom(repeat + min + "#", max, Plain, r.min != r.max, false);
    ElementWider(r.element.element, NoRepeats, AnyCounts);
    ElementReads(r.element.element, Plain);
    PlainInside(r.element.element);
    OnFrom(repeat + min + "#" + max, ElementText(r.element.element), Plain, r.min != r.max, false);
    assert repeat + min + "#" + max + ElementText(r.element.element) == RepetitionText(r);
  }

  lemma PlainInside(e: Element)
    requires ElementOk(e)
    ensures !RepeatsList(e, EqualCounts)
  {
    ElementWider(e, NoRepeats, EqualCounts);
    if RepeatsList(e, EqualCounts) {
      RepeatedListIsNotOk(e.alternation, EqualCounts);
    }
  }

  lemma {:induction false} RepetitionReads(r: Repetition)
    requires RepetitionOk(r, AnyCounts)
    ensures Reads(RepetitionText(r), Plain, End(RepetitionRepeatsList(r, EqualCounts)))
    decreases r, 1
  {
    hide Reads, RepeatText;
    if r.element.List? {
      ListReads(r);
    } else {
      PrefixReads(r);
      ElementReads(r.element, After(r));
      ReadsThen(RepeatText(r.min, r.max), ElementText(r.element), Plain, After(r),
                End(RepeatsList(r.element, EqualCounts)));
    }
  }

  lemma {:induction false} RepetitionsRead(rs: seq<Repetition>)
    requires forall i :: 0 <= i < |rs| ==> RepetitionOk(rs[i], AnyCounts)
    ensures Reads(RepetitionsText(rs), Plain, End(RepetitionsRepeatList(rs, EqualCounts)))
    decreases rs, 0
  {
    hide Reads, RepetitionText, RepetitionOk, RepetitionRepeatsList;
    if rs == [] {
      NothingReads(Plain);
    } else {
      var front, last := rs[..|rs| - 1], rs[|rs| - 1];
      var separator := if |rs| == 1 then "" else " ";
      var bad, worse := RepetitionsRepeatList(front, EqualCounts), RepetitionRepeatsList(last, EqualCounts);
      RepetitionsRead(front);
      NothingReads(Plain);
      CharReads(' ', Plain);
      RepetitionReads(last);
      OnFrom(RepetitionsText(front), separator, Plain, bad, false);
      OnFrom(RepetitionsText(front) + separator, RepetitionText(last), Plain, bad, worse);
      assert (bad || worse) == RepetitionsRepeatList(rs, EqualCounts) by {
        FrontOrLast(rs);
      }
    }
  }

  lemma FrontOrLast(rs: seq<Repetition>)
    requires rs != []
    ensures RepetitionsRepeatList(rs, EqualCounts) <==>
              RepetitionsRepeatList(rs[..|rs| - 1], EqualCounts) || RepetitionRepeatsList(rs[|rs| - 1], EqualCounts)
  {
    hide RepetitionRepeatsList;
    var front := rs[..|rs| - 1];
    if RepetitionsRepeatList(front, EqualCounts) {
      var i :| 0 <= i < |front| && RepetitionRepeatsList(front[i], EqualCounts);
      assert rs[i] == front[i];
    }
    if RepetitionsRepeatList(rs, EqualCounts) {
      var i :| 0 <= i < |rs| && RepetitionRepeatsList(rs[i], EqualCounts);
      assert i < |front| ==> front[i] == rs[i];
    }
  }

  lemma {:induction false} AlternativesRead(cs: seq<Concatenation>)
    requires forall i :: 0 <= i < |cs| ==> ConcatenationOk(cs[i], AnyCounts)
    ensures Reads(AlternativesText(cs), Plain, End(AlternativesRepeatList(cs, EqualCounts)))
    decreases cs, 0
  {
    hide Reads, RepetitionsText, RepetitionOk, RepetitionsRepeatList;
    if cs == [] {
      NothingReads(Plain);
    } else {
      var front, last := cs[..|cs| - 1], cs[|cs| - 1];
      var separator := if |cs| == 1 then "" else "/";
      var bad, worse := AlternativesRepeatList(front, EqualCounts),
          RepetitionsRepeatList(last.repetitions, EqualCounts);
      AlternativesRead(front);
      NothingReads(Plain);
      CharReads('/', Plain);
      RepetitionsRead(last.repetitions);
      OnFrom(AlternativesText(front), separator, Plain, bad, false);
      OnFrom(AlternativesText(front) + separator, ConcatenationText(last), Plain, bad, worse);
      assert (bad || worse) == AlternativesRepeatList(cs, EqualCounts) by {
        EarlierOrLast(cs);
      }
    }
  }

  lemma EarlierOrLast(cs: seq<Concatenation>)
    requires cs != []
    ensures AlternativesRepeatList(cs, EqualCounts) <==>
              AlternativesRepeatList(cs[..|cs| - 1], EqualCounts)
              || RepetitionsRepeatList(cs[|cs| - 1].repetitions, EqualCounts)
  {
    hide RepetitionsRepeatList;
    var front := cs[..|cs| - 1];
    if AlternativesRepeatList(front, EqualCounts) {
      var i :| 0 <= i < |front| && RepetitionsRepeatList(front[i].repetitions, EqualCounts);
      assert cs[i] == front[i];
    }
    if AlternativesRepeatList(cs, EqualCounts) {
      var i :| 0 <= i < |cs| && RepetitionsRepeatList(cs[i].repetitions, EqualCounts);
      assert i < |front| ==> front[i] == cs[i];
    }
  }

  lemma {:induction false} AlternationReads(a: Alternation)
    requires AlternationOk(a, AnyCounts)
    ensures Reads(AlternationText(a), Plain, End(AlternativesRepeatList(a.concatenations, EqualCounts)))
    decreases a, 1
  {
    hide Reads, ConcatenationOk, AlternativesRepeatList;
    AlternativesRead(a.concatenations);
  }

  // ----- definitions -----

  predicate RuleRepeatsList(rule: Rule) {
    AlternativesRepeatList(rule.alternation.concatenations, EqualCounts)
  }

  lemma RuleReads(rule: Rule)
    requires RuleOk(rule, AnyCounts)
    ensures Reads(RuleText(rule), Plain, End(RuleRepeatsList(rule)))
  {
    hide Reads, AlternationText, AlternativesRepeatList;
    var t := AlternationText(rule.alternation);
    FirstReads(rule.name, Plain);
    CharReads('=', Plain);
    ReadsThen(rule.name, "=", Plain, Plain, Plain);
    AlternationReads(rule.alternation);
    ReadsThen(rule.name + "=", t, Plain, Plain, End(RuleRepeatsList(rule)));
    CharReads('\r', Plain);
    CharReads('\n', Plain);
    ReadsThen("\r", "\n", Plain, Plain, Plain);
    assert "\r" + "\n" == "\r\n";
    OnFrom(rule.name + "=" + t, "\r\n", Plain, RuleRepeatsList(rule), false);
  }

  lemma {:induction false} RulesRead(rules: seq<Rule>)
    requires forall i :: 0 <= i < |rules| ==> RuleOk(rules[i], AnyCounts)
    ensures Reads(RulesText(rules), Plain, End(exists i :: 0 <= i < |rules| && RuleRepeatsList(rules[i])))
  {
    hide Reads, RuleText, RuleOk, RuleRepeatsList;
    if rules == [] {
      NothingReads(Plain);
    } else {
      var front, last := rules[..|rules| - 1], rules[|rules| - 1];
      RulesRead(front);
      RuleReads(last);
      var bad := exists i :: 0 <= i < |front| && RuleRepeatsList(front[i]);
      OnFrom(RulesText(front), RuleText(last), Plain, bad, RuleRepeatsList(last));
      if i :| 0 <= i < |front| && RuleRepeatsList(front[i]) {
        assert RuleRepeatsList(rules[i]);
      }
      if i :| 0 <= i < |rules| && RuleRepeatsList(rules[i]) {
        assert i < |front| ==> RuleRepeatsList(front[i]);
      }
    }
  }

  lemma RuleIsOk(rule: Rule)
    requires RuleOk(rule, AnyCounts) && !RuleRepeatsList(rule)
    ensures RuleOk(rule, EqualCounts)
  {
    hide AlternationOk, AlternativesRepeatList;
    UnrepeatedIsOk(rule.alternation, EqualCounts);
  }

  /** The text of rules that are well-formed but for repeated lists is a
      definition if and only if no list is repeated between two counts. */
  lemma TextDerivableIff(rules: seq<Rule>)
    requires rules != [] && forall i :: 0 <= i < |rules| ==> RuleOk(rules[i], AnyCounts)
    ensures IsAscii(RulesText(rules))
    ensures var s := BytesOf(RulesText(rules));
            Derives(Rules.ABNF_GRAMMAR, "rulelist", s, (0, |s|)) <==>
              (forall i :: 0 <= i < |rules| ==> RuleOk(rules[i], EqualCounts))
  {
    hide RuleOk, RulesText, Rules.ABNF_GRAMMAR, RuleRepeatsList, Derives;
    RulesRead(rules);
    var s := BytesOf(RulesText(rules));
    if Derives(Rules.ABNF_GRAMMAR, "rulelist", s, (0, |s|)) {
      DerivedScan.DefinitionScans(s);
      forall i | 0 <= i < |rules|
        ensures RuleOk(rules[i], EqualCounts)
      {
        RuleIsOk(rules[i]);
      }
    }
    if forall i :: 0 <= i < |rules| ==> RuleOk(rules[i], EqualCounts) {
      GrammarTextDerivable(rules);
    }
  }
}
