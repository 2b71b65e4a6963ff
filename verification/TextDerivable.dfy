/** Minified text is ABNF: what pkg/abnf/minify/minify.go:112-215 writes for a
    well-formed grammar tree is derivable from `rulelist`, the start of the
    grammar of ABNF (pkg/abnf/rules.go:121-323). */
module TextDerivable {
  import opened Spans
  import opened ByteOrder
  import opened Wrappers
  import opened Abnf
  import opened Denotation
  import opened LanguageEquations
  import D = Derivations
  import opened Rules
  import opened RuleLookup
  import opened AbnfSpelling
  import opened Text

  // ----- characters -----

  predicate IsAlpha(c: char) {
    'A' <= c <= 'Z' || 'a' <= c <= 'z'
  }

  predicate IsDigit(c: char) {
    '0' <= c <= '9'
  }

  predicate IsHexdig(c: char) {
    IsDigit(c) || 'A' <= c <= 'F' || 'a' <= c <= 'f'
  }

  predicate IsNameChar(c: char) {
    IsAlpha(c) || IsDigit(c) || c == '-'
  }

  /** %x20-21 / %x23-7E */
  predicate IsQuotable(c: char) {
    ' ' <= c <= '~' && c != '"'
  }

  /** %x20-3D / %x3F-7E */
  predicate IsProse(c: char) {
    ' ' <= c <= '~' && c != '>'
  }

  lemma ByCore(k: nat, rule: Rule, i: nat, r: Repetition, t: string)
    requires k < 16 && |CORE_RULES| == 16 && CORE_RULES[k] == rule
    requires i < |rule.alternation.concatenations| && rule.alternation.concatenations[i] == Cat([r])
    requires SpellsRep(r, t)
    ensures Spells(Ref(rule.name), t)
  {
    hide Spells, SpellsRep, SpellsAll, CORE_RULES;
    Only(r, t);
    ByCoreRule(k, i, t);
  }

  lemma AlphaSpelled(c: char)
    requires IsAlpha(c)
    ensures Spells(Ref("ALPHA"), [c])
  {
    hide Spells, SpellsRep;
    var i: nat := if c <= 'Z' then 0 else 1;
    if i == 0 {
      Between('4', '1', '5', 'A', c);
      Once(NumRange("41", "5A"), [c]);
      ByCore(0, AlphaRule(), 0, One(NumRange("41", "5A")), [c]);
    } else {
      Between('6', '1', '7', 'A', c);
      Once(NumRange("61", "7A"), [c]);
      ByCore(0, AlphaRule(), 1, One(NumRange("61", "7A")), [c]);
    }
  }

  lemma DigitSpelled(c: char)
    requires IsDigit(c)
    ensures Spells(Ref("DIGIT"), [c])
  {
    hide Spells, SpellsRep;
    Between('3', '0', '3', '9', c);
    Once(NumRange("30", "39"), [c]);
    ByCore(6, DigitRule(), 0, One(NumRange("30", "39")), [c]);
  }

  lemma BitSpelled(c: char)
    requires c == '0' || c == '1'
    ensures Spells(Ref("BIT"), [c])
  {
    hide Spells, SpellsRep;
    Itself([c]);
    if c == '0' {
      ByCore(1, BitRule(), 0, One(Str("0")), "0");
    } else {
      ByCore(1, BitRule(), 1, One(Str("1")), "1");
    }
  }

  /** A hexadecimal digit that is a letter, in either case. */
  lemma LetterSpelled(c: char, i: nat, letter: string)
    requires 1 <= i <= 6 && letter == [('A' as int + i - 1) as char] && LowerChar(c) == LowerChar(letter[0]) &&
             CodeOf(c) < 0x80
    ensures Spells(Ref("HEXDIG"), [c])
  {
    hide Spells, SpellsRep;
    assert Lower(letter) == Lower([c]);
    Literal(letter, [c]);
    Once(Str(letter), [c]);
    assert HexdigRule().alternation.concatenations[i] == Cat([One(Str(letter))]);
    ByCore(8, HexdigRule(), i, One(Str(letter)), [c]);
  }

  lemma HexdigSpelled(c: char)
    requires IsHexdig(c)
    ensures Spells(Ref("HEXDIG"), [c])
  {
    hide Spells, SpellsRep;
    if IsDigit(c) {
      DigitSpelled(c);
      Once(Ref("DIGIT"), [c]);
      ByCore(8, HexdigRule(), 0, One(Ref("DIGIT")), [c]);
    } else {
      var i := LowerChar(c) as int - 'a' as int + 1;
      LetterSpelled(c, i, [('A' as int + i - 1) as char]);
    }
  }

  lemma DquoteSpelled()
    ensures SpellsRep(One(Ref("DQUOTE")), "\"")
  {
    hide Spells, SpellsRep;
    Exactly('2', '2', '"');
    Once(NumSeries("22"), "\"");
    ByCore(7, DquoteRule(), 0, One(NumSeries("22")), "\"");
    Once(Ref("DQUOTE"), "\"");
  }

  lemma SpaceSpelled()
    ensures Spells(Ref("WSP"), " ")
  {
    hide Spells, SpellsRep;
    Exactly('2', '0', ' ');
    Once(NumSeries("20"), " ");
    ByCore(13, SpRule(), 0, One(NumSeries("20")), " ");
    Once(Ref("SP"), " ");
    ByCore(15, WspRule(), 0, One(Ref("SP")), " ");
  }

  lemma LineEndSpelled()
    ensures Spells(Ref("CRLF"), "\r\n")
  {
    hide Spells, SpellsRep, SpellsAll;
    Exactly('0', 'D', '\r');
    Once(NumSeries("0D"), "\r");
    ByCore(3, CrRule(), 0, One(NumSeries("0D")), "\r");
    Once(Ref("CR"), "\r");
    Exactly('0', 'A', '\n');
    Once(NumSeries("0A"), "\n");
    ByCore(10, LfRule(), 0, One(NumSeries("0A")), "\n");
    Once(Ref("LF"), "\n");
    Two(One(Ref("CR")), "\r", One(Ref("LF")), "\n");
    assert "\r" + "\n" == "\r\n";
    ByCoreRule(4, 0, "\r\n");
  }

  lemma ByAbnf(k: nat, rule: Rule, i: nat, rs: seq<Repetition>, t: string)
    requires k < 24 && |ABNF_RULES| == 24 && ABNF_RULES[k] == rule
    requires i < |rule.alternation.concatenations| && rule.alternation.concatenations[i] == Cat(rs)
    requires SpellsAll(rs, t)
    ensures Spells(Ref(rule.name), t)
  {
    hide Spells, SpellsAll, ABNF_RULES;
    ByRule(k, i, t);
  }

  // ----- which trees -----

  predicate NameOk(name: string) {
    name != "" && IsAlpha(name[0]) && forall i :: 0 <= i < |name| ==> IsNameChar(name[i])
  }

  predicate IsNumeralDigit(base: string, c: char) {
    if NumeralBase(base) == Some(2) then c == '0' || c == '1'
    else if NumeralBase(base) == Some(10) then IsDigit(c)
    else IsHexdig(c)
  }

  predicate NumeralOk(base: string, value: string) {
    value != "" && forall i :: 0 <= i < |value| ==> IsNumeralDigit(base, value[i])
  }

  predicate NumValOk(base: string, status: NumValStatus, values: seq<string>) {
    && NumeralBase(base).Some? && values != [] && (status == Range ==> |values| == 2)
    && forall i :: 0 <= i < |values| ==> NumeralOk(base, values[i])
  }

  /** With which repeat prefixes a list may stand: none, as the parser builds
      lists, those of one count that is not zero, those of one count, or any. */
  datatype Repeats = NoRepeats | PositiveCounts | EqualCounts | AnyCounts

  predicate MayRepeat(r: Repetition, k: Repeats) {
    match k
    case NoRepeats => IsSingle(r)
    case PositiveCounts => r.min == r.max && r.min > 0
    case EqualCounts => r.min == r.max
    case AnyCounts => true
  }

  /** An element that a repeat prefix may precede. */
  predicate ElementOk(e: Element, k: Repeats := NoRepeats)
    decreases e, 0
  {
    match e
    case Rulename(name) => NameOk(name)
    case Group(a) => AlternationOk(a, k)
    case Optional(a) => AlternationOk(a, k)
    case CharVal(_, value) => forall i :: 0 <= i < |value| ==> IsQuotable(value[i])
    case NumVal(base, status, values) => NumValOk(base, status, values)
    case List(_, _, _, _) => false
    case ProseVal(prose) => forall i :: 0 <= i < |prose| ==> IsProse(prose[i])
  }

  predicate AlternationOk(a: Alternation, k: Repeats := NoRepeats)
    decreases a, 1
  {
    a.concatenations != [] && forall i :: 0 <= i < |a.concatenations| ==> ConcatenationOk(a.concatenations[i], k)
  }

  predicate ConcatenationOk(c: Concatenation, k: Repeats := NoRepeats)
    decreases c, 1
  {
    c.repetitions != [] && forall i :: 0 <= i < |c.repetitions| ==> RepetitionOk(c.repetitions[i], k)
  }

  /** A list lists something other than a list, as it was parsed. */
  predicate RepetitionOk(r: Repetition, k: Repeats := NoRepeats)
    decreases r, 1
  {
    if r.element.List? then MayRepeat(r, k) && ElementOk(r.element.element) else ElementOk(r.element, k)
  }

  predicate RuleOk(rule: Rule, k: Repeats := NoRepeats) {
    NameOk(rule.name) && AlternationOk(rule.alternation, k)
  }

  predicate Stricter(k: Repeats, l: Repeats) {
    match k
    case NoRepeats => true
    case PositiveCounts => !l.NoRepeats?
    case EqualCounts => l.EqualCounts? || l.AnyCounts?
    case AnyCounts => l.AnyCounts?
  }

  /** Allowing more prefixes refuses nothing. */
  lemma {:induction false} OkWider(a: Alternation, k: Repeats, l: Repeats)
    requires AlternationOk(a, k) && Stricter(k, l)
    ensures AlternationOk(a, l)
    decreases a, 1
  {
    forall i | 0 <= i < |a.concatenations|
      ensures ConcatenationOk(a.concatenations[i], l)
    {
      ConcatenationWider(a.concatenations[i], k, l);
    }
  }

  lemma {:induction false} ConcatenationWider(c: Concatenation, k: Repeats, l: Repeats)
    requires ConcatenationOk(c, k) && Stricter(k, l)
    ensures ConcatenationOk(c, l)
    decreases c, 1
  {
    forall i | 0 <= i < |c.repetitions|
      ensures RepetitionOk(c.repetitions[i], l)
    {
      var r := c.repetitions[i];
      assert RepetitionOk(r, k);
      if !r.element.List? {
        ElementWider(r.element, k, l);
      }
    }
  }

  lemma {:induction false} ElementWider(e: Element, k: Repeats, l: Repeats)
    requires ElementOk(e, k) && Stricter(k, l)
    ensures ElementOk(e, l)
    decreases e, 0
  {
    if e.Group? || e.Optional? {
      OkWider(e.alternation, k, l);
    }
  }

  // ----- leaves -----

  const NAME_CHAR: Element := Grp([Cat([One(Ref("ALPHA"))]), Cat([One(Ref("DIGIT"))]), Cat([One(Str("-"))])])

  lemma NameCharSpelled(c: char)
    requires IsNameChar(c)
    ensures Spells(NAME_CHAR, [c])
  {
    hide Spells, SpellsRep, SpellsAll;
    var cs := NAME_CHAR.alternation.concatenations;
    if IsAlpha(c) {
      AlphaSpelled(c);
      Once(Ref("ALPHA"), [c]);
      Only(One(Ref("ALPHA")), [c]);
      Grouped(cs, 0, [c]);
    } else if IsDigit(c) {
      DigitSpelled(c);
      Once(Ref("DIGIT"), [c]);
      Only(One(Ref("DIGIT")), [c]);
      Grouped(cs, 1, [c]);
    } else {
      Itself("-");
      Only(One(Str("-")), "-");
      Grouped(cs, 2, "-");
    }
  }

  lemma NameSpelled(name: string)
    requires NameOk(name)
    ensures Spells(Ref("rulename"), name)
  {
    hide Spells, SpellsRep, SpellsAll, SpellsTimes, NAME_CHAR;
    AlphaSpelled(name[0]);
    Once(Ref("ALPHA"), [name[0]]);
    var rest := name[1..];
    forall i | 0 <= i < |rest|
      ensures Spells(NAME_CHAR, [rest[i]])
    {
      NameCharSpelled(rest[i]);
    }
    Chars(NAME_CHAR, rest);
    Times(NAME_CHAR, |rest|, rest, 0);
    Two(One(Ref("ALPHA")), [name[0]], Rep(0, INF, NAME_CHAR), rest);
    assert name == [name[0]] + rest;
    NameRule(name);
  }

  lemma NameRule(name: string)
    requires SpellsAll([One(Ref("ALPHA")), Rep(0, INF, NAME_CHAR)], name)
    ensures Spells(Ref("rulename"), name)
  {
    hide Spells, SpellsAll;
    ByAbnf(2, RulenameRule(), 0, [One(Ref("ALPHA")), Rep(0, INF, NAME_CHAR)], name);
  }

  const QUOTED_CHAR: Element := Grp([Cat([One(NumRange("20", "21"))]), Cat([One(NumRange("23", "7E"))])])
  const PROSE_CHAR: Element := Grp([Cat([One(NumRange("20", "3D"))]), Cat([One(NumRange("3F", "7E"))])])

  lemma QuotedCharSpelled(c: char)
    requires IsQuotable(c)
    ensures Spells(QUOTED_CHAR, [c])
  {
    hide Spells, SpellsRep, SpellsAll;
    var cs := QUOTED_CHAR.alternation.concatenations;
    if c <= '!' {
      Between('2', '0', '2', '1', c);
      Once(NumRange("20", "21"), [c]);
      Only(One(NumRange("20", "21")), [c]);
      Grouped(cs, 0, [c]);
    } else {
      Between('2', '3', '7', 'E', c);
      Once(NumRange("23", "7E"), [c]);
      Only(One(NumRange("23", "7E")), [c]);
      Grouped(cs, 1, [c]);
    }
  }

  lemma ProseCharSpelled(c: char)
    requires IsProse(c)
    ensures Spells(PROSE_CHAR, [c])
  {
    hide Spells, SpellsRep, SpellsAll;
    var cs := PROSE_CHAR.alternation.concatenations;
    if c <= '=' {
      Between('2', '0', '3', 'D', c);
      Once(NumRange("20", "3D"), [c]);
      Only(One(NumRange("20", "3D")), [c]);
      Grouped(cs, 0, [c]);
    } else {
      Between('3', 'F', '7', 'E', c);
      Once(NumRange("3F", "7E"), [c]);
      Only(One(NumRange("3F", "7E")), [c]);
      Grouped(cs, 1, [c]);
    }
  }

  /** Text between two delimiters. */
  lemma Delimited(open: Element, o: string, e: Element, t: string, close: Element, c: string)
    requires SpellsRep(One(open), o) && SpellsRep(One(close), c)
    requires forall i :: 0 <= i < |t| ==> Spells(e, [t[i]])
    ensures SpellsAll([One(open), Rep(0, INF, e), One(close)], o + t + c)
  {
    hide *;
    Chars(e, t);
    Times(e, |t|, t, 0);
    Three(One(open), o, Rep(0, INF, e), t, One(close), c);
  }

  lemma QuotedSpelled(value: string)
    requires forall i :: 0 <= i < |value| ==> IsQuotable(value[i])
    ensures Spells(Ref("quoted-string"), "\"" + value + "\"")
  {
    hide Spells, SpellsRep, SpellsAll;
    DquoteSpelled();
    forall i | 0 <= i < |value|
      ensures Spells(QUOTED_CHAR, [value[i]])
    {
      QuotedCharSpelled(value[i]);
    }
    Delimited(Ref("DQUOTE"), "\"", QUOTED_CHAR, value, Ref("DQUOTE"), "\"");
    ByAbnf(18, QuotedStringRule(), 0, [One(Ref("DQUOTE")), Rep(0, INF, QUOTED_CHAR), One(Ref("DQUOTE"))],
           "\"" + value + "\"");
  }

  lemma CharValSpelled(sensitive: bool, value: string)
    requires forall i :: 0 <= i < |value| ==> IsQuotable(value[i])
    ensures Spells(Ref("char-val"), CharValText(sensitive, value))
  {
    hide Spells, SpellsRep, SpellsAll;
    var quoted := "\"" + value + "\"";
    QuotedSpelled(value);
    Once(Ref("quoted-string"), quoted);
    if sensitive {
      Itself("%s");
      Two(One(Str("%s")), "%s", One(Ref("quoted-string")), quoted);
      assert "%s" + quoted == CharValText(true, value);
      ByAbnf(17, CaseSensitiveStringRule(), 0, [One(Str("%s")), One(Ref("quoted-string"))], "%s" + quoted);
      Once(Ref("case-sensitive-string"), "%s" + quoted);
      Only(One(Ref("case-sensitive-string")), "%s" + quoted);
      ByAbnf(15, CharValRule(), 1, [One(Ref("case-sensitive-string"))], "%s" + quoted);
    } else {
      var prefix := Opt([Cat([One(Str("%i"))])]);
      Omitted([Cat([One(Str("%i"))])]);
      Once(prefix, "");
      Two(One(prefix), "", One(Ref("quoted-string")), quoted);
      assert "" + quoted == quoted == CharValText(false, value);
      ByAbnf(16, CaseInsensitiveStringRule(), 0, [One(prefix), One(Ref("quoted-string"))], quoted);
      Once(Ref("case-insensitive-string"), quoted);
      Only(One(Ref("case-insensitive-string")), quoted);
      ByAbnf(15, CharValRule(), 0, [One(Ref("case-insensitive-string"))], quoted);
    }
  }

  lemma ProseSpelled(prose: string)
    requires forall i :: 0 <= i < |prose| ==> IsProse(prose[i])
    ensures Spells(Ref("prose-val"), "<" + prose + ">")
  {
    hide Spells, SpellsRep, SpellsAll;
    Itself("<");
    Itself(">");
    forall i | 0 <= i < |prose|
      ensures Spells(PROSE_CHAR, [prose[i]])
    {
      ProseCharSpelled(prose[i]);
    }
    Delimited(Str("<"), "<", PROSE_CHAR, prose, Str(">"), ">");
    ByAbnf(23, ProseValRule(), 0, [One(Str("<")), Rep(0, INF, PROSE_CHAR), One(Str(">"))], "<" + prose + ">");
  }

  // ----- numerals -----

  /** The digits of numerals in a base, by name. */
  function DigitName(base: string): string {
    if NumeralBase(base) == Some(2) then "BIT" else if NumeralBase(base) == Some(10) then "DIGIT" else "HEXDIG"
  }

  lemma NumeralSpelled(base: string, value: string)
    requires NumeralOk(base, value)
    ensures SpellsRep(Rep(1, INF, Ref(DigitName(base))), value)
  {
    hide Spells, SpellsRep, SpellsTimes;
    forall i | 0 <= i < |value|
      ensures Spells(Ref(DigitName(base)), [value[i]])
    {
      if NumeralBase(base) == Some(2) {
        BitSpelled(value[i]);
      } else if NumeralBase(base) == Some(10) {
        DigitSpelled(value[i]);
      } else {
        HexdigSpelled(value[i]);
      }
    }
    hide NumeralBase;
    Chars(Ref(DigitName(base)), value);
    Times(Ref(DigitName(base)), |value|, value, 1);
  }

  lemma MoreSpelled(separator: string, base: string, value: string)
    requires NumeralOk(base, value) && (separator == "." || separator == "-")
    ensures Spells(More(separator, DigitName(base)), separator + value)
  {
    hide Spells, SpellsRep, SpellsAll, DigitName, NumeralOk;
    Itself(separator);
    NumeralSpelled(base, value);
    var rs := [One(Str(separator)), Rep(1, INF, Ref(DigitName(base)))];
    Two(rs[0], separator, rs[1], value);
    Grouped([Cat(rs)], 0, separator + value);
  }

  /** The numerals after the first, each with its separator. */
  function Tail(values: seq<string>, separator: string): string {
    if |values| <= 1 then "" else Tail(values[..|values| - 1], separator) + separator + values[|values| - 1]
  }

  lemma {:induction false} JoinIs(values: seq<string>, separator: string)
    requires values != []
    ensures Join(values, separator) == values[0] + Tail(values, separator)
  {
    if |values| > 1 {
      JoinIs(values[..|values| - 1], separator);
    }
  }

  lemma {:induction false} TailSpelled(base: string, values: seq<string>)
    requires values != [] && forall i :: 0 <= i < |values| ==> NumeralOk(base, values[i])
    ensures SpellsTimes(More(".", DigitName(base)), |values| - 1, Tail(values, "."))
  {
    hide Spells, SpellsTimes, NumeralOk, More, DigitName;
    var e := More(".", DigitName(base));
    if |values| == 1 {
      NoTimes(e);
    } else {
      var front, last := values[..|values| - 1], values[|values| - 1];
      TailSpelled(base, front);
      MoreSpelled(".", base, last);
      OnceMore(e, |front| - 1, Tail(front, "."), "." + last);
      assert Tail(front, ".") + "." + last == Tail(front, ".") + ("." + last);
    }
  }

  /** What may follow the first numeral. */
  lemma RestSpelled(base: string, status: NumValStatus, values: seq<string>)
    requires NumValOk(base, status, values)
    ensures SpellsRep(One(Rest(DigitName(base))), Tail(values, if status == Range then "-" else "."))
  {
    hide Spells, SpellsRep, SpellsAll, SpellsTimes, NumeralOk, More, DigitName;
    var digit := DigitName(base);
    var cs := Rest(digit).alternation.concatenations;
    if |values| == 1 {
      Omitted(cs);
      Once(Rest(digit), "");
    } else if status == Range {
      MoreSpelled("-", base, values[1]);
      Once(More("-", digit), "-" + values[1]);
      Only(One(More("-", digit)), "-" + values[1]);
      Grouped(cs, 1, "-" + values[1]);
      assert Tail(values[..1], "-") == "" && "" + "-" + values[1] == "-" + values[1];
      Once(Rest(digit), "-" + values[1]);
    } else {
      TailSpelled(base, values);
      Times(More(".", digit), |values| - 1, Tail(values, "."), 1);
      Only(Rep(1, INF, More(".", digit)), Tail(values, "."));
      Grouped(cs, 0, Tail(values, "."));
      Once(Rest(digit), Tail(values, "."));
    }
  }

  /** A base and its numerals. */
  lemma BasedSpelled(letter: string, base: string, status: NumValStatus, values: seq<string>)
    requires NumValOk(base, status, values) && D.IsAscii(base) && Lower(letter) == Lower(base)
    ensures SpellsAll([One(Str(letter)), Rep(1, INF, Ref(DigitName(base))), One(Rest(DigitName(base)))],
                      base + Join(values, if status == Range then "-" else "."))
  {
    hide Spells, SpellsRep, SpellsAll, NumeralOk, Rest, DigitName, Lower, D.IsAscii, NumeralBase;
    var separator := if status == Range then "-" else ".";
    Literal(letter, base);
    Once(Str(letter), base);
    NumeralSpelled(base, values[0]);
    RestSpelled(base, status, values);
    JoinIs(values, separator);
    Three(One(Str(letter)), base, Rep(1, INF, Ref(DigitName(base))), values[0], One(Rest(DigitName(base))),
          Tail(values, separator));
    assert base + values[0] + Tail(values, separator) == base + (values[0] + Tail(values, separator));
  }

  lemma NumValSpelled(base: string, status: NumValStatus, values: seq<string>)
    requires NumValOk(base, status, values)
    ensures Spells(Ref("num-val"), NumValText(base, status, values))
  {
    hide Spells, SpellsRep, SpellsAll, NumeralOk, Join;
    var text := base + Join(values, if status == Range then "-" else ".");
    var cs := [Cat([One(Ref("bin-val"))]), Cat([One(Ref("dec-val"))]), Cat([One(Ref("hex-val"))])];
    ValueSpelled(base, status, values, text);
    Itself("%");
    Once(Grp(cs), text);
    Two(One(Str("%")), "%", One(Grp(cs)), text);
    assert "%" + text == NumValText(base, status, values);
    ByAbnf(19, NumValRule(), 0, [One(Str("%")), One(Grp(cs))], "%" + text);
  }

  lemma ValueSpelled(base: string, status: NumValStatus, values: seq<string>, text: string)
    requires NumValOk(base, status, values) && text == base + Join(values, if status == Range then "-" else ".")
    ensures Spells(Grp([Cat([One(Ref("bin-val"))]), Cat([One(Ref("dec-val"))]), Cat([One(Ref("hex-val"))])]), text)
  {
    hide Spells, SpellsRep, SpellsAll, NumeralOk, Join;
    var cs := [Cat([One(Ref("bin-val"))]), Cat([One(Ref("dec-val"))]), Cat([One(Ref("hex-val"))])];
    var digit := DigitName(base);
    if NumeralBase(base) == Some(2) {
      BasedSpelled("b", base, status, values);
      ByAbnf(20, BinValRule(), 0, [One(Str("b")), Rep(1, INF, Ref(digit)), One(Rest(digit))], text);
      Once(Ref("bin-val"), text);
      Only(One(Ref("bin-val")), text);
      Grouped(cs, 0, text);
    } else if NumeralBase(base) == Some(10) {
      BasedSpelled("d", base, status, values);
      ByAbnf(21, DecValRule(), 0, [One(Str("d")), Rep(1, INF, Ref(digit)), One(Rest(digit))], text);
      Once(Ref("dec-val"), text);
      Only(One(Ref("dec-val")), text);
      Grouped(cs, 1, text);
    } else {
      BasedSpelled("x", base, status, values);
      ByAbnf(22, HexValRule(), 0, [One(Str("x")), Rep(1, INF, Ref(digit)), One(Rest(digit))], text);
      Once(Ref("hex-val"), text);
      Only(One(Ref("hex-val")), text);
      Grouped(cs, 2, text);
    }
  }

  // ----- repeats -----

  lemma {:induction false} ItoaDigits(n: nat)
    ensures Itoa(n) != "" && forall i :: 0 <= i < |Itoa(n)| ==> IsDigit(Itoa(n)[i])
  {
    if n >= 10 {
      ItoaDigits(n / 10);
    }
  }

  lemma DigitsSpelled(t: string, min: nat)
    requires min <= |t| && forall i :: 0 <= i < |t| ==> IsDigit(t[i])
    ensures SpellsRep(Rep(min, INF, Ref("DIGIT")), t)
  {
    hide Spells, SpellsRep, SpellsTimes;
    forall i | 0 <= i < |t|
      ensures Spells(Ref("DIGIT"), [t[i]])
    {
      DigitSpelled(t[i]);
    }
    Chars(Ref("DIGIT"), t);
    Times(Ref("DIGIT"), |t|, t, min);
  }

  const REPEAT: Element := Opt([Cat([One(Ref("repeat"))])])

  predicate AllDigits(t: string) {
    forall i :: 0 <= i < |t| ==> IsDigit(t[i])
  }

  lemma CountsAreDigits(min: nat, max: Bound)
    ensures AllDigits(CountText(min)) && AllDigits(BoundText(max))
    ensures min == max ==> AllDigits(RepeatText(min, max))
  {
    ItoaDigits(min);
    if max != INF {
      ItoaDigits(max);
    }
  }

  /** Two counts, either of which may be missing, with a mark between them. */
  lemma MarkedSpelled(min: string, mark: string, max: string)
    requires (mark == "*" || mark == "#") && AllDigits(min) && AllDigits(max)
    ensures Spells(Ref("repeat"), min + mark + max)
  {
    hide Spells, SpellsRep, SpellsAll;
    DigitsSpelled(min, 0);
    DigitsSpelled(max, 0);
    Itself(mark);
    var text := min + mark + max;
    var rs := [Rep(0, INF, Ref("DIGIT")), One(Str(mark)), Rep(0, INF, Ref("DIGIT"))];
    Three(rs[0], min, rs[1], mark, rs[2], max);
    Grouped([Cat(rs)], 0, text);
    Once(Grp([Cat(rs)]), text);
    Only(One(Grp([Cat(rs)])), text);
    if mark == "*" {
      ByAbnf(11, RepeatRule(), 1, [One(Grp([Cat(rs)]))], text);
    } else {
      ByAbnf(11, RepeatRule(), 2, [One(Grp([Cat(rs)]))], text);
    }
  }

  lemma RepeatGiven(t: string)
    requires Spells(Ref("repeat"), t)
    ensures SpellsRep(One(REPEAT), t)
  {
    hide Spells, SpellsRep, SpellsAll;
    Once(Ref("repeat"), t);
    Only(One(Ref("repeat")), t);
    Grouped([Cat([One(Ref("repeat"))])], 0, t);
    Once(REPEAT, t);
  }

  lemma RepeatSpelled(min: nat, max: Bound)
    ensures SpellsRep(One(REPEAT), RepeatText(min, max))
  {
    hide Spells, SpellsRep, SpellsAll;
    if min != max {
      CountsAreDigits(min, max);
      MarkedSpelled(CountText(min), "*", BoundText(max));
      RepeatGiven(RepeatText(min, max));
    } else if min == 1 {
      Omitted([Cat([One(Ref("repeat"))])]);
      Once(REPEAT, "");
    } else {
      ItoaDigits(min);
      DigitsSpelled(Itoa(min), 1);
      Only(Rep(1, INF, Ref("DIGIT")), Itoa(min));
      ByAbnf(11, RepeatRule(), 0, [Rep(1, INF, Ref("DIGIT"))], Itoa(min));
      RepeatGiven(Itoa(min));
    }
  }

  // ----- trees -----

  lemma AsElement(i: nat, name: string, t: string)
    requires i < 6 && ElementRule().alternation.concatenations[i] == Cat([One(Ref(name))]) && Spells(Ref(name), t)
    ensures Spells(Ref("element"), t)
  {
    hide Spells, SpellsRep, SpellsAll;
    Once(Ref(name), t);
    Only(One(Ref(name)), t);
    ByAbnf(12, ElementRule(), i, [One(Ref(name))], t);
  }

  /** An alternation between brackets. */
  lemma BracketedSpelled(open: string, t: string, close: string)
    requires Spells(Ref("alternation"), t) && D.IsAscii(open) && D.IsAscii(close)
    ensures SpellsAll([One(Str(open)), Rep(0, INF, Ref("c-wsp")), One(Ref("alternation")), Rep(0, INF, Ref("c-wsp")),
                       One(Str(close))],
                      open + t + close)
  {
    hide Spells, SpellsRep, SpellsAll, D.IsAscii;
    var gap, inner := Rep(0, INF, Ref("c-wsp")), One(Ref("alternation"));
    Itself(open);
    Itself(close);
    NoneOf(Ref("c-wsp"));
    Once(Ref("alternation"), t);
    Three(One(Str(open)), open, gap, "", inner, t);
    Then([One(Str(open)), gap, inner], open + "" + t, gap, "");
    Then([One(Str(open)), gap, inner] + [gap], open + "" + t + "", One(Str(close)), close);
    assert [One(Str(open)), gap, inner] + [gap] + [One(Str(close))]
           == [One(Str(open)), gap, inner, gap, One(Str(close))];
    assert open + "" + t + "" + close == open + t + close;
  }

  lemma {:induction false} ElementSpelled(e: Element)
    requires ElementOk(e, EqualCounts)
    ensures Spells(Ref("element"), ElementText(e))
    decreases e, 0
  {
    hide Spells, SpellsRep, SpellsAll, NameOk, NumValOk, CharValText, NumValText;
    match e
    case Rulename(name) =>
      NameSpelled(name);
      AsElement(0, "rulename", name);
    case Group(a) =>
      AlternationSpelled(a);
      BracketedSpelled("(", AlternationText(a), ")");
      ByAbnf(13, GroupRule(), 0,
             [One(Str("(")), Rep(0, INF, Ref("c-wsp")), One(Ref("alternation")), Rep(0, INF, Ref("c-wsp")),
              One(Str(")"))], ElementText(e));
      AsElement(1, "group", ElementText(e));
    case Optional(a) =>
      AlternationSpelled(a);
      BracketedSpelled("[", AlternationText(a), "]");
      ByAbnf(14, OptionRule(), 0,
             [One(Str("[")), Rep(0, INF, Ref("c-wsp")), One(Ref("alternation")), Rep(0, INF, Ref("c-wsp")),
              One(Str("]"))], ElementText(e));
      AsElement(2, "option", ElementText(e));
    case CharVal(sensitive, value) =>
      CharValSpelled(sensitive, value);
      AsElement(3, "char-val", CharValText(sensitive, value));
    case NumVal(base, status, values) =>
      NumValSpelled(base, status, values);
      AsElement(4, "num-val", NumValText(base, status, values));
    case ProseVal(prose) =>
      ProseSpelled(prose);
      AsElement(5, "prose-val", "<" + prose + ">");
  }

  lemma {:induction false} RepetitionSpelled(r: Repetition)
    requires RepetitionOk(r, EqualCounts)
    ensures Spells(Ref("repetition"), RepetitionText(r))
    decreases r, 1
  {
    hide Spells, SpellsRep, SpellsAll;
    var repeat := RepeatText(r.min, r.max);
    var listed := if r.element.List? then CountText(r.element.min) + "#" + BoundText(r.element.max) else "";
    var prefix := repeat + listed;
    var e := if r.element.List? then r.element.element else r.element;
    ElementWider(e, if r.element.List? then NoRepeats else EqualCounts, EqualCounts);
    ElementSpelled(e);
    Once(Ref("element"), ElementText(e));
    if r.element.List? {
      CountsAreDigits(r.min, r.max);
      CountsAreDigits(r.element.min, r.element.max);
      MarkedSpelled(repeat + CountText(r.element.min), "#", BoundText(r.element.max));
      assert prefix == repeat + CountText(r.element.min) + "#" + BoundText(r.element.max);
      RepeatGiven(prefix);
    } else {
      assert prefix == repeat;
      RepeatSpelled(r.min, r.max);
    }
    hide CountText, BoundText, RepeatText, ElementOk;
    Two(One(REPEAT), prefix, One(Ref("element")), ElementText(e));
    assert prefix + ElementText(e) == RepetitionText(r);
    ByAbnf(10, RepetitionRule(), 0, [One(REPEAT), One(Ref("element"))], RepetitionText(r));
  }

  const NEXT_REPETITION: Element := Grp([Cat([Rep(1, INF, Ref("c-wsp")), One(Ref("repetition"))])])

  lemma NextRepetitionSpelled(t: string)
    requires Spells(Ref("repetition"), t)
    ensures Spells(NEXT_REPETITION, " " + t)
  {
    hide Spells, SpellsRep, SpellsAll, SpellsTimes;
    SpaceSpelled();
    Once(Ref("WSP"), " ");
    Only(One(Ref("WSP")), " ");
    ByAbnf(5, CWspRule(), 0, [One(Ref("WSP"))], " ");
    NoTimes(Ref("c-wsp"));
    OnceMore(Ref("c-wsp"), 0, "", " ");
    assert "" + " " == " ";
    Times(Ref("c-wsp"), 1, " ", 1);
    Once(Ref("repetition"), t);
    Two(Rep(1, INF, Ref("c-wsp")), " ", One(Ref("repetition")), t);
    Grouped(NEXT_REPETITION.alternation.concatenations, 0, " " + t);
  }

  /** The repetitions after the first. */
  lemma {:induction false} RepetitionsSpelled(rs: seq<Repetition>) returns (rest: string)
    requires rs != [] && forall i :: 0 <= i < |rs| ==> RepetitionOk(rs[i], EqualCounts)
    ensures RepetitionsText(rs) == RepetitionText(rs[0]) + rest
    ensures SpellsTimes(NEXT_REPETITION, |rs| - 1, rest)
    decreases rs, 0
  {
    hide Spells, SpellsTimes, NEXT_REPETITION, RepetitionText, RepetitionOk;
    if |rs| == 1 {
      rest := "";
      NoTimes(NEXT_REPETITION);
      assert rs[..0] == [];
    } else {
      var last := |rs| - 1;
      var front := RepetitionsSpelled(rs[..last]);
      RepetitionSpelled(rs[last]);
      NextRepetitionSpelled(RepetitionText(rs[last]));
      OnceMore(NEXT_REPETITION, last - 1, front, " " + RepetitionText(rs[last]));
      rest := front + (" " + RepetitionText(rs[last]));
      assert RepetitionText(rs[0]) + front + " " + RepetitionText(rs[last]) == RepetitionText(rs[0]) + rest;
    }
  }

  lemma {:induction false} ConcatenationSpelled(c: Concatenation)
    requires ConcatenationOk(c, EqualCounts)
    ensures Spells(Ref("concatenation"), ConcatenationText(c))
    decreases c, 1
  {
    hide Spells, SpellsRep, SpellsAll, SpellsTimes, RepetitionText, RepetitionOk;
    var rs := c.repetitions;
    RepetitionSpelled(rs[0]);
    Once(Ref("repetition"), RepetitionText(rs[0]));
    var rest := RepetitionsSpelled(rs);
    Times(NEXT_REPETITION, |rs| - 1, rest, 0);
    Two(One(Ref("repetition")), RepetitionText(rs[0]), Rep(0, INF, NEXT_REPETITION), rest);
    ByAbnf(9, ConcatenationRule(), 0, [One(Ref("repetition")), Rep(0, INF, NEXT_REPETITION)], ConcatenationText(c));
  }

  const NEXT_CONCATENATION: Element :=
    Grp([Cat([Rep(0, INF, Ref("c-wsp")), One(Str("/")), Rep(0, INF, Ref("c-wsp")), One(Ref("concatenation"))])])

  lemma NextConcatenationSpelled(t: string)
    requires Spells(Ref("concatenation"), t)
    ensures Spells(NEXT_CONCATENATION, "/" + t)
  {
    hide Spells, SpellsRep, SpellsAll;
    var gap, inner := Rep(0, INF, Ref("c-wsp")), One(Ref("concatenation"));
    NoneOf(Ref("c-wsp"));
    Itself("/");
    Once(Ref("concatenation"), t);
    Three(gap, "", One(Str("/")), "/", gap, "");
    Then([gap, One(Str("/")), gap], "" + "/" + "", inner, t);
    assert [gap, One(Str("/")), gap] + [inner] == [gap, One(Str("/")), gap, inner] && "" + "/" + "" + t == "/" + t;
    Grouped(NEXT_CONCATENATION.alternation.concatenations, 0, "/" + t);
  }

  /** The concatenations after the first. */
  lemma {:induction false} AlternativesSpelled(cs: seq<Concatenation>) returns (rest: string)
    requires cs != [] && forall i :: 0 <= i < |cs| ==> ConcatenationOk(cs[i], EqualCounts)
    ensures AlternativesText(cs) == ConcatenationText(cs[0]) + rest
    ensures SpellsTimes(NEXT_CONCATENATION, |cs| - 1, rest)
    decreases cs, 0
  {
    hide Spells, SpellsTimes, NEXT_CONCATENATION, ConcatenationText, ConcatenationOk;
    if |cs| == 1 {
      rest := "";
      NoTimes(NEXT_CONCATENATION);
      assert cs[..0] == [];
    } else {
      var last := |cs| - 1;
      var front := AlternativesSpelled(cs[..last]);
      ConcatenationSpelled(cs[last]);
      NextConcatenationSpelled(ConcatenationText(cs[last]));
      OnceMore(NEXT_CONCATENATION, last - 1, front, "/" + ConcatenationText(cs[last]));
      rest := front + ("/" + ConcatenationText(cs[last]));
      assert ConcatenationText(cs[0]) + front + "/" + ConcatenationText(cs[last]) == ConcatenationText(cs[0]) + rest;
    }
  }

  lemma {:induction false} AlternationSpelled(a: Alternation)
    requires AlternationOk(a, EqualCounts)
    ensures Spells(Ref("alternation"), AlternationText(a))
    decreases a, 1
  {
    hide Spells, SpellsRep, SpellsAll, SpellsTimes, ConcatenationText, ConcatenationOk;
    var cs := a.concatenations;
    ConcatenationSpelled(cs[0]);
    Once(Ref("concatenation"), ConcatenationText(cs[0]));
    var rest := AlternativesSpelled(cs);
    Times(NEXT_CONCATENATION, |cs| - 1, rest, 0);
    Two(One(Ref("concatenation")), ConcatenationText(cs[0]), Rep(0, INF, NEXT_CONCATENATION), rest);
    ByAbnf(8, AlternationRule(), 0, [One(Ref("concatenation")), Rep(0, INF, NEXT_CONCATENATION)], AlternationText(a));
  }

  // ----- grammars -----

  lemma LineSpelled()
    ensures Spells(Ref("c-nl"), "\r\n")
  {
    hide Spells, SpellsRep, SpellsAll;
    LineEndSpelled();
    Once(Ref("CRLF"), "\r\n");
    Only(One(Ref("CRLF")), "\r\n");
    ByAbnf(6, CNlRule(), 1, [One(Ref("CRLF"))], "\r\n");
  }

  lemma DefinedAsSpelled()
    ensures Spells(Ref("defined-as"), "=")
  {
    hide Spells, SpellsRep, SpellsAll;
    var gap, cs := Rep(0, INF, Ref("c-wsp")), [Cat([One(Str("="))]), Cat([One(Str("=/"))])];
    NoneOf(Ref("c-wsp"));
    Itself("=");
    Only(One(Str("=")), "=");
    Grouped(cs, 0, "=");
    Once(Grp(cs), "=");
    Three(gap, "", One(Grp(cs)), "=", gap, "");
    assert "" + "=" + "" == "=";
    ByAbnf(3, DefinedAsRule(), 0, [gap, One(Grp(cs)), gap], "=");
  }

  lemma ElementsSpelled(t: string)
    requires Spells(Ref("alternation"), t)
    ensures Spells(Ref("elements"), t)
  {
    hide Spells, SpellsRep, SpellsAll;
    Once(Ref("alternation"), t);
    NoneOf(Ref("WSP"));
    Two(One(Ref("alternation")), t, Rep(0, INF, Ref("WSP")), "");
    assert t + "" == t;
    ByAbnf(4, ElementsRule(), 0, [One(Ref("alternation")), Rep(0, INF, Ref("WSP"))], t);
  }

  lemma RuleSpelled(rule: Rule)
    requires RuleOk(rule, EqualCounts)
    ensures Spells(Ref("rule"), RuleText(rule))
  {
    hide Spells, SpellsRep, SpellsAll, NameOk, AlternationOk, AlternationText;
    var t := AlternationText(rule.alternation);
    NameSpelled(rule.name);
    DefinedAsSpelled();
    AlternationSpelled(rule.alternation);
    ElementsSpelled(t);
    LineSpelled();
    var rs := [One(Ref("rulename")), One(Ref("defined-as")), One(Ref("elements"))];
    Once(Ref("rulename"), rule.name);
    Once(Ref("defined-as"), "=");
    Once(Ref("elements"), t);
    Once(Ref("c-nl"), "\r\n");
    Three(rs[0], rule.name, rs[1], "=", rs[2], t);
    Then(rs, rule.name + "=" + t, One(Ref("c-nl")), "\r\n");
    assert rs + [One(Ref("c-nl"))]
           == [One(Ref("rulename")), One(Ref("defined-as")), One(Ref("elements")), One(Ref("c-nl"))];
    ByAbnf(1, RuleRule(), 0, rs + [One(Ref("c-nl"))], RuleText(rule));
  }

  const LINE: Element :=
    Grp([Cat([One(Ref("rule"))]), Cat([One(Grp([Cat([Rep(0, INF, Ref("WSP")), One(Ref("c-nl"))])]))])])

  lemma {:induction false} RulesSpelled(rules: seq<Rule>)
    requires forall i :: 0 <= i < |rules| ==> RuleOk(rules[i], EqualCounts)
    ensures SpellsTimes(LINE, |rules|, RulesText(rules))
  {
    hide Spells, SpellsRep, SpellsAll, SpellsTimes, RuleOk, RuleText;
    if rules == [] {
      NoTimes(LINE);
    } else {
      var front, last := rules[..|rules| - 1], rules[|rules| - 1];
      RulesSpelled(front);
      RuleSpelled(last);
      Once(Ref("rule"), RuleText(last));
      Only(One(Ref("rule")), RuleText(last));
      Grouped(LINE.alternation.concatenations, 0, RuleText(last));
      hide LINE;
      OnceMore(LINE, |front|, RulesText(front), RuleText(last));
    }
  }

  /** The text of a well-formed grammar is derivable from `rulelist`, also where
      a list stands after a repeat prefix of one count. */
  lemma GrammarTextDerivable(rules: seq<Rule>)
    requires rules != [] && forall i :: 0 <= i < |rules| ==> RuleOk(rules[i], EqualCounts)
    ensures D.IsAscii(RulesText(rules))
    ensures var s := D.BytesOf(RulesText(rules)); Derives(ABNF_GRAMMAR, "rulelist", s, (0, |s|))
  {
    hide RuleOk, RulesText;
    RulesSpelled(rules);
    RulelistSpelled(|rules|, RulesText(rules));
    Derived("rulelist", RulesText(rules));
  }

  lemma RulelistFound()
    ensures ABNF_GRAMMAR.Lookup("rulelist") != None
  {
    hide ABNF_GRAMMAR;
    AbnfRuleFound(0);
  }

  lemma RulelistSpelled(count: nat, t: string)
    requires count >= 1 && SpellsTimes(LINE, count, t)
    ensures Spells(Ref("rulelist"), t)
  {
    hide Spells, SpellsRep, SpellsAll, SpellsTimes;
    Times(LINE, count, t, 1);
    Only(Rep(1, INF, LINE), t);
    ByAbnf(0, RulelistRule(), 0, [Rep(1, INF, LINE)], t);
  }

  lemma Derived(name: string, t: string)
    requires Spells(Ref(name), t)
    ensures D.IsAscii(t)
    ensures var s := D.BytesOf(t); Derives(ABNF_GRAMMAR, name, s, (0, |s|))
  {
    hide ABNF_GRAMMAR;
    var s := D.BytesOf(t);
    assert At(s, 0, s);
    assert (0, 0 + |s|) in ElementRel(Ref(name), Languages(ABNF_GRAMMAR, s), s);
  }
}
