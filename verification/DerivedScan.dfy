/** What the rules of ABNF derive leaves the scan for marks where it was:
    no repeat count runs into the count of a list (pkg/abnf/rules.go:49-323). */
module DerivedScan {
  import opened Spans
  import opened Utf8
  import opened Wrappers
  import opened Abnf
  import opened Denotation
  import opened Rules
  import opened RuleLookup
  import opened AbnfSpelling
  import opened MarkScan

  // ----- rules of one alternative and of several -----

  lemma OneWay(rule: Rule, rs: seq<Repetition>, env: Environment, s: Bytes, f: set<Scan>, t: set<Scan>)
    requires rule.alternation.concatenations == [Cat(rs)] && AllTake(rs, env, s, f, t)
    ensures RuleTakes(rule, env, s, f, t)
  {
    hide AllTake, AnyTakes;
    AlternativesTake([Cat(rs)], env, s, f, t);
  }

  lemma EachWay(rule: Rule, env: Environment, s: Bytes, f: set<Scan>, t: set<Scan>)
    requires forall k :: 0 <= k < |rule.alternation.concatenations| ==>
               AllTake(rule.alternation.concatenations[k].repetitions, env, s, f, t)
    ensures RuleTakes(rule, env, s, f, t)
  {
    hide AllTake, AnyTakes;
    AlternativesTake(rule.alternation.concatenations, env, s, f, t);
  }

  lemma CharTakes(c: char, env: Environment, s: Bytes, f: set<Scan>, t: set<Scan>)
    requires CharMoves(c, f, t)
    ensures AllTake([One(Str([c]))], env, s, f, t)
  {
    hide AllTake, RepTakes, CharMoves;
    LiteralTakes(c, env, s, f, t);
    OnlyTakes(One(Str([c])), env, s, f, t);
  }

  // ----- the core rules -----

  lemma RangeAlone(a: char, b: char, c: char, d: char, low: int, high: int,
                   env: Environment, s: Bytes, f: set<Scan>, t: set<Scan>)
    requires DigitValue(a) < 16 && DigitValue(b) < 16 && DigitValue(c) < 16 && DigitValue(d) < 16
    requires low == 16 * DigitValue(a) + DigitValue(b) && high == 16 * DigitValue(c) + DigitValue(d) < 0x80
    requires forall b: Byte :: low <= b <= high ==> Moves(b, f, t)
    ensures AllTake([One(NumRange([a, b], [c, d]))], env, s, f, t)
  {
    hide AllTake, RepTakes, DigitValue, ParseNumVal, Moves;
    TwoDigits(a, b);
    TwoDigits(c, d);
    RangeTakes([a, b], [c, d], low, high, env, s, f, t);
    OnlyTakes(One(NumRange([a, b], [c, d])), env, s, f, t);
  }

  lemma ByteAlone(rule: Rule, a: char, b: char, env: Environment, s: Bytes, f: set<Scan>, t: set<Scan>)
    requires DigitValue(a) < 16 && DigitValue(b) < 16 && 16 * DigitValue(a) + DigitValue(b) < 0x80
    requires rule.alternation.concatenations == [Cat([One(NumSeries([a, b]))])]
    requires Moves(16 * DigitValue(a) + DigitValue(b), f, t)
    ensures RuleTakes(rule, env, s, f, t)
  {
    hide AllTake, RepTakes, RuleTakes, DigitValue, ParseNumVal, Moves;
    TwoDigits(a, b);
    SeriesTakes([a, b], 16 * DigitValue(a) + DigitValue(b), env, s, f, t);
    OnlyTakes(One(NumSeries([a, b])), env, s, f, t);
    OneWay(rule, [One(NumSeries([a, b]))], env, s, f, t);
  }

  lemma AlphaTakes(env: Environment, s: Bytes)
    ensures RuleTakes(AlphaRule(), env, s, OPEN, PLAIN)
  {
    hide AllTake, RuleTakes;
    RangeAlone('4', '1', '5', 'A', 0x41, 0x5A, env, s, OPEN, PLAIN);
    RangeAlone('6', '1', '7', 'A', 0x61, 0x7A, env, s, OPEN, PLAIN);
    EachWay(AlphaRule(), env, s, OPEN, PLAIN);
  }

  lemma BitTakes(env: Environment, s: Bytes)
    ensures RuleTakes(BitRule(), env, s, PLAIN, PLAIN)
  {
    hide AllTake, RuleTakes;
    CharTakes('0', env, s, PLAIN, PLAIN);
    CharTakes('1', env, s, PLAIN, PLAIN);
    EachWay(BitRule(), env, s, PLAIN, PLAIN);
  }

  lemma DigitTakes(env: Environment, s: Bytes, f: set<Scan>)
    requires f == PLAIN || f == OPEN
    ensures RuleTakes(DigitRule(), env, s, f, f)
  {
    hide AllTake, RuleTakes;
    RangeAlone('3', '0', '3', '9', 0x30, 0x39, env, s, f, f);
    EachWay(DigitRule(), env, s, f, f);
  }

  lemma HexdigTakes(env: Environment, s: Bytes)
    requires Kept(env, s)
    ensures RuleTakes(HexdigRule(), env, s, PLAIN, PLAIN)
  {
    hide AllTake, RuleTakes, Kept;
    RefTakes("DIGIT", env, s, PLAIN, PLAIN);
    CharTakes('A', env, s, PLAIN, PLAIN);
    CharTakes('B', env, s, PLAIN, PLAIN);
    CharTakes('C', env, s, PLAIN, PLAIN);
    CharTakes('D', env, s, PLAIN, PLAIN);
    CharTakes('E', env, s, PLAIN, PLAIN);
    CharTakes('F', env, s, PLAIN, PLAIN);
    EachWay(HexdigRule(), env, s, PLAIN, PLAIN);
  }

  lemma VcharTakes(env: Environment, s: Bytes)
    ensures RuleTakes(VcharRule(), env, s, COMMENT, COMMENT)
  {
    hide AllTake, RuleTakes;
    RangeAlone('2', '1', '7', 'E', 0x21, 0x7E, env, s, COMMENT, COMMENT);
    EachWay(VcharRule(), env, s, COMMENT, COMMENT);
  }

  lemma CrTakes(env: Environment, s: Bytes, f: set<Scan>)
    requires f == PLAIN || f == COMMENT
    ensures RuleTakes(CrRule(), env, s, f, f)
  {
    hide RuleTakes;
    ByteAlone(CrRule(), '0', 'D', env, s, f, f);
  }

  lemma SpTakes(env: Environment, s: Bytes, f: set<Scan>)
    requires f == PLAIN || f == COMMENT
    ensures RuleTakes(SpRule(), env, s, f, f)
  {
    hide RuleTakes;
    ByteAlone(SpRule(), '2', '0', env, s, f, f);
  }

  lemma HtabTakes(env: Environment, s: Bytes, f: set<Scan>)
    requires f == PLAIN || f == COMMENT
    ensures RuleTakes(HtabRule(), env, s, f, f)
  {
    hide RuleTakes;
    ByteAlone(HtabRule(), '0', '9', env, s, f, f);
  }

  lemma LfTakes(env: Environment, s: Bytes, f: set<Scan>)
    requires f == PLAIN || f == COMMENT
    ensures RuleTakes(LfRule(), env, s, f, PLAIN)
  {
    hide RuleTakes;
    ByteAlone(LfRule(), '0', 'A', env, s, f, PLAIN);
  }

  /** A line end, in a comment or out of it. */
  lemma CrlfTakes(env: Environment, s: Bytes, f: set<Scan>)
    requires Kept(env, s) && (f == PLAIN || f == COMMENT)
    ensures RuleTakes(CrlfRule(), env, s, f, PLAIN)
  {
    hide AllTake, RepTakes, RuleTakes, Kept;
    RefTakes("CR", env, s, f, f);
    RefTakes("LF", env, s, f, PLAIN);
    TwoTake(One(Ref("CR")), One(Ref("LF")), env, s, f, f, PLAIN);
    OneWay(CrlfRule(), [One(Ref("CR")), One(Ref("LF"))], env, s, f, PLAIN);
  }

  lemma WspTakes(env: Environment, s: Bytes, f: set<Scan>)
    requires Kept(env, s) && (f == PLAIN || f == COMMENT)
    ensures RuleTakes(WspRule(), env, s, f, f)
  {
    hide AllTake, RuleTakes, Kept;
    RefTakes("SP", env, s, f, f);
    RefTakes("HTAB", env, s, f, f);
    EachWay(WspRule(), env, s, f, f);
  }

  // ----- gaps -----

  lemma GapTakes(name: string, env: Environment, s: Bytes, min: nat)
    requires Kept(env, s) && Promised(name, PLAIN, PLAIN)
    ensures RepTakes(Rep(min, INF, Ref(name)), env, s, PLAIN, PLAIN)
  {
    hide ElementTakes, RepTakes, Kept, Promised;
    RefTakes(name, env, s, PLAIN, PLAIN);
    TimesTake(Ref(name), env, s, PLAIN, min, INF);
  }

  lemma CommentTakes(env: Environment, s: Bytes)
    requires Kept(env, s)
    ensures RuleTakes(CommentRule(), env, s, PLAIN, PLAIN)
  {
    hide ElementTakes, AllTake, RepTakes, RuleTakes, Kept;
    var cs := [Cat([One(Ref("WSP"))]), Cat([One(Ref("VCHAR"))])];
    LiteralTakes(';', env, s, PLAIN, COMMENT);
    RefTakes("WSP", env, s, COMMENT, COMMENT);
    RefTakes("VCHAR", env, s, COMMENT, COMMENT);
    GroupTakes(cs, env, s, COMMENT, COMMENT);
    TimesTake(Grp(cs), env, s, COMMENT, 0, INF);
    RefTakes("CRLF", env, s, COMMENT, PLAIN);
    ThreeTake(One(Str(";")), Rep(0, INF, Grp(cs)), One(Ref("CRLF")), env, s, PLAIN, COMMENT, COMMENT, PLAIN);
    OneWay(CommentRule(), [One(Str(";")), Rep(0, INF, Grp(cs)), One(Ref("CRLF"))], env, s, PLAIN, PLAIN);
  }

  lemma CNlTakes(env: Environment, s: Bytes)
    requires Kept(env, s)
    ensures RuleTakes(CNlRule(), env, s, PLAIN, PLAIN)
  {
    hide AllTake, RuleTakes, Kept;
    RefTakes("comment", env, s, PLAIN, PLAIN);
    RefTakes("CRLF", env, s, PLAIN, PLAIN);
    EachWay(CNlRule(), env, s, PLAIN, PLAIN);
  }

  lemma CWspTakes(env: Environment, s: Bytes)
    requires Kept(env, s)
    ensures RuleTakes(CWspRule(), env, s, PLAIN, PLAIN)
  {
    hide ElementTakes, AllTake, RepTakes, RuleTakes, Kept;
    var rs := [One(Ref("c-nl")), One(Ref("WSP"))];
    RefTakes("WSP", env, s, PLAIN, PLAIN);
    RefTakes("c-nl", env, s, PLAIN, PLAIN);
    TwoTake(rs[0], rs[1], env, s, PLAIN, PLAIN, PLAIN);
    GroupAlone([Cat(rs)], env, s, PLAIN, PLAIN);
    EachWay(CWspRule(), env, s, PLAIN, PLAIN);
  }

  lemma GroupAlone(cs: seq<Concatenation>, env: Environment, s: Bytes, f: set<Scan>, t: set<Scan>)
    requires forall k :: 0 <= k < |cs| ==> AllTake(cs[k].repetitions, env, s, f, t)
    ensures RepTakes(One(Grp(cs)), env, s, f, t) && AllTake([One(Grp(cs))], env, s, f, t)
  {
    hide ElementTakes, AllTake, RepTakes;
    GroupTakes(cs, env, s, f, t);
    OnceTakes(Grp(cs), env, s, f, t);
    OnlyTakes(One(Grp(cs)), env, s, f, t);
  }

  // ----- names and strings -----

  lemma RulenameTakes(env: Environment, s: Bytes)
    requires Kept(env, s)
    ensures RuleTakes(RulenameRule(), env, s, OPEN, PLAIN)
  {
    hide ElementTakes, AllTake, RepTakes, RuleTakes, Kept;
    var cs := [Cat([One(Ref("ALPHA"))]), Cat([One(Ref("DIGIT"))]), Cat([One(Str("-"))])];
    RefTakes("ALPHA", env, s, OPEN, PLAIN);
    PlainAlpha(env, s);
    RefTakes("DIGIT", env, s, PLAIN, PLAIN);
    CharTakes('-', env, s, PLAIN, PLAIN);
    GroupTakes(cs, env, s, PLAIN, PLAIN);
    TimesTake(Grp(cs), env, s, PLAIN, 0, INF);
    TwoTake(One(Ref("ALPHA")), Rep(0, INF, Grp(cs)), env, s, OPEN, PLAIN, PLAIN);
    OneWay(RulenameRule(), [One(Ref("ALPHA")), Rep(0, INF, Grp(cs))], env, s, OPEN, PLAIN);
  }

  lemma PlainAlpha(env: Environment, s: Bytes)
    requires Kept(env, s)
    ensures AllTake([One(Ref("ALPHA"))], env, s, PLAIN, PLAIN)
  {
    hide Kept, Takes;
    RefTakes("ALPHA", env, s, OPEN, PLAIN);
    TakesWider(RepetitionsRel([One(Ref("ALPHA"))], env, s), s, OPEN, PLAIN, PLAIN, PLAIN);
  }

  lemma QuotedStringTakes(env: Environment, s: Bytes)
    requires Kept(env, s)
    ensures RuleTakes(QuotedStringRule(), env, s, OPEN, PLAIN)
  {
    hide ElementTakes, AllTake, RepTakes, RuleTakes, Kept;
    var cs := [Cat([One(NumRange("20", "21"))]), Cat([One(NumRange("23", "7E"))])];
    RefTakes("DQUOTE", env, s, OPEN, QUOTED);
    RangeAlone('2', '0', '2', '1', 0x20, 0x21, env, s, QUOTED, QUOTED);
    RangeAlone('2', '3', '7', 'E', 0x23, 0x7E, env, s, QUOTED, QUOTED);
    GroupTakes(cs, env, s, QUOTED, QUOTED);
    TimesTake(Grp(cs), env, s, QUOTED, 0, INF);
    RefTakes("DQUOTE", env, s, QUOTED, PLAIN);
    ThreeTake(One(Ref("DQUOTE")), Rep(0, INF, Grp(cs)), One(Ref("DQUOTE")), env, s, OPEN, QUOTED, QUOTED, PLAIN);
    OneWay(QuotedStringRule(), [One(Ref("DQUOTE")), Rep(0, INF, Grp(cs)), One(Ref("DQUOTE"))], env, s, OPEN, PLAIN);
  }

  lemma CaseSensitiveTakes(env: Environment, s: Bytes)
    requires Kept(env, s)
    ensures RuleTakes(CaseSensitiveStringRule(), env, s, OPEN, PLAIN)
  {
    hide AllTake, RepTakes, RuleTakes, Kept;
    LiteralsTake('%', 's', env, s, OPEN, OPEN, OPEN);
    RefTakes("quoted-string", env, s, OPEN, PLAIN);
    TwoTake(One(Str("%s")), One(Ref("quoted-string")), env, s, OPEN, OPEN, PLAIN);
    OneWay(CaseSensitiveStringRule(), [One(Str("%s")), One(Ref("quoted-string"))], env, s, OPEN, PLAIN);
  }

  lemma CaseInsensitiveTakes(env: Environment, s: Bytes)
    requires Kept(env, s)
    ensures RuleTakes(CaseInsensitiveStringRule(), env, s, OPEN, PLAIN)
  {
    hide ElementTakes, AllTake, RepTakes, RuleTakes, Kept;
    var cs := [Cat([One(Str("%i"))])];
    LiteralsTake('%', 'i', env, s, OPEN, OPEN, OPEN);
    OnlyTakes(One(Str("%i")), env, s, OPEN, OPEN);
    OptionTakes(cs, env, s, OPEN, OPEN);
    OnceTakes(Opt(cs), env, s, OPEN, OPEN);
    RefTakes("quoted-string", env, s, OPEN, PLAIN);
    TwoTake(One(Opt(cs)), One(Ref("quoted-string")), env, s, OPEN, OPEN, PLAIN);
    OneWay(CaseInsensitiveStringRule(), [One(Opt(cs)), One(Ref("quoted-string"))], env, s, OPEN, PLAIN);
  }

  lemma CharValTakes(env: Environment, s: Bytes)
    requires Kept(env, s)
    ensures RuleTakes(CharValRule(), env, s, OPEN, PLAIN)
  {
    hide AllTake, RuleTakes, Kept;
    RefTakes("case-insensitive-string", env, s, OPEN, PLAIN);
    RefTakes("case-sensitive-string", env, s, OPEN, PLAIN);
    EachWay(CharValRule(), env, s, OPEN, PLAIN);
  }

  lemma ProseValTakes(env: Environment, s: Bytes)
    requires Kept(env, s)
    ensures RuleTakes(ProseValRule(), env, s, OPEN, PLAIN)
  {
    hide ElementTakes, AllTake, RepTakes, RuleTakes, Kept;
    var cs := [Cat([One(NumRange("20", "3D"))]), Cat([One(NumRange("3F", "7E"))])];
    LiteralTakes('<', env, s, OPEN, PROSE);
    RangeAlone('2', '0', '3', 'D', 0x20, 0x3D, env, s, PROSE, PROSE);
    RangeAlone('3', 'F', '7', 'E', 0x3F, 0x7E, env, s, PROSE, PROSE);
    GroupTakes(cs, env, s, PROSE, PROSE);
    TimesTake(Grp(cs), env, s, PROSE, 0, INF);
    LiteralTakes('>', env, s, PROSE, PLAIN);
    ThreeTake(One(Str("<")), Rep(0, INF, Grp(cs)), One(Str(">")), env, s, OPEN, PROSE, PROSE, PLAIN);
    OneWay(ProseValRule(), [One(Str("<")), Rep(0, INF, Grp(cs)), One(Str(">"))], env, s, OPEN, PLAIN);
  }

  // ----- numerals -----

  lemma MoreTakes(c: char, digit: string, env: Environment, s: Bytes)
    requires (c == '.' || c == '-') && Kept(env, s) && Promised(digit, PLAIN, PLAIN)
    ensures ElementTakes(More([c], digit), env, s, PLAIN, PLAIN)
  {
    hide ElementTakes, AllTake, RepTakes, Kept, Promised;
    var rs := [One(Str([c])), Rep(1, INF, Ref(digit))];
    LiteralTakes(c, env, s, PLAIN, PLAIN);
    GapTakes(digit, env, s, 1);
    TwoTake(rs[0], rs[1], env, s, PLAIN, PLAIN, PLAIN);
    GroupTakes([Cat(rs)], env, s, PLAIN, PLAIN);
  }

  /** A base, a numeral, and what may follow it. */
  lemma BasedTakes(rule: Rule, c: char, digit: string, env: Environment, s: Bytes)
    requires (c == 'b' || c == 'd' || c == 'x') && Kept(env, s) && Promised(digit, PLAIN, PLAIN)
    requires rule.alternation.concatenations == [Cat([One(Str([c])), Rep(1, INF, Ref(digit)), One(Rest(digit))])]
    ensures RuleTakes(rule, env, s, PLAIN, PLAIN)
  {
    hide ElementTakes, AllTake, RepTakes, RuleTakes, Kept, Promised, More;
    LiteralTakes(c, env, s, PLAIN, PLAIN);
    GapTakes(digit, env, s, 1);
    MoreTakes('.', digit, env, s);
    MoreTakes('-', digit, env, s);
    TimesTake(More(".", digit), env, s, PLAIN, 1, INF);
    OnlyTakes(Rep(1, INF, More(".", digit)), env, s, PLAIN, PLAIN);
    OnceTakes(More("-", digit), env, s, PLAIN, PLAIN);
    OnlyTakes(One(More("-", digit)), env, s, PLAIN, PLAIN);
    OptionTakes([Cat([Rep(1, INF, More(".", digit))]), Cat([One(More("-", digit))])], env, s, PLAIN, PLAIN);
    OnceTakes(Rest(digit), env, s, PLAIN, PLAIN);
    hide Rest;
    ThreeTake(One(Str([c])), Rep(1, INF, Ref(digit)), One(Rest(digit)), env, s, PLAIN, PLAIN, PLAIN, PLAIN);
    OneWay(rule, [One(Str([c])), Rep(1, INF, Ref(digit)), One(Rest(digit))], env, s, PLAIN, PLAIN);
  }

  lemma NumValTakes(env: Environment, s: Bytes)
    requires Kept(env, s)
    ensures RuleTakes(NumValRule(), env, s, OPEN, PLAIN)
  {
    hide ElementTakes, AllTake, RepTakes, RuleTakes, Kept;
    var cs := [Cat([One(Ref("bin-val"))]), Cat([One(Ref("dec-val"))]), Cat([One(Ref("hex-val"))])];
    LiteralTakes('%', env, s, OPEN, PLAIN);
    RefTakes("bin-val", env, s, PLAIN, PLAIN);
    RefTakes("dec-val", env, s, PLAIN, PLAIN);
    RefTakes("hex-val", env, s, PLAIN, PLAIN);
    GroupAlone(cs, env, s, PLAIN, PLAIN);
    TwoTake(One(Str("%")), One(Grp(cs)), env, s, OPEN, PLAIN, PLAIN);
    OneWay(NumValRule(), [One(Str("%")), One(Grp(cs))], env, s, OPEN, PLAIN);
  }

  // ----- trees -----

  lemma RepeatTakesMarks(env: Environment, s: Bytes)
    requires Kept(env, s)
    ensures RuleTakes(RepeatRule(), env, s, PLAIN, OPEN)
  {
    hide ElementTakes, AllTake, RepTakes, RuleTakes, Kept;
    var digits := Rep(0, INF, Ref("DIGIT"));
    GapTakes("DIGIT", env, s, 0);
    GapTakes("DIGIT", env, s, 1);
    WiderRep(Rep(1, INF, Ref("DIGIT")), env, s);
    OnlyTakes(Rep(1, INF, Ref("DIGIT")), env, s, PLAIN, OPEN);
    RefTakes("DIGIT", env, s, OPEN, OPEN);
    TimesTake(Ref("DIGIT"), env, s, OPEN, 0, INF);
    LiteralTakes('*', env, s, PLAIN, OPEN);
    LiteralTakes('#', env, s, PLAIN, OPEN);
    ThreeTake(digits, One(Str("*")), digits, env, s, PLAIN, PLAIN, OPEN, OPEN);
    ThreeTake(digits, One(Str("#")), digits, env, s, PLAIN, PLAIN, OPEN, OPEN);
    GroupAlone([Cat([digits, One(Str("*")), digits])], env, s, PLAIN, OPEN);
    GroupAlone([Cat([digits, One(Str("#")), digits])], env, s, PLAIN, OPEN);
    EachWay(RepeatRule(), env, s, PLAIN, OPEN);
  }

  lemma WiderRep(r: Repetition, env: Environment, s: Bytes)
    requires RepTakes(r, env, s, PLAIN, PLAIN)
    ensures RepTakes(r, env, s, PLAIN, OPEN)
  {
    hide Takes;
    TakesWider(RepetitionRel(r, env, s), s, PLAIN, PLAIN, PLAIN, OPEN);
  }

  lemma ElementRuleTakes(env: Environment, s: Bytes)
    requires Kept(env, s)
    ensures RuleTakes(ElementRule(), env, s, OPEN, PLAIN)
  {
    hide AllTake, RuleTakes, Kept;
    RefTakes("rulename", env, s, OPEN, PLAIN);
    RefTakes("group", env, s, OPEN, PLAIN);
    RefTakes("option", env, s, OPEN, PLAIN);
    RefTakes("char-val", env, s, OPEN, PLAIN);
    RefTakes("num-val", env, s, OPEN, PLAIN);
    RefTakes("prose-val", env, s, OPEN, PLAIN);
    EachWay(ElementRule(), env, s, OPEN, PLAIN);
  }

  /** An alternation between brackets. */
  lemma BracketsTake(rule: Rule, open: char, close: char, env: Environment, s: Bytes)
    requires Kept(env, s) && ((open == '(' && close == ')') || (open == '[' && close == ']'))
    requires rule.alternation.concatenations ==
               [Cat([One(Str([open])), Rep(0, INF, Ref("c-wsp")), One(Ref("alternation")), Rep(0, INF, Ref("c-wsp")),
                     One(Str([close]))])]
    ensures RuleTakes(rule, env, s, OPEN, PLAIN)
  {
    hide AllTake, RepTakes, RuleTakes, Kept;
    var gap, inner := Rep(0, INF, Ref("c-wsp")), One(Ref("alternation"));
    LiteralTakes(open, env, s, OPEN, PLAIN);
    LiteralTakes(close, env, s, PLAIN, PLAIN);
    GapTakes("c-wsp", env, s, 0);
    RefTakes("alternation", env, s, PLAIN, PLAIN);
    ThreeTake(One(Str([open])), gap, inner, env, s, OPEN, PLAIN, PLAIN, PLAIN);
    ThenTakes([One(Str([open])), gap, inner], gap, env, s, OPEN, PLAIN, PLAIN);
    ThenTakes([One(Str([open])), gap, inner] + [gap], One(Str([close])), env, s, OPEN, PLAIN, PLAIN);
    var rs := [One(Str([open])), gap, inner, gap, One(Str([close]))];
    assert [One(Str([open])), gap, inner] + [gap] + [One(Str([close]))] == rs;
    OneWay(rule, rs, env, s, OPEN, PLAIN);
  }

  lemma GroupRuleTakes(env: Environment, s: Bytes)
    requires Kept(env, s)
    ensures RuleTakes(GroupRule(), env, s, OPEN, PLAIN)
  {
    hide RuleTakes, Kept;
    BracketsTake(GroupRule(), '(', ')', env, s);
  }

  lemma OptionRuleTakes(env: Environment, s: Bytes)
    requires Kept(env, s)
    ensures RuleTakes(OptionRule(), env, s, OPEN, PLAIN)
  {
    hide RuleTakes, Kept;
    BracketsTake(OptionRule(), '[', ']', env, s);
  }

  lemma RepetitionTakes(env: Environment, s: Bytes)
    requires Kept(env, s)
    ensures RuleTakes(RepetitionRule(), env, s, PLAIN, PLAIN)
  {
    hide ElementTakes, AllTake, RepTakes, RuleTakes, Kept;
    var cs := [Cat([One(Ref("repeat"))])];
    RefTakes("repeat", env, s, PLAIN, OPEN);
    OptionTakes(cs, env, s, PLAIN, OPEN);
    OnceTakes(Opt(cs), env, s, PLAIN, OPEN);
    RefTakes("element", env, s, OPEN, PLAIN);
    TwoTake(One(Opt(cs)), One(Ref("element")), env, s, PLAIN, OPEN, PLAIN);
    OneWay(RepetitionRule(), [One(Opt(cs)), One(Ref("element"))], env, s, PLAIN, PLAIN);
  }

  /** A first piece and any number of further ones. */
  lemma FirstAndMore(rule: Rule, name: string, cs: seq<Concatenation>, env: Environment, s: Bytes)
    requires rule.alternation.concatenations == [Cat([One(Ref(name)), Rep(0, INF, Grp(cs))])]
    requires Kept(env, s) && Promised(name, PLAIN, PLAIN)
    requires forall k :: 0 <= k < |cs| ==> AllTake(cs[k].repetitions, env, s, PLAIN, PLAIN)
    ensures RuleTakes(rule, env, s, PLAIN, PLAIN)
  {
    hide ElementTakes, AllTake, RepTakes, RuleTakes, Kept, Promised;
    RefTakes(name, env, s, PLAIN, PLAIN);
    GroupTakes(cs, env, s, PLAIN, PLAIN);
    TimesTake(Grp(cs), env, s, PLAIN, 0, INF);
    TwoTake(One(Ref(name)), Rep(0, INF, Grp(cs)), env, s, PLAIN, PLAIN, PLAIN);
    OneWay(rule, [One(Ref(name)), Rep(0, INF, Grp(cs))], env, s, PLAIN, PLAIN);
  }

  lemma ConcatenationTakes(env: Environment, s: Bytes)
    requires Kept(env, s)
    ensures RuleTakes(ConcatenationRule(), env, s, PLAIN, PLAIN)
  {
    hide AllTake, RepTakes, RuleTakes, Kept;
    var rs := [Rep(1, INF, Ref("c-wsp")), One(Ref("repetition"))];
    GapTakes("c-wsp", env, s, 1);
    RefTakes("repetition", env, s, PLAIN, PLAIN);
    TwoTake(rs[0], rs[1], env, s, PLAIN, PLAIN, PLAIN);
    FirstAndMore(ConcatenationRule(), "repetition", [Cat(rs)], env, s);
  }

  lemma AlternationTakes(env: Environment, s: Bytes)
    requires Kept(env, s)
    ensures RuleTakes(AlternationRule(), env, s, PLAIN, PLAIN)
  {
    hide AllTake, RepTakes, RuleTakes, Kept;
    var gap, inner := Rep(0, INF, Ref("c-wsp")), One(Ref("concatenation"));
    GapTakes("c-wsp", env, s, 0);
    LiteralTakes('/', env, s, PLAIN, PLAIN);
    RefTakes("concatenation", env, s, PLAIN, PLAIN);
    ThreeTake(gap, One(Str("/")), gap, env, s, PLAIN, PLAIN, PLAIN, PLAIN);
    ThenTakes([gap, One(Str("/")), gap], inner, env, s, PLAIN, PLAIN, PLAIN);
    assert [gap, One(Str("/")), gap] + [inner] == [gap, One(Str("/")), gap, inner];
    FirstAndMore(AlternationRule(), "concatenation", [Cat([gap, One(Str("/")), gap, inner])], env, s);
  }

  // ----- definitions -----

  lemma ElementsTake(env: Environment, s: Bytes)
    requires Kept(env, s)
    ensures RuleTakes(ElementsRule(), env, s, PLAIN, PLAIN)
  {
    hide AllTake, RepTakes, RuleTakes, Kept;
    RefTakes("alternation", env, s, PLAIN, PLAIN);
    GapTakes("WSP", env, s, 0);
    TwoTake(One(Ref("alternation")), Rep(0, INF, Ref("WSP")), env, s, PLAIN, PLAIN, PLAIN);
    OneWay(ElementsRule(), [One(Ref("alternation")), Rep(0, INF, Ref("WSP"))], env, s, PLAIN, PLAIN);
  }

  lemma DefinedAsTakes(env: Environment, s: Bytes)
    requires Kept(env, s)
    ensures RuleTakes(DefinedAsRule(), env, s, PLAIN, PLAIN)
  {
    hide ElementTakes, AllTake, RepTakes, RuleTakes, Kept;
    var gap, cs := Rep(0, INF, Ref("c-wsp")), [Cat([One(Str("="))]), Cat([One(Str("=/"))])];
    GapTakes("c-wsp", env, s, 0);
    CharTakes('=', env, s, PLAIN, PLAIN);
    LiteralsTake('=', '/', env, s, PLAIN, PLAIN, PLAIN);
    OnlyTakes(One(Str("=/")), env, s, PLAIN, PLAIN);
    GroupAlone(cs, env, s, PLAIN, PLAIN);
    ThreeTake(gap, One(Grp(cs)), gap, env, s, PLAIN, PLAIN, PLAIN, PLAIN);
    OneWay(DefinedAsRule(), [gap, One(Grp(cs)), gap], env, s, PLAIN, PLAIN);
  }

  lemma RuleRuleTakes(env: Environment, s: Bytes)
    requires Kept(env, s)
    ensures RuleTakes(RuleRule(), env, s, PLAIN, PLAIN)
  {
    hide AllTake, RepTakes, RuleTakes, Kept;
    var rs := [One(Ref("rulename")), One(Ref("defined-as")), One(Ref("elements"))];
    PlainRulename(env, s);
    RefTakes("defined-as", env, s, PLAIN, PLAIN);
    RefTakes("elements", env, s, PLAIN, PLAIN);
    RefTakes("c-nl", env, s, PLAIN, PLAIN);
    ThreeTake(rs[0], rs[1], rs[2], env, s, PLAIN, PLAIN, PLAIN, PLAIN);
    ThenTakes(rs, One(Ref("c-nl")), env, s, PLAIN, PLAIN, PLAIN);
    assert rs + [One(Ref("c-nl"))]
           == [One(Ref("rulename")), One(Ref("defined-as")), One(Ref("elements")), One(Ref("c-nl"))];
    OneWay(RuleRule(), rs + [One(Ref("c-nl"))], env, s, PLAIN, PLAIN);
  }

  lemma PlainRulename(env: Environment, s: Bytes)
    requires Kept(env, s)
    ensures RepTakes(One(Ref("rulename")), env, s, PLAIN, PLAIN)
  {
    hide Kept, Takes;
    RefTakes("rulename", env, s, OPEN, PLAIN);
    TakesWider(RepetitionRel(One(Ref("rulename")), env, s), s, OPEN, PLAIN, PLAIN, PLAIN);
  }

  lemma RulelistTakes(env: Environment, s: Bytes)
    requires Kept(env, s)
    ensures RuleTakes(RulelistRule(), env, s, PLAIN, PLAIN)
  {
    hide ElementTakes, AllTake, RepTakes, RuleTakes, Kept;
    var blank := [Rep(0, INF, Ref("WSP")), One(Ref("c-nl"))];
    var cs := [Cat([One(Ref("rule"))]), Cat([One(Grp([Cat(blank)]))])];
    RefTakes("rule", env, s, PLAIN, PLAIN);
    GapTakes("WSP", env, s, 0);
    RefTakes("c-nl", env, s, PLAIN, PLAIN);
    TwoTake(blank[0], blank[1], env, s, PLAIN, PLAIN, PLAIN);
    GroupAlone([Cat(blank)], env, s, PLAIN, PLAIN);
    GroupTakes(cs, env, s, PLAIN, PLAIN);
    TimesTake(Grp(cs), env, s, PLAIN, 1, INF);
    OnlyTakes(Rep(1, INF, Grp(cs)), env, s, PLAIN, PLAIN);
    OneWay(RulelistRule(), [Rep(1, INF, Grp(cs))], env, s, PLAIN, PLAIN);
  }

  // ----- all rules -----

  /** A core rule by its place. */
  lemma CoreRule(k: nat, rule: Rule)
    requires k < 16 && |CORE_RULES| == 16 && CORE_RULES[k] == rule
    ensures ABNF_GRAMMAR.Lookup(rule.name) == Some(rule)
  {
    hide ABNF_GRAMMAR, CORE_RULES;
    CoreRuleFound(k);
  }

  lemma AbnfRule(k: nat, rule: Rule)
    requires k < 24 && |ABNF_RULES| == 24 && ABNF_RULES[k] == rule
    ensures ABNF_GRAMMAR.Lookup(rule.name) == Some(rule)
  {
    hide ABNF_GRAMMAR, ABNF_RULES;
    AbnfRuleFound(k);
  }

  /** A rule of the grammar that takes the scan so. */
  ghost predicate Fulfilled(name: string, env: Environment, s: Bytes, from: set<Scan>, to: set<Scan>) {
    ABNF_GRAMMAR.Lookup(name).Some? && RuleTakes(ABNF_GRAMMAR.Lookup(name).value, env, s, from, to)
  }

  /** Characters outside strings and comments. */
  lemma CorePlain(env: Environment, s: Bytes)
    requires Kept(env, s)
    ensures Fulfilled("BIT", env, s, PLAIN, PLAIN) && Fulfilled("DIGIT", env, s, PLAIN, PLAIN)
    ensures Fulfilled("HEXDIG", env, s, PLAIN, PLAIN) && Fulfilled("CR", env, s, PLAIN, PLAIN)
    ensures Fulfilled("LF", env, s, PLAIN, PLAIN) && Fulfilled("CRLF", env, s, PLAIN, PLAIN)
    ensures Fulfilled("SP", env, s, PLAIN, PLAIN) && Fulfilled("HTAB", env, s, PLAIN, PLAIN)
    ensures Fulfilled("WSP", env, s, PLAIN, PLAIN)
  {
    hide ABNF_GRAMMAR, RuleTakes, Kept, BitRule, DigitRule, HexdigRule, CrRule, LfRule, CrlfRule, SpRule, HtabRule;
    hide WspRule;
    CoreRule(1, BitRule());
    BitTakes(env, s);
    CoreRule(6, DigitRule());
    DigitTakes(env, s, PLAIN);
    CoreRule(8, HexdigRule());
    HexdigTakes(env, s);
    CoreRule(3, CrRule());
    CrTakes(env, s, PLAIN);
    CoreRule(10, LfRule());
    LfTakes(env, s, PLAIN);
    CoreRule(4, CrlfRule());
    CrlfTakes(env, s, PLAIN);
    CoreRule(13, SpRule());
    SpTakes(env, s, PLAIN);
    CoreRule(9, HtabRule());
    HtabTakes(env, s, PLAIN);
    CoreRule(15, WspRule());
    WspTakes(env, s, PLAIN);
  }

  /** Definitions and what stands between them. */
  lemma DefinitionPlain(env: Environment, s: Bytes)
    requires Kept(env, s)
    ensures Fulfilled("rulelist", env, s, PLAIN, PLAIN) && Fulfilled("rule", env, s, PLAIN, PLAIN)
    ensures Fulfilled("defined-as", env, s, PLAIN, PLAIN) && Fulfilled("elements", env, s, PLAIN, PLAIN)
    ensures Fulfilled("c-wsp", env, s, PLAIN, PLAIN) && Fulfilled("c-nl", env, s, PLAIN, PLAIN)
    ensures Fulfilled("comment", env, s, PLAIN, PLAIN)
  {
    hide ABNF_GRAMMAR, RuleTakes, Kept, RulelistRule, RuleRule, DefinedAsRule, ElementsRule, CWspRule, CNlRule;
    hide CommentRule;
    AbnfRule(0, RulelistRule());
    RulelistTakes(env, s);
    AbnfRule(1, RuleRule());
    RuleRuleTakes(env, s);
    AbnfRule(3, DefinedAsRule());
    DefinedAsTakes(env, s);
    AbnfRule(4, ElementsRule());
    ElementsTake(env, s);
    AbnfRule(5, CWspRule());
    CWspTakes(env, s);
    AbnfRule(6, CNlRule());
    CNlTakes(env, s);
    AbnfRule(7, CommentRule());
    CommentTakes(env, s);
  }

  /** Trees and numerals. */
  lemma TreePlain(env: Environment, s: Bytes)
    requires Kept(env, s)
    ensures Fulfilled("alternation", env, s, PLAIN, PLAIN) && Fulfilled("concatenation", env, s, PLAIN, PLAIN)
    ensures Fulfilled("repetition", env, s, PLAIN, PLAIN) && Fulfilled("bin-val", env, s, PLAIN, PLAIN)
    ensures Fulfilled("dec-val", env, s, PLAIN, PLAIN) && Fulfilled("hex-val", env, s, PLAIN, PLAIN)
  {
    hide ABNF_GRAMMAR, RuleTakes, Kept;
    AbnfRule(8, AlternationRule());
    AlternationTakes(env, s);
    AbnfRule(9, ConcatenationRule());
    ConcatenationTakes(env, s);
    AbnfRule(10, RepetitionRule());
    RepetitionTakes(env, s);
    AbnfRule(20, BinValRule());
    BasedTakes(BinValRule(), 'b', "BIT", env, s);
    AbnfRule(21, DecValRule());
    BasedTakes(DecValRule(), 'd', "DIGIT", env, s);
    AbnfRule(22, HexValRule());
    BasedTakes(HexValRule(), 'x', "HEXDIG", env, s);
  }

  /** Names and brackets, which may follow a repeat. */
  lemma ElementPlain(env: Environment, s: Bytes)
    requires Kept(env, s)
    ensures Fulfilled("ALPHA", env, s, OPEN, PLAIN) && Fulfilled("rulename", env, s, OPEN, PLAIN)
    ensures Fulfilled("element", env, s, OPEN, PLAIN) && Fulfilled("group", env, s, OPEN, PLAIN)
    ensures Fulfilled("option", env, s, OPEN, PLAIN)
  {
    hide ABNF_GRAMMAR, RuleTakes, Kept, AlphaRule, RulenameRule, ElementRule, GroupRule, OptionRule;
    CoreRule(0, AlphaRule());
    AlphaTakes(env, s);
    AbnfRule(2, RulenameRule());
    RulenameTakes(env, s);
    AbnfRule(12, ElementRule());
    ElementRuleTakes(env, s);
    AbnfRule(13, GroupRule());
    GroupRuleTakes(env, s);
    AbnfRule(14, OptionRule());
    OptionRuleTakes(env, s);
  }

  /** Values, which may follow a repeat. */
  lemma ValuePlain(env: Environment, s: Bytes)
    requires Kept(env, s)
    ensures Fulfilled("char-val", env, s, OPEN, PLAIN) && Fulfilled("num-val", env, s, OPEN, PLAIN)
    ensures Fulfilled("prose-val", env, s, OPEN, PLAIN)
  {
    hide ABNF_GRAMMAR, RuleTakes, Kept;
    AbnfRule(15, CharValRule());
    CharValTakes(env, s);
    AbnfRule(19, NumValRule());
    NumValTakes(env, s);
    AbnfRule(23, ProseValRule());
    ProseValTakes(env, s);
  }

  /** Strings, which may follow a repeat. */
  lemma StringPlain(env: Environment, s: Bytes)
    requires Kept(env, s)
    ensures Fulfilled("case-insensitive-string", env, s, OPEN, PLAIN) &&
            Fulfilled("case-sensitive-string", env, s, OPEN, PLAIN)
    ensures Fulfilled("quoted-string", env, s, OPEN, PLAIN)
  {
    hide ABNF_GRAMMAR, RuleTakes, Kept;
    AbnfRule(16, CaseInsensitiveStringRule());
    CaseInsensitiveTakes(env, s);
    AbnfRule(17, CaseSensitiveStringRule());
    CaseSensitiveTakes(env, s);
    AbnfRule(18, QuotedStringRule());
    QuotedStringTakes(env, s);
  }

  /** Characters of a comment. */
  lemma InComments(env: Environment, s: Bytes)
    requires Kept(env, s)
    ensures Fulfilled("CR", env, s, COMMENT, COMMENT) && Fulfilled("SP", env, s, COMMENT, COMMENT)
    ensures Fulfilled("HTAB", env, s, COMMENT, COMMENT) && Fulfilled("WSP", env, s, COMMENT, COMMENT)
    ensures Fulfilled("VCHAR", env, s, COMMENT, COMMENT)
  {
    hide ABNF_GRAMMAR, RuleTakes, Kept, CrRule, SpRule, HtabRule, WspRule, VcharRule;
    CoreRule(3, CrRule());
    CrTakes(env, s, COMMENT);
    CoreRule(13, SpRule());
    SpTakes(env, s, COMMENT);
    CoreRule(9, HtabRule());
    HtabTakes(env, s, COMMENT);
    CoreRule(15, WspRule());
    WspTakes(env, s, COMMENT);
    CoreRule(14, VcharRule());
    VcharTakes(env, s);
  }

  /** The end of a comment. */
  lemma EndComment(env: Environment, s: Bytes)
    requires Kept(env, s)
    ensures Fulfilled("LF", env, s, COMMENT, PLAIN) && Fulfilled("CRLF", env, s, COMMENT, PLAIN)
  {
    hide ABNF_GRAMMAR, RuleTakes, Kept;
    CoreRule(10, LfRule());
    LfTakes(env, s, COMMENT);
    CoreRule(4, CrlfRule());
    CrlfTakes(env, s, COMMENT);
  }

  /** Repeats and their digits. */
  lemma RepeatOpen(env: Environment, s: Bytes)
    requires Kept(env, s)
    ensures Fulfilled("repeat", env, s, PLAIN, OPEN) && Fulfilled("DIGIT", env, s, OPEN, OPEN)
  {
    hide ABNF_GRAMMAR, RuleTakes, Kept;
    AbnfRule(11, RepeatRule());
    RepeatTakesMarks(env, s);
    CoreRule(6, DigitRule());
    DigitTakes(env, s, OPEN);
  }

  /** The quotes before and after a string. */
  lemma Quotes(env: Environment, s: Bytes)
    ensures Fulfilled("DQUOTE", env, s, OPEN, QUOTED) && Fulfilled("DQUOTE", env, s, QUOTED, PLAIN)
  {
    hide ABNF_GRAMMAR, RuleTakes, Kept;
    CoreRule(7, DquoteRule());
    ByteAlone(DquoteRule(), '2', '2', env, s, OPEN, QUOTED);
    ByteAlone(DquoteRule(), '2', '2', env, s, QUOTED, PLAIN);
  }

  /** Every rule keeps its promise. */
  lemma RulesKept(name: string, env: Environment, s: Bytes, f: set<Scan>, t: set<Scan>)
    requires Kept(env, s) && Promised(name, f, t)
    ensures Fulfilled(name, env, s, f, t)
  {
    hide ABNF_GRAMMAR, Kept, Fulfilled;
    if f == PLAIN && t == PLAIN {
      if name in {"BIT", "DIGIT", "HEXDIG", "CR", "LF", "CRLF", "SP", "HTAB", "WSP"} {
        CorePlain(env, s);
      } else if name in {"rulelist", "rule", "defined-as", "elements", "c-wsp", "c-nl", "comment"} {
        DefinitionPlain(env, s);
      } else {
        TreePlain(env, s);
      }
    } else if f == OPEN && t == PLAIN {
      if name in {"case-insensitive-string", "case-sensitive-string", "quoted-string"} {
        StringPlain(env, s);
      } else if name in {"char-val", "num-val", "prose-val"} {
        ValuePlain(env, s);
      } else {
        ElementPlain(env, s);
      }
    } else if f == COMMENT && t == COMMENT {
      InComments(env, s);
    } else if f == COMMENT && t == PLAIN {
      EndComment(env, s);
    } else {
      RepeatOpen(env, s);
      Quotes(env, s);
    }
  }

  lemma {:induction false} DepthKept(depth: nat, s: Bytes)
    ensures Kept(RulesRel(ABNF_GRAMMAR, depth, s), s)
    decreases depth
  {
    hide ABNF_GRAMMAR, Takes, Promised;
    forall name, f, t | Promised(name, f, t)
      ensures Takes(RuleRel(ABNF_GRAMMAR, depth, name, s), s, f, t)
    {
      if depth == 0 {
        NothingTakes(RuleRel(ABNF_GRAMMAR, depth, name, s), s, f, t);
      } else {
        var env := RulesRel(ABNF_GRAMMAR, depth - 1, s);
        DepthKept(depth - 1, s);
        RulesKept(name, env, s, f, t);
        var rule := ABNF_GRAMMAR.Lookup(name).value;
        assert RuleRel(ABNF_GRAMMAR, depth, name, s) == AlternationRel(rule.alternation, env, s);
      }
    }
  }

  lemma NothingTakes(rel: Rel, s: Bytes, f: set<Scan>, t: set<Scan>)
    requires rel == iset{}
    ensures Takes(rel, s, f, t)
  {
  }

  /** A definition never brings a repeat count up against the count of a list. */
  lemma DefinitionScans(s: Bytes)
    requires Derives(ABNF_GRAMMAR, "rulelist", s, (0, |s|))
    ensures Scanned(Plain, s) == Plain
  {
    hide ABNF_GRAMMAR, RuleRel, Scanned, TakesAt, Kept;
    var depth: nat :| (0, |s|) in RuleRel(ABNF_GRAMMAR, depth, "rulelist", s);
    DepthKept(depth, s);
    KeptThere(RulesRel(ABNF_GRAMMAR, depth, s), s, "rulelist", PLAIN, PLAIN, (0, |s|));
    Whole(s);
  }

  lemma KeptThere(env: Environment, s: Bytes, name: string, f: set<Scan>, t: set<Scan>, p: (nat, nat))
    requires Kept(env, s) && Promised(name, f, t) && p in env(name) && p.0 <= |s|
    ensures TakesAt(p, s, f, t)
  {
    hide Promised, TakesAt;
    TakesThere(env(name), s, f, t, p);
  }

  lemma Whole(s: Bytes)
    ensures TakesAt((0, |s|), s, PLAIN, PLAIN) ==> Scanned(Plain, s) == Plain
  {
    assert s[0..|s|] == s;
  }
}
