/** The core rules of RFC 5234 and the ABNF grammar of ABNF, as data
    (pkg/abnf/rules.go). */
module Rules {
  import opened Spans
  import opened Wrappers
  import opened Abnf

  function MakeRule(name: string, concatenations: seq<Concatenation>): Rule {
    Rule(name, Alternation(concatenations))
  }

  function AlphaRule(): (r: Rule)
    ensures r.name == "ALPHA"
  {
    MakeRule("ALPHA", [Cat([One(NumRange("41", "5A"))]), Cat([One(NumRange("61", "7A"))])])
  }

  function BitRule(): (r: Rule)
    ensures r.name == "BIT"
  {
    MakeRule("BIT", [Cat([One(Str("0"))]), Cat([One(Str("1"))])])
  }

  function CharRule(): (r: Rule)
    ensures r.name == "CHAR"
  {
    MakeRule("CHAR", [Cat([One(NumRange("01", "7F"))])])
  }

  function CrRule(): (r: Rule)
    ensures r.name == "CR"
  {
    MakeRule("CR", [Cat([One(NumSeries("0D"))])])
  }

  function CrlfRule(): (r: Rule)
    ensures r.name == "CRLF"
  {
    MakeRule("CRLF", [Cat([One(Ref("CR")), One(Ref("LF"))])])
  }

  function CtlRule(): (r: Rule)
    ensures r.name == "CTL"
  {
    MakeRule("CTL", [Cat([One(NumRange("00", "1F"))]), Cat([One(NumSeries("7F"))])])
  }

  function DigitRule(): (r: Rule)
    ensures r.name == "DIGIT"
  {
    MakeRule("DIGIT", [Cat([One(NumRange("30", "39"))])])
  }

  function DquoteRule(): (r: Rule)
    ensures r.name == "DQUOTE"
  {
    MakeRule("DQUOTE", [Cat([One(NumSeries("22"))])])
  }

  function HexdigRule(): (r: Rule)
    ensures r.name == "HEXDIG"
  {
    MakeRule("HEXDIG", [
      Cat([One(Ref("DIGIT"))]),
      Cat([One(Str("A"))]),
      Cat([One(Str("B"))]),
      Cat([One(Str("C"))]),
      Cat([One(Str("D"))]),
      Cat([One(Str("E"))]),
      Cat([One(Str("F"))])])
  }

  function HtabRule(): (r: Rule)
    ensures r.name == "HTAB"
  {
    MakeRule("HTAB", [Cat([One(NumSeries("09"))])])
  }

  function LfRule(): (r: Rule)
    ensures r.name == "LF"
  {
    MakeRule("LF", [Cat([One(NumSeries("0A"))])])
  }

  function LwspRule(): (r: Rule)
    ensures r.name == "LWSP"
  {
    MakeRule("LWSP", [
      Cat([Rep(0, INF, Grp([Cat([One(Ref("WSP"))]), Cat([One(Ref("CRLF")), One(Ref("WSP"))])]))])])
  }

  function OctetRule(): (r: Rule)
    ensures r.name == "OCTET"
  {
    MakeRule("OCTET", [Cat([One(NumRange("00", "FF"))])])
  }

  function SpRule(): (r: Rule)
    ensures r.name == "SP"
  {
    MakeRule("SP", [Cat([One(NumSeries("20"))])])
  }

  function VcharRule(): (r: Rule)
    ensures r.name == "VCHAR"
  {
    MakeRule("VCHAR", [Cat([One(NumRange("21", "7E"))])])
  }

  function WspRule(): (r: Rule)
    ensures r.name == "WSP"
  {
    MakeRule("WSP", [Cat([One(Ref("SP"))]), Cat([One(Ref("HTAB"))])])
  }

  function RulelistRule(): (r: Rule)
    ensures r.name == "rulelist"
  {
    MakeRule("rulelist", [
      Cat([
        Rep(1, INF, Grp([Cat([One(Ref("rule"))]),
                         Cat([One(Grp([Cat([Rep(0, INF, Ref("WSP")), One(Ref("c-nl"))])]))])]))])])
  }

  function RuleRule(): (r: Rule)
    ensures r.name == "rule"
  {
    MakeRule("rule", [
      Cat([One(Ref("rulename")), One(Ref("defined-as")), One(Ref("elements")), One(Ref("c-nl"))])])
  }

  function RulenameRule(): (r: Rule)
    ensures r.name == "rulename"
  {
    MakeRule("rulename", [
      Cat([
        One(Ref("ALPHA")),
        Rep(0, INF, Grp([Cat([One(Ref("ALPHA"))]), Cat([One(Ref("DIGIT"))]), Cat([One(Str("-"))])]))])])
  }

  function DefinedAsRule(): (r: Rule)
    ensures r.name == "defined-as"
  {
    MakeRule("defined-as", [
      Cat([
        Rep(0, INF, Ref("c-wsp")),
        One(Grp([Cat([One(Str("="))]), Cat([One(Str("=/"))])])),
        Rep(0, INF, Ref("c-wsp"))])])
  }

  function ElementsRule(): (r: Rule)
    ensures r.name == "elements"
  {
    MakeRule("elements", [Cat([One(Ref("alternation")), Rep(0, INF, Ref("WSP"))])])
  }

  function CWspRule(): (r: Rule)
    ensures r.name == "c-wsp"
  {
    MakeRule("c-wsp", [Cat([One(Ref("WSP"))]), Cat([One(Grp([Cat([One(Ref("c-nl")), One(Ref("WSP"))])]))])])
  }

  function CNlRule(): (r: Rule)
    ensures r.name == "c-nl"
  {
    MakeRule("c-nl", [Cat([One(Ref("comment"))]), Cat([One(Ref("CRLF"))])])
  }

  function CommentRule(): (r: Rule)
    ensures r.name == "comment"
  {
    MakeRule("comment", [
      Cat([
        One(Str(";")),
        Rep(0, INF, Grp([Cat([One(Ref("WSP"))]), Cat([One(Ref("VCHAR"))])])),
        One(Ref("CRLF"))])])
  }

  function AlternationRule(): (r: Rule)
    ensures r.name == "alternation"
  {
    MakeRule("alternation", [
      Cat([
        One(Ref("concatenation")),
        Rep(0, INF, Grp([Cat([Rep(0, INF, Ref("c-wsp")), One(Str("/")), Rep(0, INF, Ref("c-wsp")),
                              One(Ref("concatenation"))])]))])])
  }

  function ConcatenationRule(): (r: Rule)
    ensures r.name == "concatenation"
  {
    MakeRule("concatenation", [
      Cat([
        One(Ref("repetition")),
        Rep(0, INF, Grp([Cat([Rep(1, INF, Ref("c-wsp")), One(Ref("repetition"))])]))])])
  }

  function RepetitionRule(): (r: Rule)
    ensures r.name == "repetition"
  {
    MakeRule("repetition", [Cat([One(Opt([Cat([One(Ref("repeat"))])])), One(Ref("element"))])])
  }

  function RepeatRule(): (r: Rule)
    ensures r.name == "repeat"
  {
    MakeRule("repeat", [
      Cat([Rep(1, INF, Ref("DIGIT"))]),
      Cat([One(Grp([Cat([Rep(0, INF, Ref("DIGIT")), One(Str("*")), Rep(0, INF, Ref("DIGIT"))])]))]),
      Cat([One(Grp([Cat([Rep(0, INF, Ref("DIGIT")), One(Str("#")), Rep(0, INF, Ref("DIGIT"))])]))])])
  }

  function ElementRule(): (r: Rule)
    ensures r.name == "element"
  {
    MakeRule("element", [
      Cat([One(Ref("rulename"))]),
      Cat([One(Ref("group"))]),
      Cat([One(Ref("option"))]),
      Cat([One(Ref("char-val"))]),
      Cat([One(Ref("num-val"))]),
      Cat([One(Ref("prose-val"))])])
  }

  function GroupRule(): (r: Rule)
    ensures r.name == "group"
  {
    MakeRule("group", [
      Cat([
        One(Str("(")), Rep(0, INF, Ref("c-wsp")), One(Ref("alternation")), Rep(0, INF, Ref("c-wsp")), One(Str(")"))])])
  }

  function OptionRule(): (r: Rule)
    ensures r.name == "option"
  {
    MakeRule("option", [
      Cat([
        One(Str("[")), Rep(0, INF, Ref("c-wsp")), One(Ref("alternation")), Rep(0, INF, Ref("c-wsp")), One(Str("]"))])])
  }

  function CharValRule(): (r: Rule)
    ensures r.name == "char-val"
  {
    MakeRule("char-val", [Cat([One(Ref("case-insensitive-string"))]), Cat([One(Ref("case-sensitive-string"))])])
  }

  function CaseInsensitiveStringRule(): (r: Rule)
    ensures r.name == "case-insensitive-string"
  {
    MakeRule("case-insensitive-string", [Cat([One(Opt([Cat([One(Str("%i"))])])), One(Ref("quoted-string"))])])
  }

  function CaseSensitiveStringRule(): (r: Rule)
    ensures r.name == "case-sensitive-string"
  {
    MakeRule("case-sensitive-string", [Cat([One(Str("%s")), One(Ref("quoted-string"))])])
  }

  function QuotedStringRule(): (r: Rule)
    ensures r.name == "quoted-string"
  {
    MakeRule("quoted-string", [
      Cat([
        One(Ref("DQUOTE")),
        Rep(0, INF, Grp([Cat([One(NumRange("20", "21"))]), Cat([One(NumRange("23", "7E"))])])),
        One(Ref("DQUOTE"))])])
  }

  function NumValRule(): (r: Rule)
    ensures r.name == "num-val"
  {
    MakeRule("num-val", [
      Cat([
        One(Str("%")),
        One(Grp([Cat([One(Ref("bin-val"))]), Cat([One(Ref("dec-val"))]), Cat([One(Ref("hex-val"))])]))])])
  }

  function BinValRule(): (r: Rule)
    ensures r.name == "bin-val"
  {
    MakeRule("bin-val", [
      Cat([
        One(Str("b")),
        Rep(1, INF, Ref("BIT")),
        One(Opt([Cat([Rep(1, INF, Grp([Cat([One(Str(".")), Rep(1, INF, Ref("BIT"))])]))]),
                 Cat([One(Grp([Cat([One(Str("-")), Rep(1, INF, Ref("BIT"))])]))])]))])])
  }

  function DecValRule(): (r: Rule)
    ensures r.name == "dec-val"
  {
    MakeRule("dec-val", [
      Cat([
        One(Str("d")),
        Rep(1, INF, Ref("DIGIT")),
        One(Opt([Cat([Rep(1, INF, Grp([Cat([One(Str(".")), Rep(1, INF, Ref("DIGIT"))])]))]),
                 Cat([One(Grp([Cat([One(Str("-")), Rep(1, INF, Ref("DIGIT"))])]))])]))])])
  }

  function HexValRule(): (r: Rule)
    ensures r.name == "hex-val"
  {
    MakeRule("hex-val", [
      Cat([
        One(Str("x")),
        Rep(1, INF, Ref("HEXDIG")),
        One(Opt([Cat([Rep(1, INF, Grp([Cat([One(Str(".")), Rep(1, INF, Ref("HEXDIG"))])]))]),
                 Cat([One(Grp([Cat([One(Str("-")), Rep(1, INF, Ref("HEXDIG"))])]))])]))])])
  }

  function ProseValRule(): (r: Rule)
    ensures r.name == "prose-val"
  {
    MakeRule("prose-val", [
      Cat([
        One(Str("<")),
        Rep(0, INF, Grp([Cat([One(NumRange("20", "3D"))]), Cat([One(NumRange("3F", "7E"))])])),
        One(Str(">"))])])
  }

  const CORE_RULES: seq<Rule> := [
    AlphaRule(), BitRule(), CharRule(), CrRule(),
    CrlfRule(), CtlRule(), DigitRule(), DquoteRule(),
    HexdigRule(), HtabRule(), LfRule(), LwspRule(),
    OctetRule(), SpRule(), VcharRule(), WspRule()
  ]

  const ABNF_RULES: seq<Rule> := [
    RulelistRule(), RuleRule(), RulenameRule(), DefinedAsRule(),
    ElementsRule(), CWspRule(), CNlRule(), CommentRule(),
    AlternationRule(), ConcatenationRule(), RepetitionRule(), RepeatRule(),
    ElementRule(), GroupRule(), OptionRule(), CharValRule(),
    CaseInsensitiveStringRule(), CaseSensitiveStringRule(), QuotedStringRule(), NumValRule(),
    BinValRule(), DecValRule(), HexValRule(), ProseValRule()
  ]

  /** The grammar that grammar definitions are parsed with. */
  const ABNF_GRAMMAR: Grammar := Grammar(ABNF_RULES, CORE_RULES)
}
