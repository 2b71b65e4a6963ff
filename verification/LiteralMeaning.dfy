/** When one literal can stand for others: two char-vals are joined exactly
    where a char-val matches what they match together, and a num-val becomes a
    char-val exactly where a shorter one matches the same. */
module LiteralMeaning {
  import opened Spans
  import opened Utf8
  import opened Wrappers
  import opened Abnf
  import opened Denotation
  import opened Text
  import opened Simplifier
  import opened SimplifierLanguage

  /** The characters that a quoted string of ABNF can hold. */
  predicate Spellable(value: string) {
    forall i :: 0 <= i < |value| ==> ' ' <= value[i] <= '~' && value[i] != '"'
  }

  /** The element matches what two elements match one after the other, in every input. */
  ghost predicate ExpressesBoth(e: Element, left: Element, right: Element) {
    forall env: Environment, s: Bytes ::
      ElementRel(e, env, s) == Compose(ElementRel(left, env, s), ElementRel(right, env, s))
  }

  /** The elements match the same in every input. */
  ghost predicate MeansTheSame(e: Element, f: Element) {
    forall env: Environment, s: Bytes :: ElementRel(e, env, s) == ElementRel(f, env, s)
  }

  // ----- bytes that tell char-vals apart -----

  function Codes(value: string): (b: Bytes)
    requires Spellable(value)
    ensures |b| == |value|
  {
    seq(|value|, i requires 0 <= i < |value| => value[i] as int)
  }

  /** The other case of a letter. */
  function OtherCase(b: Byte): Byte {
    if 0x41 <= b <= 0x5A then b + 32 else if 0x61 <= b <= 0x7A then b - 32 else b
  }

  lemma LetterMatches(c: char)
    requires IsAsciiLetter(c)
    ensures !CharMatches(true, c, OtherCase(c as int)) && CharMatches(false, c, OtherCase(c as int))
  {
  }

  /** The one character that a byte and its other case both match ignores case. */
  lemma BothCases(sensitive: bool, c: char, b: Byte)
    requires CharMatches(sensitive, c, b) && CharMatches(sensitive, c, OtherCase(b)) && OtherCase(b) != b
    ensures !sensitive
  {
  }

  lemma CaselessBoth(c: char, b: Byte)
    requires CharMatches(false, c, b)
    ensures CharMatches(false, c, OtherCase(b))
  {
  }

  /** Whether two char-vals match a whole input together. */
  lemma ComposedAt(left: Element, right: Element, env: Environment, s: Bytes)
    requires left.CharVal? && right.CharVal? && |s| == |left.value| + |right.value|
    ensures (0, |s|) in Compose(ElementRel(left, env, s), ElementRel(right, env, s))
            <==> CharsMatch(left.sensitive, left.value, s, 0)
                 && CharsMatch(right.sensitive, right.value, s, |left.value|)
  {
    hide CharsMatch;
    var m := |left.value|;
    if CharsMatch(left.sensitive, left.value, s, 0) && CharsMatch(right.sensitive, right.value, s, m) {
      assert (0, m) in ElementRel(left, env, s) && (m, |s|) in ElementRel(right, env, s);
    }
  }

  /** Two char-vals together match their own characters, each letter of an
      insensitive one in its other case, and no letter of a sensitive one. */
  lemma TogetherMatch(left: Element, right: Element, s: Bytes, k: nat)
    requires left.CharVal? && right.CharVal? && Spellable(left.value) && Spellable(right.value)
    requires s == Codes(left.value + right.value) && k < |s|
    requires IsAsciiLetter((left.value + right.value)[k])
    ensures var t := s[k := OtherCase(s[k])];
            && CharsMatch(left.sensitive, left.value, s, 0)
            && CharsMatch(right.sensitive, right.value, s, |left.value|)
            && (CharsMatch(left.sensitive, left.value, t, 0)
                && CharsMatch(right.sensitive, right.value, t, |left.value|)
                <==> !(if k < |left.value| then left.sensitive else right.sensitive))
  {
    var t, m := s[k := OtherCase(s[k])], |left.value|;
    LetterMatches((left.value + right.value)[k]);
    if k < m {
      assert t[0 + k] == OtherCase(left.value[k] as int);
      forall i | 0 <= i < m && i != k
        ensures CharMatches(left.sensitive, left.value[i], t[0 + i])
      {
      }
    } else {
      assert t[m + (k - m)] == OtherCase(right.value[k - m] as int);
      forall i | 0 <= i < |right.value| && i != k - m
        ensures CharMatches(right.sensitive, right.value[i], t[m + i])
      {
      }
    }
  }

  /** Letters of both kinds of case sensitivity are beyond any one char-val. */
  lemma NoneExpressesBoth(e: Element, left: Element, right: Element, i: nat, j: nat)
    requires e.CharVal? && left.CharVal? && right.CharVal? && Spellable(left.value) && Spellable(right.value)
    requires var v, m := left.value + right.value, |left.value|;
             && i < |v| && j < |v| && IsAsciiLetter(v[i]) && IsAsciiLetter(v[j])
             && (if i < m then left.sensitive else right.sensitive)
             && !(if j < m then left.sensitive else right.sensitive)
    ensures !ExpressesBoth(e, left, right)
  {
    hide CharsMatch, ExpressesBoth, ElementRel;
    var env: Environment := name => iset{};
    var s := Codes(left.value + right.value);
    var si, sj := s[i := OtherCase(s[i])], s[j := OtherCase(s[j])];
    TogetherMatch(left, right, s, i);
    TogetherMatch(left, right, s, j);
    ComposedAt(left, right, env, s);
    ComposedAt(left, right, env, si);
    ComposedAt(left, right, env, sj);
    ExpressesAt(e, left, right, env, s);
    ExpressesAt(e, left, right, env, si);
    ExpressesAt(e, left, right, env, sj);
    LetterMatches((left.value + right.value)[j]);
    BothOrNeither(e, env, s, i, j);
  }

  lemma ExpressesAt(e: Element, left: Element, right: Element, env: Environment, s: Bytes)
    ensures ExpressesBoth(e, left, right) ==>
              ElementRel(e, env, s) == Compose(ElementRel(left, env, s), ElementRel(right, env, s))
  {
  }

  /** A char-val that matches a letter in both cases matches every letter so. */
  lemma BothOrNeither(e: Element, env: Environment, s: Bytes, i: nat, j: nat)
    requires e.CharVal? && i < |s| && j < |s| && OtherCase(s[j]) != s[j]
    ensures (0, |s|) in ElementRel(e, env, s) && (0, |s|) in ElementRel(e, env, s[j := OtherCase(s[j])]) ==>
              (0, |s|) in ElementRel(e, env, s[i := OtherCase(s[i])])
  {
    hide CharsMatch;
    var sj, si := s[j := OtherCase(s[j])], s[i := OtherCase(s[i])];
    if (0, |s|) in ElementRel(e, env, s) && (0, |s|) in ElementRel(e, env, sj) {
      WholeMatch(e, env, s);
      WholeMatch(e, env, sj);
      OneCaseOnly(e, s, i, j);
      assert (0, |s|) in CharValRel(e.sensitive, e.value, si);
    }
  }

  lemma WholeMatch(e: Element, env: Environment, s: Bytes)
    requires e.CharVal? && (0, |s|) in ElementRel(e, env, s)
    ensures |e.value| == |s| && CharsMatch(e.sensitive, e.value, s, 0)
  {
  }

  lemma OneCaseOnly(e: Element, s: Bytes, i: nat, j: nat)
    requires e.CharVal? && |e.value| == |s| && i < |s| && j < |s| && OtherCase(s[j]) != s[j]
    requires CharsMatch(e.sensitive, e.value, s, 0)
    requires CharsMatch(e.sensitive, e.value, s[j := OtherCase(s[j])], 0)
    ensures CharsMatch(e.sensitive, e.value, s[i := OtherCase(s[i])], 0)
  {
    var sj, si := s[j := OtherCase(s[j])], s[i := OtherCase(s[i])];
    assert CharMatches(e.sensitive, e.value[j], s[0 + j]) && CharMatches(e.sensitive, e.value[j], sj[0 + j]);
    BothCases(e.sensitive, e.value[j], s[j]);
    assert CharMatches(e.sensitive, e.value[i], s[0 + i]);
    CaselessBoth(e.value[i], s[i]);
  }

  /** mergeElements joins two char-vals if and only if a char-val matches what they match together. */
  lemma CharValsJoinIff(left: Element, right: Element)
    requires left.CharVal? && right.CharVal? && Spellable(left.value) && Spellable(right.value)
    ensures MergedElement(left, right).Some? <==> exists e: Element :: e.CharVal? && ExpressesBoth(e, left, right)
  {
    if MergedElement(left, right).Some? {
      var e := MergedElement(left, right).value;
      forall env: Environment, s: Bytes
        ensures ElementRel(e, env, s) == Compose(ElementRel(left, env, s), ElementRel(right, env, s))
      {
        MergedElementComposes(left, right, env, s);
      }
      assert ExpressesBoth(e, left, right);
    } else {
      var v, m := left.value + right.value, |left.value|;
      var p :| 0 <= p < m && IsAsciiLetter(left.value[p]);
      var q :| 0 <= q < |right.value| && IsAsciiLetter(right.value[q]);
      assert v[p] == left.value[p] && v[m + q] == right.value[q];
      forall e: Element | e.CharVal?
        ensures !ExpressesBoth(e, left, right)
      {
        NoneExpressesBoth(e, left, right, if left.sensitive then p else m + q, if left.sensitive then m + q else p);
      }
    }
  }

  /** mergeElements joins two num-vals of valid bases if and only if both are series in the same base. */
  lemma NumValsJoinIff(left: Element, right: Element)
    requires left.NumVal? && right.NumVal? && NumeralBase(left.base).Some? && NumeralBase(right.base).Some?
    ensures MergedElement(left, right).Some?
            <==> left.status == Series && right.status == Series && NumeralBase(left.base) == NumeralBase(right.base)
  {
    var a, b := left.base, right.base;
    assert |a| == 1 && |b| == 1;
    assert a == [a[0]] && b == [b[0]];
    assert Lower(a) == [LowerChar(a[0])] && Lower(b) == [LowerChar(b[0])];
    assert NumeralBase(a) == NumeralBase(b) <==> LowerChar(a[0]) == LowerChar(b[0]);
  }

  // ----- series and the char-vals that mean the same -----

  lemma AsciiRune(r: int)
    requires EncodeRune(r)[0] < 0x80
    ensures EncodeRune(r) == [r]
  {
  }

  lemma {:induction false} AsciiRunes(runes: seq<int>)
    requires forall k :: 0 <= k < |EncodeRunes(runes)| ==> EncodeRunes(runes)[k] < 0x80
    ensures runes == EncodeRunes(runes)
  {
    hide EncodeRune;
    if runes != [] {
      var front, r := runes[..|runes| - 1], runes[|runes| - 1];
      var f, b := EncodeRunes(front), EncodeRune(r);
      assert EncodeRunes(runes) == f + b;
      forall k | 0 <= k < |f|
        ensures f[k] < 0x80
      {
        assert (f + b)[k] == f[k];
      }
      assert (f + b)[|f|] == b[0];
      AsciiRunes(front);
      AsciiRune(r);
      assert runes == front + [r];
    }
  }

  /** A char-val that means the same as a series spells its characters, and
      does so whatever the case of its letters only if there are none. */
  lemma SameMeaning(e: Element, base: string, values: seq<string>)
    requires e.CharVal? && Spellable(e.value) && Runes(values, base).Some?
    requires MeansTheSame(e, NumVal(base, Series, values))
    ensures Codes(e.value) == Runes(values, base).value && (HasLetter(e.value) ==> e.sensitive)
  {
    hide CharsMatch, EncodeRunes;
    var env: Environment := name => iset{};
    var n := NumVal(base, Series, values);
    var b := EncodeRunes(Runes(values, base).value);
    assert b[0..|b|] == b && (0, |b|) in ElementRel(n, env, b);
    assert (0, |b|) in ElementRel(e, env, b);
    WholeMatch(e, env, b);
    if HasLetter(e.value) && !e.sensitive {
      var other := InAnotherCase(e, env, b);
      OnlyOneString(base, values, env, other);
    }
    SpelledExactly(e, b);
    AsciiRunes(Runes(values, base).value);
  }

  /** What an insensitive char-val with a letter matches, it matches with that letter in its other case. */
  lemma InAnotherCase(e: Element, env: Environment, b: Bytes) returns (other: Bytes)
    requires e.CharVal? && !e.sensitive && HasLetter(e.value) && (0, |b|) in ElementRel(e, env, b)
    ensures |other| == |b| && other != b && (0, |b|) in ElementRel(e, env, other)
  {
    WholeMatch(e, env, b);
    var i :| 0 <= i < |e.value| && IsAsciiLetter(e.value[i]);
    other := b[i := OtherCase(b[i])];
    assert CharMatches(false, e.value[i], b[0 + i]);
    CaselessBoth(e.value[i], b[i]);
    assert other[i] != b[i];
    assert CharsMatch(false, e.value, other, 0);
  }

  /** A series matches no other whole input than its own bytes. */
  lemma OnlyOneString(base: string, values: seq<string>, env: Environment, s: Bytes)
    requires Runes(values, base).Some?
    ensures (0, |s|) in ElementRel(NumVal(base, Series, values), env, s) ==>
              s == EncodeRunes(Runes(values, base).value)
  {
    hide EncodeRunes;
    assert s[0..|s|] == s;
  }

  lemma SpelledExactly(e: Element, b: Bytes)
    requires e.CharVal? && Spellable(e.value) && |e.value| == |b| && CharsMatch(e.sensitive, e.value, b, 0)
    requires HasLetter(e.value) ==> e.sensitive
    ensures b == Codes(e.value)
  {
    forall k | 0 <= k < |b|
      ensures b[k] == e.value[k] as int
    {
      assert CharMatches(e.sensitive, e.value[k], b[0 + k]);
      if !e.sensitive {
        assert !IsAsciiLetter(e.value[k]);
        CaselessMatch(e.value[k], b[k]);
      }
    }
  }

  /** A char-val that means the same as a num-val and is written in fewer characters. */
  ghost predicate SpellsShorter(e: Element, n: Element)
    requires n.NumVal?
  {
    e.CharVal? && Spellable(e.value) && MeansTheSame(e, n) && |ElementText(e)| < |ElementText(n)|
  }

  /** simplifyNumVal keeps a series if and only if no shorter char-val means the same. */
  lemma SeriesKeptIff(base: string, values: seq<string>)
    requires values != [] && Runes(values, base).Some?
    ensures SimplifiedNumVal(base, Series, values) == NumVal(base, Series, values)
            <==> !exists e: Element :: SpellsShorter(e, NumVal(base, Series, values))
  {
    hide EncodeRunes;
    var n, r := NumVal(base, Series, values), SimplifiedNumVal(base, Series, values);
    if r != n {
      forall env: Environment, s: Bytes
        ensures ElementRel(r, env, s) == ElementRel(n, env, s)
      {
        NumValPreserved(base, Series, values, s);
      }
      assert SpellsShorter(r, n);
    } else if e: Element :| SpellsShorter(e, n) {
      ShorterIsTaken(e, base, values);
    }
  }

  lemma ShorterIsTaken(e: Element, base: string, values: seq<string>)
    requires values != [] && Runes(values, base).Some? && SpellsShorter(e, NumVal(base, Series, values))
    ensures SimplifiedNumVal(base, Series, values) != NumVal(base, Series, values)
  {
    hide MeansTheSame;
    SameMeaning(e, base, values);
    var runes := Runes(values, base).value;
    assert RuneString(runes) == e.value;
  }

  /** simplifyNumVal keeps a range if and only if its two values differ. */
  lemma RangeKeptIff(base: string, low: string, high: string)
    requires ParseNumVal(low, base).Some? && ParseNumVal(high, base).Some?
    ensures SimplifiedNumVal(base, Range, [low, high]) == NumVal(base, Range, [low, high])
            <==> ParseNumVal(low, base) != ParseNumVal(high, base)
  {
    RunesOfTwo([low, high], base);
  }
}
