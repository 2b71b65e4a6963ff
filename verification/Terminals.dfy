/** What the terminals of ABNF match, said of characters, bytes and numbers
    (RFC 5234 section 2.3 and RFC 7405), apart from how a match is found. */
module Terminals {
  import opened Spans
  import opened Utf8
  import opened Wrappers
  import opened Abnf
  import opened Denotation

  // ----- char-vals -----

  predicate IsLetter(code: int) {
    0x41 <= code <= 0x5A || 0x61 <= code <= 0x7A
  }

  /** The same character, or, where case is of no account, the same letter in the other case. */
  predicate SameCharacter(sensitive: bool, c: char, b: int) {
    || c as int == b
    || (!sensitive && IsLetter(c as int) && IsLetter(b) && (b == c as int + 0x20 || b == c as int - 0x20))
  }

  lemma SameCharacterIff(sensitive: bool, c: char, b: Byte)
    ensures CharMatches(sensitive, c, b) <==> SameCharacter(sensitive, c, b)
  {
  }

  /** A char-val matches its characters one by one. */
  lemma CharValIff(sensitive: bool, value: string, s: Bytes, i: nat, j: nat)
    ensures (i, j) in CharValRel(sensitive, value, s)
            <==> j == i + |value| && j <= |s|
                 && forall k :: 0 <= k < |value| ==> SameCharacter(sensitive, value[k], s[i + k])
  {
    hide CharMatches;
    if i + |value| <= |s| {
      forall k | 0 <= k < |value|
        ensures CharMatches(sensitive, value[k], s[i + k]) <==> SameCharacter(sensitive, value[k], s[i + k])
      {
        SameCharacterIff(sensitive, value[k], s[i + k]);
      }
    }
  }

  /** Names are the same if and only if they are so but for the case of letters. */
  lemma SameNameIff(a: string, b: string)
    ensures Lower(a) == Lower(b)
            <==> |a| == |b| && forall k :: 0 <= k < |a| ==> SameCharacter(false, a[k], b[k] as int)
  {
    if |a| == |b| {
      forall k | 0 <= k < |a|
        ensures Lower(a)[k] == Lower(b)[k] <==> SameCharacter(false, a[k], b[k] as int)
      {
      }
    }
  }

  // ----- numerals -----

  /** A digit, by its place among the digits. */
  predicate IsDigit(c: char, digit: nat) {
    && digit < 16
    && (c == "0123456789abcdef"[digit] || c == "0123456789ABCDEF"[digit])
  }

  lemma DigitIff(c: char, digit: nat)
    ensures (digit < 16 && DigitValue(c) == digit) <==> IsDigit(c, digit)
  {
  }

  /** What a digit counts, or 0 for what is none. */
  ghost function Digit(c: char): nat {
    if digit: nat :| IsDigit(c, digit) then digit else 0
  }

  lemma DigitIs(c: char, base: nat)
    requires base <= 16
    ensures DigitValue(c) < base <==> IsDigitOf(base, c)
    ensures DigitValue(c) < base ==> Digit(c) == DigitValue(c)
  {
    hide IsDigit, DigitValue;
    forall digit: nat
      ensures (digit < 16 && DigitValue(c) == digit) <==> IsDigit(c, digit)
    {
      DigitIff(c, digit);
    }
    if DigitValue(c) < base {
      assert IsDigit(c, DigitValue(c));
    }
    assert forall digit: nat :: IsDigit(c, digit) ==> digit == DigitValue(c);
  }

  function Pow(base: nat, n: nat): nat {
    if n == 0 then 1 else base * Pow(base, n - 1)
  }

  predicate IsDigitOf(base: nat, c: char) {
    exists digit: nat :: digit < base && IsDigit(c, digit)
  }

  predicate AllDigits(value: string, base: nat) {
    forall k :: 0 <= k < |value| ==> IsDigitOf(base, value[k])
  }

  /** What the digits stand for together, the first one counting the most. */
  ghost function Worth(value: string, base: nat): nat {
    if value == "" then 0 else Digit(value[0]) * Pow(base, |value| - 1) + Worth(value[1..], base)
  }

  lemma {:induction false} WorthSnoc(front: string, c: char, base: nat)
    ensures Worth(front + [c], base) == Worth(front, base) * base + Digit(c)
  {
    hide Digit;
    var value := front + [c];
    if front == "" {
      assert value[1..] == "" && Pow(base, 0) == 1 && Worth("", base) == 0;
    } else {
      WorthSnoc(front[1..], c, base);
      assert value[1..] == front[1..] + [c];
      Scaled(Digit(front[0]), base, Pow(base, |front| - 1), Worth(front[1..], base));
    }
  }

  lemma Scaled(digit: nat, base: nat, power: nat, rest: nat)
    ensures (digit * power + rest) * base == digit * (base * power) + rest * base
  {
  }

  lemma {:induction false} DigitsAreWorth(value: string, base: nat)
    requires base <= 16
    ensures ParseDigits(value, base) == if AllDigits(value, base) then Some(Worth(value, base)) else None
  {
    hide IsDigit, Digit, DigitValue, Worth;
    if value == "" {
      NothingIsWorth(base);
    } else {
      var front, c := value[..|value| - 1], value[|value| - 1];
      DigitsAreWorth(front, base);
      assert value == front + [c];
      DigitIs(c, base);
      AllDigitsSnoc(front, c, base);
      WorthSnoc(front, c, base);
    }
  }

  lemma AllDigitsSnoc(front: string, c: char, base: nat)
    ensures AllDigits(front + [c], base)
            <==> AllDigits(front, base) && IsDigitOf(base, c)
  {
    hide IsDigitOf;
    var value := front + [c];
    assert value[|front|] == c && forall k :: 0 <= k < |front| ==> value[k] == front[k];
  }

  lemma NothingIsWorth(base: nat)
    ensures Worth("", base) == 0
  {
  }

  /** A numeral is valid if and only if it has digits, all of base 2, 10 or 16,
      and stands for a code point; and that is what it means. */
  lemma NumeralIff(value: string, base: string)
    ensures var b: nat := if base == "b" || base == "B" then 2 else if base == "d" || base == "D" then 10
                          else if base == "x" || base == "X" then 16 else 0;
            ParseNumVal(value, base)
            == if value != "" && AllDigits(value, b) && Worth(value, b) <= 0x10_FFFF then Some(Worth(value, b))
               else None
  {
    hide Worth, IsDigit, ParseDigits;
    match NumeralBase(base)
    case Some(b) => DigitsAreWorth(value, b);
    case None => assert value != "" ==> !IsDigitOf(0, value[0]);
  }

  // ----- num-vals -----

  /** A range matches the bytes that spell one code point within its bounds. */
  lemma RangeIff(low: int, high: int, s: Bytes, i: nat, j: nat)
    ensures (i, j) in RangeRel(low, high, s)
            <==> i <= j <= |s| && exists r :: low <= r <= high && IsScalar(r) && Spells(s[i..j], r)
  {
    hide DecodeRune, Spells;
    if i <= |s| {
      var d := DecodeRune(s[i..]);
      if (i, j) in RangeRel(low, high, s) {
        RuneDecodesIff(s[i..], d.rune, d.size);
        assert s[i..][..d.size] == s[i..j];
      }
      if i <= j <= |s| && exists r :: low <= r <= high && IsScalar(r) && Spells(s[i..j], r) {
        var r :| low <= r <= high && IsScalar(r) && Spells(s[i..j], r);
        assert s[i..][..j - i] == s[i..j];
        RuneDecodesIff(s[i..], r, j - i);
      }
    }
  }
}
