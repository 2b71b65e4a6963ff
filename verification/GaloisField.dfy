/** The field of pkg/encoding/qr/reed_solomon.go: GF(256), reduced by
    x^8 + x^4 + x^3 + x^2 + 1, with x (the byte 2) as its generator. */
module GaloisField {

  /** A byte by its bits, the least significant first: the coefficients of a
      polynomial over GF(2). */
  type Word = w: seq<bool> | |w| == 8 witness seq(8, i => false)

  const ZERO: Word := [false, false, false, false, false, false, false, false]
  const ONE: Word := [true, false, false, false, false, false, false, false]

  /** Addition, which is subtraction too. */
  function Xor(a: Word, b: Word): Word {
    seq(8, k requires 0 <= k < 8 => a[k] != b[k])
  }

  /** Multiplication by x: a shift, reduced when it overflows. */
  function Double(a: Word): Word {
    [a[7], a[0], a[1] != a[7], a[2] != a[7], a[3] != a[7], a[4], a[5], a[6]]
  }

  function When(bit: bool, a: Word): Word {
    if bit then a else ZERO
  }

  /** The product with the polynomial of the given coefficients, lowest first, by Horner's rule. */
  function MulBits(a: Word, bits: seq<bool>): Word {
    if bits == [] then ZERO else Xor(When(bits[0], a), Double(MulBits(a, bits[1..])))
  }

  /** Multiplication of polynomials over GF(2), reduced. */
  function Mul(a: Word, b: Word): Word {
    MulBits(a, b)
  }

  /** The powers of the generator. */
  function Power(k: nat): Word {
    if k == 0 then ONE else Double(Power(k - 1))
  }

  // ----- addition -----

  lemma XorCommutes(a: Word, b: Word)
    ensures Xor(a, b) == Xor(b, a)
  {
  }

  lemma XorAssociates(a: Word, b: Word, c: Word)
    ensures Xor(Xor(a, b), c) == Xor(a, Xor(b, c))
  {
  }

  lemma XorZero(a: Word)
    ensures Xor(a, ZERO) == a && Xor(ZERO, a) == a
  {
  }

  lemma XorSame(a: Word, b: Word)
    ensures Xor(a, b) == ZERO <==> a == b
  {
    if Xor(a, b) == ZERO {
      forall k | 0 <= k < 8
        ensures a[k] == b[k]
      {
        assert Xor(a, b)[k] == ZERO[k];
      }
    }
  }

  lemma XorSwap(a: Word, b: Word, c: Word, d: Word)
    ensures Xor(Xor(a, b), Xor(c, d)) == Xor(Xor(a, c), Xor(b, d))
  {
  }

  lemma DoubleAt(a: Word, k: nat)
    requires k < 8
    ensures Double(a)[k] == (if k == 0 then a[7] else if 2 <= k <= 4 then a[k - 1] != a[7] else a[k - 1])
  {
  }

  lemma DoubleLinear(a: Word, b: Word)
    ensures Double(Xor(a, b)) == Xor(Double(a), Double(b))
  {
    var left, right := Double(Xor(a, b)), Xor(Double(a), Double(b));
    forall k | 0 <= k < 8
      ensures left[k] == right[k]
    {
      DoubleAt(a, k);
      DoubleAt(b, k);
      DoubleAt(Xor(a, b), k);
    }
  }

  lemma DoubleInjective(a: Word, b: Word)
    requires Double(a) == Double(b)
    ensures a == b
  {
    assert Double(a)[0] == Double(b)[0] && Double(a)[1] == Double(b)[1];
    assert Double(a)[2] == Double(b)[2] && Double(a)[3] == Double(b)[3] && Double(a)[4] == Double(b)[4];
    assert Double(a)[5] == Double(b)[5] && Double(a)[6] == Double(b)[6] && Double(a)[7] == Double(b)[7];
  }

  // ----- multiplication -----

  lemma {:induction false} MulBitsDouble(a: Word, bits: seq<bool>)
    ensures MulBits(Double(a), bits) == Double(MulBits(a, bits))
  {
    if bits != [] {
      MulBitsDouble(a, bits[1..]);
      DoubleLinear(When(bits[0], a), Double(MulBits(a, bits[1..])));
    }
  }

  lemma {:induction false} MulBitsLinear(a: Word, c: Word, bits: seq<bool>)
    ensures MulBits(Xor(a, c), bits) == Xor(MulBits(a, bits), MulBits(c, bits))
  {
    if bits == [] {
      XorZero(ZERO);
    } else {
      var p, q := MulBits(a, bits[1..]), MulBits(c, bits[1..]);
      MulBitsLinear(a, c, bits[1..]);
      DoubleLinear(p, q);
      XorZero(ZERO);
      XorSwap(When(bits[0], a), When(bits[0], c), Double(p), Double(q));
    }
  }

  lemma {:induction false} MulBitsZero(bits: seq<bool>)
    ensures MulBits(ZERO, bits) == ZERO
  {
    if bits != [] {
      MulBitsZero(bits[1..]);
      XorZero(ZERO);
    }
  }

  lemma {:induction false} MulBitsOne(bits: seq<bool>)
    requires |bits| <= 8
    ensures forall k :: 0 <= k < 8 ==> MulBits(ONE, bits)[k] == (k < |bits| && bits[k])
  {
    if bits != [] {
      MulBitsOne(bits[1..]);
      var rest := MulBits(ONE, bits[1..]);
      assert !rest[7];
      assert forall k :: 1 <= k < 8 ==> Double(rest)[k] == rest[k - 1];
    }
  }

  lemma OneIsUnit(b: Word)
    ensures Mul(ONE, b) == b
  {
    MulBitsOne(b);
  }

  // ----- the generator -----

  /** Multiplying powers of the generator adds their exponents. */
  lemma {:induction false} MulPowers(i: nat, j: nat)
    ensures Mul(Power(i), Power(j)) == Power(i + j)
  {
    if i == 0 {
      OneIsUnit(Power(j));
    } else {
      MulPowers(i - 1, j);
      MulBitsDouble(Power(i - 1), Power(j));
    }
  }

  lemma {:induction false} PowerNonzero(k: nat)
    ensures Power(k) != ZERO
  {
    if k == 0 {
      assert ONE[0] != ZERO[0];
    } else {
      PowerNonzero(k - 1);
      assert Double(ZERO) == ZERO;
      if Double(Power(k - 1)) == ZERO {
        DoubleInjective(Power(k - 1), ZERO);
      }
    }
  }

  function Double3(a: Word): Word {
    Double(Double(Double(a)))
  }

  lemma Power3(k: nat)
    ensures Power(k + 3) == Double3(Power(k))
  {
    assert Power(k + 2) == Double(Power(k + 1));
  }

  /** Fifteen doublings. */
  function Double15(a: Word): Word {
    Double3(Double3(Double3(Double3(Double3(a)))))
  }

  lemma Power15(k: nat)
    ensures Power(k + 15) == Double15(Power(k))
  {
    Power3(k);
    Power3(k + 3);
    Power3(k + 6);
    Power3(k + 9);
    Power3(k + 12);
  }

  // Every 45th power and the 85th, and the doublings that lead to them.

  const POWER_45: Word := [true, false, false, false, false, false, true, true]
  const POWER_90: Word := [true, true, true, true, true, false, true, true]
  const POWER_135: Word := [true, false, false, true, false, true, false, true]
  const POWER_180: Word := [false, true, true, false, true, false, false, true]
  const POWER_225: Word := [false, false, true, false, false, true, false, false]
  const POWER_51: Word := [false, true, false, true, false, false, false, false]

  lemma DoublingsTo45()
    ensures Double15(Double15(Double15(ONE))) == POWER_45
  {
    assert Double15(ONE) == [false, true, true, false, false, true, false, false];
    assert Double15([false, true, true, false, false, true, false, false])
           == [false, false, false, false, false, true, true, false];
  }

  lemma DoublingsTo90()
    ensures Double15(Double15(Double15(POWER_45))) == POWER_90
  {
    assert Double15(POWER_45) == [true, false, false, true, true, true, false, true];
    assert Double15([true, false, false, true, true, true, false, true])
           == [true, true, true, true, false, false, false, false];
  }

  lemma DoublingsTo135()
    ensures Double15(Double15(Double15(POWER_90))) == POWER_135
  {
    assert Double15(POWER_90) == [false, true, false, true, true, false, false, false];
    assert Double15([false, true, false, true, true, false, false, false])
           == [true, true, false, true, true, true, false, false];
  }

  lemma DoublingsTo180()
    ensures Double15(Double15(Double15(POWER_135))) == POWER_180
  {
    assert Double15(POWER_135) == [true, false, true, false, true, false, true, false];
    assert Double15([true, false, true, false, true, false, true, false])
           == [true, false, false, false, true, false, false, true];
  }

  lemma DoublingsTo225()
    ensures Double15(Double15(Double15(POWER_180))) == POWER_225
  {
    assert Double15(POWER_180) == [false, false, true, false, false, true, true, false];
    assert Double15([false, false, true, false, false, true, true, false])
           == [true, false, false, true, true, false, true, false];
  }

  lemma DoublingsTo255()
    ensures Double15(Double15(POWER_225)) == ONE
  {
    assert Double15(POWER_225) == [false, false, true, true, false, true, false, false];
  }

  lemma Power45(k: nat)
    ensures Power(k + 45) == Double15(Double15(Double15(Power(k))))
  {
    Power15(k);
    Power15(k + 15);
    Power15(k + 30);
  }

  lemma Landmark45()
    ensures Power(45) == POWER_45
  {
    Power45(0);
    DoublingsTo45();
  }

  lemma Landmark90()
    ensures Power(90) == POWER_90
  {
    Landmark45();
    Power45(45);
    DoublingsTo90();
  }

  lemma Landmark135()
    ensures Power(135) == POWER_135
  {
    Landmark90();
    Power45(90);
    DoublingsTo135();
  }

  lemma Landmark180()
    ensures Power(180) == POWER_180
  {
    Landmark135();
    Power45(135);
    DoublingsTo180();
  }

  lemma Landmark225()
    ensures Power(225) == POWER_225
  {
    Landmark180();
    Power45(180);
    DoublingsTo225();
  }

  const PERIOD: nat := 255

  /** The 255th power is one. */
  lemma FullPeriod()
    ensures Power(PERIOD) == ONE
  {
    Landmark225();
    Power15(225);
    Power15(240);
    DoublingsTo255();
  }

  /** Powers repeat with any exponent that gives one. */
  lemma {:induction false} PowerRepeats(period: nat, times: nat, k: nat)
    requires Power(period) == ONE
    ensures Power(period * times + k) == Power(k)
  {
    if times > 0 {
      PowerRepeats(period, times - 1, k);
      PowerShift(0, period, period * (times - 1) + k);
      assert period * times + k == period + (period * (times - 1) + k);
    }
  }

  lemma {:induction false} PowerShift(i: nat, j: nat, k: nat)
    requires Power(i) == Power(j)
    ensures Power(i + k) == Power(j + k)
  {
    if k > 0 {
      PowerShift(i, j, k - 1);
    }
  }

  lemma {:induction false} PowerCancel(i: nat, j: nat, k: nat)
    requires Power(i + k) == Power(j + k)
    ensures Power(i) == Power(j)
  {
    if k > 0 {
      DoubleInjective(Power(i + k - 1), Power(j + k - 1));
      PowerCancel(i, j, k - 1);
    }
  }

  lemma Not15()
    ensures Power(15) != ONE
  {
    if Power(15) == ONE {
      PowerRepeats(15, 3, 0);
      Landmark45();
    }
  }

  lemma Not51()
    ensures Power(51) != ONE
  {
    Landmark45();
    Power3(45);
    Power3(48);
    assert Double3(Double3(POWER_45)) == POWER_51;
    assert POWER_51[1] != ONE[1];
  }

  lemma Not85()
    ensures Power(85) != ONE
  {
    Landmark90();
    Power3(85);
    assert Power(90) == Double(Double(Power(88)));
    assert Double(Double(Double3(ONE))) == [false, false, false, false, false, true, false, false];
    assert POWER_90[0];
  }

  lemma ScaleProduct(prime: int, cofactor: int, d: int, inverse: int, q: int)
    requires d * inverse == prime * q + 1 && prime * cofactor == 255
    ensures d * (inverse * cofactor) == 255 * q + cofactor
  {
    assert d * (inverse * cofactor) == (d * inverse) * cofactor;
    assert (prime * q) * cofactor == (prime * cofactor) * q;
    assert (prime * q + 1) * cofactor == (prime * q) * cofactor + cofactor;
  }

  /** An inverse of r modulo one of the primes of 255. */
  lemma InverseModulo(prime: nat, r: nat) returns (inverse: nat, q: nat)
    requires prime == 3 || prime == 5 || prime == 17
    requires 0 < r < prime
    ensures r * inverse == prime * q + 1
  {
    var inverses := if prime == 3 then [1, 2] else if prime == 5 then [1, 3, 2, 4]
                    else [1, 9, 6, 13, 7, 3, 5, 15, 2, 12, 14, 10, 4, 11, 8, 16];
    inverse := inverses[r - 1];
    q := (r * inverse - 1) / prime;
    if prime == 17 {
      assert r == 1 || r == 2 || r == 3 || r == 4 || r == 5 || r == 6 || r == 7 || r == 8
          || r == 9 || r == 10 || r == 11 || r == 12 || r == 13 || r == 14 || r == 15 || r == 16;
    } else {
      assert r == 1 || r == 2 || r == 3 || r == 4;
    }
  }

  /** Where the power d is one but d is no multiple of the prime, so is the power of the prime's cofactor. */
  lemma CofactorIsOne(prime: nat, cofactor: nat, d: nat, k: nat, r: nat)
    requires (prime == 3 || prime == 5 || prime == 17) && prime * cofactor == 255
    requires Power(d) == ONE && d == prime * k + r && 0 < r < prime
    ensures Power(cofactor) == ONE
  {
    var inverse, q := InverseModulo(prime, r);
    var q' := k * inverse + q;
    ScaleRemainder(prime, k, r, inverse, q);
    ScaleProduct(prime, cofactor, d, inverse, q');
    CofactorRepeats(cofactor, d, inverse * cofactor, q');
  }

  lemma ScaleRemainder(prime: nat, k: nat, r: nat, inverse: nat, q: nat)
    requires r * inverse == prime * q + 1
    ensures (prime * k + r) * inverse == prime * (k * inverse + q) + 1
  {
    assert (prime * k + r) * inverse == (prime * k) * inverse + r * inverse;
    assert (prime * k) * inverse == prime * (k * inverse);
    assert prime * (k * inverse + q) == prime * (k * inverse) + prime * q;
  }

  lemma PowerOfZero()
    ensures Power(0) == ONE
  {
  }

  lemma CofactorRepeats(cofactor: nat, d: nat, times: nat, q: nat)
    requires Power(d) == ONE && d * times == 255 * q + cofactor
    ensures Power(cofactor) == ONE
  {
    hide Power;
    PowerRepeats(d, times, 0);
    FullPeriod();
    PowerRepeats(PERIOD, q, cofactor);
    assert Power(0) == ONE by { PowerOfZero(); }
  }

  /** No exponent below 255 gives one: x generates the field. */
  lemma NoSmallerPeriod(d: nat)
    requires 0 < d < 255
    ensures Power(d) != ONE
  {
    hide Power;
    Not15();
    Not51();
    Not85();
    if Power(d) == ONE {
      if d % 17 != 0 {
        CofactorIsOne(17, 15, d, d / 17, d % 17);
      } else if d % 5 != 0 {
        CofactorIsOne(5, 51, d, d / 5, d % 5);
      } else if d % 3 != 0 {
        CofactorIsOne(3, 85, d, d / 3, d % 3);
      }
    }
  }

  lemma PowersDistinct(i: nat, j: nat)
    requires i < j < 255
    ensures Power(i) != Power(j)
  {
    if Power(i) == Power(j) {
      PowerCancel(0, j - i, i);
      NoSmallerPeriod(j - i);
    }
  }

  // ----- logarithms -----

  function Pow2(n: nat): nat {
    if n == 0 then 1 else 2 * Pow2(n - 1)
  }

  /** The number that bits stand for, the least significant first. */
  function Value(bits: seq<bool>): (v: nat)
    ensures v < Pow2(|bits|)
  {
    if bits == [] then 0 else (if bits[0] then 1 else 0) + 2 * Value(bits[1..])
  }

  lemma {:induction false} ValueInjective(a: seq<bool>, b: seq<bool>)
    requires |a| == |b| && Value(a) == Value(b)
    ensures a == b
  {
    if a != [] {
      ValueInjective(a[1..], b[1..]);
      assert a == [a[0]] + a[1..] && b == [b[0]] + b[1..];
    }
  }

  lemma WordValues(w: Word)
    ensures Value(w) <= 255 && (Value(w) == 0 <==> w == ZERO)
  {
    assert Pow2(8) == 256 by {
      assert Pow2(4) == 16;
    }
    ValueOfZeros(8);
    if Value(w) == 0 {
      ValueInjective(w, ZERO);
    }
  }

  lemma {:induction false} ValueOfZeros(n: nat)
    ensures Value(seq(n, i => false)) == 0
  {
    if n > 0 {
      assert seq(n, i => false)[1..] == seq(n - 1, i => false);
      ValueOfZeros(n - 1);
    }
    assert n == 8 ==> seq(n, i => false) == ZERO;
  }

  predicate Distinct(s: seq<nat>) {
    forall i, j :: 0 <= i < j < |s| ==> s[i] != s[j]
  }

  predicate Within(s: seq<nat>, n: nat) {
    forall i :: 0 <= i < |s| ==> 1 <= s[i] <= n
  }

  lemma FirstWithin(s: seq<nat>, n: nat)
    requires s != [] && Within(s, n)
    ensures 1 <= n
  {
    assert 1 <= s[0] <= n;
  }

  /** There are no more distinct numbers than the range has. */
  lemma {:induction false} DistinctFit(s: seq<nat>, n: nat)
    requires Distinct(s) && Within(s, n)
    ensures |s| <= n
  {
    if n == 0 {
      if s != [] {
        FirstWithin(s, n);
      }
    } else if n in s {
      var i :| 0 <= i < |s| && s[i] == n;
      DistinctFit(s[..i] + s[i + 1..], n - 1);
    } else {
      DistinctFit(s, n - 1);
    }
  }

  lemma {:induction false} Pigeonhole(s: seq<nat>, n: nat, v: nat)
    requires Distinct(s) && Within(s, n) && |s| == n && 1 <= v <= n
    ensures v in s
  {
    if n in s {
      var i :| 0 <= i < |s| && s[i] == n;
      if v < n {
        Pigeonhole(s[..i] + s[i + 1..], n - 1, v);
      }
    } else {
      DistinctFit(s, n - 1);
    }
  }

  function PowerValues(): (s: seq<nat>)
    ensures |s| == 255
  {
    seq(255, k requires 0 <= k => Value(Power(k)))
  }

  lemma PowerValuesDistinct()
    ensures Distinct(PowerValues()) && Within(PowerValues(), 255)
  {
    var s := PowerValues();
    forall i, j | 0 <= i < j < 255
      ensures s[i] != s[j]
    {
      PowersDistinct(i, j);
      if s[i] == s[j] {
        ValueInjective(Power(i), Power(j));
      }
    }
    forall i | 0 <= i < 255
      ensures 1 <= s[i] <= 255
    {
      PowerNonzero(i);
      WordValues(Power(i));
    }
  }

  /** Every byte but zero is a power of x. */
  lemma EveryWordIsPower(w: Word) returns (k: nat)
    requires w != ZERO
    ensures k < 255 && Power(k) == w
  {
    PowerValuesDistinct();
    WordValues(w);
    Pigeonhole(PowerValues(), 255, Value(w));
    k :| 0 <= k < 255 && PowerValues()[k] == Value(w);
    ValueInjective(Power(k), w);
  }

  // ----- the field -----

  lemma MulZero(a: Word)
    ensures Mul(a, ZERO) == ZERO == Mul(ZERO, a)
  {
    MulBitsZero(a);
    MulNoBits(a, ZERO);
  }

  lemma {:induction false} MulNoBits(a: Word, bits: seq<bool>)
    requires forall k :: 0 <= k < |bits| ==> !bits[k]
    ensures MulBits(a, bits) == ZERO
  {
    if bits != [] {
      MulNoBits(a, bits[1..]);
      XorZero(ZERO);
    }
  }

  lemma MulCommutes(a: Word, b: Word)
    ensures Mul(a, b) == Mul(b, a)
  {
    if a == ZERO {
      MulZero(b);
    } else if b == ZERO {
      MulZero(a);
    } else {
      var i := EveryWordIsPower(a);
      var j := EveryWordIsPower(b);
      MulPowers(i, j);
      MulPowers(j, i);
    }
  }

  lemma MulAssociates(a: Word, b: Word, c: Word)
    ensures Mul(Mul(a, b), c) == Mul(a, Mul(b, c))
  {
    if a == ZERO || b == ZERO || c == ZERO {
      MulZero(a);
      MulZero(b);
      MulZero(c);
      MulZero(Mul(a, b));
      MulZero(Mul(b, c));
    } else {
      var i := EveryWordIsPower(a);
      var j := EveryWordIsPower(b);
      var k := EveryWordIsPower(c);
      PowersAssociate(i, j, k);
    }
  }

  lemma PowersAssociate(i: nat, j: nat, k: nat)
    ensures Mul(Mul(Power(i), Power(j)), Power(k)) == Mul(Power(i), Mul(Power(j), Power(k)))
  {
    hide *;
    var ij, jk, ijk := Power(i + j), Power(j + k), Power(i + j + k);
    MulPowers(i, j);
    MulPowers(j, k);
    assert Mul(ij, Power(k)) == ijk by {
      MulPowers(i + j, k);
    }
    assert Mul(Power(i), jk) == ijk by {
      MulPowers(i, j + k);
      assert i + (j + k) == i + j + k;
    }
  }

  lemma MulDistributes(a: Word, b: Word, c: Word)
    ensures Mul(Xor(a, b), c) == Xor(Mul(a, c), Mul(b, c))
    ensures Mul(c, Xor(a, b)) == Xor(Mul(c, a), Mul(c, b))
  {
    MulBitsLinear(a, b, c);
    MulCommutes(c, Xor(a, b));
    MulCommutes(c, a);
    MulCommutes(c, b);
  }
}
