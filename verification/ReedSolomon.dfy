/** Error correction (pkg/encoding/qr/reed_solomon.go): the tables, the
    generator polynomial and the division by it. */
module ReedSolomon {
  import opened GaloisField

  /** A polynomial, highest power first. */
  type Poly = seq<Word>

  /** Its value at x, by Horner's rule. */
  function Eval(p: Poly, x: Word): Word {
    if p == [] then ZERO else Xor(Mul(Eval(p[..|p| - 1], x), x), p[|p| - 1])
  }

  function PowerOf(x: Word, n: nat): Word {
    if n == 0 then ONE else Mul(PowerOf(x, n - 1), x)
  }

  function Sum(p: Poly, q: Poly): (r: Poly)
    requires |p| == |q|
    ensures |r| == |p|
  {
    seq(|p|, k requires 0 <= k < |p| => Xor(p[k], q[k]))
  }

  function Scaled(p: Poly, factor: Word): (r: Poly)
    ensures |r| == |p|
  {
    seq(|p|, k requires 0 <= k < |p| => Mul(p[k], factor))
  }

  function Zeros(n: nat): (r: Poly)
    ensures |r| == n
  {
    seq(n, k => ZERO)
  }

  // ----- evaluation -----

  lemma EvalSnoc(p: Poly, c: Word, x: Word)
    ensures Eval(p + [c], x) == Xor(Mul(Eval(p, x), x), c)
  {
    assert (p + [c])[..|p|] == p;
  }

  lemma {:induction false} EvalZeros(n: nat, x: Word)
    ensures Eval(Zeros(n), x) == ZERO
  {
    if n > 0 {
      assert Zeros(n) == Zeros(n - 1) + [ZERO];
      EvalSnoc(Zeros(n - 1), ZERO, x);
      EvalZeros(n - 1, x);
      MulZero(x);
      XorZero(ZERO);
    }
  }

  lemma {:induction false} EvalSum(p: Poly, q: Poly, x: Word)
    requires |p| == |q|
    ensures Eval(Sum(p, q), x) == Xor(Eval(p, x), Eval(q, x))
  {
    if p == [] {
      XorZero(ZERO);
    } else {
      var p', q', c, d := p[..|p| - 1], q[..|q| - 1], p[|p| - 1], q[|q| - 1];
      assert p == p' + [c] && q == q' + [d] && Sum(p, q) == Sum(p', q') + [Xor(c, d)];
      EvalSnoc(p', c, x);
      EvalSnoc(q', d, x);
      EvalSnoc(Sum(p', q'), Xor(c, d), x);
      EvalSum(p', q', x);
      SumStep(Eval(p', x), Eval(q', x), c, d, x);
    }
  }

  lemma SumStep(a: Word, b: Word, c: Word, d: Word, x: Word)
    ensures Xor(Mul(Xor(a, b), x), Xor(c, d)) == Xor(Xor(Mul(a, x), c), Xor(Mul(b, x), d))
  {
    hide *;
    MulDistributes(a, b, x);
    XorSwap(Mul(a, x), Mul(b, x), c, d);
  }

  lemma {:induction false} EvalScaled(p: Poly, factor: Word, x: Word)
    ensures Eval(Scaled(p, factor), x) == Mul(Eval(p, x), factor)
  {
    if p == [] {
      MulZero(factor);
    } else {
      var p', c := p[..|p| - 1], p[|p| - 1];
      assert p == p' + [c] && Scaled(p, factor) == Scaled(p', factor) + [Mul(c, factor)];
      EvalSnoc(p', c, x);
      EvalSnoc(Scaled(p', factor), Mul(c, factor), x);
      EvalScaled(p', factor, x);
      ScaleStep(Eval(p', x), c, factor, x);
    }
  }

  lemma ScaleStep(a: Word, c: Word, factor: Word, x: Word)
    ensures Xor(Mul(Mul(a, factor), x), Mul(c, factor)) == Mul(Xor(Mul(a, x), c), factor)
  {
    hide *;
    SwapFactors(a, factor, x);
    MulDistributes(Mul(a, x), c, factor);
  }

  lemma SwapFactors(a: Word, b: Word, c: Word)
    ensures Mul(Mul(a, b), c) == Mul(Mul(a, c), b)
  {
    hide *;
    MulAssociates(a, b, c);
    MulAssociates(a, c, b);
    MulCommutes(b, c);
  }

  lemma {:induction false} EvalConcat(p: Poly, q: Poly, x: Word)
    ensures Eval(p + q, x) == Xor(Mul(Eval(p, x), PowerOf(x, |q|)), Eval(q, x))
  {
    if q == [] {
      assert p + q == p;
      MulCommutes(Eval(p, x), ONE);
      OneIsUnit(Eval(p, x));
      XorZero(Eval(p, x));
    } else {
      var q', c := q[..|q| - 1], q[|q| - 1];
      assert q == q' + [c] && p + q == (p + q') + [c];
      EvalSnoc(q', c, x);
      EvalSnoc(p + q', c, x);
      EvalConcat(p, q', x);
      ConcatStep(Eval(p, x), PowerOf(x, |q'|), Eval(q', x), c, x);
    }
  }

  lemma ConcatStep(a: Word, power: Word, b: Word, c: Word, x: Word)
    ensures Xor(Mul(Xor(Mul(a, power), b), x), c) == Xor(Mul(a, Mul(power, x)), Xor(Mul(b, x), c))
  {
    hide *;
    MulDistributes(Mul(a, power), b, x);
    MulAssociates(a, power, x);
    XorAssociates(Mul(Mul(a, power), x), Mul(b, x), c);
  }

  lemma EvalSingle(c: Word, x: Word)
    ensures Eval([c], x) == c
  {
    assert [] + [c] == [c];
    EvalSnoc([], c, x);
    MulZero(x);
    XorZero(c);
  }

  // ----- the generator polynomial -----

  /** The product with (x + root). */
  function TimesRoot(p: Poly, root: Word): (r: Poly)
    ensures |r| == |p| + 1
  {
    Sum(p + [ZERO], [ZERO] + Scaled(p, root))
  }

  /** The product of (x + 2^i) for i below the degree. */
  function Generator(degree: nat): (p: Poly)
    ensures |p| == degree + 1
  {
    if degree == 0 then [ONE] else TimesRoot(Generator(degree - 1), Power(degree - 1))
  }

  lemma EvalTimesRoot(p: Poly, root: Word, x: Word)
    ensures Eval(TimesRoot(p, root), x) == Mul(Eval(p, x), Xor(x, root))
  {
    EvalSum(p + [ZERO], [ZERO] + Scaled(p, root), x);
    EvalSnoc(p, ZERO, x);
    XorZero(Mul(Eval(p, x), x));
    EvalLeadingZero(Scaled(p, root), x);
    EvalScaled(p, root, x);
    MulDistributes(x, root, Eval(p, x));
  }

  lemma EvalLeadingZero(p: Poly, x: Word)
    ensures Eval([ZERO] + p, x) == Eval(p, x)
  {
    EvalConcat([ZERO], p, x);
    assert [ZERO] == Zeros(1);
    EvalZeros(1, x);
    MulZero(PowerOf(x, |p|));
    XorZero(Eval(p, x));
  }

  /** The generator polynomial is monic. */
  lemma {:induction false} GeneratorMonic(degree: nat)
    ensures Generator(degree)[0] == ONE
  {
    if degree > 0 {
      GeneratorMonic(degree - 1);
      XorZero(ONE);
    }
  }

  /** Every power of 2 below the degree is a root of the generator polynomial. */
  lemma {:induction false} GeneratorRoots(degree: nat, i: nat)
    requires i < degree
    ensures Eval(Generator(degree), Power(i)) == ZERO
  {
    hide Eval, Mul, Xor, Power, TimesRoot;
    var smaller, x := Generator(degree - 1), Power(i);
    EvalTimesRoot(smaller, Power(degree - 1), x);
    if i == degree - 1 {
      XorSame(x, x);
      MulZero(Eval(smaller, x));
    } else {
      GeneratorRoots(degree - 1, i);
      MulZero(Xor(x, Power(degree - 1)));
    }
  }

  // ----- division -----

  /** One step of the division: the remainder takes in the next codeword. */
  function Divided(remainder: Poly, codeword: Word, generator: Poly): (r: Poly)
    requires |remainder| >= 1 && |generator| == |remainder| + 1
    ensures |r| == |remainder|
  {
    Sum(remainder[1..] + [ZERO], Scaled(generator[1..], Xor(codeword, remainder[0])))
  }

  /** The remainder of data times x^count divided by the generator polynomial. */
  function Remainder(data: Poly, count: nat): (r: Poly)
    requires count >= 1
    ensures |r| == count
  {
    if data == [] then Zeros(count)
    else Divided(Remainder(data[..|data| - 1], count), data[|data| - 1], Generator(count))
  }

  /** At a root of the generator, its leading power cancels its other terms. */
  lemma GeneratorTail(count: nat, i: nat)
    requires i < count
    ensures Eval(Generator(count)[1..], Power(i)) == PowerOf(Power(i), count)
  {
    hide Eval, Mul, Xor, Power, PowerOf, Generator, ONE;
    var g, x := Generator(count), Power(i);
    GeneratorMonic(count);
    GeneratorRoots(count, i);
    assert g == [ONE] + g[1..];
    EvalConcat([ONE], g[1..], x);
    EvalSingle(ONE, x);
    OneIsUnit(PowerOf(x, count));
    XorSame(PowerOf(x, count), Eval(g[1..], x));
  }

  lemma DividedEval(remainder: Poly, codeword: Word, count: nat, i: nat)
    requires |remainder| == count && i < count
    ensures Eval(Divided(remainder, codeword, Generator(count)), Power(i))
         == Xor(Mul(Eval(remainder, Power(i)), Power(i)), Mul(codeword, PowerOf(Power(i), count)))
  {
    hide Eval, Mul, Xor, Power, PowerOf, Generator, Sum, Scaled;
    var g, x := Generator(count), Power(i);
    var factor, shifted := Xor(codeword, remainder[0]), remainder[1..] + [ZERO];
    EvalSum(shifted, Scaled(g[1..], factor), x);
    EvalScaled(g[1..], factor, x);
    GeneratorTail(count, i);
    // The remainder times x is its first codeword's term and the shifted rest.
    EvalSnoc(remainder, ZERO, x);
    XorZero(Mul(Eval(remainder, x), x));
    assert remainder + [ZERO] == [remainder[0]] + shifted;
    EvalConcat([remainder[0]], shifted, x);
    EvalSingle(remainder[0], x);
    DivideStep(Eval(shifted, x), PowerOf(x, count), codeword, remainder[0]);
  }

  lemma DivideStep(shifted: Word, power: Word, codeword: Word, first: Word)
    ensures Xor(shifted, Mul(power, Xor(codeword, first)))
         == Xor(Xor(Mul(first, power), shifted), Mul(codeword, power))
  {
    hide *;
    MulDistributes(codeword, first, power);
    MulCommutes(power, codeword);
    MulCommutes(power, first);
    XorAssociates(shifted, Mul(first, power), Mul(codeword, power));
    XorCommutes(Mul(codeword, power), Mul(first, power));
    XorCommutes(shifted, Mul(first, power));
  }

  /** At a root, the remainder is the data's value times the root's power. */
  lemma {:induction false} RemainderEval(data: Poly, count: nat, i: nat)
    requires i < count
    ensures Eval(Remainder(data, count), Power(i)) == Mul(Eval(data, Power(i)), PowerOf(Power(i), count))
  {
    var x := Power(i);
    if data == [] {
      EvalZeros(count, x);
      MulZero(PowerOf(x, count));
    } else {
      var front, c := data[..|data| - 1], data[|data| - 1];
      assert data == front + [c];
      EvalSnoc(front, c, x);
      RemainderEval(front, count, i);
      DividedEval(Remainder(front, count), c, count, i);
      MulDistributes(Mul(Eval(front, x), x), c, PowerOf(x, count));
      SwapFactors(Eval(front, x), PowerOf(x, count), x);
    }
  }

  /** A block of data followed by its error correction vanishes at every root of the generator polynomial. */
  lemma BlockVanishes(data: Poly, count: nat, i: nat)
    requires i < count
    ensures Eval(data + Remainder(data, count), Power(i)) == ZERO
  {
    EvalConcat(data, Remainder(data, count), Power(i));
    RemainderEval(data, count, i);
    XorSame(Eval(Remainder(data, count), Power(i)), Eval(Remainder(data, count), Power(i)));
  }

  lemma ScaledAt(p: Poly, factor: Word, k: nat)
    requires k < |p|
    ensures Scaled(p, factor)[k] == Mul(p[k], factor)
  {
  }

  lemma SumIs(r: Poly, p: Poly, q: Poly)
    requires |r| == |p| == |q| && forall k :: 0 <= k < |r| ==> r[k] == Xor(p[k], q[k])
    ensures r == Sum(p, q)
  {
  }

  lemma FirstPower()
    ensures Power(0) == ONE
  {
  }

  lemma NextPower(k: nat)
    ensures Power(k + 1) == Double(Power(k))
  {
  }

  lemma NewIndex(power: nat)
    requires power < 255
    ensures forall k :: 0 <= k < power ==> Index(Power(k)) != Index(Power(power))
  {
    hide Power, Index;
    forall k | 0 <= k < power
      ensures Index(Power(k)) != Index(Power(power))
    {
      PowersDistinct(k, power);
      if Index(Power(k)) == Index(Power(power)) {
        IndexInjective(Power(k), Power(power));
      }
    }
  }

  /** After 255 powers they come again. */
  lemma PowersAgain()
    ensures forall k :: 255 <= k < 510 ==> Power(k) == Power(k - 255)
  {
    hide Power;
    FullPeriod();
    forall k | 255 <= k < 510
      ensures Power(k) == Power(k - 255)
    {
      PowerRepeats(PERIOD, 1, k - 255);
    }
  }

  // ----- the program -----

  /** The package's tables of powers and logarithms. */
  class Tables {
    const exponents: array<Word>
    const logarithms: array<nat>

    ghost predicate Valid()
      reads this, exponents, logarithms
    {
      && exponents.Length == 510 && logarithms.Length == 256
      && (forall k :: 0 <= k < 510 ==> exponents[k] == Power(k))
      && (forall k :: 0 <= k < 255 ==> logarithms[Index(Power(k))] == k)
    }

    constructor ()
      ensures Valid() && fresh(exponents) && fresh(logarithms)
    {
      hide Power, Double, Index;
      exponents := new Word[510](k => ZERO);
      logarithms := new nat[256](k => 0);
      new;
      var value := ONE;
      FirstPower();
      for power := 0 to 255
        invariant value == Power(power)
        invariant forall k :: 0 <= k < power ==> exponents[k] == Power(k) && exponents[k + 255] == Power(k)
        invariant forall k :: 0 <= k < power ==> logarithms[Index(Power(k))] == k
      {
        exponents[power] := value;
        exponents[power + 255] := value;
        NewIndex(power);
        logarithms[Index(value)] := power;
        value := Double(value);
        NextPower(power);
      }
      PowersAgain();
      forall k | 255 <= k < 510
        ensures exponents[k] == Power(k)
      {
        var m := k - 255;
        assert exponents[m + 255] == Power(m);
      }
    }

    /** Multiplication by looking up and adding logarithms is multiplication in the field. */
    method Multiply(a: Word, b: Word) returns (r: Word)
      requires Valid()
      ensures r == Mul(a, b)
    {
      if a == ZERO || b == ZERO {
        MulZero(a);
        MulZero(b);
        return ZERO;
      }
      ghost var i := EveryWordIsPower(a);
      ghost var j := EveryWordIsPower(b);
      MulPowers(i, j);
      return exponents[logarithms[Index(a)] + logarithms[Index(b)]];
    }

    method GeneratorPolynomial(degree: nat) returns (polynomial: array<Word>)
      requires Valid() && degree <= 510
      ensures fresh(polynomial) && polynomial[..] == Generator(degree)
    {
      polynomial := new Word[1](k => ONE);
      assert polynomial[..] == [ONE];
      for i := 0 to degree
        invariant fresh(polynomial) && polynomial[..] == Generator(i)
      {
        polynomial := MultiplyByRoot(polynomial, exponents[i]);
      }
    }

    method MultiplyByRoot(polynomial: array<Word>, root: Word) returns (next: array<Word>)
      requires Valid()
      ensures fresh(next) && next[..] == TimesRoot(polynomial[..], root)
    {
      hide Mul, Xor, Scaled, Sum;
      var n := polynomial.Length;
      ghost var p := polynomial[..];
      ghost var low, high := p + [ZERO], [ZERO] + Scaled(p, root);
      next := new Word[n + 1](k => ZERO);
      for j := 0 to n
        invariant forall k :: 0 <= k < j ==> next[k] == Xor(low[k], high[k])
        invariant next[j] == high[j]
        invariant forall k :: j < k <= n ==> next[k] == ZERO
      {
        ScaledAt(p, root, j);
        next[j] := Xor(next[j], polynomial[j]);
        XorCommutes(low[j], high[j]);
        var product := Multiply(polynomial[j], root);
        XorZero(product);
        next[j + 1] := Xor(next[j + 1], product);
      }
      XorZero(high[n]);
      SumIs(next[..], low, high);
    }

    /** The codewords a block's data is followed by. */
    method ErrorCorrection(data: seq<Word>, count: nat) returns (remainder: array<Word>)
      requires Valid() && 1 <= count <= 510
      ensures fresh(remainder) && remainder[..] == Remainder(data, count)
    {
      var generator := GeneratorPolynomial(count);
      remainder := new Word[count](k => ZERO);
      assert remainder[..] == Zeros(count);
      for n := 0 to |data|
        invariant fresh(remainder) && remainder != generator
        invariant generator[..] == Generator(count)
        invariant remainder[..] == Remainder(data[..n], count)
      {
        assert data[..n + 1][..n] == data[..n];
        TakeIn(generator, remainder, data[n]);
      }
      assert data[..|data|] == data;
    }

    /** Takes a codeword into the remainder. */
    method TakeIn(generator: array<Word>, remainder: array<Word>, codeword: Word)
      requires Valid() && generator != remainder && remainder != exponents
      requires remainder.Length >= 1 && generator.Length == remainder.Length + 1
      modifies remainder
      ensures remainder[..] == Divided(old(remainder[..]), codeword, generator[..])
    {
      hide Mul, Xor, Sum, Scaled;
      var factor := Xor(codeword, remainder[0]);
      MoveUp(remainder);
      AddScaled(generator, remainder, factor);
    }

    /** Every codeword moves up a place, and the last becomes zero. */
    method MoveUp(remainder: array<Word>)
      requires remainder.Length >= 1
      modifies remainder
      ensures remainder[..] == old(remainder[..])[1..] + [ZERO]
    {
      var count := remainder.Length;
      ghost var r := remainder[..];
      for i := 0 to count - 1
        invariant forall k :: 0 <= k < i ==> remainder[k] == r[k + 1]
        invariant forall k :: i <= k < count ==> remainder[k] == r[k]
      {
        remainder[i] := remainder[i + 1];
      }
      remainder[count - 1] := ZERO;
    }

    method AddScaled(generator: array<Word>, remainder: array<Word>, factor: Word)
      requires Valid() && generator != remainder && remainder != exponents
      requires generator.Length == remainder.Length + 1
      modifies remainder
      ensures remainder[..] == Sum(old(remainder[..]), Scaled(generator[1..], factor))
    {
      hide Mul, Xor, Sum, Scaled;
      var count := remainder.Length;
      ghost var r, scaled := remainder[..], Scaled(generator[1..], factor);
      for i := 0 to count
        invariant forall k :: 0 <= k < i ==> remainder[k] == Xor(r[k], scaled[k])
        invariant forall k :: i <= k < count ==> remainder[k] == r[k]
      {
        var product := Multiply(generator[i + 1], factor);
        ScaledAt(generator[1..], factor, i);
        remainder[i] := Xor(remainder[i], product);
      }
      SumIs(remainder[..], r, scaled);
    }
  }

  lemma IndexInjective(a: Word, b: Word)
    requires Index(a) == Index(b)
    ensures a == b
  {
    ValueInjective(a, b);
  }

  /** The number of a byte, as an index. */
  function Index(w: Word): (i: nat)
    ensures i < 256
  {
    WordValues(w);
    Value(w)
  }
}
