/** What the error correction is for (pkg/encoding/qr/qr.go:27-29): blocks
    that vanish at the roots of the generator polynomial differ in more places
    than it has roots, so that a damaged block has one reading. */
module BlockDistance {
  import opened GaloisField
  import opened ReedSolomon

  // ----- the number of terms -----

  function Weight(p: Poly): (w: nat)
    ensures w <= |p|
  {
    if p == [] then 0 else Weight(p[..|p| - 1]) + (if p[|p| - 1] == ZERO then 0 else 1)
  }

  lemma {:induction false} NoTerms(p: Poly, x: Word)
    requires Weight(p) == 0
    ensures Eval(p, x) == ZERO
  {
    if p != [] {
      NoTerms(p[..|p| - 1], x);
      MulZero(x);
      XorZero(ZERO);
    }
  }

  lemma NonzeroProduct(a: Word, b: Word)
    requires a != ZERO && b != ZERO
    ensures Mul(a, b) != ZERO
  {
    hide *;
    var i := EveryWordIsPower(a);
    var j := EveryWordIsPower(b);
    MulPowers(i, j);
    PowerNonzero(i + j);
  }

  /** A single term vanishes nowhere but at zero. */
  lemma {:induction false} OneTerm(p: Poly, x: Word)
    requires Weight(p) == 1 && x != ZERO
    ensures Eval(p, x) != ZERO
  {
    hide Mul, Xor;
    var front, c := p[..|p| - 1], p[|p| - 1];
    if c == ZERO {
      OneTerm(front, x);
      NonzeroProduct(Eval(front, x), x);
      XorZero(Mul(Eval(front, x), x));
    } else {
      NoTerms(front, x);
      MulZero(x);
      XorZero(c);
    }
  }

  // ----- one term less -----

  /** Every coefficient times the power that its term has at the generator. */
  function Twisted(p: Poly): (q: Poly)
    ensures |q| == |p|
  {
    seq(|p|, k requires 0 <= k < |p| => Mul(p[k], Power(|p| - 1 - k)))
  }

  lemma TwistedSnoc(p: Poly, c: Word)
    ensures Twisted(p + [c]) == Scaled(Twisted(p), Power(1)) + [c]
  {
    hide Mul, Power;
    var twisted, n := Twisted(p + [c]), |p|;
    FirstPower();
    MulCommutes(c, ONE);
    OneIsUnit(c);
    forall k | 0 <= k < n
      ensures twisted[k] == Mul(Mul(p[k], Power(n - 1 - k)), Power(1))
    {
      MulAssociates(p[k], Power(n - 1 - k), Power(1));
      MulPowers(n - 1 - k, 1);
      assert (p + [c])[k] == p[k];
    }
  }

  /** Twisting a polynomial moves its value to the next power. */
  lemma {:induction false} TwistedEval(p: Poly, i: nat)
    ensures Eval(Twisted(p), Power(i)) == Eval(p, Power(i + 1))
  {
    hide Mul, Xor, Power, Twisted;
    if p == [] {
      NoCoefficients();
    } else {
      var front, c := p[..|p| - 1], p[|p| - 1];
      assert p == front + [c];
      TwistedEval(front, i);
      TwistedSnoc(front, c);
      var scaled := Scaled(Twisted(front), Power(1));
      EvalSnoc(scaled, c, Power(i));
      EvalScaled(Twisted(front), Power(1), Power(i));
      EvalSnoc(front, c, Power(i + 1));
      MulAssociates(Eval(front, Power(i + 1)), Power(1), Power(i));
      MulPowers(1, i);
    }
  }

  lemma NoCoefficients()
    ensures Twisted([]) == []
  {
  }

  /** The polynomial without the term at one index, its other terms scaled. */
  function Reduced(p: Poly, j: nat): (q: Poly)
    requires j < |p|
    ensures |q| == |p|
  {
    Sum(Twisted(p), Scaled(p, Power(|p| - 1 - j)))
  }

  lemma ReducedEval(p: Poly, j: nat, i: nat)
    requires j < |p| && Eval(p, Power(i)) == ZERO && Eval(p, Power(i + 1)) == ZERO
    ensures Eval(Reduced(p, j), Power(i)) == ZERO
  {
    hide Mul, Xor, Power, Eval, Twisted;
    EvalSum(Twisted(p), Scaled(p, Power(|p| - 1 - j)), Power(i));
    TwistedEval(p, i);
    EvalScaled(p, Power(|p| - 1 - j), Power(i));
    MulZero(Power(|p| - 1 - j));
    XorZero(ZERO);
  }

  lemma ReducedTerm(p: Poly, j: nat, k: nat)
    requires j < |p| <= 255 && k < |p|
    ensures Reduced(p, j)[k] == ZERO <==> p[k] == ZERO || k == j
  {
    hide Mul, Xor, Power;
    var a, b := Power(|p| - 1 - k), Power(|p| - 1 - j);
    var c := p[k];
    assert Reduced(p, j)[k] == Xor(Mul(c, a), Mul(c, b));
    MulDistributes(a, b, c);
    MulCommutes(c, a);
    MulCommutes(c, b);
    XorSame(a, b);
    MulZero(c);
    MulZero(Xor(a, b));
    if k != j {
      PowersDistinct(if k < j then |p| - 1 - j else |p| - 1 - k, if k < j then |p| - 1 - k else |p| - 1 - j);
      if c != ZERO {
        NonzeroProduct(Xor(a, b), c);
      }
    }
  }

  lemma {:induction false} WeightAlike(p: Poly, q: Poly)
    requires |p| == |q| && forall k :: 0 <= k < |p| ==> (p[k] == ZERO <==> q[k] == ZERO)
    ensures Weight(p) == Weight(q)
  {
    if p != [] {
      WeightAlike(p[..|p| - 1], q[..|q| - 1]);
    }
  }

  lemma {:induction false} WeightDrops(p: Poly, q: Poly, j: nat)
    requires |p| == |q| && j < |p| && p[j] != ZERO
    requires forall k :: 0 <= k < |p| ==> (q[k] == ZERO <==> p[k] == ZERO || k == j)
    ensures Weight(q) == Weight(p) - 1
  {
    var last := |p| - 1;
    if j == last {
      WeightAlike(p[..last], q[..last]);
    } else {
      WeightDrops(p[..last], q[..last], j);
    }
  }

  lemma {:induction false} SomeTerm(p: Poly) returns (j: nat)
    requires Weight(p) > 0
    ensures j < |p| && p[j] != ZERO
  {
    if p[|p| - 1] != ZERO {
      j := |p| - 1;
    } else {
      j := SomeTerm(p[..|p| - 1]);
    }
  }

  /** A polynomial vanishes at no more of the first powers than it has terms, less one. */
  lemma {:induction false} TermsExceedRoots(p: Poly, count: nat)
    requires |p| <= 255 && Weight(p) > 0
    requires forall i :: 0 <= i < count ==> Eval(p, Power(i)) == ZERO
    ensures Weight(p) > count
    decreases Weight(p)
  {
    hide Eval, Power, Weight, Reduced;
    if count > 0 {
      assert Eval(p, Power(0)) == ZERO;
      if Weight(p) == 1 {
        PowerNonzero(0);
        OneTerm(p, Power(0));
      } else {
        var j := SomeTerm(p);
        var q := Reduced(p, j);
        forall k | 0 <= k < |p|
          ensures q[k] == ZERO <==> p[k] == ZERO || k == j
        {
          ReducedTerm(p, j, k);
        }
        WeightDrops(p, q, j);
        forall i | 0 <= i < count - 1
          ensures Eval(q, Power(i)) == ZERO
        {
          assert Eval(p, Power(i)) == ZERO && Eval(p, Power(i + 1)) == ZERO;
          ReducedEval(p, j, i);
        }
        TermsExceedRoots(q, count - 1);
      }
    }
  }

  // ----- blocks -----

  /** In how many places two blocks differ. */
  function Differences(a: Poly, b: Poly): (n: nat)
    requires |a| == |b|
  {
    if a == [] then 0
    else Differences(a[..|a| - 1], b[..|b| - 1]) + (if a[|a| - 1] == b[|b| - 1] then 0 else 1)
  }

  lemma {:induction false} DifferencesTriangle(a: Poly, b: Poly, c: Poly)
    requires |a| == |b| == |c|
    ensures Differences(a, c) <= Differences(a, b) + Differences(b, c)
    ensures Differences(a, b) == Differences(b, a)
    ensures Differences(a, b) == 0 <==> a == b
  {
    if a != [] {
      var last := |a| - 1;
      DifferencesTriangle(a[..last], b[..last], c[..last]);
      assert a == a[..last] + [a[last]] && b == b[..last] + [b[last]];
    }
  }

  lemma {:induction false} DifferencesAreTerms(a: Poly, b: Poly)
    requires |a| == |b|
    ensures Weight(Sum(a, b)) == Differences(a, b)
  {
    if a != [] {
      hide Xor;
      var last := |a| - 1;
      DifferencesAreTerms(a[..last], b[..last]);
      assert Sum(a, b)[..last] == Sum(a[..last], b[..last]);
      XorSame(a[last], b[last]);
    }
  }

  /** A block that vanishes at the roots of the generator polynomial. */
  ghost predicate Vanishes(block: Poly, count: nat) {
    forall i :: 0 <= i < count ==> Eval(block, Power(i)) == ZERO
  }

  /** Different blocks differ in more places than there are error-correction codewords. */
  lemma BlocksAreFarApart(a: Poly, b: Poly, count: nat)
    requires |a| == |b| <= 255 && a != b && Vanishes(a, count) && Vanishes(b, count)
    ensures Differences(a, b) > count
  {
    hide Eval, Power, Weight, Sum, Differences;
    DifferencesTriangle(a, b, a);
    DifferencesAreTerms(a, b);
    forall i | 0 <= i < count
      ensures Eval(Sum(a, b), Power(i)) == ZERO
    {
      EvalSum(a, b, Power(i));
      XorZero(ZERO);
      assert Eval(a, Power(i)) == ZERO && Eval(b, Power(i)) == ZERO;
    }
    TermsExceedRoots(Sum(a, b), count);
  }

  /** A block damaged in no more than half as many places as it has
      error-correction codewords has one reading: the data it was made of. */
  lemma DamageIsUndone(data: Poly, count: nat, damaged: Poly, reading: Poly)
    requires 1 <= count && |data| + count <= 255 && |damaged| == |data| + count == |reading|
    requires 2 * Differences(data + Remainder(data, count), damaged) <= count
    requires Vanishes(reading, count) && 2 * Differences(reading, damaged) <= count
    ensures reading[..|data|] == data
  {
    hide Eval, Power, Differences, Remainder;
    var block := data + Remainder(data, count);
    forall i | 0 <= i < count
      ensures Eval(block, Power(i)) == ZERO
    {
      BlockVanishes(data, count, i);
    }
    DifferencesTriangle(block, damaged, reading);
    DifferencesTriangle(reading, damaged, block);
    if block != reading {
      BlocksAreFarApart(block, reading, count);
    }
  }
}
