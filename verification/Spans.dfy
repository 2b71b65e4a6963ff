/** The algebra of span relations: the pairs of start and end offsets that a
    piece of a grammar matches in one fixed input. */
module Spans {

  type Rel = iset<(nat, nat)>

  /** A repetition maximum, INF when there is none (pkg/abnf/elements.go). */
  type Bound = m: int | m >= -1

  const INF: Bound := -1

  predicate Permits(min: nat, max: Bound, count: nat) {
    min <= count && (max == INF || count <= max)
  }

  ghost function Id(): Rel {
    iset p: (nat, nat) | p.0 == p.1
  }

  ghost function Compose(a: Rel, b: Rel): Rel {
    iset p: (nat, nat) | exists m: nat :: (p.0, m) in a && (m, p.1) in b
  }

  ghost function Power(a: Rel, count: nat): Rel {
    if count == 0 then Id() else Compose(Power(a, count - 1), a)
  }

  ghost predicate IsRepeated(min: nat, max: Bound, a: Rel, p: (nat, nat)) {
    exists count: nat :: Permits(min, max, count) && p in Power(a, count)
  }

  ghost function Repeat(min: nat, max: Bound, a: Rel): Rel {
    iset p: (nat, nat) | IsRepeated(min, max, a, p)
  }

  lemma InCompose(a: Rel, b: Rel, i: nat, m: nat, j: nat)
    requires (i, m) in a && (m, j) in b
    ensures (i, j) in Compose(a, b)
  {
  }

  lemma ComposeAssociative(a: Rel, b: Rel, c: Rel)
    ensures Compose(Compose(a, b), c) == Compose(a, Compose(b, c))
  {
    forall p | p in Compose(Compose(a, b), c)
      ensures p in Compose(a, Compose(b, c))
    {
      var m: nat :| (p.0, m) in Compose(a, b) && (m, p.1) in c;
      var k: nat :| (p.0, k) in a && (k, m) in b;
      assert (k, p.1) in Compose(b, c);
    }
    forall p | p in Compose(a, Compose(b, c))
      ensures p in Compose(Compose(a, b), c)
    {
      var m: nat :| (p.0, m) in a && (m, p.1) in Compose(b, c);
      var k: nat :| (m, k) in b && (k, p.1) in c;
      assert (p.0, k) in Compose(a, b);
    }
  }

  lemma ComposeId(a: Rel)
    ensures Compose(Id(), a) == a == Compose(a, Id())
  {
    forall p: (nat, nat) | p in a
      ensures p in Compose(Id(), a) && p in Compose(a, Id())
    {
      assert (p.0, p.0) in Id() && (p.1, p.1) in Id() && (p.0, p.1) in a;
    }
  }

  lemma PowerOne(a: Rel)
    ensures Power(a, 1) == a
  {
    assert Power(a, 1) == Compose(Power(a, 0), a);
    ComposeId(a);
  }

  lemma RepeatOnce(a: Rel)
    ensures Repeat(1, 1, a) == a
  {
    PowerOne(a);
    forall p: (nat, nat) | p in a
      ensures p in Repeat(1, 1, a)
    {
      assert Permits(1, 1, 1) && p in Power(a, 1);
    }
  }

  lemma ComposeMonotone(a: Rel, b: Rel, a': Rel, b': Rel)
    requires a <= a' && b <= b'
    ensures Compose(a, b) <= Compose(a', b')
  {
  }

  lemma PowerMonotone(a: Rel, a': Rel, count: nat)
    requires a <= a'
    ensures Power(a, count) <= Power(a', count)
  {
    if count > 0 {
      PowerMonotone(a, a', count - 1);
      ComposeMonotone(Power(a, count - 1), a, Power(a', count - 1), a');
    }
  }

  lemma RepeatMonotone(min: nat, max: Bound, a: Rel, a': Rel)
    requires a <= a'
    ensures Repeat(min, max, a) <= Repeat(min, max, a')
  {
    forall p | p in Repeat(min, max, a)
      ensures p in Repeat(min, max, a')
    {
      var count: nat :| Permits(min, max, count) && p in Power(a, count);
      PowerMonotone(a, a', count);
    }
  }

  /** Repeating adds up: the first count, then the second. */
  lemma {:induction false} PowerSum(a: Rel, m: nat, n: nat)
    ensures Power(a, m + n) == Compose(Power(a, m), Power(a, n))
  {
    if n == 0 {
      ComposeId(Power(a, m));
    } else {
      PowerSum(a, m, n - 1);
      ComposeAssociative(Power(a, m), Power(a, n - 1), a);
    }
  }
}
