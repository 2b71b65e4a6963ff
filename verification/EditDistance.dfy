/** The edit distance of pkg/strings/distance.go: the two-row loop, what its
    result counts, and the laws of a metric. */
module EditDistance {

  type Rune = int

  // ----- edits -----

  datatype Edit = Insert(at: nat, r: Rune) | Delete(at: nat) | Substitute(at: nat, r: Rune)

  predicate Possible(s: seq<Rune>, e: Edit) {
    if e.Insert? then e.at <= |s| else e.at < |s|
  }

  function Apply(s: seq<Rune>, e: Edit): seq<Rune>
    requires Possible(s, e)
  {
    match e
    case Insert(at, r) => s[..at] + [r] + s[at..]
    case Delete(at) => s[..at] + s[at + 1..]
    case Substitute(at, r) => s[..at] + [r] + s[at + 1..]
  }

  /** The edits, one after the other, turn a into b. */
  predicate Turns(a: seq<Rune>, edits: seq<Edit>, b: seq<Rune>)
    decreases |edits|
  {
    if edits == [] then a == b else Possible(a, edits[0]) && Turns(Apply(a, edits[0]), edits[1..], b)
  }

  lemma {:induction false} TurnsAppend(a: seq<Rune>, d: seq<Edit>, b: seq<Rune>, e: seq<Edit>, c: seq<Rune>)
    requires Turns(a, d, b) && Turns(b, e, c)
    ensures Turns(a, d + e, c)
    decreases |d|
  {
    if d == [] {
      assert d + e == e;
    } else {
      assert (d + e)[1..] == d[1..] + e;
      TurnsAppend(Apply(a, d[0]), d[1..], b, e, c);
    }
  }

  lemma OneEdit(a: seq<Rune>, e: Edit)
    requires Possible(a, e)
    ensures Turns(a, [e], Apply(a, e))
  {
    assert [e][1..] == [];
  }

  lemma ApplyBefore(a: seq<Rune>, e: Edit, rest: seq<Rune>)
    requires Possible(a, e)
    ensures Possible(a + rest, e) && Apply(a + rest, e) == Apply(a, e) + rest
  {
    assert (a + rest)[..e.at] == a[..e.at];
    if e.Insert? {
      assert (a + rest)[e.at..] == a[e.at..] + rest;
    } else {
      assert (a + rest)[e.at + 1..] == a[e.at + 1..] + rest;
    }
  }

  /** Edits leave alone what follows. */
  lemma {:induction false} TurnsBefore(a: seq<Rune>, edits: seq<Edit>, b: seq<Rune>, rest: seq<Rune>)
    requires Turns(a, edits, b)
    ensures Turns(a + rest, edits, b + rest)
    decreases |edits|
  {
    if edits != [] {
      hide Possible, Apply;
      ApplyBefore(a, edits[0], rest);
      TurnsBefore(Apply(a, edits[0]), edits[1..], b, rest);
    }
  }

  /** The edit that undoes an edit. */
  function Undo(a: seq<Rune>, e: Edit): Edit
    requires Possible(a, e)
  {
    match e
    case Insert(at, _) => Delete(at)
    case Delete(at) => Insert(at, a[at])
    case Substitute(at, _) => Substitute(at, a[at])
  }

  lemma UndoApplies(a: seq<Rune>, e: Edit)
    requires Possible(a, e)
    ensures Possible(Apply(a, e), Undo(a, e)) && Apply(Apply(a, e), Undo(a, e)) == a
  {
  }

  lemma {:induction false} TurnsBack(a: seq<Rune>, edits: seq<Edit>, b: seq<Rune>) returns (back: seq<Edit>)
    requires Turns(a, edits, b)
    ensures |back| == |edits| && Turns(b, back, a)
    decreases |edits|
  {
    if edits == [] {
      back := [];
    } else {
      var next := Apply(a, edits[0]);
      back := TurnsBack(next, edits[1..], b);
      UndoApplies(a, edits[0]);
      OneEdit(next, Undo(a, edits[0]));
      TurnsAppend(b, back, next, [Undo(a, edits[0])], a);
      back := back + [Undo(a, edits[0])];
    }
  }

  // ----- the distance -----

  function Min(x: nat, y: nat): nat {
    if x < y then x else y
  }

  function Differ(x: Rune, y: Rune): nat {
    if x == y then 0 else 1
  }

  /** The distance by the last runes: delete one, insert one, or keep or substitute one. */
  function Distance(a: seq<Rune>, b: seq<Rune>): nat
    decreases |a| + |b|
  {
    if |a| == 0 then |b|
    else if |b| == 0 then |a|
    else
      var a', b' := a[..|a| - 1], b[..|b| - 1];
      Min(Min(Distance(a', b) + 1, Distance(a, b') + 1), Distance(a', b') + Differ(a[|a| - 1], b[|b| - 1]))
  }

  lemma DistanceStep(a: seq<Rune>, x: Rune, b: seq<Rune>, y: Rune)
    ensures Distance(a + [x], b + [y])
         == Min(Min(Distance(a, b + [y]) + 1, Distance(a + [x], b) + 1), Distance(a, b) + Differ(x, y))
  {
    assert (a + [x])[..|a|] == a && (b + [y])[..|b|] == b;
  }

  predicate Close(m: nat, n: nat) {
    m <= n + 1 && n <= m + 1
  }

  lemma CloseStep(p: nat, q: nat, r: nat, p': nat, q': nat, r': nat)
    requires Close(p, p') && Close(q, q') && Close(r, r')
    ensures Close(Min(Min(p + 1, q + 1), r), Min(Min(p' + 1, q' + 1), r'))
  {
  }

  lemma CloseSum(p: nat, q: nat, d: nat)
    requires Close(p, q)
    ensures Close(p + d, q + d)
  {
  }

  /** The distance of two beginnings. */
  function Between(a: seq<Rune>, i: nat, b: seq<Rune>, j: nat): nat
    requires i <= |a| && j <= |b|
  {
    Distance(a[..i], b[..j])
  }

  lemma BetweenStep(a: seq<Rune>, i: nat, b: seq<Rune>, j: nat)
    requires 1 <= i <= |a| && 1 <= j <= |b|
    ensures Between(a, i, b, j)
         == Min(Min(Between(a, i - 1, b, j) + 1, Between(a, i, b, j - 1) + 1),
                Between(a, i - 1, b, j - 1) + Differ(a[i - 1], b[j - 1]))
  {
    hide Distance;
    assert a[..i] == a[..i - 1] + [a[i - 1]] && b[..j] == b[..j - 1] + [b[j - 1]];
    DistanceStep(a[..i - 1], a[i - 1], b[..j - 1], b[j - 1]);
  }

  lemma BetweenEnds(a: seq<Rune>, b: seq<Rune>)
    ensures Between(a, |a|, b, |b|) == Distance(a, b)
    ensures forall i :: 0 <= i <= |a| ==> Between(a, i, b, 0) == i
    ensures forall j :: 0 <= j <= |b| ==> Between(a, 0, b, j) == j
  {
    assert a[..|a|] == a && b[..|b|] == b;
  }

  lemma Regroup(a: seq<Rune>, r: seq<Rune>, z: Rune)
    ensures a + (r + [z]) == (a + r) + [z]
  {
  }

  lemma OneMoreWanted(a: seq<Rune>, b: seq<Rune>, y: Rune)
    ensures Distance(a, b + [y]) <= Distance(a, b) + 1
  {
    assert (b + [y])[..|b|] == b;
  }

  /** One rune more at the end. */
  lemma {:induction false} OneMore(a: seq<Rune>, x: Rune, b: seq<Rune>)
    ensures Close(Distance(a + [x], b), Distance(a, b))
    decreases |b|
  {
    if b != [] {
      var b', y := b[..|b| - 1], b[|b| - 1];
      assert b == b' + [y];
      DistanceStep(a, x, b', y);
      OneMore(a, x, b');
      OneMoreWanted(a, b', y);
    }
  }

  /** Another rune at the end. */
  lemma {:induction false} AnotherLast(a: seq<Rune>, x: Rune, x': Rune, b: seq<Rune>)
    ensures Close(Distance(a + [x], b), Distance(a + [x'], b))
    decreases |b|
  {
    if b != [] {
      var b', y := b[..|b| - 1], b[|b| - 1];
      assert b == b' + [y];
      DistanceStep(a, x, b', y);
      DistanceStep(a, x', b', y);
      AnotherLast(a, x, x', b');
    }
  }

  /** Close to every target alike. */
  ghost predicate Alike(p: seq<Rune>, q: seq<Rune>) {
    forall b :: Close(Distance(p, b), Distance(q, b))
  }

  lemma NothingWanted(a: seq<Rune>)
    ensures Distance(a, []) == |a|
  {
  }

  /** What follows keeps two beginnings close to every target. */
  lemma {:induction false} AlikeBefore(p: seq<Rune>, q: seq<Rune>, rest: seq<Rune>, b: seq<Rune>)
    requires Alike(p, q)
    ensures Close(Distance(p + rest, b), Distance(q + rest, b))
    decreases |rest| + |b|
  {
    hide Distance, Min, Differ;
    if rest == [] {
      assert p + rest == p && q + rest == q;
    } else if b == [] {
      NothingWanted(p);
      NothingWanted(q);
      NothingWanted(p + rest);
      NothingWanted(q + rest);
      assert Close(Distance(p, []), Distance(q, []));
    } else {
      hide Close, Alike;
      var r, z, b', y := rest[..|rest| - 1], rest[|rest| - 1], b[..|b| - 1], b[|b| - 1];
      assert b == b' + [y] && rest == r + [z];
      Regroup(p, r, z);
      Regroup(q, r, z);
      DistanceStep(p + r, z, b', y);
      DistanceStep(q + r, z, b', y);
      AlikeBefore(p, q, r, b);
      AlikeBefore(p, q, rest, b');
      AlikeBefore(p, q, r, b');
      CloseSum(Distance(p + r, b'), Distance(q + r, b'), Differ(z, y));
      CloseStep(Distance(p + r, b), Distance(p + rest, b'), Distance(p + r, b') + Differ(z, y),
                Distance(q + r, b), Distance(q + rest, b'), Distance(q + r, b') + Differ(z, y));
    }
  }

  lemma OneInside(a: seq<Rune>, x: Rune, rest: seq<Rune>, b: seq<Rune>)
    ensures Close(Distance(a + [x] + rest, b), Distance(a + rest, b))
  {
    hide Distance, Close;
    forall b
      ensures Close(Distance(a + [x], b), Distance(a, b))
    {
      OneMore(a, x, b);
    }
    AlikeBefore(a + [x], a, rest, b);
  }

  lemma AnotherInside(a: seq<Rune>, x: Rune, x': Rune, rest: seq<Rune>, b: seq<Rune>)
    ensures Close(Distance(a + [x] + rest, b), Distance(a + [x'] + rest, b))
  {
    hide Distance, Close;
    forall b
      ensures Close(Distance(a + [x], b), Distance(a + [x'], b))
    {
      AnotherLast(a, x, x', b);
    }
    AlikeBefore(a + [x], a + [x'], rest, b);
  }

  /** One edit changes the distance by no more than one. */
  lemma EditIsClose(a: seq<Rune>, e: Edit, b: seq<Rune>)
    requires Possible(a, e)
    ensures Close(Distance(Apply(a, e), b), Distance(a, b))
  {
    hide Distance;
    match e
    case Insert(at, r) =>
      assert a == a[..at] + a[at..];
      OneInside(a[..at], r, a[at..], b);
    case Delete(at) =>
      assert a == a[..at] + [a[at]] + a[at + 1..];
      OneInside(a[..at], a[at], a[at + 1..], b);
    case Substitute(at, r) =>
      assert a == a[..at] + [a[at]] + a[at + 1..];
      AnotherInside(a[..at], r, a[at], a[at + 1..], b);
  }

  lemma {:induction false} NothingToDo(a: seq<Rune>)
    ensures Distance(a, a) == 0
  {
    if a != [] {
      var a', x := a[..|a| - 1], a[|a| - 1];
      assert a == a' + [x];
      DistanceStep(a', x, a', x);
      NothingToDo(a');
    }
  }

  // ----- the least number of edits -----

  /** No edits that turn a into b are fewer than the distance. */
  lemma {:induction false} NoFewerEdits(a: seq<Rune>, edits: seq<Edit>, b: seq<Rune>)
    requires Turns(a, edits, b)
    ensures Distance(a, b) <= |edits|
    decreases |edits|
  {
    hide Distance;
    if edits == [] {
      NothingToDo(a);
    } else {
      EditIsClose(a, edits[0], b);
      NoFewerEdits(Apply(a, edits[0]), edits[1..], b);
    }
  }

  /** So many edits turn a into b. */
  lemma {:induction false} SoManyEdits(a: seq<Rune>, b: seq<Rune>) returns (edits: seq<Edit>)
    ensures |edits| == Distance(a, b) && Turns(a, edits, b)
    decreases |a| + |b|
  {
    if a == [] && b == [] {
      edits := [];
    } else if a == [] {
      edits := InsertLast(a, b);
    } else if b == [] {
      edits := DeleteLast(a, b);
    } else {
      hide Turns, Possible, Apply;
      var a', b', x, y := a[..|a| - 1], b[..|b| - 1], a[|a| - 1], b[|b| - 1];
      assert a == a' + [x] && b == b' + [y];
      DistanceStep(a', x, b', y);
      if Distance(a, b) == Distance(a', b) + 1 {
        edits := DeleteLast(a, b);
      } else if Distance(a, b) == Distance(a, b') + 1 {
        edits := InsertLast(a, b);
      } else {
        edits := KeepLast(a', x, b', y);
      }
    }
  }

  lemma {:induction false} DeleteLast(a: seq<Rune>, b: seq<Rune>) returns (edits: seq<Edit>)
    requires a != []
    ensures |edits| == Distance(a[..|a| - 1], b) + 1 && Turns(a, edits, b)
    decreases |a| + |b|, 0
  {
    hide Distance;
    var rest := SoManyEdits(a[..|a| - 1], b);
    var e := Delete(|a| - 1);
    assert Apply(a, e) == a[..|a| - 1] && ([e] + rest)[1..] == rest;
    edits := [e] + rest;
  }

  lemma {:induction false} InsertLast(a: seq<Rune>, b: seq<Rune>) returns (edits: seq<Edit>)
    requires b != []
    ensures |edits| == Distance(a, b[..|b| - 1]) + 1 && Turns(a, edits, b)
    decreases |a| + |b|, 0
  {
    hide Distance;
    var b' := b[..|b| - 1];
    var front := SoManyEdits(a, b');
    var e := Insert(|b| - 1, b[|b| - 1]);
    assert Apply(b', e) == b;
    OneEdit(b', e);
    TurnsAppend(a, front, b', [e], b);
    edits := front + [e];
  }

  lemma {:induction false} KeepLast(a: seq<Rune>, x: Rune, b: seq<Rune>, y: Rune) returns (edits: seq<Edit>)
    ensures |edits| == Distance(a, b) + Differ(x, y) && Turns(a + [x], edits, b + [y])
    decreases |a| + |b| + 2, 0
  {
    hide Distance;
    edits := SoManyEdits(a, b);
    TurnsBefore(a, edits, b, [y]);
    if x != y {
      var e := Substitute(|a|, y);
      assert Apply(a + [x], e) == a + [y] && ([e] + edits)[1..] == edits;
      edits := [e] + edits;
    }
  }

  /** The distance is the least number of edits that turn a into b. */
  ghost predicate IsLeast(n: nat, a: seq<Rune>, b: seq<Rune>) {
    && (exists edits: seq<Edit> :: |edits| == n && Turns(a, edits, b))
    && (forall edits: seq<Edit> :: Turns(a, edits, b) ==> n <= |edits|)
  }

  lemma DistanceIsLeast(a: seq<Rune>, b: seq<Rune>)
    ensures IsLeast(Distance(a, b), a, b)
  {
    hide Distance, Turns;
    var edits := SoManyEdits(a, b);
    assert |edits| == Distance(a, b) && Turns(a, edits, b);
    forall edits: seq<Edit> | Turns(a, edits, b)
      ensures Distance(a, b) <= |edits|
    {
      NoFewerEdits(a, edits, b);
    }
  }

  // ----- the laws of a metric -----

  lemma {:induction false} Identity(a: seq<Rune>, b: seq<Rune>)
    ensures Distance(a, b) == 0 <==> a == b
  {
    hide Distance;
    NothingToDo(a);
    var edits := SoManyEdits(a, b);
  }

  lemma {:induction false} Symmetry(a: seq<Rune>, b: seq<Rune>)
    ensures Distance(a, b) == Distance(b, a)
  {
    hide Distance, Turns;
    var there := SoManyEdits(a, b);
    var back := SoManyEdits(b, a);
    var undone := TurnsBack(a, there, b);
    var redone := TurnsBack(b, back, a);
    NoFewerEdits(b, undone, a);
    NoFewerEdits(a, redone, b);
  }

  lemma {:induction false} Triangle(a: seq<Rune>, b: seq<Rune>, c: seq<Rune>)
    ensures Distance(a, c) <= Distance(a, b) + Distance(b, c)
  {
    hide Distance, Turns;
    var first := SoManyEdits(a, b);
    var second := SoManyEdits(b, c);
    TurnsAppend(a, first, b, second, c);
    NoFewerEdits(a, first + second, c);
  }

  // ----- the program -----

  /** The two-row loop counts the fewest edits. */
  method Levenshtein(a: seq<Rune>, b: seq<Rune>) returns (n: nat)
    ensures n == Distance(a, b) && IsLeast(n, a, b)
  {
    DistanceIsLeast(a, b);
    hide IsLeast, Between;
    if |a| == 0 {
      return |b|;
    }
    if |b| == 0 {
      return |a|;
    }
    var previous := new nat[|b| + 1](j => 0);
    var current := new nat[|b| + 1](j => 0);
    for j := 0 to |b| + 1
      invariant forall k :: 0 <= k < j ==> previous[k] == k
    {
      previous[j] := j;
    }
    BetweenEnds(a, b);
    for i := 1 to |a| + 1
      invariant fresh(previous) && fresh(current) && previous != current && previous.Length == current.Length == |b| + 1
      invariant forall k :: 0 <= k <= |b| ==> previous[k] == Between(a, i - 1, b, k)
    {
      NextRow(a, i, b, previous, current);
      previous, current := current, previous;
    }
    return previous[|b|];
  }

  /** A row of distances from the one before it. */
  method NextRow(a: seq<Rune>, i: nat, b: seq<Rune>, previous: array<nat>, current: array<nat>)
    requires 1 <= i <= |a| && previous != current && previous.Length == current.Length == |b| + 1
    requires forall k :: 0 <= k <= |b| ==> previous[k] == Between(a, i - 1, b, k)
    modifies current
    ensures forall k :: 0 <= k <= |b| ==> current[k] == Between(a, i, b, k)
  {
    hide Between;
    BetweenEnds(a, b);
    current[0] := i;
    for j := 1 to |b| + 1
      invariant forall k :: 0 <= k < j ==> current[k] == Between(a, i, b, k)
    {
      BetweenStep(a, i, b, j);
      var substitution := previous[j - 1];
      if a[i - 1] != b[j - 1] {
        substitution := substitution + 1;
      }
      current[j] := Min(Min(previous[j] + 1, current[j - 1] + 1), substitution);
    }
  }
}
