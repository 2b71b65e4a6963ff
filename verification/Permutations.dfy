/** Lists in other orders, and lists of lists joined. */
module Permutations {

  ghost predicate Reordered<T(!new)>(a: seq<T>, b: seq<T>) {
    multiset(a) == multiset(b)
  }

  ghost function Without<T>(s: seq<T>, i: nat): seq<T>
    requires i < |s|
  {
    s[..i] + s[i + 1..]
  }

  lemma WithoutOne<T(!new)>(s: seq<T>, i: nat)
    requires i < |s|
    ensures multiset(s) == multiset(Without(s, i)) + multiset{s[i]}
  {
    assert s == s[..i] + [s[i]] + s[i + 1..];
  }

  lemma SameLength<T(!new)>(a: seq<T>, b: seq<T>)
    requires Reordered(a, b)
    ensures |a| == |b| && forall x :: x in a <==> x in b
  {
    assert |a| == |multiset(a)| && |b| == |multiset(b)|;
    assert forall x :: x in a <==> x in multiset(a);
    assert forall x :: x in b <==> x in multiset(b);
  }

  /** Where the last of one list is in the other; taken out, the rest is reordered. */
  lemma TakeOut<T(!new)>(a: seq<T>, b: seq<T>) returns (j: nat)
    requires Reordered(a, b) && a != []
    ensures j < |b| && b[j] == a[|a| - 1] && Reordered(a[..|a| - 1], Without(b, j))
  {
    var front, last := a[..|a| - 1], a[|a| - 1];
    SameLength(a, b);
    assert last in a;
    j :| 0 <= j < |b| && b[j] == last;
    WithoutOne(b, j);
    WithoutOne(a, |a| - 1);
    assert Without(a, |a| - 1) == front;
    OneLess(multiset(front), multiset(Without(b, j)), last);
  }

  lemma OneLess<T(!new)>(m: multiset<T>, n: multiset<T>, x: T)
    requires m + multiset{x} == n + multiset{x}
    ensures m == n
  {
    assert m == m + multiset{x} - multiset{x} && n == n + multiset{x} - multiset{x};
  }

  /** Two elements first, and the rest. */
  ghost function TwoFirst<T>(s: seq<T>, i: nat, j: nat): seq<T>
    requires i < |s| && j < |s| && i != j
  {
    [s[i], s[j]] + Others(s, i, j)
  }

  ghost function Others<T>(s: seq<T>, i: nat, j: nat): seq<T>
    requires i < |s| && j < |s| && i != j
  {
    if i < j then Without(Without(s, j), i) else Without(Without(s, i), j)
  }

  lemma TwoFirstReordered<T(!new)>(s: seq<T>, i: nat, j: nat)
    requires i < |s| && j < |s| && i != j
    ensures Reordered(s, TwoFirst(s, i, j))
  {
    var low, high := if i < j then i else j, if i < j then j else i;
    WithoutOne(s, high);
    WithoutOne(Without(s, high), low);
    assert multiset([s[i], s[j]]) == multiset{s[i], s[j]};
  }

  // ----- every element replaced -----

  ghost function Map<A, B>(f: A -> B, s: seq<A>): (r: seq<B>)
    ensures |r| == |s| && forall i :: 0 <= i < |s| ==> r[i] == f(s[i])
  {
    seq(|s|, i requires 0 <= i < |s| => f(s[i]))
  }

  lemma {:induction false} MapReordered<A(!new), B(!new)>(f: A -> B, a: seq<A>, b: seq<A>)
    requires Reordered(a, b)
    ensures Reordered(Map(f, a), Map(f, b))
  {
    SameLength(a, b);
    if a != [] {
      var j := TakeOut(a, b);
      var front := a[..|a| - 1];
      MapReordered(f, front, Without(b, j));
      assert Map(f, a) == Map(f, front) + [f(b[j])];
      assert Map(f, Without(b, j)) == Without(Map(f, b), j);
      WithoutOne(Map(f, b), j);
    }
  }

  /** A reordering of the images is the image of a reordering. */
  lemma {:induction false} MapLifts<A(!new), B(!new)>(f: A -> B, a: seq<A>, images: seq<B>) returns (b: seq<A>)
    requires Reordered(Map(f, a), images)
    ensures Reordered(a, b) && Map(f, b) == images
  {
    SameLength(Map(f, a), images);
    if a == [] {
      b := [];
    } else {
      var j := TakeOut(Map(f, a), images);
      var front, last := a[..|a| - 1], a[|a| - 1];
      assert Map(f, a)[..|a| - 1] == Map(f, front);
      var rest := MapLifts(f, front, Without(images, j));
      b := rest[..j] + [last] + rest[j..];
      assert |rest| == |Map(f, rest)| == |images| - 1;
      Inserted(front, rest, last, j);
      assert a == front + [last];
      forall k | 0 <= k < |images|
        ensures f(b[k]) == images[k]
      {
        assert k < j ==> f(rest[k]) == Without(images, j)[k];
        assert k > j ==> f(rest[k - 1]) == Without(images, j)[k - 1];
      }
    }
  }

  lemma Inserted<T(!new)>(front: seq<T>, rest: seq<T>, last: T, j: nat)
    requires Reordered(front, rest) && j <= |rest|
    ensures Reordered(front + [last], rest[..j] + [last] + rest[j..])
  {
    assert rest == rest[..j] + rest[j..];
  }

  // ----- joined -----

  ghost function Joined<T>(lots: seq<seq<T>>): seq<T> {
    if lots == [] then [] else Joined(lots[..|lots| - 1]) + lots[|lots| - 1]
  }

  lemma JoinedOne<T>(lot: seq<T>)
    ensures Joined([lot]) == lot
  {
    assert [lot][..0] == [];
  }

  lemma JoinedLast<T>(lots: seq<seq<T>>, lot: seq<T>)
    ensures Joined(lots + [lot]) == Joined(lots) + lot
  {
    assert (lots + [lot])[..|lots|] == lots;
  }

  lemma {:induction false} JoinedAppend<T>(a: seq<seq<T>>, b: seq<seq<T>>)
    ensures Joined(a + b) == Joined(a) + Joined(b)
  {
    if b == [] {
      assert a + b == a && Joined(b) == [];
    } else {
      hide Joined;
      var front, last := b[..|b| - 1], b[|b| - 1];
      JoinedAppend(a, front);
      assert b == front + [last] && a + b == a + front + [last];
      JoinedLast(a + front, last);
      JoinedLast(front, last);
      assert Joined(a) + Joined(front) + last == Joined(a) + (Joined(front) + last);
    }
  }

  /** One lot in its place among the others. */
  lemma JoinedAround<T>(lots: seq<seq<T>>, j: nat)
    requires j < |lots|
    ensures Joined(lots) == Joined(lots[..j]) + lots[j] + Joined(lots[j + 1..])
    ensures Joined(Without(lots, j)) == Joined(lots[..j]) + Joined(lots[j + 1..])
  {
    hide Joined, Without;
    var before, after := lots[..j], lots[j + 1..];
    Around(lots, j);
    JoinedAppend(before + [lots[j]], after);
    JoinedAppend(before, [lots[j]]);
    JoinedOne(lots[j]);
    JoinedAppend(before, after);
  }

  lemma Around<T>(s: seq<T>, j: nat)
    requires j < |s|
    ensures s == s[..j] + [s[j]] + s[j + 1..] && Without(s, j) == s[..j] + s[j + 1..]
  {
  }

  lemma {:induction false} JoinedReordered<T(!new)>(a: seq<seq<T>>, b: seq<seq<T>>)
    requires Reordered(a, b)
    ensures Reordered(Joined(a), Joined(b))
  {
    SameLength(a, b);
    if a != [] {
      var j := TakeOut(a, b);
      JoinedReordered(a[..|a| - 1], Without(b, j));
      JoinedAround(b, j);
    }
  }

  /** Lots of which any two can change places. */
  ghost predicate Commute<T(!new)>(lots: seq<seq<T>>) {
    forall i, j :: 0 <= i < |lots| && 0 <= j < |lots| ==> lots[i] + lots[j] == lots[j] + lots[i]
  }

  lemma {:induction false} MovesPast<T(!new)>(lot: seq<T>, lots: seq<seq<T>>)
    requires forall i :: 0 <= i < |lots| ==> lot + lots[i] == lots[i] + lot
    ensures lot + Joined(lots) == Joined(lots) + lot
  {
    if lots == [] {
      assert lot + [] == [] + lot;
    } else {
      var front, last := lots[..|lots| - 1], lots[|lots| - 1];
      MovesPast(lot, front);
      assert lot + last == last + lot;
      calc {
        lot + (Joined(front) + last);
        (lot + Joined(front)) + last;
        (Joined(front) + lot) + last;
        Joined(front) + (lot + last);
        Joined(front) + (last + lot);
        (Joined(front) + last) + lot;
      }
    }
  }

  /** They give the same in every order. */
  lemma {:induction false} CommutingJoins<T(!new)>(a: seq<seq<T>>, b: seq<seq<T>>)
    requires Commute(a) && Reordered(a, b)
    ensures Joined(a) == Joined(b)
  {
    SameLength(a, b);
    if a != [] {
      var j := TakeOut(a, b);
      var last, rest := b[j], b[j + 1..];
      CommutingJoins(a[..|a| - 1], Without(b, j));
      JoinedAround(b, j);
      forall i | 0 <= i < |rest|
        ensures last + rest[i] == rest[i] + last
      {
        assert rest[i] == b[j + 1 + i] && rest[i] in a;
      }
      MovesPast(last, rest);
      Rearranged(Joined(b[..j]), last, Joined(rest));
    }
  }

  lemma Rearranged<T>(a: seq<T>, b: seq<T>, c: seq<T>)
    requires b + c == c + b
    ensures a + b + c == a + c + b
  {
    assert a + b + c == a + (b + c) && a + c + b == a + (c + b);
  }
}
