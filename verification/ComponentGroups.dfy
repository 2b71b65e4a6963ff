/** The components that share a bom-ref, in the order they come, and what is
    made of them (pkg/sbom/image_components.go:299-337). */
module ComponentGroups {
  import opened Wrappers
  import opened ByteOrder
  import opened Components
  import opened ComponentLaws

  // ----- the components of one bom-ref -----

  ghost function Sharers(components: seq<Component>, ref: Text): (r: seq<Component>)
    ensures forall k :: 0 <= k < |r| ==> SharesRef(r[k], ref)
  {
    if components == [] then []
    else
      var front, c := Sharers(components[..|components| - 1], ref), components[|components| - 1];
      if SharesRef(c, ref) then front + [c] else front
  }

  lemma {:induction false} SharersAppend(a: seq<Component>, b: seq<Component>, ref: Text)
    ensures Sharers(a + b, ref) == Sharers(a, ref) + Sharers(b, ref)
  {
    if b == [] {
      assert a + b == a;
    } else {
      assert (a + b)[..|a + b| - 1] == a + b[..|b| - 1];
      SharersAppend(a, b[..|b| - 1], ref);
    }
  }

  lemma {:induction false} HasSharersIff(components: seq<Component>, ref: Text)
    ensures Sharers(components, ref) != [] <==> ref in Refs(Elements(components))
  {
    if components == [] {
      assert Refs(Elements(components)) == {};
    } else {
      var front, c := components[..|components| - 1], components[|components| - 1];
      assert components == front + [c];
      HasSharersIff(front, ref);
      ElementsSnoc(front, c);
      RefsGrow(Elements(front), c);
    }
  }

  // ----- what is made of them -----

  ghost predicate AllComponents(cs: seq<Component>) {
    forall k :: 0 <= k < |cs| ==> cs[k].Component?
  }

  /** The scope that claims the most, the first of them. */
  ghost function TopScope(cs: seq<Component>): Scope
    requires cs != [] && AllComponents(cs)
  {
    var last := cs[|cs| - 1].scope;
    if |cs| == 1 then last
    else
      var before := TopScope(cs[..|cs| - 1]);
      if ScopeRank(last) > ScopeRank(before) then last else before
  }

  /** The first licences there are. */
  ghost function FirstLicenses(cs: seq<Component>): seq<Text>
    requires AllComponents(cs)
  {
    if cs == [] then [] else MergedLicenses(FirstLicenses(cs[..|cs| - 1]), cs[|cs| - 1].licenses)
  }

  ghost function AllProperties(cs: seq<Component>): seq<Property>
    requires AllComponents(cs)
  {
    if cs == [] then [] else AllProperties(cs[..|cs| - 1]) + cs[|cs| - 1].properties
  }

  ghost function AllNested(cs: seq<Component>): seq<Component>
    requires AllComponents(cs)
  {
    if cs == [] then [] else AllNested(cs[..|cs| - 1]) + cs[|cs| - 1].components
  }

  /** The first component with what the others add to it, one after the other. */
  ghost function Gathered(cs: seq<Component>): (r: Component)
    requires cs != [] && AllComponents(cs)
    ensures r.Component? && r.bomRef == cs[0].bomRef && r.identity == cs[0].identity
  {
    if |cs| == 1 then cs[0] else Combined(Gathered(cs[..|cs| - 1]), cs[|cs| - 1])
  }

  lemma {:induction false} GatheredIs(cs: seq<Component>)
    requires cs != [] && AllComponents(cs)
    ensures Gathered(cs)
         == cs[0].(scope := TopScope(cs), licenses := FirstLicenses(cs), components := AllNested(cs),
                   properties := if |cs| == 1 then cs[0].properties else DistinctProperties(AllProperties(cs)))
  {
    hide DistinctProperties;
    if |cs| == 1 {
      assert cs[..0] == [] && AllNested([]) == [] && [] + cs[0].components == cs[0].components;
    } else {
      var front, last := cs[..|cs| - 1], cs[|cs| - 1];
      GatheredIs(front);
      if |front| == 1 {
        assert front[..0] == [] && [] + front[0].properties == front[0].properties;
        assert AllProperties(front) == front[0].properties;
      } else {
        DistinctTwice(AllProperties(front), last.properties);
      }
    }
  }

  // ----- distinct properties -----

  lemma DistinctSnoc(a: seq<Property>, p: Property)
    ensures DistinctProperties(a + [p])
         == if p.NoProperty? || p in DistinctProperties(a) then DistinctProperties(a) else DistinctProperties(a) + [p]
  {
    assert (a + [p])[..|a|] == a;
  }

  lemma DistinctHas(a: seq<Property>, p: Property)
    ensures p in DistinctProperties(a) <==> p in a && p.Property?
  {
  }

  /** Cuts the last property off. */
  lemma Cut(a: seq<Property>, b: seq<Property>) returns (front: seq<Property>, p: Property)
    requires b != []
    ensures front == b[..|b| - 1] && p == b[|b| - 1]
    ensures b == front + [p] && a + b == a + front + [p] && |front| < |b|
  {
    front, p := b[..|b| - 1], b[|b| - 1];
  }

  lemma {:induction false} DistinctPrefix(a: seq<Property>, b: seq<Property>)
    ensures DistinctProperties(a) <= DistinctProperties(a + b)
    decreases |b|
  {
    hide DistinctProperties;
    if b == [] {
      assert a + b == a;
    } else {
      var front, p := Cut(a, b);
      DistinctPrefix(a, front);
      DistinctSnoc(a + front, p);
    }
  }

  /** Taking each pair once before more come changes nothing. */
  lemma {:induction false} DistinctTwice(a: seq<Property>, b: seq<Property>)
    ensures DistinctProperties(DistinctProperties(a) + b) == DistinctProperties(a + b)
    decreases |b|
  {
    hide DistinctProperties;
    var d := DistinctProperties(a);
    if b == [] {
      assert a + b == a && d + b == d;
      DistinctAgain(a);
    } else {
      var front, p := Cut(a, b);
      var _, _ := Cut(d, b);
      DistinctTwice(a, front);
      DistinctSnoc(a + front, p);
      DistinctSnoc(d + front, p);
    }
  }

  lemma {:induction false} DistinctAgain(a: seq<Property>)
    ensures DistinctProperties(DistinctProperties(a)) == DistinctProperties(a)
    decreases |a|
  {
    if a != [] {
      var front, p := Cut([], a);
      DistinctAgain(front);
      DistinctSnoc(front, p);
      DistinctSnoc(DistinctProperties(front), p);
    }
  }

  /** What is there already adds nothing. */
  lemma {:induction false} DistinctWithin(a: seq<Property>, b: seq<Property>)
    requires forall p :: p in b && p.Property? ==> p in a
    ensures DistinctProperties(a + b) == DistinctProperties(a)
    decreases |b|
  {
    hide DistinctProperties;
    if b == [] {
      assert a + b == a;
    } else {
      var front, p := Cut(a, b);
      DistinctWithin(a, front);
      DistinctSnoc(a + front, p);
      DistinctHas(a, p);
    }
  }

  /** Of what comes later each pair may be taken once beforehand. */
  lemma {:induction false} DistinctTail(a: seq<Property>, b: seq<Property>)
    ensures DistinctProperties(a + DistinctProperties(b)) == DistinctProperties(a + b)
    decreases |b|
  {
    hide DistinctProperties;
    if b == [] {
      DistinctNone();
      assert a + [] == a;
    } else {
      var front, p := Cut(a, b);
      DistinctTail(a, front);
      DistinctSnoc(front, p);
      DistinctSnoc(a + front, p);
      var d := DistinctProperties(front);
      DistinctSnoc(a + d, p);
      assert a + (d + [p]) == a + d + [p];
      DistinctHas(front, p);
      DistinctHas(a + front, p);
    }
  }

  lemma DistinctNone()
    ensures DistinctProperties([]) == []
  {
  }

  /** Of two lists one of which goes on where the other stops, the longer is left. */
  lemma DistinctLonger(a: seq<Property>, b: seq<Property>)
    requires DistinctProperties(a) <= DistinctProperties(b)
    ensures DistinctProperties(a + b) == DistinctProperties(b)
    ensures DistinctProperties(b + a) == DistinctProperties(b)
  {
    hide DistinctProperties;
    var d, e := DistinctProperties(a), DistinctProperties(b);
    forall p | p in a && p.Property?
      ensures p in b
    {
      DistinctHas(a, p);
      assert p in e[..|d|];
      DistinctHas(b, p);
    }
    DistinctWithin(b, a);
    var rest := e[|d|..];
    assert e == d + rest && d + (d + rest) == d + d + rest;
    DistinctTwice(a, b);
    DistinctTail(d, b);
    DistinctWithin(d, d);
    DistinctAgain(a);
    DistinctTwice(d + d, rest);
    DistinctAgain(b);
  }

  // ----- the fold -----

  lemma {:induction false} FoldedGathers(components: seq<Component>)
    requires Folded(components).Some?
    ensures var list := Folded(components).value;
            forall k :: 0 <= k < |list| ==>
              Sharers(components, list[k].bomRef) != [] && list[k] == Gathered(Sharers(components, list[k].bomRef))
  {
    hide Combined, Folded;
    if components == [] {
      NothingFolded();
    } else {
      var front, c := components[..|components| - 1], components[|components| - 1];
      assert components == front + [c];
      OneMore(front, c);
      FoldedGathers(front);
      var before, list := Folded(front).value, Folded(components).value;
      forall k | 0 <= k < |list|
        ensures Sharers(components, list[k].bomRef) != []
        ensures list[k] == Gathered(Sharers(components, list[k].bomRef))
      {
        var ref := list[k].bomRef;
        var earlier := Sharers(front, ref);
        if SharesRef(c, ref) {
          assert Sharers(components, ref) == earlier + [c] && (earlier + [c])[..|earlier|] == earlier;
          if k >= |before| {
            HasSharersIff(front, ref);
          }
        }
      }
    }
  }

  lemma NothingFolded()
    ensures Folded([]) == Some([])
  {
  }

  /** What one more component does to the list. */
  lemma OneMore(front: seq<Component>, c: Component)
    requires Folded(front + [c]).Some?
    ensures Folded(front).Some?
    ensures var before, list := Folded(front).value, Folded(front + [c]).value;
            forall k :: 0 <= k < |list| ==>
              if !SharesRef(c, list[k].bomRef) then k < |before| && list[k] == before[k]
              else if k < |before| then before[k].bomRef == c.bomRef && list[k] == Combined(before[k], c)
              else list[k] == c && c.bomRef !in Refs(Elements(front))
  {
    hide Combined;
    assert (front + [c])[..|front|] == front;
    var before, list := Folded(front).value, Folded(front + [c]).value;
    if Referenced(c) {
      var i := PlaceOf(before, c.bomRef);
      if i < |before| {
        CombinedRef(before[i], c);
      } else {
        NewRef(front, c.bomRef);
      }
    }
  }

  lemma NewRef(front: seq<Component>, ref: Text)
    requires Folded(front).Some? && PlaceOf(Folded(front).value, ref) == |Folded(front).value|
    ensures ref !in Refs(Elements(front))
  {
    hide Folded, PlaceOf, StandsFor;
    FoldedIs(front);
  }

  // ----- ascending lists -----

  lemma PlaceIn(list: seq<Component>, c: Component) returns (k: nat)
    requires c in Elements(list)
    ensures k < |list| && list[k] == c
  {
    k :| 0 <= k < |list| && list[k] == c;
  }

  /** Ascending lists of the same components are the same list. */
  lemma {:induction false} OneAscending(list: seq<Component>, others: seq<Component>)
    requires Ascending(list) && Ascending(others) && Elements(list) == Elements(others)
    ensures list == others
  {
    hide Below;
    NoElements(list);
    NoElements(others);
    if list != [] {
      var m, n := |list| - 1, |others| - 1;
      LastIsSame(list, others);
      FrontElements(list);
      FrontElements(others);
      OneAscending(list[..m], others[..n]);
      assert list == list[..m] + [list[m]] && others == others[..n] + [others[n]];
    }
  }

  lemma NoElements(list: seq<Component>)
    ensures list == [] <==> Elements(list) == {}
  {
    assert list != [] ==> list[0] in Elements(list);
  }

  lemma LastIsSame(list: seq<Component>, others: seq<Component>)
    requires Ascending(list) && Ascending(others) && Elements(list) == Elements(others) && list != [] && others != []
    ensures list[|list| - 1] == others[|others| - 1]
  {
    hide Below;
    var c, d := list[|list| - 1], others[|others| - 1];
    assert c in Elements(list) && d in Elements(others);
    var j := PlaceIn(others, c);
    var k := PlaceIn(list, d);
    if c != d {
      assert Below(c.bomRef, d.bomRef) && Below(d.bomRef, c.bomRef);
      BelowIsTotal(c.bomRef, d.bomRef);
    }
  }

  lemma FrontElements(list: seq<Component>)
    requires Ascending(list) && list != []
    ensures Elements(list[..|list| - 1]) == Elements(list) - {list[|list| - 1]}
  {
    hide Below;
    var front, last := list[..|list| - 1], list[|list| - 1];
    assert list == front + [last];
    AscendingIsOneEach(list);
    ElementsSnoc(front, last);
    forall k | 0 <= k < |front|
      ensures front[k] != last
    {
      assert list[k].bomRef != list[|list| - 1].bomRef;
    }
  }

  // ----- the result -----

  ghost function ChildrenOf(cs: seq<Component>): seq<Component>
    requires AllComponents(cs)
  {
    match Merged(AllNested(cs))
    case Some(children) => children
    case None => []
  }

  /** What stands in the result for the components of one bom-ref. */
  ghost function StandIn(cs: seq<Component>): (r: Component)
    requires cs != [] && AllComponents(cs)
    ensures r.Component? && r.bomRef == cs[0].bomRef
  {
    var first := Gathered(cs);
    assert first.Component?;
    first.(components := ChildrenOf(cs))
  }

  ghost predicate Represents(list: seq<Component>, components: seq<Component>) {
    && Ascending(list)
    && (forall k :: 0 <= k < |list| ==>
          && Sharers(components, list[k].bomRef) != []
          && Merged(AllNested(Sharers(components, list[k].bomRef))).Some?
          && list[k] == StandIn(Sharers(components, list[k].bomRef)))
    && (forall ref :: Sharers(components, ref) != [] ==> exists k :: 0 <= k < |list| && list[k].bomRef == ref)
  }

  lemma GatheredNested(cs: seq<Component>)
    requires cs != [] && AllComponents(cs)
    ensures Gathered(cs).components == AllNested(cs)
  {
    hide TopScope, FirstLicenses, AllProperties, AllNested, Gathered;
    GatheredIs(cs);
  }

  /** The result is one stand-in for every bom-ref, in ascending order, and then what has none. */
  lemma MergedRepresents(components: seq<Component>) returns (list: seq<Component>)
    requires Merged(components).Some?
    ensures Represents(list, components) && Merged(components).value == list + KeptAside(components)
  {
    hide StandsFor, Merged, Folded, ChildrenMerged, Sorted, KeptAside, Gathered, AllNested, Below;
    var folded, more := MergedParts(components);
    FoldedGathers(components);
    SortedIs(more);
    list := Sorted(more);
    forall k | 0 <= k < |list|
      ensures var cs := Sharers(components, list[k].bomRef);
              cs != [] && Merged(AllNested(cs)).Some? && list[k] == StandIn(cs)
    {
      assert list[k] in Elements(more);
      var j :| 0 <= j < |more| && more[j] == list[k];
      GatheredNested(Sharers(components, folded[j].bomRef));
    }
    forall ref | Sharers(components, ref) != []
      ensures exists k :: 0 <= k < |list| && list[k].bomRef == ref
    {
      HasSharersIff(components, ref);
      var j :| 0 <= j < |folded| && folded[j].bomRef == ref;
      assert more[j] in Elements(more);
      var k :| 0 <= k < |list| && list[k] == more[j];
    }
  }

  ghost predicate SameRefs(components: seq<Component>, others: seq<Component>) {
    forall ref :: Sharers(components, ref) != [] <==> Sharers(others, ref) != []
  }

  ghost predicate SameStandIns(components: seq<Component>, others: seq<Component>) {
    forall ref :: Sharers(components, ref) != [] ==>
      Sharers(others, ref) != [] && StandIn(Sharers(components, ref)) == StandIn(Sharers(others, ref))
  }

  /** Two lists have the same result if and only if they have the same stand-ins, and the same without a bom-ref. */
  lemma SameResultIff(components: seq<Component>, others: seq<Component>)
    requires Merged(components).Some? && Merged(others).Some? && SameRefs(components, others)
    ensures Merged(components) == Merged(others) <==>
            KeptAside(components) == KeptAside(others) && SameStandIns(components, others)
  {
    hide Merged, KeptAside, SameStandIns, Represents, SameRefs, Ascending;
    var list := MergedRepresents(components);
    var more := MergedRepresents(others);
    IsAscending(list, components);
    IsAscending(more, others);
    if Merged(components) == Merged(others) {
      SplitAlike(list, KeptAside(components), more, KeptAside(others));
      OneListOneLot(list, components, others);
    }
    if SameStandIns(components, others) {
      Backwards(components, others);
      StandInsWithin(list, components, more, others);
      StandInsWithin(more, others, list, components);
      OneAscending(list, more);
    }
  }

  lemma IsAscending(list: seq<Component>, components: seq<Component>)
    requires Represents(list, components)
    ensures Ascending(list)
  {
  }

  lemma OneListOneLot(list: seq<Component>, components: seq<Component>, others: seq<Component>)
    requires Represents(list, components) && Represents(list, others)
    ensures SameStandIns(components, others)
  {
    hide Merged, StandIn, Sharers, Below;
    forall ref | Sharers(components, ref) != []
      ensures Sharers(others, ref) != [] && StandIn(Sharers(components, ref)) == StandIn(Sharers(others, ref))
    {
      var k :| 0 <= k < |list| && list[k].bomRef == ref;
    }
  }

  lemma Backwards(components: seq<Component>, others: seq<Component>)
    requires SameRefs(components, others) && SameStandIns(components, others)
    ensures SameStandIns(others, components)
  {
    hide StandIn, Sharers;
  }

  lemma StandInsWithin(list: seq<Component>, components: seq<Component>, more: seq<Component>, others: seq<Component>)
    requires Represents(list, components) && Represents(more, others) && SameStandIns(components, others)
    ensures Elements(list) <= Elements(more)
  {
    hide StandIn, Sharers, Merged, Below;
    forall c | c in Elements(list)
      ensures c in Elements(more)
    {
      var k :| 0 <= k < |list| && list[k] == c;
      var j :| 0 <= j < |more| && more[j].bomRef == c.bomRef;
      assert more[j] == c;
    }
  }

  /** What has bom-refs and what has none can be told apart. */
  lemma SplitAlike(list: seq<Component>, a: seq<Component>, more: seq<Component>, b: seq<Component>)
    requires Ascending(list) && Ascending(more) && list + a == more + b
    requires (forall k :: 0 <= k < |a| ==> Unreferenced(a[k])) && forall k :: 0 <= k < |b| ==> Unreferenced(b[k])
    ensures list == more && a == b
  {
    hide Below;
    var all := list + a;
    forall k | 0 <= k < |all|
      ensures Referenced(all[k]) <==> k < |list|
      ensures Referenced(all[k]) <==> k < |more|
    {
      assert all[k] == if k < |list| then list[k] else a[k - |list|];
      assert all[k] == if k < |more| then more[k] else b[k - |more|];
    }
    var k := if |list| < |more| then |list| else |more|;
    assert k < |all| ==> (Referenced(all[k]) <==> k < |list|);
    assert all[..|list|] == list && all[..|more|] == more && all[|list|..] == a && all[|more|..] == b;
  }
}
