/** What merging components means (pkg/sbom/image_components.go:290-338): it
    depends on which components there are and on nothing else, and it settles. */
module ComponentLaws {
  import opened Wrappers
  import opened ByteOrder
  import opened Utf8
  import opened Components

  // ----- what some components say, in no order -----

  ghost function Elements(components: seq<Component>): set<Component> {
    set c | c in components
  }

  ghost predicate SharesRef(c: Component, ref: Text) {
    Referenced(c) && c.bomRef == ref
  }

  ghost function Refs(s: set<Component>): set<Text> {
    set c | c in s && Referenced(c) :: c.bomRef
  }

  ghost function Nested(s: set<Component>, ref: Text): set<Component> {
    set c, d | c in s && SharesRef(c, ref) && d in c.components :: d
  }

  ghost function PairsOf(s: set<Component>, ref: Text): set<Property> {
    set c, p | c in s && SharesRef(c, ref) && p in c.properties && p.Property? :: p
  }

  ghost predicate TopRank(s: set<Component>, ref: Text, rank: nat) {
    && (exists c :: c in s && SharesRef(c, ref) && ScopeRank(c.scope) == rank)
    && (forall c :: c in s && SharesRef(c, ref) ==> ScopeRank(c.scope) <= rank)
  }

  ghost predicate Described(s: set<Component>, ref: Text, identity: Identity) {
    forall c :: c in s && SharesRef(c, ref) ==> c.identity == identity
  }

  /** Components that share a bom-ref agree on what they describe. */
  ghost predicate Agree(s: set<Component>) {
    forall c, d :: c in s && d in s && Referenced(c) && SharesRef(d, c.bomRef) ==> c.identity == d.identity
  }

  /** They agree, and so do those nested in them, so many levels down. */
  ghost predicate AgreeTo(s: set<Component>, levels: nat)
    decreases levels
  {
    Agree(s) && (levels > 0 ==> forall ref :: ref in Refs(s) ==> AgreeTo(Nested(s, ref), levels - 1))
  }

  /** Two lots of components say the same, so many levels down. */
  ghost predicate SameTo(s: set<Component>, t: set<Component>, levels: nat)
    decreases levels
  {
    && Refs(s) == Refs(t)
    && (set c | c in s && Unreferenced(c)) == (set c | c in t && Unreferenced(c))
    && (forall ref :: ref in Refs(s) ==>
          && PairsOf(s, ref) == PairsOf(t, ref)
          && (forall rank: nat :: TopRank(s, ref, rank) <==> TopRank(t, ref, rank))
          && (forall identity :: Described(s, ref, identity) <==> Described(t, ref, identity)))
    && (levels > 0 ==> forall ref :: ref in Refs(s) ==> SameTo(Nested(s, ref), Nested(t, ref), levels - 1))
  }

  // ----- the fold -----

  /** A component stands for all that share its bom-ref. */
  ghost predicate StandsFor(c: Component, s: set<Component>) {
    && Referenced(c) && c.bomRef in Refs(s) && TopRank(s, c.bomRef, ScopeRank(c.scope))
    && (set p | p in c.properties && p.Property?) == PairsOf(s, c.bomRef)
    && Elements(c.components) == Nested(s, c.bomRef) && Described(s, c.bomRef, c.identity)
  }

  ghost predicate AllStandFor(list: seq<Component>, s: set<Component>) {
    && (forall k :: 0 <= k < |list| ==> StandsFor(list[k], s))
    && (forall ref :: ref in Refs(s) ==> exists k :: 0 <= k < |list| && list[k].bomRef == ref)
  }

  /** A component with another bom-ref, or none, changes nothing. */
  lemma StandsStill(c: Component, s: set<Component>, d: Component)
    requires StandsFor(c, s) && !SharesRef(d, c.bomRef)
    ensures StandsFor(c, s + {d})
  {
    var t, ref := s + {d}, c.bomRef;
    assert Nested(t, ref) == Nested(s, ref);
    assert PairsOf(t, ref) == PairsOf(s, ref);
    assert TopRank(t, ref, ScopeRank(c.scope));
    assert ref in Refs(t) by {
      var e :| e in s && Referenced(e) && e.bomRef == ref;
      assert e in t;
    }
  }

  lemma StandsAlone(s: set<Component>, d: Component)
    requires Referenced(d) && d.bomRef !in Refs(s)
    ensures StandsFor(d, s + {d})
  {
    var t, ref := s + {d}, d.bomRef;
    assert forall c :: c in s ==> !SharesRef(c, ref);
    assert d in t;
    assert Nested(t, ref) == Elements(d.components);
    assert PairsOf(t, ref) == (set p | p in d.properties && p.Property?);
    assert TopRank(t, ref, ScopeRank(d.scope));
  }

  lemma StandsCombined(c: Component, s: set<Component>, d: Component)
    requires StandsFor(c, s) && SharesRef(d, c.bomRef) && d.identity == c.identity
    ensures StandsFor(Combined(c, d), s + {d})
  {
    var t, ref, e := s + {d}, c.bomRef, Combined(c, d);
    assert d in t && ref in Refs(t);
    assert Nested(t, ref) == Nested(s, ref) + Elements(d.components);
    assert Elements(e.components) == Elements(c.components) + Elements(d.components);
    CombinedPairs(c, s, d);
    CombinedRank(c, s, d);
  }

  lemma CombinedPairs(c: Component, s: set<Component>, d: Component)
    requires StandsFor(c, s) && SharesRef(d, c.bomRef)
    ensures (set p | p in Combined(c, d).properties && p.Property?) == PairsOf(s + {d}, c.bomRef)
  {
    var t, ref := s + {d}, c.bomRef;
    var mine := set p | p in d.properties && p.Property?;
    assert PairsOf(t, ref) == PairsOf(s, ref) + mine;
    var all := c.properties + d.properties;
    assert forall p :: p in all <==> p in c.properties || p in d.properties;
    assert (set p | p in DistinctProperties(all) && p.Property?) == (set p | p in c.properties && p.Property?) + mine;
  }

  lemma CombinedRank(c: Component, s: set<Component>, d: Component)
    requires StandsFor(c, s) && SharesRef(d, c.bomRef)
    ensures TopRank(s + {d}, c.bomRef, ScopeRank(Combined(c, d).scope))
  {
    var e :| e in s && SharesRef(e, c.bomRef) && ScopeRank(e.scope) == ScopeRank(c.scope);
    var t := s + {d};
    assert e in t && d in t;
  }

  lemma RefsGrow(s: set<Component>, d: Component)
    ensures Refs(s + {d}) == Refs(s) + (if Referenced(d) then {d.bomRef} else {})
  {
    var t := s + {d};
    forall ref | ref in Refs(s)
      ensures ref in Refs(t)
    {
      var e :| e in s && Referenced(e) && e.bomRef == ref;
      assert e in t;
    }
    if Referenced(d) {
      assert d in t;
    }
  }

  /** Folding fails exactly when two components disagree, and otherwise each of its components stands for all of its
      kind. */
  lemma {:induction false} FoldedIs(components: seq<Component>)
    ensures Folded(components).Some? <==> Agree(Elements(components))
    ensures Folded(components).Some? ==> AllStandFor(Folded(components).value, Elements(components))
  {
    hide StandsFor, Combined, TopRank, PairsOf, Nested, Described;
    if components == [] {
      assert Elements(components) == {} && Refs({}) == {};
    } else {
      var front, d := components[..|components| - 1], components[|components| - 1];
      assert components == front + [d];
      var s := Elements(front);
      assert Elements(components) == s + {d};
      FoldedIs(front);
      RefsGrow(s, d);
      if Folded(front).None? {
        Disagree(s, s + {d});
      } else {
        AfterOne(Folded(front).value, s, d);
      }
    }
  }

  lemma Disagree(s: set<Component>, t: set<Component>)
    requires !Agree(s) && s <= t
    ensures !Agree(t)
  {
    var c, d :| c in s && d in s && Referenced(c) && SharesRef(d, c.bomRef) && c.identity != d.identity;
    assert c in t && d in t;
  }

  /** What one more component does to the list. */
  lemma AfterOne(list: seq<Component>, s: set<Component>, d: Component)
    requires OneEach(list) && AllStandFor(list, s) && Agree(s) &&
             Refs(s + {d}) == Refs(s) + (if Referenced(d) then {d.bomRef} else {})
    ensures !Referenced(d) ==> Agree(s + {d}) && AllStandFor(list, s + {d})
    ensures Referenced(d) ==> var i := PlaceOf(list, d.bomRef);
            if i == |list| then Agree(s + {d}) && AllStandFor(list + [d], s + {d})
            else if list[i].identity != d.identity then !Agree(s + {d})
            else Agree(s + {d}) && AllStandFor(list[i := Combined(list[i], d)], s + {d})
  {
    hide StandsFor, Combined, Agree;
    if !Referenced(d) {
      SkipOne(list, s, d);
    } else {
      var i := PlaceOf(list, d.bomRef);
      if i == |list| {
        AddOne(list, s, d);
      } else if list[i].identity != d.identity {
        ConflictOne(list[i], s, d);
      } else {
        CombineOne(list, s, d, i);
      }
    }
  }

  lemma SkipOne(list: seq<Component>, s: set<Component>, d: Component)
    requires OneEach(list) && AllStandFor(list, s) && Agree(s) && !Referenced(d) && Refs(s + {d}) == Refs(s)
    ensures Agree(s + {d}) && AllStandFor(list, s + {d})
  {
    hide StandsFor;
    forall k | 0 <= k < |list|
      ensures StandsFor(list[k], s + {d})
    {
      StandsStill(list[k], s, d);
    }
  }

  lemma AddOne(list: seq<Component>, s: set<Component>, d: Component)
    requires OneEach(list) && AllStandFor(list, s) && Agree(s) && Referenced(d) && Refs(s + {d}) == Refs(s) + {d.bomRef}
    requires forall k :: 0 <= k < |list| ==> list[k].bomRef != d.bomRef
    ensures Agree(s + {d}) && AllStandFor(list + [d], s + {d})
  {
    hide StandsFor;
    assert d.bomRef !in Refs(s);
    var more := list + [d];
    forall k | 0 <= k < |more|
      ensures StandsFor(more[k], s + {d})
    {
      if k < |list| {
        StandsStill(list[k], s, d);
      } else {
        StandsAlone(s, d);
      }
    }
    forall ref | ref in Refs(s + {d})
      ensures exists k :: 0 <= k < |more| && more[k].bomRef == ref
    {
      if ref in Refs(s) {
        var k :| 0 <= k < |list| && list[k].bomRef == ref;
        assert more[k].bomRef == ref;
      } else {
        assert more[|list|].bomRef == ref;
      }
    }
    AgreeWithNew(s, d);
  }

  lemma AgreeWithNew(s: set<Component>, d: Component)
    requires Agree(s) && Referenced(d) && d.bomRef !in Refs(s)
    ensures Agree(s + {d})
  {
    assert forall c :: c in s ==> !SharesRef(c, d.bomRef);
  }

  lemma ConflictOne(c: Component, s: set<Component>, d: Component)
    requires StandsFor(c, s) && SharesRef(d, c.bomRef) && c.identity != d.identity
    ensures !Agree(s + {d})
  {
    var e :| e in s && Referenced(e) && e.bomRef == c.bomRef;
    assert e in s + {d} && d in s + {d} && SharesRef(e, c.bomRef);
  }

  lemma AgreeWithSame(c: Component, s: set<Component>, d: Component)
    requires Agree(s) && StandsFor(c, s) && SharesRef(d, c.bomRef) && d.identity == c.identity
    ensures Agree(s + {d})
  {
    assert Described(s, d.bomRef, d.identity);
  }

  lemma CombineOne(list: seq<Component>, s: set<Component>, d: Component, i: nat)
    requires Referenced(d) && OneEach(list) && AllStandFor(list, s) && Agree(s) && Refs(s + {d}) == Refs(s) + {d.bomRef}
    requires i < |list| && SharesRef(d, list[i].bomRef) && d.identity == list[i].identity
    ensures Agree(s + {d}) && AllStandFor(list[i := Combined(list[i], d)], s + {d})
  {
    hide StandsFor, Agree, Refs, Combined;
    var more := list[i := Combined(list[i], d)];
    assert StandsFor(list[i], s);
    AgreeWithSame(list[i], s, d);
    CombinedRef(list[i], d);
    forall k | 0 <= k < |more|
      ensures StandsFor(more[k], s + {d})
    {
      if k == i {
        StandsCombined(list[i], s, d);
      } else {
        StandsStill(list[k], s, d);
      }
    }
    forall ref | ref in Refs(s + {d})
      ensures exists k :: 0 <= k < |more| && more[k].bomRef == ref
    {
      RefHasPlace(list, i, more[i], if ref in Refs(s) then ref else d.bomRef, more);
    }
  }

  lemma CombinedRef(c: Component, d: Component)
    requires Referenced(c) && Referenced(d)
    ensures Combined(c, d).Component? && Combined(c, d).bomRef == c.bomRef
  {
  }

  lemma RefHasPlace(list: seq<Component>, i: nat, c: Component, ref: Text, more: seq<Component>)
    requires i < |list| && more == list[i := c] && (forall k :: 0 <= k < |list| ==> list[k].Component?) &&
             c.Component? && c.bomRef == list[i].bomRef
    requires exists k :: 0 <= k < |list| && list[k].bomRef == ref
    ensures exists k :: 0 <= k < |more| && more[k].bomRef == ref
  {
    var k :| 0 <= k < |list| && list[k].bomRef == ref;
    assert more[k].bomRef == ref;
  }

  // ----- when merging succeeds -----

  lemma {:induction false} ChildrenMergedIs(list: seq<Component>)
    requires OneEach(list)
    ensures ChildrenMerged(list).None? <==> exists k :: 0 <= k < |list| && Merged(list[k].components).None?
    ensures var r := ChildrenMerged(list);
            r.Some? ==> forall k :: 0 <= k < |list| ==>
              Merged(list[k].components).Some? && r.value[k] == list[k].(components := Merged(list[k].components).value)
  {
    hide Merged;
    NothingMerged();
    if list != [] {
      var last := |list| - 1;
      var front, c := list[..last], list[last];
      ChildrenMergedIs(front);
      assert forall k :: 0 <= k < last ==> front[k] == list[k];
      assert |c.components| == 0 ==> c.components == [];
      if ChildrenMerged(front).None? {
        var k :| 0 <= k < last && Merged(front[k].components).None?;
        assert Merged(list[k].components).None?;
      } else if Merged(c.components).None? {
        assert Merged(list[last].components).None?;
      }
    }
  }

  lemma NothingMerged()
    ensures Merged([]) == Some([])
  {
    assert Folded([]) == Some([]) && ChildrenMerged([]) == Some([]) && Sorted([]) == [] && KeptAside([]) == [];
    var nothing: seq<Component> := [];
    assert nothing + nothing == nothing;
  }

  lemma {:induction false} AgreeFewer(s: set<Component>, levels: nat, fewer: nat)
    requires AgreeTo(s, levels) && fewer <= levels
    ensures AgreeTo(s, fewer)
    decreases levels
  {
    hide Nested, Agree, Refs;
    if fewer > 0 {
      forall ref | ref in Refs(s)
        ensures AgreeTo(Nested(s, ref), fewer - 1)
      {
        AgreeFewer(Nested(s, ref), levels - 1, fewer - 1);
      }
    }
  }

  lemma NestedSmaller(components: seq<Component>, k: nat)
    requires Folded(components).Some? && k < |Folded(components).value|
    ensures TotalSize(Folded(components).value[k].components) < TotalSize(components)
  {
    FoldedSize(components);
    SizeWithin(Folded(components).value, k);
  }

  /** Merging succeeds exactly when components that share a bom-ref agree, at every level. */
  lemma {:induction false} MergedIff(components: seq<Component>)
    ensures Merged(components).Some? <==> forall levels: nat :: AgreeTo(Elements(components), levels)
    ensures Merged(components).None? ==> !AgreeTo(Elements(components), TotalSize(components))
    decreases TotalSize(components)
  {
    var s := Elements(components);
    FoldedIs(components);
    if Folded(components).Some? {
      var list := Folded(components).value;
      ChildrenMergedIs(list);
      hide StandsFor, Folded, ChildrenMerged, Agree, TotalSize, AgreeTo;
      if k :| 0 <= k < |list| && Merged(list[k].components).None? {
        NestedSmaller(components, k);
        MergedIff(list[k].components);
        DisagreeBelow(list[k], s, TotalSize(list[k].components), TotalSize(components));
      } else {
        forall levels: nat
          ensures AgreeTo(s, levels)
        {
          AllAgree(components, list, levels);
        }
      }
    } else {
      assert !AgreeTo(s, 0);
    }
  }

  lemma DisagreeBelow(c: Component, s: set<Component>, levels: nat, more: nat)
    requires StandsFor(c, s) && !AgreeTo(Elements(c.components), levels) && levels < more
    ensures !AgreeTo(s, more)
  {
    hide Nested, Agree;
    if AgreeTo(s, more) {
      assert AgreeTo(Nested(s, c.bomRef), more - 1);
      AgreeFewer(Nested(s, c.bomRef), more - 1, levels);
    }
  }

  lemma {:induction false} AllAgree(components: seq<Component>, list: seq<Component>, levels: nat)
    requires Folded(components) == Some(list) && AllStandFor(list, Elements(components)) && Agree(Elements(components))
    requires forall k :: 0 <= k < |list| ==> Merged(list[k].components).Some?
    ensures AgreeTo(Elements(components), levels)
    decreases TotalSize(components), 0
  {
    var s := Elements(components);
    hide Folded, Merged, Agree, TotalSize, StandsFor;
    if levels > 0 {
      forall ref | ref in Refs(s)
        ensures AgreeTo(Nested(s, ref), levels - 1)
      {
        var k :| 0 <= k < |list| && list[k].bomRef == ref;
        NestedSmaller(components, k);
        MergedIff(list[k].components);
        NestedIs(list[k], s);
        assert AgreeTo(Elements(list[k].components), levels - 1);
      }
    }
  }

  lemma NestedIs(c: Component, s: set<Component>)
    requires StandsFor(c, s)
    ensures Elements(c.components) == Nested(s, c.bomRef)
  {
  }

  // ----- the order -----

  ghost predicate Ascending(list: seq<Component>) {
    && (forall k :: 0 <= k < |list| ==> Referenced(list[k]))
    && (forall j, k :: 0 <= j < k < |list| ==> Below(list[j].bomRef, list[k].bomRef))
  }

  lemma {:induction false} InsertedIs(list: seq<Component>, c: Component)
    requires Ascending(list) && Referenced(c) && forall k :: 0 <= k < |list| ==> list[k].bomRef != c.bomRef
    ensures Ascending(Inserted(list, c)) && Elements(Inserted(list, c)) == Elements(list) + {c}
  {
    hide Below;
    if list == [] {
      assert list + [c] == [c];
    } else {
      var front, last := list[..|list| - 1], list[|list| - 1];
      assert list == front + [last];
      BelowIsTotal(c.bomRef, last.bomRef);
      if Below(c.bomRef, last.bomRef) {
        InsertedIs(front, c);
        LastIsAbove(Inserted(front, c), Elements(front) + {c}, last);
        assert Elements(list) == Elements(front) + {last};
      } else {
        forall k | 0 <= k < |list|
          ensures Below(list[k].bomRef, c.bomRef)
        {
          if k < |front| {
            BelowIsTransitive(list[k].bomRef, last.bomRef, c.bomRef);
          }
        }
        LastIsAbove(list, Elements(list), c);
      }
    }
  }

  lemma LastIsAbove(list: seq<Component>, s: set<Component>, c: Component)
    requires Ascending(list) && Referenced(c) && Elements(list) == s
    requires forall d :: d in s ==> Referenced(d) && Below(d.bomRef, c.bomRef)
    ensures Ascending(list + [c]) && Elements(list + [c]) == s + {c}
  {
    hide Below;
    assert forall k :: 0 <= k < |list| ==> list[k] in s;
  }

  lemma {:induction false} SortedIs(list: seq<Component>)
    requires OneEach(list)
    ensures Ascending(Sorted(list)) && Elements(Sorted(list)) == Elements(list)
  {
    hide Below;
    if list != [] {
      var front, last := list[..|list| - 1], list[|list| - 1];
      assert list == front + [last];
      SortedIs(front);
      var sorted := Sorted(front);
      forall k | 0 <= k < |sorted|
        ensures sorted[k].bomRef != last.bomRef
      {
        assert sorted[k] in Elements(front);
        var j :| 0 <= j < |front| && front[j] == sorted[k];
      }
      InsertedIs(sorted, last);
      assert Elements(list) == Elements(front) + {last};
    }
  }

  lemma AscendingIsOneEach(list: seq<Component>)
    requires Ascending(list)
    ensures OneEach(list)
  {
    hide Below;
    forall j, k | 0 <= j < k < |list|
      ensures list[j].bomRef != list[k].bomRef
    {
      BelowIsTotal(list[j].bomRef, list[k].bomRef);
    }
  }

  lemma {:induction false} SortedAlready(list: seq<Component>)
    requires Ascending(list)
    ensures Sorted(list) == list
  {
    hide Below;
    if list != [] {
      var front, last := list[..|list| - 1], list[|list| - 1];
      SortedAlready(front);
      if front != [] {
        BelowIsTotal(front[|front| - 1].bomRef, last.bomRef);
      }
    }
  }

  // ----- what the result is -----

  lemma ElementsSnoc(components: seq<Component>, c: Component)
    ensures Elements(components + [c]) == Elements(components) + {c}
  {
  }

  lemma {:induction false} KeptAsideIs(components: seq<Component>)
    ensures Elements(KeptAside(components)) == (set c | c in Elements(components) && Unreferenced(c))
  {
    if components != [] {
      var front, c := components[..|components| - 1], components[|components| - 1];
      assert components == front + [c];
      KeptAsideIs(front);
      ElementsSnoc(front, c);
      ElementsSnoc(KeptAside(front), c);
    }
  }

  /** Components of which no two share a bom-ref stand for themselves, whatever is kept aside. */
  lemma StandForThemselves(list: seq<Component>, aside: seq<Component>)
    requires OneEach(list) && forall k :: 0 <= k < |aside| ==> Unreferenced(aside[k])
    ensures AllStandFor(list, Elements(list + aside))
  {
    var s := Elements(list + aside);
    forall k | 0 <= k < |list|
      ensures StandsFor(list[k], s)
    {
      var c := list[k];
      assert (list + aside)[k] == c;
      assert forall d :: d in s && SharesRef(d, c.bomRef) ==> d == c;
      assert Nested(s, c.bomRef) == Elements(c.components);
      assert PairsOf(s, c.bomRef) == (set p | p in c.properties && p.Property?);
    }
    forall ref | ref in Refs(s)
      ensures exists k :: 0 <= k < |list| && list[k].bomRef == ref
    {
      var d :| d in s && Referenced(d) && d.bomRef == ref;
      var k :| 0 <= k < |list + aside| && (list + aside)[k] == d;
      assert list[k].bomRef == ref;
    }
  }

  /** Two lots say the same about a bom-ref when what stands for it says the same. */
  lemma SameRef(c: Component, s: set<Component>, d: Component, t: set<Component>)
    requires StandsFor(c, s) && StandsFor(d, t) && d == c.(components := d.components)
    ensures PairsOf(s, c.bomRef) == PairsOf(t, c.bomRef)
    ensures forall rank: nat :: TopRank(s, c.bomRef, rank) <==> TopRank(t, c.bomRef, rank)
    ensures forall identity :: Described(s, c.bomRef, identity) <==> Described(t, c.bomRef, identity)
  {
    var e :| e in s && SharesRef(e, c.bomRef);
    var f :| f in t && SharesRef(f, c.bomRef);
  }

  lemma RefsOfList(list: seq<Component>, s: set<Component>, more: seq<Component>, t: set<Component>)
    requires AllStandFor(list, s) && AllStandFor(more, t) && |list| == |more|
    requires forall k :: 0 <= k < |list| ==>
               list[k].Component? && more[k].Component? && list[k].bomRef == more[k].bomRef
    ensures Refs(s) == Refs(t)
  {
    hide StandsFor;
    forall ref | ref in Refs(s)
      ensures ref in Refs(t)
    {
      var k :| 0 <= k < |list| && list[k].bomRef == ref;
      RefStands(more[k], t);
    }
    forall ref | ref in Refs(t)
      ensures ref in Refs(s)
    {
      var k :| 0 <= k < |more| && more[k].bomRef == ref;
      RefStands(list[k], s);
    }
  }

  lemma RefStands(c: Component, s: set<Component>)
    requires StandsFor(c, s)
    ensures c.bomRef in Refs(s)
  {
  }

  /** The result of merging, its parts apart. */
  lemma MergedParts(components: seq<Component>) returns (list: seq<Component>, more: seq<Component>)
    requires Merged(components).Some?
    ensures Folded(components) == Some(list) && |more| == |list| && OneEach(list) && OneEach(more)
    ensures AllStandFor(list, Elements(components))
    ensures forall k :: 0 <= k < |list| ==>
              Merged(list[k].components).Some? && more[k] == list[k].(components := Merged(list[k].components).value)
    ensures Merged(components) == Some(Sorted(more) + KeptAside(components))
  {
    FoldedIs(components);
    list := Folded(components).value;
    more := ChildrenMerged(list).value;
    ChildrenMergedIs(list);
  }

  /** The result says what the components say, at every level. */
  lemma {:induction false} MergedSaysTheSame(components: seq<Component>, levels: nat)
    requires Merged(components).Some?
    ensures SameTo(Elements(Merged(components).value), Elements(components), levels)
    decreases levels
  {
    hide StandsFor, Merged, Folded, ChildrenMerged, Sorted, KeptAside, Nested, TopRank, PairsOf, Described;
    var list, more := MergedParts(components);
    var s, aside := Elements(components), KeptAside(components);
    var t := Elements(Merged(components).value);
    SortedIs(more);
    KeptAsideIs(components);
    StandForThemselves(more, aside);
    SameElements(Sorted(more), more, aside);
    RefsOfList(list, s, more, t);
    AsideSame(more, aside, t, s);
    forall ref | ref in Refs(t)
      ensures PairsOf(t, ref) == PairsOf(s, ref)
      ensures forall rank: nat :: TopRank(t, ref, rank) <==> TopRank(s, ref, rank)
      ensures forall identity :: Described(t, ref, identity) <==> Described(s, ref, identity)
      ensures levels > 0 ==> SameTo(Nested(t, ref), Nested(s, ref), levels - 1)
    {
      var k :| 0 <= k < |list| && list[k].bomRef == ref;
      SameRef(list[k], s, more[k], t);
      NestedIs(list[k], s);
      NestedIs(more[k], t);
      if levels > 0 {
        MergedSaysTheSame(list[k].components, levels - 1);
      }
    }
  }

  lemma SameElements(a: seq<Component>, b: seq<Component>, aside: seq<Component>)
    requires Elements(a) == Elements(b)
    ensures Elements(a + aside) == Elements(b + aside) == Elements(b) + Elements(aside)
  {
    assert Elements(a + aside) == Elements(a) + Elements(aside);
    assert Elements(b + aside) == Elements(b) + Elements(aside);
  }

  lemma AsideSame(list: seq<Component>, aside: seq<Component>, t: set<Component>, s: set<Component>)
    requires OneEach(list) && t == Elements(list) + Elements(aside)
    requires Elements(aside) == (set c | c in s && Unreferenced(c))
    ensures (set c | c in t && Unreferenced(c)) == (set c | c in s && Unreferenced(c))
  {
    assert forall c :: c in Elements(list) ==> Referenced(c);
    assert forall c :: c in Elements(aside) ==> Unreferenced(c);
  }

  lemma AscendingPrecedes(list: seq<Component>)
    requires Ascending(list)
    ensures forall j, k :: 0 <= j < k < |list| ==> Precedes(list[j].bomRef, list[k].bomRef)
  {
    hide Below, Precedes;
    forall j, k | 0 <= j < k < |list|
      ensures Precedes(list[j].bomRef, list[k].bomRef)
    {
      BelowIff(list[j].bomRef, list[k].bomRef);
    }
  }

  /** The result has one component for every bom-ref, in strictly ascending order, and then those without one. */
  lemma MergedIsOrdered(components: seq<Component>)
    requires Merged(components).Some?
    ensures exists list: seq<Component> ::
              && Ascending(list) && Refs(Elements(list)) == Refs(Elements(components))
              && (forall j, k :: 0 <= j < k < |list| ==> Precedes(list[j].bomRef, list[k].bomRef))
              && Merged(components).value == list + KeptAside(components)
  {
    hide StandsFor, Merged, Folded, ChildrenMerged, Sorted, KeptAside;
    var list, more := MergedParts(components);
    SortedIs(more);
    StandForThemselves(more, []);
    assert more + [] == more;
    RefsOfList(list, Elements(components), more, Elements(more));
    AscendingPrecedes(Sorted(more));
    assert Ascending(Sorted(more));
  }

  // ----- the order of the input does not matter -----

  lemma {:induction false} SameToSwap(s: set<Component>, t: set<Component>, levels: nat)
    requires SameTo(s, t, levels)
    ensures SameTo(t, s, levels)
    decreases levels
  {
    hide Nested, PairsOf, TopRank, Described;
    if levels > 0 {
      forall ref | ref in Refs(t)
        ensures SameTo(Nested(t, ref), Nested(s, ref), levels - 1)
      {
        SameToSwap(Nested(s, ref), Nested(t, ref), levels - 1);
      }
    }
  }

  lemma {:induction false} SameToChain(s: set<Component>, t: set<Component>, u: set<Component>, levels: nat)
    requires SameTo(s, t, levels) && SameTo(t, u, levels)
    ensures SameTo(s, u, levels)
    decreases levels
  {
    hide Nested, PairsOf, TopRank, Described;
    if levels > 0 {
      forall ref | ref in Refs(s)
        ensures SameTo(Nested(s, ref), Nested(u, ref), levels - 1)
      {
        SameToChain(Nested(s, ref), Nested(t, ref), Nested(u, ref), levels - 1);
      }
    }
  }

  /** Acceptance, scopes, properties and identities depend on which components
      there are, not on their order or how often they come. */
  lemma OrderDoesNotMatter(components: seq<Component>, others: seq<Component>, levels: nat)
    requires Elements(components) == Elements(others)
    ensures Merged(components).Some? <==> Merged(others).Some?
    ensures Merged(components).Some? ==>
              SameTo(Elements(Merged(components).value), Elements(Merged(others).value), levels)
  {
    hide Merged, AgreeTo, SameTo, Elements;
    MergedIff(components);
    MergedIff(others);
    if Merged(components).Some? {
      MergedSaysTheSame(components, levels);
      MergedSaysTheSame(others, levels);
      SameToSwap(Elements(Merged(others).value), Elements(others), levels);
      SameToChain(Elements(Merged(components).value), Elements(components), Elements(Merged(others).value), levels);
    }
  }

  // ----- merging again changes nothing -----

  lemma {:induction false} FoldedOneEach(list: seq<Component>)
    requires OneEach(list)
    ensures Folded(list) == Some(list) && KeptAside(list) == []
  {
    if list != [] {
      var front, c := list[..|list| - 1], list[|list| - 1];
      assert list == front + [c];
      FoldedOneEach(front);
      assert PlaceOf(front, c.bomRef) == |front|;
    }
  }

  lemma {:induction false} FoldedAlready(list: seq<Component>, aside: seq<Component>)
    requires OneEach(list) && forall k :: 0 <= k < |aside| ==> Unreferenced(aside[k])
    ensures Folded(list + aside) == Some(list) && KeptAside(list + aside) == aside
    decreases |aside|
  {
    if aside == [] {
      assert list + aside == list;
      FoldedOneEach(list);
    } else {
      hide OneEach;
      var all := list + aside;
      assert all[..|all| - 1] == list + aside[..|aside| - 1] && all[|all| - 1] == aside[|aside| - 1];
      FoldedAlready(list, aside[..|aside| - 1]);
    }
  }

  lemma {:induction false} ChildrenAlready(list: seq<Component>)
    requires OneEach(list) && forall k :: 0 <= k < |list| ==> Merged(list[k].components) == Some(list[k].components)
    ensures ChildrenMerged(list) == Some(list)
  {
    hide Merged, ChildrenMerged;
    ChildrenMergedIs(list);
    assert ChildrenMerged(list).Some?;
    var r := ChildrenMerged(list).value;
    assert r == list;
  }

  /** Merging what merging returned returns it again. */
  lemma {:induction false} MergingSettles(components: seq<Component>)
    requires Merged(components).Some?
    ensures Merged(Merged(components).value) == Merged(components)
    decreases TotalSize(components)
  {
    hide StandsFor, Folded, ChildrenMerged, Sorted, KeptAside, AllStandFor, TotalSize;
    var list, more := MergedParts(components);
    var sorted, aside := Sorted(more), KeptAside(components);
    SortedIs(more);
    AscendingIsOneEach(sorted);
    FoldedAlready(sorted, aside);
    forall k | 0 <= k < |sorted|
      ensures Merged(sorted[k].components) == Some(sorted[k].components)
    {
      assert sorted[k] in Elements(more);
      var j :| 0 <= j < |more| && more[j] == sorted[k];
      NestedSmaller(components, j);
      MergingSettles(list[j].components);
    }
    ChildrenAlready(sorted);
    SortedAlready(sorted);
  }
}
