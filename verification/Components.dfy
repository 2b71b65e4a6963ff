/** Merging the components of a bill of materials
    (pkg/sbom/image_components.go:277-361). */
module Components {
  import opened Wrappers
  import opened ByteOrder
  import opened Utf8

  type Text = Bytes

  datatype Scope = Required | Optional | Excluded | Unknown(name: Text)

  datatype Property = NoProperty | Property(name: Text, value: Text)

  /** What components that share a bom-ref must agree on. */
  datatype Identity = Identity(kind: Text, name: Text, version: Text, purl: Text)

  datatype Component =
    | NoComponent
    | Component(bomRef: Text, identity: Identity, scope: Scope, properties: seq<Property>, licenses: seq<Text>,
                components: seq<Component>)

  function ScopeRank(scope: Scope): nat {
    match scope
    case Required => 3
    case Optional => 2
    case Excluded => 1
    case Unknown(_) => 0
  }

  predicate Referenced(c: Component) {
    c.Component? && c.bomRef != []
  }

  predicate Unreferenced(c: Component) {
    c.Component? && c.bomRef == []
  }

  // ----- combining two components -----

  /** The properties, each pair once, in the order they come. */
  function DistinctProperties(properties: seq<Property>): (r: seq<Property>)
    ensures forall p :: p in r <==> p in properties && p.Property?
  {
    if properties == [] then []
    else
      var front, p := DistinctProperties(properties[..|properties| - 1]), properties[|properties| - 1];
      assert properties == properties[..|properties| - 1] + [p];
      if p.NoProperty? || p in front then front else front + [p]
  }

  function MergedLicenses(a: seq<Text>, b: seq<Text>): seq<Text> {
    if |a| != 0 then a else b
  }

  /** The first component with what the second adds to it. */
  function Combined(a: Component, b: Component): Component
    requires a.Component? && b.Component?
  {
    a.(scope := if ScopeRank(b.scope) > ScopeRank(a.scope) then b.scope else a.scope,
       properties := DistinctProperties(a.properties + b.properties),
       licenses := MergedLicenses(a.licenses, b.licenses),
       components := a.components + b.components)
  }

  // ----- merging a list -----

  /** The place of a bom-ref, or the length of the list. */
  function PlaceOf(list: seq<Component>, ref: Text): (i: nat)
    requires forall k :: 0 <= k < |list| ==> list[k].Component?
    ensures i <= |list| && (i < |list| ==> list[i].bomRef == ref)
    ensures forall k :: 0 <= k < i ==> list[k].bomRef != ref
  {
    if list == [] then 0
    else
      var i := PlaceOf(list[..|list| - 1], ref);
      if i < |list| - 1 || list[|list| - 1].bomRef == ref then i else |list|
  }

  ghost predicate OneEach(list: seq<Component>) {
    && (forall k :: 0 <= k < |list| ==> Referenced(list[k]))
    && (forall j, k :: 0 <= j < k < |list| ==> list[j].bomRef != list[k].bomRef)
  }

  /** One component for every bom-ref, in the order they come, unless two disagree. */
  function Folded(components: seq<Component>): (r: Option<seq<Component>>)
    ensures r.Some? ==> OneEach(r.value)
  {
    if components == [] then Some([])
    else
      var front, c := Folded(components[..|components| - 1]), components[|components| - 1];
      if front.None? || !Referenced(c) then front
      else
        var i := PlaceOf(front.value, c.bomRef);
        if i == |front.value| then Some(front.value + [c])
        else if front.value[i].identity != c.identity then None
        else Some(front.value[i := Combined(front.value[i], c)])
  }

  function KeptAside(components: seq<Component>): (r: seq<Component>)
    ensures forall k :: 0 <= k < |r| ==> Unreferenced(r[k])
  {
    if components == [] then []
    else
      var front, c := KeptAside(components[..|components| - 1]), components[|components| - 1];
      if Unreferenced(c) then front + [c] else front
  }

  // ----- how large -----

  function Size(c: Component): nat {
    if c.NoComponent? then 1 else 1 + TotalSize(c.components)
  }

  function TotalSize(components: seq<Component>): nat {
    if components == [] then 0 else TotalSize(components[..|components| - 1]) + Size(components[|components| - 1])
  }

  lemma {:induction false} TotalSizeAppend(a: seq<Component>, b: seq<Component>)
    ensures TotalSize(a + b) == TotalSize(a) + TotalSize(b)
  {
    hide Size;
    if b == [] {
      assert a + b == a;
    } else {
      assert (a + b)[..|a + b| - 1] == a + b[..|b| - 1];
      TotalSizeAppend(a, b[..|b| - 1]);
    }
  }

  lemma {:induction false} SizeWithin(components: seq<Component>, i: nat)
    requires i < |components|
    ensures Size(components[i]) <= TotalSize(components)
  {
    hide Size;
    if i < |components| - 1 {
      SizeWithin(components[..|components| - 1], i);
    }
  }

  lemma {:induction false} SizeUpdate(list: seq<Component>, i: nat, c: Component)
    requires i < |list|
    ensures TotalSize(list[i := c]) + Size(list[i]) == TotalSize(list) + Size(c)
  {
    hide Size;
    var last := |list| - 1;
    if i == last {
      assert list[i := c][..last] == list[..last];
    } else {
      assert list[i := c][..last] == list[..last][i := c];
      SizeUpdate(list[..last], i, c);
    }
  }

  lemma {:induction false} FoldedSize(components: seq<Component>)
    requires Folded(components).Some?
    ensures TotalSize(Folded(components).value) <= TotalSize(components)
  {
    hide Size;
    if components != [] {
      var front, c := components[..|components| - 1], components[|components| - 1];
      FoldedSize(front);
      if Referenced(c) {
        var list := Folded(front).value;
        var i := PlaceOf(list, c.bomRef);
        if i == |list| {
          assert (list + [c])[..i] == list;
        } else {
          SizeUpdate(list, i, Combined(list[i], c));
          CombinedSize(list[i], c);
        }
      }
    }
  }

  lemma CombinedSize(a: Component, b: Component)
    requires a.Component? && b.Component?
    ensures Size(Combined(a, b)) <= Size(a) + Size(b)
  {
    TotalSizeAppend(a.components, b.components);
  }

  // ----- the result -----

  /** A list with its nested components merged. */
  function ChildrenMerged(list: seq<Component>): (r: Option<seq<Component>>)
    requires OneEach(list)
    ensures r.Some? ==> |r.value| == |list| && forall k :: 0 <= k < |list| ==>
              r.value[k].Component? && r.value[k].bomRef == list[k].bomRef
    decreases TotalSize(list), 0
  {
    if list == [] then Some([])
    else
      var front, c := list[..|list| - 1], list[|list| - 1];
      assert TotalSize(list) == TotalSize(front) + Size(c) && Size(c) == 1 + TotalSize(c.components);
      var before := ChildrenMerged(front);
      if before.None? then None
      else
        var children := if |c.components| != 0 then Merged(c.components) else Some([]);
        if children.None? then None else Some(before.value + [c.(components := children.value)])
  }

  /** A component in its place among others in ascending order. */
  function Inserted(list: seq<Component>, c: Component): (r: seq<Component>)
    requires c.Component? && forall k :: 0 <= k < |list| ==> list[k].Component?
    ensures |r| == |list| + 1 && forall k :: 0 <= k < |r| ==> r[k].Component?
  {
    if list == [] || !Below(c.bomRef, list[|list| - 1].bomRef) then list + [c]
    else Inserted(list[..|list| - 1], c) + [list[|list| - 1]]
  }

  function Sorted(list: seq<Component>): (r: seq<Component>)
    requires forall k :: 0 <= k < |list| ==> list[k].Component?
    ensures |r| == |list| && forall k :: 0 <= k < |r| ==> r[k].Component?
  {
    if list == [] then [] else Inserted(Sorted(list[..|list| - 1]), list[|list| - 1])
  }

  /** No component has a lower bom-ref than one before it. */
  ghost predicate Ascends(list: seq<Component>)
    requires forall k :: 0 <= k < |list| ==> list[k].Component?
  {
    forall j, k :: 0 <= j < k < |list| ==> !Below(list[k].bomRef, list[j].bomRef)
  }

  lemma {:induction false} InsertedAscends(list: seq<Component>, c: Component)
    requires c.Component? && (forall k :: 0 <= k < |list| ==> list[k].Component?) && Ascends(list)
    ensures Ascends(Inserted(list, c)) && multiset(Inserted(list, c)) == multiset(list) + multiset{c}
  {
    hide Below;
    if list != [] {
      var front, last := list[..|list| - 1], list[|list| - 1];
      assert list == front + [last];
      if Below(c.bomRef, last.bomRef) {
        InsertedAscends(front, c);
        LastStays(front, c, last);
      } else {
        forall k | 0 <= k < |list|
          ensures !Below(c.bomRef, list[k].bomRef)
        {
          if Below(c.bomRef, list[k].bomRef) {
            NotBelow(c.bomRef, list[k].bomRef, last.bomRef);
          }
        }
      }
    }
  }

  /** What is put in before the last component does not come after it. */
  lemma LastStays(front: seq<Component>, c: Component, last: Component)
    requires c.Component? && last.Component? && forall k :: 0 <= k < |front| ==> front[k].Component?
    requires Ascends(front + [last]) && Below(c.bomRef, last.bomRef) && Ascends(Inserted(front, c))
    requires multiset(Inserted(front, c)) == multiset(front) + multiset{c}
    ensures Ascends(Inserted(front, c) + [last])
  {
    hide Below, Inserted;
    BelowIsTotal(c.bomRef, last.bomRef);
    var list := Inserted(front, c);
    forall k | 0 <= k < |list|
      ensures !Below(last.bomRef, list[k].bomRef)
    {
      assert list[k] in multiset(list);
      if list[k] != c {
        assert list[k] in multiset(front);
        var i :| 0 <= i < |front| && front[i] == list[k];
        assert (front + [last])[i] == front[i] && (front + [last])[|front|] == last;
      }
    }
  }

  lemma NotBelow(a: Text, b: Text, c: Text)
    requires Below(a, b) && !Below(c, b)
    ensures Below(a, c)
  {
    BelowIsTotal(b, c);
    if Below(b, c) {
      BelowIsTransitive(a, b, c);
    }
  }

  lemma {:induction false} SortedAscends(list: seq<Component>)
    requires forall k :: 0 <= k < |list| ==> list[k].Component?
    ensures Ascends(Sorted(list)) && multiset(Sorted(list)) == multiset(list)
    ensures var s := Sorted(list); forall j, k :: 0 <= j < k < |s| ==> !Precedes(s[k].bomRef, s[j].bomRef)
  {
    hide Below, Precedes;
    if list != [] {
      var front, last := list[..|list| - 1], list[|list| - 1];
      assert list == front + [last];
      SortedAscends(front);
      InsertedAscends(Sorted(front), last);
    }
    var s := Sorted(list);
    forall j, k | 0 <= j < k < |s|
      ensures !Precedes(s[k].bomRef, s[j].bomRef)
    {
      BelowIff(s[k].bomRef, s[j].bomRef);
    }
  }

  /** mergeComponents: one component for every bom-ref in ascending order, and then those without one. */
  function Merged(components: seq<Component>): Option<seq<Component>>
    decreases TotalSize(components), 1
  {
    var folded := Folded(components);
    if folded.None? then None
    else
      FoldedSize(components);
      var list := ChildrenMerged(folded.value);
      if list.None? then None else Some(Sorted(list.value) + KeptAside(components))
  }

  // ----- the program -----

  method MergeProperties(a: seq<Property>, b: seq<Property>) returns (result: seq<Property>)
    ensures result == DistinctProperties(a + b)
  {
    var all := a + b;
    var seen: set<Property> := {};
    result := [];
    for i := 0 to |all|
      invariant result == DistinctProperties(all[..i])
      invariant seen == set p | p in result
    {
      assert all[..i + 1][..i] == all[..i];
      var property := all[i];
      if property.NoProperty? {
        continue;
      }
      if property in seen {
        continue;
      }
      seen := seen + {property};
      result := result + [property];
    }
    assert all[..|all|] == all;
  }

  /** Where the components of a list are, by bom-ref. */
  ghost predicate Indexes(byBomRef: map<Text, nat>, list: seq<Component>)
    requires forall k :: 0 <= k < |list| ==> list[k].Component?
  {
    && (forall ref :: ref in byBomRef ==> byBomRef[ref] < |list| && list[byBomRef[ref]].bomRef == ref)
    && (forall k :: 0 <= k < |list| ==> list[k].bomRef in byBomRef)
  }

  lemma IndexIsPlace(byBomRef: map<Text, nat>, list: seq<Component>, ref: Text)
    requires OneEach(list) && Indexes(byBomRef, list)
    ensures PlaceOf(list, ref) == if ref in byBomRef then byBomRef[ref] else |list|
  {
    hide PlaceOf;
  }

  /** One component for every bom-ref, combined as they come, and those without one. */
  method Fold(components: seq<Component>) returns (merged: Option<seq<Component>>, unreferenced: seq<Component>)
    ensures merged == Folded(components)
    ensures merged.Some? ==> unreferenced == KeptAside(components)
  {
    hide PlaceOf, OneEach, Combined;
    var byBomRef: map<Text, nat> := map[];
    var list: seq<Component> := [];
    unreferenced := [];
    for n := 0 to |components|
      invariant Folded(components[..n]) == Some(list) && unreferenced == KeptAside(components[..n])
      invariant OneEach(list) && (forall k :: 0 <= k < |list| ==> list[k].Component?) && Indexes(byBomRef, list)
    {
      var component := components[n];
      assert components[..n + 1][..n] == components[..n];
      if component.NoComponent? {
        continue;
      }
      if component.bomRef == [] {
        unreferenced := unreferenced + [component];
        continue;
      }
      IndexIsPlace(byBomRef, list, component.bomRef);
      if component.bomRef !in byBomRef {
        byBomRef := byBomRef[component.bomRef := |list|];
        list := list + [component];
      } else {
        var i := byBomRef[component.bomRef];
        if list[i].identity != component.identity {
          FoldedStuck(components, n + 1);
          return None, [];
        }
        var combined := Combine(list[i], component);
        list := list[i := combined];
      }
    }
    assert components[..|components|] == components;
    return Some(list), unreferenced;
  }

  lemma {:induction false} FoldedStuck(components: seq<Component>, n: nat)
    requires n <= |components| && Folded(components[..n]).None?
    ensures Folded(components).None?
  {
    if n == |components| {
      assert components[..n] == components;
    } else {
      var front := components[..|components| - 1];
      assert front[..n] == components[..n];
      FoldedStuck(front, n);
    }
  }

  method Combine(existing: Component, component: Component) returns (r: Component)
    requires existing.Component? && component.Component?
    ensures r == Combined(existing, component) && r.Component? && r.bomRef == existing.bomRef
  {
    r := existing;
    if ScopeRank(component.scope) > ScopeRank(existing.scope) {
      r := r.(scope := component.scope);
    }
    var properties := MergeProperties(existing.properties, component.properties);
    r := r.(properties := properties);
    r := r.(licenses := MergedLicenses(existing.licenses, component.licenses));
    r := r.(components := existing.components + component.components);
  }

  /** A stable sort by bom-ref. */
  method SortByRef(list: seq<Component>) returns (sorted: seq<Component>)
    requires forall k :: 0 <= k < |list| ==> list[k].Component?
    ensures sorted == Sorted(list) && multiset(sorted) == multiset(list)
    ensures forall j, k :: 0 <= j < k < |sorted| ==> !Precedes(sorted[k].bomRef, sorted[j].bomRef)
  {
    SortedAscends(list);
    sorted := [];
    for n := 0 to |list|
      invariant sorted == Sorted(list[..n])
    {
      assert list[..n + 1][..n] == list[..n];
      sorted := Inserted(sorted, list[n]);
    }
    assert list[..|list|] == list;
  }

  method MergeComponents(components: seq<Component>) returns (result: Option<seq<Component>>)
    ensures result == Merged(components)
    decreases TotalSize(components), 1
  {
    var folded, unreferenced := Fold(components);
    if folded.None? {
      return None;
    }
    FoldedSize(components);
    var list := folded.value;
    var merged := MergeChildren(list);
    if merged.None? {
      return None;
    }
    var sorted := SortByRef(merged.value);
    return Some(sorted + unreferenced);
  }

  method MergeChildren(list: seq<Component>) returns (merged: Option<seq<Component>>)
    requires OneEach(list)
    ensures merged == ChildrenMerged(list)
    decreases TotalSize(list), 0
  {
    var done: seq<Component> := [];
    for n := 0 to |list|
      invariant ChildrenMerged(list[..n]) == Some(done)
    {
      assert list[..n + 1][..n] == list[..n];
      var component := list[n];
      if |component.components| != 0 {
        SizeWithin(list, n);
        var children := MergeComponents(component.components);
        if children.None? {
          ChildrenStuck(list, n + 1);
          return None;
        }
        component := component.(components := children.value);
      } else {
        assert component.components == [];
      }
      done := done + [component];
    }
    assert list[..|list|] == list;
    return Some(done);
  }

  lemma {:induction false} ChildrenStuck(list: seq<Component>, n: nat)
    requires OneEach(list) && n <= |list| && ChildrenMerged(list[..n]).None?
    ensures ChildrenMerged(list).None?
  {
    if n == |list| {
      assert list[..n] == list;
    } else {
      var front := list[..|list| - 1];
      assert front[..n] == list[..n];
      ChildrenStuck(front, n);
    }
  }
}
