/** What becomes of each field when components merge
    (pkg/sbom/image_components.go:299-361), said of the fields themselves. */
module ComponentFields {
  import opened Wrappers
  import opened Components
  import opened ComponentGroups

  ghost predicate SomeScope(cs: seq<Component>, scope: Scope)
    requires AllComponents(cs)
  {
    exists k :: 0 <= k < |cs| && cs[k].scope == scope
  }

  /** One that is required makes the result required, or else an optional one
      makes it optional, or else an excluded one excluded; of others the first decides. */
  lemma {:induction false} ScopeIs(cs: seq<Component>)
    requires cs != [] && AllComponents(cs)
    ensures TopScope(cs)
         == if SomeScope(cs, Required) then Required
            else if SomeScope(cs, Optional) then Optional
            else if SomeScope(cs, Excluded) then Excluded
            else cs[0].scope
  {
    var front, last := cs[..|cs| - 1], cs[|cs| - 1];
    if |cs| == 1 {
      assert SomeScope(cs, cs[0].scope);
    } else {
      ScopeIs(front);
      OneMoreScope(front, last, Required);
      OneMoreScope(front, last, Optional);
      OneMoreScope(front, last, Excluded);
      assert cs == front + [last];
    }
  }

  lemma OneMoreScope(cs: seq<Component>, c: Component, scope: Scope)
    requires AllComponents(cs) && c.Component?
    ensures SomeScope(cs + [c], scope) <==> SomeScope(cs, scope) || c.scope == scope
  {
    if k :| 0 <= k < |cs| && cs[k].scope == scope {
      assert (cs + [c])[k].scope == scope;
    }
    assert (cs + [c])[|cs|] == c;
  }

  /** The licences are those of the first component that has any. */
  lemma {:induction false} LicensesAre(cs: seq<Component>)
    requires AllComponents(cs)
    ensures if FirstLicenses(cs) == [] then forall k :: 0 <= k < |cs| ==> cs[k].licenses == []
            else exists k :: && 0 <= k < |cs| && cs[k].licenses == FirstLicenses(cs)
                             && forall j :: 0 <= j < k ==> cs[j].licenses == []
  {
    if cs != [] {
      var front, last := cs[..|cs| - 1], |cs| - 1;
      LicensesAre(front);
      if FirstLicenses(front) == [] {
        assert forall j :: 0 <= j < last ==> cs[j] == front[j];
      } else {
        var k :| && 0 <= k < |front| && front[k].licenses == FirstLicenses(front)
                 && forall j :: 0 <= j < k ==> front[j].licenses == [];
        assert cs[k] == front[k] && forall j :: 0 <= j < k ==> cs[j] == front[j];
      }
    }
  }

  /** Where a property comes first. */
  function FirstPlace(properties: seq<Property>, p: Property): (i: nat)
    ensures i <= |properties|
    ensures p in properties <==> i < |properties|
    ensures i < |properties| ==> properties[i] == p
  {
    if properties == [] then 0
    else if properties[0] == p then 0
    else 1 + FirstPlace(properties[1..], p)
  }

  lemma {:induction false} FirstPlaceStays(properties: seq<Property>, p: Property, q: Property)
    ensures p in properties ==> FirstPlace(properties + [q], p) == FirstPlace(properties, p)
    ensures p !in properties ==> FirstPlace(properties + [q], p) >= |properties|
  {
    if properties != [] {
      assert (properties + [q])[1..] == properties[1..] + [q] && (properties + [q])[0] == properties[0];
      FirstPlaceStays(properties[1..], p, q);
    }
  }

  /** Each name and value pair is kept where it comes first, and nowhere else. */
  lemma {:induction false} PropertiesAre(properties: seq<Property>)
    ensures var r := DistinctProperties(properties);
            && (forall p :: p in r <==> p in properties && p.Property?)
            && forall i, j :: 0 <= i < j < |r| ==> FirstPlace(properties, r[i]) < FirstPlace(properties, r[j])
  {
    if properties != [] {
      var front, q := properties[..|properties| - 1], properties[|properties| - 1];
      assert properties == front + [q];
      PropertiesAre(front);
      var before, r := DistinctProperties(front), DistinctProperties(properties);
      forall i, j | 0 <= i < j < |r|
        ensures FirstPlace(properties, r[i]) < FirstPlace(properties, r[j])
      {
        assert r[i] == before[i];
        assert r[i] in before;
        FirstPlaceStays(front, r[i], q);
        FirstPlaceStays(front, r[j], q);
        if j < |before| {
          assert r[j] == before[j];
          assert r[j] in before;
        } else {
          assert r[j] == q && q !in before && q.Property?;
        }
      }
    }
  }

  /** Components without a bom-ref keep their order. */
  lemma {:induction false} KeptInOrder(a: seq<Component>, b: seq<Component>)
    ensures KeptAside(a + b) == KeptAside(a) + KeptAside(b)
    ensures forall c :: KeptAside([c]) == if c.Component? && c.bomRef == [] then [c] else []
  {
    if b == [] {
      assert a + b == a;
    } else {
      assert (a + b)[..|a + b| - 1] == a + b[..|b| - 1];
      KeptInOrder(a, b[..|b| - 1]);
    }
    forall c
      ensures KeptAside([c]) == if c.Component? && c.bomRef == [] then [c] else []
    {
      assert [c][..0] == [];
    }
  }
}
