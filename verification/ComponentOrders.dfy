/** When the result of merging components depends on the order they come in
    (pkg/sbom/image_components.go:290-362). The components of one list stay in
    their order while that list is nested in a component, so what is reordered
    is a list of lots. */
module ComponentOrders {
  import opened Wrappers
  import opened Permutations
  import opened Components
  import opened ComponentLaws
  import opened ComponentGroups

  type Lot = seq<Component>

  // ----- lots of components of one bom-ref -----

  ghost function SharerLots(lots: seq<Lot>, ref: Text): (r: seq<Lot>)
    ensures |r| == |lots| && forall i :: 0 <= i < |lots| ==> r[i] == Sharers(lots[i], ref) && AllComponents(r[i])
  {
    Map((lot: Lot) => Sharers(lot, ref), lots)
  }

  ghost function NestedOf(lot: Lot, ref: Text): Lot {
    AllNested(Sharers(lot, ref))
  }

  /** What is nested in the components of one bom-ref, lot by lot. */
  ghost function NestedLots(lots: seq<Lot>, ref: Text): (r: seq<Lot>)
    ensures |r| == |lots| && forall i :: 0 <= i < |lots| ==> r[i] == NestedOf(lots[i], ref)
  {
    Map((lot: Lot) => NestedOf(lot, ref), lots)
  }

  ghost function AsideLots(lots: seq<Lot>): (r: seq<Lot>)
    ensures |r| == |lots| && forall i :: 0 <= i < |lots| ==> r[i] == KeptAside(lots[i])
  {
    Map(KeptAside, lots)
  }

  ghost predicate AllGroups(groups: seq<Lot>) {
    forall i :: 0 <= i < |groups| ==> AllComponents(groups[i])
  }

  lemma {:induction false} GroupsJoined(groups: seq<Lot>)
    requires AllGroups(groups)
    ensures AllComponents(Joined(groups))
  {
    if groups != [] {
      GroupsJoined(groups[..|groups| - 1]);
    }
  }

  lemma {:induction false} KeptAsideAppend(a: Lot, b: Lot)
    ensures KeptAside(a + b) == KeptAside(a) + KeptAside(b)
  {
    if b == [] {
      assert a + b == a;
    } else {
      assert (a + b)[..|a + b| - 1] == a + b[..|b| - 1];
      KeptAsideAppend(a, b[..|b| - 1]);
    }
  }

  /** Taking lots apart and joining them can change places. */
  lemma {:induction false} LotsJoined(lots: seq<Lot>, ref: Text)
    ensures Sharers(Joined(lots), ref) == Joined(SharerLots(lots, ref))
    ensures NestedOf(Joined(lots), ref) == Joined(NestedLots(lots, ref))
    ensures KeptAside(Joined(lots)) == Joined(AsideLots(lots))
  {
    hide Sharers, KeptAside, AllNested;
    if lots == [] {
      NothingApart(ref);
    } else {
      var front, last := lots[..|lots| - 1], lots[|lots| - 1];
      LotsJoined(front, ref);
      SharersAppend(Joined(front), last, ref);
      NestedAppend(Sharers(Joined(front), ref), Sharers(last, ref));
      KeptAsideAppend(Joined(front), last);
      assert SharerLots(lots, ref)[..|front|] == SharerLots(front, ref);
      assert NestedLots(lots, ref)[..|front|] == NestedLots(front, ref);
      assert AsideLots(lots)[..|front|] == AsideLots(front);
    }
  }

  lemma NothingApart(ref: Text)
    ensures Sharers([], ref) == [] && AllNested([]) == [] && KeptAside([]) == []
  {
  }

  lemma {:induction false} NestedAppend(a: Lot, b: Lot)
    requires AllComponents(a) && AllComponents(b)
    ensures AllNested(a + b) == AllNested(a) + AllNested(b)
  {
    if b == [] {
      assert a + b == a;
    } else {
      assert (a + b)[..|a + b| - 1] == a + b[..|b| - 1];
      NestedAppend(a, b[..|b| - 1]);
    }
  }

  lemma {:induction false} PropertiesAppend(a: Lot, b: Lot)
    requires AllComponents(a) && AllComponents(b)
    ensures AllProperties(a + b) == AllProperties(a) + AllProperties(b)
  {
    if b == [] {
      assert a + b == a;
    } else {
      assert (a + b)[..|a + b| - 1] == a + b[..|b| - 1];
      PropertiesAppend(a, b[..|b| - 1]);
    }
  }

  lemma {:induction false} LicensesAppend(a: Lot, b: Lot)
    requires AllComponents(a) && AllComponents(b)
    ensures FirstLicenses(a + b) == MergedLicenses(FirstLicenses(a), FirstLicenses(b))
  {
    if b == [] {
      assert a + b == a;
    } else {
      assert (a + b)[..|a + b| - 1] == a + b[..|b| - 1];
      LicensesAppend(a, b[..|b| - 1]);
    }
  }

  lemma {:induction false} ScopeAppend(a: Lot, b: Lot)
    requires a != [] && b != [] && AllComponents(a) && AllComponents(b)
    ensures AllComponents(a + b)
    ensures TopScope(a + b) == if ScopeRank(TopScope(b)) > ScopeRank(TopScope(a)) then TopScope(b) else TopScope(a)
  {
    assert (a + b)[..|a + b| - 1] == a + b[..|b| - 1];
    if |b| == 1 {
      assert a + b[..0] == a;
    } else {
      ScopeAppend(a, b[..|b| - 1]);
    }
  }

  // ----- what each field is, lot by lot -----

  /** No lot has a scope that claims more. */
  ghost predicate Leads(groups: seq<Lot>, i: nat)
    requires AllGroups(groups)
  {
    && i < |groups| && groups[i] != []
    && forall k :: 0 <= k < |groups| && groups[k] != [] ==>
         ScopeRank(TopScope(groups[k])) <= ScopeRank(TopScope(groups[i]))
  }

  /** The scope is that of the first lot that leads. */
  lemma {:induction false} ScopeOfJoined(groups: seq<Lot>) returns (i: nat)
    requires AllGroups(groups) && Joined(groups) != []
    ensures AllComponents(Joined(groups)) && Leads(groups, i) && TopScope(Joined(groups)) == TopScope(groups[i])
    ensures forall k :: 0 <= k < i ==> !Leads(groups, k)
  {
    hide TopScope;
    GroupsJoined(groups);
    var front, last := groups[..|groups| - 1], groups[|groups| - 1];
    GroupsJoined(front);
    LeadersBefore(groups);
    if last == [] {
      assert Joined(front) + [] == Joined(front);
      i := ScopeOfJoined(front);
      assert Leads(groups, i);
    } else if Joined(front) == [] {
      i := |front|;
      assert [] + last == last;
      NothingJoined(front);
      assert Leads(groups, i);
    } else {
      ScopeAppend(Joined(front), last);
      var j := ScopeOfJoined(front);
      WhoLeads(groups, j);
      if ScopeRank(TopScope(last)) > ScopeRank(TopScope(front[j])) {
        i := |front|;
        Outranked(groups, j);
      } else {
        i := j;
      }
    }
  }

  lemma WhoLeads(groups: seq<Lot>, j: nat)
    requires AllGroups(groups) && groups != [] && groups[|groups| - 1] != [] && Leads(groups[..|groups| - 1], j)
    ensures Leads(groups, if ScopeRank(TopScope(groups[|groups| - 1])) > ScopeRank(TopScope(groups[j]))
                          then |groups| - 1 else j)
  {
    hide TopScope;
    var front, last := groups[..|groups| - 1], groups[|groups| - 1];
    var i := if ScopeRank(TopScope(last)) > ScopeRank(TopScope(groups[j])) then |front| else j;
    forall k | 0 <= k < |groups| && groups[k] != []
      ensures ScopeRank(TopScope(groups[k])) <= ScopeRank(TopScope(groups[i]))
    {
      assert k < |front| ==> front[k] == groups[k];
    }
  }

  lemma LeadersBefore(groups: seq<Lot>)
    requires AllGroups(groups) && groups != []
    ensures forall k :: 0 <= k < |groups| - 1 && Leads(groups, k) ==> Leads(groups[..|groups| - 1], k)
  {
  }

  lemma Outranked(groups: seq<Lot>, j: nat)
    requires AllGroups(groups) && groups != [] && groups[|groups| - 1] != [] && Leads(groups[..|groups| - 1], j)
    requires ScopeRank(TopScope(groups[|groups| - 1])) > ScopeRank(TopScope(groups[j]))
    ensures forall k :: 0 <= k < |groups| - 1 ==> !Leads(groups, k)
  {
    hide TopScope;
    var front := groups[..|groups| - 1];
    forall k | 0 <= k < |groups| - 1
      ensures !Leads(groups, k)
    {
      assert front[k] == groups[k];
    }
  }

  lemma {:induction false} NothingJoined(groups: seq<Lot>)
    requires Joined(groups) == []
    ensures forall i :: 0 <= i < |groups| ==> groups[i] == []
  {
    if groups != [] {
      NothingJoined(groups[..|groups| - 1]);
    }
  }

  /** The licences are those of the first lot that has some. */
  lemma {:induction false} LicensesOfJoined(groups: seq<Lot>) returns (i: nat)
    requires AllGroups(groups)
    ensures AllComponents(Joined(groups)) && i <= |groups|
    ensures forall k :: 0 <= k < i ==> FirstLicenses(groups[k]) == []
    ensures FirstLicenses(Joined(groups)) == if i < |groups| then FirstLicenses(groups[i]) else []
    ensures i < |groups| ==> FirstLicenses(groups[i]) != []
  {
    GroupsJoined(groups);
    i := 0;
    if groups != [] {
      var front, last := groups[..|groups| - 1], groups[|groups| - 1];
      GroupsJoined(front);
      i := LicensesOfJoined(front);
      LicensesAppend(Joined(front), last);
      if i == |front| && FirstLicenses(last) == [] {
        i := |groups|;
      }
    }
  }

  ghost function Pairs(group: Lot): seq<Property>
    requires AllComponents(group)
  {
    DistinctProperties(AllProperties(group))
  }

  ghost predicate GoOn(a: seq<Property>, b: seq<Property>) {
    a <= b || b <= a
  }

  /** Where each lot's properties begin another's, the longest are what is left. */
  lemma {:induction false} PropertiesOfJoined(groups: seq<Lot>) returns (i: nat)
    requires AllGroups(groups) && groups != []
    requires forall j, k :: 0 <= j < |groups| && 0 <= k < |groups| ==> GoOn(Pairs(groups[j]), Pairs(groups[k]))
    ensures AllComponents(Joined(groups)) && i < |groups| && Pairs(Joined(groups)) == Pairs(groups[i])
    ensures forall k :: 0 <= k < |groups| ==> Pairs(groups[k]) <= Pairs(groups[i])
  {
    hide DistinctProperties, AllProperties;
    GroupsJoined(groups);
    var front, last := groups[..|groups| - 1], groups[|groups| - 1];
    if front == [] {
      i := 0;
      JoinedOne(last);
      assert groups == [last];
    } else {
      GroupsJoined(front);
      var j := PropertiesOfJoined(front);
      PropertiesAppend(Joined(front), last);
      assert GoOn(Pairs(groups[j]), Pairs(groups[|front|]));
      if Pairs(last) <= Pairs(front[j]) {
        DistinctLonger(AllProperties(last), AllProperties(Joined(front)));
        i := j;
      } else {
        DistinctLonger(AllProperties(Joined(front)), AllProperties(last));
        i := |front|;
      }
    }
  }

  // ----- what makes the order of no account -----

  /** Scopes that claim the most are the same. */
  ghost predicate ScopesAgree(groups: seq<Lot>)
    requires AllGroups(groups)
  {
    forall i, j :: 0 <= i < |groups| && 0 <= j < |groups| && Leads(groups, i) && Leads(groups, j) ==>
      TopScope(groups[i]) == TopScope(groups[j])
  }

  /** Licences are the same where there are some. */
  ghost predicate LicensesAgree(groups: seq<Lot>)
    requires AllGroups(groups)
  {
    forall i, j :: 0 <= i < |groups| && 0 <= j < |groups| ==>
      || FirstLicenses(groups[i]) == [] || FirstLicenses(groups[j]) == []
      || FirstLicenses(groups[i]) == FirstLicenses(groups[j])
  }

  /** Of the distinct properties of any two lots, one's begin the other's. */
  ghost predicate PropertiesAgree(groups: seq<Lot>)
    requires AllGroups(groups)
  {
    forall i, j :: 0 <= i < |groups| && 0 <= j < |groups| ==> GoOn(Pairs(groups[i]), Pairs(groups[j]))
  }

  /** The order of the lots is of no account: those without a bom-ref can
      change places; those that share one agree in scope, licences and
      properties; and so it is with what is nested in them. */
  ghost predicate OrderFree(lots: seq<Lot>)
    decreases TotalSize(Joined(lots))
  {
    && Commute(AsideLots(lots))
    && forall ref :: ref in Refs(Elements(Joined(lots))) ==>
         && ScopesAgree(SharerLots(lots, ref)) && LicensesAgree(SharerLots(lots, ref))
         && PropertiesAgree(SharerLots(lots, ref))
         && (NestedIsSmaller(lots, ref); OrderFree(NestedLots(lots, ref)))
  }

  lemma NestedIsSmaller(lots: seq<Lot>, ref: Text)
    requires ref in Refs(Elements(Joined(lots)))
    ensures TotalSize(Joined(NestedLots(lots, ref))) < TotalSize(Joined(lots))
  {
    hide Sharers, TotalSize, AllNested;
    LotsJoined(lots, ref);
    HasSharersIff(Joined(lots), ref);
    NestedSize(Joined(lots), ref);
  }

  lemma {:induction false} NestedSize(components: Lot, ref: Text)
    ensures TotalSize(NestedOf(components, ref)) + |Sharers(components, ref)| <= TotalSize(components)
  {
    if components == [] {
      NothingApart(ref);
    } else {
      var front, c := components[..|components| - 1], components[|components| - 1];
      NestedSize(front, ref);
      if SharesRef(c, ref) {
        var cs := Sharers(front, ref);
        assert (cs + [c])[..|cs|] == cs;
        TotalSizeAppend(AllNested(cs), c.components);
      }
    }
  }

  // ----- stand-ins, field by field -----

  lemma {:induction false} SharersOf(components: Lot, ref: Text, c: Component)
    ensures c in Sharers(components, ref) <==> c in components && SharesRef(c, ref)
  {
    if components != [] {
      var front, d := components[..|components| - 1], components[|components| - 1];
      assert components == front + [d];
      SharersOf(front, ref, c);
    }
  }

  /** Components that share a bom-ref in a list that can be merged describe the same. */
  lemma OneIdentity(components: Lot, others: Lot, ref: Text)
    requires Merged(components).Some? && Elements(components) == Elements(others)
    requires Sharers(components, ref) != [] && Sharers(others, ref) != []
    ensures Sharers(components, ref)[0].identity == Sharers(others, ref)[0].identity
  {
    hide Sharers, StandsFor, Merged;
    Agreeing(components);
    var c, d := Sharers(components, ref)[0], Sharers(others, ref)[0];
    SharersOf(components, ref, c);
    SharersOf(others, ref, d);
    assert c in Elements(components) && d in Elements(others);
  }

  lemma Agreeing(components: Lot)
    requires Merged(components).Some?
    ensures Agree(Elements(components))
  {
    hide StandsFor, Agree;
    FoldedIs(components);
  }

  /** What the stand-ins of two groups of one length come down to. */
  lemma StandInsAlikeIff(a: Lot, b: Lot)
    requires a != [] && b != [] && AllComponents(a) && AllComponents(b)
    requires |a| == |b| && a[0].bomRef == b[0].bomRef && a[0].identity == b[0].identity
    ensures StandIn(a) == StandIn(b) <==>
            && TopScope(a) == TopScope(b) && FirstLicenses(a) == FirstLicenses(b) && ChildrenOf(a) == ChildrenOf(b)
            && (if |a| == 1 then a[0].properties == b[0].properties else Pairs(a) == Pairs(b))
  {
    hide TopScope, FirstLicenses, ChildrenOf, AllProperties, DistinctProperties, AllNested;
    GatheredIs(a);
    GatheredIs(b);
  }

  // ----- it suffices -----

  lemma SameScope(groups: seq<Lot>, others: seq<Lot>)
    requires AllGroups(groups) && AllGroups(others) && Reordered(groups, others) && ScopesAgree(groups)
    requires Joined(groups) != [] && Joined(others) != []
    ensures AllComponents(Joined(groups)) && AllComponents(Joined(others))
    ensures TopScope(Joined(groups)) == TopScope(Joined(others))
  {
    hide TopScope, Joined;
    SameLength(groups, others);
    var i := ScopeOfJoined(groups);
    var j := ScopeOfJoined(others);
    assert others[j] in groups;
    var k :| 0 <= k < |groups| && groups[k] == others[j];
    forall l | 0 <= l < |groups| && groups[l] != []
      ensures ScopeRank(TopScope(groups[l])) <= ScopeRank(TopScope(groups[k]))
    {
      assert groups[l] in others;
    }
    assert Leads(groups, k);
  }

  lemma SameLicenses(groups: seq<Lot>, others: seq<Lot>)
    requires AllGroups(groups) && AllGroups(others) && Reordered(groups, others) && LicensesAgree(groups)
    ensures AllComponents(Joined(groups)) && AllComponents(Joined(others))
    ensures FirstLicenses(Joined(groups)) == FirstLicenses(Joined(others))
  {
    hide FirstLicenses, Joined;
    SameLength(groups, others);
    var i := LicensesOfJoined(groups);
    var j := LicensesOfJoined(others);
    if i < |groups| {
      assert groups[i] in others;
      var l :| 0 <= l < |others| && others[l] == groups[i];
    }
    if j < |others| {
      assert others[j] in groups;
      var k :| 0 <= k < |groups| && groups[k] == others[j];
    }
  }

  lemma SamePairs(groups: seq<Lot>, others: seq<Lot>)
    requires AllGroups(groups) && AllGroups(others) && Reordered(groups, others) && PropertiesAgree(groups)
    ensures AllComponents(Joined(groups)) && AllComponents(Joined(others))
    ensures Pairs(Joined(groups)) == Pairs(Joined(others))
  {
    hide Pairs, Joined;
    SameLength(groups, others);
    GroupsJoined(groups);
    GroupsJoined(others);
    if groups == [] {
      assert others == [];
    } else {
      forall j, k | 0 <= j < |others| && 0 <= k < |others|
        ensures GoOn(Pairs(others[j]), Pairs(others[k]))
      {
        assert others[j] in groups && others[k] in groups;
      }
      var i := PropertiesOfJoined(groups);
      var j := PropertiesOfJoined(others);
      assert groups[i] in others && others[j] in groups;
      Longest(groups, others, i, j);
    }
  }

  lemma Longest(groups: seq<Lot>, others: seq<Lot>, i: nat, j: nat)
    requires AllGroups(groups) && AllGroups(others) && i < |groups| && j < |others|
    requires groups[i] in others && others[j] in groups
    requires forall k :: 0 <= k < |groups| ==> Pairs(groups[k]) <= Pairs(groups[i])
    requires forall k :: 0 <= k < |others| ==> Pairs(others[k]) <= Pairs(others[j])
    ensures Pairs(groups[i]) == Pairs(others[j])
  {
    hide Pairs;
    var k :| 0 <= k < |others| && others[k] == groups[i];
    var l :| 0 <= l < |groups| && groups[l] == others[j];
  }

  lemma SameElementsReordered(lots: seq<Lot>, others: seq<Lot>)
    requires Reordered(lots, others)
    ensures Elements(Joined(lots)) == Elements(Joined(others))
    ensures SameRefs(Joined(lots), Joined(others))
  {
    hide Sharers;
    JoinedReordered(lots, others);
    SameLength(Joined(lots), Joined(others));
    assert Elements(Joined(lots)) == Elements(Joined(others));
    forall ref
      ensures Sharers(Joined(lots), ref) != [] <==> Sharers(Joined(others), ref) != []
    {
      HasSharersIff(Joined(lots), ref);
      HasSharersIff(Joined(others), ref);
    }
  }

  /** Reordering lots reorders what is made of them. */
  lemma LotsReordered(lots: seq<Lot>, others: seq<Lot>, ref: Text)
    requires Reordered(lots, others)
    ensures Reordered(SharerLots(lots, ref), SharerLots(others, ref))
    ensures Reordered(NestedLots(lots, ref), NestedLots(others, ref))
    ensures Reordered(AsideLots(lots), AsideLots(others))
    ensures Reordered(Sharers(Joined(lots), ref), Sharers(Joined(others), ref))
  {
    MapReordered((lot: Lot) => Sharers(lot, ref), lots, others);
    MapReordered((lot: Lot) => NestedOf(lot, ref), lots, others);
    MapReordered(KeptAside, lots, others);
    LotsJoined(lots, ref);
    LotsJoined(others, ref);
    JoinedReordered(SharerLots(lots, ref), SharerLots(others, ref));
  }

  lemma StillMerges(lots: seq<Lot>, others: seq<Lot>)
    requires Reordered(lots, others)
    ensures Merged(Joined(lots)).Some? <==> Merged(Joined(others)).Some?
  {
    hide Merged, SameTo;
    SameElementsReordered(lots, others);
    OrderDoesNotMatter(Joined(lots), Joined(others), 0);
  }

  lemma {:induction false} Suffices(lots: seq<Lot>, others: seq<Lot>)
    requires Merged(Joined(lots)).Some? && OrderFree(lots) && Reordered(lots, others)
    ensures Merged(Joined(others)) == Merged(Joined(lots))
    decreases TotalSize(Joined(lots)), 1
  {
    hide Merged, StandIn, Sharers, KeptAside, AllNested, TotalSize, ScopesAgree, LicensesAgree, PropertiesAgree;
    StillMerges(lots, others);
    SameElementsReordered(lots, others);
    var a, b := Joined(lots), Joined(others);
    LotsJoined(lots, []);
    LotsJoined(others, []);
    LotsReordered(lots, others, []);
    CommutingJoins(AsideLots(lots), AsideLots(others));
    forall ref | Sharers(a, ref) != []
      ensures Sharers(b, ref) != [] && StandIn(Sharers(a, ref)) == StandIn(Sharers(b, ref))
    {
      HasSharersIff(a, ref);
      SufficesFor(lots, others, ref);
    }
    SameResultIff(a, b);
  }

  lemma {:induction false} SufficesFor(lots: seq<Lot>, others: seq<Lot>, ref: Text)
    requires Merged(Joined(lots)).Some? && OrderFree(lots) && Reordered(lots, others)
    requires ref in Refs(Elements(Joined(lots)))
    requires Elements(Joined(lots)) == Elements(Joined(others)) && SameRefs(Joined(lots), Joined(others))
    ensures Sharers(Joined(lots), ref) != [] && Sharers(Joined(others), ref) != []
    ensures StandIn(Sharers(Joined(lots), ref)) == StandIn(Sharers(Joined(others), ref))
    decreases TotalSize(Joined(lots)), 0
  {
    hide Merged, StandIn, Sharers, KeptAside, AllNested, TotalSize, ScopesAgree, LicensesAgree, PropertiesAgree, Refs;
    hide Elements, TopScope, FirstLicenses, Pairs, ChildrenOf, Commute;
    var a, b := Sharers(Joined(lots), ref), Sharers(Joined(others), ref);
    HasSharersIff(Joined(lots), ref);
    LotsJoined(lots, ref);
    LotsJoined(others, ref);
    LotsReordered(lots, others, ref);
    OneIdentity(Joined(lots), Joined(others), ref);
    SameScope(SharerLots(lots, ref), SharerLots(others, ref));
    SameLicenses(SharerLots(lots, ref), SharerLots(others, ref));
    SamePairs(SharerLots(lots, ref), SharerLots(others, ref));
    NestedIsSmaller(lots, ref);
    NestedMerges(Joined(lots), ref);
    Suffices(NestedLots(lots, ref), NestedLots(others, ref));
    SameChildren(a, b);
    SameLength(a, b);
    if |a| == 1 {
      assert a[0] in b;
    }
    StandInsAlikeIff(a, b);
  }

  lemma SameChildren(a: Lot, b: Lot)
    requires AllComponents(a) && AllComponents(b) && Merged(AllNested(a)) == Merged(AllNested(b))
    ensures ChildrenOf(a) == ChildrenOf(b)
  {
  }

  /** What is nested in a list that can be merged can be. */
  lemma NestedMerges(components: Lot, ref: Text)
    requires Merged(components).Some? && Sharers(components, ref) != []
    ensures Merged(NestedOf(components, ref)).Some?
  {
    hide Merged, StandIn, Sharers, KeptAside, AllNested, Ascending;
    var list := MergedRepresents(components);
    var k :| 0 <= k < |list| && list[k].bomRef == ref;
  }

  // ----- it is needed -----

  /** The lots give the same in every order. */
  ghost predicate AlikeInAnyOrder(lots: seq<Lot>) {
    forall others :: Reordered(lots, others) ==> Merged(Joined(others)) == Merged(Joined(lots))
  }

  /** Two lots first, one way and the other. */
  lemma EitherFirst(lots: seq<Lot>, i: nat, j: nat)
    requires Merged(Joined(lots)).Some? && AlikeInAnyOrder(lots) && i < |lots| && j < |lots| && i != j
    ensures var a, b := Joined(TwoFirst(lots, i, j)), Joined(TwoFirst(lots, j, i));
            && Merged(a).Some? && KeptAside(a) == KeptAside(b) && SameRefs(a, b) && SameStandIns(a, b)
  {
    hide Merged, KeptAside, SameRefs, SameStandIns, TwoFirst, Joined;
    var p, q := TwoFirst(lots, i, j), TwoFirst(lots, j, i);
    TwoFirstReordered(lots, i, j);
    TwoFirstReordered(lots, j, i);
    assert Reordered(p, q);
    SameElementsReordered(p, q);
    SameResultIff(Joined(p), Joined(q));
  }

  /** Two lots taken apart, and the rest. */
  lemma TwoApart(lots: seq<Lot>, i: nat, j: nat, ref: Text)
    requires i < |lots| && j < |lots| && i != j
    ensures SharerLots(TwoFirst(lots, i, j), ref)
         == [Sharers(lots[i], ref), Sharers(lots[j], ref)] + SharerLots(Others(lots, i, j), ref)
    ensures AsideLots(TwoFirst(lots, i, j)) == [KeptAside(lots[i]), KeptAside(lots[j])] + AsideLots(Others(lots, i, j))
  {
    hide Sharers, KeptAside;
  }

  lemma TwoJoined<T>(a: seq<T>, b: seq<T>, rest: seq<seq<T>>)
    ensures Joined([a, b] + rest) == a + b + Joined(rest)
  {
    hide Joined;
    JoinedAppend([a, b], rest);
    assert [a, b] == [a] + [b];
    JoinedAppend([a], [b]);
    JoinedOne(a);
    JoinedOne(b);
  }

  lemma AsideCommutes(lots: seq<Lot>, i: nat, j: nat)
    requires Merged(Joined(lots)).Some? && AlikeInAnyOrder(lots) && i < |lots| && j < |lots|
    ensures KeptAside(lots[i]) + KeptAside(lots[j]) == KeptAside(lots[j]) + KeptAside(lots[i])
  {
    hide Merged, KeptAside, SameRefs, SameStandIns, TwoFirst, Joined, Others, AlikeInAnyOrder;
    if i != j {
      var a, b, rest := KeptAside(lots[i]), KeptAside(lots[j]), AsideLots(Others(lots, i, j));
      EitherFirst(lots, i, j);
      LotsJoined(TwoFirst(lots, i, j), []);
      LotsJoined(TwoFirst(lots, j, i), []);
      TwoApart(lots, i, j, []);
      TwoApart(lots, j, i, []);
      OthersEitherWay(lots, i, j);
      TwoJoined(a, b, rest);
      TwoJoined(b, a, rest);
      assert (a + b + Joined(rest))[..|a| + |b|] == a + b && (b + a + Joined(rest))[..|a| + |b|] == b + a;
    }
  }

  lemma OthersEitherWay<T>(s: seq<T>, i: nat, j: nat)
    requires i < |s| && j < |s| && i != j
    ensures Others(s, i, j) == Others(s, j, i)
  {
  }

  /** The groups of two lots, put first, and what comes of them. */
  lemma GroupsFirst(lots: seq<Lot>, i: nat, j: nat, ref: Text) returns (groups: seq<Lot>)
    requires i < |lots| && j < |lots| && i != j
    ensures AllGroups(groups) && |groups| >= 2 && Joined(groups) == Sharers(Joined(TwoFirst(lots, i, j)), ref)
    ensures groups[0] == Sharers(lots[i], ref) && groups[1] == Sharers(lots[j], ref)
    ensures Reordered(SharerLots(lots, ref), groups)
  {
    hide Sharers, TwoFirst, Joined;
    groups := SharerLots(TwoFirst(lots, i, j), ref);
    LotsJoined(TwoFirst(lots, i, j), ref);
    TwoApart(lots, i, j, ref);
    TwoFirstReordered(lots, i, j);
    LotsReordered(lots, TwoFirst(lots, i, j), ref);
  }

  /** What is made of the components of one bom-ref, whichever of two lots comes first. */
  lemma MadeEitherWay(lots: seq<Lot>, i: nat, j: nat, ref: Text)
    requires Merged(Joined(lots)).Some? && AlikeInAnyOrder(lots) && i < |lots| && j < |lots| && i != j
    requires ref in Refs(Elements(Joined(lots)))
    ensures var a, b := Sharers(Joined(TwoFirst(lots, i, j)), ref), Sharers(Joined(TwoFirst(lots, j, i)), ref);
            && a != [] && b != [] && TopScope(a) == TopScope(b) && FirstLicenses(a) == FirstLicenses(b)
            && (|a| >= 2 ==> Pairs(a) == Pairs(b))
  {
    hide Merged, KeptAside, StandIn, Sharers, TwoFirst, Joined, AlikeInAnyOrder, TopScope, FirstLicenses, Pairs;
    hide ChildrenOf, Refs, Elements;
    var p, q := TwoFirst(lots, i, j), TwoFirst(lots, j, i);
    EitherFirst(lots, i, j);
    TwoFirstReordered(lots, i, j);
    TwoFirstReordered(lots, j, i);
    SameElementsReordered(lots, p);
    SameElementsReordered(p, q);
    HasSharersIff(Joined(lots), ref);
    LotsReordered(p, q, ref);
    SameLength(Sharers(Joined(p), ref), Sharers(Joined(q), ref));
    OneIdentity(Joined(p), Joined(q), ref);
    StandInsAlikeIff(Sharers(Joined(p), ref), Sharers(Joined(q), ref));
  }

  lemma ScopesMustAgree(lots: seq<Lot>, i: nat, j: nat, ref: Text)
    requires Merged(Joined(lots)).Some? && AlikeInAnyOrder(lots) && ref in Refs(Elements(Joined(lots)))
    requires Leads(SharerLots(lots, ref), i) && Leads(SharerLots(lots, ref), j)
    ensures TopScope(Sharers(lots[i], ref)) == TopScope(Sharers(lots[j], ref))
  {
    hide Merged, Sharers, TwoFirst, Joined, AlikeInAnyOrder, TopScope, Refs, Elements;
    if i != j {
      MadeEitherWay(lots, i, j, ref);
      LeaderFirst(lots, i, j, ref);
      LeaderFirst(lots, j, i, ref);
    }
  }

  /** A lot that leads gives its scope when it comes first. */
  lemma LeaderFirst(lots: seq<Lot>, i: nat, j: nat, ref: Text)
    requires Leads(SharerLots(lots, ref), i) && j < |lots| && i != j
    ensures Sharers(Joined(TwoFirst(lots, i, j)), ref) != []
    ensures TopScope(Sharers(Joined(TwoFirst(lots, i, j)), ref)) == TopScope(Sharers(lots[i], ref))
  {
    hide Sharers, TwoFirst, Joined, TopScope;
    var groups := GroupsFirst(lots, i, j, ref);
    SameLength(SharerLots(lots, ref), groups);
    forall l | 0 <= l < |groups| && groups[l] != []
      ensures ScopeRank(TopScope(groups[l])) <= ScopeRank(TopScope(groups[0]))
    {
      assert groups[l] in SharerLots(lots, ref);
    }
    assert Leads(groups, 0);
    if Joined(groups) == [] {
      NothingJoined(groups);
    }
    var k := ScopeOfJoined(groups);
  }

  lemma LicensesMustAgree(lots: seq<Lot>, i: nat, j: nat, ref: Text)
    requires Merged(Joined(lots)).Some? && AlikeInAnyOrder(lots) && ref in Refs(Elements(Joined(lots)))
    requires i < |lots| && j < |lots|
    ensures FirstLicenses(Sharers(lots[i], ref)) == [] || FirstLicenses(Sharers(lots[j], ref)) == []
            || FirstLicenses(Sharers(lots[i], ref)) == FirstLicenses(Sharers(lots[j], ref))
  {
    hide Merged, Sharers, TwoFirst, Joined, AlikeInAnyOrder, FirstLicenses, Refs, Elements;
    if i != j {
      MadeEitherWay(lots, i, j, ref);
      var groups := GroupsFirst(lots, i, j, ref);
      var k := LicensesOfJoined(groups);
      var others := GroupsFirst(lots, j, i, ref);
      var l := LicensesOfJoined(others);
    }
  }

  lemma PropertiesMustAgree(lots: seq<Lot>, i: nat, j: nat, ref: Text)
    requires Merged(Joined(lots)).Some? && AlikeInAnyOrder(lots) && ref in Refs(Elements(Joined(lots)))
    requires i < |lots| && j < |lots|
    ensures GoOn(Pairs(Sharers(lots[i], ref)), Pairs(Sharers(lots[j], ref)))
  {
    hide Merged, Sharers, TwoFirst, Joined, AlikeInAnyOrder, Pairs, Refs, Elements;
    if i != j {
      MadeEitherWay(lots, i, j, ref);
      var groups := GroupsFirst(lots, i, j, ref);
      var others := GroupsFirst(lots, j, i, ref);
      FirstBegins(groups);
      FirstBegins(others);
      NothingLeft();
    }
  }

  lemma NothingLeft()
    ensures Pairs([]) == []
  {
  }

  /** The properties begin with those of the first group; one component has only one group. */
  lemma FirstBegins(groups: seq<Lot>)
    requires AllGroups(groups) && |groups| >= 2
    ensures AllComponents(Joined(groups)) && Pairs(groups[0]) <= Pairs(Joined(groups))
    ensures |Joined(groups)| <= 1 ==> groups[0] == [] || groups[1] == []
  {
    hide Joined, AllProperties, DistinctProperties;
    var a, b, rest := groups[0], groups[1], groups[2..];
    GroupsJoined(groups);
    GroupsJoined(rest);
    assert groups == [a, b] + rest;
    TwoJoined(a, b, rest);
    assert a + b + Joined(rest) == a + (b + Joined(rest));
    PropertiesAppend(a, b + Joined(rest));
    DistinctPrefix(AllProperties(a), AllProperties(b + Joined(rest)));
  }

  /** Reordering what is nested reorders the lots it is nested in. */
  lemma NestedAlike(lots: seq<Lot>, ref: Text)
    requires Merged(Joined(lots)).Some? && AlikeInAnyOrder(lots) && ref in Refs(Elements(Joined(lots)))
    ensures Merged(Joined(NestedLots(lots, ref))).Some? && AlikeInAnyOrder(NestedLots(lots, ref))
  {
    hide Merged, Sharers, Joined, Refs, Elements, AllNested;
    LotsJoined(lots, ref);
    HasSharersIff(Joined(lots), ref);
    NestedMerges(Joined(lots), ref);
    forall images | Reordered(NestedLots(lots, ref), images)
      ensures Merged(Joined(images)) == Merged(Joined(NestedLots(lots, ref)))
    {
      var others := MapLifts((lot: Lot) => NestedOf(lot, ref), lots, images);
      assert images == NestedLots(others, ref);
      NestedAlikeIn(lots, others, ref);
    }
  }

  lemma NestedAlikeIn(lots: seq<Lot>, others: seq<Lot>, ref: Text)
    requires Merged(Joined(lots)).Some? && AlikeInAnyOrder(lots) && Reordered(lots, others)
    requires ref in Refs(Elements(Joined(lots)))
    ensures Merged(Joined(NestedLots(others, ref))) == Merged(Joined(NestedLots(lots, ref)))
  {
    hide Merged, Sharers, Joined, Refs, Elements, AllNested, KeptAside, StandIn;
    var a, b := Joined(lots), Joined(others);
    assert Merged(b) == Merged(a);
    SameElementsReordered(lots, others);
    HasSharersIff(a, ref);
    SameResultIff(a, b);
    NestedMerges(a, ref);
    NestedMerges(b, ref);
    LotsJoined(lots, ref);
    LotsJoined(others, ref);
    SameStandInSameChildren(Sharers(a, ref), Sharers(b, ref));
  }

  lemma SameStandInSameChildren(a: Lot, b: Lot)
    requires a != [] && b != [] && AllComponents(a) && AllComponents(b) && StandIn(a) == StandIn(b)
    requires Merged(AllNested(a)).Some? && Merged(AllNested(b)).Some?
    ensures Merged(AllNested(a)) == Merged(AllNested(b))
  {
    hide Gathered, AllNested;
    assert StandIn(a).components == ChildrenOf(a) && StandIn(b).components == ChildrenOf(b);
  }

  lemma {:induction false} IsNeeded(lots: seq<Lot>)
    requires Merged(Joined(lots)).Some? && AlikeInAnyOrder(lots)
    ensures OrderFree(lots)
    decreases TotalSize(Joined(lots))
  {
    hide Merged, Sharers, Joined, Elements, KeptAside, AlikeInAnyOrder, TopScope, FirstLicenses, Pairs, TotalSize;
    forall i, j | 0 <= i < |lots| && 0 <= j < |lots|
      ensures AsideLots(lots)[i] + AsideLots(lots)[j] == AsideLots(lots)[j] + AsideLots(lots)[i]
    {
      AsideCommutes(lots, i, j);
    }
    forall ref | ref in Refs(Elements(Joined(lots)))
      ensures ScopesAgree(SharerLots(lots, ref)) && LicensesAgree(SharerLots(lots, ref))
      ensures PropertiesAgree(SharerLots(lots, ref)) && OrderFree(NestedLots(lots, ref))
    {
      MustAgree(lots, ref);
      NestedIsSmaller(lots, ref);
      NestedAlike(lots, ref);
      IsNeeded(NestedLots(lots, ref));
    }
  }

  lemma MustAgree(lots: seq<Lot>, ref: Text)
    requires Merged(Joined(lots)).Some? && AlikeInAnyOrder(lots) && ref in Refs(Elements(Joined(lots)))
    ensures ScopesAgree(SharerLots(lots, ref)) && LicensesAgree(SharerLots(lots, ref))
    ensures PropertiesAgree(SharerLots(lots, ref))
  {
    hide Merged, Sharers, Joined, Elements, AlikeInAnyOrder, TopScope, FirstLicenses, Pairs, GoOn, Refs;
    var groups := SharerLots(lots, ref);
    forall i, j | 0 <= i < |groups| && 0 <= j < |groups| && Leads(groups, i) && Leads(groups, j)
      ensures TopScope(groups[i]) == TopScope(groups[j])
    {
      ScopesMustAgree(lots, i, j, ref);
    }
    forall i, j | 0 <= i < |groups| && 0 <= j < |groups|
      ensures FirstLicenses(groups[i]) == [] || FirstLicenses(groups[j]) == []
              || FirstLicenses(groups[i]) == FirstLicenses(groups[j])
      ensures GoOn(Pairs(groups[i]), Pairs(groups[j]))
    {
      LicensesMustAgree(lots, i, j, ref);
      PropertiesMustAgree(lots, i, j, ref);
    }
  }

  // ----- the theorem -----

  /** Lots that can be merged give the same in every order if and only if their order is of no account. */
  lemma LotsOrderIff(lots: seq<Lot>)
    requires Merged(Joined(lots)).Some?
    ensures AlikeInAnyOrder(lots) <==> OrderFree(lots)
  {
    hide Merged, OrderFree;
    if AlikeInAnyOrder(lots) {
      IsNeeded(lots);
    }
    if OrderFree(lots) {
      forall others | Reordered(lots, others)
        ensures Merged(Joined(others)) == Merged(Joined(lots))
      {
        Suffices(lots, others);
      }
    }
  }

  /** Every component as a lot of its own. */
  ghost function Singly(components: Lot): (r: seq<Lot>)
    ensures |r| == |components| && forall i :: 0 <= i < |components| ==> r[i] == [components[i]]
  {
    Map((c: Component) => [c], components)
  }

  lemma {:induction false} SinglyJoined(components: Lot)
    ensures Joined(Singly(components)) == components
  {
    if components != [] {
      var front := components[..|components| - 1];
      SinglyJoined(front);
      assert Singly(components)[..|front|] == Singly(front);
    }
  }

  /** The result does not depend on the order that components come in, if and
      only if they cannot be merged in any, or their order is of no account. */
  lemma OrderDoesNotMatterIff(components: Lot)
    ensures (forall others :: Reordered(components, others) ==> Merged(others) == Merged(components)) <==>
            Merged(components).None? || OrderFree(Singly(components))
  {
    hide Merged, OrderFree, Joined;
    var lots := Singly(components);
    SinglyJoined(components);
    if forall others :: Reordered(components, others) ==> Merged(others) == Merged(components) {
      forall others | Reordered(lots, others)
        ensures Merged(Joined(others)) == Merged(Joined(lots))
      {
        var singles := MapLifts((c: Component) => [c], components, others);
        assert others == Singly(singles);
        SinglyJoined(singles);
      }
      if Merged(components).Some? {
        LotsOrderIff(lots);
      }
    } else {
      var others :| Reordered(components, others) && Merged(others) != Merged(components);
      MapReordered((c: Component) => [c], components, others);
      SinglyJoined(others);
      assert Reordered(lots, Singly(others));
      StillMerges(lots, Singly(others));
      if Merged(components).Some? {
        LotsOrderIff(lots);
      }
    }
  }

  // ----- single components -----

  /** No component that shares the bom-ref has a scope that claims more. */
  ghost predicate LeadsIn(c: Component, components: Lot, ref: Text) {
    && c in components && SharesRef(c, ref)
    && forall d :: d in components && SharesRef(d, ref) ==> ScopeRank(d.scope) <= ScopeRank(c.scope)
  }

  /** Components that share the bom-ref agree in what the first would decide. */
  ghost predicate SharersAgree(components: Lot, ref: Text) {
    forall c, d :: c in components && d in components && SharesRef(c, ref) && SharesRef(d, ref) ==>
      && (LeadsIn(c, components, ref) && LeadsIn(d, components, ref) ==> c.scope == d.scope)
      && (c.licenses == [] || d.licenses == [] || c.licenses == d.licenses)
      && GoOn(DistinctProperties(c.properties), DistinctProperties(d.properties))
  }

  /** For single components this says: those without a bom-ref are equal; of
      those that share one, the scopes that claim the most are equal, the
      licences are equal where there are some, and the distinct properties of
      one begin those of the other; and so it is with what is nested in them. */
  lemma SinglyOrderFreeIff(components: Lot)
    ensures OrderFree(Singly(components)) <==>
            && (forall c, d :: c in components && d in components && Unreferenced(c) && Unreferenced(d) ==> c == d)
            && forall ref :: ref in Refs(Elements(components)) ==>
                 SharersAgree(components, ref) && OrderFree(NestedLots(Singly(components), ref))
  {
    hide SharersAgree, ScopesAgree, LicensesAgree, PropertiesAgree, Joined, Elements, Refs, KeptAside, Commute;
    SinglyJoined(components);
    SinglesCommuteIff(components);
    forall ref
      ensures SharersAgree(components, ref) <==>
              && ScopesAgree(SharerLots(Singly(components), ref)) && LicensesAgree(SharerLots(Singly(components), ref))
              && PropertiesAgree(SharerLots(Singly(components), ref))
    {
      SharersAgreeIff(components, ref);
    }
  }

  lemma OneAside(c: Component)
    ensures KeptAside([c]) == if Unreferenced(c) then [c] else []
  {
    assert [c][..0] == [];
  }

  lemma SinglesCommuteIff(components: Lot)
    ensures Commute(AsideLots(Singly(components))) <==>
            forall c, d :: c in components && d in components && Unreferenced(c) && Unreferenced(d) ==> c == d
  {
    hide KeptAside;
    var lots := AsideLots(Singly(components));
    forall i | 0 <= i < |lots|
      ensures lots[i] == if Unreferenced(components[i]) then [components[i]] else []
    {
      OneAside(components[i]);
    }
    if Commute(lots) {
      forall c, d | c in components && d in components && Unreferenced(c) && Unreferenced(d)
        ensures c == d
      {
        var i :| 0 <= i < |components| && components[i] == c;
        var j :| 0 <= j < |components| && components[j] == d;
        assert (lots[i] + lots[j])[0] == c && (lots[j] + lots[i])[0] == d;
      }
    }
  }

  lemma OneSharer(c: Component, ref: Text)
    ensures Sharers([c], ref) == if SharesRef(c, ref) then [c] else []
    ensures c.Component? ==> TopScope([c]) == c.scope && FirstLicenses([c]) == c.licenses
    ensures c.Component? ==> Pairs([c]) == DistinctProperties(c.properties)
  {
    assert [c][..0] == [];
    if c.Component? {
      assert AllProperties([]) == [] && [] + c.properties == c.properties;
    }
  }

  /** What the group of one component is. */
  lemma SingleGroup(components: Lot, ref: Text, i: nat)
    requires i < |components|
    ensures SharerLots(Singly(components), ref)[i] == if SharesRef(components[i], ref) then [components[i]] else []
  {
    OneSharer(components[i], ref);
  }

  lemma LeadsIff(components: Lot, ref: Text, i: nat)
    requires i < |components|
    ensures Leads(SharerLots(Singly(components), ref), i) <==> LeadsIn(components[i], components, ref)
  {
    hide Sharers, TopScope, FirstLicenses, Pairs;
    var groups := SharerLots(Singly(components), ref);
    forall k | 0 <= k < |components|
      ensures groups[k] == if SharesRef(components[k], ref) then [components[k]] else []
      ensures SharesRef(components[k], ref) ==> TopScope(groups[k]) == components[k].scope
    {
      SingleGroup(components, ref, k);
      OneSharer(components[k], ref);
    }
    if Leads(groups, i) {
      forall d | d in components && SharesRef(d, ref)
        ensures ScopeRank(d.scope) <= ScopeRank(components[i].scope)
      {
        var k :| 0 <= k < |components| && components[k] == d;
        assert groups[k] != [];
      }
    }
  }

  /** What the groups of single components are. */
  ghost predicate SingleGroups(components: Lot, ref: Text, groups: seq<Lot>) {
    && AllGroups(groups) && |groups| == |components|
    && forall k :: 0 <= k < |components| ==>
         && (groups[k] == if SharesRef(components[k], ref) then [components[k]] else [])
         && (Leads(groups, k) <==> LeadsIn(components[k], components, ref))
         && (SharesRef(components[k], ref) ==>
               && TopScope(groups[k]) == components[k].scope && FirstLicenses(groups[k]) == components[k].licenses
               && Pairs(groups[k]) == DistinctProperties(components[k].properties))
  }

  lemma GroupsAreSingle(components: Lot, ref: Text)
    ensures SingleGroups(components, ref, SharerLots(Singly(components), ref))
  {
    hide Sharers, TopScope, FirstLicenses, Pairs, DistinctProperties, Leads, LeadsIn;
    var groups := SharerLots(Singly(components), ref);
    forall k | 0 <= k < |components|
      ensures groups[k] == if SharesRef(components[k], ref) then [components[k]] else []
      ensures Leads(groups, k) <==> LeadsIn(components[k], components, ref)
      ensures SharesRef(components[k], ref) ==>
                && TopScope(groups[k]) == components[k].scope && FirstLicenses(groups[k]) == components[k].licenses
                && Pairs(groups[k]) == DistinctProperties(components[k].properties)
    {
      SingleGroup(components, ref, k);
      OneSharer(components[k], ref);
      LeadsIff(components, ref, k);
    }
  }

  lemma SharersAgreeIff(components: Lot, ref: Text)
    ensures SharersAgree(components, ref) <==>
            && ScopesAgree(SharerLots(Singly(components), ref)) && LicensesAgree(SharerLots(Singly(components), ref))
            && PropertiesAgree(SharerLots(Singly(components), ref))
  {
    hide SharersAgree, ScopesAgree, LicensesAgree, PropertiesAgree, SingleGroups;
    GroupsAreSingle(components, ref);
    var groups := SharerLots(Singly(components), ref);
    if ScopesAgree(groups) && LicensesAgree(groups) && PropertiesAgree(groups) {
      GroupsThenSharers(components, ref, groups);
    }
    if SharersAgree(components, ref) {
      SharersThenGroups(components, ref, groups);
    }
  }

  lemma GroupsThenSharers(components: Lot, ref: Text, groups: seq<Lot>)
    requires SingleGroups(components, ref, groups)
    requires ScopesAgree(groups) && LicensesAgree(groups) && PropertiesAgree(groups)
    ensures SharersAgree(components, ref)
  {
    hide TopScope, FirstLicenses, Pairs, DistinctProperties, Leads, LeadsIn, GoOn;
    forall c, d | c in components && d in components && SharesRef(c, ref) && SharesRef(d, ref)
      ensures LeadsIn(c, components, ref) && LeadsIn(d, components, ref) ==> c.scope == d.scope
      ensures c.licenses == [] || d.licenses == [] || c.licenses == d.licenses
      ensures GoOn(DistinctProperties(c.properties), DistinctProperties(d.properties))
    {
      var i :| 0 <= i < |components| && components[i] == c;
      var j :| 0 <= j < |components| && components[j] == d;
      assert GoOn(Pairs(groups[i]), Pairs(groups[j]));
    }
  }

  lemma SharersThenGroups(components: Lot, ref: Text, groups: seq<Lot>)
    requires SingleGroups(components, ref, groups) && SharersAgree(components, ref)
    ensures ScopesAgree(groups) && LicensesAgree(groups) && PropertiesAgree(groups)
  {
    hide TopScope, FirstLicenses, Pairs, DistinctProperties, LeadsIn;
    NothingLeft();
    NoLicenses();
    forall i, j | 0 <= i < |groups| && 0 <= j < |groups|
      ensures GoOn(Pairs(groups[i]), Pairs(groups[j]))
      ensures FirstLicenses(groups[i]) == [] || FirstLicenses(groups[j]) == []
              || FirstLicenses(groups[i]) == FirstLicenses(groups[j])
      ensures Leads(groups, i) && Leads(groups, j) ==> TopScope(groups[i]) == TopScope(groups[j])
    {
      assert components[i] in components && components[j] in components;
    }
  }

  lemma NoLicenses()
    ensures FirstLicenses([]) == []
  {
  }

  lemma TwoFolded(a: Component, b: Component)
    requires Referenced(a) && Referenced(b) && a.bomRef == b.bomRef && a.identity == b.identity
    ensures Folded([a, b]) == Some([Combined(a, b)]) && KeptAside([a, b]) == []
  {
    hide Combined;
    FoldedOneEach([a]);
    assert [a, b][..1] == [a] && PlaceOf([a], b.bomRef) == 0;
    assert [a][0 := Combined(a, b)] == [Combined(a, b)];
  }

  lemma TwoMerged(a: Component, b: Component)
    requires Referenced(a) && Referenced(b) && a.bomRef == b.bomRef && a.identity == b.identity
    requires a.components == b.components == []
    ensures Merged([a, b]) == Some([Combined(a, b)])
  {
    hide Combined, Folded, KeptAside, ChildrenMerged, Sorted;
    var c := Combined(a, b);
    CombinedLeaf(a, b);
    TwoFolded(a, b);
    LeafMerged(c);
    OneSorted(c);
    assert [c] + [] == [c];
  }

  lemma OneSorted(c: Component)
    requires c.Component?
    ensures Sorted([c]) == [c]
  {
    assert [c][..0] == [] && Sorted([]) == [];
  }

  lemma LeafMerged(c: Component)
    requires Referenced(c) && c.components == []
    ensures OneEach([c]) && ChildrenMerged([c]) == Some([c])
  {
    hide Merged, ChildrenMerged;
    NothingMerged();
    ChildrenMergedIs([c]);
    assert c.(components := []) == c;
    assert forall k :: 0 <= k < |[c]| ==> [c][k] == c;
    if ChildrenMerged([c]).Some? {
      var r := ChildrenMerged([c]).value;
      assert r == [r[0]] && r[0] == [c][0].(components := Merged([c][0].components).value);
    }
  }

  lemma CombinedLeaf(a: Component, b: Component)
    requires Referenced(a) && b.Component? && a.components == b.components == []
    ensures Referenced(Combined(a, b)) && Combined(a, b).components == []
  {
  }

  function Licensed(license: Text): Component {
    Component([1], Identity([], [], [], []), Required, [], [license], [])
  }

  /** Two finds of one package with different licences: the licence that is kept is that of the first. */
  lemma LicensesDependOnOrder()
    ensures Merged([Licensed([1]), Licensed([2])]) != Merged([Licensed([2]), Licensed([1])])
  {
    hide Merged;
    var a, b := Licensed([1]), Licensed([2]);
    TwoMerged(a, b);
    TwoMerged(b, a);
    assert Combined(a, b).licenses[0] != Combined(b, a).licenses[0];
  }
}
