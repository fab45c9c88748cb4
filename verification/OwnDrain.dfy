/** What a change of our own drain state in one area does to our routes. An update by our own node
    can make such a change without asking for a full rebuild, so this says exactly when the gate
    of DecisionPendingUpdates leaves a stale route behind. */
module OwnDrain {
  import opened Options
  import opened Topology
  import opened Spf
  import opened NextHops
  import opened SpfView
  import opened LinkMerge
  import opened Adjacencies
  import opened LinkStates
  import opened RouteSpec
  import opened RouteSelection
  import opened RebuildGate

  /** Somebody else whom an advertisement can come from. */
  ghost predicate Other(my: NodeName, areas: Areas, na: NodeArea) {
    na.area in areas && na.node != my && areas[na.area].Ask(my).Reachable(na.node)
  }

  /** Against an advertisement of a node whose overload bit is `over`, it matters that ours becomes
      `bit` and our metric increment `increment`. */
  predicate Shows(cfg: Config, a: AreaState, bit: bool, increment: nat, over: bool) {
    if a.g.Overloaded(cfg.my) != bit then !over || cfg.bestRouteSelection
    else cfg.bestRouteSelection && over == bit && (a.Increment(cfg.my) > 0) != (increment > 0)
  }

  ghost predicate Reveals(cfg: Config, areas: Areas, area: Area, bit: bool, increment: nat)
    requires area in areas
  {
    exists na :: Other(cfg.my, areas, na) && Shows(cfg, areas[area], bit, increment, areas[na.area].g.Overloaded(na.node))
  }

  /** Every prefix, however it is advertised, has the same route. */
  ghost predicate RoutesKept(cfg: Config, areas: Areas, areas': Areas) {
    forall entries, prefix, r | Known(areas, entries) && Known(areas', entries) ::
      IsRoute(cfg, areas, entries, prefix, r) <==> IsRoute(cfg, areas', entries, prefix, r)
  }

  lemma TopNearestExists(areas: Areas, entries: PrefixEntries)
    requires Known(areas, entries) && entries != map[]
    ensures exists na :: TopAndNearest(areas, entries, na)
  {
    hide Preference, Above;
    TopExists(areas, entries, entries.Keys);
    var first :| TopOf(areas, entries, entries.Keys, first);
    var top := set na <- entries | Top(areas, entries, na);
    assert first in top;
    hide Top;
    NearestExists(entries, top);
    var na :| na in top && forall o <- top :: entries[na].distance <= entries[o].distance;
    assert TopAndNearest(areas, entries, na);
  }

  lemma UndrainedIsSome(areas: Areas, entries: PrefixEntries)
    requires Known(areas, entries)
    ensures Undrained(areas, entries).Keys <= entries.Keys
    ensures entries != map[] ==> Undrained(areas, entries) != map[]
  {
  }

  /** Some advertisement is selected, if there is any. */
  lemma SelectedIsSome(cfg: Config, areas: Areas, entries: PrefixEntries)
    requires Known(areas, entries)
    ensures Selected(cfg, areas, entries) <= Undrained(areas, entries).Keys <= entries.Keys
    ensures entries != map[] ==> Selected(cfg, areas, entries) != {}
  {
    UndrainedIsSome(areas, entries);
    hide Undrained;
    var kept := Undrained(areas, entries);
    if entries != map[] {
      TopNearestExists(areas, kept);
      var na :| TopAndNearest(areas, kept, na);
      assert na in kept;
      hide TopAndNearest;
      assert cfg.bestRouteSelection ==> na in Selected(cfg, areas, entries);
    }
  }

  lemma OwnOnly(cfg: Config, areas: Areas, entries: PrefixEntries)
    requires Known(areas, entries) && entries != map[]
    requires forall na <- Undrained(areas, entries) :: na.node == cfg.my
    ensures OwnSelected(cfg, areas, entries)
  {
    hide Selected;
    SelectedIsSome(cfg, areas, entries);
    var na :| na in Selected(cfg, areas, entries);
  }

  /** Everybody else is overloaded. */
  ghost predicate OthersDrained(my: NodeName, areas: Areas, entries: PrefixEntries)
    requires Known(areas, entries)
  {
    forall na <- entries | na.node != my :: areas[na.area].g.Overloaded(na.node)
  }

  /** Without best route selection that is enough for one of our own to be selected. */
  lemma OwnAmongDrained(cfg: Config, areas: Areas, entries: PrefixEntries, m: NodeArea)
    requires Known(areas, entries) && m in entries && m.node == cfg.my
    requires OthersDrained(cfg.my, areas, entries) && !cfg.bestRouteSelection
    ensures OwnSelected(cfg, areas, entries)
  {
    if m !in Selected(cfg, areas, entries) {
      var na :| na in entries && !areas[na.area].g.Overloaded(na.node);
      assert na in Selected(cfg, areas, entries);
    }
  }

  /** With it, that one of our own is not overloaded. */
  lemma OwnIsUndrained(cfg: Config, areas: Areas, entries: PrefixEntries, m: NodeArea)
    requires Known(areas, entries) && m in entries && !areas[m.area].g.Overloaded(m.node)
    requires OthersDrained(cfg.my, areas, entries)
    ensures OwnSelected(cfg, areas, entries)
  {
    var kept := map na | na in entries && !areas[na.area].g.Overloaded(na.node) :: entries[na];
    assert m in kept;
    OwnOnly(cfg, areas, entries);
  }

  /** The two states differ in the drain state of `m` at most. */
  ghost predicate DrainDiffersAt(areas: Areas, areas': Areas, entries: PrefixEntries, m: NodeArea)
    requires Known(areas, entries) && Known(areas', entries)
  {
    forall na <- entries | na != m :: SameDrainAt(areas, areas', na)
  }

  lemma DropsDrained(areas: Areas, entries: PrefixEntries, x: NodeArea)
    requires Known(areas, entries) && x in entries && !areas[x.area].g.Overloaded(x.node)
    ensures Undrained(areas, entries) == map na | na in entries && !areas[na.area].g.Overloaded(na.node) :: entries[na]
  {
    var kept := map na | na in entries && !areas[na.area].g.Overloaded(na.node) :: entries[na];
    assert x in kept;
  }

  /** Where the same is considered, in the same drain state, the same is selected. */
  lemma SameConsidered(cfg: Config, areas: Areas, areas': Areas, entries: PrefixEntries)
    requires Known(areas, entries) && Known(areas', entries)
    requires Undrained(areas, entries) == Undrained(areas', entries) && SameDrain(areas, areas', Undrained(areas, entries))
    ensures SelectionKept(cfg, areas, areas', entries)
  {
    UndrainedIsSome(areas, entries);
    hide Undrained, TopAndNearest, SameDrainAt;
    var kept := Undrained(areas, entries);
    forall na ensures TopAndNearest(areas, kept, na) <==> TopAndNearest(areas', kept, na) {
      SameTop(areas, areas', kept, na);
    }
    assert Selected(cfg, areas, entries) == Selected(cfg, areas', entries);
    SelectedIsSome(cfg, areas, entries);
  }

  /** A soft drain of `m` does not matter if `m` is overloaded and somebody else is not. */
  lemma DroppedBeforehand(cfg: Config, areas: Areas, areas': Areas, entries: PrefixEntries, m: NodeArea, x: NodeArea)
    requires Known(areas, entries) && Known(areas', entries) && DrainDiffersAt(areas, areas', entries, m)
    requires m in entries && areas[m.area].g.Overloaded(m.node) && areas'[m.area].g.Overloaded(m.node)
    requires x in entries && !areas[x.area].g.Overloaded(x.node)
    ensures SelectionKept(cfg, areas, areas', entries)
  {
    hide Selected, SelectionKept, Undrained;
    assert x != m && SameDrainAt(areas, areas', x);
    DropsDrained(areas, entries, x);
    DropsDrained(areas', entries, x);
    assert forall na <- entries :: areas[na.area].g.Overloaded(na.node) == areas'[na.area].g.Overloaded(na.node);
    assert Undrained(areas, entries) == Undrained(areas', entries);
    SameConsidered(cfg, areas, areas', entries);
  }

  lemma SameOverloads(areas: Areas, areas': Areas, entries: PrefixEntries)
    requires Known(areas, entries) && Known(areas', entries)
    requires forall na <- entries :: areas[na.area].g.Overloaded(na.node) == areas'[na.area].g.Overloaded(na.node)
    ensures Undrained(areas, entries) == Undrained(areas', entries)
  {
  }

  /** Nor does it without best route selection. */
  lemma SoftDrainUnseen(cfg: Config, areas: Areas, areas': Areas, entries: PrefixEntries, m: NodeArea)
    requires Known(areas, entries) && Known(areas', entries) && DrainDiffersAt(areas, areas', entries, m)
    requires m in entries && m.node == cfg.my && !cfg.bestRouteSelection
    requires areas[m.area].g.Overloaded(m.node) <==> areas'[m.area].g.Overloaded(m.node)
    ensures SelectionKept(cfg, areas, areas', entries)
  {
    SameOverloads(areas, areas', entries);
    UndrainedIsSome(areas, entries);
    hide Undrained, SameDrainAt;
    assert Selected(cfg, areas, entries) == Selected(cfg, areas', entries) == Undrained(areas, entries).Keys;
    if m !in Selected(cfg, areas, entries) {
      assert forall na <- Selected(cfg, areas, entries) :: SameDrainAt(areas, areas', na);
    }
  }

  /** A change that nothing reveals leaves every selection as it was. */
  lemma HiddenKeepsSelection(cfg: Config, areas: Areas, areas': Areas, entries: PrefixEntries, m: NodeArea)
    requires Known(areas, entries) && Known(areas', entries) && DrainDiffersAt(areas, areas', entries, m)
    requires m.node == cfg.my && m.area in areas && m.area in areas'
    requires forall na <- entries | na.node != cfg.my ::
               !Shows(cfg, areas[m.area], areas'[m.area].g.Overloaded(m.node), areas'[m.area].Increment(m.node), areas[na.area].g.Overloaded(na.node))
    ensures SelectionKept(cfg, areas, areas', entries)
  {
    if m !in entries || SameDrainAt(areas, areas', m) {
      SameSelected(cfg, areas, areas', entries);
    } else if forall na <- entries :: na.node == cfg.my {
      hide Selected;
      OwnOnly(cfg, areas, entries);
      OwnOnly(cfg, areas', entries);
    } else {
      hide Selected, SelectionKept, OwnSelected;
      var x :| x in entries && x.node != cfg.my;
      AmongOthers(cfg, areas, areas', entries, m, x);
    }
  }

  lemma AmongOthers(cfg: Config, areas: Areas, areas': Areas, entries: PrefixEntries, m: NodeArea, x: NodeArea)
    requires Known(areas, entries) && Known(areas', entries) && DrainDiffersAt(areas, areas', entries, m)
    requires m in entries && m.node == cfg.my && x in entries && x.node != cfg.my && !SameDrainAt(areas, areas', m)
    requires forall na <- entries | na.node != cfg.my ::
               !Shows(cfg, areas[m.area], areas'[m.area].g.Overloaded(m.node), areas'[m.area].Increment(m.node), areas[na.area].g.Overloaded(na.node))
    ensures SelectionKept(cfg, areas, areas', entries)
  {
    hide Selected, OwnSelected;
    if areas[m.area].g.Overloaded(m.node) != areas'[m.area].g.Overloaded(m.node) {
      OwnAmongDrained(cfg, areas, entries, m);
      OwnAmongDrained(cfg, areas', entries, m);
    } else if !cfg.bestRouteSelection {
      SoftDrainUnseen(cfg, areas, areas', entries, m);
    } else if areas[m.area].g.Overloaded(m.node) {
      DroppedBeforehand(cfg, areas, areas', entries, m, x);
    } else {
      OwnIsUndrained(cfg, areas, entries, m);
      OwnIsUndrained(cfg, areas', entries, m);
    }
  }

  // The other direction: two advertisements, ours and that of somebody the change shows against,
  // have a route in one of the two states only.

  function Bid(drain: int, preference: int): PrefixEntry {
    PrefixEntry(drain, preference, 0, 0, true, None, 0)
  }

  lemma PairUndrained(areas: Areas, entries: PrefixEntries, m: NodeArea, x: NodeArea)
    requires Known(areas, entries) && entries.Keys == {m, x} && m != x
    ensures areas[m.area].g.Overloaded(m.node) == areas[x.area].g.Overloaded(x.node) ==> Undrained(areas, entries) == entries
    ensures areas[m.area].g.Overloaded(m.node) && !areas[x.area].g.Overloaded(x.node) ==> Undrained(areas, entries).Keys == {x}
  {
    var kept := map na | na in entries && !areas[na.area].g.Overloaded(na.node) :: entries[na];
    assert forall na <- entries :: na == m || na == x;
    if areas[m.area].g.Overloaded(m.node) && areas[x.area].g.Overloaded(x.node) {
      assert kept == map[];
    } else if !areas[x.area].g.Overloaded(x.node) {
      assert x in kept;
      if !areas[m.area].g.Overloaded(m.node) {
        assert kept == entries;
      }
    }
  }

  lemma PairTop(areas: Areas, entries: PrefixEntries, m: NodeArea, x: NodeArea)
    requires Known(areas, entries) && entries.Keys == {m, x} && m != x
    requires Above(Preference(areas, entries, m), Preference(areas, entries, x))
    ensures forall na :: TopAndNearest(areas, entries, na) <==> na == m
  {
    assert forall na :: Top(areas, entries, na) <==> na == m;
  }

  /** Of two advertisements considered, the preferred one is selected. */
  lemma PreferredIsSelected(cfg: Config, areas: Areas, entries: PrefixEntries, m: NodeArea, x: NodeArea)
    requires Known(areas, entries) && entries.Keys == {m, x} && m != x && cfg.bestRouteSelection
    requires areas[m.area].g.Overloaded(m.node) == areas[x.area].g.Overloaded(x.node)
    requires Above(Preference(areas, entries, m), Preference(areas, entries, x))
    ensures Selected(cfg, areas, entries) == {m}
  {
    PairUndrained(areas, entries, m, x);
    PairTop(areas, entries, m, x);
    hide Undrained, TopAndNearest, Preference;
  }

  /** The only one considered is selected. */
  lemma UndrainedIsSelected(cfg: Config, areas: Areas, entries: PrefixEntries, m: NodeArea, x: NodeArea)
    requires Known(areas, entries) && entries.Keys == {m, x} && m != x
    requires areas[m.area].g.Overloaded(m.node) && !areas[x.area].g.Overloaded(x.node)
    ensures Selected(cfg, areas, entries) == {x}
  {
    PairUndrained(areas, entries, m, x);
    SelectedIsSome(cfg, areas, entries);
    assert x in entries;
    hide Undrained, Selected;
    var na :| na in Selected(cfg, areas, entries);
    assert Selected(cfg, areas, entries) == {x};
  }

  /** Somebody else who can be reached has next hops. */
  lemma OtherHops(q: Query, spf: SpfResult, x: NodeName) returns (n: nat)
    requires Plain(q) && Solved(q, spf) && x != q.src && q.Reachable(x)
    ensures IsDistance(q, {x}, Some(n)) && HopsOver(q, false, UsedLinks(q, {x}), n) != {}
  {
    hide *;
    UnreachableIffUnrecorded(q, spf, {x});
    assert x in {x};
    var nodes;
    n, nodes := NodesExist(q, spf, {x});
    UsedIsBest(q, spf, {x}, n, nodes);
    BestIsDistance(q, {x}, n);
    SomeLinkIsUsed(q, spf, {x}, n, nodes);
    UsedMakeHops(q, {x}, n);
  }

  lemma BestIsDistance(q: Query, dsts: set<NodeName>, n: nat)
    requires exists p, d :: BestWalkTo(q, dsts, p, d) && q.Length(p) == n
    ensures IsDistance(q, dsts, Some(n))
  {
  }

  lemma UsedMakeHops(q: Query, dsts: set<NodeName>, n: nat)
    requires UsedLinks(q, dsts) != {}
    ensures HopsOver(q, false, UsedLinks(q, dsts), n) != {}
  {
    hide Uses;
    var l :| l in UsedLinks(q, dsts);
    assert NextHopOver(q, false, l, n) in HopsOver(q, false, UsedLinks(q, dsts), n);
  }

  lemma OtherCombined(cfg: Config, areas: Areas, spfs: SpfResults, x: NodeArea) returns (n: nat, hops: set<AreaHop>)
    requires SolvedAreas(cfg.my, areas, spfs) && Other(cfg.my, areas, x)
    ensures Combined(cfg, areas, {x.node}, false, {x.area}, n, hops) && hops != {}
  {
    hide Solved, Graph.Valid, IsDistance, UsedLinks, HopsOver;
    var q := areas[x.area].Ask(cfg.my);
    n := OtherHops(q, spfs[x.area], x.node);
    hops := AreaHops(cfg, areas, {x.node}, false, x.area, n);
    var h :| h in HopsOver(q, false, UsedLinks(q, {x.node}), n);
    assert (x.area, h) in hops;
    OneDistance(q, {x.node}, n);
  }

  lemma OneDistance(q: Query, dsts: set<NodeName>, n: nat)
    requires IsDistance(q, dsts, Some(n))
    ensures forall m: nat | IsDistance(q, dsts, Some(m)) :: m == n
  {
    forall m: nat | IsDistance(q, dsts, Some(m)) ensures m == n {
      DistanceIsUnique(q, dsts, Some(n), Some(m));
    }
  }

  const SOME_PREFIX := Prefix(false, 0)

  lemma OwnHasNoRoute(cfg: Config, areas: Areas, entries: PrefixEntries)
    requires Known(areas, entries) && OwnSelected(cfg, areas, Reaching(cfg.my, areas, entries))
    ensures IsRoute(cfg, areas, entries, SOME_PREFIX, None)
  {
    hide Selected, Reaching;
  }

  lemma OtherHasRoute(cfg: Config, areas: Areas, entries: PrefixEntries, x: NodeArea, n: nat, hops: set<AreaHop>) returns (r: Option<RibEntry>)
    requires Known(areas, entries) && Reaching(cfg.my, areas, entries) == entries
    requires Selected(cfg, areas, entries) == {x} && x.node != cfg.my && x in entries && entries[x].minNexthop.None?
    requires Combined(cfg, areas, {x.node}, false, {x.area}, n, hops) && hops != {}
    ensures IsRoute(cfg, areas, entries, SOME_PREFIX, r) && r.Some?
  {
    hide Selected, Reaching, Combined, LocalConsidered, EntryOf;
    var selected, local := {x}, LocalConsidered(cfg.my, entries);
    assert FirstOf(selected) == x;
    assert Enough(entries, selected, |hops|);
    r := Some(EntryOf(areas, entries, SOME_PREFIX, x, n, hops, local));
    assert (set na <- selected :: na.node) == {x.node};
    assert (set na <- selected | na.area in areas :: na.area) == {x.area};
    assert CombinedRoute(cfg, areas, entries, SOME_PREFIX, local, selected, {x.node}, {x.area}, n, hops, r);
  }

  /** Both advertisements of the pair count. */
  lemma PairReaching(my: NodeName, areas: Areas, entries: PrefixEntries, m: NodeArea, x: NodeArea)
    requires Known(areas, entries) && entries.Keys == {m, x} && m.node == my && Other(my, areas, x)
    ensures Reaching(my, areas, entries) == entries
  {
    assert areas[m.area].Ask(my).Walk([], my);
    hide Query.Walk;
    assert areas[m.area].Ask(my).Reachable(my);
  }

  /** Ours is selected in one state and the other one in the other state. */
  ghost predicate Tells(cfg: Config, areas: Areas, areas': Areas, entries: PrefixEntries, m: NodeArea, x: NodeArea)
    requires Known(areas, entries) && Known(areas', entries)
  {
    || (OwnSelected(cfg, areas, entries) && Selected(cfg, areas', entries) == {x})
    || (OwnSelected(cfg, areas', entries) && Selected(cfg, areas, entries) == {x})
  }

  lemma OverloadTells(cfg: Config, areas: Areas, areas': Areas, m: NodeArea, x: NodeArea) returns (entries: PrefixEntries)
    requires m.area in areas && m.area in areas' && x.area in areas && x.area in areas' && m.node == cfg.my && x.node != cfg.my
    requires !areas[m.area].g.Overloaded(m.node) && areas'[m.area].g.Overloaded(m.node)
    requires areas[x.area].g.Overloaded(x.node) == areas'[x.area].g.Overloaded(x.node)
    requires areas[x.area].g.Overloaded(x.node) ==> cfg.bestRouteSelection
    ensures entries.Keys == {m, x} && entries[x].minNexthop.None?
    ensures OwnSelected(cfg, areas, entries) && Selected(cfg, areas', entries) == {x}
  {
    var over := areas[x.area].g.Overloaded(x.node);
    entries := map[m := Bid(1, if over then 0 else 1), x := Bid(1, if over then 1 else 0)];
    if over {
      UndrainedIsSelected(cfg, areas, entries, x, m);
      PreferredIsSelected(cfg, areas', entries, x, m);
    } else {
      UndrainedIsSelected(cfg, areas', entries, m, x);
      if cfg.bestRouteSelection {
        PreferredIsSelected(cfg, areas, entries, m, x);
      } else {
        PairUndrained(areas, entries, m, x);
        assert m in Selected(cfg, areas, entries);
      }
    }
    hide Selected;
    assert m in Selected(cfg, areas, entries);
  }

  lemma SoftDrainTells(cfg: Config, areas: Areas, areas': Areas, m: NodeArea, x: NodeArea) returns (entries: PrefixEntries)
    requires m.area in areas && m.area in areas' && x.area in areas && x.area in areas' && m.node == cfg.my && x.node != cfg.my
    requires areas[m.area].g.Overloaded(m.node) == areas'[m.area].g.Overloaded(m.node)
    requires areas[x.area].g.Overloaded(x.node) == areas'[x.area].g.Overloaded(x.node) == areas[m.area].g.Overloaded(m.node)
    requires areas[m.area].Increment(m.node) == 0 && areas'[m.area].Increment(m.node) > 0 && cfg.bestRouteSelection
    ensures entries.Keys == {m, x} && entries[x].minNexthop.None?
    ensures OwnSelected(cfg, areas, entries) && Selected(cfg, areas', entries) == {x}
  {
    entries := map[m := Bid(0, 0), x := Bid(1, 1)];
    PreferredIsSelected(cfg, areas, entries, m, x);
    PreferredIsSelected(cfg, areas', entries, x, m);
    hide Selected;
    assert m in Selected(cfg, areas, entries);
  }

  /** A change that shows is told by some pair of advertisements. */
  lemma ShowsTells(cfg: Config, areas: Areas, areas': Areas, m: NodeArea, x: NodeArea) returns (entries: PrefixEntries)
    requires m.area in areas && m.area in areas' && x.area in areas && x.area in areas' && m.node == cfg.my && x.node != cfg.my
    requires areas[x.area].g.Overloaded(x.node) == areas'[x.area].g.Overloaded(x.node)
    requires Shows(cfg, areas[m.area], areas'[m.area].g.Overloaded(m.node), areas'[m.area].Increment(m.node), areas[x.area].g.Overloaded(x.node))
    ensures entries.Keys == {m, x} && entries[x].minNexthop.None? && Known(areas, entries) && Known(areas', entries)
    ensures Tells(cfg, areas, areas', entries, m, x)
  {
    hide Selected, OwnSelected;
    if areas[m.area].g.Overloaded(m.node) != areas'[m.area].g.Overloaded(m.node) {
      if areas[m.area].g.Overloaded(m.node) {
        entries := OverloadTells(cfg, areas', areas, m, x);
      } else {
        entries := OverloadTells(cfg, areas, areas', m, x);
      }
    } else if areas[m.area].Increment(m.node) == 0 {
      entries := SoftDrainTells(cfg, areas, areas', m, x);
    } else {
      entries := SoftDrainTells(cfg, areas', areas, m, x);
    }
  }

  /** Then the prefix has a route in one of the states only. */
  lemma TellingRoute(cfg: Config, areas: Areas, areas': Areas, entries: PrefixEntries, m: NodeArea, x: NodeArea, n: nat, hops: set<AreaHop>)
    requires Known(areas, entries) && Known(areas', entries) && entries.Keys == {m, x} && entries[x].minNexthop.None?
    requires m.node == cfg.my && Other(cfg.my, areas, x) && Other(cfg.my, areas', x) && Tells(cfg, areas, areas', entries, m, x)
    requires Combined(cfg, areas, {x.node}, false, {x.area}, n, hops) && Combined(cfg, areas', {x.node}, false, {x.area}, n, hops) && hops != {}
    ensures !RoutesKept(cfg, areas, areas')
  {
    PairReaching(cfg.my, areas, entries, m, x);
    PairReaching(cfg.my, areas', entries, m, x);
    hide Selected, OwnSelected, Combined, IsRoute, Reaching, Query.Reachable;
    if OwnSelected(cfg, areas, entries) && Selected(cfg, areas', entries) == {x} {
      OwnHasNoRoute(cfg, areas, entries);
      var r := OtherHasRoute(cfg, areas', entries, x, n, hops);
      if IsRoute(cfg, areas', entries, SOME_PREFIX, None) {
        RouteIsUnique(cfg, areas', entries, SOME_PREFIX, None, r);
      }
    } else {
      OwnHasNoRoute(cfg, areas', entries);
      var r := OtherHasRoute(cfg, areas, entries, x, n, hops);
      if IsRoute(cfg, areas, entries, SOME_PREFIX, None) {
        RouteIsUnique(cfg, areas, entries, SOME_PREFIX, None, r);
      }
    }
  }

  lemma SamePathsIsReflexive(my: NodeName, a: AreaState)
    ensures SamePaths(my, a, a)
  {
  }

  /** `a'` may replace `areas[area]`. */
  lemma ReplacedSamePaths(my: NodeName, areas: Areas, area: Area, a': AreaState)
    requires area in areas && SamePaths(my, areas[area], a')
    ensures AllSamePaths(my, areas, areas[area := a']) && AllSamePaths(my, areas[area := a'], areas)
  {
    assert SamePaths(my, a', areas[area]);
    hide SamePaths;
    forall b <- areas ensures SamePaths(my, areas[b], areas[b]) {
      SamePathsIsReflexive(my, areas[b]);
    }
  }

  /** Everybody else is there as before. */
  lemma OtherKept(my: NodeName, areas: Areas, area: Area, a': AreaState, na: NodeArea)
    requires area in areas && OthersAlike(my, areas[area], a') && Other(my, areas, na)
    ensures Other(my, areas[area := a'], na) && SameDrainAt(areas, areas[area := a'], na)
  {
    hide SamePaths, SameHops;
    SamePathsSameHops(my, areas[area], a');
    if na.area == area {
      SameReach(areas[area].Ask(my), a'.Ask(my), na.node);
    }
  }

  lemma HiddenKeepsRoute(cfg: Config, areas: Areas, area: Area, a': AreaState, entries: PrefixEntries)
    requires area in areas && OthersAlike(cfg.my, areas[area], a') && Known(areas, entries)
    requires !Reveals(cfg, areas, area, a'.g.Overloaded(cfg.my), a'.Increment(cfg.my))
    ensures SelectionKept(cfg, areas, areas[area := a'], Reaching(cfg.my, areas, entries))
  {
    var areas', m, reaching := areas[area := a'], NodeArea(cfg.my, area), Reaching(cfg.my, areas, entries);
    hide SelectionKept, OthersAlike, Shows, Query.Reachable;
    forall na <- reaching | na != m ensures SameDrainAt(areas, areas', na) {
      if na.node != cfg.my {
        assert Other(cfg.my, areas, na);
        OtherKept(cfg.my, areas, area, a', na);
      } else {
        assert na == NodeArea(na.node, na.area);
      }
    }
    forall na <- reaching | na.node != cfg.my
      ensures !Shows(cfg, areas[area], a'.g.Overloaded(cfg.my), a'.Increment(cfg.my), areas[na.area].g.Overloaded(na.node))
    {
      assert Other(cfg.my, areas, na);
    }
    HiddenKeepsSelection(cfg, areas, areas', reaching, m);
  }

  lemma HiddenKeepsRoutes(cfg: Config, areas: Areas, area: Area, a': AreaState)
    requires area in areas && OthersAlike(cfg.my, areas[area], a')
    requires !Reveals(cfg, areas, area, a'.g.Overloaded(cfg.my), a'.Increment(cfg.my))
    ensures RoutesKept(cfg, areas, areas[area := a'])
  {
    hide SamePaths, Reveals, IsRoute;
    var areas' := areas[area := a'];
    ReplacedSamePaths(cfg.my, areas, area, a');
    forall entries, prefix, r | Known(areas, entries) && Known(areas', entries)
      ensures IsRoute(cfg, areas, entries, prefix, r) <==> IsRoute(cfg, areas', entries, prefix, r)
    {
      SameRouteEither(cfg, areas, area, a', entries, prefix, r);
    }
  }

  lemma SameRouteEither(cfg: Config, areas: Areas, area: Area, a': AreaState, entries: PrefixEntries, prefix: Prefix, r: Option<RibEntry>)
    requires area in areas && OthersAlike(cfg.my, areas[area], a') && Known(areas, entries) && Known(areas[area := a'], entries)
    requires !Reveals(cfg, areas, area, a'.g.Overloaded(cfg.my), a'.Increment(cfg.my))
    ensures IsRoute(cfg, areas, entries, prefix, r) <==> IsRoute(cfg, areas[area := a'], entries, prefix, r)
  {
    hide SamePaths, Reveals, IsRoute, AllSamePaths, Query.Reachable, Selected;
    var areas' := areas[area := a'];
    ReplacedSamePaths(cfg.my, areas, area, a');
    HiddenKeepsRoute(cfg, areas, area, a', entries);
    SameReaching(cfg.my, areas, areas', entries);
    assert SelectionKept(cfg, areas', areas, Reaching(cfg.my, areas', entries));
    if IsRoute(cfg, areas, entries, prefix, r) {
      KeptSameRoute(cfg, areas, areas', entries, prefix, r);
    }
    if IsRoute(cfg, areas', entries, prefix, r) {
      KeptSameRoute(cfg, areas', areas, entries, prefix, r);
    }
  }

  lemma RevealedChangesRoute(cfg: Config, areas: Areas, area: Area, a': AreaState, spfs: SpfResults)
    requires area in areas && OthersAlike(cfg.my, areas[area], a') && SolvedAreas(cfg.my, areas, spfs)
    requires Reveals(cfg, areas, area, a'.g.Overloaded(cfg.my), a'.Increment(cfg.my))
    ensures !RoutesKept(cfg, areas, areas[area := a'])
  {
    hide SolvedAreas, OthersAlike, Tells, Combined, RoutesKept;
    var areas', m := areas[area := a'], NodeArea(cfg.my, area);
    var x :| Other(cfg.my, areas, x) && Shows(cfg, areas[area], a'.g.Overloaded(cfg.my), a'.Increment(cfg.my), areas[x.area].g.Overloaded(x.node));
    OtherKept(cfg.my, areas, area, a', x);
    var entries := ShowsTells(cfg, areas, areas', m, x);
    var n, hops := OtherCombined(cfg, areas, spfs, x);
    OthersHaveSamePaths(cfg.my, areas[area], a');
    ReplacedSamePaths(cfg.my, areas, area, a');
    SameCombined(cfg, areas, areas', {x.node}, false, {x.area}, n, hops);
    TellingRoute(cfg, areas, areas', entries, m, x, n, hops);
  }

  lemma OthersHaveSamePaths(my: NodeName, a: AreaState, a': AreaState)
    requires OthersAlike(my, a, a')
    ensures SamePaths(my, a, a')
  {
  }

  /** A change of our own drain state leaves the routes of all prefixes as they were if and only if
      it does not show against anybody who can be reached. */
  lemma OwnDrainKeepsRoutes(cfg: Config, areas: Areas, area: Area, a': AreaState, spfs: SpfResults)
    requires area in areas && OthersAlike(cfg.my, areas[area], a') && SolvedAreas(cfg.my, areas, spfs)
    ensures RoutesKept(cfg, areas, areas[area := a']) <==>
            !Reveals(cfg, areas, area, a'.g.Overloaded(cfg.my), a'.Increment(cfg.my))
  {
    hide OthersAlike, SolvedAreas, Reveals, RoutesKept;
    if Reveals(cfg, areas, area, a'.g.Overloaded(cfg.my), a'.Increment(cfg.my)) {
      RevealedChangesRoute(cfg, areas, area, a', spfs);
    } else {
      HiddenKeepsRoutes(cfg, areas, area, a');
    }
  }

  /** The database `db` brings a change of our own drain state that shows. */
  ghost predicate Overlooked(cfg: Config, areas: Areas, area: Area, db: AdjacencyDb)
    requires area in areas
  {
    db.thisNode == cfg.my && Reveals(cfg, areas, area, db.isOverloaded, db.metricIncrement)
  }

  lemma UnchangedHides(cfg: Config, areas: Areas, area: Area)
    requires area in areas
    ensures !Reveals(cfg, areas, area, areas[area].g.Overloaded(cfg.my), areas[area].Increment(cfg.my))
  {
  }

  lemma DrainAfter(my: NodeName, a: AreaState, db: AdjacencyDb, news: map<LinkId, Link>, g': Graph, change: Change)
    requires Applied(a.dbs, a.g, my, db, news, g', change) && !change.topologyChanged
    ensures g'.Overloaded(my) == if db.thisNode == my then db.isOverloaded else a.g.Overloaded(my)
    ensures After(a, db, g').Increment(my) == if db.thisNode == my then db.metricIncrement else a.Increment(my)
  {
    hide Applied;
    QuietOverload(a, my, db, news, g', change);
  }

  /** The gate is exact but for that: an update that does not ask for a full rebuild leaves the
      routes of all prefixes as they were if and only if it does not bring such a change. */
  lemma QuietUpdateKeepsRoutes(cfg: Config, areas: Areas, area: Area, db: AdjacencyDb, news: map<LinkId, Link>, g': Graph, change: Change, spfs: SpfResults)
    requires area in areas && InStep(areas[area].dbs, areas[area].g, areas[area].increments) && SolvedAreas(cfg.my, areas, spfs)
    requires Applied(areas[area].dbs, areas[area].g, cfg.my, db, news, g', change) && !AsksRebuild(cfg.my, db.thisNode, change)
    ensures RoutesKept(cfg, areas, areas[area := After(areas[area], db, g')]) <==> !Overlooked(cfg, areas, area, db)
  {
    hide InStep, Applied, OthersAlike, SolvedAreas, Reveals, RoutesKept;
    QuietUpdateKeepsArea(cfg.my, areas[area], db, news, g', change);
    DrainAfter(cfg.my, areas[area], db, news, g', change);
    UnchangedHides(cfg, areas, area);
    OwnDrainKeepsRoutes(cfg, areas, area, After(areas[area], db, g'), spfs);
  }

  /** Only our own first database in an area can bring it. */
  lemma OverlookedIsFirst(cfg: Config, areas: Areas, area: Area, db: AdjacencyDb, news: map<LinkId, Link>, g': Graph, change: Change)
    requires area in areas && InStep(areas[area].dbs, areas[area].g, areas[area].increments)
    requires Applied(areas[area].dbs, areas[area].g, cfg.my, db, news, g', change) && !AsksRebuild(cfg.my, db.thisNode, change)
    requires Overlooked(cfg, areas, area, db)
    ensures db.thisNode == cfg.my && cfg.my !in areas[area].dbs
  {
    hide InStep, Applied, Reveals;
    UnchangedHides(cfg, areas, area);
    if cfg.my in areas[area].dbs {
      OnlyFirstOwnDatabase(cfg.my, areas[area], db, news, g', change);
    }
  }
}
