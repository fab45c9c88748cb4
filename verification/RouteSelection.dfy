/** SpfSolver's route computation as it is written, on SPF results and with running-best loops,
    and that it computes the route RouteSpec states. */
module RouteSelection {
  import opened Options
  import opened Topology
  import opened Spf
  import SpfTies
  import opened NextHops
  import opened RouteSpec

  type SpfResults = map<Area, SpfResult>

  /** One SPF result per area, as getSpfResult returns it. */
  ghost predicate SolvedAreas(my: NodeName, areas: Areas, spfs: SpfResults) {
    && spfs.Keys == areas.Keys
    && forall a <- areas :: areas[a].g.Valid() && Solved(areas[a].Ask(my), spfs[a])
  }

  lemma RecordedIffReachable(q: Query, spf: SpfResult, v: NodeName)
    requires Solved(q, spf)
    ensures v in spf <==> q.Reachable(v)
  {
    hide Solved;
    UnreachableIffUnrecorded(q, spf, {v});
    assert v in {v};
  }

  /** One area of getReachablePrefixEntries. */
  method EraseUnreachable(my: NodeName, a: Area, spf: SpfResult, entries: PrefixEntries) returns (kept: PrefixEntries, local: bool)
    ensures kept == map na | na in entries && (na.area == a ==> na.node in spf) :: entries[na]
    ensures local == LocalConsidered(my, entries)
  {
    kept, local := entries, false;
    var todo := entries.Keys;
    while todo != {}
      invariant todo <= entries.Keys
      invariant kept == map na | na in entries && (na in todo || (na.area == a ==> na.node in spf)) :: entries[na]
      invariant local == exists na <- entries.Keys - todo :: na.node == my && entries[na].areaStackEmpty
      decreases todo
    {
      var na :| na in todo;
      todo := todo - {na};
      if na.node == my && entries[na].areaStackEmpty {
        local := true;
      }
      if !(a != na.area || na.node in spf) {
        kept := kept - {na};
      }
    }
  }

  /** Our own advertisements are never erased: we reach ourselves. */
  lemma LocalSurvives(my: NodeName, areas: Areas, spfs: SpfResults, todo: set<Area>, entries: PrefixEntries)
    requires SolvedAreas(my, areas, spfs) && Known(areas, entries)
    ensures LocalConsidered(my, map na | na in entries && (na.area in todo || na.node in spfs[na.area]) :: entries[na])
            == LocalConsidered(my, entries)
  {
    var kept := map na | na in entries && (na.area in todo || na.node in spfs[na.area]) :: entries[na];
    forall na <- entries | na.node == my ensures na in kept && kept[na] == entries[na] {
      var q := areas[na.area].Ask(my);
      assert q.Walk([], my);
      RecordedIffReachable(q, spfs[na.area], my);
    }
  }

  /** getReachablePrefixEntries: area by area, the advertisements of nodes that area cannot reach
      are erased. */
  method GetReachablePrefixEntries(my: NodeName, areas: Areas, spfs: SpfResults, entries: PrefixEntries)
    returns (kept: PrefixEntries, local: bool)
    requires SolvedAreas(my, areas, spfs) && Known(areas, entries)
    ensures kept == Reaching(my, areas, entries)
    ensures local == LocalConsidered(my, entries)
  {
    hide LocalConsidered, Solved, Graph.Valid, Query.Reachable, Reaching;
    kept, local := entries, false;
    var todo := areas.Keys;
    while todo != {}
      invariant todo <= areas.Keys
      invariant kept == map na | na in entries && (na.area in todo || na.node in spfs[na.area]) :: entries[na]
      invariant local == (todo != areas.Keys && LocalConsidered(my, entries))
      decreases todo
    {
      var a :| a in todo;
      LocalSurvives(my, areas, spfs, todo, entries);
      var found;
      kept, found := EraseUnreachable(my, a, spfs[a], kept);
      todo := todo - {a};
      local := local || found;
    }
    NoAreasNoEntries(my, areas, entries);
    RecordedReach(my, areas, spfs, entries);
  }

  lemma RecordedReach(my: NodeName, areas: Areas, spfs: SpfResults, entries: PrefixEntries)
    requires SolvedAreas(my, areas, spfs) && Known(areas, entries)
    ensures Reaching(my, areas, entries) == map na | na in entries && na.node in spfs[na.area] :: entries[na]
  {
    hide Solved, Graph.Valid, Query.Reachable;
    forall na <- entries ensures na.node in spfs[na.area] <==> areas[na.area].Ask(my).Reachable(na.node) {
      RecordedIffReachable(areas[na.area].Ask(my), spfs[na.area], na.node);
    }
  }

  lemma NoAreasNoEntries(my: NodeName, areas: Areas, entries: PrefixEntries)
    requires Known(areas, entries)
    ensures areas.Keys == {} ==> !LocalConsidered(my, entries)
  {
  }

  method FilterHardDrainedNodes(areas: Areas, entries: PrefixEntries) returns (filtered: PrefixEntries)
    requires Known(areas, entries)
    ensures filtered == Undrained(areas, entries)
  {
    filtered := entries;
    var todo := entries.Keys;
    while todo != {}
      invariant todo <= entries.Keys
      invariant filtered == map na | na in entries && (na in todo || !areas[na.area].g.Overloaded(na.node)) :: entries[na]
      decreases todo
    {
      var na :| na in todo;
      todo := todo - {na};
      if areas[na.area].g.Overloaded(na.node) {
        filtered := filtered - {na};
      }
    }
    if filtered == map[] {
      filtered := entries;
    }
  }

  /** Drained by its own advertisement, or because its node advertises a metric increment. */
  predicate SoftDrained(areas: Areas, entries: PrefixEntries, na: NodeArea)
    requires Known(areas, entries) && na in entries
  {
    var a := areas[na.area];
    entries[na].drainMetric != 0 || (na.node in a.increments && a.increments[na.node] != 0)
  }

  /** No drained advertisement beside one that is not; then the larger path preference; then the
      larger source preference. */
  predicate NotBehind(areas: Areas, entries: PrefixEntries, na: NodeArea, o: NodeArea)
    requires Known(areas, entries) && na in entries && o in entries
  {
    var same := SoftDrained(areas, entries, na) == SoftDrained(areas, entries, o);
    && (SoftDrained(areas, entries, na) ==> SoftDrained(areas, entries, o))
    && (same ==> entries[na].pathPreference >= entries[o].pathPreference)
    && (same && entries[na].pathPreference == entries[o].pathPreference ==> entries[na].sourcePreference >= entries[o].sourcePreference)
  }

  /** What ranks at the top, on the fields of the advertisements. */
  lemma TopByFields(areas: Areas, entries: PrefixEntries, na: NodeArea)
    requires Known(areas, entries)
    ensures Top(areas, entries, na) <==> na in entries && forall o <- entries :: NotBehind(areas, entries, na, o)
  {
    if na in entries {
      forall o <- entries ensures NotBehind(areas, entries, na, o) <==> !Above(Preference(areas, entries, o), Preference(areas, entries, na)) {
      }
    }
  }

  /** What is selected, on the fields: of those not overloaded, if any, all; or with best route
      selection those at the top that advertise the least distance. */
  lemma SelectedByFields(cfg: Config, areas: Areas, entries: PrefixEntries, na: NodeArea)
    requires Known(areas, entries) && na in Selected(cfg, areas, entries)
    ensures na in entries
    ensures forall o <- entries | areas[na.area].g.Overloaded(na.node) :: areas[o.area].g.Overloaded(o.node)
    ensures cfg.bestRouteSelection ==>
              forall o <- entries | areas[o.area].g.Overloaded(o.node) ==> areas[na.area].g.Overloaded(na.node) ::
                NotBehind(areas, entries, na, o) && (NotBehind(areas, entries, o, na) ==> entries[na].distance <= entries[o].distance)
  {
    KeptByFields(areas, entries);
    var kept := Undrained(areas, entries);
    if cfg.bestRouteSelection {
      assert TopAndNearest(areas, kept, na);
      TopByFields(areas, kept, na);
      hide Undrained, Top;
      forall o <- entries | areas[o.area].g.Overloaded(o.node) ==> areas[na.area].g.Overloaded(na.node)
        ensures NotBehind(areas, entries, na, o) && (NotBehind(areas, entries, o, na) ==> entries[na].distance <= entries[o].distance)
      {
        assert o in kept && NotBehind(areas, kept, na, o);
        if NotBehind(areas, entries, o, na) {
          AsGoodIsTop(areas, kept, na, o);
        }
      }
    }
  }

  lemma KeptByFields(areas: Areas, entries: PrefixEntries)
    requires Known(areas, entries)
    ensures var kept := Undrained(areas, entries);
            && (forall na <- kept :: na in entries && kept[na] == entries[na])
            && (forall na <- kept, o <- entries | areas[na.area].g.Overloaded(na.node) :: areas[o.area].g.Overloaded(o.node))
            && (forall na <- kept, o <- entries | areas[o.area].g.Overloaded(o.node) ==> areas[na.area].g.Overloaded(na.node) :: o in kept)
  {
    var some := map na | na in entries && !areas[na.area].g.Overloaded(na.node) :: entries[na];
    if some == map[] {
      forall na <- entries ensures areas[na.area].g.Overloaded(na.node) {
        assert na !in some;
      }
    }
  }

  /** Whoever is not behind one at the top is at the top. */
  lemma AsGoodIsTop(areas: Areas, entries: PrefixEntries, na: NodeArea, o: NodeArea)
    requires Known(areas, entries) && na in entries && o in entries
    requires (forall x <- entries :: NotBehind(areas, entries, na, x)) && NotBehind(areas, entries, o, na)
    ensures Top(areas, entries, o)
  {
    hide Top;
    TopByFields(areas, entries, o);
    forall x <- entries ensures NotBehind(areas, entries, o, x) {
      assert NotBehind(areas, entries, na, x);
    }
  }

  /** Top among the advertisements in `seen`. */
  predicate TopOf(areas: Areas, entries: PrefixEntries, seen: set<NodeArea>, na: NodeArea)
    requires Known(areas, entries) && seen <= entries.Keys
  {
    na in seen && forall o <- seen :: !Above(Preference(areas, entries, o), Preference(areas, entries, na))
  }

  /** The first part of selectRoutes: a running best that clears and refills the set. */
  method SelectTop(areas: Areas, entries: PrefixEntries) returns (top: set<NodeArea>)
    requires Known(areas, entries)
    ensures forall na :: na in top <==> Top(areas, entries, na)
    ensures forall na :: na in top <==> na in entries && forall o <- entries :: NotBehind(areas, entries, na, o)
  {
    top := {};
    var best: Option<(int, int, int)> := None;
    var todo := entries.Keys;
    while todo != {}
      invariant todo <= entries.Keys
      invariant best.None? <==> todo == entries.Keys
      invariant best.None? ==> top == {}
      invariant best.Some? ==> forall na <- entries.Keys - todo :: !Above(Preference(areas, entries, na), best.value)
      invariant best.Some? ==> exists na <- entries.Keys - todo :: Preference(areas, entries, na) == best.value
      invariant best.Some? ==> forall na :: na in top <==> na in entries.Keys - todo && Preference(areas, entries, na) == best.value
      decreases todo
    {
      var na :| na in todo;
      todo := todo - {na};
      var rank := Preference(areas, entries, na);
      if best.None? || !Above(best.value, rank) {
        if best.None? || Above(rank, best.value) {
          best, top := Some(rank), {};
        }
        top := top + {na};
      }
    }
    forall na ensures Top(areas, entries, na) <==> na in entries && forall o <- entries :: NotBehind(areas, entries, na, o) {
      TopByFields(areas, entries, na);
    }
  }

  /** selectShortestDistance. */
  method SelectShortestDistance(entries: PrefixEntries, from: set<NodeArea>) returns (nearest: set<NodeArea>)
    requires from <= entries.Keys
    ensures forall na :: na in nearest <==> na in from && forall o <- from :: entries[na].distance <= entries[o].distance
  {
    nearest := {};
    var best: Option<int> := None;
    var todo := from;
    while todo != {}
      invariant todo <= from
      invariant best.None? <==> todo == from
      invariant best.None? ==> nearest == {}
      invariant best.Some? ==> forall na <- from - todo :: best.value <= entries[na].distance
      invariant best.Some? ==> exists na <- from - todo :: entries[na].distance == best.value
      invariant best.Some? ==> forall na :: na in nearest <==> na in from - todo && entries[na].distance == best.value
      decreases todo
    {
      var na :| na in todo;
      todo := todo - {na};
      var dist := entries[na].distance;
      if best.None? || dist <= best.value {
        if best.None? || dist < best.value {
          best, nearest := Some(dist), {};
        }
        nearest := nearest + {na};
      }
    }
  }

  /** selectBestRoutes: which advertisements to route to. */
  method SelectBestRoutes(cfg: Config, areas: Areas, entries: PrefixEntries) returns (selected: set<NodeArea>)
    requires Known(areas, entries)
    ensures selected == Selected(cfg, areas, entries)
    ensures selected <= entries.Keys && (entries != map[] ==> selected != {})
  {
    hide NotBehind;
    var kept := FilterHardDrainedNodes(areas, entries);
    if cfg.bestRouteSelection {
      var top := SelectTop(areas, kept);
      selected := SelectShortestDistance(kept, top);
      if entries != map[] {
        TopExists(areas, kept, kept.Keys);
        ghost var first :| TopOf(areas, kept, kept.Keys, first);
        assert Top(areas, kept, first);
        NearestExists(kept, top);
      }
    } else {
      selected := kept.Keys;
    }
  }

  lemma {:induction false} TopExists(areas: Areas, entries: PrefixEntries, seen: set<NodeArea>)
    requires Known(areas, entries) && seen <= entries.Keys && seen != {}
    ensures exists na :: TopOf(areas, entries, seen, na)
    decreases seen
  {
    var na :| na in seen;
    if seen == {na} {
      assert TopOf(areas, entries, seen, na);
    } else {
      TopExists(areas, entries, seen - {na});
      var top :| TopOf(areas, entries, seen - {na}, top);
      var best := if Above(Preference(areas, entries, na), Preference(areas, entries, top)) then na else top;
      forall o <- seen ensures !Above(Preference(areas, entries, o), Preference(areas, entries, best)) {
        assert o == na || o in seen - {na};
      }
      assert TopOf(areas, entries, seen, best);
    }
  }

  lemma {:induction false} NearestExists(entries: PrefixEntries, from: set<NodeArea>)
    requires from <= entries.Keys && from != {}
    ensures exists na <- from :: forall o <- from :: entries[na].distance <= entries[o].distance
    decreases from
  {
    var na :| na in from;
    if from != {na} {
      NearestExists(entries, from - {na});
      var near :| near in from - {na} && forall o <- from - {na} :: entries[near].distance <= entries[o].distance;
      var best := if entries[na].distance < entries[near].distance then na else near;
      forall o <- from ensures entries[best].distance <= entries[o].distance {
        assert o == na || o in from - {na};
      }
    }
  }

  lemma DistanceIsUnique(q: Query, dsts: set<NodeName>, d: Option<nat>, e: Option<nat>)
    requires IsDistance(q, dsts, d) && IsDistance(q, dsts, e)
    ensures d == e
  {
  }

  /** One area of the route computation. */
  method AreaPaths(cfg: Config, areas: Areas, spfs: SpfResults, dsts: set<NodeName>, viaV4: bool, a: Area)
    returns (d: Option<nat>, hops: set<AreaHop>)
    requires SolvedAreas(cfg.my, areas, spfs) && a in areas
    ensures IsDistance(areas[a].Ask(cfg.my), dsts, d)
    ensures hops == if d.None? then {} else AreaHops(cfg, areas, dsts, viaV4, a, d.value)
  {
    hide Solved, BestWalkTo, UsedLinks, BestFirstLinks, HopsOver, SpfTies.EcmpComplete;
    var nextHops;
    d, nextHops := SelectBestPathsSpf(areas[a].Ask(cfg.my), spfs[a], dsts, viaV4);
    hops := set h <- nextHops :: (a, h);
  }

  /** So far: the nearest of the areas `done`. */
  ghost predicate CombinedSoFar(cfg: Config, areas: Areas, dsts: set<NodeName>, viaV4: bool, done: set<Area>, best: Option<nat>, hops: set<AreaHop>)
    requires done <= areas.Keys
  {
    match best
    case None => hops == {} && forall a <- done :: IsDistance(areas[a].Ask(cfg.my), dsts, None)
    case Some(n) => Combined(cfg, areas, dsts, viaV4, done, n, hops)
  }

  /** The running best over the areas: nearer clears, equally near adds. */
  function Joined(best: Option<nat>, hops: set<AreaHop>, d: Option<nat>, more: set<AreaHop>): (Option<nat>, set<AreaHop>) {
    if d.Some? && (best.None? || best.value >= d.value) then
      (d, (if best.None? || best.value > d.value then {} else hops) + more)
    else (best, hops)
  }

  lemma OneMoreArea(cfg: Config, areas: Areas, dsts: set<NodeName>, viaV4: bool, done: set<Area>, best: Option<nat>, hops: set<AreaHop>,
                    a: Area, d: Option<nat>, more: set<AreaHop>)
    requires done <= areas.Keys && a in areas && a !in done
    requires CombinedSoFar(cfg, areas, dsts, viaV4, done, best, hops)
    requires IsDistance(areas[a].Ask(cfg.my), dsts, d)
    requires more == if d.None? then {} else AreaHops(cfg, areas, dsts, viaV4, a, d.value)
    ensures var j := Joined(best, hops, d, more); CombinedSoFar(cfg, areas, dsts, viaV4, done + {a}, j.0, j.1)
  {
    hide IsDistance, AreaHops, Joined;
    forall e | IsDistance(areas[a].Ask(cfg.my), dsts, e) ensures e == d {
      DistanceIsUnique(areas[a].Ask(cfg.my), dsts, d, e);
    }
    if d.Some? {
      HopsHaveArea(cfg, areas, dsts, viaV4, a, d.value);
    }
    if best.None? {
      FirstFound(cfg, areas, dsts, viaV4, done, a, d, more);
    } else {
      Refound(cfg, areas, dsts, viaV4, done, best.value, hops, a, d, more);
    }
  }

  lemma HopsHaveArea(cfg: Config, areas: Areas, dsts: set<NodeName>, viaV4: bool, a: Area, n: nat)
    requires a in areas
    ensures forall h <- AreaHops(cfg, areas, dsts, viaV4, a, n) :: h.0 == a
  {
  }

  lemma FirstFound(cfg: Config, areas: Areas, dsts: set<NodeName>, viaV4: bool, done: set<Area>, a: Area, d: Option<nat>, more: set<AreaHop>)
    requires done <= areas.Keys && a in areas && a !in done
    requires forall b <- done :: IsDistance(areas[b].Ask(cfg.my), dsts, None)
    requires forall e :: IsDistance(areas[a].Ask(cfg.my), dsts, e) <==> e == d
    requires more == if d.None? then {} else AreaHops(cfg, areas, dsts, viaV4, a, d.value)
    requires forall h <- more :: h.0 == a
    ensures var j := Joined(None, {}, d, more); CombinedSoFar(cfg, areas, dsts, viaV4, done + {a}, j.0, j.1)
  {
    hide IsDistance, AreaHops;
    forall b <- done, m: nat ensures !IsDistance(areas[b].Ask(cfg.my), dsts, Some(m)) {
      if IsDistance(areas[b].Ask(cfg.my), dsts, Some(m)) {
        DistanceIsUnique(areas[b].Ask(cfg.my), dsts, None, Some(m));
      }
    }
  }

  lemma Refound(cfg: Config, areas: Areas, dsts: set<NodeName>, viaV4: bool, done: set<Area>, best: nat, hops: set<AreaHop>, a: Area, d: Option<nat>, more: set<AreaHop>)
    requires done <= areas.Keys && a in areas && a !in done
    requires Combined(cfg, areas, dsts, viaV4, done, best, hops)
    requires forall e :: IsDistance(areas[a].Ask(cfg.my), dsts, e) <==> e == d
    requires more == if d.None? then {} else AreaHops(cfg, areas, dsts, viaV4, a, d.value)
    requires forall h <- more :: h.0 == a
    ensures var j := Joined(Some(best), hops, d, more); CombinedSoFar(cfg, areas, dsts, viaV4, done + {a}, j.0, j.1)
  {
    hide IsDistance, AreaHops;
    assert IsDistance(areas[a].Ask(cfg.my), dsts, d);
  }

  lemma NothingCombined(cfg: Config, areas: Areas, dsts: set<NodeName>, viaV4: bool)
    ensures CombinedSoFar(cfg, areas, dsts, viaV4, {}, None, {})
  {
  }

  method CombineAreas(cfg: Config, areas: Areas, spfs: SpfResults, dsts: set<NodeName>, viaV4: bool, used: set<Area>)
    returns (best: Option<nat>, hops: set<AreaHop>)
    requires SolvedAreas(cfg.my, areas, spfs) && used <= areas.Keys
    ensures CombinedSoFar(cfg, areas, dsts, viaV4, used, best, hops)
  {
    best, hops := None, {};
    var todo := used;
    ghost var done: set<Area> := {};
    NothingCombined(cfg, areas, dsts, viaV4);
    hide CombinedSoFar, SolvedAreas, IsDistance, AreaHops;
    while todo != {}
      invariant todo !! done && todo + done == used
      invariant CombinedSoFar(cfg, areas, dsts, viaV4, done, best, hops)
      decreases todo
    {
      var a :| a in todo;
      var d, more := AreaPaths(cfg, areas, spfs, dsts, viaV4, a);
      OneMoreArea(cfg, areas, dsts, viaV4, done, best, hops, a, d, more);
      if d.Some? && (best.None? || best.value >= d.value) {
        if best.None? || best.value > d.value {
          best, hops := d, {};
        }
        hops := hops + more;
      }
      todo, done := todo - {a}, done + {a};
    }
    assert done == used;
  }

  /** The first of a std::set. */
  method Begin(nas: set<NodeArea>) returns (first: NodeArea)
    requires nas != {}
    ensures first == FirstOf(nas)
  {
    first :| first in nas;
    var todo := nas;
    while todo != {}
      invariant todo <= nas && first in nas
      invariant forall o <- nas - todo :: o == first || Before(first, o)
      decreases todo
    {
      var na :| na in todo;
      todo := todo - {na};
      BeforeIsTotal(na, first);
      if Before(na, first) {
        forall o <- nas - todo ensures o == na || Before(na, o) {
          assert o == na || o == first || Before(first, o);
        }
        first := na;
      }
    }
    FirstIsUnique(nas, first, FirstOf(nas));
  }

  lemma BeforeIsTotal(a: NodeArea, b: NodeArea)
    ensures a == b || Before(a, b) || Before(b, a)
  {
  }

  lemma FirstIsUnique(nas: set<NodeArea>, a: NodeArea, b: NodeArea)
    requires First(nas, a) && First(nas, b)
    ensures a == b
  {
  }

  /** getMinNextHopThreshold. */
  method GetMinNextHopThreshold(entries: PrefixEntries, selected: set<NodeArea>) returns (threshold: Option<int>)
    requires selected <= entries.Keys
    ensures forall count: nat :: (threshold.Some? && Exceeds(threshold.value, count)) <==> !Enough(entries, selected, count)
  {
    threshold := None;
    var todo := selected;
    while todo != {}
      invariant todo <= selected
      invariant threshold.Some? ==> exists na <- selected - todo :: entries[na].minNexthop == threshold
      invariant forall na <- selected - todo :: entries[na].minNexthop.Some? ==> threshold.Some? && entries[na].minNexthop.value <= threshold.value
      decreases todo
    {
      var na :| na in todo;
      todo := todo - {na};
      var min := entries[na].minNexthop;
      if min.Some? && (threshold.None? || min.value > threshold.value) {
        threshold := min;
      }
    }
    assert threshold.Some? ==> Demands(entries, selected, threshold.value);
  }

  /** If an advertisement's node can be reached in its area, the areas combine to some distance. */
  lemma SomeAreaReaches(cfg: Config, areas: Areas, dsts: set<NodeName>, viaV4: bool, used: set<Area>, best: Option<nat>, hops: set<AreaHop>, na: NodeArea)
    requires used <= areas.Keys && CombinedSoFar(cfg, areas, dsts, viaV4, used, best, hops)
    requires na.area in used && na.node in dsts && areas[na.area].Ask(cfg.my).Reachable(na.node)
    ensures best.Some?
  {
  }

  /** createRouteForPrefix from the reachable advertisements on, and addBestPaths. */
  method RouteToEntries(cfg: Config, areas: Areas, spfs: SpfResults, entries: PrefixEntries, prefix: Prefix, local: bool)
    returns (r: Option<RibEntry>)
    requires SolvedAreas(cfg.my, areas, spfs) && Known(areas, entries)
    requires forall na <- entries :: areas[na.area].Ask(cfg.my).Reachable(na.node)
    ensures RouteFrom(cfg, areas, entries, prefix, local, r)
  {
    hide SolvedAreas, Query.Reachable, Selected, CombinedSoFar, FirstOf, Combined, Enough;
    var selected := SelectBestRoutes(cfg, areas, entries);
    var dsts := set na <- selected :: na.node;
    if selected == {} || cfg.my in dsts {
      return None;
    }
    var used := set na <- selected | na.area in areas :: na.area;
    var best, hops := CombineAreas(cfg, areas, spfs, dsts, prefix.isV4 && !cfg.v4OverV6, used);
    var first := Begin(selected);
    assert first in selected;
    SomeAreaReaches(cfg, areas, dsts, prefix.isV4 && !cfg.v4OverV6, used, best, hops, first);
    CombinedInTheEnd(cfg, areas, dsts, prefix.isV4 && !cfg.v4OverV6, used, best, hops);
    var threshold := GetMinNextHopThreshold(entries, selected);
    if hops == {} || (threshold.Some? && Exceeds(threshold.value, |hops|)) {
      r := None;
    } else {
      r := Some(EntryOf(areas, entries, prefix, first, best.value, hops, local));
    }
    assert CombinedRoute(cfg, areas, entries, prefix, local, selected, dsts, used, best.value, hops, r);
  }

  lemma CombinedInTheEnd(cfg: Config, areas: Areas, dsts: set<NodeName>, viaV4: bool, used: set<Area>, best: Option<nat>, hops: set<AreaHop>)
    requires used <= areas.Keys && CombinedSoFar(cfg, areas, dsts, viaV4, used, best, hops) && best.Some?
    ensures Combined(cfg, areas, dsts, viaV4, used, best.value, hops)
  {
  }

  type Prefixes = map<Prefix, PrefixEntries>

  ghost predicate AllKnown(areas: Areas, prefixes: Prefixes) {
    forall p <- prefixes :: Known(areas, prefixes[p])
  }

  /** `r` is what createRouteForPrefix owes to `prefix`. */
  ghost predicate IsPrefixRoute(cfg: Config, areas: Areas, prefixes: Prefixes, prefix: Prefix, r: Option<RibEntry>)
    requires AllKnown(areas, prefixes)
  {
    if prefix in prefixes then IsRoute(cfg, areas, prefixes[prefix], prefix, r) else r.None?
  }

  method CreateRouteForPrefix(cfg: Config, areas: Areas, spfs: SpfResults, prefixes: Prefixes, prefix: Prefix) returns (r: Option<RibEntry>)
    requires SolvedAreas(cfg.my, areas, spfs) && AllKnown(areas, prefixes)
    ensures IsPrefixRoute(cfg, areas, prefixes, prefix, r)
  {
    if prefix.isV4 && !cfg.enableV4 && !cfg.v4OverV6 {
      return None;
    }
    if prefix !in prefixes {
      return None;
    }
    hide SolvedAreas, RouteFrom, Query.Reachable, LocalConsidered;
    var entries, local := GetReachablePrefixEntries(cfg.my, areas, spfs, prefixes[prefix]);
    if entries == map[] {
      NoEntriesNoRoute(cfg, areas, prefix, local);
      return None;
    }
    r := RouteToEntries(cfg, areas, spfs, entries, prefix, local);
  }

  lemma NoEntriesNoRoute(cfg: Config, areas: Areas, prefix: Prefix, local: bool)
    ensures RouteFrom(cfg, areas, map[], prefix, local, None)
  {
  }

  lemma CombinedIsUnique(cfg: Config, areas: Areas, dsts: set<NodeName>, viaV4: bool, used: set<Area>, n: nat, hops: set<AreaHop>, n': nat, hops': set<AreaHop>)
    requires used <= areas.Keys
    requires Combined(cfg, areas, dsts, viaV4, used, n, hops) && Combined(cfg, areas, dsts, viaV4, used, n', hops')
    ensures n == n' && hops == hops'
  {
  }

  lemma CombinedRouteIsUnique(cfg: Config, areas: Areas, entries: PrefixEntries, prefix: Prefix, local: bool,
                              selected: set<NodeArea>, dsts: set<NodeName>, used: set<Area>,
                              n: nat, hops: set<AreaHop>, r: Option<RibEntry>, n': nat, hops': set<AreaHop>, r': Option<RibEntry>)
    requires Known(areas, entries) && used <= areas.Keys && selected != {}
    requires CombinedRoute(cfg, areas, entries, prefix, local, selected, dsts, used, n, hops, r)
    requires CombinedRoute(cfg, areas, entries, prefix, local, selected, dsts, used, n', hops', r')
    ensures r == r'
  {
    hide Combined, FirstOf, Enough, EntryOf;
    CombinedIsUnique(cfg, areas, dsts, prefix.isV4 && !cfg.v4OverV6, used, n, hops, n', hops');
  }

  lemma RouteFromIsUnique(cfg: Config, areas: Areas, entries: PrefixEntries, prefix: Prefix, local: bool, r: Option<RibEntry>, r': Option<RibEntry>)
    requires Known(areas, entries) && RouteFrom(cfg, areas, entries, prefix, local, r) && RouteFrom(cfg, areas, entries, prefix, local, r')
    ensures r == r'
  {
    hide Selected, CombinedRoute;
    var selected := Selected(cfg, areas, entries);
    var dsts, used := set na <- selected :: na.node, set na <- selected | na.area in areas :: na.area;
    if selected != {} && cfg.my !in dsts {
      var n: nat, hops :| CombinedRoute(cfg, areas, entries, prefix, local, selected, dsts, used, n, hops, r);
      var n': nat, hops' :| CombinedRoute(cfg, areas, entries, prefix, local, selected, dsts, used, n', hops', r');
      CombinedRouteIsUnique(cfg, areas, entries, prefix, local, selected, dsts, used, n, hops, r, n', hops', r');
    }
  }

  /** There is one route at most that answers the specification. */
  lemma RouteIsUnique(cfg: Config, areas: Areas, entries: PrefixEntries, prefix: Prefix, r: Option<RibEntry>, r': Option<RibEntry>)
    requires Known(areas, entries) && IsRoute(cfg, areas, entries, prefix, r) && IsRoute(cfg, areas, entries, prefix, r')
    ensures r == r'
  {
    hide Query.Reachable, RouteFrom, LocalConsidered;
    if !(prefix.isV4 && !cfg.enableV4 && !cfg.v4OverV6) {
      RouteFromIsUnique(cfg, areas, Reaching(cfg.my, areas, entries), prefix, LocalConsidered(cfg.my, entries), r, r');
    }
  }

  /** Hard-drained, or with a metric increment. */
  predicate DrainedNode(a: AreaState, n: NodeName) {
    (n in a.g.overloads && a.g.overloads[n]) || (n in a.increments && a.increments[n] != 0)
  }

  /** What a route says of its prefix: it is made of the first selected advertisement in the order of
      node and area, marked as drained if that node is. */
  lemma RouteIsMadeOf(cfg: Config, areas: Areas, entries: PrefixEntries, prefix: Prefix, e: RibEntry, selected: set<NodeArea>) returns (first: NodeArea)
    requires Known(areas, entries) && IsRoute(cfg, areas, entries, prefix, Some(e))
    requires selected == Selected(cfg, areas, Reaching(cfg.my, areas, entries))
    ensures first in selected && first in entries && forall o <- selected :: o.node != cfg.my
    ensures forall o <- selected :: o == first || first.node < o.node || (first.node == o.node && first.area < o.area)
    ensures e.prefix == prefix && e.bestArea == first.area && !e.doNotInstall && e.nexthops != {}
    ensures e.best == if DrainedNode(areas[first.area], first.node) then entries[first].(drainMetric := 1) else entries[first]
    ensures e.localConsidered <==> exists na <- entries :: na.node == cfg.my && entries[na].areaStackEmpty
    ensures forall na <- selected | na in entries && entries[na].minNexthop.Some? && entries[na].minNexthop.value >= 0 ::
              |e.nexthops| >= entries[na].minNexthop.value
  {
    var n, hops := RouteParts(cfg, areas, entries, prefix, e, selected);
    hide Selected, Query.Reachable, Combined, IsRoute;
    var reaching := Reaching(cfg.my, areas, entries);
    first := FirstOf(selected);
    hide FirstOf;
    forall na <- selected | na in entries && entries[na].minNexthop.Some? ensures Demands(reaching, selected, entries[na].minNexthop.value) {
    }
  }

  /** And how far and over what: its cost is the distance to the selected nodes in the nearest of
      their areas; its next hops have that cost and are in such areas. */
  lemma RouteLeads(cfg: Config, areas: Areas, entries: PrefixEntries, prefix: Prefix, e: RibEntry, selected: set<NodeArea>, dsts: set<NodeName>)
    requires Known(areas, entries) && IsRoute(cfg, areas, entries, prefix, Some(e))
    requires selected == Selected(cfg, areas, Reaching(cfg.my, areas, entries)) && dsts == set na <- selected :: na.node
    ensures exists na <- selected :: na.area in areas && IsDistance(areas[na.area].Ask(cfg.my), dsts, Some(e.igpCost))
    ensures forall na <- selected, m: nat | na.area in areas && IsDistance(areas[na.area].Ask(cfg.my), dsts, Some(m)) :: e.igpCost <= m
    ensures forall h <- e.nexthops :: h.1.metric == e.igpCost && h.0 in areas && exists na <- selected :: na.area == h.0
    ensures forall h :: h in e.nexthops <==>
              && (exists na <- selected :: na.area == h.0) && h.0 in areas && IsDistance(areas[h.0].Ask(cfg.my), dsts, Some(e.igpCost))
              && h.1 in HopsOver(areas[h.0].Ask(cfg.my), prefix.isV4 && !cfg.v4OverV6, UsedLinks(areas[h.0].Ask(cfg.my), dsts), e.igpCost)
  {
    hide Selected, Reaching, IsRoute, IsDistance, UsedLinks, HopsOver, FirstOf, Enough, Combined, LocalConsidered;
    var n, hops := RouteParts(cfg, areas, entries, prefix, e, selected);
    assert e.nexthops == hops && e.igpCost == n;
    CombinedLeads(cfg, areas, dsts, prefix.isV4 && !cfg.v4OverV6, selected, n, hops);
  }

  lemma CombinedLeads(cfg: Config, areas: Areas, dsts: set<NodeName>, viaV4: bool, selected: set<NodeArea>, n: nat, hops: set<AreaHop>)
    requires Combined(cfg, areas, dsts, viaV4, set na <- selected | na.area in areas :: na.area, n, hops)
    ensures exists na <- selected :: na.area in areas && IsDistance(areas[na.area].Ask(cfg.my), dsts, Some(n))
    ensures forall na <- selected, m: nat | na.area in areas && IsDistance(areas[na.area].Ask(cfg.my), dsts, Some(m)) :: n <= m
    ensures forall h <- hops :: h.1.metric == n && h.0 in areas && exists na <- selected :: na.area == h.0
    ensures forall h :: h in hops <==>
              && (exists na <- selected :: na.area == h.0) && h.0 in areas && IsDistance(areas[h.0].Ask(cfg.my), dsts, Some(n))
              && h.1 in HopsOver(areas[h.0].Ask(cfg.my), viaV4, UsedLinks(areas[h.0].Ask(cfg.my), dsts), n)
  {
    hide IsDistance, UsedLinks, HopsOver;
    forall h: AreaHop | h in hops ensures h.1.metric == n {
      HopsHaveMetric(cfg, areas, dsts, viaV4, h.0, n, h);
    }
    forall h: AreaHop | h.0 in areas
      ensures h in AreaHops(cfg, areas, dsts, viaV4, h.0, n) <==> h.1 in HopsOver(areas[h.0].Ask(cfg.my), viaV4, UsedLinks(areas[h.0].Ask(cfg.my), dsts), n)
    {
      assert h == (h.0, h.1);
    }
  }

  lemma RouteParts(cfg: Config, areas: Areas, entries: PrefixEntries, prefix: Prefix, e: RibEntry, selected: set<NodeArea>) returns (n: nat, hops: set<AreaHop>)
    requires Known(areas, entries) && IsRoute(cfg, areas, entries, prefix, Some(e))
    requires selected == Selected(cfg, areas, Reaching(cfg.my, areas, entries))
    ensures var reaching := Reaching(cfg.my, areas, entries);
            var dsts, used := set na <- selected :: na.node, set na <- selected | na.area in areas :: na.area;
            && selected != {} && selected <= reaching.Keys && cfg.my !in dsts && FirstOf(selected) in reaching
            && Combined(cfg, areas, dsts, prefix.isV4 && !cfg.v4OverV6, used, n, hops)
            && hops != {} && Enough(reaching, selected, |hops|)
            && e == EntryOf(areas, reaching, prefix, FirstOf(selected), n, hops, LocalConsidered(cfg.my, entries))
  {
    hide Query.Reachable, Combined, FirstOf, Enough, EntryOf, LocalConsidered, Selected;
    var reaching := Reaching(cfg.my, areas, entries);
    SelectedAreThere(cfg, areas, reaching);
    var dsts, used := set na <- selected :: na.node, set na <- selected | na.area in areas :: na.area;
    n, hops :| CombinedRoute(cfg, areas, reaching, prefix, LocalConsidered(cfg.my, entries), selected, dsts, used, n, hops, Some(e));
  }

  lemma HopsHaveMetric(cfg: Config, areas: Areas, dsts: set<NodeName>, viaV4: bool, a: Area, n: nat, h: AreaHop)
    requires a in areas && h in AreaHops(cfg, areas, dsts, viaV4, a, n)
    ensures h.1.metric == n
  {
    hide UsedLinks;
  }

  lemma SelectedAreThere(cfg: Config, areas: Areas, entries: PrefixEntries)
    requires Known(areas, entries)
    ensures Selected(cfg, areas, entries) <= entries.Keys
  {
  }
}
