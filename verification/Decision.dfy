/** Decision: pending updates, the full rebuild and the per-prefix patch, and that the route table
    is the same whichever of the two is used. */
module Decisions {
  import opened Options
  import opened Topology
  import opened Spf
  import opened NextHops
  import opened LinkMerge
  import opened Adjacencies
  import opened LinkStates
  import opened RouteSpec
  import opened RouteSelection
  import opened RebuildGate
  import opened OwnDrain
  import opened Advertised
  import RouteUpdates

  type Table = map<Prefix, RibEntry>
  type RoutePatch = RouteUpdates.Patch<Prefix, RibEntry>

  /** What routes are computed from. */
  datatype Lsdb = Lsdb(areas: Areas, prefixes: Prefixes, statics: Table)

  ghost predicate AreaOk(a: AreaState) {
    InStep(a.dbs, a.g, a.increments)
  }

  ghost predicate AreasOk(areas: Areas) {
    forall a <- areas :: AreaOk(areas[a])
  }

  predicate Keyed(t: Table) {
    forall p <- t :: t[p].prefix == p
  }

  ghost predicate LsdbOk(d: Lsdb) {
    AreasOk(d.areas) && AllKnown(d.areas, d.prefixes) && Keyed(d.statics)
  }

  /** The route owed to `p`: computed, or else static. */
  ghost predicate IsOwed(cfg: Config, d: Lsdb, p: Prefix, r: Option<RibEntry>)
    requires AllKnown(d.areas, d.prefixes)
  {
    exists c :: IsPrefixRoute(cfg, d.areas, d.prefixes, p, c) && r == (if c.Some? then c else Lookup(d.statics, p))
  }

  /** Equal as RIB entries are compared. */
  predicate SameRoute(a: Option<RibEntry>, b: Option<RibEntry>) {
    if a.None? then b.None? else b.Some? && a.value.Same(b.value)
  }

  /** The table holds the route owed to `p`. */
  ghost predicate Holds(cfg: Config, d: Lsdb, t: Table, p: Prefix)
    requires AllKnown(d.areas, d.prefixes)
  {
    exists r :: IsOwed(cfg, d, p, r) && SameRoute(Lookup(t, p), r)
  }

  lemma OwedIsUnique(cfg: Config, d: Lsdb, p: Prefix, r: Option<RibEntry>, r': Option<RibEntry>)
    requires AllKnown(d.areas, d.prefixes) && IsOwed(cfg, d, p, r) && IsOwed(cfg, d, p, r')
    ensures r == r'
  {
    hide IsRoute;
    var c :| IsPrefixRoute(cfg, d.areas, d.prefixes, p, c) && r == (if c.Some? then c else Lookup(d.statics, p));
    var c' :| IsPrefixRoute(cfg, d.areas, d.prefixes, p, c') && r' == (if c'.Some? then c' else Lookup(d.statics, p));
    if p in d.prefixes {
      RouteIsUnique(cfg, d.areas, d.prefixes[p], p, c, c');
    }
  }

  /** A computed route is for its prefix. */
  lemma RouteHasPrefix(cfg: Config, areas: Areas, entries: PrefixEntries, p: Prefix, r: Option<RibEntry>)
    requires Known(areas, entries) && IsRoute(cfg, areas, entries, p, r) && r.Some?
    ensures r.value.prefix == p
  {
    hide Combined, FirstOf, Selected, Reaching;
  }

  /** Every next hop of a route is made of an adjacency that we advertise in its area: the address of
      the prefix's own family, unless IPv4 goes over IPv6. */
  lemma RouteHopsAreAdvertised(cfg: Config, areas: Areas, entries: PrefixEntries, prefix: Prefix, e: RibEntry, h: AreaHop)
    requires AreasOk(areas) && Known(areas, entries) && IsRoute(cfg, areas, entries, prefix, Some(e)) && h in e.nexthops
    ensures h.0 in areas && cfg.my in areas[h.0].dbs
    ensures exists adj <- areas[h.0].dbs[cfg.my].adjacencies :: MadeOf(adj, prefix.isV4 && !cfg.v4OverV6, e.igpCost, h.1)
  {
    hide IsRoute, Selected, Query.Reachable, IsDistance, HopsOver, UsedLinks, InStep, MadeOf;
    var selected := Selected(cfg, areas, Reaching(cfg.my, areas, entries));
    var dsts := set na <- selected :: na.node;
    RouteLeads(cfg, areas, entries, prefix, e, selected, dsts);
    var a := areas[h.0];
    UsedHopsAreAdvertised(a.dbs, a.g, a.increments, a.Ask(cfg.my), prefix.isV4 && !cfg.v4OverV6, dsts, e.igpCost, h.1);
  }

  /** An SPF result per area. */
  method SolveAreas(my: NodeName, areas: Areas) returns (spfs: SpfResults)
    requires AreasOk(areas)
    ensures SolvedAreas(my, areas, spfs)
  {
    hide InStep, Solved, Graph.Valid;
    spfs := map[];
    var todo := areas.Keys;
    while todo != {}
      invariant todo <= areas.Keys && spfs.Keys == areas.Keys - todo
      invariant forall a <- spfs :: areas[a].g.Valid() && Solved(areas[a].Ask(my), spfs[a])
      decreases todo
    {
      var a :| a in todo;
      StepIsValid(areas[a].dbs, areas[a].g, areas[a].increments);
      var r := RunSpf(areas[a].Ask(my));
      spfs, todo := spfs[a := r], todo - {a};
    }
  }

  /** createRouteForPrefixOrGetStaticRoute. */
  method CreateRouteForPrefixOrGetStaticRoute(cfg: Config, d: Lsdb, spfs: SpfResults, p: Prefix) returns (r: Option<RibEntry>)
    requires LsdbOk(d) && SolvedAreas(cfg.my, d.areas, spfs)
    ensures IsOwed(cfg, d, p, r) && (r.Some? ==> r.value.prefix == p)
  {
    hide IsRoute, AreasOk, SolvedAreas;
    r := CreateRouteForPrefix(cfg, d.areas, spfs, d.prefixes, p);
    if r.Some? {
      RouteHasPrefix(cfg, d.areas, d.prefixes[p], p, r);
      return;
    }
    r := if p in d.statics then Some(d.statics[p]) else None;
  }

  /** `my` has an adjacency database somewhere. */
  ghost predicate Present(my: NodeName, areas: Areas) {
    exists a <- areas :: my in areas[a].dbs
  }

  lemma LsdbParts(d: Lsdb)
    requires LsdbOk(d)
    ensures AreasOk(d.areas) && AllKnown(d.areas, d.prefixes) && Keyed(d.statics)
  {
  }

  /** The routes of all advertised prefixes. */
  method ComputedRoutes(cfg: Config, d: Lsdb) returns (db: Table)
    requires LsdbOk(d)
    ensures Keyed(db) && AllKnown(d.areas, d.prefixes)
    ensures forall p :: IsPrefixRoute(cfg, d.areas, d.prefixes, p, Lookup(db, p))
  {
    hide LsdbOk, AreasOk, AllKnown, SolvedAreas, IsPrefixRoute;
    LsdbParts(d);
    var spfs := SolveAreas(cfg.my, d.areas);
    db := map[];
    var todo := d.prefixes.Keys;
    while todo != {}
      invariant todo <= d.prefixes.Keys && Keyed(db) && db.Keys <= d.prefixes.Keys - todo
      invariant forall p <- d.prefixes.Keys - todo :: IsPrefixRoute(cfg, d.areas, d.prefixes, p, Lookup(db, p))
      decreases todo
    {
      var p :| p in todo;
      var r := CreateRouteForPrefix(cfg, d.areas, spfs, d.prefixes, p);
      ghost var before := db;
      if r.Some? {
        PrefixRouteHasPrefix(cfg, d.areas, d.prefixes, p, r);
        db := db[r.value.prefix := r.value];
      }
      forall q <- d.prefixes.Keys - todo ensures IsPrefixRoute(cfg, d.areas, d.prefixes, q, Lookup(db, q)) {
        assert Lookup(db, q) == Lookup(before, q);
      }
      todo := todo - {p};
      assert Lookup(db, p) == r;
    }
    forall p ensures IsPrefixRoute(cfg, d.areas, d.prefixes, p, Lookup(db, p)) {
      if p !in d.prefixes {
        NoAdvertisementNoRoute(cfg, d.areas, d.prefixes, p);
      }
    }
  }

  lemma PrefixRouteHasPrefix(cfg: Config, areas: Areas, prefixes: Prefixes, p: Prefix, r: Option<RibEntry>)
    requires AllKnown(areas, prefixes) && IsPrefixRoute(cfg, areas, prefixes, p, r) && r.Some?
    ensures r.value.prefix == p
  {
    hide IsRoute;
    RouteHasPrefix(cfg, areas, prefixes[p], p, r);
  }

  lemma NoAdvertisementNoRoute(cfg: Config, areas: Areas, prefixes: Prefixes, p: Prefix)
    requires AllKnown(areas, prefixes) && p !in prefixes
    ensures IsPrefixRoute(cfg, areas, prefixes, p, None)
  {
  }

  /** Static routes for the prefixes without a computed one. */
  method AddStatics(routes: Table, statics: Table) returns (t: Table)
    requires Keyed(routes) && Keyed(statics)
    ensures Keyed(t) && forall p :: Lookup(t, p) == if p in routes then Some(routes[p]) else Lookup(statics, p)
  {
    var todo := statics.Keys;
    t := routes;
    while todo != {}
      invariant todo <= statics.Keys && Keyed(t)
      invariant forall p :: Lookup(t, p) == if p in routes then Some(routes[p]) else if p in todo then None else Lookup(statics, p)
      decreases todo
    {
      var p :| p in todo;
      todo := todo - {p};
      if p !in t {
        t := t[statics[p].prefix := statics[p]];
      }
    }
  }

  /** buildRouteDb: nothing if our own node is unknown, else every route owed. */
  method BuildRouteDb(cfg: Config, d: Lsdb) returns (db: Option<Table>)
    requires LsdbOk(d)
    ensures db.Some? <==> Present(cfg.my, d.areas)
    ensures db.Some? ==> Keyed(db.value) && forall p :: IsOwed(cfg, d, p, Lookup(db.value, p))
  {
    hide IsPrefixRoute, LsdbOk, AreasOk, AllKnown, Keyed;
    LsdbParts(d);
    if !(exists a <- d.areas :: cfg.my in d.areas[a].dbs) {
      return None;
    }
    var routes := ComputedRoutes(cfg, d);
    var t := AddStatics(routes, d.statics);
    db := Some(t);
    forall p ensures IsOwed(cfg, d, p, Lookup(t, p)) {
      assert IsPrefixRoute(cfg, d.areas, d.prefixes, p, Lookup(routes, p));
    }
  }

  /** What calculateUpdate answers: changed and new entries, and the prefixes gone. */
  function Difference(from: Table, to: Table): RoutePatch {
    RouteUpdates.Patch(map p | p in to && (p !in from || !from[p].Same(to[p])) :: to[p], from.Keys - to.Keys)
  }

  /** The table has the entry `r` for `p`, or none: the same prefix, next hops, best advertisement
      and flags. Area and cost may differ. */
  predicate Carries(t: Table, p: Prefix, r: Option<RibEntry>) {
    && (p in t <==> r.Some?)
    && (p in t && r.Some? ==>
          && t[p].prefix == r.value.prefix && t[p].nexthops == r.value.nexthops && t[p].best == r.value.best
          && t[p].doNotInstall == r.value.doNotInstall && t[p].localConsidered == r.value.localConsidered)
  }

  lemma SameRouteIsCarried(t: Table, p: Prefix, r: Option<RibEntry>)
    ensures SameRoute(Lookup(t, p), r) <==> Carries(t, p, r)
  {
  }

  method CalculateUpdate(from: Table, to: Table) returns (delta: RoutePatch)
    requires Keyed(to)
    ensures delta == Difference(from, to)
    ensures forall p :: p in delta.updates <==> p in to && !Carries(from, p, Some(to[p]))
    ensures forall p <- delta.updates :: delta.updates[p] == to[p]
    ensures delta.deletes == from.Keys - to.Keys
  {
    var updates, todo := map[], to.Keys;
    while todo != {}
      invariant todo <= to.Keys
      invariant updates == map p | p in to.Keys - todo && (p !in from || !from[p].Same(to[p])) :: to[p]
      decreases todo
    {
      var p :| p in todo;
      todo := todo - {p};
      if p !in from || !from[p].Same(to[p]) {
        updates := updates[to[p].prefix := to[p]];
      }
    }
    var deletes: set<Prefix> := {};
    todo := from.Keys;
    while todo != {}
      invariant todo <= from.Keys
      invariant deletes == (from.Keys - todo) - to.Keys
      decreases todo
    {
      var p :| p in todo;
      todo := todo - {p};
      if p !in to {
        deletes := deletes + {p};
      }
    }
    delta := RouteUpdates.Patch(updates, deletes);
  }

  /** The difference leads from one table to the other, up to entry equality, and never installs
      and removes one prefix. */
  lemma DifferenceLeads(from: Table, to: Table)
    ensures RouteUpdates.Disjoint(Difference(from, to))
    ensures RouteUpdates.Apply(from, Difference(from, to)).Keys == to.Keys
    ensures forall p :: SameRoute(Lookup(RouteUpdates.Apply(from, Difference(from, to)), p), Lookup(to, p))
    ensures forall p :: Carries(RouteUpdates.Apply(from, Difference(from, to)), p, Lookup(to, p))
  {
  }

  /** The table holds the routes owed to all prefixes but some. */
  ghost predicate Current(cfg: Config, d: Lsdb, t: Table, except: set<Prefix>)
    requires AllKnown(d.areas, d.prefixes)
  {
    forall p | p !in except :: Holds(cfg, d, t, p)
  }

  /** A current table has the entry owed to every prefix, field by field. */
  lemma CurrentCarries(cfg: Config, d: Lsdb, t: Table, p: Prefix, r: Option<RibEntry>)
    requires AllKnown(d.areas, d.prefixes) && Current(cfg, d, t, {}) && IsOwed(cfg, d, p, r)
    ensures Carries(t, p, r)
  {
    hide AllKnown, IsOwed, SameRoute, Carries;
    assert Holds(cfg, d, t, p);
    var o :| IsOwed(cfg, d, p, o) && SameRoute(Lookup(t, p), o);
    OwedIsUnique(cfg, d, p, o, r);
    SameRouteIsCarried(t, p, r);
  }

  lemma KnownStays(areas: Areas, areas': Areas, prefixes: Prefixes)
    requires AllKnown(areas, prefixes) && areas.Keys <= areas'.Keys
    ensures AllKnown(areas', prefixes)
  {
  }

  /** A route in `areas` is one in `areas'`. */
  ghost predicate RoutesStay(cfg: Config, areas: Areas, areas': Areas) {
    forall entries, prefix, r | Known(areas, entries) && Known(areas', entries) && IsRoute(cfg, areas, entries, prefix, r) ::
      IsRoute(cfg, areas', entries, prefix, r)
  }

  lemma HoldsStill(cfg: Config, d: Lsdb, areas': Areas, t: Table, p: Prefix)
    requires AllKnown(d.areas, d.prefixes) && AllKnown(areas', d.prefixes) && RoutesStay(cfg, d.areas, areas') && Holds(cfg, d, t, p)
    ensures Holds(cfg, d.(areas := areas'), t, p)
  {
    hide IsRoute;
    var r :| IsOwed(cfg, d, p, r) && SameRoute(Lookup(t, p), r);
    var c :| IsPrefixRoute(cfg, d.areas, d.prefixes, p, c) && r == (if c.Some? then c else Lookup(d.statics, p));
    assert IsPrefixRoute(cfg, areas', d.prefixes, p, c);
    assert IsOwed(cfg, d.(areas := areas'), p, r);
  }

  /** A current table stays current while the routes stay. */
  lemma CurrentStill(cfg: Config, d: Lsdb, areas': Areas, t: Table, except: set<Prefix>)
    requires AllKnown(d.areas, d.prefixes) && AllKnown(areas', d.prefixes) && RoutesStay(cfg, d.areas, areas') && Current(cfg, d, t, except)
    ensures Current(cfg, d.(areas := areas'), t, except)
  {
    hide RoutesStay, Holds, AllKnown;
    forall p | p !in except ensures Holds(cfg, d.(areas := areas'), t, p) {
      HoldsStill(cfg, d, areas', t, p);
    }
  }

  lemma CurrentElsewhere(cfg: Config, d: Lsdb, d': Lsdb, t: Table, except: set<Prefix>, changed: set<Prefix>)
    requires AllKnown(d.areas, d.prefixes) && AllKnown(d'.areas, d'.prefixes) && d'.areas == d.areas && Current(cfg, d, t, except)
    requires forall p | p !in changed :: p in d.prefixes <==> p in d'.prefixes
    requires forall p | p !in changed && p in d.prefixes :: d.prefixes[p] == d'.prefixes[p]
    requires forall p | p !in changed :: Lookup(d.statics, p) == Lookup(d'.statics, p)
    ensures Current(cfg, d', t, except + changed)
  {
  }

  /** The patch that rebuildRoutes makes for the prefixes `updated`. */
  ghost predicate PatchFor(cfg: Config, d: Lsdb, t: Table, updated: set<Prefix>, patch: RoutePatch)
    requires AllKnown(d.areas, d.prefixes)
  {
    && patch.updates.Keys <= updated && patch.deletes <= updated && RouteUpdates.Disjoint(patch) && Keyed(patch.updates)
    && (forall p <- updated :: IsOwed(cfg, d, p, Lookup(patch.updates, p)))
    && (forall p <- updated :: p !in patch.updates && p in t ==> p in patch.deletes)
  }

  method MakePatch(cfg: Config, d: Lsdb, t: Table, updated: set<Prefix>) returns (patch: RoutePatch)
    requires LsdbOk(d)
    ensures AllKnown(d.areas, d.prefixes) && PatchFor(cfg, d, t, updated, patch)
  {
    hide LsdbOk, AllKnown, AreasOk, SolvedAreas, IsOwed;
    LsdbParts(d);
    var spfs := SolveAreas(cfg.my, d.areas);
    patch := RouteUpdates.Patch(map[], {});
    var todo := updated;
    while todo != {}
      invariant todo <= updated && PatchFor(cfg, d, t, updated - todo, patch)
      decreases todo
    {
      var p :| p in todo;
      var r := CreateRouteForPrefixOrGetStaticRoute(cfg, d, spfs, p);
      ghost var before := patch;
      if r.Some? {
        patch := patch.(updates := patch.updates[r.value.prefix := r.value]);
      } else if p in t {
        patch := patch.(deletes := patch.deletes + {p});
      }
      forall q <- updated - todo ensures IsOwed(cfg, d, q, Lookup(patch.updates, q)) {
        assert Lookup(patch.updates, q) == Lookup(before.updates, q);
      }
      assert Lookup(patch.updates, p) == r;
      todo := todo - {p};
    }
  }

  /** A table that is current but for some prefixes is current once it is patched for them. */
  lemma PatchedIsCurrent(cfg: Config, d: Lsdb, t: Table, updated: set<Prefix>, patch: RoutePatch)
    requires AllKnown(d.areas, d.prefixes) && PatchFor(cfg, d, t, updated, patch) && Current(cfg, d, t, updated)
    ensures Current(cfg, d, RouteUpdates.Apply(t, patch), {})
  {
    hide AllKnown, IsOwed;
    var t' := RouteUpdates.Apply(t, patch);
    forall p ensures Holds(cfg, d, t', p) {
      if p in updated {
        assert Lookup(t', p) == Lookup(patch.updates, p);
      } else {
        assert Lookup(t', p) == Lookup(t, p);
      }
    }
  }

  /** So is one that the difference to a full build has been applied to. */
  lemma RebuiltIsCurrent(cfg: Config, d: Lsdb, t: Table, full: Table)
    requires AllKnown(d.areas, d.prefixes) && forall p :: IsOwed(cfg, d, p, Lookup(full, p))
    ensures Current(cfg, d, RouteUpdates.Apply(t, Difference(t, full)), {})
  {
    hide AllKnown, IsOwed, Difference;
    DifferenceLeads(t, full);
    var t' := RouteUpdates.Apply(t, Difference(t, full));
    forall p ensures Holds(cfg, d, t', p) {
      assert IsOwed(cfg, d, p, Lookup(full, p)) && SameRoute(Lookup(t', p), Lookup(full, p));
    }
  }

  /** A new area changes no route. */
  lemma NewAreaStays(cfg: Config, areas: Areas, area: Area, a': AreaState)
    requires area !in areas
    ensures RoutesStay(cfg, areas, areas[area := a'])
  {
    hide IsRoute;
    assert AllAlike(cfg.my, areas, areas[area := a']);
    hide AllAlike;
    forall entries, prefix, r | Known(areas, entries) && IsRoute(cfg, areas, entries, prefix, r)
      ensures Known(areas[area := a'], entries) && IsRoute(cfg, areas[area := a'], entries, prefix, r)
    {
      AlikeSameRoute(cfg, areas, areas[area := a'], entries, prefix, r);
    }
  }

  lemma QuietStays(cfg: Config, areas: Areas, area: Area, db: AdjacencyDb, news: map<LinkId, Link>, g': Graph, change: Change)
    requires area in areas && AreaOk(areas[area]) && Applied(areas[area].dbs, areas[area].g, cfg.my, db, news, g', change)
    requires !AsksRebuild(cfg.my, db.thisNode, change) && !Overlooked(cfg, areas, area, db)
    ensures RoutesStay(cfg, areas, areas[area := After(areas[area], db, g')])
  {
    hide InStep, Applied, OthersAlike, Reveals, IsRoute;
    QuietUpdateKeepsArea(cfg.my, areas[area], db, news, g', change);
    DrainAfter(cfg.my, areas[area], db, news, g', change);
    UnchangedHides(cfg, areas, area);
    HiddenKeepsRoutes(cfg, areas, area, After(areas[area], db, g'));
  }

  method UpdateArea(my: NodeName, hash: LinkId -> nat, a: AreaState, db: AdjacencyDb)
    returns (a': AreaState, asks: bool, ghost news: map<LinkId, Link>, ghost change: Change)
    requires AreaOk(a) && WellFormed(db.thisNode, db)
    ensures AreaOk(a') && a' == After(a, db, a'.g)
    ensures Applied(a.dbs, a.g, my, db, news, a'.g, change) && asks == AsksRebuild(my, db.thisNode, change)
  {
    hide InStep, Applied, WellFormed;
    var g', report, made := ApplyDatabase(a.dbs, a.g, a.increments, my, hash, db);
    AppliedKeepsStep(a.dbs, a.g, a.increments, my, db, made, g', report);
    a' := AreaState(a.dbs[db.thisNode := db], g', a.increments[db.thisNode := db.metricIncrement]);
    asks, news, change := AsksRebuild(my, db.thisNode, report), made, report;
  }

  method RemoveFromArea(a: AreaState, n: NodeName) returns (a': AreaState)
    requires AreaOk(a)
    ensures AreaOk(a') && a'.dbs == a.dbs - {n} && NodeRemoved(a.g, n, a'.g) && a'.increments == a.increments
  {
    assert InStep(a.dbs, a.g, a.increments);
    hide InStep, NodeRemoved;
    StepIsValid(a.dbs, a.g, a.increments);
    var g' := RemoveNode(a.g, n);
    RemovalKeepsStep(a.dbs, a.g, a.increments, n, g');
    a' := AreaState(a.dbs - {n}, g', a.increments);
  }

  function EmptyArea(): AreaState {
    AreaState(map[], Graph(map[], map[], map[]), map[])
  }

  lemma EmptyAreaOk()
    ensures AreaOk(EmptyArea())
  {
  }

  class Decision {
    const cfg: Config
    const hash: LinkId -> nat

    /** areaLinkStates_, prefixState_ and the static routes of the solver */
    var areas: Areas
    var prefixes: Prefixes
    var statics: Table
    /** routeDb_ */
    var routeDb: Table
    /** pendingUpdates_ */
    var needsFullRebuild: bool
    var updatedPrefixes: set<Prefix>

    function Db(): Lsdb
      reads this
    {
      Lsdb(areas, prefixes, statics)
    }

    ghost predicate Valid()
      reads this
    {
      LsdbOk(Db()) && Keyed(routeDb)
    }

    /** No rebuild is pending, and yet a route is stale that no pending prefix accounts for. */
    ghost predicate Gap()
      requires Valid()
      reads this
    {
      !needsFullRebuild && !Current(cfg, Db(), routeDb, updatedPrefixes)
    }

    constructor (cfg: Config, hash: LinkId -> nat)
      ensures Valid() && !Gap() && !needsFullRebuild && areas == map[] && routeDb == map[]
    {
      this.cfg, this.hash := cfg, hash;
      areas, prefixes, statics, routeDb := map[], map[], map[], map[];
      needsFullRebuild, updatedPrefixes := false, {};
      new;
      NothingIsCurrent(cfg);
    }

    /** The link state of an area heard of for the first time. */
    method AddArea(area: Area)
      requires Valid()
      modifies this
      ensures Valid() && area in areas && (!old(Gap()) ==> !Gap())
      ensures areas == if area in old(areas) then old(areas) else old(areas)[area := EmptyArea()]
      ensures prefixes == old(prefixes) && statics == old(statics) && routeDb == old(routeDb)
      ensures needsFullRebuild == old(needsFullRebuild) && updatedPrefixes == old(updatedPrefixes)
    {
      hide AllKnown, Current, AreasOk, RoutesStay;
      if area !in areas {
        var areas' := areas[area := EmptyArea()];
        AddedAreaOk(areas, area);
        KnownStays(areas, areas', prefixes);
        NewAreaStays(cfg, areas, area, EmptyArea());
        if !needsFullRebuild && !Gap() {
          CurrentStill(cfg, Db(), areas', routeDb, updatedPrefixes);
        }
        areas := areas';
      }
    }

    /** An adjacency database arrives: updateAdjacencyDatabase and applyLinkStateChange. No route
        goes stale unless the database is our first one in the area and brings a change of our
        drain state that shows. */
    method UpdateAdjacencyDatabase(area: Area, db: AdjacencyDb)
      requires Valid() && area in areas && WellFormed(db.thisNode, db)
      modifies this
      ensures Valid() && area in areas && areas == old(areas)[area := After(old(areas)[area], db, areas[area].g)]
      ensures exists news, change ::
                && Applied(old(areas)[area].dbs, old(areas)[area].g, cfg.my, db, news, areas[area].g, change)
                && needsFullRebuild == (old(needsFullRebuild) || AsksRebuild(cfg.my, db.thisNode, change))
      ensures Gap() && !old(Gap()) ==> cfg.my !in old(areas)[area].dbs && Overlooked(cfg, old(areas), area, db)
      ensures prefixes == old(prefixes) && statics == old(statics) && routeDb == old(routeDb) && updatedPrefixes == old(updatedPrefixes)
    {
      hide AllKnown, Current, InStep, WellFormed, Applied, Reveals, RoutesStay;
      var a', asks, news, change := UpdateArea(cfg.my, hash, areas[area], db);
      var areas' := areas[area := a'];
      KnownStays(areas, areas', prefixes);
      ghost var overlooked := Overlooked(cfg, areas, area, db);
      if !asks && overlooked {
        OverlookedIsFirst(cfg, areas, area, db, news, a'.g, change);
      }
      if !asks && !overlooked && !needsFullRebuild && !Gap() {
        QuietStays(cfg, areas, area, db, news, a'.g, change);
        CurrentStill(cfg, Db(), areas', routeDb, updatedPrefixes);
      }
      areas := areas';
      needsFullRebuild := needsFullRebuild || asks;
    }

    /** An adjacency database expires: deleteAdjacencyDatabase and applyLinkStateChange. */
    method DeleteAdjacencyDatabase(area: Area, n: NodeName)
      requires Valid() && area in areas
      modifies this
      ensures Valid() && areas.Keys == old(areas.Keys) && (forall a <- areas | a != area :: areas[a] == old(areas)[a])
      ensures areas[area].dbs == old(areas)[area].dbs - {n} && areas[area].increments == old(areas)[area].increments
      ensures if n in old(areas)[area].dbs then NodeRemoved(old(areas)[area].g, n, areas[area].g) else areas[area].g == old(areas)[area].g
      ensures needsFullRebuild == (old(needsFullRebuild) || n in old(areas)[area].dbs)
      ensures Gap() == (old(Gap()) && n !in old(areas)[area].dbs)
      ensures prefixes == old(prefixes) && statics == old(statics) && routeDb == old(routeDb) && updatedPrefixes == old(updatedPrefixes)
    {
      hide AllKnown, Current, AreaOk, NodeRemoved;
      if n in areas[area].dbs {
        var a' := RemoveFromArea(areas[area], n);
        KnownStays(areas, areas[area := a'], prefixes);
        areas := areas[area := a'];
        needsFullRebuild := true;
      } else {
        assert areas[area].dbs - {n} == areas[area].dbs;
      }
    }

    /** PrefixState::updatePrefix: an advertisement that changes nothing is not reported. */
    method UpdatePrefix(p: Prefix, na: NodeArea, entry: PrefixEntry)
      requires Valid() && na.area in areas
      modifies this
      ensures Valid() && (!old(Gap()) ==> !Gap()) && needsFullRebuild == old(needsFullRebuild)
      ensures prefixes == old(prefixes)[p := (if p in old(prefixes) then old(prefixes)[p] else map[])[na := entry]]
      ensures updatedPrefixes == old(updatedPrefixes) + if prefixes == old(prefixes) then {} else {p}
      ensures areas == old(areas) && statics == old(statics) && routeDb == old(routeDb)
    {
      hide Current, AreasOk;
      var entries := if p in prefixes then prefixes[p] else map[];
      if na in entries && entries[na] == entry {
        assert entries[na := entry] == entries;
        assert prefixes == prefixes[p := entries[na := entry]];
        return;
      }
      var prefixes' := prefixes[p := entries[na := entry]];
      assert prefixes' != prefixes by {
        if p in prefixes {
          assert prefixes'[p] != prefixes[p];
        }
      }
      MorePrefixesKnown(areas, prefixes, p, entries[na := entry]);
      if !needsFullRebuild && !Gap() {
        CurrentElsewhere(cfg, Db(), Lsdb(areas, prefixes', statics), routeDb, updatedPrefixes, {p});
      }
      prefixes := prefixes';
      updatedPrefixes := updatedPrefixes + {p};
    }

    /** PrefixState::deletePrefix. */
    method DeletePrefix(p: Prefix, na: NodeArea)
      requires Valid()
      modifies this
      ensures Valid() && (!old(Gap()) ==> !Gap()) && needsFullRebuild == old(needsFullRebuild)
      ensures prefixes == if p !in old(prefixes) then old(prefixes)
                          else if old(prefixes)[p].Keys == {na} then old(prefixes) - {p}
                          else old(prefixes)[p := old(prefixes)[p] - {na}]
      ensures updatedPrefixes == old(updatedPrefixes) + if p in old(prefixes) && na in old(prefixes)[p] then {p} else {}
      ensures areas == old(areas) && statics == old(statics) && routeDb == old(routeDb)
    {
      hide Current, AreasOk;
      if p !in prefixes || na !in prefixes[p] {
        if p in prefixes {
          assert prefixes[p] - {na} == prefixes[p];
          assert prefixes == prefixes[p := prefixes[p]];
        }
        return;
      }
      var entries := prefixes[p] - {na};
      var prefixes' := if entries == map[] then prefixes - {p} else prefixes[p := entries];
      assert entries.Keys == prefixes[p].Keys - {na};
      assert entries == map[] <==> prefixes[p].Keys == {na} by {
        LeftoverKeys(prefixes[p], na);
      }
      MorePrefixesKnown(areas, prefixes, p, entries);
      FewerPrefixesKnown(areas, prefixes, p);
      if !needsFullRebuild && !Gap() {
        CurrentElsewhere(cfg, Db(), Lsdb(areas, prefixes', statics), routeDb, updatedPrefixes, {p});
      }
      prefixes := prefixes';
      updatedPrefixes := updatedPrefixes + {p};
    }

    /** processStaticRoutesUpdate: the prefixes it names are patched, nothing is rebuilt. */
    method UpdateStaticRoutes(patch: RoutePatch)
      requires Valid() && Keyed(patch.updates)
      modifies this
      ensures Valid() && (!old(Gap()) ==> !Gap()) && needsFullRebuild == old(needsFullRebuild)
      ensures statics == RouteUpdates.ApplyDeletesLast(old(statics), patch)
      ensures updatedPrefixes == old(updatedPrefixes) + patch.deletes + patch.updates.Keys
      ensures areas == old(areas) && prefixes == old(prefixes) && routeDb == old(routeDb)
    {
      hide Current, AreasOk, AllKnown;
      var statics' := (statics + patch.updates) - patch.deletes;
      var changed := patch.deletes + patch.updates.Keys;
      if !needsFullRebuild && !Gap() {
        CurrentElsewhere(cfg, Db(), Lsdb(areas, prefixes, statics'), routeDb, updatedPrefixes, changed);
      }
      statics := statics';
      assert updatedPrefixes + changed == updatedPrefixes + patch.deletes + patch.updates.Keys;
      updatedPrefixes := updatedPrefixes + changed;
    }

    /** rebuildRoutes. Whether it rebuilds the whole table or patches the prefixes reported, the
        table afterwards holds the route owed to every prefix. Only where no database of ours is
        known does a full rebuild empty the table, static routes included. */
    method RebuildRoutes() returns (update: RoutePatch)
      requires Valid()
      modifies this
      ensures Valid() && !needsFullRebuild && updatedPrefixes == {}
      ensures routeDb == RouteUpdates.Apply(old(routeDb), update) && RouteUpdates.Disjoint(update)
      ensures old(needsFullRebuild) ==> (Gap() <==> !Present(cfg.my, areas) && statics != map[])
      ensures old(needsFullRebuild) && !Present(cfg.my, areas) ==> routeDb == map[]
      ensures !old(needsFullRebuild) && !old(Gap()) ==> !Gap()
      ensures !Gap() ==> Current(cfg, Db(), routeDb, {})
      ensures !Gap() ==> forall p, r | IsOwed(cfg, Db(), p, r) :: Carries(routeDb, p, r)
      ensures areas == old(areas) && prefixes == old(prefixes) && statics == old(statics)
    {
      hide Current, LsdbOk, Present, AllKnown, AreasOk, Carries, IsOwed;
      LsdbParts(Db());
      if needsFullRebuild {
        var present;
        update, present := FullUpdate(cfg, Db(), routeDb);
        if !present {
          AbsentOwesStatics(cfg, Db());
        }
      } else {
        update := MakePatch(cfg, Db(), routeDb, updatedPrefixes);
        if !Gap() {
          PatchedIsCurrent(cfg, Db(), routeDb, updatedPrefixes, update);
        }
        PatchIsKeyed(cfg, Db(), routeDb, updatedPrefixes, update);
      }
      hide PatchFor, RouteUpdates.Disjoint;
      routeDb := (routeDb - update.deletes) + update.updates;
      needsFullRebuild, updatedPrefixes := false, {};
      if !Gap() {
        AllCarried(cfg, Db(), routeDb);
      }
    }
  }

  lemma AllCarried(cfg: Config, d: Lsdb, t: Table)
    requires AllKnown(d.areas, d.prefixes) && Current(cfg, d, t, {})
    ensures forall p, r | IsOwed(cfg, d, p, r) :: Carries(t, p, r)
  {
    hide AllKnown, Current, IsOwed, Carries;
    forall p, r | IsOwed(cfg, d, p, r) ensures Carries(t, p, r) {
      CurrentCarries(cfg, d, t, p, r);
    }
  }

  lemma PatchIsKeyed(cfg: Config, d: Lsdb, t: Table, updated: set<Prefix>, patch: RoutePatch)
    requires AllKnown(d.areas, d.prefixes) && PatchFor(cfg, d, t, updated, patch)
    ensures Keyed(patch.updates) && RouteUpdates.Disjoint(patch)
  {
  }

  /** The update of a full rebuild: build everything, and send what differs. */
  method FullUpdate(cfg: Config, d: Lsdb, t: Table) returns (update: RoutePatch, present: bool)
    requires LsdbOk(d)
    ensures AllKnown(d.areas, d.prefixes) && (present <==> Present(cfg.my, d.areas))
    ensures RouteUpdates.Disjoint(update) && Keyed(update.updates)
    ensures present ==> Current(cfg, d, RouteUpdates.Apply(t, update), {})
    ensures !present ==> RouteUpdates.Apply(t, update) == map[]
  {
    hide Current, LsdbOk, Present, Difference;
    LsdbParts(d);
    var full := BuildRouteDb(cfg, d);
    var db := if full.Some? then full.value else map[];
    present := full.Some?;
    update := CalculateUpdate(t, db);
    DifferenceLeads(t, db);
    DifferenceIsKeyed(t, db);
    if present {
      RebuiltIsCurrent(cfg, d, t, db);
    }
  }

  lemma DifferenceIsKeyed(from: Table, to: Table)
    requires Keyed(to)
    ensures Keyed(Difference(from, to).updates)
  {
  }

  lemma LeftoverKeys(entries: PrefixEntries, na: NodeArea)
    requires na in entries
    ensures entries - {na} == map[] <==> entries.Keys == {na}
  {
    assert (entries - {na}).Keys == entries.Keys - {na};
    if entries - {na} == map[] {
      assert entries.Keys - {na} == {};
    }
  }

  lemma MorePrefixesKnown(areas: Areas, prefixes: Prefixes, p: Prefix, entries: PrefixEntries)
    requires AllKnown(areas, prefixes) && Known(areas, entries)
    ensures AllKnown(areas, prefixes[p := entries])
  {
  }

  lemma FewerPrefixesKnown(areas: Areas, prefixes: Prefixes, p: Prefix)
    requires AllKnown(areas, prefixes)
    ensures AllKnown(areas, prefixes - {p})
  {
  }

  lemma NothingIsCurrent(cfg: Config)
    ensures Current(cfg, Lsdb(map[], map[], map[]), map[], {})
  {
    var d := Lsdb(map[], map[], map[]);
    forall p ensures Holds(cfg, d, map[], p) {
      NoAdvertisementNoRoute(cfg, d.areas, d.prefixes, p);
      assert IsOwed(cfg, d, p, None);
    }
  }

  /** Two tables that hold the routes owed are equal, entry by entry: a patched table is the one a
      full rebuild would give. */
  lemma CurrentTablesAgree(cfg: Config, d: Lsdb, t: Table, t': Table, p: Prefix)
    requires AllKnown(d.areas, d.prefixes) && Current(cfg, d, t, {}) && Current(cfg, d, t', {})
    ensures SameRoute(Lookup(t, p), Lookup(t', p))
  {
    hide AllKnown, IsOwed;
    assert Holds(cfg, d, t, p) && Holds(cfg, d, t', p);
    var r :| IsOwed(cfg, d, p, r) && SameRoute(Lookup(t, p), r);
    var r' :| IsOwed(cfg, d, p, r') && SameRoute(Lookup(t', p), r');
    OwedIsUnique(cfg, d, p, r, r');
  }

  /** Without a database of ours nobody else can be reached. */
  lemma {:induction false} AbsentReachesNobody(my: NodeName, a: AreaState, p: seq<Hop>, v: NodeName)
    requires AreaOk(a) && my !in a.dbs && a.Ask(my).Walk(p, v)
    ensures v == my
    decreases |p|
  {
    if p != [] {
      AbsentReachesNobody(my, a, p[..|p| - 1], p[|p| - 1].from);
    }
  }

  lemma AbsentReachesOnlySelf(my: NodeName, areas: Areas, na: NodeArea)
    requires AreasOk(areas) && !Present(my, areas) && na.area in areas && areas[na.area].Ask(my).Reachable(na.node)
    ensures na.node == my
  {
    hide InStep;
    var p :| areas[na.area].Ask(my).Walk(p, na.node);
    AbsentReachesNobody(my, areas[na.area], p, na.node);
  }

  /** So that no prefix has a computed route. */
  lemma AbsentHasNoRoute(cfg: Config, areas: Areas, entries: PrefixEntries, prefix: Prefix)
    requires AreasOk(areas) && !Present(cfg.my, areas) && Known(areas, entries)
    ensures IsRoute(cfg, areas, entries, prefix, None)
  {
    hide AreasOk, Present, Query.Reachable, Selected;
    var reaching := Reaching(cfg.my, areas, entries);
    forall na <- reaching ensures na.node == cfg.my {
      AbsentReachesOnlySelf(cfg.my, areas, na);
    }
    hide Reaching;
    if reaching != map[] {
      UndrainedIsSome(areas, reaching);
      OwnOnly(cfg, areas, reaching);
    } else {
      NoEntriesNoRoute(cfg, areas, prefix, LocalConsidered(cfg.my, entries));
    }
  }

  /** Without a database of ours the empty table is the right one if and only if there are no
      static routes. */
  lemma AbsentOwesStatics(cfg: Config, d: Lsdb)
    requires AreasOk(d.areas) && AllKnown(d.areas, d.prefixes) && !Present(cfg.my, d.areas)
    ensures Current(cfg, d, map[], {}) <==> d.statics == map[]
  {
    hide AreasOk, Present, IsRoute;
    forall p ensures IsOwed(cfg, d, p, Lookup(d.statics, p)) {
      if p in d.prefixes {
        AbsentHasNoRoute(cfg, d.areas, d.prefixes[p], p);
      }
      assert IsPrefixRoute(cfg, d.areas, d.prefixes, p, None);
    }
    hide IsOwed, AllKnown;
    if d.statics == map[] {
      forall p ensures Holds(cfg, d, map[], p) {
        assert IsOwed(cfg, d, p, Lookup(d.statics, p)) && SameRoute(None, Lookup(d.statics, p));
      }
    } else {
      var p :| p in d.statics;
      forall r | IsOwed(cfg, d, p, r) ensures r == Lookup(d.statics, p) {
        OwedIsUnique(cfg, d, p, r, Lookup(d.statics, p));
      }
      assert !Holds(cfg, d, map[], p);
    }
  }

  /** An area in which node 0 and node 1 are joined by a link. */
  function Pair(): AreaState {
    var side, id := Side(1, false, 0, 0, 0, 0), LinkId(Endpoint(0, 0), Endpoint(1, 0));
    AreaState(
      map[0 := AdjacencyDb(0, [Adjacency(0, 1, 0, side, false)], false, 0, 0), 1 := AdjacencyDb(1, [Adjacency(0, 0, 0, side, false)], false, 0, 0)],
      Graph(map[0 := {id}, 1 := {id}], map[id := Link(side, side, true)], map[0 := false, 1 := false]),
      map[0 := 0, 1 := 0])
  }

  lemma PairMatches()
    ensures Matches(Pair().dbs, Pair().g.links)
  {
    var dbs, id := Pair().dbs, LinkId(Endpoint(0, 0), Endpoint(1, 0));
    var a, b := dbs[0].adjacencies[0], dbs[1].adjacencies[0];
    assert From(dbs[0], id.first, id.second, a) && From(dbs[1], id.second, id.first, b);
    assert Mutual(dbs, id);
  }

  lemma PairGraph()
    ensures Pair().g.Valid()
  {
    var g := Pair().g;
    forall n, l ensures l in g.LinksFromNode(n) <==> l in g.links && l.Touches(n) {
    }
  }

  lemma PairOk()
    ensures AreaOk(Pair())
  {
    hide Graph.Valid, Matches;
    PairMatches();
    PairGraph();
  }

  lemma PairReaches(na: NodeArea, areas: Areas)
    requires na == NodeArea(1, 1) && 1 in areas && areas[1] == Pair()
    ensures Other(0, areas, na) && !areas[1].g.Overloaded(1)
  {
    var h := Hop(0, LinkId(Endpoint(0, 0), Endpoint(1, 0)), 1);
    assert [h][..0] == [];
    assert areas[1].Ask(0).Permitted(h) && areas[1].Ask(0).Walk([], 0);
    assert areas[1].Ask(0).Walk([h], 1);
  }

  lemma FirstOwnDatabase(db: AdjacencyDb, g': Graph, change: Change)
    requires db == AdjacencyDb(0, [], true, 0, 0) && change == Change(false, false, false, [])
    requires g' == EmptyArea().g.(overloads := map[0 := true])
    ensures Applied(EmptyArea().dbs, EmptyArea().g, 0, db, map[], g', change)
  {
    assert forall l :: Untouched(g', g', l);
  }

  /** Such an update can come: node 0 is joined to node 1 in area 1, and announces itself in area 0
      for the first time, overloaded. */
  lemma GateCanOverlook(cfg: Config, areas: Areas, db: AdjacencyDb, g': Graph, change: Change)
    requires cfg.my == 0 && areas == map[0 := EmptyArea(), 1 := Pair()] && db == AdjacencyDb(0, [], true, 0, 0)
    requires g' == EmptyArea().g.(overloads := map[0 := true]) && change == Change(false, false, false, [])
    ensures AreasOk(areas) && Overlooked(cfg, areas, 0, db)
    ensures Applied(areas[0].dbs, areas[0].g, 0, db, map[], g', change) && !AsksRebuild(0, 0, change)
  {
    hide InStep, Applied, Other, Pair;
    EmptyAreaOk();
    PairOk();
    PairReaches(NodeArea(1, 1), areas);
    FirstOwnDatabase(db, g', change);
    assert Shows(cfg, areas[0], true, 0, false);
  }

  lemma AddedAreaOk(areas: Areas, area: Area)
    requires AreasOk(areas)
    ensures AreasOk(areas[area := EmptyArea()])
  {
  }
}
