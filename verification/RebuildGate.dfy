/** The gate of DecisionPendingUpdates: what a link-state update that does not ask for a full
    rebuild leaves as it was. */
module RebuildGate {
  import opened Options
  import opened Topology
  import opened Spf
  import opened NextHops
  import opened Walks
  import opened SpfView
  import opened LinkMerge
  import opened Adjacencies
  import opened LinkStates
  import opened RouteSpec

  /** applyLinkStateChange. */
  predicate AsksRebuild(my: NodeName, node: NodeName, change: Change) {
    change.topologyChanged || change.nodeLabelChanged || (change.linkAttributesChanged && node == my)
  }

  /** The link comes up, goes down, or is advertised by `n` with another metric. */
  ghost predicate Shifts(g: Graph, g': Graph, n: NodeName, l: LinkId) {
    || Up(g, l) != Up(g', l)
    || (l in g.links && l in g'.links && l.Touches(n) && SideOf(g, l, n).metric != SideOf(g', l, n).metric)
  }

  /** What `n` advertises of the link changes in more than metric and interface overload. */
  ghost predicate Relabels(g: Graph, g': Graph, n: NodeName, l: LinkId) {
    && l in g.links && l in g'.links && l.Touches(n)
    && var s, t := SideOf(g, l, n), SideOf(g', l, n);
       s.adjLabel != t.adjLabel || s.weight != t.weight || s.nhV4 != t.nhV4 || s.nhV6 != t.nhV6
  }

  lemma ReportedIsShift(g: Graph, g1: Graph, g': Graph, n: NodeName, news: map<LinkId, Link>, l: LinkId)
    requires g.Valid() && g1.links == g.links && g1.linkMap == g.linkMap
    requires Merging(g1, g', n, news, g.LinksFromNode(n) + news.Keys) && forall k <- news :: k.Touches(n)
    ensures l in g.LinksFromNode(n) + news.Keys && Reported(g1, n, news, l) <==> Shifts(g, g', n, l)
    ensures l in g.LinksFromNode(n) + news.Keys && AttributeReported(g1, n, news, l) <==> Relabels(g, g', n, l)
  {
    if l in g.LinksFromNode(n) + news.Keys {
      assert Settled(g1, g', n, news, l);
      if l in news && l in g.links {
        TopologyReportedIff(g.links[l], news[l], l.first.node == n);
        AttributesReportedIff(g.links[l], news[l], l.first.node == n);
      }
    } else {
      assert Untouched(g1, g', l);
    }
  }

  /** When an update asks for a full rebuild, told from what it does: it changes the overload bit of
      a node heard of before, the increment or the label; or a link shifts; or, for our own
      database, a link is relabelled. */
  lemma AsksRebuildIff(my: NodeName, a: AreaState, db: AdjacencyDb, news: map<LinkId, Link>, g': Graph, change: Change)
    requires a.g.Valid() && Applied(a.dbs, a.g, my, db, news, g', change)
    ensures var n := db.thisNode;
            AsksRebuild(my, n, change) <==>
            || (n in a.g.overloads && a.g.overloads[n] != db.isOverloaded)
            || db.metricIncrement != (if n in a.dbs then a.dbs[n].metricIncrement else 0)
            || db.nodeLabel != (if n in a.dbs then a.dbs[n].nodeLabel else 0)
            || (exists l :: Shifts(a.g, g', n, l))
            || (n == my && exists l :: Relabels(a.g, g', n, l))
  {
    var n := db.thisNode;
    var g1 := a.g.(overloads := a.g.overloads[n := db.isOverloaded]);
    assert forall k <- news :: k.Touches(n);
    hide MadeAt, Merging, Reported, AttributeReported, Shifts, Relabels, Graph.Valid, Graph.LinksFromNode;
    forall l ensures l in a.g.LinksFromNode(n) + news.Keys && Reported(g1, n, news, l) <==> Shifts(a.g, g', n, l)
             ensures l in a.g.LinksFromNode(n) + news.Keys && AttributeReported(g1, n, news, l) <==> Relabels(a.g, g', n, l)
    {
      ReportedIsShift(a.g, g1, g', n, news, l);
    }
  }

  /** The two states of an area have the same paths for `my`, over the same addresses. */
  ghost predicate SamePaths(my: NodeName, a: AreaState, a': AreaState) {
    && SameView(a.g, a'.g)
    && (forall l | Up(a.g, l) && Up(a'.g, l) && l.Touches(my) :: SameAddresses(my, a, a', l))
  }

  /** So have they, and the same drain state of everybody else who can be reached. */
  ghost predicate OthersAlike(my: NodeName, a: AreaState, a': AreaState) {
    && SamePaths(my, a, a')
    && (forall v | v != my && a.Ask(my).Reachable(v) :: (a.g.Overloaded(v) <==> a'.g.Overloaded(v)) && a.Increment(v) == a'.Increment(v))
  }

  /** The two states of an area look the same to the route computation of `my`. */
  ghost predicate Alike(my: NodeName, a: AreaState, a': AreaState) {
    && OthersAlike(my, a, a')
    && (a.g.Overloaded(my) <==> a'.g.Overloaded(my)) && a.Increment(my) == a'.Increment(my)
  }

  ghost predicate SameAddresses(my: NodeName, a: AreaState, a': AreaState, l: LinkId)
    requires Up(a.g, l) && Up(a'.g, l)
  {
    var s, s' := SideOf(a.g, l, my), SideOf(a'.g, l, my);
    s.nhV4 == s'.nhV4 && s.nhV6 == s'.nhV6
  }

  /** An area in which `db` has been applied. */
  function After(a: AreaState, db: AdjacencyDb, g': Graph): AreaState {
    AreaState(a.dbs[db.thisNode := db], g', a.increments[db.thisNode := db.metricIncrement])
  }

  /** Whoever can be reached is `my` itself or at the end of a link that is up. */
  lemma ReachableIsKnown(my: NodeName, a: AreaState, v: NodeName)
    requires InStep(a.dbs, a.g, a.increments) && a.Ask(my).Reachable(v)
    ensures v == my || v in a.dbs
  {
  }

  lemma KnownNode(a: AreaState, v: NodeName)
    requires InStep(a.dbs, a.g, a.increments) && v in a.dbs
    ensures v in a.g.overloads && a.g.overloads[v] == a.dbs[v].isOverloaded && a.Increment(v) == a.dbs[v].metricIncrement
  {
  }

  lemma QuietOverload(a: AreaState, my: NodeName, db: AdjacencyDb, news: map<LinkId, Link>, g': Graph, change: Change)
    requires Applied(a.dbs, a.g, my, db, news, g', change) && !change.topologyChanged
    ensures g'.overloads == a.g.overloads[db.thisNode := db.isOverloaded]
    ensures !OverloadReported(a.g.overloads, db.thisNode, db.isOverloaded)
    ensures Prior(a.dbs, db.thisNode).metricIncrement == db.metricIncrement
  {
  }

  lemma UnreportedDrain(my: NodeName, a: AreaState, db: AdjacencyDb, news: map<LinkId, Link>, g': Graph, change: Change, v: NodeName)
    requires InStep(a.dbs, a.g, a.increments) && (v in a.dbs || v != db.thisNode)
    requires Applied(a.dbs, a.g, my, db, news, g', change) && !change.topologyChanged
    ensures (a.g.Overloaded(v) <==> After(a, db, g').g.Overloaded(v)) && a.Increment(v) == After(a, db, g').Increment(v)
  {
    hide InStep, Applied;
    if v in a.dbs {
      KnownNode(a, v);
    }
    QuietOverload(a, my, db, news, g', change);
  }

  /** How the update left a link: merged with what the new database makes, or alone. */
  lemma AppliedLink(my: NodeName, a: AreaState, db: AdjacencyDb, news: map<LinkId, Link>, g': Graph, change: Change, l: LinkId)
    requires a.g.Valid() && Applied(a.dbs, a.g, my, db, news, g', change) && l in a.g.links && l in g'.links
    ensures l in a.g.LinksFromNode(db.thisNode) + news.Keys ==>
              && l.Touches(db.thisNode) && l in news && g'.links[l] == Updated(a.g.links[l], news[l], l.first.node == db.thisNode)
              && (!change.linkAttributesChanged ==> !LinkAttributesChanged(a.g.links[l], news[l], l.first.node == db.thisNode))
    ensures l !in a.g.LinksFromNode(db.thisNode) + news.Keys ==> g'.links[l] == a.g.links[l]
  {
  }

  lemma UnreportedAddresses(my: NodeName, a: AreaState, db: AdjacencyDb, news: map<LinkId, Link>, g': Graph, change: Change, l: LinkId)
    requires InStep(a.dbs, a.g, a.increments)
    requires Applied(a.dbs, a.g, my, db, news, g', change) && (change.linkAttributesChanged ==> db.thisNode != my)
    requires Up(a.g, l) && Up(g', l) && l.Touches(my)
    ensures SameAddresses(my, a, After(a, db, g'), l)
  {
    hide InStep, Applied;
    StepIsValid(a.dbs, a.g, a.increments);
    AppliedLink(my, a, db, news, g', change, l);
  }

  /** The update leaves our own drain state as it was. */
  predicate KeepsOwnDrain(my: NodeName, a: AreaState, db: AdjacencyDb) {
    db.thisNode == my ==> (a.g.Overloaded(my) <==> db.isOverloaded) && a.Increment(my) == db.metricIncrement
  }

  lemma OwnDrainAfter(my: NodeName, a: AreaState, db: AdjacencyDb, news: map<LinkId, Link>, g': Graph, change: Change)
    requires Applied(a.dbs, a.g, my, db, news, g', change) && !change.topologyChanged
    ensures KeepsOwnDrain(my, a, db) <==>
            (a.g.Overloaded(my) <==> g'.Overloaded(my)) && a.Increment(my) == After(a, db, g').Increment(my)
  {
    hide Applied;
    QuietOverload(a, my, db, news, g', change);
  }

  lemma QuietUpdateKeepsPaths(my: NodeName, a: AreaState, db: AdjacencyDb, news: map<LinkId, Link>, g': Graph, change: Change)
    requires InStep(a.dbs, a.g, a.increments)
    requires Applied(a.dbs, a.g, my, db, news, g', change) && !AsksRebuild(my, db.thisNode, change)
    ensures SamePaths(my, a, After(a, db, g'))
  {
    hide Applied, InStep, SameView, Up, SameAddresses;
    UnreportedSameView(a.dbs, a.g, a.increments, my, db, news, g', change);
    forall l | Up(a.g, l) && Up(g', l) && l.Touches(my) ensures SameAddresses(my, a, After(a, db, g'), l) {
      UnreportedAddresses(my, a, db, news, g', change, l);
    }
  }

  /** The gate: an update that does not ask for a full rebuild leaves the paths of the area and
      the drain state of everybody else as they were, and the area looking the same if and only if
      it leaves our own drain state as it was. */
  lemma QuietUpdateKeepsArea(my: NodeName, a: AreaState, db: AdjacencyDb, news: map<LinkId, Link>, g': Graph, change: Change)
    requires InStep(a.dbs, a.g, a.increments)
    requires Applied(a.dbs, a.g, my, db, news, g', change) && !AsksRebuild(my, db.thisNode, change)
    ensures OthersAlike(my, a, After(a, db, g'))
    ensures Alike(my, a, After(a, db, g')) <==> KeepsOwnDrain(my, a, db)
  {
    hide Applied, InStep, SamePaths, KeepsOwnDrain;
    QuietUpdateKeepsPaths(my, a, db, news, g', change);
    forall v | v != my && a.Ask(my).Reachable(v)
      ensures (a.g.Overloaded(v) <==> After(a, db, g').g.Overloaded(v)) && a.Increment(v) == After(a, db, g').Increment(v)
    {
      ReachableIsKnown(my, a, v);
      UnreportedDrain(my, a, db, news, g', change, v);
    }
    OwnDrainAfter(my, a, db, news, g', change);
  }

  /** Only our own first database in an area can change our drain state unasked. */
  lemma OnlyFirstOwnDatabase(my: NodeName, a: AreaState, db: AdjacencyDb, news: map<LinkId, Link>, g': Graph, change: Change)
    requires InStep(a.dbs, a.g, a.increments) && (my in a.dbs || db.thisNode != my)
    requires Applied(a.dbs, a.g, my, db, news, g', change) && !change.topologyChanged
    ensures KeepsOwnDrain(my, a, db)
  {
    hide Applied, InStep, KeepsOwnDrain;
    UnreportedDrain(my, a, db, news, g', change, my);
    OwnDrainAfter(my, a, db, news, g', change);
  }

  /** Queries with the same hops have the same walks, of the same length. */
  lemma {:induction false} SameWalk(q: Query, q': Query, p: seq<Hop>, v: NodeName)
    requires SameHops(q, q')
    ensures q.Walk(p, v) <==> q'.Walk(p, v)
    ensures q.Walk(p, v) ==> q.Length(p) == q'.Length(p)
    decreases |p|
  {
    if p != [] {
      SameWalk(q, q', p[..|p| - 1], p[|p| - 1].from);
    }
  }

  lemma SameBestWalk(q: Query, q': Query, dsts: set<NodeName>, p: seq<Hop>, d: NodeName)
    requires SameHops(q, q')
    ensures BestWalkTo(q, dsts, p, d) <==> BestWalkTo(q', dsts, p, d)
    ensures BestWalkTo(q, dsts, p, d) ==> q.Length(p) == q'.Length(p)
  {
    hide SameHops;
    SameWalk(q, q', p, d);
    forall d', w | d' in dsts ensures q.Walk(w, d') <==> q'.Walk(w, d')
                             ensures q.Walk(w, d') ==> q.Length(w) == q'.Length(w) {
      SameWalk(q, q', w, d');
    }
  }

  lemma SameReach(q: Query, q': Query, v: NodeName)
    requires SameHops(q, q')
    ensures q.Reachable(v) <==> q'.Reachable(v)
  {
    hide SameHops;
    forall p ensures q.Walk(p, v) <==> q'.Walk(p, v) {
      SameWalk(q, q', p, v);
    }
  }

  lemma SameDistance(q: Query, q': Query, dsts: set<NodeName>, d: Option<nat>)
    requires SameHops(q, q')
    ensures IsDistance(q, dsts, d) <==> IsDistance(q', dsts, d)
  {
    hide SameHops, BestWalkTo;
    forall v ensures q.Reachable(v) <==> q'.Reachable(v) {
      SameReach(q, q', v);
    }
    forall p, v ensures BestWalkTo(q, dsts, p, v) <==> BestWalkTo(q', dsts, p, v)
                ensures BestWalkTo(q, dsts, p, v) ==> q.Length(p) == q'.Length(p) {
      SameBestWalk(q, q', dsts, p, v);
    }
  }

  lemma UsesTransfers(q: Query, g': Graph, dsts: set<NodeName>, l: LinkId)
    requires SameView(q.g, g') && Uses(q, dsts, l)
    ensures Uses(q.(g := g'), dsts, l)
  {
    hide SameView, Solved, NodesExact, Chosen, SameHops;
    var spf, best: nat, nodes :| Solved(q, spf) && NodesExact(spf, dsts, best, nodes) && Chosen(q, best, nodes, l);
    SameViewSameHops(q, g');
    SolvedTransfers(q, q.(g := g'), spf);
    ChosenTransfers(q, g', best, nodes, l);
  }

  lemma ChosenTransfers(q: Query, g': Graph, best: nat, nodes: map<NodeName, nat>, l: LinkId)
    requires SameView(q.g, g') && Chosen(q, best, nodes, l)
    ensures Chosen(q.(g := g'), best, nodes, l)
  {
    assert Up(q.g, l);
  }

  lemma SameUsedLinks(q: Query, g': Graph, dsts: set<NodeName>)
    requires SameView(q.g, g')
    ensures UsedLinks(q, dsts) == UsedLinks(q.(g := g'), dsts)
  {
    assert SameView(g', q.g);
    assert q.(g := g').(g := q.g) == q;
    hide SameView, Uses;
    forall l ensures l in UsedLinks(q, dsts) <==> l in UsedLinks(q.(g := g'), dsts) {
      if Uses(q, dsts, l) {
        UsesTransfers(q, g', dsts, l);
        UsedIsMine(q.(g := g'), dsts, l);
      }
      if Uses(q.(g := g'), dsts, l) {
        UsesTransfers(q.(g := g'), q.g, dsts, l);
        UsedIsMine(q, dsts, l);
      }
    }
  }

  lemma SameHopOver(my: NodeName, a: AreaState, a': AreaState, viaV4: bool, l: LinkId, n: nat)
    requires Up(a.g, l) && Up(a'.g, l) && SameAddresses(my, a, a', l)
    ensures NextHopOver(a.Ask(my), viaV4, l, n) == NextHopOver(a'.Ask(my), viaV4, l, n)
  {
  }

  lemma SameHopsOver(my: NodeName, a: AreaState, a': AreaState, dsts: set<NodeName>, viaV4: bool, n: nat)
    requires SamePaths(my, a, a')
    ensures HopsOver(a.Ask(my), viaV4, UsedLinks(a.Ask(my), dsts), n) == HopsOver(a'.Ask(my), viaV4, UsedLinks(a'.Ask(my), dsts), n)
  {
    hide SameView, UsedLinks, SameAddresses;
    var q, q' := a.Ask(my), a'.Ask(my);
    assert q' == q.(g := a'.g);
    SameUsedLinks(q, a'.g, dsts);
    forall l <- UsedLinks(q, dsts) ensures l in a.g.links && l in a'.g.links && NextHopOver(q, viaV4, l, n) == NextHopOver(q', viaV4, l, n) {
      UsedLinkIsMine(q, dsts, l);
      UsedLinkIsMine(q', dsts, l);
      SameHopOver(my, a, a', viaV4, l, n);
    }
  }

  lemma UsedLinkIsMine(q: Query, dsts: set<NodeName>, l: LinkId)
    requires l in UsedLinks(q, dsts)
    ensures Up(q.g, l) && l.Touches(q.src)
  {
    UsedIsMine(q, dsts, l);
  }

  /** All areas have the same paths; there may be new ones. */
  ghost predicate AllSamePaths(my: NodeName, areas: Areas, areas': Areas) {
    forall a <- areas :: a in areas' && SamePaths(my, areas[a], areas'[a])
  }

  /** All areas look the same; there may be new ones. */
  ghost predicate AllAlike(my: NodeName, areas: Areas, areas': Areas) {
    forall a <- areas :: a in areas' && Alike(my, areas[a], areas'[a])
  }

  lemma SamePathsSameHops(my: NodeName, a: AreaState, a': AreaState)
    requires SamePaths(my, a, a')
    ensures SameHops(a.Ask(my), a'.Ask(my))
  {
    SameViewSameHops(a.Ask(my), a'.g);
    assert a'.Ask(my) == a.Ask(my).(g := a'.g);
  }

  lemma SameReaching(my: NodeName, areas: Areas, areas': Areas, entries: PrefixEntries)
    requires AllSamePaths(my, areas, areas') && Known(areas, entries)
    ensures Reaching(my, areas, entries) == Reaching(my, areas', entries)
  {
    hide SamePaths, SameHops, Query.Reachable;
    forall na <- entries ensures areas[na.area].Ask(my).Reachable(na.node) <==> areas'[na.area].Ask(my).Reachable(na.node) {
      SamePathsSameHops(my, areas[na.area], areas'[na.area]);
      SameReach(areas[na.area].Ask(my), areas'[na.area].Ask(my), na.node);
    }
  }

  /** An advertising node is overloaded, and is soft-drained, in both or in neither. */
  ghost predicate SameDrainAt(areas: Areas, areas': Areas, na: NodeArea)
    requires na.area in areas && na.area in areas'
  {
    && (areas[na.area].g.Overloaded(na.node) <==> areas'[na.area].g.Overloaded(na.node))
    && (areas[na.area].Increment(na.node) > 0 <==> areas'[na.area].Increment(na.node) > 0)
  }

  ghost predicate SameDrain(areas: Areas, areas': Areas, entries: PrefixEntries) {
    && Known(areas, entries) && Known(areas', entries)
    && forall na <- entries :: SameDrainAt(areas, areas', na)
  }

  lemma ReachingHasSameDrain(my: NodeName, areas: Areas, areas': Areas, entries: PrefixEntries)
    requires AllAlike(my, areas, areas') && Known(areas, entries)
    ensures SameDrain(areas, areas', Reaching(my, areas, entries))
  {
  }

  lemma SameUndrained(areas: Areas, areas': Areas, entries: PrefixEntries)
    requires SameDrain(areas, areas', entries)
    ensures Undrained(areas, entries) == Undrained(areas', entries)
    ensures SameDrain(areas, areas', Undrained(areas, entries))
  {
  }

  lemma SameTop(areas: Areas, areas': Areas, entries: PrefixEntries, na: NodeArea)
    requires SameDrain(areas, areas', entries)
    ensures TopAndNearest(areas, entries, na) <==> TopAndNearest(areas', entries, na)
  {
    assert forall o <- entries :: Preference(areas, entries, o) == Preference(areas', entries, o);
    assert forall o :: Top(areas, entries, o) <==> Top(areas', entries, o);
  }

  lemma SameSelected(cfg: Config, areas: Areas, areas': Areas, entries: PrefixEntries)
    requires SameDrain(areas, areas', entries)
    ensures Selected(cfg, areas, entries) == Selected(cfg, areas', entries)
    ensures Selected(cfg, areas, entries) <= entries.Keys
    ensures SelectionKept(cfg, areas, areas', entries)
  {
    SameUndrained(areas, areas', entries);
    var kept := Undrained(areas, entries);
    hide TopAndNearest;
    forall na ensures TopAndNearest(areas, kept, na) <==> TopAndNearest(areas', kept, na) {
      SameTop(areas, areas', kept, na);
    }
  }

  lemma SameCombined(cfg: Config, areas: Areas, areas': Areas, dsts: set<NodeName>, viaV4: bool, used: set<Area>, n: nat, hops: set<AreaHop>)
    requires AllSamePaths(cfg.my, areas, areas') && used <= areas.Keys
    ensures Combined(cfg, areas, dsts, viaV4, used, n, hops) <==> Combined(cfg, areas', dsts, viaV4, used, n, hops)
  {
    hide SamePaths, SameHops, IsDistance, HopsOver, UsedLinks;
    forall a <- used, m: nat
      ensures IsDistance(areas[a].Ask(cfg.my), dsts, Some(m)) <==> IsDistance(areas'[a].Ask(cfg.my), dsts, Some(m))
      ensures AreaHops(cfg, areas, dsts, viaV4, a, m) == AreaHops(cfg, areas', dsts, viaV4, a, m)
    {
      SamePathsSameHops(cfg.my, areas[a], areas'[a]);
      SameDistance(areas[a].Ask(cfg.my), areas'[a].Ask(cfg.my), dsts, Some(m));
      SameHopsOver(cfg.my, areas[a], areas'[a], dsts, viaV4, m);
    }
  }

  lemma SameCombinedRoute(cfg: Config, areas: Areas, areas': Areas, entries: PrefixEntries, prefix: Prefix, local: bool,
                          selected: set<NodeArea>, dsts: set<NodeName>, used: set<Area>, n: nat, hops: set<AreaHop>, r: Option<RibEntry>)
    requires AllSamePaths(cfg.my, areas, areas') && Known(areas, entries) && Known(areas', entries)
    requires selected != {} && selected <= entries.Keys && used <= areas.Keys && forall na <- selected :: SameDrainAt(areas, areas', na)
    requires CombinedRoute(cfg, areas, entries, prefix, local, selected, dsts, used, n, hops, r)
    ensures CombinedRoute(cfg, areas', entries, prefix, local, selected, dsts, used, n, hops, r)
  {
    hide Combined, SamePaths, FirstOf, Enough;
    SameCombined(cfg, areas, areas', dsts, prefix.isV4 && !cfg.v4OverV6, used, n, hops);
    assert FirstOf(selected) in selected;
  }

  lemma SameUsed(areas: Areas, areas': Areas, entries: PrefixEntries, selected: set<NodeArea>)
    requires Known(areas, entries) && Known(areas', entries) && selected <= entries.Keys
    ensures (set na <- selected | na.area in areas :: na.area) == (set na <- selected | na.area in areas' :: na.area)
    ensures (set na <- selected | na.area in areas :: na.area) <= areas.Keys
  {
  }

  /** One of our own advertisements is selected, so that there is no route. */
  ghost predicate OwnSelected(cfg: Config, areas: Areas, entries: PrefixEntries)
    requires Known(areas, entries)
  {
    exists na <- Selected(cfg, areas, entries) :: na.node == cfg.my
  }

  /** The same is selected, in the same drain state, or in both cases one of our own. */
  ghost predicate SelectionKept(cfg: Config, areas: Areas, areas': Areas, entries: PrefixEntries)
    requires Known(areas, entries) && Known(areas', entries)
  {
    || (OwnSelected(cfg, areas, entries) && OwnSelected(cfg, areas', entries))
    || (&& Selected(cfg, areas, entries) == Selected(cfg, areas', entries) <= entries.Keys
        && forall na <- Selected(cfg, areas, entries) :: SameDrainAt(areas, areas', na))
  }

  lemma SameRouteFrom(cfg: Config, areas: Areas, areas': Areas, entries: PrefixEntries, prefix: Prefix, local: bool, r: Option<RibEntry>)
    requires AllSamePaths(cfg.my, areas, areas') && Known(areas, entries) && Known(areas', entries)
    requires SelectionKept(cfg, areas, areas', entries) && RouteFrom(cfg, areas, entries, prefix, local, r)
    ensures RouteFrom(cfg, areas', entries, prefix, local, r)
  {
    hide AllSamePaths, SameDrainAt, Selected, CombinedRoute;
    var selected := Selected(cfg, areas, entries);
    if selected == Selected(cfg, areas', entries) && selected <= entries.Keys {
      var dsts, used := set na <- selected :: na.node, set na <- selected | na.area in areas :: na.area;
      SameUsed(areas, areas', entries, selected);
      if selected != {} && cfg.my !in dsts {
        var n: nat, hops :| CombinedRoute(cfg, areas, entries, prefix, local, selected, dsts, used, n, hops, r);
        SameCombinedRoute(cfg, areas, areas', entries, prefix, local, selected, dsts, used, n, hops, r);
      }
    }
  }

  /** Where the selection is kept, so is the route. */
  lemma KeptSameRoute(cfg: Config, areas: Areas, areas': Areas, entries: PrefixEntries, prefix: Prefix, r: Option<RibEntry>)
    requires AllSamePaths(cfg.my, areas, areas') && Known(areas, entries) && Known(areas', entries)
    requires SelectionKept(cfg, areas, areas', Reaching(cfg.my, areas, entries)) && IsRoute(cfg, areas, entries, prefix, r)
    ensures IsRoute(cfg, areas', entries, prefix, r)
  {
    SameReaching(cfg.my, areas, areas', entries);
    hide AllSamePaths, SelectionKept, RouteFrom, Reaching;
    if !(prefix.isV4 && !cfg.enableV4 && !cfg.v4OverV6) {
      SameRouteFrom(cfg, areas, areas', Reaching(cfg.my, areas, entries), prefix, LocalConsidered(cfg.my, entries), r);
    }
  }

  /** Areas that look the same give every prefix the same route. */
  lemma AlikeSameRoute(cfg: Config, areas: Areas, areas': Areas, entries: PrefixEntries, prefix: Prefix, r: Option<RibEntry>)
    requires AllAlike(cfg.my, areas, areas') && Known(areas, entries)
    requires IsRoute(cfg, areas, entries, prefix, r)
    ensures Known(areas', entries) && IsRoute(cfg, areas', entries, prefix, r)
  {
    ReachingHasSameDrain(cfg.my, areas, areas', entries);
    hide SamePaths, SameDrain, Reaching, Selected, IsRoute;
    var reaching := Reaching(cfg.my, areas, entries);
    SameSelected(cfg, areas, areas', reaching);
    KeptSameRoute(cfg, areas, areas', entries, prefix, r);
  }
}
