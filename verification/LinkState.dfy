/** LinkState: the databases received so far, the link table kept in step with them, and the two
    memo tables that are dropped only when an update reports a topology change. */
module LinkStates {
  import opened Topology
  import opened Spf
  import opened DisjointPaths
  import opened SpfView
  import opened LinkMerge
  import opened Adjacencies

  type SpfCache = map<(NodeName, bool), SpfResult>
  type PathCache = map<(NodeName, NodeName, nat), seq<Path>>

  /** A default-constructed database stands in for a node heard of for the first time. */
  function Prior(dbs: Databases, n: NodeName): AdjacencyDb {
    if n in dbs then dbs[n] else AdjacencyDb(n, [], false, 0, 0)
  }

  /** LinkState::updateNodeOverloaded: a first report is stored but not signalled. */
  predicate OverloadReported(overloads: map<NodeName, bool>, n: NodeName, isOverloaded: bool) {
    n in overloads && overloads[n] != isOverloaded
  }

  /** The links, indices, overload bits and increments agree with the databases. */
  ghost predicate InStep(dbs: Databases, g: Graph, increments: map<NodeName, nat>) {
    && AllWellFormed(dbs)
    && g.Valid()
    && Matches(dbs, g.links)
    && (forall n <- dbs :: n in g.overloads && g.overloads[n] == dbs[n].isOverloaded)
    && (forall n <- dbs :: n in increments && increments[n] == dbs[n].metricIncrement)
  }

  ghost predicate SpfCoherent(g: Graph, cache: SpfCache) {
    forall key <- cache :: Solved(Query(g, key.0, key.1, {}), cache[key])
  }

  /** Links on the cached path lists 1 .. k - 1 for a pair of nodes. */
  ghost function LinksBefore(cache: PathCache, s: NodeName, d: NodeName, k: nat): set<LinkId> {
    if k <= 1 then {}
    else LinksBefore(cache, s, d, k - 1) + (if (s, d, k - 1) in cache then LinksOf(cache[(s, d, k - 1)]) else {})
  }

  /** Only the lists before k matter. */
  lemma {:induction false} LinksBeforeFrame(cache: PathCache, cache': PathCache, s: NodeName, d: NodeName, k: nat)
    requires forall i | 1 <= i < k :: (s, d, i) in cache && (s, d, i) in cache' && cache[(s, d, i)] == cache'[(s, d, i)]
    ensures LinksBefore(cache, s, d, k) == LinksBefore(cache', s, d, k)
  {
    if k > 1 {
      LinksBeforeFrame(cache, cache', s, d, k - 1);
    }
  }

  /** Caching the next list of a pair disturbs no other entry. */
  lemma AddPaths(g: Graph, cache: PathCache, s: NodeName, d: NodeName, k: nat, paths: seq<Path>)
    requires PathsCoherent(g, cache) && k >= 1 && (s, d, k) !in cache
    requires forall i | 1 <= i < k :: (s, d, i) in cache
    requires TracedFamily(Query(g, s, true, LinksBefore(cache, s, d, k)), d, paths)
    ensures PathsCoherent(g, cache[(s, d, k) := paths])
    ensures LinksBefore(cache[(s, d, k) := paths], s, d, k) == LinksBefore(cache, s, d, k)
  {
    hide TracedFamily;
    var cache' := cache[(s, d, k) := paths];
    LinksBeforeFrame(cache, cache', s, d, k);
    forall key <- cache
      ensures LinksBefore(cache', key.0, key.1, key.2) == LinksBefore(cache, key.0, key.1, key.2)
    {
      assert key.0 == s && key.1 == d ==> !(1 <= k < key.2);
      LinksBeforeFrame(cache, cache', key.0, key.1, key.2);
    }
  }

  lemma StepIsValid(dbs: Databases, g: Graph, increments: map<NodeName, nat>)
    requires InStep(dbs, g, increments)
    ensures g.Valid()
  {
  }

  /** Every cached list belongs to the current graph without the links of the lists before it,
      all of which are cached too. */
  ghost predicate PathsCoherent(g: Graph, cache: PathCache) {
    forall key <- cache ::
      && key.2 >= 1
      && (forall i | 1 <= i < key.2 :: (key.0, key.1, i) in cache)
      && TracedFamily(Query(g, key.0, true, LinksBefore(cache, key.0, key.1, key.2)), key.1, cache[key])
  }

  /** A graph that looks the same to SPF leaves both memo tables good. */
  lemma CachesSurvive(g: Graph, g': Graph, spf: SpfCache, paths: PathCache)
    requires SameView(g, g') && SpfCoherent(g, spf) && PathsCoherent(g, paths)
    ensures SpfCoherent(g', spf) && PathsCoherent(g', paths)
  {
    hide SameView, SameHops, Solved, TracedFamily, LinksBefore;
    forall key <- spf ensures Solved(Query(g', key.0, key.1, {}), spf[key]) {
      var q := Query(g, key.0, key.1, {});
      SameViewSameHops(q, g');
      SolvedTransfers(q, q.(g := g'), spf[key]);
    }
    forall key <- paths
      ensures TracedFamily(Query(g', key.0, true, LinksBefore(paths, key.0, key.1, key.2)), key.1, paths[key])
    {
      var q := Query(g, key.0, true, LinksBefore(paths, key.0, key.1, key.2));
      SameViewSameHops(q, g');
      TracedTransfers(q, q.(g := g'), key.1, paths[key]);
    }
  }

  /** What the update by `db` does to the graph and what it reports. */
  ghost predicate Applied(dbs: Databases, g: Graph, my: NodeName, db: AdjacencyDb, news: map<LinkId, Link>, g': Graph, change: Change) {
    var n, prior := db.thisNode, Prior(dbs, db.thisNode);
    var g1 := g.(overloads := g.overloads[n := db.isOverloaded]);
    var touched := g.LinksFromNode(n) + news.Keys;
    && MadeAt(dbs[n := db], my, n, news)
    && Merging(g1, g', n, news, touched)
    && (change.topologyChanged <==>
          || OverloadReported(g.overloads, n, db.isOverloaded)
          || prior.metricIncrement != db.metricIncrement
          || exists l <- touched :: Reported(g1, n, news, l))
    && (change.linkAttributesChanged <==> exists l <- touched :: AttributeReported(g1, n, news, l))
    && (change.nodeLabelChanged <==> prior.nodeLabel != db.nodeLabel)
    && (forall l :: l in change.addedLinks <==> l in news && l !in g.links)
  }

  lemma UnreportedLinks(g: Graph, g1: Graph, g': Graph, n: NodeName, news: map<LinkId, Link>)
    requires g.Valid() && g1.links == g.links && g1.linkMap == g.linkMap
    requires Merging(g1, g', n, news, g1.LinksFromNode(n) + news.Keys)
    requires forall l <- g1.LinksFromNode(n) + news.Keys :: !Reported(g1, n, news, l)
    ensures forall l :: Up(g, l) <==> Up(g', l)
    ensures forall l :: Up(g, l) && Up(g', l) ==> g.links[l].MaxMetric() == g'.links[l].MaxMetric()
  {
    hide Merging, Reported;
    forall l ensures Up(g, l) <==> Up(g', l)
             ensures Up(g, l) && Up(g', l) ==> l in g.links && l in g'.links && g.links[l].MaxMetric() == g'.links[l].MaxMetric()
    {
      UnreportedLink(g, g1, g', n, news, l);
    }
  }

  /** An overload bit set without being reported belongs to a node with no link that was up. */
  lemma UnreportedOverload(g: Graph, g': Graph, dbs: Databases, n: NodeName, isOverloaded: bool)
    requires Matches(dbs, g.links) && forall m <- dbs :: m in g.overloads
    requires g'.overloads == g.overloads[n := isOverloaded]
    requires !OverloadReported(g.overloads, n, isOverloaded)
    ensures forall l: LinkId, m :: Up(g, l) && l.Touches(m) ==> (g.Overloaded(m) <==> g'.Overloaded(m))
  {
  }

  /** An update that reports no topology change leaves the graph the same to SPF, even though
      the overload bit of a node heard of for the first time is never reported. */
  lemma UnreportedSameView(dbs: Databases, g: Graph, increments: map<NodeName, nat>, my: NodeName, db: AdjacencyDb,
                           news: map<LinkId, Link>, g': Graph, change: Change)
    requires InStep(dbs, g, increments) && Applied(dbs, g, my, db, news, g', change)
    requires !change.topologyChanged
    ensures SameView(g, g')
  {
    var n := db.thisNode;
    var g1 := g.(overloads := g.overloads[n := db.isOverloaded]);
    assert g1.LinksFromNode(n) == g.LinksFromNode(n);
    assert g'.overloads == g1.overloads;
    hide Merging, Reported, Matches, MadeAt, Up;
    UnreportedLinks(g, g1, g', n, news);
    UnreportedOverload(g, g', dbs, n, db.isOverloaded);
  }

  lemma UnreportedLink(g: Graph, g1: Graph, g': Graph, n: NodeName, news: map<LinkId, Link>, l: LinkId)
    requires g.Valid() && g1.links == g.links && g1.linkMap == g.linkMap
    requires Merging(g1, g', n, news, g1.LinksFromNode(n) + news.Keys)
    requires l in g1.LinksFromNode(n) + news.Keys ==> !Reported(g1, n, news, l)
    ensures Up(g, l) <==> Up(g', l)
    ensures Up(g, l) ==> Up(g', l) && g.links[l].MaxMetric() == g'.links[l].MaxMetric()
  {
  }

  /** updateAdjacencyDatabase on the graph and its indices. */
  method ApplyDatabase(dbs: Databases, g: Graph, ghost increments: map<NodeName, nat>, my: NodeName, hash: LinkId -> nat, db: AdjacencyDb)
    returns (g': Graph, change: Change, news: map<LinkId, Link>)
    requires InStep(dbs, g, increments) && WellFormed(db.thisNode, db)
    ensures Applied(dbs, g, my, db, news, g', change)
  {
    hide *;
    var n, prior := db.thisNode, Prior(dbs, db.thisNode);
    var g1 := g.(overloads := g.overloads[n := db.isOverloaded]);
    ReadyToMerge(dbs, g, increments, db);
    news := MakeLinks(dbs[n := db], my, n);
    MadeLinksJoinNodes(dbs[n := db], my, n, news);
    g', change := MergeLinks(g1, hash, n, news);
    var reported := OverloadReported(g.overloads, n, db.isOverloaded) || prior.metricIncrement != db.metricIncrement;
    FlagsAreApplied(dbs, g, my, db, news, g', change);
    change := change.(topologyChanged := change.topologyChanged || reported, nodeLabelChanged := prior.nodeLabel != db.nodeLabel);
  }

  lemma ReadyToMerge(dbs: Databases, g: Graph, increments: map<NodeName, nat>, db: AdjacencyDb)
    requires InStep(dbs, g, increments) && WellFormed(db.thisNode, db)
    ensures AllWellFormed(dbs[db.thisNode := db])
    ensures g.(overloads := g.overloads[db.thisNode := db.isOverloaded]).Valid()
  {
    OverloadsDoNotMatter(g, g.(overloads := g.overloads[db.thisNode := db.isOverloaded]));
  }

  lemma FlagsAreApplied(dbs: Databases, g: Graph, my: NodeName, db: AdjacencyDb, news: map<LinkId, Link>, g': Graph, change: Change)
    requires var n, g1 := db.thisNode, g.(overloads := g.overloads[db.thisNode := db.isOverloaded]);
             && MadeAt(dbs[n := db], my, n, news)
             && Merging(g1, g', n, news, g1.LinksFromNode(n) + news.Keys)
             && FlagsOf(g1, n, news, g1.LinksFromNode(n) + news.Keys, change)
    ensures var n, prior := db.thisNode, Prior(dbs, db.thisNode);
            Applied(dbs, g, my, db, news, g', change.(
              topologyChanged := change.topologyChanged
                || (OverloadReported(g.overloads, n, db.isOverloaded) || prior.metricIncrement != db.metricIncrement),
              nodeLabelChanged := prior.nodeLabel != db.nodeLabel))
  {
    hide MadeAt, Merging, Reported, AttributeReported;
    var g1 := g.(overloads := g.overloads[db.thisNode := db.isOverloaded]);
    assert g1.LinksFromNode(db.thisNode) == g.LinksFromNode(db.thisNode);
  }

  lemma AppliedKeepsStep(dbs: Databases, g: Graph, increments: map<NodeName, nat>, my: NodeName, db: AdjacencyDb,
                         news: map<LinkId, Link>, g': Graph, change: Change)
    requires InStep(dbs, g, increments) && WellFormed(db.thisNode, db) && Applied(dbs, g, my, db, news, g', change)
    ensures InStep(dbs[db.thisNode := db], g', increments[db.thisNode := db.metricIncrement])
  {
    var n := db.thisNode;
    var g1 := g.(overloads := g.overloads[n := db.isOverloaded]);
    assert g1.LinksFromNode(n) == g.LinksFromNode(n) && g'.Valid() && g'.overloads == g1.overloads;
    ReadyToMerge(dbs, g, increments, db);
    hide Merging, MadeAt, Matches, Reported, AttributeReported, WellFormed;
    MergeMatches(g1, g', dbs, my, n, db, news);
  }

  lemma MadeLinksJoinNodes(dbs: Databases, my: NodeName, n: NodeName, news: map<LinkId, Link>)
    requires AllWellFormed(dbs) && MadeAt(dbs, my, n, news)
    ensures forall l <- news :: l.Touches(n) && l.first.node != l.second.node
  {
  }

  lemma OverloadsDoNotMatter(g: Graph, g1: Graph)
    requires g.Valid() && g1.links == g.links && g1.linkMap == g.linkMap
    ensures g1.Valid()
  {
    assert forall n :: g1.LinksFromNode(n) == g.LinksFromNode(n);
  }

  /** `g'` is `g` without node `n`. */
  ghost predicate NodeRemoved(g: Graph, n: NodeName, g': Graph) {
    && g'.links == (map l <- g.links | !l.Touches(n) :: g.links[l])
    && n !in g'.linkMap
    && (forall m | m != n :: m in g.overloads <==> m in g'.overloads)
    && (forall m <- g.overloads | m != n :: g'.overloads[m] == g.overloads[m])
  }

  /** The loop invariant of removeNode: of the links of `n`, only those in `left` are still in
      the table and in the index of their other end. */
  ghost predicate Emptying(g: Graph, n: NodeName, left: set<LinkId>, g': Graph) {
    && left <= g.LinksFromNode(n) && n in g'.linkMap && g'.overloads == g.overloads
    && (forall l :: l in g'.links <==> l in g.links && (l.Touches(n) ==> l in left))
    && (forall l <- g'.links :: g'.links[l] == g.links[l])
    && (forall m, l | m != n :: l in g'.LinksFromNode(m) <==> l in g'.links && l.Touches(m))
  }

  /** `g` without link `l` of `n`, except in the index of `n` itself. */
  function DropLink(g: Graph, n: NodeName, l: LinkId): Graph {
    var other := l.Other(n);
    g.(linkMap := g.linkMap[other := g.LinksFromNode(other) - {l}], links := g.links - {l})
  }

  lemma DropKeepsEmptying(g: Graph, n: NodeName, left: set<LinkId>, g': Graph, l: LinkId)
    requires g.Valid() && Emptying(g, n, left, g') && l in left
    ensures l in g'.links && l.Other(n) in g'.linkMap && l in g'.linkMap[l.Other(n)]
    ensures Emptying(g, n, left - {l}, DropLink(g', n, l))
  {
    var g2, other := DropLink(g', n, l), l.Other(n);
    assert l in g'.LinksFromNode(other);
    forall m, k | m != n ensures k in g2.LinksFromNode(m) <==> k in g2.links && k.Touches(m) {
      assert k in g'.LinksFromNode(m) <==> k in g'.links && k.Touches(m);
    }
  }

  lemma Emptied(g: Graph, n: NodeName, g': Graph)
    requires g.Valid() && Emptying(g, n, {}, g')
    ensures var g2 := g'.(linkMap := g'.linkMap - {n}, overloads := g'.overloads - {n});
            g2.Valid() && NodeRemoved(g, n, g2)
  {
    var g2 := g'.(linkMap := g'.linkMap - {n}, overloads := g'.overloads - {n});
    forall m, k ensures k in g2.LinksFromNode(m) <==> k in g2.links && k.Touches(m) {
      if m != n {
        assert k in g'.LinksFromNode(m) <==> k in g'.links && k.Touches(m);
      }
    }
  }

  /** removeNode: take every link of `n` out of the other end's index and the table; its CHECKs
      hold. An overload bit of a node that never had a link indexed stays behind. */
  method RemoveNode(g: Graph, n: NodeName) returns (g': Graph)
    requires g.Valid()
    ensures g'.Valid() && NodeRemoved(g, n, g')
  {
    g' := g;
    if n !in g.linkMap {
      assert g.LinksFromNode(n) == {};
      return;
    }
    var links := g.linkMap[n];
    assert Emptying(g, n, links, g);
    hide Emptying, DropLink, NodeRemoved;
    while links != {}
      invariant Emptying(g, n, links, g')
      decreases links
    {
      var l :| l in links;
      DropKeepsEmptying(g, n, links, g', l);
      g' := DropLink(g', n, l);
      links := links - {l};
    }
    Emptied(g, n, g');
    g' := g'.(linkMap := g'.linkMap - {n}, overloads := g'.overloads - {n});
  }

  lemma WithoutNode(dbs: Databases, n: NodeName, id: LinkId)
    ensures Mutual(dbs - {n}, id) <==> Mutual(dbs, id) && !id.Touches(n)
    ensures Mutual(dbs - {n}, id) ==> forall l :: Describes(dbs, id, l) <==> Describes(dbs - {n}, id, l)
  {
    if !id.Touches(n) && id.first.node in dbs && id.second.node in dbs {
      assert (dbs - {n})[id.first.node] == dbs[id.first.node] && (dbs - {n})[id.second.node] == dbs[id.second.node];
    }
  }

  lemma RemovalMatches(dbs: Databases, links: map<LinkId, Link>, n: NodeName, links': map<LinkId, Link>)
    requires Matches(dbs, links) && links' == (map l <- links | !l.Touches(n) :: links[l])
    ensures Matches(dbs - {n}, links')
  {
    forall id: LinkId ensures Mutual(dbs - {n}, id) <==> Mutual(dbs, id) && !id.Touches(n)
               ensures Mutual(dbs - {n}, id) ==> forall l :: Describes(dbs, id, l) <==> Describes(dbs - {n}, id, l)
    {
      WithoutNode(dbs, n, id);
    }
    hide Mutual, Describes;
  }

  lemma RemovalKeepsStep(dbs: Databases, g: Graph, increments: map<NodeName, nat>, n: NodeName, g': Graph)
    requires InStep(dbs, g, increments) && g'.Valid() && NodeRemoved(g, n, g')
    ensures InStep(dbs - {n}, g', increments)
  {
    hide Matches;
    RemovalMatches(dbs, g.links, n, g'.links);
  }

  /** What the databases themselves say of `id`: up for `my`. */
  ghost predicate AdvertisedUp(dbs: Databases, my: NodeName, id: LinkId, l: Link)
    requires Mutual(dbs, id)
  {
    !l.side1.overloaded && !l.side2.overloaded && UsableBy(dbs, my, id)
  }

  /** After an update by `db` a link of its node is up exactly as advertised, unless the update
      ends the node's interface overload on a link whose use it forbids: usability is copied
      only when the up-status differs, and here it does not. */
  lemma UpStatusAfterUpdate(dbs: Databases, g: Graph, increments: map<NodeName, nat>, my: NodeName, db: AdjacencyDb,
                            news: map<LinkId, Link>, g': Graph, change: Change, id: LinkId)
    requires InStep(dbs, g, increments) && WellFormed(db.thisNode, db) && Applied(dbs, g, my, db, news, g', change)
    requires id in g'.links && id.Touches(db.thisNode)
    ensures Mutual(dbs[db.thisNode := db], id)
    ensures var first := id.first.node == db.thisNode;
            (g'.links[id].IsUp() <==> AdvertisedUp(dbs[db.thisNode := db], my, id, g'.links[id])) <==>
            !(&& id in g.links && g.links[id].usable && !UsableBy(dbs[db.thisNode := db], my, id)
              && MySide(g.links[id], first).overloaded && !MySide(g'.links[id], first).overloaded
              && !MySide(g.links[id], !first).overloaded)
  {
    var n := db.thisNode;
    var first, dbs' := id.first.node == n, dbs[n := db];
    var g1 := g.(overloads := g.overloads[n := db.isOverloaded]);
    AppliedKeepsStep(dbs, g, increments, my, db, news, g', change);
    assert Mutual(dbs', id) && id in news;
    assert Settled(g1, g', n, news, id);
    if id in g.links {
      SameFarSide(dbs, g.links[id], n, db, id, news[id]);
      hide Merging, InStep;
      UpStatusExact(g.links[id], news[id], first);
    }
  }

  /** The other links keep their state and what is advertised of them. */
  lemma UpStatusElsewhere(dbs: Databases, g: Graph, increments: map<NodeName, nat>, my: NodeName, db: AdjacencyDb,
                          news: map<LinkId, Link>, g': Graph, change: Change, id: LinkId)
    requires InStep(dbs, g, increments) && Applied(dbs, g, my, db, news, g', change)
    requires id in g'.links && !id.Touches(db.thisNode)
    ensures id in g.links && g'.links[id] == g.links[id] && Mutual(dbs, id) && Mutual(dbs[db.thisNode := db], id)
    ensures AdvertisedUp(dbs, my, id, g.links[id]) <==> AdvertisedUp(dbs[db.thisNode := db], my, id, g'.links[id])
  {
    assert Applied(dbs, g, my, db, news, g', change) && id !in g.LinksFromNode(db.thisNode) + news.Keys;
    assert Untouched(g.(overloads := g.overloads[db.thisNode := db.isOverloaded]), g', id);
    hide Applied;
    OtherEndsAdvertise(dbs, db, my, id);
  }

  lemma OtherEndsAdvertise(dbs: Databases, db: AdjacencyDb, my: NodeName, id: LinkId)
    requires !id.Touches(db.thisNode)
    ensures Mutual(dbs, id) <==> Mutual(dbs[db.thisNode := db], id)
    ensures Mutual(dbs, id) ==> (UsableBy(dbs, my, id) <==> UsableBy(dbs[db.thisNode := db], my, id))
  {
  }

  /** An adjacency that only the other end may use. */
  predicate Reserves(db: AdjacencyDb) {
    exists adj <- db.adjacencies :: adj.onlyUsedByOther
  }

  ghost predicate Unreserved(dbs: Databases) {
    forall n <- dbs :: !Reserves(dbs[n])
  }

  ghost predicate AllUsable(links: map<LinkId, Link>) {
    forall id <- links :: links[id].usable
  }

  lemma UnreservedIsUsable(dbs: Databases, my: NodeName, id: LinkId)
    requires Unreserved(dbs) && Mutual(dbs, id)
    ensures UsableBy(dbs, my, id)
  {
  }

  /** While no adjacency is reserved, the links stay usable. */
  lemma UsableAfterUpdate(dbs: Databases, g: Graph, my: NodeName, db: AdjacencyDb, news: map<LinkId, Link>, g': Graph, change: Change)
    requires Applied(dbs, g, my, db, news, g', change) && Unreserved(dbs[db.thisNode := db]) && AllUsable(g.links)
    ensures AllUsable(g'.links)
  {
    var dbs' := dbs[db.thisNode := db];
    forall id <- news ensures news[id].usable {
      UnreservedIsUsable(dbs', my, id);
    }
    var g1 := g.(overloads := g.overloads[db.thisNode := db.isOverloaded]);
    var touched := g.LinksFromNode(db.thisNode) + news.Keys;
    hide MadeAt, Unreserved, Reported, AttributeReported;
    forall id <- g'.links ensures g'.links[id].usable {
      if id in touched {
        assert Settled(g1, g', db.thisNode, news, id);
      } else {
        assert Untouched(g1, g', id);
      }
    }
  }

  /** Every link is up exactly as it is advertised. */
  ghost predicate UpAsAdvertised(dbs: Databases, my: NodeName, links: map<LinkId, Link>) {
    forall id <- links :: Mutual(dbs, id) && (links[id].IsUp() <==> AdvertisedUp(dbs, my, id, links[id]))
  }

  lemma UsableIsAsAdvertised(dbs: Databases, g: Graph, increments: map<NodeName, nat>, my: NodeName)
    requires InStep(dbs, g, increments) && Unreserved(dbs) && AllUsable(g.links)
    ensures UpAsAdvertised(dbs, my, g.links)
  {
    forall id <- g.links ensures Mutual(dbs, id) && (g.links[id].IsUp() <==> AdvertisedUp(dbs, my, id, g.links[id])) {
      UnreservedIsUsable(dbs, my, id);
    }
  }

  lemma SameFarSide(dbs: Databases, stored: Link, n: NodeName, db: AdjacencyDb, id: LinkId, made: Link)
    requires id.Touches(n) && id.first.node != id.second.node
    requires Mutual(dbs, id) && Describes(dbs, id, stored)
    requires Mutual(dbs[n := db], id) && Describes(dbs[n := db], id, made)
    ensures MySide(made, id.first.node != n) == MySide(stored, id.first.node != n)
  {
  }

  ghost predicate PeerOverloaded(dbs: Databases, n: NodeName, adj: Adjacency) {
    adj.otherNode in dbs && exists b :: From(dbs[adj.otherNode], Far(adj), Near(n, adj), b) && b.side.overloaded
  }

  /** The adjacencies of `n` that the other end advertises back, in order, each overloaded if
      either end says so. Stated on the databases alone. */
  ghost function MutualFilter(dbs: Databases, n: NodeName, adjs: seq<Adjacency>): seq<Adjacency> {
    if adjs == [] then []
    else
      var adj := adjs[|adjs| - 1];
      MutualFilter(dbs, n, adjs[..|adjs| - 1]) +
      if Mutual(dbs, IdOf(Near(n, adj), Far(adj)))
      then [adj.(side := adj.side.(overloaded := adj.side.overloaded || PeerOverloaded(dbs, n, adj)))]
      else []
  }

  /** The link table answers for one adjacency what the filter asks of the databases. */
  lemma TableAnswers(dbs: Databases, g: Graph, increments: map<NodeName, nat>, n: NodeName, adj: Adjacency)
    requires InStep(dbs, g, increments) && n in dbs && adj in dbs[n].adjacencies
    ensures var id := IdOf(Near(n, adj), Far(adj));
            && (id in g.LinksFromNode(n) <==> Mutual(dbs, id))
            && (id in g.LinksFromNode(n) ==> id in g.links && (MySide(g.links[id], id.first.node != n).overloaded <==> PeerOverloaded(dbs, n, adj)))
  {
    var id := IdOf(Near(n, adj), Far(adj));
    assert WellFormed(n, dbs[n]);
    IdOfAdjacency(n, adj);
    if id in g.LinksFromNode(n) {
      assert id in g.links && Mutual(dbs, id) && Describes(dbs, id, g.links[id]);
      var b :| From(dbs[adj.otherNode], Far(adj), Near(n, adj), b);
      forall c | From(dbs[adj.otherNode], Far(adj), Near(n, adj), c) ensures c == b {
        AdjacencyIsUnique(dbs[adj.otherNode], adj.otherNode, Far(adj), Near(n, adj), c, b);
      }
    }
  }

  /** One database of getAdjacencyDatabasesComputed. */
  method ComputedDatabase(dbs: Databases, g: Graph, ghost increments: map<NodeName, nat>, n: NodeName) returns (db: AdjacencyDb)
    requires InStep(dbs, g, increments) && n in dbs
    ensures db == dbs[n].(adjacencies := MutualFilter(dbs, n, dbs[n].adjacencies))
  {
    hide InStep, PeerOverloaded, Mutual, IdOf;
    var links := g.LinksFromNode(n);
    var adjs := dbs[n].adjacencies;
    var kept: seq<Adjacency> := [];
    for i := 0 to |adjs|
      invariant kept == MutualFilter(dbs, n, adjs[..i])
    {
      var adj := adjs[i];
      var id := IdOf(Near(n, adj), Far(adj));
      TableAnswers(dbs, g, increments, n, adj);
      assert adjs[..i + 1][..i] == adjs[..i];
      if id in links {
        var peerOverloaded := MySide(g.links[id], id.first.node != n).overloaded;
        kept := kept + [adj.(side := adj.side.(overloaded := adj.side.overloaded || peerOverloaded))];
      }
    }
    assert adjs[..|adjs|] == adjs;
    db := dbs[n].(adjacencies := kept);
  }

  lemma EmptyCachesCohere(g: Graph)
    ensures SpfCoherent(g, map[]) && PathsCoherent(g, map[])
  {
  }

  lemma CachedFamily(g: Graph, cache: PathCache, s: NodeName, d: NodeName, k: nat)
    requires PathsCoherent(g, cache) && (s, d, k) in cache
    ensures TracedFamily(Query(g, s, true, LinksBefore(cache, s, d, k)), d, cache[(s, d, k)])
  {
  }

  lemma {:induction false} LinksBeforeHolds(cache: PathCache, s: NodeName, d: NodeName, i: nat, k: nat)
    requires 1 <= i < k && (s, d, i) in cache
    ensures LinksOf(cache[(s, d, i)]) <= LinksBefore(cache, s, d, k)
  {
    if i < k - 1 {
      LinksBeforeHolds(cache, s, d, i, k - 1);
    }
  }

  /** Cached path lists of one pair of nodes never share a link. */
  lemma ListsAreDisjoint(g: Graph, cache: PathCache, s: NodeName, d: NodeName, i: nat, k: nat)
    requires PathsCoherent(g, cache) && 1 <= i < k && (s, d, k) in cache
    ensures (s, d, i) in cache && LinksOf(cache[(s, d, i)]) !! LinksOf(cache[(s, d, k)])
  {
    hide LinksOf;
    LinksBeforeHolds(cache, s, d, i, k);
    FamilyAvoidsIgnored(Query(g, s, true, LinksBefore(cache, s, d, k)), d, cache[(s, d, k)]);
  }

  class LinkState {
    /** The node that computes routes, and the hash that orders links. */
    const my: NodeName
    const hash: LinkId -> nat

    /** adjacencyDatabases_ */
    var dbs: Databases
    /** linkMap_, allLinks_ and nodeOverloads_ */
    var g: Graph
    /** nodeMetricIncrementVals_ */
    var increments: map<NodeName, nat>
    /** spfResults_ and kthPathResults_ */
    var spfResults: SpfCache
    var kthPathResults: PathCache

    ghost predicate Valid()
      reads this
    {
      InStep(dbs, g, increments) && SpfCoherent(g, spfResults) && PathsCoherent(g, kthPathResults)
    }

    /** No adjacency is reserved and no link was left unusable by one. */
    ghost predicate Open()
      reads this
    {
      Unreserved(dbs) && AllUsable(g.links)
    }

    constructor (my: NodeName, hash: LinkId -> nat)
      ensures Valid() && Open() && dbs == map[] && this.my == my && this.hash == hash
    {
      this.my, this.hash := my, hash;
      dbs, g, increments := map[], Graph(map[], map[], map[]), map[];
      spfResults, kthPathResults := map[], map[];
    }

    /** updateAdjacencyDatabase. The caches are dropped only if the change reports a topology
        change; if it does not, the graph is the same to SPF. */
    method UpdateAdjacencyDatabase(db: AdjacencyDb) returns (change: Change)
      requires Valid() && WellFormed(db.thisNode, db)
      modifies this
      ensures Valid()
      ensures dbs == old(dbs)[db.thisNode := db]
      ensures exists news :: Applied(old(dbs), old(g), my, db, news, g, change)
      ensures old(Open()) && !Reserves(db) ==> Open()
      ensures !change.topologyChanged ==> SameView(old(g), g)
      ensures !change.topologyChanged ==> spfResults == old(spfResults) && kthPathResults == old(kthPathResults)
    {
      hide InStep, SpfCoherent, PathsCoherent, SameView, Applied, WellFormed, Reserves, AllUsable;
      ghost var g0 := g;
      var g2, news;
      g2, change, news := ApplyDatabase(dbs, g, increments, my, hash, db);
      AppliedKeepsStep(dbs, g, increments, my, db, news, g2, change);
      if !change.topologyChanged {
        UnreportedSameView(dbs, g, increments, my, db, news, g2, change);
      }
      if Open() && !Reserves(db) {
        UsableAfterUpdate(dbs, g, my, db, news, g2, change);
      }
      dbs, g, increments := dbs[db.thisNode := db], g2, increments[db.thisNode := db.metricIncrement];
      if change.topologyChanged {
        spfResults, kthPathResults := map[], map[];
        EmptyCachesCohere(g);
      } else {
        CachesSurvive(g0, g2, spfResults, kthPathResults);
      }
    }
  
    /** getSpfResult: memoized, and always a result for the current graph. */
    method GetSpfResult(src: NodeName, useLinkMetric: bool) returns (r: SpfResult)
      requires Valid()
      modifies this`spfResults
      ensures Valid()
      ensures Solved(Query(g, src, useLinkMetric, {}), r)
    {
      hide InStep, PathsCoherent, Solved;
      var key := (src, useLinkMetric);
      if key !in spfResults {
        StepIsValid(dbs, g, increments);
        r := RunSpf(Query(g, src, useLinkMetric, {}));
        spfResults := spfResults[key := r];
      }
      r := spfResults[key];
    }

    /** getKthPaths: a family of link-disjoint shortest paths in the graph without the links of
        the families before it, which are cached as well. */
    method GetKthPaths(src: NodeName, dest: NodeName, k: nat) returns (paths: seq<Path>)
      requires Valid() && k >= 1
      modifies this`spfResults, this`kthPathResults
      ensures Valid()
      ensures (src, dest, k) in kthPathResults && paths == kthPathResults[(src, dest, k)]
      ensures TracedFamily(Query(g, src, true, LinksBefore(kthPathResults, src, dest, k)), dest, paths)
      ensures forall key <- old(kthPathResults) :: key in kthPathResults && kthPathResults[key] == old(kthPathResults)[key]
      ensures forall key <- kthPathResults :: key in old(kthPathResults) || (key.0 == src && key.1 == dest && key.2 <= k)
      decreases k, 1
    {
      hide InStep, SpfCoherent, PathsCoherent, TracedFamily, Solved, LinksBefore, LinksOf;
      var key := (src, dest, k);
      if key !in kthPathResults {
        var ignored := CollectBefore(src, dest, k);
        StepIsValid(dbs, g, increments);
        var q := Query(g, src, true, ignored);
        var res;
        if ignored == {} {
          res := GetSpfResult(src, true);
        } else {
          res := RunSpf(q);
        }
        paths := DisjointShortestPaths(q, res, dest);
        AddPaths(g, kthPathResults, src, dest, k, paths);
        kthPathResults := kthPathResults[key := paths];
      }
      CachedFamily(g, kthPathResults, src, dest, k);
      paths := kthPathResults[key];
    }

    /** The loop of getKthPaths over the lists before k. */
    method CollectBefore(src: NodeName, dest: NodeName, k: nat) returns (ignored: set<LinkId>)
      requires Valid() && k >= 1 && (src, dest, k) !in kthPathResults
      modifies this`spfResults, this`kthPathResults
      ensures Valid() && (src, dest, k) !in kthPathResults
      ensures ignored == LinksBefore(kthPathResults, src, dest, k)
      ensures forall i | 1 <= i < k :: (src, dest, i) in kthPathResults
      ensures forall key <- old(kthPathResults) :: key in kthPathResults && kthPathResults[key] == old(kthPathResults)[key]
      ensures forall key <- kthPathResults :: key in old(kthPathResults) || (key.0 == src && key.1 == dest && key.2 < k)
      decreases k, 0
    {
      hide InStep, SpfCoherent, PathsCoherent, TracedFamily, LinksOf;
      ignored := {};
      for i := 1 to k
        invariant Valid()
        invariant forall j | 1 <= j < i :: (src, dest, j) in kthPathResults
        invariant ignored == LinksBefore(kthPathResults, src, dest, i)
        invariant forall key <- old(kthPathResults) :: key in kthPathResults && kthPathResults[key] == old(kthPathResults)[key]
        invariant forall key <- kthPathResults :: key in old(kthPathResults) || (key.0 == src && key.1 == dest && key.2 < k)
      {
        ghost var cache := kthPathResults;
        var before := GetKthPaths(src, dest, i);
        LinksBeforeFrame(cache, kthPathResults, src, dest, i);
        ignored := ignored + LinksOf(before);
      }
    }
  
    /** deleteAdjacencyDatabase. */
    method DeleteAdjacencyDatabase(n: NodeName) returns (change: Change)
      requires Valid()
      modifies this
      ensures Valid()
      ensures dbs == old(dbs) - {n} && (old(Open()) ==> Open())
      ensures change == Change(n in old(dbs), false, false, [])
      ensures n in old(dbs) ==> NodeRemoved(old(g), n, g)
      ensures n !in old(dbs) ==> g == old(g) && spfResults == old(spfResults) && kthPathResults == old(kthPathResults)
    {
      hide InStep, SpfCoherent, PathsCoherent, Reserves;
      change := Change(n in dbs, false, false, []);
      if n in dbs {
        StepIsValid(dbs, g, increments);
        var g' := RemoveNode(g, n);
        RemovalKeepsStep(dbs, g, increments, n, g');
        dbs, g := dbs - {n}, g';
        spfResults, kthPathResults := map[], map[];
        EmptyCachesCohere(g);
      } else {
        assert dbs == dbs - {n};
      }
    }
  
    /** getAdjacencyDatabasesComputed: exactly the mutual adjacencies of every database. */
    method GetAdjacencyDatabasesComputed() returns (computed: Databases)
      requires Valid()
      ensures computed.Keys == dbs.Keys
      ensures forall n <- dbs :: computed[n] == dbs[n].(adjacencies := MutualFilter(dbs, n, dbs[n].adjacencies))
    {
      hide InStep, SpfCoherent, PathsCoherent, MutualFilter;
      computed := map[];
      var todo := dbs.Keys;
      while todo != {}
        invariant todo <= dbs.Keys && computed.Keys == dbs.Keys - todo
        invariant forall n <- computed :: computed[n] == dbs[n].(adjacencies := MutualFilter(dbs, n, dbs[n].adjacencies))
        decreases todo
      {
        var n :| n in todo;
        var db := ComputedDatabase(dbs, g, increments, n);
        computed, todo := computed[n := db], todo - {n};
      }
    }
  }

  datatype Op =
    | Update(db: AdjacencyDb)
    | Delete(node: NodeName)
    | AskSpf(src: NodeName, useLinkMetric: bool)
    | AskPaths(src: NodeName, dest: NodeName, k: nat)

  ghost predicate Legal(op: Op) {
    (op.Update? ==> WellFormed(op.db.thisNode, op.db)) && (op.AskPaths? ==> op.k >= 1)
  }

  /** The latest database of every node after a run. */
  function Latest(dbs: Databases, ops: seq<Op>): Databases {
    if ops == [] then dbs
    else
      var before := Latest(dbs, ops[..|ops| - 1]);
      match ops[|ops| - 1]
      case Update(db) => before[db.thisNode := db]
      case Delete(n) => before - {n}
      case _ => before
  }

  predicate Reserving(ops: seq<Op>) {
    exists op <- ops :: op.Update? && Reserves(op.db)
  }

  /** Any run of updates, deletions and queries from an empty state: the link table matches the
      latest databases, every memoized answer is an answer for the current graph, and as long as
      no update has reserved an adjacency every link is up exactly as it is advertised. */
  method Run(my: NodeName, hash: LinkId -> nat, ops: seq<Op>) returns (ls: LinkState)
    requires forall op <- ops :: Legal(op)
    ensures ls.Valid() && ls.dbs == Latest(map[], ops)
    ensures !Reserving(ops) ==> UpAsAdvertised(ls.dbs, my, ls.g.links)
  {
    hide InStep, SpfCoherent, PathsCoherent, WellFormed, Applied, SameView, NodeRemoved, Solved, TracedFamily, AllUsable, Unreserved, Reserves, UpAsAdvertised;
    ls := new LinkState(my, hash);
    for i := 0 to |ops|
      invariant ls.Valid() && ls.dbs == Latest(map[], ops[..i])
      invariant !Reserving(ops) ==> ls.Open()
    {
      assert ops[..i + 1][..i] == ops[..i] && Legal(ops[i]);
      match ops[i]
      case Update(db) => var change := ls.UpdateAdjacencyDatabase(db);
      case Delete(n) => var change := ls.DeleteAdjacencyDatabase(n);
      case AskSpf(src, metric) => var r := ls.GetSpfResult(src, metric);
      case AskPaths(src, dest, k) => var paths := ls.GetKthPaths(src, dest, k);
    }
    assert ops[..|ops|] == ops;
    if !Reserving(ops) {
      UsableIsAsAdvertised(ls.dbs, ls.g, ls.increments, my);
    }
  }

  /** The database of one end of a link between interfaces 0 of nodes 1 and 2. */
  function OneLink(n: NodeName, peer: NodeName, overloaded: bool, reserved: bool): AdjacencyDb {
    AdjacencyDb(n, [Adjacency(0, peer, 0, Side(1, overloaded, 0, 0, 0, 0), reserved)], false, 0, 0)
  }

  const THE_LINK := LinkId(Endpoint(1, 0), Endpoint(2, 0))

  lemma OneLinkIsMutual(dbs: Databases, g: Graph, increments: map<NodeName, nat>, overloaded: bool, reserved: bool)
    requires InStep(dbs, g, increments) && dbs == map[1 := OneLink(1, 2, false, false), 2 := OneLink(2, 1, overloaded, reserved)]
    ensures THE_LINK in g.links && Mutual(dbs, THE_LINK)
    ensures !g.links[THE_LINK].side1.overloaded && g.links[THE_LINK].side2.overloaded == overloaded
    ensures forall my | my != 1 && my != 2 :: UsableBy(dbs, my, THE_LINK) <==> !reserved
  {
    var a, b := dbs[1].adjacencies[0], dbs[2].adjacencies[0];
    assert From(dbs[1], THE_LINK.first, THE_LINK.second, a) && From(dbs[2], THE_LINK.second, THE_LINK.first, b);
    assert Mutual(dbs, THE_LINK) && Describes(dbs, THE_LINK, g.links[THE_LINK]);
  }

  /** A reservation can be overlooked: node 2 ends the overload of its interface and reserves the
      adjacency for node 1 in one update, and everybody else goes on using the link. */
  method ReservationIsMissed(my: NodeName, hash: LinkId -> nat) returns (ls: LinkState)
    requires my != 1 && my != 2
    ensures ls.Valid() && ls.dbs == map[1 := OneLink(1, 2, false, false), 2 := OneLink(2, 1, false, true)]
    ensures THE_LINK in ls.g.links && Mutual(ls.dbs, THE_LINK)
    ensures ls.g.links[THE_LINK].IsUp() && !AdvertisedUp(ls.dbs, my, THE_LINK, ls.g.links[THE_LINK])
  {
    hide SpfCoherent, PathsCoherent, Applied, SameView, InStep;
    ls := new LinkState(my, hash);
    var change := ls.UpdateAdjacencyDatabase(OneLink(1, 2, false, false));
    change := ls.UpdateAdjacencyDatabase(OneLink(2, 1, true, false));
    ghost var dbs, g, increments := ls.dbs, ls.g, ls.increments;
    OneLinkIsMutual(dbs, g, increments, true, false);
    change := ls.UpdateAdjacencyDatabase(OneLink(2, 1, false, true));
    ghost var news :| Applied(dbs, g, my, OneLink(2, 1, false, true), news, ls.g, change);
    OneLinkIsMutual(ls.dbs, ls.g, ls.increments, false, true);
    UpStatusAfterUpdate(dbs, g, increments, my, OneLink(2, 1, false, true), news, ls.g, change, THE_LINK);
  }
}
