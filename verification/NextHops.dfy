/** SpfSolver: next hops toward a set of destinations, and what forwarding along them does. */
module NextHops {
  import opened Options
  import opened Topology
  import opened Spf
  import opened SpfPaths
  import opened SpfTies
  import opened Walks

  datatype NextHop = NextHop(address: nat, iface: IfName, metric: nat, neighbor: NodeName)

  /** `p` is a shortest permitted walk to the destination set, ending at its member `d`. */
  ghost predicate BestWalkTo(q: Query, dsts: set<NodeName>, p: seq<Hop>, d: NodeName) {
    && d in dsts
    && q.Walk(p, d)
    && forall d', w | d' in dsts && q.Walk(w, d') :: q.Length(p) <= q.Length(w)
  }

  /** `l` is the first link of some shortest walk to the destination set. */
  ghost predicate BestFirstLink(q: Query, dsts: set<NodeName>, l: LinkId) {
    exists p: seq<Hop>, d :: BestWalkTo(q, dsts, p, d) && p != [] && p[0].link == l
  }

  /** `d` is a recorded destination at metric `best`, the least of all. */
  ghost predicate Closest(spf: SpfResult, dsts: set<NodeName>, best: nat, d: NodeName) {
    && d in dsts && d in spf && spf[d].metric == best
    && forall d' <- dsts :: d' in spf ==> best <= spf[d'].metric
  }

  /** The running-best loop of getNextHopsWithMetric. */
  method ClosestNodes(spf: SpfResult, dsts: set<NodeName>) returns (best: Option<nat>, closest: set<NodeName>)
    ensures best.None? ==> closest == {} && forall d <- dsts :: d !in spf
    ensures best.Some? ==> closest != {} && forall d :: d in closest <==> Closest(spf, dsts, best.value, d)
  {
    best, closest := None, {};
    var todo := dsts;
    while todo != {}
      invariant todo <= dsts
      invariant best.None? ==> closest == {} && forall d <- dsts - todo :: d !in spf
      invariant best.Some? ==> closest != {} && forall d :: d in closest <==> Closest(spf, dsts - todo, best.value, d)
      decreases todo
    {
      var d :| d in todo;
      todo := todo - {d};
      if d in spf && (best.None? || best.value >= spf[d].metric) {
        if best.None? || best.value > spf[d].metric {
          best, closest := Some(spf[d].metric), {};
        }
        closest := closest + {d};
      }
    }
  }

  /** A next hop of a recorded node is recorded and no farther. */
  lemma NextHopIsNearer(q: Query, r: SpfResult, v: NodeName, n: NodeName)
    requires Solved(q, r) && v in r && n in r[v].nextHops
    ensures n in r && r[n].metric <= r[v].metric
  {
    hide Solved;
    var p := WalkVia(q, r, v, n);
    FirstHopReaches(q, p, v);
    WalkStaysInResult(q, r, [p[0]], n);
    WalkStaysInResult(q, r, p, v);
  }

  /** The first hop of a walk is a walk, and no longer. */
  lemma FirstHopReaches(q: Query, p: seq<Hop>, v: NodeName)
    requires q.Walk(p, v) && p != []
    ensures q.Walk([p[0]], p[0].to) && q.Length([p[0]]) <= q.Length(p)
  {
    WalkIsChain(q, p, v);
    WalkIsChain(q, [p[0]], p[0].to);
    hide Query.Walk, Query.Permitted;
    assert p == [p[0]] + p[1..];
    LengthOfConcat(q, [p[0]], p[1..]);
  }

  /** `nodes` are the next hops toward the closest destinations, each with what remains to be
      travelled from it. */
  ghost predicate NodesExact(spf: SpfResult, dsts: set<NodeName>, best: nat, nodes: map<NodeName, nat>) {
    && (exists d :: Closest(spf, dsts, best, d))
    && (forall n :: n in nodes <==> exists d :: Closest(spf, dsts, best, d) && n in spf[d].nextHops)
    && (forall n <- nodes :: n in spf && nodes[n] + spf[n].metric == best)
  }

  /** Next-hop nodes toward the closest of `dsts`, each with what remains to be travelled
      from it. The subtraction is exact: no next hop is farther than the destination. */
  method GetNextHopsWithMetric(q: Query, spf: SpfResult, dsts: set<NodeName>)
    returns (best: Option<nat>, nodes: map<NodeName, nat>)
    requires Solved(q, spf)
    ensures best.None? ==> nodes == map[] && forall d <- dsts :: d !in spf
    ensures best.Some? ==> NodesExact(spf, dsts, best.value, nodes)
  {
    hide Solved;
    var closest;
    best, closest := ClosestNodes(spf, dsts);
    nodes := map[];
    ghost var done := {};
    while closest != {}
      invariant best.None? ==> closest == {} && nodes == map[]
      invariant best.Some? ==> forall d :: d in closest || d in done <==> Closest(spf, dsts, best.value, d)
      invariant best.Some? ==> closest + done != {}
      invariant forall d <- done :: d in spf
      invariant forall n :: n in nodes <==> exists d <- done :: n in spf[d].nextHops
      invariant best.Some? ==> forall n <- nodes :: n in spf && nodes[n] + spf[n].metric == best.value
      decreases closest
    {
      var d :| d in closest;
      assert Closest(spf, dsts, best.value, d);
      var hops := spf[d].nextHops;
      forall n <- hops ensures n in spf && spf[n].metric <= best.value {
        NextHopIsNearer(q, spf, d, n);
      }
      nodes := nodes + map n | n in hops :: best.value - spf[n].metric;
      closest, done := closest - {d}, done + {d};
    }
  }

  /** The side of `l` that `n` advertises. */
  function SideOf(g: Graph, l: LinkId, n: NodeName): Side
    requires l in g.links
  {
    if l.first.node == n then g.links[l].side1 else g.links[l].side2
  }

  function IfaceOf(l: LinkId, n: NodeName): IfName {
    if l.first.node == n then l.first.iface else l.second.iface
  }

  /** createNextHop for crossing `l` out of the source. */
  function NextHopOver(q: Query, viaV4: bool, l: LinkId, metric: nat): NextHop
    requires l in q.g.links
  {
    var side := SideOf(q.g, l, q.src);
    NextHop(if viaV4 then side.nhV4 else side.nhV6, IfaceOf(l, q.src), metric, l.Other(q.src))
  }

  /** The links out of the source that getNextHopsThrift turns into next hops. */
  ghost predicate Chosen(q: Query, best: nat, nodes: map<NodeName, nat>, l: LinkId) {
    && l in q.g.links && l.Touches(q.src) && q.g.links[l].IsUp()
    && l.Other(q.src) in nodes
    && q.g.links[l].MaxMetric() + nodes[l.Other(q.src)] == best
  }

  ghost function ChosenLinks(q: Query, best: nat, nodes: map<NodeName, nat>): set<LinkId> {
    set l <- q.g.links | Chosen(q, best, nodes, l)
  }

  ghost function HopsOver(q: Query, viaV4: bool, links: set<LinkId>, metric: nat): set<NextHop> {
    set l <- links | l in q.g.links :: NextHopOver(q, viaV4, l, metric)
  }

  method GetNextHopsThrift(q: Query, viaV4: bool, best: nat, nodes: map<NodeName, nat>) returns (nextHops: set<NextHop>)
    requires q.g.Valid()
    ensures nextHops == HopsOver(q, viaV4, ChosenLinks(q, best, nodes), best)
  {
    nextHops := {};
    var links := q.g.LinksFromNode(q.src);
    ghost var done := {};
    while links != {}
      invariant links + done == q.g.LinksFromNode(q.src)
      invariant nextHops == HopsOver(q, viaV4, ChosenLinks(q, best, nodes) * done, best)
      decreases links
    {
      var l :| l in links;
      var n := l.Other(q.src);
      if n in nodes && q.g.links[l].IsUp() {
        var distOverLink := q.g.links[l].MaxMetric() + nodes[n];
        if distOverLink == best {
          nextHops := nextHops + {NextHopOver(q, viaV4, l, distOverLink)};
        }
      }
      links, done := links - {l}, done + {l};
    }
  }

  /** The default question of SpfSolver: metric-based, no link left out. */
  ghost predicate Plain(q: Query) {
    q.useLinkMetric && q.ignored == {} && q.g.Valid()
  }

  /** Shortest walks to the destination set are the shortest walks to its closest members. */
  lemma BestIsClosest(q: Query, spf: SpfResult, dsts: set<NodeName>, best: nat, p: seq<Hop>, d: NodeName)
    requires Solved(q, spf) && exists c :: Closest(spf, dsts, best, c)
    ensures BestWalkTo(q, dsts, p, d) <==> Closest(spf, dsts, best, d) && q.ShortestWalk(p, d)
  {
    hide Solved;
    var c :| Closest(spf, dsts, best, c);
    var toC := BestWalk(q, spf, c);
    if BestWalkTo(q, dsts, p, d) {
      WalkStaysInResult(q, spf, p, d);
      assert q.Length(p) <= q.Length(toC);
    }
    if Closest(spf, dsts, best, d) && q.ShortestWalk(p, d) {
      WalkStaysInResult(q, spf, p, d);
      forall d', w | d' in dsts && q.Walk(w, d') ensures q.Length(p) <= q.Length(w) {
        WalkStaysInResult(q, spf, w, d');
      }
    }
  }

  /** A best walk leaves over a link as short as the distance to its far end. */
  lemma FirstLinkIsShortest(q: Query, spf: SpfResult, p: seq<Hop>, v: NodeName)
    requires Solved(q, spf) && q.ShortestWalk(p, v) && p != []
    ensures p[0].to in spf && q.Cost(p[0].link) == spf[p[0].to].metric
    ensures p[0].from == q.src && q.Permitted(p[0])
  {
    hide Solved;
    var h, n := p[0], p[0].to;
    WalkIsChain(q, p, v);
    JoinWalk(q, h, [], n);
    assert [h] + [] == [h];
    WalkStaysInResult(q, spf, [h], n);
    var best := BestWalk(q, spf, n);
    ReplaceFirstHop(q, p, v, best);
  }

  /** Where ECMP is complete, the chosen links are exactly the first links of shortest walks to the
      destinations. */
  lemma ChosenIsBestFirstLink(q: Query, spf: SpfResult, dsts: set<NodeName>, best: nat, nodes: map<NodeName, nat>, l: LinkId)
    requires Plain(q) && Solved(q, spf) && EcmpComplete(q) && NodesExact(spf, dsts, best, nodes)
    ensures Chosen(q, best, nodes, l) <==> BestFirstLink(q, dsts, l)
  {
    hide Solved, EcmpComplete;
    if Chosen(q, best, nodes, l) {
      ChosenStartsBestWalk(q, spf, dsts, best, nodes, l);
    }
    if BestFirstLink(q, dsts, l) {
      var p: seq<Hop>, d :| BestWalkTo(q, dsts, p, d) && p != [] && p[0].link == l;
      BestIsClosest(q, spf, dsts, best, p, d);
      FirstLinkIsShortest(q, spf, p, d);
      assert StartsTo(p, p[0].to);
      EcmpCompletes(q, spf);
      NextHopsAreFirstHops(q, spf, d, p[0].to);
    }
  }

  /** A chosen link is the first link of a shortest walk in any case. */
  lemma ChosenStartsBestWalk(q: Query, spf: SpfResult, dsts: set<NodeName>, best: nat, nodes: map<NodeName, nat>, l: LinkId)
    requires Plain(q) && Solved(q, spf) && NodesExact(spf, dsts, best, nodes)
    requires Chosen(q, best, nodes, l)
    ensures BestFirstLink(q, dsts, l)
  {
    hide Solved;
    var n := l.Other(q.src);
    var d :| Closest(spf, dsts, best, d) && n in spf[d].nextHops;
    var p := WalkVia(q, spf, d, n);
    FirstLinkIsShortest(q, spf, p, d);
    var p' := SwapFirstLink(q, p, d, Hop(q.src, l, n));
    BestIsClosest(q, spf, dsts, best, p', d);
  }

  /** A parallel link of the same cost can replace the first one of a walk. */
  lemma SwapFirstLink(q: Query, p: seq<Hop>, v: NodeName, h: Hop) returns (p': seq<Hop>)
    requires q.Walk(p, v) && p != [] && q.Permitted(h)
    requires h.from == q.src && h.to == p[0].to && q.Cost(h.link) == q.Cost(p[0].link)
    ensures q.Walk(p', v) && q.Length(p') == q.Length(p) && p' != [] && p'[0] == h
  {
    WalkIsChain(q, p, v);
    var rest := p[1..];
    JoinWalk(q, h, rest, v);
    JoinWalk(q, p[0], rest, v);
    assert p == [p[0]] + rest;
    p' := [h] + rest;
  }

  lemma WalkVia(q: Query, spf: SpfResult, d: NodeName, n: NodeName) returns (p: seq<Hop>)
    requires Solved(q, spf) && d in spf && n in spf[d].nextHops
    ensures q.ShortestWalk(p, d) && StartsTo(p, n)
  {
    var rank :| Exact(q, spf, rank);
    hide Exact;
    p := NextHopStartsWalk(q, spf, rank, d, n);
  }

  ghost function BestFirstLinks(q: Query, dsts: set<NodeName>): set<LinkId> {
    set l <- q.g.links | BestFirstLink(q, dsts, l)
  }

  /** `l` is chosen from an exact SPF result. There is one result only, so any will do. */
  ghost predicate Uses(q: Query, dsts: set<NodeName>, l: LinkId) {
    exists spf, best: nat, nodes :: Solved(q, spf) && NodesExact(spf, dsts, best, nodes) && Chosen(q, best, nodes, l)
  }

  /** The links out of the source that lead to the destinations. */
  ghost function UsedLinks(q: Query, dsts: set<NodeName>): set<LinkId> {
    set l <- q.g.links | Uses(q, dsts, l)
  }

  /** A used link is up and leaves the source. */
  lemma UsedIsMine(q: Query, dsts: set<NodeName>, l: LinkId)
    requires Uses(q, dsts, l)
    ensures l in q.g.links && q.g.links[l].IsUp() && l.Touches(q.src)
  {
  }

  /** Next hops toward a destination set do not depend on which exact result they are taken from. */
  lemma SameNodes(spf: SpfResult, spf': SpfResult, dsts: set<NodeName>, best: nat, nodes: map<NodeName, nat>, best': nat, nodes': map<NodeName, nat>)
    requires SameResult(spf, spf') && NodesExact(spf, dsts, best, nodes) && NodesExact(spf', dsts, best', nodes')
    ensures best == best' && nodes == nodes'
  {
    var c :| Closest(spf, dsts, best, c);
    var c' :| Closest(spf', dsts, best', c');
    assert best == best';
    forall d ensures Closest(spf, dsts, best, d) <==> Closest(spf', dsts, best, d) {
    }
    forall n ensures n in nodes <==> n in nodes' {
    }
  }

  /** The chosen links are the used ones. */
  lemma ChosenIsUsed(q: Query, spf: SpfResult, dsts: set<NodeName>, best: nat, nodes: map<NodeName, nat>)
    requires Solved(q, spf) && NodesExact(spf, dsts, best, nodes)
    ensures ChosenLinks(q, best, nodes) == UsedLinks(q, dsts)
  {
    hide Solved, NodesExact, Chosen;
    forall l | l in UsedLinks(q, dsts) ensures Chosen(q, best, nodes, l) {
      var spf', best': nat, nodes' :| Solved(q, spf') && NodesExact(spf', dsts, best', nodes') && Chosen(q, best', nodes', l);
      ResultIsUnique(q, spf, spf');
      SameNodes(spf, spf', dsts, best, nodes, best', nodes');
    }
    forall l | l in ChosenLinks(q, best, nodes) ensures Uses(q, dsts, l) {
    }
  }

  /** The used links are first links of shortest walks to the destinations, and all of them where
      ECMP is complete. */
  lemma UsedIsBest(q: Query, spf: SpfResult, dsts: set<NodeName>, best: nat, nodes: map<NodeName, nat>)
    requires Plain(q) && Solved(q, spf) && NodesExact(spf, dsts, best, nodes)
    ensures UsedLinks(q, dsts) <= BestFirstLinks(q, dsts)
    ensures EcmpComplete(q) ==> UsedLinks(q, dsts) == BestFirstLinks(q, dsts)
    ensures exists p, d :: BestWalkTo(q, dsts, p, d) && q.Length(p) == best
  {
    hide Solved, EcmpComplete;
    var c :| Closest(spf, dsts, best, c);
    var p := BestWalk(q, spf, c);
    BestIsClosest(q, spf, dsts, best, p, c);
    ChosenIsUsed(q, spf, dsts, best, nodes);
    hide NodesExact, BestFirstLink, Uses;
    forall l | l in ChosenLinks(q, best, nodes) ensures BestFirstLink(q, dsts, l) {
      ChosenStartsBestWalk(q, spf, dsts, best, nodes, l);
    }
    if EcmpComplete(q) {
      forall l ensures Chosen(q, best, nodes, l) <==> BestFirstLink(q, dsts, l) {
        ChosenIsBestFirstLink(q, spf, dsts, best, nodes, l);
      }
    }
  }

  lemma ClosestExists(spf: SpfResult, dsts: set<NodeName>, d: NodeName) returns (best: nat)
    requires d in dsts && d in spf
    ensures exists c :: Closest(spf, dsts, best, c)
    decreases spf[d].metric
  {
    best := spf[d].metric;
    if !Closest(spf, dsts, best, d) {
      var d' :| d' in dsts && d' in spf && spf[d'].metric < best;
      best := ClosestExists(spf, dsts, d');
    }
  }

  /** A reachable destination set has next-hop nodes, possibly none of them. */
  lemma NodesExist(q: Query, spf: SpfResult, dsts: set<NodeName>) returns (best: nat, nodes: map<NodeName, nat>)
    requires Solved(q, spf) && exists d <- dsts :: d in spf
    ensures NodesExact(spf, dsts, best, nodes)
  {
    hide Solved;
    var d :| d in dsts && d in spf;
    best := ClosestExists(spf, dsts, d);
    var hops := set n <- spf | exists c :: Closest(spf, dsts, best, c) && n in spf[c].nextHops;
    forall c, n | Closest(spf, dsts, best, c) && n in spf[c].nextHops ensures n in spf && spf[n].metric <= best {
      NextHopIsNearer(q, spf, c, n);
    }
    nodes := map n | n in hops :: if spf[n].metric <= best then best - spf[n].metric else 0;
  }

  /** Somebody else than the source is reached over some link. */
  lemma SomeLinkIsUsed(q: Query, spf: SpfResult, dsts: set<NodeName>, best: nat, nodes: map<NodeName, nat>)
    requires Plain(q) && Solved(q, spf) && NodesExact(spf, dsts, best, nodes) && q.src !in dsts
    ensures UsedLinks(q, dsts) != {}
  {
    hide Solved;
    var d :| Closest(spf, dsts, best, d);
    HasNextHop(q, spf, d);
    var n :| n in spf[d].nextHops;
    var p := WalkVia(q, spf, d, n);
    FirstLinkIsShortest(q, spf, p, d);
    assert Chosen(q, best, nodes, p[0].link);
    assert p[0].link in ChosenLinks(q, best, nodes);
    ChosenIsUsed(q, spf, dsts, best, nodes);
  }

  lemma HasNextHop(q: Query, spf: SpfResult, d: NodeName)
    requires Solved(q, spf) && d in spf && d != q.src
    ensures spf[d].nextHops != {}
  {
  }

  lemma UnreachableIffUnrecorded(q: Query, spf: SpfResult, dsts: set<NodeName>)
    requires Solved(q, spf)
    ensures (forall d <- dsts :: d !in spf) <==> forall d <- dsts :: !q.Reachable(d)
  {
    SpfIsShortest(q, spf);
  }

  /** SpfSolver::selectBestPathsSpf: the next hops are those over the used links, which are exactly
      the first links of shortest walks to the destinations where ECMP is complete; there are none
      if no destination is reachable or the source itself is the closest one. */
  method SelectBestPathsSpf(q: Query, spf: SpfResult, dsts: set<NodeName>, viaV4: bool)
    returns (best: Option<nat>, nextHops: set<NextHop>)
    requires Plain(q) && Solved(q, spf)
    ensures best.None? <==> forall d <- dsts :: !q.Reachable(d)
    ensures best.Some? ==> exists p, d :: BestWalkTo(q, dsts, p, d) && q.Length(p) == best.value
    ensures nextHops == if best.None? then {} else HopsOver(q, viaV4, UsedLinks(q, dsts), best.value)
    ensures best.Some? ==> UsedLinks(q, dsts) <= BestFirstLinks(q, dsts)
    ensures best.Some? && EcmpComplete(q) ==> UsedLinks(q, dsts) == BestFirstLinks(q, dsts)
  {
    hide *;
    PlainIsValid(q);
    var nodes;
    best, nodes := GetNextHopsWithMetric(q, spf, dsts);
    UnreachableIffUnrecorded(q, spf, dsts);
    nextHops := {};
    if best.Some? {
      UsedIsBest(q, spf, dsts, best.value, nodes);
      ChosenIsUsed(q, spf, dsts, best.value, nodes);
      ClosestIsReachable(q, spf, dsts, best.value, nodes);
      if nodes != map[] {
        nextHops := GetNextHopsThrift(q, viaV4, best.value, nodes);
      } else {
        NoNodesNoHops(q, viaV4, best.value);
      }
    }
  }

  lemma PlainIsValid(q: Query)
    requires Plain(q)
    ensures q.g.Valid()
  {
  }

  lemma NoNodesNoHops(q: Query, viaV4: bool, best: nat)
    ensures HopsOver(q, viaV4, ChosenLinks(q, best, map[]), best) == {}
  {
  }

  lemma ClosestIsReachable(q: Query, spf: SpfResult, dsts: set<NodeName>, best: nat, nodes: map<NodeName, nat>)
    requires NodesExact(spf, dsts, best, nodes)
    ensures exists d <- dsts :: d in spf
  {
  }
}
