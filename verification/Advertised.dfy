/** What routes are measured by and made of, read off the adjacency databases: the cost of a link,
    the length of a walk, which hops a walk may take, and the fields of a next hop. */
module Advertised {
  import opened Topology
  import opened Spf
  import opened SpfPaths
  import opened Walks
  import opened NextHops
  import opened LinkMerge
  import opened Adjacencies
  import opened LinkStates

  /** `a` and `b` are what the two ends of `id` advertise for it. */
  ghost predicate Ends(dbs: Databases, id: LinkId, a: Adjacency, b: Adjacency) {
    && id.first.node in dbs && From(dbs[id.first.node], id.first, id.second, a)
    && id.second.node in dbs && From(dbs[id.second.node], id.second, id.first, b)
  }

  lemma EndsExist(dbs: Databases, g: Graph, increments: map<NodeName, nat>, id: LinkId) returns (a: Adjacency, b: Adjacency)
    requires InStep(dbs, g, increments) && id in g.links
    ensures Ends(dbs, id, a, b) && g.links[id].side1 == a.side && g.links[id].side2 == b.side
  {
    assert Mutual(dbs, id) && Describes(dbs, id, g.links[id]);
    a :| From(dbs[id.first.node], id.first, id.second, a);
    b :| From(dbs[id.second.node], id.second, id.first, b);
  }

  /** A metric is what a link may cost: no less than either end advertises, and one of the two. */
  predicate Dearer(cost: nat, a: Adjacency, b: Adjacency) {
    cost >= a.side.metric && cost >= b.side.metric && cost in {a.side.metric, b.side.metric}
  }

  /** The cost of a link is the larger of the two metrics advertised for it, so a soft drain at
      either end counts; by hop count it is 1. */
  lemma CostIsAdvertised(dbs: Databases, g: Graph, increments: map<NodeName, nat>, q: Query, id: LinkId, a: Adjacency, b: Adjacency)
    requires InStep(dbs, g, increments) && q.g == g && id in g.links && Ends(dbs, id, a, b)
    ensures if q.useLinkMetric then Dearer(q.Cost(id), a, b) else q.Cost(id) == 1
  {
    assert Mutual(dbs, id) && Describes(dbs, id, g.links[id]);
  }

  /** A hop is permitted only over a link that both ends advertise without interface overload, and
      through a node other than the source only if that has no overload bit. */
  lemma PermittedIsAdvertised(dbs: Databases, g: Graph, increments: map<NodeName, nat>, q: Query, h: Hop) returns (a: Adjacency, b: Adjacency)
    requires InStep(dbs, g, increments) && q.g == g && q.Permitted(h)
    ensures Ends(dbs, h.link, a, b) && !a.side.overloaded && !b.side.overloaded && h.link in g.links && h.link !in q.ignored
    ensures {h.link.first.node, h.link.second.node} == {h.from, h.to}
    ensures h.from in dbs && h.to in dbs && (h.from == q.src || !dbs[h.from].isOverloaded)
  {
    a, b := EndsExist(dbs, g, increments, h.link);
  }

  function Sum(shares: seq<nat>): nat {
    if shares == [] then 0 else Sum(shares[..|shares| - 1]) + shares[|shares| - 1]
  }

  /** What crossing a link adds to the length of a walk. */
  ghost predicate Share(dbs: Databases, q: Query, id: LinkId, share: nat) {
    if q.useLinkMetric then exists a, b :: Ends(dbs, id, a, b) && Dearer(share, a, b) else share == 1
  }

  ghost predicate Shares(dbs: Databases, q: Query, p: seq<Hop>, shares: seq<nat>) {
    |shares| == |p| && forall i | 0 <= i < |p| :: Share(dbs, q, p[i].link, shares[i])
  }

  lemma NoShares(dbs: Databases, q: Query)
    ensures Shares(dbs, q, [], [])
  {
  }

  /** The length of a walk is a hop-by-hop sum of such costs; by hop count, the number of hops. */
  lemma {:induction false} LengthIsAdvertised(dbs: Databases, g: Graph, increments: map<NodeName, nat>, q: Query, p: seq<Hop>, v: NodeName) returns (shares: seq<nat>)
    requires InStep(dbs, g, increments) && q.g == g && q.Walk(p, v)
    ensures Shares(dbs, q, p, shares) && q.Length(p) == Sum(shares)
    decreases |p|
  {
    hide InStep, Ends, Shares, Dearer, Query.Permitted, Query.Cost;
    if p == [] {
      shares := [];
      NoShares(dbs, q);
    } else {
      var h, before := p[|p| - 1], p[..|p| - 1];
      var some := LengthIsAdvertised(dbs, g, increments, q, before, h.from);
      var a, b := PermittedIsAdvertised(dbs, g, increments, q, h);
      CostIsAdvertised(dbs, g, increments, q, h.link, a, b);
      assert Share(dbs, q, h.link, q.Cost(h.link));
      shares := some + [q.Cost(h.link)];
      assert shares[..|shares| - 1] == some;
      SharesExtend(dbs, q, p, some, q.Cost(h.link));
    }
  }

  lemma SharesExtend(dbs: Databases, q: Query, p: seq<Hop>, some: seq<nat>, share: nat)
    requires p != [] && Shares(dbs, q, p[..|p| - 1], some) && Share(dbs, q, p[|p| - 1].link, share)
    ensures Shares(dbs, q, p, some + [share])
  {
    hide Share;
    var before, shares := p[..|p| - 1], some + [share];
    forall i | 0 <= i < |p| ensures Share(dbs, q, p[i].link, shares[i]) {
      if i < |before| {
        assert p[i] == before[i] && shares[i] == some[i];
      }
    }
  }

  /** The metric that SPF records for a node is such a sum over a walk to it, and no walk to it has
      a smaller one. */
  lemma MetricIsAdvertised(dbs: Databases, g: Graph, increments: map<NodeName, nat>, q: Query, r: SpfResult, v: NodeName)
    returns (p: seq<Hop>, shares: seq<nat>)
    requires InStep(dbs, g, increments) && q.g == g && Solved(q, r) && v in r
    ensures q.Walk(p, v) && Shares(dbs, q, p, shares) && r[v].metric == Sum(shares)
    ensures forall w | q.Walk(w, v) :: exists more :: Shares(dbs, q, w, more) && r[v].metric <= Sum(more)
  {
    hide InStep, Solved, Shares;
    p := BestWalk(q, r, v);
    shares := LengthIsAdvertised(dbs, g, increments, q, p, v);
    forall w | q.Walk(w, v) ensures exists more :: Shares(dbs, q, w, more) && r[v].metric <= Sum(more) {
      var more := LengthIsAdvertised(dbs, g, increments, q, w, v);
    }
  }

  /** The next hop that `adj` makes, at distance `metric`. */
  ghost predicate MadeOf(adj: Adjacency, viaV4: bool, metric: nat, h: NextHop) {
    && h.address == (if viaV4 then adj.side.nhV4 else adj.side.nhV6)
    && h.iface == adj.ifName && h.neighbor == adj.otherNode && h.metric == metric
  }

  lemma AdjacencyMakesHop(dbs: Databases, g: Graph, increments: map<NodeName, nat>, q: Query, viaV4: bool, l: LinkId, metric: nat) returns (adj: Adjacency)
    requires InStep(dbs, g, increments) && q.g == g && l in g.links && l.Touches(q.src)
    ensures q.src in dbs && adj in dbs[q.src].adjacencies && MadeOf(adj, viaV4, metric, NextHopOver(q, viaV4, l, metric))
    ensures l == IdOf(Near(q.src, adj), Far(adj))
  {
    var a, b := EndsExist(dbs, g, increments, l);
    assert EndLess(l.first, l.second) && l.first.node != l.second.node;
    adj := if l.first.node == q.src then a else b;
  }

  lemma OneAdjacencyPerLink(dbs: Databases, n: NodeName, adj: Adjacency, other: Adjacency)
    requires AllWellFormed(dbs) && n in dbs && adj in dbs[n].adjacencies && other in dbs[n].adjacencies
    requires IdOf(Near(n, adj), Far(adj)) == IdOf(Near(n, other), Far(other))
    ensures adj == other
  {
    IdOfAdjacency(n, adj);
    IdOfAdjacency(n, other);
    AdjacencyIsUnique(dbs[n], n, Near(n, adj), Far(adj), adj, other);
  }

  /** The next hops over some links of ours are made of exactly the adjacencies that we advertise for
      those links: IPv4 addresses for IPv4, IPv6 addresses otherwise. */
  lemma HopsAreAdvertised(dbs: Databases, g: Graph, increments: map<NodeName, nat>, q: Query, viaV4: bool, links: set<LinkId>, metric: nat, h: NextHop)
    requires InStep(dbs, g, increments) && q.g == g && forall l <- links :: l in g.links && l.Touches(q.src)
    ensures h in HopsOver(q, viaV4, links, metric) <==>
            q.src in dbs && exists adj <- dbs[q.src].adjacencies :: IdOf(Near(q.src, adj), Far(adj)) in links && MadeOf(adj, viaV4, metric, h)
  {
    if h in HopsOver(q, viaV4, links, metric) {
      var l :| l in links && h == NextHopOver(q, viaV4, l, metric);
      var adj := AdjacencyMakesHop(dbs, g, increments, q, viaV4, l, metric);
    }
    if q.src in dbs {
      if adj :| adj in dbs[q.src].adjacencies && IdOf(Near(q.src, adj), Far(adj)) in links && MadeOf(adj, viaV4, metric, h) {
        var l := IdOf(Near(q.src, adj), Far(adj));
        var made := AdjacencyMakesHop(dbs, g, increments, q, viaV4, l, metric);
        OneAdjacencyPerLink(dbs, q.src, adj, made);
        assert h == NextHopOver(q, viaV4, l, metric);
      }
    }
  }

  /** So are the next hops toward destinations, whose links are used ones. */
  lemma UsedHopsAreAdvertised(dbs: Databases, g: Graph, increments: map<NodeName, nat>, q: Query, viaV4: bool, dsts: set<NodeName>, metric: nat, h: NextHop)
    requires InStep(dbs, g, increments) && q.g == g
    ensures h in HopsOver(q, viaV4, UsedLinks(q, dsts), metric) <==>
            q.src in dbs && exists adj <- dbs[q.src].adjacencies :: IdOf(Near(q.src, adj), Far(adj)) in UsedLinks(q, dsts) && MadeOf(adj, viaV4, metric, h)
  {
    hide InStep, Uses, HopsOver, MadeOf;
    forall l <- UsedLinks(q, dsts) ensures l in g.links && l.Touches(q.src) {
      UsedIsMine(q, dsts, l);
    }
    HopsAreAdvertised(dbs, g, increments, q, viaV4, UsedLinks(q, dsts), metric, h);
  }
}
