/** The network as a whole: every node forwards toward a destination set over the next hops it
    computed for itself on the shared link state. */
module Forwarding {
  import opened Topology
  import opened Spf
  import opened Walks
  import opened NextHops

  function AskedBy(g: Graph, x: NodeName): Query {
    Query(g, x, true, {})
  }

  /** `x` is no destination itself and uses `l` toward `dsts`. */
  ghost predicate Forwards(g: Graph, dsts: set<NodeName>, x: NodeName, l: LinkId) {
    x !in dsts && Uses(AskedBy(g, x), dsts, l)
  }

  /** The distance from `x` to the nearest destination, as `x` itself sees it. */
  ghost predicate DistanceTo(g: Graph, dsts: set<NodeName>, x: NodeName, dist: nat) {
    exists p, d :: BestWalkTo(AskedBy(g, x), dsts, p, d) && AskedBy(g, x).Length(p) == dist
  }

  /** The neighbours forwarded to are those of the next hops that SelectBestPathsSpf returns. */
  lemma ForwardsToNextHops(g: Graph, dsts: set<NodeName>, x: NodeName, viaV4: bool, best: nat, n: NodeName)
    requires x !in dsts
    ensures (exists l :: Forwards(g, dsts, x, l) && n == l.Other(x)) <==>
            exists h <- HopsOver(AskedBy(g, x), viaV4, UsedLinks(AskedBy(g, x), dsts), best) :: h.neighbor == n
  {
    var q := AskedBy(g, x);
    if l :| Forwards(g, dsts, x, l) && n == l.Other(x) {
      UsedIsMine(q, dsts, l);
      assert l in UsedLinks(q, dsts);
      assert NextHopOver(q, viaV4, l, best) in HopsOver(q, viaV4, UsedLinks(q, dsts), best);
    }
    if h :| h in HopsOver(q, viaV4, UsedLinks(q, dsts), best) && h.neighbor == n {
      var l :| l in UsedLinks(q, dsts) && h == NextHopOver(q, viaV4, l, best);
      assert Forwards(g, dsts, x, l);
    }
  }

  /** A used link begins a best walk. */
  lemma UsedBegins(q: Query, dsts: set<NodeName>, l: LinkId)
    requires Plain(q) && Uses(q, dsts, l)
    ensures BestFirstLink(q, dsts, l)
  {
    var spf, best: nat, nodes :| Solved(q, spf) && NodesExact(spf, dsts, best, nodes) && Chosen(q, best, nodes, l);
    ChosenStartsBestWalk(q, spf, dsts, best, nodes, l);
  }

  /** A destination that can be reached has a best walk. */
  lemma {:induction false} BestWalkExists(q: Query, dsts: set<NodeName>, p: seq<Hop>, d: NodeName)
    requires d in dsts && q.Walk(p, d)
    ensures exists p', d' :: BestWalkTo(q, dsts, p', d') && q.Length(p') <= q.Length(p)
    decreases q.Length(p)
  {
    if !BestWalkTo(q, dsts, p, d) {
      var d', w :| d' in dsts && q.Walk(w, d') && q.Length(w) < q.Length(p);
      BestWalkExists(q, dsts, w, d');
    }
  }

  /** A best walk over a costly first link does not come back to its source. */
  lemma BestWalkLeaves(q: Query, dsts: set<NodeName>, p: seq<Hop>, d: NodeName, k: nat)
    requires BestWalkTo(q, dsts, p, d) && 0 < k < |p| && q.Cost(p[0].link) > 0
    ensures p[k].from != q.src
  {
    CutWalk(q, p, d, k);
    assert p[..k] == [p[0]] + p[1..k];
    LengthOfConcat(q, [p[0]], p[1..k]);
    assert [p[0]][..0] == [];
    assert q.Length(p[..k]) > 0;
  }

  /** What is left of such a walk after its first hop is a permitted walk of the next node. */
  lemma RestOfBestWalk(g: Graph, dsts: set<NodeName>, x: NodeName, p: seq<Hop>, d: NodeName)
    requires BestWalkTo(AskedBy(g, x), dsts, p, d) && p != [] && AskedBy(g, x).Cost(p[0].link) > 0
    ensures AskedBy(g, p[0].to).Walk(p[1..], d)
    ensures AskedBy(g, p[0].to).Length(p[1..]) + AskedBy(g, x).Cost(p[0].link) == AskedBy(g, x).Length(p)
  {
    var q, q', rest := AskedBy(g, x), AskedBy(g, p[0].to), p[1..];
    WalkIsChain(q, p, d);
    forall i | 0 <= i < |rest| ensures q'.Permitted(rest[i]) {
      assert rest[i] == p[i + 1] && q.Permitted(p[i + 1]);
      BestWalkLeaves(q, dsts, p, d, i + 1);
    }
    WalkIsChain(q', rest, d);
    assert p == [p[0]] + rest;
    LengthOfConcat(q, [p[0]], rest);
    assert [p[0]][..0] == [];
    LengthIgnoresSource(q, q', rest);
  }

  /** Whatever a neighbour that lets traffic through can reach, its neighbour can reach over it. */
  lemma {:induction false} Prepended(g: Graph, h: Hop, w: seq<Hop>, v: NodeName) returns (u: seq<Hop>)
    requires AskedBy(g, h.from).Permitted(h) && AskedBy(g, h.to).Walk(w, v) && !g.Overloaded(h.to)
    ensures AskedBy(g, h.from).Walk(u, v)
    ensures AskedBy(g, h.from).Length(u) == AskedBy(g, h.from).Cost(h.link) + AskedBy(g, h.to).Length(w)
    decreases |w|
  {
    if w == [] {
      u := [h];
      assert [h][..0] == [];
    } else {
      var last := w[|w| - 1];
      u := Prepended(g, h, w[..|w| - 1], last.from);
      u := u + [last];
      assert u[..|u| - 1] + [last] == u;
    }
  }

  /** A neighbour in use is not farther away than the link to it accounts for. */
  lemma NeighbourIsNoNearer(g: Graph, dsts: set<NodeName>, x: NodeName, p: seq<Hop>, d: NodeName, w: seq<Hop>, d': NodeName)
    requires BestWalkTo(AskedBy(g, x), dsts, p, d) && p != [] && BestWalkTo(AskedBy(g, p[0].to), dsts, w, d')
    requires g.Valid()
    ensures AskedBy(g, x).Length(p) <= AskedBy(g, x).Cost(p[0].link) + AskedBy(g, p[0].to).Length(w)
  {
    var q := AskedBy(g, x);
    WalkIsChain(q, p, d);
    if |p| == 1 {
      assert p[..0] == [];
    } else {
      assert p[1].from == p[0].to && q.Permitted(p[0]) && q.Permitted(p[1]);
      var u := Prepended(g, p[0], w, d');
    }
  }

  /** Crossing a link in use brings a packet nearer to the destinations, as the next node reckons
      and even where overloaded nodes refuse transit, if and only if the link costs something; and
      then by exactly that cost. */
  lemma NextHopApproaches(g: Graph, dsts: set<NodeName>, x: NodeName, l: LinkId, dist: nat)
    requires g.Valid() && DistanceTo(g, dsts, x, dist) && BestFirstLink(AskedBy(g, x), dsts, l)
    ensures (exists dist': nat :: DistanceTo(g, dsts, l.Other(x), dist') && dist' < dist) <==> AskedBy(g, x).Cost(l) > 0
    ensures AskedBy(g, x).Cost(l) > 0 ==>
              exists dist': nat :: DistanceTo(g, dsts, l.Other(x), dist') && dist' + AskedBy(g, x).Cost(l) == dist
  {
    var q, n := AskedBy(g, x), l.Other(x);
    var p: seq<Hop>, d :| BestWalkTo(q, dsts, p, d) && p != [] && p[0].link == l;
    var p0, d0 :| BestWalkTo(q, dsts, p0, d0) && q.Length(p0) == dist;
    WalkIsChain(q, p, d);
    assert q.Length(p) == dist && q.Permitted(p[0]) && p[0].to == n;
    forall dist': nat | DistanceTo(g, dsts, n, dist') ensures dist <= q.Cost(l) + dist' {
      var w, d' :| BestWalkTo(AskedBy(g, n), dsts, w, d') && AskedBy(g, n).Length(w) == dist';
      NeighbourIsNoNearer(g, dsts, x, p, d, w, d');
    }
    if q.Cost(l) > 0 {
      RestOfBestWalk(g, dsts, x, p, d);
      BestWalkExists(AskedBy(g, n), dsts, p[1..], d);
      var p', d' :| BestWalkTo(AskedBy(g, n), dsts, p', d') && AskedBy(g, n).Length(p') <= AskedBy(g, n).Length(p[1..]);
      assert DistanceTo(g, dsts, n, AskedBy(g, n).Length(p'));
    }
  }

  /** A packet that is forwarded over `ls` in turn, visiting `xs`. */
  ghost predicate Forwarded(g: Graph, dsts: set<NodeName>, xs: seq<NodeName>, ls: seq<LinkId>) {
    && |xs| == |ls| + 1
    && forall i :: 0 <= i < |ls| ==> Forwards(g, dsts, xs[i], ls[i]) && xs[i + 1] == ls[i].Other(xs[i])
  }

  function CostOf(g: Graph, l: LinkId): nat {
    if l in g.links then g.links[l].MaxMetric() else 0
  }

  function Travelled(g: Graph, ls: seq<LinkId>): nat {
    if ls == [] then 0 else CostOf(g, ls[0]) + Travelled(g, ls[1..])
  }

  /** Over links that cost something forwarding is loop-free and takes a shortest way: what a packet
      has travelled and what is left of its way always add up to the distance it started with. */
  lemma {:induction false} ForwardingConverges(g: Graph, dsts: set<NodeName>, xs: seq<NodeName>, ls: seq<LinkId>, dist: nat)
    requires g.Valid() && Forwarded(g, dsts, xs, ls) && DistanceTo(g, dsts, xs[0], dist)
    requires forall l <- ls :: CostOf(g, l) > 0
    ensures exists dist': nat :: DistanceTo(g, dsts, xs[|ls|], dist') && Travelled(g, ls) + dist' == dist
    ensures |ls| <= Travelled(g, ls)
    decreases |ls|
  {
    hide Forwards, DistanceTo;
    if ls != [] {
      var dist1 := FirstStep(g, dsts, xs[0], ls[0], dist);
      assert Forwarded(g, dsts, xs[1..], ls[1..]);
      ForwardingConverges(g, dsts, xs[1..], ls[1..], dist1);
    }
  }

  lemma FirstStep(g: Graph, dsts: set<NodeName>, x: NodeName, l: LinkId, dist: nat) returns (dist': nat)
    requires g.Valid() && Forwards(g, dsts, x, l) && CostOf(g, l) > 0 && DistanceTo(g, dsts, x, dist)
    ensures DistanceTo(g, dsts, l.Other(x), dist') && CostOf(g, l) + dist' == dist
  {
    UsedBegins(AskedBy(g, x), dsts, l);
    hide BestFirstLink, Uses, DistanceTo;
    NextHopApproaches(g, dsts, x, l, dist);
    dist' :| DistanceTo(g, dsts, l.Other(x), dist') && CostOf(g, l) + dist' == dist;
  }

  /** A node that can reach the destinations and is none has a link in use. */
  lemma StuckOnlyAtDestination(g: Graph, dsts: set<NodeName>, x: NodeName, dist: nat, spf: SpfResult)
    requires g.Valid() && DistanceTo(g, dsts, x, dist) && Solved(AskedBy(g, x), spf) && x !in dsts
    ensures exists l :: Forwards(g, dsts, x, l)
  {
    hide Solved;
    var q := AskedBy(g, x);
    var p: seq<Hop>, d :| BestWalkTo(q, dsts, p, d) && q.Length(p) == dist;
    WalkReaches(q, p, d);
    UnreachableIffUnrecorded(q, spf, dsts);
    var best, nodes := NodesExist(q, spf, dsts);
    SomeLinkIsUsed(q, spf, dsts, best, nodes);
    var l :| l in UsedLinks(q, dsts);
    assert Forwards(g, dsts, x, l);
  }

  lemma WalkReaches(q: Query, p: seq<Hop>, d: NodeName)
    requires q.Walk(p, d)
    ensures q.Reachable(d)
  {
  }

  /** A packet is forwarded until it is delivered: where it stops is a destination, and it took no
      more hops and no more cost than the distance it started with. */
  lemma PacketIsDelivered(g: Graph, dsts: set<NodeName>, xs: seq<NodeName>, ls: seq<LinkId>, dist: nat, spf: SpfResult)
    requires g.Valid() && Forwarded(g, dsts, xs, ls) && DistanceTo(g, dsts, xs[0], dist)
    requires forall l <- ls :: CostOf(g, l) > 0
    requires Solved(AskedBy(g, xs[|ls|]), spf)
    requires forall l :: !Forwards(g, dsts, xs[|ls|], l)
    ensures xs[|ls|] in dsts && Travelled(g, ls) == dist && |ls| <= dist
  {
    hide Solved;
    ForwardingConverges(g, dsts, xs, ls, dist);
    var last := xs[|ls|];
    var rest: nat :| DistanceTo(g, dsts, last, rest) && Travelled(g, ls) + rest == dist;
    if last !in dsts {
      StuckOnlyAtDestination(g, dsts, last, rest, spf);
    }
    var p, d :| BestWalkTo(AskedBy(g, last), dsts, p, d) && AskedBy(g, last).Length(p) == rest;
    assert AskedBy(g, last).Walk([], last);
  }

  /** Three nodes; the first two are joined at no cost, each has a link of cost 5 to the third. */
  function Joined(a: NodeName, b: NodeName): LinkId {
    LinkId(Endpoint(a, 0), Endpoint(b, 0))
  }

  function FreeTriangle(): Graph {
    var free, dear := Side(0, false, 0, 0, 0, 0), Side(5, false, 0, 0, 0, 0);
    Graph(map[1 := {Joined(1, 2), Joined(1, 3)}, 2 := {Joined(1, 2), Joined(2, 3)}, 3 := {Joined(1, 3), Joined(2, 3)}],
          map[Joined(1, 2) := Link(free, free, true), Joined(1, 3) := Link(dear, dear, true), Joined(2, 3) := Link(dear, dear, true)],
          map[])
  }

  function TriangleResult(x: NodeName, y: NodeName): SpfResult {
    map[x := NodeSpf(0, [], {}),
        y := NodeSpf(0, [PathLink(Joined(1, 2), x)], {y}),
        3 := NodeSpf(5, [PathLink(Joined(x, 3), x), PathLink(Joined(y, 3), y)], {3, y})]
  }

  lemma TriangleHops(x: NodeName, h: Hop)
    ensures FreeTriangle().Valid()
    ensures AskedBy(FreeTriangle(), x).Permitted(h) <==>
            || (h.link == Joined(1, 2) && h.link.Joins(h.from, h.to))
            || (h.link == Joined(1, 3) && h.link.Joins(h.from, h.to))
            || (h.link == Joined(2, 3) && h.link.Joins(h.from, h.to))
    ensures AskedBy(FreeTriangle(), x).Cost(Joined(1, 2)) == 0
    ensures AskedBy(FreeTriangle(), x).Cost(Joined(1, 3)) == AskedBy(FreeTriangle(), x).Cost(Joined(2, 3)) == 5
  {
  }

  lemma TriangleLinks(x: NodeName, y: NodeName, rank: Rank, v: NodeName, pl: PathLink)
    requires ((x == 1 && y == 2) || (x == 2 && y == 1)) && rank == map[x := 0, y := 1, 3 := 2]
    requires v in TriangleResult(x, y)
    ensures var q, r := AskedBy(FreeTriangle(), x), TriangleResult(x, y);
            pl in r[v].pathLinks <==> TightInto(q, r, r[v].metric, v, pl) && pl.prevNode in rank && rank[pl.prevNode] < rank[v]
  {
    TriangleHops(x, Hop(pl.prevNode, pl.link, v));
    hide Query.Permitted, Query.Cost, FreeTriangle;
  }

  lemma TriangleLinksExact(x: NodeName, y: NodeName, rank: Rank)
    requires ((x == 1 && y == 2) || (x == 2 && y == 1)) && rank == map[x := 0, y := 1, 3 := 2]
    requires rank.Keys == TriangleResult(x, y).Keys
    ensures PathLinksExact(AskedBy(FreeTriangle(), x), TriangleResult(x, y), rank)
  {
    hide FreeTriangle, Query.Permitted, Query.Cost;
    var q, r := AskedBy(FreeTriangle(), x), TriangleResult(x, y);
    forall v <- r, pl ensures pl in r[v].pathLinks <==>
                                TightInto(q, r, r[v].metric, v, pl) && pl.prevNode in rank && rank[pl.prevNode] < rank[v] {
      TriangleLinks(x, y, rank, v, pl);
    }
  }

  lemma TriangleNextHops(x: NodeName, y: NodeName)
    requires (x == 1 && y == 2) || (x == 2 && y == 1)
    ensures NextHopsExact(x, TriangleResult(x, y))
  {
    var r := TriangleResult(x, y);
    forall v <- r, n ensures n in r[v].nextHops <==> FirstHop(x, r, v, r[v].pathLinks, n) {
      if v == y {
        assert r[v].pathLinks[0] == PathLink(Joined(1, 2), x);
      } else if v == 3 {
        assert r[v].pathLinks[0] == PathLink(Joined(x, 3), x) && r[v].pathLinks[1] == PathLink(Joined(y, 3), y);
      }
    }
  }

  lemma OrderOfThree(r: SpfResult, rank: Rank, x: NodeName, y: NodeName)
    requires x != y && x != 3 && y != 3 && r.Keys == {x, y, 3} && rank == map[x := 0, y := 1, 3 := 2]
    requires r[x].metric <= r[y].metric <= r[3].metric
    ensures Ordered(r, rank)
  {
    assert rank.Keys == {x, y, 3};
    forall u, v | u in r && v in r
      ensures (rank[u] == rank[v] ==> u == v) && (r[u].metric < r[v].metric ==> rank[u] < rank[v])
    {
      assert (u == x || u == y || u == 3) && (v == x || v == y || v == 3);
    }
  }

  lemma TriangleNames(x: NodeName, y: NodeName, rank: Rank)
    requires ((x == 1 && y == 2) || (x == 2 && y == 1)) && rank == map[x := 0, y := 1, 3 := 2]
    requires rank.Keys == TriangleResult(x, y).Keys
    ensures NamesOrdered(TriangleResult(x, y), rank)
  {
    var r := TriangleResult(x, y);
    assert QueuedLater([PathLink(Joined(1, 2), x)], rank, x);
    assert forall u <- r, v <- r | r[u].metric == r[v].metric && rank[u] < rank[v] :: u == x && v == y;
  }

  lemma TriangleRooted(x: NodeName, y: NodeName)
    requires (x == 1 && y == 2) || (x == 2 && y == 1)
    ensures Rooted(x, TriangleResult(x, y))
  {
  }

  lemma TriangleClosed(x: NodeName, y: NodeName)
    requires (x == 1 && y == 2) || (x == 2 && y == 1)
    ensures Closed(AskedBy(FreeTriangle(), x), TriangleResult(x, y))
  {
    var q, r := AskedBy(FreeTriangle(), x), TriangleResult(x, y);
    forall h | q.Permitted(h) && h.from in r ensures h.to in r && r[h.to].metric <= r[h.from].metric + q.Cost(h.link) {
      TriangleHops(x, h);
      hide Query.Permitted, Query.Cost, FreeTriangle;
    }
  }

  lemma TriangleSolved(x: NodeName, y: NodeName)
    requires (x == 1 && y == 2) || (x == 2 && y == 1)
    ensures Solved(AskedBy(FreeTriangle(), x), TriangleResult(x, y))
  {
    hide FreeTriangle, Query.Permitted, Query.Cost, Ordered, NamesOrdered, NextHopsExact, Rooted, Closed;
    var q, r, rank := AskedBy(FreeTriangle(), x), TriangleResult(x, y), map[x := 0, y := 1, 3 := 2];
    assert rank.Keys == r.Keys == {x, y, 3};
    OrderOfThree(r, rank, x, y);
    TriangleNames(x, y, rank);
    TriangleRooted(x, y);
    TriangleNextHops(x, y);
    TriangleClosed(x, y);
    TriangleLinksExact(x, y, rank);
    hide PathLinksExact, TriangleResult;
    assert Exact(q, r, rank);
  }

  lemma TriangleNodes(x: NodeName, y: NodeName)
    requires (x == 1 && y == 2) || (x == 2 && y == 1)
    ensures NodesExact(TriangleResult(x, y), {3}, 5, map[3 := 0, y := 5])
  {
    assert Closest(TriangleResult(x, y), {3}, 5, 3);
  }

  /** Over a link that costs nothing a packet can go back and forth for ever: either end uses it
      toward the other one's equally long way out. */
  lemma FreeLinkLoops(x: NodeName, y: NodeName)
    requires (x == 1 && y == 2) || (x == 2 && y == 1)
    ensures FreeTriangle().Valid() && Forwards(FreeTriangle(), {3}, x, Joined(1, 2)) && Joined(1, 2).Other(x) == y
  {
    hide Solved, NodesExact, TriangleResult;
    TriangleHops(x, Hop(x, Joined(1, 2), y));
    TriangleSolved(x, y);
    TriangleNodes(x, y);
    assert Chosen(AskedBy(FreeTriangle(), x), 5, map[3 := 0, y := 5], Joined(1, 2));
  }
}
