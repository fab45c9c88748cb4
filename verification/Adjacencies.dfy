/** Advertised adjacency databases and the bidirectional links they make. */
module Adjacencies {
  import opened Options
  import opened Topology
  import opened LinkMerge

  datatype Adjacency = Adjacency(ifName: IfName, otherNode: NodeName, otherIf: IfName, side: Side, onlyUsedByOther: bool)

  datatype AdjacencyDb = AdjacencyDb(
    thisNode: NodeName,
    adjacencies: seq<Adjacency>,
    isOverloaded: bool,
    metricIncrement: nat,
    nodeLabel: int)

  type Databases = map<NodeName, AdjacencyDb>

  /** While a neighbour initializes only that neighbour may use the adjacency to it. */
  predicate AdjUsable(adj: Adjacency, node: NodeName) {
    !(adj.onlyUsedByOther && adj.otherNode != node)
  }

  /** The unordered pair of two endpoints. */
  function IdOf(a: Endpoint, b: Endpoint): LinkId {
    if EndLess(b, a) then LinkId(b, a) else LinkId(a, b)
  }

  function Near(n: NodeName, adj: Adjacency): Endpoint {
    Endpoint(n, adj.ifName)
  }

  function Far(adj: Adjacency): Endpoint {
    Endpoint(adj.otherNode, adj.otherIf)
  }

  /** `adj` advertises the link from endpoint `me` to endpoint `peer`. */
  predicate From(db: AdjacencyDb, me: Endpoint, peer: Endpoint, adj: Adjacency) {
    adj in db.adjacencies && Near(me.node, adj) == me && Far(adj) == peer
  }

  /** What updateAdjacencyDatabase relies on: no adjacency of a node to itself (addLink would
      CHECK-fail) and no two adjacencies for one link. */
  ghost predicate WellFormed(n: NodeName, db: AdjacencyDb) {
    && db.thisNode == n
    && (forall adj <- db.adjacencies :: adj.otherNode != n)
    && (forall i, j | 0 <= i < j < |db.adjacencies| ::
          db.adjacencies[i].ifName != db.adjacencies[j].ifName || Far(db.adjacencies[i]) != Far(db.adjacencies[j]))
  }

  ghost predicate AllWellFormed(dbs: Databases) {
    forall n <- dbs :: WellFormed(n, dbs[n])
  }

  lemma AdjacencyIsUnique(db: AdjacencyDb, n: NodeName, me: Endpoint, peer: Endpoint, a: Adjacency, b: Adjacency)
    requires WellFormed(n, db) && From(db, me, peer, a) && From(db, me, peer, b)
    ensures a == b
  {
  }

  /** Both ends advertise `id`. */
  ghost predicate Mutual(dbs: Databases, id: LinkId) {
    && EndLess(id.first, id.second)
    && id.first.node in dbs && id.second.node in dbs
    && (exists a :: From(dbs[id.first.node], id.first, id.second, a))
    && (exists b :: From(dbs[id.second.node], id.second, id.first, b))
  }

  /** The sides of `l` are what the two ends advertise for `id`. */
  ghost predicate Describes(dbs: Databases, id: LinkId, l: Link)
    requires Mutual(dbs, id)
  {
    && (forall a | From(dbs[id.first.node], id.first, id.second, a) :: l.side1 == a.side)
    && (forall b | From(dbs[id.second.node], id.second, id.first, b) :: l.side2 == b.side)
  }

  /** `my` may use the link: neither advertisement excludes it. */
  ghost predicate UsableBy(dbs: Databases, my: NodeName, id: LinkId)
    requires Mutual(dbs, id)
  {
    && (forall a | From(dbs[id.first.node], id.first, id.second, a) :: AdjUsable(a, my))
    && (forall b | From(dbs[id.second.node], id.second, id.first, b) :: AdjUsable(b, my))
  }

  /** An adjacency that is not reserved keeps nobody from the link; a reserved one keeps everybody
      from it but the node it leads to. */
  lemma ReservedForOther(dbs: Databases, my: NodeName, id: LinkId)
    requires AllWellFormed(dbs) && Mutual(dbs, id)
    ensures UsableBy(dbs, my, id) <==>
            forall n, adj | n in dbs && adj in dbs[n].adjacencies && adj.onlyUsedByOther && IdOf(Near(n, adj), Far(adj)) == id :: my == adj.otherNode
  {
    forall n, adj | n in dbs && adj in dbs[n].adjacencies && IdOf(Near(n, adj), Far(adj)) == id
      ensures From(dbs[n], if id.first.node == n then id.first else id.second, if id.first.node == n then id.second else id.first, adj)
      ensures n == id.first.node || n == id.second.node
    {
      IdOfAdjacency(n, adj);
    }
    forall a | From(dbs[id.first.node], id.first, id.second, a) ensures IdOf(Near(id.first.node, a), Far(a)) == id {
    }
    forall b | From(dbs[id.second.node], id.second, id.first, b) ensures IdOf(Near(id.second.node, b), Far(b)) == id {
    }
  }

  /** The table holds exactly one link per mutual pair, carrying what both ends advertise. */
  ghost predicate Matches(dbs: Databases, links: map<LinkId, Link>) {
    && (forall id :: id in links <==> Mutual(dbs, id))
    && (forall id <- links :: Describes(dbs, id, links[id]))
  }

  /** The first adjacency of `adjs` that reverses `adj` of node `n`. */
  function FindReverse(adjs: seq<Adjacency>, n: NodeName, adj: Adjacency): (r: Option<Adjacency>)
    ensures r.Some? ==> r.value in adjs && Far(r.value) == Near(n, adj) && r.value.ifName == adj.otherIf
    ensures r.None? ==> forall b <- adjs :: !(Far(b) == Near(n, adj) && b.ifName == adj.otherIf)
  {
    if adjs == [] then None
    else if adjs[0].otherNode == n && adj.otherIf == adjs[0].ifName && adj.ifName == adjs[0].otherIf then Some(adjs[0])
    else FindReverse(adjs[1..], n, adj)
  }

  /** LinkState::maybeMakeLink: only if the other end advertises the reverse adjacency. */
  function MaybeMakeLink(dbs: Databases, my: NodeName, n: NodeName, adj: Adjacency): Option<Link> {
    if adj.otherNode !in dbs then None
    else
      match FindReverse(dbs[adj.otherNode].adjacencies, n, adj)
      case None => None
      case Some(rev) =>
        var usable := AdjUsable(adj, my) && AdjUsable(rev, my);
        Some(if EndLess(Far(adj), Near(n, adj)) then Link(rev.side, adj.side, usable) else Link(adj.side, rev.side, usable))
  }

  /** `news` are the links that the databases make at `n`, as computed afresh. */
  ghost predicate MadeAt(dbs: Databases, my: NodeName, n: NodeName, news: map<LinkId, Link>) {
    && (forall id :: id in news <==> id.Touches(n) && Mutual(dbs, id))
    && (forall id <- news :: Describes(dbs, id, news[id]) && (news[id].usable <==> UsableBy(dbs, my, id)))
  }

  lemma IdOfAdjacency(n: NodeName, adj: Adjacency)
    requires adj.otherNode != n
    ensures var id := IdOf(Near(n, adj), Far(adj));
            && EndLess(id.first, id.second) && id.first.node != id.second.node && id.Touches(n)
            && ((id.first == Near(n, adj) && id.second == Far(adj)) || (id.first == Far(adj) && id.second == Near(n, adj)))
  {
  }

  /** maybeMakeLink makes a link exactly for mutual pairs, and makes it of what both advertise. */
  lemma MakeLinkExact(dbs: Databases, my: NodeName, n: NodeName, adj: Adjacency)
    requires AllWellFormed(dbs) && n in dbs && adj in dbs[n].adjacencies
    ensures var id, made := IdOf(Near(n, adj), Far(adj)), MaybeMakeLink(dbs, my, n, adj);
            && (made.Some? <==> Mutual(dbs, id))
            && (made.Some? ==> Describes(dbs, id, made.value) && (made.value.usable <==> UsableBy(dbs, my, id)))
  {
    var id, other := IdOf(Near(n, adj), Far(adj)), adj.otherNode;
    IdOfAdjacency(n, adj);
    assert From(dbs[n], Near(n, adj), Far(adj), adj);
    if other in dbs {
      var r := FindReverse(dbs[other].adjacencies, n, adj);
      if r.Some? {
        var rev := r.value;
        assert From(dbs[other], Far(adj), Near(n, adj), rev);
        forall a | From(dbs[n], Near(n, adj), Far(adj), a) ensures a == adj {
          AdjacencyIsUnique(dbs[n], n, Near(n, adj), Far(adj), a, adj);
        }
        forall b | From(dbs[other], Far(adj), Near(n, adj), b) ensures b == rev {
          AdjacencyIsUnique(dbs[other], other, Far(adj), Near(n, adj), b, rev);
        }
      } else {
        assert !exists b :: From(dbs[other], Far(adj), Near(n, adj), b);
      }
    }
  }

  /** A mutual link at `n` comes from one of its adjacencies. */
  lemma LinkHasAdjacency(dbs: Databases, n: NodeName, id: LinkId) returns (k: nat)
    requires id.Touches(n) && Mutual(dbs, id)
    ensures k < |dbs[n].adjacencies| && IdOf(Near(n, dbs[n].adjacencies[k]), Far(dbs[n].adjacencies[k])) == id
  {
    var me, peer := if id.first.node == n then id.first else id.second, if id.first.node == n then id.second else id.first;
    var a :| From(dbs[n], me, peer, a);
    k :| 0 <= k < |dbs[n].adjacencies| && dbs[n].adjacencies[k] == a;
  }

  /** LinkState::getOrderedLinkSet, as a table; the walk sorts its keys. */
  method MakeLinks(dbs: Databases, my: NodeName, n: NodeName) returns (news: map<LinkId, Link>)
    requires AllWellFormed(dbs) && n in dbs
    ensures MadeAt(dbs, my, n, news)
  {
    hide Mutual, Describes, UsableBy, MaybeMakeLink, EndLess;
    news := map[];
    var adjs := dbs[n].adjacencies;
    for i := 0 to |adjs|
      invariant forall id <- news :: id.Touches(n) && Mutual(dbs, id)
      invariant forall id <- news :: Describes(dbs, id, news[id]) && (news[id].usable <==> UsableBy(dbs, my, id))
      invariant forall k | 0 <= k < i :: Mutual(dbs, IdOf(Near(n, adjs[k]), Far(adjs[k]))) ==> IdOf(Near(n, adjs[k]), Far(adjs[k])) in news
    {
      MakeLinkExact(dbs, my, n, adjs[i]);
      IdOfAdjacency(n, adjs[i]);
      match MaybeMakeLink(dbs, my, n, adjs[i])
      case None =>
      case Some(l) => news := news[IdOf(Near(n, adjs[i]), Far(adjs[i])) := l];
    }
    forall id: LinkId | id.Touches(n) && Mutual(dbs, id) ensures id in news {
      var k := LinkHasAdjacency(dbs, n, id);
    }
  }

  lemma StayingLinkMatches(dbs: Databases, n: NodeName, db: AdjacencyDb, id: LinkId, stored: Link, made: Link)
    requires Mutual(dbs, id) && Mutual(dbs[n := db], id) && id.Touches(n) && id.first.node != id.second.node
    requires Describes(dbs, id, stored) && Describes(dbs[n := db], id, made)
    ensures Describes(dbs[n := db], id, Updated(stored, made, id.first.node == n))
  {
  }

  lemma DistantLinkMatches(dbs: Databases, n: NodeName, db: AdjacencyDb, id: LinkId)
    requires !id.Touches(n)
    ensures Mutual(dbs[n := db], id) <==> Mutual(dbs, id)
    ensures Mutual(dbs, id) ==> forall l :: Describes(dbs, id, l) <==> Describes(dbs[n := db], id, l)
  {
  }

  /** The merge walk keeps the table in step with the databases. */
  lemma MergeMatches(g: Graph, g': Graph, dbs: Databases, my: NodeName, n: NodeName, db: AdjacencyDb, news: map<LinkId, Link>)
    requires g.Valid() && Matches(dbs, g.links)
    requires MadeAt(dbs[n := db], my, n, news)
    requires Merging(g, g', n, news, g.LinksFromNode(n) + news.Keys)
    ensures Matches(dbs[n := db], g'.links)
  {
    hide Mutual, Describes, Updated, UsableBy;
    var dbs' := dbs[n := db];
    forall id: LinkId ensures (id in g'.links <==> Mutual(dbs', id)) && (id in g'.links ==> Describes(dbs', id, g'.links[id])) {
      if !id.Touches(n) {
        assert Untouched(g, g', id);
        DistantLinkMatches(dbs, n, db, id);
      } else if id in news && id in g.links {
        assert Settled(g, g', n, news, id);
        StayingLinkMatches(dbs, n, db, id, g.links[id], news[id]);
      } else if id in news || id in g.LinksFromNode(n) {
        assert Settled(g, g', n, news, id);
      } else {
        assert Untouched(g, g', id);
      }
    }
  }
}
