/** SPF depends on less than the whole graph: only on the links that are up, their costs, and
    the overload bits at their ends. */
module SpfView {
  import opened Topology
  import opened Spf
  import opened DisjointPaths

  ghost predicate Up(g: Graph, l: LinkId) {
    l in g.links && g.links[l].IsUp()
  }

  /** `g` and `g'` look the same to SPF. */
  ghost predicate SameView(g: Graph, g': Graph) {
    && (forall l :: Up(g, l) <==> Up(g', l))
    && (forall l :: Up(g, l) && Up(g', l) ==> g.links[l].MaxMetric() == g'.links[l].MaxMetric())
    && (forall l, n :: Up(g, l) && l.Touches(n) ==> (g.Overloaded(n) <==> g'.Overloaded(n)))
  }

  ghost predicate SameHops(q: Query, q': Query) {
    && q.src == q'.src
    && (forall h :: q.Permitted(h) <==> q'.Permitted(h))
    && (forall h :: q.Permitted(h) ==> q.Cost(h.link) == q'.Cost(h.link))
  }

  lemma SameViewSameHops(q: Query, g': Graph)
    requires SameView(q.g, g')
    ensures SameHops(q, q.(g := g'))
  {
    forall h ensures q.Permitted(h) <==> q.(g := g').Permitted(h) {
      assert Up(q.g, h.link) <==> Up(g', h.link);
    }
  }

  lemma LinksTransfer(q: Query, q': Query, r: SpfResult, rank: Rank)
    requires SameHops(q, q') && rank.Keys == r.Keys && PathLinksExact(q, r, rank)
    ensures PathLinksExact(q', r, rank)
  {
  }

  lemma ClosedTransfers(q: Query, q': Query, r: SpfResult)
    requires SameHops(q, q') && Closed(q, r)
    ensures Closed(q', r)
  {
  }

  /** A result for one query is a result for every query with the same hops. */
  lemma SolvedTransfers(q: Query, q': Query, r: SpfResult)
    requires SameHops(q, q') && Solved(q, r)
    ensures Solved(q', r)
  {
    assert q.src == q'.src;
    hide SameHops, PathLinksExact, NextHopsExact, Rooted, Closed;
    var rank :| Exact(q, r, rank);
    assert rank.Keys == r.Keys;
    hide Ordered;
    LinksTransfer(q, q', r, rank);
    ClosedTransfers(q, q', r);
    assert Exact(q', r, rank);
  }

  lemma TracedTransfers(q: Query, q': Query, dest: NodeName, paths: seq<Path>)
    requires SameHops(q, q') && TracedFamily(q, dest, paths)
    ensures TracedFamily(q', dest, paths)
  {
    hide Solved, BlockingFamily;
    var r :| Solved(q, r) && if dest in r then BlockingFamily(q.src, r, dest, paths) else paths == [];
    SolvedTransfers(q, q', r);
  }
}
