/** What an SPF result says about whole paths. */
module SpfPaths {
  import opened Topology
  import opened Spf

  /** The metrics of `r` are exactly the shortest permitted distances, and its nodes exactly
      the reachable ones. */
  ghost predicate ShortestDistances(q: Query, r: SpfResult) {
    && (forall v :: v in r <==> q.Reachable(v))
    && (forall v <- r :: exists p :: q.ShortestWalk(p, v) && q.Length(p) == r[v].metric)
  }

  /** `p` ends in the hop `pl` into `v`. */
  ghost predicate EndsIn(p: seq<Hop>, v: NodeName, pl: PathLink) {
    p != [] && p[|p| - 1] == Hop(pl.prevNode, pl.link, v)
  }

  /** A permitted walk never undercuts a recorded metric. */
  lemma {:induction false} WalkIsCovered(q: Query, r: SpfResult, p: seq<Hop>, v: NodeName)
    requires q.src in r && r[q.src].metric == 0 && Closed(q, r)
    requires q.Walk(p, v)
    ensures v in r && r[v].metric <= q.Length(p)
    decreases |p|
  {
    if p != [] {
      WalkIsCovered(q, r, p[..|p| - 1], p[|p| - 1].from);
    }
  }

  /** Following path links back from a recorded node yields a walk as long as its metric. */
  lemma {:induction false} MetricIsAttained(q: Query, r: SpfResult, rank: Rank, v: NodeName) returns (p: seq<Hop>)
    requires Exact(q, r, rank) && v in r
    ensures q.Walk(p, v) && q.Length(p) == r[v].metric
    decreases rank[v]
  {
    if v == q.src {
      p := [];
    } else {
      assert r[v].pathLinks != [];
      var pl := r[v].pathLinks[0];
      assert pl in r[v].pathLinks;
      var before := MetricIsAttained(q, r, rank, pl.prevNode);
      p := before + [Hop(pl.prevNode, pl.link, v)];
      assert p[..|p| - 1] == before;
    }
  }

  /** A recorded node has a shortest walk of its metric, and no walk reaches elsewhere. */
  lemma BestWalk(q: Query, r: SpfResult, v: NodeName) returns (p: seq<Hop>)
    requires Solved(q, r) && v in r
    ensures q.ShortestWalk(p, v) && q.Length(p) == r[v].metric
  {
    var rank :| Exact(q, r, rank);
    p := MetricIsAttained(q, r, rank, v);
    forall w | q.Walk(w, v) ensures q.Length(p) <= q.Length(w) {
      WalkIsCovered(q, r, w, v);
    }
  }

  lemma WalkStaysInResult(q: Query, r: SpfResult, p: seq<Hop>, v: NodeName)
    requires Solved(q, r) && q.Walk(p, v)
    ensures v in r && r[v].metric <= q.Length(p)
    ensures q.ShortestWalk(p, v) <==> q.Length(p) == r[v].metric
  {
    var rank :| Exact(q, r, rank);
    WalkIsCovered(q, r, p, v);
    var best := BestWalk(q, r, v);
  }

  /** runSpf finds exactly the reachable nodes, each at its shortest permitted distance. */
  lemma SpfIsShortest(q: Query, r: SpfResult)
    requires Solved(q, r)
    ensures ShortestDistances(q, r)
  {
    hide Solved;
    forall v <- r ensures exists p :: q.ShortestWalk(p, v) && q.Length(p) == r[v].metric {
      var p := BestWalk(q, r, v);
    }
    forall v ensures v in r <==> q.Reachable(v) {
      if q.Reachable(v) {
        var p :| q.Walk(p, v);
        WalkStaysInResult(q, r, p, v);
      } else if v in r {
        var p := BestWalk(q, r, v);
      }
    }
  }

  /** The last hops of shortest walks are the tight hops. */
  lemma TightIsLastHop(q: Query, r: SpfResult, v: NodeName, pl: PathLink)
    requires Solved(q, r) && v in r
    ensures TightInto(q, r, r[v].metric, v, pl) <==> exists p :: q.ShortestWalk(p, v) && EndsIn(p, v, pl)
  {
    hide Solved;
    var h := Hop(pl.prevNode, pl.link, v);
    if TightInto(q, r, r[v].metric, v, pl) {
      var before := BestWalk(q, r, pl.prevNode);
      var p := before + [h];
      assert p[..|p| - 1] == before;
      WalkStaysInResult(q, r, p, v);
      assert EndsIn(p, v, pl);
    }
    if p :| q.ShortestWalk(p, v) && EndsIn(p, v, pl) {
      LastHopIsTight(q, r, v, pl, p);
    }
  }

  lemma LastHopIsTight(q: Query, r: SpfResult, v: NodeName, pl: PathLink, p: seq<Hop>)
    requires Solved(q, r) && v in r && q.ShortestWalk(p, v) && EndsIn(p, v, pl)
    ensures TightInto(q, r, r[v].metric, v, pl)
    ensures q.ShortestWalk(p[..|p| - 1], pl.prevNode)
  {
    hide Solved;
    var h, before := Hop(pl.prevNode, pl.link, v), p[..|p| - 1];
    WalkStaysInResult(q, r, before, h.from);
    WalkStaysInResult(q, r, p, v);
    var best := BestWalk(q, r, h.from);
    var p' := best + [h];
    assert p'[..|p'| - 1] == best;
    assert q.Walk(p', v);
  }

  /** Every last hop of a shortest walk is recorded as a path link (ECMP is complete). */
  ghost predicate CompleteLinks(q: Query, r: SpfResult) {
    forall v <- r, pl :: (exists p :: q.ShortestWalk(p, v) && EndsIn(p, v, pl)) ==> pl in r[v].pathLinks
  }

  /** Recorded path links are always last hops of shortest walks. */
  lemma PathLinksAreLastHops(q: Query, r: SpfResult, v: NodeName, pl: PathLink)
    requires Solved(q, r) && v in r && pl in r[v].pathLinks
    ensures exists p :: q.ShortestWalk(p, v) && EndsIn(p, v, pl)
  {
    TightIsLastHop(q, r, v, pl);
  }

  /** With positive costs none is missing. */
  lemma PositiveCostsComplete(q: Query, r: SpfResult)
    requires Solved(q, r) && q.PositiveCosts()
    ensures CompleteLinks(q, r)
  {
    var rank :| Exact(q, r, rank);
    forall v <- r, pl | exists p :: q.ShortestWalk(p, v) && EndsIn(p, v, pl)
      ensures pl in r[v].pathLinks
    {
      TightIsLastHop(q, r, v, pl);
      assert q.Permitted(Hop(pl.prevNode, pl.link, v));
    }
  }

  lemma BothTight(q: Query, r: SpfResult, h: Hop)
    requires Closed(q, r) && h.from in r && q.Permitted(h) && q.Permitted(Hop(h.to, h.link, h.from)) && q.Cost(h.link) == 0
    ensures h.to in r
    ensures TightInto(q, r, r[h.to].metric, h.to, PathLink(h.link, h.from))
    ensures TightInto(q, r, r[h.from].metric, h.from, PathLink(h.link, h.to))
  {
    var back := Hop(h.to, h.link, h.from);
    assert h.to in r && r[h.to].metric <= r[h.from].metric;
    assert r[back.to].metric <= r[back.from].metric;
  }

  /** Two nodes are not recorded before each other. */
  lemma NotBothRecorded(q: Query, r: SpfResult, rank: Rank, h: Hop)
    requires rank.Keys == r.Keys && PathLinksExact(q, r, rank) && h.from in r && h.to in r
    ensures !(PathLink(h.link, h.from) in r[h.to].pathLinks && PathLink(h.link, h.to) in r[h.from].pathLinks)
  {
  }

  /** A zero-cost link between two nodes that may carry transit loses a path link at one of
      its ends: whichever of the two is recorded first skips the hop from the other. */
  lemma ZeroCostLosesLink(q: Query, r: SpfResult, h: Hop)
    requires Solved(q, r)
    requires h.from in r && q.Permitted(h) && q.Permitted(Hop(h.to, h.link, h.from)) && q.Cost(h.link) == 0
    ensures !CompleteLinks(q, r)
  {
    hide Query.Permitted, Query.Cost, TightInto, EndsIn, Query.ShortestWalk, NextHopsExact, Rooted, NamesOrdered, PathLinksExact, Closed;
    var rank :| Exact(q, r, rank);
    assert rank.Keys == r.Keys;
    hide Ordered;
    BothTight(q, r, h);
    NotBothRecorded(q, r, rank, h);
    TightIsLastHop(q, r, h.to, PathLink(h.link, h.from));
    TightIsLastHop(q, r, h.from, PathLink(h.link, h.to));
  }

  ghost predicate StartsTo(p: seq<Hop>, n: NodeName) {
    p != [] && p[0].to == n
  }

  /** The first hop of a shortest walk is in the next hops of its end. */
  lemma {:induction false} FirstHopIsNextHop(q: Query, r: SpfResult, rank: Rank, v: NodeName, p: seq<Hop>)
    requires Exact(q, r, rank) && CompleteLinks(q, r) && v in r
    requires q.ShortestWalk(p, v) && p != []
    ensures p[0].to in r[v].nextHops
    decreases |p|
  {
    var h, before := p[|p| - 1], p[..|p| - 1];
    var pl := PathLink(h.link, h.from);
    assert Solved(q, r) && EndsIn(p, v, pl);
    LastHopIsTight(q, r, v, pl, p);
    assert pl in r[v].pathLinks;
    if before == [] {
      assert FirstHop(q.src, r, v, r[v].pathLinks, v);
    } else {
      FirstHopIsNextHop(q, r, rank, h.from, before);
      assert h.from != q.src;
      assert FirstHop(q.src, r, v, r[v].pathLinks, p[0].to);
    }
  }

  /** Every next hop of a node begins a shortest walk to it. */
  lemma {:induction false} NextHopStartsWalk(q: Query, r: SpfResult, rank: Rank, v: NodeName, n: NodeName)
    returns (p: seq<Hop>)
    requires Exact(q, r, rank) && v in r && n in r[v].nextHops
    ensures q.ShortestWalk(p, v) && StartsTo(p, n)
    decreases rank[v]
  {
    var pl := FirstHopLink(q, r, rank, v, n);
    assert Solved(q, r);
    hide Exact, Solved, TightInto;
    var before := [];
    if pl.prevNode != q.src {
      before := NextHopStartsWalk(q, r, rank, pl.prevNode, n);
    }
    p := ExtendShortest(q, r, before, v, pl);
  }

  /** A next hop comes with a path link that it leads over. */
  lemma FirstHopLink(q: Query, r: SpfResult, rank: Rank, v: NodeName, n: NodeName) returns (pl: PathLink)
    requires Exact(q, r, rank) && v in r && n in r[v].nextHops
    ensures TightInto(q, r, r[v].metric, v, pl) && pl.prevNode in r && pl.prevNode in rank && v in rank && rank[pl.prevNode] < rank[v]
    ensures if pl.prevNode == q.src then n == v else n in r[pl.prevNode].nextHops
  {
    hide NamesOrdered, Closed, Rooted, Query.Permitted, Query.Cost;
    assert FirstHop(q.src, r, v, r[v].pathLinks, n);
    pl :| pl in r[v].pathLinks && if pl.prevNode == q.src then n == v else pl.prevNode in r && n in r[pl.prevNode].nextHops;
  }

  /** A tight hop extends a shortest walk to a shortest walk. */
  lemma ExtendShortest(q: Query, r: SpfResult, before: seq<Hop>, v: NodeName, pl: PathLink) returns (p: seq<Hop>)
    requires Solved(q, r) && v in r && TightInto(q, r, r[v].metric, v, pl)
    requires if pl.prevNode == q.src then before == [] else q.ShortestWalk(before, pl.prevNode)
    ensures p == before + [Hop(pl.prevNode, pl.link, v)] && q.ShortestWalk(p, v)
  {
    hide Solved;
    p := before + [Hop(pl.prevNode, pl.link, v)];
    assert p[..|p| - 1] == before;
    WalkStaysInResult(q, r, before, pl.prevNode);
    WalkStaysInResult(q, r, [], q.src);
    WalkStaysInResult(q, r, p, v);
  }

  /** The next hops of a node are exactly the first hops of its shortest walks, wherever ECMP is
      complete. */
  lemma NextHopsAreFirstHops(q: Query, r: SpfResult, v: NodeName, n: NodeName)
    requires Solved(q, r) && CompleteLinks(q, r) && v in r
    ensures n in r[v].nextHops <==> exists p :: q.ShortestWalk(p, v) && StartsTo(p, n)
  {
    var rank :| Exact(q, r, rank);
    hide Exact;
    if n in r[v].nextHops {
      var p := NextHopStartsWalk(q, r, rank, v, n);
    }
    if p :| q.ShortestWalk(p, v) && StartsTo(p, n) {
      FirstHopIsNextHop(q, r, rank, v, p);
    }
  }
}
