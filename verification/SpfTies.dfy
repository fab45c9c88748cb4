/** What the tie-break of the queue decides: which ECMP predecessors are recorded when links have
    metric 0, and that the SPF result is the same whatever the order in which links are looked at. */
module SpfTies {
  import opened Topology
  import opened Spf
  import opened SpfPaths

  /** The source is recorded first. */
  lemma {:induction false} SourceIsFirst(q: Query, r: SpfResult, rank: Rank, v: NodeName)
    requires Exact(q, r, rank) && v in r
    ensures rank[q.src] <= rank[v]
    decreases rank[v]
  {
    if v != q.src {
      assert r[v].pathLinks != [];
      var pl := r[v].pathLinks[0];
      assert pl in r[v].pathLinks;
      SourceIsFirst(q, r, rank, pl.prevNode);
    }
  }

  /** A path link is tight and comes from a node recorded before. */
  lemma PathLinkIs(q: Query, r: SpfResult, rank: Rank, v: NodeName, pl: PathLink)
    requires Exact(q, r, rank) && v in r
    ensures pl in r[v].pathLinks <==> TightInto(q, r, r[v].metric, v, pl) && rank[pl.prevNode] < rank[v]
  {
    hide Ordered, NamesOrdered, NextHopsExact, Rooted, Closed;
  }

  /** Every node but the source has a path link. */
  lemma HasPathLink(q: Query, r: SpfResult, rank: Rank, v: NodeName) returns (pl: PathLink)
    requires Exact(q, r, rank) && v in r && v != q.src
    ensures pl in r[v].pathLinks && TightInto(q, r, r[v].metric, v, pl) && rank[pl.prevNode] < rank[v]
  {
    assert r[v].pathLinks != [];
    pl := r[v].pathLinks[0];
    assert pl in r[v].pathLinks;
  }

  /** The tie-break, as it is used: of two nodes at one metric, a lesser name goes first if the node
      has a tight predecessor recorded before the other. */
  lemma NameDecides(q: Query, r: SpfResult, rank: Rank, x: NodeName, y: NodeName, pl: PathLink)
    requires Exact(q, r, rank) && x in r && y in r && r[x].metric == r[y].metric && rank[x] < rank[y]
    requires TightInto(q, r, r[y].metric, y, pl) && rank[pl.prevNode] < rank[x]
    ensures x < y
  {
    PathLinkIs(q, r, rank, y, pl);
  }

  lemma LowerGoesFirst(q: Query, r: SpfResult, rank: Rank, x: NodeName, y: NodeName)
    requires Exact(q, r, rank) && x in r && y in r && r[x].metric < r[y].metric
    ensures rank[x] < rank[y]
  {
  }

  lemma RanksDiffer(q: Query, r: SpfResult, rank: Rank, x: NodeName, y: NodeName)
    requires Exact(q, r, rank) && x in r && y in r && x != y
    ensures rank[x] != rank[y]
  {
  }

  ghost function Reverse(h: Hop): Hop {
    Hop(h.to, h.link, h.from)
  }

  /** A usable zero-cost hop out of a reached node. */
  ghost predicate FreeHop(q: Query, r: SpfResult, h: Hop) {
    h.from in r && q.Permitted(h) && q.Cost(h.link) == 0
  }

  /** No zero-cost link at a reached node may be crossed both ways. */
  ghost predicate OneWayFree(q: Query, r: SpfResult) {
    forall h | FreeHop(q, r, h) :: !q.Permitted(Reverse(h))
  }

  /** `u` is the least-named tight predecessor of `v`, and all its tight hops are free. */
  ghost predicate FirstAmongFree(q: Query, r: SpfResult, u: NodeName, v: NodeName)
    requires v in r
  {
    forall pl | TightInto(q, r, r[v].metric, v, pl) :: q.Cost(pl.link) == 0 && u <= pl.prevNode
  }

  /** A tight zero-cost hop is recorded: its near end has the lesser name, or is what brings the far
      end into the queue. */
  ghost predicate FreeHopKept(q: Query, r: SpfResult, h: Hop)
    requires h.to in r
  {
    h.from < h.to || FirstAmongFree(q, r, h.from, h.to)
  }

  /** When the recorded ECMP predecessors are complete, told from the graph and the distances. */
  ghost predicate TiesResolve(q: Query, r: SpfResult) {
    && OneWayFree(q, r)
    && forall h | FreeHop(q, r, h) :: h.to in r && (r[h.to].metric == r[h.from].metric ==> FreeHopKept(q, r, h))
  }

  /** If free links are one-way, whoever may carry transit is entered at a cost only. */
  lemma TransitIsEnteredAtCost(q: Query, r: SpfResult, u: NodeName, pl: PathLink)
    requires OneWayFree(q, r) && u in r && (u == q.src || !q.g.Overloaded(u))
    requires TightInto(q, r, r[u].metric, u, pl)
    ensures q.Cost(pl.link) > 0
  {
    var h := Hop(pl.prevNode, pl.link, u);
    if q.Cost(pl.link) == 0 {
      assert FreeHop(q, r, h) && q.Permitted(Reverse(h));
    }
  }

  /** So among nodes at one metric that may carry transit, and before others, names decide. */
  lemma TransitByName(q: Query, r: SpfResult, rank: Rank, x: NodeName, u: NodeName)
    requires Exact(q, r, rank) && OneWayFree(q, r) && x in r && u in r && r[x].metric == r[u].metric && rank[x] < rank[u]
    requires u == q.src || !q.g.Overloaded(u)
    ensures x < u
  {
    SourceIsFirst(q, r, rank, x);
    var pl := HasPathLink(q, r, rank, u);
    TransitIsEnteredAtCost(q, r, u, pl);
    LowerGoesFirst(q, r, rank, pl.prevNode, x);
    NameDecides(q, r, rank, x, u, pl);
  }

  lemma FreeHopEnds(q: Query, r: SpfResult, h: Hop)
    requires q.g.Valid() && FreeHop(q, r, h)
    ensures h.from != h.to && (h.from == q.src || !q.g.Overloaded(h.from))
  {
  }

  /** If ties resolve, every tight hop is recorded. */
  lemma ResolvedIsRecorded(q: Query, r: SpfResult, rank: Rank, v: NodeName, pl: PathLink)
    requires q.g.Valid() && Exact(q, r, rank) && TiesResolve(q, r) && v in r && TightInto(q, r, r[v].metric, v, pl)
    ensures pl in r[v].pathLinks
  {
    var u := pl.prevNode;
    var h := Hop(u, pl.link, v);
    if q.Cost(pl.link) > 0 {
      LowerGoesFirst(q, r, rank, u, v);
    } else {
      assert FreeHop(q, r, h) && FreeHopKept(q, r, h);
      FreeHopEnds(q, r, h);
      RanksDiffer(q, r, rank, u, v);
      if rank[v] < rank[u] {
        TransitByName(q, r, rank, v, u);
        SourceIsFirst(q, r, rank, v);
        SourceIsFirst(q, r, rank, u);
        EntersBefore(q, r, rank, u, v);
      }
    }
    PathLinkIs(q, r, rank, v, pl);
  }

  /** The least-named free predecessor is recorded before the node it brings in. */
  lemma EntersBefore(q: Query, r: SpfResult, rank: Rank, u: NodeName, v: NodeName)
    requires Exact(q, r, rank) && OneWayFree(q, r) && u in r && v in r && r[u].metric == r[v].metric
    requires (u == q.src || !q.g.Overloaded(u)) && FirstAmongFree(q, r, u, v) && v != u && v != q.src
    ensures rank[u] < rank[v]
  {
    var pl := HasPathLink(q, r, rank, v);
    var w := pl.prevNode;
    if w != u {
      RanksDiffer(q, r, rank, w, u);
      if rank[w] < rank[u] {
        TransitByName(q, r, rank, w, u);
      }
    }
  }

  /** If every tight hop is recorded, ties resolve. */
  lemma RecordedIsResolved(q: Query, r: SpfResult, rank: Rank, h: Hop)
    requires q.g.Valid() && Exact(q, r, rank) && OneWayFree(q, r) && FreeHop(q, r, h) && h.to in r && r[h.to].metric == r[h.from].metric
    requires forall pl :: TightInto(q, r, r[h.to].metric, h.to, pl) ==> pl in r[h.to].pathLinks
    ensures FreeHopKept(q, r, h)
  {
    var u, v := h.from, h.to;
    FreeHopEnds(q, r, h);
    PathLinkIs(q, r, rank, v, PathLink(h.link, u));
    assert TightInto(q, r, r[v].metric, v, PathLink(h.link, u));
    if !(u < v) {
      forall pl | TightInto(q, r, r[v].metric, v, pl) ensures q.Cost(pl.link) == 0 && u <= pl.prevNode {
        NotBeforeFree(q, r, rank, u, v, pl);
      }
    }
  }

  lemma NotBeforeFree(q: Query, r: SpfResult, rank: Rank, u: NodeName, v: NodeName, pl: PathLink)
    requires Exact(q, r, rank) && OneWayFree(q, r) && u in r && v in r && r[u].metric == r[v].metric && rank[u] < rank[v] && !(u < v)
    requires TightInto(q, r, r[v].metric, v, pl)
    ensures q.Cost(pl.link) == 0 && u <= pl.prevNode
  {
    var w := pl.prevNode;
    if q.Cost(pl.link) > 0 {
      LowerGoesFirst(q, r, rank, w, u);
      NameDecides(q, r, rank, u, v, pl);
    } else if w != u {
      RanksDiffer(q, r, rank, u, w);
      if rank[w] < rank[u] {
        NameDecides(q, r, rank, u, v, pl);
      } else {
        TransitByName(q, r, rank, u, w);
      }
    }
  }

  /** The ECMP predecessors are complete if and only if ties resolve. */
  lemma CompleteIff(q: Query, r: SpfResult)
    requires q.g.Valid() && Solved(q, r)
    ensures CompleteLinks(q, r) <==> TiesResolve(q, r)
  {
    var rank :| Exact(q, r, rank);
    hide Exact, FreeHopKept;
    if TiesResolve(q, r) {
      forall v <- r, pl | exists p :: q.ShortestWalk(p, v) && EndsIn(p, v, pl) ensures pl in r[v].pathLinks {
        TightIsLastHop(q, r, v, pl);
        ResolvedIsRecorded(q, r, rank, v, pl);
      }
    }
    if CompleteLinks(q, r) {
      forall h | FreeHop(q, r, h) ensures !q.Permitted(Reverse(h)) {
        if q.Permitted(Reverse(h)) {
          ZeroCostLosesLink(q, r, h);
        }
      }
      forall h | FreeHop(q, r, h) ensures h.to in r && (r[h.to].metric == r[h.from].metric ==> FreeHopKept(q, r, h)) {
        HopStays(q, r, rank, h);
        if r[h.to].metric == r[h.from].metric {
          forall pl | TightInto(q, r, r[h.to].metric, h.to, pl) ensures pl in r[h.to].pathLinks {
            TightIsLastHop(q, r, h.to, pl);
          }
          RecordedIsResolved(q, r, rank, h);
        }
      }
    }
  }

  lemma HopStays(q: Query, r: SpfResult, rank: Rank, h: Hop)
    requires Exact(q, r, rank) && h.from in r && q.Permitted(h)
    ensures h.to in r
  {
  }

  /** In particular if no usable link at a reached node has metric 0. */
  lemma PositiveResolves(q: Query, r: SpfResult)
    requires forall h: Hop | q.Permitted(h) && h.from in r :: q.Cost(h.link) > 0
    ensures TiesResolve(q, r)
  {
  }

  /** Nodes recorded before `v`. */
  ghost function Before(r: SpfResult, rank: Rank, v: NodeName): set<NodeName>
    requires rank.Keys == r.Keys && v in r
  {
    set w <- r | rank[w] < rank[v]
  }

  /** The first node of a set, in the order of recording. */
  lemma {:induction false} FirstRecorded(rank: Rank, nodes: set<NodeName>) returns (y: NodeName)
    requires nodes != {} && nodes <= rank.Keys
    ensures y in nodes && forall w <- nodes :: rank[y] <= rank[w]
    decreases nodes
  {
    y :| y in nodes;
    if nodes != {y} {
      var z := FirstRecorded(rank, nodes - {y});
      if rank[z] < rank[y] {
        y := z;
      }
    }
  }

  /** Two results of one query: the same nodes at the same metrics, so the same tight hops. */
  lemma SameDistances(q: Query, r1: SpfResult, r2: SpfResult)
    requires Solved(q, r1) && Solved(q, r2)
    ensures r1.Keys == r2.Keys && forall v <- r1 :: r1[v].metric == r2[v].metric
    ensures forall m, v, pl :: TightInto(q, r1, m, v, pl) <==> TightInto(q, r2, m, v, pl)
  {
    hide Solved;
    SpfIsShortest(q, r1);
    SpfIsShortest(q, r2);
    forall v ensures v in r1 <==> v in r2 {
    }
    forall v <- r1 ensures r1[v].metric == r2[v].metric {
      var p1 := BestWalk(q, r1, v);
      var p2 := BestWalk(q, r2, v);
    }
  }

  ghost predicate TwoResults(q: Query, r1: SpfResult, rank1: Rank, r2: SpfResult, rank2: Rank) {
    && Exact(q, r1, rank1) && Exact(q, r2, rank2) && r1.Keys == r2.Keys == rank1.Keys == rank2.Keys
    && (forall v <- r1 :: r1[v].metric == r2[v].metric)
    && (forall m, v, pl :: TightInto(q, r1, m, v, pl) <==> TightInto(q, r2, m, v, pl))
  }

  /** Two nodes that each come right after the same nodes, in either result: the tie-break says the
      one that is first in the first result has the lesser name. */
  lemma TieGoesByName(q: Query, r1: SpfResult, rank1: Rank, r2: SpfResult, rank2: Rank, v: NodeName, y: NodeName)
    requires TwoResults(q, r1, rank1, r2, rank2) && v in r1 && y in r1
    requires rank1[v] < rank1[y] && rank2[y] < rank2[v] && Before(r2, rank2, y) <= Before(r1, rank1, v)
    ensures v < y
  {
    assert r1[v].metric == r1[y].metric by {
      MetricOrder(q, r1, rank1, v, y);
      MetricOrder(q, r2, rank2, y, v);
    }
    SourceIsFirst(q, r1, rank1, v);
    var pl := HasPathLink(q, r2, rank2, y);
    assert pl.prevNode in Before(r2, rank2, y);
    assert TightInto(q, r1, r1[y].metric, y, pl);
    hide Exact;
    NameDecides(q, r1, rank1, v, y, pl);
  }

  lemma MetricOrder(q: Query, r: SpfResult, rank: Rank, x: NodeName, y: NodeName)
    requires Exact(q, r, rank) && x in r && y in r && rank[x] < rank[y]
    ensures r[x].metric <= r[y].metric
  {
  }

  /** Up to `v` the first result's order is the second's. */
  ghost predicate AgreeUpTo(r1: SpfResult, rank1: Rank, r2: SpfResult, rank2: Rank, v: NodeName)
    requires rank1.Keys == r1.Keys == r2.Keys == rank2.Keys && v in r1
  {
    forall w <- Before(r1, rank1, v) :: Before(r1, rank1, w) == Before(r2, rank2, w)
  }

  /** Both results record the same nodes before `v`. */
  lemma {:induction false} SameBefore(q: Query, r1: SpfResult, rank1: Rank, r2: SpfResult, rank2: Rank, v: NodeName)
    requires TwoResults(q, r1, rank1, r2, rank2) && v in r1
    ensures Before(r1, rank1, v) == Before(r2, rank2, v)
    decreases rank1[v]
  {
    hide Exact, TightInto;
    forall w <- Before(r1, rank1, v) ensures Before(r1, rank1, w) == Before(r2, rank2, w) {
      SameBefore(q, r1, rank1, r2, rank2, w);
    }
    assert AgreeUpTo(r1, rank1, r2, rank2, v);
    hide AgreeUpTo;
    EarlyIsEarly(q, r1, rank1, r2, rank2, v);
    var extra := Before(r2, rank2, v) - Before(r1, rank1, v);
    if extra != {} {
      var y := FirstRecorded(rank2, extra);
      NoneBetween(q, r1, rank1, r2, rank2, v, y);
    }
    assert forall w <- Before(r2, rank2, v) :: w !in extra ==> w in Before(r1, rank1, v);
  }

  /** What precedes `v` in the first result, in the same order in both, precedes it in the second. */
  lemma EarlyIsEarly(q: Query, r1: SpfResult, rank1: Rank, r2: SpfResult, rank2: Rank, v: NodeName)
    requires TwoResults(q, r1, rank1, r2, rank2) && v in r1 && AgreeUpTo(r1, rank1, r2, rank2, v)
    ensures Before(r1, rank1, v) <= Before(r2, rank2, v)
  {
    hide Exact, TightInto;
    forall w <- Before(r1, rank1, v) ensures w in Before(r2, rank2, v) {
      RanksDiffer(q, r2, rank2, w, v);
      assert rank2[v] < rank2[w] ==> v in Before(r2, rank2, w);
    }
  }

  /** So does nothing else: the first such node would tie with `v`, and the name decides either way. */
  lemma NoneBetween(q: Query, r1: SpfResult, rank1: Rank, r2: SpfResult, rank2: Rank, v: NodeName, y: NodeName)
    requires TwoResults(q, r1, rank1, r2, rank2) && v in r1 && AgreeUpTo(r1, rank1, r2, rank2, v)
    requires y in Before(r2, rank2, v)
    requires forall w <- Before(r2, rank2, v) - Before(r1, rank1, v) :: rank2[y] <= rank2[w]
    ensures y in Before(r1, rank1, v)
  {
    hide Exact, TightInto;
    RanksDiffer(q, r1, rank1, v, y);
    if rank1[v] < rank1[y] {
      assert Before(r2, rank2, y) <= Before(r1, rank1, v);
      forall w <- Before(r1, rank1, v) ensures w in Before(r2, rank2, y) {
        RanksDiffer(q, r2, rank2, w, y);
        assert y !in Before(r1, rank1, w) && y !in Before(r2, rank2, w);
      }
      hide Before, AgreeUpTo;
      TieGoesByName(q, r1, rank1, r2, rank2, v, y);
      TieGoesByName(q, r2, rank2, r1, rank1, y, v);
    }
  }

  lemma SamePathLinks(q: Query, r1: SpfResult, rank1: Rank, r2: SpfResult, rank2: Rank, v: NodeName, pl: PathLink)
    requires TwoResults(q, r1, rank1, r2, rank2) && v in r1
    ensures pl in r1[v].pathLinks <==> pl in r2[v].pathLinks
  {
    SameBefore(q, r1, rank1, r2, rank2, v);
    hide Exact;
    PathLinkIs(q, r1, rank1, v, pl);
    PathLinkIs(q, r2, rank2, v, pl);
    assert pl.prevNode in r1 ==> (pl.prevNode in Before(r1, rank1, v) <==> pl.prevNode in Before(r2, rank2, v));
  }

  /** What the next hops of `v` are made of. */
  ghost predicate LinksAlike(r1: SpfResult, r2: SpfResult, v: NodeName, n: NodeName)
    requires v in r1 && v in r2
  {
    && (forall pl :: pl in r1[v].pathLinks <==> pl in r2[v].pathLinks)
    && (forall pl <- r1[v].pathLinks :: pl.prevNode in r1 && pl.prevNode in r2 && (n in r1[pl.prevNode].nextHops <==> n in r2[pl.prevNode].nextHops))
  }

  lemma AlikeFirstHops(src: NodeName, r1: SpfResult, r2: SpfResult, v: NodeName, n: NodeName)
    requires v in r1 && v in r2 && LinksAlike(r1, r2, v, n)
    ensures FirstHop(src, r1, v, r1[v].pathLinks, n) <==> FirstHop(src, r2, v, r2[v].pathLinks, n)
  {
  }

  lemma {:induction false} SameNextHops(q: Query, r1: SpfResult, rank1: Rank, r2: SpfResult, rank2: Rank, v: NodeName, n: NodeName)
    requires TwoResults(q, r1, rank1, r2, rank2) && v in r1
    ensures n in r1[v].nextHops <==> n in r2[v].nextHops
    decreases rank1[v]
  {
    hide Exact, FirstHop;
    forall pl ensures pl in r1[v].pathLinks <==> pl in r2[v].pathLinks {
      SamePathLinks(q, r1, rank1, r2, rank2, v, pl);
    }
    forall pl <- r1[v].pathLinks
      ensures pl.prevNode in r1 && pl.prevNode in r2 && (n in r1[pl.prevNode].nextHops <==> n in r2[pl.prevNode].nextHops)
    {
      PathLinkIs(q, r1, rank1, v, pl);
      SameNextHops(q, r1, rank1, r2, rank2, pl.prevNode, n);
    }
    assert LinksAlike(r1, r2, v, n);
    AlikeFirstHops(q.src, r1, r2, v, n);
    HopsByLinks(q, r1, rank1, v, n);
    HopsByLinks(q, r2, rank2, v, n);
  }

  lemma HopsByLinks(q: Query, r: SpfResult, rank: Rank, v: NodeName, n: NodeName)
    requires Exact(q, r, rank) && v in r
    ensures n in r[v].nextHops <==> FirstHop(q.src, r, v, r[v].pathLinks, n)
  {
    hide Ordered, NamesOrdered, PathLinksExact, Rooted, Closed, FirstHop;
  }

  /** Two results for the same question agree, up to the order of the path links. */
  ghost predicate SameResult(r1: SpfResult, r2: SpfResult) {
    && r1.Keys == r2.Keys
    && forall v <- r1 ::
         && r1[v].metric == r2[v].metric
         && r1[v].nextHops == r2[v].nextHops
         && multiset(r1[v].pathLinks) == multiset(r2[v].pathLinks)
  }

  lemma {:induction false} DistinctCount<T>(s: seq<T>, x: T)
    requires Distinct(s)
    ensures multiset(s)[x] == if x in s then 1 else 0
  {
    if s != [] {
      var init := s[..|s| - 1];
      assert s == init + [s[|s| - 1]];
      DistinctCount(init, x);
    }
  }

  lemma SameElements<T>(s: seq<T>, t: seq<T>)
    requires Distinct(s) && Distinct(t) && forall x :: x in s <==> x in t
    ensures multiset(s) == multiset(t)
  {
    forall x ensures multiset(s)[x] == multiset(t)[x] {
      DistinctCount(s, x);
      DistinctCount(t, x);
    }
  }

  lemma LinksAreDistinct(q: Query, r: SpfResult, rank: Rank, v: NodeName)
    requires Exact(q, r, rank) && v in r
    ensures Distinct(r[v].pathLinks)
  {
  }

  lemma RanksAreOfNodes(q: Query, r: SpfResult, rank: Rank)
    requires Exact(q, r, rank)
    ensures rank.Keys == r.Keys
  {
  }

  lemma SameAt(q: Query, r1: SpfResult, rank1: Rank, r2: SpfResult, rank2: Rank, v: NodeName)
    requires TwoResults(q, r1, rank1, r2, rank2) && v in r1
    ensures r1[v].nextHops == r2[v].nextHops && multiset(r1[v].pathLinks) == multiset(r2[v].pathLinks)
  {
    hide Exact, TightInto, Distinct;
    LinksAreDistinct(q, r1, rank1, v);
    LinksAreDistinct(q, r2, rank2, v);
    forall n ensures n in r1[v].nextHops <==> n in r2[v].nextHops {
      SameNextHops(q, r1, rank1, r2, rank2, v, n);
    }
    forall pl ensures pl in r1[v].pathLinks <==> pl in r2[v].pathLinks {
      SamePathLinks(q, r1, rank1, r2, rank2, v, pl);
    }
    SameElements(r1[v].pathLinks, r2[v].pathLinks);
  }

  /** The result is a function of the question, also where links have metric 0: a memoized result is a
      fresh one. */
  lemma ResultIsUnique(q: Query, r1: SpfResult, r2: SpfResult)
    requires Solved(q, r1) && Solved(q, r2)
    ensures SameResult(r1, r2)
  {
    hide Exact, TightInto;
    SameDistances(q, r1, r2);
    var rank1 :| Exact(q, r1, rank1);
    var rank2 :| Exact(q, r2, rank2);
    RanksAreOfNodes(q, r1, rank1);
    RanksAreOfNodes(q, r2, rank2);
    forall v <- r1 ensures r1[v].nextHops == r2[v].nextHops && multiset(r1[v].pathLinks) == multiset(r2[v].pathLinks) {
      SameAt(q, r1, rank1, r2, rank2, v);
    }
  }

  /** ECMP is complete for the query: the ties of its result resolve. */
  ghost predicate EcmpComplete(q: Query) {
    forall r | Solved(q, r) :: TiesResolve(q, r)
  }

  lemma EcmpCompletes(q: Query, r: SpfResult)
    requires q.g.Valid() && EcmpComplete(q) && Solved(q, r)
    ensures CompleteLinks(q, r)
  {
    hide Solved, TiesResolve;
    CompleteIff(q, r);
  }

  lemma PositiveIsComplete(q: Query)
    requires q.PositiveCosts()
    ensures EcmpComplete(q)
  {
    hide Solved;
    forall r | Solved(q, r) ensures TiesResolve(q, r) {
      PositiveResolves(q, r);
    }
  }
}
