/** LinkState::runSpf: Dijkstra over the link-state graph, keeping for every node its metric,
    the last links of its best paths and the first-hop neighbours. */
module Spf {
  import opened Topology

  datatype PathLink = PathLink(link: LinkId, prevNode: NodeName)

  datatype NodeSpf = NodeSpf(metric: nat, pathLinks: seq<PathLink>, nextHops: set<NodeName>)

  type SpfResult = map<NodeName, NodeSpf>

  ghost predicate Distinct<T>(s: seq<T>) {
    forall i, j :: 0 <= i < j < |s| ==> s[i] != s[j]
  }

  /** Position of each recorded node in the order of extraction from the queue. */
  type Rank = map<NodeName, nat>

  /** `h` is a permitted hop out of a recorded node that relaxation has already looked at:
      all of them, except those of the current node `cur` over the links in `todo`. */
  ghost predicate Relaxed(q: Query, r: SpfResult, cur: NodeName, todo: set<LinkId>, h: Hop) {
    q.Permitted(h) && h.from in r && !(h.from == cur && h.link in todo)
  }

  /** `n` is a neighbour through which some path link of `v` leaves the source. */
  ghost predicate FirstHop(src: NodeName, r: SpfResult, v: NodeName, pls: seq<PathLink>, n: NodeName) {
    exists pl <- pls :: if pl.prevNode == src then n == v else pl.prevNode in r && n in r[pl.prevNode].nextHops
  }

  /** Ranks order the recorded nodes, never against their metrics. */
  ghost predicate Ordered(r: SpfResult, rank: Rank) {
    && rank.Keys == r.Keys
    && (forall u, v | u in r && v in r :: rank[u] == rank[v] ==> u == v)
    && (forall u, v | u in r && v in r :: r[u].metric < r[v].metric ==> rank[u] < rank[v])
  }

  /** No path link of `v` comes from a node recorded before `x`: `v` was not queued at its metric
      when `x` was extracted. */
  ghost predicate QueuedLater(pls: seq<PathLink>, rank: Rank, x: NodeName)
    requires x in rank
  {
    forall pl <- pls :: pl.prevNode in rank ==> rank[x] <= rank[pl.prevNode]
  }

  /** Of two nodes at one metric the one recorded first has the lesser name, unless the other was
      queued later. */
  ghost predicate NamesOrdered(r: SpfResult, rank: Rank)
    requires rank.Keys == r.Keys
  {
    forall x <- r, y <- r | r[x].metric == r[y].metric && rank[x] < rank[y] ::
      x < y || QueuedLater(r[y].pathLinks, rank, x)
  }

  /** `pl` enters `v` over a permitted hop that its metric is measured along. */
  ghost predicate TightInto(q: Query, r: SpfResult, metric: nat, v: NodeName, pl: PathLink) {
    && q.Permitted(Hop(pl.prevNode, pl.link, v))
    && pl.prevNode in r
    && r[pl.prevNode].metric + q.Cost(pl.link) == metric
  }

  /** The path links of a node are its tight incoming hops from nodes recorded before it. */
  ghost predicate PathLinksExact(q: Query, r: SpfResult, rank: Rank)
    requires rank.Keys == r.Keys
  {
    forall v <- r, pl :: pl in r[v].pathLinks <==>
      TightInto(q, r, r[v].metric, v, pl) && rank[pl.prevNode] < rank[v]
  }

  ghost predicate NextHopsExact(src: NodeName, r: SpfResult) {
    forall v <- r, n :: n in r[v].nextHops <==> FirstHop(src, r, v, r[v].pathLinks, n)
  }

  /** Only the source has no way in; it is at metric 0. */
  ghost predicate Rooted(src: NodeName, r: SpfResult) {
    && (forall v <- r :: Distinct(r[v].pathLinks))
    && (forall v <- r :: r[v].pathLinks == [] <==> v == src)
    && (forall v <- r :: r[v].nextHops == {} <==> v == src)
    && (src in r ==> r[src].metric == 0)
  }

  ghost predicate Recorded(q: Query, r: SpfResult, rank: Rank) {
    Ordered(r, rank) && NamesOrdered(r, rank) && PathLinksExact(q, r, rank) && NextHopsExact(q.src, r) && Rooted(q.src, r)
  }

  /** The recorded nodes are closed under permitted hops and no hop shortens a metric. */
  ghost predicate Closed(q: Query, r: SpfResult) {
    forall h | q.Permitted(h) && h.from in r ::
      h.to in r && r[h.to].metric <= r[h.from].metric + q.Cost(h.link)
  }

  /** The result of SPF, stated hop by hop. */
  ghost predicate Exact(q: Query, r: SpfResult, rank: Rank) {
    Recorded(q, r, rank) && q.src in r && Closed(q, r)
  }

  ghost predicate Solved(q: Query, r: SpfResult) {
    exists rank :: Exact(q, r, rank)
  }

  /** Recorded nodes are no farther than queued ones, and were numbered in turn. */
  ghost predicate Separated(q: Query, r: SpfResult, rank: Rank, queue: SpfResult)
    requires rank.Keys == r.Keys
  {
    && (forall v <- r :: rank[v] < |r|)
    && r.Keys !! queue.Keys
    && (if r == map[] then queue == map[q.src := NodeSpf(0, [], {})] else q.src in r)
    && (forall u <- r, v <- queue :: r[u].metric <= queue[v].metric)
  }

  /** A relaxed hop leads to a recorded node or to a queued one that is no farther. */
  ghost predicate Covered(q: Query, r: SpfResult, queue: SpfResult, cur: NodeName, todo: set<LinkId>) {
    forall h | Relaxed(q, r, cur, todo, h) ::
      && (h.to in r ==> r[h.to].metric <= r[h.from].metric + q.Cost(h.link))
      && (h.to !in r ==> h.to in queue && queue[h.to].metric <= r[h.from].metric + q.Cost(h.link))
  }

  /** The path links of a queued node are the tight hops relaxed so far. */
  ghost predicate QueueLinksExact(q: Query, r: SpfResult, queue: SpfResult, cur: NodeName, todo: set<LinkId>) {
    forall v <- queue, pl :: pl in queue[v].pathLinks <==>
      TightInto(q, r, queue[v].metric, v, pl) && !(pl.prevNode == cur && pl.link in todo)
  }

  ghost predicate QueueHopsExact(src: NodeName, r: SpfResult, queue: SpfResult) {
    forall v <- queue, n :: n in queue[v].nextHops <==> FirstHop(src, r, v, queue[v].pathLinks, n)
  }

  ghost predicate QueueShape(r: SpfResult, queue: SpfResult) {
    && (forall v <- queue :: Distinct(queue[v].pathLinks))
    && (r != map[] ==> forall v <- queue :: queue[v].pathLinks != [] && queue[v].nextHops != {})
  }

  /** A queued node at the metric of a recorded one comes after it by name or was queued later. */
  ghost predicate QueueNames(r: SpfResult, rank: Rank, queue: SpfResult)
    requires rank.Keys == r.Keys
  {
    forall x <- r, y <- queue | r[x].metric == queue[y].metric :: x < y || QueuedLater(queue[y].pathLinks, rank, x)
  }

  /** The loop invariant of runSpf, in the middle of relaxing the links of `cur`. */
  ghost predicate Searching(q: Query, r: SpfResult, rank: Rank, queue: SpfResult, cur: NodeName, todo: set<LinkId>) {
    && Recorded(q, r, rank)
    && Separated(q, r, rank, queue)
    && Covered(q, r, queue, cur, todo)
    && QueueLinksExact(q, r, queue, cur, todo)
    && QueueHopsExact(q.src, r, queue)
    && QueueShape(r, queue)
    && QueueNames(r, rank, queue)
  }

  /** Nodes that may ever enter the queue. */
  ghost function Universe(q: Query): set<NodeName> {
    {q.src} + q.g.Nodes()
  }

  /** DijkstraQ::extractMin: smallest metric first, ties broken by name. */
  method ExtractMin(queue: SpfResult) returns (n: NodeName)
    requires queue != map[]
    ensures Nearest(queue, n)
  {
    var rest := queue.Keys;
    n :| n in rest;
    rest := rest - {n};
    while rest != {}
      invariant rest <= queue.Keys && n in queue
      invariant forall v <- queue.Keys - rest ::
                  queue[n].metric < queue[v].metric || (queue[n].metric == queue[v].metric && n <= v)
    {
      var v :| v in rest;
      rest := rest - {v};
      if queue[v].metric < queue[n].metric || (queue[v].metric == queue[n].metric && v < n) {
        n := v;
      }
    }
  }

  /** Recording the minimum of the queue keeps the order of the recorded nodes. */
  lemma RecordKeepsOrder(q: Query, r: SpfResult, rank: Rank, queue: SpfResult, n: NodeName)
    requires Ordered(r, rank) && Separated(q, r, rank, queue)
    requires n in queue
    ensures Ordered(r[n := queue[n]], rank[n := |r|])
  {
  }

  lemma RecordKeepsSeparation(q: Query, r: SpfResult, rank: Rank, queue: SpfResult, n: NodeName)
    requires rank.Keys == r.Keys && Separated(q, r, rank, queue)
    requires n in queue && forall v <- queue :: queue[n].metric <= queue[v].metric
    ensures Separated(q, r[n := queue[n]], rank[n := |r|], queue - {n})
  {
  }

  lemma RecordKeepsRoot(q: Query, r: SpfResult, rank: Rank, queue: SpfResult, n: NodeName)
    requires rank.Keys == r.Keys && Separated(q, r, rank, queue)
    requires Rooted(q.src, r) && QueueShape(r, queue)
    requires n in queue
    ensures Rooted(q.src, r[n := queue[n]])
    ensures QueueShape(r[n := queue[n]], queue - {n})
  {
  }

  lemma RecordKeepsLinks(q: Query, r: SpfResult, rank: Rank, queue: SpfResult, n: NodeName)
    requires q.g.Valid()
    requires rank.Keys == r.Keys && PathLinksExact(q, r, rank) && QueueLinksExact(q, r, queue, n, {})
    requires n in queue && n !in r && forall v <- r :: rank[v] < |r|
    ensures PathLinksExact(q, r[n := queue[n]], rank[n := |r|])
  {
  }

  /** Path links come from recorded nodes. */
  ghost predicate PrevRecorded(r: SpfResult, s: SpfResult) {
    forall v <- s, pl <- s[v].pathLinks :: pl.prevNode in r
  }

  lemma LinksComeFromRecorded(q: Query, r: SpfResult, rank: Rank, queue: SpfResult, cur: NodeName, todo: set<LinkId>)
    requires rank.Keys == r.Keys && PathLinksExact(q, r, rank) && QueueLinksExact(q, r, queue, cur, todo)
    ensures PrevRecorded(r, r) && PrevRecorded(r, queue)
  {
  }

  lemma RecordKeepsHops(src: NodeName, r: SpfResult, queue: SpfResult, n: NodeName)
    requires NextHopsExact(src, r) && QueueHopsExact(src, r, queue)
    requires n in queue && n !in r && PrevRecorded(r, r) && PrevRecorded(r, queue)
    ensures NextHopsExact(src, r[n := queue[n]])
    ensures QueueHopsExact(src, r[n := queue[n]], queue - {n})
  {
  }

  lemma RecordKeepsQueue(q: Query, r: SpfResult, queue: SpfResult, n: NodeName, todo: set<LinkId>)
    requires Covered(q, r, queue, n, {}) && QueueLinksExact(q, r, queue, n, {})
    requires n in queue && n !in r
    requires forall h | q.Permitted(h) && h.from == n :: h.link in todo
    ensures Covered(q, r[n := queue[n]], queue - {n}, n, todo)
    ensures QueueLinksExact(q, r[n := queue[n]], queue - {n}, n, todo)
  {
  }

  /** `n` is what extractMin takes. */
  ghost predicate Nearest(queue: SpfResult, n: NodeName) {
    n in queue && forall v <- queue :: queue[n].metric < queue[v].metric || (queue[n].metric == queue[v].metric && n <= v)
  }

  lemma StillLater(pls: seq<PathLink>, rank: Rank, x: NodeName, n: NodeName, k: nat)
    requires x in rank && n !in rank && QueuedLater(pls, rank, x) && rank[x] <= k
    ensures QueuedLater(pls, rank[n := k], x)
  {
  }

  lemma RecordKeepsNames(q: Query, r: SpfResult, rank: Rank, queue: SpfResult, n: NodeName)
    requires rank.Keys == r.Keys && Separated(q, r, rank, queue)
    requires NamesOrdered(r, rank) && QueueNames(r, rank, queue) && Nearest(queue, n)
    ensures NamesOrdered(r[n := queue[n]], rank[n := |r|])
  {
    var r', rank' := r[n := queue[n]], rank[n := |r|];
    assert n !in r && forall x <- r :: rank[x] < |r|;
    hide QueuedLater, Separated, Nearest;
    forall x <- r', y <- r' | r'[x].metric == r'[y].metric && rank'[x] < rank'[y]
      ensures x < y || QueuedLater(r'[y].pathLinks, rank', x)
    {
      if !(x < y) {
        assert x in r && (y == n || y in r);
        StillLater(r'[y].pathLinks, rank, x, n, |r|);
      }
    }
  }

  lemma RecordKeepsQueueNames(q: Query, r: SpfResult, rank: Rank, queue: SpfResult, n: NodeName)
    requires rank.Keys == r.Keys && Separated(q, r, rank, queue)
    requires QueueNames(r, rank, queue) && Nearest(queue, n)
    ensures QueueNames(r[n := queue[n]], rank[n := |r|], queue - {n})
  {
    var r', rank', queue' := r[n := queue[n]], rank[n := |r|], queue - {n};
    assert n !in r && forall x <- r :: rank[x] < |r|;
    hide QueuedLater, Separated;
    forall x <- r', y <- queue' | r'[x].metric == queue'[y].metric
      ensures x < y || QueuedLater(queue'[y].pathLinks, rank', x)
    {
      if !(x < y) {
        assert x in r;
        StillLater(queue'[y].pathLinks, rank, x, n, |r|);
      }
    }
  }

  /** Recording the minimum of the queue keeps the search invariant: all its hops are still
      to be relaxed. */
  lemma RecordMinimum(q: Query, r: SpfResult, rank: Rank, queue: SpfResult, n: NodeName, todo: set<LinkId>)
    requires q.g.Valid()
    requires Searching(q, r, rank, queue, n, {})
    requires Nearest(queue, n)
    requires forall h | q.Permitted(h) && h.from == n :: h.link in todo
    ensures Searching(q, r[n := queue[n]], rank[n := |r|], queue - {n}, n, todo)
  {
    hide PathLinksExact, NextHopsExact, Rooted, Covered, PrevRecorded;
    hide QueueLinksExact, QueueHopsExact, QueueShape, NamesOrdered, QueueNames;
    LinksComeFromRecorded(q, r, rank, queue, n, {});
    RecordKeepsNames(q, r, rank, queue, n);
    RecordKeepsQueueNames(q, r, rank, queue, n);
    RecordKeepsOrder(q, r, rank, queue, n);
    RecordKeepsSeparation(q, r, rank, queue, n);
    RecordKeepsRoot(q, r, rank, queue, n);
    RecordKeepsLinks(q, r, rank, queue, n);
    RecordKeepsHops(q.src, r, queue, n);
    RecordKeepsQueue(q, r, queue, n, todo);
  }

  /** The queue after looking at link `l` of the node `cur`, recorded with `rec`. */
  function Relax(q: Query, r: SpfResult, queue: SpfResult, cur: NodeName, l: LinkId): (queue': SpfResult)
    requires l in q.g.links && cur in r
  {
    var other := l.Other(cur);
    if !q.g.links[l].IsUp() || other in r || l in q.ignored then queue
    else
      var metric := r[cur].metric + q.Cost(l);
      var node := if other in queue then queue[other] else NodeSpf(metric, [], {});
      if node.metric < metric then queue
      else
        var base := if node.metric > metric then NodeSpf(metric, [], {}) else node;
        var hops := base.nextHops + r[cur].nextHops;
        queue[other := NodeSpf(
          metric,
          base.pathLinks + [PathLink(l, cur)],
          if hops == {} then {other} else hops)]
  }

  lemma RelaxKeepsLinks(q: Query, r: SpfResult, queue: SpfResult, cur: NodeName, todo: set<LinkId>, l: LinkId)
    requires q.g.Valid() && l in q.g.links && l.Touches(cur) && l in todo && cur in r
    requires cur == q.src || !q.g.Overloaded(cur)
    requires r.Keys !! queue.Keys && Covered(q, r, queue, cur, todo)
    requires QueueLinksExact(q, r, queue, cur, todo)
    ensures QueueLinksExact(q, r, Relax(q, r, queue, cur, l), cur, todo - {l})
  {
    var queue' := Relax(q, r, queue, cur, l);
    var other := l.Other(cur);
    forall v <- queue', pl
      ensures pl in queue'[v].pathLinks <==>
              TightInto(q, r, queue'[v].metric, v, pl) && !(pl.prevNode == cur && pl.link in todo - {l})
    {
      var h := Hop(pl.prevNode, pl.link, v);
      assert pl == PathLink(l, cur) && q.Permitted(h) ==> v == other;
      assert Relaxed(q, r, cur, todo, h) || !q.Permitted(h) || h.from !in r || (h.from == cur && h.link in todo);
    }
  }

  lemma RelaxKeepsCover(q: Query, r: SpfResult, queue: SpfResult, cur: NodeName, todo: set<LinkId>, l: LinkId)
    requires q.g.Valid() && l in q.g.links && l.Touches(cur) && l in todo && cur in r
    requires r.Keys !! queue.Keys && Covered(q, r, queue, cur, todo)
    requires forall v <- r :: r[v].metric <= r[cur].metric
    ensures Covered(q, r, Relax(q, r, queue, cur, l), cur, todo - {l})
  {
  }

  lemma RelaxKeepsHops(q: Query, r: SpfResult, queue: SpfResult, cur: NodeName, l: LinkId)
    requires l in q.g.links && cur in r
    requires QueueHopsExact(q.src, r, queue) && QueueShape(r, queue) && Rooted(q.src, r)
    requires cur == q.src ==> r.Keys == {q.src} && PrevRecorded(r, queue)
    ensures QueueHopsExact(q.src, r, Relax(q, r, queue, cur, l))
  {
    var queue' := Relax(q, r, queue, cur, l);
    var other := l.Other(cur);
    forall v <- queue', n
      ensures n in queue'[v].nextHops <==> FirstHop(q.src, r, v, queue'[v].pathLinks, n)
    {
    }
  }

  lemma RelaxKeepsShape(q: Query, r: SpfResult, queue: SpfResult, cur: NodeName, todo: set<LinkId>, l: LinkId)
    requires l in q.g.links && l in todo && cur in r
    requires QueueShape(r, queue) && QueueLinksExact(q, r, queue, cur, todo)
    ensures QueueShape(r, Relax(q, r, queue, cur, l))
  {
  }

  lemma LaterLink(pls: seq<PathLink>, rank: Rank, x: NodeName, pl: PathLink)
    requires x in rank && pl.prevNode in rank && QueuedLater(pls, rank, x) && rank[x] <= rank[pl.prevNode]
    ensures QueuedLater(pls + [pl], rank, x)
  {
  }

  lemma RelaxKeepsNames(q: Query, r: SpfResult, rank: Rank, queue: SpfResult, cur: NodeName, l: LinkId)
    requires l in q.g.links && cur in r && rank.Keys == r.Keys && QueueNames(r, rank, queue)
    requires forall v <- r :: rank[v] <= rank[cur]
    ensures QueueNames(r, rank, Relax(q, r, queue, cur, l))
  {
    var queue', other := Relax(q, r, queue, cur, l), l.Other(cur);
    forall x <- r, y <- queue' | r[x].metric == queue'[y].metric
      ensures x < y || QueuedLater(queue'[y].pathLinks, rank, x)
    {
      if !(x < y) && queue' != queue && y == other {
        var base := if other in queue && queue[other].metric == queue'[other].metric then queue[other].pathLinks else [];
        assert queue'[other].pathLinks == base + [PathLink(l, cur)];
        assert QueuedLater(base, rank, x);
        LaterLink(base, rank, x, PathLink(l, cur));
      }
    }
  }

  lemma RelaxStep(q: Query, r: SpfResult, rank: Rank, queue: SpfResult, cur: NodeName, todo: set<LinkId>, l: LinkId)
    requires q.g.Valid() && l in q.g.links && l.Touches(cur) && l in todo && cur in r
    requires cur == q.src || !q.g.Overloaded(cur)
    requires cur == q.src ==> r.Keys == {q.src}
    requires forall v <- r :: r[v].metric <= r[cur].metric && v in rank && cur in rank && rank[v] <= rank[cur]
    requires Searching(q, r, rank, queue, cur, todo)
    ensures Searching(q, r, rank, Relax(q, r, queue, cur, l), cur, todo - {l})
  {
    hide PathLinksExact, NextHopsExact, Rooted, Covered, PrevRecorded;
    hide QueueLinksExact, QueueHopsExact, QueueShape, NamesOrdered, QueueNames;
    LinksComeFromRecorded(q, r, rank, queue, cur, todo);
    RelaxKeepsNames(q, r, rank, queue, cur, l);
    RelaxKeepsLinks(q, r, queue, cur, todo, l);
    RelaxKeepsCover(q, r, queue, cur, todo, l);
    RelaxKeepsHops(q, r, queue, cur, l);
    RelaxKeepsShape(q, r, queue, cur, todo, l);
  }

  /** An empty queue leaves an exact result. */
  lemma SearchDone(q: Query, r: SpfResult, rank: Rank, cur: NodeName)
    requires Searching(q, r, rank, map[], cur, {})
    ensures Solved(q, r)
  {
    hide PathLinksExact, NextHopsExact, Rooted, QueueLinksExact, QueueHopsExact, QueueShape, NamesOrdered, QueueNames;
    assert q.src in r;
    forall h | q.Permitted(h) && h.from in r
      ensures h.to in r && r[h.to].metric <= r[h.from].metric + q.Cost(h.link)
    {
      assert Relaxed(q, r, cur, {}, h);
    }
    assert Exact(q, r, rank);
  }

  /** Once all links of `cur` are relaxed it does not matter which node was current. */
  lemma ForgetCurrent(q: Query, r: SpfResult, rank: Rank, queue: SpfResult, cur: NodeName, next: NodeName)
    requires Searching(q, r, rank, queue, cur, {})
    ensures Searching(q, r, rank, queue, next, {})
  {
    hide PathLinksExact, NextHopsExact, Rooted, Separated, QueueHopsExact, QueueShape, NamesOrdered, QueueNames;
    forall h | Relaxed(q, r, next, {}, h) ensures Relaxed(q, r, cur, {}, h) {
    }
  }

  /** An overloaded node other than the source offers no hop, so there is nothing to relax. */
  lemma SkipDrained(q: Query, r: SpfResult, rank: Rank, queue: SpfResult, n: NodeName, links: set<LinkId>)
    requires q.g.Overloaded(n) && n != q.src
    requires Searching(q, r, rank, queue, n, links)
    ensures Searching(q, r, rank, queue, n, {})
  {
    hide PathLinksExact, NextHopsExact, Rooted, Separated, QueueHopsExact, QueueShape, NamesOrdered, QueueNames;
    forall h | Relaxed(q, r, n, {}, h) ensures Relaxed(q, r, n, links, h) {
    }
  }

  /** Nothing is recorded yet. */
  lemma NothingRecorded(q: Query)
    ensures Recorded(q, map[], map[])
  {
  }

  /** The source is queued alone, without a way in. */
  lemma SourceQueued(q: Query)
    ensures var queue := map[q.src := NodeSpf(0, [], {})];
            && QueueLinksExact(q, map[], queue, q.src, {}) && QueueHopsExact(q.src, map[], queue)
            && QueueShape(map[], queue) && QueueNames(map[], map[], queue)
  {
    forall n ensures !FirstHop(q.src, map[], q.src, [], n) {
    }
  }

  lemma SearchStarts(q: Query)
    ensures Searching(q, map[], map[], map[q.src := NodeSpf(0, [], {})], q.src, {})
    ensures q.src in Universe(q)
  {
    hide Recorded, QueueLinksExact, QueueHopsExact, QueueShape, QueueNames, FirstHop;
    NothingRecorded(q);
    SourceQueued(q);
  }

  /** What the relax loop needs of the node it has just recorded. */
  lemma MinimumIsLast(q: Query, r: SpfResult, rank: Rank, queue: SpfResult, n: NodeName)
    requires Searching(q, r, rank, queue, n, {}) && n in queue
    ensures n !in r
    ensures forall v <- r :: r[v].metric <= queue[n].metric && v in rank && rank[v] < |r|
    ensures n == q.src ==> r == map[]
  {
    hide NamesOrdered, QueueNames;
  }

  /** The relax loop over the links of a recorded node. */
  method RelaxLinks(q: Query, r: SpfResult, ghost rank: Rank, queue: SpfResult, n: NodeName) returns (queue': SpfResult)
    requires q.g.Valid() && n in r && (n == q.src || !q.g.Overloaded(n))
    requires n == q.src ==> r.Keys == {q.src}
    requires forall v <- r :: r[v].metric <= r[n].metric && v in rank && n in rank && rank[v] <= rank[n]
    requires Searching(q, r, rank, queue, n, q.g.LinksFromNode(n))
    requires queue.Keys <= Universe(q)
    ensures Searching(q, r, rank, queue', n, {})
    ensures queue'.Keys <= Universe(q)
  {
    hide Searching;
    queue' := queue;
    var links := q.g.LinksFromNode(n);
    while links != {}
      invariant links <= q.g.LinksFromNode(n)
      invariant Searching(q, r, rank, queue', n, links)
      invariant queue'.Keys <= Universe(q)
      decreases links
    {
      var l :| l in links;
      RelaxStep(q, r, rank, queue', n, links, l);
      queue' := Relax(q, r, queue', n, l);
      links := links - {l};
    }
  }

  lemma HopsAreIndexed(q: Query, n: NodeName)
    requires q.g.Valid()
    ensures forall h | q.Permitted(h) && h.from == n :: h.link in q.g.LinksFromNode(n)
  {
  }

  /** One round of runSpf: record the nearest queued node and relax its links. */
  method VisitNearest(q: Query, r: SpfResult, ghost rank: Rank, queue: SpfResult)
    returns (n: NodeName, r': SpfResult, ghost rank': Rank, queue': SpfResult)
    requires q.g.Valid() && queue != map[]
    requires Searching(q, r, rank, queue, q.src, {})
    requires queue.Keys <= Universe(q)
    ensures Searching(q, r', rank', queue', q.src, {})
    ensures n in queue && n !in r && r'.Keys == r.Keys + {n}
    ensures queue'.Keys <= Universe(q)
  {
    hide *;
    n := ExtractMin(queue);
    ForgetCurrent(q, r, rank, queue, q.src, n);
    MinimumIsLast(q, r, rank, queue, n);
    HopsAreIndexed(q, n);
    RecordMinimum(q, r, rank, queue, n, q.g.LinksFromNode(n));
    rank' := rank[n := |r|];
    r', queue' := r[n := queue[n]], queue - {n};
    if q.g.Overloaded(n) && n != q.src {
      SkipDrained(q, r', rank', queue', n, q.g.LinksFromNode(n));
    } else {
      queue' := RelaxLinks(q, r', rank', queue', n);
    }
    ForgetCurrent(q, r', rank', queue', n, q.src);
  }

  /** LinkState::runSpf. */
  method RunSpf(q: Query) returns (result: SpfResult)
    requires q.g.Valid()
    ensures Solved(q, result)
  {
    hide *;
    ghost var unseen := Universe(q);
    var queue: SpfResult := map[q.src := NodeSpf(0, [], {})];
    result := map[];
    ghost var rank: Rank := map[];
    SearchStarts(q);
    while queue != map[]
      invariant Searching(q, result, rank, queue, q.src, {})
      invariant queue.Keys <= Universe(q)
      invariant unseen == Universe(q) - result.Keys
      decreases unseen
    {
      var n;
      n, result, rank, queue := VisitNearest(q, result, rank, queue);
      unseen := unseen - {n};
    }
    SearchDone(q, result, rank, q.src);
  }
}
