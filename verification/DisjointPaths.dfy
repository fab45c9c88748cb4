/** LinkState::traceOnePath and the tracing loop of getKthPaths: a maximal family of
    link-disjoint shortest paths, found by walking path links back from the destination and
    never looking at a link twice. */
module DisjointPaths {
  import opened Options
  import opened Topology
  import opened Spf
  import opened SpfPaths
  import opened SpfTies

  type Path = seq<LinkId>

  /** `p` follows path links of `r` from `src` to `v`. */
  ghost predicate Traces(src: NodeName, r: SpfResult, p: Path, v: NodeName)
    decreases |p|
  {
    if p == [] then v == src
    else
      var l := p[|p| - 1];
      v in r && PathLink(l, l.Other(v)) in r[v].pathLinks && Traces(src, r, p[..|p| - 1], l.Other(v))
  }

  ghost predicate Meets(p: Path, links: set<LinkId>) {
    exists l <- p :: l in links
  }

  /** No traced path to `v` avoids `links`. */
  ghost predicate Blocked(src: NodeName, r: SpfResult, links: set<LinkId>, v: NodeName) {
    forall p | Traces(src, r, p, v) :: Meets(p, links)
  }

  /** Path links lead to nodes recorded earlier. */
  ghost predicate Layered(r: SpfResult, rank: Rank) {
    && rank.Keys == r.Keys
    && forall v <- r, pl <- r[v].pathLinks ::
         pl.prevNode in r && rank[pl.prevNode] < rank[v] && pl.link.Joins(pl.prevNode, v)
  }

  /** `l` is a path link into `x`. */
  ghost predicate Enters(r: SpfResult, l: LinkId, x: NodeName) {
    x in r && PathLink(l, l.Other(x)) in r[x].pathLinks
  }

  /** A visited link entering a node of rank at most `limit` is on a returned path (`used`) or
      useless, since every path to its near end meets one. */
  ghost predicate Accounted(src: NodeName, r: SpfResult, rank: Rank, used: set<LinkId>, visited: set<LinkId>, limit: nat)
    requires rank.Keys == r.Keys
  {
    forall l <- visited, x | Enters(r, l, x) && rank[x] <= limit ::
      l in used || Blocked(src, r, used, l.Other(x))
  }

  ghost function AllPathLinks(r: SpfResult): set<LinkId> {
    set v <- r, pl <- r[v].pathLinks :: pl.link
  }

  /** If every path link into `v` is used or starts at a blocked node then `v` is blocked. */
  lemma BlockedByLinks(src: NodeName, r: SpfResult, used: set<LinkId>, v: NodeName)
    requires v != src && v in r
    requires forall pl <- r[v].pathLinks :: pl.link in used || Blocked(src, r, used, pl.prevNode)
    ensures Blocked(src, r, used, v)
  {
  }

  /** Links visited meanwhile are on the path found, if any, or useless. */
  ghost predicate Explained(src: NodeName, r: SpfResult, used: set<LinkId>, visited: set<LinkId>, visited': set<LinkId>, path: Path) {
    forall l <- visited' - visited, x | Enters(r, l, x) :: l in path || Blocked(src, r, used, l.Other(x))
  }

  /** The path link `pl` into `dest`: what following it needs. */
  lemma PathLinkLeads(r: SpfResult, rank: Rank, dest: NodeName, pl: PathLink)
    requires Layered(r, rank) && dest in r && pl in r[dest].pathLinks
    ensures pl.prevNode in r && rank[pl.prevNode] < rank[dest] && Enters(r, pl.link, dest) && pl.prevNode == pl.link.Other(dest)
    ensures pl.link in AllPathLinks(r)
  {
  }

  /** A link seen before is used or useless. */
  lemma SeenIsUseless(src: NodeName, r: SpfResult, rank: Rank, used: set<LinkId>, visited: set<LinkId>, visited': set<LinkId>, dest: NodeName, pl: PathLink)
    requires Layered(r, rank) && dest in r && pl in r[dest].pathLinks && Accounted(src, r, rank, used, visited, rank[dest])
    requires Explained(src, r, used, visited, visited', []) && pl.link in visited'
    ensures pl.link in used || Blocked(src, r, used, pl.prevNode)
  {
    hide Blocked;
    PathLinkLeads(r, rank, dest, pl);
    hide Layered, AllPathLinks;
  }

  /** Ready to trace on from the near end of `pl`. */
  lemma ReadyToTrace(src: NodeName, r: SpfResult, rank: Rank, used: set<LinkId>, visited: set<LinkId>, visited': set<LinkId>, dest: NodeName, pl: PathLink)
    requires Layered(r, rank) && dest in r && pl in r[dest].pathLinks && Accounted(src, r, rank, used, visited, rank[dest])
    requires Explained(src, r, used, visited, visited', []) && pl.link !in visited'
    ensures pl.prevNode in r && rank[pl.prevNode] < rank[dest]
    ensures Accounted(src, r, rank, used, visited' + {pl.link}, rank[pl.prevNode])
  {
  }

  /** What tracing on from there explains, found or not. */
  lemma TracedOn(src: NodeName, r: SpfResult, rank: Rank, used: set<LinkId>, visited: set<LinkId>, visited': set<LinkId>, visited'': set<LinkId>,
                 dest: NodeName, pl: PathLink, found: bool, path: Path)
    requires Layered(r, rank) && dest in r && pl in r[dest].pathLinks
    requires Explained(src, r, used, visited, visited', []) && Explained(src, r, used, visited' + {pl.link}, visited'', if found then path else [])
    requires !found ==> Blocked(src, r, used, pl.prevNode)
    ensures Explained(src, r, used, visited, visited'', if found then path + [pl.link] else [])
  {
  }

  lemma LongerTrace(src: NodeName, r: SpfResult, rank: Rank, dest: NodeName, pl: PathLink, path: Path)
    requires Layered(r, rank) && dest in r && pl in r[dest].pathLinks && Traces(src, r, path, pl.prevNode)
    ensures Traces(src, r, path + [pl.link], dest)
  {
  }

  /** LinkState::traceOnePath. `used` holds the links of the paths found so far. */
  method TraceOnePath(src: NodeName, dest: NodeName, r: SpfResult, ghost rank: Rank, visited: set<LinkId>, ghost used: set<LinkId>)
    returns (path: Option<Path>, visited': set<LinkId>)
    requires dest in r && Layered(r, rank)
    requires Accounted(src, r, rank, used, visited, rank[dest])
    ensures visited <= visited' <= visited + AllPathLinks(r)
    ensures path.None? ==> Blocked(src, r, used, dest)
    ensures path.Some? ==> Traces(src, r, path.value, dest)
    ensures path.Some? ==> forall l <- path.value :: l !in visited && l in visited'
    ensures Explained(src, r, used, visited, visited', if path.Some? then path.value else [])
    decreases rank[dest]
  {
    if src == dest {
      return Some([]), visited;
    }
    hide Blocked, Accounted, Explained, Enters, AllPathLinks, Traces, Layered;
    visited' := visited;
    NothingToExplain(src, r, used, visited);
    var links := r[dest].pathLinks;
    for i := 0 to |links|
      invariant visited <= visited' <= visited + AllPathLinks(r)
      invariant Explained(src, r, used, visited, visited', [])
      invariant forall j | 0 <= j < i :: links[j].link in used || Blocked(src, r, used, links[j].prevNode)
    {
      var pl := links[i];
      PathLinkLeads(r, rank, dest, pl);
      if pl.link in visited' {
        SeenIsUseless(src, r, rank, used, visited, visited', dest, pl);
      } else {
        ReadyToTrace(src, r, rank, used, visited, visited', dest, pl);
        ghost var before := visited';
        path, visited' := TraceOnePath(src, pl.prevNode, r, rank, visited' + {pl.link}, used);
        TracedOn(src, r, rank, used, visited, before, visited', dest, pl, path.Some?, if path.Some? then path.value else []);
        if path.Some? {
          LongerTrace(src, r, rank, dest, pl, path.value);
          path := Some(path.value + [pl.link]);
          return;
        }
      }
    }
    BlockedByLinks(src, r, used, dest);
    path := None;
  }

  lemma NothingToExplain(src: NodeName, r: SpfResult, used: set<LinkId>, visited: set<LinkId>)
    ensures Explained(src, r, used, visited, visited, [])
  {
  }

  function LinksOf(paths: seq<Path>): set<LinkId> {
    set p <- paths, l <- p :: l
  }

  ghost predicate PairwiseDisjoint(paths: seq<Path>) {
    forall i, j | 0 <= i < j < |paths| :: forall l <- paths[j] :: l !in paths[i]
  }

  ghost predicate AllAccounted(src: NodeName, r: SpfResult, used: set<LinkId>, visited: set<LinkId>) {
    forall l <- visited, x | Enters(r, l, x) :: l in used || Blocked(src, r, used, l.Other(x))
  }

  /** More used links only block more. */
  lemma AccountedGrows(src: NodeName, r: SpfResult, used: set<LinkId>, visited: set<LinkId>, used': set<LinkId>, visited': set<LinkId>)
    requires used <= used' && AllAccounted(src, r, used, visited)
    requires forall l <- visited' - visited, x | Enters(r, l, x) :: l in used' || Blocked(src, r, used, l.Other(x))
    ensures AllAccounted(src, r, used', visited')
  {
    forall v | Blocked(src, r, used, v) ensures Blocked(src, r, used', v) {
      forall p | Traces(src, r, p, v) ensures Meets(p, used') {
        assert Meets(p, used);
      }
    }
  }

  /** traceOnePath against all links visited so far. */
  method TraceNext(src: NodeName, dest: NodeName, r: SpfResult, ghost rank: Rank, visited: set<LinkId>, ghost used: set<LinkId>)
    returns (path: Option<Path>, visited': set<LinkId>)
    requires dest in r && Layered(r, rank) && AllAccounted(src, r, used, visited) && used <= visited
    requires src in r && r[src].pathLinks == []
    ensures path.None? ==> Blocked(src, r, used, dest) && src != dest
    ensures path.Some? ==> Traces(src, r, path.value, dest) && (path.value == [] <==> src == dest)
    ensures path.Some? ==> forall l <- path.value :: l !in visited && l in visited'
    ensures visited <= visited' <= visited + AllPathLinks(r)
    ensures path.Some? ==> AllAccounted(src, r, used + (set l <- path.value), visited')
  {
    path, visited' := TraceOnePath(src, dest, r, rank, visited, used);
    assert Traces(src, r, [], src) && !Meets([], used);
    if path.Some? {
      AccountedGrows(src, r, used, visited, used + (set l <- path.value), visited');
    }
  }

  /** The tracing loop of getKthPaths: link-disjoint traces to `dest`, as many as can be. */
  method TraceAllPaths(src: NodeName, dest: NodeName, r: SpfResult, ghost rank: Rank) returns (paths: seq<Path>)
    requires dest in r && Layered(r, rank)
    requires src in r && r[src].pathLinks == []
    ensures forall p <- paths :: p != [] && Traces(src, r, p, dest)
    ensures PairwiseDisjoint(paths)
    ensures if src == dest then paths == [] else Blocked(src, r, LinksOf(paths), dest)
  {
    hide Blocked, AllAccounted, Traces, Layered, LinksOf, AllPathLinks, PairwiseDisjoint;
    paths := [];
    NoPaths(src, r);
    var path, visited := TraceNext(src, dest, r, rank, {}, {});
    while path.Some? && path.value != []
      invariant path.Some? ==> Traces(src, r, path.value, dest) && (path.value == [] <==> src == dest)
      invariant path.Some? ==> AllAccounted(src, r, LinksOf(paths) + (set l <- path.value), visited)
      invariant path.Some? ==> forall l <- path.value :: l in visited && l !in LinksOf(paths)
      invariant path.None? ==> Blocked(src, r, LinksOf(paths), dest) && src != dest
      invariant LinksOf(paths) <= visited
      invariant forall p <- paths :: p != [] && Traces(src, r, p, dest)
      invariant src == dest ==> paths == []
      invariant PairwiseDisjoint(paths)
      decreases AllPathLinks(r) - visited, path.Some? && path.value != []
    {
      var last := path.value;
      AppendPath(paths, last);
      paths := paths + [last];
      ghost var unseen := AllPathLinks(r) - visited;
      path, visited := TraceNext(src, dest, r, rank, visited, LinksOf(paths));
      assert AllPathLinks(r) - visited <= unseen;
      if path.Some? && path.value != [] {
        assert path.value[0] in path.value;
        assert path.value[0] in unseen;
      }
    }
  }

  lemma NoPaths(src: NodeName, r: SpfResult)
    ensures LinksOf([]) == {} && PairwiseDisjoint([]) && AllAccounted(src, r, {}, {})
  {
  }

  lemma AppendPath(paths: seq<Path>, p: Path)
    ensures LinksOf(paths + [p]) == LinksOf(paths) + set l <- p
    ensures PairwiseDisjoint(paths) && (forall l <- p :: l !in LinksOf(paths)) ==> PairwiseDisjoint(paths + [p])
  {
  }

  ghost function LinksAlong(p: seq<Hop>): Path {
    seq(|p|, i requires 0 <= i < |p| => p[i].link)
  }

  /** `paths` are pairwise link-disjoint shortest paths to `dest`, and no further one could be
      added: every shortest path shares a link with one of them. */
  ghost predicate MaximalDisjoint(q: Query, dest: NodeName, paths: seq<Path>) {
    && (forall path <- paths :: path != [] && exists p :: q.ShortestWalk(p, dest) && LinksAlong(p) == path)
    && PairwiseDisjoint(paths)
    && (if q.src == dest then paths == []
        else forall p | q.ShortestWalk(p, dest) :: Meets(LinksAlong(p), LinksOf(paths)))
  }

  /** A trace is the list of links of a shortest walk. */
  lemma {:induction false} TraceIsShortestWalk(q: Query, r: SpfResult, path: Path, v: NodeName) returns (p: seq<Hop>)
    requires q.g.Valid() && Solved(q, r) && v in r && Traces(q.src, r, path, v)
    ensures q.ShortestWalk(p, v) && LinksAlong(p) == path
    decreases |path|
  {
    hide Solved;
    if path == [] {
      p := [];
      WalkStaysInResult(q, r, p, v);
    } else {
      var l := path[|path| - 1];
      var pl := PathLink(l, l.Other(v));
      PathLinkIsTight(q, r, v, pl);
      var before := TraceIsShortestWalk(q, r, path[..|path| - 1], pl.prevNode);
      p := before + [Hop(pl.prevNode, l, v)];
      ExtendWalk(q, r, before, v, pl);
    }
  }

  lemma PathLinkIsTight(q: Query, r: SpfResult, v: NodeName, pl: PathLink)
    requires Solved(q, r) && v in r && pl in r[v].pathLinks
    ensures TightInto(q, r, r[v].metric, v, pl)
  {
    hide Ordered, NextHopsExact, Rooted, Closed;
    var rank :| Exact(q, r, rank);
  }

  lemma ExtendWalk(q: Query, r: SpfResult, before: seq<Hop>, v: NodeName, pl: PathLink)
    requires Solved(q, r) && v in r && TightInto(q, r, r[v].metric, v, pl) && q.ShortestWalk(before, pl.prevNode)
    ensures q.ShortestWalk(before + [Hop(pl.prevNode, pl.link, v)], v)
  {
    hide Solved;
    var p := before + [Hop(pl.prevNode, pl.link, v)];
    assert p[..|p| - 1] == before;
    WalkStaysInResult(q, r, before, pl.prevNode);
    WalkStaysInResult(q, r, p, v);
  }

  /** With complete path links every shortest walk is a trace. */
  lemma {:induction false} ShortestWalkIsTrace(q: Query, r: SpfResult, p: seq<Hop>, v: NodeName)
    requires q.g.Valid() && Solved(q, r) && CompleteLinks(q, r) && q.ShortestWalk(p, v)
    ensures Traces(q.src, r, LinksAlong(p), v)
    decreases |p|
  {
    hide Solved;
    if p != [] {
      var h, init := p[|p| - 1], p[..|p| - 1];
      var pl := PathLink(h.link, h.from);
      WalkStaysInResult(q, r, p, v);
      assert EndsIn(p, v, pl);
      LastHopIsTight(q, r, v, pl, p);
      ShortestWalkIsTrace(q, r, init, h.from);
      assert LinksAlong(p)[..|p| - 1] == LinksAlong(init);
      assert pl in r[v].pathLinks;
      assert h.from == h.link.Other(v);
    }
  }

  lemma SolvedIsLayered(q: Query, r: SpfResult) returns (rank: Rank)
    requires q.g.Valid() && Solved(q, r)
    ensures Layered(r, rank)
    ensures q.src in r && r[q.src].pathLinks == []
  {
    hide NextHopsExact, Closed, NamesOrdered, PathLinksExact;
    rank :| Exact(q, r, rank);
    hide Ordered, Rooted;
    forall v <- r, pl <- r[v].pathLinks
      ensures pl.prevNode in r && pl.prevNode in rank && rank[pl.prevNode] < rank[v] && pl.link.Joins(pl.prevNode, v)
    {
      PathLinkComesBefore(q, r, rank, v, pl);
    }
  }

  lemma PathLinkComesBefore(q: Query, r: SpfResult, rank: Rank, v: NodeName, pl: PathLink)
    requires rank.Keys == r.Keys && PathLinksExact(q, r, rank) && v in r && pl in r[v].pathLinks
    ensures pl.prevNode in r && rank[pl.prevNode] < rank[v] && pl.link.Joins(pl.prevNode, v)
  {
    assert TightInto(q, r, r[v].metric, v, pl);
  }

  /** `paths` are link-disjoint traces to `dest` that together block every trace. */
  ghost predicate BlockingFamily(src: NodeName, r: SpfResult, dest: NodeName, paths: seq<Path>) {
    && (forall p <- paths :: p != [] && Traces(src, r, p, dest))
    && PairwiseDisjoint(paths)
    && (if src == dest then paths == [] else Blocked(src, r, LinksOf(paths), dest))
  }

  /** What getKthPaths computes, for any costs. */
  ghost predicate TracedFamily(q: Query, dest: NodeName, paths: seq<Path>) {
    exists r :: Solved(q, r) && if dest in r then BlockingFamily(q.src, r, dest, paths) else paths == []
  }

  lemma BlockingIsMaximal(q: Query, r: SpfResult, dest: NodeName, paths: seq<Path>)
    requires q.g.Valid() && Solved(q, r) && CompleteLinks(q, r) && dest in r && BlockingFamily(q.src, r, dest, paths)
    ensures MaximalDisjoint(q, dest, paths)
  {
    hide Solved, CompleteLinks, PairwiseDisjoint, LinksOf, Traces, Meets;
    forall path <- paths ensures exists p :: q.ShortestWalk(p, dest) && LinksAlong(p) == path {
      var p := TraceIsShortestWalk(q, r, path, dest);
    }
    forall p | q.ShortestWalk(p, dest) ensures Traces(q.src, r, LinksAlong(p), dest) {
      ShortestWalkIsTrace(q, r, p, dest);
    }
  }

  lemma UnreachableHasNoPaths(q: Query, r: SpfResult, dest: NodeName)
    requires Solved(q, r) && dest !in r
    ensures MaximalDisjoint(q, dest, [])
  {
    SpfIsShortest(q, r);
    assert q.Walk([], q.src);
    assert q.Reachable(q.src);
    assert !q.Reachable(dest);
  }

  /** Where ECMP is complete the traced family is a maximal family of shortest paths. */
  lemma TracedIsMaximal(q: Query, dest: NodeName, paths: seq<Path>)
    requires q.g.Valid() && EcmpComplete(q) && TracedFamily(q, dest, paths)
    ensures MaximalDisjoint(q, dest, paths)
  {
    hide Solved, EcmpComplete, BlockingFamily, MaximalDisjoint;
    var r :| Solved(q, r) && if dest in r then BlockingFamily(q.src, r, dest, paths) else paths == [];
    if dest in r {
      EcmpCompletes(q, r);
      BlockingIsMaximal(q, r, dest, paths);
    } else {
      UnreachableHasNoPaths(q, r, dest);
    }
  }

  /** getKthPaths on a computed SPF result. */
  method DisjointShortestPaths(q: Query, r: SpfResult, dest: NodeName) returns (paths: seq<Path>)
    requires q.g.Valid() && Solved(q, r)
    ensures TracedFamily(q, dest, paths)
  {
    hide Solved, PairwiseDisjoint, LinksOf, Traces, Blocked;
    if dest in r {
      ghost var rank := SolvedIsLayered(q, r);
      paths := TraceAllPaths(q.src, dest, r, rank);
      assert BlockingFamily(q.src, r, dest, paths);
    } else {
      paths := [];
    }
  }

  lemma {:induction false} TraceAvoidsIgnored(q: Query, r: SpfResult, p: Path, v: NodeName)
    requires Solved(q, r) && v in r && Traces(q.src, r, p, v)
    ensures forall l <- p :: l in q.g.links && l !in q.ignored
    decreases |p|
  {
    hide Solved;
    if p != [] {
      var l, init := p[|p| - 1], p[..|p| - 1];
      PathLinkIsTight(q, r, v, PathLink(l, l.Other(v)));
      TraceAvoidsIgnored(q, r, init, l.Other(v));
      assert p == init + [l];
    }
  }

  /** The paths of a family avoid the links left out of the question. */
  lemma FamilyAvoidsIgnored(q: Query, dest: NodeName, paths: seq<Path>)
    requires TracedFamily(q, dest, paths)
    ensures LinksOf(paths) !! q.ignored
  {
    hide Solved, Blocked, PairwiseDisjoint, Traces;
    var r :| Solved(q, r) && if dest in r then BlockingFamily(q.src, r, dest, paths) else paths == [];
    forall p <- paths ensures forall l <- p :: l !in q.ignored {
      TraceAvoidsIgnored(q, r, p, dest);
    }
  }
}
