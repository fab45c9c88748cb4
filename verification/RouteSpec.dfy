/** The route that Decision owes to a prefix, stated on the link-state graphs of the areas and the
    prefix advertisements alone: no SPF result, no loop order. */
module RouteSpec {
  import opened Options
  import opened Topology
  import opened NextHops
  import opened Adjacencies

  type Area = nat

  datatype Prefix = Prefix(isV4: bool, bits: nat)

  datatype NodeArea = NodeArea(node: NodeName, area: Area)

  /** An advertisement; `rest` stands for what route computation only copies. */
  datatype PrefixEntry = PrefixEntry(
    drainMetric: int,
    pathPreference: int,
    sourcePreference: int,
    distance: int,
    areaStackEmpty: bool,
    minNexthop: Option<int>,
    rest: nat)

  type PrefixEntries = map<NodeArea, PrefixEntry>

  type AreaHop = (Area, NextHop)

  datatype RibEntry = RibEntry(
    prefix: Prefix,
    nexthops: set<AreaHop>,
    best: PrefixEntry,
    bestArea: Area,
    igpCost: nat,
    doNotInstall: bool,
    localConsidered: bool)
  {
    /** RibUnicastEntry::operator==, which looks at neither area nor cost. */
    predicate Same(e: RibEntry) {
      && prefix == e.prefix && nexthops == e.nexthops && best == e.best
      && doNotInstall == e.doNotInstall && localConsidered == e.localConsidered
    }
  }

  /** What one area's LinkState holds, without its memo tables. */
  datatype AreaState = AreaState(dbs: Databases, g: Graph, increments: map<NodeName, nat>) {

    function Increment(n: NodeName): nat {
      if n in increments then increments[n] else 0
    }

    predicate Drained(n: NodeName) {
      g.Overloaded(n) || Increment(n) != 0
    }

    function Ask(my: NodeName): Query {
      Query(g, my, true, {})
    }
  }

  type Areas = map<Area, AreaState>

  datatype Config = Config(my: NodeName, enableV4: bool, bestRouteSelection: bool, v4OverV6: bool)

  /** The route computation looks up the area of every advertisement. */
  predicate Known(areas: Areas, entries: PrefixEntries) {
    forall na <- entries :: na.area in areas
  }

  /** Advertisements of nodes that can be reached in the area they advertise in. */
  ghost function Reaching(my: NodeName, areas: Areas, entries: PrefixEntries): PrefixEntries
    requires Known(areas, entries)
  {
    map na | na in entries && areas[na.area].Ask(my).Reachable(na.node) :: entries[na]
  }

  /** Without the hard-drained nodes, unless all are. */
  function Undrained(areas: Areas, entries: PrefixEntries): PrefixEntries
    requires Known(areas, entries)
  {
    var kept := map na | na in entries && !areas[na.area].g.Overloaded(na.node) :: entries[na];
    if kept == map[] then entries else kept
  }

  /** Drain state, path preference, source preference: larger is better. */
  function Preference(areas: Areas, entries: PrefixEntries, na: NodeArea): (int, int, int)
    requires Known(areas, entries) && na in entries
  {
    var e := entries[na];
    (if e.drainMetric != 0 || areas[na.area].Increment(na.node) > 0 then -1 else 0, e.pathPreference, e.sourcePreference)
  }

  predicate Above(a: (int, int, int), b: (int, int, int)) {
    a.0 > b.0 || (a.0 == b.0 && (a.1 > b.1 || (a.1 == b.1 && a.2 > b.2)))
  }

  /** Nothing ranks above it. */
  predicate Top(areas: Areas, entries: PrefixEntries, na: NodeArea)
    requires Known(areas, entries)
  {
    na in entries && forall o <- entries :: !Above(Preference(areas, entries, o), Preference(areas, entries, na))
  }

  predicate TopAndNearest(areas: Areas, entries: PrefixEntries, na: NodeArea)
    requires Known(areas, entries)
  {
    Top(areas, entries, na) && forall o <- entries :: Top(areas, entries, o) ==> entries[na].distance <= entries[o].distance
  }

  /** The advertisements to be routed to. */
  function Selected(cfg: Config, areas: Areas, entries: PrefixEntries): set<NodeArea>
    requires Known(areas, entries)
  {
    var kept := Undrained(areas, entries);
    if cfg.bestRouteSelection then set na <- kept | TopAndNearest(areas, kept, na) else kept.Keys
  }

  predicate Before(a: NodeArea, b: NodeArea) {
    a.node < b.node || (a.node == b.node && a.area < b.area)
  }

  /** The first of a set of advertisements. */
  predicate First(nas: set<NodeArea>, na: NodeArea) {
    na in nas && forall o <- nas :: o == na || Before(na, o)
  }

  ghost function FirstOf(nas: set<NodeArea>): (first: NodeArea)
    requires nas != {}
    ensures First(nas, first)
  {
    FirstExists(nas);
    var na :| First(nas, na);
    na
  }

  lemma {:induction false} FirstExists(nas: set<NodeArea>)
    requires nas != {}
    ensures exists na :: First(nas, na)
    decreases nas
  {
    var na :| na in nas;
    if nas == {na} {
      assert First(nas, na);
    } else {
      FirstExists(nas - {na});
      var first :| First(nas - {na}, first);
      assert na == NodeArea(na.node, na.area) && first == NodeArea(first.node, first.area);
      var least := if Before(na, first) then na else first;
      forall o <- nas ensures o == least || Before(least, o) {
        assert o == na || o in nas - {na};
      }
      assert First(nas, least);
    }
  }

  /** Length of a shortest walk to the destinations, if there is any. */
  ghost predicate IsDistance(q: Query, dsts: set<NodeName>, d: Option<nat>) {
    match d
    case None => forall v <- dsts :: !q.Reachable(v)
    case Some(n) => exists p, v :: BestWalkTo(q, dsts, p, v) && q.Length(p) == n
  }

  /** The next hops of an area, if its distance is `n`. */
  ghost function AreaHops(cfg: Config, areas: Areas, dsts: set<NodeName>, viaV4: bool, a: Area, n: nat): set<AreaHop>
    requires a in areas
  {
    var q := areas[a].Ask(cfg.my);
    set h <- HopsOver(q, viaV4, UsedLinks(q, dsts), n) :: (a, h)
  }

  /** The nearest of the areas `used` are `n` away, and lead over `hops`. */
  ghost predicate Combined(cfg: Config, areas: Areas, dsts: set<NodeName>, viaV4: bool, used: set<Area>, n: nat, hops: set<AreaHop>)
    requires used <= areas.Keys
  {
    && (exists a <- used :: IsDistance(areas[a].Ask(cfg.my), dsts, Some(n)))
    && (forall a <- used, m: nat :: IsDistance(areas[a].Ask(cfg.my), dsts, Some(m)) ==> n <= m)
    && (forall h :: h in hops <==>
          h.0 in used && IsDistance(areas[h.0].Ask(cfg.my), dsts, Some(n)) && h in AreaHops(cfg, areas, dsts, viaV4, h.0, n))
  }

  /** The signed minimum is compared with a size, as an unsigned number: a negative one exceeds
      every count. */
  predicate Exceeds(min: int, count: nat) {
    min < 0 || min > count
  }

  predicate Demands(entries: PrefixEntries, selected: set<NodeArea>, min: int) {
    exists na <- selected :: na in entries && entries[na].minNexthop == Some(min)
  }

  /** The largest minimum demanded, if any, is no more than the count and not negative. */
  ghost predicate Enough(entries: PrefixEntries, selected: set<NodeArea>, count: nat) {
    forall min | Demands(entries, selected, min) :: min <= count && exists m: nat :: Demands(entries, selected, m)
  }

  /** The entry made of the first selected advertisement. */
  function EntryOf(areas: Areas, entries: PrefixEntries, prefix: Prefix, first: NodeArea, n: nat, hops: set<AreaHop>, local: bool): RibEntry
    requires Known(areas, entries) && first in entries
  {
    var best := if areas[first.area].Drained(first.node) then entries[first].(drainMetric := 1) else entries[first];
    RibEntry(prefix, hops, best, first.area, n, false, local)
  }

  predicate LocalConsidered(my: NodeName, entries: PrefixEntries) {
    exists na <- entries :: na.node == my && entries[na].areaStackEmpty
  }

  /** `r` is the route for a prefix whose reachable advertisements are `entries`. */
  ghost predicate RouteFrom(cfg: Config, areas: Areas, entries: PrefixEntries, prefix: Prefix, local: bool, r: Option<RibEntry>)
    requires Known(areas, entries)
  {
    var selected := Selected(cfg, areas, entries);
    var dsts, used := set na <- selected :: na.node, set na <- selected | na.area in areas :: na.area;
    if selected == {} || cfg.my in dsts then r.None?
    else
      exists n: nat, hops :: CombinedRoute(cfg, areas, entries, prefix, local, selected, dsts, used, n, hops, r)
  }

  ghost predicate CombinedRoute(cfg: Config, areas: Areas, entries: PrefixEntries, prefix: Prefix, local: bool,
                                selected: set<NodeArea>, dsts: set<NodeName>, used: set<Area>, n: nat, hops: set<AreaHop>, r: Option<RibEntry>)
    requires Known(areas, entries) && used <= areas.Keys && selected != {}
  {
    && Combined(cfg, areas, dsts, prefix.isV4 && !cfg.v4OverV6, used, n, hops)
    && FirstOf(selected) in entries
    && r == if hops == {} || !Enough(entries, selected, |hops|) then None
            else Some(EntryOf(areas, entries, prefix, FirstOf(selected), n, hops, local))
  }

  /** `r` is the route of a prefix advertised as `entries`: createRouteForPrefix. */
  ghost predicate IsRoute(cfg: Config, areas: Areas, entries: PrefixEntries, prefix: Prefix, r: Option<RibEntry>)
    requires Known(areas, entries)
  {
    if prefix.isV4 && !cfg.enableV4 && !cfg.v4OverV6 then r.None?
    else
      RouteFrom(cfg, areas, Reaching(cfg.my, areas, entries), prefix, LocalConsidered(cfg.my, entries), r)
  }
}
