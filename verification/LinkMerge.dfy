/** The merge walk of LinkState::updateAdjacencyDatabase: the sorted links a node had against
    the sorted links its new database makes, folded into the link table in one pass. */
module LinkMerge {
  import opened Topology

  /** Link::operator<: by hash, then by the ordered endpoint names. */
  predicate Less(hash: LinkId -> nat, a: LinkId, b: LinkId) {
    hash(a) < hash(b) || (hash(a) == hash(b) && NamesLess(a, b))
  }

  predicate NamesLess(a: LinkId, b: LinkId) {
    EndLess(a.first, b.first) || (a.first == b.first && EndLess(a.second, b.second))
  }

  predicate EndLess(a: Endpoint, b: Endpoint) {
    a.node < b.node || (a.node == b.node && a.iface < b.iface)
  }

  lemma LessIsTotal(hash: LinkId -> nat, a: LinkId, b: LinkId)
    ensures a == b || Less(hash, a, b) || Less(hash, b, a)
    ensures !(Less(hash, a, b) && Less(hash, b, a))
  {
  }

  lemma LessIsTransitive(hash: LinkId -> nat, a: LinkId, b: LinkId, c: LinkId)
    requires Less(hash, a, b) && Less(hash, b, c)
    ensures Less(hash, a, c)
  {
  }

  ghost predicate Sorted(hash: LinkId -> nat, s: seq<LinkId>) {
    forall i, j | 0 <= i < j < |s| :: Less(hash, s[i], s[j])
  }

  /** std::sort on the links of a node, by repeated extraction of the least. */
  method SortLinks(hash: LinkId -> nat, ids: set<LinkId>) returns (s: seq<LinkId>)
    ensures Sorted(hash, s)
    ensures forall l :: l in s <==> l in ids
  {
    s := [];
    var rest := ids;
    while rest != {}
      invariant rest <= ids && forall l :: l in s <==> l in ids - rest
      invariant Sorted(hash, s)
      invariant forall a <- s, b <- rest :: Less(hash, a, b)
      decreases rest
    {
      var least :| least in rest;
      var others := rest - {least};
      while others != {}
        invariant others <= rest && least in rest - others
        invariant forall l <- rest - others :: l == least || Less(hash, least, l)
        decreases others
      {
        var l :| l in others;
        others := others - {l};
        LessIsTotal(hash, l, least);
        if Less(hash, l, least) {
          forall m <- rest - others | m != l ensures Less(hash, l, m) {
            if m != least {
              LessIsTransitive(hash, l, least, m);
            }
          }
          least := l;
        }
      }
      s, rest := s + [least], rest - {least};
    }
  }

  /** What the order means: by hash, and links with one hash by node, interface, node, interface. */
  lemma SortedByHash(hash: LinkId -> nat, s: seq<LinkId>, i: nat, j: nat)
    requires Sorted(hash, s) && i < j < |s|
    ensures hash(s[i]) <= hash(s[j])
    ensures hash(s[i]) == hash(s[j]) ==> s[i].first.node <= s[j].first.node
    ensures hash(s[i]) == hash(s[j]) && s[i].first.node == s[j].first.node ==> s[i].first.iface <= s[j].first.iface
    ensures hash(s[i]) == hash(s[j]) && s[i].first == s[j].first ==> s[i].second.node <= s[j].second.node
    ensures hash(s[i]) == hash(s[j]) && s[i].first == s[j].first && s[i].second.node == s[j].second.node ==> s[i].second.iface < s[j].second.iface
  {
    assert Less(hash, s[i], s[j]);
  }

  /** What `n`'s update may change in a link: the side it advertises. `first` says whether `n`
      is the first endpoint. */
  function MySide(l: Link, first: bool): Side {
    if first then l.side1 else l.side2
  }

  function WithMySide(l: Link, first: bool, s: Side): Link {
    if first then l.(side1 := s) else l.(side2 := s)
  }

  /** Usability is copied only when the link's up-status differs. */
  function CopyUsability(stored: Link, made: Link): Link {
    if made.IsUp() != stored.IsUp() then stored.(usable := made.usable) else stored
  }

  /** The stored link after an update that still advertises it. */
  function Updated(stored: Link, made: Link, first: bool): Link {
    WithMySide(CopyUsability(stored, made), first, MySide(made, first))
  }

  /** Whether the update of one stored link reports a topology change. */
  predicate LinkTopologyChanged(stored: Link, made: Link, first: bool) {
    var copied := CopyUsability(stored, made);
    || MySide(made, first).metric != MySide(stored, first).metric
    || copied.IsUp() != stored.IsUp()
    || Updated(stored, made, first).IsUp() != copied.IsUp()
  }

  predicate LinkAttributesChanged(stored: Link, made: Link, first: bool) {
    var s, t := MySide(stored, first), MySide(made, first);
    s.adjLabel != t.adjLabel || s.weight != t.weight || s.nhV4 != t.nhV4 || s.nhV6 != t.nhV6
  }

  /** An update reports a topology change exactly if the advertised metric or the up-status of the
      link changes. */
  lemma TopologyReportedIff(stored: Link, made: Link, first: bool)
    ensures LinkTopologyChanged(stored, made, first) <==>
            || MySide(Updated(stored, made, first), first).metric != MySide(stored, first).metric
            || Updated(stored, made, first).IsUp() != stored.IsUp()
  {
  }

  /** And changed attributes exactly if the advertised side changes in more than metric and
      interface overload. */
  lemma AttributesReportedIff(stored: Link, made: Link, first: bool)
    ensures var after := MySide(Updated(stored, made, first), first);
            !LinkAttributesChanged(stored, made, first) <==>
            MySide(stored, first).(metric := after.metric, overloaded := after.overloaded) == after
  {
  }

  /** An unreported update leaves cost and up-status as they were. */
  lemma UnreportedKeepsLink(stored: Link, made: Link, first: bool)
    requires !LinkTopologyChanged(stored, made, first)
    ensures Updated(stored, made, first).IsUp() == stored.IsUp()
    ensures Updated(stored, made, first).MaxMetric() == stored.MaxMetric()
  {
  }

  /** The stored up-status is the advertised one, except when the update clears the node's
      interface overload on a link it at the same time makes unusable. */
  lemma UpStatusExact(stored: Link, made: Link, first: bool)
    requires MySide(made, !first) == MySide(stored, !first)
    ensures Updated(stored, made, first).IsUp() == made.IsUp() <==>
            !(MySide(stored, first).overloaded && !MySide(made, first).overloaded && !MySide(stored, !first).overloaded
              && stored.usable && !made.usable)
  {
  }

  datatype Change = Change(topologyChanged: bool, linkAttributesChanged: bool, nodeLabelChanged: bool, addedLinks: seq<LinkId>)

  /** The entry of `l` in the table after the update of `n`, whose links were `olds` and now
      should be `news`. */
  ghost predicate Settled(g: Graph, g': Graph, n: NodeName, news: map<LinkId, Link>, l: LinkId) {
    && (l in g'.links <==> l in news)
    && (l in news && l !in g.links ==> g'.links[l] == news[l])
    && (l in news && l in g.links ==> g'.links[l] == Updated(g.links[l], news[l], l.first.node == n))
  }

  ghost predicate Untouched(g: Graph, g': Graph, l: LinkId) {
    (l in g'.links <==> l in g.links) && (l in g.links ==> g'.links[l] == g.links[l])
  }

  /** Whether processing `l` reports a topology change. */
  ghost predicate Reported(g: Graph, n: NodeName, news: map<LinkId, Link>, l: LinkId) {
    if l in news && l in g.links then LinkTopologyChanged(g.links[l], news[l], l.first.node == n)
    else if l in news then news[l].IsUp()
    else l in g.links && g.links[l].IsUp()
  }

  ghost predicate AttributeReported(g: Graph, n: NodeName, news: map<LinkId, Link>, l: LinkId) {
    l in news && l in g.links && LinkAttributesChanged(g.links[l], news[l], l.first.node == n)
  }

  /** linkMap_ after LinkState::addLink. */
  function AddLink(g: Graph, id: LinkId, l: Link): Graph {
    var m := g.linkMap[id.first.node := g.LinksFromNode(id.first.node) + {id}];
    var m' := m[id.second.node := (if id.second.node in m then m[id.second.node] else {}) + {id}];
    g.(linkMap := m', links := g.links[id := l])
  }

  /** linkMap_ after LinkState::removeLink. */
  function RemoveLink(g: Graph, id: LinkId): Graph
    requires id.first.node in g.linkMap && id.second.node in g.linkMap
  {
    var m := g.linkMap[id.first.node := g.linkMap[id.first.node] - {id}];
    g.(linkMap := m[id.second.node := m[id.second.node] - {id}], links := g.links - {id})
  }

  lemma AddKeepsValid(g: Graph, id: LinkId, l: Link)
    requires g.Valid() && id.first.node != id.second.node
    ensures AddLink(g, id, l).Valid()
  {
    var g' := AddLink(g, id, l);
    forall n, k ensures k in g'.LinksFromNode(n) <==> k in g'.links && k.Touches(n) {
      assert k in g.LinksFromNode(n) <==> k in g.links && k.Touches(n);
    }
  }

  lemma RemoveKeepsValid(g: Graph, id: LinkId)
    requires g.Valid() && id in g.links && id.first.node in g.linkMap && id.second.node in g.linkMap
    ensures RemoveLink(g, id).Valid()
  {
    var g' := RemoveLink(g, id);
    forall n, k ensures k in g'.LinksFromNode(n) <==> k in g'.links && k.Touches(n) {
      assert k in g.LinksFromNode(n) <==> k in g.links && k.Touches(n);
    }
  }

  lemma LinksAreIndexed(g: Graph, id: LinkId)
    requires g.Valid() && id in g.links
    ensures id.first.node in g.linkMap && id in g.linkMap[id.first.node]
    ensures id.second.node in g.linkMap && id in g.linkMap[id.second.node]
  {
    assert id in g.LinksFromNode(id.first.node);
    assert id in g.LinksFromNode(id.second.node);
  }

  /** `g'` is `g` with the links in `done` brought up to date. */
  ghost predicate Merging(g: Graph, g': Graph, n: NodeName, news: map<LinkId, Link>, done: set<LinkId>) {
    && g'.Valid() && g'.overloads == g.overloads
    && (forall l <- done :: Settled(g, g', n, news, l))
    && (forall l :: l !in done ==> Untouched(g, g', l))
  }

  ghost predicate FlagsOf(g: Graph, n: NodeName, news: map<LinkId, Link>, done: set<LinkId>, change: Change) {
    && (change.topologyChanged <==> exists l <- done :: Reported(g, n, news, l))
    && (change.linkAttributesChanged <==> exists l <- done :: AttributeReported(g, n, news, l))
    && (forall l :: l in change.addedLinks <==> l in done && l in news && l !in g.links)
  }

  lemma MergeAdd(g: Graph, g': Graph, n: NodeName, news: map<LinkId, Link>, done: set<LinkId>, id: LinkId)
    requires Merging(g, g', n, news, done) && id !in done
    requires id in news && id !in g.links && id.first.node != id.second.node
    ensures Merging(g, AddLink(g', id, news[id]), n, news, done + {id})
  {
    AddKeepsValid(g', id, news[id]);
  }

  lemma MergeRemove(g: Graph, g': Graph, n: NodeName, news: map<LinkId, Link>, done: set<LinkId>, id: LinkId)
    requires Merging(g, g', n, news, done) && id !in done
    requires id !in news && id in g.links
    ensures id in g'.links && g'.links[id] == g.links[id]
    ensures id.first.node in g'.linkMap && id.second.node in g'.linkMap
    ensures Merging(g, RemoveLink(g', id), n, news, done + {id})
  {
    assert Untouched(g, g', id);
    LinksAreIndexed(g', id);
    RemoveKeepsValid(g', id);
  }

  lemma MergeUpdate(g: Graph, g': Graph, n: NodeName, news: map<LinkId, Link>, done: set<LinkId>, id: LinkId)
    requires Merging(g, g', n, news, done) && id !in done
    requires id in news && id in g.links
    ensures id in g'.links && g'.links[id] == g.links[id]
    ensures Merging(g, g'.(links := g'.links[id := Updated(g'.links[id], news[id], id.first.node == n)]), n, news, done + {id})
  {
  }

  /** Everything done comes before everything left of `s`, whose first `k` links are done. */
  ghost predicate Past(hash: LinkId -> nat, done: set<LinkId>, s: seq<LinkId>, k: nat) {
    && k <= |s| && Sorted(hash, s)
    && (forall i | 0 <= i < k :: s[i] in done)
    && (forall d <- done, i | k <= i < |s| :: Less(hash, d, s[i]))
  }

  /** The walk stands at `a[i]` and `b[j]`. */
  ghost predicate At(hash: LinkId -> nat, done: set<LinkId>, a: seq<LinkId>, i: nat, b: seq<LinkId>, j: nat) {
    Past(hash, done, a, i) && Past(hash, done, b, j) && forall d <- done :: d in a || d in b
  }

  /** The lesser head is in no other place: it is neither done nor in the other list. */
  lemma TakeLesser(hash: LinkId -> nat, done: set<LinkId>, a: seq<LinkId>, i: nat, b: seq<LinkId>, j: nat)
    requires At(hash, done, a, i, b, j) && i < |a| && (j < |b| ==> Less(hash, a[i], b[j]))
    ensures a[i] !in done && a[i] !in b
    ensures At(hash, done + {a[i]}, a, i + 1, b, j) && At(hash, done + {a[i]}, b, j, a, i + 1)
  {
  }

  lemma TakeBoth(hash: LinkId -> nat, done: set<LinkId>, a: seq<LinkId>, i: nat, b: seq<LinkId>, j: nat)
    requires At(hash, done, a, i, b, j) && i < |a| && j < |b|
    requires !Less(hash, a[i], b[j]) && !Less(hash, b[j], a[i])
    ensures a[i] == b[j] && a[i] !in done
    ensures At(hash, done + {a[i]}, a, i + 1, b, j + 1)
  {
  }

  /** A link of the new database that is not stored yet: addLink, whose CHECKs hold. */
  method AddOne(g: Graph, g': Graph, n: NodeName, news: map<LinkId, Link>, ghost done: set<LinkId>, change: Change, id: LinkId)
    returns (g2: Graph, change2: Change)
    requires Merging(g, g', n, news, done) && FlagsOf(g, n, news, done, change) && id !in done
    requires id in news && id !in g.links && id.first.node != id.second.node
    ensures Merging(g, g2, n, news, done + {id}) && FlagsOf(g, n, news, done + {id}, change2)
  {
    assert Untouched(g, g', id);
    hide Merging, FlagsOf, AddLink;
    MergeAdd(g, g', n, news, done, id);
    FlagsAdvance(g, n, news, done, change, id);
    assert id !in g'.links;
    change2 := change.(topologyChanged := change.topologyChanged || news[id].IsUp(), addedLinks := change.addedLinks + [id]);
    g2 := AddLink(g', id, news[id]);
  }

  /** A stored link that is no longer made: removeLink, whose CHECKs hold. */
  method RemoveOne(g: Graph, g': Graph, n: NodeName, news: map<LinkId, Link>, ghost done: set<LinkId>, change: Change, id: LinkId)
    returns (g2: Graph, change2: Change)
    requires Merging(g, g', n, news, done) && FlagsOf(g, n, news, done, change) && id !in done
    requires id !in news && id in g.links
    ensures Merging(g, g2, n, news, done + {id}) && FlagsOf(g, n, news, done + {id}, change2)
  {
    hide Merging, FlagsOf, RemoveLink;
    MergeRemove(g, g', n, news, done, id);
    FlagsAdvance(g, n, news, done, change, id);
    change2 := change.(topologyChanged := change.topologyChanged || g'.links[id].IsUp());
    g2 := RemoveLink(g', id);
  }

  /** A link that stays: its attributes are copied onto the stored object. */
  method UpdateOne(g: Graph, g': Graph, n: NodeName, news: map<LinkId, Link>, ghost done: set<LinkId>, change: Change, id: LinkId)
    returns (g2: Graph, change2: Change)
    requires Merging(g, g', n, news, done) && FlagsOf(g, n, news, done, change) && id !in done
    requires id in news && id in g.links
    ensures Merging(g, g2, n, news, done + {id}) && FlagsOf(g, n, news, done + {id}, change2)
  {
    hide Merging, FlagsOf, Updated, LinkTopologyChanged, LinkAttributesChanged;
    MergeUpdate(g, g', n, news, done, id);
    FlagsAdvance(g, n, news, done, change, id);
    var stored, made, first := g'.links[id], news[id], id.first.node == n;
    change2 := change.(
      topologyChanged := change.topologyChanged || LinkTopologyChanged(stored, made, first),
      linkAttributesChanged := change.linkAttributesChanged || LinkAttributesChanged(stored, made, first));
    g2 := g'.(links := g'.links[id := Updated(stored, made, first)]);
  }

  /** `mades` and `olds` list the links made by the new database and those stored, in order. */
  ghost predicate Lists(g: Graph, hash: LinkId -> nat, n: NodeName, news: map<LinkId, Link>, mades: seq<LinkId>, olds: seq<LinkId>) {
    && g.Valid() && Sorted(hash, mades) && Sorted(hash, olds)
    && (forall l :: l in olds <==> l in g.LinksFromNode(n))
    && (forall l :: l in mades <==> l in news)
    && (forall l <- news :: l.Touches(n) && l.first.node != l.second.node)
  }

  /** A made link is stored if and only if it is among the old ones. */
  lemma MadeIsListed(g: Graph, hash: LinkId -> nat, n: NodeName, news: map<LinkId, Link>, mades: seq<LinkId>, olds: seq<LinkId>, l: LinkId)
    requires Lists(g, hash, n, news, mades, olds) && l in mades
    ensures l in news && l.first.node != l.second.node && (l in g.links <==> l in olds)
  {
  }

  lemma OldIsListed(g: Graph, hash: LinkId -> nat, n: NodeName, news: map<LinkId, Link>, mades: seq<LinkId>, olds: seq<LinkId>, l: LinkId)
    requires Lists(g, hash, n, news, mades, olds) && l in olds
    ensures l in g.links && (l in news <==> l in mades)
  {
  }

  /** One step of the walk. */
  method MergeStep(g: Graph, hash: LinkId -> nat, n: NodeName, news: map<LinkId, Link>, mades: seq<LinkId>, olds: seq<LinkId>,
                   g': Graph, change: Change, i: nat, j: nat, ghost done: set<LinkId>)
    returns (g2: Graph, change2: Change, i2: nat, j2: nat, ghost done2: set<LinkId>)
    requires Lists(g, hash, n, news, mades, olds) && At(hash, done, mades, i, olds, j)
    requires i <= |mades| && j <= |olds| && (i < |mades| || j < |olds|)
    requires Merging(g, g', n, news, done) && FlagsOf(g, n, news, done, change)
    ensures At(hash, done2, mades, i2, olds, j2) && i <= i2 <= |mades| && j <= j2 <= |olds| && i + j < i2 + j2
    ensures Merging(g, g2, n, news, done2) && FlagsOf(g, n, news, done2, change2)
  {
    hide *;
    i2, j2 := i, j;
    if i < |mades| && (j == |olds| || Less(hash, mades[i], olds[j])) {
      TakeLesser(hash, done, mades, i, olds, j);
      MadeIsListed(g, hash, n, news, mades, olds, mades[i]);
      g2, change2 := AddOne(g, g', n, news, done, change, mades[i]);
      i2, done2 := i + 1, done + {mades[i]};
    } else if j < |olds| && (i == |mades| || Less(hash, olds[j], mades[i])) {
      AtSwapped(hash, done, mades, i, olds, j);
      TakeLesser(hash, done, olds, j, mades, i);
      OldIsListed(g, hash, n, news, mades, olds, olds[j]);
      g2, change2 := RemoveOne(g, g', n, news, done, change, olds[j]);
      j2, done2 := j + 1, done + {olds[j]};
    } else {
      TakeBoth(hash, done, mades, i, olds, j);
      MadeIsListed(g, hash, n, news, mades, olds, mades[i]);
      g2, change2 := UpdateOne(g, g', n, news, done, change, mades[i]);
      i2, j2, done2 := i + 1, j + 1, done + {mades[i]};
    }
  }

  /** The merge walk over the sorted lists. */
  method MergeSorted(g: Graph, hash: LinkId -> nat, n: NodeName, news: map<LinkId, Link>, mades: seq<LinkId>, olds: seq<LinkId>)
    returns (g': Graph, change: Change)
    requires Lists(g, hash, n, news, mades, olds)
    ensures Merging(g, g', n, news, g.LinksFromNode(n) + news.Keys)
    ensures FlagsOf(g, n, news, g.LinksFromNode(n) + news.Keys, change)
  {
    hide *;
    g', change := g, Change(false, false, false, []);
    MergeStarts(g, n, news, hash, mades, olds);
    var i, j := 0, 0;
    ghost var done: set<LinkId> := {};
    while i < |mades| || j < |olds|
      invariant At(hash, done, mades, i, olds, j)
      invariant i <= |mades| && j <= |olds|
      invariant Merging(g, g', n, news, done) && FlagsOf(g, n, news, done, change)
      decreases |mades| + |olds| - i - j
    {
      g', change, i, j, done := MergeStep(g, hash, n, news, mades, olds, g', change, i, j, done);
    }
    AllDone(g, hash, n, news, done, mades, olds);
  }

  method MergeLinks(g: Graph, hash: LinkId -> nat, n: NodeName, news: map<LinkId, Link>)
    returns (g': Graph, change: Change)
    requires g.Valid()
    requires forall l <- news :: l.Touches(n) && l.first.node != l.second.node
    ensures Merging(g, g', n, news, g.LinksFromNode(n) + news.Keys)
    ensures FlagsOf(g, n, news, g.LinksFromNode(n) + news.Keys, change)
  {
    hide Merging, FlagsOf, Sorted, Graph.Valid, Graph.LinksFromNode;
    var olds := SortLinks(hash, g.LinksFromNode(n));
    var mades := SortLinks(hash, news.Keys);
    g', change := MergeSorted(g, hash, n, news, mades, olds);
  }

  lemma AtSwapped(hash: LinkId -> nat, done: set<LinkId>, a: seq<LinkId>, i: nat, b: seq<LinkId>, j: nat)
    requires At(hash, done, a, i, b, j)
    ensures At(hash, done, b, j, a, i)
  {
  }

  lemma AllDone(g: Graph, hash: LinkId -> nat, n: NodeName, news: map<LinkId, Link>, done: set<LinkId>, mades: seq<LinkId>, olds: seq<LinkId>)
    requires Lists(g, hash, n, news, mades, olds) && At(hash, done, mades, |mades|, olds, |olds|)
    ensures done == g.LinksFromNode(n) + news.Keys
  {
  }

  lemma MergeStarts(g: Graph, n: NodeName, news: map<LinkId, Link>, hash: LinkId -> nat, mades: seq<LinkId>, olds: seq<LinkId>)
    requires Lists(g, hash, n, news, mades, olds)
    ensures Merging(g, g, n, news, {}) && FlagsOf(g, n, news, {}, Change(false, false, false, []))
    ensures At(hash, {}, mades, 0, olds, 0)
  {
  }

  /** The flags after one more link. */
  lemma FlagsAdvance(g: Graph, n: NodeName, news: map<LinkId, Link>, done: set<LinkId>, change: Change, id: LinkId)
    requires FlagsOf(g, n, news, done, change)
    ensures FlagsOf(g, n, news, done + {id}, Change(
                      change.topologyChanged || Reported(g, n, news, id),
                      change.linkAttributesChanged || AttributeReported(g, n, news, id),
                      change.nodeLabelChanged,
                      if id in news && id !in g.links then change.addedLinks + [id] else change.addedLinks))
  {
  }
}
