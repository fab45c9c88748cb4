/** The link-state graph as SPF sees it: bidirectional links, node overload (hard drain),
    and the walks that a source is permitted to use.

    Node and interface names are interned: a natural number stands for a string, and the
    order of the numbers for the order of the strings. */
module Topology {

  type NodeName = nat
  type IfName = nat

  datatype Endpoint = Endpoint(node: NodeName, iface: IfName)

  /** Identity of a link: its two endpoints, smaller one first. */
  datatype LinkId = LinkId(first: Endpoint, second: Endpoint) {

    predicate Touches(n: NodeName) {
      first.node == n || second.node == n
    }

    /** The far end seen from `n`. */
    function Other(n: NodeName): NodeName {
      if first.node == n then second.node else first.node
    }

    predicate Joins(a: NodeName, b: NodeName) {
      (first.node == a && second.node == b) || (first.node == b && second.node == a)
    }
  }

  /** What one end advertises for a link. */
  datatype Side = Side(metric: nat, overloaded: bool, adjLabel: int, weight: int, nhV4: nat, nhV6: nat)

  datatype Link = Link(side1: Side, side2: Side, usable: bool) {

    predicate IsUp() {
      !side1.overloaded && !side2.overloaded && usable
    }

    /** Soft drain on either side raises the cost in both directions. */
    function MaxMetric(): nat {
      if side1.metric >= side2.metric then side1.metric else side2.metric
    }
  }

  /** `linkMap` indexes by node the links held in `links`; a node missing from `overloads`
      is not overloaded. */
  datatype Graph = Graph(
    linkMap: map<NodeName, set<LinkId>>,
    links: map<LinkId, Link>,
    overloads: map<NodeName, bool>)
  {
    predicate Overloaded(n: NodeName) {
      n in overloads && overloads[n]
    }

    function LinksFromNode(n: NodeName): set<LinkId> {
      if n in linkMap then linkMap[n] else {}
    }

    /** Every link joins two different nodes and is indexed from exactly those two. */
    ghost predicate Valid() {
      && (forall l <- links :: l.first.node != l.second.node)
      && (forall n, l :: l in LinksFromNode(n) <==> l in links && l.Touches(n))
    }

    ghost function Nodes(): set<NodeName> {
      (set l <- links :: l.first.node) + (set l <- links :: l.second.node)
    }
  }

  /** Crossing `link` from `from` to `to`. */
  datatype Hop = Hop(from: NodeName, link: LinkId, to: NodeName)

  /** One SPF question: a graph, a source, hop count or metric, and links to leave out. */
  datatype Query = Query(g: Graph, src: NodeName, useLinkMetric: bool, ignored: set<LinkId>) {

    /** Hop count, or the larger of the two advertised metrics. */
    function Cost(l: LinkId): nat {
      if !useLinkMetric then 1 else if l in g.links then g.links[l].MaxMetric() else 0
    }

    /** Up, not ignored, and no transit through an overloaded node. */
    predicate Permitted(h: Hop) {
      && h.link in g.links
      && g.links[h.link].IsUp()
      && h.link !in ignored
      && h.link.Joins(h.from, h.to)
      && (h.from == src || !g.Overloaded(h.from))
    }

    /** `p` is a permitted walk from the source to `v`. */
    ghost predicate Walk(p: seq<Hop>, v: NodeName)
      decreases |p|
    {
      if p == [] then v == src
      else
        var h := p[|p| - 1];
        h.to == v && Permitted(h) && Walk(p[..|p| - 1], h.from)
    }

    ghost function Length(p: seq<Hop>): nat {
      if p == [] then 0 else Length(p[..|p| - 1]) + Cost(p[|p| - 1].link)
    }

    ghost predicate PositiveCosts() {
      forall l <- g.links :: g.links[l].IsUp() && l !in ignored ==> Cost(l) > 0
    }

    ghost predicate Reachable(v: NodeName) {
      exists p :: Walk(p, v)
    }

    ghost predicate ShortestWalk(p: seq<Hop>, v: NodeName) {
      && Walk(p, v)
      && forall w | Walk(w, v) :: Length(p) <= Length(w)
    }
  }
}
