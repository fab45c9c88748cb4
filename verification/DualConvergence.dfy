/** What the DUAL network invariant means for a network that has come to rest, and that no CHECK
    of a node can fail in it. */
module DualConvergence {
  import opened Options
  import opened DualSpec
  import opened DualEvents
  import opened DualMail
  import opened DualNetwork

  /** No message is in flight. */
  ghost predicate Quiet(net: Net) {
    forall a <- net.nodes, b <- net.nodes :: net.chan(a, b) == []
  }

  ghost function ActiveNodes(net: Net): set<NodeId> {
    set v <- net.nodes | net.nodes[v].Active()
  }

  /** The node that became ACTIVE last. */
  lemma {:induction false} LastActivated(net: Net, nodes: set<NodeId>) returns (v: NodeId)
    requires nodes != {} && nodes <= net.since.Keys
    ensures v in nodes && forall u <- nodes :: net.since[u] <= net.since[v]
    decreases nodes
  {
    v :| v in nodes;
    if nodes != {v} {
      var u := LastActivated(net, nodes - {v});
      if net.since[v] <= net.since[u] {
        v := u;
      }
    }
  }

  /** Whoever waits in a quiet network waits for a node that became ACTIVE later. */
  lemma WaitsForLater(net: Net, v: NodeId) returns (u: NodeId)
    requires NetInv(net) && Quiet(net) && v in net.nodes && net.nodes[v].Active()
    ensures u in ActiveNodes(net) && v in net.since && u in net.since && net.since[v] < net.since[u]
  {
    assert NodeOk(net, v);
    u :| net.nodes[v].Nbr(u).expectReply;
    assert net.nodes[v].Up(u) && u != v;
    assert NodeOk(net, u) && Sound(net, v, u);
    assert WaitsFor(net.nodes[v], net.nodes[u], [], [], net.since[v], net.since[u]);
    assert Owed(net.nodes[u], v) >= 1 && net.nodes[u].cornet != [];
    assert net.nodes[u].cornet == [net.nodes[u].cornet[0]];
  }

  /** Diffusing computations cannot deadlock: with no message in flight every node is PASSIVE. */
  lemma QuietMeansPassive(net: Net, v: NodeId)
    requires NetInv(net) && Quiet(net) && v in net.nodes
    ensures net.nodes[v].state == Passive
  {
    if net.nodes[v].Active() {
      assert v in ActiveNodes(net);
      assert forall a <- net.nodes :: NodeOk(net, a);
      hide NodeOk, NetInv;
      var last := LastActivated(net, ActiveNodes(net));
      var u := WaitsForLater(net, last);
    }
  }

  /** A path over links that are up, ending at the root. */
  ghost predicate Path(net: Net, p: seq<NodeId>) {
    && p != [] && p[0] in net.nodes
    && if |p| == 1 then p[0] == net.root else net.nodes[p[0]].Up(p[1]) && Path(net, p[1..])
  }

  ghost function Length(net: Net, p: seq<NodeId>): nat
    requires Path(net, p)
  {
    if |p| == 1 then 0 else net.nodes[p[0]].links[p[1]].n + Length(net, p[1..])
  }

  /** The path is the one that the next hops spell out. */
  ghost predicate AlongNexthops(net: Net, p: seq<NodeId>)
    requires Path(net, p)
  {
    |p| > 1 ==> net.nodes[p[0]].nexthop == Some(p[1]) && AlongNexthops(net, p[1..])
  }

  /** In a quiet network neighbours agree on the report distance, which is the distance. */
  lemma QuietViews(net: Net, v: NodeId, u: NodeId)
    requires NetInv(net) && Quiet(net) && v in net.nodes && u in net.nodes[v].links
    ensures u in net.nodes && u != v
    ensures net.nodes[v].Via(u) == Plus(net.nodes[v].links[u], net.nodes[u].distance)
  {
    assert NodeOk(net, v);
    assert NodeOk(net, u) && Sound(net, v, u);
    QuietMeansPassive(net, u);
    assert OneWay(net.nodes[u], net.nodes[v], []);
  }

  lemma QuietComputed(net: Net, v: NodeId)
    requires NetInv(net) && Quiet(net) && v in net.nodes
    ensures v == net.root ==> net.nodes[v].distance == Fin(0)
    ensures v != net.root ==> Computed(net.nodes[v])
    ensures forall n <- net.nodes[v].links :: net.nodes[v].links[n] != Fin(0)
  {
    QuietMeansPassive(net, v);
    assert NodeOk(net, v);
  }

  /** No path is shorter than the distance. */
  lemma {:induction false} NoPathShorter(net: Net, p: seq<NodeId>)
    requires NetInv(net) && Quiet(net) && Path(net, p)
    ensures !Less(Fin(Length(net, p)), net.nodes[p[0]].distance)
  {
    QuietComputed(net, p[0]);
    if |p| > 1 {
      NoPathShorter(net, p[1..]);
      hide NetInv, Quiet;
      if p[0] != net.root {
        QuietViews(net, p[0], p[1]);
        assert !Less(net.nodes[p[0]].Via(p[1]), net.nodes[p[0]].distance);
      }
    }
  }

  /** The next hops lead to the root, in exactly the distance. */
  lemma {:induction false} NexthopsLead(net: Net, v: NodeId) returns (p: seq<NodeId>)
    requires NetInv(net) && Quiet(net) && v in net.nodes && net.nodes[v].distance.Fin?
    ensures Path(net, p) && p[0] == v && AlongNexthops(net, p) && net.nodes[v].distance == Fin(Length(net, p))
    decreases net.nodes[v].distance.n
  {
    QuietComputed(net, v);
    p := [v];
    if v != net.root {
      var n := net.nodes[v].nexthop.value;
      QuietViews(net, v, n);
      hide NetInv, Quiet;
      var rest := NexthopsLead(net, n);
      p := [v] + rest;
      assert p[1..] == rest;
    }
  }

  /** `d` is the length of a shortest path from `v` to the root, `Inf` if there is none. */
  ghost predicate ShortestDistance(net: Net, v: NodeId, d: Dist) {
    && (forall p | Path(net, p) && p[0] == v :: !Less(Fin(Length(net, p)), d))
    && (d != Inf ==> exists p :: Path(net, p) && p[0] == v && Fin(Length(net, p)) == d && AlongNexthops(net, p))
  }

  /** A quiet network has converged: everybody PASSIVE, at the shortest distance, with next hops
      that spell out a shortest path. */
  lemma QuietHasConverged(net: Net, v: NodeId)
    requires NetInv(net) && Quiet(net) && v in net.nodes
    ensures net.nodes[v].state == Passive && ShortestDistance(net, v, net.nodes[v].distance)
  {
    QuietMeansPassive(net, v);
    hide NetInv, Quiet;
    forall p | Path(net, p) && p[0] == v ensures !Less(Fin(Length(net, p)), net.nodes[v].distance) {
      NoPathShorter(net, p);
    }
    if net.nodes[v].distance != Inf {
      var p := NexthopsLead(net, v);
    }
  }

  /** The whole statement: in every run, a moment without messages in flight is one at which every
      node has converged. */
  lemma RestingRunHasConverged(trace: seq<Net>, k: nat, v: NodeId)
    requires Execution(trace) && k < |trace| && Quiet(trace[k]) && v in trace[k].nodes
    ensures trace[k].nodes[v].state == Passive && ShortestDistance(trace[k], v, trace[k].nodes[v].distance)
  {
    hide NetInv, Execution, ShortestDistance, Quiet;
    ReachableIsGood(trace, k);
    QuietHasConverged(trace[k], v);
  }

  /** A link that is down can come up without failing a CHECK. */
  lemma DownLinkPassesChecks(s: Route, n: NodeId, cost: nat)
    requires Inv(s) && Legal(s, Raise(n, cost)) && !s.Up(n)
    ensures Checks(s, Raise(n, cost))
  {
    if s.state == Passive {
      assert s.nexthop != Some(n);
      HearingDisturbs(s, Raise(n, cost));
    }
  }

  /** No CHECK can fail in a network: a node can take any event, unless a link comes up twice. */
  lemma AnyEventCanHappen(net: Net, x: NodeId, input: Input) returns (pick: NodeId)
    requires x in net.nodes && NodeOk(net, x) && input.n in net.nodes && Legal(net.nodes[x], input)
    requires input.Raise? ==> !net.nodes[x].Up(input.n) && input.cost > 0
    ensures CanFire(net, x, input, pick)
  {
    var s := net.nodes[x];
    if input.Raise? {
      DownLinkPassesChecks(s, input.n, input.cost);
    }
    hide Inv, Picks, Pristine;
    PickExists(s, input);
    pick :| Picks(s, input, pick);
  }

  /** So at any moment a link that is down can come up, ... */
  lemma LinkCanComeUp(net: Net, u: NodeId, v: NodeId, costU: nat, costV: nat) returns (pickU: NodeId, pickV: NodeId)
    requires NetInv(net) && u in net.nodes && v in net.nodes && u != v && costU > 0 && costV > 0
    requires !net.nodes[u].Up(v)
    ensures Enabled(net, LinkUp(u, v, costU, costV, pickU, pickV))
  {
    assert NodeOk(net, u) && NodeOk(net, v) && Sound(net, u, v);
    hide NetInv, CanFire, Inv, Linked, Pristine;
    pickU := AnyEventCanHappen(net, u, Raise(v, costU));
    pickV := AnyEventCanHappen(net, v, Raise(u, costV));
  }

  /** ... any link can go down, ... */
  lemma LinkCanGoDown(net: Net, u: NodeId, v: NodeId) returns (pickU: NodeId, pickV: NodeId)
    requires NetInv(net) && u in net.nodes && v in net.nodes && u != v
    ensures Enabled(net, LinkDown(u, v, pickU, pickV))
  {
    assert NodeOk(net, u) && NodeOk(net, v);
    hide NetInv, CanFire, Inv, Pristine;
    pickU := AnyEventCanHappen(net, u, Drop(v));
    pickV := AnyEventCanHappen(net, v, Drop(u));
  }

  /** ... and the next message of a link can arrive. */
  lemma MessageCanArrive(net: Net, u: NodeId, v: NodeId) returns (pickV: NodeId)
    requires NetInv(net) && u in net.nodes && v in net.nodes && u != v && net.chan(u, v) != []
    ensures Enabled(net, Deliver(u, v, pickV))
  {
    assert NodeOk(net, u) && NodeOk(net, v);
    hide NetInv, CanFire, Inv, Pristine;
    pickV := AnyEventCanHappen(net, v, Receive(u, net.chan(u, v)[0]));
  }
}
