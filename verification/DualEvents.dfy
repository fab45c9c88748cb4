/** The events of a DUAL node: what each does, that it keeps the node invariant, and what it
    promises to the links. */
module DualEvents {
  import opened Options
  import opened DualSpec

  ghost predicate PickFeasible(s: Route, pick: NodeId) {
    (exists n :: Feasible(s, n)) ==> Feasible(s, pick)
  }

  /** peerUp, if no CHECK fails. */
  ghost function PeerUp(s: Route, n: NodeId, cost: nat, pick: NodeId): Outcome
    requires Inv(s) && n != s.id && PeerUpChecks(s, n, cost)
    requires s.state == Passive ==> PickFeasible(LinkBack(s, n, cost), pick)
  {
    var o := Outcome(LinkBack(s, n, cost), map[]);
    Introduce(
      if s.state == Passive then React(o, Others, false, pick)
      else if o.s.Nbr(n).expectReply then ReceiveReply(o, n, o.s.Nbr(n).report, pick)
      else o,
      n)
  }

  function LinkGone(s: Route, n: NodeId): Route {
    s.(links := s.links[n := Inf]).WithNbr(n, s.Nbr(n).(report := Inf))
  }

  /** peerDown. */
  ghost function PeerDown(s: Route, n: NodeId, pick: NodeId): Outcome
    requires Inv(s) && n != s.id
    requires s.state == Passive ==> ReactChecks(LinkGone(s, n)) && PickFeasible(LinkGone(s, n), pick)
  {
    var o := Outcome(LinkGone(s, n), map[]);
    if s.state == Passive then React(o, IncreaseD, false, pick)
    else
      var o' := o.(s := o.s.(state := ProcessEvent(o.s.state, IncreaseD, true)));
      if o'.s.Nbr(n).expectReply then ReceiveReply(o', n, Inf, pick) else o'
  }

  function Heard(s: Route, n: NodeId, d: Dist): Route {
    s.WithNbr(n, s.Nbr(n).(report := d))
  }

  /** While ACTIVE only the distance through the current next hop is followed. */
  function FollowNexthop(s: Route, n: NodeId): Route {
    if s.nexthop == Some(n) && n in s.links then s.(distance := s.Via(n)) else s
  }

  /** processUpdate. */
  ghost function ReceiveUpdate(s: Route, n: NodeId, d: Dist, pick: NodeId): Outcome
    requires Inv(s) && n != s.id
    requires s.state == Passive ==> ReactChecks(Heard(s, n, d)) && PickFeasible(Heard(s, n, d), pick)
  {
    var h := Heard(s, n, d);
    if n !in s.links then Outcome(h, map[])
    else if s.state == Passive then React(Outcome(h, map[]), Others, false, pick)
    else
      var f := FollowNexthop(h, n);
      Outcome(f.(state := ProcessEvent(f.state, Others, true)), map[])
  }

  function Queried(s: Route, n: NodeId, d: Dist): Route {
    Heard(s, n, d).(cornet := s.cornet + [n])
  }

  function QueryEvent(s: Route, n: NodeId): Event {
    if s.nexthop == Some(n) then QueryFromSuccessor else Others
  }

  /** processQuery. */
  ghost function ReceiveQuery(s: Route, n: NodeId, d: Dist, pick: NodeId): Outcome
    requires Inv(s) && n != s.id
    requires s.state == Passive ==> ReactChecks(Queried(s, n, d)) && PickFeasible(Queried(s, n, d), pick)
  {
    var h := Queried(s, n, d);
    if s.state == Passive then React(Outcome(h, map[]), QueryEvent(s, n), true, pick)
    else
      var f := FollowNexthop(h, n);
      SendReply(Outcome(f.(state := ProcessEvent(f.state, QueryEvent(s, n), true)), map[]))
  }

  datatype Input = Raise(n: NodeId, cost: nat) | Drop(n: NodeId) | Receive(n: NodeId, msg: Msg)

  /** The route state in which the event looks for a next hop. */
  function Noted(s: Route, input: Input): Route {
    match input
    case Raise(n, cost) => LinkBack(s, n, cost)
    case Drop(n) => LinkGone(s, n)
    case Receive(n, msg) =>
      match msg.kind
      case Update => Heard(s, n, msg.distance)
      case Query => Queried(s, n, msg.distance)
      case Reply => s
  }

  /** A node is not its own neighbour. */
  predicate Legal(s: Route, input: Input) {
    input.n != s.id
  }

  /** The one event on which a CHECK can fail: peerUp for the next hop of a PASSIVE node. */
  ghost predicate Checks(s: Route, input: Input) {
    input.Raise? ==> PeerUpChecks(s, input.n, input.cost)
  }

  /** The distance with which processReply runs, if it does. */
  function ReplyDistance(s: Route, input: Input): Dist {
    match input
    case Raise(n, _) => s.Nbr(n).report
    case Drop(_) => Inf
    case Receive(_, msg) => msg.distance
  }

  /** `pick` is what the source's loops would find: a feasible neighbour when reacting, a
      neighbour at the minimum when the last reply is in. */
  ghost predicate Picks(s: Route, input: Input, pick: NodeId) {
    if s.state == Passive then PickFeasible(Noted(s, input), pick)
    else PickOk(Replied(Noted(s, input), input.n, ReplyDistance(s, input)), pick)
  }

  lemma PickExists(s: Route, input: Input)
    ensures exists pick :: Picks(s, input, pick)
  {
    var t, u := Noted(s, input), Replied(Noted(s, input), input.n, ReplyDistance(s, input));
    if s.state == Passive {
      if n :| Feasible(t, n) {
        assert Picks(s, input, n);
      } else {
        assert Picks(s, input, 0);
      }
    } else if MinDistance(u) != Inf {
      var n :| n in u.links && u.Via(n) == MinDistance(u);
      assert Picks(s, input, n);
    } else {
      assert Picks(s, input, 0);
    }
  }

  predicate IsReply(input: Input) {
    input.Receive? && input.msg.kind == Reply
  }

  /** Whatever a PASSIVE node hears, short of its own next hop coming up anew, leaves it ready to
      react without failing a CHECK. */
  lemma HearingDisturbs(s: Route, input: Input)
    requires Inv(s) && Legal(s, input) && s.state == Passive && !IsReply(input)
    requires input.Raise? ==> s.nexthop != Some(input.n)
    ensures Disturbed(Noted(s, input)) && ReactChecks(Noted(s, input))
  {
    var t := Noted(s, input);
    assert forall m :: t.Nbr(m) == s.Nbr(m).(report := t.Nbr(m).report);
    DisturbedPassesChecks(t);
  }

  lemma OnlyRaiseCanFail(s: Route, input: Input)
    requires Inv(s) && Legal(s, input) && !input.Raise? && !IsReply(input)
    ensures s.state == Passive ==> ReactChecks(Noted(s, input))
  {
    if s.state == Passive {
      HearingDisturbs(s, input);
    }
  }

  /** One event. */
  ghost function Handle(s: Route, input: Input, pick: NodeId): Outcome
    requires Inv(s) && Legal(s, input) && Checks(s, input) && Picks(s, input, pick)
  {
    match input
    case Raise(n, cost) => PeerUp(s, n, cost, pick)
    case Drop(n) => OnlyRaiseCanFail(s, input); PeerDown(s, n, pick)
    case Receive(n, msg) =>
      match msg.kind
      case Update => OnlyRaiseCanFail(s, input); ReceiveUpdate(s, n, msg.distance, pick)
      case Query => OnlyRaiseCanFail(s, input); ReceiveQuery(s, n, msg.distance, pick)
      case Reply => ReceiveReply(Outcome(s, map[]), n, msg.distance, pick)
  }

  lemma IntroduceKeepsInv(o: Outcome, n: NodeId)
    requires Inv(o.s)
    ensures Inv(Introduce(o, n).s)
  {
    var t := Introduce(o, n).s;
    assert forall m :: t.Nbr(m) == o.s.Nbr(m).(needToReply := t.Nbr(m).needToReply);
    SameMinimum(o.s, t);
  }

  /** peerUp for the next hop of a PASSIVE node: the CHECK passes exactly if some neighbour is
      feasible, and then the node settles at once. */
  lemma RaiseNexthop(s: Route, n: NodeId, cost: nat, pick: NodeId)
    requires Inv(s) && n != s.id && s.state == Passive && s.nexthop == Some(n)
    requires PeerUpChecks(s, n, cost) && PickFeasible(LinkBack(s, n, cost), pick)
    ensures Inv(React(Outcome(LinkBack(s, n, cost), map[]), Others, false, pick).s)
  {
    var t := LinkBack(s, n, cost);
    assert forall m :: t.Nbr(m) == s.Nbr(m);
    assert t.Via(n) != Inf;
    assert Affected(t) && Feasible(t, pick);
    AdoptIsComputed(t, pick);
  }

  lemma RaiseKeepsInv(s: Route, n: NodeId, cost: nat, pick: NodeId)
    requires Inv(s) && Legal(s, Raise(n, cost)) && Checks(s, Raise(n, cost)) && Picks(s, Raise(n, cost), pick)
    ensures Inv(PeerUp(s, n, cost, pick).s)
  {
    var o := Outcome(LinkBack(s, n, cost), map[]);
    assert forall m :: o.s.Nbr(m) == s.Nbr(m);
    if s.state == Passive {
      if s.nexthop == Some(n) {
        RaiseNexthop(s, n, cost, pick);
      } else {
        HearingDisturbs(s, Raise(n, cost));
        ReactKeepsInv(o, Others, false, pick);
      }
      IntroduceKeepsInv(React(o, Others, false, pick), n);
    } else if o.s.Nbr(n).expectReply {
      ReceiveReplyKeepsInv(o, n, o.s.Nbr(n).report, pick);
      IntroduceKeepsInv(ReceiveReply(o, n, o.s.Nbr(n).report, pick), n);
    } else {
      IntroduceKeepsInv(o, n);
    }
  }

  lemma DropKeepsInv(s: Route, n: NodeId, pick: NodeId)
    requires Inv(s) && Legal(s, Drop(n)) && Picks(s, Drop(n), pick)
    ensures s.state == Passive ==> ReactChecks(LinkGone(s, n))
    ensures Inv(PeerDown(s, n, pick).s)
  {
    OnlyRaiseCanFail(s, Drop(n));
    var o := Outcome(LinkGone(s, n), map[]);
    assert forall m :: o.s.Nbr(m) == s.Nbr(m).(report := o.s.Nbr(m).report);
    if s.state == Passive {
      HearingDisturbs(s, Drop(n));
      ReactKeepsInv(o, IncreaseD, false, pick);
    } else {
      var t := o.s.(state := ProcessEvent(o.s.state, IncreaseD, true));
      assert forall m :: t.Nbr(m) == o.s.Nbr(m);
      if t.Nbr(n).expectReply {
        SameMinimum(Replied(t, n, Inf), Replied(o.s, n, Inf));
        ReceiveReplyKeepsInv(Outcome(t, map[]), n, Inf, pick);
      }
    }
  }

  /** Following the next hop while ACTIVE keeps the invariant. */
  lemma ActiveKeepsInv(s: Route, t: Route)
    requires Inv(s) && s.Active()
    requires t == s.(nbrs := t.nbrs, distance := t.distance, state := t.state) && t.Active()
    requires forall m :: t.Nbr(m) == s.Nbr(m).(report := t.Nbr(m).report, needToReply := t.Nbr(m).needToReply)
    ensures Inv(t)
  {
  }

  lemma PassiveUpdateKeepsInv(s: Route, n: NodeId, d: Dist, pick: NodeId)
    requires Inv(s) && n != s.id && n in s.links && s.state == Passive && PickFeasible(Heard(s, n, d), pick)
    ensures ReactChecks(Heard(s, n, d)) && Inv(React(Outcome(Heard(s, n, d), map[]), Others, false, pick).s)
  {
    hide React, Affected, Feasible, Computed;
    HearingDisturbs(s, Receive(n, Msg(Update, d)));
    assert Heard(s, n, d).cornet == [];
    hide Inv, Disturbed;
    ReactKeepsInv(Outcome(Heard(s, n, d), map[]), Others, false, pick);
  }

  lemma UpdateKeepsInv(s: Route, n: NodeId, d: Dist, pick: NodeId)
    requires Inv(s) && Legal(s, Receive(n, Msg(Update, d))) && Picks(s, Receive(n, Msg(Update, d)), pick)
    ensures s.state == Passive ==> ReactChecks(Heard(s, n, d))
    ensures Inv(ReceiveUpdate(s, n, d, pick).s)
  {
    hide React, Affected, Feasible, Disturbed;
    OnlyRaiseCanFail(s, Receive(n, Msg(Update, d)));
    var h := Heard(s, n, d);
    assert forall m :: h.Nbr(m) == s.Nbr(m).(report := h.Nbr(m).report);
    if n !in s.links {
      SameMinimum(s, h);
    } else if s.state == Passive {
      hide Inv;
      PassiveUpdateKeepsInv(s, n, d, pick);
    } else {
      var t := ReceiveUpdate(s, n, d, pick).s;
      assert forall m :: t.Nbr(m) == h.Nbr(m);
      ActiveKeepsInv(s, t);
    }
  }

  /** The next hop of a PASSIVE node is up. */
  lemma SuccessorIsUp(s: Route)
    requires Inv(s) && s.state == Passive && s.id != s.root && s.nexthop.Some?
    ensures s.Up(s.nexthop.value)
  {
  }

  lemma PassiveQueryKeepsInv(s: Route, n: NodeId, d: Dist, pick: NodeId)
    requires Inv(s) && n != s.id && s.state == Passive && PickFeasible(Queried(s, n, d), pick)
    ensures ReactChecks(Queried(s, n, d)) && Inv(React(Outcome(Queried(s, n, d), map[]), QueryEvent(s, n), true, pick).s)
  {
    hide React, Affected, Feasible, Computed;
    HearingDisturbs(s, Receive(n, Msg(Query, d)));
    if s.id != s.root && s.nexthop == Some(n) {
      SuccessorIsUp(s);
    }
    hide Disturbed, Inv;
    ReactKeepsInv(Outcome(Queried(s, n, d), map[]), QueryEvent(s, n), true, pick);
  }

  lemma ActiveQueryKeepsInv(s: Route, n: NodeId, d: Dist)
    requires Inv(s) && s.Active()
    ensures var f := FollowNexthop(Queried(s, n, d), n);
            Inv(SendReply(Outcome(f.(state := ProcessEvent(f.state, QueryEvent(s, n), true)), map[])).s)
  {
    var h := Queried(s, n, d);
    var f := FollowNexthop(h, n);
    var o := Outcome(f.(state := ProcessEvent(f.state, QueryEvent(s, n), true)), map[]);
    assert o.s.Active() && forall m :: o.s.Nbr(m) == s.Nbr(m).(report := o.s.Nbr(m).report);
    assert o.s.cornet[..|o.s.cornet| - 1] == s.cornet;
    hide Inv, ProcessEvent, SendReply;
    ReplyKeepsRoute(o);
    ActiveKeepsInv(s, SendReply(o).s);
  }

  lemma QueryKeepsInv(s: Route, n: NodeId, d: Dist, pick: NodeId)
    requires Inv(s) && Legal(s, Receive(n, Msg(Query, d))) && Picks(s, Receive(n, Msg(Query, d)), pick)
    ensures s.state == Passive ==> ReactChecks(Queried(s, n, d))
    ensures Inv(ReceiveQuery(s, n, d, pick).s)
  {
    hide Inv, React, ReactChecks, PickFeasible, SendReply, ProcessEvent;
    if s.state == Passive {
      PassiveQueryKeepsInv(s, n, d, pick);
    } else {
      ActiveQueryKeepsInv(s, n, d);
    }
  }

  /** Every event keeps the node invariant, and none but a repeated peerUp of the next hop can
      fail a CHECK. */
  lemma HandleKeepsInv(s: Route, input: Input, pick: NodeId)
    requires Inv(s) && Legal(s, input) && Checks(s, input) && Picks(s, input, pick)
    ensures Inv(Handle(s, input, pick).s)
  {
    match input
    case Raise(n, cost) => RaiseKeepsInv(s, n, cost, pick);
    case Drop(n) => DropKeepsInv(s, n, pick);
    case Receive(n, msg) =>
      match msg.kind
      case Update => UpdateKeepsInv(s, n, msg.distance, pick);
      case Query => QueryKeepsInv(s, n, msg.distance, pick);
      case Reply =>
        if s.Nbr(n).expectReply {
          ReceiveReplyKeepsInv(Outcome(s, map[]), n, msg.distance, pick);
        }
  }

  /** A node starts with its invariant. */
  lemma NewRouteInv(id: NodeId, root: NodeId, links: map<NodeId, Dist>)
    requires id !in links
    ensures Inv(NewRoute(id, root, links))
  {
  }

  /** A second peerUp for the next hop of a PASSIVE node, without a peerDown in between: the node
      survives exactly if a neighbour is then feasible, in particular if the link has a cost and has
      not become more expensive. */
  lemma RepeatedPeerUp(s: Route, n: NodeId, cost: nat)
    requires Inv(s) && s.state == Passive && s.nexthop == Some(n) && n != s.id
    ensures PeerUpChecks(s, n, cost) <==> exists m :: Feasible(LinkBack(s, n, cost), m)
    ensures !Less(s.links[n], Fin(cost)) && s.links[n] != Fin(0) ==> PeerUpChecks(s, n, cost)
  {
    var t := LinkBack(s, n, cost);
    assert t.Via(n) != Inf && Affected(t);
    if !Less(s.links[n], Fin(cost)) && s.links[n] != Fin(0) {
      forall m | m in t.links ensures !Less(t.Via(m), t.Via(n)) {
        assert !Less(s.Via(m), s.Via(n));
      }
      assert t.Minimal(t.Via(n));
      MinDistanceIs(t, t.Via(n));
      assert Feasible(t, n);
    }
  }

  /** The node after a sequence of events, each of which it survives. */
  ghost predicate Comes(s: Route, inputs: seq<Input>, t: Route)
    decreases |inputs|
  {
    if inputs == [] then s == t
    else
      exists u, pick :: ComesBy(s, inputs[0], pick, u) && Comes(u, inputs[1..], t)
  }

  ghost predicate ComesBy(s: Route, input: Input, pick: NodeId, u: Route) {
    Inv(s) && Legal(s, input) && Checks(s, input) && Picks(s, input, pick) && u == Handle(s, input, pick).s
  }

  lemma {:induction false} ComesFurther(s: Route, inputs: seq<Input>, t: Route, input: Input, pick: NodeId, u: Route)
    requires Comes(s, inputs, t) && ComesBy(t, input, pick, u)
    ensures Comes(s, inputs + [input], u)
    decreases |inputs|
  {
    hide ComesBy;
    if inputs == [] {
      assert (inputs + [input])[1..] == [];
      assert ComesBy(s, (inputs + [input])[0], pick, u) && Comes(u, (inputs + [input])[1..], u);
    } else {
      var v, p :| ComesBy(s, inputs[0], p, v) && Comes(v, inputs[1..], t);
      ComesFurther(v, inputs[1..], t, input, pick, u);
      assert (inputs + [input])[1..] == inputs[1..] + [input];
      assert ComesBy(s, (inputs + [input])[0], p, v);
    }
  }

  /** The link to a neighbour comes up at a node without a route. */
  lemma FirstLink(s: Route)
    requires s == NewRoute(1, 0, map[])
    ensures ComesBy(s, Raise(0, 1), 0, s.(links := map[0 := Fin(1)], nbrs := map[0 := Neighbor(Inf, false, false)]))
  {
    NewRouteInv(1, 0, map[]);
    var t := LinkBack(s, 0, 1);
    assert t.Via(0) == Inf && t.Minimal(Inf);
    MinDistanceIs(t, Inf);
  }

  /** The neighbour is the root. */
  lemma RootIsHeard(s: Route)
    requires s == NewRoute(1, 0, map[]).(links := map[0 := Fin(1)], nbrs := map[0 := Neighbor(Inf, false, false)])
    ensures ComesBy(s, Receive(0, Msg(Update, Fin(0))), 0, Joined())
  {
    assert s.Minimal(Inf);
    assert Inv(s);
    var t := Heard(s, 0, Fin(0));
    assert t.Via(0) == Fin(1) && t.Minimal(Fin(1));
    MinDistanceIs(t, Fin(1));
    assert Feasible(t, 0);
  }

  /** A node joined to the root at cost 1. */
  function Joined(): Route {
    Route(1, 0, map[0 := Fin(1)], Fin(1), Fin(1), Fin(1), Some(0), Passive, map[0 := Neighbor(Fin(0), false, false)], [])
  }

  lemma SecondLink(s: Route)
    requires s == Joined()
    ensures ComesBy(s, Raise(2, 1), 0, s.(links := s.links[2 := Fin(1)], nbrs := s.nbrs[2 := Neighbor(Inf, false, false)]))
  {
    assert s.Via(0) == Fin(1) && s.Minimal(Fin(1));
    assert Inv(s);
    var t := LinkBack(s, 2, 1);
    assert t.Via(0) == Fin(1) && t.Via(2) == Inf && t.Minimal(Fin(1));
    MinDistanceIs(t, Fin(1));
  }

  function TwoNeighbours(): Route {
    Joined().(links := map[0 := Fin(1), 2 := Fin(1)], nbrs := map[0 := Neighbor(Fin(0), false, false), 2 := Neighbor(Fin(5), false, false)])
  }

  lemma DetourIsHeard(s: Route)
    requires s == Joined().(links := Joined().links[2 := Fin(1)], nbrs := Joined().nbrs[2 := Neighbor(Inf, false, false)])
    ensures ComesBy(s, Receive(2, Msg(Update, Fin(5))), 0, TwoNeighbours())
  {
    assert s.Via(0) == Fin(1) && s.Via(2) == Inf && s.Minimal(Fin(1));
    assert Inv(s);
    var t := Heard(s, 2, Fin(5));
    assert t.Via(0) == Fin(1) && t.Via(2) == Fin(6) && t.Minimal(Fin(1));
    MinDistanceIs(t, Fin(1));
    assert t == TwoNeighbours();
  }

  /** It need not: the only other neighbour reports a distance that is not below the feasible
      distance, and the link to the next hop comes back at ten times its cost. Four events bring a
      new node there. */
  lemma RepeatedPeerUpCanFail() returns (inputs: seq<Input>, s: Route)
    ensures Comes(NewRoute(1, 0, map[]), inputs, s)
    ensures Inv(s) && Legal(s, Raise(0, 10)) && !Checks(s, Raise(0, 10))
  {
    var s0 := NewRoute(1, 0, map[]);
    var s1 := s0.(links := map[0 := Fin(1)], nbrs := map[0 := Neighbor(Inf, false, false)]);
    var s3 := Joined().(links := Joined().links[2 := Fin(1)], nbrs := Joined().nbrs[2 := Neighbor(Inf, false, false)]);
    inputs, s := [], TwoNeighbours();
    assert Comes(s0, inputs, s0);
    FirstLink(s0);
    RootIsHeard(s1);
    SecondLink(Joined());
    DetourIsHeard(s3);
    TwoNeighboursFail(s);
    hide Comes, ComesBy, Inv, Checks, NewRoute;
    ComesFurther(s0, inputs, s0, Raise(0, 1), 0, s1);
    inputs := inputs + [Raise(0, 1)];
    ComesFurther(s0, inputs, s1, Receive(0, Msg(Update, Fin(0))), 0, Joined());
    inputs := inputs + [Receive(0, Msg(Update, Fin(0)))];
    ComesFurther(s0, inputs, Joined(), Raise(2, 1), 0, s3);
    inputs := inputs + [Raise(2, 1)];
    ComesFurther(s0, inputs, s3, Receive(2, Msg(Update, Fin(5))), 0, s);
    inputs := inputs + [Receive(2, Msg(Update, Fin(5)))];
  }

  lemma TwoNeighboursFail(s: Route)
    requires s == TwoNeighbours()
    ensures Inv(s) && Legal(s, Raise(0, 10)) && !Checks(s, Raise(0, 10))
  {
    assert s.Via(0) == Fin(1) && s.Via(2) == Fin(6) && s.Minimal(Fin(1));
    assert Inv(s);
    var t := LinkBack(s, 0, 10);
    assert t.Via(0) == Fin(10) && t.Via(2) == Fin(6);
    assert t.Minimal(Fin(6));
    MinDistanceIs(t, Fin(6));
    assert forall m :: !Feasible(t, m);
    RepeatedPeerUp(s, 0, 10);
  }
}
