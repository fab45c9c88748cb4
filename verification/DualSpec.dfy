/** DUAL at one node, for one root: what every event does to the route state and which messages
    it sends. Where the source walks a hash map and takes the first neighbour that fits, the
    functions here take that neighbour as an argument (`pick`). */
module DualSpec {
  import opened Options

  type NodeId = nat

  /** A distance; `Inf` is the largest 64-bit value of the source. */
  datatype Dist = Fin(n: nat) | Inf

  function Plus(a: Dist, b: Dist): Dist {
    if a.Inf? || b.Inf? then Inf else Fin(a.n + b.n)
  }

  predicate Less(a: Dist, b: Dist) {
    a.Fin? && (b.Inf? || a.n < b.n)
  }

  datatype State = Passive | Active0 | Active1 | Active2 | Active3

  datatype Event = QueryFromSuccessor | LastReply | IncreaseD | Others

  /** DualStateMachine::processEvent. */
  function ProcessEvent(state: State, event: Event, fc: bool): State {
    match state
    case Passive => if fc then Passive else if event.QueryFromSuccessor? then Active3 else Active1
    case Active0 => if !event.LastReply? then Active0 else if fc then Passive else Active2
    case Active1 =>
      (match event
       case IncreaseD => Active0
       case LastReply => Passive
       case QueryFromSuccessor => Active2
       case Others => Active1)
    case Active2 => if !event.LastReply? then Active2 else if fc then Passive else Active3
    case Active3 =>
      (match event
       case LastReply => Passive
       case IncreaseD => Active2
       case _ => Active3)
  }

  /** The state after events that find a node ACTIVE. */
  function After(state: State, events: seq<Event>): State {
    if events == [] then state else ProcessEvent(After(state, events[..|events| - 1]), events[|events| - 1], true)
  }

  /** The first of the events that is no mere update. */
  function FirstNews(events: seq<Event>): Option<Event> {
    if events == [] then None
    else
      var earlier := FirstNews(events[..|events| - 1]);
      if earlier.Some? then earlier
      else if events[|events| - 1] == Others then None
      else Some(events[|events| - 1])
  }

  /** What the ACTIVE states tell: whether the successor's query made the node ACTIVE, and if not,
      whether its distance went up or such a query came first; if so, whether its distance went up. */
  lemma {:induction false} ActiveStateTells(first: Event, events: seq<Event>)
    requires LastReply !in events
    ensures var s := After(ProcessEvent(Passive, first, false), events);
            && s != Passive
            && (s == Active3 <==> first == QueryFromSuccessor && IncreaseD !in events)
            && (s == Active1 <==> first != QueryFromSuccessor && FirstNews(events) == None)
            && (s == Active0 <==> first != QueryFromSuccessor && FirstNews(events) == Some(IncreaseD))
            && (s == Active2 <==> if first == QueryFromSuccessor then IncreaseD in events else FirstNews(events) == Some(QueryFromSuccessor))
    decreases |events|
  {
    if events != [] {
      var before, last := events[..|events| - 1], events[|events| - 1];
      assert events == before + [last];
      ActiveStateTells(first, before);
    }
  }

  /** The last reply frees the node if a neighbour is feasible; otherwise only a node that noted
      nothing else, and one that did goes on for the query it still owes an answer. */
  lemma LastReplyFrees(state: State)
    ensures ProcessEvent(state, LastReply, true) == Passive
    ensures state != Passive ==>
              (ProcessEvent(state, LastReply, false) == Passive <==> state == Active1 || state == Active3)
    ensures ProcessEvent(Active0, LastReply, false) == Active2 && ProcessEvent(Active2, LastReply, false) == Active3
    ensures forall event :: ProcessEvent(Passive, event, true) == Passive
  {
  }

  datatype Kind = Update | Query | Reply

  datatype Msg = Msg(kind: Kind, distance: Dist)

  type Outbox = map<NodeId, seq<Msg>>

  datatype Neighbor = Neighbor(report: Dist, expectReply: bool, needToReply: bool)

  /** Dual::info_ and Dual::localDistances_. */
  datatype Route = Route(
    id: NodeId,
    root: NodeId,
    links: map<NodeId, Dist>,
    distance: Dist,
    report: Dist,
    feasible: Dist,
    nexthop: Option<NodeId>,
    state: State,
    nbrs: map<NodeId, Neighbor>,
    cornet: seq<NodeId>)
  {
    /** neighborInfos[n]: a missing entry reads as the default. */
    function Nbr(n: NodeId): Neighbor {
      if n in nbrs then nbrs[n] else Neighbor(Inf, false, false)
    }

    predicate Up(n: NodeId) {
      n in links && links[n] != Inf
    }

    /** Distance to the root through neighbour `n`. */
    function Via(n: NodeId): Dist
      requires n in links
    {
      Plus(links[n], Nbr(n).report)
    }

    /** `d` is the least distance through any neighbour. */
    ghost predicate Minimal(d: Dist) {
      && (forall n <- links :: !Less(Via(n), d))
      && (d != Inf ==> exists n <- links :: Via(n) == d)
    }

    predicate Active() {
      state != Passive
    }

    function WithNbr(n: NodeId, info: Neighbor): Route {
      this.(nbrs := nbrs[n := info])
    }
  }

  /** The constructor. */
  function NewRoute(id: NodeId, root: NodeId, links: map<NodeId, Dist>): Route {
    if id == root then Route(id, root, links, Fin(0), Fin(0), Fin(0), Some(id), Passive, map[], [])
    else Route(id, root, links, Inf, Inf, Inf, None, Passive, map[], [])
  }

  /** A minimum always exists. */
  lemma {:induction false} MinimumExists(s: Route, ns: set<NodeId>) returns (d: Dist)
    requires ns <= s.links.Keys
    ensures forall n <- ns :: !Less(s.Via(n), d)
    ensures d != Inf ==> exists n <- ns :: s.Via(n) == d
    decreases ns
  {
    d := Inf;
    if ns != {} {
      var n :| n in ns;
      d := MinimumExists(s, ns - {n});
      if Less(s.Via(n), d) {
        d := s.Via(n);
      }
    }
  }

  ghost function MinDistance(s: Route): (d: Dist)
    ensures s.Minimal(d)
  {
    MinimalExists(s);
    var d :| s.Minimal(d);
    d
  }

  lemma MinimalExists(s: Route)
    ensures exists d :: s.Minimal(d)
  {
    var d := MinimumExists(s, s.links.Keys);
    assert s.Minimal(d);
  }

  lemma MinimalIsUnique(s: Route, d: Dist, e: Dist)
    requires s.Minimal(d) && s.Minimal(e)
    ensures d == e
  {
  }

  datatype Outcome = Outcome(s: Route, out: Outbox)

  function Mail(out: Outbox, n: NodeId): seq<Msg> {
    if n in out then out[n] else []
  }

  function Post(out: Outbox, n: NodeId, msg: Msg): Outbox {
    out[n := Mail(out, n) + [msg]]
  }

  function UpNeighbors(s: Route): set<NodeId> {
    set n <- s.links | s.Up(n)
  }

  /** One more message for every neighbour that is up. */
  function PostAll(s: Route, out: Outbox, msg: Msg): Outbox {
    map n | n in out.Keys + UpNeighbors(s) :: Mail(out, n) + (if s.Up(n) then [msg] else [])
  }

  /** sendReply: answer the query on top of the stack, or remember to when the link is back. */
  function SendReply(o: Outcome): Outcome
    requires o.s.cornet != []
  {
    var s := o.s.(cornet := o.s.cornet[..|o.s.cornet| - 1]);
    var dst := o.s.cornet[|o.s.cornet| - 1];
    if s.Up(dst) then Outcome(s, Post(o.out, dst, Msg(Reply, s.report)))
    else Outcome(s.WithNbr(dst, s.Nbr(dst).(needToReply := true)), o.out)
  }

  function ReplyIf(o: Outcome, needReply: bool): Outcome
    requires needReply ==> o.s.cornet != []
  {
    if needReply then SendReply(o) else o
  }

  /** routeAffected. */
  ghost predicate Affected(s: Route) {
    && s.links != map[]
    && s.nexthop != Some(s.id)
    && (s.distance != MinDistance(s)
        || (MinDistance(s) != Inf && !(s.nexthop.Some? && s.nexthop.value in s.links && s.Via(s.nexthop.value) == MinDistance(s))))
  }

  /** meetFeasibleCondition, for one neighbour: the source node condition. */
  ghost predicate Feasible(s: Route, n: NodeId) {
    s.Up(n) && Less(s.Nbr(n).report, s.feasible) && s.Via(n) == MinDistance(s)
  }

  /** localComputation. */
  function Adopt(s: Route, nexthop: Option<NodeId>, d: Dist): Route {
    s.(nexthop := nexthop, distance := d, report := d, feasible := d)
  }

  function AdoptAndFlood(o: Outcome, nexthop: Option<NodeId>, d: Dist): Outcome {
    var s := Adopt(o.s, nexthop, d);
    Outcome(s, if d == o.s.report then o.out else PostAll(s, o.out, Msg(Update, d)))
  }

  /** diffusingComputation and the rest of its branch in tryLocalOrDiffusing. */
  function Diffuse(o: Outcome, event: Event): Outcome
    requires o.s.nexthop.Some? && o.s.nexthop.value in o.s.links
  {
    var nh := o.s.nexthop.value;
    var s := Adopt(o.s, o.s.nexthop, o.s.Via(nh));
    var asked := s.(
      nbrs := map n | n in s.nbrs.Keys + UpNeighbors(s) :: if s.Up(n) then s.Nbr(n).(expectReply := true) else s.Nbr(n),
      state := if UpNeighbors(s) != {} then ProcessEvent(s.state, event, false) else s.state);
    Outcome(if s.Up(nh) then asked else asked.(nexthop := None), PostAll(s, o.out, Msg(Query, s.report)))
  }

  /** The CHECKs of tryLocalOrDiffusing and routeAffected. */
  ghost predicate ReactChecks(s: Route) {
    Affected(s) && s.nexthop.None? ==> s.distance != MinDistance(s) && exists n :: Feasible(s, n)
  }

  /** tryLocalOrDiffusing. */
  ghost function React(o: Outcome, event: Event, needReply: bool, pick: NodeId): Outcome
    requires needReply ==> o.s.cornet != []
    requires ReactChecks(o.s) && (o.s.nexthop.Some? ==> o.s.nexthop.value in o.s.links || o.s.nexthop.value == o.s.id)
    requires (exists n :: Feasible(o.s, n)) ==> Feasible(o.s, pick)
  {
    if !Affected(o.s) then ReplyIf(o, needReply)
    else if Feasible(o.s, pick) then ReplyIf(AdoptAndFlood(o, Some(pick), MinDistance(o.s)), needReply)
    else Diffuse(ReplyIf(o, needReply && !event.QueryFromSuccessor?), event)
  }

  ghost predicate Waiting(s: Route) {
    exists n :: s.Nbr(n).expectReply
  }

  /** processReply. `pick` is a neighbour at the minimum, if that is finite. */
  ghost function ReceiveReply(o: Outcome, n: NodeId, d: Dist, pick: NodeId): Outcome {
    if !o.s.Nbr(n).expectReply then o
    else
      var s := o.s.WithNbr(n, o.s.Nbr(n).(report := d, expectReply := false));
      if Waiting(s) then Outcome(s, o.out)
      else
        var dmin := MinDistance(s);
        var free := s.(state := ProcessEvent(s.state, LastReply, true));
        var o' := AdoptAndFlood(Outcome(free, o.out), if dmin == Inf then None else Some(pick), dmin);
        ReplyIf(o', o'.s.cornet != [])
  }

  /** peerUp up to the choice between reacting and a missed reply: the neighbour is no longer
      the next hop, and its link has the new cost. */
  function LinkBack(s: Route, n: NodeId, cost: nat): Route {
    var reset := if s.nexthop == Some(n) then s.(nexthop := None, distance := Inf) else s;
    reset.(links := reset.links[n := Fin(cost)], nbrs := reset.nbrs[n := reset.Nbr(n)])
  }

  /** peerUp does not hit a CHECK. */
  ghost predicate PeerUpChecks(s: Route, n: NodeId, cost: nat) {
    s.state == Passive ==> ReactChecks(LinkBack(s, n, cost))
  }

  /** The UPDATE that introduces us to the neighbour, and a reply we still owe it. */
  function Introduce(o: Outcome, n: NodeId): Outcome {
    var out := Post(o.out, n, Msg(Update, o.s.report));
    if o.s.Nbr(n).needToReply then
      Outcome(o.s.WithNbr(n, o.s.Nbr(n).(needToReply := false)), Post(out, n, Msg(Reply, o.s.report)))
    else Outcome(o.s, out)
  }

  /** What a PASSIVE node other than the root has computed: the minimum over its neighbours, in
      all three distances, with a next hop attaining it. */
  ghost predicate Computed(s: Route) {
    && s.distance == s.report == s.feasible
    && s.Minimal(s.distance)
    && (if s.distance == Inf then s.nexthop.None?
        else s.nexthop.Some? && s.nexthop.value in s.links && s.Via(s.nexthop.value) == s.distance)
  }

  /** Names and costs make sense, and the next hop is a neighbour (or the root itself). */
  ghost predicate Shaped(s: Route) {
    && s.id !in s.links
    && (if s.id == s.root then s.nexthop == Some(s.id) && s.distance == s.report == s.feasible == Fin(0)
        else s.nexthop.Some? ==> s.nexthop.value in s.links)
  }

  /** ACTIVE means waiting for a reply, from neighbours that are up. */
  ghost predicate WaitsRight(s: Route) {
    && (s.Active() <==> Waiting(s))
    && (forall n :: s.Nbr(n).expectReply ==> s.Up(n))
  }

  /** The invariant of a node. */
  ghost predicate Inv(s: Route) {
    && Shaped(s)
    && WaitsRight(s)
    && |s.cornet| <= (if s.Active() then 1 else 0)
    && (s.id == s.root ==> !s.Active())
    && (s.id != s.root && !s.Active() ==> Computed(s))
  }

  lemma MinDistanceIs(s: Route, d: Dist)
    requires s.Minimal(d)
    ensures MinDistance(s) == d
  {
    MinimalIsUnique(s, d, MinDistance(s));
  }

  /** `t` has the links and reports of `s`, so the same minimum. */
  lemma SameMinimum(s: Route, t: Route)
    requires s.links == t.links && forall n <- s.links :: s.Nbr(n).report == t.Nbr(n).report
    ensures MinDistance(s) == MinDistance(t)
    ensures forall d :: s.Minimal(d) <==> t.Minimal(d)
  {
    assert forall n <- s.links :: s.Via(n) == t.Via(n);
    assert s.Minimal(MinDistance(t));
    MinimalIsUnique(s, MinDistance(s), MinDistance(t));
  }

  /** A PASSIVE node that was computed before its links or reports moved is ready to react: its
      CHECKs cannot fail. */
  ghost predicate Disturbed(s: Route) {
    && Shaped(s) && s.state == Passive && !Waiting(s) && |s.cornet| <= 1
    && s.distance == s.report == s.feasible
    && (s.id != s.root ==> (s.nexthop.None? <==> s.distance == Inf))
  }

  lemma DisturbedPassesChecks(s: Route)
    requires Disturbed(s)
    ensures ReactChecks(s)
  {
    if Affected(s) && s.nexthop.None? {
      var d := MinDistance(s);
      assert d != Inf;
      var n :| n in s.links && s.Via(n) == d;
      assert Feasible(s, n);
    }
  }

  /** Not affected means still computed. */
  lemma UnaffectedIsComputed(s: Route)
    requires Disturbed(s) && s.id != s.root && !Affected(s)
    ensures Computed(s)
  {
    if s.links == map[] {
      assert s.nexthop.None?;
      assert s.Minimal(Inf);
    } else {
      assert s.Minimal(MinDistance(s));
    }
  }

  lemma AdoptIsComputed(s: Route, n: NodeId)
    requires Shaped(s) && s.id != s.root && Feasible(s, n)
    ensures Computed(Adopt(s, Some(n), MinDistance(s))) && Shaped(Adopt(s, Some(n), MinDistance(s)))
    ensures Waiting(Adopt(s, Some(n), MinDistance(s))) <==> Waiting(s)
  {
    var t := Adopt(s, Some(n), MinDistance(s));
    SameMinimum(s, t);
    assert forall m :: t.Nbr(m) == s.Nbr(m);
    assert t.Via(n) == s.Via(n);
  }

  /** Answering a query changes neither links, reports nor distances. */
  lemma ReplyKeepsRoute(o: Outcome)
    requires o.s.cornet != []
    ensures var s := SendReply(o).s;
            && s == o.s.(cornet := o.s.cornet[..|o.s.cornet| - 1], nbrs := s.nbrs)
            && forall n :: s.Nbr(n) == o.s.Nbr(n).(needToReply := s.Nbr(n).needToReply)
  {
  }

  lemma ReplyKeepsComputed(o: Outcome, needReply: bool)
    requires needReply ==> o.s.cornet != []
    requires Shaped(o.s) && !Waiting(o.s)
    requires o.s.id != o.s.root ==> Computed(o.s)
    ensures var s := ReplyIf(o, needReply).s;
            && Shaped(s) && !Waiting(s) && (s.id != s.root ==> Computed(s))
            && s.state == o.s.state && s.cornet == if needReply then o.s.cornet[..|o.s.cornet| - 1] else o.s.cornet
  {
    if needReply {
      ReplyKeepsRoute(o);
      SameMinimum(o.s, SendReply(o).s);
    }
  }

  lemma ReplyKeepsDisturbed(o: Outcome, needReply: bool)
    requires needReply ==> o.s.cornet != []
    requires Disturbed(o.s)
    ensures var s := ReplyIf(o, needReply).s;
            && Disturbed(s) && s.cornet == (if needReply then o.s.cornet[..|o.s.cornet| - 1] else o.s.cornet)
            && s.nexthop == o.s.nexthop && s.links == o.s.links && s.id == o.s.id && s.root == o.s.root
  {
    if needReply {
      ReplyKeepsRoute(o);
    }
  }

  /** What a diffusing computation makes of the neighbours. */
  lemma DiffuseAsks(o: Outcome, event: Event)
    requires Disturbed(o.s) && o.s.nexthop.Some? && o.s.nexthop.value in o.s.links
    ensures var t := Diffuse(o, event).s;
            && (forall n :: t.Nbr(n) == o.s.Nbr(n).(expectReply := t.Nbr(n).expectReply))
            && (forall n :: t.Nbr(n).expectReply <==> o.s.Up(n))
  {
    hide Disturbed, ProcessEvent;
    assert !Waiting(o.s) by {
      DisturbedIsIdle(o.s);
    }
  }

  lemma DisturbedIsIdle(s: Route)
    requires Disturbed(s)
    ensures !Waiting(s)
  {
  }

  /** Starting a diffusing computation: every up neighbour is asked, or there is none and the
      route is gone. */
  lemma DiffuseKeepsInv(o: Outcome, event: Event)
    requires Disturbed(o.s) && o.s.id != o.s.root && o.s.nexthop.Some? && !event.LastReply?
    requires o.s.cornet != [] ==> o.s.Up(o.s.nexthop.value)
    ensures Inv(Diffuse(o, event).s)
  {
    var t := Diffuse(o, event).s;
    DiffuseAsks(o, event);
    assert UpNeighbors(Adopt(o.s, o.s.nexthop, o.s.Via(o.s.nexthop.value))) == UpNeighbors(o.s);
    if UpNeighbors(o.s) == {} {
      assert forall n <- o.s.links :: n !in UpNeighbors(o.s);
      assert t.Minimal(Inf);
    } else {
      var m :| m in UpNeighbors(o.s);
      assert t.Nbr(m).expectReply;
    }
  }

  /** tryLocalOrDiffusing on a disturbed node restores the invariant. */
  lemma ReactKeepsInv(o: Outcome, event: Event, needReply: bool, pick: NodeId)
    requires Disturbed(o.s) && (needReply <==> o.s.cornet != []) && !event.LastReply?
    requires (exists n :: Feasible(o.s, n)) ==> Feasible(o.s, pick)
    requires event.QueryFromSuccessor? && o.s.id != o.s.root ==> needReply && o.s.nexthop.Some? && o.s.Up(o.s.nexthop.value)
    ensures ReactChecks(o.s)
    ensures Inv(React(o, event, needReply, pick).s)
  {
    DisturbedPassesChecks(o.s);
    if !Affected(o.s) {
      if o.s.id != o.s.root {
        UnaffectedIsComputed(o.s);
      }
      ReplyKeepsComputed(o, needReply);
    } else if Feasible(o.s, pick) {
      AdoptIsComputed(o.s, pick);
      ReplyKeepsComputed(AdoptAndFlood(o, Some(pick), MinDistance(o.s)), needReply);
    } else {
      var r := needReply && !event.QueryFromSuccessor?;
      ReplyKeepsDisturbed(o, r);
      DiffuseKeepsInv(ReplyIf(o, r), event);
    }
  }

  /** The last reply frees the node to take the minimum; an owed reply goes out. */
  ghost predicate PickOk(s: Route, pick: NodeId) {
    MinDistance(s) != Inf ==> pick in s.links && s.Via(pick) == MinDistance(s)
  }

  /** The state in which processReply looks for a new next hop. */
  function Replied(s: Route, n: NodeId, d: Dist): Route {
    s.WithNbr(n, s.Nbr(n).(report := d, expectReply := false))
  }

  lemma ReceiveReplyKeepsInv(o: Outcome, n: NodeId, d: Dist, pick: NodeId)
    requires Shaped(o.s) && |o.s.cornet| <= 1
    requires o.s.Active() && o.s.id != o.s.root && o.s.Nbr(n).expectReply
    requires forall m :: o.s.Nbr(m).expectReply ==> m == n || o.s.Up(m)
    requires PickOk(Replied(o.s, n, d), pick)
    ensures Inv(ReceiveReply(o, n, d, pick).s)
  {
    var s := Replied(o.s, n, d);
    assert forall m :: s.Nbr(m).expectReply ==> m != n && o.s.Nbr(m).expectReply;
    if !Waiting(s) {
      var dmin := MinDistance(s);
      var free := s.(state := ProcessEvent(s.state, LastReply, true));
      var nh := if dmin == Inf then None else Some(pick);
      var t := Adopt(free, nh, dmin);
      SameMinimum(s, t);
      assert forall m :: t.Nbr(m) == s.Nbr(m);
      assert Computed(t);
      var o' := AdoptAndFlood(Outcome(free, o.out), nh, dmin);
      ReplyKeepsComputed(o', o'.s.cornet != []);
    }
  }
}
