/** A network of DUAL nodes, one root, ordered loss-free links that come up, go down and deliver
    in any interleaving. */
module DualNetwork {
  import opened DualSpec
  import opened DualEvents
  import opened DualMail

  /** `created` holds the nodes that have a Dual for the root; the others only keep their link
      costs. `clock` and `since` are bookkeeping of the proof: `since[v]` is later than every
      other when `v` starts a diffusing computation. */
  datatype Net = Net(
    root: NodeId,
    nodes: map<NodeId, Route>,
    created: set<NodeId>,
    chan: (NodeId, NodeId) -> seq<Msg>,
    clock: nat,
    since: map<NodeId, nat>)

  /** What a node does with an event: without a Dual, it only notes the cost of a link; the first
      message makes the Dual. */
  ghost function AtNode(created: bool, s: Route, input: Input, pick: NodeId): Outcome
    requires Inv(s) && Legal(s, input) && Checks(s, input) && Picks(s, input, pick)
  {
    if created || input.Receive? then Handle(s, input, pick)
    else Outcome(s.(links := s.links[input.n := if input.Raise? then Fin(input.cost) else Inf]), map[])
  }

  /** A node without a Dual. */
  ghost predicate Pristine(s: Route) {
    s == NewRoute(s.id, s.root, s.links) && s.id != s.root
  }

  /** What follows from an event at a node, for each of its links. */
  ghost predicate Kept(created: bool, s: Route, input: Input, o: Outcome) {
    && Inv(o.s)
    && (forall m :: Promise(s, input, o, m))
    && (input.Raise? ==> Carries(Inf, Mail(o.out, input.n), o.s.report))
    && (forall m :: Owed(o.s, m) > Owed(s, m) ==> Activates(s, o.s))
    && (created || input.Receive? || Pristine(o.s))
  }

  lemma PristineIsQuiet(s: Route, input: Input, pick: NodeId, m: NodeId)
    requires Inv(s) && Legal(s, input) && Checks(s, input) && Picks(s, input, pick)
    requires Pristine(s) && !input.Receive?
    ensures var o := AtNode(false, s, input, pick); Promise(s, input, o, m) && Carries(Inf, Mail(o.out, m), o.s.report)
  {
  }

  lemma PristineKeepsInv(s: Route, input: Input, pick: NodeId)
    requires Inv(s) && Legal(s, input) && Checks(s, input) && Picks(s, input, pick)
    requires Pristine(s) && !input.Receive?
    ensures var t := AtNode(false, s, input, pick).s; Inv(t) && Pristine(t) && t.cornet == []
  {
  }

  lemma PristineIsKept(s: Route, input: Input, pick: NodeId)
    requires Inv(s) && Legal(s, input) && Checks(s, input) && Picks(s, input, pick)
    requires Pristine(s) && !input.Receive?
    ensures Kept(false, s, input, AtNode(false, s, input, pick))
  {
    var o := AtNode(false, s, input, pick);
    PristineKeepsInv(s, input, pick);
    assert forall m :: Owed(o.s, m) == 0;
    hide AtNode, Promise, Carries, Inv, Pristine;
    forall m ensures Promise(s, input, o, m) && Carries(Inf, Mail(o.out, m), o.s.report) {
      PristineIsQuiet(s, input, pick, m);
    }
  }

  lemma EventIsKept(created: bool, s: Route, input: Input, pick: NodeId)
    requires Inv(s) && Legal(s, input) && Checks(s, input) && Picks(s, input, pick)
    requires input.Raise? ==> !s.Up(input.n)
    requires created || Pristine(s)
    ensures Kept(created, s, input, AtNode(created, s, input, pick))
  {
    if created || input.Receive? {
      var o := Handle(s, input, pick);
      hide Promise, Inv, Handle, Checks, Picks, Carries, Owed;
      HandleKeepsInv(s, input, pick);
      forall m ensures Promise(s, input, o, m) && (Owed(o.s, m) > Owed(s, m) ==> Activates(s, o.s)) {
        HandlePromises(s, input, pick, m);
        KeptOnlyByActivating(s, input, pick, m);
      }
      if input.Raise? {
        RaiseOpens(s, input.n, input.cost, pick);
      }
    } else {
      PristineIsKept(s, input, pick);
    }
  }

  lemma RaiseOpens(s: Route, n: NodeId, cost: nat, pick: NodeId)
    requires Inv(s) && Legal(s, Raise(n, cost)) && Checks(s, Raise(n, cost)) && Picks(s, Raise(n, cost), pick)
    requires !s.Up(n)
    ensures var o := Handle(s, Raise(n, cost), pick); Carries(Inf, Mail(o.out, n), o.s.report)
  {
    var o := PeerUp(s, n, cost, pick);
    assert o == Handle(s, Raise(n, cost), pick);
    hide PeerUp, Inv, Handle, Checks, Picks;
    RaisePromises(s, n, cost, pick, n);
    OpeningCarries(Mail(o.out, n), s.report, Inf, o.s.report);
  }

  /** From `x` to `w`: the messages in flight carry what `w` has stored to what `x` reports. */
  ghost predicate OneWay(x: Route, w: Route, xw: seq<Msg>) {
    if x.Up(w.id) then Carries(w.Nbr(x.id).report, xw, x.report)
    else xw == [] && w.Nbr(x.id).report == Inf
  }

  /** If `v` waits for a reply of `u`, its query or the reply is in flight, or `u` keeps the query
      unanswered, and then, if nothing else answers it, `u` became ACTIVE after `v`. */
  ghost predicate WaitsFor(v: Route, u: Route, vu: seq<Msg>, uv: seq<Msg>, tv: nat, tu: nat) {
    var answers := Count(vu, Query) + Count(uv, Reply) + Owed(u, v.id);
    v.Nbr(u.id).expectReply ==> answers >= 1 && (answers == 1 && Owed(u, v.id) == 1 ==> tv < tu)
  }

  /** Both directions of a link. */
  ghost predicate Linked(x: Route, w: Route, xw: seq<Msg>, wx: seq<Msg>, tx: nat, tw: nat) {
    && OneWay(x, w, xw) && OneWay(w, x, wx)
    && WaitsFor(x, w, xw, wx, tx, tw) && WaitsFor(w, x, wx, xw, tw, tx)
  }

  /** What is left of `wx` when `x` has handled `input`. */
  function Rest(w: NodeId, input: Input, wx: seq<Msg>): seq<Msg> {
    if input.Receive? && input.n == w && wx != [] then wx[1..] else wx
  }

  /** The event is about the link to `w` only if it delivers the next message of `w`. */
  predicate Fits(w: NodeId, input: Input, wx: seq<Msg>) {
    input.n == w ==> input.Receive? && wx != [] && wx[0] == input.msg
  }

  function Later(s: Route, t: Route, clock: nat, since: nat): nat {
    if s.state == Passive && t.state != Passive then clock + 1 else since
  }

  lemma SenderStays(x: Route, w: Route, xw: seq<Msg>, wx: seq<Msg>, input: Input, o: Outcome)
    requires OneWay(x, w, xw) && Promise(x, input, o, w.id) && Fits(w.id, input, wx)
    ensures OneWay(o.s, w, xw + Mail(o.out, w.id))
  {
    assert o.s.Up(w.id) <==> x.Up(w.id);
    if x.Up(w.id) {
      CarriesAppend(w.Nbr(x.id).report, xw, x.report, Mail(o.out, w.id), o.s.report);
    }
  }

  lemma ReceiverStays(x: Route, w: Route, wx: seq<Msg>, input: Input, o: Outcome)
    requires OneWay(w, x, wx) && Promise(x, input, o, w.id) && Fits(w.id, input, wx)
    ensures OneWay(w, o.s, Rest(w.id, input, wx))
  {
  }

  lemma WaitedForStays(x: Route, w: Route, xw: seq<Msg>, wx: seq<Msg>, tx: nat, tw: nat, input: Input, o: Outcome, clock: nat)
    requires w.Nbr(x.id).expectReply ==> x.Up(w.id)
    requires WaitsFor(w, x, wx, xw, tw, tx)
    requires Promise(x, input, o, w.id) && Fits(w.id, input, wx) && tw <= clock
    requires Owed(o.s, w.id) > Owed(x, w.id) ==> Activates(x, o.s)
    ensures WaitsFor(w, o.s, Rest(w.id, input, wx), xw + Mail(o.out, w.id), tw, Later(x, o.s, clock, tx))
  {
    assert o.s.Up(w.id) <==> x.Up(w.id);
    CountAppend(xw, Mail(o.out, w.id), Reply);
  }

  lemma WaiterStays(x: Route, w: Route, xw: seq<Msg>, wx: seq<Msg>, tx: nat, tw: nat, input: Input, o: Outcome, clock: nat)
    requires WaitsFor(x, w, xw, wx, tx, tw)
    requires Promise(x, input, o, w.id) && Fits(w.id, input, wx)
    requires forall m :: o.s.Nbr(m).expectReply ==> o.s.Up(m)
    ensures WaitsFor(o.s, w, xw + Mail(o.out, w.id), Rest(w.id, input, wx), Later(x, o.s, clock, tx), tw)
  {
    CountAppend(xw, Mail(o.out, w.id), Query);
  }

  /** An event at `x` keeps its link to `w`. */
  lemma LinkStays(x: Route, w: Route, xw: seq<Msg>, wx: seq<Msg>, tx: nat, tw: nat, input: Input, o: Outcome, created: bool, clock: nat)
    requires Linked(x, w, xw, wx, tx, tw) && Fits(w.id, input, wx) && tw <= clock
    requires Kept(created, x, input, o) && (w.Nbr(x.id).expectReply ==> x.Up(w.id))
    ensures o.s.id == x.id && (o.s.Up(w.id) <==> x.Up(w.id))
    ensures Linked(o.s, w, xw + Mail(o.out, w.id), Rest(w.id, input, wx), Later(x, o.s, clock, tx), tw)
  {
    assert Promise(x, input, o, w.id);
    assert forall m :: o.s.Nbr(m).expectReply ==> o.s.Up(m);
    SameLinks(x, w.id, input, wx);
    hide OneWay, WaitsFor, Inv, Sends, Fits, Rest, Kept, Noted;
    SenderStays(x, w, xw, wx, input, o);
    ReceiverStays(x, w, wx, input, o);
    WaitedForStays(x, w, xw, wx, tx, tw, input, o, clock);
    WaiterStays(x, w, xw, wx, tx, tw, input, o, clock);
  }

  lemma SameLinks(x: Route, w: NodeId, input: Input, wx: seq<Msg>)
    requires Fits(w, input, wx)
    ensures input.n == w ==> input.Receive?
    ensures Noted(x, input).Up(w) <==> x.Up(w)
  {
  }

  /** A link that has just come up at both ends. */
  lemma LinkOpens(x: Route, w: Route, ox: Outcome, ow: Outcome, costX: nat, costW: nat, cx: bool, cw: bool, tx: nat, tw: nat)
    requires x.Nbr(w.id).report == Inf && w.Nbr(x.id).report == Inf && Inv(x) && Inv(w) && !x.Up(w.id) && !w.Up(x.id)
    requires Kept(cx, x, Raise(w.id, costX), ox) && Kept(cw, w, Raise(x.id, costW), ow)
    ensures ox.s.id == x.id && ow.s.id == w.id && ox.s.Up(w.id) && ow.s.Up(x.id)
    ensures OneWay(ox.s, ow.s, Mail(ox.out, w.id)) && WaitsFor(ox.s, ow.s, Mail(ox.out, w.id), Mail(ow.out, x.id), tx, tw)
  {
    assert !x.Nbr(w.id).expectReply;
    hide Inv;
    assert Promise(x, Raise(w.id, costX), ox, w.id);
    assert Promise(w, Raise(x.id, costW), ow, x.id);
  }

  /** A link that has just gone down at both ends. */
  lemma LinkCloses(x: Route, w: Route, ox: Outcome, ow: Outcome, cx: bool, cw: bool, tx: nat, tw: nat)
    requires Kept(cx, x, Drop(w.id), ox) && Kept(cw, w, Drop(x.id), ow)
    ensures ox.s.id == x.id && ow.s.id == w.id && !ox.s.Up(w.id) && !ow.s.Up(x.id)
    ensures Mail(ox.out, w.id) == [] && OneWay(ox.s, ow.s, []) && WaitsFor(ox.s, ow.s, [], [], tx, tw)
  {
    hide Inv;
    assert Promise(x, Drop(w.id), ox, w.id);
    assert Promise(w, Drop(x.id), ow, x.id);
  }

  /** No link costs nothing. */
  predicate Priced(s: Route) {
    forall n <- s.links :: s.links[n] != Fin(0)
  }

  /** Node `a` and its entries in the network. */
  ghost predicate NodeOk(net: Net, a: NodeId)
    requires a in net.nodes
  {
    && var s := net.nodes[a];
    && s.id == a && s.root == net.root && Inv(s) && Priced(s) && s.links.Keys <= net.nodes.Keys
    && (a in net.created || Pristine(s))
    && a in net.since && net.since[a] <= net.clock
  }

  ghost predicate Formed(net: Net) {
    net.root in net.nodes && forall a <- net.nodes :: NodeOk(net, a)
  }

  /** The link between `a` and `b` is sound. */
  ghost predicate Sound(net: Net, a: NodeId, b: NodeId)
    requires a in net.nodes && b in net.nodes && a in net.since && b in net.since
  {
    && (net.nodes[a].Up(b) <==> net.nodes[b].Up(a))
    && Linked(net.nodes[a], net.nodes[b], net.chan(a, b), net.chan(b, a), net.since[a], net.since[b])
  }

  /** The invariant of the network. */
  ghost predicate NetInv(net: Net) {
    && Formed(net)
    && forall a <- net.nodes, b <- net.nodes | a != b :: NodeOk(net, a) && NodeOk(net, b) && Sound(net, a, b)
  }

  ghost predicate CanFire(net: Net, x: NodeId, input: Input, pick: NodeId) {
    && x in net.nodes && x in net.since && input.n in net.nodes
    && var s := net.nodes[x];
    && Inv(s) && Legal(s, input) && Checks(s, input) && Picks(s, input, pick)
    && (input.Raise? ==> !s.Up(input.n) && input.cost > 0)
  }

  ghost function Fired(net: Net, x: NodeId, input: Input, pick: NodeId): Outcome
    requires CanFire(net, x, input, pick)
  {
    AtNode(x in net.created, net.nodes[x], input, pick)
  }

  ghost function Posted(chan: (NodeId, NodeId) -> seq<Msg>, x: NodeId, out: Outbox): (NodeId, NodeId) -> seq<Msg> {
    (a: NodeId, b: NodeId) => if a == x then chan(a, b) + Mail(out, b) else chan(a, b)
  }

  /** An event at `x`: its messages go onto the links. */
  ghost function Fire(net: Net, x: NodeId, input: Input, pick: NodeId): Net
    requires CanFire(net, x, input, pick)
  {
    var s, o := net.nodes[x], Fired(net, x, input, pick);
    net.(
      nodes := net.nodes[x := o.s],
      created := if input.Receive? then net.created + {x} else net.created,
      chan := Posted(net.chan, x, o.out),
      clock := if Activates(s, o.s) then net.clock + 1 else net.clock,
      since := net.since[x := Later(s, o.s, net.clock, net.since[x])])
  }

  lemma FireIsKept(net: Net, x: NodeId, input: Input, pick: NodeId)
    requires CanFire(net, x, input, pick) && NodeOk(net, x)
    ensures Kept(x in net.created, net.nodes[x], input, Fired(net, x, input, pick))
  {
    hide AtNode, Inv, Checks, Picks, Kept;
    EventIsKept(x in net.created, net.nodes[x], input, pick);
  }

  lemma FireKeepsNode(net: Net, x: NodeId, input: Input, pick: NodeId, a: NodeId)
    requires CanFire(net, x, input, pick) && NodeOk(net, x)
    requires a in net.nodes && NodeOk(net, a)
    ensures NodeOk(Fire(net, x, input, pick), a)
  {
    FireIsKept(net, x, input, pick);
    hide Inv, Checks, Picks, Fired, Pristine, Sends, StoredAfter;
    var o := Fired(net, x, input, pick);
    assert Promise(net.nodes[x], input, o, 0);
    NotedLinks(net.nodes[x], input);
  }

  lemma NotedLinks(s: Route, input: Input)
    ensures Noted(s, input).links.Keys <= s.links.Keys + {input.n}
    ensures Priced(s) && (input.Raise? ==> input.cost > 0) ==> Priced(Noted(s, input))
  {
  }

  lemma FireKeepsFormed(net: Net, x: NodeId, input: Input, pick: NodeId)
    requires CanFire(net, x, input, pick) && Formed(net)
    ensures Formed(Fire(net, x, input, pick))
  {
    var after := Fire(net, x, input, pick);
    assert after.nodes.Keys == net.nodes.Keys && after.root == net.root;
    hide NodeOk, Fire, CanFire;
    forall a | a in after.nodes ensures NodeOk(after, a) {
      FireKeepsNode(net, x, input, pick, a);
    }
  }

  /** A link that the event is not about stays sound. */
  lemma FireKeepsLink(net: Net, x: NodeId, input: Input, pick: NodeId, w: NodeId)
    requires CanFire(net, x, input, pick) && NodeOk(net, x)
    requires w in net.nodes && NodeOk(net, w) && w != x && w != input.n && Sound(net, x, w)
    ensures NodeOk(Fire(net, x, input, pick), x) && NodeOk(Fire(net, x, input, pick), w)
    ensures Sound(Fire(net, x, input, pick), x, w)
  {
    FireKeepsNode(net, x, input, pick, x);
    FireKeepsNode(net, x, input, pick, w);
    FireIsKept(net, x, input, pick);
    assert net.nodes[w].Nbr(x).expectReply ==> net.nodes[w].Up(x);
    var o := Fired(net, x, input, pick);
    hide Inv, Checks, Picks, Fired, Pristine, Kept, Linked, Legal;
    LinkStays(net.nodes[x], net.nodes[w], net.chan(x, w), net.chan(w, x), net.since[x], net.since[w], input, o, x in net.created, net.clock);
  }

  lemma SoundIsSymmetric(net: Net, a: NodeId, b: NodeId)
    requires a in net.nodes && b in net.nodes && a in net.since && b in net.since && Sound(net, a, b)
    ensures Sound(net, b, a)
  {
  }

  /** So an event keeps every link but the one it is about. */
  lemma FireKeepsSound(net: Net, x: NodeId, input: Input, pick: NodeId, a: NodeId, b: NodeId)
    requires CanFire(net, x, input, pick) && NodeOk(net, x)
    requires a in net.nodes && b in net.nodes && NodeOk(net, a) && NodeOk(net, b) && a != b && Sound(net, a, b)
    requires !(a == x && b == input.n) && !(b == x && a == input.n)
    ensures NodeOk(Fire(net, x, input, pick), a) && NodeOk(Fire(net, x, input, pick), b)
    ensures Sound(Fire(net, x, input, pick), a, b)
  {
    FireKeepsNode(net, x, input, pick, a);
    FireKeepsNode(net, x, input, pick, b);
    hide Inv, Checks, Picks, Fired, Pristine, Kept, Linked;
    if a == x {
      FireKeepsLink(net, x, input, pick, b);
    } else if b == x {
      SoundIsSymmetric(net, a, b);
      FireKeepsLink(net, x, input, pick, a);
      SoundIsSymmetric(Fire(net, x, input, pick), b, a);
    }
  }

  datatype Step =
    | LinkUp(u: NodeId, v: NodeId, costU: nat, costV: nat, pickU: NodeId, pickV: NodeId)
    | LinkDown(u: NodeId, v: NodeId, pickU: NodeId, pickV: NodeId)
    | Deliver(u: NodeId, v: NodeId, pickV: NodeId)

  /** The messages of a link that goes down are lost. */
  ghost function Cut(net: Net, u: NodeId, v: NodeId): Net {
    net.(chan := (a: NodeId, b: NodeId) => if (a == u && b == v) || (a == v && b == u) then [] else net.chan(a, b))
  }

  ghost function Taken(net: Net, u: NodeId, v: NodeId): Net
    requires net.chan(u, v) != []
  {
    net.(chan := (a: NodeId, b: NodeId) => if a == u && b == v then net.chan(u, v)[1..] else net.chan(a, b))
  }

  ghost predicate Enabled(net: Net, step: Step) {
    && step.u != step.v
    && match step
       case LinkUp(u, v, costU, costV, pickU, pickV) =>
         && CanFire(net, u, Raise(v, costU), pickU) && CanFire(net, v, Raise(u, costV), pickV)
       case LinkDown(u, v, pickU, pickV) =>
         && CanFire(net, u, Drop(v), pickU) && CanFire(net, v, Drop(u), pickV)
       case Deliver(u, v, pickV) =>
         net.chan(u, v) != [] && CanFire(net, v, Receive(u, net.chan(u, v)[0]), pickV)
  }

  ghost function Apply(net: Net, step: Step): Net
    requires Enabled(net, step)
  {
    match step
    case LinkUp(u, v, costU, costV, pickU, pickV) =>
      Fire(Fire(net, u, Raise(v, costU), pickU), v, Raise(u, costV), pickV)
    case LinkDown(u, v, pickU, pickV) =>
      Fire(Fire(Cut(net, u, v), u, Drop(v), pickU), v, Drop(u), pickV)
    case Deliver(u, v, pickV) =>
      Fire(Taken(net, u, v), v, Receive(u, net.chan(u, v)[0]), pickV)
  }

  /** Every link but the one between `u` and `v` is sound. */
  ghost predicate SoundBut(net: Net, u: NodeId, v: NodeId) {
    forall a <- net.nodes, b <- net.nodes | a != b && !(a == u && b == v) && !(a == v && b == u) ::
      NodeOk(net, a) && NodeOk(net, b) && Sound(net, a, b)
  }

  lemma FireKeepsSoundBut(net: Net, x: NodeId, input: Input, pick: NodeId)
    requires CanFire(net, x, input, pick) && Formed(net) && SoundBut(net, x, input.n)
    ensures Formed(Fire(net, x, input, pick)) && SoundBut(Fire(net, x, input, pick), x, input.n)
  {
    var after := Fire(net, x, input, pick);
    FireKeepsFormed(net, x, input, pick);
    assert after.nodes.Keys == net.nodes.Keys;
    hide NodeOk, Fire, CanFire, Sound;
    forall a, b | a in after.nodes && b in after.nodes && a != b && !(a == x && b == input.n) && !(a == input.n && b == x)
      ensures NodeOk(after, a) && NodeOk(after, b) && Sound(after, a, b)
    {
      assert NodeOk(net, a) && NodeOk(net, b) && Sound(net, a, b);
      FireKeepsSound(net, x, input, pick, a, b);
    }
  }

  lemma SoundButIsSymmetric(net: Net, u: NodeId, v: NodeId)
    requires SoundBut(net, u, v)
    ensures SoundBut(net, v, u)
  {
  }

  /** One link more, and the invariant holds. */
  lemma LastLink(net: Net, u: NodeId, v: NodeId)
    requires Formed(net) && SoundBut(net, u, v) && u in net.nodes && v in net.nodes && u in net.since && v in net.since
    requires Sound(net, u, v)
    ensures NetInv(net)
  {
  }

  lemma FireEnables(net: Net, u: NodeId, inU: Input, pickU: NodeId, v: NodeId, inV: Input, pickV: NodeId)
    requires u != v && CanFire(net, u, inU, pickU) && CanFire(net, v, inV, pickV)
    ensures CanFire(Fire(net, u, inU, pickU), v, inV, pickV) && Fire(net, u, inU, pickU).nodes.Keys == net.nodes.Keys
    ensures u in Fire(net, u, inU, pickU).since && u in net.nodes
  {
    hide Inv, Checks, Picks, Legal, Fired, Posted;
  }

  /** Both ends of the link between `u` and `v` handle an event about it. */
  lemma BothEnds(net: Net, u: NodeId, inU: Input, pickU: NodeId, v: NodeId, inV: Input, pickV: NodeId)
    requires u != v && inU.n == v && inV.n == u && Formed(net) && SoundBut(net, u, v)
    requires CanFire(net, u, inU, pickU) && CanFire(net, v, inV, pickV)
    ensures CanFire(Fire(net, u, inU, pickU), v, inV, pickV)
    ensures var after := Fire(Fire(net, u, inU, pickU), v, inV, pickV);
            && Formed(after) && SoundBut(after, u, v) && after.nodes.Keys == net.nodes.Keys && u in after.since && v in after.since
  {
    FireEnables(net, u, inU, pickU, v, inV, pickV);
    hide NodeOk, CanFire, SoundBut, Fired, Inv, Checks, Picks, Legal, Posted, Later, Activates;
    FireKeepsSoundBut(net, u, inU, pickU);
    var mid := Fire(net, u, inU, pickU);
    SoundButIsSymmetric(mid, u, v);
    FireKeepsSoundBut(mid, v, inV, pickV);
    SoundButIsSymmetric(Fire(mid, v, inV, pickV), v, u);
  }

  lemma FireState(net: Net, x: NodeId, input: Input, pick: NodeId)
    requires CanFire(net, x, input, pick) && !input.Receive?
    ensures var after, o := Fire(net, x, input, pick), Fired(net, x, input, pick);
            && after.nodes == net.nodes[x := o.s] && after.created == net.created
            && (forall a, b :: after.chan(a, b) == if a == x then net.chan(a, b) + Mail(o.out, b) else net.chan(a, b))
  {
  }

  lemma SameNodeFiresSame(net: Net, net': Net, x: NodeId, input: Input, pick: NodeId)
    requires CanFire(net, x, input, pick) && CanFire(net', x, input, pick)
    requires net.nodes[x] == net'.nodes[x] && net.created == net'.created
    ensures Fired(net, x, input, pick) == Fired(net', x, input, pick)
  {
  }

  lemma BothEndsState(net: Net, u: NodeId, inU: Input, pickU: NodeId, v: NodeId, inV: Input, pickV: NodeId)
    requires u != v && inU.n == v && inV.n == u && CanFire(net, u, inU, pickU) && CanFire(net, v, inV, pickV)
    requires net.chan(u, v) == [] && net.chan(v, u) == []
    requires CanFire(Fire(net, u, inU, pickU), v, inV, pickV) && (!inU.Receive? && !inV.Receive?)
    ensures var after := Fire(Fire(net, u, inU, pickU), v, inV, pickV);
            var ou, ov := Fired(net, u, inU, pickU), Fired(net, v, inV, pickV);
            && u in after.nodes && v in after.nodes && after.nodes[u] == ou.s && after.nodes[v] == ov.s
            && after.chan(u, v) == Mail(ou.out, v) && after.chan(v, u) == Mail(ov.out, u)
  {
    var ou, ov, mid := Fired(net, u, inU, pickU), Fired(net, v, inV, pickV), Fire(net, u, inU, pickU);
    assert u in net.nodes && v in net.nodes;
    FireState(net, u, inU, pickU);
    hide Fire, CanFire, Fired, Mail;
    SameNodeFiresSame(net, mid, v, inV, pickV);
    FireState(mid, v, inV, pickV);
    assert [] + Mail(ou.out, v) == Mail(ou.out, v) && [] + Mail(ov.out, u) == Mail(ov.out, u);
  }

  lemma LinkUpKeepsInv(net: Net, u: NodeId, v: NodeId, costU: nat, costV: nat, pickU: NodeId, pickV: NodeId)
    requires NetInv(net) && Enabled(net, LinkUp(u, v, costU, costV, pickU, pickV))
    ensures NetInv(Apply(net, LinkUp(u, v, costU, costV, pickU, pickV)))
  {
    var inU, inV := Raise(v, costU), Raise(u, costV);
    var x, w := net.nodes[u], net.nodes[v];
    assert NodeOk(net, u) && NodeOk(net, v) && Sound(net, u, v);
    FireIsKept(net, u, inU, pickU);
    FireIsKept(net, v, inV, pickV);
    BothEnds(net, u, inU, pickU, v, inV, pickV);
    var after := Apply(net, LinkUp(u, v, costU, costV, pickU, pickV));
    BothEndsState(net, u, inU, pickU, v, inV, pickV);
    var ou, ov := Fired(net, u, inU, pickU), Fired(net, v, inV, pickV);
    LinkOpens(x, w, ou, ov, costU, costV, u in net.created, v in net.created, after.since[u], after.since[v]);
    LinkOpens(w, x, ov, ou, costV, costU, v in net.created, u in net.created, after.since[v], after.since[u]);
    hide Apply, Kept, Inv, CanFire, NodeOk, OneWay, WaitsFor, Fired, Formed, SoundBut;
    assert Sound(after, u, v);
    LastLink(after, u, v);
  }

  lemma LinkDownKeepsInv(net: Net, u: NodeId, v: NodeId, pickU: NodeId, pickV: NodeId)
    requires NetInv(net) && Enabled(net, LinkDown(u, v, pickU, pickV))
    ensures NetInv(Apply(net, LinkDown(u, v, pickU, pickV)))
  {
    var inU, inV, cut := Drop(v), Drop(u), Cut(net, u, v);
    var x, w := net.nodes[u], net.nodes[v];
    CutKeepsRest(net, u, v);
    FireIsKept(cut, u, inU, pickU);
    FireIsKept(cut, v, inV, pickV);
    BothEnds(cut, u, inU, pickU, v, inV, pickV);
    var after := Apply(net, LinkDown(u, v, pickU, pickV));
    BothEndsState(cut, u, inU, pickU, v, inV, pickV);
    var ou, ov := Fired(cut, u, inU, pickU), Fired(cut, v, inV, pickV);
    LinkCloses(x, w, ou, ov, u in net.created, v in net.created, after.since[u], after.since[v]);
    LinkCloses(w, x, ov, ou, v in net.created, u in net.created, after.since[v], after.since[u]);
    hide Apply, Kept, Inv, CanFire, NodeOk, OneWay, WaitsFor, Fired, Formed, SoundBut;
    assert Sound(after, u, v);
    LastLink(after, u, v);
  }

  lemma CutKeepsRest(net: Net, u: NodeId, v: NodeId)
    requires NetInv(net) && u != v && u in net.nodes && v in net.nodes
    ensures Formed(Cut(net, u, v)) && SoundBut(Cut(net, u, v), u, v) && NodeOk(Cut(net, u, v), u) && NodeOk(Cut(net, u, v), v)
  {
    var cut := Cut(net, u, v);
    forall a | a in cut.nodes ensures NodeOk(cut, a) {
      assert NodeOk(net, a);
    }
    hide NodeOk, Linked;
    forall a, b | a in cut.nodes && b in cut.nodes && a != b && !(a == u && b == v) && !(a == v && b == u)
      ensures NodeOk(cut, a) && NodeOk(cut, b) && Sound(cut, a, b)
    {
      assert NodeOk(net, a) && NodeOk(net, b) && Sound(net, a, b);
    }
  }

  lemma TakenKeepsRest(net: Net, u: NodeId, v: NodeId)
    requires NetInv(net) && u != v && u in net.nodes && v in net.nodes && net.chan(u, v) != []
    ensures Formed(Taken(net, u, v)) && SoundBut(Taken(net, u, v), v, u) && NodeOk(Taken(net, u, v), v)
  {
    var taken := Taken(net, u, v);
    forall a | a in taken.nodes ensures NodeOk(taken, a) {
      assert NodeOk(net, a);
    }
    hide NodeOk, Linked;
    forall a, b | a in taken.nodes && b in taken.nodes && a != b && !(a == u && b == v) && !(a == v && b == u)
      ensures NodeOk(taken, a) && NodeOk(taken, b) && Sound(taken, a, b)
    {
      assert NodeOk(net, a) && NodeOk(net, b) && Sound(net, a, b);
    }
  }

  /** The link over which a message was delivered is sound again. */
  lemma DeliveredLink(net: Net, u: NodeId, v: NodeId, pickV: NodeId)
    requires NetInv(net) && Enabled(net, Deliver(u, v, pickV))
    ensures var after := Apply(net, Deliver(u, v, pickV));
            u in after.nodes && v in after.nodes && u in after.since && v in after.since && Sound(after, v, u)
  {
    var input, taken := Receive(u, net.chan(u, v)[0]), Taken(net, u, v);
    var x, w := net.nodes[v], net.nodes[u];
    assert NodeOk(net, u) && NodeOk(net, v) && Sound(net, v, u);
    assert w.Nbr(v).expectReply ==> w.Up(v);
    assert NodeOk(taken, v);
    FireIsKept(taken, v, input, pickV);
    var o := Fired(taken, v, input, pickV);
    hide Inv, NodeOk, Kept, Linked, Formed, Fired, Legal, Checks, Picks, NetInv;
    LinkStays(x, w, net.chan(v, u), net.chan(u, v), net.since[v], net.since[u], input, o, v in net.created, net.clock);
  }

  lemma DeliverKeepsInv(net: Net, u: NodeId, v: NodeId, pickV: NodeId)
    requires NetInv(net) && Enabled(net, Deliver(u, v, pickV))
    ensures NetInv(Apply(net, Deliver(u, v, pickV)))
  {
    var input, taken := Receive(u, net.chan(u, v)[0]), Taken(net, u, v);
    assert Apply(net, Deliver(u, v, pickV)) == Fire(taken, v, input, pickV);
    assert CanFire(taken, v, input, pickV) && v in net.nodes && u in net.nodes;
    hide NetInv, CanFire, Fire, Apply, Formed, SoundBut, Sound, NodeOk;
    TakenKeepsRest(net, u, v);
    FireKeepsSoundBut(taken, v, input, pickV);
    DeliveredLink(net, u, v, pickV);
    LastLink(Fire(taken, v, input, pickV), v, u);
  }

  /** Links down, and a Dual only at the root. */
  ghost predicate Init(net: Net) {
    && net.root in net.nodes && net.created == {net.root} && net.since.Keys == net.nodes.Keys
    && (forall a <- net.nodes :: net.nodes[a] == NewRoute(a, net.root, map[]) && net.since[a] <= net.clock)
    && (forall a, b :: net.chan(a, b) == [])
  }

  lemma InitIsGood(net: Net)
    requires Init(net)
    ensures NetInv(net)
  {
    forall a | a in net.nodes ensures NodeOk(net, a) {
      assert net.nodes[a].Minimal(Inf);
    }
    forall a, b | a in net.nodes && b in net.nodes && a != b ensures Sound(net, a, b) {
    }
  }

  /** Every step of the network keeps its invariant. */
  lemma ApplyKeepsInv(net: Net, step: Step)
    requires NetInv(net) && Enabled(net, step)
    ensures NetInv(Apply(net, step))
  {
    hide NetInv, CanFire, Apply;
    match step
    case LinkUp(u, v, costU, costV, pickU, pickV) => LinkUpKeepsInv(net, u, v, costU, costV, pickU, pickV);
    case LinkDown(u, v, pickU, pickV) => LinkDownKeepsInv(net, u, v, pickU, pickV);
    case Deliver(u, v, pickV) => DeliverKeepsInv(net, u, v, pickV);
  }

  /** A run of the network. */
  ghost predicate Execution(trace: seq<Net>) {
    && trace != [] && Init(trace[0])
    && forall i | 0 < i < |trace| :: Follows(trace[i - 1], trace[i])
  }

  ghost predicate Follows(net: Net, after: Net) {
    exists step :: Enabled(net, step) && after == Apply(net, step)
  }

  lemma {:induction false} ReachableIsGood(trace: seq<Net>, k: nat)
    requires Execution(trace) && k < |trace|
    ensures NetInv(trace[k])
  {
    hide NetInv, Init, Enabled, Apply;
    if k == 0 {
      InitIsGood(trace[0]);
    } else {
      ReachableIsGood(trace, k - 1);
      assert Follows(trace[k - 1], trace[k]);
      var step :| Enabled(trace[k - 1], step) && trace[k] == Apply(trace[k - 1], step);
      ApplyKeepsInv(trace[k - 1], step);
    }
  }
}
