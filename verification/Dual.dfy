/** The class Dual: the event methods as the source writes them, proved to do what the event
    functions of DualSpec and DualEvents say. A CHECK that would abort the process is reported as
    `ok == false`. */
module Duals {
  import opened Options
  import opened DualSpec
  import opened DualEvents

  /** One more message for every neighbour in `ns`. */
  function PostTo(out: Outbox, ns: set<NodeId>, msg: Msg): Outbox {
    map n | n in out.Keys + ns :: Mail(out, n) + (if n in ns then [msg] else [])
  }

  lemma PostToAll(s: Route, out: Outbox, msg: Msg)
    ensures PostTo(out, UpNeighbors(s), msg) == PostAll(s, out, msg)
  {
  }

  lemma PostToNone(out: Outbox, msg: Msg)
    ensures PostTo(out, {}, msg) == out
  {
    assert forall n <- out :: Mail(out, n) + [] == out[n];
  }

  lemma PostToOneMore(out: Outbox, ns: set<NodeId>, n: NodeId, msg: Msg)
    requires n !in ns
    ensures Post(PostTo(out, ns, msg), n, msg) == PostTo(out, ns + {n}, msg)
  {
    assert Mail(out, n) + [] == Mail(out, n);
  }

  /** The neighbours after those in `ns` were asked. */
  function Asked(s: Route, ns: set<NodeId>): map<NodeId, Neighbor> {
    map n | n in s.nbrs.Keys + ns :: if n in ns then s.Nbr(n).(expectReply := true) else s.Nbr(n)
  }

  lemma AskedOneMore(s: Route, ns: set<NodeId>, n: NodeId)
    requires n !in ns
    ensures Asked(s, ns)[n := s.(nbrs := Asked(s, ns)).Nbr(n).(expectReply := true)] == Asked(s, ns + {n})
  {
  }

  lemma AskedNone(s: Route)
    ensures Asked(s, {}) == s.nbrs
  {
  }

  /** A finite distance that is strictly less. */
  predicate Below(report: Dist, feasible: Dist) {
    report != Inf && (feasible != Inf ==> report.n < feasible.n)
  }

  /** The queries of diffusingComputation. */
  method AskAll(s: Route, out: Outbox) returns (success: bool, nbrs: map<NodeId, Neighbor>, sent: Outbox)
    ensures success == (UpNeighbors(s) != {}) && nbrs == Asked(s, UpNeighbors(s))
    ensures sent == PostAll(s, out, Msg(Query, s.report))
  {
    success, nbrs, sent := false, s.nbrs, out;
    var msg, todo := Msg(Query, s.report), s.links.Keys;
    ghost var done: set<NodeId> := {};
    PostToNone(out, msg);
    AskedNone(s);
    hide PostTo, Asked;
    while todo != {}
      invariant todo <= s.links.Keys
      invariant done == set n | n in s.links.Keys - todo && s.Up(n)
      invariant success == (done != {}) && sent == PostTo(out, done, msg) && nbrs == Asked(s, done)
    {
      var n :| n in todo;
      todo := todo - {n};
      if s.links[n] != Inf {
        PostToOneMore(out, done, n, msg);
        AskedOneMore(s, done, n);
        sent := Post(sent, n, msg);
        nbrs := nbrs[n := s.(nbrs := nbrs).Nbr(n).(expectReply := true)];
        success := true;
        done := done + {n};
      }
    }
    assert done == UpNeighbors(s);
    PostToAll(s, out, msg);
  }

  /** What the methods rely on in a node that satisfies its invariant. */
  lemma NodeShape(s: Route)
    requires Inv(s)
    ensures s.id == s.root ==> s.nexthop == Some(s.id)
    ensures s.nexthop.Some? ==> s.nexthop.value in s.links || s.nexthop.value == s.id
    ensures |s.cornet| <= 1 && (forall n :: s.Nbr(n).expectReply ==> s.Active())
    ensures s.Active() ==> s.id != s.root
  {
  }

  class Dual {
    const id: NodeId
    const root: NodeId
    var links: map<NodeId, Dist>
    var distance: Dist
    var report: Dist
    var feasible: Dist
    var nexthop: Option<NodeId>
    var state: State
    var nbrs: map<NodeId, Neighbor>
    var cornet: seq<NodeId>

    function Snap(): Route
      reads this
    {
      Route(id, root, links, distance, report, feasible, nexthop, state, nbrs, cornet)
    }

    constructor (id: NodeId, root: NodeId, links: map<NodeId, Dist>)
      ensures Snap() == NewRoute(id, root, links)
      ensures id !in links ==> Inv(Snap())
    {
      this.id, this.root, this.links := id, root, links;
      distance, report, feasible, nexthop := Inf, Inf, Inf, None;
      state, nbrs, cornet := Passive, map[], [];
      if id == root {
        distance, report, feasible, nexthop := Fin(0), Fin(0), Fin(0), Some(id);
      }
      new;
      if id !in links {
        NewRouteInv(id, root, links);
      }
    }

    method GetMinDistance() returns (d: Dist)
      ensures d == if id == root then Fin(0) else MinDistance(Snap())
    {
      if id == root {
        return Fin(0);
      }
      d := Inf;
      var todo := links.Keys;
      ghost var s := Snap();
      while todo != {}
        invariant todo <= links.Keys
        invariant forall n <- links.Keys - todo :: !Less(s.Via(n), d)
        invariant d != Inf ==> exists n <- links :: s.Via(n) == d
      {
        var n :| n in todo;
        todo := todo - {n};
        var through := Snap().Via(n);
        if Less(through, d) {
          d := through;
        }
      }
      MinDistanceIs(s, d);
    }

    method RouteAffected() returns (ok: bool, affected: bool)
      requires id == root ==> nexthop == Some(id)
      ensures ok <==> !(Affected(Snap()) && nexthop.None? && distance == MinDistance(Snap()))
      ensures ok ==> (affected <==> Affected(Snap()))
    {
      if links == map[] {
        return true, false;
      }
      if nexthop == Some(id) {
        return true, false;
      }
      var dmin := GetMinDistance();
      if distance != dmin {
        return true, true;
      }
      if dmin == Inf {
        return true, false;
      }
      var nexthops, todo := {}, links.Keys;
      while todo != {}
        invariant todo <= links.Keys
        invariant nexthops == set n | n in links.Keys - todo && Snap().Via(n) == dmin
      {
        var n :| n in todo;
        todo := todo - {n};
        if Snap().Via(n) == dmin {
          nexthops := nexthops + {n};
        }
      }
      if nexthop.None? {
        return false, false;
      }
      return true, nexthop.value !in nexthops;
    }

    method MeetFeasibleCondition() returns (found: Option<NodeId>, d: Dist)
      requires id != root
      ensures d == MinDistance(Snap())
      ensures found.Some? ==> Feasible(Snap(), found.value)
      ensures found.None? ==> forall n :: !Feasible(Snap(), n)
      ensures found.Some? ==> found.value in links && links[found.value] != Inf && found.value in nbrs && Below(nbrs[found.value].report, feasible)
      ensures found.None? ==> forall n <- links :: links[n] != Inf && n in nbrs && Below(nbrs[n].report, feasible) ==> Snap().Via(n) != d
    {
      d := GetMinDistance();
      var todo := links.Keys;
      while todo != {}
        invariant todo <= links.Keys
        invariant forall n <- links.Keys - todo :: !Feasible(Snap(), n)
      {
        var n :| n in todo;
        todo := todo - {n};
        if links[n] != Inf {
          if Less(Snap().Nbr(n).report, feasible) && Snap().Via(n) == d {
            return Some(n), d;
          }
        }
      }
      forall n <- links | links[n] != Inf && n in nbrs && Below(nbrs[n].report, feasible) ensures Snap().Via(n) != d {
        assert !Feasible(Snap(), n);
      }
      return None, d;
    }

    method FloodUpdates(out: Outbox) returns (sent: Outbox)
      ensures sent == PostAll(Snap(), out, Msg(Update, report))
    {
      sent := out;
      var msg, todo := Msg(Update, report), links.Keys;
      ghost var done: set<NodeId> := {};
      PostToNone(out, msg);
      while todo != {}
        invariant todo <= links.Keys
        invariant done == set n | n in links.Keys - todo && Snap().Up(n)
        invariant sent == PostTo(out, done, msg)
      {
        var n :| n in todo;
        todo := todo - {n};
        if links[n] != Inf {
          PostToOneMore(out, done, n, msg);
          sent := Post(sent, n, msg);
          done := done + {n};
        }
      }
      assert done == UpNeighbors(Snap());
      PostToAll(Snap(), out, msg);
    }

    method LocalComputation(newNexthop: NodeId, newDistance: Dist, out: Outbox) returns (sent: Outbox)
      modifies this
      ensures Outcome(Snap(), sent) == AdoptAndFlood(Outcome(old(Snap()), out), Some(newNexthop), newDistance)
    {
      var sameRd := newDistance == report;
      nexthop := Some(newNexthop);
      distance, report, feasible := newDistance, newDistance, newDistance;
      sent := out;
      if !sameRd {
        sent := FloodUpdates(out);
      }
    }

    /** The part of Diffuse that diffusingComputation does. */
    method DiffusingComputation(out: Outbox) returns (success: bool, sent: Outbox)
      requires nexthop.Some? && nexthop.value in links
      modifies this
      ensures var s := Adopt(old(Snap()), old(nexthop), old(Snap()).Via(old(nexthop).value));
              && success == (UpNeighbors(s) != {}) && sent == PostAll(s, out, Msg(Query, s.report))
              && Snap() == s.(nbrs := map n | n in s.nbrs.Keys + UpNeighbors(s) :: if s.Up(n) then s.Nbr(n).(expectReply := true) else s.Nbr(n))
    {
      var newDistance := Snap().Via(nexthop.value);
      distance, report, feasible := newDistance, newDistance, newDistance;
      success, nbrs, sent := AskAll(Snap(), out);
    }

    method SendReply(out: Outbox) returns (sent: Outbox)
      requires cornet != []
      modifies this
      ensures Outcome(Snap(), sent) == DualSpec.SendReply(Outcome(old(Snap()), out))
    {
      var dst := cornet[|cornet| - 1];
      cornet := cornet[..|cornet| - 1];
      if !Snap().Up(dst) {
        nbrs := nbrs[dst := Snap().Nbr(dst).(needToReply := true)];
        return out;
      }
      sent := Post(out, dst, Msg(Reply, report));
    }

    method TryLocalOrDiffusing(event: Event, needReply: bool, out: Outbox) returns (ok: bool, sent: Outbox)
      requires needReply ==> cornet != []
      requires id == root ==> nexthop == Some(id)
      requires nexthop.Some? ==> nexthop.value in links || nexthop.value == id
      modifies this
      ensures ok <==> ReactChecks(old(Snap()))
      ensures ok ==> exists pick ::
                PickFeasible(old(Snap()), pick) && Outcome(Snap(), sent) == React(Outcome(old(Snap()), out), event, needReply, pick)
    {
      ghost var o := Outcome(Snap(), out);
      var affected;
      ok, affected := RouteAffected();
      sent := out;
      if !ok {
        return;
      }
      if !affected {
        if needReply {
          sent := SendReply(out);
        }
        assert exists pick :: PickFeasible(o.s, pick) by {
          FeasibleExists(o.s);
        }
        ghost var pick :| PickFeasible(o.s, pick);
        assert Outcome(Snap(), sent) == React(o, event, needReply, pick);
        return;
      }
      var found, d := MeetFeasibleCondition();
      if nexthop.None? && found.None? {
        ok := false;
        return;
      }
      if found.Some? {
        sent := LocalComputation(found.value, d, sent);
        if needReply {
          sent := SendReply(sent);
        }
        assert Outcome(Snap(), sent) == React(o, event, needReply, found.value);
      } else {
        if needReply && !event.QueryFromSuccessor? {
          sent := SendReply(sent);
        }
        sent := Diffuse(event, sent);
        assert Outcome(Snap(), sent) == React(o, event, needReply, 0);
      }
    }

    /** The diffusing branch of tryLocalOrDiffusing. */
    method Diffuse(event: Event, out: Outbox) returns (sent: Outbox)
      requires nexthop.Some? && nexthop.value in links
      modifies this
      ensures Outcome(Snap(), sent) == DualSpec.Diffuse(Outcome(old(Snap()), out), event)
    {
      var success;
      success, sent := DiffusingComputation(out);
      if success {
        state := ProcessEvent(state, event, false);
      }
      if nexthop.Some? && !Snap().Up(nexthop.value) {
        nexthop := None;
      }
    }

    /** The loop of processReply that looks for the new next hop. */
    method Nearest() returns (newNexthop: Option<NodeId>, dmin: Dist)
      ensures dmin == MinDistance(Snap())
      ensures if dmin == Inf then newNexthop.None?
              else newNexthop.Some? && newNexthop.value in links && Snap().Via(newNexthop.value) == dmin
    {
      newNexthop, dmin := None, Inf;
      var todo := links.Keys;
      ghost var s := Snap();
      while todo != {}
        invariant todo <= links.Keys
        invariant forall n <- links.Keys - todo :: !Less(s.Via(n), dmin)
        invariant if dmin == Inf then newNexthop.None?
                  else newNexthop.Some? && newNexthop.value in links && s.Via(newNexthop.value) == dmin
      {
        var n :| n in todo;
        todo := todo - {n};
        var d := Snap().Via(n);
        if Less(d, dmin) {
          newNexthop, dmin := Some(n), d;
        }
      }
      MinDistanceIs(s, dmin);
    }

    method NoReplyExpected() returns (last: bool)
      ensures last <==> !Waiting(Snap())
    {
      var todo := nbrs.Keys;
      ghost var s := Snap();
      while todo != {}
        invariant todo <= nbrs.Keys
        invariant forall n <- nbrs.Keys - todo :: !nbrs[n].expectReply
      {
        var n :| n in todo;
        todo := todo - {n};
        if nbrs[n].expectReply {
          assert s.Nbr(n).expectReply;
          return false;
        }
      }
      return true;
    }

    method ProcessReply(n: NodeId, d: Dist) returns (sent: Outbox)
      requires |cornet| <= 1
      modifies this
      ensures exists pick ::
                && PickOk(Replied(old(Snap()), n, d), pick)
                && Outcome(Snap(), sent) == ReceiveReply(Outcome(old(Snap()), map[]), n, d, pick)
    {
      ghost var o := Outcome(Snap(), map[]);
      sent := map[];
      if !Snap().Nbr(n).expectReply {
        PickOkExists(Replied(o.s, n, d));
        ghost var pick :| PickOk(Replied(o.s, n, d), pick);
        assert Outcome(Snap(), sent) == ReceiveReply(o, n, d, pick);
        return;
      }
      nbrs := nbrs[n := Snap().Nbr(n).(report := d, expectReply := false)];
      assert Snap() == Replied(o.s, n, d);
      var last := NoReplyExpected();
      if !last {
        PickOkExists(Snap());
        ghost var pick :| PickOk(Snap(), pick);
        assert Outcome(Snap(), sent) == ReceiveReply(o, n, d, pick);
        return;
      }
      ghost var waited := Snap();
      sent := TakeNearest(sent);
      ghost var pick :| PickOk(waited, pick) && Outcome(Snap(), sent) == Freed(Outcome(waited, map[]), pick);
      assert Outcome(Snap(), sent) == ReceiveReply(o, n, d, pick);
    }

    /** processReply once the last reply is in: free to take the nearest neighbour. */
    method TakeNearest(out: Outbox) returns (sent: Outbox)
      requires |cornet| <= 1
      modifies this
      ensures exists pick :: PickOk(old(Snap()), pick) && Outcome(Snap(), sent) == Freed(Outcome(old(Snap()), out), pick)
    {
      hide PostAll, DualSpec.SendReply, MinDistance;
      ghost var waited := Snap();
      sent := out;
      state := ProcessEvent(state, LastReply, true);
      ghost var free := Snap();
      SameMinimum(waited, free);
      var newNexthop, dmin := Nearest();
      var sameRd := dmin == report;
      distance, report, feasible := dmin, dmin, dmin;
      nexthop := newNexthop;
      if !sameRd {
        sent := FloodUpdates(sent);
      }
      assert Outcome(Snap(), sent) == AdoptAndFlood(Outcome(free, out), newNexthop, dmin);
      if |cornet| > 0 {
        sent := SendReply(sent);
      }
      ghost var pick := if newNexthop.Some? then newNexthop.value else 0;
      assert PickOk(waited, pick);
      assert Outcome(Snap(), sent) == Freed(Outcome(waited, out), pick);
    }

    /** The end of peerUp: introduce ourselves, and answer a query left over. */
    method Introduce(n: NodeId, out: Outbox) returns (sent: Outbox)
      modifies this
      ensures Outcome(Snap(), sent) == DualSpec.Introduce(Outcome(old(Snap()), out), n)
    {
      sent := Post(out, n, Msg(Update, report));
      if Snap().Nbr(n).needToReply {
        nbrs := nbrs[n := Snap().Nbr(n).(needToReply := false)];
        sent := Post(sent, n, Msg(Reply, report));
      }
    }

    method PeerUp(n: NodeId, cost: nat) returns (ok: bool, sent: Outbox)
      requires Inv(Snap()) && Legal(Snap(), Raise(n, cost))
      modifies this
      ensures ok <==> Checks(old(Snap()), Raise(n, cost))
      ensures ok ==> Inv(Snap()) && Handled(old(Snap()), Raise(n, cost), Outcome(Snap(), sent))
    {
      ghost var s, input := Snap(), Raise(n, cost);
      if nexthop == Some(n) {
        nexthop, distance := None, Inf;
      }
      links := links[n := Fin(cost)];
      nbrs := nbrs[n := Snap().Nbr(n)];
      ghost var o := Outcome(Snap(), map[]);
      assert o.s == LinkBack(s, n, cost);
      ghost var pick: NodeId;
      if state == Passive {
        ok, sent := TryLocalOrDiffusing(Others, false, map[]);
        if !ok {
          return;
        }
        pick :| PickFeasible(o.s, pick) && Outcome(Snap(), sent) == React(o, Others, false, pick);
      } else if Snap().Nbr(n).expectReply {
        ok := true;
        sent := ProcessReply(n, Snap().Nbr(n).report);
        pick :| PickOk(Replied(o.s, n, o.s.Nbr(n).report), pick) && Outcome(Snap(), sent) == ReceiveReply(o, n, o.s.Nbr(n).report, pick);
      } else {
        ok, sent := true, map[];
        PickExists(s, input);
        pick :| Picks(s, input, pick);
      }
      hide React, ReceiveReply, PickFeasible, PickOk, Inv, ReactChecks, DualSpec.Introduce;
      sent := Introduce(n, sent);
      HandledBy(s, input, Outcome(Snap(), sent), pick);
    }

    method PeerDown(n: NodeId) returns (sent: Outbox)
      requires Inv(Snap()) && n != id
      modifies this
      ensures Inv(Snap()) && Handled(old(Snap()), Drop(n), Outcome(Snap(), sent))
    {
      ghost var s, input := Snap(), Drop(n);
      OnlyRaiseCanFail(s, input);
      links := links[n := Inf];
      nbrs := nbrs[n := Snap().Nbr(n).(report := Inf)];
      ghost var o := Outcome(Snap(), map[]);
      assert o.s == LinkGone(s, n);
      ghost var pick: NodeId;
      if state == Passive {
        var ok;
        ok, sent := TryLocalOrDiffusing(IncreaseD, false, map[]);
        pick :| PickFeasible(o.s, pick) && Outcome(Snap(), sent) == React(o, IncreaseD, false, pick);
      } else {
        state := ProcessEvent(state, IncreaseD, true);
        ghost var t := Snap();
        if Snap().Nbr(n).expectReply {
          sent := ProcessReply(n, Inf);
          pick :| PickOk(Replied(t, n, Inf), pick) && Outcome(Snap(), sent) == ReceiveReply(Outcome(t, map[]), n, Inf, pick);
          SameMinimum(Replied(t, n, Inf), Replied(o.s, n, Inf));
        } else {
          sent := map[];
          PickExists(s, input);
          pick :| Picks(s, input, pick);
        }
      }
      hide React, ReceiveReply, PickFeasible, Inv, ReactChecks;
      HandledBy(s, input, Outcome(Snap(), sent), pick);
    }

    method ProcessUpdate(n: NodeId, d: Dist) returns (sent: Outbox)
      requires Inv(Snap()) && n != id
      modifies this
      ensures Inv(Snap()) && Handled(old(Snap()), Receive(n, Msg(Update, d)), Outcome(Snap(), sent))
    {
      ghost var s, input := Snap(), Receive(n, Msg(Update, d));
      OnlyRaiseCanFail(s, input);
      nbrs := nbrs[n := Snap().Nbr(n).(report := d)];
      ghost var o := Outcome(Snap(), map[]);
      assert o.s == Heard(s, n, d);
      PickExists(s, input);
      ghost var pick :| Picks(s, input, pick);
      sent := map[];
      if n in links {
        if state == Passive {
          var ok;
          ok, sent := TryLocalOrDiffusing(Others, false, map[]);
          pick :| PickFeasible(o.s, pick) && Outcome(Snap(), sent) == React(o, Others, false, pick);
        } else {
          if nexthop == Some(n) {
            distance := Plus(links[n], d);
          }
          state := ProcessEvent(state, Others, true);
        }
      }
      hide React, PickFeasible, Inv, ReactChecks;
      HandledBy(s, input, Outcome(Snap(), sent), pick);
    }

    method ProcessQuery(n: NodeId, d: Dist) returns (sent: Outbox)
      requires Inv(Snap()) && n != id
      modifies this
      ensures Inv(Snap()) && Handled(old(Snap()), Receive(n, Msg(Query, d)), Outcome(Snap(), sent))
    {
      hide Inv, React, PickOk, ReactChecks, DualSpec.SendReply, ProcessEvent, Feasible;
      ghost var s, input := Snap(), Receive(n, Msg(Query, d));
      NodeShape(s);
      OnlyRaiseCanFail(s, input);
      nbrs := nbrs[n := Snap().Nbr(n).(report := d)];
      cornet := cornet + [n];
      var event := if nexthop == Some(n) then QueryFromSuccessor else Others;
      ghost var o := Outcome(Snap(), map[]);
      assert o.s == Queried(s, n, d);
      ghost var pick: NodeId;
      if state == Passive {
        var ok;
        ok, sent := TryLocalOrDiffusing(event, true, map[]);
        pick :| PickFeasible(o.s, pick) && Outcome(Snap(), sent) == React(o, event, true, pick);
      } else {
        PickExists(s, input);
        pick :| Picks(s, input, pick);
        if nexthop == Some(n) {
          distance := Plus(links[n], Snap().Nbr(n).report);
        }
        state := ProcessEvent(state, event, true);
        sent := SendReply(map[]);
      }
      HandledBy(s, input, Outcome(Snap(), sent), pick);
    }

    /** A REPLY message. */
    method ReceiveReplyMessage(n: NodeId, d: Dist) returns (sent: Outbox)
      requires Inv(Snap()) && n != id
      modifies this
      ensures Inv(Snap()) && Handled(old(Snap()), Receive(n, Msg(Reply, d)), Outcome(Snap(), sent))
    {
      ghost var s, input := Snap(), Receive(n, Msg(Reply, d));
      ghost var pick: NodeId;
      if state == Passive {
        assert !s.Nbr(n).expectReply;
        sent := ProcessReply(n, d);
        PickExists(s, input);
        pick :| Picks(s, input, pick);
      } else {
        sent := ProcessReply(n, d);
        pick :| PickOk(Replied(s, n, d), pick) && Outcome(Snap(), sent) == ReceiveReply(Outcome(s, map[]), n, d, pick);
      }
      HandledBy(s, input, Outcome(Snap(), sent), pick);
    }
  }

  /** The end of processReply. */
  ghost function Freed(o: Outcome, pick: NodeId): Outcome {
    var dmin := MinDistance(o.s);
    var free := o.s.(state := ProcessEvent(o.s.state, LastReply, true));
    var o' := AdoptAndFlood(Outcome(free, o.out), if dmin == Inf then None else Some(pick), dmin);
    ReplyIf(o', o'.s.cornet != [])
  }

  /** `o` is what the event makes of `s`, for some choice of the neighbours that the source's loops
      come upon first. */
  ghost predicate Handled(s: Route, input: Input, o: Outcome) {
    && Inv(s) && Legal(s, input) && Checks(s, input)
    && exists pick :: Picks(s, input, pick) && o == Handle(s, input, pick)
  }

  lemma HandledBy(s: Route, input: Input, o: Outcome, pick: NodeId)
    requires Inv(s) && Legal(s, input) && Checks(s, input) && Picks(s, input, pick) && o == Handle(s, input, pick)
    ensures Handled(s, input, o) && Inv(o.s)
  {
    HandleKeepsInv(s, input, pick);
  }

  lemma FeasibleExists(s: Route)
    ensures exists pick :: PickFeasible(s, pick)
  {
    if n :| Feasible(s, n) {
      assert PickFeasible(s, n);
    } else {
      assert PickFeasible(s, 0);
    }
  }

  lemma PickOkExists(s: Route)
    ensures exists pick :: PickOk(s, pick)
  {
    if MinDistance(s) != Inf {
      var n :| n in s.links && s.Via(n) == MinDistance(s);
      assert PickOk(s, n);
    } else {
      assert PickOk(s, 0);
    }
  }
}
