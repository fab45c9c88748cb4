/** What DUAL events send. On every link the messages, read in order, carry the receiver's copy
    of the sender's report distance forward to its current value; queries and replies are
    counted. */
module DualMail {
  import opened Options
  import opened DualSpec
  import opened DualEvents

  /** Reading `msgs` takes a stored report `stored` to `report`; a reply never changes it. */
  ghost predicate Carries(stored: Dist, msgs: seq<Msg>, report: Dist)
    decreases msgs
  {
    if msgs == [] then stored == report
    else if msgs[0].kind == Reply then msgs[0].distance == stored && Carries(stored, msgs[1..], report)
    else Carries(msgs[0].distance, msgs[1..], report)
  }

  ghost function Count(msgs: seq<Msg>, kind: Kind): nat {
    if msgs == [] then 0 else (if msgs[0].kind == kind then 1 else 0) + Count(msgs[1..], kind)
  }

  lemma {:induction false} CarriesAppend(stored: Dist, msgs: seq<Msg>, mid: Dist, more: seq<Msg>, report: Dist)
    requires Carries(stored, msgs, mid) && Carries(mid, more, report)
    ensures Carries(stored, msgs + more, report)
    decreases msgs
  {
    if msgs == [] {
      assert msgs + more == more;
    } else {
      assert (msgs + more)[1..] == msgs[1..] + more;
      CarriesAppend(if msgs[0].kind == Reply then stored else msgs[0].distance, msgs[1..], mid, more, report);
    }
  }

  lemma {:induction false} CountAppend(msgs: seq<Msg>, more: seq<Msg>, kind: Kind)
    ensures Count(msgs + more, kind) == Count(msgs, kind) + Count(more, kind)
  {
    if msgs == [] {
      assert msgs + more == more;
    } else {
      assert (msgs + more)[1..] == msgs[1..] + more;
      CountAppend(msgs[1..], more, kind);
    }
  }

  /** Appending one message. */
  lemma AppendOne(stored: Dist, msgs: seq<Msg>, mid: Dist, msg: Msg)
    requires Carries(stored, msgs, mid) && (msg.kind == Reply ==> msg.distance == mid)
    ensures Carries(stored, msgs + [msg], msg.distance)
    ensures forall kind :: Count(msgs + [msg], kind) == Count(msgs, kind) + if msg.kind == kind then 1 else 0
  {
    assert [msg][1..] == [];
    assert Carries(mid, [msg], msg.distance);
    CarriesAppend(stored, msgs, mid, [msg], msg.distance);
    forall kind ensures Count(msgs + [msg], kind) == Count(msgs, kind) + if msg.kind == kind then 1 else 0 {
      CountAppend(msgs, [msg], kind);
    }
  }

  /** Queries of `m` on the stack of unanswered queries. */
  ghost function Owed(s: Route, m: NodeId): nat {
    multiset(s.cornet)[m]
  }

  /** So far the mail for `m` carries `stored` to the node's report and holds `queries` queries;
      replies sent and still owed make up `replies`. Nothing is sent to a neighbour that is
      down. */
  ghost predicate Sends(o: Outcome, m: NodeId, stored: Dist, queries: nat, replies: nat) {
    if o.s.Up(m) then
      && Carries(stored, Mail(o.out, m), o.s.report)
      && Count(Mail(o.out, m), Query) == queries
      && Count(Mail(o.out, m), Reply) + Owed(o.s, m) == replies
    else Mail(o.out, m) == []
  }

  lemma SendReplySends(o: Outcome, m: NodeId, stored: Dist, queries: nat, replies: nat)
    requires o.s.cornet != [] && Sends(o, m, stored, queries, replies)
    ensures Sends(SendReply(o), m, stored, queries, replies)
  {
    var last := |o.s.cornet| - 1;
    assert o.s.cornet == o.s.cornet[..last] + [o.s.cornet[last]];
    if o.s.Up(m) {
      AppendOne(stored, Mail(o.out, m), o.s.report, Msg(Reply, o.s.report));
    }
  }

  lemma ReplyIfSends(o: Outcome, needReply: bool, m: NodeId, stored: Dist, queries: nat, replies: nat)
    requires (needReply ==> o.s.cornet != []) && Sends(o, m, stored, queries, replies)
    ensures Sends(ReplyIf(o, needReply), m, stored, queries, replies)
  {
    if needReply {
      SendReplySends(o, m, stored, queries, replies);
    }
  }

  lemma FloodSends(o: Outcome, nexthop: Option<NodeId>, d: Dist, m: NodeId, stored: Dist, queries: nat, replies: nat)
    requires Sends(o, m, stored, queries, replies)
    ensures Sends(AdoptAndFlood(o, nexthop, d), m, stored, queries, replies)
  {
    if o.s.Up(m) {
      AppendOne(stored, Mail(o.out, m), o.s.report, Msg(Update, d));
    }
  }

  lemma DiffuseSends(o: Outcome, event: Event, m: NodeId, stored: Dist, queries: nat, replies: nat)
    requires o.s.nexthop.Some? && o.s.nexthop.value in o.s.links
    requires Sends(o, m, stored, queries, replies)
    ensures Sends(Diffuse(o, event), m, stored, queries + 1, replies)
  {
    var s := Adopt(o.s, o.s.nexthop, o.s.Via(o.s.nexthop.value));
    if o.s.Up(m) {
      AppendOne(stored, Mail(o.out, m), o.s.report, Msg(Query, s.report));
    }
  }

  lemma IntroduceSends(o: Outcome, n: NodeId, m: NodeId, stored: Dist, queries: nat, replies: nat)
    requires o.s.Up(n) && Sends(o, m, stored, queries, replies)
    ensures Sends(Introduce(o, n), m, stored, queries, replies + if m == n && o.s.Nbr(n).needToReply then 1 else 0)
  {
    if m == n {
      AppendOne(stored, Mail(o.out, m), o.s.report, Msg(Update, o.s.report));
      AppendOne(stored, Mail(o.out, m) + [Msg(Update, o.s.report)], o.s.report, Msg(Reply, o.s.report));
    }
  }

  /** A diffusing computation begins. */
  ghost predicate Activates(s: Route, t: Route) {
    s.state == Passive && t.state != Passive
  }

  /** Replying touches neither links, state nor report; nor does flooding touch links or state. */
  lemma ReplyIfKeeps(o: Outcome, needReply: bool)
    requires needReply ==> o.s.cornet != []
    ensures var r := ReplyIf(o, needReply).s;
            r.links == o.s.links && r.state == o.s.state && r.report == o.s.report && r.nexthop == o.s.nexthop && r.id == o.s.id && r.root == o.s.root
  {
  }

  lemma DiffuseActivates(o: Outcome, event: Event, m: NodeId)
    requires o.s.nexthop.Some? && o.s.nexthop.value in o.s.links && o.s.state == Passive
    ensures var t := Diffuse(o, event).s; t.links == o.s.links && t.id == o.s.id && t.root == o.s.root
    ensures o.s.Up(m) ==> Activates(o.s, Diffuse(o, event).s)
  {
    var s := Adopt(o.s, o.s.nexthop, o.s.Via(o.s.nexthop.value));
    assert o.s.Up(m) ==> m in UpNeighbors(s);
  }

  lemma ReactSends(o: Outcome, event: Event, needReply: bool, pick: NodeId, m: NodeId, replies: nat)
    requires o.s.state == Passive && o.out == map[] && (needReply ==> o.s.cornet != []) && !event.LastReply?
    requires ReactChecks(o.s) && (o.s.nexthop.Some? ==> o.s.nexthop.value in o.s.links || o.s.nexthop.value == o.s.id)
    requires PickFeasible(o.s, pick) && replies == Owed(o.s, m)
    ensures var r := React(o, event, needReply, pick);
            && Sends(r, m, o.s.report, if Activates(o.s, r.s) then 1 else 0, replies)
            && r.s.links == o.s.links && r.s.id == o.s.id && r.s.root == o.s.root
  {
    assert Sends(o, m, o.s.report, 0, replies);
    var r := React(o, event, needReply, pick);
    if !Affected(o.s) {
      hide Affected, Feasible, Sends, ReplyIf;
      ReplyIfSends(o, needReply, m, o.s.report, 0, replies);
      ReplyIfKeeps(o, needReply);
    } else if Feasible(o.s, pick) {
      hide Affected, Feasible, Sends, ReplyIf, PostAll;
      var l := AdoptAndFlood(o, Some(pick), MinDistance(o.s));
      FloodSends(o, Some(pick), MinDistance(o.s), m, o.s.report, 0, replies);
      ReplyIfSends(l, needReply, m, o.s.report, 0, replies);
      ReplyIfKeeps(l, needReply);
    } else {
      assert o.s.nexthop.Some? && o.s.nexthop.value in o.s.links;
      var rep := needReply && !event.QueryFromSuccessor?;
      assert r == Diffuse(ReplyIf(o, rep), event);
      hide Affected, Feasible, ReplyIf, Diffuse, Carries, Count, React, ReactChecks;
      ReplyIfSends(o, rep, m, o.s.report, 0, replies);
      ReplyIfKeeps(o, rep);
      DiffuseSends(ReplyIf(o, rep), event, m, o.s.report, 0, replies);
      DiffuseActivates(ReplyIf(o, rep), event, m);
    }
  }

  lemma ReceiveReplySends(o: Outcome, n: NodeId, d: Dist, pick: NodeId, m: NodeId, replies: nat)
    requires o.out == map[] && replies == Owed(o.s, m) && o.s.Active()
    ensures var r := ReceiveReply(o, n, d, pick);
            && Sends(r, m, o.s.report, 0, replies)
            && r.s.links == o.s.links && r.s.id == o.s.id && r.s.root == o.s.root
  {
    hide MinDistance, Waiting;
    assert Sends(o, m, o.s.report, 0, replies);
    if o.s.Nbr(n).expectReply {
      var s := Replied(o.s, n, d);
      if !Waiting(s) {
        var dmin := MinDistance(s);
        var free := Outcome(s.(state := ProcessEvent(s.state, LastReply, true)), o.out);
        var nh := if dmin == Inf then None else Some(pick);
        FloodSends(free, nh, dmin, m, o.s.report, 0, replies);
        var f := AdoptAndFlood(free, nh, dmin);
        ReplyIfSends(f, f.s.cornet != [], m, o.s.report, 0, replies);
      }
    }
  }

  /** `t`'s view of its neighbours is that of `s`, except who is asked for a reply. */
  ghost predicate SameNeighbors(s: Route, t: Route) {
    forall m :: t.Nbr(m) == s.Nbr(m).(expectReply := t.Nbr(m).expectReply, needToReply := t.Nbr(m).needToReply)
  }

  lemma ReplyIfNeighbors(o: Outcome, needReply: bool)
    requires needReply ==> o.s.cornet != []
    ensures SameNeighbors(o.s, ReplyIf(o, needReply).s)
    ensures forall m :: ReplyIf(o, needReply).s.Nbr(m).expectReply == o.s.Nbr(m).expectReply
    ensures !needReply ==> ReplyIf(o, needReply) == o
  {
  }

  lemma DiffuseNeighbors(o: Outcome, event: Event)
    requires o.s.nexthop.Some? && o.s.nexthop.value in o.s.links && o.s.state == Passive
    requires !Waiting(o.s) && !event.LastReply?
    ensures var t := Diffuse(o, event).s;
            && (forall m :: t.Nbr(m) == o.s.Nbr(m).(expectReply := t.Nbr(m).expectReply))
            && (forall m :: t.Nbr(m).expectReply <==> o.s.Up(m))
            && (Activates(o.s, t) <==> UpNeighbors(o.s) != {})
  {
    var s := Adopt(o.s, o.s.nexthop, o.s.Via(o.s.nexthop.value));
    assert forall m :: s.Nbr(m) == o.s.Nbr(m);
    assert forall m :: o.s.Up(m) <==> m in UpNeighbors(s);
    assert UpNeighbors(s) == UpNeighbors(o.s);
  }

  lemma ReactNeighbors(o: Outcome, event: Event, needReply: bool, pick: NodeId)
    requires o.s.state == Passive && (needReply ==> o.s.cornet != []) && !event.LastReply? && !Waiting(o.s)
    requires ReactChecks(o.s) && (o.s.nexthop.Some? ==> o.s.nexthop.value in o.s.links || o.s.nexthop.value == o.s.id)
    requires PickFeasible(o.s, pick)
    ensures var r := React(o, event, needReply, pick);
            && SameNeighbors(o.s, r.s)
            && (forall m :: r.s.Nbr(m).expectReply <==> Activates(o.s, r.s) && o.s.Up(m))
            && (!needReply ==> forall m :: r.s.Nbr(m).needToReply == o.s.Nbr(m).needToReply)
  {
    var r := React(o, event, needReply, pick);
    if !Affected(o.s) {
      hide Affected, Feasible, ReplyIf;
      ReplyIfNeighbors(o, needReply);
      ReplyIfKeeps(o, needReply);
    } else if Feasible(o.s, pick) {
      var l := AdoptAndFlood(o, Some(pick), MinDistance(o.s));
      hide Affected, Feasible, ReplyIf;
      assert forall m :: l.s.Nbr(m) == o.s.Nbr(m);
      ReplyIfNeighbors(l, needReply);
      ReplyIfKeeps(l, needReply);
    } else {
      assert o.s.nexthop.Some? && o.s.nexthop.value in o.s.links;
      var rep := needReply && !event.QueryFromSuccessor?;
      var p := ReplyIf(o, rep);
      assert r == Diffuse(p, event);
      hide Affected, Feasible, ReplyIf, Diffuse, React, ReactChecks;
      ReplyIfNeighbors(o, rep);
      ReplyIfKeeps(o, rep);
      DiffuseNeighbors(p, event);
      assert UpNeighbors(p.s) == UpNeighbors(o.s);
      assert forall m :: o.s.Up(m) ==> m in UpNeighbors(o.s);
    }
  }

  lemma ReceiveReplyNeighbors(o: Outcome, n: NodeId, d: Dist, pick: NodeId)
    ensures var r, expected := ReceiveReply(o, n, d, pick).s, o.s.Nbr(n).expectReply;
            && (forall m | m != n || !expected :: r.Nbr(m).report == o.s.Nbr(m).report)
            && (expected ==> r.Nbr(n).report == d)
            && (forall m :: r.Nbr(m).expectReply <==> m != n && o.s.Nbr(m).expectReply)
            && (r.state != Passive ==> o.s.state != Passive)
  {
    if o.s.Nbr(n).expectReply {
      var s := Replied(o.s, n, d);
      assert forall m | m != n :: s.Nbr(m) == o.s.Nbr(m);
      if !Waiting(s) {
        var dmin := MinDistance(s);
        var free := Outcome(s.(state := ProcessEvent(s.state, LastReply, true)), o.out);
        var f := AdoptAndFlood(free, if dmin == Inf then None else Some(pick), dmin);
        assert forall m :: f.s.Nbr(m) == s.Nbr(m);
        hide Waiting, MinDistance;
        ReplyIfNeighbors(f, f.s.cornet != []);
        ReplyIfKeeps(f, f.s.cornet != []);
      }
    }
  }

  /** What the receiver of `input` has stored for `m` afterwards. */
  function StoredAfter(s: Route, input: Input, m: NodeId): Dist {
    if m != input.n then s.Nbr(m).report
    else
      match input
      case Raise(_, _) => s.Nbr(m).report
      case Drop(_) => Inf
      case Receive(_, msg) => if msg.kind == Reply && !s.Nbr(m).expectReply then s.Nbr(m).report else msg.distance
  }

  /** Replies that the event makes the node owe to `m`: for a query just received, or for one
      left over from when the link was down. */
  function NewlyOwed(s: Route, input: Input, m: NodeId): nat {
    if m != input.n then 0
    else
      match input
      case Raise(_, _) => if s.Nbr(m).needToReply then 1 else 0
      case Drop(_) => 0
      case Receive(_, msg) => if msg.kind == Query then 1 else 0
  }

  /** The event ends the wait for a reply of `m`. */
  predicate EndsWait(input: Input, m: NodeId) {
    m == input.n && (!input.Receive? || input.msg.kind == Reply)
  }

  /** What an event promises on the link to `m`. */
  ghost predicate Promise(s: Route, input: Input, o: Outcome, m: NodeId) {
    && o.s.id == s.id && o.s.root == s.root && o.s.links == Noted(s, input).links
    && Sends(o, m, s.report, if Activates(s, o.s) then 1 else 0, Owed(s, m) + NewlyOwed(s, input, m))
    && o.s.Nbr(m).report == StoredAfter(s, input, m)
    && (o.s.Nbr(m).expectReply <==>
          if Activates(s, o.s) then o.s.Up(m) else s.Nbr(m).expectReply && !EndsWait(input, m))
  }

  /** Noting the event in a PASSIVE node, which makes it `t`, and reacting keeps the promise. */
  lemma ReactPromises(s: Route, t: Route, input: Input, event: Event, needReply: bool, pick: NodeId, m: NodeId)
    requires s.state == Passive && t.state == Passive && !IsReply(input) && !event.LastReply?
    requires t == Noted(s, input) && t.report == s.report && t.id == s.id && t.root == s.root
    requires t.nexthop.Some? ==> t.nexthop.value in t.links || t.nexthop.value == t.id
    requires !Waiting(t) && ReactChecks(t) && PickFeasible(t, pick) && (needReply ==> t.cornet != [])
    requires Owed(t, m) == Owed(s, m) + NewlyOwed(s, input, m)
    requires t.Nbr(m).report == StoredAfter(s, input, m) && !s.Nbr(m).expectReply
    ensures Promise(s, input, React(Outcome(t, map[]), event, needReply, pick), m)
  {
    hide React, Sends, Owed, ReactChecks, PickFeasible, Waiting, Noted, StoredAfter, NewlyOwed;
    var o := Outcome(t, map[]);
    ReactSends(o, event, needReply, pick, m, Owed(t, m));
    ReactNeighbors(o, event, needReply, pick);
  }

  lemma DropPromises(s: Route, n: NodeId, pick: NodeId, m: NodeId)
    requires Inv(s) && Legal(s, Drop(n)) && Picks(s, Drop(n), pick)
    ensures s.state == Passive ==> ReactChecks(LinkGone(s, n))
    ensures Promise(s, Drop(n), PeerDown(s, n, pick), m)
  {
    OnlyRaiseCanFail(s, Drop(n));
    if s.state == Passive {
      HearingDisturbs(s, Drop(n));
      hide React, Computed, Promise;
      ReactPromises(s, LinkGone(s, n), Drop(n), IncreaseD, false, pick, m);
    } else {
      var o := Outcome(LinkGone(s, n).(state := ProcessEvent(s.state, IncreaseD, true)), map[]);
      assert o.s.Active();
      assert forall k :: o.s.Nbr(k) == s.Nbr(k).(report := o.s.Nbr(k).report);
      hide Inv, Picks, ReceiveReply;
      if o.s.Nbr(n).expectReply {
        ReceiveReplySends(o, n, Inf, pick, m, Owed(s, m));
        ReceiveReplyNeighbors(o, n, Inf, pick);
      }
    }
  }

  /** Hearing from a neighbour without reacting. */
  lemma QuietPromises(s: Route, n: NodeId, d: Dist, t: Route, m: NodeId)
    requires t == Heard(s, n, d).(distance := t.distance, state := t.state) && (t.Active() ==> s.Active())
    ensures Promise(s, Receive(n, Msg(Update, d)), Outcome(t, map[]), m)
  {
  }

  lemma UpdatePromises(s: Route, n: NodeId, d: Dist, pick: NodeId, m: NodeId)
    requires Inv(s) && Legal(s, Receive(n, Msg(Update, d))) && Picks(s, Receive(n, Msg(Update, d)), pick)
    ensures s.state == Passive ==> ReactChecks(Heard(s, n, d))
    ensures Promise(s, Receive(n, Msg(Update, d)), ReceiveUpdate(s, n, d, pick), m)
  {
    var input := Receive(n, Msg(Update, d));
    OnlyRaiseCanFail(s, input);
    if s.state == Passive && n in s.links {
      HearingDisturbs(s, input);
      hide React, Computed, Promise;
      ReactPromises(s, Heard(s, n, d), input, Others, false, pick, m);
    } else {
      hide Inv, Promise, React, ReactChecks, Picks;
      QuietPromises(s, n, d, ReceiveUpdate(s, n, d, pick).s, m);
    }
  }

  /** The state in which an ACTIVE node answers a query. */
  function QueryNoted(s: Route, n: NodeId, d: Dist): Route {
    var f := FollowNexthop(Queried(s, n, d), n);
    f.(state := ProcessEvent(f.state, QueryEvent(s, n), true))
  }

  lemma QueryNotedFacts(s: Route, n: NodeId, d: Dist, m: NodeId)
    requires s.Active()
    ensures var t, input := QueryNoted(s, n, d), Receive(n, Msg(Query, d));
            && t.Active() && t.id == s.id && t.root == s.root && t.links == s.links && t.report == s.report && t.cornet != []
            && Owed(t, m) == Owed(s, m) + NewlyOwed(s, input, m)
            && t.Nbr(m).report == StoredAfter(s, input, m) && t.Nbr(m).expectReply == s.Nbr(m).expectReply
            && Sends(Outcome(t, map[]), m, s.report, 0, Owed(t, m))
  {
  }

  lemma ActiveQueryPromises(s: Route, n: NodeId, d: Dist, m: NodeId)
    requires s.Active()
    ensures QueryNoted(s, n, d).cornet != []
    ensures Promise(s, Receive(n, Msg(Query, d)), SendReply(Outcome(QueryNoted(s, n, d), map[])), m)
  {
    hide QueryNoted, Sends, SendReply, Owed, StoredAfter, NewlyOwed;
    var o := Outcome(QueryNoted(s, n, d), map[]);
    QueryNotedFacts(s, n, d, m);
    SendReplySends(o, m, s.report, 0, Owed(o.s, m));
    ReplyKeepsRoute(o);
  }

  lemma QueryPromises(s: Route, n: NodeId, d: Dist, pick: NodeId, m: NodeId)
    requires Inv(s) && Legal(s, Receive(n, Msg(Query, d))) && Picks(s, Receive(n, Msg(Query, d)), pick)
    ensures s.state == Passive ==> ReactChecks(Queried(s, n, d))
    ensures Promise(s, Receive(n, Msg(Query, d)), ReceiveQuery(s, n, d, pick), m)
  {
    var input := Receive(n, Msg(Query, d));
    OnlyRaiseCanFail(s, input);
    if s.state == Passive {
      HearingDisturbs(s, input);
      hide React, Computed, Promise;
      ReactPromises(s, Queried(s, n, d), input, QueryEvent(s, n), true, pick, m);
    } else {
      hide Inv, Promise, SendReply;
      ActiveQueryPromises(s, n, d, m);
      assert ReceiveQuery(s, n, d, pick) == SendReply(Outcome(QueryNoted(s, n, d), map[]));
    }
  }

  lemma ExpectingIsActive(s: Route, n: NodeId)
    requires Inv(s) && s.Nbr(n).expectReply
    ensures s.Active()
  {
  }

  lemma IgnoredReplyPromises(s: Route, n: NodeId, d: Dist, m: NodeId)
    requires !s.Nbr(n).expectReply
    ensures Promise(s, Receive(n, Msg(Reply, d)), Outcome(s, map[]), m)
  {
  }

  lemma ReplyPromises(s: Route, n: NodeId, d: Dist, pick: NodeId, m: NodeId)
    requires Inv(s) && Legal(s, Receive(n, Msg(Reply, d))) && Picks(s, Receive(n, Msg(Reply, d)), pick)
    ensures Promise(s, Receive(n, Msg(Reply, d)), ReceiveReply(Outcome(s, map[]), n, d, pick), m)
  {
    var o := Outcome(s, map[]);
    if s.Nbr(n).expectReply {
      ExpectingIsActive(s, n);
      hide Inv, Picks, ReceiveReply, Sends, Owed;
      ReceiveReplySends(o, n, d, pick, m, Owed(s, m));
      ReceiveReplyNeighbors(o, n, d, pick);
    } else {
      assert ReceiveReply(o, n, d, pick) == o;
      hide Inv, Picks, ReceiveReply, Promise;
      IgnoredReplyPromises(s, n, d, m);
    }
  }

  /** The mail that opens a link starts with a report, so it sets whatever was stored before. */
  lemma OpeningCarries(msgs: seq<Msg>, a: Dist, b: Dist, report: Dist)
    requires msgs != [] && msgs[0].kind != Reply && Carries(a, msgs, report)
    ensures Carries(b, msgs, report)
  {
  }

  /** What precedes the introduction: a reaction, or nothing while ACTIVE. */
  ghost function BeforeIntroduction(s: Route, n: NodeId, cost: nat, pick: NodeId): Outcome
    requires Inv(s) && n != s.id && PeerUpChecks(s, n, cost)
    requires s.state == Passive ==> PickFeasible(LinkBack(s, n, cost), pick)
  {
    var o := Outcome(LinkBack(s, n, cost), map[]);
    if s.state == Passive then React(o, Others, false, pick) else o
  }

  /** What has been sent and stored before the introduction. */
  ghost predicate Opening(s: Route, n: NodeId, cost: nat, o: Outcome, m: NodeId) {
    && o.s.id == s.id && o.s.root == s.root && o.s.links == LinkBack(s, n, cost).links
    && Sends(o, m, s.report, if Activates(s, o.s) then 1 else 0, Owed(s, m))
    && Count(Mail(o.out, m), Reply) == 0
    && o.s.Nbr(m) == s.Nbr(m).(expectReply := o.s.Nbr(m).expectReply)
    && (o.s.Nbr(m).expectReply <==> if Activates(s, o.s) then o.s.Up(m) else s.Nbr(m).expectReply)
  }

  lemma BeforeIntroductionSends(s: Route, n: NodeId, cost: nat, pick: NodeId, m: NodeId)
    requires Inv(s) && Legal(s, Raise(n, cost)) && Checks(s, Raise(n, cost)) && Picks(s, Raise(n, cost), pick)
    requires !s.Up(n)
    ensures Opening(s, n, cost, BeforeIntroduction(s, n, cost, pick), m)
  {
    var t := LinkBack(s, n, cost);
    assert s.state == Passive ==> s.nexthop != Some(n);
    assert t.Nbr(m) == s.Nbr(m);
    if s.state == Passive {
      HearingDisturbs(s, Raise(n, cost));
      assert Owed(s, m) == 0 && Owed(t, m) == 0;
      hide React, Computed, Inv;
      ReactSends(Outcome(t, map[]), Others, false, pick, m, 0);
      ReactNeighbors(Outcome(t, map[]), Others, false, pick);
    }
  }

  lemma IntroducePromises(s: Route, n: NodeId, cost: nat, o: Outcome, m: NodeId)
    requires Opening(s, n, cost, o, m) && Opening(s, n, cost, o, n) && !s.Nbr(n).expectReply
    ensures Promise(s, Raise(n, cost), Introduce(o, n), m)
  {
    IntroduceSends(o, n, m, s.report, if Activates(s, o.s) then 1 else 0, Owed(s, m));
    hide Sends, Owed, Count, Introduce;
    IntroduceNeighbors(o, n, m);
  }

  /** A link that comes up: the promise, and an opening that fits any stored report. */
  lemma RaisePromises(s: Route, n: NodeId, cost: nat, pick: NodeId, m: NodeId)
    requires Inv(s) && Legal(s, Raise(n, cost)) && Checks(s, Raise(n, cost)) && Picks(s, Raise(n, cost), pick)
    requires !s.Up(n)
    ensures Promise(s, Raise(n, cost), PeerUp(s, n, cost, pick), m)
    ensures var mail := Mail(PeerUp(s, n, cost, pick).out, n); mail != [] && mail[0].kind != Reply
  {
    var o := BeforeIntroduction(s, n, cost, pick);
    assert !s.Nbr(n).expectReply;
    assert PeerUp(s, n, cost, pick) == Introduce(o, n);
    BeforeIntroductionSends(s, n, cost, pick, m);
    BeforeIntroductionSends(s, n, cost, pick, n);
    assert Count(Mail(o.out, n), Reply) == 0;
    hide Inv, BeforeIntroduction, PeerUp, Checks, Picks, Opening, Promise, Introduce;
    IntroducePromises(s, n, cost, o, m);
    IntroduceOpens(o, n);
  }

  lemma IntroduceNeighbors(o: Outcome, n: NodeId, m: NodeId)
    ensures var t := Introduce(o, n).s;
            && t.Nbr(m).report == o.s.Nbr(m).report && t.Nbr(m).expectReply == o.s.Nbr(m).expectReply
            && t.links == o.s.links && t.state == o.s.state && t.id == o.s.id && t.root == o.s.root
  {
  }

  lemma IntroduceOpens(o: Outcome, n: NodeId)
    requires Count(Mail(o.out, n), Reply) == 0
    ensures var mail := Mail(Introduce(o, n).out, n); mail != [] && mail[0].kind != Reply
  {
  }

  /** Every event keeps its promise on every link. */
  lemma HandlePromises(s: Route, input: Input, pick: NodeId, m: NodeId)
    requires Inv(s) && Legal(s, input) && Checks(s, input) && Picks(s, input, pick)
    requires input.Raise? ==> !s.Up(input.n)
    ensures Promise(s, input, Handle(s, input, pick), m)
  {
    match input
    case Raise(n, cost) => RaisePromises(s, n, cost, pick, m);
    case Drop(n) => DropPromises(s, n, pick, m);
    case Receive(n, msg) =>
      match msg.kind
      case Update => UpdatePromises(s, n, msg.distance, pick, m);
      case Query => QueryPromises(s, n, msg.distance, pick, m);
      case Reply => ReplyPromises(s, n, msg.distance, pick, m);
  }

  /** What a node must not touch while its diffusing computation runs. */
  ghost predicate Frozen(s: Route, t: Route) {
    s.report == t.report && s.feasible == t.feasible && s.cornet == t.cornet
  }

  lemma ReceiveReplyFreezes(o: Outcome, n: NodeId, d: Dist, pick: NodeId)
    requires o.s.Active() && ReceiveReply(o, n, d, pick).s.Active()
    ensures Frozen(o.s, ReceiveReply(o, n, d, pick).s)
  {
    hide MinDistance, Waiting;
  }

  lemma SendReplyFreezes(o: Outcome, s: Route, n: NodeId)
    requires o.s.cornet == s.cornet + [n] && o.s.report == s.report && o.s.feasible == s.feasible
    ensures Frozen(s, SendReply(o).s)
  {
  }

  /** While a node stays ACTIVE its report and feasible distance and the stack of unanswered
      queries do not change, whatever happens. */
  lemma ActiveIsFrozen(s: Route, input: Input, pick: NodeId)
    requires Inv(s) && Legal(s, input) && Checks(s, input) && Picks(s, input, pick)
    requires s.Active() && Handle(s, input, pick).s.Active()
    ensures Frozen(s, Handle(s, input, pick).s)
  {
    hide Inv, Checks, Picks, ReceiveReply, SendReply;
    match input
    case Raise(n, cost) =>
      var o := Outcome(LinkBack(s, n, cost), map[]);
      if o.s.Nbr(n).expectReply {
        ReceiveReplyFreezes(o, n, o.s.Nbr(n).report, pick);
      }
    case Drop(n) =>
      var o := Outcome(LinkGone(s, n).(state := ProcessEvent(s.state, IncreaseD, true)), map[]);
      if o.s.Nbr(n).expectReply {
        ReceiveReplyFreezes(o, n, Inf, pick);
      }
    case Receive(n, msg) =>
      match msg.kind
      case Update =>
      case Query =>
        var f := FollowNexthop(Queried(s, n, msg.distance), n);
        SendReplyFreezes(Outcome(f.(state := ProcessEvent(f.state, QueryEvent(s, n), true)), map[]), s, n);
      case Reply => ReceiveReplyFreezes(Outcome(s, map[]), n, msg.distance, pick);
  }

  /** A query is kept unanswered only by starting a diffusing computation. */
  lemma KeptOnlyByActivating(s: Route, input: Input, pick: NodeId, m: NodeId)
    requires Inv(s) && Legal(s, input) && Checks(s, input) && Picks(s, input, pick)
    ensures var t := Handle(s, input, pick).s; Owed(t, m) > Owed(s, m) ==> Activates(s, t)
  {
    HandleKeepsInv(s, input, pick);
    var t := Handle(s, input, pick).s;
    assert !t.Active() ==> t.cornet == [];
    hide Handle, Inv;
    if s.Active() && t.Active() {
      ActiveIsFrozen(s, input, pick);
    }
  }
}
