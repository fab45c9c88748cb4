/** Pausing and resuming peer connections. Every atomic operation and every lock section of the
    source is one step, and the steps of any number of threads interleave freely. */
module IngressResume {

  type Conn = nat
  type Thread = nat

  datatype Pause = Pause(conn: Conn, id: nat)

  /** Where a thread is. Up to `Push` it is in onWriteQuiescence, before the connection is in the
      paused list; `LoadStopped` and after can be reached from there, from a release or from
      stopPausing. The two totals are added up in either order. */
  datatype Pc =
    | Idle
    | AskStopped(conn: Conn)
    | AskTotals(conn: Conn)
    | AskQueued(conn: Conn, pending: nat)
    | AskPending(conn: Conn, queued: nat)
    | AskFairShare(conn: Conn)
    | TakeId(conn: Conn)
    | Push(conn: Conn, id: nat)
    | LoadStopped
    | LoadTotals
    | LoadQueued(pending: nat)
    | LoadPending(queued: nat)
    | Compare(sum: nat)
    | CountPaused
    | SwapPaused

  /** `pending` and `queued` are the two atomic totals. `off` are the connections that are not being
      read, `resumes` the resumptions handed to an event base and not yet run. */
  datatype World = World(
    pauseAbove: nat,
    resumeBelow: nat,
    pending: nat,
    queued: nat,
    stopped: bool,
    nextId: nat,
    paused: seq<Pause>,
    off: set<Conn>,
    resumes: multiset<Conn>,
    pcs: map<Thread, Pc>)
  {
    function Total(): nat {
      pending + queued
    }

    function Pc(t: Thread): Pc {
      if t in pcs then pcs[t] else Idle
    }

    function At(t: Thread, pc: Pc): World {
      this.(pcs := pcs[t := pc])
    }

    predicate Listed(c: Conn) {
      c in Conns(paused)
    }
  }

  datatype Step =
    | AddPending(bytes: nat)
    | AddQueued(bytes: nat)
    | ReleasePending(t: Thread, bytes: nat)
    | ReleaseQueued(t: Thread, bytes: nat)
    | Quiesce(t: Thread, conn: Conn)
    | FairShare(t: Thread, over: bool)
    | Stop(t: Thread)
    | Timer(id: nat)
    | RunResume(conn: Conn)
    | QueuedFirst(t: Thread)
    | Advance(t: Thread)

  function Without(paused: seq<Pause>, id: nat): seq<Pause> {
    if paused == [] then [] else (if paused[0].id == id then [] else [paused[0]]) + Without(paused[1..], id)
  }

  function Conns(paused: seq<Pause>): multiset<Conn> {
    if paused == [] then multiset{} else multiset{paused[0].conn} + Conns(paused[1..])
  }

  function Ids(paused: seq<Pause>): multiset<nat> {
    if paused == [] then multiset{} else multiset{paused[0].id} + Ids(paused[1..])
  }

  /** One more step of a thread that is mid-way. */
  ghost function Advanced(w: World, t: Thread): World {
    match w.Pc(t)
    case Idle => w
    case AskStopped(c) => w.At(t, if w.stopped then Idle else AskTotals(c))
    case AskTotals(c) => w.At(t, AskQueued(c, w.pending))
    case AskQueued(c, pending) => w.At(t, if pending + w.queued <= w.pauseAbove then Idle else AskFairShare(c))
    case AskPending(c, queued) => w.At(t, if w.pending + queued <= w.pauseAbove then Idle else AskFairShare(c))
    case AskFairShare(_) => w
    case TakeId(c) => w.(nextId := w.nextId + 1).At(t, Push(c, w.nextId))
    case Push(c, id) =>
      if w.Listed(c) then w.At(t, Idle)
      else w.(paused := w.paused + [Pause(c, id)], off := w.off + {c}).At(t, LoadStopped)
    case LoadStopped => w.At(t, if w.stopped then SwapPaused else LoadTotals)
    case LoadTotals => w.At(t, LoadQueued(w.pending))
    case LoadQueued(pending) => w.At(t, Compare(pending + w.queued))
    case LoadPending(queued) => w.At(t, Compare(w.pending + queued))
    case Compare(sum) => w.At(t, if sum < w.resumeBelow then CountPaused else Idle)
    case CountPaused => w.At(t, if |w.paused| > 0 then SwapPaused else Idle)
    case SwapPaused => w.(paused := [], resumes := w.resumes + Conns(w.paused)).At(t, Idle)
  }

  ghost predicate Enabled(w: World, s: Step) {
    match s
    case ReleasePending(t, bytes) => w.Pc(t).Idle? && 0 < bytes <= w.pending
    case ReleaseQueued(t, bytes) => w.Pc(t).Idle? && 0 < bytes <= w.queued
    case Quiesce(t, _) => w.Pc(t).Idle?
    case FairShare(t, _) => w.Pc(t).AskFairShare?
    case Stop(t) => w.Pc(t).Idle?
    case RunResume(c) => c in w.resumes
    case QueuedFirst(t) => w.Pc(t).AskTotals? || w.Pc(t).LoadTotals?
    case _ => true
  }

  ghost function Next(w: World, s: Step): World
    requires Enabled(w, s)
  {
    match s
    case AddPending(bytes) => w.(pending := w.pending + bytes)
    case AddQueued(bytes) => w.(queued := w.queued + bytes)
    case ReleasePending(t, bytes) => w.(pending := w.pending - bytes).At(t, LoadTotals)
    case ReleaseQueued(t, bytes) => w.(queued := w.queued - bytes).At(t, LoadTotals)
    case Quiesce(t, c) => w.At(t, AskStopped(c))
    case FairShare(t, over) => w.At(t, if over then TakeId(w.Pc(t).conn) else Idle)
    case Stop(t) => w.(stopped := true).At(t, SwapPaused)
    case Timer(id) => w.(paused := Without(w.paused, id), resumes := w.resumes + (Conns(w.paused) - Conns(Without(w.paused, id))))
    case RunResume(c) => w.(off := w.off - {c}, resumes := w.resumes - multiset{c})
    case QueuedFirst(t) => w.At(t, if w.Pc(t).AskTotals? then AskPending(w.Pc(t).conn, w.queued) else LoadPending(w.queued))
    case Advance(t) => Advanced(w, t)
  }

  /** The thread will resume everybody, unless the totals rise again: it has yet to read them, or
      has read no more than there is. */
  predicate WillResume(w: World, pc: Pc) {
    match pc
    case LoadStopped => true
    case LoadTotals => true
    case LoadQueued(pending) => pending <= w.pending
    case LoadPending(queued) => queued <= w.queued
    case Compare(sum) => sum < w.resumeBelow
    case CountPaused => true
    case SwapPaused => true
    case _ => false
  }

  /** Below the threshold no connection stays in the list without somebody about to resume it. */
  ghost predicate Watched(w: World) {
    w.paused != [] && w.Total() < w.resumeBelow ==> exists t :: WillResume(w, w.Pc(t))
  }

  /** Nor after stopPausing. */
  ghost predicate StopWatched(w: World) {
    w.paused != [] && w.stopped ==> exists t :: w.Pc(t).LoadStopped? || w.Pc(t).SwapPaused?
  }

  /** No connection is in the list twice, and no two pauses share an id. */
  ghost predicate Distinct(w: World) {
    && (forall c :: Conns(w.paused)[c] <= 1)
    && (forall id :: Ids(w.paused)[id] <= 1 && (id in Ids(w.paused) ==> id < w.nextId))
    && (forall t :: w.Pc(t).Push? ==> w.Pc(t).id < w.nextId && w.Pc(t).id !in Ids(w.paused))
    && (forall t, u :: t != u && w.Pc(t).Push? && w.Pc(u).Push? ==> w.Pc(t).id != w.Pc(u).id)
  }

  /** Whoever is not being read is in the list or about to be resumed. */
  ghost predicate Accounted(w: World) {
    forall c <- w.off :: w.Listed(c) || c in w.resumes
  }

  ghost predicate Inv(w: World) {
    Watched(w) && StopWatched(w) && Distinct(w) && Accounted(w)
  }

  /** A step of one thread leaves the totals and the other threads alone. */
  lemma AdvanceKeepsOthers(w: World, t: Thread, u: Thread)
    ensures var w' := Advanced(w, t);
            && w'.pending == w.pending && w'.queued == w.queued && w'.resumeBelow == w.resumeBelow && w'.stopped == w.stopped
            && (u != t ==> w'.Pc(u) == w.Pc(u))
  {
    hide Conns;
  }

  lemma WitnessAdvancesItself(w: World, t: Thread)
    requires WillResume(w, w.Pc(t)) && w.Total() < w.resumeBelow
    ensures var w' := Advanced(w, t); w'.paused == [] || WillResume(w', w'.Pc(t))
  {
    hide Conns;
    match w.Pc(t)
    case LoadStopped =>
    case LoadTotals =>
    case LoadQueued(_) =>
    case LoadPending(_) =>
    case Compare(_) =>
    case CountPaused =>
    case SwapPaused =>
    case _ =>
  }

  /** Whoever will resume still will after somebody's step, unless the list is empty then. */
  lemma WitnessAdvances(w: World, t: Thread, u: Thread)
    requires WillResume(w, w.Pc(u)) && w.Total() < w.resumeBelow
    ensures var w' := Advanced(w, t); w'.paused == [] || WillResume(w', w'.Pc(u))
  {
    hide Advanced;
    if t == u {
      WitnessAdvancesItself(w, t);
    } else {
      AdvanceKeepsOthers(w, t, u);
    }
  }

  lemma AdvanceKeepsTotal(w: World, t: Thread)
    ensures var w' := Advanced(w, t); w'.Total() == w.Total() && w'.resumeBelow == w.resumeBelow && w'.stopped == w.stopped
    ensures w.paused == [] ==> Advanced(w, t).paused == [] || Pushes(w, t)
  {
  }

  /** The step puts a connection into the list. */
  ghost predicate Pushes(w: World, t: Thread) {
    w.Pc(t).Push? && !w.Listed(w.Pc(t).conn)
  }

  lemma PushIsWatched(w: World, t: Thread)
    requires Pushes(w, t)
    ensures Advanced(w, t).Pc(t) == LoadStopped
  {
  }

  lemma AdvanceWatched(w: World, t: Thread)
    requires Watched(w)
    ensures Watched(Advanced(w, t))
  {
    hide Advanced;
    var w' := Advanced(w, t);
    AdvanceKeepsTotal(w, t);
    if w'.paused != [] && w'.Total() < w'.resumeBelow {
      if Pushes(w, t) {
        PushIsWatched(w, t);
        assert WillResume(w', w'.Pc(t));
      } else {
        hide Pushes;
        var u :| WillResume(w, w.Pc(u));
        WitnessAdvances(w, t, u);
      }
    }
  }

  lemma WatchedStays(w: World, s: Step)
    requires Watched(w) && Enabled(w, s)
    ensures Watched(Next(w, s))
  {
    var w' := Next(w, s);
    match s
    case Advance(t) => AdvanceWatched(w, t);
    case ReleasePending(t, _) => assert WillResume(w', w'.Pc(t));
    case ReleaseQueued(t, _) => assert WillResume(w', w'.Pc(t));
    case Stop(t) => assert WillResume(w', w'.Pc(t));
    case _ => QuietWatched(w, s);
  }

  lemma QuietWatched(w: World, s: Step)
    requires Watched(w) && Enabled(w, s) && !s.Advance? && !s.ReleasePending? && !s.ReleaseQueued? && !s.Stop?
    ensures Watched(Next(w, s))
  {
    var w' := Next(w, s);
    if w'.paused != [] && w'.Total() < w'.resumeBelow {
      assert w.paused != [] && w.Total() < w.resumeBelow;
      var u :| WillResume(w, w.Pc(u));
      assert WillResume(w', w'.Pc(u));
    }
  }

  lemma AdvanceStopWatched(w: World, t: Thread)
    requires StopWatched(w)
    ensures StopWatched(Advanced(w, t))
  {
    var w' := Advanced(w, t);
    AdvanceKeepsTotal(w, t);
    if w'.paused != [] && w'.stopped {
      if Pushes(w, t) {
        PushIsWatched(w, t);
      } else {
        var u :| w.Pc(u).LoadStopped? || w.Pc(u).SwapPaused?;
        StopWitnessAdvances(w, t, u);
      }
    }
  }

  lemma StopWitnessAdvances(w: World, t: Thread, u: Thread)
    requires w.stopped && (w.Pc(u).LoadStopped? || w.Pc(u).SwapPaused?)
    ensures var w' := Advanced(w, t); w'.paused == [] || w'.Pc(u).LoadStopped? || w'.Pc(u).SwapPaused?
  {
    AdvanceKeepsOthers(w, t, u);
  }

  lemma StopWatchedStays(w: World, s: Step)
    requires StopWatched(w) && Enabled(w, s)
    ensures StopWatched(Next(w, s))
  {
    match s
    case Advance(t) => AdvanceStopWatched(w, t);
    case Stop(t) => assert Next(w, s).Pc(t).SwapPaused?;
    case _ => QuietStopWatched(w, s);
  }

  lemma QuietStopWatched(w: World, s: Step)
    requires StopWatched(w) && Enabled(w, s) && !s.Advance? && !s.Stop?
    ensures StopWatched(Next(w, s))
  {
    var w' := Next(w, s);
    if w'.paused != [] && w'.stopped {
      assert w.paused != [] && w.stopped;
      var u :| w.Pc(u).LoadStopped? || w.Pc(u).SwapPaused?;
      assert w'.Pc(u).LoadStopped? || w'.Pc(u).SwapPaused?;
    }
  }

  lemma {:induction false} Appended(paused: seq<Pause>, p: Pause)
    ensures Conns(paused + [p]) == Conns(paused) + multiset{p.conn}
    ensures Ids(paused + [p]) == Ids(paused) + multiset{p.id}
  {
    if paused == [] {
      assert paused + [p] == [p] && [p][1..] == [];
    } else {
      assert (paused + [p])[1..] == paused[1..] + [p];
      Appended(paused[1..], p);
    }
  }

  /** A timer takes out its own pause and no other. */
  lemma {:induction false} TimerTakesOwn(paused: seq<Pause>, id: nat)
    ensures Ids(Without(paused, id)) == Ids(paused)[id := 0]
  {
    if paused != [] {
      TimerTakesOwn(paused[1..], id);
      var rest := Without(paused[1..], id);
      if paused[0].id != id {
        assert ([paused[0]] + rest)[1..] == rest;
      } else {
        assert [] + rest == rest;
      }
    }
  }

  lemma {:induction false} TimerTakesConns(paused: seq<Pause>, id: nat)
    ensures Conns(Without(paused, id)) <= Conns(paused)
  {
    if paused != [] {
      TimerTakesConns(paused[1..], id);
      var rest := Without(paused[1..], id);
      if paused[0].id != id {
        assert ([paused[0]] + rest)[1..] == rest;
      } else {
        assert [] + rest == rest;
      }
    }
  }

  /** What a step that puts nobody into the list leaves alone. */
  lemma StandFacts(w: World, t: Thread)
    requires !Pushes(w, t) && !w.Pc(t).TakeId?
    ensures var w' := Advanced(w, t);
            && w'.nextId == w.nextId && w'.off == w.off && !w'.Pc(t).Push?
            && ((w'.paused == w.paused && w'.resumes == w.resumes) || (w'.paused == [] && w'.resumes == w.resumes + Conns(w.paused)))
            && (w'.pcs == w.pcs[t := w'.Pc(t)] || w' == w)
  {
    hide Conns;
    match w.Pc(t)
    case Idle =>
    case Push(_, _) =>
    case SwapPaused =>
    case _ =>
  }

  lemma PushFacts(w: World, t: Thread)
    requires Pushes(w, t)
    ensures var p := Pause(w.Pc(t).conn, w.Pc(t).id);
            Advanced(w, t) == w.(paused := w.paused + [p], off := w.off + {p.conn}).At(t, LoadStopped)
  {
  }

  lemma PushDistinct(w: World, t: Thread)
    requires Distinct(w) && Pushes(w, t)
    ensures Distinct(Advanced(w, t))
  {
    hide Advanced, Conns, Ids;
    PushFacts(w, t);
    Appended(w.paused, Pause(w.Pc(t).conn, w.Pc(t).id));
    var w' := Advanced(w, t);
    assert forall u | u != t :: w'.Pc(u) == w.Pc(u);
  }

  lemma StandDistinct(w: World, t: Thread)
    requires Distinct(w) && !Pushes(w, t) && !w.Pc(t).TakeId?
    ensures Distinct(Advanced(w, t))
  {
    hide Advanced, Pushes;
    StandFacts(w, t);
    var w' := Advanced(w, t);
    assert forall u | u != t :: w'.Pc(u) == w.Pc(u);
    assert Conns([]) == multiset{} && Ids([]) == multiset{};
    hide Conns, Ids;
  }

  lemma IdDistinct(w: World, t: Thread)
    requires Distinct(w) && w.Pc(t).TakeId?
    ensures Distinct(Advanced(w, t))
  {
    hide Conns, Ids;
    var w' := Advanced(w, t);
    assert w' == w.(nextId := w.nextId + 1).At(t, Push(w.Pc(t).conn, w.nextId));
    hide Advanced;
    assert forall u | u != t :: w'.Pc(u) == w.Pc(u);
  }

  lemma DistinctStays(w: World, s: Step)
    requires Distinct(w) && Enabled(w, s)
    ensures Distinct(Next(w, s))
  {
    hide Conns, Ids, Advanced, Pushes, Without;
    match s
    case Advance(t) =>
      hide Distinct;
      if Pushes(w, t) {
        PushDistinct(w, t);
      } else if w.Pc(t).TakeId? {
        IdDistinct(w, t);
      } else {
        StandDistinct(w, t);
      }
    case Timer(id) => TimerDistinct(w, id);
    case _ => QuietDistinct(w, s);
  }

  lemma QuietDistinct(w: World, s: Step)
    requires Distinct(w) && Enabled(w, s) && !s.Advance? && !s.Timer?
    ensures Distinct(Next(w, s))
  {
    hide Conns, Ids, Advanced, Without, Distinct;
    var w' := Next(w, s);
    assert w'.paused == w.paused && w'.nextId == w.nextId;
    assert forall u :: w'.Pc(u).Push? ==> w'.Pc(u) == w.Pc(u);
    hide Next, Enabled;
    SameDistinct(w, w');
  }

  lemma SameDistinct(w: World, w': World)
    requires Distinct(w) && w'.paused == w.paused && w'.nextId == w.nextId
    requires forall u :: w'.Pc(u).Push? ==> w'.Pc(u) == w.Pc(u)
    ensures Distinct(w')
  {
    hide Conns, Ids;
  }

  lemma TimerDistinct(w: World, id: nat)
    requires Distinct(w)
    ensures Distinct(Next(w, Timer(id)))
  {
    hide Conns, Ids, Without;
    var left := Without(w.paused, id);
    TimerTakesOwn(w.paused, id);
    TimerTakesConns(w.paused, id);
    var w' := Next(w, Timer(id));
    assert w'.paused == left && w'.nextId == w.nextId && forall t :: w'.Pc(t) == w.Pc(t);
    hide Next;
    forall c ensures Conns(left)[c] <= 1 {
      assert Conns(left)[c] <= Conns(w.paused)[c];
    }
    forall i ensures Ids(left)[i] <= Ids(w.paused)[i] {
    }
  }

  lemma AccountedStays(w: World, s: Step)
    requires Accounted(w) && Enabled(w, s)
    ensures Accounted(Next(w, s))
  {
    hide Conns, Ids, Advanced, Without;
    match s
    case Advance(t) =>
      if Pushes(w, t) {
        PushFacts(w, t);
        Appended(w.paused, Pause(w.Pc(t).conn, w.Pc(t).id));
      } else if w.Pc(t).TakeId? {
        IdFacts(w, t);
      } else {
        StandFacts(w, t);
      }
    case Timer(id) => TimerTakesConns(w.paused, id);
    case _ =>
  }

  lemma IdFacts(w: World, t: Thread)
    requires w.Pc(t).TakeId?
    ensures var w' := Advanced(w, t); w'.off == w.off && w'.paused == w.paused && w'.resumes == w.resumes
  {
  }

  /** Every step keeps the invariant. */
  lemma StepKeepsInv(w: World, s: Step)
    requires Inv(w) && Enabled(w, s)
    ensures Inv(Next(w, s))
  {
    hide Watched, StopWatched, Distinct, Accounted, Next, Enabled;
    WatchedStays(w, s);
    StopWatchedStays(w, s);
    DistinctStays(w, s);
    AccountedStays(w, s);
  }

  ghost predicate Init(w: World) {
    w.paused == [] && w.off == {} && w.resumes == multiset{} && forall t :: w.Pc(t).Idle?
  }

  ghost predicate Execution(trace: seq<World>) {
    && trace != [] && Init(trace[0])
    && forall i | 0 < i < |trace| :: Follows(trace[i - 1], trace[i])
  }

  ghost predicate Follows(w: World, w': World) {
    exists s :: Enabled(w, s) && w' == Next(w, s)
  }

  lemma {:induction false} ReachableInv(trace: seq<World>, k: nat)
    requires Execution(trace) && k < |trace|
    ensures Inv(trace[k])
  {
    if k > 0 {
      ReachableInv(trace, k - 1);
      assert Follows(trace[k - 1], trace[k]);
      hide Inv;
      var s :| Enabled(trace[k - 1], s) && trace[k] == Next(trace[k - 1], s);
      StepKeepsInv(trace[k - 1], s);
    }
  }

  /** No resume is lost. In every interleaving, at a moment when no call is mid-way: below the
      threshold, or after stopPausing, the list is empty, and once the resumptions handed out have
      run every connection is being read. */
  lemma NoLostResume(trace: seq<World>, k: nat)
    requires Execution(trace) && k < |trace|
    requires forall t :: trace[k].Pc(t).Idle?
    requires trace[k].Total() < trace[k].resumeBelow || trace[k].stopped
    ensures trace[k].paused == []
    ensures trace[k].resumes == multiset{} ==> trace[k].off == {}
  {
    hide Execution;
    ReachableInv(trace, k);
  }

  /** No connection is ever in the list twice. */
  lemma PausedOnce(trace: seq<World>, k: nat, c: Conn)
    requires Execution(trace) && k < |trace|
    ensures Conns(trace[k].paused)[c] <= 1
  {
    ReachableInv(trace, k);
  }

  /** Being in the list means not being read, with no old resumption on its way. */
  ghost predicate PausesHold(w: World) {
    forall c :: w.Listed(c) ==> c in w.off && c !in w.resumes
  }

  /** The step pauses a connection whose previous resumption has been handed out but has not run. */
  ghost predicate PausesTooEarly(w: World, s: Step) {
    s.Advance? && Pushes(w, s.t) && w.Pc(s.t).conn in w.resumes
  }

  lemma PushHoldsIff(w: World, t: Thread)
    requires PausesHold(w) && Pushes(w, t)
    ensures PausesHold(Advanced(w, t)) <==> w.Pc(t).conn !in w.resumes
  {
    hide Conns, Advanced;
    var c, w' := w.Pc(t).conn, Advanced(w, t);
    PushFacts(w, t);
    Appended(w.paused, Pause(c, w.Pc(t).id));
    assert w'.Listed(c);
  }

  lemma StandHolds(w: World, t: Thread)
    requires PausesHold(w) && !Pushes(w, t)
    ensures PausesHold(Advanced(w, t))
  {
    assert Conns([]) == multiset{};
    hide Conns, Advanced, Pushes;
    if w.Pc(t).TakeId? {
      IdFacts(w, t);
    } else {
      StandFacts(w, t);
    }
  }

  lemma TimerHolds(w: World, id: nat)
    requires PausesHold(w) && Distinct(w)
    ensures PausesHold(Next(w, Timer(id)))
  {
    hide Conns, Without, Ids;
    TimerTakesConns(w.paused, id);
    var left := Conns(Without(w.paused, id));
    var w' := Next(w, Timer(id));
    forall c | w'.Listed(c) ensures c in w'.off && c !in w'.resumes {
      assert 1 <= left[c] <= Conns(w.paused)[c] <= 1;
    }
  }

  /** Pauses hold through a step if and only if it does not pause a connection too early. */
  lemma PausesHoldIff(w: World, s: Step)
    requires PausesHold(w) && Distinct(w) && Enabled(w, s)
    ensures PausesHold(Next(w, s)) <==> !PausesTooEarly(w, s)
  {
    hide Conns, Without, Ids, Advanced;
    match s
    case Advance(t) =>
      hide PausesHold, Distinct;
      if Pushes(w, t) {
        PushHoldsIff(w, t);
      } else {
        StandHolds(w, t);
      }
    case Timer(id) => TimerHolds(w, id);
    case _ => hide Distinct;
  }

  /** And then the old resumption turns reading back on under the new pause. */
  lemma LateResumeUndoesPause(w: World, t: Thread)
    requires Pushes(w, t) && w.Pc(t).conn in w.resumes
    ensures var c, paused := w.Pc(t).conn, Advanced(w, t);
            Enabled(paused, RunResume(c)) && Next(paused, RunResume(c)).Listed(c) && c !in Next(paused, RunResume(c)).off
  {
    hide Conns, Advanced;
    PushFacts(w, t);
    Appended(w.paused, Pause(w.Pc(t).conn, w.Pc(t).id));
  }

  /** Some execution gets there. */
  ghost predicate Reached(w: World) {
    exists trace :: Execution(trace) && trace[|trace| - 1] == w
  }

  lemma Reach(w: World, s: Step)
    requires Reached(w) && Enabled(w, s)
    ensures Reached(Next(w, s))
  {
    hide Enabled, Next;
    var trace :| Execution(trace) && trace[|trace| - 1] == w;
    var longer := trace + [Next(w, s)];
    forall i | 0 < i < |longer| ensures Follows(longer[i - 1], longer[i]) {
      if i < |trace| {
        assert Follows(trace[i - 1], trace[i]);
      }
    }
    assert Execution(longer) && longer[|longer| - 1] == Next(w, s);
  }

  lemma Again(w: World, t: Thread, pc: Pc, pc': Pc)
    ensures w.At(t, pc).At(t, pc') == w.At(t, pc') && w.At(t, pc).Pc(t) == pc
  {
    assert w.At(t, pc).At(t, pc').pcs == w.At(t, pc').pcs;
  }

  /** With enough bytes a thread gets as far as to put its connection into the list. */
  lemma ComesToPush(w: World, t: Thread, c: Conn)
    requires Reached(w) && w.Pc(t).Idle? && !w.stopped && w.Total() > w.pauseAbove
    ensures Reached(w.(nextId := w.nextId + 1).At(t, Push(c, w.nextId)))
  {
    hide Reached, Conns;
    Reach(w, Quiesce(t, c));
    Again(w, t, AskStopped(c), AskTotals(c));
    Reach(w.At(t, AskStopped(c)), Advance(t));
    Again(w, t, AskTotals(c), AskQueued(c, w.pending));
    Reach(w.At(t, AskTotals(c)), Advance(t));
    Again(w, t, AskQueued(c, w.pending), AskFairShare(c));
    Reach(w.At(t, AskQueued(c, w.pending)), Advance(t));
    Again(w, t, AskFairShare(c), TakeId(c));
    Reach(w.At(t, AskFairShare(c)), FairShare(t, true));
    Again(w.(nextId := w.nextId + 1), t, TakeId(c), Push(c, w.nextId));
    assert w.At(t, TakeId(c)).Pc(t) == TakeId(c);
    Reach(w.At(t, TakeId(c)), Advance(t));
  }

  lemma ComesToCount(w: World, t: Thread)
    requires Reached(w) && w.Pc(t) == LoadTotals && w.Total() < w.resumeBelow
    ensures Reached(w.At(t, CountPaused))
  {
    hide Reached, Conns;
    Reach(w, Advance(t));
    Again(w, t, LoadQueued(w.pending), Compare(w.Total()));
    Reach(w.At(t, LoadQueued(w.pending)), Advance(t));
    Again(w, t, Compare(w.Total()), CountPaused);
    Reach(w.At(t, Compare(w.Total())), Advance(t));
  }

  /** Below the threshold a thread that has released bytes gets as far as to empty the list. */
  lemma ComesToSwap(w: World, t: Thread)
    requires Reached(w) && w.Pc(t) == LoadTotals && w.Total() < w.resumeBelow && w.paused != []
    ensures Reached(w.(paused := [], resumes := w.resumes + Conns(w.paused)).At(t, Idle))
  {
    hide Reached, Conns;
    ComesToCount(w, t);
    Again(w, t, CountPaused, SwapPaused);
    Reach(w.At(t, CountPaused), Advance(t));
    Again(w.(paused := [], resumes := w.resumes + Conns(w.paused)), t, SwapPaused, Idle);
    assert w.At(t, SwapPaused).Pc(t) == SwapPaused;
    Reach(w.At(t, SwapPaused), Advance(t));
  }

  /** Above the threshold a thread that has paused somebody ends its call. */
  lemma ComesToIdle(w: World, t: Thread)
    requires Reached(w) && w.Pc(t) == LoadStopped && !w.stopped && w.Total() >= w.resumeBelow
    ensures Reached(w.At(t, Idle))
  {
    hide Reached, Conns;
    Reach(w, Advance(t));
    Again(w, t, LoadTotals, LoadQueued(w.pending));
    Reach(w.At(t, LoadTotals), Advance(t));
    Again(w, t, LoadQueued(w.pending), Compare(w.Total()));
    Reach(w.At(t, LoadQueued(w.pending)), Advance(t));
    Again(w, t, Compare(w.Total()), Idle);
    Reach(w.At(t, Compare(w.Total())), Advance(t));
  }

  /** A thread pauses `c`, and `c` goes on to the next write quiescence; before it is put into the
      list again, another thread releases everything and hands out its resumption. */
  lemma PauseCanComeTooEarly(c: Conn) returns (w: World)
    ensures Reached(w) && w.Pc(0) == Push(c, 1) && !w.Listed(c) && c in w.resumes
  {
    hide Reached;
    w := World(10, 5, 0, 20, false, 0, [], {}, multiset{}, map[]);
    StartIsReached(w);
    ComesToPush(w, 0, c);
    w := w.(nextId := 1).At(0, Push(c, 0));
    Reach(w, Advance(0));
    w := Advanced(w, 0);
    assert w == World(10, 5, 0, 20, false, 1, [Pause(c, 0)], {c}, multiset{}, w.pcs) && w.Pc(0) == LoadStopped && w.Pc(1) == Idle;
    hide Advanced;
    ComesToIdle(w, 0);
    w := w.At(0, Idle);
    ComesToPush(w, 0, c);
    w := w.(nextId := 2).At(0, Push(c, 1));
    Reach(w, ReleaseQueued(1, 20));
    w := w.(queued := 0).At(1, LoadTotals);
    ComesToSwap(w, 1);
    w := w.(paused := [], resumes := w.resumes + Conns(w.paused)).At(1, Idle);
  }

  lemma StartIsReached(w: World)
    requires Init(w)
    ensures Reached(w)
  {
    assert Execution([w]);
  }

  /** So a connection can come to be in the list and yet be read. */
  lemma PauseCanBeUndone(c: Conn) returns (w: World)
    ensures Reached(w) && w.Listed(c) && c !in w.off
  {
    var early := PauseCanComeTooEarly(c);
    hide Reached, Advanced, Next, Conns;
    LateResumeUndoesPause(early, 0);
    Reach(early, Advance(0));
    AdvanceIsNext(early, 0);
    Reach(Advanced(early, 0), RunResume(c));
    w := Next(Advanced(early, 0), RunResume(c));
  }

  lemma AdvanceIsNext(w: World, t: Thread)
    ensures Next(w, Advance(t)) == Advanced(w, t)
  {
  }

  // What a thread has seen in the course of a call, and so why it pauses and resumes.

  /** Between `s` and `k` pausing was not stopped at some moment; or it was. */
  ghost predicate SawRunning(trace: seq<World>, s: nat, k: nat)
    requires s <= k < |trace|
  {
    exists i | s <= i <= k :: !trace[i].stopped
  }

  ghost predicate SawStopped(trace: seq<World>, s: nat, k: nat)
    requires s <= k < |trace|
  {
    exists i | s <= i <= k :: trace[i].stopped
  }

  /** The two totals, each read at some moment between `s` and `k`, add up to `sum`. */
  ghost predicate Read(trace: seq<World>, s: nat, k: nat, sum: nat)
    requires s <= k < |trace|
  {
    exists i, j | s <= i <= k && s <= j <= k :: sum == trace[i].pending + trace[j].queued
  }

  ghost predicate ReadAbove(trace: seq<World>, s: nat, k: nat)
    requires s <= k < |trace|
  {
    exists sum: nat :: Read(trace, s, k, sum) && sum > trace[k].pauseAbove
  }

  ghost predicate ReadBelow(trace: seq<World>, s: nat, k: nat)
    requires s <= k < |trace|
  {
    exists sum: nat :: Read(trace, s, k, sum) && sum < trace[k].resumeBelow
  }

  /** What thread `t` has seen by `k`, in a call that goes on since `s`. */
  ghost predicate Seen(trace: seq<World>, s: nat, k: nat, t: Thread)
    requires s <= k < |trace|
  {
    match trace[k].Pc(t)
    case AskTotals(_) => SawRunning(trace, s, k)
    case AskQueued(_, pending) => SawRunning(trace, s, k) && exists i | s <= i <= k :: trace[i].pending == pending
    case AskPending(_, queued) => SawRunning(trace, s, k) && exists i | s <= i <= k :: trace[i].queued == queued
    case AskFairShare(_) => SawRunning(trace, s, k) && ReadAbove(trace, s, k)
    case TakeId(_) => SawRunning(trace, s, k) && ReadAbove(trace, s, k)
    case Push(_, _) => SawRunning(trace, s, k) && ReadAbove(trace, s, k)
    case LoadQueued(pending) => exists i | s <= i <= k :: trace[i].pending == pending
    case LoadPending(queued) => exists i | s <= i <= k :: trace[i].queued == queued
    case Compare(sum) => Read(trace, s, k, sum)
    case CountPaused => ReadBelow(trace, s, k)
    case SwapPaused => SawStopped(trace, s, k) || ReadBelow(trace, s, k)
    case _ => true
  }

  /** The call of `t` goes on since `s`. */
  ghost predicate Since(trace: seq<World>, s: nat, k: nat, t: Thread)
    requires s <= k < |trace|
  {
    forall i | s <= i <= k :: !trace[i].Pc(t).Idle?
  }

  /** Time passes: what was seen stays seen. */
  lemma SeenLater(trace: seq<World>, s: nat, k: nat, t: Thread)
    requires s <= k < |trace| - 1 && Seen(trace, s, k, t) && trace[k + 1].Pc(t) == trace[k].Pc(t)
    requires trace[k + 1].pauseAbove == trace[k].pauseAbove && trace[k + 1].resumeBelow == trace[k].resumeBelow
    ensures Seen(trace, s, k + 1, t)
  {
    StillRead(trace, s, k);
    hide Read;
  }

  lemma LimitsStay(w: World, step: Step)
    requires Enabled(w, step)
    ensures Next(w, step).pauseAbove == w.pauseAbove && Next(w, step).resumeBelow == w.resumeBelow
  {
    hide Conns, Without;
  }

  /** A step of another thread, or of none. */
  lemma OthersStand(w: World, step: Step, t: Thread)
    requires Enabled(w, step)
    ensures Next(w, step).Pc(t) == w.Pc(t) ||
            step in {Advance(t), QueuedFirst(t), Stop(t)} || (step.Quiesce? && step.t == t) || (step.FairShare? && step.t == t)
            || (step.ReleasePending? && step.t == t) || (step.ReleaseQueued? && step.t == t)
  {
    hide Conns, Without;
    if step.Advance? {
      AdvanceKeepsOthers(w, step.t, t);
    }
  }

  /** Where a thread's next step may take it, in world `w`. */
  ghost predicate Moves(w: World, pc: Pc, pc': Pc) {
    match pc
    case AskStopped(_) => pc'.Idle? || (pc'.AskTotals? && !w.stopped)
    case AskTotals(_) => (pc'.AskQueued? && pc'.pending == w.pending) || (pc'.AskPending? && pc'.queued == w.queued)
    case AskQueued(_, pending) => pc'.Idle? || (pc'.AskFairShare? && pending + w.queued > w.pauseAbove)
    case AskPending(_, queued) => pc'.Idle? || (pc'.AskFairShare? && w.pending + queued > w.pauseAbove)
    case AskFairShare(_) => pc'.Idle? || pc'.TakeId?
    case TakeId(_) => pc'.Push?
    case Push(_, _) => pc'.Idle? || pc'.LoadStopped?
    case LoadStopped => pc'.LoadTotals? || (pc'.SwapPaused? && w.stopped)
    case LoadTotals => pc' == LoadQueued(w.pending) || pc' == LoadPending(w.queued)
    case LoadQueued(pending) => pc' == Compare(pending + w.queued)
    case LoadPending(queued) => pc' == Compare(w.pending + queued)
    case Compare(sum) => pc'.Idle? || (pc'.CountPaused? && sum < w.resumeBelow)
    case CountPaused => pc'.Idle? || pc'.SwapPaused?
    case SwapPaused => pc'.Idle?
    case Idle => true
  }

  lemma MovesBy(w: World, step: Step, t: Thread)
    requires Enabled(w, step) && Next(w, step).Pc(t) != w.Pc(t)
    ensures Moves(w, w.Pc(t), Next(w, step).Pc(t))
  {
    OthersStand(w, step, t);
    hide Conns, Without;
  }

  /** A thread's own step adds to what it has seen. */
  lemma SeenByStep(trace: seq<World>, s: nat, k: nat, t: Thread, step: Step)
    requires s <= k < |trace| - 1 && Seen(trace, s, k, t) && Enabled(trace[k], step) && trace[k + 1] == Next(trace[k], step)
    requires trace[k + 1].Pc(t) != trace[k].Pc(t) && !trace[k].Pc(t).Idle?
    ensures Seen(trace, s, k + 1, t)
  {
    hide Next, Enabled, Read;
    LimitsStay(trace[k], step);
    MovesBy(trace[k], step, t);
    StillRead(trace, s, k);
    match trace[k].Pc(t)
    case AskQueued(_, pending) => ReadNow(trace, s, k, pending, trace[k].queued);
    case AskPending(_, queued) => ReadNow(trace, s, k, trace[k].pending, queued);
    case LoadQueued(pending) => ReadNow(trace, s, k, pending, trace[k].queued);
    case LoadPending(queued) => ReadNow(trace, s, k, trace[k].pending, queued);
    case _ =>
  }

  lemma StillRead(trace: seq<World>, s: nat, k: nat)
    requires s <= k < |trace| - 1
    ensures forall sum: nat | Read(trace, s, k, sum) :: Read(trace, s, k + 1, sum)
  {
  }

  lemma ReadNow(trace: seq<World>, s: nat, k: nat, pending: nat, queued: nat)
    requires s <= k < |trace| - 1
    requires (exists i | s <= i <= k :: trace[i].pending == pending) && (exists j | s <= j <= k :: trace[j].queued == queued)
    ensures Read(trace, s, k + 1, pending + queued)
  {
  }

  lemma SeenAtStart(trace: seq<World>, k: nat, t: Thread, step: Step)
    requires k < |trace| - 1 && trace[k].Pc(t).Idle? && Enabled(trace[k], step) && trace[k + 1] == Next(trace[k], step)
    ensures Seen(trace, k + 1, k + 1, t)
  {
    OthersStand(trace[k], step, t);
    hide Conns, Without;
  }

  /** Every call in progress has seen what its next step relies on. */
  lemma {:induction false} EverySeen(trace: seq<World>, k: nat, t: Thread) returns (s: nat)
    requires Execution(trace) && k < |trace| && !trace[k].Pc(t).Idle?
    ensures s <= k && Since(trace, s, k, t) && Seen(trace, s, k, t)
    decreases k
  {
    hide Seen, Next, Enabled;
    assert Init(trace[0]);
    assert Follows(trace[k - 1], trace[k]);
    var step :| Enabled(trace[k - 1], step) && trace[k] == Next(trace[k - 1], step);
    if trace[k - 1].Pc(t).Idle? {
      s := k;
      SeenAtStart(trace, k - 1, t, step);
    } else {
      s := EverySeen(trace, k - 1, t);
      LimitsStay(trace[k - 1], step);
      if trace[k].Pc(t) == trace[k - 1].Pc(t) {
        SeenLater(trace, s, k - 1, t);
      } else {
        SeenByStep(trace, s, k - 1, t, step);
      }
    }
  }

  /** Who is put into the list: a thread has, in one call, seen that pausing goes on and read totals
      that add up to more than the threshold. */
  lemma PausesOnlyAbove(trace: seq<World>, k: nat, t: Thread) returns (s: nat)
    requires Execution(trace) && k < |trace| && Pushes(trace[k], t)
    ensures s <= k && Since(trace, s, k, t) && SawRunning(trace, s, k) && ReadAbove(trace, s, k)
  {
    s := EverySeen(trace, k, t);
  }

  /** Whom the list is emptied for: a thread has, in one call, seen that pausing was stopped or read
      totals that add up to less than the lower threshold. */
  lemma ResumesOnlyBelow(trace: seq<World>, k: nat, t: Thread) returns (s: nat)
    requires Execution(trace) && k < |trace| && trace[k].Pc(t).SwapPaused?
    ensures s <= k && Since(trace, s, k, t) && (SawStopped(trace, s, k) || ReadBelow(trace, s, k))
  {
    s := EverySeen(trace, k, t);
  }

  /** The list changes in no other way: by a push, by a swap, or by a timer that takes one out. */
  lemma ListChangesOnlyBy(w: World, step: Step)
    requires Enabled(w, step)
    ensures Next(w, step).paused == w.paused || (step.Advance? && (Pushes(w, step.t) || w.Pc(step.t).SwapPaused?)) || step.Timer?
    ensures step.FairShare? && !step.over ==> Next(w, step) == w.At(step.t, Idle)
  {
    hide Conns, Without;
  }
}
