/** Fib: the route state machine, dirty prefixes, delayed deletes and the agent's replies. The
    hardware table and the table that readers of the published updates end up with are ghosts. */
module Fibs {
  import opened Options
  import opened RouteUpdates

  type Prefix = nat
  type Time = nat

  datatype Route = Route(nexthops: nat, doNotInstall: bool)

  type Table = map<Prefix, Route>
  type Delta = Patch<Prefix, Route>

  /** The tables say the same of `p`. */
  ghost predicate Agree(a: Table, b: Table, p: Prefix) {
    (p in a <==> p in b) && (p in a && p in b ==> a[p] == b[p])
  }

  datatype State = Awaiting | Syncing | Synced

  datatype StateEvent = RibUpdate | FibConnected | FibSynced

  /** The transition matrix; `None` is the CHECK. */
  function Transition(state: State, event: StateEvent): Option<State> {
    match event
    case RibUpdate => Some(if state == Synced then Synced else Syncing)
    case FibConnected => Some(if state == Awaiting then Awaiting else Syncing)
    case FibSynced => if state == Syncing then Some(Synced) else None
  }

  /** How the agent answers a request: done, done but for the prefixes listed, or an error that
      leaves open what was done. */
  datatype Reply = Done | DoneBut(failedAdds: set<Prefix>, failedDeletes: set<Prefix>) | Error {
    predicate Lists(p: Prefix) {
      DoneBut? && (p in failedAdds || p in failedDeletes)
    }

    function Failures(): set<Prefix> {
      if DoneBut? then failedAdds + failedDeletes else {}
    }
  }

  /** What adding routes may do to the hardware. */
  ghost predicate AddEffect(hw: Table, updates: Table, reply: Reply, hw': Table) {
    && (forall p | p !in updates :: Agree(hw', hw, p))
    && (!reply.Error? ==> forall p <- updates :: reply.Lists(p) || Agree(hw', updates, p))
  }

  /** What deleting routes may do: a reply that is not `Done` promises nothing of them. */
  ghost predicate DeleteEffect(hw: Table, deletes: set<Prefix>, reply: Reply, hw': Table) {
    && (forall p | p !in deletes :: Agree(hw', hw, p))
    && (reply.Done? ==> forall p <- deletes :: p !in hw')
  }

  /** What a sync may do: afterwards the hardware is the table sent, but for the prefixes listed. */
  ghost predicate SyncEffect(routes: Table, reply: Reply, hw': Table) {
    !reply.Error? ==> forall p :: reply.Lists(p) || Agree(hw', routes, p)
  }

  /** Wherever the tables differ, the prefix is dirty. */
  ghost predicate Tracked(a: Table, b: Table, dirty: set<Prefix>) {
    forall p :: Agree(a, b, p) || p in dirty
  }

  predicate Mentions(u: Delta, p: Prefix) {
    p in u.updates || p in u.deletes
  }

  /** The intended table already holds the delta. */
  ghost predicate Held(routes: Table, u: Delta) {
    forall p | Mentions(u, p) :: if p in u.deletes then p !in routes else Agree(routes, u.updates, p)
  }

  /** Is the delete list left to the delay? */
  predicate Delays(delay: Time, useDeleteDelay: bool) {
    delay > 0 && useDeleteDelay
  }

  /** The prefixes that programming the delta leaves dirty. */
  function Failed(delay: Time, useDeleteDelay: bool, update: Delta, deleteReply: Reply, addReply: Reply): set<Prefix> {
    (if Delays(delay, useDeleteDelay) || deleteReply != Done then update.deletes else {}) +
    (if update.updates == map[] || addReply.Done? then {}
     else if addReply.Error? then update.updates.Keys
     else addReply.failedAdds + addReply.failedDeletes)
  }

  /** The agent did not take the route for `p`, or lists `p` as failed. */
  predicate AddFails(update: Delta, addReply: Reply, p: Prefix) {
    update.updates != map[] && ((addReply.Error? && p in update.updates) || addReply.Lists(p))
  }

  /** When prefixes are due after programming: a failed one at `retryAt`, a delayed delete after the
      delay and no earlier, the others when they were. */
  ghost predicate DirtyTimes(delay: Time, useDeleteDelay: bool, now: Time, retryAt: Time, update: Delta, deleteReply: Reply, addReply: Reply,
                             dirty: map<Prefix, Time>, dirty': map<Prefix, Time>) {
    forall p <- dirty' ::
      if AddFails(update, addReply, p) then dirty'[p] == retryAt
      else if p in update.deletes && delay > 0 && useDeleteDelay then dirty'[p] == now + delay
      else if p in update.deletes && deleteReply != Done then dirty'[p] == retryAt
      else p in dirty && dirty'[p] == dirty[p]
  }

  /** The delta as it is published: what could not be added is declared deleted. */
  function Publication(update: Delta, addReply: Reply): Delta {
    if update.updates == map[] || addReply.Done? then update
    else if addReply.Error? then Patch(map[], update.deletes + update.updates.Keys)
    else Patch(update.updates - addReply.failedAdds, update.deletes + addReply.failedAdds)
  }

  /** What the two requests of a delta may do to the hardware. */
  ghost predicate ProgramEffect(delay: Time, useDeleteDelay: bool, update: Delta, deleteReply: Reply, addReply: Reply, hw: Table, hw': Table) {
    exists mid :: Between(delay, useDeleteDelay, update, deleteReply, addReply, hw, mid, hw')
  }

  /** `mid` is the hardware after the deletes. */
  ghost predicate Between(delay: Time, useDeleteDelay: bool, update: Delta, deleteReply: Reply, addReply: Reply, hw: Table, mid: Table, hw': Table) {
    && (if Delays(delay, useDeleteDelay) || update.deletes == {} then mid == hw else DeleteEffect(hw, update.deletes, deleteReply, mid))
    && (if update.updates == map[] then hw' == mid else AddEffect(mid, update.updates, addReply, hw'))
  }

  lemma SomeEffect(delay: Time, useDeleteDelay: bool, update: Delta, deleteReply: Reply, addReply: Reply, hw: Table)
    ensures exists hw' :: ProgramEffect(delay, useDeleteDelay, update, deleteReply, addReply, hw, hw')
  {
    var mid := if Delays(delay, useDeleteDelay) || update.deletes == {} then hw else hw - update.deletes;
    var hw' := if update.updates == map[] then mid else mid + update.updates;
    assert Between(delay, useDeleteDelay, update, deleteReply, addReply, hw, mid, hw');
    assert ProgramEffect(delay, useDeleteDelay, update, deleteReply, addReply, hw, hw');
  }

  /** A prefix of the delta that is not left dirty came through. One to be both deleted and
      installed ends up installed. */
  lemma NotFailedIsProgrammed(delay: Time, useDeleteDelay: bool, update: Delta, deleteReply: Reply, addReply: Reply, hw: Table, hw': Table, p: Prefix)
    requires ProgramEffect(delay, useDeleteDelay, update, deleteReply, addReply, hw, hw')
    requires p !in Failed(delay, useDeleteDelay, update, deleteReply, addReply)
    ensures if p in update.updates then Agree(hw', update.updates, p)
            else if p in update.deletes then p !in hw'
            else Agree(hw', hw, p)
  {
  }

  /** Programming a delta that the intended table holds leaves every difference dirty if and only if
      no prefix is both deleted and installed, but for dirty ones. */
  lemma ProgrammingTracksIff(delay: Time, useDeleteDelay: bool, dirty: set<Prefix>, update: Delta, deleteReply: Reply, addReply: Reply,
                             routes: Table, hw: Table, hw': Table)
    requires ProgramEffect(delay, useDeleteDelay, update, deleteReply, addReply, hw, hw') && Held(routes, update)
    requires forall p | !Mentions(update, p) :: Agree(hw, routes, p) || p in dirty
    ensures var dirty' := dirty + Failed(delay, useDeleteDelay, update, deleteReply, addReply);
            Tracked(hw', routes, dirty') <==> update.updates.Keys * update.deletes <= dirty'
  {
    hide ProgramEffect, Failed;
    var dirty' := dirty + Failed(delay, useDeleteDelay, update, deleteReply, addReply);
    forall p | p !in dirty'
      ensures Agree(hw', routes, p) <==> !(p in update.updates && p in update.deletes)
    {
      NotFailedIsProgrammed(delay, useDeleteDelay, update, deleteReply, addReply, hw, hw', p);
    }
  }

  /** Whatever the agent answers, it does so if and only if each such prefix is dirty already or its
      delete is delayed. */
  lemma ProgrammingAlwaysTracksIff(delay: Time, useDeleteDelay: bool, dirty: set<Prefix>, update: Delta, routes: Table, hw: Table)
    requires Held(routes, update) && forall p | !Mentions(update, p) :: Agree(hw, routes, p) || p in dirty
    ensures (forall deleteReply, addReply, hw' | ProgramEffect(delay, useDeleteDelay, update, deleteReply, addReply, hw, hw') ::
               Tracked(hw', routes, dirty + Failed(delay, useDeleteDelay, update, deleteReply, addReply))) <==>
            update.updates.Keys * update.deletes <= dirty + if Delays(delay, useDeleteDelay) then update.deletes else {}
  {
    assert forall deleteReply, addReply :: Delays(delay, useDeleteDelay) ==> update.deletes <= Failed(delay, useDeleteDelay, update, deleteReply, addReply);
    assert Failed(delay, useDeleteDelay, update, Done, Done) == if Delays(delay, useDeleteDelay) then update.deletes else {};
    hide ProgramEffect, Failed, Held, Tracked, Mentions;
    forall deleteReply, addReply, hw' | ProgramEffect(delay, useDeleteDelay, update, deleteReply, addReply, hw, hw')
      ensures Tracked(hw', routes, dirty + Failed(delay, useDeleteDelay, update, deleteReply, addReply)) <==>
              update.updates.Keys * update.deletes <= dirty + Failed(delay, useDeleteDelay, update, deleteReply, addReply)
    {
      ProgrammingTracksIff(delay, useDeleteDelay, dirty, update, deleteReply, addReply, routes, hw, hw');
    }
    SomeEffect(delay, useDeleteDelay, update, Done, Done, hw);
  }

  /** The published delta keeps readers at the intended table, but for dirty prefixes. */
  lemma PublicationTracks(delay: Time, useDeleteDelay: bool, dirty: set<Prefix>, update: Delta, deleteReply: Reply, addReply: Reply,
                          routes: Table, published: Table)
    requires Held(routes, update)
    requires forall p | !Mentions(update, p) :: Agree(published, routes, p) || p in dirty
    ensures Tracked(ApplyDeletesLast(published, Publication(update, addReply)), routes,
                    dirty + Failed(delay, useDeleteDelay, update, deleteReply, addReply))
  {
  }

  /** What a reader at `before` is told: the routes installed, and no others of the delta. */
  ghost predicate Told(update: Delta, addReply: Reply, before: Table, after: Table) {
    forall p ::
      if p in update.deletes then p !in after
      else if p in update.updates && addReply.Error? then p !in after
      else if addReply.DoneBut? && p in addReply.failedAdds && update.updates != map[] then p !in after
      else if p in update.updates then Agree(after, update.updates, p)
      else Agree(after, before, p)
  }

  lemma PublicationTells(update: Delta, addReply: Reply, published: Table)
    ensures Told(update, addReply, published, ApplyDeletesLast(published, Publication(update, addReply)))
  {
  }

  /** The dirty prefixes that are due, as a delta. */
  function DueDelta(routes: Table, dirty: map<Prefix, Time>, now: Time): Delta {
    Patch(map p | p in dirty && dirty[p] <= now && p in routes :: routes[p], set p <- dirty | dirty[p] <= now && p !in routes)
  }

  /** Those that are not. */
  function Left(dirty: map<Prefix, Time>, now: Time): map<Prefix, Time> {
    map p | p in dirty && now < dirty[p] :: dirty[p]
  }

  /** createUpdate. */
  method DueUpdate(routes: Table, dirty: map<Prefix, Time>, now: Time) returns (update: Delta, left: map<Prefix, Time>)
    ensures update == DueDelta(routes, dirty, now) && left == Left(dirty, now)
    ensures Due(routes, dirty.Keys, left.Keys, update) && Disjoint(update)
  {
    hide Due, Disjoint;
    update, left := Patch(map[], {}), dirty;
    var todo := dirty.Keys;
    while todo != {}
      invariant todo <= dirty.Keys
      invariant left == map p | p in dirty && (p in todo || now < dirty[p]) :: dirty[p]
      invariant update.updates == map p | p in dirty && p !in todo && dirty[p] <= now && p in routes :: routes[p]
      invariant update.deletes == set p <- dirty | p !in todo && dirty[p] <= now && p !in routes
      decreases todo
    {
      var p :| p in todo;
      todo := todo - {p};
      if dirty[p] <= now {
        if p in routes {
          update := update.(updates := update.updates[p := routes[p]]);
        } else {
          update := update.(deletes := update.deletes + {p});
        }
        left := left - {p};
      }
    }
    DueDeltaIsDue(routes, dirty, now);
  }

  lemma DueDeltaIsDue(routes: Table, dirty: map<Prefix, Time>, now: Time)
    ensures Due(routes, dirty.Keys, Left(dirty, now).Keys, DueDelta(routes, dirty, now)) && Disjoint(DueDelta(routes, dirty, now))
  {
  }

  /** The updates that may be installed: processDecisionRouteUpdate drops the others. */
  method Installable(updates: Table) returns (kept: Table)
    ensures kept == map p | p in updates && !updates[p].doNotInstall :: updates[p]
  {
    kept := updates;
    var todo := updates.Keys;
    while todo != {}
      invariant todo <= updates.Keys
      invariant kept == map p | p in updates && (p in todo || !updates[p].doNotInstall) :: updates[p]
      decreases todo
    {
      var p :| p in todo;
      todo := todo - {p};
      if updates[p].doNotInstall {
        kept := kept - {p};
      }
    }
  }

  /** `dirty` with `ps` to be retried at `at`. */
  function Dirtied(dirty: map<Prefix, Time>, ps: set<Prefix>, at: Time): map<Prefix, Time> {
    dirty + map p | p in ps :: at
  }

  /** SYNCED is entered by a sync only, and only from SYNCING. */
  lemma SyncingEnds()
    ensures Transition(Syncing, FibSynced) == Some(Synced)
    ensures forall state :: Transition(state, FibSynced).Some? ==> state == Syncing
    ensures forall state, event :: Transition(state, event) == Some(Synced) && state != Synced ==> state == Syncing && event == FibSynced
  {
  }

  lemma FailedAreDueAgain(dirty: map<Prefix, Time>, ps: set<Prefix>, at: Time)
    ensures forall p <- ps :: p in Dirtied(dirty, ps, at) && Dirtied(dirty, ps, at)[p] == at
  {
  }

  lemma DirtiedKeys(dirty: map<Prefix, Time>, ps: set<Prefix>, at: Time)
    ensures Dirtied(dirty, ps, at).Keys == dirty.Keys + ps
    ensures ps == {} ==> Dirtied(dirty, ps, at) == dirty
  {
  }

  /** updateUnicastRoutes: what failed, or is left to the delay, is dirty. */
  method MarkFailed(delay: Time, useDeleteDelay: bool, now: Time, retryAt: Time, dirty: map<Prefix, Time>, update: Delta, deleteReply: Reply, addReply: Reply)
    returns (success: bool, dirty': map<Prefix, Time>)
    ensures dirty'.Keys == dirty.Keys + Failed(delay, useDeleteDelay, update, deleteReply, addReply)
    ensures DirtyTimes(delay, useDeleteDelay, now, retryAt, update, deleteReply, addReply, dirty, dirty')
    ensures success <==> (Delays(delay, useDeleteDelay) || update.deletes == {} || deleteReply == Done) && (update.updates == map[] || addReply == Done)
  {
    MarkedTimes(delay, useDeleteDelay, now, retryAt, dirty, update, deleteReply, addReply);
    hide DirtyTimes, Failed, Dirtied;
    success, dirty' := true, dirty;
    if Delays(delay, useDeleteDelay) {
      dirty' := Dirtied(dirty', update.deletes, now + delay);
    } else if update.deletes != {} && deleteReply != Done {
      success := false;
      dirty' := Dirtied(dirty', update.deletes, retryAt);
    }
    if update.updates != map[] && addReply != Done {
      success := false;
      dirty' := Dirtied(dirty', FailedAdds(update, addReply), retryAt);
    }
  }

  function FailedAdds(update: Delta, addReply: Reply): set<Prefix> {
    if addReply.Error? then update.updates.Keys else addReply.Failures()
  }

  function DeletesMarked(delay: Time, useDeleteDelay: bool, now: Time, retryAt: Time, dirty: map<Prefix, Time>, deletes: set<Prefix>, deleteReply: Reply): map<Prefix, Time> {
    if Delays(delay, useDeleteDelay) then Dirtied(dirty, deletes, now + delay)
    else if deletes != {} && deleteReply != Done then Dirtied(dirty, deletes, retryAt)
    else dirty
  }

  lemma DirtiedAt(dirty: map<Prefix, Time>, ps: set<Prefix>, at: Time, p: Prefix)
    ensures p in Dirtied(dirty, ps, at) <==> p in dirty || p in ps
    ensures p in ps ==> Dirtied(dirty, ps, at)[p] == at
    ensures p in dirty && p !in ps ==> Dirtied(dirty, ps, at)[p] == dirty[p]
  {
  }

  lemma FailedIs(delay: Time, useDeleteDelay: bool, update: Delta, deleteReply: Reply, addReply: Reply, p: Prefix)
    ensures p in Failed(delay, useDeleteDelay, update, deleteReply, addReply) <==>
            AddFails(update, addReply, p) || (p in update.deletes && (Delays(delay, useDeleteDelay) || deleteReply != Done))
    ensures AddFails(update, addReply, p) <==> update.updates != map[] && addReply != Done && p in FailedAdds(update, addReply)
  {
  }

  lemma MarkedAt(delay: Time, useDeleteDelay: bool, now: Time, retryAt: Time, dirty: map<Prefix, Time>, update: Delta, deleteReply: Reply, addReply: Reply,
                 d: map<Prefix, Time>, dirty': map<Prefix, Time>, p: Prefix)
    requires d == DeletesMarked(delay, useDeleteDelay, now, retryAt, dirty, update.deletes, deleteReply)
    requires dirty' == if update.updates != map[] && addReply != Done then Dirtied(d, FailedAdds(update, addReply), retryAt) else d
    ensures p in dirty' <==> p in dirty || p in Failed(delay, useDeleteDelay, update, deleteReply, addReply)
    ensures p in dirty' ==>
              if AddFails(update, addReply, p) then dirty'[p] == retryAt
              else if p in update.deletes && delay > 0 && useDeleteDelay then dirty'[p] == now + delay
              else if p in update.deletes && deleteReply != Done then dirty'[p] == retryAt
              else p in dirty && dirty'[p] == dirty[p]
  {
    hide Failed, AddFails, FailedAdds, Dirtied;
    FailedIs(delay, useDeleteDelay, update, deleteReply, addReply, p);
    DirtiedAt(dirty, update.deletes, now + delay, p);
    DirtiedAt(dirty, update.deletes, retryAt, p);
    DirtiedAt(d, FailedAdds(update, addReply), retryAt, p);
  }

  lemma MarkedTimes(delay: Time, useDeleteDelay: bool, now: Time, retryAt: Time, dirty: map<Prefix, Time>, update: Delta, deleteReply: Reply, addReply: Reply)
    ensures var d := DeletesMarked(delay, useDeleteDelay, now, retryAt, dirty, update.deletes, deleteReply);
            var dirty' := if update.updates != map[] && addReply != Done then Dirtied(d, FailedAdds(update, addReply), retryAt) else d;
            && dirty'.Keys == dirty.Keys + Failed(delay, useDeleteDelay, update, deleteReply, addReply)
            && DirtyTimes(delay, useDeleteDelay, now, retryAt, update, deleteReply, addReply, dirty, dirty')
  {
    hide Failed, AddFails, FailedAdds, Dirtied, DeletesMarked;
    var d := DeletesMarked(delay, useDeleteDelay, now, retryAt, dirty, update.deletes, deleteReply);
    var dirty' := if update.updates != map[] && addReply != Done then Dirtied(d, FailedAdds(update, addReply), retryAt) else d;
    forall p
      ensures p in dirty' <==> p in dirty || p in Failed(delay, useDeleteDelay, update, deleteReply, addReply)
      ensures p in dirty' ==>
                if AddFails(update, addReply, p) then dirty'[p] == retryAt
                else if p in update.deletes && delay > 0 && useDeleteDelay then dirty'[p] == now + delay
                else if p in update.deletes && deleteReply != Done then dirty'[p] == retryAt
                else p in dirty && dirty'[p] == dirty[p]
    {
      MarkedAt(delay, useDeleteDelay, now, retryAt, dirty, update, deleteReply, addReply, d, dirty', p);
    }
  }

  /** Hardware keeps what it was not asked to change; a delayed delete is not asked for. */
  lemma UnaskedStays(delay: Time, useDeleteDelay: bool, update: Delta, deleteReply: Reply, addReply: Reply, hw: Table, hw': Table)
    requires ProgramEffect(delay, useDeleteDelay, update, deleteReply, addReply, hw, hw')
    ensures forall p | p !in update.updates && (p in update.deletes ==> delay > 0 && useDeleteDelay) :: Agree(hw', hw, p)
  {
  }

  lemma HardwareTracked(delay: Time, useDeleteDelay: bool, dirty: set<Prefix>, update: Delta, deleteReply: Reply, addReply: Reply,
                        routes: Table, hw: Table, hw': Table)
    requires ProgramEffect(delay, useDeleteDelay, update, deleteReply, addReply, hw, hw') && Held(routes, update)
    requires Disjoint(update) || Delays(delay, useDeleteDelay)
    requires forall p | !Mentions(update, p) :: Agree(hw, routes, p) || p in dirty
    ensures Tracked(hw', routes, dirty + Failed(delay, useDeleteDelay, update, deleteReply, addReply))
  {
    ProgrammingTracksIff(delay, useDeleteDelay, dirty, update, deleteReply, addReply, routes, hw, hw');
  }

  /** `update` is for the dirty prefixes that are not left for later. */
  ghost predicate Due(routes: Table, dirty: set<Prefix>, left: set<Prefix>, update: Delta) {
    && left <= dirty && Held(routes, update)
    && forall p :: Mentions(update, p) <==> p in dirty && p !in left
  }

  class Fib {
    /** routeDeleteDelay_; 0 turns delayed deletion off. */
    const delay: Time

    /** routeState_: the intended table, the prefixes to retry and when, the state. */
    var routes: Table
    var dirty: map<Prefix, Time>
    var state: State
    var initialSynced: bool
    /** latestAliveSince_ */
    var latestAlive: int

    /** The hardware; whether the agent restarted since it was last synced. */
    ghost var hw: Table
    ghost var restarted: bool
    /** The table of a reader of the published updates. */
    ghost var published: Table

    ghost predicate Valid()
      reads this
    {
      && (state == Synced ==> initialSynced)
      && (state == Awaiting ==> !initialSynced && routes == map[] && dirty == map[])
      && (state == Synced && !restarted ==> Tracked(hw, routes, dirty.Keys))
    }

    /** The reader is at the intended table, but for dirty prefixes. */
    ghost predicate Level()
      reads this
    {
      initialSynced ==> Tracked(published, routes, dirty.Keys)
    }

    constructor (delay: Time)
      ensures Valid() && Level() && state == Awaiting && this.delay == delay && latestAlive == 0
      ensures dirty == map[] && published == map[]
    {
      this.delay := delay;
      routes, dirty, state, initialSynced, latestAlive := map[], map[], Awaiting, false, 0;
      hw, restarted, published := map[], false, map[];
    }

    /** transitionRouteState. The first update from Decision clears what was there before it. */
    method TransitionRouteState(event: StateEvent)
      requires Transition(state, event).Some?
      modifies this`state, this`routes
      ensures state == Transition(old(state), event).value
      ensures routes == if old(state) == Awaiting && state == Syncing then map[] else old(routes)
    {
      var prev := state;
      state := Transition(state, event).value;
      if prev == Awaiting && state == Syncing {
        routes := map[];
      }
    }

    /** The end of updateRoutes, outside SYNCING: program the delta and publish it. */
    method Program(update: Delta, useDeleteDelay: bool, now: Time, retryAt: Time, deleteReply: Reply, addReply: Reply) returns (success: bool)
      requires Held(routes, update) && (Disjoint(update) || Delays(delay, useDeleteDelay))
      requires state == Synced && initialSynced
      requires !restarted ==> forall p | !Mentions(update, p) :: Agree(hw, routes, p) || p in dirty
      modifies this`dirty, this`hw, this`published
      ensures Valid()
      ensures dirty.Keys == old(dirty.Keys) + Failed(delay, useDeleteDelay, update, deleteReply, addReply)
      ensures DirtyTimes(delay, useDeleteDelay, now, retryAt, update, deleteReply, addReply, old(dirty), dirty)
      ensures forall p | p !in update.updates && (p in update.deletes ==> delay > 0 && useDeleteDelay) :: Agree(hw, old(hw), p)
      ensures success <==> (Delays(delay, useDeleteDelay) || update.deletes == {} || deleteReply == Done) && (update.updates == map[] || addReply == Done)
      ensures published == ApplyDeletesLast(old(published), Publication(update, addReply)) && Told(update, addReply, old(published), published)
      ensures (forall p | !Mentions(update, p) :: Agree(old(published), routes, p) || p in old(dirty)) ==> Level()
    {
      hide ProgramEffect, Held, Tracked, Failed, Publication, Disjoint, Mentions, ApplyDeletesLast, Told, DirtyTimes;
      var publish := Publication(update, addReply);
      SomeEffect(delay, useDeleteDelay, update, deleteReply, addReply, hw);
      ghost var hw' :| ProgramEffect(delay, useDeleteDelay, update, deleteReply, addReply, hw, hw');
      UnaskedStays(delay, useDeleteDelay, update, deleteReply, addReply, hw, hw');
      PublicationTells(update, addReply, published);
      if !restarted {
        HardwareTracked(delay, useDeleteDelay, dirty.Keys, update, deleteReply, addReply, routes, hw, hw');
      }
      if forall p | !Mentions(update, p) :: Agree(published, routes, p) || p in dirty {
        PublicationTracks(delay, useDeleteDelay, dirty.Keys, update, deleteReply, addReply, routes, published);
      }
      success, dirty := MarkFailed(delay, useDeleteDelay, now, retryAt, dirty, update, deleteReply, addReply);
      hw := hw';
      published := ApplyDeletesLast(published, publish);
    }

    /** updateRoutes with an update from Decision: it is stored, and programmed unless a sync is to
        come. A reader that is level stays level unless the update comes during a repeated sync and
        changes what is intended for a prefix that is not dirty. */
    method UpdateRoutes(u: Delta, now: Time, retryAt: Time, deleteReply: Reply, addReply: Reply)
      requires Valid() && state != Awaiting && (Disjoint(u) || delay > 0)
      modifies this`routes, this`dirty, this`hw, this`published
      ensures Valid() && routes == ApplyDeletesLast(old(routes), u)
      ensures state == Syncing ==> dirty == old(dirty) && hw == old(hw) && published == old(published)
      ensures state == Synced ==>
                && dirty.Keys == old(dirty.Keys) + Failed(delay, true, u, deleteReply, addReply)
                && DirtyTimes(delay, true, now, retryAt, u, deleteReply, addReply, old(dirty), dirty)
                && published == ApplyDeletesLast(old(published), Publication(u, addReply)) && Told(u, addReply, old(published), published)
                && forall p | p !in u.updates && (p in u.deletes ==> delay > 0) :: Agree(hw, old(hw), p)
      ensures old(Level()) ==> (Level() <==> !(state == Syncing && initialSynced && Alters(old(routes), u, dirty.Keys)))
    {
      hide Tracked, Held, Failed, Disjoint, Mentions, Publication, DirtyTimes, Told;
      ghost var before := routes;
      var after := ApplyDeletesLast(routes, u);
      UpdateIsHeld(before, u);
      if u.updates == map[] && u.deletes == {} {
        EmptyUpdate(before, published, dirty, delay, now, retryAt, u, deleteReply, addReply);
        return;
      }
      if initialSynced && Tracked(published, before, dirty.Keys) {
        LevelAfterUpdate(published, before, u, dirty.Keys);
        UnmentionedTracked(published, before, u, dirty.Keys);
      }
      UnmentionedTracked(hw, before, u, dirty.Keys);
      hide ApplyDeletesLast;
      routes := after;
      if state == Syncing {
        return;
      }
      hide Agree, Alters;
      var success := Program(u, true, now, retryAt, deleteReply, addReply);
    }

    /** processDecisionRouteUpdate. */
    method ProcessDecisionRouteUpdate(update: Delta, now: Time, retryAt: Time, deleteReply: Reply, addReply: Reply)
      requires Valid() && (Disjoint(update) || delay > 0)
      modifies this
      ensures Valid() && state == if old(state) == Synced then Synced else Syncing
      ensures routes == ApplyDeletesLast(old(routes), Kept(update))
      ensures restarted == old(restarted) && initialSynced == old(initialSynced) && latestAlive == old(latestAlive)
      ensures state == Syncing ==> dirty == old(dirty) && hw == old(hw) && published == old(published)
      ensures state == Synced ==>
                && dirty.Keys == old(dirty.Keys) + Failed(delay, true, Kept(update), deleteReply, addReply)
                && DirtyTimes(delay, true, now, retryAt, Kept(update), deleteReply, addReply, old(dirty), dirty)
                && published == ApplyDeletesLast(old(published), Publication(Kept(update), addReply))
                && Told(Kept(update), addReply, old(published), published)
                && forall p | p !in Kept(update).updates && (p in update.deletes ==> delay > 0) :: Agree(hw, old(hw), p)
      ensures old(Level()) ==> (Level() <==> !(old(state) == Syncing && initialSynced && Alters(old(routes), Kept(update), dirty.Keys)))
    {
      hide Tracked, Failed, Publication, ApplyDeletesLast, Alters, DirtyTimes, Told, Agree;
      TransitionRouteState(RibUpdate);
      var kept := Installable(update.updates);
      assert kept == Kept(update).updates;
      UpdateRoutes(Patch(kept, update.deletes), now, retryAt, deleteReply, addReply);
    }

    /** syncRoutes after a reply that is no error: publish, and the state is SYNCED. `update` holds the
        whole table on the first sync, the due dirty prefixes later. */
    method FinishSync(update: Delta, left: map<Prefix, Time>, retryAt: Time, reply: Reply)
      requires Valid() && state == Syncing && !reply.Error?
      requires if initialSynced then Due(routes, dirty.Keys, left.Keys, update) else update == Patch(routes, {}) && left == dirty
      modifies this
      ensures Valid() && state == Synced && !restarted && initialSynced && routes == old(routes) && latestAlive == old(latestAlive)
      ensures dirty == Dirtied(left, reply.Failures(), retryAt) && (reply.Done? ==> hw == routes)
      ensures published == if old(initialSynced) then ApplyDeletesLast(old(published), SyncPublication(update, reply))
                           else SyncPublication(update, reply).updates
      ensures if old(initialSynced) then SyncTold(update, reply, old(published), published) else SyncTold(update, reply, map[], published)
      ensures old(Level()) ==> Level()
    {
      hide Tracked, Due, SyncEffect, Reply.Failures, Agree, Transition, ApplyDeletesLast, SyncPublication, Dirtied, SyncTold;
      SyncingEnds();
      var publish := SyncPublication(update, reply);
      ReaderAfterSync(initialSynced, routes, published, dirty.Keys, left.Keys, update, reply);
      hide Disjoint, Held;
      SyncPublicationTells(update, reply, published);
      SomeSyncEffect(routes, reply);
      ghost var hw' :| SyncEffect(routes, reply, hw');
      SyncTracks(routes, reply, hw', left.Keys);
      DirtiedKeys(left, reply.Failures(), retryAt);
      TransitionRouteState(FibSynced);
      published := if initialSynced then ApplyDeletesLast(published, publish) else publish.updates;
      hw, dirty := hw', Dirtied(left, reply.Failures(), retryAt);
      initialSynced, restarted := true, false;
    }

    /** syncRoutes: send the whole table. A reader that is level stays level unless a repeated sync
        fails while a dirty prefix is due of which the reader does not know what is intended: its
        mark is consumed all the same. */
    method SyncRoutes(now: Time, retryAt: Time, reply: Reply) returns (success: bool)
      requires Valid() && state == Syncing
      modifies this
      ensures Valid() && success == !reply.Error? && routes == old(routes) && latestAlive == old(latestAlive)
      ensures success ==> state == Synced && !restarted && initialSynced
      ensures !success ==> state == Syncing && restarted == old(restarted) && initialSynced == old(initialSynced)
      ensures dirty == Dirtied(if old(initialSynced) then Left(old(dirty), now) else old(dirty), reply.Failures(), retryAt)
      ensures reply.Done? ==> hw == routes
      ensures published == if !success then old(published)
                           else if old(initialSynced) then ApplyDeletesLast(old(published), SyncPublication(DueDelta(routes, old(dirty), now), reply))
                           else SyncPublication(Patch(routes, {}), reply).updates
      ensures success && old(initialSynced) ==> SyncTold(DueDelta(routes, old(dirty), now), reply, old(published), published)
      ensures success && !old(initialSynced) ==> SyncTold(Patch(routes, {}), reply, map[], published)
      ensures success ==> forall p <- reply.Failures() :: p in dirty && dirty[p] == retryAt
      ensures old(Level()) ==> (Level() <==> !(old(initialSynced) && reply.Error? && DueUnlike(old(published), routes, old(dirty), now)))
    {
      hide Tracked, Due, Disjoint, SyncEffect, SyncPublication, ApplyDeletesLast, DueDelta, Left, DueUnlike, SyncTold;
      var update, left := Patch(routes, {}), dirty;
      if initialSynced {
        update, left := DueUpdate(routes, dirty, now);
      }
      success := !reply.Error?;
      if success {
        FailedAreDueAgain(left, reply.Failures(), retryAt);
        hide Reply.Failures, Dirtied;
        FinishSync(update, left, retryAt, reply);
      } else {
        hw := *;
        if initialSynced && Level() {
          LevelAfterFailedSync(published, routes, dirty, now);
        }
        DirtiedKeys(left, {}, retryAt);
        dirty := left;
      }
    }

    /** updateRoutes without an update: retry the dirty prefixes that are due. */
    method RetryDirty(now: Time, retryAt: Time, deleteReply: Reply, addReply: Reply) returns (success: bool)
      requires Valid() && state == Synced
      modifies this`dirty, this`hw, this`published
      ensures Valid() && (old(Level()) ==> Level())
      ensures dirty.Keys == Left(old(dirty), now).Keys + Failed(delay, false, DueDelta(routes, old(dirty), now), deleteReply, addReply)
      ensures DirtyTimes(delay, false, now, retryAt, DueDelta(routes, old(dirty), now), deleteReply, addReply, Left(old(dirty), now), dirty)
      ensures published == ApplyDeletesLast(old(published), Publication(DueDelta(routes, old(dirty), now), addReply))
      ensures Told(DueDelta(routes, old(dirty), now), addReply, old(published), published)
      ensures var due := DueDelta(routes, old(dirty), now); success <==> (due.deletes == {} || deleteReply == Done) && (due.updates == map[] || addReply == Done)
      ensures forall p <- old(dirty) | now < old(dirty)[p] :: p in dirty && Agree(hw, old(hw), p)
      ensures forall p <- old(dirty) | now < old(dirty)[p] && !addReply.Lists(p) :: dirty[p] == old(dirty)[p] && Agree(published, old(published), p)
      ensures !restarted && deleteReply.Done? && addReply.Done? && (forall p <- old(dirty) :: old(dirty)[p] <= now) ==>
                dirty == map[] && hw == routes
    {
      hide Tracked, Due, Disjoint, Mentions, ProgramEffect, ApplyDeletesLast, DueDelta, Publication, DirtyTimes, Told, Agree;
      ghost var before, hw0, published0 := dirty, hw, published;
      var update, left := DueUpdate(routes, dirty, now);
      DueIsHeld(routes, dirty.Keys, left.Keys, update);
      hide Held, Failed;
      if update.updates == map[] && update.deletes == {} {
        NothingDue(routes, published, dirty, left, now, retryAt, delay, update, deleteReply, addReply);
        SelfAgrees(hw, published);
        if dirty == map[] && !restarted {
          assert dirty.Keys == {};
          AgreeEverywhere(hw, routes);
        }
        return true;
      }
      DueAreMentioned(hw, routes, dirty.Keys, left.Keys, update);
      DueAreMentioned(published, routes, dirty.Keys, left.Keys, update);
      dirty := left;
      success := Program(update, false, now, retryAt, deleteReply, addReply);
      NotDueStays(routes, before, now, retryAt, delay, update, deleteReply, addReply, hw0, hw, published0, published, dirty);
      if deleteReply.Done? && addReply.Done? && left == map[] {
        NothingFails(delay, update);
        assert dirty.Keys == {};
        if !restarted {
          AgreeEverywhere(hw, routes);
        }
      }
    }

    /** retryRoutes: sync if one is due, else retry what is dirty. */
    method RetryRoutes(now: Time, retryAt: Time, deleteReply: Reply, addReply: Reply, syncReply: Reply) returns (success: bool)
      requires Valid()
      modifies this
      ensures Valid() && routes == old(routes) && latestAlive == old(latestAlive)
      ensures old(state) == Syncing && syncReply.Done? ==> state == Synced && !restarted && hw == routes
      ensures match old(state)
              case Awaiting => success
              case Syncing => success == !syncReply.Error?
              case Synced => var due := DueDelta(routes, old(dirty), now); success <==> (due.deletes == {} || deleteReply == Done) && (due.updates == map[] || addReply == Done)
      ensures old(Level()) ==>
                (Level() <==> !(old(state) == Syncing && old(initialSynced) && syncReply.Error? && DueUnlike(old(published), routes, old(dirty), now)))
      ensures old(state) == Synced && !old(restarted) && deleteReply.Done? && addReply.Done? && (forall p <- old(dirty) :: old(dirty)[p] <= now) ==>
                state == Synced && !restarted && dirty == map[] && hw == routes
    {
      hide Tracked, DueUnlike, Failed, DueDelta, Left, Publication, SyncPublication, ApplyDeletesLast;
      match state
      case Awaiting => success := true;
      case Syncing => success := SyncRoutes(now, retryAt, syncReply);
      case Synced => success := RetryDirty(now, retryAt, deleteReply, addReply);
    }

    /** keepAlive: an agent that answers with another birth time, or not at all, is synced anew. */
    method KeepAlive(aliveSince: int)
      requires Valid()
      modifies this`state, this`routes, this`latestAlive
      ensures Valid() && latestAlive == aliveSince && routes == old(routes) && (Level() <==> old(Level()))
      ensures state == if old(latestAlive) != 0 && aliveSince != old(latestAlive) && old(state) == Synced then Syncing else old(state)
    {
      if latestAlive != 0 && aliveSince != latestAlive {
        TransitionRouteState(FibConnected);
      }
      latestAlive := aliveSince;
    }

    /** The agent restarts, with whatever it then has in hardware. */
    ghost method AgentRestarts(after: Table)
      requires Valid()
      modifies this`hw, this`restarted
      ensures Valid() && hw == after && restarted
    {
      hw, restarted := after, true;
    }

    /** What the invariant is for: synced, no restart since, nothing dirty. */
    lemma NothingDirtyMeansProgrammed()
      requires Valid() && state == Synced && !restarted && dirty == map[]
      ensures hw == routes
      ensures Level() <==> published == routes
    {
      AgreeEverywhere(hw, routes);
      if Level() {
        assert Tracked(published, routes, {});
        AgreeEverywhere(published, routes);
      }
    }

    /** The two ways to lose a reader, on the state before the step. */
    ghost predicate Loses(e: Event)
      reads this
    {
      && state == Syncing && initialSynced
      && match e
         case Decided(update, _, _, _, _) => Alters(routes, Kept(update), dirty.Keys)
         case Retried(now, _, _, _, syncReply) => syncReply.Error? && DueUnlike(published, routes, dirty, now)
         case Polled(_) => false
    }

    /** Any event: a reader that is level stays level if and only if the step is none of the two. */
    method Handle(e: Event)
      requires Valid() && (e.Decided? ==> Disjoint(e.update) || delay > 0)
      modifies this
      ensures Valid()
      ensures routes == if e.Decided? then ApplyDeletesLast(old(routes), Kept(e.update)) else old(routes)
      ensures old(Level()) ==> (Level() <==> !old(Loses(e)))
    {
      hide Tracked, DueUnlike, Failed, DueDelta, Left, Publication, SyncPublication, ApplyDeletesLast, Alters, Disjoint;
      match e
      case Decided(update, now, retryAt, deleteReply, addReply) =>
        ProcessDecisionRouteUpdate(update, now, retryAt, deleteReply, addReply);
      case Retried(now, retryAt, deleteReply, addReply, syncReply) =>
        var success := RetryRoutes(now, retryAt, deleteReply, addReply, syncReply);
      case Polled(aliveSince) => KeepAlive(aliveSince);
    }
  }

  datatype Event =
    | Decided(update: Delta, now: Time, retryAt: Time, deleteReply: Reply, addReply: Reply)
    | Retried(now: Time, retryAt: Time, deleteReply: Reply, addReply: Reply, syncReply: Reply)
    | Polled(aliveSince: int)

  /** An update that arrives during a repeated sync reaches the hardware, but no reader of the
      published updates. */
  method ResyncMissesUpdate() returns (f: Fib)
    ensures fresh(f) && f.Valid() && f.state == Synced && !f.restarted && f.dirty == map[]
    ensures f.hw == f.routes && f.published != f.routes
  {
    f := SyncedOnce();
    f.KeepAlive(2);
    f.ProcessDecisionRouteUpdate(Patch(map[7 := Route(1, false)], {}), 0, 0, Done, Done);
    assert 7 in f.routes;
    var synced := f.SyncRoutes(0, 0, Done);
  }

  /** So does a route that could not be added, once a repeated sync has failed: no update comes
      during that sync. */
  method FailedResyncLosesPrefix() returns (f: Fib)
    ensures fresh(f) && f.Valid() && f.state == Synced && !f.restarted && f.dirty == map[]
    ensures f.hw == f.routes && f.published != f.routes
  {
    f := AddFailed();
    hide Fib.Valid, Fib.Level, DueUnlike, Tracked;
    f.KeepAlive(2);
    var synced := f.SyncRoutes(0, 0, Error);
    assert f.dirty == map[] && 7 in f.routes;
    assert DueDelta(f.routes, f.dirty, 0) == Patch(map[], {});
    synced := f.SyncRoutes(0, 0, Done);
    assert f.published == map[];
  }

  method AddFailed() returns (f: Fib)
    ensures fresh(f) && f.Valid() && f.state == Synced && !f.restarted && f.initialSynced && f.latestAlive == 1
    ensures f.dirty == map[7 := 0] && f.routes == map[7 := Route(1, false)] && f.published == map[]
  {
    f := SyncedOnce();
    hide Fib.Level, Tracked;
    var update := Patch(map[7 := Route(1, false)], {});
    assert Kept(update) == update;
    f.ProcessDecisionRouteUpdate(update, 0, 0, Done, Error);
    assert f.dirty.Keys == {7} && f.dirty[7] == 0;
  }

  method SyncedOnce() returns (f: Fib)
    ensures fresh(f) && f.Valid() && f.Level() && f.state == Synced && !f.restarted && f.initialSynced && f.latestAlive == 1 && f.delay == 0
    ensures f.dirty == map[] && f.routes == map[] && f.published == map[]
  {
    f := new Fib(0);
    f.KeepAlive(1);
    f.ProcessDecisionRouteUpdate(Patch(map[], {}), 0, 0, Done, Done);
    var synced := f.SyncRoutes(0, 0, Done);
  }

  lemma SelfAgrees(a: Table, b: Table)
    ensures forall p :: Agree(a, a, p) && Agree(b, b, p)
  {
  }

  lemma NothingDue(routes: Table, published: Table, dirty: map<Prefix, Time>, left: map<Prefix, Time>, now: Time, retryAt: Time, delay: Time,
                   update: Delta, deleteReply: Reply, addReply: Reply)
    requires Due(routes, dirty.Keys, left.Keys, update) && left == Left(dirty, now)
    requires update.updates == map[] && update.deletes == {}
    ensures dirty == left && Failed(delay, false, update, deleteReply, addReply) == {}
    ensures ApplyDeletesLast(published, Publication(update, addReply)) == published && Told(update, addReply, published, published)
    ensures DirtyTimes(delay, false, now, retryAt, update, deleteReply, addReply, left, dirty)
  {
  }

  lemma NothingFails(delay: Time, update: Delta)
    ensures Failed(delay, false, update, Done, Done) == {}
  {
  }

  lemma DueIsHeld(routes: Table, dirty: set<Prefix>, left: set<Prefix>, update: Delta)
    requires Due(routes, dirty, left, update)
    ensures Held(routes, update)
  {
  }

  /** A retry before a prefix is due leaves it alone: dirty, in hardware and for readers, and due
      when it was, unless the agent lists it unasked. */
  lemma NotDueStays(routes: Table, dirty: map<Prefix, Time>, now: Time, retryAt: Time, delay: Time, update: Delta, deleteReply: Reply, addReply: Reply,
                    hw: Table, hw': Table, published: Table, published': Table, dirty': map<Prefix, Time>)
    requires update == DueDelta(routes, dirty, now) && Left(dirty, now).Keys <= dirty'.Keys
    requires forall p | p !in update.updates && p !in update.deletes :: Agree(hw', hw, p)
    requires Told(update, addReply, published, published')
    requires DirtyTimes(delay, false, now, retryAt, update, deleteReply, addReply, Left(dirty, now), dirty')
    ensures forall p <- dirty | now < dirty[p] :: p in dirty' && Agree(hw', hw, p)
    ensures forall p <- dirty | now < dirty[p] && !addReply.Lists(p) :: p in dirty' && dirty'[p] == dirty[p] && Agree(published', published, p)
  {
    hide Agree;
  }

  lemma DueAreMentioned(table: Table, routes: Table, dirty: set<Prefix>, left: set<Prefix>, update: Delta)
    requires Due(routes, dirty, left, update)
    ensures Tracked(table, routes, dirty) ==> forall p | !Mentions(update, p) :: Agree(table, routes, p) || p in left
  {
  }

  lemma SomeSyncEffect(routes: Table, reply: Reply)
    ensures exists hw' :: SyncEffect(routes, reply, hw')
  {
    assert SyncEffect(routes, reply, routes);
  }

  lemma SyncTracks(routes: Table, reply: Reply, hw': Table, left: set<Prefix>)
    requires SyncEffect(routes, reply, hw') && !reply.Error?
    ensures Tracked(hw', routes, left + reply.Failures())
    ensures reply.Done? ==> hw' == routes
  {
    if reply.Done? {
      assert forall p :: Agree(hw', routes, p);
      AgreeEverywhere(hw', routes);
    }
  }

  lemma AgreeEverywhere(a: Table, b: Table)
    requires Tracked(a, b, {})
    ensures a == b
  {
    forall p ensures p in a <==> p in b {
      assert Agree(a, b, p);
    }
    forall p | p in a ensures a[p] == b[p] {
      assert Agree(a, b, p);
    }
  }

  /** What a sync publishes of a delta. */
  function SyncPublication(update: Delta, reply: Reply): Delta {
    if reply.DoneBut? then Patch(update.updates - reply.failedAdds, update.deletes + reply.failedAdds) else update
  }

  /** What a reader is told of a sync: the prefixes of the delta as they are intended, but nothing of
      those that failed to be added. */
  ghost predicate SyncTold(update: Delta, reply: Reply, before: Table, after: Table) {
    forall p ::
      if p in update.deletes then p !in after
      else if reply.DoneBut? && p in reply.failedAdds then p !in after
      else if p in update.updates then Agree(after, update.updates, p)
      else Agree(after, before, p)
  }

  lemma SyncPublicationTells(update: Delta, reply: Reply, published: Table)
    ensures SyncTold(update, reply, published, ApplyDeletesLast(published, SyncPublication(update, reply)))
    ensures update.deletes == {} ==> SyncTold(update, reply, map[], SyncPublication(update, reply).updates)
  {
  }

  /** The first sync publishes the whole table, but for what failed. */
  lemma FirstSyncPublishes(routes: Table, reply: Reply, left: set<Prefix>)
    ensures Tracked(SyncPublication(Patch(routes, {}), reply).updates, routes, left + reply.Failures())
  {
  }

  /** A later sync publishes the dirty prefixes that were due, and no others. */
  lemma ResyncPublishes(routes: Table, published: Table, dirty: set<Prefix>, left: set<Prefix>, update: Delta, reply: Reply)
    requires Tracked(published, routes, dirty) && Due(routes, dirty, left, update)
    ensures Tracked(ApplyDeletesLast(published, SyncPublication(update, reply)), routes, left + reply.Failures())
  {
    var publish := SyncPublication(update, reply);
    forall p ensures Agree(ApplyDeletesLast(published, publish), routes, p) || p in left + reply.Failures() {
      assert Agree(published, routes, p) || p in dirty;
      assert Mentions(update, p) <==> p in dirty && p !in left;
    }
  }

  /** After either a reader that was level is. */
  lemma ReaderAfterSync(initialSynced: bool, routes: Table, published: Table, dirty: set<Prefix>, left: set<Prefix>, update: Delta, reply: Reply)
    requires if initialSynced then Due(routes, dirty, left, update) else update == Patch(routes, {})
    ensures !initialSynced ==> Tracked(SyncPublication(update, reply).updates, routes, left + reply.Failures())
    ensures initialSynced && Tracked(published, routes, dirty) ==>
              Tracked(ApplyDeletesLast(published, SyncPublication(update, reply)), routes, left + reply.Failures())
  {
    hide *;
    if !initialSynced {
      FirstSyncPublishes(routes, reply, left);
    } else if Tracked(published, routes, dirty) {
      ResyncPublishes(routes, published, dirty, left, update, reply);
    }
  }

  /** The delta changes what is intended for a prefix that is not dirty. */
  ghost predicate Alters(routes: Table, u: Delta, dirty: set<Prefix>) {
    exists p :: p !in dirty && !Agree(routes, ApplyDeletesLast(routes, u), p)
  }

  /** A dirty prefix is due of which the tables do not say the same. */
  ghost predicate DueUnlike(published: Table, routes: Table, dirty: map<Prefix, Time>, now: Time) {
    exists p <- dirty :: dirty[p] <= now && !Agree(published, routes, p)
  }

  /** The update without the routes that may not be installed. */
  function Kept(update: Delta): Delta {
    Patch(map p | p in update.updates && !update.updates[p].doNotInstall :: update.updates[p], update.deletes)
  }

  /** An update that is stored but not published leaves a level reader level if and only if it
      changes nothing, but for dirty prefixes. */
  lemma LevelAfterUpdate(published: Table, routes: Table, u: Delta, dirty: set<Prefix>)
    requires Tracked(published, routes, dirty)
    ensures Tracked(published, ApplyDeletesLast(routes, u), dirty) <==> !Alters(routes, u, dirty)
  {
    hide ApplyDeletesLast;
    forall p | p !in dirty ensures Agree(published, ApplyDeletesLast(routes, u), p) <==> Agree(routes, ApplyDeletesLast(routes, u), p) {
      assert Agree(published, routes, p);
    }
  }

  /** A failed sync consumes the marks that are due: a level reader stays level if and only if it
      knows what is intended for those prefixes. */
  lemma LevelAfterFailedSync(published: Table, routes: Table, dirty: map<Prefix, Time>, now: Time)
    requires Tracked(published, routes, dirty.Keys)
    ensures Tracked(published, routes, Left(dirty, now).Keys) <==> !DueUnlike(published, routes, dirty, now)
  {
    forall p ensures p in Left(dirty, now) <==> p in dirty && !(dirty[p] <= now) {
    }
    hide Left, Agree;
    if DueUnlike(published, routes, dirty, now) {
      var p :| p in dirty && dirty[p] <= now && !Agree(published, routes, p);
      assert p !in Left(dirty, now).Keys;
    }
  }

  lemma EmptyUpdate(routes: Table, published: Table, dirty: map<Prefix, Time>, delay: Time, now: Time, retryAt: Time,
                    u: Delta, deleteReply: Reply, addReply: Reply)
    requires u.updates == map[] && u.deletes == {}
    ensures ApplyDeletesLast(routes, u) == routes && !Alters(routes, u, dirty.Keys)
    ensures ApplyDeletesLast(published, Publication(u, addReply)) == published && Told(u, addReply, published, published)
    ensures Failed(delay, true, u, deleteReply, addReply) == {}
    ensures DirtyTimes(delay, true, now, retryAt, u, deleteReply, addReply, dirty, dirty)
  {
  }

  lemma UpdateIsHeld(routes: Table, u: Delta)
    ensures Held(ApplyDeletesLast(routes, u), u)
    ensures forall p | !Mentions(u, p) :: Agree(ApplyDeletesLast(routes, u), routes, p)
  {
  }

  lemma UnmentionedTracked(table: Table, routes: Table, u: Delta, dirty: set<Prefix>)
    ensures Tracked(table, routes, dirty) ==>
              forall p | !Mentions(u, p) :: Agree(table, ApplyDeletesLast(routes, u), p) || p in dirty
  {
  }
}
