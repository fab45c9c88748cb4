/** DecisionRouteUpdate and its coalescers: folding a pending update and the next one must leave
    every consumer where the two in sequence would have left it. */
module RouteUpdates {

  /** Routes to install and routes to remove, for one kind of key. */
  datatype Patch<K, V> = Patch(updates: map<K, V>, deletes: set<K>)

  /** A consumer that removes first: DecisionRouteDb::update. */
  function Apply<K, V>(t: map<K, V>, p: Patch<K, V>): map<K, V> {
    (t - p.deletes) + p.updates
  }

  /** A consumer that removes last: Fib's RouteState::update. */
  function ApplyDeletesLast<K, V>(t: map<K, V>, p: Patch<K, V>): map<K, V> {
    (t + p.updates) - p.deletes
  }

  ghost predicate Disjoint<K, V>(p: Patch<K, V>) {
    p.updates.Keys !! p.deletes
  }

  lemma DisjointOrderFree<K, V>(t: map<K, V>, p: Patch<K, V>)
    requires Disjoint(p)
    ensures Apply(t, p) == ApplyDeletesLast(t, p)
  {
  }

  /** Two deltas in one: later state wins per key. */
  function Folded<K, V>(a: Patch<K, V>, b: Patch<K, V>): Patch<K, V> {
    Patch((a.updates + b.updates) - b.deletes, (a.deletes - b.updates.Keys) + b.deletes)
  }

  /** A snapshot that absorbs a delta: a deleted key is simply absent. */
  function Absorbed<K, V>(a: Patch<K, V>, b: Patch<K, V>): Patch<K, V> {
    a.(updates := (a.updates + b.updates) - b.deletes)
  }

  /** Folding is exact for a consumer that removes last, whatever the two deltas hold. */
  lemma FoldDeletesLast<K, V>(t: map<K, V>, a: Patch<K, V>, b: Patch<K, V>)
    ensures ApplyDeletesLast(ApplyDeletesLast(t, a), b) == ApplyDeletesLast(t, Folded(a, b))
  {
  }

  /** For a consumer that removes first it is exact if and only if the later delta does not both
      install and remove a key. */
  lemma FoldExactIff<K, V>(t: map<K, V>, a: Patch<K, V>, b: Patch<K, V>)
    ensures Apply(Apply(t, a), b) == Apply(t, Folded(a, b)) <==> Disjoint(b)
  {
    var l, r := Apply(Apply(t, a), b), Apply(t, Folded(a, b));
    if Disjoint(b) {
      forall k ensures (k in l <==> k in r) && (k in l && k in r ==> l[k] == r[k]) {
      }
    } else {
      var k :| k in b.updates && k in b.deletes;
      assert k in l && k !in r;
    }
  }

  /** Folding keeps updates and deletes apart, even if the later delta does not. */
  lemma FoldedIsDisjoint<K, V>(a: Patch<K, V>, b: Patch<K, V>)
    requires Disjoint(a)
    ensures Disjoint(Folded(a, b))
  {
  }

  /** The loops of mergeInPlace for one kind of key, on an INCREMENTAL base. */
  method FoldInPlace<K(==), V>(a: Patch<K, V>, b: Patch<K, V>) returns (m: Patch<K, V>)
    ensures m == Folded(a, b)
  {
    m := a;
    var todo := b.updates.Keys;
    while todo != {}
      invariant todo <= b.updates.Keys
      invariant m == Patch(a.updates + (b.updates - todo), a.deletes - (b.updates.Keys - todo))
      decreases todo
    {
      var k :| k in todo;
      ghost var before := b.updates - todo;
      todo := todo - {k};
      m := Patch(m.updates[k := b.updates[k]], m.deletes - {k});
      assert b.updates - todo == before[k := b.updates[k]];
    }
    assert b.updates - {} == b.updates;
    todo := b.deletes;
    ghost var mid := m;
    while todo != {}
      invariant todo <= b.deletes
      invariant m == Patch(mid.updates - (b.deletes - todo), mid.deletes + (b.deletes - todo))
      decreases todo
    {
      var k :| k in todo;
      todo := todo - {k};
      m := Patch(m.updates - {k}, m.deletes + {k});
    }
  }

  /** The same on a FULL_SYNC base. */
  method AbsorbInPlace<K(==), V>(a: Patch<K, V>, b: Patch<K, V>) returns (m: Patch<K, V>)
    ensures m == Absorbed(a, b)
  {
    var updates, todo := a.updates, b.updates.Keys;
    while todo != {}
      invariant todo <= b.updates.Keys
      invariant updates == a.updates + (b.updates - todo)
      decreases todo
    {
      var k :| k in todo;
      ghost var before := b.updates - todo;
      todo := todo - {k};
      updates := updates[k := b.updates[k]];
      assert b.updates - todo == before[k := b.updates[k]];
    }
    assert b.updates - {} == b.updates;
    todo := b.deletes;
    ghost var mid := updates;
    while todo != {}
      invariant todo <= b.deletes
      invariant updates == mid - (b.deletes - todo)
      decreases todo
    {
      var k :| k in todo;
      todo := todo - {k};
      updates := updates - {k};
    }
    m := a.(updates := updates);
  }

  type Label = int
  type PrefixType = nat

  /** The value of a DecisionRouteUpdate; prefixTypes as the set of its bits. */
  datatype Update<K, V, M> = Update(fullSync: bool, unicast: Patch<K, V>, mpls: Patch<Label, M>, types: set<PrefixType>)

  datatype Tables<K, V, M> = Tables(unicast: map<K, V>, mpls: map<Label, M>)

  /** A consumer that replaces its tables on FULL_SYNC, ignoring the delete lists, and patches them
      on INCREMENTAL. */
  function Consume<K, V, M>(t: Tables<K, V, M>, u: Update<K, V, M>): Tables<K, V, M> {
    if u.fullSync then Tables(u.unicast.updates, u.mpls.updates)
    else Tables(Apply(t.unicast, u.unicast), Apply(t.mpls, u.mpls))
  }

  /** A consumer that cannot see the type and patches on everything. */
  function ConsumeBlind<K, V, M>(t: Tables<K, V, M>, u: Update<K, V, M>): Tables<K, V, M> {
    Tables(Apply(t.unicast, u.unicast), Apply(t.mpls, u.mpls))
  }

  ghost predicate Tidy<K, V, M>(u: Update<K, V, M>) {
    Disjoint(u.unicast) && Disjoint(u.mpls)
  }

  /** mergeInPlace. */
  function Merged<K, V, M>(a: Update<K, V, M>, b: Update<K, V, M>): Update<K, V, M> {
    if a.fullSync then Update(true, Absorbed(a.unicast, b.unicast), Absorbed(a.mpls, b.mpls), a.types + b.types)
    else Update(false, Folded(a.unicast, b.unicast), Folded(a.mpls, b.mpls), a.types + b.types)
  }

  /** coalesceDecisionRouteUpdates: what `existing` becomes. */
  function Coalesced<K, V, M>(existing: Update<K, V, M>, incoming: Update<K, V, M>): Update<K, V, M> {
    if incoming.fullSync then incoming.(types := incoming.types + existing.types) else Merged(existing, incoming)
  }

  class DecisionRouteUpdate<K(==), V, M> {
    var fullSync: bool
    var unicast: Patch<K, V>
    var mpls: Patch<Label, M>
    var types: set<PrefixType>

    function Value(): Update<K, V, M>
      reads this
    {
      Update(fullSync, unicast, mpls, types)
    }

    constructor (u: Update<K, V, M>)
      ensures Value() == u
    {
      fullSync, unicast, mpls, types := u.fullSync, u.unicast, u.mpls, u.types;
    }

    method MergeInPlace(other: Update<K, V, M>)
      modifies this
      ensures Value() == Merged(old(Value()), other)
    {
      if fullSync {
        unicast := AbsorbInPlace(unicast, other.unicast);
        mpls := AbsorbInPlace(mpls, other.mpls);
      } else {
        unicast := FoldInPlace(unicast, other.unicast);
        mpls := FoldInPlace(mpls, other.mpls);
      }
      types := types + other.types;
    }

    /** coalesceDecisionRouteUpdates, with this update pending. */
    method CoalesceDecision(incoming: Update<K, V, M>) returns (merged: bool)
      modifies this
      ensures merged && Value() == Coalesced(old(Value()), incoming)
    {
      if incoming.fullSync {
        fullSync, unicast, mpls, types := true, incoming.unicast, incoming.mpls, incoming.types + types;
      } else {
        MergeInPlace(incoming);
      }
      return true;
    }

    /** coalesceIncrementalRouteUpdates, with this update pending. */
    method CoalesceIncremental(incoming: Update<K, V, M>) returns (merged: bool)
      modifies this
      ensures merged == (!old(fullSync) && !incoming.fullSync)
      ensures Value() == if merged then Merged(old(Value()), incoming) else old(Value())
    {
      if fullSync || incoming.fullSync {
        return false;
      }
      MergeInPlace(incoming);
      return true;
    }
  }

  /** One coalesced pair leaves a consumer where the two updates would. */
  lemma CoalescedConsumes<K, V, M>(t: Tables<K, V, M>, existing: Update<K, V, M>, incoming: Update<K, V, M>)
    requires Tidy(incoming)
    ensures Consume(Consume(t, existing), incoming) == Consume(t, Coalesced(existing, incoming))
  {
    if !incoming.fullSync {
      if existing.fullSync {
        DisjointOrderFree(existing.unicast.updates, incoming.unicast);
        DisjointOrderFree(existing.mpls.updates, incoming.mpls);
      } else {
        FoldExactIff(t.unicast, existing.unicast, incoming.unicast);
        FoldExactIff(t.mpls, existing.mpls, incoming.mpls);
      }
    }
  }

  lemma MergedConsumesBlind<K, V, M>(t: Tables<K, V, M>, existing: Update<K, V, M>, incoming: Update<K, V, M>)
    requires Tidy(incoming) && !existing.fullSync && !incoming.fullSync
    ensures ConsumeBlind(ConsumeBlind(t, existing), incoming) == ConsumeBlind(t, Merged(existing, incoming))
  {
    FoldExactIff(t.unicast, existing.unicast, incoming.unicast);
    FoldExactIff(t.mpls, existing.mpls, incoming.mpls);
  }

  /** Why a consumer that cannot see the type must not get snapshots with deltas folded in: it is
      right if and only if none of the keys removed is in its table. */
  lemma AbsorbBlindIff<K, V>(t: map<K, V>, existing: Patch<K, V>, incoming: Patch<K, V>)
    requires Disjoint(incoming) && existing.deletes == {}
    ensures Apply(Apply(t, existing), incoming) == Apply(t, Absorbed(existing, incoming)) <==> incoming.deletes !! t.Keys
  {
  }

  /** A reader of the queue: what it has applied, the prefix types it has seen, what is pending.
      `blind` readers cannot see the type and get the incremental-only coalescer. */
  datatype Reader<K, V, M> = Reader(blind: bool, tables: Tables<K, V, M>, types: set<PrefixType>, queue: seq<Update<K, V, M>>) {

    function Take(u: Update<K, V, M>): Reader<K, V, M> {
      this.(tables := if blind then ConsumeBlind(tables, u) else Consume(tables, u), types := types + u.types)
    }

    /** A push is coalesced into the last pending element, or appended. */
    function Push(u: Update<K, V, M>): Reader<K, V, M> {
      if queue == [] || (blind && (Last().fullSync || u.fullSync)) then this.(queue := queue + [u])
      else this.(queue := Front() + [if blind then Merged(Last(), u) else Coalesced(Last(), u)])
    }

    function Last(): Update<K, V, M>
      requires queue != []
    {
      queue[|queue| - 1]
    }

    function Front(): seq<Update<K, V, M>>
      requires queue != []
    {
      queue[..|queue| - 1]
    }

    function Pop(): Reader<K, V, M> {
      if queue == [] then this else this.(queue := queue[1..]).Take(queue[0])
    }

    /** The reader once it has caught up. */
    function Drained(): Reader<K, V, M>
      decreases |queue|
    {
      if queue == [] then this else Pop().Drained()
    }
  }

  datatype Event<K, V, M> = Push(u: Update<K, V, M>) | Pop

  function Run<K, V, M>(r: Reader<K, V, M>, events: seq<Event<K, V, M>>): Reader<K, V, M> {
    if events == [] then r
    else
      var before := Run(r, events[..|events| - 1]);
      match events[|events| - 1]
      case Push(u) => before.Push(u)
      case Pop => before.Pop()
  }

  /** The reader that applies every update as it is pushed. */
  function Uncoalesced<K, V, M>(r: Reader<K, V, M>, events: seq<Event<K, V, M>>): Reader<K, V, M> {
    if events == [] then r
    else
      var before := Uncoalesced(r, events[..|events| - 1]);
      match events[|events| - 1]
      case Push(u) => before.Take(u)
      case Pop => before
  }

  lemma {:induction false} DrainAppended<K, V, M>(r: Reader<K, V, M>, u: Update<K, V, M>)
    ensures r.(queue := r.queue + [u]).Drained() == r.Drained().Take(u)
    decreases |r.queue|
  {
    if r.queue == [] {
      assert r.(queue := r.queue + [u]).queue[1..] == [];
    } else {
      assert (r.queue + [u])[1..] == r.queue[1..] + [u];
      DrainAppended(r.Pop(), u);
    }
  }

  lemma TakenTogether<K, V, M>(r: Reader<K, V, M>, existing: Update<K, V, M>, incoming: Update<K, V, M>)
    requires Tidy(incoming) && (r.blind ==> !existing.fullSync && !incoming.fullSync)
    ensures r.Take(existing).Take(incoming) == r.Take(if r.blind then Merged(existing, incoming) else Coalesced(existing, incoming))
  {
    if r.blind {
      MergedConsumesBlind(r.tables, existing, incoming);
    } else {
      CoalescedConsumes(r.tables, existing, incoming);
    }
    assert r.types + existing.types + incoming.types == r.types + (existing.types + incoming.types);
    assert r.types + existing.types + incoming.types == r.types + (incoming.types + existing.types);
  }

  lemma PushDrains<K, V, M>(r: Reader<K, V, M>, u: Update<K, V, M>)
    requires Tidy(u)
    ensures r.Push(u).Drained() == r.Drained().Take(u)
  {
    if r.queue == [] || (r.blind && (r.Last().fullSync || u.fullSync)) {
      DrainAppended(r, u);
    } else {
      var front := r.(queue := r.Front());
      assert r == front.(queue := front.queue + [r.Last()]);
      DrainAppended(front, r.Last());
      var joint := if r.blind then Merged(r.Last(), u) else Coalesced(r.Last(), u);
      DrainAppended(front, joint);
      DrainKeepsBlind(front);
      TakenTogether(front.Drained(), r.Last(), u);
    }
  }

  lemma {:induction false} DrainKeepsBlind<K, V, M>(r: Reader<K, V, M>)
    ensures r.Drained().blind == r.blind
    decreases |r.queue|
  {
    if r.queue != [] {
      DrainKeepsBlind(r.Pop());
    }
  }

  /** Whatever the interleaving of pushes and pops, a reader that catches up ends with the tables
      and the prefix types it would have had without coalescing. */
  lemma {:induction false} CoalescingIsTransparent<K, V, M>(r: Reader<K, V, M>, events: seq<Event<K, V, M>>)
    requires r.queue == [] && forall e <- events :: e.Push? ==> Tidy(e.u)
    ensures Run(r, events).Drained() == Uncoalesced(r, events)
    decreases |events|
  {
    if events != [] {
      var last := |events| - 1;
      CoalescingIsTransparent(r, events[..last]);
      if events[last].Push? {
        PushDrains(Run(r, events[..last]), events[last].u);
      }
    }
  }
}
