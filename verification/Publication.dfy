/** Folding key-value publications of one area into a pending one. */
module Publications {
  import opened Options

  type Key = nat

  /** A KvStore value; a TTL refresh has no payload. */
  datatype Value = Value(version: int, originator: nat, payload: Option<nat>, ttl: int, ttlVersion: int) {

    /** isTtlOnlyUpdate */
    predicate TtlOnly() {
      payload.None?
    }

    /** The same value, whatever its liveness. */
    predicate Matches(v: Value) {
      version == v.version && originator == v.originator
    }

    /** applyTtlRefresh: liveness only ever moves forward. */
    function Refreshed(v: Value): Value {
      if v.ttlVersion > ttlVersion then this.(ttl := v.ttl, ttlVersion := v.ttlVersion) else this
    }
  }

  datatype Pub = Pub(keyVals: map<Key, Value>, expired: set<Key>)

  /** What a publication says of one key. */
  datatype Cell = Cell(value: Option<Value>, expired: bool)

  function CellOf(p: Pub, k: Key): Cell {
    Cell(if k in p.keyVals then Some(p.keyVals[k]) else None, k in p.expired)
  }

  /** A reader of one key: take a value, or refresh the one it has, then expire. */
  function Read(state: Option<Value>, c: Cell): Option<Value> {
    if c.expired then None
    else
      match c.value
      case None => state
      case Some(v) =>
        if !v.TtlOnly() then Some(v)
        else if state.Some? && state.value.Matches(v) then Some(state.value.Refreshed(v))
        else state
  }

  /** mergeKeyValIntoPending. */
  function Over(pending: Option<Value>, v: Value): Value {
    if pending.Some? && v.TtlOnly() && !pending.value.TtlOnly() && pending.value.Matches(v) then pending.value.Refreshed(v) else v
  }

  /** On the fields: a payload replaces what is pending; a refresh of the same version by the same
      originator keeps the pending payload and takes the later liveness; any other one replaces it. */
  lemma OverIs(p: Value, v: Value)
    ensures v.payload.Some? ==> Over(Some(p), v) == v
    ensures v.payload.None? && p.payload.Some? && p.version == v.version && p.originator == v.originator ==>
              Over(Some(p), v) == if v.ttlVersion > p.ttlVersion then Value(p.version, p.originator, p.payload, v.ttl, v.ttlVersion) else p
    ensures v.payload.None? && (p.payload.None? || p.version != v.version || p.originator != v.originator) ==> Over(Some(p), v) == v
  {
  }

  /** So for a reader: a payload is taken, a refresh only of the value it has and only forward. */
  lemma ReadIs(state: Option<Value>, v: Value)
    ensures v.payload.Some? ==> Read(state, Cell(Some(v), false)) == Some(v)
    ensures v.payload.None? && (state.None? || state.value.version != v.version || state.value.originator != v.originator) ==>
              Read(state, Cell(Some(v), false)) == state
    ensures v.payload.None? && state.Some? && state.value.version == v.version && state.value.originator == v.originator ==>
              Read(state, Cell(Some(v), false)) ==
              Some(if v.ttlVersion > state.value.ttlVersion then state.value.(ttl := v.ttl, ttlVersion := v.ttlVersion) else state.value)
  {
  }

  /** What mergePublicationInPlace makes of one key. */
  function MergedCell(p: Cell, i: Cell): Cell {
    if i.expired then Cell(None, true)
    else
      match i.value
      case None => p
      case Some(v) => if p.expired && v.TtlOnly() then p else Cell(Some(Over(p.value, v)), false)
  }

  /** When folding is right for every reader: a refresh must be for the value that is pending, and
      must not take a pending refresh back. */
  predicate Fits(p: Cell, i: Cell) {
    !i.expired && !p.expired && i.value.Some? && i.value.value.TtlOnly() && p.value.Some? ==>
      && p.value.value.Matches(i.value.value)
      && (p.value.value.TtlOnly() ==> NotBefore(i.value.value, p.value.value))
  }

  lemma FoldedReads(state: Option<Value>, p: Cell, i: Cell)
    requires Fits(p, i)
    ensures Read(Read(state, p), i) == Read(state, MergedCell(p, i))
  {
  }

  /** Otherwise some reader is misled. */
  lemma MisfitMisleads(p: Cell, i: Cell) returns (state: Option<Value>)
    requires !Fits(p, i)
    ensures Read(Read(state, p), i) != Read(state, MergedCell(p, i))
  {
    var v := p.value.value;
    state := if v.TtlOnly() then Some(v.(payload := Some(0), ttlVersion := v.ttlVersion - 1)) else None;
  }

  /** Folding one key is right for all readers if and only if the refresh fits. */
  lemma FoldIsRightIff(p: Cell, i: Cell)
    ensures (forall state :: Read(Read(state, p), i) == Read(state, MergedCell(p, i))) <==> Fits(p, i)
  {
    if Fits(p, i) {
      forall state ensures Read(Read(state, p), i) == Read(state, MergedCell(p, i)) {
        FoldedReads(state, p, i);
      }
    } else {
      var state := MisfitMisleads(p, i);
    }
  }

  class PendingPublication {
    var keyVals: map<Key, Value>
    var expired: set<Key>

    function Value(): Pub
      reads this
    {
      Pub(keyVals, expired)
    }

    constructor (p: Pub)
      ensures Value() == p
    {
      keyVals, expired := p.keyVals, p.expired;
    }

    /** mergePublicationInPlace. */
    method MergeInPlace(incoming: Pub)
      modifies this
      ensures Folded(old(Value()), incoming, Value())
    {
      ghost var before := Value();
      var todo := incoming.keyVals.Keys;
      while todo != {}
        invariant todo <= incoming.keyVals.Keys
        invariant forall k | k in todo || k !in incoming.keyVals :: CellOf(Value(), k) == CellOf(before, k)
        invariant forall k <- incoming.keyVals.Keys - todo :: CellOf(Value(), k) == MergedCell(CellOf(before, k), Cell(Some(incoming.keyVals[k]), false))
        decreases todo
      {
        var k :| k in todo;
        todo := todo - {k};
        assert CellOf(Value(), k) == CellOf(before, k);
        var v := incoming.keyVals[k];
        if !(k in expired && v.TtlOnly()) {
          expired := expired - {k};
          keyVals := keyVals[k := Over(if k in keyVals then Some(keyVals[k]) else None, v)];
        }
      }
      ghost var mid := Value();
      keyVals, expired := keyVals - incoming.expired, expired + incoming.expired;
      assert forall k :: CellOf(Value(), k) == if k in incoming.expired then Cell(None, true) else CellOf(mid, k);
    }
  }

  /** A reader of all keys. */
  ghost function Apply(state: map<Key, Value>, p: Pub): (after: map<Key, Value>)
    ensures forall k :: Lookup(after, k) == Read(Lookup(state, k), CellOf(p, k))
  {
    map k | k in state.Keys + p.keyVals.Keys && Read(Lookup(state, k), CellOf(p, k)).Some? :: Read(Lookup(state, k), CellOf(p, k)).value
  }

  /** `m` is the fold of `p` and `i`. */
  ghost predicate Folded(p: Pub, i: Pub, m: Pub) {
    forall k :: CellOf(m, k) == MergedCell(CellOf(p, k), CellOf(i, k))
  }

  /** `v` moves the ttlVersion forward, or repeats it with the same ttl. */
  predicate NotBefore(v: Value, latest: Value) {
    v.ttlVersion > latest.ttlVersion || (v.ttlVersion == latest.ttlVersion && v.ttl == latest.ttl)
  }

  /** A publication as KvStore makes it: a refresh is for the latest value published, and does not
      take its liveness back. */
  ghost predicate Published(latest: map<Key, Value>, p: Pub) {
    forall k <- p.keyVals :: p.keyVals[k].TtlOnly() ==>
      k in latest && latest[k].Matches(p.keyVals[k]) && NotBefore(p.keyVals[k], latest[k])
  }

  /** What is pending agrees with the latest published state. */
  ghost predicate UpToDate(latest: map<Key, Value>, p: Pub) {
    forall k <- p.keyVals | k !in p.expired ::
      && k in latest && latest[k].Matches(p.keyVals[k]) && latest[k].ttlVersion == p.keyVals[k].ttlVersion
      && latest[k].ttl == p.keyVals[k].ttl && (!p.keyVals[k].TtlOnly() ==> latest[k] == p.keyVals[k])
  }

  lemma FirstIsUpToDate(latest: map<Key, Value>, p: Pub)
    requires Published(latest, p)
    ensures UpToDate(Apply(latest, p), p)
  {
  }

  lemma UpToDateFits(latest: map<Key, Value>, p: Pub, i: Pub, k: Key)
    requires UpToDate(latest, p) && Published(latest, i)
    ensures Fits(CellOf(p, k), CellOf(i, k))
  {
  }

  /** The pending payload is kept, and no ttlVersion moves back: what is pending after the fold is
      again up to date. */
  lemma FoldIsUpToDate(latest: map<Key, Value>, p: Pub, i: Pub, m: Pub)
    requires UpToDate(latest, p) && Published(latest, i) && Folded(p, i, m)
    ensures UpToDate(Apply(latest, i), m)
  {
    var after := Apply(latest, i);
    forall k <- m.keyVals | k !in m.expired
      ensures k in after && after[k].Matches(m.keyVals[k]) && after[k].ttlVersion == m.keyVals[k].ttlVersion
              && after[k].ttl == m.keyVals[k].ttl && (!m.keyVals[k].TtlOnly() ==> after[k] == m.keyVals[k])
    {
      assert CellOf(m, k) == MergedCell(CellOf(p, k), CellOf(i, k));
      assert Lookup(after, k) == Read(Lookup(latest, k), CellOf(i, k));
    }
  }

  ghost function Fold(p: Pub, i: Pub): (m: Pub)
    ensures Folded(p, i, m)
  {
    Pub(map k | k in p.keyVals.Keys + i.keyVals.Keys && MergedCell(CellOf(p, k), CellOf(i, k)).value.Some? ::
          MergedCell(CellOf(p, k), CellOf(i, k)).value.value,
        set k | k in p.expired + i.expired && MergedCell(CellOf(p, k), CellOf(i, k)).expired)
  }

  /** Reading the fold is reading both. */
  lemma FoldReads(state: map<Key, Value>, latest: map<Key, Value>, p: Pub, i: Pub)
    requires UpToDate(latest, p) && Published(latest, i)
    ensures Apply(Apply(state, p), i) == Apply(state, Fold(p, i))
  {
    var l, m := Apply(Apply(state, p), i), Fold(p, i);
    var r := Apply(state, m);
    forall k ensures Lookup(l, k) == Lookup(r, k) {
      UpToDateFits(latest, p, i, k);
      assert CellOf(m, k) == MergedCell(CellOf(p, k), CellOf(i, k));
      FoldedReads(Lookup(state, k), CellOf(p, k), CellOf(i, k));
      assert Lookup(l, k) == Read(Read(Lookup(state, k), CellOf(p, k)), CellOf(i, k));
    }
    SameLookupsSame(l, r);
  }

  /** A reader and what is pending for it. */
  datatype Reader = Reader(state: map<Key, Value>, pending: Option<Pub>)

  datatype Event = Push(p: Pub) | Pop

  ghost function Drained(r: Reader): map<Key, Value> {
    if r.pending.None? then r.state else Apply(r.state, r.pending.value)
  }

  ghost function Step(r: Reader, e: Event): Reader {
    match e
    case Push(p) => r.(pending := Some(if r.pending.None? then p else Fold(r.pending.value, p)))
    case Pop => Reader(Drained(r), None)
  }

  ghost function Run(r: Reader, events: seq<Event>): Reader {
    if events == [] then r else Step(Run(r, events[..|events| - 1]), events[|events| - 1])
  }

  /** All publications, applied one by one. */
  ghost function ApplyAll(state: map<Key, Value>, events: seq<Event>): map<Key, Value> {
    if events == [] then state
    else
      var before := ApplyAll(state, events[..|events| - 1]);
      if events[|events| - 1].Push? then Apply(before, events[|events| - 1].p) else before
  }

  /** Every publication is as KvStore makes it, given those before. */
  ghost predicate PublishedAll(latest: map<Key, Value>, events: seq<Event>) {
    forall i | 0 <= i < |events| && events[i].Push? :: Published(ApplyAll(latest, events[..i]), events[i].p)
  }

  /** One event, with what is pending up to date: a push reads as if it were applied at once. */
  lemma StepIsTransparent(r: Reader, latest: map<Key, Value>, e: Event)
    requires (r.pending.Some? ==> UpToDate(latest, r.pending.value)) && (e.Push? ==> Published(latest, e.p))
    ensures Drained(Step(r, e)) == if e.Push? then Apply(Drained(r), e.p) else Drained(r)
    ensures Step(r, e).pending.Some? ==> UpToDate(if e.Push? then Apply(latest, e.p) else latest, Step(r, e).pending.value)
  {
    hide Published, UpToDate;
    if e.Push? {
      if r.pending.None? {
        FirstIsUpToDate(latest, e.p);
      } else {
        FoldReads(r.state, latest, r.pending.value, e.p);
        FoldIsUpToDate(latest, r.pending.value, e.p, Fold(r.pending.value, e.p));
      }
    }
  }

  /** Whatever the interleaving of pushes and pops, a reader that catches up has the state it would
      have had without folding, wherever it started, and what is pending never loses a payload or
      takes a ttlVersion back. */
  lemma {:induction false} FoldingIsTransparent(state: map<Key, Value>, latest: map<Key, Value>, events: seq<Event>)
    requires PublishedAll(latest, events)
    ensures var r := Run(Reader(state, None), events);
            && Drained(r) == ApplyAll(state, events)
            && (r.pending.Some? ==> UpToDate(ApplyAll(latest, events), r.pending.value))
    decreases |events|
  {
    hide Published, UpToDate, Step, Drained, Apply;
    if events == [] {
      NothingPending(state);
    } else {
      var n := |events| - 1;
      var front := events[..n];
      assert forall i | 0 <= i < n :: events[..i] == front[..i] && events[i] == front[i];
      FoldingIsTransparent(state, latest, front);
      StepIsTransparent(Run(Reader(state, None), front), ApplyAll(latest, front), events[n]);
    }
  }

  lemma NothingPending(state: map<Key, Value>)
    ensures Drained(Reader(state, None)) == state
  {
  }
}
