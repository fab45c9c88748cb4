/** The byte ledgers of the peer-ingress limit: per-peer totals, the count of peers holding bytes,
    the two global totals, and the fair share they give. */
module IngressBytes {
  import opened Options

  type Peer = nat
  type Conn = nat

  /** PeerSlot: the peer a connection belongs to, if known, and its queued bytes. */
  datatype Slot = Slot(sender: Option<Peer>, queued: nat)

  /** Sum of the values of a map. */
  ghost function Total(m: map<nat, nat>): nat {
    if m == map[] then 0
    else
      var k :| k in m;
      m[k] + Total(m - {k})
  }

  function Get(m: map<nat, nat>, k: nat): nat {
    if k in m then m[k] else 0
  }

  /** The sum does not depend on the order. */
  lemma {:induction false} TotalWithout(m: map<nat, nat>, k: nat)
    requires k in m
    ensures Total(m) == m[k] + Total(m - {k})
    decreases |m|
  {
    var j :| j in m && Total(m) == m[j] + Total(m - {j});
    if j != k {
      assert (m - {j}) - {k} == (m - {k}) - {j};
      TotalWithout(m - {j}, k);
      TotalWithout(m - {k}, j);
    }
  }

  /** Two maps that agree but for `k` have sums that differ by what they say of `k`. */
  lemma TotalChange(m: map<nat, nat>, m': map<nat, nat>, k: nat)
    requires m - {k} == m' - {k}
    ensures Total(m') + Get(m, k) == Total(m) + Get(m', k)
  {
    if k in m {
      TotalWithout(m, k);
    } else {
      assert m - {k} == m;
    }
    if k in m' {
      TotalWithout(m', k);
    } else {
      assert m' - {k} == m';
    }
  }

  type Slots = map<Conn, Slot>

  /** Queued bytes of the connections of one peer, of all, and of those not identified. */
  ghost function QueuedOf(slots: Slots, who: Option<Peer>): map<nat, nat> {
    map c | c in slots && slots[c].sender == who :: slots[c].queued
  }

  ghost function AllQueued(slots: Slots): map<nat, nat> {
    map c | c in slots :: slots[c].queued
  }

  /** Connections that count as a peer of their own. */
  ghost function Loners(slots: Slots): set<Conn> {
    set c <- slots | slots[c].sender.None? && slots[c].queued > 0
  }

  /** PeerBytes, the slots it guards and the two global totals. */
  datatype Ledger = Ledger(
    pending: map<Peer, nat>,
    held: map<Peer, nat>,
    unidentified: int,
    slots: Slots,
    pendingGlobal: int,
    queuedGlobal: int)

  ghost predicate Positive(m: map<nat, nat>) {
    forall k <- m :: m[k] > 0
  }

  /** Each peer's held bytes are its pending plus its connections' queued bytes. */
  ghost predicate HeldExact(l: Ledger) {
    Exact(l.held, l.pending, l.slots)
  }

  ghost predicate Valid(l: Ledger) {
    && Positive(l.pending) && Positive(l.held) && HeldExact(l)
    && l.unidentified == |Loners(l.slots)|
    && l.pendingGlobal == Total(l.pending)
    && l.queuedGlobal == Total(AllQueued(l.slots))
  }

  /** A slot changes: the queued bytes of the peers it leaves and joins follow. */
  lemma SlotChange(slots: Slots, c: Conn, slot: Slot, who: Option<Peer>)
    ensures var slots' := slots[c := slot];
            var before := if c in slots && slots[c].sender == who then slots[c].queued else 0;
            var after := if slot.sender == who then slot.queued else 0;
            Total(QueuedOf(slots', who)) + before == Total(QueuedOf(slots, who)) + after
  {
    TotalChange(QueuedOf(slots, who), QueuedOf(slots[c := slot], who), c);
  }

  lemma AllChange(slots: Slots, c: Conn, slot: Slot)
    ensures Total(AllQueued(slots[c := slot])) + (if c in slots then slots[c].queued else 0) == Total(AllQueued(slots)) + slot.queued
  {
    TotalChange(AllQueued(slots), AllQueued(slots[c := slot]), c);
  }

  lemma LonersAre(slots: Slots, c: Conn, slot: Slot)
    ensures var rest := Loners(slots) - {c};
            && Loners(slots[c := slot]) == (if slot.sender.None? && slot.queued > 0 then rest + {c} else rest)
            && Loners(slots) == (if c in slots && slots[c].sender.None? && slots[c].queued > 0 then rest + {c} else rest)
  {
  }

  lemma LonersChange(slots: Slots, c: Conn, slot: Slot)
    ensures var was := c in slots && slots[c].sender.None? && slots[c].queued > 0;
            var now := slot.sender.None? && slot.queued > 0;
            |Loners(slots[c := slot])| == |Loners(slots)| + (if now then 1 else 0) - (if was then 1 else 0)
  {
    LonersAre(slots, c, slot);
    hide Loners;
    var rest := Loners(slots) - {c};
    assert c !in rest && |rest + {c}| == |rest| + 1;
  }

  /** addHeldBytes. */
  function AddHeld(held: map<Peer, nat>, p: Peer, bytes: nat): map<Peer, nat> {
    held[p := Get(held, p) + bytes]
  }

  /** releaseHeldBytes; a peer that holds nothing is removed. */
  function ReleaseHeld(held: map<Peer, nat>, p: Peer, bytes: nat): map<Peer, nat> {
    if p !in held then held
    else
      var left := held[p] - (if bytes <= held[p] then bytes else held[p]);
      if left == 0 then held - {p} else held[p := left]
  }

  /** addQueuedBytes and releaseQueuedBytes, as changes to the held map and the loner count. */
  function AddQueued(l: Ledger, sender: Option<Peer>, queued: nat, bytes: nat): Ledger {
    if bytes == 0 then l
    else if sender.Some? then l.(held := AddHeld(l.held, sender.value, bytes))
    else if queued == 0 then l.(unidentified := l.unidentified + 1)
    else l
  }

  function ReleaseQueued(l: Ledger, sender: Option<Peer>, queued: nat, bytes: nat): Ledger {
    if bytes == 0 then l
    else if sender.Some? then l.(held := ReleaseHeld(l.held, sender.value, bytes))
    else if queued == bytes then l.(unidentified := l.unidentified - 1)
    else l
  }

  /** What a connection's own bytes contribute stays with its peer. */
  lemma HeldCovers(l: Ledger, c: Conn, p: Peer)
    requires Valid(l) && c in l.slots && l.slots[c].sender == Some(p)
    ensures Get(l.held, p) >= l.slots[c].queued
  {
    TotalWithout(QueuedOf(l.slots, Some(p)), c);
  }

  /** The queued bytes of `c` changed, and the ledgers they are part of; nothing else did. */
  ghost predicate OnlyQueued(l: Ledger, c: Conn, l': Ledger) {
    && l'.pending == l.pending && l'.pendingGlobal == l.pendingGlobal && l'.slots.Keys == l.slots.Keys
    && (forall d <- l.slots | d != c :: l'.slots[d] == l.slots[d])
    && (c in l.slots ==> l'.slots[c].sender == l.slots[c].sender)
  }

  /** What is left of `had` when `asked` is taken, or all of it. */
  function Rest(had: nat, asked: nat): nat {
    if asked >= had then 0 else had - asked
  }

  /** admitOpenrIngressKvStoreQueuedRequest past its limit check. */
  function Admitted(l: Ledger, c: Conn, bytes: nat): Ledger
    requires c in l.slots
  {
    var s := l.slots[c];
    var l' := AddQueued(l, s.sender, s.queued, bytes);
    l'.(slots := l.slots[c := s.(queued := s.queued + bytes)], queuedGlobal := l.queuedGlobal + bytes)
  }

  /** All the bytes are queued, on the connection and in all. */
  lemma AdmitAdds(l: Ledger, c: Conn, bytes: nat)
    requires c in l.slots
    ensures OnlyQueued(l, c, Admitted(l, c, bytes))
    ensures var l' := Admitted(l, c, bytes); l'.slots[c].queued == l.slots[c].queued + bytes && l'.queuedGlobal == l.queuedGlobal + bytes
  {
  }

  lemma AdmitKeepsValid(l: Ledger, c: Conn, bytes: nat)
    requires Valid(l) && c in l.slots
    ensures Valid(Admitted(l, c, bytes))
  {
    hide Total, QueuedOf, AllQueued, Loners;
    var s := l.slots[c];
    var slot, l' := s.(queued := s.queued + bytes), Admitted(l, c, bytes);
    AllChange(l.slots, c, slot);
    LonersChange(l.slots, c, slot);
    forall p ensures Get(l'.held, p) == Get(l'.pending, p) + Total(QueuedOf(l'.slots, Some(p))) {
      SlotChange(l.slots, c, slot, Some(p));
      assert Get(l.held, p) == Get(l.pending, p) + Total(QueuedOf(l.slots, Some(p)));
    }
  }

  /** releaseOpenrIngressKvStoreQueuedRequest; at most what the connection has queued. */
  function Released(l: Ledger, c: Conn, requested: nat): Ledger
    requires c in l.slots
  {
    var s := l.slots[c];
    var bytes := if requested <= s.queued then requested else s.queued;
    var l' := ReleaseQueued(l, s.sender, s.queued, bytes);
    l'.(slots := l.slots[c := s.(queued := s.queued - bytes)], queuedGlobal := l.queuedGlobal - bytes)
  }

  /** The bytes asked for are released, or what the connection has queued if that is less. */
  lemma ReleaseTakes(l: Ledger, c: Conn, requested: nat)
    requires c in l.slots
    ensures OnlyQueued(l, c, Released(l, c, requested))
    ensures var l', left := Released(l, c, requested), Rest(l.slots[c].queued, requested);
            l'.slots[c].queued == left && l'.queuedGlobal == l.queuedGlobal - l.slots[c].queued + left
  {
  }

  lemma ReleaseKeepsValid(l: Ledger, c: Conn, requested: nat)
    requires Valid(l) && c in l.slots
    ensures Valid(Released(l, c, requested))
  {
    hide Total, QueuedOf, AllQueued, Loners;
    var s := l.slots[c];
    var bytes := if requested <= s.queued then requested else s.queued;
    var slot, l' := s.(queued := s.queued - bytes), Released(l, c, requested);
    AllChange(l.slots, c, slot);
    LonersChange(l.slots, c, slot);
    if s.sender.Some? {
      HeldCovers(l, c, s.sender.value);
    }
    forall p ensures Get(l'.held, p) == Get(l'.pending, p) + Total(QueuedOf(l'.slots, Some(p))) {
      SlotChange(l.slots, c, slot, Some(p));
      assert Get(l.held, p) == Get(l.pending, p) + Total(QueuedOf(l.slots, Some(p)));
    }
  }

  /** recordSenderId: the queued bytes move to the peer's total. */
  function Identified(l: Ledger, c: Conn, p: Peer): Ledger
    requires c in l.slots
  {
    var s := l.slots[c];
    var out := ReleaseQueued(l, s.sender, s.queued, s.queued);
    AddQueued(out, Some(p), 0, s.queued).(slots := l.slots[c := s.(sender := Some(p))])
  }

  lemma IdentifyKeepsValid(l: Ledger, c: Conn, p: Peer)
    requires Valid(l) && c in l.slots
    ensures Valid(Identified(l, c, p))
    ensures var l' := Identified(l, c, p);
            && l'.slots == l.slots[c := Slot(Some(p), l.slots[c].queued)]
            && l'.pending == l.pending && l'.pendingGlobal == l.pendingGlobal && l'.queuedGlobal == l.queuedGlobal
  {
    hide Total, QueuedOf, AllQueued, Loners;
    var s := l.slots[c];
    var slot, l' := s.(sender := Some(p)), Identified(l, c, p);
    AllChange(l.slots, c, slot);
    LonersChange(l.slots, c, slot);
    if s.sender.Some? {
      HeldCovers(l, c, s.sender.value);
    }
    forall r ensures Get(l'.held, r) == Get(l'.pending, r) + Total(QueuedOf(l'.slots, Some(r))) {
      SlotChange(l.slots, c, slot, Some(r));
      assert Get(l.held, r) == Get(l.pending, r) + Total(QueuedOf(l.slots, Some(r)));
    }
  }

  /** The pending bytes of `p` changed, and the ledgers they are part of; nothing else did. */
  ghost predicate OnlyPending(l: Ledger, p: Peer, l': Ledger) {
    && l'.slots == l.slots && l'.queuedGlobal == l.queuedGlobal
    && forall r: nat | r != p :: Get(l'.pending, r) == Get(l.pending, r)
  }

  /** addOpenrIngressKvStorePendingMergeBytes. */
  function PendingAdded(l: Ledger, p: Peer, bytes: nat): Ledger {
    if bytes == 0 then l
    else l.(pending := AddHeld(l.pending, p, bytes), held := AddHeld(l.held, p, bytes), pendingGlobal := l.pendingGlobal + bytes)
  }

  lemma AddPendingKeepsValid(l: Ledger, p: Peer, bytes: nat)
    requires Valid(l)
    ensures Valid(PendingAdded(l, p, bytes)) && OnlyPending(l, p, PendingAdded(l, p, bytes))
    ensures var l' := PendingAdded(l, p, bytes);
            Get(l'.pending, p) == Get(l.pending, p) + bytes && l'.pendingGlobal == l.pendingGlobal + bytes
  {
    hide Total, QueuedOf, AllQueued, Loners;
    var l' := PendingAdded(l, p, bytes);
    if bytes > 0 {
      assert l.pending - {p} == l'.pending - {p};
      TotalChange(l.pending, l'.pending, p);
      forall r ensures Get(l'.held, r) == Get(l'.pending, r) + Total(QueuedOf(l'.slots, Some(r))) {
        assert Get(l.held, r) == Get(l.pending, r) + Total(QueuedOf(l.slots, Some(r)));
      }
    }
  }

  /** releaseOpenrIngressKvStorePendingMergeBytes; at most what the peer has pending. */
  function PendingReleased(l: Ledger, p: Peer, requested: nat): Ledger {
    if requested == 0 || p !in l.pending then l
    else
      var bytes := if requested <= l.pending[p] then requested else l.pending[p];
      l.(pending := ReleaseHeld(l.pending, p, bytes), held := ReleaseHeld(l.held, p, bytes), pendingGlobal := l.pendingGlobal - bytes)
  }

  lemma ReleasePendingKeepsValid(l: Ledger, p: Peer, requested: nat)
    requires Valid(l)
    ensures Valid(PendingReleased(l, p, requested)) && OnlyPending(l, p, PendingReleased(l, p, requested))
    ensures var l', left := PendingReleased(l, p, requested), Rest(Get(l.pending, p), requested);
            Get(l'.pending, p) == left && l'.pendingGlobal == l.pendingGlobal - Get(l.pending, p) + left
  {
    hide Total, QueuedOf, AllQueued, Loners;
    var l' := PendingReleased(l, p, requested);
    if requested > 0 && p in l.pending {
      assert l.pending - {p} == l'.pending - {p};
      TotalChange(l.pending, l'.pending, p);
      forall r ensures Get(l'.held, r) == Get(l'.pending, r) + Total(QueuedOf(l'.slots, Some(r))) {
        assert Get(l.held, r) == Get(l.pending, r) + Total(QueuedOf(l.slots, Some(r)));
      }
    }
  }

  lemma TotalEmpty()
    ensures Total(map[]) == 0
  {
  }

  lemma SomeKey(m: map<nat, nat>, m': map<nat, nat>) returns (k: nat)
    requires m != map[] || m' != map[]
    ensures k in m || k in m'
  {
    if m != map[] {
      k :| k in m;
    } else {
      k :| k in m';
    }
  }

  /** Taking out a key changes both sums by the same. */
  lemma SameStep(m: map<nat, nat>, m': map<nat, nat>, k: nat)
    requires forall j :: Get(m, j) == Get(m', j)
    ensures Total(m) - Total(m - {k}) == Total(m') - Total(m' - {k})
  {
    hide Total;
    TotalChange(m, m - {k}, k);
    TotalChange(m', m' - {k}, k);
    assert Get(m, k) == Get(m', k);
  }

  /** The sum depends only on what the map says of each key, 0 if it says nothing. */
  lemma {:induction false} TotalSame(m: map<nat, nat>, m': map<nat, nat>)
    requires forall k :: Get(m, k) == Get(m', k)
    ensures Total(m) == Total(m')
    decreases |m| + |m'|
  {
    hide Total, Get;
    TotalEmpty();
    if m != map[] || m' != map[] {
      var k := SomeKey(m, m');
      SameStep(m, m', k);
      SameWithout(m, m', k);
      TotalSame(m - {k}, m' - {k});
    }
  }

  lemma SameWithout(m: map<nat, nat>, m': map<nat, nat>, k: nat)
    requires forall j :: Get(m, j) == Get(m', j)
    ensures forall j :: Get(m - {k}, j) == Get(m' - {k}, j)
    ensures Get(m - {k}, k) == Get(m' - {k}, k) == 0
    ensures |m - {k}| <= |m| && |m' - {k}| <= |m'| && (k in m ==> |m - {k}| < |m|) && (k in m' ==> |m' - {k}| < |m'|)
  {
    forall j ensures Get(m - {k}, j) == Get(m' - {k}, j) {
      assert Get(m, j) == Get(m', j);
    }
    SizeWithout(m, k);
    SizeWithout(m', k);
  }

  lemma SizeWithout(m: map<nat, nat>, k: nat)
    ensures |m - {k}| == if k in m then |m| - 1 else |m|
  {
  }

  /** `held` is exact for `pending` and `slots`. */
  ghost predicate Exact(held: map<nat, nat>, pending: map<nat, nat>, slots: Slots) {
    forall p :: Get(held, p) == Get(pending, p) + Total(QueuedOf(slots, Some(p)))
  }

  lemma NoSlots(held: map<nat, nat>, pending: map<nat, nat>)
    requires Exact(held, pending, map[])
    ensures Total(held) + Total(QueuedOf(map[], None)) == Total(pending) + Total(AllQueued(map[]))
  {
    assert forall who :: QueuedOf(map[], who) == map[];
    assert AllQueued(map[]) == map[];
    TotalEmpty();
    hide Total;
    forall p ensures Get(held, p) == Get(pending, p) {
      assert Get(held, p) == Get(pending, p) + Total(QueuedOf(map[], Some(p)));
    }
    TotalSame(held, pending);
  }

  /** Held bytes without those of a connection: exact for the other slots. */
  lemma LessOneSlot(held: map<nat, nat>, pending: map<nat, nat>, rest: Slots, c: Conn, s: Slot) returns (held': map<nat, nat>)
    requires c !in rest && Exact(held, pending, rest[c := s])
    ensures Exact(held', pending, rest)
    ensures Total(held) == Total(held') + if s.sender.Some? then s.queued else 0
  {
    hide Total, QueuedOf, Get;
    held' := held;
    if s.sender.Some? {
      var r := s.sender.value;
      SlotChange(rest, c, s, Some(r));
      assert Get(held, r) == Get(pending, r) + Total(QueuedOf(rest[c := s], Some(r)));
      held' := held[r := Get(held, r) - s.queued];
      TotalChange(held, held', r);
      GetUpdated(held, r, Get(held, r) - s.queued);
    }
    forall p ensures Get(held', p) == Get(pending, p) + Total(QueuedOf(rest, Some(p))) {
      SlotChange(rest, c, s, Some(p));
      assert Get(held, p) == Get(pending, p) + Total(QueuedOf(rest[c := s], Some(p)));
    }
  }

  lemma GetUpdated(m: map<nat, nat>, k: nat, v: nat)
    ensures forall j: nat :: Get(m[k := v], j) == if j == k then v else Get(m, j)
  {
    forall j: nat ensures Get(m[k := v], j) == if j == k then v else Get(m, j) {
    }
  }

  /** Held bytes of all peers and queued bytes of unidentified connections are all the bytes. */
  lemma {:induction false} HeldIsEverything(held: map<nat, nat>, pending: map<nat, nat>, slots: Slots)
    requires Exact(held, pending, slots)
    ensures Total(held) + Total(QueuedOf(slots, None)) == Total(pending) + Total(AllQueued(slots))
    decreases |slots|
  {
    hide Total, QueuedOf, AllQueued, Exact;
    if slots == map[] {
      NoSlots(held, pending);
    } else {
      var c :| c in slots;
      var s, rest := slots[c], slots - {c};
      assert slots == rest[c := s];
      SmallerSlots(slots, c);
      AllChange(rest, c, s);
      SlotChange(rest, c, s, None);
      var held' := LessOneSlot(held, pending, rest, c, s);
      HeldIsEverything(held', pending, rest);
    }
  }

  lemma SmallerSlots(slots: Slots, c: Conn)
    requires c in slots
    ensures |slots - {c}| < |slots| && c !in slots - {c}
  {
  }

  ghost function Support(m: map<nat, nat>): set<nat> {
    set k <- m | m[k] > 0
  }

  lemma SupportWithout(m: map<nat, nat>, k: nat)
    requires k in m
    ensures |Support(m)| == |Support(m - {k})| + if m[k] > 0 then 1 else 0
  {
    var rest := Support(m - {k});
    assert k !in rest;
    assert Support(m) == if m[k] > 0 then rest + {k} else rest;
  }

  lemma OneMoreShare(n: nat, share: nat)
    ensures (n + 1) * share == n * share + share
  {
  }

  /** If nobody has more than `share`, all have no more than as many shares. */
  lemma {:induction false} TotalBound(m: map<nat, nat>, share: nat)
    requires forall k <- m :: m[k] <= share
    ensures Total(m) <= |Support(m)| * share
    decreases |m|
  {
    TotalEmpty();
    hide Total, Support;
    if m != map[] {
      var k :| k in m;
      SizeWithout(m, k);
      TotalWithout(m, k);
      SupportWithout(m, k);
      OneMoreShare(|Support(m - {k})|, share);
      TotalBound(m - {k}, share);
    } else {
      NoSupport(share);
    }
  }

  lemma NoSupport(share: nat)
    ensures |Support(map[])| * share == 0
  {
  }

  /** getNumPeersHoldingBytes. */
  function Holders(l: Ledger): int {
    |l.held| + l.unidentified
  }

  ghost predicate SomeoneAbove(l: Ledger, share: nat) {
    (exists p <- l.held :: l.held[p] > share) || (exists c <- Loners(l.slots) :: l.slots[c].queued > share)
  }

  lemma HoldersHaveSupport(l: Ledger)
    requires Valid(l)
    ensures |Support(l.held)| + |Support(QueuedOf(l.slots, None))| == Holders(l)
    ensures l.pendingGlobal + l.queuedGlobal == Total(l.held) + Total(QueuedOf(l.slots, None))
  {
    HeldIsEverything(l.held, l.pending, l.slots);
    hide Total;
    assert Support(l.held) == l.held.Keys && Support(QueuedOf(l.slots, None)) == Loners(l.slots);
  }

  lemma LonersWithin(l: Ledger, share: nat)
    requires !SomeoneAbove(l, share)
    ensures forall c <- QueuedOf(l.slots, None) :: QueuedOf(l.slots, None)[c] <= share
  {
  }

  lemma SumOfShares(a: nat, b: nat, share: nat)
    ensures a * share + b * share == (a + b) * share
  {
  }

  /** If nobody is above `share`, all the bytes are within as many shares as there are holders. */
  lemma EverybodyWithin(l: Ledger, share: nat)
    requires Valid(l) && !SomeoneAbove(l, share)
    ensures Holders(l) >= 0 && l.pendingGlobal + l.queuedGlobal <= Holders(l) * share
  {
    var lone := QueuedOf(l.slots, None);
    HoldersHaveSupport(l);
    LonersWithin(l, share);
    hide Valid, Total, Support, Loners, QueuedOf;
    TotalBound(l.held, share);
    TotalBound(lone, share);
    SumOfShares(|Support(l.held)|, |Support(lone)|, share);
  }

  lemma ShareFits(limit: nat, n: nat)
    requires n > 0
    ensures n * (limit / n) <= limit
  {
  }

  /** The fair-share rule never lets everybody off: above the limit some peer, or some connection
      not identified yet, holds more than the limit divided by the number of holders. */
  lemma SomebodyIsOver(l: Ledger, limit: nat)
    requires Valid(l) && l.pendingGlobal + l.queuedGlobal > limit
    ensures Holders(l) > 0
    ensures SomeoneAbove(l, limit / Holders(l))
  {
    NoHoldersNoBytes(l);
    hide Valid, SomeoneAbove, Holders;
    var share := limit / Holders(l);
    ShareFits(limit, Holders(l));
    if !SomeoneAbove(l, share) {
      EverybodyWithin(l, share);
    }
  }

  lemma NoHoldersNoBytes(l: Ledger)
    requires Valid(l)
    ensures Holders(l) >= 0 && (Holders(l) == 0 ==> l.pendingGlobal + l.queuedGlobal <= 0)
  {
    if Holders(l) == 0 {
      assert l.held.Keys == {} && Loners(l.slots) == {};
      EverybodyWithin(l, 0);
    }
  }

  class Backpressure {
    const pauseAbove: nat
    const queuedPeerLimit: nat
    var l: Ledger

    constructor (pauseAbove: nat, queuedPeerLimit: nat)
      ensures Valid(l) && this.pauseAbove == pauseAbove && this.queuedPeerLimit == queuedPeerLimit
    {
      this.pauseAbove, this.queuedPeerLimit := pauseAbove, queuedPeerLimit;
      l := Ledger(map[], map[], 0, map[], 0, 0);
      new;
      assert forall who :: QueuedOf(l.slots, who) == map[];
    }

    /** initConnection: a connection keeps the slot it has. */
    method InitConnection(c: Conn)
      requires Valid(l)
      modifies this
      ensures Valid(l) && c in l.slots && l == old(l).(slots := l.slots)
      ensures l.slots == if c in old(l).slots then old(l).slots else old(l).slots[c := Slot(None, 0)]
    {
      if c !in l.slots {
        NewSlotKeepsValid(l, c);
        l := l.(slots := l.slots[c := Slot(None, 0)]);
      }
    }

    method RecordSenderId(c: Conn, p: Peer)
      requires Valid(l)
      modifies this
      ensures Valid(l)
      ensures l == if c !in old(l).slots || old(l).slots[c].sender == Some(p) then old(l) else Identified(old(l), c, p)
    {
      if c !in l.slots || l.slots[c].sender == Some(p) {
        return;
      }
      IdentifyKeepsValid(l, c, p);
      l := Identified(l, c, p);
    }

    /** A request is rejected only once its connection has reached the limit. */
    method Admit(c: Conn, bytes: nat) returns (admitted: bool)
      requires Valid(l)
      modifies this
      ensures Valid(l) && (!admitted <==> c in old(l).slots && old(l).slots[c].queued >= queuedPeerLimit)
      ensures l == if admitted && c in old(l).slots then Admitted(old(l), c, bytes) else old(l)
      ensures admitted && c in old(l).slots ==>
                OnlyQueued(old(l), c, l) && l.slots[c].queued == old(l).slots[c].queued + bytes && l.queuedGlobal == old(l).queuedGlobal + bytes
    {
      hide Valid, OnlyQueued;
      if c !in l.slots {
        return true;
      }
      if l.slots[c].queued >= queuedPeerLimit {
        return false;
      }
      AdmitKeepsValid(l, c, bytes);
      AdmitAdds(l, c, bytes);
      l := Admitted(l, c, bytes);
      return true;
    }

    method Release(c: Conn, bytes: nat)
      requires Valid(l)
      modifies this
      ensures Valid(l) && l == if c in old(l).slots then Released(old(l), c, bytes) else old(l)
      ensures c in old(l).slots ==> OnlyQueued(old(l), c, l) && l.slots[c].queued == Rest(old(l).slots[c].queued, bytes)
      ensures c in old(l).slots ==> l.queuedGlobal == old(l).queuedGlobal - old(l).slots[c].queued + l.slots[c].queued
    {
      hide Valid, OnlyQueued;
      if c in l.slots {
        ReleaseKeepsValid(l, c, bytes);
        ReleaseTakes(l, c, bytes);
        l := Released(l, c, bytes);
      }
    }

    method AddPendingMerge(p: Peer, bytes: nat)
      requires Valid(l)
      modifies this
      ensures Valid(l) && l == PendingAdded(old(l), p, bytes) && OnlyPending(old(l), p, l)
      ensures Get(l.pending, p) == Get(old(l).pending, p) + bytes && l.pendingGlobal == old(l).pendingGlobal + bytes
    {
      AddPendingKeepsValid(l, p, bytes);
      l := PendingAdded(l, p, bytes);
    }

    method ReleasePendingMerge(p: Peer, bytes: nat)
      requires Valid(l)
      modifies this
      ensures Valid(l) && l == PendingReleased(old(l), p, bytes) && OnlyPending(old(l), p, l)
      ensures Get(l.pending, p) == Rest(Get(old(l).pending, p), bytes)
      ensures l.pendingGlobal == old(l).pendingGlobal - Get(old(l).pending, p) + Get(l.pending, p)
    {
      ReleasePendingKeepsValid(l, p, bytes);
      l := PendingReleased(l, p, bytes);
    }

    /** isOverFairShare; the divisor is never 0 when it is used. */
    method IsOverFairShare(c: Conn) returns (over: bool)
      requires Valid(l)
      ensures over <==> Over(l, pauseAbove, c)
      ensures over <==> c in l.slots && HeldBy(l, c) > 0 && HeldBy(l, c) > pauseAbove / (if Holders(l) > 0 then Holders(l) else 1)
    {
      if c !in l.slots {
        return false;
      }
      var bytes := HeldBy(l, c);
      if bytes == 0 {
        return false;
      }
      HolderIsCounted(l, c);
      return bytes > pauseAbove / Holders(l);
    }
  }

  /** The bytes that the fair share is compared with. */
  function HeldBy(l: Ledger, c: Conn): nat
    requires c in l.slots
  {
    match l.slots[c].sender
    case Some(p) => Get(l.held, p)
    case None => l.slots[c].queued
  }

  /** For an identified connection, all bytes of its peer: pending, and queued on any of the peer's
      connections; for another one, what it has queued itself. */
  lemma HeldByIs(l: Ledger, c: Conn)
    requires Valid(l) && c in l.slots
    ensures HeldBy(l, c) == match l.slots[c].sender
                            case Some(p) => Get(l.pending, p) + Total(QueuedOf(l.slots, Some(p)))
                            case None => l.slots[c].queued
  {
    hide Total, QueuedOf;
  }

  /** The connection is over its fair share. */
  ghost predicate Over(l: Ledger, limit: nat, c: Conn) {
    c in l.slots && Holders(l) > 0 && HeldBy(l, c) > limit / Holders(l)
  }

  /** Every peer that holds bytes has a connection. */
  ghost predicate Connected(l: Ledger) {
    forall p <- l.held :: exists c <- l.slots :: l.slots[c].sender == Some(p)
  }

  /** Above the limit some connection is over its fair share, as long as whoever holds bytes has a
      connection. */
  lemma SomeConnectionIsOver(l: Ledger, limit: nat)
    requires Valid(l) && l.pendingGlobal + l.queuedGlobal > limit && Connected(l)
    ensures exists c :: Over(l, limit, c)
  {
    SomebodyIsOver(l, limit);
    hide Valid;
    var share := limit / Holders(l);
    if p :| p in l.held && l.held[p] > share {
      var c :| c in l.slots && l.slots[c].sender == Some(p);
      assert Over(l, limit, c);
    } else {
      var c :| c in Loners(l.slots) && l.slots[c].queued > share;
      assert Over(l, limit, c);
    }
  }

  /** Otherwise it need not be: the bytes of a peer without a connection wait to be merged, and
      nobody can be paused for them. */
  lemma NobodyToPause(l: Ledger, limit: nat)
    requires l == Ledger(map[1 := 9], map[1 := 9], 1, map[7 := Slot(None, 1)], 9, 1) && limit == 4
    ensures Valid(l) && l.pendingGlobal + l.queuedGlobal > limit && forall c :: !Over(l, limit, c)
  {
    assert forall p :: QueuedOf(l.slots, Some(p)) == map[];
    assert AllQueued(l.slots) == map[7 := 1] && Loners(l.slots) == {7};
    TotalWithout(map[7 := 1], 7);
    TotalWithout(map[1 := 9], 1);
    assert map[7 := 1] - {7} == map[] && map[1 := 9] - {1} == map[];
    TotalEmpty();
    assert Holders(l) == 2;
  }

  lemma HolderIsCounted(l: Ledger, c: Conn)
    requires Valid(l) && c in l.slots && HeldBy(l, c) > 0
    ensures Holders(l) > 0
  {
    hide Total, QueuedOf, AllQueued;
    if l.slots[c].sender.None? {
      assert c in Loners(l.slots);
    } else {
      assert l.slots[c].sender.value in l.held.Keys;
    }
  }

  lemma NewSlotKeepsValid(l: Ledger, c: Conn)
    requires Valid(l) && c !in l.slots
    ensures Valid(l.(slots := l.slots[c := Slot(None, 0)]))
  {
    hide Total, QueuedOf, AllQueued, Loners;
    var slot := Slot(None, 0);
    AllChange(l.slots, c, slot);
    LonersChange(l.slots, c, slot);
    forall p ensures Total(QueuedOf(l.slots[c := slot], Some(p))) == Total(QueuedOf(l.slots, Some(p))) {
      SlotChange(l.slots, c, slot, Some(p));
    }
  }
}
