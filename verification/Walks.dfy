/** Taking permitted walks apart. */
module Walks {
  import opened Topology

  /** Hop-by-hop reading of a walk: it starts at the source, each hop starts where the last
      one ended, and the final hop ends at `v`. */
  ghost predicate Chain(q: Query, p: seq<Hop>, v: NodeName) {
    && (p == [] ==> v == q.src)
    && (p != [] ==> p[0].from == q.src && p[|p| - 1].to == v)
    && (forall i :: 0 <= i < |p| ==> q.Permitted(p[i]))
    && (forall i :: 0 < i < |p| ==> p[i].from == p[i - 1].to)
  }

  lemma {:induction false} WalkIsChain(q: Query, p: seq<Hop>, v: NodeName)
    ensures q.Walk(p, v) <==> Chain(q, p, v)
    decreases |p|
  {
    if p != [] {
      var init, h := p[..|p| - 1], p[|p| - 1];
      WalkIsChain(q, init, h.from);
      if q.Walk(p, v) {
        assert forall i :: 0 <= i < |init| ==> p[i] == init[i];
      }
      if Chain(q, p, v) {
        assert Chain(q, init, h.from);
      }
    }
  }

  lemma {:induction false} LengthOfConcat(q: Query, a: seq<Hop>, b: seq<Hop>)
    ensures q.Length(a + b) == q.Length(a) + q.Length(b)
    decreases |b|
  {
    if b == [] {
      assert a + b == a;
    } else {
      assert (a + b)[..|a + b| - 1] == a + b[..|b| - 1];
      LengthOfConcat(q, a, b[..|b| - 1]);
    }
  }

  /** Costs do not depend on who asks. */
  lemma {:induction false} LengthIgnoresSource(q1: Query, q2: Query, p: seq<Hop>)
    requires q1.g == q2.g && q1.useLinkMetric == q2.useLinkMetric
    ensures q1.Length(p) == q2.Length(p)
    decreases |p|
  {
    if p != [] {
      LengthIgnoresSource(q1, q2, p[..|p| - 1]);
    }
  }

  /** Cutting a walk where it stands at `p[k].from`. */
  lemma CutWalk(q: Query, p: seq<Hop>, v: NodeName, k: nat)
    requires q.Walk(p, v) && k < |p|
    ensures q.Walk(p[..k], p[k].from)
    ensures q.Length(p) == q.Length(p[..k]) + q.Length(p[k..])
    ensures p[k].from == q.src ==> q.Walk(p[k..], v)
  {
    WalkIsChain(q, p, v);
    WalkIsChain(q, p[..k], p[k].from);
    WalkIsChain(q, p[k..], v);
    assert p == p[..k] + p[k..];
    LengthOfConcat(q, p[..k], p[k..]);
  }

  lemma JoinWalk(q: Query, h: Hop, rest: seq<Hop>, v: NodeName)
    requires h.from == q.src && q.Permitted(h)
    requires rest == [] ==> v == h.to
    requires rest != [] ==> rest[0].from == h.to && rest[|rest| - 1].to == v
    requires forall i :: 0 <= i < |rest| ==> q.Permitted(rest[i])
    requires forall i :: 0 < i < |rest| ==> rest[i].from == rest[i - 1].to
    ensures q.Walk([h] + rest, v)
    ensures q.Length([h] + rest) == q.Cost(h.link) + q.Length(rest)
  {
    WalkIsChain(q, [h] + rest, v);
    LengthOfConcat(q, [h], rest);
    assert [h][..0] == [];
    assert q.Length([h]) == q.Cost(h.link);
  }

  /** Entering a walk after its first hop by another route. */
  lemma ReplaceFirstHop(q: Query, p: seq<Hop>, v: NodeName, a: seq<Hop>)
    requires q.Walk(p, v) && p != [] && q.Walk(a, p[0].to)
    ensures q.Walk(a + p[1..], v)
    ensures q.Length(a + p[1..]) == q.Length(a) + q.Length(p[1..])
    ensures q.Length(p) == q.Cost(p[0].link) + q.Length(p[1..])
    ensures p[0].from == q.src && q.Permitted(p[0])
  {
    WalkIsChain(q, p, v);
    WalkIsChain(q, a, p[0].to);
    JoinedChain(q, p, v, a);
    WalkIsChain(q, a + p[1..], v);
    LengthOfConcat(q, a, p[1..]);
    assert p == [p[0]] + p[1..];
    hide Chain, Query.Walk, Query.Length, Query.Cost, Query.Permitted;
    LengthOfFirst(q, p);
  }

  lemma JoinedChain(q: Query, p: seq<Hop>, v: NodeName, a: seq<Hop>)
    requires Chain(q, p, v) && p != [] && Chain(q, a, p[0].to)
    ensures Chain(q, a + p[1..], v)
  {
    hide Query.Permitted;
    var w := a + p[1..];
    forall i | 0 <= i < |w| ensures q.Permitted(w[i]) {
      assert w[i] == if i < |a| then a[i] else p[i - |a| + 1];
    }
    forall i | 0 < i < |w| ensures w[i].from == w[i - 1].to {
      assert w[i] == if i < |a| then a[i] else p[i - |a| + 1];
      assert w[i - 1] == if i - 1 < |a| then a[i - 1] else p[i - 1 - |a| + 1];
    }
  }

  lemma LengthOfFirst(q: Query, p: seq<Hop>)
    requires p != []
    ensures q.Length(p) == q.Cost(p[0].link) + q.Length(p[1..])
  {
    assert p == [p[0]] + p[1..];
    LengthOfConcat(q, [p[0]], p[1..]);
    assert [p[0]][..0] == [];
  }
}
