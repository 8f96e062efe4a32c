/** Which ops the single-use mode fuses, from the input lists and the outputs alone. */
module SingleUses {
  import opened Engine
  import opened Fusion

  /** The `k`-th input of node `c` is node `i`. */
  ghost predicate Uses(nodes: seq<EngineNode>, i: nat, c: nat, k: nat) {
    c < |nodes| && k < |nodes[c].inputs| && nodes[c].inputs[k] == i
  }

  /** Node `i` occurs once among all inputs of all nodes. */
  ghost predicate OnlyUse(nodes: seq<EngineNode>, i: nat, c: nat, k: nat) {
    Uses(nodes, i, c, k) && forall c': nat, k': nat :: Uses(nodes, i, c', k') ==> c' == c && k' == k
  }

  /** Two ops, the first no output and used once, by the second. */
  ghost predicate MustJoin(g: EngineGraph, i: nat, c: nat) {
    && i < |g.nodes| && c < |g.nodes| && !g.nodes[i].boundary && !g.nodes[c].boundary && i !in g.outputs
    && exists k: nat :: OnlyUse(g.nodes, i, c, k)
  }

  // ---- counting uses ----

  lemma {:induction false} HitAmong(xs: seq<nat>, i: nat, c: nat, m: nat, k: nat)
    requires k < m <= |xs| && xs[k] == i
    ensures |Hits(xs, i, c, m)| >= 1
  {
    assert xs[..m][k] == i;
  }

  lemma {:induction false} TwoHits(xs: seq<nat>, i: nat, c: nat, m: nat, k: nat, l: nat)
    requires k < l < m <= |xs| && xs[k] == i && xs[l] == i
    ensures |Hits(xs, i, c, m)| >= 2
  {
    if l < m - 1 {
      TwoHits(xs, i, c, m - 1, k, l);
    } else {
      HitAmong(xs, i, c, m - 1, k);
    }
  }

  lemma {:induction false} NoHit(xs: seq<nat>, i: nat, c: nat, m: nat)
    requires m <= |xs| && forall l :: 0 <= l < m ==> xs[l] != i
    ensures |Hits(xs, i, c, m)| == 0
  {
    if m > 0 {
      NoHit(xs, i, c, m - 1);
    }
  }

  lemma {:induction false} OneHit(xs: seq<nat>, i: nat, c: nat, m: nat, k: nat)
    requires k < m <= |xs| && xs[k] == i && forall l :: 0 <= l < m && l != k ==> xs[l] != i
    ensures |Hits(xs, i, c, m)| == 1
  {
    if k == m - 1 {
      NoHit(xs, i, c, m - 1);
    } else {
      OneHit(xs, i, c, m - 1, k);
    }
  }

  lemma UseCounted(nodes: seq<EngineNode>, i: nat, n: nat, c: nat, k: nat)
    requires n <= |nodes| && c < n && Uses(nodes, i, c, k)
    ensures |ConsumersTo(nodes, i, n)| >= 1
  {
    ConsumersToMembers(nodes, i, n, c);
  }

  lemma {:induction false} TwoUses(nodes: seq<EngineNode>, i: nat, n: nat, c: nat, k: nat, c': nat, k': nat)
    requires n <= |nodes| && c <= c' < n && Uses(nodes, i, c, k) && Uses(nodes, i, c', k') && (c != c' || k < k')
    ensures |ConsumersTo(nodes, i, n)| >= 2
  {
    var xs := nodes[n - 1].inputs;
    if c' < n - 1 {
      TwoUses(nodes, i, n - 1, c, k, c', k');
    } else if c == c' {
      TwoHits(xs, i, n - 1, |xs|, k, k');
    } else {
      UseCounted(nodes, i, n - 1, c, k);
      HitAmong(xs, i, n - 1, |xs|, k');
    }
  }

  lemma {:induction false} SoleUse(nodes: seq<EngineNode>, i: nat, n: nat, c: nat, k: nat)
    requires n <= |nodes| && OnlyUse(nodes, i, c, k)
    ensures |ConsumersTo(nodes, i, n)| == if c < n then 1 else 0
  {
    if n > 0 {
      SoleUse(nodes, i, n - 1, c, k);
      var xs := nodes[n - 1].inputs;
      assert forall l :: 0 <= l < |xs| && xs[l] == i ==> Uses(nodes, i, n - 1, l);
      if c == n - 1 {
        OneHit(xs, i, n - 1, |xs|, k);
      } else {
        NoHit(xs, i, n - 1, |xs|);
      }
    }
  }

  lemma UseFound(g: EngineGraph, i: nat) returns (c: nat, k: nat)
    requires WellFormed(g) && i < |g.nodes| && |Consumers(g, i)| == 1
    ensures c == Consumers(g, i)[0] && OnlyUse(g.nodes, i, c, k)
  {
    c := Consumers(g, i)[0];
    assert c in Consumers(g, i);
    ConsumersAreUsers(g, i, c);
    k :| 0 <= k < |g.nodes[c].inputs| && g.nodes[c].inputs[k] == i;
    forall c': nat, k': nat | Uses(g.nodes, i, c', k')
      ensures c' == c && k' == k
    {
      if c < c' || (c == c' && k < k') {
        TwoUses(g.nodes, i, |g.nodes|, c, k, c', k');
      } else if c' < c || k' < k {
        TwoUses(g.nodes, i, |g.nodes|, c', k', c, k);
      }
    }
  }

  /** The edges that are united are exactly these. */
  lemma SingleUseMeans(g: EngineGraph, i: nat, c: nat)
    requires WellFormed(g) && i < |g.nodes|
    ensures IsSingleUse(g, i) && Consumers(g, i)[0] == c <==> MustJoin(g, i, c)
  {
    if IsSingleUse(g, i) && Consumers(g, i)[0] == c {
      var c', k := UseFound(g, i);
    }
    if MustJoin(g, i, c) {
      var k: nat :| OnlyUse(g.nodes, i, c, k);
      SoleUse(g.nodes, i, |g.nodes|, c, k);
      ConsumersAreUsers(g, i, c);
    }
  }

  // ---- the partition ----

  /** An op that is no output and is used once, by an op, is fused with that op. */
  lemma SingleUseJoins(g: EngineGraph, i: nat, c: nat)
    requires WellFormed(g) && MustJoin(g, i, c)
    ensures SingleUsePartition(g)[i] == SingleUsePartition(g)[c]
  {
    SingleUseMeans(g, i, c);
    SameSingleUseClass(g, i, c);
  }

  /** A partition that fuses wherever single use asks for it. */
  ghost predicate JoinsSingleUses<C>(g: EngineGraph, part: seq<C>) {
    |part| == |g.nodes| && forall i: nat, c: nat :: MustJoin(g, i, c) ==> part[i] == part[c]
  }

  lemma {:induction false} JoinedToSink<C>(g: EngineGraph, part: seq<C>, i: nat)
    requires WellFormed(g) && JoinsSingleUses(g, part) && i < |g.nodes|
    ensures part[i] == part[Sink(g, i)]
    decreases |g.nodes| - i
  {
    if IsSingleUse(g, i) {
      var c := Consumers(g, i)[0];
      SingleUseMeans(g, i, c);
      assert MustJoin(g, i, c);
      JoinedToSink(g, part, c);
    }
  }

  /** The single-use partition is the finest of these: it fuses nothing else. */
  lemma SingleUseFinest<C>(g: EngineGraph, part: seq<C>, p: nat, q: nat)
    requires WellFormed(g) && JoinsSingleUses(g, part) && p < |g.nodes| && q < |g.nodes|
    requires SingleUsePartition(g)[p] == SingleUsePartition(g)[q]
    ensures part[p] == part[q]
  {
    SameSingleUseClass(g, p, q);
    JoinedToSink(g, part, p);
    JoinedToSink(g, part, q);
  }

  lemma SingleUseJoinsAll(g: EngineGraph)
    requires WellFormed(g)
    ensures JoinsSingleUses(g, SingleUsePartition(g))
  {
    forall i: nat, c: nat | MustJoin(g, i, c)
      ensures SingleUsePartition(g)[i] == SingleUsePartition(g)[c]
    {
      SingleUseJoins(g, i, c);
    }
  }

  // ---- what the two modes are ----

  /** The default mode fuses single uses and nothing else; the maximal mode fuses whatever any valid
      partition fuses. */
  lemma ModesMean<C>(g: EngineGraph, part: seq<C>, p: nat, q: nat)
    requires WellFormed(g) && p < |g.nodes| && q < |g.nodes|
    ensures JoinsSingleUses(g, Partition(g, SingleUse)) && ValidPartition(g, Partition(g, Maximal))
    ensures JoinsSingleUses(g, part) && Partition(g, SingleUse)[p] == Partition(g, SingleUse)[q] ==> part[p] == part[q]
    ensures |part| == |g.nodes| && ValidPartition(g, part) && part[p] == part[q] ==> Partition(g, Maximal)[p] == Partition(g, Maximal)[q]
  {
    SingleUseJoinsAll(g);
    PartitionValid(g, Maximal);
    if JoinsSingleUses(g, part) && SingleUsePartition(g)[p] == SingleUsePartition(g)[q] {
      SingleUseFinest(g, part, p, q);
    }
    if |part| == |g.nodes| && ValidPartition(g, part) && part[p] == part[q] {
      MaximalCoarsest(g, part, p, q);
    }
  }
}
