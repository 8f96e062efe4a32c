/** One graph listed in two orders: what fusion makes of it does not depend on the order.

`p` runs over the positions of the first graph and `f[p]` is the place of the same node in the second,
which may also hold the two operands of a commuting op the other way round. */
module Reordering {
  import opened Selection
  import opened Engine
  import opened Listings
  import opened Fusion

  ghost predicate Onto(f: seq<nat>, n: nat) {
    forall q: nat :: q < n ==> q in f
  }

  ghost predicate Injective(f: seq<nat>) {
    forall p, q :: 0 <= p < |f| && 0 <= q < |f| && f[p] == f[q] ==> p == q
  }

  ghost function Elements(f: seq<nat>): (r: set<nat>)
    ensures forall x: nat :: x in r <==> x in f
  {
    if f == [] then {} else Elements(f[..|f| - 1]) + {f[|f| - 1]}
  }

  ghost function Below(n: nat): (r: set<nat>)
    ensures |r| == n && forall x: nat :: x in r <==> x < n
  {
    if n == 0 then {} else
      assert n - 1 !in Below(n - 1);
      Below(n - 1) + {n - 1}
  }

  lemma {:induction false} InjectiveCount(f: seq<nat>)
    requires Injective(f)
    ensures |Elements(f)| == |f|
  {
    if f != [] {
      var init, last := f[..|f| - 1], f[|f| - 1];
      forall p, q | 0 <= p < |init| && 0 <= q < |init| && init[p] == init[q]
        ensures p == q
      {
        assert f[p] == f[q];
      }
      InjectiveCount(init);
      assert last !in init;
    }
  }

  lemma BijectionLength(f: seq<nat>, n: nat)
    requires Injective(f) && Onto(f, n) && AllBelow(f, n)
    ensures |f| == n
  {
    InjectiveCount(f);
    assert Elements(f) == Below(n);
  }

  ghost predicate SameNode(f: seq<nat>, a: EngineNode, b: EngineNode) {
    && a.token == b.token && a.boundary == b.boundary
    && AllBelow(a.inputs, |f|) && SamePair(Renumber(f, a.inputs), b.inputs)
  }

  ghost predicate Reorders(g: EngineGraph, f: seq<nat>, g': EngineGraph) {
    && WellFormed(g) && WellFormed(g') && |f| == |g.nodes| == |g'.nodes|
    && AllBelow(f, |f|) && Injective(f) && Onto(f, |f|)
    && (forall p {:trigger f[p]} :: 0 <= p < |f| ==> SameNode(f, g.nodes[p], g'.nodes[f[p]]))
    && AllBelow(g.outputs, |f|) && g'.outputs == Renumber(f, g.outputs)
  }

  // ---- users ----

  lemma RenumberMember(f: seq<nat>, xs: seq<nat>, x: nat)
    requires AllBelow(xs, |f|) && Injective(f) && x < |f|
    ensures f[x] in Renumber(f, xs) <==> x in xs
  {
    var ys := Renumber(f, xs);
    if x in xs {
      var k :| 0 <= k < |xs| && xs[k] == x;
      assert ys[k] == f[x];
    }
    if f[x] in ys {
      var k :| 0 <= k < |ys| && ys[k] == f[x];
      assert f[xs[k]] == f[x];
    }
  }

  lemma PairMembers(xs: seq<nat>, ys: seq<nat>)
    requires SamePair(xs, ys)
    ensures multiset(xs) == multiset(ys)
  {
    if xs != ys {
      assert xs == [xs[0], xs[1]];
    }
  }

  lemma UsersMoved(g: EngineGraph, f: seq<nat>, g': EngineGraph, x: nat, c: nat)
    requires Reorders(g, f, g') && x < |f| && c < |f|
    ensures f[x] in g'.nodes[f[c]].inputs <==> x in g.nodes[c].inputs
  {
    var xs, ys := g.nodes[c].inputs, g'.nodes[f[c]].inputs;
    assert SameNode(f, g.nodes[c], g'.nodes[f[c]]);
    RenumberMember(f, xs, x);
    PairMembers(Renumber(f, xs), ys);
    assert f[x] in multiset(ys) <==> f[x] in multiset(Renumber(f, xs));
  }

  lemma OutputsMoved(g: EngineGraph, f: seq<nat>, g': EngineGraph, x: nat)
    requires Reorders(g, f, g') && x < |f|
    ensures f[x] in g'.outputs <==> x in g.outputs
  {
    RenumberMember(f, g.outputs, x);
  }

  /** Consumers of a moved node are the moved consumers. */
  lemma ConsumersMoved(g: EngineGraph, f: seq<nat>, g': EngineGraph, x: nat, c: nat)
    requires Reorders(g, f, g') && x < |f| && c < |f|
    ensures f[c] in Consumers(g', f[x]) <==> c in Consumers(g, x)
  {
    ConsumersAreUsers(g, x, c);
    ConsumersAreUsers(g', f[x], f[c]);
    UsersMoved(g, f, g', x, c);
  }

  /** Every consumer of a moved node is a moved one. */
  lemma ConsumerFrom(g: EngineGraph, f: seq<nat>, g': EngineGraph, x: nat, d: nat) returns (c: nat)
    requires Reorders(g, f, g') && x < |f| && d in Consumers(g', f[x])
    ensures c < |f| && f[c] == d && c in Consumers(g, x)
  {
    ConsumersAreUsers(g', f[x], d);
    assert d in f;
    c :| 0 <= c < |f| && f[c] == d;
    ConsumersMoved(g, f, g', x, c);
  }

  // ---- maximal fusion ----

  /** An op that may join: no output, used, and by ops only. */
  ghost predicate Joins(g: EngineGraph, i: nat)
    requires WellFormed(g) && i < |g.nodes|
  {
    && !g.nodes[i].boundary && i !in g.outputs && Consumers(g, i) != []
    && forall c :: c in Consumers(g, i) ==> c < |g.nodes| && !g.nodes[c].boundary
  }

  ghost predicate AllIn(g: EngineGraph, i: nat, v: nat)
    requires WellFormed(g) && i < |g.nodes|
  {
    forall c :: c in Consumers(g, i) ==> i < c < |g.nodes| && MaximalComp(g, c) == v
  }

  lemma MaximalByConsumers(g: EngineGraph, i: nat, c: nat)
    requires WellFormed(g) && i < |g.nodes| && c in Consumers(g, i)
    ensures i < c < |g.nodes|
    ensures MaximalComp(g, i) == if Joins(g, i) && AllIn(g, i, MaximalComp(g, c)) then MaximalComp(g, c) else i
  {
    var cs := Consumers(g, i);
    var k :| 0 <= k < |cs| && cs[k] == c;
    if Joins(g, i) {
      assert forall l :: 0 <= l < |cs| ==> cs[l] in cs && !g.nodes[cs[l]].boundary;
      if AllIn(g, i, MaximalComp(g, c)) {
        assert forall l :: 0 <= l < |cs| ==> cs[l] in cs && MaximalComp(g, cs[l]) == MaximalComp(g, c);
      } else {
        var d :| d in cs && MaximalComp(g, d) != MaximalComp(g, c);
        var l :| 0 <= l < |cs| && cs[l] == d;
        assert MaximalComp(g, cs[l]) != MaximalComp(g, cs[k]);
      }
    } else if !g.nodes[i].boundary && i !in g.outputs {
      var d :| d in cs && g.nodes[d].boundary;
      var l :| 0 <= l < |cs| && cs[l] == d;
      assert g.nodes[cs[l]].boundary;
    }
  }

  lemma JoinsMoved(g: EngineGraph, f: seq<nat>, g': EngineGraph, x: nat)
    requires Reorders(g, f, g') && x < |f|
    ensures Joins(g', f[x]) <==> Joins(g, x)
  {
    assert SameNode(f, g.nodes[x], g'.nodes[f[x]]);
    OutputsMoved(g, f, g', x);
    if Consumers(g, x) != [] {
      var c := Consumers(g, x)[0];
      assert c in Consumers(g, x);
      ConsumersMoved(g, f, g', x, c);
    }
    if Consumers(g', f[x]) != [] {
      var d := Consumers(g', f[x])[0];
      assert d in Consumers(g', f[x]);
      var c := ConsumerFrom(g, f, g', x, d);
    }
    forall c | c in Consumers(g, x)
      ensures c < |f| && f[c] in Consumers(g', f[x]) && g'.nodes[f[c]].boundary == g.nodes[c].boundary
    {
      ConsumersAreUsers(g, x, c);
      ConsumersMoved(g, f, g', x, c);
      assert SameNode(f, g.nodes[c], g'.nodes[f[c]]);
    }
    forall d | d in Consumers(g', f[x])
      ensures d < |g'.nodes| && exists c :: c in Consumers(g, x) && c < |f| && f[c] == d
    {
      var c := ConsumerFrom(g, f, g', x, d);
    }
  }

  /** The last member of the maximal class is moved along. */
  lemma {:induction false} MaximalMoved(g: EngineGraph, f: seq<nat>, g': EngineGraph, x: nat)
    requires Reorders(g, f, g') && x < |f|
    ensures MaximalComp(g', f[x]) == f[MaximalComp(g, x)]
    decreases |f| - x
  {
    JoinsMoved(g, f, g', x);
    if Consumers(g, x) == [] {
      if Consumers(g', f[x]) != [] {
        assert Consumers(g', f[x])[0] in Consumers(g', f[x]);
        var c := ConsumerFrom(g, f, g', x, Consumers(g', f[x])[0]);
      }
    } else {
      var c := Consumers(g, x)[0];
      assert c in Consumers(g, x);
      MaximalByConsumers(g, x, c);
      ConsumersMoved(g, f, g', x, c);
      MaximalByConsumers(g', f[x], f[c]);
      forall d | d in Consumers(g, x)
        ensures x < d < |f| && f[d] in Consumers(g', f[x]) && MaximalComp(g', f[d]) == f[MaximalComp(g, d)]
      {
        MaximalByConsumers(g, x, d);
        ConsumersMoved(g, f, g', x, d);
        MaximalMoved(g, f, g', d);
      }
      AllInMoved(g, f, g', x, MaximalComp(g, c));
    }
  }

  lemma AllInMoved(g: EngineGraph, f: seq<nat>, g': EngineGraph, x: nat, v: nat)
    requires Reorders(g, f, g') && x < |f| && v < |f|
    requires forall d :: d in Consumers(g, x) ==>
      x < d < |f| && f[d] in Consumers(g', f[x]) && MaximalComp(g', f[d]) == f[MaximalComp(g, d)]
    ensures AllIn(g', f[x], f[v]) <==> AllIn(g, x, v)
  {
    if AllIn(g, x, v) {
      forall e | e in Consumers(g', f[x])
        ensures f[x] < e < |g'.nodes| && MaximalComp(g', e) == f[v]
      {
        MaximalByConsumers(g', f[x], e);
        var d := ConsumerFrom(g, f, g', x, e);
      }
    }
    if AllIn(g', f[x], f[v]) {
      forall d | d in Consumers(g, x)
        ensures MaximalComp(g, d) == v
      {
        assert f[d] in Consumers(g', f[x]);
      }
    }
  }

  // ---- single-use fusion ----

  lemma {:induction false} HitsCount(xs: seq<nat>, i: nat, k: nat, m: nat)
    requires m <= |xs|
    ensures |Hits(xs, i, k, m)| == multiset(xs[..m])[i]
  {
    if m == 0 {
      assert xs[..0] == [];
    } else {
      HitsCount(xs, i, k, m - 1);
      assert xs[..m] == xs[..m - 1] + [xs[m - 1]];
    }
  }

  /** `c` is the one user of `i` and uses it once. */
  ghost predicate OnlyUser(nodes: seq<EngineNode>, i: nat, n: nat, c: nat)
    requires n <= |nodes|
  {
    && c < n && multiset(nodes[c].inputs)[i] == 1
    && forall d :: 0 <= d < n && i in nodes[d].inputs ==> d == c
  }

  lemma {:induction false} OnlyUserCounted(nodes: seq<EngineNode>, i: nat, n: nat, c: nat)
    requires n <= |nodes| && c < |nodes|
    requires forall d :: 0 <= d < n && i in nodes[d].inputs ==> d == c
    ensures |ConsumersTo(nodes, i, n)| == if c < n then multiset(nodes[c].inputs)[i] else 0
  {
    if n > 0 {
      OnlyUserCounted(nodes, i, n - 1, c);
      var xs := nodes[n - 1].inputs;
      HitsCount(xs, i, n - 1, |xs|);
      assert xs[..|xs|] == xs;
      if n - 1 != c {
        assert i !in xs;
        assert i !in multiset(xs);
      }
    }
  }

  lemma OneConsumer(g: EngineGraph, i: nat, c: nat)
    requires WellFormed(g) && i < |g.nodes|
    ensures Consumers(g, i) == [c] <==> OnlyUser(g.nodes, i, |g.nodes|, c)
  {
    var cs := Consumers(g, i);
    if cs == [c] {
      ConsumersAreUsers(g, i, c);
      forall d | 0 <= d < |g.nodes| && i in g.nodes[d].inputs
        ensures d == c
      {
        ConsumersAreUsers(g, i, d);
      }
      OnlyUserCounted(g.nodes, i, |g.nodes|, c);
    }
    if OnlyUser(g.nodes, i, |g.nodes|, c) {
      OnlyUserCounted(g.nodes, i, |g.nodes|, c);
      ConsumersAreUsers(g, i, cs[0]);
      assert cs[0] in cs;
    }
  }

  lemma {:induction false} RenumberCount(f: seq<nat>, xs: seq<nat>, x: nat)
    requires AllBelow(xs, |f|) && Injective(f) && x < |f|
    ensures multiset(Renumber(f, xs))[f[x]] == multiset(xs)[x]
  {
    if xs != [] {
      var init, last := xs[..|xs| - 1], xs[|xs| - 1];
      assert xs == init + [last];
      RenumberCount(f, init, x);
      assert Renumber(f, xs) == Renumber(f, init) + [f[last]];
    }
  }

  lemma OnlyUserMoved(g: EngineGraph, f: seq<nat>, g': EngineGraph, x: nat, c: nat)
    requires Reorders(g, f, g') && x < |f| && c < |f|
    ensures OnlyUser(g'.nodes, f[x], |f|, f[c]) <==> OnlyUser(g.nodes, x, |f|, c)
  {
    var xs, ys := g.nodes[c].inputs, g'.nodes[f[c]].inputs;
    assert SameNode(f, g.nodes[c], g'.nodes[f[c]]);
    RenumberCount(f, xs, x);
    PairMembers(Renumber(f, xs), ys);
    if OnlyUser(g.nodes, x, |f|, c) {
      forall e | 0 <= e < |f| && f[x] in g'.nodes[e].inputs
        ensures e == f[c]
      {
        assert e in f;
        var d :| 0 <= d < |f| && f[d] == e;
        UsersMoved(g, f, g', x, d);
      }
    }
    if OnlyUser(g'.nodes, f[x], |f|, f[c]) {
      forall d | 0 <= d < |f| && x in g.nodes[d].inputs
        ensures d == c
      {
        UsersMoved(g, f, g', x, d);
      }
    }
  }

  /** The one consumer is moved along, or there is none on either side. */
  lemma SingleUseMoved(g: EngineGraph, f: seq<nat>, g': EngineGraph, x: nat)
    requires Reorders(g, f, g') && x < |f|
    ensures IsSingleUse(g', f[x]) <==> IsSingleUse(g, x)
    ensures IsSingleUse(g, x) ==> Consumers(g, x)[0] < |f| && Consumers(g', f[x])[0] == f[Consumers(g, x)[0]]
  {
    assert SameNode(f, g.nodes[x], g'.nodes[f[x]]);
    OutputsMoved(g, f, g', x);
    if |Consumers(g, x)| == 1 {
      var c := Consumers(g, x)[0];
      OneConsumer(g, x, c);
      OnlyUserMoved(g, f, g', x, c);
      OneConsumer(g', f[x], f[c]);
      assert SameNode(f, g.nodes[c], g'.nodes[f[c]]);
    }
    if |Consumers(g', f[x])| == 1 {
      var d := Consumers(g', f[x])[0];
      assert d in Consumers(g', f[x]);
      var c := ConsumerFrom(g, f, g', x, d);
      OneConsumer(g', f[x], f[c]);
      OnlyUserMoved(g, f, g', x, c);
      OneConsumer(g, x, c);
      assert SameNode(f, g.nodes[c], g'.nodes[f[c]]);
    }
  }

  lemma {:induction false} SinkMoved(g: EngineGraph, f: seq<nat>, g': EngineGraph, x: nat)
    requires Reorders(g, f, g') && x < |f|
    ensures Sink(g', f[x]) == f[Sink(g, x)]
    decreases |f| - x
  {
    SingleUseMoved(g, f, g', x);
    if IsSingleUse(g, x) {
      SinkMoved(g, f, g', Consumers(g, x)[0]);
    }
  }

  // ---- either partition ----

  /** The last member of the class of a node. */
  ghost function Head(g: EngineGraph, mode: FusionMode, i: nat): (h: nat)
    requires WellFormed(g) && i < |g.nodes|
    ensures i <= h < |g.nodes|
  {
    match mode case SingleUse => Sink(g, i) case Maximal => MaximalComp(g, i)
  }

  lemma HeadsDecide(g: EngineGraph, mode: FusionMode, i: nat, j: nat)
    requires WellFormed(g) && i < |g.nodes| && j < |g.nodes|
    ensures Partition(g, mode)[i] == Partition(g, mode)[j] <==> Head(g, mode, i) == Head(g, mode, j)
    ensures Head(g, mode, Head(g, mode, i)) == Head(g, mode, i)
  {
    match mode
    case SingleUse => SameSingleUseClass(g, i, j);
    case Maximal => MaximalCompFacts(g, i);
  }

  lemma HeadIsLast(g: EngineGraph, mode: FusionMode, i: nat)
    requires WellFormed(g) && i < |g.nodes|
    ensures LastOf(Partition(g, mode), i) == Head(g, mode, i)
  {
    var part, h := Partition(g, mode), Head(g, mode, i);
    HeadsDecide(g, mode, h, i);
    HeadsDecide(g, mode, i, h);
    forall j | h < j < |part|
      ensures part[j] != part[h]
    {
      HeadsDecide(g, mode, j, h);
    }
    LastOfUnique(part, i, h);
  }

  /** Two partitions put the same nodes together and end their classes with the same nodes. */
  ghost predicate PartsMatch(part: seq<nat>, f: seq<nat>, part': seq<nat>) {
    && |part| == |f| == |part'| && AllBelow(f, |f|) && Injective(f) && Onto(f, |f|)
    && (forall p, q :: 0 <= p < |f| && 0 <= q < |f| ==> (part[p] == part[q] <==> part'[f[p]] == part'[f[q]]))
    && (forall p {:trigger LastOf(part, p)} :: 0 <= p < |f| ==> LastOf(part', f[p]) == f[LastOf(part, p)])
  }

  lemma HeadMoved(g: EngineGraph, f: seq<nat>, g': EngineGraph, mode: FusionMode, x: nat)
    requires Reorders(g, f, g') && x < |f|
    ensures Head(g', mode, f[x]) == f[Head(g, mode, x)]
  {
    match mode
    case SingleUse => SinkMoved(g, f, g', x);
    case Maximal => MaximalMoved(g, f, g', x);
  }

  /** Both fusion algorithms make the same classes whatever order the graph is listed in. */
  lemma PartitionMoved(g: EngineGraph, f: seq<nat>, g': EngineGraph, mode: FusionMode)
    requires Reorders(g, f, g')
    ensures PartsMatch(Partition(g, mode), f, Partition(g', mode))
  {
    forall p | 0 <= p < |f|
      ensures Head(g', mode, f[p]) == f[Head(g, mode, p)]
      ensures LastOf(Partition(g', mode), f[p]) == f[LastOf(Partition(g, mode), p)]
    {
      HeadMoved(g, f, g', mode, p);
      HeadIsLast(g, mode, p);
      HeadIsLast(g', mode, f[p]);
    }
    forall p, q | 0 <= p < |f| && 0 <= q < |f|
      ensures Partition(g, mode)[p] == Partition(g, mode)[q] <==> Partition(g', mode)[f[p]] == Partition(g', mode)[f[q]]
    {
      HeadsDecide(g, mode, p, q);
      HeadsDecide(g', mode, f[p], f[q]);
    }
  }
}
