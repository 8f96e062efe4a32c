/** Which ops fuse: the two partitions of a graph into stages, and why the maximal one is optimal. */
module Fusion {
  import opened Selection
  import opened Engine
  import opened UnionFind

  datatype FusionMode = SingleUse | Maximal

  // ---- consumers ----

  /** `k` once for every occurrence of `i` among the first `m` inputs. */
  ghost function Hits(xs: seq<nat>, i: nat, k: nat, m: nat): (r: seq<nat>)
    requires m <= |xs|
    ensures forall l :: 0 <= l < |r| ==> r[l] == k
    ensures r != [] <==> i in xs[..m]
  {
    if m == 0 then [] else
      assert xs[..m] == xs[..m - 1] + [xs[m - 1]];
      Hits(xs, i, k, m - 1) + if xs[m - 1] == i then [k] else []
  }

  /** The uses of `i` by the first `n` nodes, in order, one per use. */
  ghost function ConsumersTo(nodes: seq<EngineNode>, i: nat, n: nat): (r: seq<nat>)
    requires n <= |nodes|
  {
    if n == 0 then [] else ConsumersTo(nodes, i, n - 1) + Hits(nodes[n - 1].inputs, i, n - 1, |nodes[n - 1].inputs|)
  }

  lemma HitsMember(xs: seq<nat>, i: nat, k: nat, c: nat)
    ensures c in Hits(xs, i, k, |xs|) <==> c == k && i in xs
  {
    var h := Hits(xs, i, k, |xs|);
    assert xs[..|xs|] == xs;
    assert h != [] ==> h[0] == k;
  }

  lemma {:induction false} ConsumersToMembers(nodes: seq<EngineNode>, i: nat, n: nat, c: nat)
    requires n <= |nodes|
    ensures c in ConsumersTo(nodes, i, n) <==> c < n && i in nodes[c].inputs
  {
    if n > 0 {
      ConsumersToMembers(nodes, i, n - 1, c);
      HitsMember(nodes[n - 1].inputs, i, n - 1, c);
    }
  }

  ghost function Consumers(g: EngineGraph, i: nat): (r: seq<nat>)
    requires WellFormed(g) && i < |g.nodes|
    ensures forall k :: 0 <= k < |r| ==> i < r[k] < |g.nodes|
  {
    var r := ConsumersTo(g.nodes, i, |g.nodes|);
    assert forall k :: 0 <= k < |r| ==> i < r[k] < |g.nodes| by {
      forall k | 0 <= k < |r|
        ensures i < r[k] < |g.nodes|
      {
        assert r[k] in r;
        ConsumersToMembers(g.nodes, i, |g.nodes|, r[k]);
        assert AllBelow(CellsOf(g)[r[k]].inputs, r[k]);
      }
    }
    r
  }

  /** The consumers of a node are exactly the nodes that take it as an input. */
  lemma ConsumersAreUsers(g: EngineGraph, i: nat, c: nat)
    requires WellFormed(g) && i < |g.nodes|
    ensures c in Consumers(g, i) <==> c < |g.nodes| && i in g.nodes[c].inputs
  {
    ConsumersToMembers(g.nodes, i, |g.nodes|, c);
  }

  ghost predicate AreConsumers(g: EngineGraph, consumers: seq<seq<nat>>)
    requires WellFormed(g)
  {
    |consumers| == |g.nodes|
    && forall x {:trigger consumers[x]} :: 0 <= x < |g.nodes| ==> consumers[x] == Consumers(g, x)
  }

  ghost predicate AreOutputFlags(g: EngineGraph, isOutput: seq<bool>) {
    |isOutput| == |g.nodes| && forall i {:trigger isOutput[i]} :: 0 <= i < |g.nodes| ==> (isOutput[i] <==> i in g.outputs)
  }

  /** The consumer lists once the first `k` uses by node `i` are recorded. */
  ghost predicate UsesRecorded(before: seq<seq<nat>>, consumers: seq<seq<nat>>, inputs: seq<nat>, i: nat, k: nat)
    requires k <= |inputs|
  {
    |consumers| == |before|
    && forall x {:trigger consumers[x]} :: 0 <= x < |before| ==> consumers[x] == before[x] + Hits(inputs, x, i, k)
  }

  lemma UseRecorded(before: seq<seq<nat>>, consumers: seq<seq<nat>>, inputs: seq<nat>, i: nat, k: nat)
    requires k < |inputs| && inputs[k] < |before| && UsesRecorded(before, consumers, inputs, i, k)
    ensures UsesRecorded(before, consumers[inputs[k] := consumers[inputs[k]] + [i]], inputs, i, k + 1)
  {
    var c := consumers[inputs[k] := consumers[inputs[k]] + [i]];
    forall x | 0 <= x < |before|
      ensures c[x] == before[x] + Hits(inputs, x, i, k + 1)
    {
      assert consumers[x] == before[x] + Hits(inputs, x, i, k);
      if x != inputs[k] {
        assert Hits(inputs, x, i, k + 1) == Hits(inputs, x, i, k);
      }
    }
  }

  /** Record node `i` as a consumer, once per use. */
  method AddUses(before: seq<seq<nat>>, inputs: seq<nat>, i: nat) returns (consumers: seq<seq<nat>>)
    requires AllBelow(inputs, |before|)
    ensures UsesRecorded(before, consumers, inputs, i, |inputs|)
  {
    consumers := before;
    assert forall x :: 0 <= x < |before| ==> before[x] + Hits(inputs, x, i, 0) == before[x];
    for k := 0 to |inputs|
      invariant UsesRecorded(before, consumers, inputs, i, k)
    {
      UseRecorded(before, consumers, inputs, i, k);
      consumers := consumers[inputs[k] := consumers[inputs[k]] + [i]];
    }
  }

  ghost predicate ConsumersCollected(g: EngineGraph, consumers: seq<seq<nat>>, i: nat)
    requires i <= |g.nodes|
  {
    |consumers| == |g.nodes|
    && forall x {:trigger consumers[x]} :: 0 <= x < |g.nodes| ==> consumers[x] == ConsumersTo(g.nodes, x, i)
  }

  lemma NodeCollected(g: EngineGraph, before: seq<seq<nat>>, after: seq<seq<nat>>, i: nat)
    requires i < |g.nodes| && ConsumersCollected(g, before, i)
    requires UsesRecorded(before, after, g.nodes[i].inputs, i, |g.nodes[i].inputs|)
    ensures ConsumersCollected(g, after, i + 1)
  {
    forall x | 0 <= x < |g.nodes|
      ensures after[x] == ConsumersTo(g.nodes, x, i + 1)
    {
      assert before[x] == ConsumersTo(g.nodes, x, i);
    }
  }

  /** One pass over all inputs collects every consumer list. */
  method CollectConsumers(g: EngineGraph) returns (consumers: seq<seq<nat>>)
    requires WellFormed(g)
    ensures AreConsumers(g, consumers)
  {
    var n := |g.nodes|;
    consumers := seq(n, _ => []);
    for i := 0 to n
      invariant ConsumersCollected(g, consumers, i)
    {
      assert AllBelow(CellsOf(g)[i].inputs, i);
      var after := AddUses(consumers, g.nodes[i].inputs, i);
      NodeCollected(g, consumers, after, i);
      consumers := after;
    }
  }

  /** Mark the outputs in a list of flags. */
  method MarkOutputs(g: EngineGraph) returns (isOutput: seq<bool>)
    requires WellFormed(g)
    ensures AreOutputFlags(g, isOutput)
  {
    isOutput := seq(|g.nodes|, _ => false);
    for k := 0 to |g.outputs|
      invariant |isOutput| == |g.nodes|
      invariant forall i {:trigger isOutput[i]} :: 0 <= i < |g.nodes| ==> (isOutput[i] <==> i in g.outputs[..k])
    {
      assert g.outputs[..k + 1] == g.outputs[..k] + [g.outputs[k]];
      isOutput := isOutput[g.outputs[k] := true];
    }
    assert g.outputs[..|g.outputs|] == g.outputs;
  }

  // ---- partitions ----

  /** A node may sit before the end of its class: it is not an output, it is used, and every use is
      inside the class. */
  ghost predicate Enclosed<C>(g: EngineGraph, part: seq<C>, i: nat)
    requires WellFormed(g) && |part| == |g.nodes| && i < |g.nodes|
  {
    i !in g.outputs && Consumers(g, i) != []
    && forall k :: 0 <= k < |Consumers(g, i)| ==> part[Consumers(g, i)[k]] == part[i]
  }

  /** Boundaries stand alone and every member but the last of a class is enclosed. */
  ghost predicate ValidPartition<C>(g: EngineGraph, part: seq<C>)
    requires WellFormed(g)
  {
    && |part| == |g.nodes|
    && (forall i, j :: 0 <= i < |part| && 0 <= j < |part| && part[i] == part[j] && g.nodes[i].boundary ==> i == j)
    && (forall i, j :: 0 <= i < j < |part| && part[i] == part[j] ==> Enclosed(g, part, i))
  }

  /** Each class is named by one of its members. */
  ghost predicate Named(part: seq<nat>) {
    forall i :: 0 <= i < |part| ==> part[i] < |part| && part[part[i]] == part[i]
  }

  ghost predicate IsLast<C>(part: seq<C>, i: nat)
    requires i < |part|
  {
    forall j :: i < j < |part| ==> part[j] != part[i]
  }

  ghost function LastMask<C>(part: seq<C>): (mask: seq<bool>)
    ensures |mask| == |part|
    ensures forall i {:trigger mask[i]} :: 0 <= i < |part| ==> mask[i] == IsLast(part, i)
  {
    seq(|part|, i requires 0 <= i < |part| => IsLast(part, i))
  }

  /** The last member of the class of `i`. */
  ghost function LastOf<C>(part: seq<C>, i: nat): (l: nat)
    requires i < |part|
    ensures i <= l < |part| && part[l] == part[i] && IsLast(part, l)
    decreases |part| - i
  {
    if IsLast(part, i) then i else
      var j :| i < j < |part| && part[j] == part[i];
      LastOf(part, j)
  }

  lemma LastOfUnique<C>(part: seq<C>, i: nat, j: nat)
    requires i < |part| && j < |part|
    ensures LastOf(part, i) == LastOf(part, j) <==> part[i] == part[j]
    ensures part[i] == part[j] && IsLast(part, j) ==> LastOf(part, i) == j
  {
    var a, b := LastOf(part, i), LastOf(part, j);
    if part[i] == part[j] {
      assert part[a] == part[b];
      assert !(a < b) && !(b < a);
      if IsLast(part, j) {
        assert !(j < b);
      }
    }
  }

  lemma LastOrEnclosed<C>(g: EngineGraph, part: seq<C>, i: nat)
    requires WellFormed(g) && ValidPartition(g, part) && i < |g.nodes|
    ensures IsLast(part, i) || Enclosed(g, part, i)
  {
    if j :| i < j < |part| && part[j] == part[i] {
      assert Enclosed(g, part, i);
    }
  }

  /** Every edge leaving a class starts at its last member. */
  lemma EdgesLeaveFromLast<C>(g: EngineGraph, part: seq<C>, i: nat, x: nat)
    requires WellFormed(g) && ValidPartition(g, part)
    requires i < |g.nodes| && x in g.nodes[i].inputs
    ensures x < i
    ensures part[x] != part[i] ==> IsLast(part, x)
  {
    assert AllBelow(CellsOf(g)[i].inputs, i);
    ConsumersAreUsers(g, x, i);
    var k :| 0 <= k < |Consumers(g, x)| && Consumers(g, x)[k] == i;
    LastOrEnclosed(g, part, x);
  }

  /** Outputs are the last members of their classes. */
  lemma OutputsAreLast<C>(g: EngineGraph, part: seq<C>, o: nat)
    requires WellFormed(g) && ValidPartition(g, part)
    requires o < |g.nodes| && o in g.outputs
    ensures IsLast(part, o)
  {
    LastOrEnclosed(g, part, o);
  }

  // ---- maximal fusion ----

  /** An op joins its consumers' class when it is no output, is used, feeds no boundary, and all its
      consumers share one class. */
  ghost function MaximalComp(g: EngineGraph, i: nat): (c: nat)
    requires WellFormed(g) && i < |g.nodes|
    ensures i <= c < |g.nodes|
    decreases |g.nodes| - i
  {
    var cs := Consumers(g, i);
    if g.nodes[i].boundary || i in g.outputs || cs == [] then i
    else if exists k :: 0 <= k < |cs| && g.nodes[cs[k]].boundary then i
    else if forall k :: 0 <= k < |cs| ==> MaximalComp(g, cs[k]) == MaximalComp(g, cs[0]) then MaximalComp(g, cs[0])
    else i
  }

  ghost function MaximalPartition(g: EngineGraph): (part: seq<nat>)
    requires WellFormed(g)
    ensures |part| == |g.nodes|
    ensures forall i {:trigger part[i]} :: 0 <= i < |part| ==> part[i] == MaximalComp(g, i)
  {
    seq(|g.nodes|, i requires 0 <= i < |g.nodes| => MaximalComp(g, i))
  }

  /** The class name is its own class, and a node is either its own class or enclosed. */
  lemma {:induction false} MaximalCompFacts(g: EngineGraph, i: nat)
    requires WellFormed(g) && i < |g.nodes|
    ensures MaximalComp(g, MaximalComp(g, i)) == MaximalComp(g, i)
    ensures MaximalComp(g, i) != i ==> !g.nodes[i].boundary && !g.nodes[MaximalComp(g, i)].boundary
    ensures MaximalComp(g, i) != i ==> Enclosed(g, MaximalPartition(g), i)
    decreases |g.nodes| - i
  {
    if MaximalComp(g, i) != i {
      var cs := Consumers(g, i);
      MaximalCompFacts(g, cs[0]);
    }
  }

  lemma MaximalValid(g: EngineGraph)
    requires WellFormed(g)
    ensures ValidPartition(g, MaximalPartition(g)) && Named(MaximalPartition(g))
  {
    var part := MaximalPartition(g);
    forall i, j | 0 <= i < |part| && 0 <= j < |part| && part[i] == part[j] && g.nodes[i].boundary
      ensures i == j
    {
      MaximalCompFacts(g, i);
      MaximalCompFacts(g, j);
    }
    forall i, j | 0 <= i < j < |part| && part[i] == part[j]
      ensures Enclosed(g, part, i)
    {
      MaximalCompFacts(g, i);
    }
    forall i | 0 <= i < |part|
      ensures part[i] < |part| && part[part[i]] == part[i]
    {
      MaximalCompFacts(g, i);
    }
  }

  lemma {:induction false} RefinesToLast<C>(g: EngineGraph, part: seq<C>, i: nat)
    requires WellFormed(g) && ValidPartition(g, part) && i < |g.nodes|
    ensures MaximalComp(g, i) == MaximalComp(g, LastOf(part, i))
    decreases |g.nodes| - i
  {
    if !IsLast(part, i) {
      var l, cs := LastOf(part, i), Consumers(g, i);
      assert Enclosed(g, part, i);
      forall k | 0 <= k < |cs|
        ensures MaximalComp(g, cs[k]) == MaximalComp(g, l) && !g.nodes[cs[k]].boundary
      {
        RefinesToLast(g, part, cs[k]);
        LastOfUnique(part, i, cs[k]);
      }
    }
  }

  /** Maximal fusion is the coarsest valid partition: every valid partition refines it. */
  lemma MaximalCoarsest<C>(g: EngineGraph, part: seq<C>, i: nat, j: nat)
    requires WellFormed(g) && ValidPartition(g, part)
    requires i < |g.nodes| && j < |g.nodes| && part[i] == part[j]
    ensures MaximalPartition(g)[i] == MaximalPartition(g)[j]
  {
    RefinesToLast(g, part, i);
    RefinesToLast(g, part, j);
    LastOfUnique(part, i, j);
  }

  /** A kept position of one mask is kept by the other: the first counts no more. */
  lemma {:induction false} RankSubset(mask: seq<bool>, mask': seq<bool>, k: nat)
    requires |mask| == |mask'| && k <= |mask|
    requires forall i :: 0 <= i < |mask| && mask[i] ==> mask'[i]
    ensures Rank(mask, k) <= Rank(mask', k)
  {
    if k > 0 {
      RankSubset(mask, mask', k - 1);
    }
  }

  ghost function StageMask<C>(g: EngineGraph, part: seq<C>): (mask: seq<bool>)
    requires |part| == |g.nodes|
    ensures |mask| == |part|
    ensures forall i {:trigger mask[i]} :: 0 <= i < |part| ==> mask[i] == (IsLast(part, i) && !g.nodes[i].boundary)
  {
    seq(|part|, i requires 0 <= i < |part| => IsLast(part, i) && !g.nodes[i].boundary)
  }

  /** The number of classes made of ops: one stage each. */
  ghost function StageCount<C>(g: EngineGraph, part: seq<C>): nat
    requires |part| == |g.nodes|
  {
    Rank(StageMask(g, part), |part|)
  }

  ghost function BoundaryMask<C>(g: EngineGraph, part: seq<C>): (mask: seq<bool>)
    requires |part| == |g.nodes|
    ensures |mask| == |part|
    ensures forall i {:trigger mask[i]} :: 0 <= i < |part| ==> mask[i] == (IsLast(part, i) && g.nodes[i].boundary)
  {
    seq(|part|, i requires 0 <= i < |part| => IsLast(part, i) && g.nodes[i].boundary)
  }

  /** The number of classes made of a boundary. */
  ghost function BoundaryCount<C>(g: EngineGraph, part: seq<C>): nat
    requires |part| == |g.nodes|
  {
    Rank(BoundaryMask(g, part), |part|)
  }

  /** Every class is one or the other. */
  lemma {:induction false} CountsAddUp<C>(g: EngineGraph, part: seq<C>, n: nat)
    requires |part| == |g.nodes| && n <= |part|
    ensures Rank(StageMask(g, part), n) + Rank(BoundaryMask(g, part), n) == Rank(LastMask(part), n)
  {
    if n > 0 {
      CountsAddUp(g, part, n - 1);
    }
  }

  /** Maximal fusion needs the fewest stages of all valid partitions. */
  lemma MaximalFewestStages<C>(g: EngineGraph, part: seq<C>)
    requires WellFormed(g) && ValidPartition(g, part)
    ensures StageCount(g, MaximalPartition(g)) <= StageCount(g, part)
  {
    var best := MaximalPartition(g);
    forall i | 0 <= i < |part| && StageMask(g, best)[i]
      ensures StageMask(g, part)[i]
    {
      forall j | i < j < |part| && part[j] == part[i]
        ensures best[j] == best[i]
      {
        MaximalCoarsest(g, part, i, j);
      }
    }
    RankSubset(StageMask(g, best), StageMask(g, part), |part|);
  }

  /** The descending pass: every consumer's class is final when a node is visited. */
  method MaximalComps(g: EngineGraph, consumers: seq<seq<nat>>, isOutput: seq<bool>) returns (comp: seq<nat>)
    requires WellFormed(g) && AreConsumers(g, consumers) && AreOutputFlags(g, isOutput)
    ensures comp == MaximalPartition(g)
  {
    var n := |g.nodes|;
    comp := seq(n, i => i);
    for i := n downto 0
      invariant |comp| == n
      invariant forall j {:trigger comp[j]} :: 0 <= j < n ==> comp[j] == if j < i then j else MaximalComp(g, j)
    {
      var cs := consumers[i];
      if g.nodes[i].boundary || isOutput[i] || cs == [] {
        continue;
      }
      if exists k :: 0 <= k < |cs| && g.nodes[cs[k]].boundary {
        continue;
      }
      var c0 := comp[cs[0]];
      if forall k :: 0 <= k < |cs| ==> comp[cs[k]] == c0 {
        comp := comp[i := c0];
      }
    }
  }

  // ---- single-use fusion ----

  /** The only use of the op is one input of one other op, and it is no output. */
  ghost predicate IsSingleUse(g: EngineGraph, i: nat)
    requires WellFormed(g) && i < |g.nodes|
  {
    !g.nodes[i].boundary && |Consumers(g, i)| == 1 && i !in g.outputs && !g.nodes[Consumers(g, i)[0]].boundary
  }

  /** Where the chain of single uses from `i` ends. */
  ghost function Sink(g: EngineGraph, i: nat): (s: nat)
    requires WellFormed(g) && i < |g.nodes|
    ensures i <= s < |g.nodes| && !IsSingleUse(g, s)
    ensures g.nodes[s].boundary == g.nodes[i].boundary
    ensures Sink(g, s) == s
    decreases |g.nodes| - i
  {
    if IsSingleUse(g, i) then Sink(g, Consumers(g, i)[0]) else i
  }

  ghost function Sinks(g: EngineGraph): (r: seq<nat>)
    requires WellFormed(g)
    ensures |r| == |g.nodes|
    ensures forall i {:trigger r[i]} :: 0 <= i < |r| ==> r[i] == Sink(g, i)
  {
    seq(|g.nodes|, i requires 0 <= i < |g.nodes| => Sink(g, i))
  }

  /** The edges along which single-use ops are united, for the first `n` nodes. */
  ghost function SingleUseEdges(g: EngineGraph, n: nat): seq<(nat, nat)>
    requires WellFormed(g) && n <= |g.nodes|
  {
    if n == 0 then [] else
      SingleUseEdges(g, n - 1) + if IsSingleUse(g, n - 1) then [(n - 1, Consumers(g, n - 1)[0])] else []
  }

  lemma {:induction false} EdgesAre(g: EngineGraph, n: nat, a: nat, b: nat)
    requires WellFormed(g) && n <= |g.nodes|
    ensures (a, b) in SingleUseEdges(g, n) <==> a < n && IsSingleUse(g, a) && b == Consumers(g, a)[0]
  {
    if n > 0 {
      EdgesAre(g, n - 1, a, b);
    }
  }

  lemma {:induction false} WalkKeepsSink(g: EngineGraph, w: seq<nat>, i: nat, j: nat)
    requires WellFormed(g) && i < |g.nodes| && j < |g.nodes|
    requires IsWalk(SingleUseEdges(g, |g.nodes|), w, i, j)
    ensures Sink(g, i) == Sink(g, j)
    decreases |w|
  {
    if |w| > 1 {
      var edges, m := SingleUseEdges(g, |g.nodes|), w[1];
      assert Joined(edges, w[0], w[0 + 1]);
      EdgesAre(g, |g.nodes|, i, m);
      EdgesAre(g, |g.nodes|, m, i);
      forall k | 0 <= k < |w[1..]| - 1
        ensures Joined(edges, w[1..][k], w[1..][k + 1])
      {
        assert Joined(edges, w[k + 1], w[k + 1 + 1]);
      }
      WalkKeepsSink(g, w[1..], m, j);
    }
  }

  lemma {:induction false} LinkedToSink(g: EngineGraph, i: nat)
    requires WellFormed(g) && i < |g.nodes|
    ensures Linked(SingleUseEdges(g, |g.nodes|), i, Sink(g, i))
    decreases |g.nodes| - i
  {
    var edges := SingleUseEdges(g, |g.nodes|);
    LinkedRefl(edges, i);
    if IsSingleUse(g, i) {
      var c := Consumers(g, i)[0];
      EdgesAre(g, |g.nodes|, i, c);
      LinkedStep(edges, i, i, c);
      LinkedToSink(g, c);
      LinkedTrans(edges, i, c, Sink(g, i));
    }
  }

  /** Being linked by single-use edges is ending in the same sink. */
  lemma LinkedIffSameSink(g: EngineGraph, i: nat, j: nat)
    requires WellFormed(g) && i < |g.nodes| && j < |g.nodes|
    ensures Linked(SingleUseEdges(g, |g.nodes|), i, j) <==> Sink(g, i) == Sink(g, j)
  {
    var edges := SingleUseEdges(g, |g.nodes|);
    if Linked(edges, i, j) {
      WalkKeepsSink(g, WalkOf(edges, i, j), i, j);
    }
    if Sink(g, i) == Sink(g, j) {
      LinkedToSink(g, i);
      LinkedToSink(g, j);
      LinkedSymm(edges, j, Sink(g, j));
      LinkedTrans(edges, i, Sink(g, i), j);
    }
  }

  /** Classes of ops with one sink, each named by its least member. */
  ghost function SingleUsePartition(g: EngineGraph): (part: seq<nat>)
    requires WellFormed(g)
    ensures |part| == |g.nodes|
    ensures forall i {:trigger part[i]} :: 0 <= i < |part| ==> part[i] == Rep(Sinks(g), i)
  {
    seq(|g.nodes|, i requires 0 <= i < |g.nodes| => Rep(Sinks(g), i))
  }

  lemma SameSingleUseClass(g: EngineGraph, i: nat, j: nat)
    requires WellFormed(g) && i < |g.nodes| && j < |g.nodes|
    ensures SingleUsePartition(g)[i] == SingleUsePartition(g)[j] <==> Sink(g, i) == Sink(g, j)
  {
    RepSame(Sinks(g), i, j);
  }

  lemma OnlyMemberAtSink(g: EngineGraph, i: nat)
    requires WellFormed(g) && i < |g.nodes| && g.nodes[Sink(g, i)].boundary
    ensures i == Sink(g, i)
  {
    assert g.nodes[i].boundary;
  }

  lemma SingleUseEnclosed(g: EngineGraph, i: nat, j: nat)
    requires WellFormed(g) && i < j < |g.nodes| && Sink(g, i) == Sink(g, j)
    ensures Enclosed(g, SingleUsePartition(g), i)
  {
    SameSingleUseClass(g, i, Consumers(g, i)[0]);
  }

  lemma SingleUseBoundaryAlone(g: EngineGraph, i: nat, j: nat)
    requires WellFormed(g) && i < |g.nodes| && j < |g.nodes|
    requires g.nodes[i].boundary && SingleUsePartition(g)[i] == SingleUsePartition(g)[j]
    ensures i == j
  {
    SameSingleUseClass(g, i, j);
    OnlyMemberAtSink(g, i);
    OnlyMemberAtSink(g, j);
  }

  lemma SingleUseNamed(g: EngineGraph, i: nat)
    requires WellFormed(g) && i < |g.nodes|
    ensures SingleUsePartition(g)[i] < |g.nodes|
    ensures SingleUsePartition(g)[SingleUsePartition(g)[i]] == SingleUsePartition(g)[i]
  {
    RepIdempotent(Sinks(g), i);
  }

  lemma SingleUseNames(g: EngineGraph)
    requires WellFormed(g)
    ensures Named(SingleUsePartition(g))
  {
    forall i | 0 <= i < |g.nodes|
      ensures SingleUsePartition(g)[i] < |g.nodes|
      ensures SingleUsePartition(g)[SingleUsePartition(g)[i]] == SingleUsePartition(g)[i]
    {
      SingleUseNamed(g, i);
    }
  }

  lemma SingleUseValid(g: EngineGraph)
    requires WellFormed(g)
    ensures ValidPartition(g, SingleUsePartition(g))
  {
    var part := SingleUsePartition(g);
    forall i, j | 0 <= i < |g.nodes| && 0 <= j < |g.nodes| && part[i] == part[j] && g.nodes[i].boundary
      ensures i == j
    {
      SingleUseBoundaryAlone(g, i, j);
    }
    forall i, j | 0 <= i < j < |g.nodes| && part[i] == part[j]
      ensures Enclosed(g, part, i)
    {
      SameSingleUseClass(g, i, j);
      SingleUseEnclosed(g, i, j);
    }
  }

  /** A boundary is its own representative. */
  lemma BoundaryAlone(g: EngineGraph, i: nat)
    requires WellFormed(g) && i < |g.nodes| && g.nodes[i].boundary
    ensures SingleUsePartition(g)[i] == i
  {
    SingleUseNamed(g, i);
    SingleUseBoundaryAlone(g, i, SingleUsePartition(g)[i]);
  }

  /** Unite every op whose single use is another op with that op. */
  method UniteSingleUses(g: EngineGraph, consumers: seq<seq<nat>>, isOutput: seq<bool>) returns (dsu: Dsu)
    requires WellFormed(g) && AreConsumers(g, consumers) && AreOutputFlags(g, isOutput)
    ensures fresh(dsu) && fresh(dsu.parent) && dsu.Valid()
    ensures dsu.parent.Length == |g.nodes| && dsu.edges == SingleUseEdges(g, |g.nodes|)
  {
    dsu := new Dsu(|g.nodes|);
    for i := 0 to |g.nodes|
      invariant fresh(dsu) && fresh(dsu.parent) && dsu.Valid() && dsu.parent.Length == |g.nodes|
      invariant dsu.edges == SingleUseEdges(g, i)
    {
      if g.nodes[i].boundary {
        continue;
      }
      assert consumers[i] == Consumers(g, i) && (isOutput[i] <==> i in g.outputs);
      if |consumers[i]| == 1 && !isOutput[i] {
        var c := consumers[i][0];
        if !g.nodes[c].boundary {
          dsu.Union(i, c);
        }
      }
    }
  }

  /** The union-find pass: ops take their root, boundaries stay themselves. */
  method SingleUseComps(g: EngineGraph, consumers: seq<seq<nat>>, isOutput: seq<bool>) returns (comp: seq<nat>)
    requires WellFormed(g) && AreConsumers(g, consumers) && AreOutputFlags(g, isOutput)
    ensures comp == SingleUsePartition(g)
  {
    var dsu := UniteSingleUses(g, consumers, isOutput);
    ghost var p, part := dsu.parent[..], SingleUsePartition(g);
    comp := [];
    for i := 0 to |g.nodes|
      invariant dsu.Valid() && dsu.parent.Length == |g.nodes| && fresh(dsu.parent)
      invariant SameRoots(dsu.parent[..], p)
      invariant comp == part[..i]
    {
      NextPart(part, i);
      if g.nodes[i].boundary {
        BoundaryAlone(g, i);
        comp := comp + [i];
      } else {
        assert Root(dsu.parent[..], i) == Root(p, i);
        RootIsRep(g, p, i);
        var r := dsu.Find(i);
        comp := comp + [r];
      }
    }
    assert part == part[..|g.nodes|];
  }

  lemma NextPart(part: seq<nat>, i: nat)
    requires i < |part|
    ensures part[..i + 1] == part[..i] + [part[i]]
  {
  }

  ghost predicate SameRoots(q: seq<nat>, p: seq<nat>) {
    Descending(p) && Descending(q) && |p| == |q| && forall y :: 0 <= y < |p| ==> Root(q, y) == Root(p, y)
  }

  /** The surviving root is the least member of the class of linked ops. */
  lemma RootIsRep(g: EngineGraph, p: seq<nat>, i: nat)
    requires WellFormed(g) && |p| == |g.nodes| && i < |g.nodes|
    requires Represents(p, SingleUseEdges(g, |g.nodes|))
    ensures Root(p, i) == SingleUsePartition(g)[i]
  {
    var edges, r := SingleUseEdges(g, |g.nodes|), Rep(Sinks(g), i);
    RepFacts(Sinks(g), i);
    assert Sinks(g)[r] == Sinks(g)[i];
    LinkedIffSameSink(g, i, r);
    RootIsLeast(p, edges, i, r);
    LinkedIffSameSink(g, i, Root(p, i));
    assert Sinks(g)[Root(p, i)] == Sinks(g)[i];
  }

  // ---- either mode ----

  ghost function Partition(g: EngineGraph, mode: FusionMode): (part: seq<nat>)
    requires WellFormed(g)
    ensures |part| == |g.nodes|
  {
    match mode
    case SingleUse => SingleUsePartition(g)
    case Maximal => MaximalPartition(g)
  }

  lemma PartitionValid(g: EngineGraph, mode: FusionMode)
    requires WellFormed(g)
    ensures ValidPartition(g, Partition(g, mode)) && Named(Partition(g, mode))
  {
    SingleUseNames(g);
    SingleUseValid(g);
    MaximalValid(g);
  }

  method Components(g: EngineGraph, mode: FusionMode) returns (comp: seq<nat>)
    requires WellFormed(g)
    ensures comp == Partition(g, mode)
  {
    var consumers := CollectConsumers(g);
    var isOutput := MarkOutputs(g);
    match mode
    case SingleUse => comp := SingleUseComps(g, consumers, isOutput);
    case Maximal => comp := MaximalComps(g, consumers, isOutput);
  }
}
