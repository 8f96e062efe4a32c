/** Dead-code elimination: plain reachability from the outputs. */
module Dce {
  import opened Selection
  import opened Cells
  import opened Node
  import opened Arena

  /** A node is needed if it is an output or an input of a later node that is needed. */
  ghost predicate Reachable(nodes: seq<NodeKey>, outs: seq<NodeId>, i: nat)
    requires i < |nodes|
    decreases |nodes| - i
  {
    i in outs || exists j :: i < j < |nodes| && i in nodes[j].Inputs() && Reachable(nodes, outs, j)
  }

  /** A chain of uses from an output down to a node. */
  ghost predicate IsPath(nodes: seq<NodeKey>, outs: seq<NodeId>, path: seq<nat>, i: nat) {
    && path != [] && path[0] in outs && path[|path| - 1] == i
    && (forall k :: 0 <= k < |path| ==> path[k] < |nodes|)
    && (forall k :: 0 < k < |path| ==> path[k] in nodes[path[k - 1]].Inputs())
  }

  lemma {:induction false} PathReaches(nodes: seq<NodeKey>, outs: seq<NodeId>, path: seq<nat>, i: nat)
    requires TopologicalKeys(nodes) && i < |nodes|
    requires IsPath(nodes, outs, path, i)
    ensures Reachable(nodes, outs, i)
    decreases |path|
  {
    if |path| > 1 {
      var j := path[|path| - 2];
      PathReaches(nodes, outs, path[..|path| - 1], j);
      assert path[|path| - 1] in nodes[path[|path| - 1 - 1]].Inputs();
    }
  }

  lemma {:induction false} ReachablePath(nodes: seq<NodeKey>, outs: seq<NodeId>, i: nat) returns (path: seq<nat>)
    requires i < |nodes| && Reachable(nodes, outs, i)
    ensures IsPath(nodes, outs, path, i)
    decreases |nodes| - i
  {
    if i in outs {
      path := [i];
    } else {
      var j :| i < j < |nodes| && i in nodes[j].Inputs() && Reachable(nodes, outs, j);
      var p := ReachablePath(nodes, outs, j);
      path := p + [i];
      forall k | 0 < k < |path|
        ensures path[k] in nodes[path[k - 1]].Inputs()
      {
        if k < |p| {
          assert p[k] in nodes[p[k - 1]].Inputs();
        }
      }
    }
  }

  /** Being needed is exactly lying on a chain of uses from an output. */
  lemma ReachableIffPath(nodes: seq<NodeKey>, outs: seq<NodeId>, i: nat)
    requires TopologicalKeys(nodes) && i < |nodes|
    ensures Reachable(nodes, outs, i) <==> exists path :: IsPath(nodes, outs, path, i)
  {
    if Reachable(nodes, outs, i) {
      var path := ReachablePath(nodes, outs, i);
    }
    if path :| IsPath(nodes, outs, path, i) {
      PathReaches(nodes, outs, path, i);
    }
  }

  // ---- the pass as a function ----

  /** The placeholder for positions that are not kept. */
  const UNMAPPED: nat := 0xFFFF_FFFF_FFFF_FFFF

  ghost function ReachMask(nodes: seq<NodeKey>, outs: seq<NodeId>): (mask: seq<bool>)
    ensures |mask| == |nodes|
    ensures forall i :: 0 <= i < |nodes| ==> mask[i] == Reachable(nodes, outs, i)
  {
    seq(|nodes|, i requires 0 <= i < |nodes| => Reachable(nodes, outs, i))
  }

  ghost function Renumbered(nodes: seq<NodeKey>, f: seq<nat>): (r: seq<NodeKey>)
    requires TopologicalKeys(nodes) && |f| == |nodes|
    ensures |r| == |nodes|
    ensures forall i :: 0 <= i < |r| ==> r[i] == nodes[i].WithInputs(Renumber(f, nodes[i].Inputs()))
  {
    seq(|nodes|, i requires 0 <= i < |nodes| => nodes[i].WithInputs(Renumber(f, nodes[i].Inputs())))
  }

  ghost function Kept(nodes: seq<NodeKey>, outs: seq<NodeId>): seq<NodeKey>
    requires TopologicalKeys(nodes)
  {
    var mask := ReachMask(nodes, outs);
    Select(Renumbered(nodes, Ranks(mask)), mask)
  }

  ghost function KeptOutputs(nodes: seq<NodeKey>, outs: seq<NodeId>): seq<nat>
    requires AllBelow(outs, |nodes|)
  {
    Renumber(Ranks(ReachMask(nodes, outs)), outs)
  }

  /** The worklist pass keeps exactly the reachable nodes, in order, and renumbers them. */
  method DeadCodeElimination(nodes: seq<NodeKey>, outs: seq<NodeId>)
    returns (kept: seq<NodeKey>, outIdx: seq<nat>)
    requires TopologicalKeys(nodes) && AllBelow(outs, |nodes|)
    ensures kept == Kept(nodes, outs)
    ensures outIdx == KeptOutputs(nodes, outs)
  {
    var keep := Mark(nodes, outs);
    forall i | 0 <= i < |nodes| && keep[i]
      ensures AllKept(nodes[i].Inputs(), keep)
    {
      InputsReachable(nodes, outs, i);
    }
    OutputsReachable(nodes, outs);
    kept, outIdx := Compact(nodes, outs, keep);
  }

  ghost predicate AllKept(xs: seq<nat>, keep: seq<bool>) {
    forall k :: 0 <= k < |xs| ==> xs[k] < |keep| && keep[xs[k]]
  }

  /** The renumbering is right at the kept positions below `n`. */
  ghost predicate Agrees(remap: seq<nat>, keep: seq<bool>, n: nat) {
    |remap| == |keep| && forall j {:trigger remap[j]} :: 0 <= j < n && j < |keep| && keep[j] ==> remap[j] == Rank(keep, j)
  }

  lemma AgreesStep(remap: seq<nat>, keep: seq<bool>, n: nat)
    requires Agrees(remap, keep, n) && n < |keep|
    ensures keep[n] ==> Agrees(remap[n := Rank(keep, n)], keep, n + 1)
    ensures !keep[n] ==> Agrees(remap, keep, n + 1)
  {
  }

  lemma AgreesRenumber(remap: seq<nat>, keep: seq<bool>, n: nat, xs: seq<nat>)
    requires Agrees(remap, keep, n) && AllBelow(xs, n) && AllKept(xs, keep)
    ensures Renumber(remap, xs) == Renumber(Ranks(keep), xs)
  {
  }

  /** Compact the marked nodes in ascending order, filling the renumbering as they are met. */
  method Compact(nodes: seq<NodeKey>, outs: seq<NodeId>, keep: seq<bool>)
    returns (kept: seq<NodeKey>, outIdx: seq<nat>)
    requires TopologicalKeys(nodes) && |keep| == |nodes|
    requires AllKept(outs, keep)
    requires forall i :: 0 <= i < |nodes| && keep[i] ==> AllKept(nodes[i].Inputs(), keep)
    ensures kept == Select(Renumbered(nodes, Ranks(keep)), keep)
    ensures outIdx == Renumber(Ranks(keep), outs)
  {
    ghost var renumbered := Renumbered(nodes, Ranks(keep));
    var remap: seq<nat> := seq(|nodes|, _ => UNMAPPED);
    kept := [];
    for i := 0 to |nodes|
      invariant Agrees(remap, keep, i)
      invariant kept == SelectTo(renumbered, keep, i)
    {
      AgreesStep(remap, keep, i);
      if keep[i] {
        remap := remap[i := |kept|];
        AgreesRenumber(remap, keep, i + 1, nodes[i].Inputs());
        kept := kept + [nodes[i].WithInputs(Renumber(remap, nodes[i].Inputs()))];
      }
    }
    AgreesRenumber(remap, keep, |nodes|, outs);
    outIdx := Renumber(remap, outs);
  }

  lemma InputsReachable(nodes: seq<NodeKey>, outs: seq<NodeId>, i: nat)
    requires TopologicalKeys(nodes) && i < |nodes| && Reachable(nodes, outs, i)
    ensures forall k :: 0 <= k < |nodes[i].Inputs()| ==> nodes[i].Inputs()[k] < i && Reachable(nodes, outs, nodes[i].Inputs()[k])
  {
    forall k | 0 <= k < |nodes[i].Inputs()|
      ensures nodes[i].Inputs()[k] < i && Reachable(nodes, outs, nodes[i].Inputs()[k])
    {
      assert nodes[i].Inputs()[k] in nodes[i].Inputs();
    }
  }

  lemma OutputsReachable(nodes: seq<NodeKey>, outs: seq<NodeId>)
    requires AllBelow(outs, |nodes|)
    ensures forall k :: 0 <= k < |outs| ==> Reachable(nodes, outs, outs[k])
  {
    forall k | 0 <= k < |outs|
      ensures Reachable(nodes, outs, outs[k])
    {
      assert outs[k] in outs;
    }
  }

  ghost function Unmarked(keep: seq<bool>): set<nat> {
    set i: nat | i < |keep| && !keep[i]
  }

  /** What is marked or waiting is reachable; outputs and inputs of marked nodes are marked or waiting. */
  ghost predicate Working(nodes: seq<NodeKey>, outs: seq<NodeId>, keep: seq<bool>, stack: seq<nat>)
    requires TopologicalKeys(nodes)
  {
    && |keep| == |nodes| && AllBelow(stack, |nodes|) && AllBelow(outs, |nodes|)
    && (forall k :: 0 <= k < |stack| ==> Reachable(nodes, outs, stack[k]))
    && (forall i :: 0 <= i < |keep| && keep[i] ==> Reachable(nodes, outs, i))
    && (forall k :: 0 <= k < |outs| ==> keep[outs[k]] || outs[k] in stack)
    && (forall i, k :: 0 <= i < |keep| && keep[i] && 0 <= k < |nodes[i].Inputs()| ==>
         keep[nodes[i].Inputs()[k]] || nodes[i].Inputs()[k] in stack)
  }

  lemma SkipStep(nodes: seq<NodeKey>, outs: seq<NodeId>, keep: seq<bool>, rest: seq<nat>, i: nat)
    requires TopologicalKeys(nodes) && Working(nodes, outs, keep, rest + [i])
    requires i < |keep| && keep[i]
    ensures Working(nodes, outs, keep, rest)
  {
    var stack := rest + [i];
    forall k | 0 <= k < |rest|
      ensures rest[k] < |nodes| && Reachable(nodes, outs, rest[k])
    {
      assert stack[k] == rest[k];
    }
    assert forall x :: x in stack ==> x in rest || x == i;
  }

  lemma MarkStep(nodes: seq<NodeKey>, outs: seq<NodeId>, keep: seq<bool>, rest: seq<nat>, i: nat)
    requires TopologicalKeys(nodes) && Working(nodes, outs, keep, rest + [i])
    requires i < |keep| && !keep[i]
    ensures Working(nodes, outs, keep[i := true], rest + nodes[i].Inputs())
    ensures |Unmarked(keep[i := true])| < |Unmarked(keep)|
  {
    var stack, ins := rest + [i], nodes[i].Inputs();
    var keep', next := keep[i := true], rest + ins;
    assert stack[|rest|] == i;
    InputsReachable(nodes, outs, i);
    forall k | 0 <= k < |next|
      ensures next[k] < |nodes| && Reachable(nodes, outs, next[k])
    {
      assert next[k] == if k < |rest| then stack[k] else ins[k - |rest|];
    }
    forall k | 0 <= k < |outs|
      ensures keep'[outs[k]] || outs[k] in next
    {
      StillPending(keep, rest, ins, i, outs[k]);
    }
    forall j, k | 0 <= j < |keep'| && keep'[j] && 0 <= k < |nodes[j].Inputs()|
      ensures keep'[nodes[j].Inputs()[k]] || nodes[j].Inputs()[k] in next
    {
      if j == i {
        assert next[|rest| + k] == ins[k];
      } else {
        StillPending(keep, rest, ins, i, nodes[j].Inputs()[k]);
      }
    }
    assert Unmarked(keep') == Unmarked(keep) - {i};
    assert i in Unmarked(keep);
  }

  lemma StillPending(keep: seq<bool>, rest: seq<nat>, ins: seq<nat>, i: nat, x: nat)
    requires i < |keep| && x < |keep| && (keep[x] || x in rest + [i])
    ensures keep[i := true][x] || x in rest + ins
  {
    if x != i && !keep[x] {
      assert x in rest;
    }
  }

  /** The worklist: pop a node, mark it, push its inputs. */
  method Mark(nodes: seq<NodeKey>, outs: seq<NodeId>) returns (keep: seq<bool>)
    requires TopologicalKeys(nodes) && AllBelow(outs, |nodes|)
    ensures keep == ReachMask(nodes, outs)
  {
    keep := seq(|nodes|, _ => false);
    var stack := outs;
    OutputsReachable(nodes, outs);
    while stack != []
      invariant Working(nodes, outs, keep, stack)
      decreases |Unmarked(keep)|, |stack|
    {
      var i := stack[|stack| - 1];
      var rest := stack[..|stack| - 1];
      assert stack == rest + [i];
      if keep[i] {
        SkipStep(nodes, outs, keep, rest, i);
        stack := rest;
      } else {
        MarkStep(nodes, outs, keep, rest, i);
        keep := keep[i := true];
        stack := rest + nodes[i].Inputs();
      }
    }
    forall i | 0 <= i < |nodes|
      ensures keep[i] == Reachable(nodes, outs, i)
    {
      if Reachable(nodes, outs, i) {
        ClosedCovers(nodes, outs, keep, i);
      }
    }
  }

  /** A set that holds the outputs and is closed under inputs holds every reachable node. */
  lemma {:induction false} ClosedCovers(nodes: seq<NodeKey>, outs: seq<NodeId>, keep: seq<bool>, i: nat)
    requires TopologicalKeys(nodes) && |keep| == |nodes| && AllBelow(outs, |nodes|)
    requires forall k :: 0 <= k < |outs| ==> keep[outs[k]]
    requires forall j, k :: 0 <= j < |keep| && keep[j] && 0 <= k < |nodes[j].Inputs()| ==> keep[nodes[j].Inputs()[k]]
    requires i < |nodes| && Reachable(nodes, outs, i)
    ensures keep[i]
    decreases |nodes| - i
  {
    if i !in outs {
      var j :| i < j < |nodes| && i in nodes[j].Inputs() && Reachable(nodes, outs, j);
      ClosedCovers(nodes, outs, keep, j);
    }
  }

  // ---- what the pass keeps ----

  lemma KeptAt(nodes: seq<NodeKey>, outs: seq<NodeId>, i: nat)
    requires TopologicalKeys(nodes) && i < |nodes| && Reachable(nodes, outs, i)
    ensures var f := Ranks(ReachMask(nodes, outs));
      f[i] < |Kept(nodes, outs)|
      && Kept(nodes, outs)[f[i]] == nodes[i].WithInputs(Renumber(f, nodes[i].Inputs()))
  {
    SelectAt(Renumbered(nodes, Ranks(ReachMask(nodes, outs))), ReachMask(nodes, outs), i);
  }

  /** The position a kept node came from. */
  lemma KeptFrom(nodes: seq<NodeKey>, outs: seq<NodeId>, p: nat) returns (i: nat)
    requires TopologicalKeys(nodes) && p < |Kept(nodes, outs)|
    ensures i < |nodes| && Reachable(nodes, outs, i)
    ensures var f := Ranks(ReachMask(nodes, outs));
      f[i] == p && Kept(nodes, outs)[p] == nodes[i].WithInputs(Renumber(f, nodes[i].Inputs()))
  {
    i := Origin(ReachMask(nodes, outs), p);
    KeptAt(nodes, outs, i);
  }

  lemma KeptTopological(nodes: seq<NodeKey>, outs: seq<NodeId>)
    requires TopologicalKeys(nodes) && AllBelow(outs, |nodes|)
    ensures TopologicalKeys(Kept(nodes, outs))
    ensures AllBelow(KeptOutputs(nodes, outs), |Kept(nodes, outs)|)
    ensures |Kept(nodes, outs)| <= |nodes|
  {
    var mask, kept := ReachMask(nodes, outs), Kept(nodes, outs);
    forall p, k | 0 <= p < |kept| && 0 <= k < |kept[p].Inputs()|
      ensures kept[p].Inputs()[k] < p
    {
      var i := KeptFrom(nodes, outs, p);
      var x := nodes[i].Inputs()[k];
      assert x in nodes[i].Inputs();
      RankMonotone(mask, x, i);
    }
    forall k | 0 <= k < |outs|
      ensures KeptOutputs(nodes, outs)[k] < |kept|
    {
      assert outs[k] in outs;
      KeptAt(nodes, outs, outs[k]);
    }
  }

  /** Reachable nodes keep their terms. */
  lemma KeptTerms<S>(sym: NodeKey -> S, nodes: seq<NodeKey>, outs: seq<NodeId>, i: nat)
    requires TopologicalKeys(nodes) && AllBelow(outs, |nodes|) && InputBlind(sym)
    requires i < |nodes| && Reachable(nodes, outs, i)
    requires TopologicalKeys(Kept(nodes, outs)) && Rank(ReachMask(nodes, outs), i) < |Kept(nodes, outs)|
    ensures Unfold(CellsBy(sym, Kept(nodes, outs)), Rank(ReachMask(nodes, outs), i)) == Unfold(CellsBy(sym, nodes), i)
  {
    var mask, f := ReachMask(nodes, outs), Ranks(ReachMask(nodes, outs));
    var g, g' := CellsBy(sym, nodes), CellsBy(sym, Kept(nodes, outs));
    forall j | 0 <= j < |g| && mask[j]
      ensures f[j] < |g'| && g'[f[j]] == Cell(g[j].sym, Renumber(f, g[j].inputs))
    {
      KeptAt(nodes, outs, j);
    }
    forall j, k | 0 <= j < |g| && mask[j] && 0 <= k < |g[j].inputs|
      ensures mask[g[j].inputs[k]]
    {
      assert g[j].inputs[k] in nodes[j].Inputs();
    }
    EmbedsTerms(g, g', mask, f, i);
  }

  /** Nothing is dropped when everything is reachable. */
  lemma AllReachableKept(nodes: seq<NodeKey>, outs: seq<NodeId>)
    requires TopologicalKeys(nodes) && AllBelow(outs, |nodes|)
    requires forall i :: 0 <= i < |nodes| ==> Reachable(nodes, outs, i)
    ensures Kept(nodes, outs) == nodes
    ensures KeptOutputs(nodes, outs) == outs
  {
    var mask := ReachMask(nodes, outs);
    var f := Ranks(mask);
    forall i | 0 <= i < |nodes|
      ensures f[i] == i
    {
      SelectAll(nodes, mask, i);
    }
    forall i | 0 <= i < |nodes|
      ensures Renumbered(nodes, f)[i] == nodes[i]
    {
      assert Renumber(f, nodes[i].Inputs()) == nodes[i].Inputs();
      SameInputs(nodes[i]);
    }
    assert Renumbered(nodes, f) == nodes;
    SelectAll(nodes, mask, |nodes|);
  }

  /** A use by a needed node is a use by the node it is kept as. */
  lemma KeptUse(nodes: seq<NodeKey>, outs: seq<NodeId>, i: nat, j: nat)
    requires TopologicalKeys(nodes) && i < j < |nodes| && i in nodes[j].Inputs() && Reachable(nodes, outs, j)
    ensures var f := Ranks(ReachMask(nodes, outs));
      f[i] < f[j] < |Kept(nodes, outs)| && f[i] in Kept(nodes, outs)[f[j]].Inputs()
  {
    var f := Ranks(ReachMask(nodes, outs));
    KeptAt(nodes, outs, j);
    var k :| 0 <= k < |nodes[j].Inputs()| && nodes[j].Inputs()[k] == i;
    assert Kept(nodes, outs)[f[j]].Inputs()[k] == f[i];
    RankMonotone(ReachMask(nodes, outs), i, j);
  }

  lemma {:induction false} KeptReachable(nodes: seq<NodeKey>, outs: seq<NodeId>, i: nat)
    requires TopologicalKeys(nodes) && AllBelow(outs, |nodes|)
    requires i < |nodes| && Reachable(nodes, outs, i)
    requires TopologicalKeys(Kept(nodes, outs)) && Rank(ReachMask(nodes, outs), i) < |Kept(nodes, outs)|
    ensures Reachable(Kept(nodes, outs), KeptOutputs(nodes, outs), Rank(ReachMask(nodes, outs), i))
    decreases |nodes| - i
  {
    var f, outs' := Ranks(ReachMask(nodes, outs)), KeptOutputs(nodes, outs);
    if i in outs {
      var k :| 0 <= k < |outs| && outs[k] == i;
      assert outs'[k] == f[i];
    } else {
      var j :| i < j < |nodes| && i in nodes[j].Inputs() && Reachable(nodes, outs, j);
      KeptUse(nodes, outs, i, j);
      KeptReachable(nodes, outs, j);
    }
  }

  /** Everything kept is needed. */
  lemma KeptAllReachable(nodes: seq<NodeKey>, outs: seq<NodeId>)
    requires TopologicalKeys(nodes) && AllBelow(outs, |nodes|)
    ensures TopologicalKeys(Kept(nodes, outs)) && AllBelow(KeptOutputs(nodes, outs), |Kept(nodes, outs)|)
    ensures forall p :: 0 <= p < |Kept(nodes, outs)| ==> Reachable(Kept(nodes, outs), KeptOutputs(nodes, outs), p)
  {
    KeptTopological(nodes, outs);
    forall p | 0 <= p < |Kept(nodes, outs)|
      ensures Reachable(Kept(nodes, outs), KeptOutputs(nodes, outs), p)
    {
      var i := KeptFrom(nodes, outs, p);
      KeptReachable(nodes, outs, i);
    }
  }

  /** The pass is idempotent. */
  lemma DceIdempotent(nodes: seq<NodeKey>, outs: seq<NodeId>)
    requires TopologicalKeys(nodes) && AllBelow(outs, |nodes|)
    ensures var kept, outs' := Kept(nodes, outs), KeptOutputs(nodes, outs);
      TopologicalKeys(kept) && AllBelow(outs', |kept|) && Kept(kept, outs') == kept && KeptOutputs(kept, outs') == outs'
  {
    KeptAllReachable(nodes, outs);
    AllReachableKept(Kept(nodes, outs), KeptOutputs(nodes, outs));
  }

  // ---- independence of unrelated history ----

  lemma {:induction false} ReachableAppend(nodes: seq<NodeKey>, more: seq<NodeKey>, outs: seq<NodeId>, i: nat)
    requires TopologicalKeys(nodes + more) && AllBelow(outs, |nodes|)
    requires i < |nodes + more|
    ensures Reachable(nodes + more, outs, i) <==> i < |nodes| && Reachable(nodes, outs, i)
    decreases |nodes + more| - i
  {
    var all := nodes + more;
    forall j | i < j < |all|
      ensures Reachable(all, outs, j) <==> j < |nodes| && Reachable(nodes, outs, j)
    {
      ReachableAppend(nodes, more, outs, j);
    }
    if i < |nodes| {
      assert all[i] == nodes[i];
      if j :| i < j < |nodes| && i in nodes[j].Inputs() && Reachable(nodes, outs, j) {
        assert all[j] == nodes[j];
      }
    }
  }

  /** Nodes recorded later, whatever they are, do not change what is kept for the same outputs. */
  lemma DceHistoryIndependent(nodes: seq<NodeKey>, more: seq<NodeKey>, outs: seq<NodeId>)
    requires TopologicalKeys(nodes + more) && AllBelow(outs, |nodes|)
    ensures TopologicalKeys(nodes)
    ensures Kept(nodes + more, outs) == Kept(nodes, outs)
    ensures KeptOutputs(nodes + more, outs) == KeptOutputs(nodes, outs)
  {
    var all := nodes + more;
    forall i | 0 <= i < |nodes|
      ensures AllBelow(nodes[i].Inputs(), i)
    {
      assert all[i] == nodes[i];
    }
    var mask, mask' := ReachMask(nodes, outs), ReachMask(all, outs);
    forall i | 0 <= i < |all|
      ensures mask'[i] == (i < |nodes| && mask[i])
    {
      ReachableAppend(nodes, more, outs, i);
    }
    forall i: nat | i <= |nodes|
      ensures Rank(mask, i) == Rank(mask', i)
    {
      SelectPrefix(mask, mask', mask, mask', i);
    }
    var f, f' := Ranks(mask), Ranks(mask');
    forall i | 0 <= i < |nodes|
      ensures Renumbered(nodes, f)[i] == Renumbered(all, f')[i]
    {
      assert all[i] == nodes[i];
      assert Renumber(f, nodes[i].Inputs()) == Renumber(f', nodes[i].Inputs());
    }
    SelectPrefix(Renumbered(nodes, f), Renumbered(all, f'), mask, mask', |nodes|);
    SelectNoMore(Renumbered(all, f'), mask', |nodes|, |all|);
  }

  lemma {:induction false} SelectNoMore<T>(xs: seq<T>, mask: seq<bool>, k: nat, n: nat)
    requires k <= n <= |xs| == |mask|
    requires forall i :: k <= i < n ==> !mask[i]
    ensures SelectTo(xs, mask, n) == SelectTo(xs, mask, k)
  {
    if k < n {
      SelectNoMore(xs, mask, k, n - 1);
    }
  }
}
