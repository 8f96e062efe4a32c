/** Common-subexpression elimination: hash-consing of (token, inputs) as a plain pass.

The specification does not mention the hash table: the pass is the quotient of the graph by equality
of the terms its nodes stand for. */
module Cse {
  import opened Wrappers
  import opened Selection
  import opened Terms
  import opened Cells
  import opened Engine

  /** The term of every node. */
  ghost function TermsOf(g: EngineGraph): (ts: seq<Term<string>>)
    requires WellFormed(g)
    ensures |ts| == |g.nodes|
    ensures forall i {:trigger ts[i]} :: 0 <= i < |ts| ==> ts[i] == Unfold(CellsOf(g), i)
  {
    seq(|g.nodes|, i requires 0 <= i < |g.nodes| => Unfold(CellsOf(g), i))
  }

  ghost function DedupedNodes(g: EngineGraph): (nodes: seq<EngineNode>)
    requires WellFormed(g)
    ensures |nodes| == |g.nodes|
    ensures forall i {:trigger nodes[i]} :: 0 <= i < |nodes| ==>
      nodes[i] == g.nodes[i].(inputs := Renumber(NewIndex(TermsOf(g)), CellsOf(g)[i].inputs))
  {
    seq(|g.nodes|, i requires 0 <= i < |g.nodes| =>
      g.nodes[i].(inputs := Renumber(NewIndex(TermsOf(g)), CellsOf(g)[i].inputs)))
  }

  ghost function Dedup(g: EngineGraph): EngineGraph
    requires WellFormed(g)
  {
    EngineGraph(Select(DedupedNodes(g), RepMask(TermsOf(g))), Renumber(NewIndex(TermsOf(g)), g.outputs))
  }

  lemma DedupCells(g: EngineGraph)
    requires WellFormed(g)
    ensures CellsOf(Dedup(g)) == Quotient(CellsOf(g), TermsOf(g))
  {
    SelectMap(CellOf, DedupedNodes(g), RepMask(TermsOf(g)), |g.nodes|);
    assert Map(CellOf, DedupedNodes(g)) == Requotient(CellsOf(g), TermsOf(g));
  }

  /** Two nodes stand for one term exactly when they agree in token and in renumbered inputs. */
  lemma SameTerm(g: EngineGraph, i: nat, j: nat)
    requires WellFormed(g) && i < |g.nodes| && j < |g.nodes|
    ensures AllBelow(g.nodes[i].inputs, |g.nodes|) && AllBelow(g.nodes[j].inputs, |g.nodes|)
    ensures Unfold(CellsOf(g), i) == Unfold(CellsOf(g), j) <==>
      g.nodes[i].token == g.nodes[j].token
      && Renumber(NewIndex(TermsOf(g)), g.nodes[i].inputs) == Renumber(NewIndex(TermsOf(g)), g.nodes[j].inputs)
  {
    var cells, ts, f := CellsOf(g), TermsOf(g), NewIndex(TermsOf(g));
    var xs, ys := cells[i].inputs, cells[j].inputs;
    var us, vs := UnfoldAll(cells, xs, i), UnfoldAll(cells, ys, j);
    if Unfold(cells, i) == Unfold(cells, j) {
      assert us == vs;
      forall k | 0 <= k < |xs|
        ensures f[xs[k]] == f[ys[k]]
      {
        assert us[k] == ts[xs[k]] && vs[k] == ts[ys[k]];
        NewIndexFaithful(ts, xs[k], ys[k]);
      }
      assert Renumber(f, xs) == Renumber(f, ys);
    }
    if cells[i].sym == cells[j].sym && Renumber(f, xs) == Renumber(f, ys) {
      assert |xs| == |Renumber(f, xs)| == |ys|;
      forall k | 0 <= k < |xs|
        ensures us[k] == vs[k]
      {
        assert f[xs[k]] == Renumber(f, xs)[k] == Renumber(f, ys)[k] == f[ys[k]];
        assert us[k] == ts[xs[k]] && vs[k] == ts[ys[k]];
        NewIndexFaithful(ts, xs[k], ys[k]);
      }
      assert us == vs;
    }
  }

  /** The result is a hash-consed graph in which every node, and so every output, keeps its term. */
  lemma DedupCorrect(g: EngineGraph)
    requires WellFormed(g)
    ensures WellFormed(Dedup(g)) && HashConsed(CellsOf(Dedup(g)))
    ensures |Dedup(g).nodes| <= |g.nodes|
    ensures forall i {:trigger NewIndex(TermsOf(g))[i]} :: 0 <= i < |g.nodes| ==>
      NewIndex(TermsOf(g))[i] < |Dedup(g).nodes|
      && Unfold(CellsOf(Dedup(g)), NewIndex(TermsOf(g))[i]) == Unfold(CellsOf(g), i)
  {
    var cells, ts, f := CellsOf(g), TermsOf(g), NewIndex(TermsOf(g));
    DedupCells(g);
    QuotientTopological(cells, ts);
    var g' := CellsOf(Dedup(g));
    forall i | 0 <= i < |g.nodes|
      ensures f[i] < |g'| && Unfold(g', f[i]) == Unfold(cells, i)
    {
      NewIndexFaithful(ts, i, i);
      QuotientTerms(cells, ts, i);
    }
    forall p, q | 0 <= p < q < |g'|
      ensures Unfold(g', p) != Unfold(g', q)
    {
      var i, j := Origin(RepMask(ts), p), Origin(RepMask(ts), q);
      assert Rep(ts, i) == i && Rep(ts, j) == j;
      assert f[i] == p && f[j] == q;
      assert Unfold(g', f[i]) == ts[i] && Unfold(g', f[j]) == ts[j];
      NewIndexFaithful(ts, i, j);
    }
    DistinctTermsHashConsed(g');
  }

  /** Every node of the result is a node of the input graph over renumbered inputs. */
  lemma DedupFrom(g: EngineGraph, p: nat) returns (i: nat)
    requires WellFormed(g) && p < |Dedup(g).nodes|
    ensures i < |g.nodes| && Dedup(g).nodes[p].token == g.nodes[i].token
    ensures |Dedup(g).nodes[p].inputs| == |g.nodes[i].inputs| && Dedup(g).nodes[p].boundary == g.nodes[i].boundary
  {
    i := Origin(RepMask(TermsOf(g)), p);
    SelectOrigin(DedupedNodes(g), RepMask(TermsOf(g)), p);
  }

  /** A hash-consed graph is left alone. */
  lemma DedupFixpoint(g: EngineGraph)
    requires WellFormed(g) && HashConsed(CellsOf(g))
    ensures Dedup(g) == g
  {
    var cells, ts := CellsOf(g), TermsOf(g);
    forall i, j | 0 <= i < j < |ts|
      ensures ts[i] != ts[j]
    {
      if ts[i] == ts[j] {
        HashConsedTerms(cells, i, j);
      }
    }
    QuotientIdentity(cells, ts);
    forall i | 0 <= i < |g.nodes|
      ensures DedupedNodes(g)[i] == g.nodes[i]
    {
      assert Renumber(NewIndex(ts), cells[i].inputs) == g.nodes[i].inputs;
    }
    assert DedupedNodes(g) == g.nodes;
    SelectAll(g.nodes, RepMask(ts), |g.nodes|);
    assert Renumber(NewIndex(ts), g.outputs) == g.outputs;
  }

  /** The hash table holds exactly the emitted nodes. */
  ghost predicate TableMatches(seen: map<(string, seq<nat>), nat>, nodes: seq<EngineNode>) {
    && (forall p {:trigger nodes[p]} :: 0 <= p < |nodes| ==>
         (nodes[p].token, nodes[p].inputs) in seen && seen[(nodes[p].token, nodes[p].inputs)] == p)
    && (forall k :: k in seen ==> seen[k] < |nodes| && (nodes[seen[k]].token, nodes[seen[k]].inputs) == k)
  }

  ghost function KeyOf(g: EngineGraph, i: nat): (string, seq<nat>)
    requires WellFormed(g) && i < |g.nodes|
  {
    (g.nodes[i].token, Renumber(NewIndex(TermsOf(g)), CellsOf(g)[i].inputs))
  }

  /** The key of a node is in the table exactly when an earlier node has the same term. */
  lemma LookupStep(g: EngineGraph, seen: map<(string, seq<nat>), nat>, nodes: seq<EngineNode>, i: nat)
    requires WellFormed(g) && i < |g.nodes|
    requires nodes == SelectTo(DedupedNodes(g), RepMask(TermsOf(g)), i)
    requires TableMatches(seen, nodes)
    ensures AllBelow(g.nodes[i].inputs, i)
    ensures KeyOf(g, i) in seen <==> Rep(TermsOf(g), i) != i
    ensures KeyOf(g, i) in seen ==> seen[KeyOf(g, i)] == NewIndex(TermsOf(g))[i]
    ensures KeyOf(g, i) !in seen ==> NewIndex(TermsOf(g))[i] == |nodes|
    ensures SelectTo(DedupedNodes(g), RepMask(TermsOf(g)), i + 1)
         == if KeyOf(g, i) in seen then nodes else nodes + [DedupedNodes(g)[i]]
  {
    var ts, f, mask := TermsOf(g), NewIndex(TermsOf(g)), RepMask(TermsOf(g));
    assert CellsOf(g)[i].inputs == g.nodes[i].inputs;
    var key := KeyOf(g, i);
    var r := Rep(ts, i);
    RepFacts(ts, i);
    RepIdempotent(ts, i);
    if r != i {
      SelectToAt(DedupedNodes(g), mask, r, i);
      SameTerm(g, i, r);
      assert nodes[Rank(mask, r)] == DedupedNodes(g)[r];
    }
    if key in seen {
      var p := seen[key];
      var j := OriginTo(mask, p, i);
      SelectToAt(DedupedNodes(g), mask, j, i);
      assert nodes[p] == DedupedNodes(g)[j];
      SameTerm(g, i, j);
      assert r <= j;
    }
  }

  /** The state of the hash-consing loop before node `i`. */
  ghost predicate Progress(g: EngineGraph, remap: seq<nat>, seen: map<(string, seq<nat>), nat>, nodes: seq<EngineNode>, i: nat)
    requires WellFormed(g) && i <= |g.nodes|
  {
    && |remap| == |g.nodes| && (forall j {:trigger remap[j]} :: 0 <= j < i ==> remap[j] == NewIndex(TermsOf(g))[j])
    && nodes == SelectTo(DedupedNodes(g), RepMask(TermsOf(g)), i)
    && TableMatches(seen, nodes)
  }

  lemma KeyComputed(g: EngineGraph, remap: seq<nat>, seen: map<(string, seq<nat>), nat>, nodes: seq<EngineNode>, i: nat)
    requires WellFormed(g) && i < |g.nodes| && Progress(g, remap, seen, nodes, i)
    ensures AllBelow(g.nodes[i].inputs, |remap|)
    ensures (g.nodes[i].token, Renumber(remap, g.nodes[i].inputs)) == KeyOf(g, i)
    ensures DedupedNodes(g)[i] == EngineNode(g.nodes[i].token, g.nodes[i].boundary, Renumber(remap, g.nodes[i].inputs))
  {
    assert CellsOf(g)[i].inputs == g.nodes[i].inputs;
    assert Renumber(remap, g.nodes[i].inputs) == Renumber(NewIndex(TermsOf(g)), g.nodes[i].inputs);
  }

  lemma SeenBefore(g: EngineGraph, remap: seq<nat>, seen: map<(string, seq<nat>), nat>, nodes: seq<EngineNode>, i: nat)
    requires WellFormed(g) && i < |g.nodes| && Progress(g, remap, seen, nodes, i) && KeyOf(g, i) in seen
    ensures Progress(g, remap[i := seen[KeyOf(g, i)]], seen, nodes, i + 1)
  {
    LookupStep(g, seen, nodes, i);
  }

  lemma TableAppend(seen: map<(string, seq<nat>), nat>, nodes: seq<EngineNode>, node: EngineNode)
    requires TableMatches(seen, nodes) && (node.token, node.inputs) !in seen
    ensures TableMatches(seen[(node.token, node.inputs) := |nodes|], nodes + [node])
  {
    var key, more := (node.token, node.inputs), nodes + [node];
    var seen' := seen[key := |nodes|];
    forall p | 0 <= p < |more|
      ensures (more[p].token, more[p].inputs) in seen' && seen'[(more[p].token, more[p].inputs)] == p
    {
      assert p < |nodes| ==> more[p] == nodes[p];
    }
  }

  lemma NextRenamed(f: seq<nat>, remap: seq<nat>, i: nat)
    requires |remap| == |f| && i < |f| && forall j {:trigger remap[j]} :: 0 <= j < i ==> remap[j] == f[j]
    ensures forall j {:trigger remap[i := f[i]][j]} :: 0 <= j < i + 1 ==> remap[i := f[i]][j] == f[j]
  {
  }

  lemma SeenFirst(g: EngineGraph, remap: seq<nat>, seen: map<(string, seq<nat>), nat>, nodes: seq<EngineNode>, i: nat)
    requires WellFormed(g) && i < |g.nodes| && Progress(g, remap, seen, nodes, i) && KeyOf(g, i) !in seen
    ensures Progress(g, remap[i := |nodes|], seen[KeyOf(g, i) := |nodes|], nodes + [DedupedNodes(g)[i]], i + 1)
  {
    LookupStep(g, seen, nodes, i);
    KeyComputed(g, remap, seen, nodes, i);
    NextRenamed(NewIndex(TermsOf(g)), remap, i);
    TableAppend(seen, nodes, DedupedNodes(g)[i]);
  }

  /** Hash-cons one node: its new index, and the table and list afterwards. */
  method HashCons(g: EngineGraph, remap: seq<nat>, seen: map<(string, seq<nat>), nat>, nodes: seq<EngineNode>, i: nat)
    returns (id: nat, seen': map<(string, seq<nat>), nat>, nodes': seq<EngineNode>)
    requires WellFormed(g) && i < |g.nodes| && Progress(g, remap, seen, nodes, i)
    ensures Progress(g, remap[i := id], seen', nodes', i + 1)
  {
    KeyComputed(g, remap, seen, nodes, i);
    var node := g.nodes[i];
    var inputs := Renumber(remap, node.inputs);
    var key := (node.token, inputs);
    if key in seen {
      SeenBefore(g, remap, seen, nodes, i);
      return seen[key], seen, nodes;
    }
    SeenFirst(g, remap, seen, nodes, i);
    id := |nodes|;
    seen', nodes' := seen[key := id], nodes + [EngineNode(node.token, node.boundary, inputs)];
  }

  /** The hash-consing loop. */
  method CommonSubexpressions(g: EngineGraph) returns (out: EngineGraph)
    requires WellFormed(g)
    ensures out == Dedup(g)
  {
    var remap: seq<nat> := seq(|g.nodes|, _ => 0);
    var seen: map<(string, seq<nat>), nat> := map[];
    var nodes: seq<EngineNode> := [];
    for i := 0 to |g.nodes|
      invariant Progress(g, remap, seen, nodes, i)
    {
      var id;
      id, seen, nodes := HashCons(g, remap, seen, nodes, i);
      remap := remap[i := id];
    }
    assert remap == NewIndex(TermsOf(g));
    out := EngineGraph(nodes, Renumber(remap, g.outputs));
  }
}
