/** The incremental reducer agrees with one-shot reduction.

Its canonical arena is the list of first occurrences of canonical ids, which is what extraction by a
saturated engine keeps; and that arena is a fixpoint of dead-code elimination, extraction and
hash-consing, so finishing either way fuses the very same graph. */
module OneShot {
  import opened Wrappers
  import opened Selection
  import opened Cells
  import opened Node
  import opened Arena
  import opened Interning
  import opened Engine
  import opened LocalCanon
  import opened Incremental
  import opened Dce
  import opened Cse
  import opened Fusion
  import opened Stages
  import opened Reduce
  import Meaning
  import Operators

  // ---- the shape of the canonical arena ----

  /** Ids are handed out in order of first use, and each new one records the key that first used it. */
  ghost predicate FirstUses(nodes: seq<NodeKey>, st: State) {
    && TopologicalKeys(nodes) && |st.mapping| == |nodes|
    && st.mapping == NewIndex(st.mapping)
    && st.canonNodes == Select(Renumbered(nodes, st.mapping), RepMask(st.mapping))
  }

  lemma RepPrefix(f: seq<nat>, id: nat, i: nat)
    requires i < |f|
    ensures Rep(f + [id], i) == Rep(f, i)
  {
    RepFacts(f, i);
    RepFacts(f + [id], i);
    var r, s := Rep(f, i), Rep(f + [id], i);
    assert (f + [id])[i] == f[i] && (f + [id])[r] == f[r] && (f + [id])[s] == f[s];
  }

  lemma MaskPrefix(f: seq<nat>, id: nat)
    ensures forall i :: 0 <= i < |f| ==> RepMask(f + [id])[i] == RepMask(f)[i]
    ensures forall i {:trigger Rank(RepMask(f + [id]), i)} :: 0 <= i <= |f| ==> Rank(RepMask(f + [id]), i) == Rank(RepMask(f), i)
  {
    forall i | 0 <= i < |f|
      ensures RepMask(f + [id])[i] == RepMask(f)[i]
    {
      RepPrefix(f, id, i);
    }
    forall i: nat | i <= |f|
      ensures Rank(RepMask(f + [id]), i) == Rank(RepMask(f), i)
    {
      SelectPrefix(f, f + [id], RepMask(f), RepMask(f + [id]), i);
    }
  }

  lemma NewIndexPrefix(f: seq<nat>, id: nat, i: nat)
    requires i < |f|
    ensures NewIndex(f + [id])[i] == NewIndex(f)[i]
  {
    RepPrefix(f, id, i);
    MaskPrefix(f, id);
  }

  /** An id already used lands where it landed before. */
  lemma UsedId(f: seq<nat>, id: nat)
    requires f == NewIndex(f) && id < Rank(RepMask(f), |f|)
    ensures NewIndex(f + [id])[|f|] == id && !RepMask(f + [id])[|f|]
  {
    var f', n, i := f + [id], |f|, Origin(RepMask(f), id);
    assert Rep(f, i) == i;
    assert f[i] == NewIndex(f)[i] == id;
    assert f'[i] == f'[n];
    RepFacts(f', n);
    RepSame(f', i, n);
    NewIndexPrefix(f, id, i);
    assert NewIndex(f')[n] == NewIndex(f')[i];
  }

  /** The next new id lands at the end. */
  lemma FreshId(f: seq<nat>)
    requires f == NewIndex(f)
    ensures var id := Rank(RepMask(f), |f|); NewIndex(f + [id])[|f|] == id && RepMask(f + [id])[|f|]
  {
    var n, id := |f|, Rank(RepMask(f), |f|);
    forall i | 0 <= i < n
      ensures f[i] < id
    {
      NewIndexFaithful(f, i, i);
    }
    RepFacts(f + [id], n);
    assert Rep(f + [id], n) == n;
    MaskPrefix(f, id);
  }

  /** Adding an id that is the next new one or one already used keeps ids in order of first use. */
  lemma NewIndexAppend(f: seq<nat>, id: nat)
    requires f == NewIndex(f)
    requires id <= Rank(RepMask(f), |f|)
    ensures f + [id] == NewIndex(f + [id])
    ensures RepMask(f + [id])[|f|] <==> id == Rank(RepMask(f), |f|)
  {
    var n := |f|;
    if id < Rank(RepMask(f), n) {
      UsedId(f, id);
    } else {
      FreshId(f);
    }
    forall i | 0 <= i < n
      ensures NewIndex(f + [id])[i] == NewIndex(f)[i]
    {
      NewIndexPrefix(f, id, i);
    }
    Extend(NewIndex(f + [id]), NewIndex(f), id);
  }

  lemma Extend(g: seq<nat>, f: seq<nat>, id: nat)
    requires |g| == |f| + 1 && g[|f|] == id && forall i :: 0 <= i < |f| ==> g[i] == f[i]
    ensures g == f + [id]
  {
  }

  lemma ConsumeShape(nodes: seq<NodeKey>, before: State, key: NodeKey, st: State)
    requires RunInv(nodes, before) && Consume(before, key) == Ok(st)
    ensures AllBelow(key.Inputs(), |nodes|) && |before.mapping| == |nodes|
    ensures |st.mapping| == |nodes| + 1 && st.mapping == before.mapping + [st.mapping[|nodes|]]
    ensures st.mapping[|nodes|] <= |before.canonNodes|
    ensures st.canonNodes == if st.mapping[|nodes|] < |before.canonNodes| then before.canonNodes
      else before.canonNodes + [key.WithInputs(Renumber(before.mapping, key.Inputs()))]
  {
    var k := key.WithInputs(Renumber(before.mapping, key.Inputs()));
    assert st.mapping[|nodes|] == CanonicalizeKey(before.canonNodes, before.canonTable, k).value.0;
    if !IsIdentity(k) && k.Canon() in before.canonTable {
      FoundInTable(before.canonNodes, before.canonTable, k);
    }
  }

  lemma RenumberedAppend(nodes: seq<NodeKey>, key: NodeKey, f: seq<nat>, id: nat)
    requires TopologicalKeys(nodes) && TopologicalKeys(nodes + [key]) && |f| == |nodes|
    requires AllBelow(key.Inputs(), |f|)
    ensures Renumbered(nodes + [key], f + [id]) == Renumbered(nodes, f) + [key.WithInputs(Renumber(f, key.Inputs()))]
  {
    var more := nodes + [key];
    forall i | 0 <= i < |more|
      ensures Renumber(f + [id], more[i].Inputs()) == if i < |nodes| then Renumber(f, nodes[i].Inputs()) else Renumber(f, key.Inputs())
    {
      assert more[i] == if i < |nodes| then nodes[i] else key;
      assert AllBelow(more[i].Inputs(), i);
    }
  }

  lemma SelectAppend<T>(xs: seq<T>, x: T, mask: seq<bool>, mask': seq<bool>)
    requires |xs| == |mask| && |mask'| == |mask| + 1
    requires forall i :: 0 <= i < |mask| ==> mask'[i] == mask[i]
    ensures Select(xs + [x], mask') == Select(xs, mask) + if mask'[|mask|] then [x] else []
  {
    SelectPrefix(xs, xs + [x], mask, mask', |xs|);
  }

  lemma FirstUsesStep(nodes: seq<NodeKey>, before: State, key: NodeKey, st: State)
    requires RunInv(nodes, before) && FirstUses(nodes, before) && Consume(before, key) == Ok(st)
    requires TopologicalKeys(nodes + [key])
    ensures FirstUses(nodes + [key], st)
  {
    ConsumeShape(nodes, before, key, st);
    var f, id := before.mapping, st.mapping[|nodes|];
    NewIndexAppend(f, id);
    MaskPrefix(f, id);
    RenumberedAppend(nodes, key, f, id);
    SelectAppend(Renumbered(nodes, f), key.WithInputs(Renumber(f, key.Inputs())), RepMask(f), RepMask(f + [id]));
  }

  lemma FirstUsesSnoc(nodes: seq<NodeKey>, before: State, key: NodeKey, st: State)
    requires Consumed(nodes, before) && FirstUses(nodes, before) && Consume(before, key) == Ok(st)
    ensures FirstUses(nodes + [key], st)
  {
    RunKeepsInv(nodes, before);
    RunStep(nodes, before, key, st);
    FirstUsesStep(nodes, before, key, st);
  }

  lemma NothingUsed()
    ensures FirstUses([], EMPTY)
  {
    assert NewIndex(EMPTY.mapping) == [];
  }

  lemma RunFirstUses(nodes: seq<NodeKey>, st: State)
    requires Consumed(nodes, st)
    ensures FirstUses(nodes, st)
  {
    forall ns, before, key, after
      ensures Inductive(FirstUses, ns, before, key, after)
    {
      if Consumed(ns, before) && FirstUses(ns, before) && Consume(before, key) == Ok(after) {
        FirstUsesSnoc(ns, before, key, after);
      }
    }
    NothingUsed();
    RunInduction(FirstUses, nodes, st);
  }

  /** The recorded node behind a canonical one. */
  lemma CanonFrom(nodes: seq<NodeKey>, st: State, c: nat) returns (i: nat)
    requires FirstUses(nodes, st) && c < |st.canonNodes|
    ensures i < |nodes| && st.mapping[i] == c && Rep(st.mapping, i) == i
    ensures st.canonNodes[c] == nodes[i].WithInputs(Renumber(st.mapping, nodes[i].Inputs()))
  {
    var mask := RepMask(st.mapping);
    i := Origin(mask, c);
    SelectOrigin(Renumbered(nodes, st.mapping), mask, c);
    assert NewIndex(st.mapping)[i] == c;
  }

  lemma CanonStageFree(nodes: seq<NodeKey>, st: State)
    requires FirstUses(nodes, st) && StageFree(nodes)
    ensures StageFree(st.canonNodes)
  {
    forall c | 0 <= c < |st.canonNodes|
      ensures !st.canonNodes[c].Stage?
    {
      var i := CanonFrom(nodes, st, c);
    }
  }

  // ---- operators and tokens see the same equations ----

  ghost function TokenCells(nodes: seq<NodeKey>): (cells: seq<Cell<string>>)
    ensures |cells| == |nodes|
    ensures forall i {:trigger cells[i]} :: 0 <= i < |nodes| ==> cells[i] == Cell(nodes[i].Token(), nodes[i].Inputs())
    ensures TopologicalKeys(nodes) ==> Topological(cells)
  {
    CellsBy(TokenOf, nodes)
  }

  lemma SameShapes(k: NodeKey)
    ensures SameShape(HeadTheory(), HeadCell(k), TokenTheory(), Cell(k.Token(), k.Inputs()))
  {
    Operators.RulesAreLaws(k);
  }

  lemma HeadsRenameToTokens(nodes: seq<NodeKey>)
    requires Meaning.TokensTell(nodes)
    ensures Renaming(HeadTheory(), HeadCells(nodes), TokenTheory(), TokenCells(nodes))
  {
    forall i | 0 <= i < |nodes|
      ensures SameShape(HeadTheory(), HeadCells(nodes)[i], TokenTheory(), TokenCells(nodes)[i])
    {
      SameShapes(nodes[i]);
    }
    forall i, j | 0 <= i < |nodes| && 0 <= j < |nodes|
      ensures HeadCells(nodes)[i].sym == HeadCells(nodes)[j].sym <==> TokenCells(nodes)[i].sym == TokenCells(nodes)[j].sym
    {
      if nodes[i].Head() == nodes[j].Head() {
        HeadDeterminesToken(nodes[i], nodes[j]);
      }
    }
  }

  lemma CanonTell(nodes: seq<NodeKey>, st: State)
    requires FirstUses(nodes, st) && Meaning.TokensTell(nodes)
    ensures Meaning.TokensTell(st.canonNodes)
  {
    var canon := st.canonNodes;
    forall c, d | 0 <= c < |canon| && 0 <= d < |canon| && canon[c].Token() == canon[d].Token()
      ensures canon[c].Head() == canon[d].Head()
    {
      var i := CanonFrom(nodes, st, c);
      var j := CanonFrom(nodes, st, d);
      TokenOfHead(nodes[i], canon[c].Inputs());
      TokenOfHead(nodes[j], canon[d].Inputs());
      HeadIdempotent(nodes[i], canon[c].Inputs());
      HeadIdempotent(nodes[j], canon[d].Inputs());
    }
  }

  /** What the reducer was fed: a successfully consumed arena of recorded nodes with unary identities. */
  ghost predicate WellRecorded(nodes: seq<NodeKey>, st: State) {
    && Consumed(nodes, st) && TopologicalKeys(nodes)
    && Meaning.TokensTell(nodes) && StageFree(nodes) && IdentityOpsUnary(nodes)
  }

  /** Canonical ids join exactly the nodes whose token terms have one normal form. */
  lemma MappingIsForm(nodes: seq<NodeKey>, st: State, i: nat, j: nat)
    requires WellRecorded(nodes, st) && i < |nodes| && j < |nodes|
    ensures |st.mapping| == |nodes|
    ensures st.mapping[i] == st.mapping[j] <==> SameForm(TokenTheory(), TokenCells(nodes), i, j)
  {
    RunKeepsInv(nodes, st);
    UnaryByHeads(nodes);
    PlacedPair(HeadTheory(), HeadCells(nodes), HeadCells(st.canonNodes), st.mapping, i, j);
    HeadsRenameToTokens(nodes);
    RenamedForms(HeadTheory(), HeadCells(nodes), TokenTheory(), TokenCells(nodes), i, j);
  }

  /** No two canonical nodes have one token normal form. */
  lemma CanonFormsDistinct(nodes: seq<NodeKey>, st: State, c: nat, d: nat)
    requires WellRecorded(nodes, st) && c < d < |st.canonNodes|
    ensures TopologicalKeys(st.canonNodes) && !SameForm(TokenTheory(), TokenCells(st.canonNodes), c, d)
  {
    RunKeepsInv(nodes, st);
    RunFirstUses(nodes, st);
    CanonTell(nodes, st);
    HeadsRenameToTokens(st.canonNodes);
    RenamedForms(HeadTheory(), HeadCells(st.canonNodes), TokenTheory(), TokenCells(st.canonNodes), c, d);
    assert Form(HeadTheory(), HeadCells(st.canonNodes), c) != Form(HeadTheory(), HeadCells(st.canonNodes), d);
  }

  // ---- one-shot extraction yields the canonical arena ----

  /** The canonical arena as the engine sees it. */
  ghost function CanonGraph(st: State, outs: seq<NodeId>): EngineGraph
    requires AllBelow(outs, |st.mapping|)
  {
    ToEngineGraph(st.canonNodes, Renumber(st.mapping, outs))
  }

  lemma SaturatedMapping(nodes: seq<NodeKey>, outs: seq<NodeId>, st: State, classes: seq<nat>)
    requires WellRecorded(nodes, st) && AllBelow(outs, |nodes|)
    requires WellFormed(ToEngineGraph(nodes, outs)) && |classes| == |nodes|
    requires SaturatedClasses(ToEngineGraph(nodes, outs), classes)
    ensures |st.mapping| == |nodes| && RepMask(classes) == RepMask(st.mapping) && NewIndex(classes) == st.mapping
  {
    RunFirstUses(nodes, st);
    EngineGraphCells(nodes, outs);
    forall i, j | 0 <= i < |nodes| && 0 <= j < |nodes|
      ensures classes[i] == classes[j] <==> st.mapping[i] == st.mapping[j]
    {
      MappingIsForm(nodes, st, i, j);
      SaturatedClassesForms(ToEngineGraph(nodes, outs), classes, i, j);
    }
    RepMaskSame(classes, st.mapping);
  }

  lemma RewiredIsRenumbered(nodes: seq<NodeKey>, outs: seq<NodeId>, f: seq<nat>, classes: seq<nat>)
    requires TopologicalKeys(nodes) && AllBelow(outs, |nodes|) && WellFormed(ToEngineGraph(nodes, outs))
    requires |classes| == |nodes| == |f| && NewIndex(classes) == f
    ensures RewiredNodes(ToEngineGraph(nodes, outs), classes) == Map(EngineNodeOf, Renumbered(nodes, f))
  {
    var g := ToEngineGraph(nodes, outs);
    EngineGraphCells(nodes, outs);
    forall i | 0 <= i < |nodes|
      ensures RewiredNodes(g, classes)[i] == EngineNodeOf(Renumbered(nodes, f)[i])
    {
      TokenOfHead(nodes[i], Renumber(f, nodes[i].Inputs()));
      BoundaryByToken(nodes[i]);
      assert CellsOf(g)[i].inputs == nodes[i].Inputs();
    }
  }

  /** Extraction by a saturated engine from the whole arena keeps exactly the canonical arena. */
  lemma ExtractIsCanon(nodes: seq<NodeKey>, outs: seq<NodeId>, st: State, classes: seq<nat>)
    requires WellRecorded(nodes, st) && AllBelow(outs, |nodes|)
    requires WellFormed(ToEngineGraph(nodes, outs)) && |classes| == |nodes|
    requires SaturatedClasses(ToEngineGraph(nodes, outs), classes)
    ensures |st.mapping| == |nodes| && Extract(ToEngineGraph(nodes, outs), classes) == CanonGraph(st, outs)
  {
    SaturatedMapping(nodes, outs, st, classes);
    RunFirstUses(nodes, st);
    RewiredIsRenumbered(nodes, outs, st.mapping, classes);
    SelectMap(EngineNodeOf, Renumbered(nodes, st.mapping), RepMask(st.mapping), |nodes|);
  }

  // ---- the canonical arena is a fixpoint of every pass ----

  lemma CanonGraphWellFormed(nodes: seq<NodeKey>, outs: seq<NodeId>, st: State)
    requires WellRecorded(nodes, st) && AllBelow(outs, |nodes|)
    ensures |st.mapping| == |nodes| && TopologicalKeys(st.canonNodes)
    ensures AllBelow(Renumber(st.mapping, outs), |st.canonNodes|)
    ensures WellFormed(CanonGraph(st, outs)) && CellsOf(CanonGraph(st, outs)) == TokenCells(st.canonNodes)
  {
    RunKeepsInv(nodes, st);
    EngineGraphCells(st.canonNodes, Renumber(st.mapping, outs));
  }

  /** No two nodes have one token normal form. */
  ghost predicate DistinctForms(keys: seq<NodeKey>)
    requires TopologicalKeys(keys)
  {
    forall c, d :: 0 <= c < d < |keys| ==> !SameForm(TokenTheory(), TokenCells(keys), c, d)
  }

  /** Hash-consing leaves distinct forms alone. */
  lemma DistinctDeduped(keys: seq<NodeKey>, outs: seq<nat>)
    requires TopologicalKeys(keys) && DistinctForms(keys) && AllBelow(outs, |keys|)
    ensures WellFormed(ToEngineGraph(keys, outs)) && Dedup(ToEngineGraph(keys, outs)) == ToEngineGraph(keys, outs)
  {
    EngineGraphCells(keys, outs);
    var g := TokenCells(keys);
    forall c, d | 0 <= c < d < |g|
      ensures Unfold(g, c) != Unfold(g, d)
    {
      assert !SameForm(TokenTheory(), g, c, d);
    }
    DistinctTermsHashConsed(g);
    DedupFixpoint(ToEngineGraph(keys, outs));
  }

  /** Extraction leaves distinct forms alone. */
  lemma DistinctExtracted(keys: seq<NodeKey>, outs: seq<nat>, classes: seq<nat>)
    requires TopologicalKeys(keys) && DistinctForms(keys) && AllBelow(outs, |keys|) && |classes| == |keys|
    requires WellFormed(ToEngineGraph(keys, outs)) && SoundClasses(ToEngineGraph(keys, outs), classes)
    ensures Extract(ToEngineGraph(keys, outs), classes) == ToEngineGraph(keys, outs)
  {
    var g := ToEngineGraph(keys, outs);
    EngineGraphCells(keys, outs);
    SoundClassesForms(g, classes);
    forall c, d | 0 <= c < d < |classes|
      ensures classes[c] != classes[d]
    {
      assert !SameForm(TokenTheory(), TokenCells(keys), c, d);
    }
    QuotientIdentity(CellsOf(g), classes);
    forall c | 0 <= c < |g.nodes|
      ensures RewiredNodes(g, classes)[c] == g.nodes[c]
    {
      BoundaryByToken(keys[c]);
      assert Renumber(NewIndex(classes), CellsOf(g)[c].inputs) == g.nodes[c].inputs;
    }
    assert RewiredNodes(g, classes) == g.nodes;
    SelectAll(g.nodes, RepMask(classes), |g.nodes|);
    assert Renumber(NewIndex(classes), g.outputs) == g.outputs;
  }

  lemma CanonDistinct(nodes: seq<NodeKey>, st: State)
    requires WellRecorded(nodes, st)
    ensures TopologicalKeys(st.canonNodes) && DistinctForms(st.canonNodes)
  {
    RunKeepsInv(nodes, st);
    forall c, d | 0 <= c < d < |st.canonNodes|
      ensures !SameForm(TokenTheory(), TokenCells(st.canonNodes), c, d)
    {
      CanonFormsDistinct(nodes, st, c, d);
    }
  }

  ghost predicate AllReachable(nodes: seq<NodeKey>, outs: seq<NodeId>) {
    forall i :: 0 <= i < |nodes| ==> Reachable(nodes, outs, i)
  }

  /** A use in the recorded arena is a use in the canonical one, or disappears with its identity. */
  lemma UseCarried(nodes: seq<NodeKey>, st: State, j: nat, i: nat)
    requires WellRecorded(nodes, st) && j < |nodes| && i in nodes[j].Inputs()
    ensures i < j && |st.mapping| == |nodes| && st.mapping[j] < |st.canonNodes|
    ensures st.mapping[i] == st.mapping[j] || st.mapping[i] in st.canonNodes[st.mapping[j]].Inputs()
  {
    RunKeepsInv(nodes, st);
    UnaryByHeads(nodes);
    var k :| 0 <= k < |nodes[j].Inputs()| && nodes[j].Inputs()[k] == i;
    EdgeCarried(HeadTheory(), HeadCells(nodes), HeadCells(st.canonNodes), st.mapping, j, k);
    assert HeadCells(st.canonNodes)[st.mapping[j]].inputs == st.canonNodes[st.mapping[j]].Inputs();
  }

  lemma {:induction false} CanonReachable(nodes: seq<NodeKey>, outs: seq<NodeId>, st: State, i: nat)
    requires WellRecorded(nodes, st) && AllBelow(outs, |nodes|)
    requires i < |nodes| && Reachable(nodes, outs, i)
    ensures |st.mapping| == |nodes| && st.mapping[i] < |st.canonNodes| && TopologicalKeys(st.canonNodes)
    ensures Reachable(st.canonNodes, Renumber(st.mapping, outs), st.mapping[i])
    decreases |nodes| - i
  {
    CanonGraphWellFormed(nodes, outs, st);
    var outs', f := Renumber(st.mapping, outs), st.mapping;
    if i in outs {
      var k :| 0 <= k < |outs| && outs[k] == i;
      assert outs'[k] == f[i];
    } else {
      var j :| i < j < |nodes| && i in nodes[j].Inputs() && Reachable(nodes, outs, j);
      CanonReachable(nodes, outs, st, j);
      UseCarried(nodes, st, j, i);
      if f[i] != f[j] {
        var k :| 0 <= k < |st.canonNodes[f[j]].Inputs()| && st.canonNodes[f[j]].Inputs()[k] == f[i];
        assert f[i] < f[j];
      }
    }
  }

  lemma CanonKept(nodes: seq<NodeKey>, outs: seq<NodeId>, st: State)
    requires WellRecorded(nodes, st) && AllBelow(outs, |nodes|) && AllReachable(nodes, outs)
    ensures |st.mapping| == |nodes| && TopologicalKeys(st.canonNodes)
    ensures AllBelow(Renumber(st.mapping, outs), |st.canonNodes|)
    ensures Kept(st.canonNodes, Renumber(st.mapping, outs)) == st.canonNodes
    ensures KeptOutputs(st.canonNodes, Renumber(st.mapping, outs)) == Renumber(st.mapping, outs)
  {
    CanonGraphWellFormed(nodes, outs, st);
    RunFirstUses(nodes, st);
    forall c | 0 <= c < |st.canonNodes|
      ensures Reachable(st.canonNodes, Renumber(st.mapping, outs), c)
    {
      var i := CanonFrom(nodes, st, c);
      CanonReachable(nodes, outs, st, i);
    }
    AllReachableKept(st.canonNodes, Renumber(st.mapping, outs));
  }

  // ---- templates ----

  /** Templates that rebuild every boundary of the graph alike. */
  ghost predicate SameTemplates(g: EngineGraph, t1: map<string, NodeKey>, t2: map<string, NodeKey>) {
    forall c {:trigger g.nodes[c]} :: 0 <= c < |g.nodes| && g.nodes[c].boundary ==>
      && g.nodes[c].token in t1 && g.nodes[c].token in t2
      && SameOperator(t1[g.nodes[c].token], t2[g.nodes[c].token])
  }

  ghost predicate SameOperator(a: NodeKey, b: NodeKey) {
    a.WithInputs([]) == b.WithInputs([])
  }

  lemma SameOperatorRebuilds(a: NodeKey, b: NodeKey, inputs: seq<NodeId>)
    requires SameOperator(a, b)
    ensures a.WithInputs(inputs) == b.WithInputs(inputs)
  {
    assert a.WithInputs([]).WithInputs(inputs) == a.WithInputs(inputs);
    assert b.WithInputs([]).WithInputs(inputs) == b.WithInputs(inputs);
  }

  lemma SameFusion(g: EngineGraph, part: seq<nat>, t1: map<string, NodeKey>, t2: map<string, NodeKey>)
    requires Fusable(g, part, t1) && Fusable(g, part, t2) && SameTemplates(g, t1, t2)
    ensures FusedNodes(g, part, t1) == FusedNodes(g, part, t2)
  {
    forall h | 0 <= h < |part|
      ensures EmittedAt(g, part, t1, h) == EmittedAt(g, part, t2, h)
    {
      if g.nodes[h].boundary {
        SameOperatorRebuilds(t1[g.nodes[h].token], t2[g.nodes[h].token], Renumber(ReducedIndex(part), CellsOf(g)[h].inputs));
      }
    }
    assert Emitted(g, part, t1) == Emitted(g, part, t2);
  }

  lemma BoundaryForm(nodes: seq<NodeKey>, j: nat)
    requires TopologicalKeys(nodes) && j < |nodes| && nodes[j].IsBoundary()
    ensures var nf := Form(HeadTheory(), HeadCells(nodes), j); nf.Plain? && nf.sym == nodes[j].Head()
  {
    FormStep(HeadTheory(), HeadCells(nodes), j);
    assert HeadCells(nodes)[j].sym == nodes[j].Head();
  }

  /** The first recorded boundary with a token is canonical: nothing before it could have its form. */
  lemma FirstBoundaryCanonical(nodes: seq<NodeKey>, st: State, j: nat)
    requires WellRecorded(nodes, st) && j < |nodes| && nodes[j].IsBoundary()
    requires forall i :: 0 <= i < j ==> nodes[i].Token() != nodes[j].Token()
    ensures |st.mapping| == |nodes| && Rep(st.mapping, j) == j
  {
    RunKeepsInv(nodes, st);
    UnaryByHeads(nodes);
    RepFacts(st.mapping, j);
    var r := Rep(st.mapping, j);
    PlacedPair(HeadTheory(), HeadCells(nodes), HeadCells(st.canonNodes), st.mapping, r, j);
    BoundaryForm(nodes, j);
    var s := PlainComesFrom(HeadTheory(), HeadCells(nodes), r);
    assert HeadCells(nodes)[s].sym == nodes[s].Head();
    HeadDeterminesToken(nodes[s], nodes[j]);
  }

  lemma TemplatesAgree(nodes: seq<NodeKey>, st: State, c: nat)
    requires WellRecorded(nodes, st) && c < |st.canonNodes| && st.canonNodes[c].IsBoundary()
    ensures var t := st.canonNodes[c].Token();
      && t in Templates(nodes) && t in Templates(st.canonNodes)
      && SameOperator(Templates(nodes)[t], Templates(st.canonNodes)[t])
  {
    RunFirstUses(nodes, st);
    var i := CanonFrom(nodes, st, c);
    TokenOfHead(nodes[i], Renumber(st.mapping, nodes[i].Inputs()));
    var j := TemplateIsFirst(nodes, i);
    var d := TemplateIsFirst(st.canonNodes, c);
    BoundaryByToken(nodes[j]);
    BoundaryByToken(nodes[i]);
    forall l | 0 <= l < j
      ensures nodes[l].Token() != nodes[j].Token()
    {
      assert Map(TokenOf, nodes)[l] != nodes[i].Token();
    }
    FirstBoundaryCanonical(nodes, st, j);
    FirstCanonical(nodes, st, j, d);
  }

  /** The first canonical node with a token is the first recorded one, renumbered. */
  lemma FirstCanonical(nodes: seq<NodeKey>, st: State, j: nat, d: nat)
    requires FirstUses(nodes, st) && j < |nodes| && Rep(st.mapping, j) == j
    requires d < |st.canonNodes| && IsFirst(Map(TokenOf, st.canonNodes), d, nodes[j].Token())
    requires forall l :: 0 <= l < j ==> nodes[l].Token() != nodes[j].Token()
    ensures SameOperator(nodes[j], st.canonNodes[d])
  {
    var mask, xs := RepMask(st.mapping), Renumbered(nodes, st.mapping);
    SelectAt(xs, mask, j);
    var p := Rank(mask, j);
    TokenOfHead(nodes[j], Renumber(st.mapping, nodes[j].Inputs()));
    assert Map(TokenOf, st.canonNodes)[p] == nodes[j].Token();
    var i := Origin(mask, d);
    SelectOrigin(xs, mask, d);
    TokenOfHead(nodes[i], Renumber(st.mapping, nodes[i].Inputs()));
    assert Map(TokenOf, st.canonNodes)[d] == nodes[i].Token();
    assert d <= p;
    if i != j {
      assert j <= i;
      RankMonotone(mask, j, i);
    }
  }

  // ---- the agreement ----

  /** When every recorded node is reachable from the outputs and the engine saturates, finishing the
      incremental reduction and reducing in one shot give identical nodes and outputs in both modes. */
  lemma IncrementalIsOneShot(nodes: seq<NodeKey>, outs: seq<NodeId>, st: State, engine: RewriteEngine, mode: FusionMode)
    requires WellRecorded(nodes, st) && AllBelow(outs, |nodes|) && AllReachable(nodes, outs)
    requires SaturatedEngine(engine)
    ensures |st.mapping| == |nodes| && Reducible(nodes, outs) && Reducible(st.canonNodes, Renumber(st.mapping, outs))
    ensures SoundEngine(engine)
    ensures var r := ReduceNodes(nodes, outs, engine, mode);
      var s := ReduceNodes(st.canonNodes, Renumber(st.mapping, outs), engine, mode);
      r.nodes == s.nodes && r.outputs == s.outputs
  {
    SameDeduped(nodes, outs, st, engine);
    var outs' := Renumber(st.mapping, outs);
    var g, t1, t2 := CanonGraph(st, outs), Templates(nodes), Templates(st.canonNodes);
    AllReachableKept(nodes, outs);
    TemplatesServe(nodes, outs, engine);
    TemplatesServe(st.canonNodes, outs', engine);
    PartitionValid(g, mode);
    forall c | 0 <= c < |g.nodes| && g.nodes[c].boundary
      ensures g.nodes[c].token in t1 && g.nodes[c].token in t2 && SameOperator(t1[g.nodes[c].token], t2[g.nodes[c].token])
    {
      TemplatesAgree(nodes, st, c);
    }
    SameFusion(g, Partition(g, mode), t1, t2);
  }

  /** Up to stage fusion both ways arrive at the canonical arena, which no pass changes any more. */
  lemma SameDeduped(nodes: seq<NodeKey>, outs: seq<NodeId>, st: State, engine: RewriteEngine)
    requires WellRecorded(nodes, st) && AllBelow(outs, |nodes|) && AllReachable(nodes, outs)
    requires SaturatedEngine(engine)
    ensures |st.mapping| == |nodes| && Reducible(nodes, outs) && Reducible(st.canonNodes, Renumber(st.mapping, outs))
    ensures SoundEngine(engine)
    ensures DedupedGraph(nodes, outs, engine) == CanonGraph(st, outs)
    ensures Kept(st.canonNodes, Renumber(st.mapping, outs)) == st.canonNodes
    ensures ReachableGraph(st.canonNodes, Renumber(st.mapping, outs)) == CanonGraph(st, outs)
    ensures CanonicalGraph(st.canonNodes, Renumber(st.mapping, outs), engine) == CanonGraph(st, outs)
    ensures DedupedGraph(st.canonNodes, Renumber(st.mapping, outs), engine) == CanonGraph(st, outs)
  {
    SaturatedIsSound(engine);
    RunFirstUses(nodes, st);
    CanonStageFree(nodes, st);
    CanonGraphWellFormed(nodes, outs, st);
    CanonKept(nodes, outs, st);
    AllReachableKept(nodes, outs);
    EngineGraphCells(nodes, outs);
    ExtractIsCanon(nodes, outs, st, engine(ToEngineGraph(nodes, outs)));
    CanonDistinct(nodes, st);
    DistinctExtracted(st.canonNodes, Renumber(st.mapping, outs), engine(CanonGraph(st, outs)));
    DistinctDeduped(st.canonNodes, Renumber(st.mapping, outs));
  }

  // ---- without the reachability condition ----

  lemma ConsumeSucceeds(nodes: seq<NodeKey>, before: State, key: NodeKey)
    requires Consumed(nodes, before) && AllBelow(key.Inputs(), |nodes|)
    requires IsIdentity(key) ==> |key.Inputs()| == 1
    ensures |before.mapping| == |nodes| && Consume(before, key).Ok?
    ensures Consumed(nodes + [key], Consume(before, key).value)
  {
    RunKeepsInv(nodes, before);
    IdentityByHead(key, Renumber(before.mapping, key.Inputs()));
    ConsumedSnoc(nodes, before, key, Consume(before, key).value);
  }

  /** Recording never fails on an arena whose inputs precede their uses and whose identities are unary. */
  lemma {:induction false} RecordingSucceeds(nodes: seq<NodeKey>) returns (st: State)
    requires TopologicalKeys(nodes) && IdentityOpsUnary(nodes)
    ensures Consumed(nodes, st)
    decreases |nodes|
  {
    if nodes == [] {
      st := EMPTY;
    } else {
      var init, key := nodes[..|nodes| - 1], nodes[|nodes| - 1];
      assert nodes == init + [key];
      assert forall i :: 0 <= i < |init| ==> init[i] == nodes[i];
      var before := RecordingSucceeds(init);
      ConsumeSucceeds(init, before, key);
      st := Consume(before, key).value;
    }
  }

  lemma KeptWellRecorded(nodes: seq<NodeKey>, outs: seq<NodeId>) returns (st: State)
    requires Reducible(nodes, outs) && Meaning.NeededTokensTell(nodes, outs) && IdentityOpsUnary(nodes)
    ensures WellRecorded(Kept(nodes, outs), st)
  {
    KeptTopological(nodes, outs);
    Meaning.KeptTell(nodes, outs);
    KeptStageFree(nodes, outs);
    var kept := Kept(nodes, outs);
    forall p | 0 <= p < |kept|
      ensures IsIdentity(kept[p]) ==> |kept[p].Inputs()| == 1
    {
      var i := KeptFrom(nodes, outs, p);
      IdentityByHead(nodes[i], kept[p].Inputs());
    }
    st := RecordingSucceeds(kept);
  }

  /** Unconditionally, one-shot reduction is what an incremental reducer that was fed only the reachable
      nodes finishes with. */
  lemma OneShotIsIncrementalOfReachable(nodes: seq<NodeKey>, outs: seq<NodeId>, engine: RewriteEngine, mode: FusionMode)
      returns (st: State)
    requires Reducible(nodes, outs) && Meaning.NeededTokensTell(nodes, outs)
    requires IdentityOpsUnary(nodes) && SaturatedEngine(engine)
    ensures WellRecorded(Kept(nodes, outs), st)
    ensures |st.mapping| == |Kept(nodes, outs)| && AllBelow(KeptOutputs(nodes, outs), |st.mapping|)
    ensures SoundEngine(engine) && Reducible(nodes, outs)
    ensures Reducible(st.canonNodes, Renumber(st.mapping, KeptOutputs(nodes, outs)))
    ensures var r := ReduceNodes(nodes, outs, engine, mode);
      var s := ReduceNodes(st.canonNodes, Renumber(st.mapping, KeptOutputs(nodes, outs)), engine, mode);
      r.nodes == s.nodes && r.outputs == s.outputs
  {
    st := KeptWellRecorded(nodes, outs);
    KeptTopological(nodes, outs);
    KeptAllReachable(nodes, outs);
    AllReachableKept(Kept(nodes, outs), KeptOutputs(nodes, outs));
    IncrementalIsOneShot(Kept(nodes, outs), KeptOutputs(nodes, outs), st, engine, mode);
  }
}
