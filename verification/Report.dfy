/** What the figures of the reduction report count. */
module Report {
  import opened Selection
  import opened Terms
  import opened Cells
  import opened Node
  import opened Arena
  import opened Engine
  import opened Dce
  import opened Cse
  import opened Fusion
  import opened FusedMeaning
  import opened Reduce

  /** The recorded nodes that some output needs. */
  ghost function Needed(nodes: seq<NodeKey>, outs: seq<NodeId>): set<nat> {
    set i: nat | i < |nodes| && Reachable(nodes, outs, i)
  }

  ghost function TokenForm(nodes: seq<NodeKey>, i: nat): NTerm<string>
    requires TopologicalKeys(nodes) && i < |nodes|
  {
    Form(TokenTheory(), CellsBy(TokenOf, nodes), i)
  }

  /** Their normal forms under the rules: one for each class of provably equal needed nodes. */
  ghost function NeededForms(nodes: seq<NodeKey>, outs: seq<NodeId>): set<NTerm<string>>
    requires TopologicalKeys(nodes)
  {
    set i: nat | i < |nodes| && Reachable(nodes, outs, i) :: TokenForm(nodes, i)
  }

  /** The stages among the reduced nodes. */
  ghost function StagesOf(nodes: seq<NodeKey>): set<nat> {
    set p: nat | p < |nodes| && nodes[p].Stage?
  }

  lemma NeededCounted(nodes: seq<NodeKey>, outs: seq<NodeId>)
    requires TopologicalKeys(nodes)
    ensures |Kept(nodes, outs)| == |Needed(nodes, outs)|
  {
    var mask := ReachMask(nodes, outs);
    RankCounts(mask, |mask|);
    assert Masked(mask, |mask|) == Needed(nodes, outs);
  }

  ghost function StageFlags(nodes: seq<NodeKey>): (mask: seq<bool>)
    ensures |mask| == |nodes| && forall p :: 0 <= p < |nodes| ==> mask[p] == nodes[p].Stage?
  {
    seq(|nodes|, p requires 0 <= p < |nodes| => nodes[p].Stage?)
  }

  lemma {:induction false} StagesRanked(nodes: seq<NodeKey>, n: nat)
    requires n <= |nodes|
    ensures CountStages(nodes[..n]) == Rank(StageFlags(nodes), n)
  {
    if n > 0 {
      StagesRanked(nodes, n - 1);
      assert nodes[..n][..n - 1] == nodes[..n - 1];
    }
  }

  lemma StagesCounted(nodes: seq<NodeKey>)
    ensures CountStages(nodes) == |StagesOf(nodes)|
  {
    StagesRanked(nodes, |nodes|);
    RankCounts(StageFlags(nodes), |nodes|);
    assert nodes[..|nodes|] == nodes;
    assert Masked(StageFlags(nodes), |nodes|) == StagesOf(nodes);
  }

  // ---- the classes behind a saturated engine ----

  /** Each extracted node stands for the earliest member of its class. */
  lemma ExtractedForm(g: EngineGraph, classes: seq<nat>, p: nat) returns (i: nat)
    requires WellFormed(g) && |classes| == |g.nodes| && SoundClasses(g, classes)
    requires WellFormed(Extract(g, classes)) && p < |Extract(g, classes).nodes|
    ensures i < |g.nodes| && RepMask(classes)[i] && Rank(RepMask(classes), i) == p
    ensures Form(TokenTheory(), CellsOf(Extract(g, classes)), p) == Form(TokenTheory(), CellsOf(g), i)
  {
    i := Origin(RepMask(classes), p);
    assert NewIndex(classes)[i] == p;
    ExtractSound(g, classes, i);
    NormalFormDecides(TokenTheory(), Unfold(CellsOf(Extract(g, classes)), p), Unfold(CellsOf(g), i));
  }

  /** After extraction by saturated classes no two nodes stand for one term. */
  lemma ExtractedApart(g: EngineGraph, classes: seq<nat>, p: nat, q: nat)
    requires WellFormed(g) && |classes| == |g.nodes| && SoundClasses(g, classes) && SaturatedClasses(g, classes)
    requires WellFormed(Extract(g, classes)) && p < q < |Extract(g, classes).nodes|
    ensures Unfold(CellsOf(Extract(g, classes)), p) != Unfold(CellsOf(Extract(g, classes)), q)
  {
    var i := ExtractedForm(g, classes, p);
    var j := ExtractedForm(g, classes, q);
    SaturatedClassesForms(g, classes, i, j);
    RepSame(classes, i, j);
    assert Rep(classes, i) == i && Rep(classes, j) == j;
  }

  /** So hash-consing finds nothing to join. */
  lemma SaturatedDeduped(g: EngineGraph, classes: seq<nat>)
    requires WellFormed(g) && |classes| == |g.nodes| && SoundClasses(g, classes) && SaturatedClasses(g, classes)
    ensures WellFormed(Extract(g, classes)) && Dedup(Extract(g, classes)) == Extract(g, classes)
  {
    ExtractWellFormed(g, classes);
    var cells := CellsOf(Extract(g, classes));
    forall p, q | 0 <= p < q < |cells|
      ensures Unfold(cells, p) != Unfold(cells, q)
    {
      ExtractedApart(g, classes, p, q);
    }
    DistinctTermsHashConsed(cells);
    DedupFixpoint(Extract(g, classes));
  }

  ghost function FormsOf(g: EngineGraph): (forms: seq<NTerm<string>>)
    requires WellFormed(g)
    ensures |forms| == |g.nodes|
    ensures forall i :: 0 <= i < |forms| ==> forms[i] == Form(TokenTheory(), CellsOf(g), i)
  {
    seq(|g.nodes|, i requires 0 <= i < |g.nodes| => Form(TokenTheory(), CellsOf(g), i))
  }

  /** There are as many classes as normal forms. */
  lemma SaturatedCount(g: EngineGraph, classes: seq<nat>)
    requires WellFormed(g) && |classes| == |g.nodes| && SaturatedClasses(g, classes)
    ensures |Extract(g, classes).nodes| == |ClassSet(FormsOf(g), |g.nodes|)|
  {
    var forms := FormsOf(g);
    forall i, j | 0 <= i < |classes| && 0 <= j < |classes|
      ensures classes[i] == classes[j] <==> forms[i] == forms[j]
    {
      SaturatedClassesForms(g, classes, i, j);
    }
    RepMaskSame(classes, forms);
    RepsCount(forms, |forms|);
  }

  lemma FormOfKept(nodes: seq<NodeKey>, outs: seq<NodeId>, p: nat)
    requires Requestable(nodes, outs) && TopologicalKeys(Kept(nodes, outs)) && p < |Kept(nodes, outs)|
    ensures p < |ReachableGraph(nodes, outs).nodes|
    ensures FormsOf(ReachableGraph(nodes, outs))[p] == TokenForm(Kept(nodes, outs), p)
  {
    KeptTopological(nodes, outs);
    EngineGraphCells(Kept(nodes, outs), KeptOutputs(nodes, outs));
  }

  /** A needed node keeps its form when the others are dropped. */
  lemma NeededForm(nodes: seq<NodeKey>, outs: seq<NodeId>, i: nat)
    requires Requestable(nodes, outs) && i < |nodes| && Reachable(nodes, outs, i)
    ensures var p := Rank(ReachMask(nodes, outs), i);
      p < |Kept(nodes, outs)| && FormsOf(ReachableGraph(nodes, outs))[p] == TokenForm(nodes, i)
  {
    KeptTokenTerms(nodes, outs, i);
    FormOfKept(nodes, outs, Rank(ReachMask(nodes, outs), i));
  }

  lemma KeptFormNeeded(nodes: seq<NodeKey>, outs: seq<NodeId>, p: nat)
    requires Requestable(nodes, outs) && p < |ReachableGraph(nodes, outs).nodes|
    ensures FormsOf(ReachableGraph(nodes, outs))[p] in NeededForms(nodes, outs)
  {
    var i := KeptFrom(nodes, outs, p);
    NeededForm(nodes, outs, i);
  }

  lemma FormsAreNeeded(nodes: seq<NodeKey>, outs: seq<NodeId>)
    requires Requestable(nodes, outs)
    ensures var g := ReachableGraph(nodes, outs); ClassSet(FormsOf(g), |g.nodes|) == NeededForms(nodes, outs)
  {
    var g := ReachableGraph(nodes, outs);
    var forms := FormsOf(g);
    forall i: nat | i < |nodes| && Reachable(nodes, outs, i)
      ensures TokenForm(nodes, i) in ClassSet(forms, |g.nodes|)
    {
      NeededForm(nodes, outs, i);
      assert TokenForm(nodes, i) == forms[Rank(ReachMask(nodes, outs), i)];
    }
    forall p: nat | p < |g.nodes|
      ensures forms[p] in NeededForms(nodes, outs)
    {
      KeptFormNeeded(nodes, outs, p);
    }
  }

  lemma CanonicalCounted(nodes: seq<NodeKey>, outs: seq<NodeId>, engine: RewriteEngine)
    requires Requestable(nodes, outs) && SaturatedEngine(engine) && SoundEngine(engine)
    ensures |DedupedGraph(nodes, outs, engine).nodes| == |NeededForms(nodes, outs)|
  {
    var g := ReachableGraph(nodes, outs);
    SaturatedDeduped(g, engine(g));
    SaturatedCount(g, engine(g));
    FormsAreNeeded(nodes, outs);
  }

  // ---- the report ----

  /** The report counts the recorded nodes, the needed ones, behind a saturated engine the classes of
      provably equal needed ones, the reduced nodes, and among them the stages and the others. */
  lemma ReportCounts(nodes: seq<NodeKey>, outs: seq<NodeId>, engine: RewriteEngine, mode: FusionMode)
    requires Reducible(nodes, outs) && SoundEngine(engine)
    ensures var r := ReduceNodes(nodes, outs, engine, mode);
      && r.report.inputNodes == |nodes|
      && r.report.reachableNodes == |Needed(nodes, outs)|
      && (SaturatedEngine(engine) ==> r.report.canonicalNodes == |NeededForms(nodes, outs)|)
      && r.report.reducedNodes == |r.nodes|
      && r.report.stages == |StagesOf(r.nodes)|
      && r.report.boundaryNodes == |r.nodes| - |StagesOf(r.nodes)|
  {
    NeededCounted(nodes, outs);
    if SaturatedEngine(engine) {
      CanonicalCounted(nodes, outs, engine);
    }
    ReportBounds(nodes, outs, engine, mode);
    StagesCounted(ReduceNodes(nodes, outs, engine, mode).nodes);
  }
}
