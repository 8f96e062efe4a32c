/** The reduction pipeline: dead-code elimination, canonicalization behind the engine contract,
hash-consing and stage fusion, with what the whole of it preserves. */
module Reduce {
  import opened Wrappers
  import opened Selection
  import opened Terms
  import opened Cells
  import opened Node
  import opened Arena
  import opened Engine
  import opened Dce
  import opened Cse
  import opened Fusion
  import opened Semantics
  import opened Stages
  import opened FusedMeaning
  import opened StageFusion

  // ---- glue between the passes ----

  function EngineNodeOf(k: NodeKey): EngineNode {
    EngineNode(k.Token(), k.IsBoundary(), k.Inputs())
  }

  function ToEngineGraph(keys: seq<NodeKey>, outs: seq<nat>): EngineGraph {
    EngineGraph(Map(EngineNodeOf, keys), outs)
  }

  lemma EngineGraphCells(keys: seq<NodeKey>, outs: seq<nat>)
    requires TopologicalKeys(keys) && AllBelow(outs, |keys|)
    ensures WellFormed(ToEngineGraph(keys, outs))
    ensures CellsOf(ToEngineGraph(keys, outs)) == CellsBy(TokenOf, keys)
  {
    assert CellsOf(ToEngineGraph(keys, outs)) == CellsBy(TokenOf, keys);
  }

  /** The first key with each token, among the first `n`. */
  ghost function TemplatesTo(keys: seq<NodeKey>, tokens: seq<string>, n: nat): map<string, NodeKey>
    requires n <= |keys| == |tokens|
  {
    if n == 0 then map[] else
      var t := TemplatesTo(keys, tokens, n - 1);
      if tokens[n - 1] in t then t else t[tokens[n - 1] := keys[n - 1]]
  }

  ghost function Templates(keys: seq<NodeKey>): map<string, NodeKey> {
    TemplatesTo(keys, Map(TokenOf, keys), |keys|)
  }

  ghost predicate IsFirst(tokens: seq<string>, i: nat, token: string) {
    i < |tokens| && tokens[i] == token && forall j :: 0 <= j < i ==> tokens[j] != token
  }

  lemma {:induction false} TemplatesToFirst(keys: seq<NodeKey>, tokens: seq<string>, n: nat, i: nat, token: string)
    requires i < n <= |keys| == |tokens|
    requires IsFirst(tokens, i, token)
    ensures token in TemplatesTo(keys, tokens, n) && TemplatesTo(keys, tokens, n)[token] == keys[i]
  {
    if i < n - 1 {
      TemplatesToFirst(keys, tokens, n - 1, i, token);
    } else {
      TemplatesToAbsent(keys, tokens, n - 1, token);
    }
  }

  lemma {:induction false} TemplatesToAbsent(keys: seq<NodeKey>, tokens: seq<string>, n: nat, token: string)
    requires n <= |keys| == |tokens|
    requires forall j :: 0 <= j < n ==> tokens[j] != token
    ensures token !in TemplatesTo(keys, tokens, n)
  {
    if n > 0 {
      TemplatesToAbsent(keys, tokens, n - 1, token);
    }
  }

  /** The template of a token is the first key that carries it. */
  lemma TemplateIsFirst(keys: seq<NodeKey>, i: nat) returns (first: nat)
    requires i < |keys|
    ensures first <= i && IsFirst(Map(TokenOf, keys), first, keys[i].Token())
    ensures keys[i].Token() in Templates(keys) && Templates(keys)[keys[i].Token()] == keys[first]
    ensures keys[first].Token() == keys[i].Token()
  {
    var tokens := Map(TokenOf, keys);
    first := Rep(tokens, i);
    RepFacts(tokens, i);
    TemplatesToFirst(keys, tokens, |keys|, first, tokens[i]);
  }

  /** The key is the one collected for its token. */
  ghost predicate IsTemplate(keys: seq<NodeKey>, i: nat) {
    i < |keys| && keys[i].Token() in Templates(keys) && Templates(keys)[keys[i].Token()] == keys[i]
  }

  /** A template is one of the keys, under its own token. */
  lemma TemplateFrom(keys: seq<NodeKey>, token: string) returns (i: nat)
    requires token in Templates(keys)
    ensures i < |keys| && keys[i].Token() == token && Templates(keys)[token] == keys[i]
  {
    i := TemplateFromTo(keys, Map(TokenOf, keys), |keys|, token);
  }

  lemma {:induction false} TemplateFromTo(keys: seq<NodeKey>, tokens: seq<string>, n: nat, token: string) returns (i: nat)
    requires n <= |keys| == |tokens| && token in TemplatesTo(keys, tokens, n)
    ensures i < n && tokens[i] == token && TemplatesTo(keys, tokens, n)[token] == keys[i]
  {
    if token in TemplatesTo(keys, tokens, n - 1) {
      i := TemplateFromTo(keys, tokens, n - 1, token);
    } else {
      i := n - 1;
    }
  }

  method CollectTemplates(keys: seq<NodeKey>) returns (templates: map<string, NodeKey>)
    ensures templates == Templates(keys)
  {
    ghost var tokens := Map(TokenOf, keys);
    templates := map[];
    for i := 0 to |keys|
      invariant templates == TemplatesTo(keys, tokens, i)
    {
      var token := TokenOf(keys[i]);
      assert token == tokens[i];
      if token !in templates {
        templates := templates[token := keys[i]];
      }
    }
  }

  ghost predicate StageFree(nodes: seq<NodeKey>) {
    forall i :: 0 <= i < |nodes| ==> !nodes[i].Stage?
  }

  // ---- the pipeline as a function ----

  /** What the pipeline needs to run: inputs precede their uses and the outputs are nodes. */
  ghost predicate Requestable(nodes: seq<NodeKey>, outs: seq<NodeId>) {
    TopologicalKeys(nodes) && AllBelow(outs, |nodes|)
  }

  /** And what its meaning needs: the outputs use no stage. */
  ghost predicate Reducible(nodes: seq<NodeKey>, outs: seq<NodeId>) {
    Requestable(nodes, outs) && forall i :: 0 <= i < |nodes| && Reachable(nodes, outs, i) ==> !nodes[i].Stage?
  }

  ghost function ReachableGraph(nodes: seq<NodeKey>, outs: seq<NodeId>): (g: EngineGraph)
    requires TopologicalKeys(nodes) && AllBelow(outs, |nodes|)
    ensures WellFormed(g)
  {
    KeptTopological(nodes, outs);
    EngineGraphCells(Kept(nodes, outs), KeptOutputs(nodes, outs));
    ToEngineGraph(Kept(nodes, outs), KeptOutputs(nodes, outs))
  }

  ghost function CanonicalGraph(nodes: seq<NodeKey>, outs: seq<NodeId>, engine: RewriteEngine): (g: EngineGraph)
    requires TopologicalKeys(nodes) && AllBelow(outs, |nodes|) && SoundEngine(engine)
    ensures WellFormed(g)
  {
    var g := ReachableGraph(nodes, outs);
    ExtractWellFormed(g, engine(g));
    Extract(g, engine(g))
  }

  ghost function DedupedGraph(nodes: seq<NodeKey>, outs: seq<NodeId>, engine: RewriteEngine): (g: EngineGraph)
    requires TopologicalKeys(nodes) && AllBelow(outs, |nodes|) && SoundEngine(engine)
    ensures WellFormed(g)
  {
    DedupCorrect(CanonicalGraph(nodes, outs, engine));
    Dedup(CanonicalGraph(nodes, outs, engine))
  }

  lemma KeptStageFree(nodes: seq<NodeKey>, outs: seq<NodeId>)
    requires Reducible(nodes, outs)
    ensures StageFree(Kept(nodes, outs))
  {
    forall p | 0 <= p < |Kept(nodes, outs)|
      ensures !Kept(nodes, outs)[p].Stage?
    {
      var i := KeptFrom(nodes, outs, p);
    }
  }

  /** Where a node of the deduplicated graph comes from: a reachable key with its token. */
  lemma DedupedOrigin(nodes: seq<NodeKey>, outs: seq<NodeId>, engine: RewriteEngine, p: nat) returns (i: nat)
    requires Requestable(nodes, outs) && SoundEngine(engine) && p < |DedupedGraph(nodes, outs, engine).nodes|
    ensures var n := DedupedGraph(nodes, outs, engine).nodes[p]; var keys := Kept(nodes, outs);
      && i < |keys| && keys[i].Token() == n.token && n.boundary == keys[i].IsBoundary()
      && |n.inputs| == |keys[i].Inputs()|
  {
    var g := ReachableGraph(nodes, outs);
    var q := DedupFrom(CanonicalGraph(nodes, outs, engine), p);
    i := ExtractFrom(g, engine(g), q);
    BoundaryByToken(Kept(nodes, outs)[i]);
  }

  /** The templates collected from the reachable keys serve every boundary node. */
  lemma TemplatesServe(nodes: seq<NodeKey>, outs: seq<NodeId>, engine: RewriteEngine)
    requires Requestable(nodes, outs) && SoundEngine(engine)
    ensures TemplatesFit(DedupedGraph(nodes, outs, engine), Templates(Kept(nodes, outs)))
    ensures Reducible(nodes, outs) ==> StageFreeTemplates(DedupedGraph(nodes, outs, engine), Templates(Kept(nodes, outs)))
  {
    var g, keys := DedupedGraph(nodes, outs, engine), Kept(nodes, outs);
    if Reducible(nodes, outs) {
      KeptStageFree(nodes, outs);
    }
    forall p | 0 <= p < |g.nodes| && g.nodes[p].boundary
      ensures TemplateFits(Templates(keys), g.nodes[p].token, g.nodes[p].inputs)
      ensures StageFree(keys) ==> !Templates(keys)[g.nodes[p].token].Stage?
    {
      var i := DedupedOrigin(nodes, outs, engine, p);
      var first := TemplateIsFirst(keys, i);
      var t := keys[first];
      BoundaryByToken(t);
      BoundaryByToken(keys[i]);
      if t.Source? {
        SourceByToken(t, keys[i]);
      }
    }
  }

  ghost function ReduceNodes(nodes: seq<NodeKey>, outs: seq<NodeId>, engine: RewriteEngine, mode: FusionMode): Reduced
    requires Requestable(nodes, outs) && SoundEngine(engine)
  {
    var g, templates := DedupedGraph(nodes, outs, engine), Templates(Kept(nodes, outs));
    TemplatesServe(nodes, outs, engine);
    PartitionValid(g, mode);
    var part := Partition(g, mode);
    var reduced := FusedNodes(g, part, templates);
    Reduced(reduced, FusedOutputs(g, part),
            ReductionReport(|nodes|, |Kept(nodes, outs)|, |g.nodes|, StageCount(g, part), |reduced|, BoundaryCount(g, part)))
  }

  /** The reduced nodes are those that fusion emits over the chosen partition. */
  ghost predicate ReduceFuses(nodes: seq<NodeKey>, outs: seq<NodeId>, engine: RewriteEngine, mode: FusionMode) {
    && Requestable(nodes, outs) && SoundEngine(engine)
    && var g, templates := DedupedGraph(nodes, outs, engine), Templates(Kept(nodes, outs));
       var r, part := ReduceNodes(nodes, outs, engine, mode), Partition(g, mode);
       Emittable(g, part, templates) && r.nodes == FusedNodes(g, part, templates) && r.outputs == FusedOutputs(g, part)
  }

  lemma ReductionFuses(nodes: seq<NodeKey>, outs: seq<NodeId>, engine: RewriteEngine, mode: FusionMode)
    requires Requestable(nodes, outs) && SoundEngine(engine)
    ensures ReduceFuses(nodes, outs, engine, mode)
  {
    TemplatesServe(nodes, outs, engine);
    PartitionValid(DedupedGraph(nodes, outs, engine), mode);
  }

  /** The pipeline as it runs. */
  method ReduceWithMode(nodes: seq<NodeKey>, outs: seq<NodeId>, engine: RewriteEngine, mode: FusionMode)
    returns (r: Reduced)
    requires Requestable(nodes, outs) && SoundEngine(engine)
    ensures r == ReduceNodes(nodes, outs, engine, mode)
  {
    var keys, keptOuts := DeadCodeElimination(nodes, outs);
    var templates := CollectTemplates(keys);
    KeptTopological(nodes, outs);
    EngineGraphCells(keys, keptOuts);
    var g := ToEngineGraph(keys, keptOuts);
    assert g == ReachableGraph(nodes, outs);
    var canonical := Canonicalize(g, engine(g));
    assert canonical == CanonicalGraph(nodes, outs, engine);
    var deduped := CommonSubexpressions(canonical);
    assert deduped == DedupedGraph(nodes, outs, engine);
    TemplatesServe(nodes, outs, engine);
    r := FuseStages(deduped, templates, mode);
    r := r.(report := r.report.(inputNodes := |nodes|, reachableNodes := |keys|, canonicalNodes := |deduped.nodes|));
  }

  // ---- what the pipeline preserves ----

  /** Needed nodes keep the terms of their tokens. */
  lemma KeptTokenTerms(nodes: seq<NodeKey>, outs: seq<NodeId>, i: nat)
    requires TopologicalKeys(nodes) && AllBelow(outs, |nodes|) && i < |nodes| && Reachable(nodes, outs, i)
    ensures TopologicalKeys(Kept(nodes, outs)) && Rank(ReachMask(nodes, outs), i) < |Kept(nodes, outs)|
    ensures Unfold(CellsBy(TokenOf, Kept(nodes, outs)), Rank(ReachMask(nodes, outs), i)) == Unfold(CellsBy(TokenOf, nodes), i)
  {
    KeptTopological(nodes, outs);
    KeptAt(nodes, outs, i);
    TokenInputBlind();
    KeptTerms(TokenOf, nodes, outs, i);
  }

  /** Output by output, the deduplicated graph stands for terms provably equal to the recorded ones. */
  lemma DedupedTerm(nodes: seq<NodeKey>, outs: seq<NodeId>, engine: RewriteEngine, k: nat)
    requires TopologicalKeys(nodes) && AllBelow(outs, |nodes|) && SoundEngine(engine) && k < |outs|
    ensures var g := DedupedGraph(nodes, outs, engine);
      && |g.outputs| == |outs|
      && Provable(TokenTheory(), Unfold(CellsOf(g), g.outputs[k]), Unfold(CellsBy(TokenOf, nodes), outs[k]))
  {
    var g := ReachableGraph(nodes, outs);
    var classes := engine(g);
    KeptTopological(nodes, outs);
    EngineGraphCells(Kept(nodes, outs), KeptOutputs(nodes, outs));
    assert outs[k] in outs;
    var o := g.outputs[k];
    assert o == Rank(ReachMask(nodes, outs), outs[k]);
    KeptTokenTerms(nodes, outs, outs[k]);
    ExtractWellFormed(g, classes);
    var canonical := CanonicalGraph(nodes, outs, engine);
    assert canonical.outputs[k] == NewIndex(classes)[o];
    ExtractSound(g, classes, o);
    DedupCorrect(canonical);
    assert NewIndex(TermsOf(canonical))[canonical.outputs[k]] == DedupedGraph(nodes, outs, engine).outputs[k];
  }

  /** End to end: in either mode and for every engine meeting the contract, the term of each output of
      the reduced graph, stages spelled out, is provably equal to the term of the recorded output. */
  lemma ReduceProvable(nodes: seq<NodeKey>, outs: seq<NodeId>, engine: RewriteEngine, mode: FusionMode, k: nat)
    requires Reducible(nodes, outs) && SoundEngine(engine) && k < |outs|
    ensures var r := ReduceNodes(nodes, outs, engine, mode);
      && Runnable(r.nodes) && AllBelow(r.outputs, |r.nodes|) && |r.outputs| == |outs|
      && Provable(TokenTheory(), TermAt(r.nodes, r.outputs[k]), Unfold(CellsBy(TokenOf, nodes), outs[k]))
  {
    var g, templates := DedupedGraph(nodes, outs, engine), Templates(Kept(nodes, outs));
    TemplatesServe(nodes, outs, engine);
    PartitionValid(g, mode);
    FusedRunnable(g, Partition(g, mode), templates);
    DedupedTerm(nodes, outs, engine, k);
    FusedOutputTerm(g, Partition(g, mode), templates, k);
  }

  /** A reduced node that is not a stage is a reachable key over new inputs. */
  lemma BoundaryFromKey(nodes: seq<NodeKey>, outs: seq<NodeId>, engine: RewriteEngine, mode: FusionMode, p: nat)
      returns (i: nat, inputs: seq<nat>)
    requires Reducible(nodes, outs) && SoundEngine(engine)
    requires var r := ReduceNodes(nodes, outs, engine, mode).nodes; p < |r| && !r[p].Stage?
    ensures i < |Kept(nodes, outs)| && IsTemplate(Kept(nodes, outs), i)
    ensures ReduceNodes(nodes, outs, engine, mode).nodes[p] == Kept(nodes, outs)[i].WithInputs(inputs)
  {
    var g, keys := DedupedGraph(nodes, outs, engine), Kept(nodes, outs);
    var part := Partition(g, mode);
    TemplatesServe(nodes, outs, engine);
    PartitionValid(g, mode);
    var h := FusedFrom(g, part, Templates(keys), p);
    EmittedKind(g, part, Templates(keys), h);
    i := DedupedOrigin(nodes, outs, engine, h);
    i := TemplateIsFirst(keys, i);
    inputs := Renumber(ReducedIndex(part), CellsOf(g)[h].inputs);
  }

  lemma ReduceRunnable(nodes: seq<NodeKey>, outs: seq<NodeId>, engine: RewriteEngine, mode: FusionMode)
    requires Requestable(nodes, outs) && SoundEngine(engine)
    ensures var r := ReduceNodes(nodes, outs, engine, mode);
      && TopologicalKeys(r.nodes) && AllBelow(r.outputs, |r.nodes|) && |r.outputs| == |outs|
      && (Reducible(nodes, outs) ==> Runnable(r.nodes))
  {
    var g, templates := DedupedGraph(nodes, outs, engine), Templates(Kept(nodes, outs));
    TemplatesServe(nodes, outs, engine);
    PartitionValid(g, mode);
    FusedRunnable(g, Partition(g, mode), templates);
  }

  /** No two reduced nodes are alike, so rebuilding them through interning collapses nothing. */
  lemma ReduceDistinct(nodes: seq<NodeKey>, outs: seq<NodeId>, engine: RewriteEngine, mode: FusionMode, p: nat, q: nat)
    requires Reducible(nodes, outs) && SoundEngine(engine)
    requires var r := ReduceNodes(nodes, outs, engine, mode).nodes;
      p < |r| && q < |r| && r[p].Canon() == r[q].Canon()
    ensures p == q
  {
    var g, templates := DedupedGraph(nodes, outs, engine), Templates(Kept(nodes, outs));
    TemplatesServe(nodes, outs, engine);
    PartitionValid(g, mode);
    DedupCorrect(CanonicalGraph(nodes, outs, engine));
    FusedDistinct(g, Partition(g, mode), templates, p, q);
  }

  /** The report: stages and boundaries make up the result, and every pass only shrinks the graph. */
  lemma ReportBounds(nodes: seq<NodeKey>, outs: seq<NodeId>, engine: RewriteEngine, mode: FusionMode)
    requires Requestable(nodes, outs) && SoundEngine(engine)
    ensures var r := ReduceNodes(nodes, outs, engine, mode).report;
      r.stages + r.boundaryNodes == r.reducedNodes <= r.canonicalNodes <= r.reachableNodes <= r.inputNodes
    ensures var r := ReduceNodes(nodes, outs, engine, mode);
      Reducible(nodes, outs) ==> r.report.stages == CountStages(r.nodes)
  {
    var d := DedupedGraph(nodes, outs, engine);
    TemplatesServe(nodes, outs, engine);
    PartitionValid(d, mode);
    CountsAddUp(d, Partition(d, mode), |d.nodes|);
    if Reducible(nodes, outs) {
      StagesAreClasses(d, Partition(d, mode), Templates(Kept(nodes, outs)));
    }
    var g := ReachableGraph(nodes, outs);
    KeptTopological(nodes, outs);
    ExtractWellFormed(g, engine(g));
    DedupCorrect(CanonicalGraph(nodes, outs, engine));
  }

  /** Nodes recorded later do not change the reduction for the same outputs, nor its report except for
      the count of input nodes. */
  lemma ReduceHistoryIndependent(nodes: seq<NodeKey>, more: seq<NodeKey>, outs: seq<NodeId>, engine: RewriteEngine, mode: FusionMode)
    requires TopologicalKeys(nodes + more) && AllBelow(outs, |nodes|) && SoundEngine(engine)
    ensures Requestable(nodes + more, outs) && Requestable(nodes, outs)
    ensures var r, s := ReduceNodes(nodes + more, outs, engine, mode), ReduceNodes(nodes, outs, engine, mode);
      r.nodes == s.nodes && r.outputs == s.outputs
      && r.report == s.report.(inputNodes := |nodes| + |more|)
  {
    DceHistoryIndependent(nodes, more, outs);
  }
}
