/** Fusing one graph listed in two orders gives the same reduced nodes exactly when no operands are swapped
and every order that shows is kept. */
module FusedAlike {
  import opened Selection
  import opened Terms
  import opened Cells
  import opened Node
  import opened Engine
  import opened Fusion
  import opened Stages
  import opened Semantics
  import opened FusedMeaning
  import opened Reordering
  import opened FusionOrder

  /** The same nodes up to interning equality. */
  ghost predicate SameKeys(a: seq<NodeKey>, b: seq<NodeKey>) {
    |a| == |b| && forall p :: 0 <= p < |a| ==> a[p].Canon() == b[p].Canon()
  }

  /** A token has one operator in both. */
  ghost predicate AgreeingTemplates(t: map<string, NodeKey>, t': map<string, NodeKey>) {
    forall token :: token in t && token in t' ==> t[token].Head() == t'[token].Head()
  }

  /** Templates with one operator rebuild the same node up to interning equality. */
  lemma SameHeadRebuilds(a: NodeKey, b: NodeKey, inputs: seq<NodeId>)
    requires a.Head() == b.Head()
    ensures a.WithInputs(inputs).Canon() == b.WithInputs(inputs).Canon()
  {
    HeadIdempotent(a, inputs);
    HeadIdempotent(b, inputs);
    CanonIsHeadAndInputs(a.WithInputs(inputs), b.WithInputs(inputs));
  }

  // ---- agreeing orders fuse alike ----

  lemma EmittedAlike(g: EngineGraph, part: seq<nat>, t: map<string, NodeKey>, f: seq<nat>,
                     g': EngineGraph, part': seq<nat>, t': map<string, NodeKey>, h: nat)
    requires Fusable(g, part, t) && Fusable(g', part', t') && AgreeingTemplates(t, t')
    requires Reorders(g, f, g') && ExactOperands(g, f, g') && PartsMatch(part, f, part') && ShownOrder(part, f) && h < |f|
    ensures EmittedAt(g, part, t, h).Canon() == EmittedAt(g', part', t', f[h]).Canon()
  {
    var a, b := g.nodes[h], g'.nodes[f[h]];
    assert SameNode(f, a, b) && OperandsMoved(f, a, g', f[h]);
    if a.boundary {
      forall k | 0 <= k < |a.inputs|
        ensures ReducedIndex(part)[a.inputs[k]] == ReducedIndex(part')[b.inputs[k]]
      {
        assert b.inputs[k] == f[a.inputs[k]];
        SameReducedIndex(part, f, part', a.inputs[k]);
      }
      BoundaryAlike(t, t', a.token, Renumber(ReducedIndex(part), CellsOf(g)[h].inputs),
                    Renumber(ReducedIndex(part'), CellsOf(g')[f[h]].inputs), a.inputs, b.inputs);
    } else {
      StageMoved(g, part, f, g', part', h);
    }
  }

  lemma BoundaryAlike(t: map<string, NodeKey>, t': map<string, NodeKey>, token: string, xs: seq<nat>, ys: seq<nat>,
                      uses: seq<nat>, uses': seq<nat>)
    requires TemplateFits(t, token, uses) && TemplateFits(t', token, uses') && t[token].Head() == t'[token].Head()
    requires xs == ys
    ensures t[token].WithInputs(xs).Canon() == t'[token].WithInputs(ys).Canon()
  {
    SameHeadRebuilds(t[token], t'[token], xs);
  }

  lemma OrderedAlike(g: EngineGraph, part: seq<nat>, t: map<string, NodeKey>, f: seq<nat>,
                     g': EngineGraph, part': seq<nat>, t': map<string, NodeKey>)
    requires Fusable(g, part, t) && Fusable(g', part', t') && AgreeingTemplates(t, t')
    requires Reorders(g, f, g') && ExactOperands(g, f, g') && PartsMatch(part, f, part') && ShownOrder(part, f)
    ensures SameKeys(FusedNodes(g, part, t), FusedNodes(g', part', t'))
  {
    SameLength(part, f, part');
    forall p | 0 <= p < |FusedNodes(g, part, t)|
      ensures FusedNodes(g, part, t)[p].Canon() == FusedNodes(g', part', t')[p].Canon()
    {
      var h := FusedFrom(g, part, t, p);
      LastMoved(part, f, part', h);
      SameRank(part, f, part', h);
      FusedAt(g', part', t', f[h]);
      EmittedAlike(g, part, t, f, g', part', t', h);
    }
  }

  lemma OutputsAlike(g: EngineGraph, part: seq<nat>, f: seq<nat>, g': EngineGraph, part': seq<nat>)
    requires Reorders(g, f, g') && PartsMatch(part, f, part') && ShownOrder(part, f)
    ensures FusedOutputs(g, part) == FusedOutputs(g', part')
  {
    forall k | 0 <= k < |g.outputs|
      ensures FusedOutputs(g, part)[k] == FusedOutputs(g', part')[k]
    {
      SameReducedIndex(part, f, part', g.outputs[k]);
    }
  }

  // ---- what fuses alike agrees in order ----

  lemma {:induction false} SameKeysEval<V>(interp: Interp<V>, a: seq<NodeKey>, b: seq<NodeKey>, i: nat)
    requires Runnable(a) && Runnable(b) && SameKeys(a, b) && i < |a|
    ensures Eval(interp, a, i) == Eval(interp, b, i)
    decreases i
  {
    var xs := a[i].Inputs();
    CanonIsHeadAndInputs(a[i], b[i]);
    forall k | 0 <= k < |xs|
      ensures Eval(interp, a, xs[k]) == Eval(interp, b, xs[k])
    {
      SameKeysEval(interp, a, b, xs[k]);
    }
    assert EvalAll(interp, a, xs, i) == EvalAll(interp, b, xs, i);
    assert a[i].Stage? ==> a[i] == b[i];
  }

  /** Equal terms are at corresponding places. */
  ghost predicate TermsMatch(g: EngineGraph, f: seq<nat>, g': EngineGraph)
    requires WellFormed(g) && WellFormed(g') && |f| == |g.nodes|
  {
    forall p, q :: 0 <= p < |g.nodes| && 0 <= q < |g'.nodes| && Unfold(CellsOf(g), p) == Unfold(CellsOf(g'), q) ==> q == f[p]
  }

  /** The values of a stage's inputs. */
  ghost function InsAt(nodes: seq<NodeKey>, p: nat): seq<Term<string>>
    requires Runnable(nodes) && p < |nodes|
  {
    EvalAll(TERMS, nodes, nodes[p].Inputs(), p)
  }

  /** The members of an emitted stage stand for the ops of its class. */
  lemma StageMemberTerms(g: EngineGraph, part: seq<nat>, t: map<string, NodeKey>, h: nat)
    requires Fusable(g, part, t) && Runnable(FusedNodes(g, part, t)) && h < |part| && IsLast(part, h) && !g.nodes[h].boundary
    ensures var nodes, p, ops := FusedNodes(g, part, t), Rank(LastMask(part), h), Members(part, part[h]);
      && p < |nodes| && nodes[p].Stage? && |nodes[p].members| == |ops|
      && forall j {:trigger ops[j]} :: 0 <= j < |ops| ==>
           RunMembers(TermMember, nodes[p], InsAt(nodes, p), |ops|)[j] == Unfold(CellsOf(g), ops[j])
  {
    var ops := Members(part, part[h]);
    TermsRead(g, part, t);
    StageMembersMean(TERMS, TermMember, g, part, t, h);
    forall j | 0 <= j < |ops|
      ensures ValueAt(TermMember, g, ops[j]) == Unfold(CellsOf(g), ops[j])
    {
      ValueOfTerm(Unfold(CellsOf(g), ops[j]));
    }
  }

  /** Both graphs with their partitions and templates, fused to the same nodes. */
  ghost predicate FusedSame(g: EngineGraph, part: seq<nat>, t: map<string, NodeKey>, f: seq<nat>,
                            g': EngineGraph, part': seq<nat>, t': map<string, NodeKey>) {
    && Fusable(g, part, t) && Fusable(g', part', t') && |f| == |g.nodes| && TermsMatch(g, f, g')
    && SameKeys(FusedNodes(g, part, t), FusedNodes(g', part', t'))
  }

  /** Last members of classes correspond, and land at one place. */
  lemma LastMatches(g: EngineGraph, part: seq<nat>, t: map<string, NodeKey>, f: seq<nat>,
                    g': EngineGraph, part': seq<nat>, t': map<string, NodeKey>, h: nat)
    requires FusedSame(g, part, t, f, g', part', t') && h < |part| && IsLast(part, h)
    ensures f[h] < |part'| && IsLast(part', f[h]) && Rank(LastMask(part'), f[h]) == Rank(LastMask(part), h)
    ensures Unfold(CellsOf(g), h) == Unfold(CellsOf(g'), f[h])
  {
    var p := Rank(LastMask(part), h);
    FusedRunnable(g, part, t);
    FusedRunnable(g', part', t');
    FusedTerm(g, part, t, h);
    var h' := FusedFrom(g', part', t', p);
    FusedTerm(g', part', t', h');
    SameKeysEval(TERMS, FusedNodes(g, part, t), FusedNodes(g', part', t'), p);
    assert h' == f[h];
  }

  /** The ops of corresponding classes correspond one by one. */
  lemma OpsMatch(g: EngineGraph, part: seq<nat>, t: map<string, NodeKey>, f: seq<nat>,
                 g': EngineGraph, part': seq<nat>, t': map<string, NodeKey>, h: nat)
    requires FusedSame(g, part, t, f, g', part', t') && h < |part| && IsLast(part, h) && !g.nodes[h].boundary
    requires f[h] < |part'| && IsLast(part', f[h]) && Rank(LastMask(part'), f[h]) == Rank(LastMask(part), h)
    ensures var ops, ops' := Members(part, part[h]), Members(part', part'[f[h]]);
      |ops'| == |ops| && forall j {:trigger ops[j]} :: 0 <= j < |ops| ==>
        ops'[j] == f[ops[j]] && Unfold(CellsOf(g), ops[j]) == Unfold(CellsOf(g'), ops'[j])
  {
    var p, r, r' := Rank(LastMask(part), h), FusedNodes(g, part, t), FusedNodes(g', part', t');
    FusedRunnable(g, part, t);
    FusedRunnable(g', part', t');
    StageMemberTerms(g, part, t, h);
    FusedAt(g', part', t', f[h]);
    assert r[p].Canon() == r'[p].Canon();
    assert r'[p] == r[p];
    EmittedKind(g', part', t', f[h]);
    StageMemberTerms(g', part', t', f[h]);
    SameIns(r, r', p);
  }

  lemma SameIns(r: seq<NodeKey>, r': seq<NodeKey>, p: nat)
    requires Runnable(r) && Runnable(r') && SameKeys(r, r') && p < |r| && r[p] == r'[p]
    ensures InsAt(r, p) == InsAt(r', p)
  {
    var xs := r[p].Inputs();
    forall k | 0 <= k < |xs|
      ensures InsAt(r, p)[k] == InsAt(r', p)[k]
    {
      SameKeysEval(TERMS, r, r', xs[k]);
    }
  }

  /** Every node stands for the same term as its counterpart. */
  lemma NodeMatches(g: EngineGraph, part: seq<nat>, t: map<string, NodeKey>, f: seq<nat>,
                    g': EngineGraph, part': seq<nat>, t': map<string, NodeKey>, p: nat)
    requires FusedSame(g, part, t, f, g', part', t') && p < |part|
    ensures f[p] < |g'.nodes| && Unfold(CellsOf(g), p) == Unfold(CellsOf(g'), f[p])
  {
    var h := LastOf(part, p);
    LastMatches(g, part, t, f, g', part', t', h);
    if g.nodes[h].boundary {
      assert part[h] == part[p];
    } else {
      OpsMatch(g, part, t, f, g', part', t', h);
      MembersExact(part, part[h], p);
      var ops := Members(part, part[h]);
      var j :| 0 <= j < |ops| && ops[j] == p;
    }
  }

  lemma OperandsMatch(g: EngineGraph, f: seq<nat>, g': EngineGraph, p: nat)
    requires WellFormed(g) && WellFormed(g') && |f| == |g.nodes| && TermsMatch(g, f, g')
    requires p < |f| && f[p] < |g'.nodes| && Unfold(CellsOf(g), p) == Unfold(CellsOf(g'), f[p])
    ensures OperandsMoved(f, g.nodes[p], g', f[p])
  {
    var xs, ys := CellsOf(g)[p].inputs, CellsOf(g')[f[p]].inputs;
    assert AllBelow(xs, p) && AllBelow(ys, f[p]);
    assert UnfoldAll(CellsOf(g), xs, p) == UnfoldAll(CellsOf(g'), ys, f[p]);
    assert |xs| == |ys|;
    forall k | 0 <= k < |xs|
      ensures ys[k] == f[xs[k]]
    {
      assert UnfoldAll(CellsOf(g), xs, p)[k] == UnfoldAll(CellsOf(g'), ys, f[p])[k];
    }
  }

  /** The order of two members is the order in their class's member list, and so is the order of their images. */
  lemma OrderInClass(part: seq<nat>, part': seq<nat>, f: seq<nat>, c: nat, c': nat, p: nat, q: nat)
    requires p < |part| && q < |part| && part[p] == c && part[q] == c && |f| == |part|
    requires |Members(part', c')| == |Members(part, c)|
    requires forall j :: 0 <= j < |Members(part, c)| ==> Members(part, c)[j] < |f| && Members(part', c')[j] == f[Members(part, c)[j]]
    ensures p < q <==> f[p] < f[q]
  {
    MembersExact(part, c, p);
    MembersExact(part, c, q);
    var ops, ops' := Members(part, c), Members(part', c');
    var j :| 0 <= j < |ops| && ops[j] == p;
    var k :| 0 <= k < |ops| && ops[k] == q;
    assert ops'[j] == f[p] && ops'[k] == f[q];
  }

  lemma MembersShown(g: EngineGraph, part: seq<nat>, t: map<string, NodeKey>, f: seq<nat>,
                     g': EngineGraph, part': seq<nat>, t': map<string, NodeKey>, p: nat, q: nat)
    requires FusedSame(g, part, t, f, g', part', t') && p < |f| == |part| && q < |f| && p != q && part[p] == part[q]
    ensures p < q <==> f[p] < f[q]
  {
    var h := LastOf(part, p);
    LastMatches(g, part, t, f, g', part', t', h);
    assert !g.nodes[h].boundary;
    OpsMatch(g, part, t, f, g', part', t', h);
    OrderInClass(part, part', f, part[h], part'[f[h]], p, q);
  }

  lemma ShownMatches(g: EngineGraph, part: seq<nat>, t: map<string, NodeKey>, f: seq<nat>,
                     g': EngineGraph, part': seq<nat>, t': map<string, NodeKey>, p: nat, q: nat)
    requires FusedSame(g, part, t, f, g', part', t') && p < |f| && q < |f| && |part| == |f| && OrderShows(part, p, q)
    ensures p < q <==> f[p] < f[q]
  {
    if IsLast(part, p) && IsLast(part, q) {
      LastMatches(g, part, t, f, g', part', t', p);
      LastMatches(g, part, t, f, g', part', t', q);
      RankOrder(LastMask(part), p, q);
      RankOrder(LastMask(part'), f[p], f[q]);
    } else if p != q {
      MembersShown(g, part, t, f, g', part', t', p, q);
    }
  }

  /** Fusing gives the same nodes, under interning's equality, exactly when no operands are swapped and every
      order that shows is kept; and then the outputs are the same too. */
  lemma FusedSameIff(g: EngineGraph, part: seq<nat>, t: map<string, NodeKey>, f: seq<nat>,
                     g': EngineGraph, part': seq<nat>, t': map<string, NodeKey>)
    requires Fusable(g, part, t) && Fusable(g', part', t') && AgreeingTemplates(t, t')
    requires Reorders(g, f, g') && PartsMatch(part, f, part') && TermsMatch(g, f, g')
    ensures SameKeys(FusedNodes(g, part, t), FusedNodes(g', part', t')) <==> ExactOperands(g, f, g') && ShownOrder(part, f)
    ensures ShownOrder(part, f) ==> FusedOutputs(g, part) == FusedOutputs(g', part')
  {
    if ExactOperands(g, f, g') && ShownOrder(part, f) {
      OrderedAlike(g, part, t, f, g', part', t');
    }
    if ShownOrder(part, f) {
      OutputsAlike(g, part, f, g', part');
    }
    if SameKeys(FusedNodes(g, part, t), FusedNodes(g', part', t')) {
      forall p | 0 <= p < |f|
        ensures OperandsMoved(f, g.nodes[p], g', f[p])
      {
        NodeMatches(g, part, t, f, g', part', t', p);
        OperandsMatch(g, f, g', p);
      }
      forall p, q | 0 <= p < |f| && 0 <= q < |f| && OrderShows(part, p, q)
        ensures p < q <==> f[p] < f[q]
      {
        ShownMatches(g, part, t, f, g', part', t', p, q);
      }
    }
  }
}
