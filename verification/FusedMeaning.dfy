/** What stage fusion preserves: every class keeps the term of its last member, no two emitted nodes
are alike, and every op sits in exactly one stage at exactly one place. */
module FusedMeaning {
  import opened Selection
  import opened Terms
  import opened Cells
  import opened Engine
  import opened Fusion
  import opened Node
  import opened Arena
  import opened Semantics
  import opened Stages

  // ---- well-formedness of the result ----

  lemma BoundaryInput(g: EngineGraph, part: seq<nat>, h: nat, x: nat)
    requires WellFormed(g) && ValidPartition(g, part) && h < |part| && g.nodes[h].boundary
    requires x in g.nodes[h].inputs
    ensures IsLast(part, h)
    ensures x < h && IsLast(part, x) && LastOf(part, x) == x
    ensures ReducedIndex(part)[x] == Rank(LastMask(part), x) < Rank(LastMask(part), h)
  {
    ExternalInput(g, part, h, h, x);
  }

  /** A slot of a stage stands for the last member of an earlier class. */
  lemma SlotInput(g: EngineGraph, part: seq<nat>, h: nat, c: nat) returns (x: nat)
    requires WellFormed(g) && ValidPartition(g, part) && Named(part)
    requires h < |part| && IsLast(part, h) && ExternalClass(g, part, Members(part, part[h]), c)
    ensures x < h && c < |part| && part[x] == c && IsLast(part, x)
    ensures ReducedIndex(part)[c] == Rank(LastMask(part), x) < Rank(LastMask(part), h)
  {
    var ops := Members(part, part[h]);
    var i: nat, y: nat :| i in ops && i < |g.nodes| && y in g.nodes[i].inputs && y < |part| && y !in ops && part[y] == c;
    x := y;
    MembersExact(part, part[h], i);
    MembersExact(part, part[h], x);
    ExternalInput(g, part, h, i, x);
    ReducedIndexOfClass(part, x);
  }

  lemma StageInputsBelow(g: EngineGraph, part: seq<nat>, h: nat)
    requires WellFormed(g) && ValidPartition(g, part) && Named(part) && h < |part| && IsLast(part, h)
    ensures AllBelow(StageOf(g, part, h).ins, Rank(LastMask(part), h))
  {
    var ops := Members(part, part[h]);
    BuildToMeans(g, part, ops, |ops|);
    var slots := BuildTo(g, part, ops, |ops|).1;
    SlotsBelow(g, part, ops);
    var ins := StageOf(g, part, h).ins;
    forall s | 0 <= s < |ins|
      ensures ins[s] < Rank(LastMask(part), h)
    {
      assert ExternalClass(g, part, ops, slots[s]);
      var x := SlotInput(g, part, h, slots[s]);
    }
  }

  lemma MemberRefsInRange(g: EngineGraph, part: seq<nat>, ops: seq<nat>, slots: seq<nat>, member: StageOp, j: nat)
    requires WellFormed(g) && |part| == |g.nodes| && AllBelow(ops, |part|) && j < |ops|
    requires forall k, l :: 0 <= k < l < |ops| ==> ops[k] < ops[l]
    requires MemberMeans(g, part, ops, slots, member, ops[j])
    ensures RefsInRange(member.refs, |slots|, j)
  {
    var xs, refs := CellsOf(g)[ops[j]].inputs, member.refs;
    assert AllBelow(xs, ops[j]);
    forall l | 0 <= l < |refs|
      ensures match refs[l] case Input(s) => s < |slots| case Member(m) => m < j
    {
      assert RefMeans(part, ops, slots, refs[l], xs[l]);
    }
  }

  /** Every reference inside an emitted stage is to one of its inputs or to an earlier member. */
  lemma StageRefsInRange(g: EngineGraph, part: seq<nat>, h: nat)
    requires WellFormed(g) && ValidPartition(g, part) && Named(part) && h < |part| && IsLast(part, h)
    ensures StageOk(StageOf(g, part, h))
  {
    var ops := Members(part, part[h]);
    LastMember(part, h);
    BuildToMeans(g, part, ops, |ops|);
    var (members, slots) := BuildTo(g, part, ops, |ops|);
    forall j | 0 <= j < |members|
      ensures RefsInRange(members[j].refs, |slots|, j)
    {
      assert MemberMeans(g, part, ops, slots, members[j], ops[j]);
      MemberRefsInRange(g, part, ops, slots, members[j], j);
    }
  }

  /** Boundaries that are themselves stages are self-contained. */
  ghost predicate BoundariesOk(g: EngineGraph, part: seq<nat>, templates: map<string, NodeKey>)
    requires Emittable(g, part, templates)
  {
    forall h :: 0 <= h < |part| && g.nodes[h].boundary ==> StageOk(EmittedAt(g, part, templates, h))
  }

  lemma StageFreeOk(g: EngineGraph, part: seq<nat>, templates: map<string, NodeKey>)
    requires Fusable(g, part, templates)
    ensures BoundariesOk(g, part, templates)
  {
    forall h | 0 <= h < |part| && g.nodes[h].boundary
      ensures StageOk(EmittedAt(g, part, templates, h))
    {
      assert TemplateFits(templates, g.nodes[h].token, g.nodes[h].inputs);
    }
  }

  lemma EmittedInputsBelow(g: EngineGraph, part: seq<nat>, templates: map<string, NodeKey>, h: nat)
    requires Emittable(g, part, templates) && h < |part| && IsLast(part, h)
    ensures AllBelow(EmittedAt(g, part, templates, h).Inputs(), Rank(LastMask(part), h))
    ensures BoundariesOk(g, part, templates) ==> StageOk(EmittedAt(g, part, templates, h))
  {
    if g.nodes[h].boundary {
      assert TemplateFits(templates, g.nodes[h].token, g.nodes[h].inputs);
      var xs := CellsOf(g)[h].inputs;
      var ins := Renumber(ReducedIndex(part), xs);
      forall k | 0 <= k < |ins|
        ensures ins[k] < Rank(LastMask(part), h)
      {
        assert xs[k] in g.nodes[h].inputs;
        BoundaryInput(g, part, h, xs[k]);
      }
    } else {
      StageInputsBelow(g, part, h);
      StageRefsInRange(g, part, h);
    }
  }

  /** The reduced list is topological, its stages are self-contained, and the outputs are in range. */
  lemma FusedRunnable(g: EngineGraph, part: seq<nat>, templates: map<string, NodeKey>)
    requires Emittable(g, part, templates)
    ensures TopologicalKeys(FusedNodes(g, part, templates))
    ensures Fusable(g, part, templates) || BoundariesOk(g, part, templates) ==> Runnable(FusedNodes(g, part, templates))
    ensures AllBelow(FusedOutputs(g, part), |FusedNodes(g, part, templates)|)
  {
    var nodes := FusedNodes(g, part, templates);
    if Fusable(g, part, templates) {
      StageFreeOk(g, part, templates);
    }
    forall p | 0 <= p < |nodes|
      ensures AllBelow(nodes[p].Inputs(), p)
      ensures BoundariesOk(g, part, templates) ==> StageOk(nodes[p])
    {
      var h := FusedFrom(g, part, templates, p);
      EmittedInputsBelow(g, part, templates, h);
    }
    forall k | 0 <= k < |g.outputs|
      ensures FusedOutputs(g, part)[k] < |nodes|
    {
      var h := LastOf(part, g.outputs[k]);
      FusedAt(g, part, templates, h);
      LastOfUnique(part, h, g.outputs[k]);
    }
  }

  // ---- values are preserved ----

  /** The value of a position's term. */
  ghost function ValueAt<V>(alg: Algebra<string, V>, g: EngineGraph, i: nat): V
    requires WellFormed(g) && i < |g.nodes|
  {
    Value(alg, Unfold(CellsOf(g), i))
  }

  /** The input values of a stage are the values of the external inputs they replace. */
  ghost predicate InsMean<V(!new)>(alg: Algebra<string, V>, g: EngineGraph, part: seq<nat>, slots: seq<nat>, ins: seq<V>)
    requires WellFormed(g) && |part| == |g.nodes|
  {
    |ins| == |slots| &&
    forall s, x :: 0 <= s < |slots| && 0 <= x < |part| && slots[s] == part[x] && IsLast(part, x) ==> ins[s] == ValueAt(alg, g, x)
  }

  /** A member whose references mean its op's inputs is applied to exactly those inputs' values. */
  lemma MemberArgs<V(!new)>(alg: Algebra<string, V>, g: EngineGraph, part: seq<nat>, h: nat, slots: seq<nat>, member: StageOp, n: nat,
                            ins: seq<V>, done: seq<V>)
    requires WellFormed(g) && ValidPartition(g, part) && h < |part| && IsLast(part, h)
    requires var ops := Members(part, part[h]);
      && InsMean(alg, g, part, slots, ins)
      && |done| == n < |ops| && MemberMeans(g, part, ops, slots, member, ops[n])
      && forall j :: 0 <= j < n ==> done[j] == ValueAt(alg, g, ops[j])
    ensures RefsInRange(member.refs, |ins|, n)
    ensures var xs, i := CellsOf(g)[Members(part, part[h])[n]].inputs, Members(part, part[h])[n];
      AllBelow(xs, i) && Args(member.refs, ins, done) == Values(alg, UnfoldAll(CellsOf(g), xs, i))
  {
    var ops := Members(part, part[h]);
    MemberRefsInRange(g, part, ops, slots, member, n);
    var i := ops[n];
    var xs, refs := CellsOf(g)[i].inputs, member.refs;
    assert AllBelow(xs, i);
    forall l | 0 <= l < |xs|
      ensures Args(refs, ins, done)[l] == ValueAt(alg, g, xs[l])
    {
      assert RefMeans(part, ops, slots, refs[l], xs[l]);
      assert xs[l] in g.nodes[i].inputs;
      MembersExact(part, part[h], xs[l]);
      ExternalInput(g, part, h, i, xs[l]);
    }
    assert Args(refs, ins, done) == Values(alg, UnfoldAll(CellsOf(g), xs, i));
  }

  /** Members are run as the algebra says of their tokens. */
  ghost predicate MembersRead<V(!new)>(member: (string, seq<V>) -> V, alg: Algebra<string, V>, g: EngineGraph) {
    forall i, vs: seq<V> {:trigger alg(g.nodes[i].token, vs)} {:trigger member(g.nodes[i].token, vs)} ::
      0 <= i < |g.nodes| && !g.nodes[i].boundary ==> member(g.nodes[i].token, vs) == alg(g.nodes[i].token, vs)
  }

  lemma MemberRuns<V(!new)>(member: (string, seq<V>) -> V, alg: Algebra<string, V>, g: EngineGraph, part: seq<nat>, h: nat,
                            slots: seq<nat>, m: StageOp, n: nat, ins: seq<V>, done: seq<V>)
    requires WellFormed(g) && ValidPartition(g, part) && h < |part| && IsLast(part, h) && !g.nodes[h].boundary
    requires MembersRead(member, alg, g) && InsMean(alg, g, part, slots, ins)
    requires var ops := Members(part, part[h]);
      && |done| == n < |ops| && MemberMeans(g, part, ops, slots, m, ops[n])
      && forall j :: 0 <= j < n ==> done[j] == ValueAt(alg, g, ops[j])
    ensures RefsInRange(m.refs, |ins|, n)
    ensures member(m.token, Args(m.refs, ins, done)) == ValueAt(alg, g, Members(part, part[h])[n])
  {
    MemberArgs(alg, g, part, h, slots, m, n, ins, done);
    MembersAreOps(g, part, h, n);
  }

  lemma {:induction false} MembersRun<V(!new)>(member: (string, seq<V>) -> V, alg: Algebra<string, V>,
                                               g: EngineGraph, part: seq<nat>, h: nat, slots: seq<nat>, k: NodeKey,
                                               ins: seq<V>, n: nat)
    requires WellFormed(g) && ValidPartition(g, part) && h < |part| && IsLast(part, h)
    requires k.Stage? && StageOk(k) && |k.ins| == |slots| && |k.members| == |Members(part, part[h])|
    requires BuildMeans(g, part, Members(part, part[h]), slots, k.members)
    requires InsMean(alg, g, part, slots, ins) && n <= |k.members|
    requires MembersRead(member, alg, g) && !g.nodes[h].boundary
    ensures forall j {:trigger Members(part, part[h])[j]} :: 0 <= j < n ==>
      RunMembers(member, k, ins, n)[j] == ValueAt(alg, g, Members(part, part[h])[j])
  {
    if n > 0 {
      MembersRun(member, alg, g, part, h, slots, k, ins, n - 1);
      var ops := Members(part, part[h]);
      assert MemberMeans(g, part, ops, slots, k.members[n - 1], ops[n - 1]);
      MemberRuns(member, alg, g, part, h, slots, k.members[n - 1], n - 1, ins, RunMembers(member, k, ins, n - 1));
    }
  }

  lemma MembersAreOps(g: EngineGraph, part: seq<nat>, h: nat, j: nat)
    requires WellFormed(g) && ValidPartition(g, part) && h < |part| && !g.nodes[h].boundary && j < |Members(part, part[h])|
    ensures Members(part, part[h])[j] < |part| && !g.nodes[Members(part, part[h])[j]].boundary
  {
    MembersExact(part, part[h], Members(part, part[h])[j]);
  }

  /** Emitted boundaries apply what the algebra says of their tokens. */
  ghost predicate BoundariesRead<V(!new)>(interp: Interp<V>, alg: Algebra<string, V>, g: EngineGraph, part: seq<nat>,
                                          templates: map<string, NodeKey>)
    requires Emittable(g, part, templates)
  {
    forall h :: 0 <= h < |part| && g.nodes[h].boundary ==> NodeReads(interp, alg, EmittedAt(g, part, templates, h))
  }

  /** An interpretation that reads boundaries and members through an algebra of tokens. */
  ghost predicate ReadsGraph<V(!new)>(interp: Interp<V>, alg: Algebra<string, V>, g: EngineGraph, part: seq<nat>,
                                      templates: map<string, NodeKey>) {
    && Emittable(g, part, templates) && Runnable(FusedNodes(g, part, templates))
    && BoundariesRead(interp, alg, g, part, templates) && MembersRead(interp.member, alg, g)
  }

  /** The input values of an emitted stage. */
  lemma StageInsMean<V(!new)>(interp: Interp<V>, alg: Algebra<string, V>, g: EngineGraph, part: seq<nat>,
                              templates: map<string, NodeKey>, h: nat)
    requires ReadsGraph(interp, alg, g, part, templates) && h < |part| && IsLast(part, h) && !g.nodes[h].boundary
    ensures var nodes, p, ops := FusedNodes(g, part, templates), Rank(LastMask(part), h), Members(part, part[h]);
      && p < |nodes| && nodes[p] == StageOf(g, part, h)
      && InsMean(alg, g, part, BuildTo(g, part, ops, |ops|).1, EvalAll(interp, nodes, nodes[p].Inputs(), p))
    decreases h, 0
  {
    var nodes, p, ops := FusedNodes(g, part, templates), Rank(LastMask(part), h), Members(part, part[h]);
    FusedAt(g, part, templates, h);
    var slots := BuildTo(g, part, ops, |ops|).1;
    BuildToMeans(g, part, ops, |ops|);
    SlotsBelow(g, part, ops);
    var ins := EvalAll(interp, nodes, nodes[p].Inputs(), p);
    forall s, x | 0 <= s < |slots| && 0 <= x < |part| && slots[s] == part[x] && IsLast(part, x)
      ensures ins[s] == ValueAt(alg, g, x)
    {
      assert ExternalClass(g, part, ops, slots[s]);
      var y := SlotInput(g, part, h, slots[s]);
      LastOfUnique(part, x, y);
      LastOfUnique(part, x, x);
      FusedValue(interp, alg, g, part, templates, x);
    }
  }

  /** The members of an emitted stage have the values of the ops of its class. */
  lemma StageMembersMean<V(!new)>(interp: Interp<V>, alg: Algebra<string, V>, g: EngineGraph, part: seq<nat>,
                                  templates: map<string, NodeKey>, h: nat)
    requires ReadsGraph(interp, alg, g, part, templates) && h < |part| && IsLast(part, h) && !g.nodes[h].boundary
    ensures var nodes, p, ops := FusedNodes(g, part, templates), Rank(LastMask(part), h), Members(part, part[h]);
      && p < |nodes| && nodes[p].Stage? && |nodes[p].members| == |ops|
      && forall j {:trigger ops[j]} :: 0 <= j < |ops| ==>
           RunMembers(interp.member, nodes[p], EvalAll(interp, nodes, nodes[p].Inputs(), p), |ops|)[j] == ValueAt(alg, g, ops[j])
    decreases h, 1
  {
    var nodes, p, ops := FusedNodes(g, part, templates), Rank(LastMask(part), h), Members(part, part[h]);
    StageInsMean(interp, alg, g, part, templates, h);
    BuildToMeans(g, part, ops, |ops|);
    SlotsBelow(g, part, ops);
    MembersRun(interp.member, alg, g, part, h, BuildTo(g, part, ops, |ops|).1, nodes[p],
               EvalAll(interp, nodes, nodes[p].Inputs(), p), |ops|);
  }

  /** Fusion keeps the value of the last member of every class. */
  lemma {:induction false} FusedValue<V(!new)>(interp: Interp<V>, alg: Algebra<string, V>, g: EngineGraph, part: seq<nat>,
                                               templates: map<string, NodeKey>, h: nat)
    requires ReadsGraph(interp, alg, g, part, templates) && h < |part| && IsLast(part, h)
    ensures Rank(LastMask(part), h) < |FusedNodes(g, part, templates)|
    ensures Eval(interp, FusedNodes(g, part, templates), Rank(LastMask(part), h)) == ValueAt(alg, g, h)
    decreases h, 2
  {
    FusedAt(g, part, templates, h);
    if g.nodes[h].boundary {
      BoundaryValue(interp, alg, g, part, templates, h);
    } else {
      StageMembersMean(interp, alg, g, part, templates, h);
      LastMember(part, h);
    }
  }

  /** A boundary is rebuilt with its token, over the new positions of its inputs. */
  lemma BoundaryRebuilt(g: EngineGraph, part: seq<nat>, templates: map<string, NodeKey>, h: nat)
    requires Emittable(g, part, templates) && h < |part| && g.nodes[h].boundary
    ensures var k := EmittedAt(g, part, templates, h);
      && k.Inputs() == Renumber(ReducedIndex(part), CellsOf(g)[h].inputs)
      && k.Token() == g.nodes[h].token && k.Head() == templates[g.nodes[h].token].Head()
      && (StageFreeTemplates(g, templates) ==> !k.Stage?)
  {
    var template := templates[g.nodes[h].token];
    assert TemplateFits(templates, g.nodes[h].token, g.nodes[h].inputs);
    TokenOfHead(template, Renumber(ReducedIndex(part), CellsOf(g)[h].inputs));
    HeadIdempotent(template, Renumber(ReducedIndex(part), CellsOf(g)[h].inputs));
  }

  lemma {:induction false} BoundaryValue<V(!new)>(interp: Interp<V>, alg: Algebra<string, V>, g: EngineGraph, part: seq<nat>,
                                                  templates: map<string, NodeKey>, h: nat)
    requires ReadsGraph(interp, alg, g, part, templates) && h < |part| && IsLast(part, h) && g.nodes[h].boundary
    requires Rank(LastMask(part), h) < |FusedNodes(g, part, templates)|
    requires FusedNodes(g, part, templates)[Rank(LastMask(part), h)] == EmittedAt(g, part, templates, h)
    ensures Eval(interp, FusedNodes(g, part, templates), Rank(LastMask(part), h)) == ValueAt(alg, g, h)
    decreases h, 0
  {
    var nodes, p := FusedNodes(g, part, templates), Rank(LastMask(part), h);
    var xs := CellsOf(g)[h].inputs;
    BoundaryRebuilt(g, part, templates, h);
    forall k | 0 <= k < |xs|
      ensures Eval(interp, nodes, nodes[p].Inputs()[k]) == ValueAt(alg, g, xs[k])
    {
      assert xs[k] in g.nodes[h].inputs;
      BoundaryInput(g, part, h, xs[k]);
      FusedValue(interp, alg, g, part, templates, xs[k]);
    }
    assert EvalAll(interp, nodes, nodes[p].Inputs(), p) == Values(alg, UnfoldAll(CellsOf(g), xs, h));
    assert NodeReads(interp, alg, EmittedAt(g, part, templates, h));
  }

  /** Output by output, the reduced list has the values of the graph. */
  lemma FusedOutputValue<V(!new)>(interp: Interp<V>, alg: Algebra<string, V>, g: EngineGraph, part: seq<nat>,
                                  templates: map<string, NodeKey>, k: nat)
    requires ReadsGraph(interp, alg, g, part, templates) && k < |g.outputs|
    ensures g.outputs[k] < |g.nodes| && FusedOutputs(g, part)[k] < |FusedNodes(g, part, templates)|
    ensures Eval(interp, FusedNodes(g, part, templates), FusedOutputs(g, part)[k]) == ValueAt(alg, g, g.outputs[k])
  {
    var o := g.outputs[k];
    assert o in g.outputs;
    OutputsAreLast(g, part, o);
    LastOfUnique(part, o, o);
    FusedValue(interp, alg, g, part, templates, o);
  }

  // ---- terms are preserved ----

  lemma TermsRead(g: EngineGraph, part: seq<nat>, templates: map<string, NodeKey>)
    requires Fusable(g, part, templates)
    ensures ReadsGraph(TERMS, TermMember, g, part, templates)
  {
    FusedRunnable(g, part, templates);
    forall h | 0 <= h < |part| && g.nodes[h].boundary
      ensures NodeReads(TERMS, TermMember, EmittedAt(g, part, templates, h))
    {
      BoundaryRebuilt(g, part, templates, h);
      TokenOfHead(EmittedAt(g, part, templates, h), []);
    }
  }

  /** Fusion keeps the term of the last member of every class. */
  lemma FusedTerm(g: EngineGraph, part: seq<nat>, templates: map<string, NodeKey>, h: nat)
    requires Fusable(g, part, templates) && h < |part| && IsLast(part, h)
    ensures Runnable(FusedNodes(g, part, templates)) && Rank(LastMask(part), h) < |FusedNodes(g, part, templates)|
    ensures TermAt(FusedNodes(g, part, templates), Rank(LastMask(part), h)) == Unfold(CellsOf(g), h)
  {
    TermsRead(g, part, templates);
    FusedValue(TERMS, TermMember, g, part, templates, h);
    ValueOfTerm(Unfold(CellsOf(g), h));
  }

  /** Output by output, the reduced list stands for the terms of the graph. */
  lemma FusedOutputTerm(g: EngineGraph, part: seq<nat>, templates: map<string, NodeKey>, k: nat)
    requires Fusable(g, part, templates) && k < |g.outputs|
    ensures Runnable(FusedNodes(g, part, templates))
    ensures FusedOutputs(g, part)[k] < |FusedNodes(g, part, templates)|
    ensures TermAt(FusedNodes(g, part, templates), FusedOutputs(g, part)[k]) == Unfold(CellsOf(g), g.outputs[k])
  {
    TermsRead(g, part, templates);
    FusedOutputValue(TERMS, TermMember, g, part, templates, k);
    ValueOfTerm(Unfold(CellsOf(g), g.outputs[k]));
  }

  // ---- no two emitted nodes are alike ----

  lemma EmittedKind(g: EngineGraph, part: seq<nat>, templates: map<string, NodeKey>, h: nat)
    requires Fusable(g, part, templates) && h < |part|
    ensures EmittedAt(g, part, templates, h).Stage? <==> !g.nodes[h].boundary
  {
    if g.nodes[h].boundary {
      assert TemplateFits(templates, g.nodes[h].token, g.nodes[h].inputs);
    }
  }

  lemma SameBoundary(g: EngineGraph, part: seq<nat>, templates: map<string, NodeKey>, h: nat, h': nat)
    requires Fusable(g, part, templates) && h < |part| && h' < |part|
    requires g.nodes[h].boundary && g.nodes[h'].boundary
    requires EmittedAt(g, part, templates, h).Canon() == EmittedAt(g, part, templates, h').Canon()
    ensures CellsOf(g)[h] == CellsOf(g)[h']
  {
    var f, xs, ys := ReducedIndex(part), CellsOf(g)[h].inputs, CellsOf(g)[h'].inputs;
    var t, t' := templates[g.nodes[h].token], templates[g.nodes[h'].token];
    assert TemplateFits(templates, g.nodes[h].token, g.nodes[h].inputs);
    assert TemplateFits(templates, g.nodes[h'].token, g.nodes[h'].inputs);
    var k, k' := EmittedAt(g, part, templates, h), EmittedAt(g, part, templates, h');
    CanonIsHeadAndInputs(k, k');
    HeadDeterminesToken(k, k');
    TokenOfHead(t, Renumber(f, xs));
    TokenOfHead(t', Renumber(f, ys));
    assert Renumber(f, xs) == k.Inputs() == k'.Inputs() == Renumber(f, ys);
    assert |xs| == |Renumber(f, xs)| == |ys|;
    forall l | 0 <= l < |xs|
      ensures xs[l] == ys[l]
    {
      assert f[xs[l]] == Renumber(f, xs)[l] == f[ys[l]];
      assert xs[l] in g.nodes[h].inputs && ys[l] in g.nodes[h'].inputs;
      BoundaryInput(g, part, h, xs[l]);
      BoundaryInput(g, part, h', ys[l]);
      RankInjective(LastMask(part), xs[l], ys[l]);
    }
    assert xs == ys;
  }

  /** The first member of a stage is its first op. */
  lemma FirstMember(g: EngineGraph, part: seq<nat>, h: nat) returns (i: nat, slots: seq<nat>)
    requires WellFormed(g) && ValidPartition(g, part) && Named(part) && h < |part| && IsLast(part, h)
    ensures StageOf(g, part, h).members != [] && i < |part| && part[i] == part[h]
    ensures forall j :: 0 <= j < i ==> part[j] != part[h]
    ensures MemberMeans(g, part, Members(part, part[h]), slots, StageOf(g, part, h).members[0], i)
    ensures AllBelow(slots, |part|) && StageOf(g, part, h).ins == Renumber(ReducedIndex(part), slots)
  {
    var ops := Members(part, part[h]);
    LastMember(part, h);
    BuildToMeans(g, part, ops, |ops|);
    SlotsBelow(g, part, ops);
    slots := BuildTo(g, part, ops, |ops|).1;
    i := ops[0];
    assert MemberMeans(g, part, ops, slots, BuildTo(g, part, ops, |ops|).0[0], ops[0]);
    forall j | 0 <= j < i
      ensures part[j] != part[h]
    {
      MembersExact(part, part[h], j);
    }
  }

  /** It takes all its inputs from outside, through slots that lead to their reduced nodes. */
  lemma FirstMemberInput(g: EngineGraph, part: seq<nat>, h: nat, i: nat, slots: seq<nat>, member: StageOp, l: nat)
    requires WellFormed(g) && ValidPartition(g, part) && Named(part) && h < |part| && IsLast(part, h)
    requires i < |part| && part[i] == part[h] && forall j :: 0 <= j < i ==> part[j] != part[h]
    requires MemberMeans(g, part, Members(part, part[h]), slots, member, i)
    requires AllBelow(slots, |part|) && l < |g.nodes[i].inputs|
    ensures IsLast(part, g.nodes[i].inputs[l])
    ensures member.refs[l].Input? && member.refs[l].slot < |slots|
    ensures ReducedIndex(part)[slots[member.refs[l].slot]] == Rank(LastMask(part), g.nodes[i].inputs[l])
  {
    var x := g.nodes[i].inputs[l];
    assert x in g.nodes[i].inputs;
    ExternalInput(g, part, h, i, x);
    assert RefMeans(part, Members(part, part[h]), slots, member.refs[l], x);
    MembersExact(part, part[h], x);
    ReducedIndexOfClass(part, x);
  }

  lemma SameStage(g: EngineGraph, part: seq<nat>, h: nat, h': nat)
    requires WellFormed(g) && ValidPartition(g, part) && Named(part) && HashConsed(CellsOf(g))
    requires h < |part| && h' < |part| && IsLast(part, h) && IsLast(part, h')
    requires StageOf(g, part, h) == StageOf(g, part, h')
    ensures h == h'
  {
    var i, slots := FirstMember(g, part, h);
    var i', slots' := FirstMember(g, part, h');
    var member := StageOf(g, part, h).members[0];
    var xs, ys := CellsOf(g)[i].inputs, CellsOf(g)[i'].inputs;
    assert Renumber(ReducedIndex(part), slots) == Renumber(ReducedIndex(part), slots');
    assert |xs| == |member.refs| == |ys|;
    forall l | 0 <= l < |xs|
      ensures xs[l] == ys[l]
    {
      FirstMemberInput(g, part, h, i, slots, member, l);
      FirstMemberInput(g, part, h', i', slots', member, l);
      var s := member.refs[l].slot;
      assert Renumber(ReducedIndex(part), slots)[s] == Renumber(ReducedIndex(part), slots')[s];
      RankInjective(LastMask(part), xs[l], ys[l]);
    }
    assert xs == ys;
    assert CellsOf(g)[i] == CellsOf(g)[i'];
    assert i == i';
    LastOfUnique(part, h, h');
    LastOfUnique(part, h, h);
  }

  /** On a hash-consed graph the emitted keys are pairwise distinct, so interning them collapses nothing. */
  lemma FusedDistinct(g: EngineGraph, part: seq<nat>, templates: map<string, NodeKey>, p: nat, q: nat)
    requires Fusable(g, part, templates) && HashConsed(CellsOf(g))
    requires p < |FusedNodes(g, part, templates)| && q < |FusedNodes(g, part, templates)|
    requires FusedNodes(g, part, templates)[p].Canon() == FusedNodes(g, part, templates)[q].Canon()
    ensures p == q
  {
    var h := FusedFrom(g, part, templates, p);
    var h' := FusedFrom(g, part, templates, q);
    EmittedKind(g, part, templates, h);
    EmittedKind(g, part, templates, h');
    if g.nodes[h].boundary {
      SameBoundary(g, part, templates, h, h');
      assert h == h';
    } else {
      SameStage(g, part, h, h');
    }
  }

  // ---- work is conserved ----

  /** Where an op ends up: the reduced node of its class, and its place among the class's members. */
  ghost function Place(part: seq<nat>, i: nat): (nat, nat)
    requires i < |part|
  {
    MembersExact(part, part[i], i);
    (ReducedIndex(part)[i], IndexOf(Members(part, part[i]), i))
  }

  /** Position `(p, k)` of the reduced list is the `k`-th member of a stage. */
  ghost predicate IsMember(nodes: seq<NodeKey>, p: nat, k: nat) {
    p < |nodes| && nodes[p].Stage? && k < |nodes[p].members|
  }

  lemma StageMembers(g: EngineGraph, part: seq<nat>, templates: map<string, NodeKey>, p: nat) returns (h: nat)
    requires Fusable(g, part, templates)
    requires p < |FusedNodes(g, part, templates)| && FusedNodes(g, part, templates)[p].Stage?
    ensures h < |part| && IsLast(part, h) && Rank(LastMask(part), h) == p && !g.nodes[h].boundary
    ensures FusedNodes(g, part, templates)[p] == StageOf(g, part, h)
    ensures |FusedNodes(g, part, templates)[p].members| == |Members(part, part[h])|
  {
    h := FusedFrom(g, part, templates, p);
    EmittedKind(g, part, templates, h);
  }

  /** Every op is a member of a stage, under its own token. */
  lemma OpPlaced(g: EngineGraph, part: seq<nat>, templates: map<string, NodeKey>, i: nat)
    requires Fusable(g, part, templates) && i < |part| && !g.nodes[i].boundary
    ensures IsMember(FusedNodes(g, part, templates), Place(part, i).0, Place(part, i).1)
    ensures FusedNodes(g, part, templates)[Place(part, i).0].members[Place(part, i).1].token == g.nodes[i].token
  {
    var h := LastOf(part, i);
    LastOfUnique(part, i, h);
    FusedAt(g, part, templates, h);
    EmittedKind(g, part, templates, h);
    var ops := Members(part, part[h]);
    MembersExact(part, part[h], i);
    BuildToMeans(g, part, ops, |ops|);
    var (members, slots) := BuildTo(g, part, ops, |ops|);
    var k := IndexOf(ops, i);
    assert MemberMeans(g, part, ops, slots, members[k], ops[k]);
  }

  /** The op is at its place in the reduced list, under its own token. */
  ghost predicate AtPlace(g: EngineGraph, part: seq<nat>, nodes: seq<NodeKey>, i: nat)
    requires |part| == |g.nodes| && i < |part|
  {
    && IsMember(nodes, Place(part, i).0, Place(part, i).1)
    && nodes[Place(part, i).0].members[Place(part, i).1].token == g.nodes[i].token
  }

  ghost predicate IsOpPlace(g: EngineGraph, part: seq<nat>, p: nat, k: nat)
    requires |part| == |g.nodes|
  {
    exists i :: 0 <= i < |part| && !g.nodes[i].boundary && Place(part, i) == (p, k)
  }

  lemma PlaceInjective(part: seq<nat>, i: nat, j: nat)
    requires i < |part| && j < |part| && Place(part, i) == Place(part, j)
    ensures i == j
  {
    RankInjective(LastMask(part), LastOf(part, i), LastOf(part, j));
    LastOfUnique(part, i, j);
  }

  lemma MemberIsOp(g: EngineGraph, part: seq<nat>, templates: map<string, NodeKey>, p: nat, k: nat)
    requires Fusable(g, part, templates) && IsMember(FusedNodes(g, part, templates), p, k)
    ensures IsOpPlace(g, part, p, k)
  {
    var h := StageMembers(g, part, templates, p);
    var ops := Members(part, part[h]);
    var i := ops[k];
    assert part[i] == part[h];
    LastOfUnique(part, i, h);
    assert Place(part, i).1 == k;
  }

  /** Each op sits in exactly one stage at exactly one place, and every member of every stage is such
      an op: placing is a bijection between the ops and the stage members. */
  lemma WorkConserved(g: EngineGraph, part: seq<nat>, templates: map<string, NodeKey>)
    requires Fusable(g, part, templates)
    ensures var nodes := FusedNodes(g, part, templates);
      && (forall i :: 0 <= i < |part| && !g.nodes[i].boundary ==> AtPlace(g, part, nodes, i))
      && (forall i, j {:trigger Place(part, i), Place(part, j)} ::
           0 <= i < |part| && 0 <= j < |part| && Place(part, i) == Place(part, j) ==> i == j)
      && (forall p, k :: IsMember(nodes, p, k) ==> IsOpPlace(g, part, p, k))
  {
    var nodes := FusedNodes(g, part, templates);
    forall i | 0 <= i < |part| && !g.nodes[i].boundary
      ensures AtPlace(g, part, nodes, i)
    {
      OpPlaced(g, part, templates, i);
    }
    forall i, j | 0 <= i < |part| && 0 <= j < |part| && Place(part, i) == Place(part, j)
      ensures i == j
    {
      PlaceInjective(part, i, j);
    }
    forall p: nat, k: nat | IsMember(nodes, p, k)
      ensures IsOpPlace(g, part, p, k)
    {
      MemberIsOp(g, part, templates, p, k);
    }
  }

  ghost function CountStages(nodes: seq<NodeKey>): (c: nat)
    ensures c <= |nodes|
  {
    if nodes == [] then 0 else CountStages(nodes[..|nodes| - 1]) + if nodes[|nodes| - 1].Stage? then 1 else 0
  }

  lemma {:induction false} CountStagesTo(xs: seq<NodeKey>, mask: seq<bool>, stageMask: seq<bool>, n: nat)
    requires |xs| == |mask| == |stageMask| && n <= |xs|
    requires forall i :: 0 <= i < |xs| ==> stageMask[i] == (mask[i] && xs[i].Stage?)
    ensures CountStages(SelectTo(xs, mask, n)) == Rank(stageMask, n)
  {
    if n > 0 {
      CountStagesTo(xs, mask, stageMask, n - 1);
      var ys := SelectTo(xs, mask, n - 1);
      var zs := SelectTo(xs, mask, n);
      if mask[n - 1] {
        assert zs == ys + [xs[n - 1]] && zs[..|zs| - 1] == ys;
      } else {
        assert zs == ys;
      }
    }
  }

  /** The reduced list holds one stage per class of ops. */
  lemma StagesAreClasses(g: EngineGraph, part: seq<nat>, templates: map<string, NodeKey>)
    requires Fusable(g, part, templates)
    ensures CountStages(FusedNodes(g, part, templates)) == StageCount(g, part)
  {
    var xs := Emitted(g, part, templates);
    forall i | 0 <= i < |part|
      ensures StageMask(g, part)[i] == (LastMask(part)[i] && xs[i].Stage?)
    {
      EmittedKind(g, part, templates, i);
    }
    CountStagesTo(xs, LastMask(part), StageMask(g, part), |part|);
  }
}
