/** Exactly when reduction keeps the meaning of what was recorded: when the needed operators can be told by
their tokens.  Otherwise one of two operators under a token is nowhere in the reduced graph, and a meaning
that only it can set off is lost. */
module Collisions {
  import opened Selection
  import opened Terms
  import opened Cells
  import opened Node
  import opened Arena
  import opened Operators
  import opened Engine
  import opened Semantics
  import opened Dce
  import opened Fusion
  import opened StageFusion
  import opened FusedMeaning
  import opened Reduce
  import opened Meaning

  lemma SameTermSameClass(g: EngineGraph, engine: RewriteEngine, p: nat, q: nat)
    requires WellFormed(g) && SaturatedEngine(engine) && p < |g.nodes| && q < |g.nodes|
    requires Unfold(CellsOf(g), p) == Unfold(CellsOf(g), q)
    ensures |engine(g)| == |g.nodes| && NewIndex(engine(g))[p] == NewIndex(engine(g))[q]
  {
    var s := Unfold(CellsOf(g), p);
    EqualFormsProvable(TokenTheory(), s, s);
    RepSame(engine(g), p, q);
  }

  lemma MergedOutputs(nodes: seq<NodeKey>, outs: seq<NodeId>, engine: RewriteEngine, k: nat, l: nat)
    requires Requestable(nodes, outs) && SaturatedEngine(engine) && k < |outs| && l < |outs|
    requires Unfold(CellsBy(TokenOf, nodes), outs[k]) == Unfold(CellsBy(TokenOf, nodes), outs[l])
    ensures SoundEngine(engine) && |DedupedGraph(nodes, outs, engine).outputs| == |outs|
    ensures DedupedGraph(nodes, outs, engine).outputs[k] == DedupedGraph(nodes, outs, engine).outputs[l]
  {
    var g := ReachableGraph(nodes, outs);
    assert outs[k] in outs && outs[l] in outs;
    KeptTopological(nodes, outs);
    EngineGraphCells(Kept(nodes, outs), KeptOutputs(nodes, outs));
    KeptTokenTerms(nodes, outs, outs[k]);
    KeptTokenTerms(nodes, outs, outs[l]);
    SameTermSameClass(g, engine, g.outputs[k], g.outputs[l]);
    assert CanonicalGraph(nodes, outs, engine).outputs[k] == CanonicalGraph(nodes, outs, engine).outputs[l];
  }

  /** Outputs whose nodes have one token and the same inputs come out as one node. */
  lemma CollidingOutputs(nodes: seq<NodeKey>, outs: seq<NodeId>, engine: RewriteEngine, mode: FusionMode, k: nat, l: nat)
    requires Requestable(nodes, outs) && SaturatedEngine(engine) && k < |outs| && l < |outs|
    requires nodes[outs[k]].Token() == nodes[outs[l]].Token() && nodes[outs[k]].Inputs() == nodes[outs[l]].Inputs()
    ensures SoundEngine(engine)
    ensures var r := ReduceNodes(nodes, outs, engine, mode); |r.outputs| == |outs| && r.outputs[k] == r.outputs[l]
  {
    SameCellTerm(CellsBy(TokenOf, nodes), outs[k], CellsBy(TokenOf, nodes), outs[l]);
    MergedOutputs(nodes, outs, engine, k, l);
    ReduceRunnable(nodes, outs, engine, mode);
  }

  // ---- meanings that spread ----

  /** Over nothing but false the operator is false. */
  ghost predicate Silent(op: (NodeKey, seq<bool>) -> bool, head: NodeKey) {
    forall vs :: true !in vs ==> !op(head, vs)
  }

  /** What is true among the arguments of any operator makes its value true. */
  ghost predicate Spreads(op: (NodeKey, seq<bool>) -> bool) {
    forall head, vs :: true in vs ==> op(head, vs)
  }

  /** The meaning that one operator alone sets off. */
  function SetOffBy(head: NodeKey): (NodeKey, seq<bool>) -> bool {
    (h: NodeKey, vs: seq<bool>) => if IsIdentity(h) && |vs| == 1 then vs[0] else h == head || true in vs
  }

  lemma SetOffByFacts(head: NodeKey)
    ensures OperatorLaws(SetOffBy(head)) && Spreads(SetOffBy(head))
    ensures forall h :: h != head ==> Silent(SetOffBy(head), h)
  {
    LawsOfFree(SetOffBy(head));
  }

  /** A needed node that is true makes some output true. */
  lemma {:induction false} LoudOutput(op: (NodeKey, seq<bool>) -> bool, nodes: seq<NodeKey>, outs: seq<NodeId>, i: nat)
      returns (k: nat)
    requires Reducible(nodes, outs) && Runnable(nodes) && Spreads(op)
    requires i < |nodes| && Reachable(nodes, outs, i) && Eval(Executor(op), nodes, i)
    ensures k < |outs| && Eval(Executor(op), nodes, outs[k])
    decreases |nodes| - i
  {
    if i in outs {
      k :| 0 <= k < |outs| && outs[k] == i;
    } else {
      var j :| i < j < |nodes| && i in nodes[j].Inputs() && Reachable(nodes, outs, j);
      var l :| 0 <= l < |nodes[j].Inputs()| && nodes[j].Inputs()[l] == i;
      var vs := EvalAll(Executor(op), nodes, nodes[j].Inputs(), j);
      assert vs[l];
      k := LoudOutput(op, nodes, outs, j);
    }
  }

  /** Every operator of the list, and every member of its stages, is silent. */
  ghost predicate AllSilent(op: (NodeKey, seq<bool>) -> bool, nodes: seq<NodeKey>) {
    && (forall p :: 0 <= p < |nodes| && !nodes[p].Stage? ==> Silent(op, nodes[p].Head()))
    && (forall p: nat, j: nat :: IsMember(nodes, p, j) ==> SilentMember(op, nodes[p].members[j].token))
  }

  ghost predicate SilentMember(op: (NodeKey, seq<bool>) -> bool, token: string) {
    DecodeMember(token).Some? && Silent(op, DecodeMember(token).value)
  }

  lemma FalseArgs(refs: seq<StageRef>, ins: seq<bool>, done: seq<bool>)
    requires RefsInRange(refs, |ins|, |done|) && true !in ins && true !in done
    ensures true !in Args(refs, ins, done)
  {
  }

  lemma SilentApplied(op: (NodeKey, seq<bool>) -> bool, token: string, args: seq<bool>)
    requires SilentMember(op, token) && true !in args
    ensures !Executor(op).member(token, args)
  {
  }

  lemma {:induction false} MembersSilent(op: (NodeKey, seq<bool>) -> bool, nodes: seq<NodeKey>, p: nat, ins: seq<bool>, n: nat)
    requires AllSilent(op, nodes) && p < |nodes| && nodes[p].Stage? && StageOk(nodes[p])
    requires |ins| == |nodes[p].ins| && true !in ins && n <= |nodes[p].members|
    ensures true !in RunMembers(Executor(op).member, nodes[p], ins, n)
  {
    if n > 0 {
      MembersSilent(op, nodes, p, ins, n - 1);
      var done, m := RunMembers(Executor(op).member, nodes[p], ins, n - 1), nodes[p].members[n - 1];
      assert IsMember(nodes, p, n - 1);
      FalseArgs(m.refs, ins, done);
      SilentApplied(op, m.token, Args(m.refs, ins, done));
    }
  }

  /** Then every value is false. */
  lemma {:induction false} AllFalse(op: (NodeKey, seq<bool>) -> bool, nodes: seq<NodeKey>, i: nat)
    requires Runnable(nodes) && AllSilent(op, nodes) && i < |nodes|
    ensures !Eval(Executor(op), nodes, i)
    decreases i
  {
    var xs := nodes[i].Inputs();
    var vs := EvalAll(Executor(op), nodes, xs, i);
    forall k | 0 <= k < |vs|
      ensures !vs[k]
    {
      AllFalse(op, nodes, xs[k]);
    }
    if nodes[i].Stage? {
      MembersSilent(op, nodes, i, vs, |nodes[i].members|);
    }
  }

  /** The operators a reduction can hold: needed ops, and the templates collected for needed tokens. */
  ghost predicate KeysSilent(op: (NodeKey, seq<bool>) -> bool, keys: seq<NodeKey>) {
    forall i :: 0 <= i < |keys| && (keys[i].Op? || IsTemplate(keys, i)) ==> Silent(op, keys[i].Head())
  }

  lemma ReducedSilent(op: (NodeKey, seq<bool>) -> bool, nodes: seq<NodeKey>, outs: seq<NodeId>, engine: RewriteEngine, mode: FusionMode)
    requires Reducible(nodes, outs) && SoundEngine(engine) && KeysSilent(op, Kept(nodes, outs))
    ensures AllSilent(op, ReduceNodes(nodes, outs, engine, mode).nodes)
  {
    var r, keys := ReduceNodes(nodes, outs, engine, mode).nodes, Kept(nodes, outs);
    forall p | 0 <= p < |r| && !r[p].Stage?
      ensures Silent(op, r[p].Head())
    {
      var i, inputs := BoundaryFromKey(nodes, outs, engine, mode, p);
      HeadIdempotent(keys[i], inputs);
    }
    forall p: nat, j: nat | IsMember(r, p, j)
      ensures SilentMember(op, r[p].members[j].token)
    {
      var k := ReducedMember(nodes, outs, engine, mode, p, j);
      DecodeMemberOfOp(k);
    }
  }

  /** A lawful meaning under which some recorded output is true and no reduced one is. */
  lemma SilencedMeaning(op: (NodeKey, seq<bool>) -> bool, nodes: seq<NodeKey>, outs: seq<NodeId>, i: nat,
                        reduced: seq<NodeKey>, outputs: seq<nat>)
    requires Reducible(nodes, outs) && Runnable(nodes) && Spreads(op)
    requires i < |nodes| && Reachable(nodes, outs, i) && Eval(Executor(op), nodes, i)
    requires Runnable(reduced) && AllBelow(outputs, |reduced|) && AllSilent(op, reduced)
    ensures !KeepsValues(op, nodes, outs, reduced, outputs)
  {
    var k := LoudOutput(op, nodes, outs, i);
    var vs := EvalOutputs(Executor(op), reduced, outputs);
    forall l | 0 <= l < |vs|
      ensures !vs[l]
    {
      AllFalse(op, reduced, outputs[l]);
    }
    assert EvalOutputs(Executor(op), nodes, outs)[k];
  }

  // ---- collisions ----

  /** Two needed nodes have one token and different operators. */
  ghost predicate Collide(nodes: seq<NodeKey>, outs: seq<NodeId>, i: nat, j: nat) {
    && i < |nodes| && j < |nodes| && Reachable(nodes, outs, i) && Reachable(nodes, outs, j)
    && nodes[i].Token() == nodes[j].Token() && nodes[i].Head() != nodes[j].Head()
  }

  /** Ops are told apart by their tokens, and from boundaries. */
  lemma CollidingBoundary(nodes: seq<NodeKey>, outs: seq<NodeId>, i: nat, j: nat)
    requires Reducible(nodes, outs) && Collide(nodes, outs, i, j)
    ensures !nodes[i].Op? && !nodes[j].Op? && !nodes[i].Head().Op? && !nodes[j].Head().Op?
  {
    TokenInitial(nodes[i]);
    TokenInitial(nodes[j]);
    if nodes[i].Op? || nodes[j].Op? {
      TokenInjective(nodes[i], nodes[j]);
      assert false;
    }
  }

  /** No template is this operator. */
  ghost predicate Untemplated(keys: seq<NodeKey>, head: NodeKey) {
    forall t: nat :: IsTemplate(keys, t) ==> keys[t].Head() != head
  }

  lemma TemplateMisses(keys: seq<NodeKey>, k: NodeKey)
    requires k.Token() in Templates(keys) ==> Templates(keys)[k.Token()].Head() != k.Head()
    ensures Untemplated(keys, k.Head())
  {
    forall t: nat | IsTemplate(keys, t)
      ensures keys[t].Head() != k.Head()
    {
      if keys[t].Head() == k.Head() {
        HeadDeterminesToken(keys[t], k);
      }
    }
  }

  /** One of the two is not the operator of the template under their token. */
  lemma LostOperator(nodes: seq<NodeKey>, outs: seq<NodeId>, i: nat, j: nat) returns (lost: nat)
    requires Reducible(nodes, outs) && Collide(nodes, outs, i, j)
    ensures lost == i || lost == j
    ensures !nodes[lost].Head().Op? && Untemplated(Kept(nodes, outs), nodes[lost].Head())
  {
    var templates, token := Templates(Kept(nodes, outs)), nodes[i].Token();
    CollidingBoundary(nodes, outs, i, j);
    lost := if token in templates && templates[token].Head() == nodes[i].Head() then j else i;
    TemplateMisses(Kept(nodes, outs), nodes[lost]);
  }

  lemma LostIsSilenced(keys: seq<NodeKey>, head: NodeKey)
    requires !head.Op? && Untemplated(keys, head)
    ensures KeysSilent(SetOffBy(head), keys)
  {
    SetOffByFacts(head);
    forall i | 0 <= i < |keys| && (keys[i].Op? || IsTemplate(keys, i))
      ensures keys[i].Head() != head
    {
      assert keys[i].Head().Op? == keys[i].Op?;
    }
  }

  lemma SetOff(nodes: seq<NodeKey>, i: nat)
    requires Runnable(nodes) && i < |nodes| && !nodes[i].Stage? && !nodes[i].Head().Op?
    ensures Eval(Executor(SetOffBy(nodes[i].Head())), nodes, i)
  {
  }

  /** Needed nodes that collide: in either mode and behind every sound engine, a lawful meaning is lost. */
  lemma CollisionLosesMeaning(nodes: seq<NodeKey>, outs: seq<NodeId>, i: nat, j: nat, engine: RewriteEngine, mode: FusionMode)
    returns (op: (NodeKey, seq<bool>) -> bool)
    requires Reducible(nodes, outs) && Runnable(nodes) && SoundEngine(engine) && Collide(nodes, outs, i, j)
    ensures OperatorLaws(op)
    ensures var r := ReduceNodes(nodes, outs, engine, mode); !KeepsValues(op, nodes, outs, r.nodes, r.outputs)
  {
    var lost := LostOperator(nodes, outs, i, j);
    op := SetOffBy(nodes[lost].Head());
    SetOffByFacts(nodes[lost].Head());
    LostIsSilenced(Kept(nodes, outs), nodes[lost].Head());
    ReducedSilent(op, nodes, outs, engine, mode);
    ReduceRunnable(nodes, outs, engine, mode);
    SetOff(nodes, lost);
    var r := ReduceNodes(nodes, outs, engine, mode);
    SilencedMeaning(op, nodes, outs, lost, r.nodes, r.outputs);
  }

  // ---- the exact condition ----

  /** Every lawful meaning over booleans is kept. */
  ghost predicate KeepsMeaning(nodes: seq<NodeKey>, outs: seq<NodeId>, r: Reduced) {
    forall op: (NodeKey, seq<bool>) -> bool :: OperatorLaws(op) ==> KeepsValues(op, nodes, outs, r.nodes, r.outputs)
  }

  lemma TellingKeeps(nodes: seq<NodeKey>, outs: seq<NodeId>, engine: RewriteEngine, mode: FusionMode)
    requires NeededTokensTell(nodes, outs) && Runnable(nodes) && SoundEngine(engine)
    ensures KeepsMeaning(nodes, outs, ReduceNodes(nodes, outs, engine, mode))
  {
    var r := ReduceNodes(nodes, outs, engine, mode);
    forall op: (NodeKey, seq<bool>) -> bool | OperatorLaws(op)
      ensures KeepsValues(op, nodes, outs, r.nodes, r.outputs)
    {
      MeaningPreserved(op, nodes, outs, engine, mode);
    }
  }

  lemma CollisionFound(nodes: seq<NodeKey>, outs: seq<NodeId>) returns (i: nat, j: nat)
    requires Requestable(nodes, outs) && !NeededTokensTell(nodes, outs)
    ensures Collide(nodes, outs, i, j)
  {
    i, j :| i < |nodes| && j < |nodes| && Reachable(nodes, outs, i) && Reachable(nodes, outs, j)
      && nodes[i].Token() == nodes[j].Token() && nodes[i].Head() != nodes[j].Head();
  }

  /** For every output list, in either mode and behind every sound engine, the reduction keeps every lawful
      meaning if and only if no two different operators among the needed nodes share a token. */
  lemma MeaningIff(nodes: seq<NodeKey>, outs: seq<NodeId>, engine: RewriteEngine, mode: FusionMode)
    requires Reducible(nodes, outs) && Runnable(nodes) && SoundEngine(engine)
    ensures NeededTokensTell(nodes, outs) <==> KeepsMeaning(nodes, outs, ReduceNodes(nodes, outs, engine, mode))
  {
    if NeededTokensTell(nodes, outs) {
      TellingKeeps(nodes, outs, engine, mode);
    } else {
      var i, j := CollisionFound(nodes, outs);
      var op := CollisionLosesMeaning(nodes, outs, i, j, engine, mode);
      var r := ReduceNodes(nodes, outs, engine, mode);
      assert !KeepsValues(op, nodes, outs, r.nodes, r.outputs);
    }
  }

  /** A concrete recording: a source and two calls over it whose payloads cut one text at different places. */
  lemma CollidingCalls(d: PayloadDescriptor) returns (nodes: seq<NodeKey>)
    ensures nodes == [Source("a", []), External(d.(kind := "a|b", contentHash := "c"), [], [0]),
                      External(d.(kind := "a", contentHash := "b|c"), [], [0])]
    ensures Reducible(nodes, [1, 2]) && Runnable(nodes) && Collide(nodes, [1, 2], 1, 2) && !NeededTokensTell(nodes, [1, 2])
  {
    var x, y := d.(kind := "a|b", contentHash := "c"), d.(kind := "a", contentHash := "b|c");
    nodes := [Source("a", []), External(x, [], [0]), External(y, [], [0])];
    TokenCollides(d);
    TokenOfHead(External(x, [], []), [0]);
    TokenOfHead(External(y, [], []), [0]);
    assert 1 in [1, 2] && 2 in [1, 2];
    assert Reachable(nodes, [1, 2], 1) && Reachable(nodes, [1, 2], 2);
  }
}
