/** The reduced graph means what the recorded graph meant, to an executor.

The executor knows operators (kind, name, parameters, payload), not tokens: it evaluates recorded
nodes directly and decodes the tokens of stage members back into operators.  The laws it must satisfy
are spelled out operator by operator. */
module Meaning {
  import opened Wrappers
  import opened Selection
  import opened Terms
  import opened Cells
  import opened Node
  import opened Arena
  import opened Operators
  import opened Semantics
  import opened Engine
  import opened FusedMeaning
  import opened Reduce
  import Dce
  import Fusion
  import opened Stages

  // ---- executors ----

  /** The operator a member token decodes to. */
  function DecodeMember(token: string): Option<NodeKey> {
    match ParseOpToken(token)
    case None => None
    case Some((kind, name, params)) => Some(if kind == "op" then Op(name, params, []) else Reduction(name, params, []))
  }

  /** Decoding the token of an op gives back its operator. */
  lemma DecodeMemberOfOp(k: NodeKey)
    requires k.Op?
    ensures DecodeMember(k.Token()) == Some(k.Head())
  {
    ParseOpTokenRoundTrip(k);
  }

  /** Every stage member is an op the executor can decode. */
  ghost predicate MembersDecode(nodes: seq<NodeKey>) {
    forall p: nat, k: nat :: IsMember(nodes, p, k) ==> DecodeMember(nodes[p].members[k].token).Some?
  }

  function Member<V>(op: (NodeKey, seq<V>) -> V, token: string, args: seq<V>): V {
    match DecodeMember(token)
    case Some(head) => op(head, args)
    case None => op(Source(token, []), args)
  }

  /** The interpretation of an executor that applies operators to values. */
  ghost function Executor<V>(op: (NodeKey, seq<V>) -> V): Interp<V> {
    Interp(op, (token, args) => Member(op, token, args))
  }

  // ---- when tokens tell operators apart ----

  /** No two different operators have one token; of stages of one size there is only one. */
  ghost predicate TokensTell(nodes: seq<NodeKey>) {
    forall i, j :: 0 <= i < |nodes| && 0 <= j < |nodes| && nodes[i].Token() == nodes[j].Token() ==>
      nodes[i].Head() == nodes[j].Head()
  }

  /** The same of the nodes that the outputs need. */
  ghost predicate NeededTokensTell(nodes: seq<NodeKey>, outs: seq<NodeId>) {
    && Requestable(nodes, outs)
    && forall i, j :: 0 <= i < |nodes| && 0 <= j < |nodes| && Dce.Reachable(nodes, outs, i) && Dce.Reachable(nodes, outs, j) ==>
        (nodes[i].Token() == nodes[j].Token() ==> nodes[i].Head() == nodes[j].Head())
  }

  ghost predicate AllRecordable(nodes: seq<NodeKey>) {
    forall i :: 0 <= i < |nodes| ==> Recordable(nodes[i])
  }

  /** Recordable nodes are told apart, whichever they are. */
  lemma RecordableTell(nodes: seq<NodeKey>)
    requires AllRecordable(nodes)
    ensures TokensTell(nodes) && StageFree(nodes)
  {
    forall i, j | 0 <= i < |nodes| && 0 <= j < |nodes| && nodes[i].Token() == nodes[j].Token()
      ensures nodes[i].Head() == nodes[j].Head()
    {
      TokenInjective(nodes[i], nodes[j]);
    }
  }

  lemma KeptTell(nodes: seq<NodeKey>, outs: seq<NodeId>)
    requires NeededTokensTell(nodes, outs)
    ensures TokensTell(Dce.Kept(nodes, outs))
  {
    var keys := Dce.Kept(nodes, outs);
    forall p, q | 0 <= p < |keys| && 0 <= q < |keys| && keys[p].Token() == keys[q].Token()
      ensures keys[p].Head() == keys[q].Head()
    {
      var i := KeptHead(nodes, outs, p);
      var j := KeptHead(nodes, outs, q);
    }
  }

  lemma KeptHead(nodes: seq<NodeKey>, outs: seq<NodeId>, p: nat) returns (i: nat)
    requires TopologicalKeys(nodes) && p < |Dce.Kept(nodes, outs)|
    ensures i < |nodes| && Dce.Reachable(nodes, outs, i)
    ensures Dce.Kept(nodes, outs)[p].Head() == nodes[i].Head() && Dce.Kept(nodes, outs)[p].Token() == nodes[i].Token()
  {
    i := Dce.KeptFrom(nodes, outs, p);
    HeadIdempotent(nodes[i], Dce.Kept(nodes, outs)[p].Inputs());
    TokenOfHead(nodes[i], Dce.Kept(nodes, outs)[p].Inputs());
  }

  // ---- from operators to tokens ----

  /** The operator of one of the keys, or any op. */
  ghost predicate Known(keys: seq<NodeKey>, k: NodeKey) {
    k.Op? || exists i :: 0 <= i < |keys| && keys[i].Head() == k.Head()
  }

  /** Among them, a token has one operator. */
  lemma KnownInjective(keys: seq<NodeKey>, a: NodeKey, b: NodeKey)
    requires TokensTell(keys) && Known(keys, a) && Known(keys, b) && a.Token() == b.Token()
    ensures a.Head() == b.Head()
  {
    TokenInitial(a);
    TokenInitial(b);
    if a.Op? || b.Op? {
      TokenInjective(a, b);
    } else {
      var i :| 0 <= i < |keys| && keys[i].Head() == a.Head();
      var j :| 0 <= j < |keys| && keys[j].Head() == b.Head();
      HeadDeterminesToken(keys[i], a);
      HeadDeterminesToken(keys[j], b);
    }
  }

  ghost predicate IsTokenOf(keys: seq<NodeKey>, token: string, k: NodeKey) {
    Known(keys, k) && k.Token() == token
  }

  ghost predicate IsToken(keys: seq<NodeKey>, token: string) {
    exists k :: IsTokenOf(keys, token, k)
  }

  ghost function KeyOfToken(keys: seq<NodeKey>, token: string): (k: NodeKey)
    requires IsToken(keys, token)
    ensures IsTokenOf(keys, token, k)
  {
    var k :| IsTokenOf(keys, token, k);
    k
  }

  /** The operator a token stands for. */
  ghost function HeadOfToken(keys: seq<NodeKey>, token: string): NodeKey
    requires IsToken(keys, token)
  {
    KeyOfToken(keys, token).Head()
  }

  lemma HeadOfTokenIs(keys: seq<NodeKey>, k: NodeKey, token: string)
    requires TokensTell(keys) && IsTokenOf(keys, token, k)
    ensures IsToken(keys, token) && HeadOfToken(keys, token) == k.Head()
  {
    KnownInjective(keys, k, KeyOfToken(keys, token));
  }

  /** Apply an operator to any number of values: a stage runs its members if it refers to no more. */
  ghost function HeadApply<V>(op: (NodeKey, seq<V>) -> V, head: NodeKey, args: seq<V>): V {
    if head.Stage? && StageOk(StageOver(head, |args|)) then NodeValue(Executor(op), StageOver(head, |args|), args)
    else op(head, args)
  }

  ghost function StageOver(head: NodeKey, n: nat): (k: NodeKey)
    requires head.Stage?
    ensures k.Stage? && |k.ins| == n && k.members == head.members
  {
    Stage(seq(n, _ => 0), head.members)
  }

  lemma NodeApplies<V>(op: (NodeKey, seq<V>) -> V, k: NodeKey, vs: seq<V>)
    requires StageOk(k) && |vs| == |k.Inputs()|
    ensures NodeValue(Executor(op), k, vs) == HeadApply(op, k.Head(), vs)
  {
    if k.Stage? {
      var over := StageOver(k.Head(), |vs|);
      assert k.Head().members == k.members;
      SameHeadValue(Executor(op), k, over, vs);
    }
  }

  /** Apply the operator a token stands for; text that is nobody's token projects its first argument. */
  ghost function TokenApply<V>(keys: seq<NodeKey>, op: (NodeKey, seq<V>) -> V, token: string, args: seq<V>): V {
    if IsToken(keys, token) then HeadApply(op, HeadOfToken(keys, token), args)
    else if args == [] then op(Source(token, []), args)
    else args[0]
  }

  /** The executor's operators as an algebra of tokens. */
  ghost function TokenAlgebra<V>(keys: seq<NodeKey>, op: (NodeKey, seq<V>) -> V): Algebra<string, V> {
    (token, args) => TokenApply(keys, op, token, args)
  }

  /** The commute rules' token is the token of a bare commuting operator, and only of it. */
  lemma SymmetricTokenHead(keys: seq<NodeKey>, token: string)
    requires TokensTell(keys) && SymmetricToken(token)
    ensures IsToken(keys, token) && IsCommuting(HeadOfToken(keys, token)) && HeadOfToken(keys, token).ins == []
  {
    var name := CommutingOfToken(token);
    HeadOfTokenIs(keys, Op(name, [], []), token);
    BareHead(name);
  }

  lemma SymmetricLaw<V(!new)>(keys: seq<NodeKey>, op: (NodeKey, seq<V>) -> V, token: string, x: V, y: V)
    requires TokensTell(keys) && OperatorLaws(op) && SymmetricToken(token)
    ensures TokenApply(keys, op, token, [x, y]) == TokenApply(keys, op, token, [y, x])
  {
    SymmetricTokenHead(keys, token);
    OpCommutes(op, HeadOfToken(keys, token), x, y);
  }

  lemma IdentityLaw<V(!new)>(keys: seq<NodeKey>, op: (NodeKey, seq<V>) -> V, token: string, x: V)
    requires OperatorLaws(op) && IdentityToken(token)
    ensures TokenApply(keys, op, token, [x]) == x
  {
    if IsToken(keys, token) {
      RulesAreLaws(KeyOfToken(keys, token));
      OpIsIdentity(op, HeadOfToken(keys, token), x);
    }
  }

  /** A lawful executor gives a lawful algebra of tokens. */
  lemma TokenAlgebraLawful<V(!new)>(keys: seq<NodeKey>, op: (NodeKey, seq<V>) -> V)
    requires TokensTell(keys) && OperatorLaws(op)
    ensures Lawful(TokenTheory(), TokenAlgebra(keys, op))
  {
    forall s, x, y | TokenTheory().symmetric(s)
      ensures TokenAlgebra(keys, op)(s, [x, y]) == TokenAlgebra(keys, op)(s, [y, x])
    {
      SymmetricLaw(keys, op, s, x, y);
    }
    forall s, x | TokenTheory().identity(s)
      ensures TokenAlgebra(keys, op)(s, [x]) == x
    {
      IdentityLaw(keys, op, s, x);
    }
  }

  // ---- the executor reads tokens faithfully ----

  lemma MemberReadsToken<V(!new)>(keys: seq<NodeKey>, op: (NodeKey, seq<V>) -> V, k: NodeKey, vs: seq<V>)
    requires TokensTell(keys) && k.Op?
    ensures Executor(op).member(k.Token(), vs) == TokenAlgebra(keys, op)(k.Token(), vs)
  {
    DecodeMemberOfOp(k);
    HeadOfTokenIs(keys, k, k.Token());
    assert TokenApply(keys, op, k.Token(), vs) == op(k.Head(), vs);
  }

  lemma NodeReadsToken<V(!new)>(keys: seq<NodeKey>, op: (NodeKey, seq<V>) -> V, k: NodeKey)
    requires TokensTell(keys) && Known(keys, k) && StageOk(k)
    ensures NodeReads(Executor(op), TokenAlgebra(keys, op), k)
  {
    forall vs: seq<V> | |vs| == |k.Inputs()|
      ensures NodeValue(Executor(op), k, vs) == TokenAlgebra(keys, op)(k.Token(), vs)
    {
      HeadOfTokenIs(keys, k, k.Token());
      NodeApplies(op, k, vs);
      assert TokenApply(keys, op, k.Token(), vs) == HeadApply(op, k.Head(), vs);
    }
  }

  /** The template of a boundary is the operator of the node it stands for. */
  lemma TemplateHeadIs(nodes: seq<NodeKey>, outs: seq<NodeId>, engine: RewriteEngine, h: nat) returns (i: nat)
    requires Requestable(nodes, outs) && SoundEngine(engine) && TokensTell(Dce.Kept(nodes, outs))
    requires var g := DedupedGraph(nodes, outs, engine); h < |g.nodes| && g.nodes[h].boundary
    ensures var n, keys := DedupedGraph(nodes, outs, engine).nodes[h], Dce.Kept(nodes, outs);
      && i < |keys| && |n.inputs| == |keys[i].Inputs()|
      && n.token in Templates(keys) && Templates(keys)[n.token].Head() == keys[i].Head()
  {
    i := DedupedOrigin(nodes, outs, engine, h);
    var first := TemplateIsFirst(Dce.Kept(nodes, outs), i);
  }

  /** A reduced boundary is a needed operator over as many inputs. */
  lemma ReducedBoundary(nodes: seq<NodeKey>, outs: seq<NodeId>, engine: RewriteEngine, mode: Fusion.FusionMode, h: nat)
    requires Requestable(nodes, outs) && SoundEngine(engine) && TokensTell(Dce.Kept(nodes, outs)) && Runnable(Dce.Kept(nodes, outs))
    requires var g := DedupedGraph(nodes, outs, engine); h < |g.nodes| && g.nodes[h].boundary
    ensures ReduceFuses(nodes, outs, engine, mode)
    ensures var g, keys := DedupedGraph(nodes, outs, engine), Dce.Kept(nodes, outs);
      var k := EmittedAt(g, Fusion.Partition(g, mode), Templates(keys), h);
      Known(keys, k) && StageOk(k)
  {
    var g, keys := DedupedGraph(nodes, outs, engine), Dce.Kept(nodes, outs);
    ReductionFuses(nodes, outs, engine, mode);
    var i := TemplateHeadIs(nodes, outs, engine, h);
    BoundaryRebuilt(g, Fusion.Partition(g, mode), Templates(keys), h);
    var k := EmittedAt(g, Fusion.Partition(g, mode), Templates(keys), h);
    assert k.Head() == keys[i].Head();
    if k.Stage? {
      assert k.Head().Stage? && keys[i].Stage? && k.members == keys[i].members;
      assert |k.ins| == |keys[i].ins|;
    }
  }

  /** A member of a reduced stage carries the token of a recorded op. */
  lemma ReducedMember(nodes: seq<NodeKey>, outs: seq<NodeId>, engine: RewriteEngine, mode: Fusion.FusionMode, p: nat, j: nat)
      returns (k: NodeKey)
    requires Reducible(nodes, outs) && SoundEngine(engine)
    requires IsMember(ReduceNodes(nodes, outs, engine, mode).nodes, p, j)
    ensures k.Op? && k in Dce.Kept(nodes, outs) && k.Token() == ReduceNodes(nodes, outs, engine, mode).nodes[p].members[j].token
  {
    var g, keys := DedupedGraph(nodes, outs, engine), Dce.Kept(nodes, outs);
    var part := Fusion.Partition(g, mode);
    TemplatesServe(nodes, outs, engine);
    Fusion.PartitionValid(g, mode);
    MemberIsOp(g, part, Templates(keys), p, j);
    var x: nat :| x < |part| && !g.nodes[x].boundary && Place(part, x) == (p, j);
    OpPlaced(g, part, Templates(keys), x);
    var i := DedupedOrigin(nodes, outs, engine, x);
    k := keys[i];
  }

  /** The executor reads the graph that is fused through the algebra of the needed tokens. */
  lemma ReducedReadsTokens<V(!new)>(
      op: (NodeKey, seq<V>) -> V, nodes: seq<NodeKey>, outs: seq<NodeId>, engine: RewriteEngine, mode: Fusion.FusionMode)
    requires NeededTokensTell(nodes, outs) && Runnable(nodes) && SoundEngine(engine)
    ensures var g, keys := DedupedGraph(nodes, outs, engine), Dce.Kept(nodes, outs);
      ReadsGraph(Executor(op), TokenAlgebra(keys, op), g, Fusion.Partition(g, mode), Templates(keys))
  {
    var g, keys := DedupedGraph(nodes, outs, engine), Dce.Kept(nodes, outs);
    var part := Fusion.Partition(g, mode);
    KeptTell(nodes, outs);
    KeptRunnable(nodes, outs);
    ReductionFuses(nodes, outs, engine, mode);
    forall h | 0 <= h < |part| && g.nodes[h].boundary
      ensures NodeReads(Executor(op), TokenAlgebra(keys, op), EmittedAt(g, part, Templates(keys), h))
    {
      ReducedBoundary(nodes, outs, engine, mode, h);
      NodeReadsToken(keys, op, EmittedAt(g, part, Templates(keys), h));
    }
    FusedRunnable(g, part, Templates(keys));
    forall i, vs: seq<V> | 0 <= i < |g.nodes| && !g.nodes[i].boundary
      ensures Executor(op).member(g.nodes[i].token, vs) == TokenAlgebra(keys, op)(g.nodes[i].token, vs)
    {
      var j := DedupedOrigin(nodes, outs, engine, i);
      MemberReadsToken(keys, op, keys[j], vs);
    }
  }

  /** Every member of every reduced stage decodes to an operator. */
  lemma ReducedMembersDecode(nodes: seq<NodeKey>, outs: seq<NodeId>, engine: RewriteEngine, mode: Fusion.FusionMode)
    requires Reducible(nodes, outs) && SoundEngine(engine)
    ensures MembersDecode(ReduceNodes(nodes, outs, engine, mode).nodes)
  {
    var r := ReduceNodes(nodes, outs, engine, mode).nodes;
    forall p: nat, j: nat | IsMember(r, p, j)
      ensures DecodeMember(r[p].members[j].token).Some?
    {
      var k := ReducedMember(nodes, outs, engine, mode, p, j);
      DecodeMemberOfOp(k);
    }
  }

  // ---- end to end ----

  /** A needed node has the same value without the unneeded ones. */
  lemma {:induction false} KeptValue<V(!new)>(interp: Interp<V>, nodes: seq<NodeKey>, outs: seq<NodeId>, i: nat)
    requires Requestable(nodes, outs) && Runnable(nodes) && Runnable(Dce.Kept(nodes, outs))
    requires i < |nodes| && Dce.Reachable(nodes, outs, i)
    ensures Rank(Dce.ReachMask(nodes, outs), i) < |Dce.Kept(nodes, outs)|
    ensures Eval(interp, Dce.Kept(nodes, outs), Rank(Dce.ReachMask(nodes, outs), i)) == Eval(interp, nodes, i)
    decreases i
  {
    var keys, f, xs := Dce.Kept(nodes, outs), Ranks(Dce.ReachMask(nodes, outs)), nodes[i].Inputs();
    Dce.KeptAt(nodes, outs, i);
    Dce.InputsReachable(nodes, outs, i);
    HeadIdempotent(nodes[i], Renumber(f, xs));
    forall k | 0 <= k < |xs|
      ensures f[xs[k]] < |keys| && Eval(interp, keys, f[xs[k]]) == Eval(interp, nodes, xs[k])
    {
      KeptValue(interp, nodes, outs, xs[k]);
    }
    var vs := EvalAll(interp, nodes, xs, i);
    assert EvalAll(interp, keys, keys[f[i]].Inputs(), f[i]) == vs;
    SameHeadValue(interp, keys[f[i]], nodes[i], vs);
  }

  lemma KeptRunnable(nodes: seq<NodeKey>, outs: seq<NodeId>)
    requires Requestable(nodes, outs) && Runnable(nodes)
    ensures Runnable(Dce.Kept(nodes, outs)) && AllBelow(Dce.KeptOutputs(nodes, outs), |Dce.Kept(nodes, outs)|)
  {
    var keys := Dce.Kept(nodes, outs);
    Dce.KeptTopological(nodes, outs);
    forall p | 0 <= p < |keys|
      ensures StageOk(keys[p])
    {
      var i := Dce.KeptFrom(nodes, outs, p);
      assert StageOk(nodes[i]);
    }
  }

  /** The value of a needed recorded node is the value of its token term. */
  lemma RecordedValue<V(!new)>(op: (NodeKey, seq<V>) -> V, nodes: seq<NodeKey>, outs: seq<NodeId>, i: nat)
    requires NeededTokensTell(nodes, outs) && Runnable(nodes) && i < |nodes| && Dce.Reachable(nodes, outs, i)
    ensures Eval(Executor(op), nodes, i) == Value(TokenAlgebra(Dce.Kept(nodes, outs), op), Unfold(CellsBy(TokenOf, nodes), i))
  {
    var keys, p := Dce.Kept(nodes, outs), Rank(Dce.ReachMask(nodes, outs), i);
    KeptTell(nodes, outs);
    KeptRunnable(nodes, outs);
    KeptValue(Executor(op), nodes, outs, i);
    KeptTokenTerms(nodes, outs, i);
    forall j | 0 <= j < |keys|
      ensures NodeReads(Executor(op), TokenAlgebra(keys, op), keys[j])
    {
      NodeReadsToken(keys, op, keys[j]);
    }
    EvalIsTokenValue(Executor(op), TokenAlgebra(keys, op), keys, p);
  }

  /** The value of a reduced output is that of the recorded one. */
  lemma OutputMeaning<V(!new)>(
      op: (NodeKey, seq<V>) -> V, nodes: seq<NodeKey>, outs: seq<NodeId>, engine: RewriteEngine, mode: Fusion.FusionMode, k: nat)
    requires NeededTokensTell(nodes, outs) && Runnable(nodes)
    requires SoundEngine(engine) && OperatorLaws(op) && k < |outs|
    ensures var r := ReduceNodes(nodes, outs, engine, mode);
      && Runnable(r.nodes) && |r.outputs| == |outs| && r.outputs[k] < |r.nodes|
      && Eval(Executor(op), r.nodes, r.outputs[k]) == Eval(Executor(op), nodes, outs[k])
  {
    var g, keys := DedupedGraph(nodes, outs, engine), Dce.Kept(nodes, outs);
    var alg := TokenAlgebra(keys, op);
    assert outs[k] in outs;
    ReductionFuses(nodes, outs, engine, mode);
    ReducedReadsTokens(op, nodes, outs, engine, mode);
    DedupedTerm(nodes, outs, engine, k);
    FusedOutputValue(Executor(op), alg, g, Fusion.Partition(g, mode), Templates(keys), k);
    RecordedValue(op, nodes, outs, outs[k]);
    KeptTell(nodes, outs);
    TokenAlgebraLawful(keys, op);
    var s, t := Unfold(CellsOf(g), g.outputs[k]), Unfold(CellsBy(TokenOf, nodes), outs[k]);
    ProofSound(TokenTheory(), alg, ProofOf(TokenTheory(), s, t), s, t);
  }

  /** Output by output the recorded values. */
  ghost predicate KeepsValues<V>(op: (NodeKey, seq<V>) -> V, nodes: seq<NodeKey>, outs: seq<NodeId>,
                                 reduced: seq<NodeKey>, outputs: seq<nat>) {
    && Runnable(nodes) && AllBelow(outs, |nodes|) && Runnable(reduced) && AllBelow(outputs, |reduced|)
    && EvalOutputs(Executor(op), reduced, outputs) == EvalOutputs(Executor(op), nodes, outs)
  }

  /** End to end, for an executor: as long as the needed operators can be told by their tokens, whatever
      lawful meaning the operators have, in either fusion mode and behind every engine meeting the contract,
      evaluating the reduced graph gives output by output the values of the recorded graph. */
  lemma MeaningPreserved<V(!new)>(
      op: (NodeKey, seq<V>) -> V, nodes: seq<NodeKey>, outs: seq<NodeId>, engine: RewriteEngine, mode: Fusion.FusionMode)
    requires NeededTokensTell(nodes, outs) && Runnable(nodes)
    requires SoundEngine(engine) && OperatorLaws(op)
    ensures var r := ReduceNodes(nodes, outs, engine, mode);
      && Runnable(r.nodes) && AllBelow(r.outputs, |r.nodes|) && (Reducible(nodes, outs) ==> MembersDecode(r.nodes))
      && KeepsValues(op, nodes, outs, r.nodes, r.outputs)
  {
    var r := ReduceNodes(nodes, outs, engine, mode);
    ReduceRunnable(nodes, outs, engine, mode);
    ReductionFuses(nodes, outs, engine, mode);
    ReducedReadsTokens(op, nodes, outs, engine, mode);
    if Reducible(nodes, outs) {
      ReducedMembersDecode(nodes, outs, engine, mode);
    }
    var vs, ws := EvalOutputs(Executor(op), r.nodes, r.outputs), EvalOutputs(Executor(op), nodes, outs);
    forall k | 0 <= k < |outs|
      ensures vs[k] == ws[k]
    {
      OutputMeaning(op, nodes, outs, engine, mode, k);
    }
  }

  /** In particular for arenas of recordable nodes. */
  lemma RecordableMeaning<V(!new)>(
      op: (NodeKey, seq<V>) -> V, nodes: seq<NodeKey>, outs: seq<NodeId>, engine: RewriteEngine, mode: Fusion.FusionMode)
    requires Requestable(nodes, outs) && AllRecordable(nodes) && SoundEngine(engine) && OperatorLaws(op)
    ensures NeededTokensTell(nodes, outs) && Runnable(nodes)
    ensures var r := ReduceNodes(nodes, outs, engine, mode); KeepsValues(op, nodes, outs, r.nodes, r.outputs)
  {
    RecordableTell(nodes);
    MeaningPreserved(op, nodes, outs, engine, mode);
  }
}
