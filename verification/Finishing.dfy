/** Exactly when finishing an incremental reduction gives the recorded values: when the needed identities
were recorded with one input and the needed operators can be told by their tokens, whatever else was
recorded. */
module Finishing {
  import opened Selection
  import opened Node
  import opened Arena
  import opened Operators
  import opened Semantics
  import opened Engine
  import opened Fusion
  import opened Dce
  import opened Reduce
  import opened Meaning
  import opened Interning
  import opened LocalCanon
  import opened Incremental
  import opened Reducer
  import opened Collisions
  import OneShot
  import Limits

  // ---- where a recorded node lands, whatever else was recorded ----

  /** A node of the recorded operator over the new places of its inputs, two of a commuting op possibly swapped. */
  ghost predicate Landed(f: seq<nat>, key: NodeKey, k: NodeKey) {
    && k.Head() == key.Head() && AllBelow(key.Inputs(), |f|)
    && (k.Inputs() == Renumber(f, key.Inputs())
        || (SymmetricHead(key.Head()) && |key.Inputs()| == 2 && k.Inputs() == [f[key.Inputs()[1]], f[key.Inputs()[0]]]))
  }

  lemma Lands(nodes: seq<NodeKey>, st: State, i: nat)
    requires Consumed(nodes, st) && i < |nodes|
    ensures |st.mapping| == |nodes| && st.mapping[i] < |st.canonNodes| && AllBelow(nodes[i].Inputs(), i)
    ensures IsIdentity(nodes[i]) ==> nodes[i].Inputs() != [] && st.mapping[i] == st.mapping[nodes[i].Inputs()[0]]
    ensures !IsIdentity(nodes[i]) ==> Landed(st.mapping, nodes[i], st.canonNodes[st.mapping[i]])
  {
    RunKeepsInv(nodes, st);
    IdentityByHead(nodes[i], []);
    var g, canon, f := HeadCells(nodes), HeadCells(st.canonNodes), st.mapping;
    assert g[i] == HeadCell(nodes[i]);
    if IsIdentity(nodes[i]) {
      assert FollowsInput(g, f, i);
    } else {
      assert LandsOn(HeadTheory(), g, canon, f, i);
    }
  }

  lemma CanonIdentityFree(nodes: seq<NodeKey>, st: State, c: nat)
    requires Consumed(nodes, st) && c < |st.canonNodes|
    ensures !IsIdentity(st.canonNodes[c].Head())
  {
    RunKeepsInv(nodes, st);
    assert HeadCells(st.canonNodes)[c] == HeadCell(st.canonNodes[c]);
  }

  lemma StaysOk(k: NodeKey, inputs: seq<NodeId>)
    requires StageOk(k) && |inputs| == |k.Inputs()|
    ensures StageOk(k.WithInputs(inputs))
  {
  }

  lemma CanonStagesOk(nodes: seq<NodeKey>, st: State, c: nat)
    requires OneShot.FirstUses(nodes, st) && Runnable(nodes) && c < |st.canonNodes|
    ensures StageOk(st.canonNodes[c])
  {
    var i := OneShot.CanonFrom(nodes, st, c);
    StaysOk(nodes[i], Renumber(st.mapping, nodes[i].Inputs()));
  }

  lemma CanonTopological(nodes: seq<NodeKey>, st: State)
    requires Consumed(nodes, st)
    ensures TopologicalKeys(st.canonNodes)
  {
    RunKeepsInv(nodes, st);
  }

  lemma CanonRunnable(nodes: seq<NodeKey>, st: State)
    requires Consumed(nodes, st) && Runnable(nodes)
    ensures Runnable(st.canonNodes)
  {
    CanonTopological(nodes, st);
    OneShot.RunFirstUses(nodes, st);
    forall c | 0 <= c < |st.canonNodes|
      ensures StageOk(st.canonNodes[c])
    {
      CanonStagesOk(nodes, st, c);
    }
  }

  // ---- values of needed nodes ----

  ghost predicate NeededUnary(nodes: seq<NodeKey>, outs: seq<NodeId>) {
    forall i :: 0 <= i < |nodes| && Reachable(nodes, outs, i) && IsIdentity(nodes[i]) ==> |nodes[i].Inputs()| == 1
  }

  lemma SwappedValue<V(!new)>(op: (NodeKey, seq<V>) -> V, key: NodeKey, k: NodeKey, vs: seq<V>)
    requires OperatorLaws(op) && IsCommuting(key.Head()) && k.Head() == key.Head()
    requires |vs| == |key.Inputs()| == |k.Inputs()| == 2 && StageOk(key) && StageOk(k)
    ensures NodeValue(Executor(op), k, [vs[1], vs[0]]) == NodeValue(Executor(op), key, vs)
  {
    OpCommutes(op, key.Head(), vs[0], vs[1]);
    assert vs == [vs[0], vs[1]];
    assert key.Head().Op? && k.Head().Op?;
  }

  /** Landing keeps the value. */
  lemma LandedValue<V(!new)>(op: (NodeKey, seq<V>) -> V, f: seq<nat>, key: NodeKey, k: NodeKey, vs: seq<V>, ws: seq<V>)
    requires OperatorLaws(op) && Landed(f, key, k) && StageOk(key) && StageOk(k)
    requires |vs| == |key.Inputs()| && |ws| == |k.Inputs()|
    requires k.Inputs() == Renumber(f, key.Inputs()) ==> ws == vs
    requires k.Inputs() != Renumber(f, key.Inputs()) ==> ws == [vs[1], vs[0]]
    ensures NodeValue(Executor(op), k, ws) == NodeValue(Executor(op), key, vs)
  {
    if k.Inputs() == Renumber(f, key.Inputs()) {
      SameHeadValue(Executor(op), k, key, vs);
    } else {
      RulesAreLaws(key);
      SwappedValue(op, key, k, vs);
    }
  }

  lemma IdentityValue<V(!new)>(op: (NodeKey, seq<V>) -> V, nodes: seq<NodeKey>, i: nat)
    requires OperatorLaws(op) && Runnable(nodes) && i < |nodes| && IsIdentity(nodes[i]) && |nodes[i].Inputs()| == 1
    ensures nodes[i].Inputs()[0] < i && Eval(Executor(op), nodes, i) == Eval(Executor(op), nodes, nodes[i].Inputs()[0])
  {
    assert AllBelow(nodes[i].Inputs(), i);
    var vs := EvalAll(Executor(op), nodes, nodes[i].Inputs(), i);
    RulesAreLaws(nodes[i]);
    OpIsIdentity(op, nodes[i].Head(), vs[0]);
    assert vs == [vs[0]];
  }

  /** The node has the value of its place. */
  ghost predicate KeepsValue<V>(interp: Interp<V>, nodes: seq<NodeKey>, canon: seq<NodeKey>, f: seq<nat>, i: nat)
    requires Runnable(nodes) && Runnable(canon) && i < |nodes| == |f|
  {
    f[i] < |canon| && Eval(interp, canon, f[i]) == Eval(interp, nodes, i)
  }

  /** The arguments of a landed node are those of the recorded one, as they are or swapped. */
  lemma LandedArgs<V>(interp: Interp<V>, nodes: seq<NodeKey>, canon: seq<NodeKey>, f: seq<nat>, i: nat)
    requires Runnable(nodes) && Runnable(canon) && i < |nodes| == |f| && f[i] < |canon| && Landed(f, nodes[i], canon[f[i]])
    requires AllBelow(nodes[i].Inputs(), i) && AllBelow(canon[f[i]].Inputs(), f[i])
    requires forall k :: 0 <= k < |nodes[i].Inputs()| ==> KeepsValue(interp, nodes, canon, f, nodes[i].Inputs()[k])
    ensures var xs, ys := nodes[i].Inputs(), canon[f[i]].Inputs();
      var vs, ws := EvalAll(interp, nodes, xs, i), EvalAll(interp, canon, ys, f[i]);
      if ys == Renumber(f, xs) then ws == vs else |vs| == 2 && ws == [vs[1], vs[0]]
  {
    var xs, ys := nodes[i].Inputs(), canon[f[i]].Inputs();
    var vs, ws := EvalAll(interp, nodes, xs, i), EvalAll(interp, canon, ys, f[i]);
    if ys == Renumber(f, xs) {
      forall k | 0 <= k < |xs|
        ensures ws[k] == vs[k]
      {
        assert KeepsValue(interp, nodes, canon, f, xs[k]);
      }
    } else {
      assert KeepsValue(interp, nodes, canon, f, xs[0]) && KeepsValue(interp, nodes, canon, f, xs[1]);
    }
  }

  lemma SameArgsSameValue<V(!new)>(op: (NodeKey, seq<V>) -> V, nodes: seq<NodeKey>, canon: seq<NodeKey>, f: seq<nat>, i: nat)
    requires OperatorLaws(op) && Runnable(nodes) && Runnable(canon) && i < |nodes| == |f|
    requires AllBelow(nodes[i].Inputs(), i) && f[i] < |canon| && Landed(f, nodes[i], canon[f[i]])
    requires forall k :: 0 <= k < |nodes[i].Inputs()| ==> KeepsValue(Executor(op), nodes, canon, f, nodes[i].Inputs()[k])
    ensures KeepsValue(Executor(op), nodes, canon, f, i)
  {
    var xs, k := nodes[i].Inputs(), canon[f[i]];
    assert AllBelow(k.Inputs(), f[i]);
    LandedArgs(Executor(op), nodes, canon, f, i);
    LandedValue(op, f, nodes[i], k, EvalAll(Executor(op), nodes, xs, i), EvalAll(Executor(op), canon, k.Inputs(), f[i]));
  }

  /** A needed recorded node and its canonical node have one value under every lawful meaning of operators. */
  lemma {:induction false} CanonicalValue<V(!new)>(op: (NodeKey, seq<V>) -> V, nodes: seq<NodeKey>, outs: seq<NodeId>, st: State, i: nat)
    requires Consumed(nodes, st) && Runnable(nodes) && Runnable(st.canonNodes) && NeededUnary(nodes, outs)
    requires OperatorLaws(op) && i < |nodes| && Reachable(nodes, outs, i)
    ensures |st.mapping| == |nodes| && st.mapping[i] < |st.canonNodes|
    ensures Eval(Executor(op), st.canonNodes, st.mapping[i]) == Eval(Executor(op), nodes, i)
    decreases i
  {
    var f, xs := st.mapping, nodes[i].Inputs();
    Lands(nodes, st, i);
    InputsReachable(nodes, outs, i);
    forall k | 0 <= k < |xs|
      ensures KeepsValue(Executor(op), nodes, st.canonNodes, f, xs[k])
    {
      CanonicalValue(op, nodes, outs, st, xs[k]);
    }
    if IsIdentity(nodes[i]) {
      IdentityValue(op, nodes, i);
      assert KeepsValue(Executor(op), nodes, st.canonNodes, f, xs[0]);
    } else {
      SameArgsSameValue(op, nodes, st.canonNodes, f, i);
    }
  }

  // ---- needed nodes and needed canonical nodes ----

  /** The node a chain of identities starts from. */
  lemma {:induction false} Bottom(nodes: seq<NodeKey>, outs: seq<NodeId>, st: State, i: nat) returns (j: nat)
    requires Consumed(nodes, st) && TopologicalKeys(nodes) && i < |nodes| && Reachable(nodes, outs, i)
    ensures |st.mapping| == |nodes| && j < |nodes| && Reachable(nodes, outs, j)
    ensures !IsIdentity(nodes[j]) && st.mapping[j] == st.mapping[i]
    decreases i
  {
    Lands(nodes, st, i);
    j := i;
    if IsIdentity(nodes[i]) {
      InputsReachable(nodes, outs, i);
      j := Bottom(nodes, outs, st, nodes[i].Inputs()[0]);
    }
  }

  lemma LandedInput(f: seq<nat>, key: NodeKey, k: NodeKey, c: nat) returns (l: nat)
    requires Landed(f, key, k) && c in k.Inputs()
    ensures l < |key.Inputs()| && f[key.Inputs()[l]] == c
  {
    var m :| 0 <= m < |k.Inputs()| && k.Inputs()[m] == c;
    l := if k.Inputs() == Renumber(f, key.Inputs()) then m else 1 - m;
  }

  lemma InputLanded(f: seq<nat>, key: NodeKey, k: NodeKey, x: nat)
    requires Landed(f, key, k) && x in key.Inputs()
    ensures x < |f| && f[x] in k.Inputs()
  {
    var m :| 0 <= m < |key.Inputs()| && key.Inputs()[m] == x;
    if k.Inputs() == Renumber(f, key.Inputs()) {
      assert k.Inputs()[m] == f[x];
    } else {
      assert k.Inputs()[1 - m] == f[x];
    }
  }

  /** A needed canonical node stands for a needed recorded one. */
  lemma {:induction false} NeededOrigin(nodes: seq<NodeKey>, outs: seq<NodeId>, st: State, c: nat) returns (j: nat)
    requires Finalizable(nodes, outs, st) && TopologicalKeys(nodes) && |st.mapping| == |nodes|
    requires c < |st.canonNodes| && Reachable(st.canonNodes, Renumber(st.mapping, outs), c)
    ensures j < |nodes| && Reachable(nodes, outs, j) && !IsIdentity(nodes[j]) && st.mapping[j] == c
    decreases |st.canonNodes| - c
  {
    var f, outs' := st.mapping, Renumber(st.mapping, outs);
    if c in outs' {
      var k :| 0 <= k < |outs'| && outs'[k] == c;
      assert outs[k] in outs;
      j := Bottom(nodes, outs, st, outs[k]);
    } else {
      var d :| c < d < |st.canonNodes| && c in st.canonNodes[d].Inputs() && Reachable(st.canonNodes, outs', d);
      var m := NeededOrigin(nodes, outs, st, d);
      Lands(nodes, st, m);
      var l := LandedInput(f, nodes[m], st.canonNodes[d], c);
      InputsReachable(nodes, outs, m);
      j := Bottom(nodes, outs, st, nodes[m].Inputs()[l]);
    }
  }

  lemma UsedCanonical(canon: seq<NodeKey>, outs: seq<NodeId>, c: nat, d: nat)
    requires TopologicalKeys(canon) && d < |canon| && Reachable(canon, outs, d) && c in canon[d].Inputs()
    ensures c < |canon| && Reachable(canon, outs, c)
  {
    var m :| 0 <= m < |canon[d].Inputs()| && canon[d].Inputs()[m] == c;
    InputsReachable(canon, outs, d);
  }

  /** And the canonical node of a needed recorded one is needed, if needed identities are unary. */
  lemma {:induction false} NeededLands(nodes: seq<NodeKey>, outs: seq<NodeId>, st: State, i: nat)
    requires Finalizable(nodes, outs, st) && TopologicalKeys(st.canonNodes) && |st.mapping| == |nodes| && NeededUnary(nodes, outs)
    requires i < |nodes| && Reachable(nodes, outs, i)
    ensures st.mapping[i] < |st.canonNodes| && Reachable(st.canonNodes, Renumber(st.mapping, outs), st.mapping[i])
    decreases |nodes| - i
  {
    var f, outs' := st.mapping, Renumber(st.mapping, outs);
    Lands(nodes, st, i);
    if i in outs {
      var k :| 0 <= k < |outs| && outs[k] == i;
      assert outs'[k] == f[i];
    } else {
      var j :| i < j < |nodes| && i in nodes[j].Inputs() && Reachable(nodes, outs, j);
      NeededLands(nodes, outs, st, j);
      Lands(nodes, st, j);
      if IsIdentity(nodes[j]) {
        assert nodes[j].Inputs() == [nodes[j].Inputs()[0]];
      } else {
        InputLanded(f, nodes[j], st.canonNodes[f[j]], i);
        UsedCanonical(st.canonNodes, outs', f[i], f[j]);
      }
    }
  }

  lemma CanonNeedsNoStage(nodes: seq<NodeKey>, outs: seq<NodeId>, st: State)
    requires Finalizable(nodes, outs, st) && Reducible(nodes, outs)
    ensures |st.mapping| == |nodes| && Reducible(st.canonNodes, Renumber(st.mapping, outs))
  {
    CanonRequestable(nodes, outs, st);
    forall c | 0 <= c < |st.canonNodes| && Reachable(st.canonNodes, Renumber(st.mapping, outs), c)
      ensures !st.canonNodes[c].Stage?
    {
      var j := NeededOrigin(nodes, outs, st, c);
      Lands(nodes, st, j);
      assert st.canonNodes[c].Head().Stage? == st.canonNodes[c].Stage?;
    }
  }

  /** Tokens tell the needed canonical operators apart if they tell the needed recorded ones. */
  lemma CanonTell(nodes: seq<NodeKey>, outs: seq<NodeId>, st: State)
    requires Finalizable(nodes, outs, st) && NeededTokensTell(nodes, outs)
    ensures |st.mapping| == |nodes| && NeededTokensTell(st.canonNodes, Renumber(st.mapping, outs))
  {
    CanonRequestable(nodes, outs, st);
    var canon, outs' := st.canonNodes, Renumber(st.mapping, outs);
    forall c, d | 0 <= c < |canon| && 0 <= d < |canon| && Reachable(canon, outs', c) && Reachable(canon, outs', d)
        && canon[c].Token() == canon[d].Token()
      ensures canon[c].Head() == canon[d].Head()
    {
      var i := NeededOrigin(nodes, outs, st, c);
      var j := NeededOrigin(nodes, outs, st, d);
      Lands(nodes, st, i);
      Lands(nodes, st, j);
      HeadDeterminesToken(canon[c], nodes[i]);
      HeadDeterminesToken(canon[d], nodes[j]);
    }
  }

  /** A collision among needed recorded nodes is one among needed canonical nodes. */
  lemma CanonCollides(nodes: seq<NodeKey>, outs: seq<NodeId>, st: State, i: nat, j: nat)
    requires Finalizable(nodes, outs, st) && Reducible(nodes, outs) && NeededUnary(nodes, outs) && Collide(nodes, outs, i, j)
    ensures |st.mapping| == |nodes|
    ensures Collide(st.canonNodes, Renumber(st.mapping, outs), st.mapping[i], st.mapping[j])
  {
    CanonRequestable(nodes, outs, st);
    CollidingBoundary(nodes, outs, i, j);
    forall l | l == i || l == j
      ensures !IsIdentity(nodes[l]) && st.mapping[l] < |st.canonNodes|
      ensures Reachable(st.canonNodes, Renumber(st.mapping, outs), st.mapping[l])
      ensures st.canonNodes[st.mapping[l]].Head() == nodes[l].Head() && st.canonNodes[st.mapping[l]].Token() == nodes[l].Token()
    {
      NeededLands(nodes, outs, st, l);
      Lands(nodes, st, l);
      HeadDeterminesToken(st.canonNodes[st.mapping[l]], nodes[l]);
    }
  }

  // ---- what finishing means ----

  /** What keeps the values of the canonical arena keeps those of the recorded one. */
  lemma CanonKeeps<V(!new)>(op: (NodeKey, seq<V>) -> V, nodes: seq<NodeKey>, outs: seq<NodeId>, st: State,
                            reduced: seq<NodeKey>, outputs: seq<nat>)
    requires Finalizable(nodes, outs, st) && Runnable(nodes) && NeededUnary(nodes, outs) && OperatorLaws(op)
    ensures |st.mapping| == |nodes|
    ensures KeepsValues(op, st.canonNodes, Renumber(st.mapping, outs), reduced, outputs)
      <==> KeepsValues(op, nodes, outs, reduced, outputs)
  {
    CanonRequestable(nodes, outs, st);
    CanonRunnable(nodes, st);
    var outs' := Renumber(st.mapping, outs);
    var vs, ws := EvalOutputs(Executor(op), st.canonNodes, outs'), EvalOutputs(Executor(op), nodes, outs);
    forall k | 0 <= k < |outs|
      ensures vs[k] == ws[k]
    {
      assert outs[k] in outs;
      CanonicalValue(op, nodes, outs, st, outs[k]);
    }
    assert vs == ws;
  }

  /** Whatever else was recorded, finishing gives the recorded values if the needed identities are unary and
      the needed operators can be told by their tokens. */
  lemma FinalizeMeaning<V(!new)>(
      op: (NodeKey, seq<V>) -> V, nodes: seq<NodeKey>, outs: seq<NodeId>, st: State, engine: RewriteEngine, mode: FusionMode)
    requires Finalizable(nodes, outs, st) && Runnable(nodes) && NeededUnary(nodes, outs) && NeededTokensTell(nodes, outs)
    requires SoundEngine(engine) && OperatorLaws(op)
    ensures var r := Finalized(nodes, outs, st, engine, mode); KeepsValues(op, nodes, outs, r.nodes, r.outputs)
  {
    CanonRequestable(nodes, outs, st);
    CanonRunnable(nodes, st);
    CanonTell(nodes, outs, st);
    MeaningPreserved(op, st.canonNodes, Renumber(st.mapping, outs), engine, mode);
    var r := Finalized(nodes, outs, st, engine, mode);
    CanonKeeps(op, nodes, outs, st, r.nodes, r.outputs);
  }

  /** A lawful meaning that is true wherever an identity was not recorded with one input. */
  function MisusedIdentities(): (NodeKey, seq<bool>) -> bool {
    (h: NodeKey, vs: seq<bool>) => if IsIdentity(h) then |vs| == 1 ==> vs[0] else true in vs
  }

  lemma MisusedLawful()
    ensures OperatorLaws(MisusedIdentities())
  {
    var op := MisusedIdentities();
    forall s, x: bool, y: bool
      ensures op(s, [x, y]) == op(s, [y, x])
    {
      assert true in [x, y] <==> true in [y, x];
    }
    assert forall s, x: bool :: IsIdentity(s) ==> op(s, [x]) == x;
    LawsOfFree(op);
  }

  lemma MisusedSpreads()
    ensures Spreads(MisusedIdentities())
  {
  }

  lemma MisusedSilent(head: NodeKey)
    requires !IsIdentity(head)
    ensures Silent(MisusedIdentities(), head)
  {
  }

  lemma MisusedIsTrue(nodes: seq<NodeKey>, i: nat)
    requires Runnable(nodes) && i < |nodes| && IsIdentity(nodes[i]) && |nodes[i].Inputs()| != 1
    ensures Eval(Executor(MisusedIdentities()), nodes, i)
  {
    IdentityByHead(nodes[i], []);
    assert |EvalAll(Executor(MisusedIdentities()), nodes, nodes[i].Inputs(), i)| != 1;
  }

  lemma CanonKeysSilent(nodes: seq<NodeKey>, outs: seq<NodeId>, st: State)
    requires Finalizable(nodes, outs, st)
    ensures |st.mapping| == |nodes| && Requestable(st.canonNodes, Renumber(st.mapping, outs))
    ensures KeysSilent(MisusedIdentities(), Kept(st.canonNodes, Renumber(st.mapping, outs)))
  {
    CanonRequestable(nodes, outs, st);
    var keys := Kept(st.canonNodes, Renumber(st.mapping, outs));
    forall p | 0 <= p < |keys|
      ensures Silent(MisusedIdentities(), keys[p].Head())
    {
      var c := KeptHead(st.canonNodes, Renumber(st.mapping, outs), p);
      CanonIdentityFree(nodes, st, c);
      MisusedSilent(keys[p].Head());
    }
  }

  /** A needed identity over other than one input: a lawful meaning is lost, whatever the mode and the engine. */
  lemma NonUnaryLosesMeaning(nodes: seq<NodeKey>, outs: seq<NodeId>, st: State, engine: RewriteEngine, mode: FusionMode, i: nat)
    returns (op: (NodeKey, seq<bool>) -> bool)
    requires Finalizable(nodes, outs, st) && Runnable(nodes) && Reducible(nodes, outs) && SoundEngine(engine)
    requires i < |nodes| && Reachable(nodes, outs, i) && IsIdentity(nodes[i]) && |nodes[i].Inputs()| != 1
    ensures OperatorLaws(op)
    ensures var r := Finalized(nodes, outs, st, engine, mode); !KeepsValues(op, nodes, outs, r.nodes, r.outputs)
  {
    op := MisusedIdentities();
    MisusedLawful();
    MisusedSpreads();
    MisusedIsTrue(nodes, i);
    CanonNeedsNoStage(nodes, outs, st);
    CanonKeysSilent(nodes, outs, st);
    ReducedSilent(op, st.canonNodes, Renumber(st.mapping, outs), engine, mode);
    ReduceRunnable(st.canonNodes, Renumber(st.mapping, outs), engine, mode);
    var r := Finalized(nodes, outs, st, engine, mode);
    SilencedMeaning(op, nodes, outs, i, r.nodes, r.outputs);
  }

  lemma UnaryCollisionLosesMeaning(nodes: seq<NodeKey>, outs: seq<NodeId>, st: State, engine: RewriteEngine, mode: FusionMode, i: nat, j: nat)
    returns (op: (NodeKey, seq<bool>) -> bool)
    requires Finalizable(nodes, outs, st) && Runnable(nodes) && Reducible(nodes, outs) && SoundEngine(engine)
    requires NeededUnary(nodes, outs) && Collide(nodes, outs, i, j)
    ensures OperatorLaws(op)
    ensures var r := Finalized(nodes, outs, st, engine, mode); !KeepsValues(op, nodes, outs, r.nodes, r.outputs)
  {
    CanonNeedsNoStage(nodes, outs, st);
    CanonRunnable(nodes, st);
    CanonCollides(nodes, outs, st, i, j);
    op := CollisionLosesMeaning(st.canonNodes, Renumber(st.mapping, outs), st.mapping[i], st.mapping[j], engine, mode);
    var r := Finalized(nodes, outs, st, engine, mode);
    CanonKeeps(op, nodes, outs, st, r.nodes, r.outputs);
  }

  lemma FinalizingKeeps(nodes: seq<NodeKey>, outs: seq<NodeId>, st: State, engine: RewriteEngine, mode: FusionMode)
    requires Finalizable(nodes, outs, st) && Runnable(nodes) && NeededUnary(nodes, outs) && NeededTokensTell(nodes, outs)
    requires SoundEngine(engine)
    ensures KeepsMeaning(nodes, outs, Finalized(nodes, outs, st, engine, mode))
  {
    var r := Finalized(nodes, outs, st, engine, mode);
    forall op: (NodeKey, seq<bool>) -> bool | OperatorLaws(op)
      ensures KeepsValues(op, nodes, outs, r.nodes, r.outputs)
    {
      FinalizeMeaning(op, nodes, outs, st, engine, mode);
    }
  }

  /** For every output list, in either mode and behind every sound engine, finishing keeps every lawful meaning
      if and only if the needed identities were recorded with one input and no two different operators among the
      needed nodes share a token. */
  lemma FinalizeMeaningIff(nodes: seq<NodeKey>, outs: seq<NodeId>, st: State, engine: RewriteEngine, mode: FusionMode)
    requires Finalizable(nodes, outs, st) && Runnable(nodes) && Reducible(nodes, outs) && SoundEngine(engine)
    ensures NeededUnary(nodes, outs) && NeededTokensTell(nodes, outs)
      <==> KeepsMeaning(nodes, outs, Finalized(nodes, outs, st, engine, mode))
  {
    if !NeededUnary(nodes, outs) {
      var i :| 0 <= i < |nodes| && Reachable(nodes, outs, i) && IsIdentity(nodes[i]) && |nodes[i].Inputs()| != 1;
      var op := NonUnaryLosesMeaning(nodes, outs, st, engine, mode, i);
    } else if NeededTokensTell(nodes, outs) {
      FinalizingKeeps(nodes, outs, st, engine, mode);
    } else {
      var i, j := CollisionFound(nodes, outs);
      var op := UnaryCollisionLosesMeaning(nodes, outs, st, engine, mode, i, j);
    }
  }

  /** Finishing does not keep this lawful meaning. */
  ghost predicate LosesMeaning(nodes: seq<NodeKey>, outs: seq<NodeId>, st: State, engine: RewriteEngine, mode: FusionMode,
                               op: (NodeKey, seq<bool>) -> bool) {
    && Finalizable(nodes, outs, st) && SoundEngine(engine) && OperatorLaws(op)
    && var r := Finalized(nodes, outs, st, engine, mode); !KeepsValues(op, nodes, outs, r.nodes, r.outputs)
  }

  lemma StageFreeReducible(nodes: seq<NodeKey>, outs: seq<NodeId>, k: nat)
    requires Requestable(nodes, outs) && StageFree(nodes) && k < |outs|
    ensures Runnable(nodes) && Reducible(nodes, outs) && Reachable(nodes, outs, outs[k])
  {
  }

  lemma JoinedLosesMeaning(nodes: seq<NodeKey>, st: State, engine: RewriteEngine, mode: FusionMode)
    returns (op: (NodeKey, seq<bool>) -> bool)
    requires SoundEngine(engine) && Limits.JoinedApart(nodes, st) && nodes[0].Source? && nodes[1].Source?
    requires IsIdentity(nodes[2]) && |nodes[2].ins| == 2
    ensures LosesMeaning(nodes, [2], st, engine, mode, op)
  {
    assert StageFree(nodes) && |nodes| == |st.mapping|;
    StageFreeReducible(nodes, [2], 0);
    op := NonUnaryLosesMeaning(nodes, [2], st, engine, mode, 2);
  }

  /** For instance with the addition of zero over two sources as the one output. */
  lemma JoinedInstance(engine: RewriteEngine, mode: FusionMode)
    returns (a: NodeKey, b: NodeKey, id: NodeKey, st: State, op: (NodeKey, seq<bool>) -> bool)
    requires SoundEngine(engine)
    ensures a == Source("a", []) && b == Source("b", []) && id.Op? && id.name == Operators.ADD && id.ins == [0, 1]
    ensures LosesMeaning([a, b, id], [2], st, engine, mode, op)
  {
    a, b, id, st := Limits.TwoInputIdentityFails();
    op := JoinedLosesMeaning([a, b, id], st, engine, mode);
  }
}
