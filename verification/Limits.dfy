/** Concrete recordings on which the unconditional claims fail, showing that the conditions carried by
the theorems about the reducer are needed. */
module Limits {
  import opened Wrappers
  import opened Selection
  import opened Terms
  import opened Cells
  import opened Param
  import opened Node
  import opened Arena
  import opened Operators
  import opened Interning
  import opened Engine
  import opened LocalCanon
  import opened Incremental
  import opened Semantics
  import opened Dce
  import opened Fusion
  import opened FusedMeaning
  import opened Reduce
  import opened OneShot

  // ---- an identity operator exists ----

  /** Adding the float zero on the right is recorded with an identity token. */
  lemma AddZero() returns (k: NodeKey)
    ensures k.Op? && k.name == ADD && k.ins == [] && IdentityToken(k.Token())
    ensures |k.params| == 2 && k.params[0] == Entry(SCALAR, Float(0)) && k.params[1] == Entry(SIDE, Str(RIGHT))
  {
    k := WithScalar(ADD, ZERO, RIGHT);
    TokenOfUnit(k);
  }

  // ---- a two-input identity operator is joined to its first input ----

  lemma ConsumeSource(st: State, k: NodeKey)
    requires k.Source? && k.Canon() !in st.canonTable
    ensures Consume(st, k) == Ok(PutNew(st, k))
  {
    assert k.WithInputs(Renumber(st.mapping, [])) == k;
  }

  lemma ConsumeIdentity(st: State, k: NodeKey)
    requires IsIdentity(k) && k.ins != [] && AllBelow(k.ins, |st.mapping|)
    ensures Consume(st, k) == Ok(State(st.canonNodes, st.canonTable, st.mapping + [st.mapping[k.ins[0]]]))
  {
    IdentityByHead(k, Renumber(st.mapping, k.ins));
  }

  /** A recorded identity stands for its input. */
  lemma RecordIdentity(nodes: seq<NodeKey>, st: State, k: NodeKey) returns (st': State)
    requires Consumed(nodes, st) && IsIdentity(k) && k.ins != [] && AllBelow(k.ins, |st.mapping|)
    ensures Consumed(nodes + [k], st') && st'.canonNodes == st.canonNodes && st'.mapping == st.mapping + [st.mapping[k.ins[0]]]
  {
    ConsumeIdentity(st, k);
    st' := State(st.canonNodes, st.canonTable, st.mapping + [st.mapping[k.ins[0]]]);
    ConsumedSnoc(nodes, st, k, st');
  }

  ghost function SourceState(a: NodeKey, b: NodeKey): State {
    State([a, b], map[a.Canon() := 0, b.Canon() := 1], [0, 1])
  }

  ghost function PutNew(st: State, k: NodeKey): State {
    State(st.canonNodes + [k], st.canonTable[k.Canon() := |st.canonNodes|], st.mapping + [|st.canonNodes|])
  }

  lemma SourcesRecorded(a: NodeKey, b: NodeKey)
    requires a.Source? && b.Source? && a.Canon() != b.Canon()
    ensures Consumed([a, b], SourceState(a, b))
  {
    RecordSource([], EMPTY, a);
    RecordSource([] + [a], PutNew(EMPTY, a), b);
    assert [] + [a] + [b] == [a, b];
    assert PutNew(PutNew(EMPTY, a), b) == SourceState(a, b);
  }

  lemma TwoSources(a: NodeKey, b: NodeKey, k: NodeKey) returns (st: State)
    requires a.Source? && b.Source? && a.Canon() != b.Canon() && IsIdentity(k) && k.ins == [0, 1]
    ensures Consumed([a, b, k], st) && st.mapping == [0, 1, 0]
  {
    SourcesRecorded(a, b);
    st := RecordIdentity([a, b], SourceState(a, b), k);
    assert [a, b] + [k] == [a, b, k];
  }

  /** The recording gives the last node the id of the first, although their terms are not provably equal. */
  ghost predicate JoinedApart(nodes: seq<NodeKey>, st: State) {
    && |nodes| == 3 && Consumed(nodes, st) && TopologicalKeys(nodes) && st.mapping == [0, 1, 0]
    && !Provable(HeadTheory(), Unfold(HeadCells(nodes), 2), Unfold(HeadCells(nodes), 0))
  }

  /** An identity operator recorded over two sources is joined to the first one. */
  lemma TwoInputsJoined(a: NodeKey, b: NodeKey, id: NodeKey) returns (st: State)
    requires a.Source? && b.Source? && a.Canon() != b.Canon() && IsIdentity(id) && id.ins == [0, 1]
    ensures JoinedApart([a, b, id], st)
  {
    st := TwoSources(a, b, id);
    RunKeepsInv([a, b, id], st);
    NotIdentity([a, b, id], st, 2);
  }

  lemma IdentityOverTwo(k: NodeKey) returns (id: NodeKey)
    requires k.Op? && IdentityToken(k.Token())
    ensures id == Op(k.name, k.params, [0, 1]) && IsIdentity(id)
  {
    IdentityByHead(k, [0, 1]);
    id := k.WithInputs([0, 1]);
  }

  lemma TwoNames() returns (a: NodeKey, b: NodeKey)
    ensures a == Source("a", []) && b == Source("b", []) && a.Canon() != b.Canon()
  {
    a, b := Source("a", []), Source("b", []);
    assert "a"[0] != "b"[0];
  }

  /** For instance the addition of zero over two sources. */
  lemma TwoInputIdentityFails() returns (a: NodeKey, b: NodeKey, id: NodeKey, st: State)
    ensures a == Source("a", []) && b == Source("b", []) && id.Op? && id.name == ADD && |id.params| == 2 && id.ins == [0, 1]
    ensures id.params[0] == Entry(SCALAR, Float(0)) && id.params[1] == Entry(SIDE, Str(RIGHT))
    ensures IsIdentity(id) && JoinedApart([a, b, id], st)
  {
    var k := AddZero();
    id := IdentityOverTwo(k);
    a, b := TwoNames();
    st := TwoInputsJoined(a, b, id);
  }

  lemma NotIdentity(nodes: seq<NodeKey>, st: State, i: nat)
    requires Consumed(nodes, st) && TopologicalKeys(nodes) && i < |nodes|
    requires IsIdentity(nodes[i]) && |nodes[i].Inputs()| == 2 && nodes[i].Inputs()[0] == 0
    ensures !Provable(HeadTheory(), Unfold(HeadCells(nodes), i), Unfold(HeadCells(nodes), 0))
  {
    RunKeepsInv(nodes, st);
    IdentityByHead(nodes[i], []);
    HeadTheoryDisjoint(nodes[i].Head());
    var x := NonUnaryBreaks(HeadTheory(), HeadCells(nodes), HeadCells(st.canonNodes), st.mapping, i);
    NormalFormDecides(HeadTheory(), Unfold(HeadCells(nodes), i), Unfold(HeadCells(nodes), x));
  }

  // ---- a dead node recorded first fixes the orientation of a live one ----

  /** The term of a reduced output is the term of the same output before fusion. */
  lemma OutputTerm(nodes: seq<NodeKey>, outs: seq<NodeId>, engine: RewriteEngine, mode: FusionMode, k: nat)
    requires Reducible(nodes, outs) && SoundEngine(engine) && k < |outs|
    ensures var r := ReduceNodes(nodes, outs, engine, mode); var g := DedupedGraph(nodes, outs, engine);
      && Runnable(r.nodes) && |r.outputs| == |g.outputs| == |outs| && r.outputs[k] < |r.nodes|
      && TermAt(r.nodes, r.outputs[k]) == Unfold(CellsOf(g), g.outputs[k])
  {
    var g, templates := DedupedGraph(nodes, outs, engine), Templates(Kept(nodes, outs));
    TemplatesServe(nodes, outs, engine);
    PartitionValid(g, mode);
    DedupedTerm(nodes, outs, engine, k);
    FusedOutputTerm(g, Partition(g, mode), templates, k);
  }

  ghost predicate BareSymmetric(z: NodeKey) {
    z.Op? && z.params == [] && z.name in SYMMETRIC_OPS
  }

  ghost function Order(flipped: bool): seq<NodeId> {
    if flipped then [1, 0] else [0, 1]
  }

  /** Two different sources and one bare symmetric op over both, in the given order. */
  ghost predicate Pair(a: NodeKey, b: NodeKey, z: NodeKey, flipped: bool) {
    a.Source? && b.Source? && a.Canon() != b.Canon() && BareSymmetric(z) && z.ins == Order(flipped)
  }

  lemma BareNotIdentity(z: NodeKey)
    requires BareSymmetric(z)
    ensures !IsIdentity(z)
  {
    IdentityByHead(z, []);
    HeadTheoryDisjoint(z.Head());
  }

  /** What a recorded op adds when neither orientation is known yet. */
  lemma RecordFresh(nodes: seq<NodeKey>, st: State, z: NodeKey)
    requires Consumed(nodes, st) && BareSymmetric(z) && |z.ins| == 2
    requires AllBelow(z.ins, |st.mapping|) && Renumber(st.mapping, z.ins) == z.ins
    requires z.Canon() !in st.canonTable && Swapped(z).Canon() !in st.canonTable
    ensures Consumed(nodes + [z], PutNew(st, z))
  {
    SameInputs(z);
    BareNotIdentity(z);
    ConsumedSnoc(nodes, st, z, PutNew(st, z));
  }

  /** A recorded op whose other orientation is known goes there. */
  lemma RecordTwin(nodes: seq<NodeKey>, st: State, x: NodeKey, y: NodeKey, id: NodeId)
    requires Consumed(nodes, st) && BareSymmetric(y) && |y.ins| == 2
    requires AllBelow(y.ins, |st.mapping|) && Renumber(st.mapping, y.ins) == y.ins
    requires Swapped(y) == x && y.Canon() !in st.canonTable && x.Canon() in st.canonTable && st.canonTable[x.Canon()] == id
    ensures Consumed(nodes + [y], State(st.canonNodes, st.canonTable, st.mapping + [id]))
  {
    SameInputs(y);
    BareNotIdentity(y);
    ConsumedSnoc(nodes, st, y, State(st.canonNodes, st.canonTable, st.mapping + [id]));
  }

  lemma RecordSource(nodes: seq<NodeKey>, st: State, a: NodeKey)
    requires Consumed(nodes, st) && a.Source? && a.Canon() !in st.canonTable
    ensures Consumed(nodes + [a], PutNew(st, a))
  {
    ConsumeSource(st, a);
    ConsumedSnoc(nodes, st, a, PutNew(st, a));
  }

  lemma NotInSources(a: NodeKey, b: NodeKey, z: NodeKey)
    requires a.Source? && b.Source? && z.Op?
    ensures z.Canon() !in map[a.Canon() := 0, b.Canon() := 1]
  {
    assert a.Canon().Source? && b.Canon().Source? && z.Canon().Op?;
  }

  ghost function PairState(a: NodeKey, b: NodeKey, z: NodeKey): State {
    State([a, b, z], map[a.Canon() := 0, b.Canon() := 1, z.Canon() := 2], [0, 1, 2])
  }

  lemma PairRecorded(a: NodeKey, b: NodeKey, z: NodeKey, flipped: bool)
    requires Pair(a, b, z, flipped)
    ensures Consumed([a, b, z], PairState(a, b, z))
  {
    var s2 := SourceState(a, b);
    SourcesRecorded(a, b);
    NotInSources(a, b, z);
    NotInSources(a, b, Swapped(z));
    SameRenumber(s2.mapping, z.ins, 2);
    RecordFresh([a, b], s2, z);
    assert [a, b] + [z] == [a, b, z];
    PairStateIs(a, b, z);
  }

  lemma SameRenumber(f: seq<nat>, xs: seq<nat>, n: nat)
    requires |f| >= n && (forall i :: 0 <= i < n ==> f[i] == i) && AllBelow(xs, n)
    ensures AllBelow(xs, |f|) && Renumber(f, xs) == xs
  {
  }

  lemma PairStateIs(a: NodeKey, b: NodeKey, z: NodeKey)
    ensures PutNew(SourceState(a, b), z) == PairState(a, b, z)
  {
  }

  lemma PairReachable(a: NodeKey, b: NodeKey, z: NodeKey)
    requires |z.Inputs()| == 2 && {z.Inputs()[0], z.Inputs()[1]} == {0, 1}
    ensures AllReachable([a, b, z], [2])
  {
    var nodes := [a, b, z];
    assert 2 in [2] && 0 in {z.Inputs()[0], z.Inputs()[1]} && 1 in {z.Inputs()[0], z.Inputs()[1]};
    assert Reachable(nodes, [2], 2);
    assert nodes[2].Inputs() == z.Inputs();
    assert 0 in z.Inputs() && 1 in z.Inputs();
    assert Reachable(nodes, [2], 0) && Reachable(nodes, [2], 1);
  }

  lemma PairTopological(a: NodeKey, b: NodeKey, z: NodeKey, flipped: bool)
    requires a.Source? && b.Source? && z.Inputs() == Order(flipped)
    ensures TopologicalKeys([a, b, z])
  {
  }

  lemma PairUnary(a: NodeKey, b: NodeKey, z: NodeKey)
    requires a.Source? && b.Source? && !IsIdentity(z)
    ensures IdentityOpsUnary([a, b, z])
  {
    var nodes := [a, b, z];
    forall i | 0 <= i < |nodes|
      ensures !IsIdentity(nodes[i])
    {
      assert nodes[i] == a || nodes[i] == b || nodes[i] == z;
    }
  }

  lemma PairTokensTell(a: NodeKey, b: NodeKey, z: NodeKey)
    requires a.Source? && b.Source? && z.Op?
    ensures Meaning.TokensTell([a, b, z]) && StageFree([a, b, z])
  {
    assert Recordable(a) && Recordable(b) && Recordable(z);
    Meaning.RecordableTell([a, b, z]);
  }

  lemma PairWellRecorded(a: NodeKey, b: NodeKey, z: NodeKey, flipped: bool)
    requires Pair(a, b, z, flipped)
    ensures WellRecorded([a, b, z], PairState(a, b, z)) && AllReachable([a, b, z], [2])
  {
    PairRecorded(a, b, z, flipped);
    PairTopological(a, b, z, flipped);
    BareNotIdentity(z);
    PairUnary(a, b, z);
    PairTokensTell(a, b, z);
    PairReachable(a, b, z);
  }

  lemma UnfoldPair<S>(c: seq<Cell<S>>, flipped: bool)
    requires |c| == 3 && Topological(c) && c[0].inputs == [] && c[1].inputs == [] && c[2].inputs == Order(flipped)
    ensures var ta, tb := App(c[0].sym, []), App(c[1].sym, []);
      Unfold(c, 2) == App(c[2].sym, if flipped then [tb, ta] else [ta, tb])
  {
    assert UnfoldAll(c, c[0].inputs, 0) == [] && UnfoldAll(c, c[1].inputs, 1) == [];
    var ts := UnfoldAll(c, c[2].inputs, 2);
    assert ts == [ts[0], ts[1]];
  }

  /** The graph that is fused for such a pair is the pair itself. */
  lemma PairDeduped(a: NodeKey, b: NodeKey, z: NodeKey, flipped: bool, engine: RewriteEngine)
    requires Pair(a, b, z, flipped) && SaturatedEngine(engine)
    ensures Reducible([a, b, z], [2]) && SoundEngine(engine)
    ensures DedupedGraph([a, b, z], [2], engine) == ToEngineGraph([a, b, z], [2])
    ensures Kept([a, b, z], [2]) == [a, b, z] && KeptOutputs([a, b, z], [2]) == [2]
  {
    PairWellRecorded(a, b, z, flipped);
    SameDeduped([a, b, z], [2], PairState(a, b, z), engine);
    AllReachableKept([a, b, z], [2]);
    PairOutput(PairState(a, b, z));
  }

  lemma PairOutput(st: State)
    requires st.mapping == [0, 1, 2]
    ensures Renumber(st.mapping, [2]) == [2]
  {
  }

  lemma PairCells(a: NodeKey, b: NodeKey, z: NodeKey)
    requires a.Source? && b.Source?
    ensures var c := CellsOf(ToEngineGraph([a, b, z], [2]));
      |c| == 3 && c[0] == Cell(a.Token(), []) && c[1] == Cell(b.Token(), []) && c[2] == Cell(z.Token(), z.Inputs())
  {
  }

  /** The reduced output of such a pair keeps the recorded order of the arguments. */
  lemma PairTerm(a: NodeKey, b: NodeKey, z: NodeKey, flipped: bool, engine: RewriteEngine)
    requires Pair(a, b, z, flipped) && SaturatedEngine(engine)
    ensures TopologicalKeys([a, b, z]) && SoundEngine(engine)
    ensures var g := DedupedGraph([a, b, z], [2], engine); var ta, tb := App(a.Token(), []), App(b.Token(), []);
      g.outputs == [2] && |g.nodes| == 3 && Unfold(CellsOf(g), 2) == App(z.Token(), if flipped then [tb, ta] else [ta, tb])
  {
    PairDeduped(a, b, z, flipped, engine);
    PairCells(a, b, z);
    UnfoldPair(CellsOf(ToEngineGraph([a, b, z], [2])), flipped);
  }

  // ---- the recording with the dead twin ----

  /** Two sources, a bare symmetric op over both and its twin with the arguments swapped. */
  ghost predicate Twins(a: NodeKey, b: NodeKey, x: NodeKey, y: NodeKey) {
    Pair(a, b, x, false) && Pair(a, b, y, true) && y.name == x.name
  }

  lemma TwinsRecorded(a: NodeKey, b: NodeKey, x: NodeKey, y: NodeKey) returns (st: State)
    requires Twins(a, b, x, y)
    ensures Consumed([a, b, x, y], st) && st.mapping == [0, 1, 2, 2] && st.canonNodes == [a, b, x]
  {
    var s := PairState(a, b, x);
    PairRecorded(a, b, x, false);
    SameRenumber(s.mapping, y.ins, 3);
    TwinAbsent(s, a, b, x, y);
    RecordTwin([a, b, x], s, x, y, 2);
    assert [a, b, x] + [y] == [a, b, x, y];
    st := State(s.canonNodes, s.canonTable, s.mapping + [2]);
  }

  lemma TwinAbsent(s: State, a: NodeKey, b: NodeKey, x: NodeKey, y: NodeKey)
    requires s == PairState(a, b, x) && a.Source? && b.Source? && x.Op? && y.Op? && x.ins != y.ins
    ensures y.Canon() !in s.canonTable && x.Canon() in s.canonTable && s.canonTable[x.Canon()] == 2
  {
    assert x.Canon().ins == x.ins && y.Canon().ins == y.ins;
  }

  lemma TwinsKept(a: NodeKey, b: NodeKey, x: NodeKey, y: NodeKey)
    requires a.Source? && b.Source? && x.Inputs() == [0, 1] && y.Inputs() == [1, 0]
    ensures TopologicalKeys([a, b, x, y])
    ensures Kept([a, b, x, y], [3]) == [a, b, y]
    ensures KeptOutputs([a, b, x, y], [3]) == [2]
  {
    var nodes := [a, b, x, y];
    var mask := ReachMask(nodes, [3]);
    assert 3 in [3];
    assert nodes[3].Inputs() == [1, 0];
    assert 1 in nodes[3].Inputs() && 0 in nodes[3].Inputs();
    assert Reachable(nodes, [3], 3);
    assert Reachable(nodes, [3], 0) && Reachable(nodes, [3], 1);
    assert !Reachable(nodes, [3], 2);
    assert mask == [true, true, false, true];
    SkipThird(mask, Renumbered(nodes, Ranks(mask)));
    TwinsRenumbered(a, b, nodes, Ranks(mask));
    assert KeptOutputs(nodes, [3])[0] == Ranks(mask)[3];
  }

  lemma SkipThird<T>(mask: seq<bool>, xs: seq<T>)
    requires mask == [true, true, false, true] && |xs| == 4
    ensures Ranks(mask) == [0, 1, 2, 2]
    ensures Select(xs, mask) == [xs[0], xs[1], xs[3]]
  {
    assert Rank(mask, 1) == 1 && Rank(mask, 2) == 2 && Rank(mask, 3) == 2;
    assert SelectTo(xs, mask, 1) == [xs[0]];
    assert SelectTo(xs, mask, 2) == [xs[0], xs[1]];
    assert SelectTo(xs, mask, 3) == [xs[0], xs[1]];
  }

  lemma TwinsRenumbered(a: NodeKey, b: NodeKey, nodes: seq<NodeKey>, f: seq<nat>)
    requires |nodes| == 4 && nodes[0] == a && nodes[1] == b && a.Source? && b.Source? && nodes[3].Inputs() == [1, 0]
    requires f == [0, 1, 2, 2] && TopologicalKeys(nodes)
    ensures var xs := Renumbered(nodes, f); xs[0] == a && xs[1] == b && xs[3] == nodes[3]
  {
    SameInputs(nodes[3]);
    assert Renumber(f, nodes[3].Inputs()) == [1, 0];
  }

  /** The first output of the reduced graph stands for this term. */
  ghost predicate YieldsFirst(nodes: seq<NodeKey>, outs: seq<nat>, t: Term<string>) {
    Runnable(nodes) && outs != [] && outs[0] < |nodes| && TermAt(nodes, outs[0]) == t
  }

  ghost function Applied(a: NodeKey, b: NodeKey, z: NodeKey, flipped: bool): Term<string> {
    var ta, tb := App(a.Token(), []), App(b.Token(), []);
    App(z.Token(), if flipped then [tb, ta] else [ta, tb])
  }

  lemma PairYields(a: NodeKey, b: NodeKey, z: NodeKey, flipped: bool, engine: RewriteEngine, mode: FusionMode)
    requires Pair(a, b, z, flipped) && SaturatedEngine(engine)
    ensures SoundEngine(engine) && Reducible([a, b, z], [2])
    ensures var r := ReduceNodes([a, b, z], [2], engine, mode); YieldsFirst(r.nodes, r.outputs, Applied(a, b, z, flipped))
  {
    PairDeduped(a, b, z, flipped, engine);
    PairTerm(a, b, z, flipped, engine);
    OutputTerm([a, b, z], [2], engine, mode, 0);
  }

  /** Only what is kept matters. */
  lemma SameDedupedGraph(nodes: seq<NodeKey>, outs: seq<NodeId>, nodes': seq<NodeKey>, outs': seq<NodeId>, engine: RewriteEngine)
    requires Reducible(nodes, outs) && Reducible(nodes', outs') && SoundEngine(engine)
    requires Kept(nodes, outs) == Kept(nodes', outs') && KeptOutputs(nodes, outs) == KeptOutputs(nodes', outs')
    ensures DedupedGraph(nodes, outs, engine) == DedupedGraph(nodes', outs', engine)
  {
  }

  lemma AppliedDiffer(a: NodeKey, b: NodeKey, x: NodeKey, y: NodeKey)
    requires a.Token() != b.Token()
    ensures Applied(a, b, x, false) != Applied(a, b, y, true)
  {
    assert Applied(a, b, x, false).args[0].sym == a.Token() && Applied(a, b, y, true).args[0].sym == b.Token();
  }

  lemma TwinsReducible(a: NodeKey, b: NodeKey, x: NodeKey, y: NodeKey)
    requires a.Source? && b.Source? && x.Op? && y.Op? && x.ins == [0, 1] && y.ins == [1, 0]
    ensures Reducible([a, b, x, y], [3])
  {
  }

  lemma TwinsDeduped(a: NodeKey, b: NodeKey, x: NodeKey, y: NodeKey, engine: RewriteEngine)
    requires Twins(a, b, x, y) && SaturatedEngine(engine)
    ensures SoundEngine(engine) && Reducible([a, b, x, y], [3])
    ensures DedupedGraph([a, b, x, y], [3], engine) == ToEngineGraph([a, b, y], [2])
  {
    TwinsReducible(a, b, x, y);
    TwinsKept(a, b, x, y);
    PairDeduped(a, b, y, true, engine);
    SameDedupedGraph([a, b, x, y], [3], [a, b, y], [2], engine);
  }

  /** In one shot, the live twin comes out in its own order. */
  lemma TwinsYield(a: NodeKey, b: NodeKey, x: NodeKey, y: NodeKey, engine: RewriteEngine, mode: FusionMode)
    requires Twins(a, b, x, y) && SaturatedEngine(engine)
    ensures SoundEngine(engine) && Reducible([a, b, x, y], [3])
    ensures var r := ReduceNodes([a, b, x, y], [3], engine, mode); YieldsFirst(r.nodes, r.outputs, Applied(a, b, y, true))
  {
    TwinsDeduped(a, b, x, y, engine);
    OutputTerm([a, b, x, y], [3], engine, mode, 0);
    PairDeduped(a, b, y, true, engine);
    PairTerm(a, b, y, true, engine);
  }

  /** Finished incrementally, it comes out in the order of the dead one. */
  lemma TwinsFinish(a: NodeKey, b: NodeKey, x: NodeKey, y: NodeKey, engine: RewriteEngine, mode: FusionMode) returns (st: State)
    requires Twins(a, b, x, y) && SaturatedEngine(engine)
    ensures Consumed([a, b, x, y], st) && AllBelow([3], |st.mapping|) && SoundEngine(engine)
    ensures Reducible(st.canonNodes, Renumber(st.mapping, [3]))
    ensures var r := ReduceNodes(st.canonNodes, Renumber(st.mapping, [3]), engine, mode);
      YieldsFirst(r.nodes, r.outputs, Applied(a, b, x, false))
  {
    st := TwinsRecorded(a, b, x, y);
    TwinOutput(st);
    PairYields(a, b, x, false, engine, mode);
  }

  /** With a dead twin recorded first, finishing incrementally and reducing in one shot differ: the live
      op comes out over its two sources in opposite orders, whatever the mode and the engine. */
  lemma DeadTwinFlips(a: NodeKey, b: NodeKey, x: NodeKey, y: NodeKey, engine: RewriteEngine, mode: FusionMode) returns (st: State)
    requires Twins(a, b, x, y) && a.Token() != b.Token() && SaturatedEngine(engine)
    ensures Consumed([a, b, x, y], st) && AllBelow([3], |st.mapping|)
    ensures SoundEngine(engine) && Reducible([a, b, x, y], [3]) && Reducible(st.canonNodes, Renumber(st.mapping, [3]))
    ensures var inc := ReduceNodes(st.canonNodes, Renumber(st.mapping, [3]), engine, mode);
      var one := ReduceNodes([a, b, x, y], [3], engine, mode);
      !(inc.nodes == one.nodes && inc.outputs == one.outputs)
  {
    TwinsYield(a, b, x, y, engine, mode);
    st := TwinsFinish(a, b, x, y, engine, mode);
    AppliedDiffer(a, b, x, y);
  }

  /** For instance an addition over two sources and the same addition with the arguments swapped. */
  lemma TwinAdditions() returns (a: NodeKey, b: NodeKey, x: NodeKey, y: NodeKey)
    ensures a == Source("a", []) && b == Source("b", []) && x == Op("add", [], [0, 1]) && y == Op("add", [], [1, 0])
    ensures Twins(a, b, x, y) && a.Token() != b.Token()
  {
    a, b := TwoNames();
    x, y := Op("add", [], [0, 1]), Op("add", [], [1, 0]);
    assert SYMMETRIC_OPS[0] == "add";
    TokenInjective(a, b);
  }

  lemma TwinOutput(st: State)
    requires st.mapping == [0, 1, 2, 2]
    ensures AllBelow([3], |st.mapping|) && Renumber(st.mapping, [3]) == [2]
  {
  }
}
