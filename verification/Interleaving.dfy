/** Fusion hides an order: a recording whose unneeded nodes change the graph that is fused and not what it
is fused to. */
module Interleaving {
  import opened Wrappers
  import opened Selection
  import opened Param
  import opened Node
  import opened Arena
  import opened Interning
  import opened Engine
  import opened LocalCanon
  import opened Incremental
  import opened Dce
  import opened Fusion
  import opened FusionOrder
  import opened Reordering
  import opened Reduce
  import opened OneShot
  import opened FusedAlike
  import opened Agreement
  import opened SameReduction
  import Limits
  import Operators
  import Meaning

  function Unary(name: string, x: NodeId): NodeKey {
    Op(name, [], [x])
  }

  /** A source; an identity over it; an op over the identity, which no output needs; two ops over the source,
      the second of them the same operator as the unneeded one; and an op over that second one. */
  ghost function Interleaved(a: NodeKey, id: NodeKey, p: string, q: string, r: string): (nodes: seq<NodeKey>) {
    [a, id, Unary(p, 1), Unary(q, 0), Unary(p, 0), Unary(r, 4)]
  }

  const OUTS: seq<NodeId> := [3, 5]

  /** The canonical arena: the source, the unneeded op over it, then the needed ones. */
  ghost function Canonical(a: NodeKey, p: string, q: string, r: string): (canon: seq<NodeKey>) {
    [a, Unary(p, 0), Unary(q, 0), Unary(r, 1)]
  }

  const MAPPING: seq<NodeId> := [0, 0, 1, 2, 1, 3]

  // ---- what the reducer makes of it ----

  ghost predicate Reaches(nodes: seq<NodeKey>, st: State, canon: seq<NodeKey>, mapping: seq<NodeId>) {
    Consumed(nodes, st) && st.canonNodes == canon && st.mapping == mapping
  }

  lemma UnaryCanonicalized(st: State, p: string, x: NodeId)
    requires x < |st.mapping|
    ensures var k := Unary(p, st.mapping[x]); var (id, canon, table) := Intern(st.canonNodes, st.canonTable, k);
      Consume(st, Unary(p, x)) == Ok(State(canon, table, st.mapping + [id]))
  {
    var key, k := Unary(p, x), Unary(p, st.mapping[x]);
    assert key.WithInputs(Renumber(st.mapping, key.Inputs())) == k;
    BareTokenNoBar(k);
    if IdentityToken(k.Token()) {
      IdentityTokenBar(k.Token());
      assert false;
    }
  }

  lemma NewNode(nodes: seq<NodeKey>, st: State, p: string, x: NodeId) returns (st': State)
    requires Consumed(nodes, st) && x < |st.mapping|
    requires forall c :: 0 <= c < |st.canonNodes| ==> st.canonNodes[c].Canon() != Unary(p, st.mapping[x])
    ensures Reaches(nodes + [Unary(p, x)], st', st.canonNodes + [Unary(p, st.mapping[x])], st.mapping + [|st.canonNodes|])
  {
    RunKeepsInv(nodes, st);
    UnaryCanonicalized(st, p, x);
    st' := Consume(st, Unary(p, x)).value;
    ConsumedSnoc(nodes, st, Unary(p, x), st');
  }

  lemma KnownNode(nodes: seq<NodeKey>, st: State, p: string, x: NodeId, c: nat) returns (st': State)
    requires Consumed(nodes, st) && x < |st.mapping|
    requires c < |st.canonNodes| && st.canonNodes[c] == Unary(p, st.mapping[x])
    ensures Reaches(nodes + [Unary(p, x)], st', st.canonNodes, st.mapping + [c])
  {
    RunKeepsInv(nodes, st);
    UnaryCanonicalized(st, p, x);
    st' := Consume(st, Unary(p, x)).value;
    ConsumedSnoc(nodes, st, Unary(p, x), st');
  }

  lemma FirstTwo(a: NodeKey, id: NodeKey) returns (st: State)
    requires a.Source? && IsIdentity(id) && id.ins == [0]
    ensures Reaches([a, id], st, [a], [0, 0])
  {
    Limits.RecordSource([], EMPTY, a);
    st := Limits.RecordIdentity([] + [a], Limits.PutNew(EMPTY, a), id);
    assert [] + [a] + [id] == [a, id];
  }

  lemma NextTwo(a: NodeKey, id: NodeKey, p: string, q: string) returns (st: State)
    requires a.Source? && IsIdentity(id) && id.ins == [0] && p != q
    ensures Reaches([a, id, Unary(p, 1), Unary(q, 0)], st, [a, Unary(p, 0), Unary(q, 0)], [0, 0, 1, 2])
  {
    var s2 := FirstTwo(a, id);
    var s3 := NewNode([a, id], s2, p, 1);
    st := NewNode([a, id] + [Unary(p, 1)], s3, q, 0);
    assert [a, id] + [Unary(p, 1)] + [Unary(q, 0)] == [a, id, Unary(p, 1), Unary(q, 0)];
  }

  lemma LastTwo(pre: seq<NodeKey>, s4: State, a: NodeKey, p: string, q: string, r: string) returns (st: State)
    requires a.Source? && Reaches(pre, s4, [a, Unary(p, 0), Unary(q, 0)], [0, 0, 1, 2])
    ensures Reaches(pre + [Unary(p, 0)] + [Unary(r, 4)], st, Canonical(a, p, q, r), MAPPING)
  {
    var s5 := KnownNode(pre, s4, p, 0, 1);
    st := NewNode(pre + [Unary(p, 0)], s5, r, 4);
  }

  lemma UnaryRecorded(nodes: seq<NodeKey>, st: State)
    requires Consumed(nodes, st)
    requires forall i :: 0 <= i < |nodes| ==> nodes[i].Source? || (nodes[i].Op? && |nodes[i].ins| == 1)
    ensures WellRecorded(nodes, st)
  {
    RunKeepsInv(nodes, st);
    Meaning.RecordableTell(nodes);
  }

  lemma Interleaves(a: NodeKey, id: NodeKey, p: string, q: string, r: string)
    ensures [a, id, Unary(p, 1), Unary(q, 0)] + [Unary(p, 0)] + [Unary(r, 4)] == Interleaved(a, id, p, q, r)
  {
  }

  lemma InterleavedRecorded(a: NodeKey, id: NodeKey, p: string, q: string, r: string) returns (st: State)
    requires a.Source? && IsIdentity(id) && id.ins == [0] && p != q
    ensures WellRecorded(Interleaved(a, id, p, q, r), st) && st.canonNodes == Canonical(a, p, q, r) && st.mapping == MAPPING
  {
    var s4 := NextTwo(a, id, p, q);
    st := LastTwo([a, id, Unary(p, 1), Unary(q, 0)], s4, a, p, q, r);
    Interleaves(a, id, p, q, r);
    UnaryRecorded(Interleaved(a, id, p, q, r), st);
  }

  // ---- what the outputs need ----

  ghost predicate Wired(nodes: seq<NodeKey>) {
    && |nodes| == 6 && nodes[0].Inputs() == [] && nodes[1].Inputs() == [0] && nodes[2].Inputs() == [1]
    && nodes[3].Inputs() == [0] && nodes[4].Inputs() == [0] && nodes[5].Inputs() == [4]
  }

  ghost predicate IsNeeded(i: nat) {
    i == 0 || 3 <= i < 6
  }

  lemma Unused(nodes: seq<NodeKey>, outs: seq<NodeId>, i: nat)
    requires i < |nodes| && i !in outs
    requires forall j :: i < j < |nodes| && i in nodes[j].Inputs() ==> !Reachable(nodes, outs, j)
    ensures !Reachable(nodes, outs, i)
  {
  }

  lemma Used(nodes: seq<NodeKey>, outs: seq<NodeId>, i: nat, j: nat)
    requires i < j < |nodes| && nodes[j].Inputs() == [i] && Reachable(nodes, outs, j)
    ensures Reachable(nodes, outs, i)
  {
    assert i in nodes[j].Inputs();
  }

  lemma Marked(nodes: seq<NodeKey>, outs: seq<NodeId>, k: nat)
    requires k < |outs| && outs[k] < |nodes|
    ensures Reachable(nodes, outs, outs[k])
  {
  }

  lemma WiredNeeded(nodes: seq<NodeKey>)
    requires Wired(nodes)
    ensures Reachable(nodes, OUTS, 0) && Reachable(nodes, OUTS, 3) && Reachable(nodes, OUTS, 4) && Reachable(nodes, OUTS, 5)
  {
    Marked(nodes, OUTS, 0);
    Marked(nodes, OUTS, 1);
    Used(nodes, OUTS, 4, 5);
    Used(nodes, OUTS, 0, 3);
  }

  lemma WiredUnneeded(nodes: seq<NodeKey>)
    requires Wired(nodes)
    ensures !Reachable(nodes, OUTS, 1) && !Reachable(nodes, OUTS, 2)
  {
    Unused(nodes, OUTS, 2);
    Unused(nodes, OUTS, 1);
  }

  lemma WiredNeeds(nodes: seq<NodeKey>)
    requires Wired(nodes)
    ensures forall i :: 0 <= i < 6 ==> Reachable(nodes, OUTS, i) == IsNeeded(i)
  {
    WiredNeeded(nodes);
    WiredUnneeded(nodes);
  }

  lemma CanonNeeded(canon: seq<NodeKey>)
    requires |canon| == 4 && canon[0].Inputs() == [] && canon[1].Inputs() == [0] && canon[2].Inputs() == [0] && canon[3].Inputs() == [1]
    ensures TopologicalKeys(canon) && AllReachable(canon, [2, 3])
  {
    var outs: seq<NodeId> := [2, 3];
    Marked(canon, outs, 0);
    Marked(canon, outs, 1);
    Used(canon, outs, 1, 3);
    Used(canon, outs, 0, 2);
  }

  lemma KeptInPlace(nodes: seq<NodeKey>, outs: seq<NodeId>, c: nat)
    requires AllReachable(nodes, outs) && c < |nodes|
    ensures Rank(ReachMask(nodes, outs), c) == c
  {
    SelectAll(nodes, ReachMask(nodes, outs), c);
  }

  /** The members kept for each needed node: the first recorded and the first needed one. */
  lemma KeptMembers(nodes: seq<NodeKey>)
    requires Wired(nodes)
    ensures Rep(MAPPING, 0) == 0 && Rep(MAPPING, 3) == 3 && Rep(MAPPING, 4) == 2 && Rep(MAPPING, 5) == 5
    ensures forall i :: 0 <= i < 6 ==> Reachable(nodes, OUTS, i) == IsNeeded(i)
    ensures forall i :: 0 <= i < 6 && IsNeeded(i) ==> FirstLive(nodes, OUTS, MAPPING, i) == i
  {
    WiredNeeds(nodes);
    RepFacts(MAPPING, 0);
    RepFacts(MAPPING, 3);
    RepFacts(MAPPING, 4);
    RepFacts(MAPPING, 5);
  }

  /** Some needed nodes come in another order by first recorded than by first needed member. */
  ghost predicate Disordered(nodes: seq<NodeKey>, outs: seq<NodeId>, f: seq<nat>) {
    |f| == |nodes| && AllBelow(outs, |nodes|)
    && exists i, j :: 0 <= i < |nodes| && 0 <= j < |nodes| && Reachable(nodes, outs, i) && Reachable(nodes, outs, j)
        && !InOneOrder(nodes, outs, f, i, j)
  }

  /** The unneeded op puts the two ops over the source in the other order. */
  lemma WiredDisorder(nodes: seq<NodeKey>, f: seq<nat>)
    requires Wired(nodes) && f == MAPPING
    ensures Disordered(nodes, OUTS, f)
  {
    KeptMembers(nodes);
    assert !InOneOrder(nodes, OUTS, f, 3, 4);
  }

  lemma WiredOperands(nodes: seq<NodeKey>, i: nat)
    requires Wired(nodes) && TopologicalKeys(nodes) && i < 6 && Reachable(nodes, OUTS, i)
    ensures KeptAlike(nodes, OUTS, MAPPING, i)
  {
    KeptMembers(nodes);
    assert Renumber(MAPPING, nodes[2].Inputs()) == [0] && Renumber(MAPPING, nodes[4].Inputs()) == [0];
  }

  lemma WiredOrder(nodes: seq<NodeKey>, i: nat, j: nat)
    requires Wired(nodes) && i < 6 && j < 6 && Reachable(nodes, OUTS, i) && Reachable(nodes, OUTS, j)
    requires !(i == 3 && j == 4) && !(i == 4 && j == 3)
    ensures InOneOrder(nodes, OUTS, MAPPING, i, j)
  {
    KeptMembers(nodes);
  }

  // ---- what is fused ----

  /** The graph that finishing fuses has two ops over one source, an output and the start of a chain of two. */
  ghost predicate ForkedChain(g: EngineGraph) {
    && WellFormed(g) && |g.nodes| == 4 && g.outputs == [2, 3]
    && !g.nodes[1].boundary && !g.nodes[3].boundary
    && g.nodes[0].inputs == [] && g.nodes[1].inputs == [0] && g.nodes[2].inputs == [0] && g.nodes[3].inputs == [1]
  }

  lemma OneHit(xs: seq<nat>, i: nat, c: nat)
    requires xs == [i]
    ensures Hits(xs, i, c, |xs|) == [c]
  {
    assert Hits(xs, i, c, 0) == [];
    assert Hits(xs, i, c, 1) == Hits(xs, i, c, 0) + [c];
  }

  lemma NoHits(xs: seq<nat>, i: nat, c: nat)
    requires i !in xs
    ensures Hits(xs, i, c, |xs|) == []
  {
    assert xs[..|xs|] == xs;
  }

  lemma OneMore(nodes: seq<EngineNode>, i: nat, n: nat, before: seq<nat>)
    requires 0 < n <= |nodes| && ConsumersTo(nodes, i, n - 1) == before
    ensures nodes[n - 1].inputs == [i] ==> ConsumersTo(nodes, i, n) == before + [n - 1]
    ensures i !in nodes[n - 1].inputs ==> ConsumersTo(nodes, i, n) == before
  {
    if nodes[n - 1].inputs == [i] {
      OneHit(nodes[n - 1].inputs, i, n - 1);
    } else if i !in nodes[n - 1].inputs {
      NoHits(nodes[n - 1].inputs, i, n - 1);
      assert before + [] == before;
    }
  }

  lemma ChainUses(g: EngineGraph)
    requires ForkedChain(g)
    ensures Consumers(g, 1) == [3]
  {
    OneMore(g.nodes, 1, 1, []);
    OneMore(g.nodes, 1, 2, []);
    OneMore(g.nodes, 1, 3, []);
    OneMore(g.nodes, 1, 4, []);
    assert [] + [3] == [3];
  }

  lemma ChainHeads(g: EngineGraph, mode: FusionMode)
    requires ForkedChain(g)
    ensures Head(g, mode, 1) == 3 && Head(g, mode, 2) == 2
  {
    ChainUses(g);
    match mode
    case SingleUse =>
      assert IsSingleUse(g, 1) && !IsSingleUse(g, 2);
      assert !IsSingleUse(g, 3);
    case Maximal =>
      assert MaximalComp(g, 3) == 3;
  }

  /** Whatever the mode, the order of the fork's two ops does not show. */
  lemma ForkHidden(g: EngineGraph, mode: FusionMode)
    requires ForkedChain(g)
    ensures !OrderShows(Partition(g, mode), 1, 2) && !OrderShows(Partition(g, mode), 2, 1)
  {
    var part := Partition(g, mode);
    ChainHeads(g, mode);
    HeadsDecide(g, mode, 1, 2);
    HeadIsLast(g, mode, 1);
    assert LastOf(part, 1) == 3;
    assert part[3] == part[1];
    assert !IsLast(part, 1);
  }

  lemma CanonFork(a: NodeKey, p: string, q: string, r: string)
    requires a.Source?
    ensures ForkedChain(ToEngineGraph(Canonical(a, p, q, r), [2, 3]))
  {
    var canon := Canonical(a, p, q, r);
    CanonNeeded(canon);
    EngineGraphCells(canon, [2, 3]);
  }

  lemma PlacesAre(nodes: seq<NodeKey>, st: State)
    requires WellRecorded(nodes, st) && |nodes| == 6 && st.mapping == MAPPING
    requires |st.canonNodes| == 4 && AllReachable(st.canonNodes, [2, 3])
    ensures CanonPlaces(nodes, OUTS, st) == MAPPING
  {
    assert Renumber(MAPPING, OUTS) == [2, 3];
    var place := CanonPlaces(nodes, OUTS, st);
    forall i | 0 <= i < 6
      ensures place[i] == MAPPING[i]
    {
      KeptInPlace(st.canonNodes, [2, 3], MAPPING[i]);
    }
  }

  lemma GraphIs(nodes: seq<NodeKey>, st: State)
    requires WellRecorded(nodes, st) && |nodes| == 6 && st.mapping == MAPPING && TopologicalKeys(st.canonNodes)
    requires |st.canonNodes| == 4 && AllReachable(st.canonNodes, [2, 3]) && CanonPlaces(nodes, OUTS, st) == MAPPING
    ensures FinishedGraph(nodes, OUTS, st) == ToEngineGraph(st.canonNodes, [2, 3])
  {
    assert Renumber(MAPPING, OUTS) == [2, 3];
    AllReachableKept(st.canonNodes, [2, 3]);
  }

  /** Needed nodes out of order are at places whose order does not show. */
  ghost predicate Unshown(nodes: seq<NodeKey>, outs: seq<NodeId>, f: seq<nat>, part: seq<nat>, place: seq<nat>)
    requires |f| == |nodes| == |place|
  {
    forall i, j :: 0 <= i < |nodes| && 0 <= j < |nodes| && Reachable(nodes, outs, i) && Reachable(nodes, outs, j) ==>
      InOneOrder(nodes, outs, f, i, j)
      || !(place[i] < |part| && place[j] < |part| && OrderShows(part, place[i], place[j]))
  }

  lemma UnshownKept(nodes: seq<NodeKey>, outs: seq<NodeId>, st: State, mode: FusionMode)
    requires WellRecorded(nodes, st) && AllBelow(outs, |nodes|) && |st.mapping| == |nodes|
    requires forall i :: 0 <= i < |nodes| && Reachable(nodes, outs, i) ==> KeptAlike(nodes, outs, st.mapping, i)
    requires Unshown(nodes, outs, st.mapping, Partition(FinishedGraph(nodes, outs, st), mode), CanonPlaces(nodes, outs, st))
    ensures UnneededHidden(nodes, outs, st, mode)
  {
    forall i, j | 0 <= i < |nodes| && 0 <= j < |nodes| && Reachable(nodes, outs, i) && Reachable(nodes, outs, j)
      ensures OrderKept(nodes, outs, st, mode, i, j)
    {
      var x, y := PlaceOf(nodes, outs, st, i), PlaceOf(nodes, outs, st, j);
    }
  }

  lemma ForkUnshown(nodes: seq<NodeKey>, part: seq<nat>)
    requires Wired(nodes) && |part| == 4 && !OrderShows(part, 1, 2) && !OrderShows(part, 2, 1)
    ensures Unshown(nodes, OUTS, MAPPING, part, MAPPING)
  {
    forall i, j | 0 <= i < |nodes| && 0 <= j < |nodes| && Reachable(nodes, OUTS, i) && Reachable(nodes, OUTS, j)
      ensures InOneOrder(nodes, OUTS, MAPPING, i, j) || !OrderShows(part, MAPPING[i], MAPPING[j])
    {
      if !(i == 3 && j == 4) && !(i == 4 && j == 3) {
        WiredOrder(nodes, i, j);
      }
    }
  }

  lemma AllOperands(nodes: seq<NodeKey>)
    requires Wired(nodes) && TopologicalKeys(nodes)
    ensures forall i :: 0 <= i < |nodes| && Reachable(nodes, OUTS, i) ==> KeptAlike(nodes, OUTS, MAPPING, i)
  {
    forall i | 0 <= i < |nodes| && Reachable(nodes, OUTS, i)
      ensures KeptAlike(nodes, OUTS, MAPPING, i)
    {
      WiredOperands(nodes, i);
    }
  }

  lemma CanonWired(a: NodeKey, p: string, q: string, r: string)
    requires a.Source?
    ensures var canon := Canonical(a, p, q, r); TopologicalKeys(canon) && AllReachable(canon, [2, 3])
  {
    CanonNeeded(Canonical(a, p, q, r));
  }

  lemma GraphForked(nodes: seq<NodeKey>, st: State)
    requires WellRecorded(nodes, st) && |nodes| == 6 && st.mapping == MAPPING && |st.canonNodes| == 4
    requires TopologicalKeys(st.canonNodes) && AllReachable(st.canonNodes, [2, 3])
    requires ForkedChain(ToEngineGraph(st.canonNodes, [2, 3]))
    ensures ForkedChain(FinishedGraph(nodes, OUTS, st)) && CanonPlaces(nodes, OUTS, st) == MAPPING
  {
    PlacesAre(nodes, st);
    GraphIs(nodes, st);
  }

  lemma PartsUnshown(nodes: seq<NodeKey>, g: EngineGraph, mode: FusionMode)
    requires Wired(nodes) && ForkedChain(g)
    ensures Unshown(nodes, OUTS, MAPPING, Partition(g, mode), MAPPING)
  {
    ForkHidden(g, mode);
    ForkUnshown(nodes, Partition(g, mode));
  }

  lemma ForkedHidden(nodes: seq<NodeKey>, st: State, mode: FusionMode)
    requires WellRecorded(nodes, st) && Wired(nodes) && st.mapping == MAPPING
    requires ForkedChain(FinishedGraph(nodes, OUTS, st)) && CanonPlaces(nodes, OUTS, st) == MAPPING
    ensures UnneededHidden(nodes, OUTS, st, mode)
  {
    PartsUnshown(nodes, FinishedGraph(nodes, OUTS, st), mode);
    AllOperands(nodes);
    UnshownKept(nodes, OUTS, st, mode);
  }

  lemma CanonHidden(a: NodeKey, p: string, q: string, r: string, nodes: seq<NodeKey>, st: State, mode: FusionMode)
    requires WellRecorded(nodes, st) && Wired(nodes) && a.Source? && st.canonNodes == Canonical(a, p, q, r) && st.mapping == MAPPING
    ensures UnneededHidden(nodes, OUTS, st, mode)
  {
    CanonWired(a, p, q, r);
    CanonFork(a, p, q, r);
    GraphForked(nodes, st);
    ForkedHidden(nodes, st, mode);
  }

  lemma InterleavedWired(a: NodeKey, id: NodeKey, p: string, q: string, r: string)
    requires a.Source? && id.Inputs() == [0]
    ensures Wired(Interleaved(a, id, p, q, r))
  {
  }

  /** The graphs handed to fusion differ. */
  ghost predicate FusedApart(nodes: seq<NodeKey>, outs: seq<NodeId>, st: State, engine: RewriteEngine) {
    && SoundEngine(engine) && Requestable(nodes, outs)
    && AllBelow(outs, |st.mapping|) && Requestable(st.canonNodes, Renumber(st.mapping, outs))
    && DedupedGraph(st.canonNodes, Renumber(st.mapping, outs), engine) != DedupedGraph(nodes, outs, engine)
  }

  /** The reduced nodes and outputs do not. */
  ghost predicate ReducedAlike(nodes: seq<NodeKey>, outs: seq<NodeId>, st: State, engine: RewriteEngine, mode: FusionMode) {
    && SoundEngine(engine) && Requestable(nodes, outs)
    && AllBelow(outs, |st.mapping|) && Requestable(st.canonNodes, Renumber(st.mapping, outs))
    && var one := ReduceNodes(nodes, outs, engine, mode);
       var inc := ReduceNodes(st.canonNodes, Renumber(st.mapping, outs), engine, mode);
       SameKeys(inc.nodes, one.nodes) && inc.outputs == one.outputs
  }

  lemma DisorderFusedApart(nodes: seq<NodeKey>, outs: seq<NodeId>, st: State, engine: RewriteEngine)
    requires WellRecorded(nodes, st) && SaturatedEngine(engine) && Disordered(nodes, outs, st.mapping)
    ensures FusedApart(nodes, outs, st, engine)
  {
    SameGraphIffHarmless(nodes, outs, st, engine);
    assert !UnneededHarmless(nodes, outs, st.mapping);
  }

  lemma HiddenReducedAlike(nodes: seq<NodeKey>, outs: seq<NodeId>, st: State, engine: RewriteEngine, mode: FusionMode)
    requires WellRecorded(nodes, st) && AllBelow(outs, |nodes|) && SaturatedEngine(engine)
    requires |st.mapping| == |nodes| && UnneededHidden(nodes, outs, st, mode)
    ensures ReducedAlike(nodes, outs, st, engine, mode)
  {
    SameReductionIffHidden(nodes, outs, st, engine, mode);
  }

  /** On such a recording finishing and one-shot reduction fuse different graphs, and to the same nodes and
      outputs in both modes. */
  lemma HiddenNotHarmless(a: NodeKey, id: NodeKey, p: string, q: string, r: string, engine: RewriteEngine, mode: FusionMode)
      returns (st: State)
    requires a.Source? && IsIdentity(id) && id.ins == [0] && p != q && SaturatedEngine(engine)
    ensures Consumed(Interleaved(a, id, p, q, r), st)
    ensures FusedApart(Interleaved(a, id, p, q, r), OUTS, st, engine)
    ensures ReducedAlike(Interleaved(a, id, p, q, r), OUTS, st, engine, mode)
  {
    st := InterleavedRecorded(a, id, p, q, r);
    InterleavedWired(a, id, p, q, r);
    WiredDisorder(Interleaved(a, id, p, q, r), st.mapping);
    DisorderFusedApart(Interleaved(a, id, p, q, r), OUTS, st, engine);
    CanonHidden(a, p, q, r, Interleaved(a, id, p, q, r), st, mode);
    HiddenReducedAlike(Interleaved(a, id, p, q, r), OUTS, st, engine, mode);
  }

  lemma ZeroOver(x: NodeId) returns (id: NodeKey)
    ensures id.Op? && id.name == Operators.ADD && |id.params| == 2 && id.ins == [x] && IsIdentity(id)
    ensures id.params[0] == Entry(Operators.SCALAR, Float(0)) && id.params[1] == Entry(Operators.SIDE, Str(Operators.RIGHT))
  {
    var k := Limits.AddZero();
    IdentityByHead(k, [x]);
    id := k.WithInputs([x]);
  }

  lemma TwoOps() returns (p: string, q: string)
    ensures p == "neg" && q == "inc" && p != q
  {
    p, q := "neg", "inc";
    assert p[0] != q[0];
  }

  /** For instance with an unneeded negation of `a + 0` recorded before the outputs `inc(a)` and `abs(neg(a))`. */
  lemma HiddenInstance(engine: RewriteEngine, mode: FusionMode)
      returns (a: NodeKey, id: NodeKey, p: string, q: string, r: string, st: State)
    requires SaturatedEngine(engine)
    ensures a == Source("a", []) && p == "neg" && q == "inc" && r == "abs" && id.Op? && id.name == Operators.ADD
    ensures |id.params| == 2 && id.params[0] == Entry(Operators.SCALAR, Float(0)) && id.params[1] == Entry(Operators.SIDE, Str(Operators.RIGHT))
    ensures id.ins == [0] && Consumed(Interleaved(a, id, p, q, r), st)
    ensures FusedApart(Interleaved(a, id, p, q, r), OUTS, st, engine)
    ensures ReducedAlike(Interleaved(a, id, p, q, r), OUTS, st, engine, mode)
  {
    a := Source("a", []);
    id := ZeroOver(0);
    p, q := TwoOps();
    r := "abs";
    st := HiddenNotHarmless(a, id, p, q, r, engine, mode);
  }
}
