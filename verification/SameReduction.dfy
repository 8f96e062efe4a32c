/** Exactly when finishing an incremental reduction and reducing in one shot give the same reduced graph.

Both fuse one graph, listed in two orders and with the operands of a commuting op possibly swapped.
Fusion shows some of that and hides the rest. */
module SameReduction {
  import opened Selection
  import opened Cells
  import opened Node
  import opened Arena
  import opened Engine
  import opened Listings
  import opened Incremental
  import opened Dce
  import opened Fusion
  import opened Stages
  import opened Reduce
  import opened OneShot
  import opened Reordering
  import opened FusionOrder
  import opened FusedAlike
  import opened Agreement
  import Meaning

  /** A template stands for a recorded operator. */
  lemma TemplateHead(nodes: seq<NodeKey>, outs: seq<NodeId>, token: string) returns (i: nat)
    requires TopologicalKeys(nodes) && token in Templates(Kept(nodes, outs))
    ensures i < |nodes| && nodes[i].Token() == token && Templates(Kept(nodes, outs))[token].Head() == nodes[i].Head()
  {
    var p := TemplateFrom(Kept(nodes, outs), token);
    i := Meaning.KeptHead(nodes, outs, p);
  }

  lemma CanonHead(nodes: seq<NodeKey>, st: State, c: nat) returns (i: nat)
    requires WellRecorded(nodes, st) && c < |st.canonNodes|
    ensures i < |nodes| && nodes[i].Token() == st.canonNodes[c].Token() && nodes[i].Head() == st.canonNodes[c].Head()
  {
    RunFirstUses(nodes, st);
    i := CanonFrom(nodes, st, c);
    HeadIdempotent(nodes[i], st.canonNodes[c].Inputs());
    TokenOfHead(nodes[i], st.canonNodes[c].Inputs());
  }

  /** Both ways rebuild boundaries of one operator under a token. */
  lemma BothTemplatesAgree(nodes: seq<NodeKey>, outs: seq<NodeId>, st: State)
    requires WellRecorded(nodes, st) && TopologicalKeys(st.canonNodes) && AllBelow(outs, |st.mapping|)
    ensures AgreeingTemplates(Templates(Kept(st.canonNodes, Renumber(st.mapping, outs))), Templates(Kept(nodes, outs)))
  {
    var t, t' := Templates(Kept(st.canonNodes, Renumber(st.mapping, outs))), Templates(Kept(nodes, outs));
    forall token | token in t && token in t'
      ensures t[token].Head() == t'[token].Head()
    {
      var c := TemplateHead(st.canonNodes, Renumber(st.mapping, outs), token);
      var i := CanonHead(nodes, st, c);
      var j := TemplateHead(nodes, outs, token);
    }
  }

  // ---- when they reduce to the same nodes ----

  /** The graph that finishing fuses. */
  ghost function FinishedGraph(nodes: seq<NodeKey>, outs: seq<NodeId>, st: State): (g: EngineGraph)
    requires WellRecorded(nodes, st) && AllBelow(outs, |nodes|)
    ensures WellFormed(g) && CellsOf(g) == TokenCells(KeptCanon(nodes, outs, st)) && |g.nodes| == |KeptCanon(nodes, outs, st)|
    ensures g.outputs == Renumber(CanonPlaces(nodes, outs, st), outs)
  {
    CanonGraphWellFormed(nodes, outs, st);
    var canon, outs' := st.canonNodes, Renumber(st.mapping, outs);
    KeptTopological(canon, outs');
    assert KeptOutputs(canon, outs') == Renumber(CanonPlaces(nodes, outs, st), outs);
    EngineGraphCells(Kept(canon, outs'), KeptOutputs(canon, outs'));
    ToEngineGraph(KeptCanon(nodes, outs, st), Renumber(CanonPlaces(nodes, outs, st), outs))
  }

  lemma NeededInRange(nodes: seq<NodeKey>, outs: seq<NodeId>, st: State, needed: State)
    requires FedNeeded(nodes, outs, st, needed)
    ensures TopologicalKeys(needed.canonNodes) && AllBelow(Renumber(NeededPlaces(nodes, outs, st, needed), outs), |needed.canonNodes|)
  {
    RunKeepsInv(Kept(nodes, outs), needed);
    NeededInOrder(nodes, outs, st, needed);
    OutputsReachable(nodes, outs);
    forall k | 0 <= k < |outs|
      ensures NeededPlaces(nodes, outs, st, needed)[outs[k]] < |needed.canonNodes|
    {
      NeededAt(nodes, outs, st, needed, outs[k]);
      assert LiveMask(nodes, outs, st.mapping)[outs[k]];
    }
  }

  /** The graph that one-shot reduction fuses. */
  ghost function NeededGraph(nodes: seq<NodeKey>, outs: seq<NodeId>, st: State, needed: State): (g: EngineGraph)
    requires FedNeeded(nodes, outs, st, needed)
    ensures WellFormed(g) && CellsOf(g) == TokenCells(needed.canonNodes) && |g.nodes| == |needed.canonNodes|
    ensures g.outputs == Renumber(NeededPlaces(nodes, outs, st, needed), outs)
  {
    NeededInRange(nodes, outs, st, needed);
    EngineGraphCells(needed.canonNodes, Renumber(NeededPlaces(nodes, outs, st, needed), outs));
    ToEngineGraph(needed.canonNodes, Renumber(NeededPlaces(nodes, outs, st, needed), outs))
  }

  /** From places of one graph to places of the other. */
  ghost function GraphMoves(nodes: seq<NodeKey>, outs: seq<NodeId>, st: State, needed: State): (f: seq<nat>)
    requires FedNeeded(nodes, outs, st, needed)
    ensures |f| == |KeptCanon(nodes, outs, st)|
  {
    CanonInOrder(nodes, outs, st);
    Moves(LiveMask(nodes, outs, st.mapping), CanonPlaces(nodes, outs, st), NeededPlaces(nodes, outs, st, needed),
          |KeptCanon(nodes, outs, st)|)
  }

  /** The node at a place, and where it moves. */
  lemma GraphNode(nodes: seq<NodeKey>, outs: seq<NodeId>, st: State, needed: State, p: nat) returns (i: nat)
    requires FedNeeded(nodes, outs, st, needed) && p < |KeptCanon(nodes, outs, st)|
    ensures i < |nodes| && LiveClass(nodes, outs, st.mapping, i) && CanonPlaces(nodes, outs, st)[i] == p
    ensures GraphMoves(nodes, outs, st, needed)[p] == NeededPlaces(nodes, outs, st, needed)[i]
  {
    CanonInOrder(nodes, outs, st);
    assert Taken(LiveMask(nodes, outs, st.mapping), CanonPlaces(nodes, outs, st), p);
    i := Occupant(LiveMask(nodes, outs, st.mapping), CanonPlaces(nodes, outs, st), p);
  }

  lemma GraphMovesAt(nodes: seq<NodeKey>, outs: seq<NodeId>, st: State, needed: State, i: nat)
    requires FedNeeded(nodes, outs, st, needed) && i < |nodes| && LiveClass(nodes, outs, st.mapping, i)
    ensures CanonPlaces(nodes, outs, st)[i] < |KeptCanon(nodes, outs, st)|
    ensures GraphMoves(nodes, outs, st, needed)[CanonPlaces(nodes, outs, st)[i]] == NeededPlaces(nodes, outs, st, needed)[i]
  {
    CanonLists(nodes, outs, st);
    NeededLists(nodes, outs, st, needed);
    MovesAt(TokenTheory(), TokenCells(nodes), st.mapping, LiveMask(nodes, outs, st.mapping),
            FirstRecorded(st.mapping), CanonPlaces(nodes, outs, st), |KeptCanon(nodes, outs, st)|,
            FirstNeeded(nodes, outs, st.mapping), NeededPlaces(nodes, outs, st, needed), |needed.canonNodes|, i);
  }

  lemma GraphBijection(nodes: seq<NodeKey>, outs: seq<NodeId>, st: State, needed: State)
    requires FedNeeded(nodes, outs, st, needed)
    ensures var f := GraphMoves(nodes, outs, st, needed);
      |f| == |needed.canonNodes| && AllBelow(f, |f|) && Injective(f) && Onto(f, |f|)
  {
    CanonLists(nodes, outs, st);
    NeededLists(nodes, outs, st, needed);
    MovesBijective(TokenTheory(), TokenCells(nodes), st.mapping, LiveMask(nodes, outs, st.mapping),
                   FirstRecorded(st.mapping), CanonPlaces(nodes, outs, st), |KeptCanon(nodes, outs, st)|,
                   FirstNeeded(nodes, outs, st.mapping), NeededPlaces(nodes, outs, st, needed), |needed.canonNodes|);
    BijectionLength(GraphMoves(nodes, outs, st, needed), |needed.canonNodes|);
  }

  lemma GraphNodeMoved(nodes: seq<NodeKey>, outs: seq<NodeId>, st: State, needed: State, p: nat)
    requires FedNeeded(nodes, outs, st, needed) && p < |KeptCanon(nodes, outs, st)|
    ensures var f := GraphMoves(nodes, outs, st, needed);
      f[p] < |needed.canonNodes|
      && SameNode(f, FinishedGraph(nodes, outs, st).nodes[p], NeededGraph(nodes, outs, st, needed).nodes[f[p]])
  {
    var i := GraphNode(nodes, outs, st, needed, p);
    CanonLists(nodes, outs, st);
    NeededLists(nodes, outs, st, needed);
    ListedMoved(TokenTheory(), TokenCells(nodes), st.mapping, LiveMask(nodes, outs, st.mapping),
                FirstRecorded(st.mapping), CanonPlaces(nodes, outs, st), TokenCells(KeptCanon(nodes, outs, st)),
                FirstNeeded(nodes, outs, st.mapping), NeededPlaces(nodes, outs, st, needed), TokenCells(needed.canonNodes), i);
    BoundaryByToken(KeptCanon(nodes, outs, st)[p]);
    BoundaryByToken(needed.canonNodes[NeededPlaces(nodes, outs, st, needed)[i]]);
  }

  /** Both ways fuse one graph, listed in two orders. */
  lemma GraphsReorder(nodes: seq<NodeKey>, outs: seq<NodeId>, st: State, needed: State)
    requires FedNeeded(nodes, outs, st, needed)
    ensures Reorders(FinishedGraph(nodes, outs, st), GraphMoves(nodes, outs, st, needed), NeededGraph(nodes, outs, st, needed))
  {
    var g, f, g' := FinishedGraph(nodes, outs, st), GraphMoves(nodes, outs, st, needed), NeededGraph(nodes, outs, st, needed);
    GraphBijection(nodes, outs, st, needed);
    forall p {:trigger f[p]} | 0 <= p < |f|
      ensures SameNode(f, g.nodes[p], g'.nodes[f[p]])
    {
      GraphNodeMoved(nodes, outs, st, needed, p);
    }
    OutputsReachable(nodes, outs);
    forall k | 0 <= k < |outs|
      ensures g.outputs[k] < |f| && g'.outputs[k] == f[g.outputs[k]]
    {
      NeededAt(nodes, outs, st, needed, outs[k]);
      GraphMovesAt(nodes, outs, st, needed, outs[k]);
    }
  }

  lemma GraphTermsMatch(nodes: seq<NodeKey>, outs: seq<NodeId>, st: State, needed: State)
    requires FedNeeded(nodes, outs, st, needed)
    ensures TermsMatch(FinishedGraph(nodes, outs, st), GraphMoves(nodes, outs, st, needed), NeededGraph(nodes, outs, st, needed))
  {
    var g, f, g' := FinishedGraph(nodes, outs, st), GraphMoves(nodes, outs, st, needed), NeededGraph(nodes, outs, st, needed);
    forall p, q | 0 <= p < |g.nodes| && 0 <= q < |g'.nodes| && Unfold(CellsOf(g), p) == Unfold(CellsOf(g'), q)
      ensures q == f[p]
    {
      TermMatch(nodes, outs, st, needed, p, q);
    }
  }

  lemma TermMatch(nodes: seq<NodeKey>, outs: seq<NodeId>, st: State, needed: State, p: nat, q: nat)
    requires FedNeeded(nodes, outs, st, needed) && p < |KeptCanon(nodes, outs, st)| && q < |needed.canonNodes|
    requires Unfold(CellsOf(FinishedGraph(nodes, outs, st)), p) == Unfold(CellsOf(NeededGraph(nodes, outs, st, needed)), q)
    ensures q == GraphMoves(nodes, outs, st, needed)[p]
  {
    var f, live := st.mapping, LiveMask(nodes, outs, st.mapping);
    var i := GraphNode(nodes, outs, st, needed, p);
    NeededInOrder(nodes, outs, st, needed);
    assert Taken(live, NeededPlaces(nodes, outs, st, needed), q);
    var j := Occupant(live, NeededPlaces(nodes, outs, st, needed), q);
    CanonLists(nodes, outs, st);
    NeededLists(nodes, outs, st, needed);
    var h, h' := TokenCells(KeptCanon(nodes, outs, st)), TokenCells(needed.canonNodes);
    ListedForm(TokenTheory(), TokenCells(nodes), f, live, FirstRecorded(f), CanonPlaces(nodes, outs, st), h, i);
    ListedForm(TokenTheory(), TokenCells(nodes), f, live, FirstNeeded(nodes, outs, f), NeededPlaces(nodes, outs, st, needed), h', j);
    FormOfTerm(TokenTheory(), h, p, h', q);
    FormClass(TokenTheory(), TokenCells(nodes), f, i, j);
    SamePlace(TokenTheory(), TokenCells(nodes), f, live, FirstNeeded(nodes, outs, f), NeededPlaces(nodes, outs, st, needed),
              |needed.canonNodes|, i, j);
  }

  /** Where a needed node's class is in the graph that finishing fuses. */
  ghost function PlaceOf(nodes: seq<NodeKey>, outs: seq<NodeId>, st: State, i: nat): (p: nat)
    requires WellRecorded(nodes, st) && AllBelow(outs, |nodes|) && i < |nodes| && Reachable(nodes, outs, i)
    ensures p < |KeptCanon(nodes, outs, st)| && p == CanonPlaces(nodes, outs, st)[i]
  {
    CanonInOrder(nodes, outs, st);
    assert LiveMask(nodes, outs, st.mapping)[i];
    CanonPlaces(nodes, outs, st)[i]
  }

  /** Two needed nodes whose order shows after fusion: they are fused together, or both are the last members
      of what they are fused into. */
  ghost predicate OrderMatters(nodes: seq<NodeKey>, outs: seq<NodeId>, st: State, mode: FusionMode, i: nat, j: nat)
    requires WellRecorded(nodes, st) && AllBelow(outs, |nodes|)
    requires i < |nodes| && j < |nodes| && Reachable(nodes, outs, i) && Reachable(nodes, outs, j)
  {
    OrderShows(Partition(FinishedGraph(nodes, outs, st), mode), PlaceOf(nodes, outs, st, i), PlaceOf(nodes, outs, st, j))
  }

  ghost predicate OrderKept(nodes: seq<NodeKey>, outs: seq<NodeId>, st: State, mode: FusionMode, i: nat, j: nat)
    requires WellRecorded(nodes, st) && AllBelow(outs, |nodes|) && |st.mapping| == |nodes|
    requires i < |nodes| && j < |nodes| && Reachable(nodes, outs, i) && Reachable(nodes, outs, j)
  {
    OrderMatters(nodes, outs, st, mode, i, j) ==> InOneOrder(nodes, outs, st.mapping, i, j)
  }

  /** The unneeded nodes do not show: for every needed node the first recorded and the first needed member of
      its class have the same canonical inputs in the same order, and wherever the order of two needed nodes
      matters, their classes come in one order by first recorded and by first needed member. */
  ghost predicate UnneededHidden(nodes: seq<NodeKey>, outs: seq<NodeId>, st: State, mode: FusionMode)
    requires WellRecorded(nodes, st) && AllBelow(outs, |nodes|) && |st.mapping| == |nodes|
  {
    && (forall i :: 0 <= i < |nodes| && Reachable(nodes, outs, i) ==>
          KeptAlike(nodes, outs, st.mapping, i))
    && (forall i, j :: 0 <= i < |nodes| && 0 <= j < |nodes| && Reachable(nodes, outs, i) && Reachable(nodes, outs, j) ==>
          OrderKept(nodes, outs, st, mode, i, j))
  }

  /** A class of the fused graph has a needed node, with the same place and the same members kept. */
  lemma NeededNode(nodes: seq<NodeKey>, outs: seq<NodeId>, st: State, needed: State, p: nat) returns (i: nat)
    requires FedNeeded(nodes, outs, st, needed) && p < |KeptCanon(nodes, outs, st)|
    ensures i < |nodes| && Reachable(nodes, outs, i) && PlaceOf(nodes, outs, st, i) == p
    ensures GraphMoves(nodes, outs, st, needed)[p] == NeededPlaces(nodes, outs, st, needed)[i]
  {
    var j := GraphNode(nodes, outs, st, needed, p);
    i := FirstLive(nodes, outs, st.mapping, j);
    GraphMovesAt(nodes, outs, st, needed, i);
    assert CanonPlaces(nodes, outs, st)[i] == CanonPlaces(nodes, outs, st)[j];
  }

  lemma OperandsAt(nodes: seq<NodeKey>, outs: seq<NodeId>, st: State, needed: State, i: nat)
    requires FedNeeded(nodes, outs, st, needed) && i < |nodes| && Reachable(nodes, outs, i)
    ensures var p, f := PlaceOf(nodes, outs, st, i), GraphMoves(nodes, outs, st, needed);
      OperandsMoved(f, FinishedGraph(nodes, outs, st).nodes[p], NeededGraph(nodes, outs, st, needed), f[p])
      <==> KeptAlike(nodes, outs, st.mapping, i)
  {
    var live := LiveMask(nodes, outs, st.mapping);
    assert live[i];
    GraphMovesAt(nodes, outs, st, needed, i);
    GraphNodeMoved(nodes, outs, st, needed, PlaceOf(nodes, outs, st, i));
    CanonLists(nodes, outs, st);
    NeededLists(nodes, outs, st, needed);
    ListedOperands(TokenTheory(), TokenCells(nodes), st.mapping, live,
                   FirstRecorded(st.mapping), CanonPlaces(nodes, outs, st), TokenCells(KeptCanon(nodes, outs, st)),
                   FirstNeeded(nodes, outs, st.mapping), NeededPlaces(nodes, outs, st, needed), TokenCells(needed.canonNodes), i);
  }

  /** The order of two places. */
  lemma PlaceOrder(nodes: seq<NodeKey>, outs: seq<NodeId>, st: State, i: nat, j: nat)
    requires WellRecorded(nodes, st) && AllBelow(outs, |nodes|)
    requires i < |nodes| && j < |nodes| && Reachable(nodes, outs, i) && Reachable(nodes, outs, j)
    ensures |st.mapping| == |nodes|
    ensures (PlaceOf(nodes, outs, st, i) < PlaceOf(nodes, outs, st, j)) == (Rep(st.mapping, i) < Rep(st.mapping, j))
  {
    CanonInOrder(nodes, outs, st);
    var live := LiveMask(nodes, outs, st.mapping);
    assert live[i] && live[j];
    OrderOf(live, FirstRecorded(st.mapping), CanonPlaces(nodes, outs, st), |KeptCanon(nodes, outs, st)|, i, j);
  }

  /** And of where they move. */
  lemma MovedOrder(nodes: seq<NodeKey>, outs: seq<NodeId>, st: State, needed: State, i: nat, j: nat)
    requires FedNeeded(nodes, outs, st, needed)
    requires i < |nodes| && j < |nodes| && Reachable(nodes, outs, i) && Reachable(nodes, outs, j)
    ensures var f := GraphMoves(nodes, outs, st, needed);
      (f[PlaceOf(nodes, outs, st, i)] < f[PlaceOf(nodes, outs, st, j)])
        == (FirstLive(nodes, outs, st.mapping, i) < FirstLive(nodes, outs, st.mapping, j))
  {
    GraphMovesAt(nodes, outs, st, needed, i);
    GraphMovesAt(nodes, outs, st, needed, j);
    NeededOrder(nodes, outs, st, needed, i, j);
  }

  lemma HiddenOperands(nodes: seq<NodeKey>, outs: seq<NodeId>, st: State, needed: State, mode: FusionMode, p: nat)
    requires FedNeeded(nodes, outs, st, needed) && UnneededHidden(nodes, outs, st, mode) && p < |KeptCanon(nodes, outs, st)|
    ensures var f := GraphMoves(nodes, outs, st, needed);
      OperandsMoved(f, FinishedGraph(nodes, outs, st).nodes[p], NeededGraph(nodes, outs, st, needed), f[p])
  {
    var i := NeededNode(nodes, outs, st, needed, p);
    assert KeptAlike(nodes, outs, st.mapping, i);
    OperandsAt(nodes, outs, st, needed, i);
  }

  lemma KeptOrder(nodes: seq<NodeKey>, outs: seq<NodeId>, st: State, mode: FusionMode, i: nat, j: nat)
    requires WellRecorded(nodes, st) && AllBelow(outs, |nodes|) && |st.mapping| == |nodes| && UnneededHidden(nodes, outs, st, mode)
    requires i < |nodes| && j < |nodes| && Reachable(nodes, outs, i) && Reachable(nodes, outs, j)
    requires OrderShows(Partition(FinishedGraph(nodes, outs, st), mode), PlaceOf(nodes, outs, st, i), PlaceOf(nodes, outs, st, j))
    ensures (Rep(st.mapping, i) < Rep(st.mapping, j))
      == (FirstLive(nodes, outs, st.mapping, i) < FirstLive(nodes, outs, st.mapping, j))
  {
    assert OrderKept(nodes, outs, st, mode, i, j);
    assert OrderMatters(nodes, outs, st, mode, i, j);
  }

  lemma HiddenOrder(nodes: seq<NodeKey>, outs: seq<NodeId>, st: State, needed: State, mode: FusionMode, p: nat, q: nat)
    requires FedNeeded(nodes, outs, st, needed) && UnneededHidden(nodes, outs, st, mode)
    requires p < |KeptCanon(nodes, outs, st)| && q < |KeptCanon(nodes, outs, st)|
    requires OrderShows(Partition(FinishedGraph(nodes, outs, st), mode), p, q)
    ensures var f := GraphMoves(nodes, outs, st, needed); (p < q) == (f[p] < f[q])
  {
    var i := NeededNode(nodes, outs, st, needed, p);
    var j := NeededNode(nodes, outs, st, needed, q);
    KeptOrder(nodes, outs, st, mode, i, j);
    PlaceOrder(nodes, outs, st, i, j);
    MovedOrder(nodes, outs, st, needed, i, j);
  }

  lemma HiddenOperandsAgree(nodes: seq<NodeKey>, outs: seq<NodeId>, st: State, needed: State, mode: FusionMode)
    requires FedNeeded(nodes, outs, st, needed) && UnneededHidden(nodes, outs, st, mode)
    ensures ExactOperands(FinishedGraph(nodes, outs, st), GraphMoves(nodes, outs, st, needed), NeededGraph(nodes, outs, st, needed))
  {
    var g, f := FinishedGraph(nodes, outs, st), GraphMoves(nodes, outs, st, needed);
    forall p {:trigger f[p]} | 0 <= p < |f|
      ensures OperandsMoved(f, g.nodes[p], NeededGraph(nodes, outs, st, needed), f[p])
    {
      HiddenOperands(nodes, outs, st, needed, mode, p);
    }
  }

  lemma HiddenOrderAgrees(nodes: seq<NodeKey>, outs: seq<NodeId>, st: State, needed: State, mode: FusionMode)
    requires FedNeeded(nodes, outs, st, needed) && UnneededHidden(nodes, outs, st, mode)
    ensures ShownOrder(Partition(FinishedGraph(nodes, outs, st), mode), GraphMoves(nodes, outs, st, needed))
  {
    var f, part := GraphMoves(nodes, outs, st, needed), Partition(FinishedGraph(nodes, outs, st), mode);
    forall p, q | 0 <= p < |f| && 0 <= q < |f| && OrderShows(part, p, q)
      ensures p < q <==> f[p] < f[q]
    {
      HiddenOrder(nodes, outs, st, needed, mode, p, q);
    }
  }

  lemma OrderAgrees(nodes: seq<NodeKey>, outs: seq<NodeId>, st: State, needed: State, mode: FusionMode, i: nat, j: nat)
    requires FedNeeded(nodes, outs, st, needed)
    requires ShownOrder(Partition(FinishedGraph(nodes, outs, st), mode), GraphMoves(nodes, outs, st, needed))
    requires i < |nodes| && j < |nodes| && Reachable(nodes, outs, i) && Reachable(nodes, outs, j)
    ensures OrderKept(nodes, outs, st, mode, i, j)
  {
    PlaceOrder(nodes, outs, st, i, j);
    MovedOrder(nodes, outs, st, needed, i, j);
    var p, q := PlaceOf(nodes, outs, st, i), PlaceOf(nodes, outs, st, j);
    if OrderShows(Partition(FinishedGraph(nodes, outs, st), mode), p, q) {
      assert p < q <==> GraphMoves(nodes, outs, st, needed)[p] < GraphMoves(nodes, outs, st, needed)[q];
    }
  }

  lemma AgreementHidden(nodes: seq<NodeKey>, outs: seq<NodeId>, st: State, needed: State, mode: FusionMode)
    requires FedNeeded(nodes, outs, st, needed)
    requires ExactOperands(FinishedGraph(nodes, outs, st), GraphMoves(nodes, outs, st, needed), NeededGraph(nodes, outs, st, needed))
    requires ShownOrder(Partition(FinishedGraph(nodes, outs, st), mode), GraphMoves(nodes, outs, st, needed))
    ensures UnneededHidden(nodes, outs, st, mode)
  {
    forall i | 0 <= i < |nodes| && Reachable(nodes, outs, i)
      ensures KeptAlike(nodes, outs, st.mapping, i)
    {
      OperandsAt(nodes, outs, st, needed, i);
    }
    forall i, j | 0 <= i < |nodes| && 0 <= j < |nodes| && Reachable(nodes, outs, i) && Reachable(nodes, outs, j)
      ensures OrderKept(nodes, outs, st, mode, i, j)
    {
      OrderAgrees(nodes, outs, st, needed, mode, i, j);
    }
  }

  /** Behind a saturated engine, and in either fusion mode, finishing an incremental reduction and reducing in
      one shot give the same nodes, under interning's equality, and the same outputs, if and only if the
      unneeded nodes are hidden. */
  lemma SameReductionIffHidden(nodes: seq<NodeKey>, outs: seq<NodeId>, st: State, engine: RewriteEngine, mode: FusionMode)
    requires WellRecorded(nodes, st) && AllBelow(outs, |nodes|) && SaturatedEngine(engine)
    ensures SoundEngine(engine) && Reducible(nodes, outs)
    ensures |st.mapping| == |nodes| && Reducible(st.canonNodes, Renumber(st.mapping, outs))
    ensures var one := ReduceNodes(nodes, outs, engine, mode);
      var inc := ReduceNodes(st.canonNodes, Renumber(st.mapping, outs), engine, mode);
      SameKeys(inc.nodes, one.nodes) && inc.outputs == one.outputs <==> UnneededHidden(nodes, outs, st, mode)
  {
    SaturatedIsSound(engine);
    RunKeepsInv(nodes, st);
    RunFirstUses(nodes, st);
    var needed := KeptWellRecorded(nodes, outs);
    RunKeepsInv(Kept(nodes, outs), needed);
    FinishingFuses(nodes, outs, st, engine);
    ReducingFuses(nodes, outs, st, needed, engine);
    var canon, outs' := st.canonNodes, Renumber(st.mapping, outs);
    FusedBothWays(nodes, outs, st, needed, mode, Templates(Kept(canon, outs')), Templates(Kept(nodes, outs)), engine);
  }

  lemma FusedBothWays(nodes: seq<NodeKey>, outs: seq<NodeId>, st: State, needed: State, mode: FusionMode,
                      t: map<string, NodeKey>, t': map<string, NodeKey>, engine: RewriteEngine)
    requires FedNeeded(nodes, outs, st, needed) && SoundEngine(engine)
    requires Reducible(nodes, outs) && Reducible(st.canonNodes, Renumber(st.mapping, outs))
    requires DedupedGraph(st.canonNodes, Renumber(st.mapping, outs), engine) == FinishedGraph(nodes, outs, st)
    requires DedupedGraph(nodes, outs, engine) == NeededGraph(nodes, outs, st, needed)
    requires t == Templates(Kept(st.canonNodes, Renumber(st.mapping, outs))) && t' == Templates(Kept(nodes, outs))
    ensures var g, g' := FinishedGraph(nodes, outs, st), NeededGraph(nodes, outs, st, needed);
      var part, part' := Partition(g, mode), Partition(g', mode);
      && Fusable(g, part, t) && Fusable(g', part', t')
      && (SameKeys(FusedNodes(g, part, t), FusedNodes(g', part', t')) && FusedOutputs(g, part) == FusedOutputs(g', part')
          <==> UnneededHidden(nodes, outs, st, mode))
  {
    var g, f, g' := FinishedGraph(nodes, outs, st), GraphMoves(nodes, outs, st, needed), NeededGraph(nodes, outs, st, needed);
    TemplatesServe(nodes, outs, engine);
    TemplatesServe(st.canonNodes, Renumber(st.mapping, outs), engine);
    BothTemplatesAgree(nodes, outs, st);
    PartitionValid(g, mode);
    PartitionValid(g', mode);
    GraphsReorder(nodes, outs, st, needed);
    PartitionMoved(g, f, g', mode);
    GraphTermsMatch(nodes, outs, st, needed);
    FusedSameIff(g, Partition(g, mode), t, f, g', Partition(g', mode), t');
    if UnneededHidden(nodes, outs, st, mode) {
      HiddenOperandsAgree(nodes, outs, st, needed, mode);
      HiddenOrderAgrees(nodes, outs, st, needed, mode);
    }
    if ExactOperands(g, f, g') && ShownOrder(Partition(g, mode), f) {
      AgreementHidden(nodes, outs, st, needed, mode);
    }
  }

  /** Nodes that are harmless are hidden, whatever is fused. */
  lemma HarmlessIsHidden(nodes: seq<NodeKey>, outs: seq<NodeId>, st: State, mode: FusionMode)
    requires WellRecorded(nodes, st) && AllBelow(outs, |nodes|) && |st.mapping| == |nodes|
    requires UnneededHarmless(nodes, outs, st.mapping)
    ensures UnneededHidden(nodes, outs, st, mode)
  {
  }
}
