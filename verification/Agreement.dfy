/** Exactly when finishing an incremental reduction and reducing in one shot fuse the same graph.

Both keep one node for every class of provably equal nodes that holds a needed one.  The incremental
reducer keeps the first recorded member, needed or not; one-shot reduction the first needed one. */
module Agreement {
  import opened Wrappers
  import opened Selection
  import opened Terms
  import opened Cells
  import opened Node
  import opened Arena
  import opened Engine
  import opened LocalCanon
  import opened Listings
  import opened Incremental
  import opened Dce
  import opened Reduce
  import opened OneShot

  // ---- live classes and the members kept for them ----

  /** The class of the node holds a needed node. */
  ghost predicate LiveClass(nodes: seq<NodeKey>, outs: seq<NodeId>, f: seq<nat>, i: nat)
    requires |f| == |nodes| && i < |nodes|
  {
    exists j :: 0 <= j < |nodes| && Reachable(nodes, outs, j) && f[j] == f[i]
  }

  ghost function LiveFrom(nodes: seq<NodeKey>, outs: seq<NodeId>, f: seq<nat>, i: nat, j: nat): (l: nat)
    requires |f| == |nodes| && i < |nodes| && j <= |nodes|
    requires exists l :: j <= l < |nodes| && Reachable(nodes, outs, l) && f[l] == f[i]
    ensures j <= l < |nodes| && Reachable(nodes, outs, l) && f[l] == f[i]
    ensures forall m :: j <= m < l ==> !(Reachable(nodes, outs, m) && f[m] == f[i])
    decreases |nodes| - j
  {
    if Reachable(nodes, outs, j) && f[j] == f[i] then j else LiveFrom(nodes, outs, f, i, j + 1)
  }

  /** The first needed node of a live class. */
  ghost function FirstLive(nodes: seq<NodeKey>, outs: seq<NodeId>, f: seq<nat>, i: nat): (l: nat)
    requires |f| == |nodes| && i < |nodes| && LiveClass(nodes, outs, f, i)
    ensures l < |nodes| && Reachable(nodes, outs, l) && f[l] == f[i]
    ensures forall m :: 0 <= m < l ==> !(Reachable(nodes, outs, m) && f[m] == f[i])
  {
    LiveFrom(nodes, outs, f, i, 0)
  }

  ghost function LiveMask(nodes: seq<NodeKey>, outs: seq<NodeId>, f: seq<nat>): (live: seq<bool>)
    requires |f| == |nodes|
    ensures |live| == |nodes|
    ensures forall i {:trigger live[i]} :: 0 <= i < |nodes| ==> live[i] == LiveClass(nodes, outs, f, i)
  {
    seq(|nodes|, i requires 0 <= i < |nodes| => LiveClass(nodes, outs, f, i))
  }

  /** What the incremental reducer keeps: the first recorded members. */
  ghost function FirstRecorded(f: seq<nat>): (first: seq<nat>)
    ensures |first| == |f|
    ensures forall i {:trigger first[i]} :: 0 <= i < |f| ==> first[i] == Rep(f, i)
  {
    seq(|f|, i requires 0 <= i < |f| => Rep(f, i))
  }

  /** What one-shot reduction keeps: the first needed members. */
  ghost function FirstNeeded(nodes: seq<NodeKey>, outs: seq<NodeId>, f: seq<nat>): (first: seq<nat>)
    requires |f| == |nodes|
    ensures |first| == |nodes|
    ensures forall i {:trigger first[i]} :: 0 <= i < |f| && LiveClass(nodes, outs, f, i) ==> first[i] == FirstLive(nodes, outs, f, i)
  {
    seq(|nodes|, i requires 0 <= i < |nodes| => if LiveClass(nodes, outs, f, i) then FirstLive(nodes, outs, f, i) else 0)
  }

  lemma ClassMates(nodes: seq<NodeKey>, outs: seq<NodeId>, f: seq<nat>, i: nat, j: nat)
    requires |f| == |nodes| && i < |nodes| && j < |nodes| && f[i] == f[j]
    ensures LiveClass(nodes, outs, f, i) == LiveClass(nodes, outs, f, j)
    ensures LiveClass(nodes, outs, f, i) ==> FirstLive(nodes, outs, f, i) == FirstLive(nodes, outs, f, j)
  {
  }

  // ---- the members kept are operators over live classes ----

  lemma MappingClasses(nodes: seq<NodeKey>, st: State)
    requires WellRecorded(nodes, st)
    ensures Topological(TokenCells(nodes)) && ClassesAreForms(TokenTheory(), TokenCells(nodes), st.mapping)
  {
    RunKeepsInv(nodes, st);
    forall i, j | 0 <= i < |nodes| && 0 <= j < |nodes|
      ensures st.mapping[i] == st.mapping[j] <==> SameForm(TokenTheory(), TokenCells(nodes), i, j)
    {
      MappingIsForm(nodes, st, i, j);
    }
  }

  /** Equal operators other than identities are over the same classes: if the inputs of one are live, so
      are those of the other. */
  lemma OperandsLive(nodes: seq<NodeKey>, outs: seq<NodeId>, f: seq<nat>, l: nat, m: nat, k: nat)
    requires TopologicalKeys(nodes) && ClassesAreForms(TokenTheory(), TokenCells(nodes), f)
    requires l < |nodes| && m < |nodes| && f[l] == f[m] && Reachable(nodes, outs, l)
    requires !UnaryIdentity(TokenTheory(), TokenCells(nodes)[l]) && !UnaryIdentity(TokenTheory(), TokenCells(nodes)[m])
    requires k < |nodes[m].Inputs()|
    ensures nodes[m].Inputs()[k] < |nodes| && LiveClass(nodes, outs, f, nodes[m].Inputs()[k])
  {
    var k' := OperandMatched(TokenTheory(), TokenCells(nodes), f, l, m, k);
    InputsReachable(nodes, outs, l);
    assert Reachable(nodes, outs, nodes[l].Inputs()[k']);
  }

  lemma RecordedChosen(nodes: seq<NodeKey>, outs: seq<NodeId>, f: seq<nat>, i: nat)
    requires TopologicalKeys(nodes) && ClassesAreForms(TokenTheory(), TokenCells(nodes), f)
    requires i < |nodes| && LiveClass(nodes, outs, f, i)
    ensures Chosen(TokenTheory(), TokenCells(nodes), f, LiveMask(nodes, outs, f), i, Rep(f, i))
    ensures Chosen(TokenTheory(), TokenCells(nodes), f, LiveMask(nodes, outs, f), i, FirstLive(nodes, outs, f, i))
  {
    var r, l := Rep(f, i), FirstLive(nodes, outs, f, i);
    RepFacts(f, i);
    if UnaryIdentity(TokenTheory(), TokenCells(nodes)[r]) {
      IdentityFollows(TokenTheory(), TokenCells(nodes), f, r);
      assert false;
    }
    if UnaryIdentity(TokenTheory(), TokenCells(nodes)[l]) {
      IdentityFollows(TokenTheory(), TokenCells(nodes), f, l);
      InputsReachable(nodes, outs, l);
      assert false;
    }
    forall k | 0 <= k < |nodes[r].Inputs()|
      ensures nodes[r].Inputs()[k] < |nodes| && LiveClass(nodes, outs, f, nodes[r].Inputs()[k])
    {
      OperandsLive(nodes, outs, f, l, r, k);
    }
    forall k | 0 <= k < |nodes[l].Inputs()|
      ensures nodes[l].Inputs()[k] < |nodes| && LiveClass(nodes, outs, f, nodes[l].Inputs()[k])
    {
      OperandsLive(nodes, outs, f, l, l, k);
    }
    ClassMates(nodes, outs, f, i, r);
    ClassMates(nodes, outs, f, i, l);
  }

  lemma BothChoose(nodes: seq<NodeKey>, outs: seq<NodeId>, f: seq<nat>)
    requires TopologicalKeys(nodes) && ClassesAreForms(TokenTheory(), TokenCells(nodes), f)
    ensures Chooses(TokenTheory(), TokenCells(nodes), f, LiveMask(nodes, outs, f), FirstRecorded(f))
    ensures Chooses(TokenTheory(), TokenCells(nodes), f, LiveMask(nodes, outs, f), FirstNeeded(nodes, outs, f))
  {
    var live := LiveMask(nodes, outs, f);
    forall i | 0 <= i < |nodes| && live[i]
      ensures Chosen(TokenTheory(), TokenCells(nodes), f, live, i, FirstRecorded(f)[i])
      ensures Chosen(TokenTheory(), TokenCells(nodes), f, live, i, FirstNeeded(nodes, outs, f)[i])
    {
      RecordedChosen(nodes, outs, f, i);
    }
    forall i, j | 0 <= i < |nodes| && 0 <= j < |nodes| && live[i] && live[j] && f[i] == f[j]
      ensures FirstRecorded(f)[i] == FirstRecorded(f)[j]
      ensures FirstNeeded(nodes, outs, f)[i] == FirstNeeded(nodes, outs, f)[j]
    {
      RepSame(f, i, j);
      ClassMates(nodes, outs, f, i, j);
    }
  }

  // ---- what the incremental reducer fuses ----

  /** A canonical node that the outputs need stands for a needed node. */
  lemma {:induction false} ReachableIsLive(nodes: seq<NodeKey>, outs: seq<NodeId>, st: State, c: nat) returns (j: nat)
    requires WellRecorded(nodes, st) && AllBelow(outs, |nodes|) && |st.mapping| == |nodes|
    requires AllBelow(Renumber(st.mapping, outs), |st.canonNodes|)
    requires c < |st.canonNodes| && Reachable(st.canonNodes, Renumber(st.mapping, outs), c)
    ensures j < |nodes| && Reachable(nodes, outs, j) && st.mapping[j] == c
    decreases |st.canonNodes| - c
  {
    var f, outs' := st.mapping, Renumber(st.mapping, outs);
    if c in outs' {
      var k :| 0 <= k < |outs'| && outs'[k] == c;
      OutputsReachable(nodes, outs);
      j := outs[k];
    } else {
      var d :| c < d < |st.canonNodes| && c in st.canonNodes[d].Inputs() && Reachable(st.canonNodes, outs', d);
      var m := ReachableIsLive(nodes, outs, st, d);
      j := OperandIsLive(nodes, outs, st, m, c);
    }
  }

  /** An input of a canonical node whose class is live is the class of a needed node. */
  lemma OperandIsLive(nodes: seq<NodeKey>, outs: seq<NodeId>, st: State, m: nat, c: nat) returns (j: nat)
    requires WellRecorded(nodes, st) && AllBelow(outs, |nodes|) && |st.mapping| == |nodes|
    requires m < |nodes| && Reachable(nodes, outs, m) && st.mapping[m] < |st.canonNodes|
    requires c in st.canonNodes[st.mapping[m]].Inputs()
    ensures j < |nodes| && Reachable(nodes, outs, j) && st.mapping[j] == c
  {
    var f := st.mapping;
    RunFirstUses(nodes, st);
    MappingClasses(nodes, st);
    var r := CanonFrom(nodes, st, f[m]);
    RepSame(f, m, r);
    RecordedChosen(nodes, outs, f, m);
    var l := FirstLive(nodes, outs, f, m);
    var k :| 0 <= k < |nodes[r].Inputs()| && f[nodes[r].Inputs()[k]] == c;
    var k' := OperandMatched(TokenTheory(), TokenCells(nodes), f, l, r, k);
    InputsReachable(nodes, outs, l);
    j := nodes[l].Inputs()[k'];
  }

  lemma LiveIsReachable(nodes: seq<NodeKey>, outs: seq<NodeId>, st: State, i: nat)
    requires WellRecorded(nodes, st) && AllBelow(outs, |nodes|) && i < |nodes|
    ensures |st.mapping| == |nodes| && AllBelow(Renumber(st.mapping, outs), |st.canonNodes|)
    ensures st.mapping[i] < |st.canonNodes|
    ensures LiveClass(nodes, outs, st.mapping, i)
      <==> Reachable(st.canonNodes, Renumber(st.mapping, outs), st.mapping[i])
  {
    CanonGraphWellFormed(nodes, outs, st);
    RunKeepsInv(nodes, st);
    if LiveClass(nodes, outs, st.mapping, i) {
      CanonReachable(nodes, outs, st, FirstLive(nodes, outs, st.mapping, i));
    }
    if Reachable(st.canonNodes, Renumber(st.mapping, outs), st.mapping[i]) {
      var j := ReachableIsLive(nodes, outs, st, st.mapping[i]);
    }
  }

  /** Ids in order of first use are in the order of the first members. */
  lemma IdOrder(f: seq<nat>, i: nat, j: nat)
    requires f == NewIndex(f) && i < |f| && j < |f|
    ensures f[i] < f[j] <==> Rep(f, i) < Rep(f, j)
  {
    RepIdempotent(f, i);
    RepIdempotent(f, j);
    var r, s := Rep(f, i), Rep(f, j);
    if r <= s {
      RankMonotone(RepMask(f), r, s);
    } else {
      RankMonotone(RepMask(f), s, r);
    }
  }

  /** The needed part of the canonical arena. */
  ghost function KeptCanon(nodes: seq<NodeKey>, outs: seq<NodeId>, st: State): seq<NodeKey>
    requires WellRecorded(nodes, st) && AllBelow(outs, |nodes|)
  {
    CanonGraphWellFormed(nodes, outs, st);
    Kept(st.canonNodes, Renumber(st.mapping, outs))
  }

  /** Where the classes of the recorded nodes are in it. */
  ghost function CanonPlaces(nodes: seq<NodeKey>, outs: seq<NodeId>, st: State): (place: seq<nat>)
    requires WellRecorded(nodes, st) && AllBelow(outs, |nodes|)
    ensures |place| == |nodes| == |st.mapping| && AllBelow(st.mapping, |st.canonNodes|)
    ensures AllBelow(Renumber(st.mapping, outs), |st.canonNodes|)
    ensures forall i {:trigger place[i]} :: 0 <= i < |nodes| ==>
      place[i] == Rank(ReachMask(st.canonNodes, Renumber(st.mapping, outs)), st.mapping[i])
  {
    CanonGraphWellFormed(nodes, outs, st);
    RunKeepsInv(nodes, st);
    seq(|nodes|, i requires 0 <= i < |nodes| => Rank(ReachMask(st.canonNodes, Renumber(st.mapping, outs)), st.mapping[i]))
  }

  lemma CanonTaken(nodes: seq<NodeKey>, outs: seq<NodeId>, st: State, p: nat)
    requires WellRecorded(nodes, st) && AllBelow(outs, |nodes|) && p < |KeptCanon(nodes, outs, st)|
    ensures |st.mapping| == |nodes| && Taken(LiveMask(nodes, outs, st.mapping), CanonPlaces(nodes, outs, st), p)
  {
    CanonGraphWellFormed(nodes, outs, st);
    RunFirstUses(nodes, st);
    var c := KeptFrom(st.canonNodes, Renumber(st.mapping, outs), p);
    var i := CanonFrom(nodes, st, c);
    LiveIsReachable(nodes, outs, st, i);
    assert LiveMask(nodes, outs, st.mapping)[i] && CanonPlaces(nodes, outs, st)[i] == p;
  }

  lemma CanonPlaced(nodes: seq<NodeKey>, outs: seq<NodeId>, st: State, i: nat)
    requires WellRecorded(nodes, st) && AllBelow(outs, |nodes|) && i < |nodes|
    requires |st.mapping| == |nodes| && LiveClass(nodes, outs, st.mapping, i)
    ensures AllBelow(Renumber(st.mapping, outs), |st.canonNodes|) && st.mapping[i] < |st.canonNodes|
    ensures ReachMask(st.canonNodes, Renumber(st.mapping, outs))[st.mapping[i]]
    ensures CanonPlaces(nodes, outs, st)[i] < |KeptCanon(nodes, outs, st)|
  {
    CanonGraphWellFormed(nodes, outs, st);
    LiveIsReachable(nodes, outs, st, i);
    KeptAt(st.canonNodes, Renumber(st.mapping, outs), st.mapping[i]);
  }

  lemma CanonOrdered(nodes: seq<NodeKey>, outs: seq<NodeId>, st: State, i: nat, j: nat)
    requires WellRecorded(nodes, st) && AllBelow(outs, |nodes|) && i < |nodes| && j < |nodes| && |st.mapping| == |nodes|
    requires LiveClass(nodes, outs, st.mapping, i) && LiveClass(nodes, outs, st.mapping, j)
    ensures CanonPlaces(nodes, outs, st)[i] < CanonPlaces(nodes, outs, st)[j] <==> Rep(st.mapping, i) < Rep(st.mapping, j)
  {
    RunFirstUses(nodes, st);
    CanonPlaced(nodes, outs, st, i);
    CanonPlaced(nodes, outs, st, j);
    RankOrder(ReachMask(st.canonNodes, Renumber(st.mapping, outs)), st.mapping[i], st.mapping[j]);
    IdOrder(st.mapping, i, j);
  }

  lemma CanonInOrder(nodes: seq<NodeKey>, outs: seq<NodeId>, st: State)
    requires WellRecorded(nodes, st) && AllBelow(outs, |nodes|)
    ensures |st.mapping| == |nodes|
    ensures InOrder(LiveMask(nodes, outs, st.mapping), FirstRecorded(st.mapping), CanonPlaces(nodes, outs, st),
                    |KeptCanon(nodes, outs, st)|)
  {
    var place := CanonPlaces(nodes, outs, st);
    var live := LiveMask(nodes, outs, st.mapping);
    forall i | 0 <= i < |nodes| && live[i]
      ensures place[i] < |KeptCanon(nodes, outs, st)|
    {
      CanonPlaced(nodes, outs, st, i);
    }
    forall i, j | 0 <= i < |nodes| && 0 <= j < |nodes| && live[i] && live[j]
      ensures place[i] < place[j] <==> Rep(st.mapping, i) < Rep(st.mapping, j)
    {
      CanonOrdered(nodes, outs, st, i, j);
    }
    forall p: nat | p < |KeptCanon(nodes, outs, st)|
      ensures Taken(live, place, p)
    {
      CanonTaken(nodes, outs, st, p);
    }
  }

  /** Two renumberings in a row are one. */
  lemma MovedTwice(key: NodeKey, f: seq<nat>, g: seq<nat>, place: seq<nat>, moved: NodeKey)
    requires AllBelow(key.Inputs(), |f|) && AllBelow(key.Inputs(), |place|)
    requires AllBelow(Renumber(f, key.Inputs()), |g|)
    requires forall k :: 0 <= k < |key.Inputs()| ==> place[key.Inputs()[k]] == g[f[key.Inputs()[k]]]
    requires moved == key.WithInputs(Renumber(f, key.Inputs())).WithInputs(Renumber(g, Renumber(f, key.Inputs())))
    ensures moved.Token() == key.Token() && moved.Inputs() == Renumber(place, key.Inputs())
  {
    TokenOfHead(key, Renumber(f, key.Inputs()));
    TokenOfHead(key.WithInputs(Renumber(f, key.Inputs())), Renumber(g, Renumber(f, key.Inputs())));
    assert Renumber(g, Renumber(f, key.Inputs())) == Renumber(place, key.Inputs());
  }

  /** A canonical node is the first recorded member of its class, renumbered. */
  lemma CanonIsFirst(nodes: seq<NodeKey>, st: State, i: nat)
    requires WellRecorded(nodes, st) && i < |nodes|
    ensures |st.mapping| == |nodes| && st.mapping[i] < |st.canonNodes| && Rep(st.mapping, i) <= i
    ensures var key := nodes[Rep(st.mapping, i)];
      AllBelow(key.Inputs(), |nodes|) && st.canonNodes[st.mapping[i]] == key.WithInputs(Renumber(st.mapping, key.Inputs()))
  {
    RunKeepsInv(nodes, st);
    RunFirstUses(nodes, st);
    var r := CanonFrom(nodes, st, st.mapping[i]);
    RepSame(st.mapping, i, r);
  }

  lemma CanonKeptAt(nodes: seq<NodeKey>, outs: seq<NodeId>, st: State, i: nat)
    requires WellRecorded(nodes, st) && AllBelow(outs, |nodes|) && i < |nodes|
    requires |st.mapping| == |nodes| && LiveClass(nodes, outs, st.mapping, i)
    ensures CanonPlaces(nodes, outs, st)[i] < |KeptCanon(nodes, outs, st)|
    ensures var key, g := st.canonNodes[st.mapping[i]], Ranks(ReachMask(st.canonNodes, Renumber(st.mapping, outs)));
      && AllBelow(key.Inputs(), |g|)
      && KeptCanon(nodes, outs, st)[CanonPlaces(nodes, outs, st)[i]] == key.WithInputs(Renumber(g, key.Inputs()))
  {
    CanonGraphWellFormed(nodes, outs, st);
    LiveIsReachable(nodes, outs, st, i);
    KeptAt(st.canonNodes, Renumber(st.mapping, outs), st.mapping[i]);
  }

  lemma CanonCopied(nodes: seq<NodeKey>, outs: seq<NodeId>, st: State, i: nat)
    requires WellRecorded(nodes, st) && AllBelow(outs, |nodes|) && i < |nodes|
    requires |st.mapping| == |nodes| && LiveClass(nodes, outs, st.mapping, i)
    ensures var place, kept := CanonPlaces(nodes, outs, st), KeptCanon(nodes, outs, st);
      && place[i] < |kept|
      && Copied(TokenCells(nodes), place, Rep(st.mapping, i), TokenCells(kept)[place[i]])
  {
    CanonIsFirst(nodes, st, i);
    CanonKeptAt(nodes, outs, st, i);
    var place := CanonPlaces(nodes, outs, st);
    MovedTwice(nodes[Rep(st.mapping, i)], st.mapping, Ranks(ReachMask(st.canonNodes, Renumber(st.mapping, outs))), place,
               KeptCanon(nodes, outs, st)[place[i]]);
  }

  lemma CanonLists(nodes: seq<NodeKey>, outs: seq<NodeId>, st: State)
    requires WellRecorded(nodes, st) && AllBelow(outs, |nodes|)
    ensures |st.mapping| == |nodes|
    ensures Lists(TokenTheory(), TokenCells(nodes), st.mapping, LiveMask(nodes, outs, st.mapping),
                  FirstRecorded(st.mapping), CanonPlaces(nodes, outs, st), TokenCells(KeptCanon(nodes, outs, st)))
  {
    CanonGraphWellFormed(nodes, outs, st);
    KeptTopological(st.canonNodes, Renumber(st.mapping, outs));
    MappingClasses(nodes, st);
    BothChoose(nodes, outs, st.mapping);
    CanonInOrder(nodes, outs, st);
    var live, place := LiveMask(nodes, outs, st.mapping), CanonPlaces(nodes, outs, st);
    forall i {:trigger place[i]} | 0 <= i < |nodes| && live[i]
      ensures place[i] < |KeptCanon(nodes, outs, st)|
      ensures Copied(TokenCells(nodes), place, FirstRecorded(st.mapping)[i], TokenCells(KeptCanon(nodes, outs, st))[place[i]])
    {
      CanonCopied(nodes, outs, st, i);
    }
  }

  // ---- what one-shot reduction fuses ----

  /** A reducer was fed the needed nodes only. */
  ghost predicate FedNeeded(nodes: seq<NodeKey>, outs: seq<NodeId>, st: State, needed: State) {
    && WellRecorded(nodes, st) && AllBelow(outs, |nodes|) && |st.mapping| == |nodes|
    && WellRecorded(Kept(nodes, outs), needed) && |needed.mapping| == |Kept(nodes, outs)|
  }

  ghost function NewPlace(nodes: seq<NodeKey>, outs: seq<NodeId>, i: nat): (p: nat)
    requires TopologicalKeys(nodes) && i < |nodes| && Reachable(nodes, outs, i)
    ensures p < |Kept(nodes, outs)| && p == Rank(ReachMask(nodes, outs), i)
  {
    KeptAt(nodes, outs, i);
    Rank(ReachMask(nodes, outs), i)
  }

  lemma FormOfTerm<S>(th: Theory<S>, g: seq<Cell<S>>, i: nat, h: seq<Cell<S>>, j: nat)
    requires Topological(g) && Topological(h) && i < |g| && j < |h| && Unfold(g, i) == Unfold(h, j)
    ensures Form(th, g, i) == Form(th, h, j)
  {
  }

  lemma KeptForm(nodes: seq<NodeKey>, outs: seq<NodeId>, i: nat)
    requires TopologicalKeys(nodes) && AllBelow(outs, |nodes|) && i < |nodes| && Reachable(nodes, outs, i)
    ensures TopologicalKeys(Kept(nodes, outs))
    ensures Form(TokenTheory(), TokenCells(Kept(nodes, outs)), NewPlace(nodes, outs, i)) == Form(TokenTheory(), TokenCells(nodes), i)
  {
    KeptTokenTerms(nodes, outs, i);
    FormOfTerm(TokenTheory(), TokenCells(Kept(nodes, outs)), NewPlace(nodes, outs, i), TokenCells(nodes), i);
  }

  /** Needed nodes share a class among the needed ones exactly when they do among all. */
  lemma SameKeptClass(nodes: seq<NodeKey>, outs: seq<NodeId>, st: State, needed: State, i: nat, j: nat)
    requires FedNeeded(nodes, outs, st, needed)
    requires i < |nodes| && j < |nodes| && Reachable(nodes, outs, i) && Reachable(nodes, outs, j)
    ensures needed.mapping[NewPlace(nodes, outs, i)] == needed.mapping[NewPlace(nodes, outs, j)] <==> st.mapping[i] == st.mapping[j]
  {
    KeptForm(nodes, outs, i);
    KeptForm(nodes, outs, j);
    MappingIsForm(nodes, st, i, j);
    MappingIsForm(Kept(nodes, outs), needed, NewPlace(nodes, outs, i), NewPlace(nodes, outs, j));
  }

  /** Among the needed nodes the first needed member of a class is its first member. */
  lemma FirstLiveIsFirst(nodes: seq<NodeKey>, outs: seq<NodeId>, st: State, needed: State, i: nat)
    requires FedNeeded(nodes, outs, st, needed) && i < |nodes| && LiveClass(nodes, outs, st.mapping, i)
    ensures var p := NewPlace(nodes, outs, FirstLive(nodes, outs, st.mapping, i)); Rep(needed.mapping, p) == p
  {
    var l := FirstLive(nodes, outs, st.mapping, i);
    var p := NewPlace(nodes, outs, l);
    var q := Rep(needed.mapping, p);
    RepFacts(needed.mapping, p);
    var j := KeptFrom(nodes, outs, q);
    SameKeptClass(nodes, outs, st, needed, j, l);
    RankOrder(ReachMask(nodes, outs), j, l);
  }

  /** Where the classes of the recorded nodes are in the graph one-shot reduction fuses. */
  ghost function NeededPlaces(nodes: seq<NodeKey>, outs: seq<NodeId>, st: State, needed: State): (place: seq<nat>)
    requires FedNeeded(nodes, outs, st, needed)
    ensures |place| == |nodes|
    ensures forall i {:trigger place[i]} :: 0 <= i < |nodes| && LiveClass(nodes, outs, st.mapping, i) ==>
      place[i] == needed.mapping[NewPlace(nodes, outs, FirstLive(nodes, outs, st.mapping, i))]
  {
    seq(|nodes|, i requires 0 <= i < |nodes| =>
      if LiveClass(nodes, outs, st.mapping, i)
      then needed.mapping[NewPlace(nodes, outs, FirstLive(nodes, outs, st.mapping, i))] else 0)
  }

  /** A needed node is at the place of its own id. */
  lemma NeededAt(nodes: seq<NodeKey>, outs: seq<NodeId>, st: State, needed: State, i: nat)
    requires FedNeeded(nodes, outs, st, needed) && i < |nodes| && Reachable(nodes, outs, i)
    ensures LiveClass(nodes, outs, st.mapping, i)
    ensures NeededPlaces(nodes, outs, st, needed)[i] == needed.mapping[NewPlace(nodes, outs, i)]
  {
    SameKeptClass(nodes, outs, st, needed, i, FirstLive(nodes, outs, st.mapping, i));
  }

  lemma NeededOrder(nodes: seq<NodeKey>, outs: seq<NodeId>, st: State, needed: State, i: nat, j: nat)
    requires FedNeeded(nodes, outs, st, needed) && i < |nodes| && j < |nodes|
    requires LiveClass(nodes, outs, st.mapping, i) && LiveClass(nodes, outs, st.mapping, j)
    ensures NeededPlaces(nodes, outs, st, needed)[i] < NeededPlaces(nodes, outs, st, needed)[j]
      <==> FirstLive(nodes, outs, st.mapping, i) < FirstLive(nodes, outs, st.mapping, j)
  {
    RunFirstUses(Kept(nodes, outs), needed);
    FirstLiveIsFirst(nodes, outs, st, needed, i);
    FirstLiveIsFirst(nodes, outs, st, needed, j);
    var l, m := FirstLive(nodes, outs, st.mapping, i), FirstLive(nodes, outs, st.mapping, j);
    IdOrder(needed.mapping, NewPlace(nodes, outs, l), NewPlace(nodes, outs, m));
    RankOrder(ReachMask(nodes, outs), l, m);
  }

  lemma NeededTaken(nodes: seq<NodeKey>, outs: seq<NodeId>, st: State, needed: State, p: nat)
    requires FedNeeded(nodes, outs, st, needed) && p < |needed.canonNodes|
    ensures Taken(LiveMask(nodes, outs, st.mapping), NeededPlaces(nodes, outs, st, needed), p)
  {
    RunFirstUses(Kept(nodes, outs), needed);
    var q := CanonFrom(Kept(nodes, outs), needed, p);
    var j := KeptFrom(nodes, outs, q);
    NeededAt(nodes, outs, st, needed, j);
    assert LiveMask(nodes, outs, st.mapping)[j] && NeededPlaces(nodes, outs, st, needed)[j] == p;
  }

  lemma NeededInOrder(nodes: seq<NodeKey>, outs: seq<NodeId>, st: State, needed: State)
    requires FedNeeded(nodes, outs, st, needed)
    ensures InOrder(LiveMask(nodes, outs, st.mapping), FirstNeeded(nodes, outs, st.mapping),
                    NeededPlaces(nodes, outs, st, needed), |needed.canonNodes|)
  {
    var live, place := LiveMask(nodes, outs, st.mapping), NeededPlaces(nodes, outs, st, needed);
    RunKeepsInv(Kept(nodes, outs), needed);
    forall i, j | 0 <= i < |nodes| && 0 <= j < |nodes| && live[i] && live[j]
      ensures place[i] < place[j] <==> FirstNeeded(nodes, outs, st.mapping)[i] < FirstNeeded(nodes, outs, st.mapping)[j]
    {
      NeededOrder(nodes, outs, st, needed, i, j);
    }
    forall p: nat | p < |needed.canonNodes|
      ensures Taken(live, place, p)
    {
      NeededTaken(nodes, outs, st, needed, p);
    }
  }

  lemma NeededCopied(nodes: seq<NodeKey>, outs: seq<NodeId>, st: State, needed: State, i: nat)
    requires FedNeeded(nodes, outs, st, needed) && i < |nodes| && LiveClass(nodes, outs, st.mapping, i)
    ensures var place, l := NeededPlaces(nodes, outs, st, needed), FirstLive(nodes, outs, st.mapping, i);
      && place[i] < |needed.canonNodes|
      && Copied(TokenCells(nodes), place, l, TokenCells(needed.canonNodes)[place[i]])
  {
    var l, place := FirstLive(nodes, outs, st.mapping, i), NeededPlaces(nodes, outs, st, needed);
    FirstLiveIsFirst(nodes, outs, st, needed, i);
    CanonIsFirst(Kept(nodes, outs), needed, NewPlace(nodes, outs, l));
    KeptAt(nodes, outs, l);
    InputsReachable(nodes, outs, l);
    forall k | 0 <= k < |nodes[l].Inputs()|
      ensures place[nodes[l].Inputs()[k]] == needed.mapping[Ranks(ReachMask(nodes, outs))[nodes[l].Inputs()[k]]]
    {
      NeededAt(nodes, outs, st, needed, nodes[l].Inputs()[k]);
    }
    MovedTwice(nodes[l], Ranks(ReachMask(nodes, outs)), needed.mapping, place, needed.canonNodes[place[i]]);
  }

  lemma NeededLists(nodes: seq<NodeKey>, outs: seq<NodeId>, st: State, needed: State)
    requires FedNeeded(nodes, outs, st, needed)
    ensures Lists(TokenTheory(), TokenCells(nodes), st.mapping, LiveMask(nodes, outs, st.mapping),
                  FirstNeeded(nodes, outs, st.mapping), NeededPlaces(nodes, outs, st, needed), TokenCells(needed.canonNodes))
  {
    RunFirstUses(Kept(nodes, outs), needed);
    RunKeepsInv(Kept(nodes, outs), needed);
    MappingClasses(nodes, st);
    BothChoose(nodes, outs, st.mapping);
    NeededInOrder(nodes, outs, st, needed);
    var live, place := LiveMask(nodes, outs, st.mapping), NeededPlaces(nodes, outs, st, needed);
    forall i {:trigger place[i]} | 0 <= i < |nodes| && live[i]
      ensures place[i] < |needed.canonNodes|
      ensures Copied(TokenCells(nodes), place, FirstNeeded(nodes, outs, st.mapping)[i], TokenCells(needed.canonNodes)[place[i]])
    {
      NeededCopied(nodes, outs, st, needed, i);
    }
  }

  // ---- when they fuse the same graph ----

  /** What is kept of distinct forms is distinct. */
  lemma KeptDistinct(keys: seq<NodeKey>, outs: seq<NodeId>)
    requires TopologicalKeys(keys) && AllBelow(outs, |keys|) && DistinctForms(keys)
    ensures TopologicalKeys(Kept(keys, outs)) && DistinctForms(Kept(keys, outs))
  {
    KeptTopological(keys, outs);
    forall p, q | 0 <= p < q < |Kept(keys, outs)|
      ensures !SameForm(TokenTheory(), TokenCells(Kept(keys, outs)), p, q)
    {
      var i := KeptFrom(keys, outs, p);
      var j := KeptFrom(keys, outs, q);
      KeptForm(keys, outs, i);
      KeptForm(keys, outs, j);
      RankOrder(ReachMask(keys, outs), i, j);
      assert !SameForm(TokenTheory(), TokenCells(keys), i, j);
    }
  }

  /** Finishing fuses the needed part of the canonical arena: every other pass leaves it alone. */
  lemma FinishingFuses(nodes: seq<NodeKey>, outs: seq<NodeId>, st: State, engine: RewriteEngine)
    requires WellRecorded(nodes, st) && AllBelow(outs, |nodes|) && SoundEngine(engine)
    ensures |st.mapping| == |nodes| && Reducible(st.canonNodes, Renumber(st.mapping, outs))
    ensures DedupedGraph(st.canonNodes, Renumber(st.mapping, outs), engine)
      == ToEngineGraph(KeptCanon(nodes, outs, st), Renumber(CanonPlaces(nodes, outs, st), outs))
  {
    RunFirstUses(nodes, st);
    CanonStageFree(nodes, st);
    CanonGraphWellFormed(nodes, outs, st);
    CanonDistinct(nodes, st);
    var canon, outs' := st.canonNodes, Renumber(st.mapping, outs);
    KeptDistinct(canon, outs');
    KeptTopological(canon, outs');
    EngineGraphCells(Kept(canon, outs'), KeptOutputs(canon, outs'));
    DistinctExtracted(Kept(canon, outs'), KeptOutputs(canon, outs'), engine(ReachableGraph(canon, outs')));
    DistinctDeduped(Kept(canon, outs'), KeptOutputs(canon, outs'));
    assert KeptOutputs(canon, outs') == Renumber(CanonPlaces(nodes, outs, st), outs);
  }

  /** One-shot reduction fuses the canonical arena of the needed nodes. */
  lemma ReducingFuses(nodes: seq<NodeKey>, outs: seq<NodeId>, st: State, needed: State, engine: RewriteEngine)
    requires FedNeeded(nodes, outs, st, needed) && SaturatedEngine(engine)
    ensures SoundEngine(engine) && Reducible(nodes, outs)
    ensures DedupedGraph(nodes, outs, engine)
      == ToEngineGraph(needed.canonNodes, Renumber(NeededPlaces(nodes, outs, st, needed), outs))
  {
    SaturatedIsSound(engine);
    KeptTopological(nodes, outs);
    KeptAllReachable(nodes, outs);
    AllReachableKept(Kept(nodes, outs), KeptOutputs(nodes, outs));
    SameDeduped(Kept(nodes, outs), KeptOutputs(nodes, outs), needed, engine);
    OutputsReachable(nodes, outs);
    forall k | 0 <= k < |outs|
      ensures NeededPlaces(nodes, outs, st, needed)[outs[k]] == needed.mapping[KeptOutputs(nodes, outs)[k]]
    {
      NeededAt(nodes, outs, st, needed, outs[k]);
    }
    assert Renumber(needed.mapping, KeptOutputs(nodes, outs)) == Renumber(NeededPlaces(nodes, outs, st, needed), outs);
  }

  /** The needed nodes are kept alike whether or not the unneeded ones are there: the classes of needed
      nodes come in one order, and of each the first recorded and the first needed member have the same
      canonical inputs in the same order. */
  ghost predicate UnneededHarmless(nodes: seq<NodeKey>, outs: seq<NodeId>, f: seq<nat>)
    requires TopologicalKeys(nodes) && |f| == |nodes|
  {
    && (forall i, j :: 0 <= i < |nodes| && 0 <= j < |nodes| && Reachable(nodes, outs, i) && Reachable(nodes, outs, j) ==>
          InOneOrder(nodes, outs, f, i, j))
    && (forall i :: 0 <= i < |nodes| && Reachable(nodes, outs, i) ==> KeptAlike(nodes, outs, f, i))
  }

  /** The classes of two needed nodes come in one order by first recorded and by first needed member. */
  ghost predicate InOneOrder(nodes: seq<NodeKey>, outs: seq<NodeId>, f: seq<nat>, i: nat, j: nat)
    requires |f| == |nodes| && i < |nodes| && j < |nodes| && Reachable(nodes, outs, i) && Reachable(nodes, outs, j)
  {
    Rep(f, i) < Rep(f, j) <==> FirstLive(nodes, outs, f, i) < FirstLive(nodes, outs, f, j)
  }

  /** The first recorded and the first needed member of a needed node's class have the same canonical inputs
      in the same order. */
  ghost predicate KeptAlike(nodes: seq<NodeKey>, outs: seq<NodeId>, f: seq<nat>, i: nat)
    requires TopologicalKeys(nodes) && |f| == |nodes| && i < |nodes| && Reachable(nodes, outs, i)
  {
    SameOperands(TokenCells(nodes), f, Rep(f, i), FirstLive(nodes, outs, f, i))
  }

  lemma HarmlessOrder(nodes: seq<NodeKey>, outs: seq<NodeId>, f: seq<nat>, i: nat, j: nat)
    requires TopologicalKeys(nodes) && |f| == |nodes| && UnneededHarmless(nodes, outs, f)
    requires i < |nodes| && j < |nodes| && LiveClass(nodes, outs, f, i) && LiveClass(nodes, outs, f, j)
    ensures Rep(f, i) < Rep(f, j) <==> FirstLive(nodes, outs, f, i) < FirstLive(nodes, outs, f, j)
  {
    SameAtFirstLive(nodes, outs, f, i);
    SameAtFirstLive(nodes, outs, f, j);
    assert InOneOrder(nodes, outs, f, FirstLive(nodes, outs, f, i), FirstLive(nodes, outs, f, j));
  }

  lemma HarmlessOperands(nodes: seq<NodeKey>, outs: seq<NodeId>, f: seq<nat>, i: nat)
    requires TopologicalKeys(nodes) && |f| == |nodes| && UnneededHarmless(nodes, outs, f)
    requires i < |nodes| && LiveClass(nodes, outs, f, i)
    ensures Rep(f, i) < |nodes| && SameOperands(TokenCells(nodes), f, Rep(f, i), FirstLive(nodes, outs, f, i))
  {
    SameAtFirstLive(nodes, outs, f, i);
    assert KeptAlike(nodes, outs, f, FirstLive(nodes, outs, f, i));
  }

  lemma HarmlessAgrees(nodes: seq<NodeKey>, outs: seq<NodeId>, f: seq<nat>)
    requires TopologicalKeys(nodes) && |f| == |nodes| && UnneededHarmless(nodes, outs, f)
    ensures ChoicesAgree(TokenCells(nodes), f, LiveMask(nodes, outs, f), FirstRecorded(f), FirstNeeded(nodes, outs, f))
  {
    var live, recorded, needed := LiveMask(nodes, outs, f), FirstRecorded(f), FirstNeeded(nodes, outs, f);
    forall i, j | 0 <= i < |nodes| && 0 <= j < |nodes| && live[i] && live[j]
      ensures recorded[i] < recorded[j] <==> needed[i] < needed[j]
    {
      HarmlessOrder(nodes, outs, f, i, j);
    }
    forall i {:trigger recorded[i]} | 0 <= i < |nodes| && live[i]
      ensures recorded[i] < |nodes| && needed[i] < |nodes| && SameOperands(TokenCells(nodes), f, recorded[i], needed[i])
    {
      HarmlessOperands(nodes, outs, f, i);
    }
  }

  lemma AgreementHarmless(nodes: seq<NodeKey>, outs: seq<NodeId>, f: seq<nat>)
    requires TopologicalKeys(nodes) && |f| == |nodes|
    requires ChoicesAgree(TokenCells(nodes), f, LiveMask(nodes, outs, f), FirstRecorded(f), FirstNeeded(nodes, outs, f))
    ensures UnneededHarmless(nodes, outs, f)
  {
    var live, recorded, needed := LiveMask(nodes, outs, f), FirstRecorded(f), FirstNeeded(nodes, outs, f);
    forall i, j | 0 <= i < |nodes| && 0 <= j < |nodes| && Reachable(nodes, outs, i) && Reachable(nodes, outs, j)
      ensures InOneOrder(nodes, outs, f, i, j)
    {
      assert live[i] && live[j];
      assert recorded[i] < recorded[j] <==> needed[i] < needed[j];
    }
    forall i | 0 <= i < |nodes| && Reachable(nodes, outs, i)
      ensures KeptAlike(nodes, outs, f, i)
    {
      assert live[i] && SameOperands(TokenCells(nodes), f, recorded[i], needed[i]);
    }
  }

  /** What is kept for a class is kept for its first needed member. */
  lemma SameAtFirstLive(nodes: seq<NodeKey>, outs: seq<NodeId>, f: seq<nat>, i: nat)
    requires |f| == |nodes| && i < |nodes| && LiveClass(nodes, outs, f, i)
    ensures var l := FirstLive(nodes, outs, f, i);
      Rep(f, l) == Rep(f, i) && LiveClass(nodes, outs, f, l) && FirstLive(nodes, outs, f, l) == l
  {
    var l := FirstLive(nodes, outs, f, i);
    RepSame(f, l, i);
    ClassMates(nodes, outs, f, l, i);
  }

  lemma CellsAreNodes(a: seq<NodeKey>, b: seq<NodeKey>)
    ensures TokenCells(a) == TokenCells(b) <==> Map(EngineNodeOf, a) == Map(EngineNodeOf, b)
  {
    if TokenCells(a) == TokenCells(b) {
      forall p | 0 <= p < |a|
        ensures EngineNodeOf(a[p]) == EngineNodeOf(b[p])
      {
        assert TokenCells(a)[p] == TokenCells(b)[p];
        BoundaryByToken(a[p]);
        BoundaryByToken(b[p]);
      }
    }
    if Map(EngineNodeOf, a) == Map(EngineNodeOf, b) {
      forall p | 0 <= p < |a|
        ensures TokenCells(a)[p] == TokenCells(b)[p]
      {
        assert Map(EngineNodeOf, a)[p] == Map(EngineNodeOf, b)[p];
      }
    }
  }

  /** Behind a saturated engine, finishing an incremental reduction and reducing in one shot fuse the same
      graph if and only if the unneeded nodes are harmless. */
  lemma SameGraphIffHarmless(nodes: seq<NodeKey>, outs: seq<NodeId>, st: State, engine: RewriteEngine)
    requires WellRecorded(nodes, st) && AllBelow(outs, |nodes|) && SaturatedEngine(engine)
    ensures SoundEngine(engine) && Reducible(nodes, outs)
    ensures |st.mapping| == |nodes| && Reducible(st.canonNodes, Renumber(st.mapping, outs))
    ensures DedupedGraph(st.canonNodes, Renumber(st.mapping, outs), engine) == DedupedGraph(nodes, outs, engine)
      <==> UnneededHarmless(nodes, outs, st.mapping)
  {
    SaturatedIsSound(engine);
    RunKeepsInv(nodes, st);
    var needed := KeptWellRecorded(nodes, outs);
    RunKeepsInv(Kept(nodes, outs), needed);
    CanonLists(nodes, outs, st);
    NeededLists(nodes, outs, st, needed);
    FinishingFuses(nodes, outs, st, engine);
    ReducingFuses(nodes, outs, st, needed, engine);
    if UnneededHarmless(nodes, outs, st.mapping) {
      HarmlessAgrees(nodes, outs, st.mapping);
    }
    CellsAreNodes(KeptCanon(nodes, outs, st), needed.canonNodes);
    ListedGraphs(nodes, outs, st, needed);
    if DedupedGraph(st.canonNodes, Renumber(st.mapping, outs), engine) == DedupedGraph(nodes, outs, engine) {
      AgreementHarmless(nodes, outs, st.mapping);
    }
  }

  /** Equal listings have equal outputs. */
  lemma ListedGraphs(nodes: seq<NodeKey>, outs: seq<NodeId>, st: State, needed: State)
    requires FedNeeded(nodes, outs, st, needed)
    requires Lists(TokenTheory(), TokenCells(nodes), st.mapping, LiveMask(nodes, outs, st.mapping),
                   FirstRecorded(st.mapping), CanonPlaces(nodes, outs, st), TokenCells(KeptCanon(nodes, outs, st)))
    requires Lists(TokenTheory(), TokenCells(nodes), st.mapping, LiveMask(nodes, outs, st.mapping),
                   FirstNeeded(nodes, outs, st.mapping), NeededPlaces(nodes, outs, st, needed), TokenCells(needed.canonNodes))
    ensures TokenCells(KeptCanon(nodes, outs, st)) == TokenCells(needed.canonNodes)
      <==> ChoicesAgree(TokenCells(nodes), st.mapping, LiveMask(nodes, outs, st.mapping),
                        FirstRecorded(st.mapping), FirstNeeded(nodes, outs, st.mapping))
    ensures TokenCells(KeptCanon(nodes, outs, st)) == TokenCells(needed.canonNodes) ==>
      Renumber(CanonPlaces(nodes, outs, st), outs) == Renumber(NeededPlaces(nodes, outs, st, needed), outs)
  {
    ListingsEqual(TokenTheory(), TokenCells(nodes), st.mapping, LiveMask(nodes, outs, st.mapping),
                  FirstRecorded(st.mapping), CanonPlaces(nodes, outs, st), TokenCells(KeptCanon(nodes, outs, st)),
                  FirstNeeded(nodes, outs, st.mapping), NeededPlaces(nodes, outs, st, needed), TokenCells(needed.canonNodes));
    OutputsReachable(nodes, outs);
  }

  /** In particular the unneeded nodes are harmless if the class of every needed node was first recorded by
      a needed one. */
  lemma LaterIsHarmless(nodes: seq<NodeKey>, outs: seq<NodeId>, f: seq<nat>)
    requires TopologicalKeys(nodes) && |f| == |nodes|
    requires forall i :: 0 <= i < |nodes| && Reachable(nodes, outs, i) ==> Reachable(nodes, outs, Rep(f, i))
    ensures UnneededHarmless(nodes, outs, f)
  {
    forall i | 0 <= i < |nodes| && Reachable(nodes, outs, i)
      ensures FirstLive(nodes, outs, f, i) == Rep(f, i)
    {
      RepFacts(f, i);
      var r := Rep(f, i);
      assert Reachable(nodes, outs, r) && f[r] == f[i];
    }
  }
}
