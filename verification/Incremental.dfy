/** The incremental reducer: one constructor-local pass per recorded node, delta by delta, and why that
pass decides the whole equational theory of the rewrite rules. */
module Incremental {
  import opened Wrappers
  import opened Selection
  import opened Cells
  import opened LocalCanon
  import opened Text
  import opened Node
  import opened Arena
  import opened Interning
  import Engine

  /** Why a step stops early: an unknown input id, or the indexing panic of an identity operator that
      was recorded without inputs. */
  datatype StepError = BadNodeId(id: NodeId) | IndexPanic

  datatype State = State(canonNodes: seq<NodeKey>, canonTable: map<NodeKey, NodeId>, mapping: seq<NodeId>)

  const EMPTY: State := State([], map[], [])

  // ---- the pass as a function ----

  predicate IsSymmetric(k: NodeKey) {
    SymmetricHead(k) && |k.ins| == 2
  }

  function Swapped(k: NodeKey): NodeKey
    requires |k.Inputs()| == 2
  {
    k.WithInputs([k.Inputs()[1], k.Inputs()[0]])
  }

  /** The canonical id of a key whose inputs are canonical ids, and the arena and table afterwards. */
  function CanonicalizeKey(nodes: seq<NodeKey>, table: map<NodeKey, NodeId>, k: NodeKey): Option<Interned> {
    if IsIdentity(k) then
      if k.Inputs() == [] then None else Some((k.Inputs()[0], nodes, table))
    else if IsSymmetric(k) && k.Canon() !in table && Swapped(k).Canon() in table then
      Some((table[Swapped(k).Canon()], nodes, table))
    else Some(Intern(nodes, table, k))
  }

  /** Process one recorded node. */
  function Consume(st: State, key: NodeKey): Result<State, StepError> {
    match BadInput(key.Inputs(), |st.mapping|)
    case Some(i) => Err(BadNodeId(i))
    case None =>
      match CanonicalizeKey(st.canonNodes, st.canonTable, key.WithInputs(Renumber(st.mapping, key.Inputs())))
      case None => Err(IndexPanic)
      case Some((id, nodes, table)) => Ok(State(nodes, table, st.mapping + [id]))
  }

  /** Process nodes in order, stopping at the first failure with what was processed before it. */
  function ConsumeAll(st: State, delta: seq<NodeKey>): (r: (State, Option<StepError>))
    decreases |delta|
  {
    if delta == [] then (st, None)
    else match Consume(st, delta[0])
      case Err(e) => (st, Some(e))
      case Ok(st') => ConsumeAll(st', delta[1..])
  }

  /** How the deltas are cut does not matter. */
  lemma {:induction false} ConsumeAllSplit(st: State, a: seq<NodeKey>, b: seq<NodeKey>)
    ensures ConsumeAll(st, a + b) ==
      var (st', e) := ConsumeAll(st, a); if e.Some? then (st', e) else ConsumeAll(st', b)
    decreases |a|
  {
    if a == [] {
      assert a + b == b;
    } else {
      assert (a + b)[0] == a[0] && (a + b)[1..] == a[1..] + b;
      if Consume(st, a[0]).Ok? {
        ConsumeAllSplit(Consume(st, a[0]).value, a[1..], b);
      }
    }
  }

  // ---- the canonical arena ----

  lemma IdentityByHead(k: NodeKey, inputs: seq<NodeId>)
    ensures IsIdentity(k) <==> IsIdentity(k.Head())
    ensures k.WithInputs(inputs).Head() == k.Head()
    ensures IsIdentity(k.WithInputs(inputs)) <==> IsIdentity(k)
  {
    TokenOfHead(k, inputs);
    HeadIdempotent(k, inputs);
  }

  lemma SymmetricByHead(k: NodeKey)
    ensures IsSymmetric(k) <==> SymmetricHead(k.Head()) && |k.Inputs()| == 2
  {
  }

  lemma SwappedCell(k: NodeKey)
    requires IsSymmetric(k)
    ensures HeadCell(Swapped(k)) == Cell(k.Head(), [k.Inputs()[1], k.Inputs()[0]])
  {
    HeadIdempotent(k, [k.Inputs()[1], k.Inputs()[0]]);
  }

  /** The reducer's table lookups are placements of head cells. */
  lemma CanonicalizePlaces(nodes: seq<NodeKey>, table: map<NodeKey, NodeId>, k: NodeKey)
    requires TableExact(nodes, table) && CanonicalizeKey(nodes, table, k).Some?
    ensures var (id, nodes', table') := CanonicalizeKey(nodes, table, k).value;
      Places(HeadTheory(), HeadCells(nodes), HeadCell(k), id, HeadCells(nodes')) && TableExact(nodes', table')
  {
    IdentityByHead(k, []);
    if !IsIdentity(k) {
      SymmetricByHead(k);
      if IsSymmetric(k) {
        SwappedCell(k);
      }
      if k.Canon() in table {
        FoundInTable(nodes, table, k);
      } else if IsSymmetric(k) && Swapped(k).Canon() in table {
        FoundInTable(nodes, table, Swapped(k));
      } else {
        HeadCellsAppend(nodes, k);
        NewKeyPlaces(nodes, table, k);
      }
    }
  }

  lemma NewKeyPlaces(nodes: seq<NodeKey>, table: map<NodeKey, NodeId>, k: NodeKey)
    requires TableExact(nodes, table) && k.Canon() !in table
    requires IsSymmetric(k) ==> Swapped(k).Canon() !in table
    ensures TableExact(nodes + [k], table[k.Canon() := |nodes|])
    ensures forall c :: 0 <= c < |nodes| ==>
      HeadCells(nodes)[c] != HeadCell(k) && !IsSwap(HeadTheory(), HeadCell(k), HeadCells(nodes)[c])
  {
    SymmetricByHead(k);
    forall c | 0 <= c < |nodes|
      ensures HeadCells(nodes)[c] != HeadCell(k) && !IsSwap(HeadTheory(), HeadCell(k), HeadCells(nodes)[c])
    {
      AbsentFromTable(nodes, table, k, c);
      if IsSymmetric(k) {
        SwappedCell(k);
        AbsentFromTable(nodes, table, Swapped(k), c);
      }
    }
  }

  // ---- whole runs ----

  /** The state after the recorded nodes have all been consumed. */
  ghost predicate Consumed(nodes: seq<NodeKey>, st: State) {
    ConsumeAll(EMPTY, nodes) == (st, None)
  }

  lemma ConsumedSnoc(nodes: seq<NodeKey>, before: State, key: NodeKey, st: State)
    requires Consumed(nodes, before) && Consume(before, key) == Ok(st)
    ensures Consumed(nodes + [key], st)
  {
    ConsumeAllSplit(EMPTY, nodes, [key]);
    assert [key][0] == key && [key][1..] == [];
    assert ConsumeAll(before, [key]) == ConsumeAll(st, []);
  }

  ghost predicate RunInv(nodes: seq<NodeKey>, st: State) {
    && TopologicalKeys(nodes) && TopologicalKeys(st.canonNodes)
    && TableExact(st.canonNodes, st.canonTable)
    && Placed(HeadTheory(), HeadCells(nodes), HeadCells(st.canonNodes), st.mapping)
  }

  lemma TopologicalFromCells(nodes: seq<NodeKey>)
    requires Topological(HeadCells(nodes))
    ensures TopologicalKeys(nodes)
  {
    forall i | 0 <= i < |nodes|
      ensures AllBelow(nodes[i].Inputs(), i)
    {
      assert HeadCells(nodes)[i].inputs == nodes[i].Inputs();
    }
  }

  lemma RunStep(nodes: seq<NodeKey>, before: State, key: NodeKey, st: State)
    requires RunInv(nodes, before) && Consume(before, key) == Ok(st)
    ensures RunInv(nodes + [key], st)
  {
    var k := key.WithInputs(Renumber(before.mapping, key.Inputs()));
    IdentityByHead(key, Renumber(before.mapping, key.Inputs()));
    CanonicalizePlaces(before.canonNodes, before.canonTable, k);
    var id := st.mapping[|nodes|];
    assert st.mapping == before.mapping + [id];
    assert HeadCell(k) == Cell(key.Head(), Renumber(before.mapping, HeadCell(key).inputs));
    PlacedStep(HeadTheory(), HeadCells(nodes), HeadCells(before.canonNodes), before.mapping,
               HeadCell(key), id, HeadCells(st.canonNodes));
    HeadCellsAppend(nodes, key);
    TopologicalFromCells(nodes + [key]);
    TopologicalFromCells(st.canonNodes);
  }

  /** What the last node contributed to a run. */
  lemma LastConsumed(nodes: seq<NodeKey>, key: NodeKey, st: State) returns (before: State)
    requires Consumed(nodes + [key], st)
    ensures Consumed(nodes, before) && Consume(before, key) == Ok(st)
  {
    ConsumeAllSplit(EMPTY, nodes, [key]);
    before := ConsumeAll(EMPTY, nodes).0;
    assert [key][0] == key && [key][1..] == [];
  }

  /** Consuming one more node carries the property over. */
  ghost predicate Inductive(p: (seq<NodeKey>, State) -> bool, nodes: seq<NodeKey>, before: State, key: NodeKey, st: State) {
    Consumed(nodes, before) && p(nodes, before) && Consume(before, key) == Ok(st) ==> p(nodes + [key], st)
  }

  lemma LastNode(nodes: seq<NodeKey>) returns (init: seq<NodeKey>, key: NodeKey)
    requires nodes != []
    ensures nodes == init + [key] && |init| < |nodes|
  {
    init, key := nodes[..|nodes| - 1], nodes[|nodes| - 1];
  }

  /** Induction over whole runs. */
  lemma {:induction false} RunInduction(p: (seq<NodeKey>, State) -> bool, nodes: seq<NodeKey>, st: State)
    requires p([], EMPTY) && forall ns, before, key, after :: Inductive(p, ns, before, key, after)
    requires Consumed(nodes, st)
    ensures p(nodes, st)
    decreases |nodes|
  {
    if nodes != [] {
      var init, key := LastNode(nodes);
      var before := LastConsumed(init, key, st);
      RunInduction(p, init, before);
      assert Inductive(p, init, before, key, st);
    }
  }

  /** Every run, however its deltas were cut, keeps the table exact and the arena canonical. */
  lemma RunKeepsInv(nodes: seq<NodeKey>, st: State)
    requires Consumed(nodes, st)
    ensures RunInv(nodes, st)
  {
    forall ns, before, key, after
      ensures Inductive(RunInv, ns, before, key, after)
    {
      if RunInv(ns, before) && Consume(before, key) == Ok(after) {
        RunStep(ns, before, key, after);
      }
    }
    NothingPlaced();
    RunInduction(RunInv, nodes, st);
  }

  lemma NothingPlaced()
    ensures RunInv([], EMPTY)
  {
  }

  ghost predicate IdentityOpsUnary(nodes: seq<NodeKey>) {
    forall i :: 0 <= i < |nodes| && IsIdentity(nodes[i]) ==> |nodes[i].Inputs()| == 1
  }

  lemma UnaryByHeads(nodes: seq<NodeKey>)
    ensures IdentityOpsUnary(nodes) <==> UnaryIdentities(HeadTheory(), HeadCells(nodes))
  {
    forall i | 0 <= i < |nodes|
      ensures IsIdentity(nodes[i]) <==> HeadTheory().identity(HeadCells(nodes)[i].sym)
    {
      IdentityByHead(nodes[i], []);
    }
    if UnaryIdentities(HeadTheory(), HeadCells(nodes)) {
      forall i | 0 <= i < |nodes| && IsIdentity(nodes[i])
        ensures |nodes[i].Inputs()| == 1
      {
        assert |HeadCells(nodes)[i].inputs| == 1;
      }
    }
  }

  lemma IdentityTokenBar(token: string)
    requires Engine.IdentityToken(token)
    ensures |token| > 6 && token[6] == '|'
  {
  }

  lemma BareTokenNoBar(k: NodeKey)
    requires k.Op? && k.params == []
    ensures |k.Token()| > 6 ==> k.Token()[6] != '|'
  {
    EscapeClean(k.name);
    var e := Escape(k.name);
    assert k.Token() == "op|" + e;
    assert |e| > 3 ==> k.Token()[6] == e[3];
  }

  /** The bare symmetric operators are not identities: an identity token has parameters. */
  lemma HeadTheoryDisjoint(k: NodeKey)
    ensures !(HeadTheory().identity(k) && HeadTheory().symmetric(k))
  {
    if k.Op? && k.params == [] {
      BareTokenNoBar(k);
      if Engine.IdentityToken(k.Token()) {
        IdentityTokenBar(k.Token());
      }
    }
  }

  /** After any sequence of successful steps, two recorded nodes share a canonical id exactly when
      their terms are provably equal from congruence, commutativity and identity, for all pairs; and
      this holds exactly when every identity operator was recorded with one input. */
  lemma ReducerDecides(nodes: seq<NodeKey>, st: State)
    requires Consumed(nodes, st)
    ensures TopologicalKeys(nodes) && |st.mapping| == |nodes|
    ensures Decides(HeadTheory(), HeadCells(nodes), st.mapping) <==> IdentityOpsUnary(nodes)
  {
    RunKeepsInv(nodes, st);
    UnaryByHeads(nodes);
    HeadTheoryDisjointAll();
    PlacedDecides(HeadTheory(), HeadCells(nodes), HeadCells(st.canonNodes), st.mapping);
  }

  lemma HeadTheoryDisjointAll()
    ensures forall k :: !(HeadTheory().identity(k) && HeadTheory().symmetric(k))
  {
    forall k
      ensures !(HeadTheory().identity(k) && HeadTheory().symmetric(k))
    {
      HeadTheoryDisjoint(k);
    }
  }
}
