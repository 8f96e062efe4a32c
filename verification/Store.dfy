/** The interned graph store: recording nodes, marking outputs, reducing, and rebuilding a reduced graph
as a fresh store. */
module Store {
  import opened Wrappers
  import opened Selection
  import opened Cells
  import opened Param
  import opened Node
  import opened Arena
  import opened Operators
  import opened Interning
  import opened Semantics
  import opened Engine
  import opened Fusion
  import opened StageFusion
  import opened Reduce
  import opened Meaning

  // ---- output marks ----

  /** Mark one more output; marking twice is marking once. */
  function Mark(marks: seq<NodeId>, id: NodeId): seq<NodeId> {
    if id in marks then marks else marks + [id]
  }

  /** Every id once, in the order of first occurrence. */
  function FirstOccurrences(ids: seq<NodeId>): (marks: seq<NodeId>)
    ensures |marks| <= |ids|
  {
    if ids == [] then [] else Mark(FirstOccurrences(ids[..|ids| - 1]), ids[|ids| - 1])
  }

  lemma {:induction false} FirstOccurrencesFacts(ids: seq<NodeId>)
    ensures NoDuplicates(FirstOccurrences(ids))
    ensures forall id :: id in FirstOccurrences(ids) <==> id in ids
    ensures NoDuplicates(ids) ==> FirstOccurrences(ids) == ids
  {
    if ids != [] {
      var init, last := ids[..|ids| - 1], ids[|ids| - 1];
      assert ids == init + [last];
      FirstOccurrencesFacts(init);
      if NoDuplicates(ids) {
        assert forall i :: 0 <= i < |init| ==> init[i] == ids[i];
        assert last !in init;
      }
    }
  }

  lemma FirstOccurrencesSnoc(ids: seq<NodeId>, id: NodeId)
    ensures FirstOccurrences(ids + [id]) == Mark(FirstOccurrences(ids), id)
  {
    assert (ids + [id])[..|ids|] == ids;
  }

  // ---- rebuilding ----

  ghost function Moved(nodes: seq<NodeKey>, f: seq<NodeId>, i: nat): NodeKey
    requires TopologicalKeys(nodes) && i <= |f| && i < |nodes|
  {
    assert AllBelow(nodes[i].Inputs(), i);
    nodes[i].WithInputs(Renumber(f, nodes[i].Inputs()))
  }

  ghost predicate Lands(nodes: seq<NodeKey>, arena: seq<NodeKey>, f: seq<NodeId>, i: nat)
    requires TopologicalKeys(nodes) && i < |f| && i < |nodes|
  {
    f[i] < |arena| && arena[f[i]].Canon() == Moved(nodes, f, i).Canon()
  }

  lemma LandsLater(nodes: seq<NodeKey>, arena: seq<NodeKey>, f: seq<NodeId>, arena': seq<NodeKey>, id: NodeId, i: nat)
    requires TopologicalKeys(nodes) && i < |f| && i < |nodes| && arena <= arena' && Lands(nodes, arena, f, i)
    ensures Lands(nodes, arena', f + [id], i)
  {
    MovedPrefix(nodes, f, id, i);
  }

  /** `f` sends each of the first nodes to the arena node with its operator over the images of its
      inputs, and every arena node is such an image. */
  ghost predicate RebuiltTo(nodes: seq<NodeKey>, arena: seq<NodeKey>, f: seq<NodeId>, n: nat)
    requires TopologicalKeys(nodes) && n <= |nodes|
  {
    && |f| == n
    && (forall i {:trigger Lands(nodes, arena, f, i)} :: 0 <= i < n ==> Lands(nodes, arena, f, i))
    && (forall c {:trigger arena[c]} :: 0 <= c < |arena| ==> c in f)
  }

  ghost predicate Rebuilt(nodes: seq<NodeKey>, arena: seq<NodeKey>, f: seq<NodeId>)
    requires TopologicalKeys(nodes)
  {
    RebuiltTo(nodes, arena, f, |nodes|)
  }

  lemma MovedPrefix(nodes: seq<NodeKey>, f: seq<NodeId>, id: NodeId, i: nat)
    requires TopologicalKeys(nodes) && i <= |f| && i < |nodes|
    ensures Moved(nodes, f + [id], i) == Moved(nodes, f, i)
  {
    assert AllBelow(nodes[i].Inputs(), i);
    assert Renumber(f + [id], nodes[i].Inputs()) == Renumber(f, nodes[i].Inputs());
  }

  lemma ImagesStep(f: seq<NodeId>, id: NodeId, n: nat, m: nat)
    requires (forall c :: 0 <= c < n ==> c in f) && m <= n + 1 && (id < n ==> m == n) && id < m
    ensures forall c :: 0 <= c < m ==> c in f + [id]
  {
    assert (f + [id])[|f|] == id;
  }

  lemma RebuiltStep(nodes: seq<NodeKey>, arena: seq<NodeKey>, f: seq<NodeId>, n: nat, arena': seq<NodeKey>, id: NodeId)
    requires TopologicalKeys(nodes) && n < |nodes| && RebuiltTo(nodes, arena, f, n)
    requires id < |arena'| && arena'[id].Canon() == Moved(nodes, f, n).Canon()
    requires arena <= arena' && |arena'| <= |arena| + 1 && (id < |arena| ==> arena' == arena)
    ensures RebuiltTo(nodes, arena', f + [id], n + 1)
  {
    var f' := f + [id];
    forall i | 0 <= i < n
      ensures Lands(nodes, arena', f', i)
    {
      assert Lands(nodes, arena, f, i);
      LandsLater(nodes, arena, f, arena', id, i);
    }
    MovedPrefix(nodes, f, id, n);
    assert Lands(nodes, arena', f', n);
    forall c | 0 <= c < |arena|
      ensures c in f
    {
      assert arena[c] in arena;
    }
    ImagesStep(f, id, |arena|, |arena'|);
  }

  /** Rebuilding keeps the term of every node. */
  lemma {:induction false} RebuiltTerms(nodes: seq<NodeKey>, arena: seq<NodeKey>, f: seq<NodeId>, i: nat)
    requires TopologicalKeys(nodes) && TopologicalKeys(arena) && Rebuilt(nodes, arena, f) && i < |nodes|
    ensures f[i] < |arena| && Unfold(HeadCells(arena), f[i]) == Unfold(HeadCells(nodes), i)
    decreases i
  {
    var xs, g, g' := nodes[i].Inputs(), HeadCells(nodes), HeadCells(arena);
    assert Lands(nodes, arena, f, i);
    HeadIdempotent(nodes[i], Renumber(f, xs));
    SameHeadCell(arena[f[i]], Moved(nodes, f, i));
    assert g[i].inputs == xs && g'[f[i]] == Cell(g[i].sym, Renumber(f, xs));
    forall k | 0 <= k < |xs|
      ensures Unfold(g', f[xs[k]]) == Unfold(g, xs[k])
    {
      RebuiltTerms(nodes, arena, f, xs[k]);
    }
    assert UnfoldAll(g', g'[f[i]].inputs, f[i]) == UnfoldAll(g, xs, i);
  }

  ghost predicate DistinctKeys(nodes: seq<NodeKey>) {
    forall i, j :: 0 <= i < j < |nodes| ==> nodes[i].Canon() != nodes[j].Canon()
  }

  lemma MovedInRange(nodes: seq<NodeKey>, arena: seq<NodeKey>, f: seq<NodeId>, n: nat)
    requires TopologicalKeys(nodes) && n < |nodes| && RebuiltTo(nodes, arena, f, n)
    ensures AllBelow(Moved(nodes, f, n).Inputs(), |arena|)
  {
    var xs := nodes[n].Inputs();
    assert AllBelow(xs, n);
    forall k | 0 <= k < |Moved(nodes, f, n).Inputs()|
      ensures Moved(nodes, f, n).Inputs()[k] < |arena|
    {
      assert Lands(nodes, arena, f, xs[k]);
    }
  }

  ghost predicate IsIdentityMap(f: seq<NodeId>) {
    forall i {:trigger f[i]} :: 0 <= i < |f| ==> f[i] == i
  }

  lemma MovedIdentity(nodes: seq<NodeKey>, f: seq<NodeId>, n: nat)
    requires TopologicalKeys(nodes) && n <= |f| && n < |nodes| && IsIdentityMap(f)
    ensures Moved(nodes, f, n) == nodes[n]
  {
    assert AllBelow(nodes[n].Inputs(), n);
    assert Renumber(f, nodes[n].Inputs()) == nodes[n].Inputs();
    SameInputs(nodes[n]);
  }

  /** Distinct keys are never found in the table, so each gets the next id. */
  lemma DistinctStep(nodes: seq<NodeKey>, table: map<NodeKey, NodeId>, f: seq<NodeId>, n: nat)
    requires TopologicalKeys(nodes) && n < |nodes| && |f| == n && IsIdentityMap(f) && DistinctKeys(nodes)
    requires TableExact(nodes[..n], table)
    ensures Moved(nodes, f, n) == nodes[n] && nodes[n].Canon() !in table
  {
    MovedIdentity(nodes, f, n);
  }

  class GraphStore {
    var nodes: seq<NodeKey>
    var table: map<NodeKey, NodeId>
    var outputs: seq<NodeId>

    ghost predicate Valid()
      reads this
    {
      TopologicalKeys(nodes) && TableExact(nodes, table) && AllBelow(outputs, |nodes|) && NoDuplicates(outputs)
    }

    constructor ()
      ensures Valid() && nodes == [] && outputs == []
    {
      nodes, table, outputs := [], map[], [];
    }

    /** Record a key under its id, a new one only if no recorded node has the same structure. */
    method AddKey(key: NodeKey) returns (r: Result<NodeId, NodeId>)
      requires Valid()
      modifies this`nodes, this`table
      ensures Valid()
      ensures BadInput(key.Inputs(), old(|nodes|)).Some? ==> r == Err(BadInput(key.Inputs(), old(|nodes|)).value)
      ensures BadInput(key.Inputs(), old(|nodes|)).None? ==> r.Ok? && (r.value, nodes, table) == Intern(old(nodes), old(table), key)
      ensures r.Ok? ==> r.value < |nodes| && nodes[r.value].Canon() == key.Canon() && old(nodes) <= nodes
      ensures r.Err? ==> nodes == old(nodes) && table == old(table)
    {
      var len := |nodes|;
      var inputs := key.Inputs();
      for k := 0 to |inputs|
        invariant forall l :: 0 <= l < k ==> inputs[l] < len
      {
        if inputs[k] >= len {
          BadInputBelow(inputs, len, k);
          return Err(inputs[k]);
        }
      }
      BadInputBelow(inputs, len, |inputs|);
      InternFacts(nodes, table, key);
      if key.Canon() in table {
        return Ok(table[key.Canon()]);
      }
      nodes := nodes + [key];
      table := table[key.Canon() := len];
      r := Ok(len);
    }

    method AddSource(name: string, params: ParamMap) returns (id: NodeId)
      requires Valid()
      modifies this`nodes, this`table
      ensures Valid() && (id, nodes, table) == Intern(old(nodes), old(table), Source(name, params))
    {
      var r := AddKey(Source(name, params));
      id := r.value;
    }

    method AddOp(name: string, inputs: seq<NodeId>, params: ParamMap) returns (r: Result<NodeId, NodeId>)
      requires Valid()
      modifies this`nodes, this`table
      ensures Valid()
      ensures BadInput(inputs, old(|nodes|)).Some? ==> r == Err(BadInput(inputs, old(|nodes|)).value) && nodes == old(nodes)
      ensures BadInput(inputs, old(|nodes|)).None? ==>
        r.Ok? && (r.value, nodes, table) == Intern(old(nodes), old(table), Op(name, params, inputs))
    {
      r := AddKey(Op(name, params, inputs));
    }

    method AddReduction(name: string, inputs: seq<NodeId>, params: ParamMap) returns (r: Result<NodeId, NodeId>)
      requires Valid()
      modifies this`nodes, this`table
      ensures Valid()
      ensures BadInput(inputs, old(|nodes|)).Some? ==> r == Err(BadInput(inputs, old(|nodes|)).value) && nodes == old(nodes)
      ensures BadInput(inputs, old(|nodes|)).None? ==>
        r.Ok? && (r.value, nodes, table) == Intern(old(nodes), old(table), Reduction(name, params, inputs))
    {
      r := AddKey(Reduction(name, params, inputs));
    }

    method AddExternal(d: PayloadDescriptor, inputs: seq<NodeId>, params: ParamMap) returns (r: Result<NodeId, NodeId>)
      requires Valid()
      modifies this`nodes, this`table
      ensures Valid()
      ensures BadInput(inputs, old(|nodes|)).Some? ==> r == Err(BadInput(inputs, old(|nodes|)).value) && nodes == old(nodes)
      ensures BadInput(inputs, old(|nodes|)).None? ==>
        r.Ok? && (r.value, nodes, table) == Intern(old(nodes), old(table), External(d, params, inputs))
    {
      r := AddKey(External(d, params, inputs));
    }

    method MarkOutput(id: NodeId) returns (r: Result<(), NodeId>)
      requires Valid()
      modifies this`outputs
      ensures Valid()
      ensures id >= |nodes| ==> r == Err(id) && outputs == old(outputs)
      ensures id < |nodes| ==> r == Ok(()) && outputs == Mark(old(outputs), id)
    {
      if id >= |nodes| {
        return Err(id);
      }
      if id !in outputs {
        outputs := outputs + [id];
      }
      r := Ok(());
    }

    /** The nodes recorded from `start` on. */
    method SnapshotFrom(start: nat) returns (delta: seq<NodeKey>)
      ensures delta == if start <= |nodes| then nodes[start..] else []
    {
      delta := nodes[if start < |nodes| then start else |nodes|..];
    }

    /** Re-record one node over the new ids of its inputs. */
    method AddMoved(keys: seq<NodeKey>, ids: seq<NodeId>, n: nat) returns (id: NodeId)
      requires Valid() && TopologicalKeys(keys) && n < |keys| && RebuiltTo(keys, nodes, ids, n)
      modifies this`nodes, this`table
      ensures Valid() && RebuiltTo(keys, nodes, ids + [id], n + 1)
      ensures DistinctKeys(keys) && IsIdentityMap(ids) && old(nodes) == keys[..n] ==> nodes == keys[..n + 1] && id == n
    {
      ghost var arena := nodes;
      if DistinctKeys(keys) && IsIdentityMap(ids) && nodes == keys[..n] {
        DistinctStep(keys, table, ids, n);
      }
      MovedInRange(keys, arena, ids, n);
      assert AllBelow(keys[n].Inputs(), n);
      var r := AddKey(keys[n].WithInputs(Renumber(ids, keys[n].Inputs())));
      id := r.value;
      RebuiltStep(keys, arena, ids, n, nodes, id);
    }

    /** Re-record a list of nodes, each over the new ids of its inputs. */
    method AddAll(keys: seq<NodeKey>) returns (ids: seq<NodeId>)
      requires Valid() && nodes == [] && TopologicalKeys(keys)
      modifies this`nodes, this`table
      ensures Valid() && Rebuilt(keys, nodes, ids)
      ensures DistinctKeys(keys) ==> nodes == keys && IsIdentityMap(ids)
    {
      ids := [];
      for n := 0 to |keys|
        invariant Valid() && RebuiltTo(keys, nodes, ids, n)
        invariant DistinctKeys(keys) ==> nodes == keys[..n] && IsIdentityMap(ids)
      {
        var id := AddMoved(keys, ids, n);
        ids := ids + [id];
      }
    }

    method MarkAll(ids: seq<NodeId>)
      requires Valid() && outputs == [] && AllBelow(ids, |nodes|)
      modifies this`outputs
      ensures Valid() && outputs == FirstOccurrences(ids)
    {
      for n := 0 to |ids|
        invariant Valid() && outputs == FirstOccurrences(ids[..n])
      {
        FirstOccurrencesSnoc(ids[..n], ids[n]);
        assert ids[..n + 1] == ids[..n] + [ids[n]];
        var r := MarkOutput(ids[n]);
      }
      assert ids[..|ids|] == ids;
    }

    /** Rebuild a reduced graph as a fresh store. */
    static method FromReduced(red: Reduced) returns (store: GraphStore, ghost f: seq<NodeId>)
      requires TopologicalKeys(red.nodes) && AllBelow(red.outputs, |red.nodes|)
      ensures fresh(store) && store.Valid()
      ensures Rebuilt(red.nodes, store.nodes, f) && store.outputs == FirstOccurrences(Renumber(f, red.outputs))
      ensures DistinctKeys(red.nodes) ==> store.nodes == red.nodes && store.outputs == FirstOccurrences(red.outputs)
    {
      store := new GraphStore();
      var ids := store.AddAll(red.nodes);
      f := ids;
      RebuiltInRange(red.nodes, store.nodes, f, red.outputs);
      store.MarkAll(Renumber(ids, red.outputs));
      if IsIdentityMap(f) {
        assert Renumber(f, red.outputs) == red.outputs;
      }
    }

    /** Reduce for an explicit output set into a fresh store.  This store is only read. */
    method ReduceWithOutputs(outs: seq<NodeId>, engine: RewriteEngine, mode: FusionMode)
      returns (r: Result<(GraphStore, ReductionReport), NodeId>, ghost f: seq<NodeId>)
      requires Valid() && SoundEngine(engine)
      ensures BadInput(outs, |nodes|).Some? ==> r == Err(BadInput(outs, |nodes|).value)
      ensures BadInput(outs, |nodes|).None? ==> r.Ok? && fresh(r.value.0) && r.value.0.Valid()
      ensures r.Ok? ==> Requestable(nodes, outs) && IsRebuilt(r.value.0, ReduceNodes(nodes, outs, engine, mode), f)
      ensures r.Ok? && Reducible(nodes, outs) ==> IsStoreOf(r.value.0, ReduceNodes(nodes, outs, engine, mode))
      ensures r.Ok? ==> r.value.1 == ReduceNodes(nodes, outs, engine, mode).report
    {
      f := [];
      for k := 0 to |outs|
        invariant forall l :: 0 <= l < k ==> outs[l] < |nodes|
      {
        if outs[k] >= |nodes| {
          BadInputBelow(outs, |nodes|, k);
          r := Err(outs[k]);
          return;
        }
      }
      BadInputBelow(outs, |nodes|, |outs|);
      var red := ReduceWithMode(nodes, outs, engine, mode);
      ReducedRebuilds(nodes, outs, engine, mode);
      var store: GraphStore;
      store, f := FromReduced(red);
      r := Ok((store, red.report));
    }

    /** Reduce for the marked outputs. */
    method ReduceWith(engine: RewriteEngine, mode: FusionMode)
      returns (store: GraphStore, report: ReductionReport, ghost f: seq<NodeId>)
      requires Valid() && SoundEngine(engine)
      ensures fresh(store) && store.Valid() && Requestable(nodes, outputs)
      ensures IsRebuilt(store, ReduceNodes(nodes, outputs, engine, mode), f)
      ensures Reducible(nodes, outputs) ==> IsStoreOf(store, ReduceNodes(nodes, outputs, engine, mode))
      ensures report == ReduceNodes(nodes, outputs, engine, mode).report
    {
      var red := ReduceWithMode(nodes, outputs, engine, mode);
      ReducedRebuilds(nodes, outputs, engine, mode);
      store, f := FromReduced(red);
      report := red.report;
    }
  }

  /** The store holds every reduced node over the new ids of its inputs, and marks its outputs once each. */
  ghost predicate IsRebuilt(store: GraphStore, red: Reduced, f: seq<NodeId>)
    reads store
  {
    && TopologicalKeys(red.nodes) && AllBelow(red.outputs, |red.nodes|)
    && Rebuilt(red.nodes, store.nodes, f) && store.outputs == FirstOccurrences(Renumber(f, red.outputs))
  }

  /** The store holds exactly the reduced nodes, id by id, and marks its outputs once each. */
  ghost predicate IsStoreOf(store: GraphStore, red: Reduced)
    reads store
  {
    store.nodes == red.nodes && store.outputs == FirstOccurrences(red.outputs)
  }

  /** A reduced graph meets what rebuilding needs, and holds no key twice. */
  lemma ReducedRebuilds(nodes: seq<NodeKey>, outs: seq<NodeId>, engine: RewriteEngine, mode: FusionMode)
    requires Requestable(nodes, outs) && SoundEngine(engine)
    ensures var r := ReduceNodes(nodes, outs, engine, mode);
      TopologicalKeys(r.nodes) && AllBelow(r.outputs, |r.nodes|) && (Reducible(nodes, outs) ==> DistinctKeys(r.nodes))
  {
    ReduceRunnable(nodes, outs, engine, mode);
    var r := ReduceNodes(nodes, outs, engine, mode).nodes;
    forall i, j | Reducible(nodes, outs) && 0 <= i < j < |r|
      ensures r[i].Canon() != r[j].Canon()
    {
      if r[i].Canon() == r[j].Canon() {
        ReduceDistinct(nodes, outs, engine, mode, i, j);
      }
    }
  }

  lemma RebuiltInRange(nodes: seq<NodeKey>, arena: seq<NodeKey>, f: seq<NodeId>, xs: seq<nat>)
    requires TopologicalKeys(nodes) && Rebuilt(nodes, arena, f) && AllBelow(xs, |nodes|)
    ensures AllBelow(Renumber(f, xs), |arena|)
  {
    forall k | 0 <= k < |xs|
      ensures f[xs[k]] < |arena|
    {
      assert Lands(nodes, arena, f, xs[k]);
    }
  }

  /** Rebuilding keeps the value of every node, even where keys collapse. */
  lemma {:induction false} RebuiltValue<V>(interp: Interp<V>, nodes: seq<NodeKey>, arena: seq<NodeKey>, f: seq<NodeId>, i: nat)
    requires Runnable(nodes) && Runnable(arena) && Rebuilt(nodes, arena, f) && i < |nodes|
    ensures f[i] < |arena| && Eval(interp, arena, f[i]) == Eval(interp, nodes, i)
    decreases i
  {
    var xs := nodes[i].Inputs();
    assert Lands(nodes, arena, f, i);
    HeadIdempotent(nodes[i], Renumber(f, xs));
    CanonIsHeadAndInputs(arena[f[i]], Moved(nodes, f, i));
    forall k | 0 <= k < |xs|
      ensures f[xs[k]] < |arena| && Eval(interp, arena, f[xs[k]]) == Eval(interp, nodes, xs[k])
    {
      RebuiltValue(interp, nodes, arena, f, xs[k]);
    }
    var vs := EvalAll(interp, nodes, xs, i);
    assert EvalAll(interp, arena, arena[f[i]].Inputs(), f[i]) == vs;
    SameHeadValue(interp, arena[f[i]], nodes[i], vs);
  }

  lemma RebuiltStageOk(nodes: seq<NodeKey>, arena: seq<NodeKey>, f: seq<NodeId>, i: nat)
    requires Runnable(nodes) && Rebuilt(nodes, arena, f) && i < |nodes|
    ensures f[i] < |arena| && StageOk(arena[f[i]])
  {
    assert Lands(nodes, arena, f, i) && StageOk(nodes[i]);
    var k := Moved(nodes, f, i);
    assert k.Canon().Stage? == k.Stage? && arena[f[i]].Canon().Stage? == arena[f[i]].Stage?;
  }

  lemma RebuiltRunnable(nodes: seq<NodeKey>, arena: seq<NodeKey>, f: seq<NodeId>)
    requires Runnable(nodes) && TopologicalKeys(arena) && Rebuilt(nodes, arena, f)
    ensures Runnable(arena)
  {
    forall c | 0 <= c < |arena|
      ensures StageOk(arena[c])
    {
      assert arena[c] in arena && c in f;
      var i :| 0 <= i < |f| && f[i] == c;
      RebuiltStageOk(nodes, arena, f, i);
    }
  }

  /** Every requested output is a marked output of the rebuilt store, with the recorded value. */
  lemma RebuiltMeaning<V(!new)>(
      op: (NodeKey, seq<V>) -> V, nodes: seq<NodeKey>, outs: seq<NodeId>, engine: RewriteEngine, mode: FusionMode,
      arena: seq<NodeKey>, f: seq<NodeId>, k: nat) returns (m: nat)
    requires NeededTokensTell(nodes, outs) && Runnable(nodes)
    requires SoundEngine(engine) && OperatorLaws(op) && k < |outs|
    requires var r := ReduceNodes(nodes, outs, engine, mode);
      && TopologicalKeys(r.nodes) && TopologicalKeys(arena) && Rebuilt(r.nodes, arena, f) && AllBelow(r.outputs, |f|)
    ensures Runnable(arena)
    ensures var marks := FirstOccurrences(Renumber(f, ReduceNodes(nodes, outs, engine, mode).outputs));
      m < |marks| && marks[m] < |arena| && Eval(Executor(op), arena, marks[m]) == Eval(Executor(op), nodes, outs[k])
  {
    OutputMeaning(op, nodes, outs, engine, mode, k);
    var r := ReduceNodes(nodes, outs, engine, mode);
    var ids := Renumber(f, r.outputs);
    RebuiltRunnable(r.nodes, arena, f);
    RebuiltValue(Executor(op), r.nodes, arena, f, r.outputs[k]);
    FirstOccurrencesFacts(ids);
    assert ids[k] in FirstOccurrences(ids);
    m :| 0 <= m < |FirstOccurrences(ids)| && FirstOccurrences(ids)[m] == ids[k];
  }
}
