/** The incremental reducer as it runs: its fields are updated in place, delta by delta. */
module Reducer {
  import opened Wrappers
  import opened Selection
  import opened Node
  import opened Interning
  import opened Engine
  import opened Incremental
  import opened Fusion
  import opened StageFusion
  import opened Reduce

  lemma ConsumeAllAt(st: State, delta: seq<NodeKey>, n: nat)
    requires n < |delta|
    ensures Consume(st, delta[n]).Err? ==> ConsumeAll(st, delta[n..]) == (st, Some(Consume(st, delta[n]).error))
    ensures Consume(st, delta[n]).Ok? ==> ConsumeAll(st, delta[n..]) == ConsumeAll(Consume(st, delta[n]).value, delta[n + 1..])
  {
    assert delta[n..][0] == delta[n] && delta[n..][1..] == delta[n + 1..];
  }

  lemma TakeOneMore<T>(start: seq<T>, delta: seq<T>, n: nat)
    requires n < |delta|
    ensures start + delta[..n] + [delta[n]] == start + delta[..n + 1]
  {
  }

  lemma TakeIsPrefix<T>(start: seq<T>, delta: seq<T>, n: nat)
    requires n <= |delta|
    ensures start <= start + delta[..n] <= start + delta
  {
  }

  /** Part of a delta has been processed: where the run stands. */
  ghost predicate Underway(start: seq<NodeKey>, first: State, delta: seq<NodeKey>, n: nat, consumed: seq<NodeKey>, now: State)
    requires n <= |delta|
  {
    && Consumed(consumed, now) && consumed == start + delta[..n]
    && ConsumeAll(first, delta) == ConsumeAll(now, delta[n..])
  }

  lemma OneMoreConsumed(start: seq<NodeKey>, first: State, delta: seq<NodeKey>, n: nat, consumed: seq<NodeKey>, now: State, next: State)
    requires n < |delta| && Underway(start, first, delta, n, consumed, now) && Consume(now, delta[n]) == Ok(next)
    ensures Underway(start, first, delta, n + 1, consumed + [delta[n]], next)
  {
    ConsumeAllAt(now, delta, n);
    ConsumedSnoc(consumed, now, delta[n], next);
    TakeOneMore(start, delta, n);
  }

  lemma StopsHere(start: seq<NodeKey>, first: State, delta: seq<NodeKey>, n: nat, consumed: seq<NodeKey>, now: State, e: StepError)
    requires n < |delta| && Underway(start, first, delta, n, consumed, now) && Consume(now, delta[n]) == Err(e)
    ensures ConsumeAll(first, delta) == (now, Some(e)) && start <= consumed <= start + delta
  {
    ConsumeAllAt(now, delta, n);
    TakeIsPrefix(start, delta, n);
  }

  lemma AllConsumed(start: seq<NodeKey>, first: State, delta: seq<NodeKey>, consumed: seq<NodeKey>, now: State)
    requires Underway(start, first, delta, |delta|, consumed, now)
    ensures ConsumeAll(first, delta) == (now, None) && consumed == start + delta
  {
    assert delta[..|delta|] == delta && delta[|delta|..] == [];
  }

  class IncrementalReducer {
    var canonNodes: seq<NodeKey>
    var canonTable: map<NodeKey, NodeId>
    var mapping: seq<NodeId>
    var totalWork: nat

    /** Every node processed so far, in order. */
    ghost var consumed: seq<NodeKey>

    ghost function Snapshot(): State
      reads this
    {
      State(canonNodes, canonTable, mapping)
    }

    ghost predicate Valid()
      reads this
    {
      Consumed(consumed, Snapshot()) && totalWork <= |consumed|
    }

    constructor ()
      ensures Valid() && Snapshot() == EMPTY && consumed == [] && totalWork == 0
    {
      canonNodes, canonTable, mapping, totalWork, consumed := [], map[], [], 0, [];
    }

    /** Translate recorded ids to canonical ones, or name the first id not recorded yet. */
    method Translate(xs: seq<NodeId>) returns (r: Result<seq<NodeId>, NodeId>)
      ensures BadInput(xs, |mapping|).None? ==> r == Ok(Renumber(mapping, xs))
      ensures BadInput(xs, |mapping|).Some? ==> r == Err(BadInput(xs, |mapping|).value)
    {
      var ys: seq<NodeId> := [];
      for k := 0 to |xs|
        invariant |ys| == k
        invariant forall l :: 0 <= l < k ==> xs[l] < |mapping| && ys[l] == mapping[xs[l]]
      {
        if xs[k] >= |mapping| {
          BadInputBelow(xs, |mapping|, k);
          return Err(xs[k]);
        }
        ys := ys + [mapping[xs[k]]];
      }
      BadInputBelow(xs, |mapping|, |xs|);
      assert ys == Renumber(mapping, xs);
      r := Ok(ys);
    }

    /** The canonical id of a key over canonical inputs; none if an identity operator has no input. */
    method Canonicalize(key: NodeKey) returns (r: Option<NodeId>)
      modifies this`canonNodes, this`canonTable
      ensures r.Some? ==> CanonicalizeKey(old(canonNodes), old(canonTable), key) == Some((r.value, canonNodes, canonTable))
      ensures r.None? ==> CanonicalizeKey(old(canonNodes), old(canonTable), key) == None
      ensures r.None? ==> canonNodes == old(canonNodes) && canonTable == old(canonTable)
    {
      if key.Op? {
        if IdentityToken(key.Token()) {
          return if key.ins == [] then None else Some(key.ins[0]);
        }
        if |key.ins| == 2 && key.params == [] && key.name in SYMMETRIC_OPS {
          if key.Canon() in canonTable {
            return Some(canonTable[key.Canon()]);
          }
          var swapped := key.WithInputs([key.ins[1], key.ins[0]]);
          if swapped.Canon() in canonTable {
            return Some(canonTable[swapped.Canon()]);
          }
        }
      }
      if key.Canon() in canonTable {
        return Some(canonTable[key.Canon()]);
      }
      var id := |canonNodes|;
      canonNodes := canonNodes + [key];
      canonTable := canonTable[key.Canon() := id];
      r := Some(id);
    }

    /** Process one node. */
    method Record(key: NodeKey) returns (e: Option<StepError>)
      modifies this`canonNodes, this`canonTable, this`mapping
      ensures e.None? ==> Consume(old(Snapshot()), key) == Ok(Snapshot())
      ensures e.Some? ==> Consume(old(Snapshot()), key) == Err(e.value) && Snapshot() == old(Snapshot())
    {
      var inputs := Translate(key.Inputs());
      if inputs.Err? {
        return Some(BadNodeId(inputs.error));
      }
      var id := Canonicalize(key.WithInputs(inputs.value));
      if id.None? {
        return Some(IndexPanic);
      }
      mapping := mapping + [id.value];
      e := None;
    }

    /** Process a delta; a failing node leaves the nodes before it processed and the counter unmoved. */
    method Step(delta: seq<NodeKey>) returns (r: Result<nat, StepError>)
      requires Valid()
      modifies this
      ensures Valid()
      ensures (Snapshot(), if r.Err? then Some(r.error) else None) == ConsumeAll(old(Snapshot()), delta)
      ensures old(consumed) <= consumed <= old(consumed) + delta
      ensures r.Ok? ==> r.value == |delta| && consumed == old(consumed) + delta && totalWork == old(totalWork) + |delta|
      ensures r.Err? ==> totalWork == old(totalWork)
    {
      for n := 0 to |delta|
        invariant Underway(old(consumed), old(Snapshot()), delta, n, consumed, Snapshot()) && totalWork == old(totalWork)
      {
        ghost var before := Snapshot();
        var e := Record(delta[n]);
        if e.Some? {
          StopsHere(old(consumed), old(Snapshot()), delta, n, consumed, before, e.value);
          return Err(e.value);
        }
        OneMoreConsumed(old(consumed), old(Snapshot()), delta, n, consumed, before, Snapshot());
        consumed := consumed + [delta[n]];
      }
      AllConsumed(old(consumed), old(Snapshot()), delta, consumed, Snapshot());
      totalWork := totalWork + |delta|;
      r := Ok(|delta|);
    }

    /** Finish the reduction for outputs given by recorded id. */
    method Finalize(outputs: seq<NodeId>, engine: RewriteEngine, mode: FusionMode) returns (r: Result<Reduced, NodeId>)
      requires Valid() && SoundEngine(engine)
      ensures BadInput(outputs, |mapping|).None? ==>
        Finalizable(consumed, outputs, Snapshot()) && r == Ok(Finalized(consumed, outputs, Snapshot(), engine, mode))
      ensures BadInput(outputs, |mapping|).Some? ==> r == Err(BadInput(outputs, |mapping|).value)
    {
      var outs := Translate(outputs);
      if outs.Err? {
        return Err(outs.error);
      }
      CanonRequestable(consumed, outputs, Snapshot());
      var reduced := ReduceWithMode(canonNodes, outs.value, engine, mode);
      r := Ok(reduced);
    }
  }

  ghost predicate Finalizable(nodes: seq<NodeKey>, outs: seq<NodeId>, st: State) {
    Consumed(nodes, st) && AllBelow(outs, |st.mapping|)
  }

  lemma CanonRequestable(nodes: seq<NodeKey>, outs: seq<NodeId>, st: State)
    requires Finalizable(nodes, outs, st)
    ensures |st.mapping| == |nodes| && Requestable(st.canonNodes, Renumber(st.mapping, outs))
  {
    RunKeepsInv(nodes, st);
  }

  /** What finishing yields: the pipeline run over the canonical arena. */
  ghost function Finalized(nodes: seq<NodeKey>, outs: seq<NodeId>, st: State, engine: RewriteEngine, mode: FusionMode): Reduced
    requires Finalizable(nodes, outs, st) && SoundEngine(engine)
  {
    CanonRequestable(nodes, outs, st);
    ReduceNodes(st.canonNodes, Renumber(st.mapping, outs), engine, mode)
  }
}
