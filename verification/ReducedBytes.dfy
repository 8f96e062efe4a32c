/** Reduced graphs in the GIR1 format: a rebuilt store survives being written and read. */
module ReducedBytes {
  import opened Wrappers
  import opened Selection
  import opened Node
  import opened Interning
  import opened Semantics
  import opened Engine
  import opened Fusion
  import opened StageFusion
  import opened Reduce
  import opened Store
  import opened Reordering
  import opened Gir
  import opened GirRoundTrip

  /** Every length and index of the node fits its word, wherever the node stands. */
  ghost predicate Short(k: NodeKey) {
    match k
    case Source(name, params) => FitsText(name) && FitsParams(params)
    case Op(name, params, ins) => FitsText(name) && FitsParams(params) && |ins| < WORD
    case Reduction(name, params, ins) => FitsText(name) && FitsParams(params) && |ins| < WORD
    case External(d, params, ins) => FitsDescriptor(d) && FitsParams(params) && |ins| < WORD
    case Stage(ins, members) => |ins| < WORD && |members| < WORD && forall m :: 0 <= m < |members| ==> FitsMember(WORD, members[m])
  }

  lemma StageFits(k: NodeKey)
    requires k.Stage? && StageOk(k) && Short(k)
    ensures FitsMembers(k.members)
  {
    forall m, l | 0 <= m < |k.members| && 0 <= l < |k.members[m].refs|
      ensures FitsRef(m, k.members[m].refs[l])
    {
      assert FitsMember(WORD, k.members[m]);
      assert RefsInRange(k.members[m].refs, |k.ins|, m);
      assert FitsRef(WORD, k.members[m].refs[l]);
    }
  }

  lemma ShortFits(nodes: seq<NodeKey>, i: nat)
    requires Runnable(nodes) && |nodes| < WORD && i < |nodes| && Short(nodes[i])
    ensures FitsKey(i, nodes[i])
  {
    assert AllBelow(nodes[i].Inputs(), i);
    if nodes[i].Stage? {
      StageFits(nodes[i]);
    }
  }

  /** Different ids below a bound are no more than the bound. */
  lemma DistinctBelow(xs: seq<nat>, n: nat)
    requires NoDuplicates(xs) && AllBelow(xs, n)
    ensures |xs| <= n
  {
    InjectiveCount(xs);
    BelowCount(Elements(xs), n);
  }

  lemma {:induction false} BelowCount(s: set<nat>, n: nat)
    requires forall x :: x in s ==> x < n
    ensures |s| <= n
  {
    if n == 0 {
      assert s == {};
    } else {
      BelowCount(s - {n - 1}, n - 1);
    }
  }

  lemma MarksStored(nodes: seq<NodeKey>, outs: seq<NodeId>, table: map<NodeKey, NodeId>)
    requires Runnable(nodes) && AllBelow(outs, |nodes|) && TableExact(nodes, table)
    requires |nodes| < WORD && forall i :: 0 <= i < |nodes| ==> Short(nodes[i])
    ensures Stored(nodes, table, FirstOccurrences(outs)) && Fits(nodes, FirstOccurrences(outs))
  {
    var marks := FirstOccurrences(outs);
    FirstOccurrencesFacts(outs);
    forall i | 0 <= i < |nodes|
      ensures FitsKey(i, nodes[i])
    {
      ShortFits(nodes, i);
    }
    forall k | 0 <= k < |marks|
      ensures marks[k] < |nodes|
    {
      assert marks[k] in outs;
    }
    DistinctBelow(marks, |nodes|);
  }

  /** The store rebuilt from a reduction is written and read back node by node, stages included, as long
      as its lengths fit the format. */
  lemma ReducedStoreRoundTrip(
      nodes: seq<NodeKey>, outs: seq<NodeId>, engine: RewriteEngine, mode: FusionMode, red: Reduced, table: map<NodeKey, NodeId>)
    requires Reducible(nodes, outs) && SoundEngine(engine) && red == ReduceNodes(nodes, outs, engine, mode)
    requires TableExact(red.nodes, table) && |red.nodes| < WORD
    requires forall i :: 0 <= i < |red.nodes| ==> Short(red.nodes[i])
    ensures var marks := FirstOccurrences(red.outputs);
      Deserialized(GraphBytes(red.nodes, marks)) == Ok(Loaded(red.nodes, table, marks))
  {
    ReduceRunnable(nodes, outs, engine, mode);
    MarksStored(red.nodes, red.outputs, table);
    RoundTrip(red.nodes, table, FirstOccurrences(red.outputs), []);
  }
}
