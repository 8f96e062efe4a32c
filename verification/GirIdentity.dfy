/** Exactly when writing a decoded store gives back the very bytes it was decoded from. */
module GirIdentity {
  import opened Wrappers
  import opened Param
  import opened Node
  import opened Bytes
  import opened Parsing
  import opened Gir
  import opened GirRoundTrip
  import opened GirArbitrary
  import opened Exactness
  import opened GirExact

  // ---- counted readings only append ----

  /** A step of a counted reading appends one item at most. */
  ghost predicate GrowsOn(read: nat -> Loaded -> Parser<Loaded>, grown: (Loaded, Loaded, nat) -> bool, i: nat, st: Loaded, bs: seq<byte>) {
    read(i)(st)(bs).Ok? ==> exists next, rest :: Leads(read, i, st, bs, next, rest) && grown(st, next, 1)
  }

  ghost predicate Chains(grown: (Loaded, Loaded, nat) -> bool) {
    && (forall s :: grown(s, s, 0))
    && (forall a, b, c, k: nat :: grown(a, b, 1) && grown(b, c, k) ==> grown(a, c, k + 1))
  }

  /** A counted reading ends by handing back its state. */
  ghost predicate Ends(read: nat -> Loaded -> Parser<Loaded>, n: nat) {
    forall s: Loaded :: read(n)(s) == Return(s)
  }

  lemma {:induction false} Grows(
      read: nat -> Loaded -> Parser<Loaded>, grown: (Loaded, Loaded, nat) -> bool, i: nat, n: nat, st: Loaded, bs: seq<byte>)
    requires i <= n && read(i)(st)(bs).Ok? && Ends(read, n) && Chains(grown)
    requires forall j: nat, s: Loaded, b: seq<byte> :: j < n ==> GrowsOn(read, grown, j, s, b)
    ensures grown(st, read(i)(st)(bs).value.0, n - i)
    decreases n - i
  {
    if i < n {
      assert GrowsOn(read, grown, i, st, bs);
      var next, rest :| Leads(read, i, st, bs, next, rest) && grown(st, next, 1);
      Grows(read, grown, i + 1, n, next, rest);
    }
  }

  // ---- nodes ----

  /** Nodes `idx` to `n` are checked one by one, and none of them has been seen before. */
  ghost predicate NodesCheck(idx: nat, n: nat, st: Loaded, bs: seq<byte>)
    decreases n - idx
  {
    idx < n ==>
      && KeyCheck()(bs) && KeyP(idx)(bs).Ok?
      && var (key, rest) := KeyP(idx)(bs).value;
      key.Canon() !in st.table && NodesCheck(idx + 1, n, Added(st, key), rest)
  }

  lemma AddedNodes(st: Loaded, key: NodeKey)
    ensures key.Canon() in st.table ==> Added(st, key).nodes == st.nodes
    ensures key.Canon() !in st.table ==> Added(st, key).nodes == st.nodes + [key]
    ensures Added(st, key).outputs == st.outputs
  {
  }

  ghost predicate NodesAppended(st: Loaded, end: Loaded, most: nat) {
    st.nodes <= end.nodes && |end.nodes| <= |st.nodes| + most && end.outputs == st.outputs
  }

  lemma NodeAppended(idx: nat, n: nat, st: Loaded, bs: seq<byte>) returns (next: Loaded, mid: seq<byte>)
    requires idx < n && NodesP(idx, n, st)(bs).Ok?
    ensures NodesAppended(st, next, 1) && NodesP(idx + 1, n, next)(mid) == NodesP(idx, n, st)(bs)
  {
    NodesParts(idx, n, st, bs);
    var key := KeyP(idx)(bs).value.0;
    AddedNodes(st, key);
    next, mid := Added(st, key), KeyP(idx)(bs).value.1;
  }

  lemma NodesGrowOn(n: nat, j: nat, s: Loaded, b: seq<byte>)
    requires j < n
    ensures GrowsOn(NodesFrom(n), NodesAppended, j, s, b)
  {
    var read := NodesFrom(n);
    assert read(j)(s) == NodesP(j, n, s);
    if read(j)(s)(b).Ok? {
      var next, mid := NodeAppended(j, n, s, b);
      assert read(j + 1)(next) == NodesP(j + 1, n, next);
      assert Leads(read, j, s, b, next, mid);
    }
  }

  /** Reading nodes only appends, and at most one node each. */
  lemma NodesGrow(idx: nat, n: nat, st: Loaded, bs: seq<byte>, end: Loaded, rest: seq<byte>)
    requires idx <= n && NodesP(idx, n, st)(bs) == Ok((end, rest))
    ensures NodesAppended(st, end, n - idx)
  {
    forall j: nat, s: Loaded, b: seq<byte> | j < n
      ensures GrowsOn(NodesFrom(n), NodesAppended, j, s, b)
    {
      NodesGrowOn(n, j, s, b);
    }
    NodesEnd(n);
    NodesChain();
    assert NodesFrom(n)(idx)(st) == NodesP(idx, n, st);
    Grows(NodesFrom(n), NodesAppended, idx, n, st, bs);
  }

  lemma NodesChain()
    ensures Chains(NodesAppended)
  {
  }

  lemma NodesEnd(n: nat)
    ensures Ends(NodesFrom(n), n)
  {
    forall s: Loaded
      ensures NodesFrom(n)(n)(s) == Return(s)
    {
      assert NodesFrom(n)(n)(s) == NodesP(n, n, s);
    }
  }

  ghost predicate NodesWritten(idx: nat, n: nat, bs: seq<byte>, end: Loaded, rest: seq<byte>) {
    |end.nodes| == n && idx <= n && bs == Concat(Map(KeyBytes, end.nodes[idx..])) + rest
  }

  lemma FirstWritten(idx: nat, n: nat, end: Loaded, rest: seq<byte>)
    requires idx < n == |end.nodes|
    ensures Concat(Map(KeyBytes, end.nodes[idx..])) + rest
      == KeyBytes(end.nodes[idx]) + (Concat(Map(KeyBytes, end.nodes[idx + 1..])) + rest)
  {
    MapFirst(KeyBytes, end.nodes[idx..]);
    assert end.nodes[idx..][1..] == end.nodes[idx + 1..];
    Reassociate(KeyBytes(end.nodes[idx]), Concat(Map(KeyBytes, end.nodes[idx + 1..])), rest);
  }

  lemma NodeStripped(idx: nat, n: nat, bs: seq<byte>, key: NodeKey, mid: seq<byte>, end: Loaded, rest: seq<byte>)
    requires idx < n == |end.nodes| && end.nodes[idx] == key && KeyP(idx)(bs) == Ok((key, mid))
    ensures KeyCheck()(bs) && NodesWritten(idx + 1, n, mid, end, rest) <==> NodesWritten(idx, n, bs, end, rest)
  {
    KeyExact(idx);
    assert ExactAt(KeyP(idx), KeyCheck(), KeyBytes, bs) && OwnAt(KeyP(idx), KeyBytes, bs);
    FirstWritten(idx, n, end, rest);
    ReadBack(KeyP(idx), KeyBytes(key), key, Concat(Map(KeyBytes, end.nodes[idx + 1..])) + rest);
  }

  /** One node is read and checked, and then the others. */
  lemma NodeNext(idx: nat, n: nat, st: Loaded, bs: seq<byte>) returns (key: NodeKey, mid: seq<byte>)
    requires idx < n && NodesP(idx, n, st)(bs).Ok?
    ensures KeyP(idx)(bs) == Ok((key, mid)) && NodesP(idx + 1, n, Added(st, key))(mid) == NodesP(idx, n, st)(bs)
    ensures NodesCheck(idx, n, st, bs) == (KeyCheck()(bs) && key.Canon() !in st.table && NodesCheck(idx + 1, n, Added(st, key), mid))
  {
    NodesParts(idx, n, st, bs);
    key, mid := KeyP(idx)(bs).value.0, KeyP(idx)(bs).value.1;
  }

  /** A repeated node leaves too few; a new one has the next place. */
  lemma NodePlaced(idx: nat, n: nat, st: Loaded, key: NodeKey, mid: seq<byte>, end: Loaded, rest: seq<byte>)
    requires idx < n && |st.nodes| == idx && NodesP(idx + 1, n, Added(st, key))(mid) == Ok((end, rest))
    ensures key.Canon() in st.table ==> |end.nodes| < n
    ensures key.Canon() !in st.table ==> |Added(st, key).nodes| == idx + 1 && idx < |end.nodes| && end.nodes[idx] == key
  {
    NodesGrow(idx + 1, n, Added(st, key), mid, end, rest);
    AddedNodes(st, key);
    AppendedPlaces(Added(st, key), end, n - (idx + 1), idx);
  }

  lemma AppendedPlaces(st: Loaded, end: Loaded, most: nat, i: nat)
    requires NodesAppended(st, end, most)
    ensures |st.nodes| <= |end.nodes| <= |st.nodes| + most
    ensures i < |st.nodes| ==> end.nodes[i] == st.nodes[i]
  {
  }

  /** The bytes of the nodes are the writer's own exactly when they pass the check. */
  lemma {:induction false} NodesExact(idx: nat, n: nat, st: Loaded, bs: seq<byte>, end: Loaded, rest: seq<byte>)
    requires idx <= n && |st.nodes| == idx && NodesP(idx, n, st)(bs) == Ok((end, rest))
    ensures NodesCheck(idx, n, st, bs) <==> NodesWritten(idx, n, bs, end, rest)
    decreases n - idx
  {
    if idx == n {
      assert end.nodes[idx..] == [] && [] + rest == rest;
    } else {
      var key, mid := NodeNext(idx, n, st, bs);
      NodePlaced(idx, n, st, key, mid, end, rest);
      if key.Canon() !in st.table {
        NodesExact(idx + 1, n, Added(st, key), mid, end, rest);
        if |end.nodes| == n {
          NodeStripped(idx, n, bs, key, mid, end, rest);
        }
      }
    }
  }

  // ---- outputs ----

  ghost predicate OutputsCheck(i: nat, n: nat, st: Loaded, bs: seq<byte>)
    decreases n - i
  {
    i < n ==>
      && U64()(bs).Ok?
      && var (id, rest) := U64()(bs).value;
      id !in st.outputs && OutputsCheck(i + 1, n, Marked(st, id), rest)
  }

  ghost predicate OutputsAppended(st: Loaded, end: Loaded, most: nat) {
    st.outputs <= end.outputs && |end.outputs| <= |st.outputs| + most && end.nodes == st.nodes
  }

  lemma OutputAppended(i: nat, n: nat, st: Loaded, bs: seq<byte>) returns (next: Loaded, mid: seq<byte>)
    requires i < n && OutputsP(i, n, st)(bs).Ok?
    ensures OutputsAppended(st, next, 1) && OutputsP(i + 1, n, next)(mid) == OutputsP(i, n, st)(bs)
  {
    OutputsParts(i, n, st, bs);
    next, mid := Marked(st, U64()(bs).value.0), U64()(bs).value.1;
  }

  lemma OutputsGrowOn(n: nat, j: nat, s: Loaded, b: seq<byte>)
    requires j < n
    ensures GrowsOn(OutputsFrom(n), OutputsAppended, j, s, b)
  {
    var read := OutputsFrom(n);
    assert read(j)(s) == OutputsP(j, n, s);
    if read(j)(s)(b).Ok? {
      var next, mid := OutputAppended(j, n, s, b);
      assert read(j + 1)(next) == OutputsP(j + 1, n, next);
      assert Leads(read, j, s, b, next, mid);
    }
  }

  lemma OutputsGrow(i: nat, n: nat, st: Loaded, bs: seq<byte>, end: Loaded, rest: seq<byte>)
    requires i <= n && OutputsP(i, n, st)(bs) == Ok((end, rest))
    ensures OutputsAppended(st, end, n - i)
  {
    forall j: nat, s: Loaded, b: seq<byte> | j < n
      ensures GrowsOn(OutputsFrom(n), OutputsAppended, j, s, b)
    {
      OutputsGrowOn(n, j, s, b);
    }
    OutputsEnd(n);
    OutputsChain();
    assert OutputsFrom(n)(i)(st) == OutputsP(i, n, st);
    Grows(OutputsFrom(n), OutputsAppended, i, n, st, bs);
  }

  lemma OutputsChain()
    ensures Chains(OutputsAppended)
  {
  }

  lemma OutputsEnd(n: nat)
    ensures Ends(OutputsFrom(n), n)
  {
    forall s: Loaded
      ensures OutputsFrom(n)(n)(s) == Return(s)
    {
      assert OutputsFrom(n)(n)(s) == OutputsP(n, n, s);
    }
  }

  ghost predicate OutputsWritten(i: nat, n: nat, bs: seq<byte>, end: Loaded, rest: seq<byte>) {
    |end.outputs| == n && i <= n && bs == Concat(Map(IdBytes, end.outputs[i..])) + rest
  }

  lemma FirstIdWritten(i: nat, n: nat, end: Loaded, rest: seq<byte>)
    requires i < n == |end.outputs|
    ensures Concat(Map(IdBytes, end.outputs[i..])) + rest
      == IdBytes(end.outputs[i]) + (Concat(Map(IdBytes, end.outputs[i + 1..])) + rest)
  {
    MapFirst(IdBytes, end.outputs[i..]);
    assert end.outputs[i..][1..] == end.outputs[i + 1..];
    Reassociate(IdBytes(end.outputs[i]), Concat(Map(IdBytes, end.outputs[i + 1..])), rest);
  }

  lemma OutputStripped(i: nat, n: nat, bs: seq<byte>, id: u64, mid: seq<byte>, end: Loaded, rest: seq<byte>)
    requires i < n == |end.outputs| && end.outputs[i] == id && U64()(bs) == Ok((id, mid))
    ensures OutputsWritten(i + 1, n, mid, end, rest) <==> OutputsWritten(i, n, bs, end, rest)
  {
    LongExact();
    assert ExactAt(U64(), Always(), LongBytes, bs) && bs == IdBytes(id) + mid;
    FirstIdWritten(i, n, end, rest);
    SameTail(IdBytes(id), mid, Concat(Map(IdBytes, end.outputs[i + 1..])) + rest);
  }

  lemma OutputNext(i: nat, n: nat, st: Loaded, bs: seq<byte>) returns (id: u64, mid: seq<byte>)
    requires i < n && OutputsP(i, n, st)(bs).Ok?
    ensures U64()(bs) == Ok((id, mid)) && OutputsP(i + 1, n, Marked(st, id))(mid) == OutputsP(i, n, st)(bs)
    ensures OutputsCheck(i, n, st, bs) == (id !in st.outputs && OutputsCheck(i + 1, n, Marked(st, id), mid))
  {
    OutputsParts(i, n, st, bs);
    id, mid := U64()(bs).value.0, U64()(bs).value.1;
  }

  lemma OutputPlaced(i: nat, n: nat, st: Loaded, id: u64, mid: seq<byte>, end: Loaded, rest: seq<byte>)
    requires i < n && |st.outputs| == i && OutputsP(i + 1, n, Marked(st, id))(mid) == Ok((end, rest))
    ensures id in st.outputs ==> |end.outputs| < n
    ensures id !in st.outputs ==> |Marked(st, id).outputs| == i + 1 && i < |end.outputs| && end.outputs[i] == id
  {
    OutputsGrow(i + 1, n, Marked(st, id), mid, end, rest);
    MarkedPlaces(Marked(st, id), end, n - (i + 1), i);
  }

  lemma MarkedPlaces(st: Loaded, end: Loaded, most: nat, i: nat)
    requires OutputsAppended(st, end, most)
    ensures |st.outputs| <= |end.outputs| <= |st.outputs| + most
    ensures i < |st.outputs| ==> end.outputs[i] == st.outputs[i]
  {
  }

  /** The bytes of the outputs are the writer's own exactly when no output repeats. */
  lemma {:induction false} OutputsExact(i: nat, n: nat, st: Loaded, bs: seq<byte>, end: Loaded, rest: seq<byte>)
    requires i <= n && |st.outputs| == i && OutputsP(i, n, st)(bs) == Ok((end, rest))
    ensures OutputsCheck(i, n, st, bs) <==> OutputsWritten(i, n, bs, end, rest)
    decreases n - i
  {
    if i == n {
      assert end.outputs[i..] == [] && [] + rest == rest;
    } else {
      var id, mid := OutputNext(i, n, st, bs);
      OutputPlaced(i, n, st, id, mid, end, rest);
      if id !in st.outputs {
        OutputsExact(i + 1, n, Marked(st, id), mid, end, rest);
        if |end.outputs| == n {
          OutputStripped(i, n, bs, id, mid, end, rest);
        }
      }
    }
  }

  lemma SameTail(a: seq<byte>, b: seq<byte>, c: seq<byte>)
    ensures a + b == a + c <==> b == c
  {
    assert (a + b)[|a|..] == b && (a + c)[|a|..] == c;
  }

  // ---- the whole graph ----

  /** The parts of accepted bytes: after the magic a count, the nodes, a count and the outputs. */
  datatype Parts = Parts(n: nat, nodeBytes: seq<byte>, mid: Loaded, afterNodes: seq<byte>,
                         m: nat, idBytes: seq<byte>, end: Loaded, left: seq<byte>)

  ghost predicate Splits(bs: seq<byte>, p: Parts) {
    && |bs| >= 4 && bs[..4] == MAGIC
    && U32()(bs[4..]) == Ok((p.n, p.nodeBytes))
    && NodesP(0, p.n, NOTHING)(p.nodeBytes) == Ok((p.mid, p.afterNodes))
    && U32()(p.afterNodes) == Ok((p.m, p.idBytes))
    && OutputsP(0, p.m, p.mid)(p.idBytes) == Ok((p.end, p.left))
  }

  /** The check on all the bytes: every boolean and every preprocessing flag is 0 or 1, the entries of every
      map are in key order, no node and no output is repeated, and nothing is left over. */
  ghost predicate Strict(bs: seq<byte>) {
    exists p :: Splits(bs, p) && StrictParts(p)
  }

  ghost predicate StrictParts(p: Parts) {
    NodesCheck(0, p.n, NOTHING, p.nodeBytes) && OutputsCheck(0, p.m, p.mid, p.idBytes) && p.left == []
  }

  lemma AcceptedSplits(bs: seq<byte>) returns (p: Parts)
    requires GraphP()(bs).Ok?
    ensures Splits(bs, p) && GraphP()(bs) == Ok((p.end, p.left))
  {
    var rest := bs[4..];
    assert GraphP()(bs) == AfterMagic(bs[..4])(rest) == Bind(Bind(U32(), AllNodes), OutputsAfter)(rest);
    var (n, nodeBytes) := U32()(rest).value;
    assert Bind(U32(), AllNodes)(rest) == NodesP(0, n, NOTHING)(nodeBytes);
    var (mid, afterNodes) := NodesP(0, n, NOTHING)(nodeBytes).value;
    assert GraphP()(bs) == OutputsAfter(mid)(afterNodes);
    var (m, idBytes) := U32()(afterNodes).value;
    assert OutputsAfter(mid)(afterNodes) == OutputsP(0, m, mid)(idBytes);
    var (end, left) := OutputsP(0, m, mid)(idBytes).value;
    p := Parts(n, nodeBytes, mid, afterNodes, m, idBytes, end, left);
  }

  lemma SplitsUnique(bs: seq<byte>, p: Parts, q: Parts)
    requires Splits(bs, p) && Splits(bs, q)
    ensures p == q
  {
  }

  /** The bytes of the two halves: counts and contents. */
  lemma PartsBytes(bs: seq<byte>, p: Parts)
    requires Splits(bs, p)
    ensures p.n < WORD && p.m < WORD
    ensures bs == MAGIC + (LeBytes(p.n, 4) + p.nodeBytes) && p.afterNodes == LeBytes(p.m, 4) + p.idBytes
  {
    WordExact(bs[4..]);
    WordExact(p.afterNodes);
    WordSizes();
    LeValueBytes(bs[4..][..4]);
    LeValueBytes(p.afterNodes[..4]);
    assert bs == bs[..4] + bs[4..];
  }

  lemma GraphRegrouped(nodes: seq<NodeKey>, outs: seq<NodeId>)
    ensures GraphBytes(nodes, outs)
      == MAGIC + (LeBytes(|nodes|, 4) + (Concat(Map(KeyBytes, nodes)) + (LeBytes(|outs|, 4) + Concat(Map(IdBytes, outs)))))
  {
    Reassociate(LeBytes(|nodes|, 4), Concat(Map(KeyBytes, nodes)), Counted(IdBytes, outs));
  }

  lemma StrictWritten(bs: seq<byte>, p: Parts)
    requires Splits(bs, p) && StrictParts(p)
    ensures GraphBytes(p.end.nodes, p.end.outputs) == bs
  {
    PartsBytes(bs, p);
    NodesExact(0, p.n, NOTHING, p.nodeBytes, p.mid, p.afterNodes);
    NodesGrow(0, p.n, NOTHING, p.nodeBytes, p.mid, p.afterNodes);
    OutputsExact(0, p.m, p.mid, p.idBytes, p.end, p.left);
    OutputsGrow(0, p.m, p.mid, p.idBytes, p.end, p.left);
    assert p.end.nodes[0..] == p.end.nodes && p.end.outputs[0..] == p.end.outputs;
    assert Concat(Map(IdBytes, p.end.outputs)) + [] == Concat(Map(IdBytes, p.end.outputs));
    GraphRegrouped(p.end.nodes, p.end.outputs);
  }

  lemma SameCount(a: nat, b: nat)
    requires a < WORD && b < WORD && LeBytes(a, 4) == LeBytes(b, 4)
    ensures a == b
  {
    U32ReadsBack(a);
    U32ReadsBack(b);
    ReadBack<nat>(U32(), LeBytes(a, 4), a, []);
    ReadBack<nat>(U32(), LeBytes(b, 4), b, []);
  }

  lemma NodesSplit(nodes: seq<NodeKey>, table: map<NodeKey, NodeId>, outs: seq<NodeId>, nodeBytes: seq<byte>, rest: seq<byte>)
    requires Stored(nodes, table, outs) && Fits(nodes, outs) && nodeBytes == Concat(Map(KeyBytes, nodes)) + rest
    ensures NodesP(0, |nodes|, NOTHING)(nodeBytes) == Ok((Loaded(nodes, table, []), rest))
  {
    assert nodes[0..] == nodes;
    NodesReadBack(nodes, table, NOTHING, 0);
    ReadBack(NodesP(0, |nodes|, NOTHING), Concat(Map(KeyBytes, nodes)), Loaded(nodes, table, []), rest);
  }

  lemma OutputsSplit(nodes: seq<NodeKey>, table: map<NodeKey, NodeId>, outs: seq<NodeId>)
    requires Stored(nodes, table, outs) && Fits(nodes, outs)
    ensures OutputsP(0, |outs|, Loaded(nodes, table, []))(Concat(Map(IdBytes, outs))) == Ok((Loaded(nodes, table, outs), []))
  {
    var idBytes, mid := Concat(Map(IdBytes, outs)), Loaded(nodes, table, []);
    assert outs[0..] == outs && idBytes + [] == idBytes;
    OutputsReadBack(outs, mid, 0);
    ReadBack(OutputsP(0, |outs|, mid), idBytes, Loaded(nodes, table, outs), []);
  }

  /** What was written splits where it was joined. */
  lemma WrittenSplits(nodes: seq<NodeKey>, table: map<NodeKey, NodeId>, outs: seq<NodeId>, p: Parts)
    requires Stored(nodes, table, outs) && Fits(nodes, outs) && Splits(GraphBytes(nodes, outs), p)
    ensures p.n == |nodes| && p.nodeBytes == Concat(Map(KeyBytes, nodes)) + p.afterNodes && p.mid == Loaded(nodes, table, [])
    ensures p.m == |outs| && p.idBytes == Concat(Map(IdBytes, outs)) && p.end == Loaded(nodes, table, outs) && p.left == []
  {
    var bs := GraphBytes(nodes, outs);
    PartsBytes(bs, p);
    GraphRegrouped(nodes, outs);
    var nodeBytes, idBytes := Concat(Map(KeyBytes, nodes)), Concat(Map(IdBytes, outs));
    SameTail(MAGIC, LeBytes(p.n, 4) + p.nodeBytes, LeBytes(|nodes|, 4) + (nodeBytes + (LeBytes(|outs|, 4) + idBytes)));
    SameHead(LeBytes(p.n, 4), p.nodeBytes, LeBytes(|nodes|, 4), nodeBytes + (LeBytes(|outs|, 4) + idBytes));
    SameCount(p.n, |nodes|);
    NodesSplit(nodes, table, outs, p.nodeBytes, LeBytes(|outs|, 4) + idBytes);
    SameHead(LeBytes(p.m, 4), p.idBytes, LeBytes(|outs|, 4), idBytes);
    SameCount(p.m, |outs|);
    OutputsSplit(nodes, table, outs);
  }

  lemma SameHead(a: seq<byte>, b: seq<byte>, c: seq<byte>, d: seq<byte>)
    requires a + b == c + d && |a| == |c|
    ensures a == c && b == d
  {
    assert a == (a + b)[..|a|] && c == (c + d)[..|c|];
    assert b == (a + b)[|a|..] && d == (c + d)[|c|..];
  }

  lemma NodesStrict(nodes: seq<NodeKey>, bs: seq<byte>, end: Loaded, rest: seq<byte>)
    requires NodesP(0, |nodes|, NOTHING)(bs) == Ok((end, rest)) && end.nodes == nodes
    requires bs == Concat(Map(KeyBytes, nodes)) + rest
    ensures NodesCheck(0, |nodes|, NOTHING, bs)
  {
    assert nodes[0..] == nodes;
    NodesExact(0, |nodes|, NOTHING, bs, end, rest);
  }

  lemma OutputsStrict(outs: seq<NodeId>, st: Loaded, bs: seq<byte>, end: Loaded)
    requires st.outputs == [] && OutputsP(0, |outs|, st)(bs) == Ok((end, [])) && end.outputs == outs
    requires bs == Concat(Map(IdBytes, outs))
    ensures OutputsCheck(0, |outs|, st, bs)
  {
    assert outs[0..] == outs && bs + [] == bs;
    OutputsExact(0, |outs|, st, bs, end, []);
  }

  /** Whatever bytes are accepted, writing the decoded store gives back those bytes if and only if they pass
      the strict check. */
  lemma ByteIdenticalIffStrict(bs: seq<byte>)
    requires Deserialized(bs).Ok?
    ensures var st := Deserialized(bs).value; GraphBytes(st.nodes, st.outputs) == bs <==> Strict(bs)
  {
    AcceptedReserializes(bs);
    var st := Deserialized(bs).value;
    var p := AcceptedSplits(bs);
    if Strict(bs) {
      var q :| Splits(bs, q) && StrictParts(q);
      SplitsUnique(bs, p, q);
      StrictWritten(bs, p);
    }
    if GraphBytes(st.nodes, st.outputs) == bs {
      WrittenSplits(st.nodes, st.table, st.outputs, p);
      NodesStrict(st.nodes, p.nodeBytes, p.mid, p.afterNodes);
      OutputsStrict(st.outputs, p.mid, p.idBytes, p.end);
    }
  }
}
