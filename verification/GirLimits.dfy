/** Accepted bytes that writing the decoded store does not give back, one for each way the decoder is more
liberal than the writer. */
module GirLimits {
  import opened Wrappers
  import opened Param
  import opened Node
  import opened Bytes
  import opened Utf8
  import opened Parsing
  import opened Gir
  import opened GirRoundTrip
  import opened Exactness
  import opened GirIdentity
  import GirExact

  /** The bytes are accepted, but writing what they decode to gives others. */
  ghost predicate NotReproduced(bs: seq<byte>) {
    Deserialized(bs).Ok? && GraphBytes(Deserialized(bs).value.nodes, Deserialized(bs).value.outputs) != bs
  }

  lemma Reproduces(bs: seq<byte>, st: Loaded, bytes: seq<byte>)
    requires Deserialized(bs) == Ok(st) && GraphBytes(st.nodes, st.outputs) == bytes && bytes != bs
    ensures NotReproduced(bs)
  {
  }

  lemma NotReproducedNotStrict(bs: seq<byte>)
    requires NotReproduced(bs)
    ensures !Strict(bs)
  {
    ByteIdenticalIffStrict(bs);
  }

  // ---- bytes left over ----

  const EMPTY_GRAPH: seq<byte> := GraphBytes([], [])

  lemma TrailingByte()
    ensures NotReproduced(EMPTY_GRAPH + [0])
  {
    RoundTrip([], map[], [], [0]);
  }

  // ---- counted nodes, then counted outputs ----

  function GraphOf(n: nat, nodes: seq<byte>, m: nat, outs: seq<byte>): seq<byte> {
    MAGIC + ((LeBytes(n, 4) + nodes) + (LeBytes(m, 4) + outs))
  }

  lemma GraphDecodes(n: nat, nodes: seq<byte>, mid: Loaded, m: nat, outs: seq<byte>, end: Loaded)
    requires n < WORD && m < WORD
    requires ReadsBack(NodesP(0, n, NOTHING), nodes, mid) && ReadsBack(OutputsP(0, m, mid), outs, end)
    ensures Deserialized(GraphOf(n, nodes, m, outs)) == Ok(end)
  {
    U32ReadsBack(n);
    U32ReadsBack(m);
    BindReadsBack<nat, Loaded>(U32(), AllNodes, LeBytes(n, 4), n, nodes, mid);
    BindReadsBack<nat, Loaded>(U32(), AllOutputs(mid), LeBytes(m, 4), m, outs, end);
    BindReadsBack(Bind(U32(), AllNodes), OutputsAfter, LeBytes(n, 4) + nodes, mid, LeBytes(m, 4) + outs, end);
    TakeReadsBack(MAGIC);
    BindReadsBack(Take(4), AfterMagic, MAGIC, MAGIC, (LeBytes(n, 4) + nodes) + (LeBytes(m, 4) + outs), end);
    ReadBack(GraphP(), GraphOf(n, nodes, m, outs), end, []);
    assert GraphOf(n, nodes, m, outs) + [] == GraphOf(n, nodes, m, outs);
  }

  lemma GraphIsGraphOf(nodes: seq<NodeKey>, outs: seq<NodeId>)
    ensures GraphBytes(nodes, outs) == GraphOf(|nodes|, Concat(Map(KeyBytes, nodes)), |outs|, Concat(Map(IdBytes, outs)))
  {
  }

  lemma NoOutputs(st: Loaded)
    ensures ReadsBack(OutputsP(0, 0, st), [], st)
  {
    ReturnReadsBack(st);
  }

  /** Counts and contents can be told apart. */
  lemma SameGraph(n: nat, nodes: seq<byte>, m: nat, outs: seq<byte>, n': nat, nodes': seq<byte>, m': nat, outs': seq<byte>)
    requires n < WORD && n' < WORD && GraphOf(n, nodes, m, outs) == GraphOf(n', nodes', m', outs')
    ensures n == n' && nodes + (LeBytes(m, 4) + outs) == nodes' + (LeBytes(m', 4) + outs')
  {
    SameTail(MAGIC, (LeBytes(n, 4) + nodes) + (LeBytes(m, 4) + outs), (LeBytes(n', 4) + nodes') + (LeBytes(m', 4) + outs'));
    Reassociate(LeBytes(n, 4), nodes, LeBytes(m, 4) + outs);
    Reassociate(LeBytes(n', 4), nodes', LeBytes(m', 4) + outs');
    SameHead(LeBytes(n, 4), nodes + (LeBytes(m, 4) + outs), LeBytes(n', 4), nodes' + (LeBytes(m', 4) + outs'));
    SameCount(n, n');
  }

  lemma SameOnly(n: nat, nodes: seq<byte>, nodes': seq<byte>)
    requires n < WORD && GraphOf(n, nodes, 0, []) == GraphOf(n, nodes', 0, [])
    ensures nodes == nodes'
  {
    SameGraph(n, nodes, 0, [], n, nodes', 0, []);
    var tail := LeBytes(0, 4) + [];
    assert |nodes| == |nodes + tail| - |tail| == |nodes'|;
    SameHead(nodes, tail, nodes', tail);
  }

  // ---- one node that is not written as it was read ----

  lemma OneKeyReadsBack(node: seq<byte>, k: NodeKey)
    requires ReadsBack(KeyP(0), node, k) && k.Inputs() == []
    ensures ReadsBack(NodesP(0, 1, NOTHING), node, Added(NOTHING, k))
  {
    ReturnReadsBack(Added(NOTHING, k));
    assert NodesP(1, 1, Added(NOTHING, k)) == Return(Added(NOTHING, k));
    BindReadsBack(KeyP(0), NextNode(0, 1, NOTHING), node, k, [], Added(NOTHING, k));
    assert node + [] == node;
  }

  lemma OneKeyWritten(k: NodeKey)
    ensures Concat(Map(KeyBytes, [k])) == KeyBytes(k) && Concat(Map(IdBytes, [])) == []
  {
    assert Map(KeyBytes, [k]) == [KeyBytes(k)];
    assert Concat([KeyBytes(k)]) == KeyBytes(k) + Concat([]) == KeyBytes(k);
  }

  lemma OddNode(node: seq<byte>, k: NodeKey)
    requires ReadsBack(KeyP(0), node, k) && k.Inputs() == [] && node != KeyBytes(k)
    ensures NotReproduced(GraphOf(1, node, 0, []))
  {
    var st := Added(NOTHING, k);
    OneKeyReadsBack(node, k);
    NoOutputs(st);
    GraphDecodes(1, node, st, 0, [], st);
    assert st.nodes == [k] && st.outputs == [];
    OneKeyWritten(k);
    GraphIsGraphOf([k], []);
    if GraphOf(1, KeyBytes(k), 0, []) == GraphOf(1, node, 0, []) {
      SameOnly(1, KeyBytes(k), node);
    }
    Reproduces(GraphOf(1, node, 0, []), st, GraphOf(1, KeyBytes(k), 0, []));
  }

  // ---- the source without a name and its parts ----

  lemma NoName()
    ensures FitsText("") && TextBytes("") == LeBytes(0, 4)
  {
    assert Encode("") == [];
  }

  lemma SourceReads(params: seq<byte>, p: ParamMap)
    requires ReadsBack(ParamsP(), params, p)
    ensures ReadsBack(KeyP(0), [T_SOURCE] + (TextBytes("") + params), Source("", p))
  {
    NoName();
    TextThen("", ParamsP(), params, p);
    MappedReadsBack(Both(TextP(), ParamsP()), SourceOf, TextBytes("") + params, ("", p));
    assert KeyOf(0)(T_SOURCE) == Mapped(Both(TextP(), ParamsP()), SourceOf);
    TaggedReadsBack(KeyOf(0), T_SOURCE, TextBytes("") + params, Source("", p));
  }

  lemma OddParams(params: seq<byte>, p: ParamMap)
    requires ReadsBack(ParamsP(), params, p) && params != ParamsBytes(p)
    ensures NotReproduced(GraphOf(1, [T_SOURCE] + (TextBytes("") + params), 0, []))
  {
    SourceReads(params, p);
    SameTail(TextBytes(""), params, ParamsBytes(p));
    SameTail([T_SOURCE], TextBytes("") + params, TextBytes("") + ParamsBytes(p));
    OddNode([T_SOURCE] + (TextBytes("") + params), Source("", p));
  }

  // ---- entries out of order ----

  /** Entries that are not in key order are accepted, and written in order. */
  lemma UnsortedEntries(a: Entry, b: Entry)
    requires FitsEntry(a) && FitsEntry(b) && KeyLe(a.key, b.key) && !KeyLe(b.key, a.key)
    ensures NotReproduced(GraphOf(1, [T_SOURCE] + (TextBytes("") + Counted(EntryBytes, [b, a])), 0, []))
  {
    var es := [b, a];
    var p: seq<Entry> := NewMap(es);
    GirExact.EntriesReadBack(es);
    MappedReadsBack(ListOf(EntryP), NewMap, Counted(EntryBytes, es), es);
    assert !SortedByKey(es) by {
      assert es[0] == b && es[1] == a;
    }
    assert |multiset(p)| == |p|;
    forall k | 0 <= k < |p|
      ensures FitsEntry(p[k])
    {
      assert p[k] in multiset(p) && p[k] in multiset(es);
    }
    GirExact.EntriesReadBack(p);
    if Counted(EntryBytes, es) == Counted(EntryBytes, p) {
      ReadBack(ListOf(EntryP), Counted(EntryBytes, es), es, []);
      ReadBack(ListOf(EntryP), Counted(EntryBytes, p), p, []);
    }
    OddParams(Counted(EntryBytes, es), NewMap(es));
  }

  /** For instance two booleans under the empty name and under the name of one letter. */
  lemma UnsortedInstance()
    ensures NotReproduced(GraphOf(1, [T_SOURCE] + (TextBytes("") + Counted(EntryBytes, [Entry("a", Bool(true)), Entry("", Bool(true))])), 0, []))
  {
    NoName();
    OneLetter();
    UnsortedEntries(Entry("", Bool(true)), Entry("a", Bool(true)));
  }

  lemma OneLetter()
    ensures FitsText("a")
  {
    assert "a"[1..] == "";
    assert Encode("") == [];
  }

  // ---- a boolean other than 0 and 1 ----

  lemma OtherBool(n: byte)
    requires n > 1
    ensures NotReproduced(GraphOf(1, [T_SOURCE] + (TextBytes("") + (LeBytes(1, 4) + (TextBytes("") + [P_BOOL, n]))), 0, []))
  {
    NoName();
    U8ReadsBack(n);
    MappedReadsBack<nat, ParamValue>(U8(), BoolOf, [n], n);
    TaggedReadsBack(ValueOf, P_BOOL, [n], Bool(true));
    TextThen("", ValueP(), [P_BOOL] + [n], Bool(true));
    var e, entry := Entry("", Bool(true)), TextBytes("") + [P_BOOL, n];
    assert [P_BOOL] + [n] == [P_BOOL, n];
    MappedReadsBack(Both(TextP(), ValueP()), EntryOf, entry, ("", Bool(true)));
    OneEntryReads(entry, e);
    MappedReadsBack(ListOf(EntryP), NewMap, LeBytes(1, 4) + entry, [e]);
    SortEntriesSorted([e]);
    assert NewMap([e]) == [e];
    assert ParamsBytes([e]) == LeBytes(1, 4) + EntryBytes(e) by {
      assert Map(EntryBytes, [e]) == [EntryBytes(e)];
      assert Concat([EntryBytes(e)]) == EntryBytes(e) + Concat([]) == EntryBytes(e);
    }
    assert EntryBytes(e) == TextBytes("") + ([P_BOOL] + [1]);
    assert entry[|entry| - 1] == n && EntryBytes(e)[|entry| - 1] == 1;
    SameTail(LeBytes(1, 4), entry, EntryBytes(e));
    OddParams(LeBytes(1, 4) + entry, [e]);
  }

  lemma OneEntryReads(entry: seq<byte>, e: Entry)
    requires ReadsBack(EntryP(0), entry, e)
    ensures ReadsBack(ListOf(EntryP), LeBytes(1, 4) + entry, [e])
  {
    U32ReadsBack(1);
    ReturnReadsBack<seq<Entry>>([]);
    RepeatStep(EntryP, 0, 1, entry, e, [], []);
    assert entry + [] == entry && [e] + [] == [e];
    BindReadsBack<nat, seq<Entry>>(U32(), RepeatTo(EntryP), LeBytes(1, 4), 1, entry, [e]);
  }

  // ---- a preprocessing flag other than 0 and 1 ----

  function NamelessFields(preprocessing: seq<byte>): seq<byte> {
    TextBytes("") + (TextBytes("") + (TextBytes("") + (TextBytes("") + (TextBytes("") + preprocessing))))
  }

  const NAMELESS: PayloadDescriptor := PayloadDescriptor("", "", "", "", "", Some(""))

  lemma FlagReads(flag: byte)
    requires flag != 0
    ensures ReadsBack(Bind(U8(), PreprocessingOf), [flag] + TextBytes(""), Some(""))
  {
    NoName();
    TextReadsBack("");
    MappedReadsBack(TextP(), SomeText, TextBytes(""), "");
    TaggedReadsBack(PreprocessingOf, flag, TextBytes(""), Some(""));
  }

  lemma NamelessReads(preprocessing: seq<byte>)
    requires ReadsBack(Bind(U8(), PreprocessingOf), preprocessing, Some(""))
    ensures ReadsBack(DescriptorP(), NamelessFields(preprocessing), NAMELESS)
  {
    NoName();
    var q5, f5, b5 := Bind(U8(), PreprocessingOf), Some(""), preprocessing;
    TextThen("", q5, b5, f5);
    var q4, f4, b4 := Both(TextP(), q5), ("", f5), TextBytes("") + b5;
    TextThen("", q4, b4, f4);
    var q3, f3, b3 := Both(TextP(), q4), ("", f4), TextBytes("") + b4;
    TextThen("", q3, b3, f3);
    var q2, f2, b2 := Both(TextP(), q3), ("", f3), TextBytes("") + b3;
    TextThen("", q2, b2, f2);
    var q1, f1, b1 := Both(TextP(), q2), ("", f2), TextBytes("") + b2;
    TextThen("", q1, b1, f1);
    MappedReadsBack(Both(TextP(), q1), DescriptorOf, TextBytes("") + b1, ("", f1));
  }

  function ExternalNode(preprocessing: seq<byte>): seq<byte> {
    [T_EXTERNAL] + (NamelessFields(preprocessing) + (ParamsBytes([]) + Counted(IdBytes, [])))
  }

  lemma ExternalBodyReads(preprocessing: seq<byte>)
    requires ReadsBack(Bind(U8(), PreprocessingOf), preprocessing, Some(""))
    ensures ReadsBack(Mapped(Both(DescriptorP(), Both(ParamsP(), InputsP(0))), ExternalOf),
                      NamelessFields(preprocessing) + (ParamsBytes([]) + Counted(IdBytes, [])), External(NAMELESS, [], []))
  {
    NamelessReads(preprocessing);
    OperandsReadBack(0, [], []);
    var fields, operands := NamelessFields(preprocessing), ParamsBytes([]) + Counted(IdBytes, []);
    var p: ParamMap, ids: seq<NodeId> := [], [];
    BothReadsBack<PayloadDescriptor, (ParamMap, seq<NodeId>)>(
      DescriptorP(), Both(ParamsP(), InputsP(0)), fields, NAMELESS, operands, (p, ids));
    MappedReadsBack<(PayloadDescriptor, (ParamMap, seq<NodeId>)), NodeKey>(
      Both(DescriptorP(), Both(ParamsP(), InputsP(0))), ExternalOf, fields + operands, (NAMELESS, (p, ids)));
  }

  lemma ExternalKeyIs()
    ensures KeyOf(0)(T_EXTERNAL) == Mapped(Both(DescriptorP(), Both(ParamsP(), InputsP(0))), ExternalOf)
  {
    LaterBodies(0);
  }

  lemma ExternalReads(preprocessing: seq<byte>)
    requires ReadsBack(Bind(U8(), PreprocessingOf), preprocessing, Some(""))
    ensures ReadsBack(KeyP(0), ExternalNode(preprocessing), External(NAMELESS, [], []))
  {
    ExternalBodyReads(preprocessing);
    ExternalKeyIs();
    var fields := NamelessFields(preprocessing) + (ParamsBytes([]) + Counted(IdBytes, []));
    SameReadsBack(KeyOf(0)(T_EXTERNAL), Mapped(Both(DescriptorP(), Both(ParamsP(), InputsP(0))), ExternalOf),
                  fields, External(NAMELESS, [], []));
    TaggedReadsBack(KeyOf(0), T_EXTERNAL, fields, External(NAMELESS, [], []));
  }

  lemma SameReadsBack<T>(p: Parser<T>, q: Parser<T>, bytes: seq<byte>, v: T)
    requires p == q && ReadsBack(q, bytes, v)
    ensures ReadsBack(p, bytes, v)
  {
  }

  lemma FieldsDiffer(a: seq<byte>, b: seq<byte>)
    requires a != b && |a| == |b|
    ensures ExternalNode(a) != ExternalNode(b)
  {
    if ExternalNode(a) == ExternalNode(b) {
      var operands := ParamsBytes([]) + Counted(IdBytes, []);
      SameTail([T_EXTERNAL], NamelessFields(a) + operands, NamelessFields(b) + operands);
      SameHead(NamelessFields(a), operands, NamelessFields(b), operands);
      SameFields(a, b);
    }
  }

  lemma SameFields(a: seq<byte>, b: seq<byte>)
    requires NamelessFields(a) == NamelessFields(b)
    ensures a == b
  {
    var t := TextBytes("");
    SameTail(t, t + (t + (t + (t + a))), t + (t + (t + (t + b))));
    SameTail(t, t + (t + (t + a)), t + (t + (t + b)));
    SameTail(t, t + (t + a), t + (t + b));
    SameTail(t, t + a, t + b);
    SameTail(t, a, b);
  }

  lemma OtherFlag(flag: byte)
    requires flag > 1
    ensures NotReproduced(GraphOf(1, ExternalNode([flag] + TextBytes("")), 0, []))
  {
    FlagReads(flag);
    ExternalReads([flag] + TextBytes(""));
    assert ([flag] + TextBytes(""))[0] == flag && ([1] + TextBytes(""))[0] == 1;
    FieldsDiffer([flag] + TextBytes(""), [1] + TextBytes(""));
    assert KeyBytes(External(NAMELESS, [], [])) == ExternalNode([1] + TextBytes(""));
    OddNode(ExternalNode([flag] + TextBytes("")), External(NAMELESS, [], []));
  }

  // ---- a repeated node ----

  const NAMELESS_SOURCE: NodeKey := Source("", [])

  lemma SourceReadsBack(idx: nat)
    ensures ReadsBack(KeyP(idx), KeyBytes(NAMELESS_SOURCE), NAMELESS_SOURCE)
  {
    NoName();
    KeyReadsBack(idx, NAMELESS_SOURCE);
  }

  /** The same node twice is accepted and kept once. */
  lemma RepeatedNode()
    ensures NotReproduced(GraphOf(2, KeyBytes(NAMELESS_SOURCE) + KeyBytes(NAMELESS_SOURCE), 0, []))
  {
    var k := NAMELESS_SOURCE;
    var st := Added(NOTHING, k);
    SourceReadsBack(0);
    SourceReadsBack(1);
    ReturnReadsBack(st);
    assert Added(st, k) == st && NodesP(2, 2, st) == Return(st);
    BindReadsBack(KeyP(1), NextNode(1, 2, st), KeyBytes(k), k, [], st);
    assert KeyBytes(k) + [] == KeyBytes(k);
    BindReadsBack(KeyP(0), NextNode(0, 2, NOTHING), KeyBytes(k), k, KeyBytes(k), st);
    NoOutputs(st);
    GraphDecodes(2, KeyBytes(k) + KeyBytes(k), st, 0, [], st);
    GraphIsGraphOf([k], []);
    OneKeyWritten(k);
    assert st.nodes == [k] && |KeyBytes(k)| > 0;
    assert |GraphOf(1, KeyBytes(k), 0, [])| < |GraphOf(2, KeyBytes(k) + KeyBytes(k), 0, [])|;
    Reproduces(GraphOf(2, KeyBytes(k) + KeyBytes(k), 0, []), st, GraphOf(1, KeyBytes(k), 0, []));
  }

  // ---- a repeated output ----

  lemma TwiceMarked(st: Loaded, end: Loaded)
    requires |st.nodes| == 1 && st.outputs == [] && end == st.(outputs := [0])
    ensures ReadsBack(OutputsP(0, 2, st), IdBytes(0) + IdBytes(0), end)
  {
    U64ReadsBack(0);
    ReturnReadsBack(end);
    assert Marked(end, 0) == end && Marked(st, 0) == end && OutputsP(2, 2, end) == Return(end);
    BindReadsBack<u64, Loaded>(U64(), NextOutput(1, 2, end), IdBytes(0), 0, [], end);
    assert IdBytes(0) + [] == IdBytes(0);
    BindReadsBack<u64, Loaded>(U64(), NextOutput(0, 2, st), IdBytes(0), 0, IdBytes(0), end);
  }

  lemma OneIdWritten()
    ensures Concat(Map(IdBytes, [0])) == IdBytes(0)
  {
    assert Map(IdBytes, [0]) == [IdBytes(0)];
    assert Concat([IdBytes(0)]) == IdBytes(0) + Concat([]) == IdBytes(0);
  }

  /** The same output twice is accepted and kept once. */
  lemma RepeatedOutput()
    ensures NotReproduced(GraphOf(1, KeyBytes(NAMELESS_SOURCE), 2, IdBytes(0) + IdBytes(0)))
  {
    var k := NAMELESS_SOURCE;
    var st := Added(NOTHING, k);
    var end := st.(outputs := [0]);
    SourceReadsBack(0);
    OneKeyReadsBack(KeyBytes(k), k);
    assert st.nodes == [k] && st.outputs == [];
    TwiceMarked(st, end);
    GraphDecodes(1, KeyBytes(k), st, 2, IdBytes(0) + IdBytes(0), end);
    GraphIsGraphOf([k], [0]);
    OneKeyWritten(k);
    OneIdWritten();
    assert |GraphOf(1, KeyBytes(k), 1, IdBytes(0))| < |GraphOf(1, KeyBytes(k), 2, IdBytes(0) + IdBytes(0))|;
    Reproduces(GraphOf(1, KeyBytes(k), 2, IdBytes(0) + IdBytes(0)), end, GraphOf(1, KeyBytes(k), 1, IdBytes(0)));
  }
}
