/** Reading back what the GIR1 writers wrote. */
module GirRoundTrip {
  import opened Wrappers
  import opened Selection
  import opened Param
  import opened Node
  import opened Arena
  import opened Interning
  import opened Bytes
  import opened Utf8
  import opened Parsing
  import opened Gir

  // ---- what the length words can carry ----

  predicate FitsText(s: string) {
    |Encode(s)| < WORD
  }

  predicate FitsValue(v: ParamValue) {
    v.Str? ==> FitsText(v.s)
  }

  predicate FitsEntry(e: Entry) {
    FitsText(e.key) && FitsValue(e.value)
  }

  ghost predicate FitsParams(p: ParamMap) {
    |p| < WORD && forall e :: e in p ==> FitsEntry(e)
  }

  /** A reference of member `m`: only earlier members, and indices of 32 bits. */
  predicate FitsRef(m: nat, r: StageRef) {
    match r case Input(slot) => slot < WORD case Member(index) => index < m && index < WORD
  }

  ghost predicate FitsMember(m: nat, op: StageOp) {
    FitsText(op.token) && |op.refs| < WORD && forall l :: 0 <= l < |op.refs| ==> FitsRef(m, op.refs[l])
  }

  predicate FitsDescriptor(d: PayloadDescriptor) {
    && FitsText(d.kind) && FitsText(d.contentHash) && FitsText(d.framework) && FitsText(d.version)
    && FitsText(d.ioSchema) && (d.preprocessingRef.Some? ==> FitsText(d.preprocessingRef.value))
  }

  ghost predicate FitsInputs(max: nat, xs: seq<NodeId>) {
    |xs| < WORD && forall k :: 0 <= k < |xs| ==> xs[k] < max && xs[k] < TWO_TO_64
  }

  ghost predicate FitsMembers(members: seq<StageOp>) {
    |members| < WORD && forall m :: 0 <= m < |members| ==> FitsMember(m, members[m])
  }

  /** The `idx`-th node can be written and read back. */
  ghost predicate FitsKey(idx: nat, k: NodeKey) {
    match k
    case Source(name, params) => FitsText(name) && FitsParams(params)
    case Op(name, params, ins) => FitsText(name) && FitsParams(params) && FitsInputs(idx, ins)
    case Reduction(name, params, ins) => FitsText(name) && FitsParams(params) && FitsInputs(idx, ins)
    case External(d, params, ins) => FitsDescriptor(d) && FitsParams(params) && FitsInputs(idx, ins)
    case Stage(ins, members) => FitsInputs(idx, ins) && FitsMembers(members)
  }

  // ---- words and text ----

  lemma U8ReadsBack(b: byte)
    ensures ReadsBack<nat>(U8(), [b], b)
  {
    TakeReadsBack([b]);
    MappedReadsBack<seq<byte>, nat>(Take(1), LeValue, [b], [b]);
  }

  lemma U32ReadsBack(n: nat)
    requires n < WORD
    ensures ReadsBack<nat>(U32(), LeBytes(n, 4), n)
  {
    var bs := LeBytes(n, 4);
    TakeReadsBack(bs);
    MappedReadsBack<seq<byte>, nat>(Take(4), LeValue, bs, bs);
    LeRoundTrip(n, 4);
    WordSizes();
  }

  lemma WordValue(n: u64)
    ensures LeWord(LeBytes(n, 8)) == n
  {
    LeRoundTrip(n, 8);
    WordSizes();
    FitsWord(LeValue(LeBytes(n, 8)), n, Pow256(8));
  }

  lemma FitsWord(v: nat, n: u64, p: nat)
    requires p == TWO_TO_64 && v == n % p
    ensures v == n
  {
  }

  lemma U64ReadsBack(n: u64)
    ensures ReadsBack<u64>(U64(), LeBytes(n, 8), n)
  {
    var bs := LeBytes(n, 8);
    TakeReadsBack(bs);
    MappedReadsBack<seq<byte>, u64>(Take(8), LeWord, bs, bs);
    WordValue(n);
  }

  lemma TextReadsBack(s: string)
    requires FitsText(s)
    ensures ReadsBack(TextP(), TextBytes(s), s)
  {
    var enc := Encode(s);
    DecodeEncode(s);
    ReturnReadsBack(s);
    TakeReadsBack(enc);
    BindReadsBack(Take(|enc|), Utf8Text, enc, enc, [], s);
    assert enc + [] == enc;
    U32ReadsBack(|enc|);
    BindReadsBack<nat, string>(U32(), TextOf, LeBytes(|enc|, 4), |enc|, enc, s);
  }

  /** A tag chooses how the rest is read. */
  lemma TaggedReadsBack<T>(f: nat -> Parser<T>, tag: byte, body: seq<byte>, v: T)
    requires ReadsBack(f(tag), body, v)
    ensures ReadsBack(Bind(U8(), f), [tag] + body, v)
  {
    U8ReadsBack(tag);
    BindReadsBack<nat, T>(U8(), f, [tag], tag, body, v);
  }

  lemma ListReadsBack<T>(p: nat -> Parser<T>, write: T -> seq<byte>, xs: seq<T>)
    requires |xs| < WORD && forall k: nat :: k < |xs| ==> ReadsBack(p(k), write(xs[k]), xs[k])
    ensures ReadsBack(ListOf(p), Counted(write, xs), xs)
  {
    var pieces := Map(write, xs);
    forall k: nat | k < |xs|
      ensures ReadsBack(p(0 + k), pieces[k], xs[k])
    {
      assert ReadsBack(p(k), write(xs[k]), xs[k]);
    }
    RepeatReadsBack(p, 0, pieces, xs);
    U32ReadsBack(|xs|);
    assert RepeatTo(p)(|xs|) == Repeat(p, 0, |xs|);
    BindReadsBack<nat, seq<T>>(U32(), RepeatTo(p), LeBytes(|xs|, 4), |xs|, Concat(pieces), xs);
  }

  // ---- parameters ----

  lemma ValueReadsBack(v: ParamValue)
    requires FitsValue(v)
    ensures ReadsBack(ValueP(), ValueBytes(v), v)
  {
    match v
    case Int(i) =>
      U64ReadsBack(ToUnsigned(i));
      MappedReadsBack(U64(), IntOf, LeBytes(ToUnsigned(i), 8), ToUnsigned(i));
      TwosComplement(i);
      TaggedReadsBack(ValueOf, P_INT, LeBytes(ToUnsigned(i), 8), v);
    case Float(bits) =>
      U64ReadsBack(bits);
      MappedReadsBack(U64(), FloatOf, LeBytes(bits, 8), bits);
      TaggedReadsBack(ValueOf, P_FLOAT, LeBytes(bits, 8), v);
    case Bool(b) =>
      var n: byte := if b then 1 else 0;
      U8ReadsBack(n);
      MappedReadsBack<nat, ParamValue>(U8(), BoolOf, [n], n);
      TaggedReadsBack(ValueOf, P_BOOL, [n], v);
    case Str(s) =>
      TextReadsBack(s);
      MappedReadsBack(TextP(), StrOf, TextBytes(s), s);
      TaggedReadsBack(ValueOf, P_STR, TextBytes(s), v);
  }

  lemma EntryReadsBack(i: nat, e: Entry)
    requires FitsEntry(e)
    ensures ReadsBack(EntryP(i), EntryBytes(e), e)
  {
    TextReadsBack(e.key);
    ValueReadsBack(e.value);
    BothReadsBack(TextP(), ValueP(), TextBytes(e.key), e.key, ValueBytes(e.value), e.value);
    MappedReadsBack(Both(TextP(), ValueP()), EntryOf, EntryBytes(e), (e.key, e.value));
  }

  lemma ParamsReadBack(p: ParamMap)
    requires FitsParams(p)
    ensures ReadsBack(ParamsP(), ParamsBytes(p), p)
  {
    var es: seq<Entry> := p;
    forall k: nat | k < |es|
      ensures ReadsBack(EntryP(k), EntryBytes(es[k]), es[k])
    {
      EntryReadsBack(k, es[k]);
    }
    ListReadsBack(EntryP, EntryBytes, es);
    MappedReadsBack(ListOf(EntryP), NewMap, Counted(EntryBytes, es), es);
    SortEntriesSorted(es);
  }

  // ---- node references ----

  lemma IdReadsBack(max: nat, id: NodeId)
    requires id < max && id < TWO_TO_64
    ensures ReadsBack(IdBelow(max), IdBytes(id), id)
  {
    var w: u64 := id;
    U64ReadsBack(w);
    ReturnReadsBack(id);
    BindReadsBack(U64(), CheckId(max), IdBytes(id), w, [], id);
    assert IdBytes(id) + [] == IdBytes(id);
  }

  lemma InputsReadBack(max: nat, xs: seq<NodeId>)
    requires FitsInputs(max, xs)
    ensures ReadsBack(InputsP(max), Counted(IdBytes, xs), xs)
  {
    forall k: nat | k < |xs|
      ensures ReadsBack(((i: nat) => IdBelow(max))(k), IdBytes(xs[k]), xs[k])
    {
      IdReadsBack(max, xs[k]);
    }
    ListReadsBack((i: nat) => IdBelow(max), IdBytes, xs);
  }

  lemma RefReadsBack(m: nat, r: StageRef)
    requires FitsRef(m, r)
    ensures ReadsBack(RefP(m), RefBytes(r), r)
  {
    var tag := if r.Input? then R_INPUT else R_MEMBER;
    var v := if r.Input? then r.slot else r.index;
    U8ReadsBack(tag);
    U32ReadsBack(v);
    BothReadsBack<nat, nat>(U8(), U32(), [tag], tag, LeBytes(v, 4), v);
    ReturnReadsBack(r);
    var tv: (nat, nat) := (tag, v);
    assert RefOf(m)(tv) == Return(r);
    BindReadsBack<(nat, nat), StageRef>(Both(U8(), U32()), RefOf(m), [tag] + LeBytes(v, 4), tv, [], r);
    assert RefBytes(r) + [] == RefBytes(r) == [tag] + LeBytes(v, 4);
  }

  lemma MemberReadsBack(m: nat, op: StageOp)
    requires FitsMember(m, op)
    ensures ReadsBack(MemberP(m), MemberBytes(op), op)
  {
    forall l: nat | l < |op.refs|
      ensures ReadsBack(((i: nat) => RefP(m))(l), RefBytes(op.refs[l]), op.refs[l])
    {
      RefReadsBack(m, op.refs[l]);
    }
    var refs := ListOf((i: nat) => RefP(m));
    ListReadsBack((i: nat) => RefP(m), RefBytes, op.refs);
    TextReadsBack(op.token);
    BothReadsBack(TextP(), refs, TextBytes(op.token), op.token, Counted(RefBytes, op.refs), op.refs);
    MappedReadsBack(Both(TextP(), refs), MemberOf, MemberBytes(op), (op.token, op.refs));
  }

  lemma MembersReadBack(members: seq<StageOp>)
    requires FitsMembers(members)
    ensures ReadsBack(ListOf(MemberP), Counted(MemberBytes, members), members)
  {
    forall m: nat | m < |members|
      ensures ReadsBack(MemberP(m), MemberBytes(members[m]), members[m])
    {
      MemberReadsBack(m, members[m]);
    }
    ListReadsBack(MemberP, MemberBytes, members);
  }

  // ---- payload descriptors ----

  lemma PreprocessingReadsBack(s: Option<string>)
    requires s.Some? ==> FitsText(s.value)
    ensures ReadsBack(Bind(U8(), PreprocessingOf), PreprocessingBytes(s), s)
  {
    match s
    case None =>
      ReturnReadsBack<Option<string>>(None);
      TaggedReadsBack(PreprocessingOf, 0, [], s);
      assert [0] + [] == PreprocessingBytes(s);
    case Some(text) =>
      TextReadsBack(text);
      MappedReadsBack(TextP(), SomeText, TextBytes(text), text);
      TaggedReadsBack(PreprocessingOf, 1, TextBytes(text), s);
  }

  lemma TextThen<T>(s: string, q: Parser<T>, b: seq<byte>, w: T)
    requires FitsText(s) && ReadsBack(q, b, w)
    ensures ReadsBack(Both(TextP(), q), TextBytes(s) + b, (s, w))
  {
    TextReadsBack(s);
    BothReadsBack(TextP(), q, TextBytes(s), s, b, w);
  }

  lemma DescriptorReadsBack(d: PayloadDescriptor)
    requires FitsDescriptor(d)
    ensures ReadsBack(DescriptorP(), DescriptorBytes(d), d)
  {
    var f5, b5, q5 := d.preprocessingRef, PreprocessingBytes(d.preprocessingRef), Bind(U8(), PreprocessingOf);
    PreprocessingReadsBack(d.preprocessingRef);
    TextThen(d.ioSchema, q5, b5, f5);
    var f4, b4, q4 := (d.ioSchema, f5), TextBytes(d.ioSchema) + b5, Both(TextP(), q5);
    TextThen(d.version, q4, b4, f4);
    var f3, b3, q3 := (d.version, f4), TextBytes(d.version) + b4, Both(TextP(), q4);
    TextThen(d.framework, q3, b3, f3);
    var f2, b2, q2 := (d.framework, f3), TextBytes(d.framework) + b3, Both(TextP(), q3);
    TextThen(d.contentHash, q2, b2, f2);
    var f1, b1, q1 := (d.contentHash, f2), TextBytes(d.contentHash) + b2, Both(TextP(), q2);
    TextThen(d.kind, q1, b1, f1);
    MappedReadsBack(Both(TextP(), q1), DescriptorOf, TextBytes(d.kind) + b1, (d.kind, f1));
  }

  // ---- nodes ----

  lemma OperandsReadBack(idx: nat, params: ParamMap, ins: seq<NodeId>)
    requires FitsParams(params) && FitsInputs(idx, ins)
    ensures ReadsBack(Both(ParamsP(), InputsP(idx)), ParamsBytes(params) + Counted(IdBytes, ins), (params, ins))
  {
    ParamsReadBack(params);
    InputsReadBack(idx, ins);
    BothReadsBack(ParamsP(), InputsP(idx), ParamsBytes(params), params, Counted(IdBytes, ins), ins);
  }

  lemma FieldsReadBack(idx: nat, k: NodeKey)
    requires ReadsBack(KeyBody(idx, KeyTag(k)), KeyFields(k), k)
    ensures ReadsBack(KeyP(idx), KeyBytes(k), k)
  {
    assert KeyOf(idx)(KeyTag(k)) == KeyBody(idx, KeyTag(k));
    TaggedReadsBack(KeyOf(idx), KeyTag(k), KeyFields(k), k);
  }

  lemma SourceReadsBack(idx: nat, k: NodeKey)
    requires k.Source? && FitsKey(idx, k)
    ensures ReadsBack(KeyBody(idx, T_SOURCE), KeyFields(k), k)
  {
    ParamsReadBack(k.params);
    TextThen(k.name, ParamsP(), ParamsBytes(k.params), k.params);
    MappedReadsBack(Both(TextP(), ParamsP()), SourceOf, KeyFields(k), (k.name, k.params));
  }

  lemma OpReadsBack(idx: nat, k: NodeKey)
    requires k.Op? && FitsKey(idx, k)
    ensures ReadsBack(KeyBody(idx, T_OP), KeyFields(k), k)
  {
    OperandsReadBack(idx, k.params, k.ins);
    var q := Both(ParamsP(), InputsP(idx));
    TextThen(k.name, q, ParamsBytes(k.params) + Counted(IdBytes, k.ins), (k.params, k.ins));
    MappedReadsBack(Both(TextP(), q), OpOf, KeyFields(k), (k.name, (k.params, k.ins)));
  }

  lemma ReductionReadsBack(idx: nat, k: NodeKey)
    requires k.Reduction? && FitsKey(idx, k)
    ensures ReadsBack(KeyBody(idx, T_REDUCTION), KeyFields(k), k)
  {
    OperandsReadBack(idx, k.params, k.ins);
    var q := Both(ParamsP(), InputsP(idx));
    TextThen(k.name, q, ParamsBytes(k.params) + Counted(IdBytes, k.ins), (k.params, k.ins));
    MappedReadsBack(Both(TextP(), q), ReductionOf, KeyFields(k), (k.name, (k.params, k.ins)));
  }

  lemma LaterBodies(idx: nat)
    ensures KeyBody(idx, T_EXTERNAL) == Mapped(Both(DescriptorP(), Both(ParamsP(), InputsP(idx))), ExternalOf)
    ensures KeyBody(idx, T_STAGE) == Mapped(Both(InputsP(idx), ListOf(MemberP)), StageOf)
  {
  }

  lemma ExternalReadsBack(idx: nat, k: NodeKey)
    requires k.External? && FitsKey(idx, k)
    ensures ReadsBack(KeyBody(idx, T_EXTERNAL), KeyFields(k), k)
  {
    LaterBodies(idx);
    OperandsReadBack(idx, k.params, k.ins);
    DescriptorReadsBack(k.descriptor);
    var q := Both(ParamsP(), InputsP(idx));
    BothReadsBack(DescriptorP(), q, DescriptorBytes(k.descriptor), k.descriptor,
                  ParamsBytes(k.params) + Counted(IdBytes, k.ins), (k.params, k.ins));
    MappedReadsBack(Both(DescriptorP(), q), ExternalOf, KeyFields(k), (k.descriptor, (k.params, k.ins)));
  }

  lemma StageReadsBack(idx: nat, k: NodeKey)
    requires k.Stage? && FitsKey(idx, k)
    ensures ReadsBack(KeyBody(idx, T_STAGE), KeyFields(k), k)
  {
    LaterBodies(idx);
    InputsReadBack(idx, k.ins);
    MembersReadBack(k.members);
    BothReadsBack(InputsP(idx), ListOf(MemberP), Counted(IdBytes, k.ins), k.ins, Counted(MemberBytes, k.members), k.members);
    MappedReadsBack(Both(InputsP(idx), ListOf(MemberP)), StageOf, KeyFields(k), (k.ins, k.members));
  }

  /** Every node kind reads back, with raw float bits. */
  lemma KeyReadsBack(idx: nat, k: NodeKey)
    requires FitsKey(idx, k)
    ensures ReadsBack(KeyP(idx), KeyBytes(k), k)
  {
    match k {
      case Source(_, _) => SourceReadsBack(idx, k);
      case Op(_, _, _) => OpReadsBack(idx, k);
      case Reduction(_, _, _) => ReductionReadsBack(idx, k);
      case External(_, _, _) => ExternalReadsBack(idx, k);
      case Stage(_, _) => StageReadsBack(idx, k);
    }
    FieldsReadBack(idx, k);
  }

  // ---- the whole graph ----

  /** A graph the format can carry: its lengths and indices fit their words, and stage members refer to
      earlier members. */
  ghost predicate Fits(nodes: seq<NodeKey>, outs: seq<NodeId>) {
    && |nodes| < WORD && |outs| < WORD
    && forall i :: 0 <= i < |nodes| ==> FitsKey(i, nodes[i])
  }

  /** An interned arena and duplicate-free outputs in it. */
  ghost predicate Stored(nodes: seq<NodeKey>, table: map<NodeKey, NodeId>, outs: seq<NodeId>) {
    TopologicalKeys(nodes) && TableExact(nodes, table) && AllBelow(outs, |nodes|) && NoDuplicates(outs)
  }

  lemma FreshKey(nodes: seq<NodeKey>, table: map<NodeKey, NodeId>, t: map<NodeKey, NodeId>, idx: nat)
    requires TopologicalKeys(nodes) && TableExact(nodes, table) && idx < |nodes| && TableExact(nodes[..idx], t)
    ensures nodes[idx].Canon() !in t && AllBelow(nodes[idx].Inputs(), idx)
    ensures TableExact(nodes[..idx + 1], t[nodes[idx].Canon() := idx])
    ensures nodes[..idx + 1] == nodes[..idx] + [nodes[idx]]
  {
    if nodes[idx].Canon() in t {
      TableDistinct(nodes, table, t[nodes[idx].Canon()], idx);
    }
    InternNew(nodes[..idx], t, nodes[idx]);
    assert nodes[..idx + 1] == nodes[..idx] + [nodes[idx]];
  }

  lemma AddedFresh(nodes: seq<NodeKey>, table: map<NodeKey, NodeId>, st: Loaded, idx: nat)
    requires TopologicalKeys(nodes) && TableExact(nodes, table) && idx < |nodes|
    requires st.nodes == nodes[..idx] && TableExact(st.nodes, st.table)
    ensures BadInput(nodes[idx].Inputs(), |st.nodes|).None?
    ensures Added(st, nodes[idx]).nodes == nodes[..idx + 1] && Added(st, nodes[idx]).outputs == st.outputs
    ensures TableExact(Added(st, nodes[idx]).nodes, Added(st, nodes[idx]).table)
  {
    FreshKey(nodes, table, st.table, idx);
  }

  /** Node k is read back under id k. */
  lemma {:induction false} NodesReadBack(nodes: seq<NodeKey>, table: map<NodeKey, NodeId>, st: Loaded, idx: nat)
    requires TopologicalKeys(nodes) && TableExact(nodes, table) && idx <= |nodes|
    requires forall i :: 0 <= i < |nodes| ==> FitsKey(i, nodes[i])
    requires st.nodes == nodes[..idx] && TableExact(st.nodes, st.table)
    ensures ReadsBack(NodesP(idx, |nodes|, st), Concat(Map(KeyBytes, nodes[idx..])), Loaded(nodes, table, st.outputs))
    decreases |nodes| - idx
  {
    if idx == |nodes| {
      assert nodes[..idx] == nodes && nodes[idx..] == [];
      TableUnique(nodes, table, st.table);
      ReturnReadsBack(st);
    } else {
      var key := nodes[idx];
      AddedFresh(nodes, table, st, idx);
      NodesReadBack(nodes, table, Added(st, key), idx + 1);
      KeyReadsBack(idx, key);
      MapFirst(KeyBytes, nodes[idx..]);
      assert nodes[idx..][1..] == nodes[idx + 1..];
      ReadsNextNode(idx, |nodes|, st, key, Concat(Map(KeyBytes, nodes[idx + 1..])), Loaded(nodes, table, st.outputs));
    }
  }

  lemma ReadsNextNode(idx: nat, n: nat, st: Loaded, key: NodeKey, bytes: seq<byte>, end: Loaded)
    requires idx < n && BadInput(key.Inputs(), |st.nodes|).None?
    requires ReadsBack(KeyP(idx), KeyBytes(key), key) && ReadsBack(NodesP(idx + 1, n, Added(st, key)), bytes, end)
    ensures ReadsBack(NodesP(idx, n, st), KeyBytes(key) + bytes, end)
  {
    BindReadsBack(KeyP(idx), NextNode(idx, n, st), KeyBytes(key), key, bytes, end);
  }

  lemma {:induction false} OutputsReadBack(outs: seq<NodeId>, st: Loaded, i: nat)
    requires AllBelow(outs, |st.nodes|) && |st.nodes| < WORD && NoDuplicates(outs)
    requires i <= |outs| && st.outputs == outs[..i]
    ensures ReadsBack(OutputsP(i, |outs|, st), Concat(Map(IdBytes, outs[i..])), st.(outputs := outs))
    decreases |outs| - i
  {
    if i == |outs| {
      assert outs[..i] == outs && outs[i..] == [];
      ReturnReadsBack(st);
    } else {
      var id: u64 := outs[i];
      assert outs[..i + 1] == outs[..i] + [outs[i]];
      assert outs[i] !in outs[..i];
      OutputsReadBack(outs, Marked(st, id), i + 1);
      U64ReadsBack(id);
      MapFirst(IdBytes, outs[i..]);
      assert outs[i..][1..] == outs[i + 1..];
      BindReadsBack<u64, Loaded>(U64(), NextOutput(i, |outs|, st), IdBytes(outs[i]), id,
                                 Concat(Map(IdBytes, outs[i + 1..])), st.(outputs := outs));
    }
  }

  /** Any well-formed graph within the length limits reads back exactly, node k under id k. */
  lemma GraphReadsBack(nodes: seq<NodeKey>, table: map<NodeKey, NodeId>, outs: seq<NodeId>)
    requires Stored(nodes, table, outs) && Fits(nodes, outs)
    ensures ReadsBack(GraphP(), GraphBytes(nodes, outs), Loaded(nodes, table, outs))
  {
    var loaded := Loaded(nodes, table, []);
    NodesReadBack(nodes, table, NOTHING, 0);
    OutputsReadBack(outs, loaded, 0);
    U32ReadsBack(|nodes|);
    U32ReadsBack(|outs|);
    assert nodes[0..] == nodes && outs[0..] == outs;
    BindReadsBack<nat, Loaded>(U32(), AllNodes, LeBytes(|nodes|, 4), |nodes|, Concat(Map(KeyBytes, nodes)), loaded);
    BindReadsBack<nat, Loaded>(U32(), AllOutputs(loaded), LeBytes(|outs|, 4), |outs|, Concat(Map(IdBytes, outs)),
                               loaded.(outputs := outs));
    BindReadsBack(Bind(U32(), AllNodes), OutputsAfter, Counted(KeyBytes, nodes), loaded, Counted(IdBytes, outs),
                  loaded.(outputs := outs));
    TakeReadsBack(MAGIC);
    BindReadsBack(Take(4), AfterMagic, MAGIC, MAGIC, Counted(KeyBytes, nodes) + Counted(IdBytes, outs),
                  loaded.(outputs := outs));
  }

  /** Decoding what was written gives the same nodes under the same ids and exactly the outputs written,
      even if more bytes follow. */
  lemma RoundTrip(nodes: seq<NodeKey>, table: map<NodeKey, NodeId>, outs: seq<NodeId>, more: seq<byte>)
    requires Stored(nodes, table, outs) && Fits(nodes, outs)
    ensures Deserialized(GraphBytes(nodes, outs) + more) == Ok(Loaded(nodes, table, outs))
    ensures Deserialized(GraphBytes(nodes, outs)) == Ok(Loaded(nodes, table, outs))
  {
    GraphReadsBack(nodes, table, outs);
    var bytes := GraphBytes(nodes, outs);
    assert ReadsBackBefore(GraphP(), bytes, Loaded(nodes, table, outs), more);
    assert ReadsBackBefore(GraphP(), bytes, Loaded(nodes, table, outs), []);
    assert bytes + [] == bytes;
  }
}
