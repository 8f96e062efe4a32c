/** The GIR1 decoder on arbitrary bytes: cutting an accepted input is reported as truncation, and whatever
is accepted is a well-formed store that is written and read back unchanged. */
module GirArbitrary {
  import opened Wrappers
  import opened Selection
  import opened Param
  import opened Node
  import opened Interning
  import opened Store
  import opened Bytes
  import opened Utf8
  import opened Parsing
  import opened Gir
  import opened GirRoundTrip

  // ---- stability ----

  lemma U8Stable()
    ensures Stable(U8())
  {
    TakeStable(1);
    MappedStable<seq<byte>, nat>(Take(1), LeValue);
  }

  lemma U32Stable()
    ensures Stable(U32())
  {
    TakeStable(4);
    MappedStable<seq<byte>, nat>(Take(4), LeValue);
  }

  lemma U64Stable()
    ensures Stable(U64())
  {
    TakeStable(8);
    MappedStable<seq<byte>, u64>(Take(8), LeWord);
  }

  lemma TextStable()
    ensures Stable(TextP())
  {
    forall n: nat
      ensures Stable(TextOf(n))
    {
      TakeStable(n);
      forall bs: seq<byte>
        ensures Stable(Utf8Text(bs))
      {
        FailStable<string>(BadUtf8);
        if Decode(bs).Some? {
          ReturnStable(Decode(bs).value);
        }
      }
      BindStable(Take(n), Utf8Text);
    }
    U32Stable();
    BindStable<nat, string>(U32(), TextOf);
  }

  lemma ListStable<T(!new)>(p: nat -> Parser<T>)
    requires forall k :: Stable(p(k))
    ensures Stable(ListOf(p))
  {
    forall n: nat
      ensures Stable(RepeatTo(p)(n))
    {
      RepeatStable(p, 0, n);
    }
    U32Stable();
    BindStable<nat, seq<T>>(U32(), RepeatTo(p));
  }

  lemma TaggedStable<T(!new)>(f: nat -> Parser<T>)
    requires forall tag :: Stable(f(tag))
    ensures Stable(Bind(U8(), f))
  {
    U8Stable();
    BindStable<nat, T>(U8(), f);
  }

  lemma ValueStable()
    ensures Stable(ValueP())
  {
    forall tag: nat
      ensures Stable(ValueOf(tag))
    {
      U8Stable();
      U64Stable();
      TextStable();
      MappedStable(U64(), IntOf);
      MappedStable(U64(), FloatOf);
      MappedStable<nat, ParamValue>(U8(), BoolOf);
      MappedStable(TextP(), StrOf);
      FailStable<ParamValue>(BadTag("param", tag));
    }
    TaggedStable(ValueOf);
  }

  lemma ParamsStable()
    ensures Stable(ParamsP())
  {
    forall i: nat
      ensures Stable(EntryP(i))
    {
      TextStable();
      ValueStable();
      BothStable(TextP(), ValueP());
      MappedStable(Both(TextP(), ValueP()), EntryOf);
    }
    ListStable(EntryP);
    MappedStable(ListOf(EntryP), NewMap);
  }

  lemma InputsStable(max: nat)
    ensures Stable(InputsP(max))
  {
    forall id: u64
      ensures Stable(CheckId(max)(id))
    {
      FailStable<NodeId>(BadNodeRef(id));
      ReturnStable<NodeId>(id);
    }
    U64Stable();
    BindStable(U64(), CheckId(max));
    ListStable((i: nat) => IdBelow(max));
  }

  lemma RefStable(m: nat)
    ensures Stable(RefP(m))
  {
    forall tv: (nat, nat)
      ensures Stable(RefOf(m)(tv))
    {
      FailStable<StageRef>(BadNodeRef(tv.1));
      FailStable<StageRef>(BadTag("stage-ref", tv.0));
      ReturnStable(Input(tv.1));
      ReturnStable(Member(tv.1));
    }
    U8Stable();
    U32Stable();
    BothStable<nat, nat>(U8(), U32());
    BindStable<(nat, nat), StageRef>(Both(U8(), U32()), RefOf(m));
  }

  lemma MembersStable()
    ensures Stable(ListOf(MemberP))
  {
    forall m: nat
      ensures Stable(MemberP(m))
    {
      RefStable(m);
      ListStable((i: nat) => RefP(m));
      TextStable();
      BothStable(TextP(), ListOf((i: nat) => RefP(m)));
      MappedStable(Both(TextP(), ListOf((i: nat) => RefP(m))), MemberOf);
    }
    ListStable(MemberP);
  }

  lemma PreprocessingStable()
    ensures Stable(Bind(U8(), PreprocessingOf))
  {
    forall flag: nat
      ensures Stable(PreprocessingOf(flag))
    {
      TextStable();
      MappedStable(TextP(), SomeText);
      ReturnStable<Option<string>>(None);
    }
    TaggedStable(PreprocessingOf);
  }

  lemma DescriptorStable()
    ensures Stable(DescriptorP())
  {
    TextStable();
    PreprocessingStable();
    var q5 := Bind(U8(), PreprocessingOf);
    BothStable(TextP(), q5);
    var q4 := Both(TextP(), q5);
    BothStable(TextP(), q4);
    var q3 := Both(TextP(), q4);
    BothStable(TextP(), q3);
    var q2 := Both(TextP(), q3);
    BothStable(TextP(), q2);
    var q1 := Both(TextP(), q2);
    BothStable(TextP(), q1);
    MappedStable(Both(TextP(), q1), DescriptorOf);
  }

  lemma KeyStable(idx: nat)
    ensures Stable(KeyP(idx))
  {
    TextStable();
    ParamsStable();
    InputsStable(idx);
    MembersStable();
    DescriptorStable();
    var operands := Both(ParamsP(), InputsP(idx));
    BothStable(ParamsP(), InputsP(idx));
    BothStable(TextP(), ParamsP());
    BothStable(TextP(), operands);
    BothStable(DescriptorP(), operands);
    BothStable(InputsP(idx), ListOf(MemberP));
    MappedStable(Both(TextP(), ParamsP()), SourceOf);
    MappedStable(Both(TextP(), operands), OpOf);
    MappedStable(Both(TextP(), operands), ReductionOf);
    MappedStable(Both(DescriptorP(), operands), ExternalOf);
    MappedStable(Both(InputsP(idx), ListOf(MemberP)), StageOf);
    forall tag: nat
      ensures Stable(KeyOf(idx)(tag))
    {
      FailStable<NodeKey>(BadTag("node", tag));
    }
    TaggedStable(KeyOf(idx));
  }

  lemma {:induction false} NodesStable(idx: nat, n: nat, st: Loaded)
    ensures Stable(NodesP(idx, n, st))
    decreases n - idx
  {
    ReturnStable(st);
    if idx < n {
      forall key: NodeKey
        ensures Stable(NextNode(idx, n, st)(key))
      {
        NodesStable(idx + 1, n, Added(st, key));
        if BadInput(key.Inputs(), |st.nodes|).Some? {
          FailStable<Loaded>(BadNodeRef(BadInput(key.Inputs(), |st.nodes|).value));
        }
      }
      KeyStable(idx);
      BindStable(KeyP(idx), NextNode(idx, n, st));
    }
  }

  lemma {:induction false} OutputsStable(i: nat, n: nat, st: Loaded)
    ensures Stable(OutputsP(i, n, st))
    decreases n - i
  {
    ReturnStable(st);
    if i < n {
      forall id: u64
        ensures Stable(NextOutput(i, n, st)(id))
      {
        OutputsStable(i + 1, n, Marked(st, id));
        FailStable<Loaded>(BadNodeRef(id));
      }
      U64Stable();
      BindStable(U64(), NextOutput(i, n, st));
    }
  }

  lemma GraphStable()
    ensures Stable(GraphP())
  {
    U32Stable();
    forall n: nat
      ensures Stable(AllNodes(n))
    {
      NodesStable(0, n, NOTHING);
    }
    BindStable<nat, Loaded>(U32(), AllNodes);
    forall st: Loaded
      ensures Stable(OutputsAfter(st))
    {
      forall n: nat
        ensures Stable(AllOutputs(st)(n))
      {
        OutputsStable(0, n, st);
      }
      BindStable<nat, Loaded>(U32(), AllOutputs(st));
    }
    BindStable(Bind(U32(), AllNodes), OutputsAfter);
    forall magic: seq<byte>
      ensures Stable(AfterMagic(magic))
    {
      FailStable<Loaded>(BadMagic);
    }
    TakeStable(4);
    BindStable(Take(4), AfterMagic);
  }

  /** Cutting an accepted input anywhere before the end of what the decoder used is reported as
      truncation. */
  lemma CutIsTruncated(bs: seq<byte>, n: nat)
    requires GraphP()(bs).Ok? && n < |bs| - |GraphP()(bs).value.1|
    ensures Deserialized(bs[..n]) == Err(Truncated)
  {
    GraphStable();
    assert StableAt(GraphP(), bs, n);
  }

  /** Every proper prefix of a written graph is reported as truncated. */
  lemma PrefixIsTruncated(nodes: seq<NodeKey>, table: map<NodeKey, NodeId>, outs: seq<NodeId>, n: nat)
    requires Stored(nodes, table, outs) && Fits(nodes, outs) && n < |GraphBytes(nodes, outs)|
    ensures Deserialized(GraphBytes(nodes, outs)[..n]) == Err(Truncated)
  {
    GraphReadsBack(nodes, table, outs);
    var bytes := GraphBytes(nodes, outs);
    assert ReadsBackBefore(GraphP(), bytes, Loaded(nodes, table, outs), []);
    assert bytes + [] == bytes;
    CutIsTruncated(bytes, n);
  }

  // ---- what decoding yields ----

  lemma ReturnYields<T>(v: T, good: T -> bool)
    requires good(v)
    ensures Yields(Return(v), good)
  {
  }

  lemma FailYields<T>(e: DecodeError, good: T -> bool)
    ensures Yields(Fail<T>(e), good)
  {
  }

  lemma TakeYields(n: nat)
    ensures Yields(Take(n), (bs: seq<byte>) => |bs| == n)
  {
  }

  lemma U32Yields()
    ensures Yields<nat>(U32(), (n: nat) => n < WORD)
  {
    TakeYields(4);
    WordSizes();
    forall bs: seq<byte> | |bs| == 4
      ensures LeValue(bs) < WORD
    {
      LeValueBytes(bs);
    }
    MappedYields<seq<byte>, nat>(Take(4), (bs: seq<byte>) => |bs| == 4, LeValue, (n: nat) => n < WORD);
  }

  lemma AnyYields<T>(p: Parser<T>)
    ensures Yields(p, (v: T) => true)
  {
  }

  lemma TextYields()
    ensures Yields(TextP(), FitsText)
  {
    forall n: nat | n < WORD
      ensures Yields(TextOf(n), FitsText)
    {
      TakeYields(n);
      forall bs: seq<byte> | |bs| == n
        ensures Yields(Utf8Text(bs), FitsText)
      {
        FailYields(BadUtf8, FitsText);
        if Decode(bs).Some? {
          EncodeDecode(bs);
          ReturnYields(Decode(bs).value, FitsText);
        }
      }
      BindYields(Take(n), (bs: seq<byte>) => |bs| == n, Utf8Text, FitsText);
    }
    U32Yields();
    BindYields<nat, string>(U32(), (n: nat) => n < WORD, TextOf, FitsText);
  }

  ghost function AllGood<T>(good: (nat, T) -> bool): seq<T> -> bool {
    vs => |vs| < WORD && forall k :: 0 <= k < |vs| ==> good(k, vs[k])
  }

  lemma ListYields<T(!new)>(p: nat -> Parser<T>, good: (nat, T) -> bool)
    requires forall k :: Yields(p(k), At(good, k))
    ensures Yields(ListOf(p), AllGood(good))
  {
    forall n: nat | n < WORD
      ensures Yields(RepeatTo(p)(n), AllGood(good))
    {
      forall bs: seq<byte>
        ensures YieldsFrom(RepeatTo(p)(n), AllGood(good), bs)
      {
        if Repeat(p, 0, n)(bs).Ok? {
          RepeatYields(p, good, 0, n, bs);
          var vs := Repeat(p, 0, n)(bs).value.0;
          assert forall k :: 0 <= k < |vs| ==> good(0 + k, vs[k]);
        }
      }
    }
    U32Yields();
    BindYields<nat, seq<T>>(U32(), (n: nat) => n < WORD, RepeatTo(p), AllGood(good));
  }

  lemma TaggedYields<T(!new)>(f: nat -> Parser<T>, good: T -> bool)
    requires forall tag :: Yields(f(tag), good)
    ensures Yields(Bind(U8(), f), good)
  {
    AnyYields<nat>(U8());
    BindYields<nat, T>(U8(), (n: nat) => true, f, good);
  }

  lemma ValueYields()
    ensures Yields(ValueP(), FitsValue)
  {
    forall tag: nat
      ensures Yields(ValueOf(tag), FitsValue)
    {
      AnyYields<u64>(U64());
      AnyYields<nat>(U8());
      TextYields();
      MappedYields(U64(), (u: u64) => true, IntOf, FitsValue);
      MappedYields(U64(), (u: u64) => true, FloatOf, FitsValue);
      MappedYields<nat, ParamValue>(U8(), (n: nat) => true, BoolOf, FitsValue);
      MappedYields(TextP(), FitsText, StrOf, FitsValue);
      FailYields<ParamValue>(BadTag("param", tag), FitsValue);
    }
    TaggedYields(ValueOf, FitsValue);
  }

  predicate FitsEntryAt(i: nat, e: Entry) {
    FitsEntry(e)
  }

  predicate FitsPair(kv: (string, ParamValue)) {
    FitsText(kv.0) && FitsValue(kv.1)
  }

  lemma EntryYields(i: nat)
    ensures Yields(EntryP(i), At(FitsEntryAt, i))
  {
    TextYields();
    ValueYields();
    BothYields(TextP(), FitsText, ValueP(), FitsValue, FitsPair);
    forall kv | FitsPair(kv)
      ensures At(FitsEntryAt, i)(EntryOf(kv))
    {
      assert FitsEntryAt(i, EntryOf(kv));
    }
    MappedYields(Both(TextP(), ValueP()), FitsPair, EntryOf, At(FitsEntryAt, i));
  }

  lemma ParamsYield()
    ensures Yields(ParamsP(), FitsParams)
  {
    forall i: nat
      ensures Yields(EntryP(i), At(FitsEntryAt, i))
    {
      EntryYields(i);
    }
    ListYields(EntryP, FitsEntryAt);
    forall es: seq<Entry> | AllGood(FitsEntryAt)(es)
      ensures FitsParams(NewMap(es))
    {
      SortKeepsFitting(es);
    }
    MappedYields(ListOf(EntryP), AllGood(FitsEntryAt), NewMap, FitsParams);
  }

  lemma SortKeepsFitting(es: seq<Entry>)
    requires |es| < WORD && forall k :: 0 <= k < |es| ==> FitsEntry(es[k])
    ensures FitsParams(NewMap(es))
  {
    var p: seq<Entry> := NewMap(es);
    assert |multiset(p)| == |p| && |multiset(es)| == |es|;
    forall e | e in p
      ensures FitsEntry(e)
    {
      assert e in multiset(p);
      assert e in multiset(es);
    }
  }

  ghost function FitsIdAt(max: nat): (nat, NodeId) -> bool {
    (i: nat, id: NodeId) => id < max && id < TWO_TO_64
  }

  lemma IdYields(max: nat, k: nat)
    ensures Yields(IdBelow(max), At(FitsIdAt(max), k))
  {
    var good := At<NodeId>(FitsIdAt(max), k);
    forall id: u64
      ensures Yields(CheckId(max)(id), good)
    {
      FailYields<NodeId>(BadNodeRef(id), good);
      if id < max {
        ReturnYields<NodeId>(id, good);
      }
    }
    AnyYields<u64>(U64());
    BindYields(U64(), (u: u64) => true, CheckId(max), good);
  }

  lemma InputsYield(max: nat)
    ensures Yields(InputsP(max), xs => FitsInputs(max, xs))
  {
    var p := (i: nat) => IdBelow(max);
    forall k: nat
      ensures Yields(p(k), At(FitsIdAt(max), k))
    {
      IdYields(max, k);
    }
    ListYields(p, FitsIdAt(max));
    Weaken(InputsP(max), AllGood(FitsIdAt(max)), (xs: seq<NodeId>) => FitsInputs(max, xs));
  }

  lemma Weaken<T(!new)>(p: Parser<T>, strong: T -> bool, weak: T -> bool)
    requires Yields(p, strong) && forall v :: strong(v) ==> weak(v)
    ensures Yields(p, weak)
  {
    forall bs: seq<byte>
      ensures YieldsFrom(p, weak, bs)
    {
      assert YieldsFrom(p, strong, bs);
    }
  }

  lemma RefYields(m: nat)
    ensures Yields(RefP(m), r => FitsRef(m, r))
  {
    var small := (tv: (nat, nat)) => tv.1 < WORD;
    forall tv: (nat, nat) | small(tv)
      ensures Yields(RefOf(m)(tv), r => FitsRef(m, r))
    {
      FailYields<StageRef>(BadNodeRef(tv.1), r => FitsRef(m, r));
      FailYields<StageRef>(BadTag("stage-ref", tv.0), r => FitsRef(m, r));
      ReturnYields(Input(tv.1), r => FitsRef(m, r));
      if tv.1 < m {
        ReturnYields(Member(tv.1), r => FitsRef(m, r));
      }
    }
    AnyYields<nat>(U8());
    U32Yields();
    BothYields<nat, nat>(U8(), (n: nat) => true, U32(), (n: nat) => n < WORD, small);
    BindYields<(nat, nat), StageRef>(Both(U8(), U32()), small, RefOf(m), r => FitsRef(m, r));
  }

  ghost function FitsRefAt(m: nat): (nat, StageRef) -> bool {
    (l: nat, r: StageRef) => FitsRef(m, r)
  }

  ghost function FitsTokenAndRefs(m: nat): ((string, seq<StageRef>)) -> bool {
    (tr: (string, seq<StageRef>)) => FitsText(tr.0) && AllGood(FitsRefAt(m))(tr.1)
  }

  lemma MemberYields(m: nat)
    ensures Yields(MemberP(m), At(FitsMember, m))
  {
    var p := (i: nat) => RefP(m);
    forall l: nat
      ensures Yields(p(l), At(FitsRefAt(m), l))
    {
      RefYields(m);
      Weaken(RefP(m), r => FitsRef(m, r), At(FitsRefAt(m), l));
    }
    ListYields(p, FitsRefAt(m));
    TextYields();
    BothYields(TextP(), FitsText, ListOf(p), AllGood(FitsRefAt(m)), FitsTokenAndRefs(m));
    MemberGood(m);
    MappedYields(Both(TextP(), ListOf(p)), FitsTokenAndRefs(m), MemberOf, At(FitsMember, m));
  }

  lemma MemberGood(m: nat)
    ensures forall tr :: FitsTokenAndRefs(m)(tr) ==> At(FitsMember, m)(MemberOf(tr))
  {
    forall tr | FitsTokenAndRefs(m)(tr)
      ensures FitsMember(m, MemberOf(tr))
    {
      assert AllGood(FitsRefAt(m))(tr.1);
      assert forall l: nat :: l < |tr.1| ==> FitsRefAt(m)(l, tr.1[l]);
    }
  }

  lemma MembersYield()
    ensures Yields(ListOf(MemberP), FitsMembers)
  {
    forall m: nat
      ensures Yields(MemberP(m), At(FitsMember, m))
    {
      MemberYields(m);
    }
    ListYields(MemberP, FitsMember);
    forall ops | AllGood(FitsMember)(ops)
      ensures FitsMembers(ops)
    {
    }
    Weaken(ListOf(MemberP), AllGood(FitsMember), FitsMembers);
  }

  predicate FitsPreprocessing(s: Option<string>) {
    s.Some? ==> FitsText(s.value)
  }

  lemma PreprocessingYields()
    ensures Yields(Bind(U8(), PreprocessingOf), FitsPreprocessing)
  {
    forall flag: nat
      ensures Yields(PreprocessingOf(flag), FitsPreprocessing)
    {
      TextYields();
      MappedYields(TextP(), FitsText, SomeText, FitsPreprocessing);
      ReturnYields<Option<string>>(None, FitsPreprocessing);
    }
    TaggedYields(PreprocessingOf, FitsPreprocessing);
  }

  ghost function FirstFits<T>(good: T -> bool): ((string, T)) -> bool {
    (t: (string, T)) => FitsText(t.0) && good(t.1)
  }

  lemma TextThenYields<T(!new)>(q: Parser<T>, good: T -> bool)
    requires Yields(q, good)
    ensures Yields(Both(TextP(), q), FirstFits(good))
  {
    TextYields();
    BothYields(TextP(), FitsText, q, good, FirstFits(good));
  }

  lemma DescriptorYields()
    ensures Yields(DescriptorP(), FitsDescriptor)
  {
    PreprocessingYields();
    var q5 := Bind(U8(), PreprocessingOf);
    TextThenYields(q5, FitsPreprocessing);
    var q4, g4 := Both(TextP(), q5), FirstFits(FitsPreprocessing);
    TextThenYields(q4, g4);
    var q3, g3 := Both(TextP(), q4), FirstFits(g4);
    TextThenYields(q3, g3);
    var q2, g2 := Both(TextP(), q3), FirstFits(g3);
    TextThenYields(q2, g2);
    var q1, g1 := Both(TextP(), q2), FirstFits(g2);
    TextThenYields(q1, g1);
    MappedYields(Both(TextP(), q1), FirstFits(g1), DescriptorOf, FitsDescriptor);
  }

  ghost function FitsOperands(idx: nat): ((ParamMap, seq<NodeId>)) -> bool {
    (t: (ParamMap, seq<NodeId>)) => FitsParams(t.0) && FitsInputs(idx, t.1)
  }

  lemma OperandsYield(idx: nat)
    ensures Yields(Both(ParamsP(), InputsP(idx)), FitsOperands(idx))
  {
    ParamsYield();
    InputsYield(idx);
    BothYields(ParamsP(), FitsParams, InputsP(idx), xs => FitsInputs(idx, xs), FitsOperands(idx));
  }

  lemma NamedYields(idx: nat)
    ensures Yields(Mapped(Both(TextP(), ParamsP()), SourceOf), k => FitsKey(idx, k))
    ensures Yields(Mapped(Both(TextP(), Both(ParamsP(), InputsP(idx))), OpOf), k => FitsKey(idx, k))
    ensures Yields(Mapped(Both(TextP(), Both(ParamsP(), InputsP(idx))), ReductionOf), k => FitsKey(idx, k))
  {
    ParamsYield();
    OperandsYield(idx);
    TextThenYields(ParamsP(), FitsParams);
    TextThenYields(Both(ParamsP(), InputsP(idx)), FitsOperands(idx));
    MappedYields(Both(TextP(), ParamsP()), FirstFits(FitsParams), SourceOf, k => FitsKey(idx, k));
    MappedYields(Both(TextP(), Both(ParamsP(), InputsP(idx))), FirstFits(FitsOperands(idx)), OpOf, k => FitsKey(idx, k));
    MappedYields(Both(TextP(), Both(ParamsP(), InputsP(idx))), FirstFits(FitsOperands(idx)), ReductionOf, k => FitsKey(idx, k));
  }

  lemma ExternalYields(idx: nat)
    ensures Yields(Mapped(Both(DescriptorP(), Both(ParamsP(), InputsP(idx))), ExternalOf), k => FitsKey(idx, k))
  {
    DescriptorYields();
    OperandsYield(idx);
    var both := (t: (PayloadDescriptor, (ParamMap, seq<NodeId>))) => FitsDescriptor(t.0) && FitsOperands(idx)(t.1);
    BothYields(DescriptorP(), FitsDescriptor, Both(ParamsP(), InputsP(idx)), FitsOperands(idx), both);
    MappedYields(Both(DescriptorP(), Both(ParamsP(), InputsP(idx))), both, ExternalOf, k => FitsKey(idx, k));
  }

  lemma StageYields(idx: nat)
    ensures Yields(Mapped(Both(InputsP(idx), ListOf(MemberP)), StageOf), k => FitsKey(idx, k))
  {
    InputsYield(idx);
    MembersYield();
    var both := (t: (seq<NodeId>, seq<StageOp>)) => FitsInputs(idx, t.0) && FitsMembers(t.1);
    BothYields(InputsP(idx), xs => FitsInputs(idx, xs), ListOf(MemberP), FitsMembers, both);
    MappedYields(Both(InputsP(idx), ListOf(MemberP)), both, StageOf, k => FitsKey(idx, k));
  }

  lemma KeyYields(idx: nat)
    ensures Yields(KeyP(idx), k => FitsKey(idx, k))
  {
    NamedYields(idx);
    ExternalYields(idx);
    StageYields(idx);
    forall tag: nat
      ensures Yields(KeyOf(idx)(tag), k => FitsKey(idx, k))
    {
      FailYields<NodeKey>(BadTag("node", tag), k => FitsKey(idx, k));
    }
    TaggedYields(KeyOf(idx), k => FitsKey(idx, k));
  }

  // ---- accepted inputs are well-formed stores ----

  ghost predicate Good(st: Loaded) {
    Stored(st.nodes, st.table, st.outputs) && forall i :: 0 <= i < |st.nodes| ==> FitsKey(i, st.nodes[i])
  }

  /** A key that names only recorded nodes fits its own, possibly smaller, id. */
  lemma FitsSmaller(idx: nat, n: nat, k: NodeKey)
    requires FitsKey(idx, k) && AllBelow(k.Inputs(), n)
    ensures FitsKey(n, k)
  {
  }

  /** At most `n` good nodes and no outputs yet. */
  ghost predicate GoodNodes(n: nat, st: Loaded) {
    Good(st) && |st.nodes| <= n && st.outputs == []
  }

  ghost function GoodNodesTo(n: nat): Loaded -> bool {
    (st: Loaded) => GoodNodes(n, st)
  }

  lemma AddedGood(st: Loaded, idx: nat, key: NodeKey)
    requires GoodNodes(idx, st) && FitsKey(idx, key) && BadInput(key.Inputs(), |st.nodes|).None?
    ensures GoodNodes(idx + 1, Added(st, key))
  {
    InternFacts(st.nodes, st.table, key);
    FitsSmaller(idx, |st.nodes|, key);
  }

  /** What a successful reading of nodes is made of. */
  lemma NodesParts(idx: nat, n: nat, st: Loaded, bs: seq<byte>)
    requires idx < n && NodesP(idx, n, st)(bs).Ok?
    ensures KeyP(idx)(bs).Ok?
    ensures var (key, rest) := KeyP(idx)(bs).value;
      BadInput(key.Inputs(), |st.nodes|).None? && NodesP(idx + 1, n, Added(st, key))(rest) == NodesP(idx, n, st)(bs)
  {
    assert NodesP(idx, n, st)(bs) == Bind(KeyP(idx), NextNode(idx, n, st))(bs);
    var (key, rest) := KeyP(idx)(bs).value;
    assert NodesP(idx, n, st)(bs) == NextNode(idx, n, st)(key)(rest);
  }

  lemma NodesStep(idx: nat, n: nat, st: Loaded, bs: seq<byte>) returns (next: Loaded, rest: seq<byte>)
    requires idx < n && GoodNodesTo(idx)(st) && NodesP(idx, n, st)(bs).Ok?
    ensures GoodNodesTo(idx + 1)(next) && NodesP(idx + 1, n, next)(rest) == NodesP(idx, n, st)(bs)
  {
    NodesParts(idx, n, st, bs);
    var key := KeyP(idx)(bs).value.0;
    KeyYields(idx);
    assert YieldsFrom(KeyP(idx), k => FitsKey(idx, k), bs);
    AddedGood(st, idx, key);
    next, rest := Added(st, key), KeyP(idx)(bs).value.1;
  }

  /** Reading one item leads from a state to the next without changing the outcome. */
  ghost predicate Leads(
      read: nat -> Loaded -> Parser<Loaded>, i: nat, st: Loaded, bs: seq<byte>, next: Loaded, rest: seq<byte>) {
    read(i + 1)(next)(rest) == read(i)(st)(bs)
  }

  /** A step of a counted reading goes from a good state to a good state. */
  ghost predicate StepsOn(read: nat -> Loaded -> Parser<Loaded>, good: nat -> Loaded -> bool, i: nat, st: Loaded, bs: seq<byte>) {
    good(i)(st) && read(i)(st)(bs).Ok? ==> exists next, rest :: Leads(read, i, st, bs, next, rest) && good(i + 1)(next)
  }

  /** A counted reading that ends by handing back its state ends in a good one. */
  lemma {:induction false} EndsGood(
      read: nat -> Loaded -> Parser<Loaded>, good: nat -> Loaded -> bool, i: nat, n: nat, st: Loaded, bs: seq<byte>)
    requires i <= n && good(i)(st) && read(i)(st)(bs).Ok?
    requires forall s: Loaded :: read(n)(s) == Return(s)
    requires forall j: nat, s: Loaded, b: seq<byte> :: j < n ==> StepsOn(read, good, j, s, b)
    ensures good(n)(read(i)(st)(bs).value.0)
    decreases n - i
  {
    if i < n {
      assert StepsOn(read, good, i, st, bs);
      var next, rest :| Leads(read, i, st, bs, next, rest) && good(i + 1)(next);
      EndsGood(read, good, i + 1, n, next, rest);
    }
  }

  ghost function NodesFrom(n: nat): nat -> Loaded -> Parser<Loaded> {
    (i: nat) => (st: Loaded) => NodesP(i, n, st)
  }

  lemma NodesStepOn(i: nat, n: nat, st: Loaded, bs: seq<byte>)
    requires i < n
    ensures StepsOn(NodesFrom(n), GoodNodesTo, i, st, bs)
  {
    var read := NodesFrom(n);
    assert read(i)(st) == NodesP(i, n, st);
    if GoodNodesTo(i)(st) && read(i)(st)(bs).Ok? {
      var next, rest := NodesStep(i, n, st, bs);
      assert read(i + 1)(next) == NodesP(i + 1, n, next);
      assert Leads(read, i, st, bs, next, rest);
    }
  }

  lemma NodesYield(n: nat)
    ensures Yields(AllNodes(n), GoodNodesTo(n))
  {
    forall bs: seq<byte>
      ensures YieldsFrom(AllNodes(n), GoodNodesTo(n), bs)
    {
      if AllNodes(n)(bs).Ok? {
        forall j: nat, s: Loaded, b: seq<byte> | j < n
          ensures StepsOn(NodesFrom(n), GoodNodesTo, j, s, b)
        {
          NodesStepOn(j, n, s, b);
        }
        EndsGood(NodesFrom(n), GoodNodesTo, 0, n, NOTHING, bs);
      }
    }
  }

  /** Good nodes and at most `n` outputs. */
  ghost predicate GoodMarks(n: nat, st: Loaded) {
    Good(st) && |st.nodes| < WORD && |st.outputs| <= n
  }

  ghost function GoodMarksTo(n: nat): Loaded -> bool {
    (st: Loaded) => GoodMarks(n, st)
  }

  lemma MarkedGood(st: Loaded, i: nat, id: u64)
    requires GoodMarks(i, st) && id < |st.nodes|
    ensures GoodMarks(i + 1, Marked(st, id))
  {
    var marks := Mark(st.outputs, id);
    forall k | 0 <= k < |marks|
      ensures marks[k] < |st.nodes|
    {
      assert k < |st.outputs| ==> marks[k] == st.outputs[k];
    }
  }

  lemma OutputsParts(i: nat, n: nat, st: Loaded, bs: seq<byte>)
    requires i < n && OutputsP(i, n, st)(bs).Ok?
    ensures U64()(bs).Ok?
    ensures var (id, rest) := U64()(bs).value;
      id < |st.nodes| && OutputsP(i + 1, n, Marked(st, id))(rest) == OutputsP(i, n, st)(bs)
  {
    assert OutputsP(i, n, st)(bs) == Bind(U64(), NextOutput(i, n, st))(bs);
    var (id, rest) := U64()(bs).value;
    assert OutputsP(i, n, st)(bs) == NextOutput(i, n, st)(id)(rest);
  }

  lemma OutputsStep(i: nat, n: nat, st: Loaded, bs: seq<byte>) returns (next: Loaded, rest: seq<byte>)
    requires i < n && GoodMarksTo(i)(st) && OutputsP(i, n, st)(bs).Ok?
    ensures GoodMarksTo(i + 1)(next) && OutputsP(i + 1, n, next)(rest) == OutputsP(i, n, st)(bs)
  {
    OutputsParts(i, n, st, bs);
    MarkedGood(st, i, U64()(bs).value.0);
    next, rest := Marked(st, U64()(bs).value.0), U64()(bs).value.1;
  }

  ghost function OutputsFrom(n: nat): nat -> Loaded -> Parser<Loaded> {
    (i: nat) => (st: Loaded) => OutputsP(i, n, st)
  }

  lemma OutputsStepOn(i: nat, n: nat, st: Loaded, bs: seq<byte>)
    requires i < n
    ensures StepsOn(OutputsFrom(n), GoodMarksTo, i, st, bs)
  {
    var read := OutputsFrom(n);
    assert read(i)(st) == OutputsP(i, n, st);
    if GoodMarksTo(i)(st) && read(i)(st)(bs).Ok? {
      var next, rest := OutputsStep(i, n, st, bs);
      assert read(i + 1)(next) == OutputsP(i + 1, n, next);
      assert Leads(read, i, st, bs, next, rest);
    }
  }

  lemma OutputsYield(n: nat, st: Loaded)
    requires GoodMarks(0, st)
    ensures Yields(AllOutputs(st)(n), GoodMarksTo(n))
  {
    forall bs: seq<byte>
      ensures YieldsFrom(AllOutputs(st)(n), GoodMarksTo(n), bs)
    {
      if AllOutputs(st)(n)(bs).Ok? {
        forall j: nat, s: Loaded, b: seq<byte> | j < n
          ensures StepsOn(OutputsFrom(n), GoodMarksTo, j, s, b)
        {
          OutputsStepOn(j, n, s, b);
        }
        EndsGood(OutputsFrom(n), GoodMarksTo, 0, n, st, bs);
      }
    }
  }

  ghost predicate Acceptable(st: Loaded) {
    Stored(st.nodes, st.table, st.outputs) && Fits(st.nodes, st.outputs)
  }

  lemma OutputsAfterYield(st: Loaded)
    requires Good(st) && |st.nodes| < WORD && st.outputs == []
    ensures Yields(OutputsAfter(st), Acceptable)
  {
    forall n: nat | n < WORD
      ensures Yields(AllOutputs(st)(n), Acceptable)
    {
      OutputsYield(n, st);
      Weaken(AllOutputs(st)(n), GoodMarksTo(n), Acceptable);
    }
    U32Yields();
    BindYields<nat, Loaded>(U32(), (n: nat) => n < WORD, AllOutputs(st), Acceptable);
  }

  lemma GraphYields()
    ensures Yields(GraphP(), Acceptable)
  {
    var counted := (st: Loaded) => Good(st) && |st.nodes| < WORD && st.outputs == [];
    forall n: nat | n < WORD
      ensures Yields(AllNodes(n), counted)
    {
      NodesYield(n);
      Weaken(AllNodes(n), GoodNodesTo(n), counted);
    }
    U32Yields();
    BindYields<nat, Loaded>(U32(), (n: nat) => n < WORD, AllNodes, counted);
    forall st | counted(st)
      ensures Yields(OutputsAfter(st), Acceptable)
    {
      OutputsAfterYield(st);
    }
    BindYields(Bind(U32(), AllNodes), counted, OutputsAfter, Acceptable);
    forall magic: seq<byte>
      ensures Yields(AfterMagic(magic), Acceptable)
    {
      FailYields(BadMagic, Acceptable);
    }
    AnyYields(Take(4));
    BindYields(Take(4), (bs: seq<byte>) => true, AfterMagic, Acceptable);
  }

  /** Whatever bytes are accepted, the store they decode to is well formed, and writing it and decoding
      again gives the identical store. */
  lemma AcceptedReserializes(bs: seq<byte>)
    requires Deserialized(bs).Ok?
    ensures var st := Deserialized(bs).value;
      Stored(st.nodes, st.table, st.outputs) && Fits(st.nodes, st.outputs)
      && Deserialized(GraphBytes(st.nodes, st.outputs)) == Ok(st)
  {
    GraphYields();
    assert YieldsFrom(GraphP(), Acceptable, bs);
    var st := Deserialized(bs).value;
    RoundTrip(st.nodes, st.table, st.outputs, []);
  }
}
