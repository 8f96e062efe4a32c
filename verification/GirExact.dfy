/** Exactly which accepted bytes are the ones the writer would have produced. */
module GirExact {
  import opened Wrappers
  import opened Sorting
  import opened Param
  import opened Node
  import opened Bytes
  import opened Utf8
  import opened Parsing
  import opened Gir
  import opened GirRoundTrip
  import opened GirArbitrary
  import opened Exactness

  // ---- the check ----

  predicate IsBit(n: nat) {
    n <= 1
  }

  predicate AnyTag(tag: nat) {
    true
  }

  function NoChecks(tag: nat): Check {
    Always()
  }

  /** Booleans are 0 or 1. */
  function ValueChecks(tag: nat): Check {
    if tag == P_BOOL then When(U8(), Always(), IsBit) else Always()
  }

  function ValueCheck(): Check {
    Tagged(AnyTag, ValueChecks)
  }

  function EntryCheck(): Check {
    Then(TextP(), Always(), ValueCheck())
  }

  ghost function InKeyOrder(): seq<Entry> -> bool {
    es => SortedByKey(es)
  }

  /** The entries of a map are in key order. */
  ghost function ParamsCheck(): Check {
    When(ListOf(EntryP), Listed(EntryP, EntryCheck()), InKeyOrder())
  }

  /** The preprocessing flag is 0 or 1. */
  function PreprocessingCheck(): Check {
    Tagged(IsBit, NoChecks)
  }

  function DescriptorCheck(): Check {
    Then(TextP(), Always(), Then(TextP(), Always(), Then(TextP(), Always(), Then(TextP(), Always(),
      Then(TextP(), Always(), PreprocessingCheck())))))
  }

  ghost function OperandsCheck(): Check {
    Then(ParamsP(), ParamsCheck(), Always())
  }

  ghost function KeyChecks(tag: nat): Check {
    if tag == T_SOURCE then Then(TextP(), Always(), ParamsCheck())
    else if tag == T_OP || tag == T_REDUCTION then Then(TextP(), Always(), OperandsCheck())
    else if tag == T_EXTERNAL then Then(DescriptorP(), DescriptorCheck(), OperandsCheck())
    else Always()
  }

  ghost function KeyCheck(): Check {
    Tagged(AnyTag, KeyChecks)
  }

  // ---- text, words and references are always written as they were read ----

  lemma TextWritten(n: nat, mid: seq<byte>)
    requires TextOf(n)(mid).Ok?
    ensures |mid| >= n && mid == mid[..n] + mid[n..]
    ensures TextOf(n)(mid).value.1 == mid[n..] && TextBytes(TextOf(n)(mid).value.0) == LeBytes(n, 4) + mid[..n]
  {
    assert TextOf(n)(mid) == Bind(Take(n), Utf8Text)(mid);
    assert |mid| < n ==> Take(n)(mid).Err?;
    assert Take(n)(mid) == Ok((mid[..n], mid[n..]));
    assert TextOf(n)(mid) == Utf8Text(mid[..n])(mid[n..]);
    assert Decode(mid[..n]).Some?;
    EncodeDecode(mid[..n]);
  }

  lemma TextExactAt(bs: seq<byte>)
    ensures ExactAt(TextP(), Always(), TextBytes, bs)
  {
    if TextP()(bs).Ok? {
      WordExact(bs);
      var n, mid := U32()(bs).value.0, U32()(bs).value.1;
      assert TextP()(bs) == TextOf(n)(mid);
      TextWritten(n, mid);
      Reassociate(LeBytes(n, 4), mid[..n], mid[n..]);
    }
  }

  lemma TextExact()
    ensures Exact(TextP(), Always(), TextBytes) && Own(TextP(), TextBytes)
  {
    forall bs: seq<byte>
      ensures ExactAt(TextP(), Always(), TextBytes, bs)
    {
      TextExactAt(bs);
    }
    TextYields();
    forall s | FitsText(s)
      ensures ReadsBack(TextP(), TextBytes(s), s)
    {
      TextReadsBack(s);
    }
    OwnIfGood(TextP(), FitsText, TextBytes);
  }

  function LongBytes(u: u64): seq<byte> {
    LeBytes(u, 8)
  }

  lemma LongExact()
    ensures Exact(U64(), Always(), LongBytes)
  {
    forall bs: seq<byte>
      ensures ExactAt(U64(), Always(), LongBytes, bs)
    {
      if U64()(bs).Ok? {
        var b := bs[..8];
        LeValueBytes(b);
        WordSizes();
        assert LeWord(b) == LeValue(b) by {
          SmallWord(LeValue(b), Pow256(8));
        }
        assert bs == b + bs[8..];
      }
    }
  }

  lemma SmallWord(n: nat, p: nat)
    requires p == TWO_TO_64 && n < p
    ensures n % TWO_TO_64 == n
  {
  }

  function ByteOf(n: nat): seq<byte> {
    if n < 256 then [n] else []
  }

  lemma ByteExact()
    ensures Exact<nat>(U8(), Always(), ByteOf)
  {
    forall bs: seq<byte>
      ensures ExactAt<nat>(U8(), Always(), ByteOf, bs)
    {
      if U8()(bs).Ok? {
        FirstByte(bs);
        assert bs == [bs[0]] + bs[1..];
      }
    }
  }

  lemma IdExact(max: nat)
    ensures Exact(IdBelow(max), Always(), IdBytes) && Own(IdBelow(max), IdBytes)
  {
    LongExact();
    forall bs: seq<byte>
      ensures ExactAt(IdBelow(max), Always(), IdBytes, bs)
    {
      assert ExactAt(U64(), Always(), LongBytes, bs);
    }
    IdYields(max, 0);
    forall id: NodeId | At(FitsIdAt(max), 0)(id)
      ensures ReadsBack(IdBelow(max), IdBytes(id), id)
    {
      IdReadsBack(max, id);
    }
    OwnIfGood(IdBelow(max), At(FitsIdAt(max), 0), IdBytes);
  }

  lemma InputsExact(max: nat)
    ensures Exact(InputsP(max), Always(), CountedBy(IdBytes)) && Own(InputsP(max), CountedBy(IdBytes))
  {
    var p := (i: nat) => IdBelow(max);
    forall k: nat
      ensures Exact(p(k), Always(), IdBytes) && Own(p(k), IdBytes)
    {
      IdExact(max);
    }
    ListExact(p, Always(), IdBytes);
    ListAlways(p, CountedBy(IdBytes));
    InputsYield(max);
    forall xs | FitsInputs(max, xs)
      ensures ReadsBack(InputsP(max), CountedBy(IdBytes)(xs), xs)
    {
      InputsReadBack(max, xs);
    }
    OwnIfGood(InputsP(max), xs => FitsInputs(max, xs), CountedBy(IdBytes));
  }

  /** If nothing has to be checked of the items, nothing has to be checked of a list. */
  lemma ListAlways<T(!new)>(p: nat -> Parser<T>, write: seq<T> -> seq<byte>)
    requires Exact(ListOf(p), Listed(p, Always()), write)
    ensures Exact(ListOf(p), Always(), write)
  {
    forall bs: seq<byte>
      ensures ExactAt(ListOf(p), Always(), write, bs)
    {
      assert ExactAt(ListOf(p), Listed(p, Always()), write, bs);
      if ListOf(p)(bs).Ok? {
        RepeatAlways(p, 0, U32()(bs).value.0, U32()(bs).value.1);
      }
    }
  }

  lemma {:induction false} RepeatAlways<T>(p: nat -> Parser<T>, i: nat, n: nat, bs: seq<byte>)
    requires Repeat(p, i, n)(bs).Ok?
    ensures Repeated(p, Always(), i, n)(bs)
    decreases n - i
  {
    if i < n {
      RepeatParts(p, i, n, bs);
      RepeatAlways(p, i + 1, n, p(i)(bs).value.1);
    }
  }

  lemma RefWritten(m: nat, tag: nat, v: nat, rest: seq<byte>)
    requires RefOf(m)((tag, v))(rest).Ok? && tag < 256
    ensures RefOf(m)((tag, v))(rest).value.1 == rest && RefBytes(RefOf(m)((tag, v))(rest).value.0) == [tag] + LeBytes(v, 4)
  {
  }

  lemma RefParts(m: nat, bs: seq<byte>) returns (tag: nat, v: nat, rest: seq<byte>)
    requires RefP(m)(bs).Ok?
    ensures tag < 256 && RefOf(m)((tag, v))(rest) == RefP(m)(bs) && bs == [tag] + LeBytes(v, 4) + rest
  {
    FirstByte(bs);
    WordExact(bs[1..]);
    tag, v, rest := bs[0], U32()(bs[1..]).value.0, bs[1..][4..];
    assert Both<nat, nat>(U8(), U32())(bs) == Ok(((tag, v), rest));
    assert bs == [tag] + bs[1..];
    Reassociate([tag as byte], LeBytes(v, 4), rest);
  }

  lemma RefExactAt(m: nat, bs: seq<byte>)
    ensures ExactAt(RefP(m), Always(), RefBytes, bs)
  {
    if RefP(m)(bs).Ok? {
      var tag, v, rest := RefParts(m, bs);
      RefWritten(m, tag, v, rest);
    }
  }

  lemma RefExact(m: nat)
    ensures Exact(RefP(m), Always(), RefBytes) && Own(RefP(m), RefBytes)
  {
    forall bs: seq<byte>
      ensures ExactAt(RefP(m), Always(), RefBytes, bs)
    {
      RefExactAt(m, bs);
    }
    RefYields(m);
    forall r | FitsRef(m, r)
      ensures ReadsBack(RefP(m), RefBytes(r), r)
    {
      RefReadsBack(m, r);
    }
    OwnIfGood(RefP(m), r => FitsRef(m, r), RefBytes);
  }

  lemma MemberExact(m: nat)
    ensures Exact(MemberP(m), Always(), MemberBytes) && Own(MemberP(m), MemberBytes)
  {
    var p := (i: nat) => RefP(m);
    forall k: nat
      ensures Exact(p(k), Always(), RefBytes) && Own(p(k), RefBytes)
    {
      RefExact(m);
    }
    ListExact(p, Always(), RefBytes);
    ListAlways(p, CountedBy(RefBytes));
    TextExact();
    BothExact(TextP(), Always(), TextBytes, ListOf(p), Always(), CountedBy(RefBytes));
    MappedExact(Both(TextP(), ListOf(p)), Then(TextP(), Always(), Always()), BothBytes(TextBytes, CountedBy(RefBytes)),
                MemberOf, MemberBytes);
    ThenAlways(Both(TextP(), ListOf(p)), TextP(), ListOf(p), MemberOf, MemberBytes);
    MemberYields(m);
    forall op | FitsMember(m, op)
      ensures ReadsBack(MemberP(m), MemberBytes(op), op)
    {
      MemberReadsBack(m, op);
    }
    OwnIfGood(MemberP(m), At(FitsMember, m), MemberBytes);
  }

  lemma MembersExact()
    ensures Exact(ListOf(MemberP), Always(), CountedBy(MemberBytes))
  {
    forall m: nat
      ensures Exact(MemberP(m), Always(), MemberBytes) && Own(MemberP(m), MemberBytes)
    {
      MemberExact(m);
    }
    ListExact(MemberP, Always(), MemberBytes);
    ListAlways(MemberP, CountedBy(MemberBytes));
  }

  // ---- parameters ----

  function ValueFields(v: ParamValue): seq<byte> {
    ValueBytes(v)[1..]
  }

  function ToBit(n: nat): nat {
    if n != 0 then 1 else 0
  }

  lemma FailExact<T>(e: DecodeError, check: Check, write: T -> seq<byte>)
    ensures Exact(Fail<T>(e), check, write)
  {
  }

  lemma IntFields(u: u64)
    ensures ValueFields(IntOf(u)) == LongBytes(u)
  {
    assert ToUnsigned(ToSigned(u)) == u;
  }

  lemma BoolExact()
    ensures Exact(Mapped(U8(), BoolOf), When(U8(), Always(), IsBit), ValueFields)
  {
    ByteExact();
    forall n: nat
      ensures ReadsBack<nat>(U8(), ByteOf(ToBit(n)), ToBit(n))
    {
      U8ReadsBack(ToBit(n));
    }
    ChangedExact<nat, ParamValue>(U8(), Always(), ByteOf, IsBit, ToBit, BoolOf, ValueFields);
  }

  lemma MappedValue<A, B>(p: Parser<A>, f: A -> B, bs: seq<byte>)
    requires Mapped(p, f)(bs).Ok?
    ensures p(bs).Ok? && Mapped(p, f)(bs).value.0 == f(p(bs).value.0)
  {
  }

  /** The tag determines the kind of value. */
  lemma ValueTag(tag: byte, bs: seq<byte>)
    requires ValueOf(tag)(bs).Ok?
    ensures ValueBytes(ValueOf(tag)(bs).value.0) == [tag] + ValueFields(ValueOf(tag)(bs).value.0)
  {
    if tag == P_INT {
      MappedValue(U64(), IntOf, bs);
    } else if tag == P_FLOAT {
      MappedValue(U64(), FloatOf, bs);
    } else if tag == P_BOOL {
      MappedValue<nat, ParamValue>(U8(), BoolOf, bs);
    } else if tag == P_STR {
      MappedValue(TextP(), StrOf, bs);
    }
  }

  lemma ValueExact()
    ensures Exact(ValueP(), ValueCheck(), ValueBytes)
  {
    forall tag: byte
      ensures Exact(ValueOf(tag), ValueChecks(tag), ValueFields)
    {
      LongExact();
      TextExact();
      BoolExact();
      forall u: u64
        ensures ValueFields(IntOf(u)) == LongBytes(u) && ValueFields(FloatOf(u)) == LongBytes(u)
      {
        IntFields(u);
      }
      MappedExact(U64(), Always(), LongBytes, IntOf, ValueFields);
      MappedExact(U64(), Always(), LongBytes, FloatOf, ValueFields);
      MappedExact(TextP(), Always(), TextBytes, StrOf, ValueFields);
      FailExact<ParamValue>(BadTag("param", tag), Always(), ValueFields);
    }
    forall tag: byte, bs: seq<byte>
      ensures TagWritten(ValueOf, AnyTag, ValueFields, ValueBytes, tag, bs)
    {
      if ValueOf(tag)(bs).Ok? {
        ValueTag(tag, bs);
      }
    }
    TaggedExact(ValueOf, AnyTag, ValueChecks, ValueFields, ValueBytes);
  }

  lemma EntryExact(i: nat)
    ensures Exact(EntryP(i), EntryCheck(), EntryBytes) && Own(EntryP(i), EntryBytes)
  {
    TextExact();
    ValueExact();
    BothExact(TextP(), Always(), TextBytes, ValueP(), ValueCheck(), ValueBytes);
    MappedExact(Both(TextP(), ValueP()), EntryCheck(), BothBytes(TextBytes, ValueBytes), EntryOf, EntryBytes);
    EntryYields(i);
    forall e | At(FitsEntryAt, i)(e)
      ensures ReadsBack(EntryP(i), EntryBytes(e), e)
    {
      assert FitsEntryAt(i, e);
      EntryReadsBack(i, e);
    }
    OwnIfGood(EntryP(i), At(FitsEntryAt, i), EntryBytes);
  }

  function Ordered(es: seq<Entry>): seq<Entry> {
    NewMap(es)
  }

  lemma OrderedOnlyIf(es: seq<Entry>)
    ensures SortedByKey(es) <==> Ordered(es) == es
  {
    if SortedByKey(es) {
      SortEntriesSorted(es);
    }
  }

  lemma OrderedReadBack(bs: seq<byte>)
    requires ListOf(EntryP)(bs).Ok?
    ensures ReadsBack(ListOf(EntryP), Counted(EntryBytes, Ordered(ListOf(EntryP)(bs).value.0)), Ordered(ListOf(EntryP)(bs).value.0))
  {
    forall i: nat
      ensures Yields(EntryP(i), At(FitsEntryAt, i))
    {
      EntryYields(i);
    }
    ListYields(EntryP, FitsEntryAt);
    assert YieldsFrom(ListOf(EntryP), AllGood(FitsEntryAt), bs);
    var es := ListOf(EntryP)(bs).value.0;
    forall k | 0 <= k < |es|
      ensures FitsEntry(es[k])
    {
      assert FitsEntryAt(k, es[k]);
    }
    SortKeepsFitting(es);
    EntriesReadBack(Ordered(es));
  }

  lemma EntriesReadBack(p: seq<Entry>)
    requires |p| < WORD && forall k :: 0 <= k < |p| ==> FitsEntry(p[k])
    ensures ReadsBack(ListOf(EntryP), Counted(EntryBytes, p), p)
  {
    forall k: nat | k < |p|
      ensures ReadsBack(EntryP(k), EntryBytes(p[k]), p[k])
    {
      EntryReadsBack(k, p[k]);
    }
    ListReadsBack(EntryP, EntryBytes, p);
  }

  lemma ParamsExact()
    ensures Exact(ParamsP(), ParamsCheck(), ParamsBytes) && Own(ParamsP(), ParamsBytes)
  {
    forall k: nat
      ensures Exact(EntryP(k), EntryCheck(), EntryBytes) && Own(EntryP(k), EntryBytes)
    {
      EntryExact(k);
    }
    ListExact(EntryP, EntryCheck(), EntryBytes);
    forall es: seq<Entry>
      ensures ParamsBytes(NewMap(es)) == CountedBy(EntryBytes)(Ordered(es)) && (InKeyOrder()(es) <==> Ordered(es) == es)
    {
      OrderedOnlyIf(es);
    }
    forall bs: seq<byte> | ListOf(EntryP)(bs).Ok?
      ensures ReadsBack(ListOf(EntryP), CountedBy(EntryBytes)(Ordered(ListOf(EntryP)(bs).value.0)), Ordered(ListOf(EntryP)(bs).value.0))
    {
      OrderedReadBack(bs);
    }
    ChangedExact(ListOf(EntryP), Listed(EntryP, EntryCheck()), CountedBy(EntryBytes), InKeyOrder(), Ordered, NewMap, ParamsBytes);
    ParamsYield();
    forall p | FitsParams(p)
      ensures ReadsBack(ParamsP(), ParamsBytes(p), p)
    {
      ParamsReadBack(p);
    }
    OwnIfGood(ParamsP(), FitsParams, ParamsBytes);
  }

  // ---- payload descriptors ----

  function PreprocessingFields(s: Option<string>): seq<byte> {
    match s case None => [] case Some(text) => TextBytes(text)
  }

  lemma FlagWritten(flag: byte, bs: seq<byte>)
    requires PreprocessingOf(flag)(bs).Ok?
    ensures TagWritten(PreprocessingOf, IsBit, PreprocessingFields, PreprocessingBytes, flag, bs)
  {
    if flag != 0 {
      MappedValue(TextP(), SomeText, bs);
      var s := PreprocessingOf(flag)(bs).value.0;
      assert PreprocessingBytes(s) == [1] + PreprocessingFields(s);
    } else {
      assert PreprocessingBytes(None) == [0] + PreprocessingFields(None);
    }
  }

  lemma PreprocessingExact()
    ensures Exact(Bind(U8(), PreprocessingOf), PreprocessingCheck(), PreprocessingBytes)
  {
    forall tag: byte | IsBit(tag)
      ensures Exact(PreprocessingOf(tag), NoChecks(tag), PreprocessingFields)
    {
      TextExact();
      MappedExact(TextP(), Always(), TextBytes, SomeText, PreprocessingFields);
      NothingExact<Option<string>>(None, PreprocessingFields);
    }
    forall tag: byte, bs: seq<byte>
      ensures TagWritten(PreprocessingOf, IsBit, PreprocessingFields, PreprocessingBytes, tag, bs)
    {
      if PreprocessingOf(tag)(bs).Ok? {
        FlagWritten(tag, bs);
      }
    }
    TaggedExact(PreprocessingOf, IsBit, NoChecks, PreprocessingFields, PreprocessingBytes);
  }

  lemma NothingExact<T>(v: T, write: T -> seq<byte>)
    requires write(v) == []
    ensures Exact(Return(v), Always(), write)
  {
    forall bs: seq<byte>
      ensures ExactAt(Return(v), Always(), write, bs)
    {
      assert [] + bs == bs;
    }
  }

  function TextThenBytes<T>(write: T -> seq<byte>): ((string, T)) -> seq<byte> {
    BothBytes(TextBytes, write)
  }

  lemma TextThenExact<T>(q: Parser<T>, check: Check, write: T -> seq<byte>)
    requires Exact(q, check, write)
    ensures Exact(Both(TextP(), q), Then(TextP(), Always(), check), TextThenBytes(write))
  {
    TextExact();
    BothExact(TextP(), Always(), TextBytes, q, check, write);
  }

  lemma DescriptorExact()
    ensures Exact(DescriptorP(), DescriptorCheck(), DescriptorBytes) && Own(DescriptorP(), DescriptorBytes)
  {
    PreprocessingExact();
    var q5, c5 := Bind(U8(), PreprocessingOf), PreprocessingCheck();
    TextThenExact(q5, c5, PreprocessingBytes);
    var q4, c4, w4 := Both(TextP(), q5), Then(TextP(), Always(), c5), TextThenBytes(PreprocessingBytes);
    TextThenExact(q4, c4, w4);
    var q3, c3, w3 := Both(TextP(), q4), Then(TextP(), Always(), c4), TextThenBytes(w4);
    TextThenExact(q3, c3, w3);
    var q2, c2, w2 := Both(TextP(), q3), Then(TextP(), Always(), c3), TextThenBytes(w3);
    TextThenExact(q2, c2, w2);
    var q1, c1, w1 := Both(TextP(), q2), Then(TextP(), Always(), c2), TextThenBytes(w2);
    TextThenExact(q1, c1, w1);
    MappedExact(Both(TextP(), q1), Then(TextP(), Always(), c1), TextThenBytes(w1), DescriptorOf, DescriptorBytes);
    DescriptorYields();
    forall d | FitsDescriptor(d)
      ensures ReadsBack(DescriptorP(), DescriptorBytes(d), d)
    {
      DescriptorReadsBack(d);
    }
    OwnIfGood(DescriptorP(), FitsDescriptor, DescriptorBytes);
  }

  // ---- nodes ----

  function OperandBytes(): ((ParamMap, seq<NodeId>)) -> seq<byte> {
    BothBytes(ParamsBytes, CountedBy(IdBytes))
  }

  lemma OperandsExact(idx: nat)
    ensures Exact(Both(ParamsP(), InputsP(idx)), OperandsCheck(), OperandBytes())
  {
    ParamsExact();
    InputsExact(idx);
    BothExact(ParamsP(), ParamsCheck(), ParamsBytes, InputsP(idx), Always(), CountedBy(IdBytes));
  }

  lemma SourceFields(t: (string, ParamMap))
    ensures KeyFields(SourceOf(t)) == TextThenBytes(ParamsBytes)(t)
  {
  }

  lemma NamedFields(t: (string, (ParamMap, seq<NodeId>)))
    ensures KeyFields(OpOf(t)) == TextThenBytes(OperandBytes())(t)
    ensures KeyFields(ReductionOf(t)) == TextThenBytes(OperandBytes())(t)
  {
  }

  lemma ExternalFields(t: (PayloadDescriptor, (ParamMap, seq<NodeId>)))
    ensures KeyFields(ExternalOf(t)) == BothBytes(DescriptorBytes, OperandBytes())(t)
  {
  }

  lemma StageFields(t: (seq<NodeId>, seq<StageOp>))
    ensures KeyFields(StageOf(t)) == BothBytes(CountedBy(IdBytes), CountedBy(MemberBytes))(t)
  {
  }

  lemma SourceExact()
    ensures Exact(Mapped(Both(TextP(), ParamsP()), SourceOf), Then(TextP(), Always(), ParamsCheck()), KeyFields)
  {
    ParamsExact();
    TextThenExact(ParamsP(), ParamsCheck(), ParamsBytes);
    forall t: (string, ParamMap)
      ensures KeyFields(SourceOf(t)) == TextThenBytes(ParamsBytes)(t)
    {
      SourceFields(t);
    }
    MappedExact(Both(TextP(), ParamsP()), Then(TextP(), Always(), ParamsCheck()), TextThenBytes(ParamsBytes), SourceOf, KeyFields);
  }

  lemma NamedExact(idx: nat)
    ensures Exact(Mapped(Both(TextP(), Both(ParamsP(), InputsP(idx))), OpOf), Then(TextP(), Always(), OperandsCheck()), KeyFields)
    ensures Exact(Mapped(Both(TextP(), Both(ParamsP(), InputsP(idx))), ReductionOf), Then(TextP(), Always(), OperandsCheck()), KeyFields)
  {
    OperandsExact(idx);
    var p, check := Both(TextP(), Both(ParamsP(), InputsP(idx))), Then(TextP(), Always(), OperandsCheck());
    TextThenExact(Both(ParamsP(), InputsP(idx)), OperandsCheck(), OperandBytes());
    forall t: (string, (ParamMap, seq<NodeId>))
      ensures KeyFields(OpOf(t)) == TextThenBytes(OperandBytes())(t)
      ensures KeyFields(ReductionOf(t)) == TextThenBytes(OperandBytes())(t)
    {
      NamedFields(t);
    }
    MappedExact(p, check, TextThenBytes(OperandBytes()), OpOf, KeyFields);
    MappedExact(p, check, TextThenBytes(OperandBytes()), ReductionOf, KeyFields);
  }

  lemma ExternalExact(idx: nat)
    ensures Exact(Mapped(Both(DescriptorP(), Both(ParamsP(), InputsP(idx))), ExternalOf),
                  Then(DescriptorP(), DescriptorCheck(), OperandsCheck()), KeyFields)
  {
    DescriptorExact();
    OperandsExact(idx);
    var p, check := Both(DescriptorP(), Both(ParamsP(), InputsP(idx))), Then(DescriptorP(), DescriptorCheck(), OperandsCheck());
    BothExact(DescriptorP(), DescriptorCheck(), DescriptorBytes, Both(ParamsP(), InputsP(idx)), OperandsCheck(), OperandBytes());
    forall t: (PayloadDescriptor, (ParamMap, seq<NodeId>))
      ensures KeyFields(ExternalOf(t)) == BothBytes(DescriptorBytes, OperandBytes())(t)
    {
      ExternalFields(t);
    }
    MappedExact(p, check, BothBytes(DescriptorBytes, OperandBytes()), ExternalOf, KeyFields);
  }

  lemma StageExact(idx: nat)
    ensures Exact(Mapped(Both(InputsP(idx), ListOf(MemberP)), StageOf), Always(), KeyFields)
  {
    InputsExact(idx);
    MembersExact();
    BothExact(InputsP(idx), Always(), CountedBy(IdBytes), ListOf(MemberP), Always(), CountedBy(MemberBytes));
    var p, check := Both(InputsP(idx), ListOf(MemberP)), Then(InputsP(idx), Always(), Always());
    forall t: (seq<NodeId>, seq<StageOp>)
      ensures KeyFields(StageOf(t)) == BothBytes(CountedBy(IdBytes), CountedBy(MemberBytes))(t)
    {
      StageFields(t);
    }
    MappedExact(p, check, BothBytes(CountedBy(IdBytes), CountedBy(MemberBytes)), StageOf, KeyFields);
    ThenAlways(p, InputsP(idx), ListOf(MemberP), StageOf, KeyFields);
  }

  /** If nothing has to be checked of either part, nothing has to be checked. */
  lemma ThenAlways<A, B, C>(both: Parser<(A, B)>, p: Parser<A>, q: Parser<B>, f: ((A, B)) -> C, write: C -> seq<byte>)
    requires both == Both(p, q) && Exact(Mapped(both, f), Then(p, Always(), Always()), write)
    ensures Exact(Mapped(both, f), Always(), write)
  {
    forall bs: seq<byte>
      ensures ExactAt(Mapped(both, f), Always(), write, bs)
    {
      assert ExactAt(Mapped(both, f), Then(p, Always(), Always()), write, bs);
    }
  }

  lemma EarlierBodies(idx: nat)
    ensures KeyBody(idx, T_SOURCE) == Mapped(Both(TextP(), ParamsP()), SourceOf)
    ensures KeyBody(idx, T_OP) == Mapped(Both(TextP(), Both(ParamsP(), InputsP(idx))), OpOf)
    ensures KeyBody(idx, T_REDUCTION) == Mapped(Both(TextP(), Both(ParamsP(), InputsP(idx))), ReductionOf)
  {
  }

  lemma NoBody(idx: nat, tag: nat)
    requires tag > T_STAGE
    ensures KeyBody(idx, tag) == Fail(BadTag("node", tag))
  {
  }

  lemma SameExact<T>(p: Parser<T>, q: Parser<T>, check: Check, write: T -> seq<byte>)
    requires p == q && Exact(q, check, write)
    ensures Exact(p, check, write)
  {
  }

  lemma NamedBodyExact(idx: nat, tag: byte)
    requires tag < T_EXTERNAL
    ensures Exact(KeyBody(idx, tag), KeyChecks(tag), KeyFields)
  {
    EarlierBodies(idx);
    if tag == T_SOURCE {
      SourceExact();
      SameExact(KeyBody(idx, T_SOURCE), Mapped(Both(TextP(), ParamsP()), SourceOf), KeyChecks(T_SOURCE), KeyFields);
    } else {
      NamedExact(idx);
      var p := Both(TextP(), Both(ParamsP(), InputsP(idx)));
      SameExact(KeyBody(idx, T_OP), Mapped(p, OpOf), KeyChecks(T_OP), KeyFields);
      SameExact(KeyBody(idx, T_REDUCTION), Mapped(p, ReductionOf), KeyChecks(T_REDUCTION), KeyFields);
    }
  }

  lemma LaterBodyExact(idx: nat, tag: byte)
    requires tag >= T_EXTERNAL
    ensures Exact(KeyBody(idx, tag), KeyChecks(tag), KeyFields)
  {
    LaterBodies(idx);
    if tag == T_EXTERNAL {
      ExternalExact(idx);
      var p := Both(DescriptorP(), Both(ParamsP(), InputsP(idx)));
      SameExact(KeyBody(idx, T_EXTERNAL), Mapped(p, ExternalOf), KeyChecks(T_EXTERNAL), KeyFields);
    } else if tag == T_STAGE {
      StageExact(idx);
      SameExact(KeyBody(idx, T_STAGE), Mapped(Both(InputsP(idx), ListOf(MemberP)), StageOf), KeyChecks(T_STAGE), KeyFields);
    } else {
      NoBody(idx, tag);
      FailExact<NodeKey>(BadTag("node", tag), KeyChecks(tag), KeyFields);
    }
  }

  /** The kinds of node are written under their own tags. */
  lemma KindTags()
    ensures forall t :: KeyTag(SourceOf(t)) == T_SOURCE
    ensures forall t :: KeyTag(OpOf(t)) == T_OP
    ensures forall t :: KeyTag(ReductionOf(t)) == T_REDUCTION
    ensures forall t :: KeyTag(ExternalOf(t)) == T_EXTERNAL
    ensures forall t :: KeyTag(StageOf(t)) == T_STAGE
  {
  }

  lemma MadeBy<A(!new)>(p: Parser<NodeKey>, q: Parser<A>, f: A -> NodeKey, tag: byte, bs: seq<byte>)
    requires p == Mapped(q, f) && p(bs).Ok? && forall t :: KeyTag(f(t)) == tag
    ensures KeyTag(p(bs).value.0) == tag
  {
    MappedValue(q, f, bs);
  }

  lemma KnownTag(idx: nat, tag: byte, bs: seq<byte>)
    ensures KeyBody(idx, tag)(bs).Ok? ==> tag <= T_STAGE
  {
    if tag > T_STAGE {
      NoBody(idx, tag);
    }
  }

  /** The tag determines the kind of node. */
  lemma KeyTagged(idx: nat, tag: byte, bs: seq<byte>)
    requires KeyBody(idx, tag)(bs).Ok?
    ensures KeyTag(KeyBody(idx, tag)(bs).value.0) == tag
  {
    KnownTag(idx, tag, bs);
    KindTags();
    EarlierBodies(idx);
    LaterBodies(idx);
    var named := Both(TextP(), Both(ParamsP(), InputsP(idx)));
    if tag == T_SOURCE {
      MadeBy(KeyBody(idx, T_SOURCE), Both(TextP(), ParamsP()), SourceOf, tag, bs);
    } else if tag == T_OP {
      MadeBy(KeyBody(idx, T_OP), named, OpOf, tag, bs);
    } else if tag == T_REDUCTION {
      MadeBy(KeyBody(idx, T_REDUCTION), named, ReductionOf, tag, bs);
    } else if tag == T_EXTERNAL {
      MadeBy(KeyBody(idx, T_EXTERNAL), Both(DescriptorP(), Both(ParamsP(), InputsP(idx))), ExternalOf, tag, bs);
    } else if tag == T_STAGE {
      MadeBy(KeyBody(idx, T_STAGE), Both(InputsP(idx), ListOf(MemberP)), StageOf, tag, bs);
    }
  }

  lemma KeyExact(idx: nat)
    ensures Exact(KeyP(idx), KeyCheck(), KeyBytes) && Own(KeyP(idx), KeyBytes)
  {
    forall tag: byte
      ensures Exact(KeyOf(idx)(tag), KeyChecks(tag), KeyFields)
    {
      if tag < T_EXTERNAL {
        NamedBodyExact(idx, tag);
      } else {
        LaterBodyExact(idx, tag);
      }
      assert KeyOf(idx)(tag) == KeyBody(idx, tag);
    }
    forall tag: byte, bs: seq<byte>
      ensures TagWritten(KeyOf(idx), AnyTag, KeyFields, KeyBytes, tag, bs)
    {
      if KeyOf(idx)(tag)(bs).Ok? {
        KeyTagged(idx, tag, bs);
      }
    }
    TaggedExact(KeyOf(idx), AnyTag, KeyChecks, KeyFields, KeyBytes);
    KeyYields(idx);
    forall k | FitsKey(idx, k)
      ensures ReadsBack(KeyP(idx), KeyBytes(k), k)
    {
      KeyReadsBack(idx, k);
    }
    OwnIfGood(KeyP(idx), k => FitsKey(idx, k), KeyBytes);
  }
}
