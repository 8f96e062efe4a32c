/** The GIR1 byte format of the interned graph: writers, readers, and why they undo each other. */
module Gir {
  import opened Wrappers
  import opened Param
  import opened Node
  import opened Interning
  import opened Store
  import opened Bytes
  import opened Utf8
  import opened Parsing

  const MAGIC: seq<byte> := [0x47, 0x49, 0x52, 0x31]

  const T_SOURCE: byte := 0
  const T_OP: byte := 1
  const T_REDUCTION: byte := 2
  const T_EXTERNAL: byte := 3
  const T_STAGE: byte := 4

  const P_INT: byte := 0
  const P_FLOAT: byte := 1
  const P_BOOL: byte := 2
  const P_STR: byte := 3

  const R_INPUT: byte := 0
  const R_MEMBER: byte := 1

  /** Lengths and stage indices are written as 32-bit words. */
  const WORD: nat := 0x1_0000_0000

  // ---- writers ----

  function TextBytes(s: string): seq<byte> {
    LeBytes(|Encode(s)|, 4) + Encode(s)
  }

  function ValueBytes(v: ParamValue): seq<byte> {
    match v
    case Int(i) => [P_INT] + LeBytes(ToUnsigned(i), 8)
    case Float(bits) => [P_FLOAT] + LeBytes(bits, 8)
    case Bool(b) => [P_BOOL] + [if b then 1 else 0]
    case Str(s) => [P_STR] + TextBytes(s)
  }

  function EntryBytes(e: Entry): seq<byte> {
    TextBytes(e.key) + ValueBytes(e.value)
  }

  function Counted<T>(write: T -> seq<byte>, xs: seq<T>): seq<byte> {
    LeBytes(|xs|, 4) + Concat(Map(write, xs))
  }

  function IdBytes(id: NodeId): seq<byte> {
    LeBytes(id, 8)
  }

  function RefBytes(r: StageRef): seq<byte> {
    match r
    case Input(slot) => [R_INPUT] + LeBytes(slot, 4)
    case Member(index) => [R_MEMBER] + LeBytes(index, 4)
  }

  function MemberBytes(m: StageOp): seq<byte> {
    TextBytes(m.token) + Counted(RefBytes, m.refs)
  }

  function PreprocessingBytes(s: Option<string>): seq<byte> {
    match s case None => [0] case Some(text) => [1] + TextBytes(text)
  }

  function DescriptorBytes(d: PayloadDescriptor): seq<byte> {
    TextBytes(d.kind) + (TextBytes(d.contentHash) + (TextBytes(d.framework) + (TextBytes(d.version)
      + (TextBytes(d.ioSchema) + PreprocessingBytes(d.preprocessingRef)))))
  }

  function ParamsBytes(p: ParamMap): seq<byte> {
    Counted(EntryBytes, p)
  }

  function KeyTag(k: NodeKey): byte {
    match k
    case Source(_, _) => T_SOURCE
    case Op(_, _, _) => T_OP
    case Reduction(_, _, _) => T_REDUCTION
    case External(_, _, _) => T_EXTERNAL
    case Stage(_, _) => T_STAGE
  }

  function KeyFields(k: NodeKey): seq<byte> {
    match k
    case Source(name, params) => TextBytes(name) + ParamsBytes(params)
    case Op(name, params, ins) => TextBytes(name) + (ParamsBytes(params) + Counted(IdBytes, ins))
    case Reduction(name, params, ins) => TextBytes(name) + (ParamsBytes(params) + Counted(IdBytes, ins))
    case External(d, params, ins) => DescriptorBytes(d) + (ParamsBytes(params) + Counted(IdBytes, ins))
    case Stage(ins, members) => Counted(IdBytes, ins) + Counted(MemberBytes, members)
  }

  function KeyBytes(k: NodeKey): seq<byte> {
    [KeyTag(k)] + KeyFields(k)
  }

  /** The nodes in id order, then the outputs. */
  function GraphBytes(nodes: seq<NodeKey>, outs: seq<NodeId>): seq<byte> {
    MAGIC + (Counted(KeyBytes, nodes) + Counted(IdBytes, outs))
  }

  // ---- readers ----

  function U8(): Parser<nat> {
    Mapped(Take(1), LeValue)
  }

  function U32(): Parser<nat> {
    Mapped(Take(4), LeValue)
  }

  function LeWord(bs: seq<byte>): u64 {
    LeValue(bs) % TWO_TO_64
  }

  function U64(): Parser<u64> {
    Mapped(Take(8), LeWord)
  }

  function Utf8Text(bs: seq<byte>): Parser<string> {
    match Decode(bs) case None => Fail(BadUtf8) case Some(s) => Return(s)
  }

  function TextOf(n: nat): Parser<string> {
    Bind(Take(n), Utf8Text)
  }

  function TextP(): Parser<string> {
    Bind(U32(), TextOf)
  }

  /** A count, then that many values, each read knowing its position. */
  function ListOf<T>(p: nat -> Parser<T>): Parser<seq<T>> {
    Bind(U32(), RepeatTo(p))
  }

  function RepeatTo<T>(p: nat -> Parser<T>): nat -> Parser<seq<T>> {
    n => Repeat(p, 0, n)
  }

  function IntOf(u: u64): ParamValue { Int(ToSigned(u)) }
  function FloatOf(u: u64): ParamValue { Float(u) }
  function BoolOf(b: nat): ParamValue { Bool(b != 0) }
  function StrOf(s: string): ParamValue { Str(s) }

  function ValueOf(tag: nat): Parser<ParamValue> {
    if tag == P_INT then Mapped(U64(), IntOf)
    else if tag == P_FLOAT then Mapped(U64(), FloatOf)
    else if tag == P_BOOL then Mapped(U8(), BoolOf)
    else if tag == P_STR then Mapped(TextP(), StrOf)
    else Fail(BadTag("param", tag))
  }

  function ValueP(): Parser<ParamValue> {
    Bind(U8(), ValueOf)
  }

  function EntryOf(kv: (string, ParamValue)): Entry {
    Entry(kv.0, kv.1)
  }

  function EntryP(i: nat): Parser<Entry> {
    Mapped(Both(TextP(), ValueP()), EntryOf)
  }

  function ParamsP(): Parser<ParamMap> {
    Mapped(ListOf(EntryP), NewMap)
  }

  function CheckId(max: nat): u64 -> Parser<NodeId> {
    (id: u64) => if id >= max then Fail(BadNodeRef(id)) else Return(id)
  }

  function IdBelow(max: nat): Parser<NodeId> {
    Bind(U64(), CheckId(max))
  }

  function InputsP(max: nat): Parser<seq<NodeId>> {
    ListOf((i: nat) => IdBelow(max))
  }

  function RefOf(m: nat): ((nat, nat)) -> Parser<StageRef> {
    (tv: (nat, nat)) =>
      if tv.0 == R_INPUT then Return(Input(tv.1))
      else if tv.0 == R_MEMBER then if tv.1 >= m then Fail(BadNodeRef(tv.1)) else Return(Member(tv.1))
      else Fail(BadTag("stage-ref", tv.0))
  }

  function RefP(m: nat): Parser<StageRef> {
    Bind(Both(U8(), U32()), RefOf(m))
  }

  function MemberOf(tr: (string, seq<StageRef>)): StageOp {
    StageOp(tr.0, tr.1)
  }

  /** Member `m` of a stage may only refer to earlier members. */
  function MemberP(m: nat): Parser<StageOp> {
    Mapped(Both(TextP(), ListOf((i: nat) => RefP(m))), MemberOf)
  }

  function SomeText(s: string): Option<string> { Some(s) }

  function PreprocessingOf(flag: nat): Parser<Option<string>> {
    if flag != 0 then Mapped(TextP(), SomeText) else Return(None)
  }

  type Fields = (string, (string, (string, (string, (string, Option<string>)))))

  function DescriptorOf(f: Fields): PayloadDescriptor {
    PayloadDescriptor(f.0, f.1.0, f.1.1.0, f.1.1.1.0, f.1.1.1.1.0, f.1.1.1.1.1)
  }

  function DescriptorP(): Parser<PayloadDescriptor> {
    Mapped(Both(TextP(), Both(TextP(), Both(TextP(), Both(TextP(), Both(TextP(), Bind(U8(), PreprocessingOf)))))), DescriptorOf)
  }

  function SourceOf(t: (string, ParamMap)): NodeKey { Source(t.0, t.1) }
  function OpOf(t: (string, (ParamMap, seq<NodeId>))): NodeKey { Op(t.0, t.1.0, t.1.1) }
  function ReductionOf(t: (string, (ParamMap, seq<NodeId>))): NodeKey { Reduction(t.0, t.1.0, t.1.1) }
  function ExternalOf(t: (PayloadDescriptor, (ParamMap, seq<NodeId>))): NodeKey { External(t.0, t.1.0, t.1.1) }
  function StageOf(t: (seq<NodeId>, seq<StageOp>)): NodeKey { Stage(t.0, t.1) }

  function KeyBody(idx: nat, tag: nat): Parser<NodeKey> {
    if tag == T_SOURCE then Mapped(Both(TextP(), ParamsP()), SourceOf)
    else if tag == T_OP then Mapped(Both(TextP(), Both(ParamsP(), InputsP(idx))), OpOf)
    else if tag == T_REDUCTION then Mapped(Both(TextP(), Both(ParamsP(), InputsP(idx))), ReductionOf)
    else if tag == T_EXTERNAL then Mapped(Both(DescriptorP(), Both(ParamsP(), InputsP(idx))), ExternalOf)
    else if tag == T_STAGE then Mapped(Both(InputsP(idx), ListOf(MemberP)), StageOf)
    else Fail(BadTag("node", tag))
  }

  function KeyOf(idx: nat): nat -> Parser<NodeKey> {
    (tag: nat) => KeyBody(idx, tag)
  }

  /** The `idx`-th node: its inputs must be below its index. */
  function KeyP(idx: nat): Parser<NodeKey> {
    Bind(U8(), KeyOf(idx))
  }

  datatype Loaded = Loaded(nodes: seq<NodeKey>, table: map<NodeKey, NodeId>, outputs: seq<NodeId>)

  /** Nodes `idx` to `n`, each interned as it is read. */
  function NodesP(idx: nat, n: nat, st: Loaded): Parser<Loaded>
    decreases n - idx, 1
  {
    if idx >= n then Return(st) else Bind(KeyP(idx), NextNode(idx, n, st))
  }

  function NextNode(idx: nat, n: nat, st: Loaded): NodeKey -> Parser<Loaded>
    requires idx < n
    decreases n - idx, 0
  {
    (key: NodeKey) =>
      if BadInput(key.Inputs(), |st.nodes|).Some? then Fail(BadNodeRef(BadInput(key.Inputs(), |st.nodes|).value))
      else NodesP(idx + 1, n, Added(st, key))
  }

  function Added(st: Loaded, key: NodeKey): Loaded {
    var (_, nodes, table) := Intern(st.nodes, st.table, key);
    Loaded(nodes, table, st.outputs)
  }

  /** Outputs `i` to `n`, each marked as it is read. */
  function OutputsP(i: nat, n: nat, st: Loaded): Parser<Loaded>
    decreases n - i, 1
  {
    if i >= n then Return(st) else Bind(U64(), NextOutput(i, n, st))
  }

  function NextOutput(i: nat, n: nat, st: Loaded): u64 -> Parser<Loaded>
    requires i < n
    decreases n - i, 0
  {
    (id: u64) =>
      if id >= |st.nodes| then Fail(BadNodeRef(id)) else OutputsP(i + 1, n, Marked(st, id))
  }

  function Marked(st: Loaded, id: NodeId): Loaded {
    st.(outputs := Mark(st.outputs, id))
  }

  const NOTHING: Loaded := Loaded([], map[], [])

  function AllNodes(n: nat): Parser<Loaded> { NodesP(0, n, NOTHING) }

  function AllOutputs(st: Loaded): nat -> Parser<Loaded> {
    n => OutputsP(0, n, st)
  }

  function OutputsAfter(st: Loaded): Parser<Loaded> {
    Bind(U32(), AllOutputs(st))
  }

  function AfterMagic(magic: seq<byte>): Parser<Loaded> {
    if magic != MAGIC then Fail(BadMagic) else Bind(Bind(U32(), AllNodes), OutputsAfter)
  }

  function GraphP(): Parser<Loaded> {
    Bind(Take(4), AfterMagic)
  }

  /** Decoding ignores whatever follows the outputs. */
  function Deserialized(bs: seq<byte>): Result<Loaded, DecodeError> {
    match GraphP()(bs) case Err(e) => Err(e) case Ok((st, _)) => Ok(st)
  }
}
