/** The GIR1 codec as it runs: a growing output buffer, a reader with a position, and a store filled node
by node. */
module Codec {
  import opened Wrappers
  import opened Param
  import opened Node
  import opened Store
  import opened Bytes
  import opened Utf8
  import opened Parsing
  import opened Gir

  // ---- writing ----

  lemma {:induction false} ConcatSnoc(pieces: seq<seq<byte>>, last: seq<byte>)
    ensures Concat(pieces + [last]) == Concat(pieces) + last
  {
    if pieces == [] {
      assert pieces + [last] == [last];
      assert Concat([last]) == last + Concat([last][1..]);
    } else {
      assert (pieces + [last])[1..] == pieces[1..] + [last];
      ConcatSnoc(pieces[1..], last);
    }
  }

  /** What the first `n` values of a list contribute. */
  ghost function Written<T>(write: T -> seq<byte>, xs: seq<T>, n: nat): seq<byte>
    requires n <= |xs|
  {
    Concat(Map(write, xs[..n]))
  }

  lemma WrittenStep<T>(start: seq<byte>, write: T -> seq<byte>, xs: seq<T>, n: nat)
    requires n < |xs|
    ensures start + Written(write, xs, n + 1) == start + Written(write, xs, n) + write(xs[n])
  {
    assert Map(write, xs[..n + 1]) == Map(write, xs[..n]) + [write(xs[n])];
    ConcatSnoc(Map(write, xs[..n]), write(xs[n]));
    Reassociate(start, Written(write, xs, n), write(xs[n]));
  }

  lemma WrittenAll<T>(start: seq<byte>, write: T -> seq<byte>, xs: seq<T>)
    ensures start + Counted(write, xs) == start + LeBytes(|xs|, 4) + Written(write, xs, |xs|)
    ensures forall s: seq<byte> :: s + Written(write, xs, 0) == s
  {
    assert xs[..|xs|] == xs;
    Reassociate(start, LeBytes(|xs|, 4), Concat(Map(write, xs)));
    assert Written(write, xs, 0) == [];
  }

  class Writer {
    var out: seq<byte>

    constructor ()
      ensures out == []
    {
      out := [];
    }

    method PutByte(b: byte)
      modifies this
      ensures out == old(out) + [b]
    {
      out := out + [b];
    }

    method PutU32(n: nat)
      modifies this
      ensures out == old(out) + LeBytes(n, 4)
    {
      out := out + LeBytes(n, 4);
    }

    method PutU64(n: nat)
      modifies this
      ensures out == old(out) + LeBytes(n, 8)
    {
      out := out + LeBytes(n, 8);
    }

    method PutStr(s: string)
      modifies this
      ensures out == old(out) + TextBytes(s)
    {
      var enc := Encode(s);
      Reassociate(out, LeBytes(|enc|, 4), enc);
      PutU32(|enc|);
      out := out + enc;
    }

    method PutValue(v: ParamValue)
      modifies this
      ensures out == old(out) + ValueBytes(v)
    {
      match v
      case Int(i) =>
        Reassociate(out, [P_INT], LeBytes(ToUnsigned(i), 8));
        PutByte(P_INT);
        PutU64(ToUnsigned(i));
      case Float(bits) =>
        Reassociate(out, [P_FLOAT], LeBytes(bits, 8));
        PutByte(P_FLOAT);
        PutU64(bits);
      case Bool(b) =>
        var flag: byte := if b then 1 else 0;
        Reassociate(out, [P_BOOL], [flag]);
        PutByte(P_BOOL);
        PutByte(flag);
      case Str(s) =>
        Reassociate(out, [P_STR], TextBytes(s));
        PutByte(P_STR);
        PutStr(s);
    }

    method PutEntry(e: Entry)
      modifies this
      ensures out == old(out) + EntryBytes(e)
    {
      Reassociate(out, TextBytes(e.key), ValueBytes(e.value));
      PutStr(e.key);
      PutValue(e.value);
    }

    method PutParams(p: ParamMap)
      modifies this
      ensures out == old(out) + ParamsBytes(p)
    {
      ghost var start := out + LeBytes(|p|, 4);
      WrittenAll(out, EntryBytes, p);
      PutU32(|p|);
      for i := 0 to |p|
        invariant out == start + Written(EntryBytes, p, i)
      {
        WrittenStep(start, EntryBytes, p, i);
        PutEntry(p[i]);
      }
    }

    method PutInputs(ids: seq<NodeId>)
      modifies this
      ensures out == old(out) + Counted(IdBytes, ids)
    {
      ghost var start := out + LeBytes(|ids|, 4);
      WrittenAll(out, IdBytes, ids);
      PutU32(|ids|);
      for i := 0 to |ids|
        invariant out == start + Written(IdBytes, ids, i)
      {
        WrittenStep(start, IdBytes, ids, i);
        PutU64(ids[i]);
      }
    }

    method PutRef(r: StageRef)
      modifies this
      ensures out == old(out) + RefBytes(r)
    {
      match r
      case Input(slot) =>
        Reassociate(out, [R_INPUT], LeBytes(slot, 4));
        PutByte(R_INPUT);
        PutU32(slot);
      case Member(index) =>
        Reassociate(out, [R_MEMBER], LeBytes(index, 4));
        PutByte(R_MEMBER);
        PutU32(index);
    }

    method PutRefs(refs: seq<StageRef>)
      modifies this
      ensures out == old(out) + Counted(RefBytes, refs)
    {
      ghost var start := out + LeBytes(|refs|, 4);
      WrittenAll(out, RefBytes, refs);
      PutU32(|refs|);
      for i := 0 to |refs|
        invariant out == start + Written(RefBytes, refs, i)
      {
        WrittenStep(start, RefBytes, refs, i);
        PutRef(refs[i]);
      }
    }

    method PutMember(m: StageOp)
      modifies this
      ensures out == old(out) + MemberBytes(m)
    {
      Reassociate(out, TextBytes(m.token), Counted(RefBytes, m.refs));
      PutStr(m.token);
      PutRefs(m.refs);
    }

    method PutMembers(members: seq<StageOp>)
      modifies this
      ensures out == old(out) + Counted(MemberBytes, members)
    {
      ghost var start := out + LeBytes(|members|, 4);
      WrittenAll(out, MemberBytes, members);
      PutU32(|members|);
      for i := 0 to |members|
        invariant out == start + Written(MemberBytes, members, i)
      {
        WrittenStep(start, MemberBytes, members, i);
        PutMember(members[i]);
      }
    }

    method PutPreprocessing(s: Option<string>)
      modifies this
      ensures out == old(out) + PreprocessingBytes(s)
    {
      match s
      case Some(text) =>
        Reassociate(out, [1], TextBytes(text));
        PutByte(1);
        PutStr(text);
      case None => PutByte(0);
    }

    method PutDescriptor(d: PayloadDescriptor)
      modifies this
      ensures out == old(out) + DescriptorBytes(d)
    {
      ghost var t4 := TextBytes(d.ioSchema) + PreprocessingBytes(d.preprocessingRef);
      ghost var t3 := TextBytes(d.version) + t4;
      ghost var t2 := TextBytes(d.framework) + t3;
      ghost var t1 := TextBytes(d.contentHash) + t2;
      Reassociate(out, TextBytes(d.kind), t1);
      PutStr(d.kind);
      Reassociate(out, TextBytes(d.contentHash), t2);
      PutStr(d.contentHash);
      Reassociate(out, TextBytes(d.framework), t3);
      PutStr(d.framework);
      Reassociate(out, TextBytes(d.version), t4);
      PutStr(d.version);
      Reassociate(out, TextBytes(d.ioSchema), PreprocessingBytes(d.preprocessingRef));
      PutStr(d.ioSchema);
      PutPreprocessing(d.preprocessingRef);
    }

    method PutOperands(params: ParamMap, ins: seq<NodeId>)
      modifies this
      ensures out == old(out) + (ParamsBytes(params) + Counted(IdBytes, ins))
    {
      Reassociate(out, ParamsBytes(params), Counted(IdBytes, ins));
      PutParams(params);
      PutInputs(ins);
    }

    method PutFields(k: NodeKey)
      modifies this
      ensures out == old(out) + KeyFields(k)
    {
      match k
      case Source(name, params) =>
        Reassociate(out, TextBytes(name), ParamsBytes(params));
        PutStr(name);
        PutParams(params);
      case Op(name, params, ins) =>
        Reassociate(out, TextBytes(name), ParamsBytes(params) + Counted(IdBytes, ins));
        PutStr(name);
        PutOperands(params, ins);
      case Reduction(name, params, ins) =>
        Reassociate(out, TextBytes(name), ParamsBytes(params) + Counted(IdBytes, ins));
        PutStr(name);
        PutOperands(params, ins);
      case External(d, params, ins) =>
        Reassociate(out, DescriptorBytes(d), ParamsBytes(params) + Counted(IdBytes, ins));
        PutDescriptor(d);
        PutOperands(params, ins);
      case Stage(ins, members) =>
        Reassociate(out, Counted(IdBytes, ins), Counted(MemberBytes, members));
        PutInputs(ins);
        PutMembers(members);
    }

    method PutKey(k: NodeKey)
      modifies this
      ensures out == old(out) + KeyBytes(k)
    {
      Reassociate(out, [KeyTag(k)], KeyFields(k));
      PutByte(KeyTag(k));
      PutFields(k);
    }

    method PutNodes(nodes: seq<NodeKey>)
      modifies this
      ensures out == old(out) + Counted(KeyBytes, nodes)
    {
      ghost var start := out + LeBytes(|nodes|, 4);
      WrittenAll(out, KeyBytes, nodes);
      PutU32(|nodes|);
      for i := 0 to |nodes|
        invariant out == start + Written(KeyBytes, nodes, i)
      {
        WrittenStep(start, KeyBytes, nodes, i);
        PutKey(nodes[i]);
      }
    }

    method PutGraph(nodes: seq<NodeKey>, outputs: seq<NodeId>)
      modifies this
      ensures out == old(out) + GraphBytes(nodes, outputs)
    {
      Reassociate(out, MAGIC, Counted(KeyBytes, nodes) + Counted(IdBytes, outputs));
      out := out + MAGIC;
      Reassociate(out, Counted(KeyBytes, nodes), Counted(IdBytes, outputs));
      PutNodes(nodes);
      PutInputs(outputs);
    }
  }

  /** Write a store with an explicit output set. */
  method SerializeWith(store: GraphStore, outputs: seq<NodeId>) returns (bytes: seq<byte>)
    ensures bytes == GraphBytes(store.nodes, outputs)
  {
    var w := new Writer();
    w.PutGraph(store.nodes, outputs);
    bytes := w.out;
  }

  /** Write a store with its marked outputs. */
  method Serialize(store: GraphStore) returns (bytes: seq<byte>)
    ensures bytes == GraphBytes(store.nodes, store.outputs)
  {
    bytes := SerializeWith(store, store.outputs);
  }

  // ---- reading ----

  /** What a reading step returns and leaves is what the parser says. */
  ghost predicate Follows<T>(p: Parser<T>, before: seq<byte>, r: Result<T, DecodeError>, after: seq<byte>) {
    p(before) == match r case Ok(v) => Ok((v, after)) case Err(e) => Err(e)
  }

  /** A repetition that has already collected some values. */
  ghost function Onward<T>(done: seq<T>, p: nat -> Parser<T>, i: nat, n: nat, bs: seq<byte>): Parsed<seq<T>> {
    match Repeat(p, i, n)(bs)
    case Err(e) => Err(e)
    case Ok((vs, rest)) => Ok((done + vs, rest))
  }

  lemma OnwardStart<T>(p: nat -> Parser<T>, n: nat, bs: seq<byte>)
    ensures Onward([], p, 0, n, bs) == Repeat(p, 0, n)(bs)
  {
    if Repeat(p, 0, n)(bs).Ok? {
      assert [] + Repeat(p, 0, n)(bs).value.0 == Repeat(p, 0, n)(bs).value.0;
    }
  }

  lemma OnwardStep<T>(done: seq<T>, p: nat -> Parser<T>, i: nat, n: nat, bs: seq<byte>)
    requires i < n
    ensures p(i)(bs).Err? ==> Onward(done, p, i, n, bs) == Err(p(i)(bs).error)
    ensures p(i)(bs).Ok? ==> Onward(done, p, i, n, bs) == Onward(done + [p(i)(bs).value.0], p, i + 1, n, p(i)(bs).value.1)
  {
    var tail := Repeat(p, i + 1, n);
    assert Repeat(p, i, n)(bs) == Mapped(Both(p(i), tail), Prepend)(bs);
    if p(i)(bs).Ok? {
      var (v, rest) := p(i)(bs).value;
      assert Both(p(i), tail)(bs) == Paired(tail)(v)(rest);
      if tail(rest).Ok? {
        assert done + ([v] + tail(rest).value.0) == done + [v] + tail(rest).value.0;
      }
    }
  }

  lemma OnwardEnd<T>(done: seq<T>, p: nat -> Parser<T>, n: nat, bs: seq<byte>)
    ensures Onward(done, p, n, n, bs) == Ok((done, bs))
  {
    assert done + [] == done;
  }

  /** Reading a stage reference, part by part. */
  lemma RefParts(m: nat, bs: seq<byte>)
    ensures U8()(bs).Err? ==> RefP(m)(bs) == Err(U8()(bs).error)
    ensures U8()(bs).Ok? ==>
      var (tag, rest) := U8()(bs).value;
      RefP(m)(bs) == match U32()(rest) case Err(e) => Err(e) case Ok((v, rest')) => RefOf(m)((tag, v))(rest')
  {
    if U8()(bs).Ok? {
      var (tag, rest) := U8()(bs).value;
      assert Both(U8(), U32())(bs) == Paired(U32())(tag)(rest);
    }
  }

  class Reader {
    const buf: seq<byte>
    var pos: nat

    ghost predicate Valid()
      reads this
    {
      pos <= |buf|
    }

    ghost function Rest(): seq<byte>
      requires Valid()
      reads this
    {
      buf[pos..]
    }

    constructor (buf: seq<byte>)
      ensures Valid() && this.buf == buf && Rest() == buf
    {
      this.buf, pos := buf, 0;
    }

    method TakeBytes(n: nat) returns (r: Result<seq<byte>, DecodeError>)
      requires Valid()
      modifies this
      ensures Valid() && Follows(Take(n), old(Rest()), r, Rest())
    {
      if pos + n > |buf| {
        return Err(Truncated);
      }
      r := Ok(buf[pos..pos + n]);
      assert buf[pos..][..n] == buf[pos..pos + n] && buf[pos..][n..] == buf[pos + n..];
      pos := pos + n;
    }

    method ReadU8() returns (r: Result<nat, DecodeError>)
      requires Valid()
      modifies this
      ensures Valid() && Follows(U8(), old(Rest()), r, Rest())
    {
      var b := TakeBytes(1);
      if b.Err? {
        return Err(b.error);
      }
      r := Ok(LeValue(b.value));
    }

    method ReadU32() returns (r: Result<nat, DecodeError>)
      requires Valid()
      modifies this
      ensures Valid() && Follows(U32(), old(Rest()), r, Rest())
    {
      var b := TakeBytes(4);
      if b.Err? {
        return Err(b.error);
      }
      r := Ok(LeValue(b.value));
    }

    method ReadU64() returns (r: Result<u64, DecodeError>)
      requires Valid()
      modifies this
      ensures Valid() && Follows(U64(), old(Rest()), r, Rest())
    {
      var b := TakeBytes(8);
      if b.Err? {
        return Err(b.error);
      }
      r := Ok(LeWord(b.value));
    }

    method ReadText() returns (r: Result<string, DecodeError>)
      requires Valid()
      modifies this
      ensures Valid() && Follows(TextP(), old(Rest()), r, Rest())
    {
      var n := ReadU32();
      if n.Err? {
        return Err(n.error);
      }
      var b := TakeBytes(n.value);
      if b.Err? {
        return Err(b.error);
      }
      match Decode(b.value)
      case None => r := Err(BadUtf8);
      case Some(s) => r := Ok(s);
    }

    method ReadValue() returns (r: Result<ParamValue, DecodeError>)
      requires Valid()
      modifies this
      ensures Valid() && Follows(ValueP(), old(Rest()), r, Rest())
    {
      var tag := ReadU8();
      if tag.Err? {
        return Err(tag.error);
      }
      if tag.value == P_INT {
        var u := ReadU64();
        return if u.Err? then Err(u.error) else Ok(IntOf(u.value));
      } else if tag.value == P_FLOAT {
        var u := ReadU64();
        return if u.Err? then Err(u.error) else Ok(FloatOf(u.value));
      } else if tag.value == P_BOOL {
        var b := ReadU8();
        return if b.Err? then Err(b.error) else Ok(BoolOf(b.value));
      } else if tag.value == P_STR {
        var s := ReadText();
        return if s.Err? then Err(s.error) else Ok(StrOf(s.value));
      } else {
        return Err(BadTag("param", tag.value));
      }
    }

    method ReadEntry(ghost i: nat) returns (r: Result<Entry, DecodeError>)
      requires Valid()
      modifies this
      ensures Valid() && Follows(EntryP(i), old(Rest()), r, Rest())
    {
      var k := ReadText();
      if k.Err? {
        return Err(k.error);
      }
      var v := ReadValue();
      if v.Err? {
        return Err(v.error);
      }
      r := Ok(Entry(k.value, v.value));
    }

    method ReadEntries(n: nat) returns (r: Result<seq<Entry>, DecodeError>)
      requires Valid()
      modifies this
      ensures Valid() && Follows(Repeat(EntryP, 0, n), old(Rest()), r, Rest())
    {
      var entries: seq<Entry> := [];
      OnwardStart(EntryP, n, Rest());
      for i := 0 to n
        invariant Valid() && Repeat(EntryP, 0, n)(old(Rest())) == Onward(entries, EntryP, i, n, Rest())
      {
        OnwardStep(entries, EntryP, i, n, Rest());
        var e := ReadEntry(i);
        if e.Err? {
          return Err(e.error);
        }
        entries := entries + [e.value];
      }
      OnwardEnd(entries, EntryP, n, Rest());
      r := Ok(entries);
    }

    method ReadParams() returns (r: Result<ParamMap, DecodeError>)
      requires Valid()
      modifies this
      ensures Valid() && Follows(ParamsP(), old(Rest()), r, Rest())
    {
      var n := ReadU32();
      if n.Err? {
        return Err(n.error);
      }
      var es := ReadEntries(n.value);
      if es.Err? {
        return Err(es.error);
      }
      r := Ok(NewMap(es.value));
    }

    method ReadId(max: nat) returns (r: Result<NodeId, DecodeError>)
      requires Valid()
      modifies this
      ensures Valid() && Follows(IdBelow(max), old(Rest()), r, Rest())
    {
      var id := ReadU64();
      if id.Err? {
        return Err(id.error);
      }
      if id.value >= max {
        return Err(BadNodeRef(id.value));
      }
      r := Ok(id.value);
    }

    method ReadIds(max: nat, n: nat) returns (r: Result<seq<NodeId>, DecodeError>)
      requires Valid()
      modifies this
      ensures Valid() && Follows(Repeat((i: nat) => IdBelow(max), 0, n), old(Rest()), r, Rest())
    {
      ghost var p := (i: nat) => IdBelow(max);
      var ids: seq<NodeId> := [];
      OnwardStart(p, n, Rest());
      for i := 0 to n
        invariant Valid() && Repeat(p, 0, n)(old(Rest())) == Onward(ids, p, i, n, Rest())
      {
        OnwardStep(ids, p, i, n, Rest());
        var id := ReadId(max);
        if id.Err? {
          return Err(id.error);
        }
        ids := ids + [id.value];
      }
      OnwardEnd(ids, p, n, Rest());
      r := Ok(ids);
    }

    method ReadInputs(max: nat) returns (r: Result<seq<NodeId>, DecodeError>)
      requires Valid()
      modifies this
      ensures Valid() && Follows(InputsP(max), old(Rest()), r, Rest())
    {
      var n := ReadU32();
      if n.Err? {
        return Err(n.error);
      }
      r := ReadIds(max, n.value);
    }

    /** A reference inside member `m`; its word is read before its tag is judged. */
    method ReadRef(m: nat) returns (r: Result<StageRef, DecodeError>)
      requires Valid()
      modifies this
      ensures Valid() && Follows(RefP(m), old(Rest()), r, Rest())
    {
      RefParts(m, Rest());
      var tag := ReadU8();
      if tag.Err? {
        return Err(tag.error);
      }
      var v := ReadU32();
      if v.Err? {
        return Err(v.error);
      }
      if tag.value == R_INPUT {
        return Ok(Input(v.value));
      } else if tag.value == R_MEMBER {
        if v.value >= m {
          return Err(BadNodeRef(v.value));
        }
        return Ok(Member(v.value));
      } else {
        return Err(BadTag("stage-ref", tag.value));
      }
    }

    method ReadRefs(m: nat, n: nat) returns (r: Result<seq<StageRef>, DecodeError>)
      requires Valid()
      modifies this
      ensures Valid() && Follows(Repeat((i: nat) => RefP(m), 0, n), old(Rest()), r, Rest())
    {
      ghost var p := (i: nat) => RefP(m);
      var refs: seq<StageRef> := [];
      OnwardStart(p, n, Rest());
      for i := 0 to n
        invariant Valid() && Repeat(p, 0, n)(old(Rest())) == Onward(refs, p, i, n, Rest())
      {
        OnwardStep(refs, p, i, n, Rest());
        var ref := ReadRef(m);
        if ref.Err? {
          return Err(ref.error);
        }
        refs := refs + [ref.value];
      }
      OnwardEnd(refs, p, n, Rest());
      r := Ok(refs);
    }

    method ReadMember(m: nat) returns (r: Result<StageOp, DecodeError>)
      requires Valid()
      modifies this
      ensures Valid() && Follows(MemberP(m), old(Rest()), r, Rest())
    {
      var token := ReadText();
      if token.Err? {
        return Err(token.error);
      }
      var n := ReadU32();
      if n.Err? {
        return Err(n.error);
      }
      var refs := ReadRefs(m, n.value);
      if refs.Err? {
        return Err(refs.error);
      }
      r := Ok(StageOp(token.value, refs.value));
    }

    method ReadMembers() returns (r: Result<seq<StageOp>, DecodeError>)
      requires Valid()
      modifies this
      ensures Valid() && Follows(ListOf(MemberP), old(Rest()), r, Rest())
    {
      var n := ReadU32();
      if n.Err? {
        return Err(n.error);
      }
      r := ReadMembersTo(n.value);
    }

    method ReadMembersTo(n: nat) returns (r: Result<seq<StageOp>, DecodeError>)
      requires Valid()
      modifies this
      ensures Valid() && Follows(Repeat(MemberP, 0, n), old(Rest()), r, Rest())
    {
      var members: seq<StageOp> := [];
      OnwardStart(MemberP, n, Rest());
      for m := 0 to n
        invariant Valid() && Repeat(MemberP, 0, n)(old(Rest())) == Onward(members, MemberP, m, n, Rest())
      {
        OnwardStep(members, MemberP, m, n, Rest());
        var op := ReadMember(m);
        if op.Err? {
          return Err(op.error);
        }
        members := members + [op.value];
      }
      OnwardEnd(members, MemberP, n, Rest());
      r := Ok(members);
    }

    method ReadPreprocessing() returns (r: Result<Option<string>, DecodeError>)
      requires Valid()
      modifies this
      ensures Valid() && Follows(Bind(U8(), PreprocessingOf), old(Rest()), r, Rest())
    {
      var flag := ReadU8();
      if flag.Err? {
        return Err(flag.error);
      }
      if flag.value != 0 {
        var s := ReadText();
        return if s.Err? then Err(s.error) else Ok(Some(s.value));
      }
      r := Ok(None);
    }

    /** One text field, then the fields after it. */
    method ReadDescriptor() returns (r: Result<PayloadDescriptor, DecodeError>)
      requires Valid()
      modifies this
      ensures Valid() && Follows(DescriptorP(), old(Rest()), r, Rest())
    {
      var kind := ReadText();
      if kind.Err? {
        return Err(kind.error);
      }
      var contentHash := ReadText();
      if contentHash.Err? {
        return Err(contentHash.error);
      }
      var framework := ReadText();
      if framework.Err? {
        return Err(framework.error);
      }
      var version := ReadText();
      if version.Err? {
        return Err(version.error);
      }
      var ioSchema := ReadText();
      if ioSchema.Err? {
        return Err(ioSchema.error);
      }
      var preprocessing := ReadPreprocessing();
      if preprocessing.Err? {
        return Err(preprocessing.error);
      }
      r := Ok(PayloadDescriptor(
        kind.value, contentHash.value, framework.value, version.value, ioSchema.value, preprocessing.value));
    }

    method ReadOperands(idx: nat) returns (r: Result<(ParamMap, seq<NodeId>), DecodeError>)
      requires Valid()
      modifies this
      ensures Valid() && Follows(Both(ParamsP(), InputsP(idx)), old(Rest()), r, Rest())
    {
      var params := ReadParams();
      if params.Err? {
        return Err(params.error);
      }
      var ins := ReadInputs(idx);
      if ins.Err? {
        return Err(ins.error);
      }
      r := Ok((params.value, ins.value));
    }

    method ReadSource() returns (r: Result<NodeKey, DecodeError>)
      requires Valid()
      modifies this
      ensures Valid() && Follows(Mapped(Both(TextP(), ParamsP()), SourceOf), old(Rest()), r, Rest())
    {
      var name := ReadText();
      if name.Err? {
        return Err(name.error);
      }
      var params := ReadParams();
      r := if params.Err? then Err(params.error) else Ok(Source(name.value, params.value));
    }

    method ReadNamed(idx: nat) returns (r: Result<(string, (ParamMap, seq<NodeId>)), DecodeError>)
      requires Valid()
      modifies this
      ensures Valid() && Follows(Both(TextP(), Both(ParamsP(), InputsP(idx))), old(Rest()), r, Rest())
    {
      var name := ReadText();
      if name.Err? {
        return Err(name.error);
      }
      var t := ReadOperands(idx);
      r := if t.Err? then Err(t.error) else Ok((name.value, t.value));
    }

    method ReadExternal(idx: nat) returns (r: Result<NodeKey, DecodeError>)
      requires Valid()
      modifies this
      ensures Valid()
      ensures Follows(Mapped(Both(DescriptorP(), Both(ParamsP(), InputsP(idx))), ExternalOf), old(Rest()), r, Rest())
    {
      var d := ReadDescriptor();
      if d.Err? {
        return Err(d.error);
      }
      var t := ReadOperands(idx);
      r := if t.Err? then Err(t.error) else Ok(External(d.value, t.value.0, t.value.1));
    }

    method ReadStage(idx: nat) returns (r: Result<NodeKey, DecodeError>)
      requires Valid()
      modifies this
      ensures Valid() && Follows(Mapped(Both(InputsP(idx), ListOf(MemberP)), StageOf), old(Rest()), r, Rest())
    {
      var ins := ReadInputs(idx);
      if ins.Err? {
        return Err(ins.error);
      }
      var members := ReadMembers();
      r := if members.Err? then Err(members.error) else Ok(Stage(ins.value, members.value));
    }

    /** What follows the tag of the `idx`-th node. */
    method ReadFields(idx: nat, tag: nat) returns (r: Result<NodeKey, DecodeError>)
      requires Valid()
      modifies this
      ensures Valid() && Follows(KeyBody(idx, tag), old(Rest()), r, Rest())
    {
      if tag == T_SOURCE {
        r := ReadSource();
      } else if tag == T_OP {
        var t := ReadNamed(idx);
        r := if t.Err? then Err(t.error) else Ok(OpOf(t.value));
      } else if tag == T_REDUCTION {
        var t := ReadNamed(idx);
        r := if t.Err? then Err(t.error) else Ok(ReductionOf(t.value));
      } else if tag == T_EXTERNAL {
        r := ReadExternal(idx);
      } else if tag == T_STAGE {
        r := ReadStage(idx);
      } else {
        r := Err(BadTag("node", tag));
      }
    }

    method ReadKey(idx: nat) returns (r: Result<NodeKey, DecodeError>)
      requires Valid()
      modifies this
      ensures Valid() && Follows(KeyP(idx), old(Rest()), r, Rest())
    {
      var tag := ReadU8();
      if tag.Err? {
        return Err(tag.error);
      }
      r := ReadFields(idx, tag.value);
    }
  }

  /** The store as the decoder sees it. */
  ghost function LoadedOf(store: GraphStore): Loaded
    reads store
  {
    Loaded(store.nodes, store.table, store.outputs)
  }

  /** The outcome of filling a store is what the parser says. */
  ghost predicate Fills(p: Parser<Loaded>, before: seq<byte>, e: Option<DecodeError>, st: Loaded, after: seq<byte>) {
    p(before) == match e case None => Ok((st, after)) case Some(err) => Err(err)
  }

  /** Read `n` nodes into an empty store, each interned as it is read. */
  method ReadNodes(r: Reader, store: GraphStore, n: nat) returns (e: Option<DecodeError>)
    requires r.Valid() && store.Valid() && LoadedOf(store) == NOTHING
    modifies r, store
    ensures r.Valid() && store.Valid()
    ensures Fills(NodesP(0, n, NOTHING), old(r.Rest()), e, LoadedOf(store), r.Rest())
  {
    for idx := 0 to n
      invariant r.Valid() && store.Valid()
      invariant NodesP(0, n, NOTHING)(old(r.Rest())) == NodesP(idx, n, LoadedOf(store))(r.Rest())
    {
      ghost var st, before := LoadedOf(store), r.Rest();
      assert NodesP(idx, n, st)(before) == Bind(KeyP(idx), NextNode(idx, n, st))(before);
      var key := r.ReadKey(idx);
      if key.Err? {
        return Some(key.error);
      }
      var id := store.AddKey(key.value);
      if id.Err? {
        return Some(BadNodeRef(id.error));
      }
      assert LoadedOf(store) == Added(st, key.value);
    }
    e := None;
  }

  /** Read `n` outputs and mark them. */
  method ReadOutputs(r: Reader, store: GraphStore, n: nat) returns (e: Option<DecodeError>)
    requires r.Valid() && store.Valid()
    modifies r, store
    ensures r.Valid() && store.Valid()
    ensures Fills(OutputsP(0, n, old(LoadedOf(store))), old(r.Rest()), e, LoadedOf(store), r.Rest())
  {
    for i := 0 to n
      invariant r.Valid() && store.Valid()
      invariant OutputsP(0, n, old(LoadedOf(store)))(old(r.Rest())) == OutputsP(i, n, LoadedOf(store))(r.Rest())
    {
      ghost var st, before := LoadedOf(store), r.Rest();
      assert OutputsP(i, n, st)(before) == Bind(U64(), NextOutput(i, n, st))(before);
      var id := r.ReadU64();
      if id.Err? {
        return Some(id.error);
      }
      var marked := store.MarkOutput(id.value);
      if marked.Err? {
        return Some(BadNodeRef(marked.error));
      }
      assert LoadedOf(store) == Marked(st, id.value);
    }
    e := None;
  }

  method ReadAllNodes(r: Reader, store: GraphStore) returns (e: Option<DecodeError>)
    requires r.Valid() && store.Valid() && LoadedOf(store) == NOTHING
    modifies r, store
    ensures r.Valid() && store.Valid() && Fills(Bind(U32(), AllNodes), old(r.Rest()), e, LoadedOf(store), r.Rest())
  {
    var n := r.ReadU32();
    if n.Err? {
      return Some(n.error);
    }
    e := ReadNodes(r, store, n.value);
  }

  method ReadAllOutputs(r: Reader, store: GraphStore) returns (e: Option<DecodeError>)
    requires r.Valid() && store.Valid()
    modifies r, store
    ensures r.Valid() && store.Valid() && Fills(OutputsAfter(old(LoadedOf(store))), old(r.Rest()), e, LoadedOf(store), r.Rest())
  {
    var n := r.ReadU32();
    if n.Err? {
      return Some(n.error);
    }
    e := ReadOutputs(r, store, n.value);
  }

  method ReadGraph(r: Reader, store: GraphStore) returns (e: Option<DecodeError>)
    requires r.Valid() && store.Valid() && LoadedOf(store) == NOTHING
    modifies r, store
    ensures r.Valid() && store.Valid() && Fills(GraphP(), old(r.Rest()), e, LoadedOf(store), r.Rest())
  {
    var magic := r.TakeBytes(4);
    if magic.Err? {
      return Some(magic.error);
    }
    if magic.value != MAGIC {
      return Some(BadMagic);
    }
    e := ReadAllNodes(r, store);
    if e == None {
      e := ReadAllOutputs(r, store);
    }
  }

  /** Decode bytes into a fresh store. */
  method Deserialize(data: seq<byte>) returns (res: Result<GraphStore, DecodeError>)
    ensures Deserialized(data).Err? ==> res == Err(Deserialized(data).error)
    ensures Deserialized(data).Ok? ==>
      res.Ok? && fresh(res.value) && res.value.Valid() && LoadedOf(res.value) == Deserialized(data).value
  {
    var r := new Reader(data);
    var store := new GraphStore();
    var e := ReadGraph(r, store);
    res := match e case None => Ok(store) case Some(err) => Err(err);
  }
}
