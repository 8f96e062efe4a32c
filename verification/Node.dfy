/** The IR node, its structural identity and its operator token. */
module Node {
  import opened Wrappers
  import opened Text
  import opened Param

  type NodeId = nat

  datatype PayloadDescriptor = PayloadDescriptor(
    kind: string,
    contentHash: string,
    framework: string,
    version: string,
    ioSchema: string,
    preprocessingRef: Option<string>)

  /** Inside a stage: one of its external inputs, or an earlier member. */
  datatype StageRef = Input(slot: nat) | Member(index: nat)

  datatype StageOp = StageOp(token: string, refs: seq<StageRef>)

  datatype NodeKey =
    | Source(name: string, params: ParamMap)
    | Op(name: string, params: ParamMap, ins: seq<NodeId>)
    | Reduction(name: string, params: ParamMap, ins: seq<NodeId>)
    | External(descriptor: PayloadDescriptor, params: ParamMap, ins: seq<NodeId>)
    | Stage(ins: seq<NodeId>, members: seq<StageOp>)
  {
    function Inputs(): seq<NodeId> {
      if Source? then [] else ins
    }

    predicate IsBoundary() {
      !Op?
    }

    /** The same operator over other inputs; sources have none. */
    function WithInputs(inputs: seq<NodeId>): (k: NodeKey)
      ensures k.Inputs() == if Source? then [] else inputs
      ensures k.IsBoundary() == IsBoundary() && (k.Stage? <==> Stage?) && (k.Source? <==> Source?)
    {
      match this
      case Source(name, params) => Source(name, params)
      case Op(name, params, _) => Op(name, params, inputs)
      case Reduction(name, params, _) => Reduction(name, params, inputs)
      case External(descriptor, params, _) => External(descriptor, params, inputs)
      case Stage(_, members) => Stage(inputs, members)
    }

    /** The key interning compares: NaN payloads are forgotten. */
    function Canon(): (k: NodeKey)
      ensures k.Inputs() == Inputs()
    {
      if Stage? then this else this.(params := CanonParams(params))
    }

    /** The operator alone: what is left of the identity when the inputs are taken away. */
    function Head(): NodeKey {
      WithInputs([]).Canon()
    }

    /** The operator's text before its parameters. */
    function Prefix(): string {
      match this
      case Source(name, _) => "src|" + Escape(name)
      case Op(name, _, _) => "op|" + Escape(name)
      case Reduction(name, _, _) => "red|" + Escape(name)
      case External(d, _, _) => DescriptorText(d)
      case Stage(_, members) => "stage|" + PrintNat(|members|)
    }

    function Token(): string {
      if Stage? then Prefix() else WithParams(Prefix(), params)
    }
  }

  function DescriptorText(d: PayloadDescriptor): string {
    "ext|" + (d.kind + "|" + (d.contentHash + "|" + (d.framework + "|" + (d.version + "|" + (d.ioSchema + "|"
      + PreprocessingText(d))))))
  }

  function PreprocessingText(d: PayloadDescriptor): string {
    match d.preprocessingRef case None => "-" case Some(s) => s
  }

  function WithParams(prefix: string, params: ParamMap): string {
    if params == [] then prefix else prefix + "|" + ParamsToken(params)
  }

  /** Interning equality of keys is equality of operators and of inputs. */
  lemma CanonIsHeadAndInputs(a: NodeKey, b: NodeKey)
    ensures a.Canon() == b.Canon() <==> a.Head() == b.Head() && a.Inputs() == b.Inputs()
  {
  }

  lemma HeadIdempotent(k: NodeKey, inputs: seq<NodeId>)
    ensures k.WithInputs(inputs).Head() == k.Head() && k.Head().Head() == k.Head() && k.Canon().Head() == k.Head()
  {
    if !k.Stage? {
      CanonParamsIdempotent(k.params);
    }
  }

  /** The operator determines the token. */
  lemma HeadDeterminesToken(a: NodeKey, b: NodeKey)
    requires a.Head() == b.Head()
    ensures a.Token() == b.Token()
  {
    if !a.Stage? {
      ParamsTokenInjective(a.params, b.params);
    }
  }

  lemma TokenOfHead(k: NodeKey, inputs: seq<NodeId>)
    ensures k.WithInputs(inputs).Token() == k.Token() && k.Head().Token() == k.Token()
  {
    HeadIdempotent(k, inputs);
    HeadDeterminesToken(k.WithInputs(inputs), k);
    HeadDeterminesToken(k.Head(), k);
  }

  // ---- tokens split into parts ----

  function ParamParts(params: ParamMap): seq<string> {
    if params == [] then [] else [ParamsToken(params)]
  }

  function BaseParts(k: NodeKey): (parts: seq<string>)
    ensures |parts| == if k.External? then 7 else 2
  {
    match k
    case Source(name, _) => ["src", Escape(name)]
    case Op(name, _, _) => ["op", Escape(name)]
    case Reduction(name, _, _) => ["red", Escape(name)]
    case External(d, _, _) => DescriptorParts(d)
    case Stage(_, members) => ["stage", PrintNat(|members|)]
  }

  function TokenParts(k: NodeKey): seq<string> {
    BaseParts(k) + if k.Stage? then [] else ParamParts(k.params)
  }

  function DescriptorParts(d: PayloadDescriptor): (parts: seq<string>)
    ensures |parts| == 7
  {
    ["ext", d.kind, d.contentHash, d.framework, d.version, d.ioSchema, PreprocessingText(d)]
  }

  /** Descriptor fields are joined unescaped, so only these descriptors have unambiguous tokens. */
  predicate CleanDescriptor(d: PayloadDescriptor) {
    && '|' !in d.kind && '|' !in d.contentHash && '|' !in d.framework && '|' !in d.version && '|' !in d.ioSchema
    && '|' !in PreprocessingText(d)
    && d.preprocessingRef != Some("-")
  }

  /** A recorded node: not a stage, and with an unambiguous token. */
  predicate Recordable(k: NodeKey) {
    !k.Stage? && (k.External? ==> CleanDescriptor(k.descriptor))
  }

  lemma JoinStep(part: string, rest: seq<string>, c: char)
    requires rest != []
    ensures Join([part] + rest, c) == part + [c] + Join(rest, c)
  {
    assert ([part] + rest)[1..] == rest;
  }

  lemma JoinDescriptor(d: PayloadDescriptor)
    ensures Join(DescriptorParts(d), '|') == DescriptorText(d)
  {
    var p6 := [PreprocessingText(d)];
    JoinStep(d.ioSchema, p6, '|');
    var p5 := [d.ioSchema] + p6;
    JoinStep(d.version, p5, '|');
    var p4 := [d.version] + p5;
    JoinStep(d.framework, p4, '|');
    var p3 := [d.framework] + p4;
    JoinStep(d.contentHash, p3, '|');
    var p2 := [d.contentHash] + p3;
    JoinStep(d.kind, p2, '|');
    var p1 := [d.kind] + p2;
    JoinStep("ext", p1, '|');
    assert ["ext"] + p1 == DescriptorParts(d);
    assert "ext" + ['|'] == "ext|" && ['|'] == "|";
  }

  lemma PrefixIsJoin(k: NodeKey)
    ensures k.Prefix() == Join(BaseParts(k), '|')
  {
    if k.External? {
      JoinDescriptor(k.descriptor);
    } else {
      var parts := BaseParts(k);
      assert parts == [parts[0]] + [parts[1]];
      JoinStep(parts[0], [parts[1]], '|');
    }
  }

  lemma TokenIsJoin(k: NodeKey)
    ensures k.Token() == Join(TokenParts(k), '|')
  {
    PrefixIsJoin(k);
    if k.Stage? || k.params == [] {
      assert TokenParts(k) == BaseParts(k);
    } else {
      JoinSnoc(BaseParts(k), ParamsToken(k.params), '|');
      assert TokenParts(k) == BaseParts(k) + [ParamsToken(k.params)];
    }
  }

  lemma BasePartsClean(k: NodeKey, i: nat)
    requires k.External? ==> CleanDescriptor(k.descriptor)
    requires i < |BaseParts(k)|
    ensures '|' !in BaseParts(k)[i]
  {
    match k
    case Source(name, _) => EscapeClean(name);
    case Op(name, _, _) => EscapeClean(name);
    case Reduction(name, _, _) => EscapeClean(name);
    case External(_, _, _) =>
    case Stage(_, members) => PrintNatRoundTrip(|members|);
  }

  /** Splitting a token at its separators recovers the parts it was joined from. */
  lemma TokenSplits(k: NodeKey)
    requires k.External? ==> CleanDescriptor(k.descriptor)
    ensures Split(k.Token(), '|') == TokenParts(k)
  {
    TokenIsJoin(k);
    var base, parts := BaseParts(k), TokenParts(k);
    forall i | 0 <= i < |parts|
      ensures '|' !in parts[i]
    {
      if i < |base| {
        BasePartsClean(k, i);
      } else {
        ParamsTokenRoundTrip(k.params);
      }
    }
    SplitJoin(parts, '|');
  }

  lemma ParamPartsInjective(p: ParamMap, q: ParamMap)
    requires ParamParts(p) == ParamParts(q)
    ensures CanonParams(p) == CanonParams(q)
  {
    if p != [] && q != [] {
      assert ParamParts(p)[0] == ParamParts(q)[0];
      ParamsTokenInjective(p, q);
    }
  }

  lemma DescriptorPartsInjective(d: PayloadDescriptor, e: PayloadDescriptor)
    requires CleanDescriptor(d) && CleanDescriptor(e)
    requires DescriptorParts(d) == DescriptorParts(e)
    ensures d == e
  {
    var p, q := DescriptorParts(d), DescriptorParts(e);
    assert p[1] == q[1] && p[2] == q[2] && p[3] == q[3] && p[4] == q[4] && p[5] == q[5] && p[6] == q[6];
  }

  /** Tokens are injective on recordable nodes: they identify exactly the operator. */
  lemma TokenInjective(a: NodeKey, b: NodeKey)
    requires Recordable(a) && Recordable(b)
    ensures a.Token() == b.Token() <==> a.Head() == b.Head()
  {
    if a.Token() == b.Token() {
      TokenSplits(a);
      TokenSplits(b);
      var p, q := BaseParts(a), BaseParts(b);
      assert p[0] == TokenParts(a)[0] == TokenParts(b)[0] == q[0];
      assert p == TokenParts(a)[..|p|] == TokenParts(b)[..|q|] == q;
      assert ParamParts(a.params) == TokenParts(a)[|p|..] == TokenParts(b)[|q|..] == ParamParts(b.params);
      ParamPartsInjective(a.params, b.params);
      if a.External? {
        DescriptorPartsInjective(a.descriptor, b.descriptor);
      } else {
        assert p[1] == Escape(a.name) && q[1] == Escape(b.name);
        EscapeRoundTrip(a.name);
        EscapeRoundTrip(b.name);
      }
    }
    if a.Head() == b.Head() {
      HeadDeterminesToken(a, b);
    }
  }

  // ---- why descriptors must be clean ----

  /** Two neighbouring fields with a separator inside are cut in two ways. */
  lemma BarMoves(x: string, a: string, b: string, t: string)
    ensures x + "|" + ((a + ("|" + b)) + "|" + t) == (x + ("|" + a)) + "|" + (b + "|" + t)
  {
    Reassociate(x, "|" + a, "|" + (b + "|" + t));
    Reassociate("|", a, "|" + (b + "|" + t));
    Reassociate(x + ("|" + a), "|", b + "|" + t);
    Reassociate(x, "|", (a + ("|" + b)) + "|" + t);
    Reassociate(a + ("|" + b), "|", t);
    Reassociate(a, "|" + b, "|" + t);
    Reassociate("|", b, "|" + t);
    Reassociate(b, "|", t);
  }

  lemma LastBarMoves(x: string, a: string, b: string)
    ensures x + "|" + (a + ("|" + b)) == (x + ("|" + a)) + "|" + b
  {
    Reassociate(x, "|", a + ("|" + b));
    Reassociate("|", a, "|" + b);
    Reassociate(x, "|" + a, "|" + b);
    Reassociate(x + ("|" + a), "|", b);
  }

  /** A text with a separator is what comes before it and what comes after. */
  lemma AtBar(s: string) returns (a: string, b: string)
    requires '|' in s
    ensures s == a + ("|" + b) && |a| < |s|
  {
    var i :| 0 <= i < |s| && s[i] == '|';
    a, b := s[..i], s[i + 1..];
    assert ['|'] == "|" && s == a + (['|'] + b);
  }

  /** Every descriptor the condition rules out shares its text with a different one. */
  lemma UncleanCollides(d: PayloadDescriptor) returns (e: PayloadDescriptor)
    requires !CleanDescriptor(d)
    ensures DescriptorText(e) == DescriptorText(d) && e != d && e != d.(preprocessingRef := Some("-"))
  {
    if d.preprocessingRef == Some("-") {
      e := d.(preprocessingRef := None);
    } else if '|' in d.kind {
      var a, b := AtBar(d.kind);
      BarMoves(a, b, d.contentHash, d.framework + "|" + (d.version + "|" + (d.ioSchema + "|" + PreprocessingText(d))));
      e := d.(kind := a, contentHash := b + ("|" + d.contentHash));
    } else if '|' in d.contentHash {
      var a, b := AtBar(d.contentHash);
      BarMoves(d.kind, a, b, d.framework + "|" + (d.version + "|" + (d.ioSchema + "|" + PreprocessingText(d))));
      e := d.(kind := d.kind + ("|" + a), contentHash := b);
      assert |e.kind| > |d.kind|;
    } else if '|' in d.framework {
      var a, b := AtBar(d.framework);
      BarMoves(d.contentHash, a, b, d.version + "|" + (d.ioSchema + "|" + PreprocessingText(d)));
      e := d.(contentHash := d.contentHash + ("|" + a), framework := b);
      assert |e.contentHash| > |d.contentHash|;
    } else if '|' in d.version {
      var a, b := AtBar(d.version);
      BarMoves(d.framework, a, b, d.ioSchema + "|" + PreprocessingText(d));
      e := d.(framework := d.framework + ("|" + a), version := b);
      assert |e.framework| > |d.framework|;
    } else if '|' in d.ioSchema {
      var a, b := AtBar(d.ioSchema);
      BarMoves(d.version, a, b, PreprocessingText(d));
      e := d.(version := d.version + ("|" + a), ioSchema := b);
      assert |e.version| > |d.version|;
    } else {
      var a, b := AtBar(d.preprocessingRef.value);
      LastBarMoves(d.ioSchema, a, b);
      e := d.(ioSchema := d.ioSchema + ("|" + a), preprocessingRef := Some(b));
      assert |e.ioSchema| > |d.ioSchema|;
    }
  }

  lemma TextGivesParts(d: PayloadDescriptor, e: PayloadDescriptor)
    requires CleanDescriptor(d) && DescriptorText(e) == DescriptorText(d)
    ensures DescriptorParts(e) == DescriptorParts(d)
  {
    var p, q := DescriptorParts(d), DescriptorParts(e);
    JoinDescriptor(d);
    JoinDescriptor(e);
    SplitJoin(p, '|');
    JoinCount(q, '|');
    SplitJoin(q, '|');
  }

  /** The condition on descriptors is exact: a descriptor meets it if and only if no other one has its
      text, save the one that spells a missing preprocessing reference out as a dash. */
  lemma CleanIffUnambiguous(d: PayloadDescriptor)
    ensures CleanDescriptor(d)
      <==> forall e :: DescriptorText(e) == DescriptorText(d) ==> e == d || e == d.(preprocessingRef := Some("-"))
  {
    if CleanDescriptor(d) {
      forall e | DescriptorText(e) == DescriptorText(d)
        ensures e == d || e == d.(preprocessingRef := Some("-"))
      {
        TextGivesParts(d, e);
        var p, q := DescriptorParts(d), DescriptorParts(e);
        assert p[1] == q[1] && p[2] == q[2] && p[3] == q[3] && p[4] == q[4] && p[5] == q[5] && p[6] == q[6];
      }
    } else {
      var e := UncleanCollides(d);
    }
  }

  /** Moving a separator from one field to the next leaves the token as it is. */
  lemma SeparatorMoves(d: PayloadDescriptor, a: string, b: string, c: string)
    ensures var x, y := d.(kind := a + ("|" + b), contentHash := c), d.(kind := a, contentHash := b + ("|" + c));
      x != y && External(x, [], []).Token() == External(y, [], []).Token()
  {
    BarMoves(a, b, c, d.framework + "|" + (d.version + "|" + (d.ioSchema + "|" + PreprocessingText(d))));
    assert |a + ("|" + b)| > |a|;
  }

  /** For instance, these different payloads share a token. */
  lemma TokenCollides(d: PayloadDescriptor)
    ensures var x, y := d.(kind := "a|b", contentHash := "c"), d.(kind := "a", contentHash := "b|c");
      x != y && External(x, [], []).Token() == External(y, [], []).Token()
  {
    SeparatorMoves(d, "a", "b", "c");
    assert "a" + ("|" + "b") == "a|b" && "b" + ("|" + "c") == "b|c";
  }

  lemma PrintNatInjective(m: nat, n: nat)
    requires PrintNat(m) == PrintNat(n)
    ensures m == n
  {
    PrintNatRoundTrip(m);
    PrintNatRoundTrip(n);
  }

  /** A stage's token says how many members it has and nothing else. */
  lemma StageTokenIsCount(a: NodeKey, b: NodeKey)
    requires a.Stage? && b.Stage?
    ensures a.Token() == b.Token() <==> |a.members| == |b.members|
  {
    var x, y := PrintNat(|a.members|), PrintNat(|b.members|);
    assert a.Token() == "stage|" + x && b.Token() == "stage|" + y;
    if a.Token() == b.Token() {
      assert x == a.Token()[6..] && y == b.Token()[6..];
      PrintNatInjective(|a.members|, |b.members|);
    }
  }

  // ---- decoding op-shaped tokens ----

  function ParseOpToken(token: string): Option<(string, string, ParamMap)> {
    var parts := SplitN(token, 3, '|');
    var kind := parts[0];
    if kind != "op" && kind != "red" then None
    else if |parts| < 2 then None
    else
      var name := Unescape(parts[1]);
      if |parts| == 2 then Some((kind, name, []))
      else match ParamsFromToken(parts[2])
        case None => None
        case Some(params) => Some((kind, name, params))
  }

  lemma ParsesParts(token: string, kind: string, name: string, params: ParamMap)
    requires kind == "op" || kind == "red"
    requires SplitN(token, 3, '|') == [kind, Escape(name)] + ParamParts(params)
    ensures ParseOpToken(token) == Some((kind, name, CanonParams(params)))
  {
    EscapeRoundTrip(name);
    var parts := [kind, Escape(name)] + ParamParts(params);
    assert parts[0] == kind && parts[1] == Escape(name);
    if params == [] {
      assert |parts| == 2;
    } else {
      assert parts[2] == ParamsToken(params);
      ParamsTokenRoundTrip(params);
    }
  }

  /** The parser recovers the kind, name and parameters of every op and reduction. */
  lemma ParseOpTokenRoundTrip(k: NodeKey)
    requires k.Op? || k.Reduction?
    ensures ParseOpToken(k.Token()) == Some((if k.Op? then "op" else "red", k.name, CanonParams(k.params)))
  {
    TokenSplits(k);
    SplitNSplit(k.Token(), 3, '|');
    ParsesParts(k.Token(), if k.Op? then "op" else "red", k.name, k.params);
  }

  lemma FirstPart(first: string, rest: string, n: nat)
    requires '|' !in first && n >= 2
    ensures SplitN(first + ['|'] + rest, n, '|')[0] == first
  {
    FirstSeparator(first, '|', rest);
    assert (first + ['|'] + rest)[..|first|] == first;
  }

  /** Sources, externals and stages never parse as ops. */
  lemma ParseOpTokenRejects(k: NodeKey)
    requires !k.Op? && !k.Reduction?
    ensures ParseOpToken(k.Token()) == None
  {
    TokenIsJoin(k);
    var parts := TokenParts(k);
    assert parts[0] == BaseParts(k)[0];
    JoinStep(parts[0], parts[1..], '|');
    assert parts == [parts[0]] + parts[1..];
    FirstPart(parts[0], Join(parts[1..], '|'), 3);
  }

  // ---- op-token prefix ----

  /** The engine recognises boundaries by their token alone. */
  predicate BoundaryFromToken(token: string) {
    !("op|" <= token)
  }

  function Initial(k: NodeKey): char {
    match k
    case Source(_, _) => 's'
    case Op(_, _, _) => 'o'
    case Reduction(_, _, _) => 'r'
    case External(_, _, _) => 'e'
    case Stage(_, _) => 's'
  }

  lemma TokenInitial(k: NodeKey)
    ensures |k.Token()| > 0 && k.Token()[0] == Initial(k)
    ensures k.Op? ==> k.Token()[..3] == "op|"
    ensures k.Source? ==> k.Token()[..3] == "src"
    ensures k.Stage? ==> k.Token()[..3] == "sta"
  {
    assert |k.Prefix()| > 0 && k.Prefix()[0] == Initial(k);
  }

  lemma BoundaryByToken(k: NodeKey)
    ensures BoundaryFromToken(k.Token()) == k.IsBoundary()
  {
    TokenInitial(k);
  }

  /** Only sources carry source tokens. */
  lemma SourceByToken(a: NodeKey, b: NodeKey)
    requires a.Source? && a.Token() == b.Token()
    ensures b.Source?
  {
    TokenInitial(a);
    TokenInitial(b);
    assert a.Token()[..3][1] == 'r';
  }
}
