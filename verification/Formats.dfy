/** The written formats on given inputs, character by character and byte by byte: the codes and the layout
of operator tokens, and the bytes of one node of every kind. */
module Formats {
  import opened Wrappers
  import opened Text
  import opened Param
  import opened Node
  import opened Bytes
  import opened Utf8
  import opened Parsing
  import opened Gir
  import Operators

  // ---- escaping, one character at a time ----

  function EscapedChar(c: char): string {
    if c == '%' then "%25" else if c == ';' then "%3B" else if c == '=' then "%3D" else if c == '|' then "%7C" else [c]
  }

  function EscapedChars(s: string): string {
    if s == [] then [] else EscapedChar(s[0]) + EscapedChars(s[1..])
  }

  lemma {:induction false} ReplaceAppend(a: string, b: string, c: char, repl: string)
    ensures ReplaceChar(a + b, c, repl) == ReplaceChar(a, c, repl) + ReplaceChar(b, c, repl)
  {
    if a == [] {
      assert a + b == b;
    } else {
      assert (a + b)[1..] == a[1..] + b;
      ReplaceAppend(a[1..], b, c, repl);
    }
  }

  lemma EscapeAppend(a: string, b: string)
    ensures Escape(a + b) == Escape(a) + Escape(b)
  {
    ReplaceAppend(a, b, '%', "%25");
    var a1, b1 := ReplaceChar(a, '%', "%25"), ReplaceChar(b, '%', "%25");
    ReplaceAppend(a1, b1, ';', "%3B");
    var a2, b2 := ReplaceChar(a1, ';', "%3B"), ReplaceChar(b1, ';', "%3B");
    ReplaceAppend(a2, b2, '=', "%3D");
    ReplaceAppend(ReplaceChar(a2, '=', "%3D"), ReplaceChar(b2, '=', "%3D"), '|', "%7C");
  }

  /** Replacing one character of a one-character text. */
  lemma ReplaceOne(x: char, c: char, repl: string)
    ensures ReplaceChar([x], c, repl) == if x == c then repl else [x]
  {
    assert [x][1..] == [];
  }

  lemma EscapeOne(x: char)
    ensures Escape([x]) == EscapedChar(x)
  {
    ReplaceOne(x, '%', "%25");
    ReplaceOne(x, ';', "%3B");
    ReplaceOne(x, '=', "%3D");
    ReplaceOne(x, '|', "%7C");
    if x == '%' {
      ReplaceAbsent("%25", ';', "%3B");
      ReplaceAbsent("%25", '=', "%3D");
      ReplaceAbsent("%25", '|', "%7C");
    } else if x == ';' {
      ReplaceAbsent("%3B", '=', "%3D");
      ReplaceAbsent("%3B", '|', "%7C");
    } else if x == '=' {
      ReplaceAbsent("%3D", '|', "%7C");
    }
  }

  /** The four replacements, one after the other, write each character's own code. */
  lemma {:induction false} EscapeByChar(s: string)
    ensures Escape(s) == EscapedChars(s)
  {
    if s != [] {
      assert s == [s[0]] + s[1..];
      EscapeAppend([s[0]], s[1..]);
      EscapeOne(s[0]);
      EscapeByChar(s[1..]);
    }
  }

  // ---- tokens ----

  /** The tokens of nodes without parameters. */
  lemma BareTokens(name: string, members: seq<StageOp>, ins: seq<NodeId>)
    requires PlainText(name)
    ensures Source(name, []).Token() == "src|" + name
    ensures Op(name, [], ins).Token() == "op|" + name
    ensures Reduction(name, [], ins).Token() == "red|" + name
    ensures |members| < 10 ==> Stage(ins, members).Token() == "stage|" + ["0123456789"[|members|]]
  {
    EscapePlain(name);
  }

  /** The six fields of a payload follow one another. */
  lemma PayloadToken(k: string, h: string, f: string, v: string, i: string, p: string, ins: seq<NodeId>)
    ensures External(PayloadDescriptor(k, h, f, v, i, Some(p)), [], ins).Token()
      == "ext|" + (k + ("|" + (h + ("|" + (f + ("|" + (v + ("|" + (i + ("|" + p))))))))))
    ensures External(PayloadDescriptor(k, h, f, v, i, None), [], ins).Token()
      == "ext|" + (k + ("|" + (h + ("|" + (f + ("|" + (v + ("|" + (i + ("|" + "-"))))))))))
  {
    PayloadText(k, h, f, v, i, p);
    PayloadText(k, h, f, v, i, "-");
  }

  lemma PayloadText(k: string, h: string, f: string, v: string, i: string, p: string)
    ensures "ext|" + (k + "|" + (h + "|" + (f + "|" + (v + "|" + (i + "|" + p)))))
      == "ext|" + (k + ("|" + (h + ("|" + (f + ("|" + (v + ("|" + (i + ("|" + p))))))))))
  {
    assert i + "|" + p == i + ("|" + p);
    Reassociate(v, "|", i + "|" + p);
    Reassociate(f, "|", v + "|" + (i + "|" + p));
    Reassociate(h, "|", f + "|" + (v + "|" + (i + "|" + p)));
    Reassociate(k, "|", h + "|" + (f + "|" + (v + "|" + (i + "|" + p))));
  }

  lemma DigitIs(d: nat)
    requires d < 16
    ensures DigitChar(d) == "0123456789abcdef"[d]
  {
  }

  lemma Quotient(n: nat, base: nat, q: nat, d: nat)
    requires 0 < base && d < base && n == base * q + d
    ensures n / base == q && n % base == d
  {
    DivisionUnique(n, base, q, d);
    assert base * (n / base - q) == 0;
  }

  /** Hexadecimal appends lower-case digits. */
  lemma HexDigit(n: nat, q: nat, d: nat, width: nat)
    requires d < 16 && n == 16 * q + d
    ensures PrintHex(n, width + 1) == PrintHex(q, width) + ["0123456789abcdef"[d]]
  {
    Quotient(n, 16, q, d);
    DigitIs(d);
  }

  /** Decimal appends digits, without leading zeros. */
  lemma DecimalDigit(n: nat, q: nat, d: nat)
    requires d < 10 && n == 10 * q + d
    ensures PrintNat(n) == (if q == 0 then [] else PrintNat(q)) + ["0123456789abcdef"[d]]
  {
    Quotient(n, 10, q, d);
    DigitIs(d);
  }

  /** A negative number is a minus sign before its absolute value. */
  lemma SignWritten(n: nat)
    ensures PrintInt(n) == PrintNat(n) && (n > 0 ==> PrintInt(0 - n) == "-" + PrintNat(n))
  {
  }

  /** Entries are joined by semicolons after the operator, each as key, equals sign and value. */
  lemma ParamLayout(name: string, a: Entry, b: Entry, ins: seq<NodeId>)
    requires PlainText(name) && PlainText(a.key) && PlainText(b.key) && SortedByKey([a, b])
    ensures Op(name, [a, b], ins).Token()
      == "op|" + name + "|" + ((a.key + "=" + ValueToken(a.value)) + ";" + (b.key + "=" + ValueToken(b.value)))
  {
    EscapePlain(name);
    EscapePlain(a.key);
    EscapePlain(b.key);
    assert Map(EntryToken, [a, b]) == [EntryToken(a)] + [EntryToken(b)];
    JoinStep(EntryToken(a), [EntryToken(b)], ';');
  }

  lemma TwelveText()
    ensures PrintInt(-12) == "-12"
  {
    DecimalDigit(1, 0, 1);
    DecimalDigit(12, 1, 2);
    SignWritten(12);
  }

  lemma ScaledNaN()
    ensures Operators.Scaled(0x7ff8, 12) == CANON_NAN
  {
    assert Operators.Scaled(0x7ff8, 4) == 0x7ff8_0000;
    assert Operators.Scaled(0x7ff8, 8) == 0x7ff8_0000_0000;
  }

  lemma ScaledTop()
    ensures Operators.Scaled(8, 15) == TWO_TO_63
  {
    assert Operators.Scaled(8, 4) == 0x8_0000;
    assert Operators.Scaled(8, 8) == 0x8_0000_0000;
    assert Operators.Scaled(8, 12) == 0x8_0000_0000_0000;
  }

  lemma LeadDigits()
    ensures PrintHex(0x7ff8, 4) == "7ff8" && PrintHex(8, 1) == "8"
  {
  }

  lemma ZerosText(zeros: string, more: string)
    requires zeros == Operators.Zeros(12) && more == Operators.Zeros(15)
    ensures "7ff8" + zeros == "7ff8000000000000" && "8" + more == "8000000000000000"
  {
  }

  lemma FloatTexts()
    ensures PrintHex(CANON_NAN, 16) == "7ff8000000000000" && PrintHex(TWO_TO_63, 16) == "8000000000000000"
  {
    ScaledNaN();
    ScaledTop();
    Operators.PrintScaled(0x7ff8, 4, 12);
    Operators.PrintScaled(8, 1, 15);
    LeadDigits();
    ZerosText(Operators.Zeros(12), Operators.Zeros(15));
  }

  lemma BarText()
    ensures Escape("|") == "%7C"
  {
    EscapeOne('|');
  }

  /** The tokens of given floats: one text for all NaNs, and another for each zero. */
  lemma FloatTokens(nan: u64)
    requires NaNPattern(nan)
    ensures ValueToken(Float(nan)) == "f" + "7ff8000000000000"
    ensures ValueToken(Float(0)) == "f" + "0000000000000000" && ValueToken(Float(TWO_TO_63)) == "f" + "8000000000000000"
  {
    NaNRanges(nan);
    FloatTexts();
    Operators.PrintZero();
  }

  /** The tokens of given values of the other kinds. */
  lemma ValueTokens()
    ensures ValueToken(Int(-12)) == "i-12" && ValueToken(Str("|")) == "s%7C"
    ensures ValueToken(Bool(true)) == "btrue" && ValueToken(Bool(false)) == "bfalse"
  {
    TwelveText();
    BarText();
  }

  lemma PairSorted(a: Entry, b: Entry)
    requires a.key == "x" && b.key == "y"
    ensures SortedByKey([a, b]) && NewMap([b, a]) == [a, b]
  {
    assert KeyLe(a.key, b.key) && !KeyLe(b.key, a.key);
    assert [b, a][..1] == [b] && [b][..0] == [];
  }

  lemma PairText(x: string, y: string, v: string, w: string)
    requires x == "x" && y == "y" && v == "i-12" && w == "btrue"
    ensures "op|" + "f" + "|" + ((x + "=" + v) + ";" + (y + "=" + w)) == "op|f|x=i-12;y=btrue"
  {
  }

  /** The token of a given op: its parameters follow in key order. */
  lemma ParamTokens(a: Entry, b: Entry)
    requires a == Entry("x", Int(-12)) && b == Entry("y", Bool(true))
    ensures Op("f", NewMap([b, a]), []).Token() == "op|f|x=i-12;y=btrue"
  {
    PairSorted(a, b);
    ValueTokens();
    ParamLayout("f", a, b, []);
    PairText(a.key, b.key, ValueToken(a.value), ValueToken(b.value));
  }

  // ---- bytes ----

  /** Numbers are written with the least significant byte first. */
  lemma LittleEndian(n: nat, b: byte, rest: nat, width: nat)
    requires n == b + 256 * rest
    ensures LeBytes(n, width + 1) == [b] + LeBytes(rest, width)
  {
    Quotient(n, 256, rest, b);
  }

  lemma Word(a: byte, b: byte, c: byte, d: byte, n: nat)
    requires n == a + 256 * (b + 256 * (c + 256 * d))
    ensures LeBytes(n, 4) == [a, b, c, d]
  {
    LongWord(a, b, c, d, 0, n, 0);
  }

  lemma LongWord(a: byte, b: byte, c: byte, d: byte, high: nat, n: nat, width: nat)
    requires n == a + 256 * (b + 256 * (c + 256 * (d + 256 * high)))
    ensures LeBytes(n, width + 4) == [a, b, c, d] + LeBytes(high, width)
  {
    var n1 := d + 256 * high;
    var n2 := c + 256 * n1;
    var n3 := b + 256 * n2;
    LittleEndian(n1, d, high, width);
    LittleEndian(n2, c, n1, width + 1);
    LittleEndian(n3, b, n2, width + 2);
    LittleEndian(n, a, n3, width + 3);
  }

  /** Where each length of a UTF-8 sequence begins and ends. */
  lemma ScalarBytes()
    ensures EncodeScalar(0x7f) == [0x7f] && EncodeScalar(0x80) == [0xc2, 0x80]
    ensures EncodeScalar(0x7ff) == [0xdf, 0xbf] && EncodeScalar(0x800) == [0xe0, 0xa0, 0x80]
    ensures EncodeScalar(0xffff) == [0xef, 0xbf, 0xbf] && EncodeScalar(0x1_0000) == [0xf0, 0x90, 0x80, 0x80]
    ensures EncodeScalar(0x10_ffff) == [0xf4, 0x8f, 0xbf, 0xbf]
  {
  }

  predicate IsAscii(c: char) {
    c as int < 0x80
  }

  lemma SmallWords(n: byte)
    ensures LeBytes(n, 4) == [n, 0, 0, 0] && LeBytes(n, 8) == [n, 0, 0, 0, 0, 0, 0, 0]
  {
    Word(n, 0, 0, 0, n);
    Word(0, 0, 0, 0, 0);
    LongWord(n, 0, 0, 0, 0, n, 4);
  }

  lemma LetterBytes(c: char)
    requires IsAscii(c)
    ensures TextBytes([c]) == [1, 0, 0, 0, c as int]
  {
    assert [c][1..] == [];
    assert Encode([c]) == [c as int] + Encode([]);
    SmallWords(1);
  }

  lemma OneCounted<T>(write: T -> seq<byte>, x: T)
    ensures Counted(write, [x]) == [1, 0, 0, 0] + write(x)
  {
    SmallWords(1);
    assert Map(write, [x]) == [write(x)];
    assert Concat([write(x)]) == write(x) + Concat([]);
  }

  lemma NoneCounted<T>(write: T -> seq<byte>)
    ensures Counted(write, []) == [0, 0, 0, 0]
  {
    SmallWords(0);
    assert Map(write, []) == [];
  }

  lemma IdIs(id: byte)
    ensures Counted<NodeId>(IdBytes, [id]) == [1, 0, 0, 0] + [id, 0, 0, 0, 0, 0, 0, 0]
  {
    SmallWords(id);
    OneCounted<NodeId>(IdBytes, id);
  }

  lemma MinusTwo()
    ensures LeBytes(ToUnsigned(-2), 8) == [0xfe, 0xff, 0xff, 0xff, 0xff, 0xff, 0xff, 0xff]
  {
    Word(0xff, 0xff, 0xff, 0xff, 0xffff_ffff);
    LongWord(0xfe, 0xff, 0xff, 0xff, 0xffff_ffff, ToUnsigned(-2), 4);
  }

  lemma FloatOne()
    ensures LeBytes(0x3ff0_0000_0000_0000, 8) == [0, 0, 0, 0, 0, 0, 0xf0, 0x3f]
  {
    Word(0, 0, 0xf0, 0x3f, 0x3ff0_0000);
    LongWord(0, 0, 0, 0, 0x3ff0_0000, 0x3ff0_0000_0000_0000, 4);
  }

  /** The four kinds of values. */
  lemma ValuesWritten(c: char)
    requires IsAscii(c)
    ensures ValueBytes(Int(-2)) == [0] + [0xfe, 0xff, 0xff, 0xff, 0xff, 0xff, 0xff, 0xff]
    ensures ValueBytes(Float(0x3ff0_0000_0000_0000)) == [1] + [0, 0, 0, 0, 0, 0, 0xf0, 0x3f]
    ensures ValueBytes(Bool(false)) == [2, 0] && ValueBytes(Bool(true)) == [2, 1]
    ensures ValueBytes(Str([c])) == [3] + [1, 0, 0, 0, c as int]
  {
    MinusTwo();
    FloatOne();
    LetterBytes(c);
  }

  /** One entry: its key, then its value. */
  lemma EntryWritten(c: char, v: ParamValue)
    requires IsAscii(c)
    ensures ParamsBytes([Entry([c], v)]) == [1, 0, 0, 0] + ([1, 0, 0, 0, c as int] + ValueBytes(v))
  {
    LetterBytes(c);
    OneCounted(EntryBytes, Entry([c], v));
  }

  /** A source: tag 0, name, parameters.  An op: tag 1, name, parameters, inputs.  A reduction: tag 2. */
  lemma NamedWritten(c: char, p: ParamMap, id: byte)
    requires IsAscii(c)
    ensures KeyBytes(Source([c], p)) == [0] + ([1, 0, 0, 0, c as int] + ParamsBytes(p))
    ensures KeyBytes(Op([c], p, [id]))
      == [1] + ([1, 0, 0, 0, c as int] + (ParamsBytes(p) + ([1, 0, 0, 0] + [id, 0, 0, 0, 0, 0, 0, 0])))
    ensures KeyBytes(Reduction([c], p, [id]))
      == [2] + ([1, 0, 0, 0, c as int] + (ParamsBytes(p) + ([1, 0, 0, 0] + [id, 0, 0, 0, 0, 0, 0, 0])))
  {
    LetterBytes(c);
    IdIs(id);
  }

  /** The six fields of a descriptor in order, the last behind a flag. */
  lemma DescriptorWritten(k: char, h: char, f: char, v: char, i: char, p: char)
    requires IsAscii(k) && IsAscii(h) && IsAscii(f) && IsAscii(v) && IsAscii(i) && IsAscii(p)
    ensures DescriptorBytes(PayloadDescriptor([k], [h], [f], [v], [i], None))
      == [1, 0, 0, 0, k as int] + ([1, 0, 0, 0, h as int] + ([1, 0, 0, 0, f as int] + ([1, 0, 0, 0, v as int]
         + ([1, 0, 0, 0, i as int] + [0]))))
    ensures DescriptorBytes(PayloadDescriptor([k], [h], [f], [v], [i], Some([p])))
      == [1, 0, 0, 0, k as int] + ([1, 0, 0, 0, h as int] + ([1, 0, 0, 0, f as int] + ([1, 0, 0, 0, v as int]
         + ([1, 0, 0, 0, i as int] + ([1] + [1, 0, 0, 0, p as int])))))
  {
    LetterBytes(k);
    LetterBytes(h);
    LetterBytes(f);
    LetterBytes(v);
    LetterBytes(i);
    LetterBytes(p);
  }

  /** An external call: tag 3, descriptor, parameters, inputs. */
  lemma ExternalWritten(d: PayloadDescriptor, p: ParamMap, id: byte)
    ensures KeyBytes(External(d, p, [id]))
      == [3] + (DescriptorBytes(d) + (ParamsBytes(p) + ([1, 0, 0, 0] + [id, 0, 0, 0, 0, 0, 0, 0])))
  {
    IdIs(id);
  }

  lemma MemberWritten(c: char, n: byte)
    requires IsAscii(c)
    ensures MemberBytes(StageOp([c], [Input(n)])) == [1, 0, 0, 0, c as int] + ([1, 0, 0, 0] + [0, n, 0, 0, 0])
    ensures MemberBytes(StageOp([c], [Member(n)])) == [1, 0, 0, 0, c as int] + ([1, 0, 0, 0] + [1, n, 0, 0, 0])
  {
    LetterBytes(c);
    SmallWords(n);
    OneCounted(RefBytes, Input(n));
    OneCounted(RefBytes, Member(n));
  }

  /** A stage: tag 4, inputs, then the members, each its token and its references. */
  lemma StageWritten(c: char, n: byte, id: byte)
    requires IsAscii(c)
    ensures KeyBytes(Stage([id], [StageOp([c], [Input(n)])]))
      == [4] + (([1, 0, 0, 0] + [id, 0, 0, 0, 0, 0, 0, 0])
        + ([1, 0, 0, 0] + ([1, 0, 0, 0, c as int] + ([1, 0, 0, 0] + [0, n, 0, 0, 0]))))
  {
    IdIs(id);
    MemberWritten(c, n);
    OneCounted(MemberBytes, StageOp([c], [Input(n)]));
  }

  /** A graph: the letters "GIR1", the nodes behind their count, the outputs behind theirs. */
  lemma GraphWritten(c: char)
    requires IsAscii(c)
    ensures GraphBytes([Source([c], [])], [0])
      == ['G' as int, 'I' as int, 'R' as int, '1' as int]
        + (([1, 0, 0, 0] + ([0] + ([1, 0, 0, 0, c as int] + [0, 0, 0, 0])))
          + ([1, 0, 0, 0] + [0, 0, 0, 0, 0, 0, 0, 0]))
  {
    LetterBytes(c);
    NoneCounted(EntryBytes);
    OneCounted(KeyBytes, Source([c], []));
    IdIs(0);
  }

  // ---- what is refused ----

  lemma BindGoesOn<A, B>(p: Parser<A>, f: A -> Parser<B>, bs: seq<byte>, v: A, rest: seq<byte>)
    requires p(bs) == Ok((v, rest))
    ensures Bind(p, f)(bs) == f(v)(rest)
  {
  }

  lemma TooShort(bs: seq<byte>)
    requires |bs| < 4
    ensures GraphP()(bs) == Err(Truncated)
  {
    assert Take(4)(bs) == Err(Truncated);
  }

  lemma WrongMagic(bs: seq<byte>, magic: seq<byte>)
    requires |bs| >= 4 && bs[..4] == magic && magic != MAGIC
    ensures GraphP()(bs) == Err(BadMagic)
  {
    BindGoesOn(Take(4), AfterMagic, bs, magic, bs[4..]);
    assert AfterMagic(magic) == Fail(BadMagic);
  }

  lemma MagicLetters()
    ensures MAGIC == ['G' as int, 'I' as int, 'R' as int, '1' as int]
  {
  }

  /** Input that does not begin with the letters "GIR1" is refused. */
  lemma MagicRequired(bs: seq<byte>)
    ensures |bs| < 4 ==> Deserialized(bs) == Err(Truncated)
    ensures |bs| >= 4 && bs[..4] != ['G' as int, 'I' as int, 'R' as int, '1' as int] ==> Deserialized(bs) == Err(BadMagic)
  {
    MagicLetters();
    if |bs| < 4 {
      TooShort(bs);
    } else if bs[..4] != MAGIC {
      WrongMagic(bs, bs[..4]);
    }
  }

  lemma NoKeyBody(tag: nat, idx: nat)
    requires tag > 4
    ensures KeyOf(idx)(tag) == Fail(BadTag("node", tag))
  {
  }

  lemma NodeTagRefused(tag: byte, idx: nat, rest: seq<byte>)
    requires tag > 4
    ensures KeyP(idx)([tag] + rest) == Err(BadTag("node", tag))
  {
    ByteReads(tag, rest);
    BindGoesOn<nat, NodeKey>(U8(), KeyOf(idx), [tag] + rest, tag, rest);
    NoKeyBody(tag, idx);
  }

  lemma ValueTagRefused(tag: byte, rest: seq<byte>)
    requires tag > 3
    ensures ValueP()([tag] + rest) == Err(BadTag("param", tag))
  {
    ByteReads(tag, rest);
    BindGoesOn<nat, ParamValue>(U8(), ValueOf, [tag] + rest, tag, rest);
    assert ValueOf(tag) == Fail(BadTag("param", tag));
  }

  lemma TagThenWord(tag: byte, rest: seq<byte>)
    requires |rest| >= 4
    ensures Both(U8(), U32())([tag] + rest) == Ok(((tag, LeValue(rest[..4])), rest[4..]))
  {
    ByteReads(tag, rest);
    BindGoesOn(U8(), Paired(U32()), [tag] + rest, tag, rest);
  }

  lemma RefTagRefused(tag: byte, m: nat, rest: seq<byte>)
    requires tag > 1 && |rest| >= 4
    ensures RefP(m)([tag] + rest) == Err(BadTag("stage-ref", tag))
  {
    TagThenWord(tag, rest);
    BindGoesOn(Both(U8(), U32()), RefOf(m), [tag] + rest, (tag, LeValue(rest[..4])), rest[4..]);
  }

  /** So are the tags of no node, of no value and of no reference. */
  lemma TagsRefused(tag: byte, n: nat, rest: seq<byte>)
    ensures tag > 4 ==> KeyP(n)([tag] + rest) == Err(BadTag("node", tag))
    ensures tag > 3 ==> ValueP()([tag] + rest) == Err(BadTag("param", tag))
    ensures tag > 1 && |rest| >= 4 ==> RefP(n)([tag] + rest) == Err(BadTag("stage-ref", tag))
  {
    if tag > 4 {
      NodeTagRefused(tag, n, rest);
    }
    if tag > 3 {
      ValueTagRefused(tag, rest);
    }
    if tag > 1 && |rest| >= 4 {
      RefTagRefused(tag, n, rest);
    }
  }

  lemma ByteReads(tag: byte, rest: seq<byte>)
    ensures U8()([tag] + rest) == Ok((tag, rest))
  {
    assert ([tag] + rest)[..1] == [tag] && ([tag] + rest)[1..] == rest;
    assert [tag][1..] == [];
    assert LeValue([tag]) == tag + 256 * LeValue([]);
  }

  // ---- the order of keys is the order of their bytes ----

  /** Lexicographic order of bytes. */
  predicate BytesLe(x: seq<byte>, y: seq<byte>) {
    x == [] || (y != [] && (x[0] < y[0] || (x[0] == y[0] && BytesLe(x[1..], y[1..]))))
  }

  lemma {:induction false} BytesLeTail(p: seq<byte>, x: seq<byte>, y: seq<byte>)
    ensures BytesLe(p + x, p + y) <==> BytesLe(x, y)
  {
    if p == [] {
      assert p + x == x && p + y == y;
    } else {
      assert (p + x)[1..] == p[1..] + x && (p + y)[1..] == p[1..] + y;
      BytesLeTail(p[1..], x, y);
    }
  }

  /** The first byte that differs is the smaller one. */
  ghost predicate Smaller(x: seq<byte>, y: seq<byte>) {
    exists k: nat :: SmallerAt(x, y, k)
  }

  ghost predicate SmallerAt(x: seq<byte>, y: seq<byte>, k: nat) {
    k < |x| && k < |y| && x[..k] == y[..k] && x[k] < y[k]
  }

  lemma {:induction false} LessDecides(x: seq<byte>, y: seq<byte>, s: seq<byte>, t: seq<byte>)
    requires Smaller(x, y)
    ensures BytesLe(x + s, y + t) && !BytesLe(y + t, x + s)
  {
    var k: nat :| SmallerAt(x, y, k);
    var p := x[..k];
    assert x + s == p + (x[k..] + s) && y + t == p + (y[k..] + t);
    BytesLeTail(p, x[k..] + s, y[k..] + t);
    BytesLeTail(p, y[k..] + t, x[k..] + s);
  }

  lemma Less2(m: nat, n: nat)
    requires m < n < 0x800
    ensures Smaller(Encode2(m), Encode2(n))
  {
    if m / 64 < n / 64 {
      assert SmallerAt(Encode2(m), Encode2(n), 0);
    } else {
      assert SmallerAt(Encode2(m), Encode2(n), 1);
    }
  }

  lemma Less3(m: nat, n: nat)
    requires m < n < 0x1_0000
    ensures Smaller(Encode3(m), Encode3(n))
  {
    var a, b := m / 64, n / 64;
    if a / 64 < b / 64 {
      assert SmallerAt(Encode3(m), Encode3(n), 0);
    } else if a < b {
      assert SmallerAt(Encode3(m), Encode3(n), 1);
    } else {
      assert SmallerAt(Encode3(m), Encode3(n), 2);
    }
  }

  lemma Less4(m: nat, n: nat)
    requires m < n < 0x11_0000
    ensures Smaller(Encode4(m), Encode4(n))
  {
    var a, b := m / 64, n / 64;
    var c, d := a / 64, b / 64;
    if c / 64 < d / 64 {
      assert SmallerAt(Encode4(m), Encode4(n), 0);
    } else if c < d {
      assert SmallerAt(Encode4(m), Encode4(n), 1);
    } else if a < b {
      assert SmallerAt(Encode4(m), Encode4(n), 2);
    } else {
      assert SmallerAt(Encode4(m), Encode4(n), 3);
    }
  }

  /** A smaller scalar has smaller bytes. */
  lemma ScalarOrder(m: nat, n: nat)
    requires IsScalar(m) && IsScalar(n) && m < n
    ensures Smaller(EncodeScalar(m), EncodeScalar(n))
  {
    if 0x80 <= m && n < 0x800 {
      Less2(m, n);
    } else if 0x800 <= m && n < 0x1_0000 {
      Less3(m, n);
    } else if 0x1_0000 <= m {
      Less4(m, n);
    } else {
      assert SmallerAt(EncodeScalar(m), EncodeScalar(n), 0);
    }
  }

  /** Keys are in order exactly when their UTF-8 bytes are. */
  lemma {:induction false} KeyOrderIsByteOrder(a: string, b: string)
    ensures KeyLe(a, b) <==> BytesLe(Encode(a), Encode(b))
  {
    if a != [] && b != [] {
      var m, n := a[0] as int, b[0] as int;
      if m == n {
        KeyOrderIsByteOrder(a[1..], b[1..]);
        BytesLeTail(EncodeScalar(m), Encode(a[1..]), Encode(b[1..]));
      } else if m < n {
        ScalarOrder(m, n);
        LessDecides(EncodeScalar(m), EncodeScalar(n), Encode(a[1..]), Encode(b[1..]));
      } else {
        ScalarOrder(n, m);
        LessDecides(EncodeScalar(n), EncodeScalar(m), Encode(b[1..]), Encode(a[1..]));
      }
    }
  }
}
