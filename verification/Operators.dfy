/** The rewrite rules operator by operator.

The rules match tokens; an executor knows operators.  Here the operators are named outright: the eight
whose two arguments commute and the four that return their argument, and the rules' tokens are shown to
be theirs and nobody else's. */
module Operators {
  import opened Wrappers
  import opened Text
  import opened Param
  import opened Node
  import opened Arena
  import Engine

  // ---- the operators ----

  /** The operators whose two arguments may be exchanged. */
  predicate Commutes(name: string) {
    || name == "add" || name == "mul" || name == "and" || name == "or"
    || name == "eq" || name == "ne" || name == "maximum" || name == "minimum"
  }

  const SCALAR := "scalar"
  const SIDE := "side"
  const ADD := "add"
  const MUL := "mul"
  const RIGHT := "r"
  const LEFT := "l"
  const ZERO: u64 := 0
  const ONE: u64 := 0x3ff0_0000_0000_0000

  /** An operator with a scalar on one side. */
  function WithScalar(name: string, bits: u64, side: string): (k: NodeKey)
    ensures k.Op? && k.name == name && k.ins == []
    ensures k.params == [Entry(SCALAR, Float(bits)), Entry(SIDE, Str(side))]
  {
    ScalarBeforeSide(bits, side);
    Op(name, [Entry(SCALAR, Float(bits)), Entry(SIDE, Str(side))], [])
  }

  /** The operators that return their argument: adding zero and multiplying by one, on either side. */
  predicate IsUnit(head: NodeKey) {
    || head == WithScalar(ADD, ZERO, RIGHT) || head == WithScalar(ADD, ZERO, LEFT)
    || head == WithScalar(MUL, ONE, RIGHT) || head == WithScalar(MUL, ONE, LEFT)
  }

  /** The laws, operator by operator. */
  ghost predicate OperatorLaws<V(!new)>(op: (NodeKey, seq<V>) -> V) {
    && (forall name, x, y :: Commutes(name) ==> op(Op(name, [], []), [x, y]) == op(Op(name, [], []), [y, x]))
    && (forall x ::
         && op(WithScalar(ADD, ZERO, RIGHT), [x]) == x && op(WithScalar(ADD, ZERO, LEFT), [x]) == x
         && op(WithScalar(MUL, ONE, RIGHT), [x]) == x && op(WithScalar(MUL, ONE, LEFT), [x]) == x)
  }

  /** A bare commuting operator. */
  predicate IsCommuting(head: NodeKey) {
    head.Op? && head.params == [] && Commutes(head.name)
  }

  lemma OpCommutes<V(!new)>(op: (NodeKey, seq<V>) -> V, head: NodeKey, x: V, y: V)
    requires OperatorLaws(op) && IsCommuting(head) && head.ins == []
    ensures op(head, [x, y]) == op(head, [y, x])
  {
    assert head == Op(head.name, [], []);
  }

  lemma OpIsIdentity<V(!new)>(op: (NodeKey, seq<V>) -> V, head: NodeKey, x: V)
    requires OperatorLaws(op) && IsUnit(head)
    ensures op(head, [x]) == x
  {
  }

  // ---- the commute rules ----

  lemma SymmetricNames(name: string)
    ensures name in Engine.SYMMETRIC_OPS <==> Commutes(name)
  {
    var names := Engine.SYMMETRIC_OPS;
    assert names[0] == "add" && names[1] == "mul" && names[2] == "and" && names[3] == "or";
    assert names[4] == "eq" && names[5] == "ne" && names[6] == "maximum" && names[7] == "minimum";
  }

  lemma CommutingPlain(name: string)
    requires Commutes(name)
    ensures PlainText(name)
  {
  }

  lemma BareHead(name: string)
    ensures Op(name, [], []).Head() == Op(name, [], [])
  {
  }

  lemma BareToken(name: string)
    requires PlainText(name)
    ensures Op(name, [], []).Token() == "op|" + name
  {
    EscapePlain(name);
  }

  /** Two ops with one token are one operator. */
  lemma OpOfToken(k: NodeKey, head: NodeKey)
    requires head.Op? && k.Token() == head.Token()
    ensures k.Op? && k.Head() == head.Head()
  {
    TokenInitial(k);
    TokenInitial(head);
    TokenInjective(k, head);
    assert k.Head().Op?;
  }

  /** The commute rules' text is the token of a bare commuting operator. */
  lemma CommutingOfToken(token: string) returns (name: string)
    requires Engine.SymmetricToken(token)
    ensures Commutes(name) && Op(name, [], []).Token() == token
  {
    name := token[3..];
    SymmetricNames(name);
    CommutingPlain(name);
    BareToken(name);
    assert "op|" + name == token;
  }

  // ---- the identity rules ----

  lemma {:induction false} ScalarBeforeSide(bits: u64, side: string)
    ensures SortedByKey([Entry(SCALAR, Float(bits)), Entry(SIDE, Str(side))])
  {
    assert SCALAR[0] == SIDE[0] && SCALAR[1..][0] < SIDE[1..][0];
    assert KeyLe(SCALAR[1..], SIDE[1..]);
    assert KeyLe(SCALAR, SIDE);
  }

  lemma UnitHead(head: NodeKey)
    requires IsUnit(head)
    ensures head.Op? && head.Head() == head
  {
    assert FloatKey(ZERO) == ZERO && FloatKey(ONE) == ONE;
  }

  lemma TwoEntryToken(a: Entry, b: Entry)
    requires SortedByKey([a, b])
    ensures ParamsToken([a, b]) == EntryToken(a) + [';'] + EntryToken(b)
  {
    assert Map(EntryToken, [a, b]) == [EntryToken(a)] + [EntryToken(b)];
    JoinStep(EntryToken(a), [EntryToken(b)], ';');
  }

  lemma ScalarToken(name: string, key: string, bits: u64, side: string, v: string)
    requires PlainText(name) && PlainText(key) && PlainText(side) && PlainText(v)
    requires SortedByKey([Entry(key, Float(bits)), Entry(side, Str(v))])
    ensures Op(name, [Entry(key, Float(bits)), Entry(side, Str(v))], []).Token()
      == ("op|" + name) + "|" + ((key + ['='] + ("f" + PrintHex(FloatKey(bits), 16))) + [';'] + (side + ['='] + ("s" + v)))
  {
    EscapePlain(name);
    EscapePlain(key);
    EscapePlain(side);
    EscapePlain(v);
    TwoEntryToken(Entry(key, Float(bits)), Entry(side, Str(v)));
  }

  /** `n` times sixteen to the `z`. */
  function Scaled(n: nat, z: nat): nat {
    if z == 0 then n else 16 * Scaled(n, z - 1)
  }

  function Zeros(z: nat): (s: string)
    ensures |s| == z && forall i :: 0 <= i < z ==> s[i] == '0'
  {
    seq(z, _ => '0')
  }

  lemma {:induction false} PrintScaled(n: nat, width: nat, z: nat)
    ensures PrintHex(Scaled(n, z), width + z) == PrintHex(n, width) + Zeros(z)
  {
    if z > 0 {
      PrintScaled(n, width, z - 1);
      assert Scaled(n, z) / 16 == Scaled(n, z - 1) && Scaled(n, z) % 16 == 0;
      assert Zeros(z) == Zeros(z - 1) + "0";
    } else {
      assert Zeros(0) == [];
    }
  }

  lemma {:induction false} ScaledZero(z: nat)
    ensures Scaled(0, z) == 0
  {
    if z > 0 {
      ScaledZero(z - 1);
    }
  }

  lemma PrintZero()
    ensures PrintHex(FloatKey(ZERO), 16) == "0000000000000000"
  {
    PrintScaled(0, 0, 16);
    ScaledZero(16);
    assert Zeros(16) == "0000000000000000";
  }

  lemma ScaledOne()
    ensures Scaled(0x3ff, 13) == ONE
  {
    assert Scaled(0x3ff, 4) == 0x3ff0000;
    assert Scaled(0x3ff, 8) == 0x3ff00000000;
    assert Scaled(0x3ff, 12) == 0x3ff000000000000;
  }

  lemma PrintLead()
    ensures PrintHex(0x3ff, 3) == "3ff"
  {
  }

  lemma ZerosText(zeros: string)
    requires zeros == Zeros(13)
    ensures "3ff" + zeros == "3ff0000000000000"
  {
  }

  lemma PrintOne()
    ensures PrintHex(FloatKey(ONE), 16) == "3ff0000000000000"
  {
    ScaledOne();
    PrintScaled(0x3ff, 3, 13);
    PrintLead();
    ZerosText(Zeros(13));
  }

  lemma ScalarText(name: string, hex: string, v: string)
    requires |name| == 3 && |hex| == 16 && |v| == 1
    ensures ("op|" + name) + "|" + ((SCALAR + ['='] + ("f" + hex)) + [';'] + (SIDE + ['='] + ("s" + v)))
      == "op|" + name + "|scalar=f" + hex + ";side=s" + v
  {
  }

  lemma WithScalarToken(name: string, bits: u64, hex: string, v: string)
    requires PlainText(name) && |name| == 3 && PlainText(v) && |v| == 1 && PrintHex(FloatKey(bits), 16) == hex
    ensures WithScalar(name, bits, v).Token() == "op|" + name + "|scalar=f" + hex + ";side=s" + v
  {
    assert PlainText(SCALAR) && PlainText(SIDE);
    ScalarBeforeSide(bits, v);
    ScalarToken(name, SCALAR, bits, SIDE, v);
    ScalarText(name, hex, v);
  }

  lemma AddRightText(name: string, hex: string, v: string)
    requires name == "add" && hex == "0000000000000000" && v == "r"
    ensures "op|" + name + "|scalar=f" + hex + ";side=s" + v == "op|add|scalar=f0000000000000000;side=sr"
  {
  }

  lemma AddRightToken()
    ensures WithScalar(ADD, ZERO, RIGHT).Token() == Engine.IDENTITY_TOKENS[0]
  {
    var hex := PrintHex(FloatKey(ZERO), 16);
    PrintZero();
    AddRightText(ADD, hex, RIGHT);
    WithScalarToken(ADD, ZERO, hex, RIGHT);
  }

  lemma AddLeftText(name: string, hex: string, v: string)
    requires name == "add" && hex == "0000000000000000" && v == "l"
    ensures "op|" + name + "|scalar=f" + hex + ";side=s" + v == "op|add|scalar=f0000000000000000;side=sl"
  {
  }

  lemma AddLeftToken()
    ensures WithScalar(ADD, ZERO, LEFT).Token() == Engine.IDENTITY_TOKENS[1]
  {
    var hex := PrintHex(FloatKey(ZERO), 16);
    PrintZero();
    AddLeftText(ADD, hex, LEFT);
    WithScalarToken(ADD, ZERO, hex, LEFT);
  }

  lemma MulRightText(name: string, hex: string, v: string)
    requires name == "mul" && hex == "3ff0000000000000" && v == "r"
    ensures "op|" + name + "|scalar=f" + hex + ";side=s" + v == "op|mul|scalar=f3ff0000000000000;side=sr"
  {
  }

  lemma MulRightToken()
    ensures WithScalar(MUL, ONE, RIGHT).Token() == Engine.IDENTITY_TOKENS[2]
  {
    var hex := PrintHex(FloatKey(ONE), 16);
    PrintOne();
    MulRightText(MUL, hex, RIGHT);
    WithScalarToken(MUL, ONE, hex, RIGHT);
  }

  lemma MulLeftText(name: string, hex: string, v: string)
    requires name == "mul" && hex == "3ff0000000000000" && v == "l"
    ensures "op|" + name + "|scalar=f" + hex + ";side=s" + v == "op|mul|scalar=f3ff0000000000000;side=sl"
  {
  }

  lemma MulLeftToken()
    ensures WithScalar(MUL, ONE, LEFT).Token() == Engine.IDENTITY_TOKENS[3]
  {
    var hex := PrintHex(FloatKey(ONE), 16);
    PrintOne();
    MulLeftText(MUL, hex, LEFT);
    WithScalarToken(MUL, ONE, hex, LEFT);
  }

  lemma UnitTokens()
    ensures WithScalar(ADD, ZERO, RIGHT).Token() == Engine.IDENTITY_TOKENS[0]
    ensures WithScalar(ADD, ZERO, LEFT).Token() == Engine.IDENTITY_TOKENS[1]
    ensures WithScalar(MUL, ONE, RIGHT).Token() == Engine.IDENTITY_TOKENS[2]
    ensures WithScalar(MUL, ONE, LEFT).Token() == Engine.IDENTITY_TOKENS[3]
  {
    AddRightToken();
    AddLeftToken();
    MulRightToken();
    MulLeftToken();
  }

  /** The rules' whole tokens are those of the four units. */
  lemma UnitOfToken(token: string) returns (head: NodeKey)
    requires Engine.IdentityToken(token)
    ensures IsUnit(head) && head.Token() == token
  {
    UnitTokens();
    var i :| 0 <= i < |Engine.IDENTITY_TOKENS| && Engine.IDENTITY_TOKENS[i] == token;
    head := if i == 0 then WithScalar(ADD, ZERO, RIGHT)
            else if i == 1 then WithScalar(ADD, ZERO, LEFT)
            else if i == 2 then WithScalar(MUL, ONE, RIGHT)
            else WithScalar(MUL, ONE, LEFT);
  }

  lemma TokenOfUnit(head: NodeKey)
    requires IsUnit(head)
    ensures Engine.IdentityToken(head.Token())
  {
    UnitTokens();
  }

  // ---- the rules are these laws ----

  lemma UnitByToken(k: NodeKey)
    ensures IsUnit(k.Head()) <==> Engine.IdentityToken(k.Token())
  {
    TokenOfHead(k, []);
    if IsUnit(k.Head()) {
      TokenOfUnit(k.Head());
    }
    if Engine.IdentityToken(k.Token()) {
      var head := UnitOfToken(k.Token());
      UnitHead(head);
      OpOfToken(k, head);
    }
  }

  lemma CommutingByToken(k: NodeKey)
    ensures IsCommuting(k.Head()) <==> Engine.SymmetricToken(k.Token())
  {
    TokenOfHead(k, []);
    TokenInitial(k);
    if IsCommuting(k.Head()) {
      CommutingPlain(k.name);
      BareToken(k.name);
      SymmetricNames(k.name);
      HeadDeterminesToken(k, Op(k.name, [], []));
      assert k.Token()[3..] == k.name;
    }
    if Engine.SymmetricToken(k.Token()) {
      var name := CommutingOfToken(k.Token());
      OpOfToken(k, Op(name, [], []));
    }
  }

  /** The rules match exactly the tokens of the eight commuting operators without parameters and of the
      four units, and the operators that the reducer treats as symmetric or as identities are the same. */
  lemma RulesAreLaws(k: NodeKey)
    ensures Engine.SymmetricToken(k.Token()) <==> IsCommuting(k.Head())
    ensures SymmetricHead(k.Head()) <==> IsCommuting(k.Head())
    ensures Engine.IdentityToken(k.Token()) <==> IsUnit(k.Head())
    ensures IsIdentity(k.Head()) <==> IsUnit(k.Head())
    ensures IsIdentity(k) <==> IsUnit(k.Head())
  {
    TokenOfHead(k, []);
    CommutingByToken(k);
    UnitByToken(k);
    if k.Op? {
      SymmetricNames(k.name);
    }
    if IsUnit(k.Head()) {
      UnitHead(k.Head());
    }
  }

  lemma UnitsAreIdentities()
    ensures forall head :: IsUnit(head) ==> IsIdentity(head)
  {
    forall head | IsUnit(head)
      ensures IsIdentity(head)
    {
      TokenOfUnit(head);
    }
  }

  /** An interpretation that never minds the order and under which every identity returns its argument. */
  lemma LawsOfFree<V(!new)>(op: (NodeKey, seq<V>) -> V)
    requires forall head, x, y :: op(head, [x, y]) == op(head, [y, x])
    requires forall head, x :: IsIdentity(head) ==> op(head, [x]) == x
    ensures OperatorLaws(op)
  {
    UnitsAreIdentities();
    assert IsUnit(WithScalar(ADD, ZERO, RIGHT)) && IsUnit(WithScalar(ADD, ZERO, LEFT));
    assert IsUnit(WithScalar(MUL, ONE, RIGHT)) && IsUnit(WithScalar(MUL, ONE, LEFT));
  }
}
