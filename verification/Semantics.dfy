/** Evaluating node lists, stages included.

An interpretation gives a value to every operator applied to argument values, and to every stage
member's token.  Terms are one interpretation; an executor that decodes member tokens is another. */
module Semantics {
  import opened Selection
  import opened Terms
  import opened Cells
  import opened Node
  import opened Arena

  datatype Interp<!V> = Interp(node: (NodeKey, seq<V>) -> V, member: (string, seq<V>) -> V)

  ghost predicate RefsInRange(refs: seq<StageRef>, inputs: nat, earlier: nat) {
    forall l :: 0 <= l < |refs| ==> match refs[l] case Input(s) => s < inputs case Member(j) => j < earlier
  }

  /** A stage has a result and refers only to its inputs and to earlier members. */
  ghost predicate StageOk(k: NodeKey) {
    k.Stage? ==> k.members != [] && forall j :: 0 <= j < |k.members| ==> RefsInRange(k.members[j].refs, |k.ins|, j)
  }

  ghost predicate Runnable(nodes: seq<NodeKey>) {
    TopologicalKeys(nodes) && forall i :: 0 <= i < |nodes| ==> StageOk(nodes[i])
  }

  ghost function Args<V>(refs: seq<StageRef>, ins: seq<V>, done: seq<V>): (vs: seq<V>)
    requires RefsInRange(refs, |ins|, |done|)
    ensures |vs| == |refs|
    ensures forall l {:trigger vs[l]} :: 0 <= l < |refs| ==>
      vs[l] == match refs[l] case Input(s) => ins[s] case Member(j) => done[j]
  {
    seq(|refs|, l requires 0 <= l < |refs| => match refs[l] case Input(s) => ins[s] case Member(j) => done[j])
  }

  /** Run the first `k` members in order over the stage's input values. */
  ghost function RunMembers<V>(member: (string, seq<V>) -> V, k: NodeKey, ins: seq<V>, n: nat): (vs: seq<V>)
    requires k.Stage? && StageOk(k) && |ins| == |k.ins| && n <= |k.members|
    ensures |vs| == n
  {
    if n == 0 then [] else
      var done := RunMembers(member, k, ins, n - 1);
      done + [member(k.members[n - 1].token, Args(k.members[n - 1].refs, ins, done))]
  }

  /** The value of a node over the values of its inputs: a stage yields its last member. */
  ghost function NodeValue<V>(interp: Interp<V>, k: NodeKey, ins: seq<V>): V
    requires StageOk(k) && |ins| == |k.Inputs()|
  {
    if k.Stage? then RunMembers(interp.member, k, ins, |k.members|)[|k.members| - 1]
    else interp.node(k.Head(), ins)
  }

  /** Nodes of one operator have one value over the same values. */
  lemma SameHeadValue<V>(interp: Interp<V>, a: NodeKey, b: NodeKey, ins: seq<V>)
    requires StageOk(a) && StageOk(b) && a.Head() == b.Head() && |ins| == |a.Inputs()| == |b.Inputs()|
    ensures NodeValue(interp, a, ins) == NodeValue(interp, b, ins)
  {
    assert a.Head().Stage? == a.Stage? && b.Head().Stage? == b.Stage?;
    if a.Stage? {
      SameMembersRun(interp.member, a, b, ins, |a.members|);
    }
  }

  lemma {:induction false} SameMembersRun<V>(member: (string, seq<V>) -> V, a: NodeKey, b: NodeKey, ins: seq<V>, n: nat)
    requires a.Stage? && b.Stage? && a.members == b.members && StageOk(a) && StageOk(b)
    requires |ins| == |a.ins| == |b.ins| && n <= |a.members|
    ensures RunMembers(member, a, ins, n) == RunMembers(member, b, ins, n)
  {
    if n > 0 {
      SameMembersRun(member, a, b, ins, n - 1);
    }
  }

  /** The value of a position. */
  ghost function Eval<V>(interp: Interp<V>, nodes: seq<NodeKey>, i: nat): V
    requires Runnable(nodes) && i < |nodes|
    decreases i, 1
  {
    NodeValue(interp, nodes[i], EvalAll(interp, nodes, nodes[i].Inputs(), i))
  }

  ghost function EvalAll<V>(interp: Interp<V>, nodes: seq<NodeKey>, xs: seq<nat>, bound: nat): (vs: seq<V>)
    requires Runnable(nodes) && AllBelow(xs, bound) && bound <= |nodes|
    ensures |vs| == |xs|
    ensures forall k {:trigger vs[k]} :: 0 <= k < |xs| ==> vs[k] == Eval(interp, nodes, xs[k])
    decreases bound, 0
  {
    seq(|xs|, k requires 0 <= k < |xs| => Eval(interp, nodes, xs[k]))
  }

  ghost function EvalOutputs<V>(interp: Interp<V>, nodes: seq<NodeKey>, outs: seq<nat>): (vs: seq<V>)
    requires Runnable(nodes) && AllBelow(outs, |nodes|)
  {
    EvalAll(interp, nodes, outs, |nodes|)
  }

  // ---- the term interpretation ----

  function TermNode(k: NodeKey, args: seq<Term<string>>): Term<string> {
    App(k.Token(), args)
  }

  function TermMember(token: string, args: seq<Term<string>>): Term<string> {
    App(token, args)
  }

  const TERMS: Interp<Term<string>> := Interp(TermNode, TermMember)

  /** The term over operator tokens a position stands for, stages spelled out. */
  ghost function TermAt(nodes: seq<NodeKey>, i: nat): Term<string>
    requires Runnable(nodes) && i < |nodes|
  {
    Eval(TERMS, nodes, i)
  }

  /** On a stage-free arena this is the unfolding of the token graph. */
  lemma {:induction false} TermAtUnfolds(nodes: seq<NodeKey>, i: nat)
    requires Runnable(nodes) && i < |nodes|
    requires forall j :: 0 <= j < |nodes| ==> !nodes[j].Stage?
    ensures TermAt(nodes, i) == Unfold(CellsBy(TokenOf, nodes), i)
    decreases i
  {
    var xs := nodes[i].Inputs();
    forall k | 0 <= k < |xs|
      ensures TermAt(nodes, xs[k]) == Unfold(CellsBy(TokenOf, nodes), xs[k])
    {
      TermAtUnfolds(nodes, xs[k]);
    }
    TokenOfHead(nodes[i], []);
    assert EvalAll(TERMS, nodes, xs, i) == UnfoldAll(CellsBy(TokenOf, nodes), xs, i);
  }

  // ---- interpretations factor through terms ----

  /** The interpretation reads nodes and members through an algebra of tokens. */
  ghost predicate ReadsTokens<V(!new)>(interp: Interp<V>, alg: Algebra<string, V>, nodes: seq<NodeKey>) {
    && (forall i, vs :: 0 <= i < |nodes| && !nodes[i].Stage? ==> interp.node(nodes[i].Head(), vs) == alg(nodes[i].Token(), vs))
    && (forall i, j, vs :: 0 <= i < |nodes| && nodes[i].Stage? && 0 <= j < |nodes[i].members| ==>
         interp.member(nodes[i].members[j].token, vs) == alg(nodes[i].members[j].token, vs))
  }

  lemma {:induction false} RunMembersValue<V(!new)>(
      interp: Interp<V>, alg: Algebra<string, V>, nodes: seq<NodeKey>, i: nat, ins: seq<V>, ts: seq<Term<string>>, n: nat)
    requires ReadsTokens(interp, alg, nodes) && i < |nodes| && nodes[i].Stage? && StageOk(nodes[i])
    requires |ins| == |ts| == |nodes[i].ins| && n <= |nodes[i].members|
    requires forall s :: 0 <= s < |ins| ==> ins[s] == Value(alg, ts[s])
    ensures forall j :: 0 <= j < n ==>
      RunMembers(interp.member, nodes[i], ins, n)[j] == Value(alg, RunMembers(TermMember, nodes[i], ts, n)[j])
  {
    if n > 0 {
      RunMembersValue(interp, alg, nodes, i, ins, ts, n - 1);
      var k := nodes[i];
      var vs, us := RunMembers(interp.member, k, ins, n - 1), RunMembers(TermMember, k, ts, n - 1);
      var refs := k.members[n - 1].refs;
      assert Args(refs, ins, vs) == Values(alg, Args(refs, ts, us));
      assert k.members[n - 1].token == nodes[i].members[n - 1].token;
    }
  }

  /** The node applies what the algebra says of its token. */
  ghost predicate NodeReads<V(!new)>(interp: Interp<V>, alg: Algebra<string, V>, k: NodeKey) {
    StageOk(k) && forall vs: seq<V> :: |vs| == |k.Inputs()| ==> NodeValue(interp, k, vs) == alg(k.Token(), vs)
  }

  /** Then evaluating is taking the value of the token's unfolding, stages included. */
  lemma {:induction false} EvalIsTokenValue<V(!new)>(interp: Interp<V>, alg: Algebra<string, V>, nodes: seq<NodeKey>, i: nat)
    requires Runnable(nodes) && i < |nodes| && forall j :: 0 <= j < |nodes| ==> NodeReads(interp, alg, nodes[j])
    ensures Eval(interp, nodes, i) == Value(alg, Unfold(CellsBy(TokenOf, nodes), i))
    decreases i
  {
    var xs, g := nodes[i].Inputs(), CellsBy(TokenOf, nodes);
    forall k | 0 <= k < |xs|
      ensures Eval(interp, nodes, xs[k]) == Value(alg, Unfold(g, xs[k]))
    {
      EvalIsTokenValue(interp, alg, nodes, xs[k]);
    }
    assert EvalAll(interp, nodes, xs, i) == Values(alg, UnfoldAll(g, xs, i));
    assert NodeReads(interp, alg, nodes[i]);
  }

  /** Terms are their own values. */
  lemma {:induction false} ValueOfTerm(t: Term<string>)
    ensures Value(TermMember, t) == t
    decreases t
  {
    forall i | 0 <= i < |t.args|
      ensures Value(TermMember, t.args[i]) == t.args[i]
    {
      ValueOfTerm(t.args[i]);
    }
    assert Values(TermMember, t.args) == t.args;
  }

  /** Evaluating is taking the value of the term. */
  lemma {:induction false} EvalIsValue<V(!new)>(interp: Interp<V>, alg: Algebra<string, V>, nodes: seq<NodeKey>, i: nat)
    requires Runnable(nodes) && i < |nodes| && ReadsTokens(interp, alg, nodes)
    ensures Eval(interp, nodes, i) == Value(alg, TermAt(nodes, i))
    decreases i
  {
    var terms := TERMS;
    var xs := nodes[i].Inputs();
    forall k | 0 <= k < |xs|
      ensures Eval(interp, nodes, xs[k]) == Value(alg, TermAt(nodes, xs[k]))
    {
      EvalIsValue(interp, alg, nodes, xs[k]);
    }
    var ins, ts := EvalAll(interp, nodes, xs, i), EvalAll(terms, nodes, xs, i);
    assert ins == Values(alg, ts);
    if nodes[i].Stage? {
      RunMembersValue(interp, alg, nodes, i, ins, ts, |nodes[i].members|);
    } else {
      TokenOfHead(nodes[i], []);
    }
  }
}
