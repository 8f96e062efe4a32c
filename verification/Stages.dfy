/** Assembling the reduced graph: every class of the partition becomes one node, a boundary itself or a
stage holding its ops as a small graph of their own. */
module Stages {
  import opened Selection
  import opened Engine
  import opened Fusion
  import opened Node

  // ---- members of a class ----

  ghost function MembersTo(part: seq<nat>, c: nat, n: nat): (r: seq<nat>)
    requires n <= |part|
    ensures forall j {:trigger r[j]} :: 0 <= j < |r| ==> r[j] < n && part[r[j]] == c
    ensures forall j, k :: 0 <= j < k < |r| ==> r[j] < r[k]
  {
    if n == 0 then [] else MembersTo(part, c, n - 1) + if part[n - 1] == c then [n - 1] else []
  }

  /** All members of a class, ascending. */
  ghost function Members(part: seq<nat>, c: nat): (r: seq<nat>)
    ensures forall j {:trigger r[j]} :: 0 <= j < |r| ==> r[j] < |part| && part[r[j]] == c
    ensures forall j, k :: 0 <= j < k < |r| ==> r[j] < r[k]
  {
    MembersTo(part, c, |part|)
  }

  lemma {:induction false} MembersToComplete(part: seq<nat>, i: nat, n: nat)
    requires i < n <= |part|
    ensures i in MembersTo(part, part[i], n)
  {
    if i == n - 1 {
      assert MembersTo(part, part[i], n)[|MembersTo(part, part[i], n)| - 1] == i;
    } else {
      MembersToComplete(part, i, n - 1);
    }
  }

  lemma MembersExact(part: seq<nat>, c: nat, i: nat)
    requires i < |part|
    ensures i in Members(part, c) <==> part[i] == c
  {
    if part[i] == c {
      MembersToComplete(part, i, |part|);
    }
  }

  /** The last member closes the list. */
  lemma LastMember(part: seq<nat>, h: nat)
    requires h < |part| && IsLast(part, h)
    ensures var ops := Members(part, part[h]); ops != [] && ops[|ops| - 1] == h
  {
    MembersExact(part, part[h], h);
  }

  function IndexOf(xs: seq<nat>, x: nat): (i: nat)
    requires x in xs
    ensures i < |xs| && xs[i] == x
  {
    if xs[0] == x then 0 else IndexOf(xs[1..], x) + 1
  }

  // ---- building one stage ----

  /** A reference and the slot list after it: an op of the stage is a member; another class takes the
      slot it already has, or the next one. */
  ghost function RefTo(part: seq<nat>, ops: seq<nat>, slots: seq<nat>, x: nat): (r: (StageRef, seq<nat>))
    requires x < |part|
  {
    if x in ops then (Member(IndexOf(ops, x)), slots)
    else if part[x] in slots then (Input(IndexOf(slots, part[x])), slots)
    else (Input(|slots|), slots + [part[x]])
  }

  ghost function RefsTo(part: seq<nat>, ops: seq<nat>, slots: seq<nat>, xs: seq<nat>, m: nat): (r: (seq<StageRef>, seq<nat>))
    requires m <= |xs| && AllBelow(xs, |part|)
  {
    if m == 0 then ([], slots) else
      var (refs, slots') := RefsTo(part, ops, slots, xs, m - 1);
      var (ref, slots'') := RefTo(part, ops, slots', xs[m - 1]);
      (refs + [ref], slots'')
  }

  /** The first `k` ops of a stage and the slots they use. */
  ghost function BuildTo(g: EngineGraph, part: seq<nat>, ops: seq<nat>, k: nat): (r: (seq<StageOp>, seq<nat>))
    requires WellFormed(g) && |part| == |g.nodes| && AllBelow(ops, |part|) && k <= |ops|
    ensures |r.0| == k
  {
    if k == 0 then ([], []) else
      var (members, slots) := BuildTo(g, part, ops, k - 1);
      var n := CellsOf(g)[ops[k - 1]];
      var (refs, slots') := RefsTo(part, ops, slots, n.inputs, |n.inputs|);
      (members + [StageOp(n.sym, refs)], slots')
  }

  /** What a reference means for an input of an op. */
  ghost predicate RefMeans(part: seq<nat>, ops: seq<nat>, slots: seq<nat>, ref: StageRef, x: nat)
    requires x < |part|
  {
    match ref
    case Member(j) => j < |ops| && ops[j] == x
    case Input(s) => x !in ops && s < |slots| && slots[s] == part[x]
  }

  ghost predicate RefsMean(part: seq<nat>, ops: seq<nat>, slots: seq<nat>, refs: seq<StageRef>, xs: seq<nat>)
    requires AllBelow(xs, |part|)
  {
    |refs| == |xs| && forall l :: 0 <= l < |xs| ==> RefMeans(part, ops, slots, refs[l], xs[l])
  }

  /** Every slot is the class of some input from outside. */
  ghost predicate SlotsJustified(g: EngineGraph, part: seq<nat>, ops: seq<nat>, slots: seq<nat>) {
    |part| == |g.nodes| && forall s :: 0 <= s < |slots| ==> ExternalClass(g, part, ops, slots[s])
  }

  ghost predicate ExternalClass(g: EngineGraph, part: seq<nat>, ops: seq<nat>, c: nat)
    requires |part| == |g.nodes|
  {
    exists i, x :: i in ops && i < |g.nodes| && x in g.nodes[i].inputs && x < |part| && x !in ops && part[x] == c
  }

  lemma {:induction false} RefsToMean(g: EngineGraph, part: seq<nat>, ops: seq<nat>, slots: seq<nat>, i: nat, m: nat)
    requires WellFormed(g) && |part| == |g.nodes| && i < |g.nodes| && i in ops
    requires m <= |g.nodes[i].inputs| && AllBelow(g.nodes[i].inputs, |part|)
    requires SlotsJustified(g, part, ops, slots)
    ensures var (refs, slots') := RefsTo(part, ops, slots, g.nodes[i].inputs, m);
      && slots <= slots'
      && SlotsJustified(g, part, ops, slots')
      && RefsMean(part, ops, slots', refs, g.nodes[i].inputs[..m])
  {
    if m > 0 {
      RefsToMean(g, part, ops, slots, i, m - 1);
      var xs := g.nodes[i].inputs;
      var (refs, slots') := RefsTo(part, ops, slots, xs, m - 1);
      var x := xs[m - 1];
      var (ref, slots'') := RefTo(part, ops, slots', x);
      assert x in xs;
      if x !in ops && part[x] !in slots' {
        assert ExternalClass(g, part, ops, part[x]);
      }
      assert RefMeans(part, ops, slots'', ref, x);
      forall l | 0 <= l < m
        ensures RefMeans(part, ops, slots'', (refs + [ref])[l], xs[..m][l])
      {
        if l < m - 1 {
          assert xs[..m][l] == xs[..m - 1][l];
          assert RefMeans(part, ops, slots', refs[l], xs[..m - 1][l]);
        }
      }
    }
  }

  /** Every member of the build refers to exactly its op's inputs. */
  ghost predicate BuildMeans(g: EngineGraph, part: seq<nat>, ops: seq<nat>, slots: seq<nat>, members: seq<StageOp>)
    requires WellFormed(g) && |part| == |g.nodes| && AllBelow(ops, |part|) && |members| <= |ops|
  {
    forall j {:trigger members[j]} :: 0 <= j < |members| ==> MemberMeans(g, part, ops, slots, members[j], ops[j])
  }

  ghost predicate MemberMeans(g: EngineGraph, part: seq<nat>, ops: seq<nat>, slots: seq<nat>, member: StageOp, i: nat)
    requires WellFormed(g) && |part| == |g.nodes| && i < |part|
  {
    && AllBelow(g.nodes[i].inputs, |part|)
    && member.token == g.nodes[i].token
    && RefsMean(part, ops, slots, member.refs, g.nodes[i].inputs)
  }

  lemma MemberMeansMore(g: EngineGraph, part: seq<nat>, ops: seq<nat>, slots: seq<nat>, slots': seq<nat>, member: StageOp, i: nat)
    requires WellFormed(g) && |part| == |g.nodes| && i < |part|
    requires MemberMeans(g, part, ops, slots, member, i) && slots <= slots'
    ensures MemberMeans(g, part, ops, slots', member, i)
  {
    var xs := g.nodes[i].inputs;
    forall l | 0 <= l < |xs|
      ensures RefMeans(part, ops, slots', member.refs[l], xs[l])
    {
      assert RefMeans(part, ops, slots, member.refs[l], xs[l]);
    }
  }

  lemma MembersMeanMore(g: EngineGraph, part: seq<nat>, ops: seq<nat>, slots: seq<nat>, slots': seq<nat>,
                        members: seq<StageOp>, member: StageOp, k: nat)
    requires WellFormed(g) && |part| == |g.nodes| && AllBelow(ops, |part|) && k < |ops| && |members| == k
    requires BuildMeans(g, part, ops, slots, members) && slots <= slots'
    requires MemberMeans(g, part, ops, slots', member, ops[k])
    ensures BuildMeans(g, part, ops, slots', members + [member])
  {
    var members' := members + [member];
    forall j | 0 <= j < |members'|
      ensures MemberMeans(g, part, ops, slots', members'[j], ops[j])
    {
      if j < k {
        MemberMeansMore(g, part, ops, slots, slots', members[j], ops[j]);
      }
    }
  }

  lemma {:induction false} BuildToMeans(g: EngineGraph, part: seq<nat>, ops: seq<nat>, k: nat)
    requires WellFormed(g) && |part| == |g.nodes| && AllBelow(ops, |part|) && k <= |ops|
    ensures var (members, slots) := BuildTo(g, part, ops, k);
      SlotsJustified(g, part, ops, slots) && BuildMeans(g, part, ops, slots, members)
  {
    if k > 0 {
      BuildToMeans(g, part, ops, k - 1);
      var (members, slots) := BuildTo(g, part, ops, k - 1);
      var i := ops[k - 1];
      var xs := CellsOf(g)[i].inputs;
      assert AllBelow(xs, i);
      RefsToMean(g, part, ops, slots, i, |xs|);
      assert xs[..|xs|] == xs;
      var (refs, slots') := RefsTo(part, ops, slots, xs, |xs|);
      MembersMeanMore(g, part, ops, slots, slots', members, StageOp(g.nodes[i].token, refs), k - 1);
    }
  }

  // ---- the reduced node list ----

  /** Where the class of each position lands: at the rank of its last member. */
  ghost function ReducedIndex(part: seq<nat>): (f: seq<nat>)
    ensures |f| == |part|
    ensures forall i {:trigger f[i]} :: 0 <= i < |part| ==> f[i] == Rank(LastMask(part), LastOf(part, i))
  {
    seq(|part|, i requires 0 <= i < |part| => Rank(LastMask(part), LastOf(part, i)))
  }

  /** Templates name an operator for every boundary token; a source template only for a node without inputs. */
  ghost predicate TemplatesFit(g: EngineGraph, templates: map<string, NodeKey>) {
    forall i {:trigger g.nodes[i]} :: 0 <= i < |g.nodes| && g.nodes[i].boundary ==>
      TemplateFits(templates, g.nodes[i].token, g.nodes[i].inputs)
  }

  ghost predicate TemplateFits(templates: map<string, NodeKey>, token: string, inputs: seq<nat>) {
    && token in templates
    && templates[token].Token() == token && templates[token].IsBoundary()
    && (templates[token].Source? ==> inputs == [])
  }

  /** What emitting the classes one by one needs. */
  ghost predicate Emittable(g: EngineGraph, part: seq<nat>, templates: map<string, NodeKey>) {
    WellFormed(g) && ValidPartition(g, part) && Named(part) && TemplatesFit(g, templates)
  }

  /** No boundary is itself a stage, whose token would not tell its members. */
  ghost predicate StageFreeTemplates(g: EngineGraph, templates: map<string, NodeKey>) {
    forall i {:trigger g.nodes[i]} :: 0 <= i < |g.nodes| && g.nodes[i].boundary && g.nodes[i].token in templates ==>
      !templates[g.nodes[i].token].Stage?
  }

  ghost predicate Fusable(g: EngineGraph, part: seq<nat>, templates: map<string, NodeKey>) {
    Emittable(g, part, templates) && StageFreeTemplates(g, templates)
  }

  ghost function StageInputs(part: seq<nat>, slots: seq<nat>): (ins: seq<nat>)
    requires AllBelow(slots, |part|)
  {
    Renumber(ReducedIndex(part), slots)
  }

  ghost function StageOf(g: EngineGraph, part: seq<nat>, h: nat): NodeKey
    requires WellFormed(g) && |part| == |g.nodes| && Named(part) && h < |part|
  {
    var ops := Members(part, part[h]);
    var (members, slots) := BuildTo(g, part, ops, |ops|);
    SlotsBelow(g, part, ops);
    Stage(StageInputs(part, slots), members)
  }

  lemma SlotsBelow(g: EngineGraph, part: seq<nat>, ops: seq<nat>)
    requires WellFormed(g) && |part| == |g.nodes| && Named(part) && AllBelow(ops, |part|)
    ensures AllBelow(BuildTo(g, part, ops, |ops|).1, |part|)
  {
    BuildToMeans(g, part, ops, |ops|);
    var slots := BuildTo(g, part, ops, |ops|).1;
    forall s | 0 <= s < |slots|
      ensures slots[s] < |part|
    {
      assert ExternalClass(g, part, ops, slots[s]);
    }
  }

  /** The node emitted for the class ending at `h`. */
  ghost function EmittedAt(g: EngineGraph, part: seq<nat>, templates: map<string, NodeKey>, h: nat): NodeKey
    requires Emittable(g, part, templates) && h < |part|
  {
    if g.nodes[h].boundary then
      templates[g.nodes[h].token].WithInputs(Renumber(ReducedIndex(part), CellsOf(g)[h].inputs))
    else StageOf(g, part, h)
  }

  ghost function Emitted(g: EngineGraph, part: seq<nat>, templates: map<string, NodeKey>): (r: seq<NodeKey>)
    requires Emittable(g, part, templates)
    ensures |r| == |part|
    ensures forall h {:trigger r[h]} :: 0 <= h < |r| ==> r[h] == EmittedAt(g, part, templates, h)
  {
    seq(|part|, h requires 0 <= h < |part| => EmittedAt(g, part, templates, h))
  }

  ghost function FusedNodes(g: EngineGraph, part: seq<nat>, templates: map<string, NodeKey>): (r: seq<NodeKey>)
    requires Emittable(g, part, templates)
    ensures |r| == Rank(LastMask(part), |part|)
  {
    Select(Emitted(g, part, templates), LastMask(part))
  }

  ghost function FusedOutputs(g: EngineGraph, part: seq<nat>): seq<nat>
    requires WellFormed(g) && |part| == |g.nodes|
  {
    Renumber(ReducedIndex(part), g.outputs)
  }

  /** The class ending at `h` lands at its rank. */
  lemma FusedAt(g: EngineGraph, part: seq<nat>, templates: map<string, NodeKey>, h: nat)
    requires Emittable(g, part, templates) && h < |part| && IsLast(part, h)
    ensures ReducedIndex(part)[h] == Rank(LastMask(part), h) < |FusedNodes(g, part, templates)|
    ensures FusedNodes(g, part, templates)[Rank(LastMask(part), h)] == EmittedAt(g, part, templates, h)
  {
    LastOfUnique(part, h, h);
    SelectAt(Emitted(g, part, templates), LastMask(part), h);
  }

  /** Every emitted node comes from a class. */
  lemma FusedFrom(g: EngineGraph, part: seq<nat>, templates: map<string, NodeKey>, p: nat) returns (h: nat)
    requires Emittable(g, part, templates) && p < |FusedNodes(g, part, templates)|
    ensures h < |part| && IsLast(part, h) && Rank(LastMask(part), h) == p && ReducedIndex(part)[h] == p
    ensures FusedNodes(g, part, templates)[p] == EmittedAt(g, part, templates, h)
  {
    h := Origin(LastMask(part), p);
    FusedAt(g, part, templates, h);
  }

  /** An input from another class is that class's last member, and its class is emitted earlier. */
  lemma ExternalInput(g: EngineGraph, part: seq<nat>, h: nat, i: nat, x: nat)
    requires WellFormed(g) && ValidPartition(g, part) && h < |part| && IsLast(part, h)
    requires i < |g.nodes| && part[i] == part[h] && x in g.nodes[i].inputs
    ensures x < i <= h
    ensures part[x] != part[h] ==> IsLast(part, x) && LastOf(part, x) == x && ReducedIndex(part)[x] == Rank(LastMask(part), x)
    ensures part[x] != part[h] ==> Rank(LastMask(part), x) < Rank(LastMask(part), h)
  {
    EdgesLeaveFromLast(g, part, i, x);
    assert i <= h;
    if part[x] != part[h] {
      LastOfUnique(part, x, x);
      RankMonotone(LastMask(part), x, h);
    }
  }

  /** Positions with a common class share their place; a class name stands for its class. */
  lemma ReducedIndexOfClass(part: seq<nat>, x: nat)
    requires Named(part) && x < |part|
    ensures part[x] < |part| && ReducedIndex(part)[part[x]] == ReducedIndex(part)[x]
  {
    LastOfUnique(part, part[x], x);
  }
}
