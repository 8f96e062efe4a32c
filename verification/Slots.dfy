/** The input slots of a stage: one for each class it takes a value from, in the order in which its
members first refer to them. */
module Slots {
  import opened Wrappers
  import opened Selection
  import opened Engine
  import opened Fusion
  import opened Node
  import opened Stages
  import opened FusedMeaning

  // ---- references in member and argument order ----

  /** Argument `l` of member `j` is slot `s`. */
  ghost predicate SlotRef(members: seq<StageOp>, j: nat, l: nat, s: nat) {
    j < |members| && l < |members[j].refs| && members[j].refs[l] == Input(s)
  }

  /** Member by member, and argument by argument within a member. */
  predicate Before(j: nat, l: nat, j': nat, l': nat) {
    j < j' || (j == j' && l < l')
  }

  /** Slot `s` is referred to before argument `l` of member `j`. */
  ghost predicate ReferredBefore(members: seq<StageOp>, s: nat, j: nat, l: nat) {
    exists j': nat, l': nat :: SlotRef(members, j', l', s) && Before(j', l', j, l)
  }

  /** A slot that is referred to lies in range, and all lower ones were referred to before. */
  ghost predicate RefInOrder(members: seq<StageOp>, n: nat, j: nat, l: nat, s: nat) {
    SlotRef(members, j, l, s) ==> s < n && forall t: nat :: t < s ==> ReferredBefore(members, t, j, l)
  }

  /** Slots are numbered in the order of their first references, and none is without one. */
  ghost predicate FirstSeenOrder(members: seq<StageOp>, n: nat) {
    && (forall j: nat, l: nat, s: nat :: RefInOrder(members, n, j, l, s))
    && (forall s: nat :: s < n ==> ReferredBefore(members, s, |members|, 0))
  }

  // ---- the arguments of one member ----

  /** Resolving more arguments keeps the references made before. */
  lemma {:induction false} RefsToPrefix(part: seq<nat>, ops: seq<nat>, slots: seq<nat>, xs: seq<nat>, m: nat)
    requires m <= |xs| && AllBelow(xs, |part|) && NoDuplicates(slots)
    ensures var (refs, slots') := RefsTo(part, ops, slots, xs, m);
      |refs| == m && slots <= slots' && NoDuplicates(slots')
  {
    if m > 0 {
      RefsToPrefix(part, ops, slots, xs, m - 1);
    }
  }

  /** Argument `l` is slot `s`. */
  ghost predicate RefAt(refs: seq<StageRef>, l: nat, s: nat) {
    l < |refs| && refs[l] == Input(s)
  }

  ghost predicate RefBefore(refs: seq<StageRef>, s: nat, l: nat) {
    exists l': nat :: RefAt(refs, l', s) && l' < l
  }

  /** Slots opened from number `n` on appear in order. */
  ghost predicate OpenedInOrder(refs: seq<StageRef>, n: nat, n': nat) {
    && (forall l: nat, s: nat :: RefAt(refs, l, s) ==> s < n' && forall t: nat :: n <= t < s ==> RefBefore(refs, t, l))
    && (forall s: nat :: n <= s < n' ==> RefBefore(refs, s, |refs|))
  }

  lemma RefBeforeMore(refs: seq<StageRef>, ref: StageRef, s: nat, l: nat)
    requires RefBefore(refs, s, l)
    ensures RefBefore(refs + [ref], s, l)
  {
    var l': nat :| RefAt(refs, l', s) && l' < l;
    assert RefAt(refs + [ref], l', s);
  }

  /** A reference to a slot that is there, or to the next one, keeps the order. */
  lemma OpenedSnoc(refs: seq<StageRef>, n: nat, n': nat, ref: StageRef, n'': nat)
    requires n <= n' && OpenedInOrder(refs, n, n')
    requires (n'' == n' && (ref.Input? ==> ref.slot < n')) || (n'' == n' + 1 && ref == Input(n'))
    ensures OpenedInOrder(refs + [ref], n, n'')
  {
    var more := refs + [ref];
    forall l: nat, s: nat | RefAt(more, l, s)
      ensures s < n'' && forall t: nat :: n <= t < s ==> RefBefore(more, t, l)
    {
      if l < |refs| {
        assert RefAt(refs, l, s);
      }
      forall t: nat | n <= t < s
        ensures RefBefore(more, t, l)
      {
        RefBeforeMore(refs, ref, t, l);
      }
    }
    forall s: nat | n <= s < n''
      ensures RefBefore(more, s, |more|)
    {
      if s < n' {
        RefBeforeMore(refs, ref, s, |refs|);
      } else {
        assert RefAt(more, |refs|, s);
      }
    }
  }

  lemma {:induction false} RefsToInOrder(part: seq<nat>, ops: seq<nat>, slots: seq<nat>, xs: seq<nat>, m: nat)
    requires m <= |xs| && AllBelow(xs, |part|) && NoDuplicates(slots)
    ensures var (refs, slots') := RefsTo(part, ops, slots, xs, m);
      |slots| <= |slots'| && OpenedInOrder(refs, |slots|, |slots'|)
  {
    if m > 0 {
      RefsToInOrder(part, ops, slots, xs, m - 1);
      var (refs, slots') := RefsTo(part, ops, slots, xs, m - 1);
      var (ref, slots'') := RefTo(part, ops, slots', xs[m - 1]);
      OpenedSnoc(refs, |slots|, |slots'|, ref, |slots''|);
    }
  }

  // ---- all members ----

  lemma ReferredMore(members: seq<StageOp>, member: StageOp, s: nat, j: nat, l: nat)
    requires ReferredBefore(members, s, j, l)
    ensures ReferredBefore(members + [member], s, j, l)
  {
    var j': nat, l': nat :| SlotRef(members, j', l', s) && Before(j', l', j, l);
    assert SlotRef(members + [member], j', l', s);
  }

  lemma ReferredInLast(members: seq<StageOp>, member: StageOp, s: nat, l: nat)
    requires RefBefore(member.refs, s, l)
    ensures ReferredBefore(members + [member], s, |members|, l)
  {
    var l': nat :| RefAt(member.refs, l', s) && l' < l;
    assert SlotRef(members + [member], |members|, l', s);
  }

  /** What was referred to before stays so later. */
  lemma ReferredLater(members: seq<StageOp>, s: nat, j: nat, l: nat, j': nat, l': nat)
    requires ReferredBefore(members, s, j, l) && (j < j' || (j == j' && l <= l'))
    ensures ReferredBefore(members, s, j', l')
  {
    var a: nat, b: nat :| SlotRef(members, a, b, s) && Before(a, b, j, l);
    assert Before(a, b, j', l');
  }

  /** The slots below `s` come before a reference to `s` in the last member. */
  lemma LastRefInOrder(members: seq<StageOp>, n: nat, member: StageOp, n': nat, l: nat, s: nat)
    requires n <= n' && FirstSeenOrder(members, n) && OpenedInOrder(member.refs, n, n')
    requires RefAt(member.refs, l, s)
    ensures RefInOrder(members + [member], n', |members|, l, s)
  {
    forall t: nat | t < s
      ensures ReferredBefore(members + [member], t, |members|, l)
    {
      if t < n {
        assert ReferredBefore(members, t, |members|, 0);
        ReferredMore(members, member, t, |members|, 0);
        ReferredLater(members + [member], t, |members|, 0, |members|, l);
      } else {
        ReferredInLast(members, member, t, l);
      }
    }
  }

  lemma EarlierRefInOrder(members: seq<StageOp>, n: nat, member: StageOp, n': nat, j: nat, l: nat, s: nat)
    requires n <= n' && FirstSeenOrder(members, n) && SlotRef(members, j, l, s)
    ensures RefInOrder(members + [member], n', j, l, s)
  {
    assert RefInOrder(members, n, j, l, s);
    forall t: nat | t < s
      ensures ReferredBefore(members + [member], t, j, l)
    {
      ReferredMore(members, member, t, j, l);
    }
  }

  lemma AllReferred(members: seq<StageOp>, n: nat, member: StageOp, n': nat, s: nat)
    requires n <= n' && FirstSeenOrder(members, n) && OpenedInOrder(member.refs, n, n') && s < n'
    ensures ReferredBefore(members + [member], s, |members| + 1, 0)
  {
    if s < n {
      ReferredMore(members, member, s, |members|, 0);
      ReferredLater(members + [member], s, |members|, 0, |members| + 1, 0);
    } else {
      ReferredInLast(members, member, s, |member.refs|);
      ReferredLater(members + [member], s, |members|, |member.refs|, |members| + 1, 0);
    }
  }

  lemma FirstSeenSnoc(members: seq<StageOp>, n: nat, member: StageOp, n': nat)
    requires n <= n' && FirstSeenOrder(members, n) && OpenedInOrder(member.refs, n, n')
    ensures FirstSeenOrder(members + [member], n')
  {
    var more := members + [member];
    forall j: nat, l: nat, s: nat
      ensures RefInOrder(more, n', j, l, s)
    {
      if j < |members| && SlotRef(more, j, l, s) {
        assert SlotRef(members, j, l, s);
        EarlierRefInOrder(members, n, member, n', j, l, s);
      } else if SlotRef(more, j, l, s) {
        assert RefAt(member.refs, l, s);
        LastRefInOrder(members, n, member, n', l, s);
      }
    }
    forall s: nat | s < n'
      ensures ReferredBefore(more, s, |more|, 0)
    {
      AllReferred(members, n, member, n', s);
    }
  }

  /** Building a stage opens slots in the order of their first references, one for each class. */
  lemma {:induction false} BuiltInOrder(g: EngineGraph, part: seq<nat>, ops: seq<nat>, k: nat)
    requires WellFormed(g) && |part| == |g.nodes| && AllBelow(ops, |part|) && k <= |ops|
    ensures var (members, slots) := BuildTo(g, part, ops, k); NoDuplicates(slots) && FirstSeenOrder(members, |slots|)
  {
    if k > 0 {
      BuiltInOrder(g, part, ops, k - 1);
      var (members, slots) := BuildTo(g, part, ops, k - 1);
      var n := CellsOf(g)[ops[k - 1]];
      assert AllBelow(n.inputs, |part|);
      RefsToPrefix(part, ops, slots, n.inputs, |n.inputs|);
      RefsToInOrder(part, ops, slots, n.inputs, |n.inputs|);
      var (refs, slots') := RefsTo(part, ops, slots, n.inputs, |n.inputs|);
      FirstSeenSnoc(members, |slots|, StageOp(n.sym, refs), |slots'|);
    }
  }

  // ---- which classes have a slot ----

  /** Exactly the classes of the inputs from outside have a slot. */
  lemma SlotsAreOutside(g: EngineGraph, part: seq<nat>, ops: seq<nat>, c: nat)
    requires WellFormed(g) && |part| == |g.nodes| && AllBelow(ops, |part|)
    ensures c in BuildTo(g, part, ops, |ops|).1 <==> ExternalClass(g, part, ops, c)
  {
    BuildToMeans(g, part, ops, |ops|);
    var (members, slots) := BuildTo(g, part, ops, |ops|);
    if c in slots {
      var s :| 0 <= s < |slots| && slots[s] == c;
    }
    if ExternalClass(g, part, ops, c) {
      var i: nat, x: nat :| i in ops && i < |g.nodes| && x in g.nodes[i].inputs && x < |part| && x !in ops && part[x] == c;
      var j :| 0 <= j < |ops| && ops[j] == i;
      assert MemberMeans(g, part, ops, slots, members[j], i);
      var l :| 0 <= l < |g.nodes[i].inputs| && g.nodes[i].inputs[l] == x;
      assert RefMeans(part, ops, slots, members[j].refs[l], x);
    }
  }

  /** Reduced node `p` holds a class that an op of `h`'s class takes an input from. */
  ghost predicate TakesFrom(g: EngineGraph, part: seq<nat>, h: nat, p: nat)
    requires |part| == |g.nodes| && h < |part|
  {
    exists i: nat, x: nat ::
      i < |part| && x < |part| && x in g.nodes[i].inputs && part[i] == part[h] && part[x] != part[h] && ReducedIndex(part)[x] == p
  }

  /** Classes share a place in the reduced list only with themselves. */
  lemma ReducedIndexSame(part: seq<nat>, x: nat, y: nat)
    requires x < |part| && y < |part|
    ensures ReducedIndex(part)[x] == ReducedIndex(part)[y] <==> part[x] == part[y]
  {
    LastOfUnique(part, x, y);
    if ReducedIndex(part)[x] == ReducedIndex(part)[y] {
      RankInjective(LastMask(part), LastOf(part, x), LastOf(part, y));
    }
  }

  lemma TakenIsSlot(g: EngineGraph, part: seq<nat>, h: nat, p: nat)
    requires WellFormed(g) && |part| == |g.nodes| && Named(part) && h < |part|
    ensures p in StageOf(g, part, h).ins <==> TakesFrom(g, part, h, p)
  {
    var ops := Members(part, part[h]);
    SlotsBelow(g, part, ops);
    var slots := BuildTo(g, part, ops, |ops|).1;
    var ins := StageOf(g, part, h).ins;
    if p in ins {
      var s :| 0 <= s < |ins| && ins[s] == p;
      SlotsAreOutside(g, part, ops, slots[s]);
      var i: nat, x: nat :|
        i in ops && i < |g.nodes| && x in g.nodes[i].inputs && x < |part| && x !in ops && part[x] == slots[s];
      MembersExact(part, part[h], i);
      MembersExact(part, part[h], x);
      ReducedIndexOfClass(part, x);
    }
    if TakesFrom(g, part, h, p) {
      var i: nat, x: nat :|
        i < |part| && x < |part| && x in g.nodes[i].inputs && part[i] == part[h] && part[x] != part[h] && ReducedIndex(part)[x] == p;
      MembersExact(part, part[h], i);
      MembersExact(part, part[h], x);
      assert ExternalClass(g, part, ops, part[x]);
      SlotsAreOutside(g, part, ops, part[x]);
      var s :| 0 <= s < |slots| && slots[s] == part[x];
      ReducedIndexOfClass(part, x);
      assert ins[s] == p;
    }
  }

  /** A stage has one input for each class its ops take a value from, and its inputs are numbered in the
      order in which its members, argument by argument, first refer to them. */
  lemma StageInputsExact(g: EngineGraph, part: seq<nat>, h: nat)
    requires WellFormed(g) && |part| == |g.nodes| && Named(part) && h < |part|
    ensures var stage := StageOf(g, part, h);
      && NoDuplicates(stage.ins)
      && (forall p: nat :: p in stage.ins <==> TakesFrom(g, part, h, p))
      && FirstSeenOrder(stage.members, |stage.ins|)
  {
    var ops := Members(part, part[h]);
    BuiltInOrder(g, part, ops, |ops|);
    SlotsBelow(g, part, ops);
    var (members, slots) := BuildTo(g, part, ops, |ops|);
    var ins := StageOf(g, part, h).ins;
    forall s, t | 0 <= s < t < |ins|
      ensures ins[s] != ins[t]
    {
      ReducedIndexSame(part, slots[s], slots[t]);
      SlotsAreOutside(g, part, ops, slots[s]);
      SlotsAreOutside(g, part, ops, slots[t]);
      OutsideNamed(g, part, ops, slots[s]);
      OutsideNamed(g, part, ops, slots[t]);
    }
    forall p: nat
      ensures p in ins <==> TakesFrom(g, part, h, p)
    {
      TakenIsSlot(g, part, h, p);
    }
  }

  lemma OutsideNamed(g: EngineGraph, part: seq<nat>, ops: seq<nat>, c: nat)
    requires |part| == |g.nodes| && Named(part) && ExternalClass(g, part, ops, c)
    ensures c < |part| && part[c] == c
  {
  }

  /** Every stage of the reduced graph is of this form. */
  lemma ReducedStageInputs(g: EngineGraph, part: seq<nat>, templates: map<string, NodeKey>, p: nat) returns (h: nat)
    requires Fusable(g, part, templates) && p < |FusedNodes(g, part, templates)| && FusedNodes(g, part, templates)[p].Stage?
    ensures h < |part| && IsLast(part, h) && ReducedIndex(part)[h] == p
    ensures var stage := FusedNodes(g, part, templates)[p];
      && NoDuplicates(stage.ins)
      && (forall q: nat :: q in stage.ins <==> TakesFrom(g, part, h, q))
      && FirstSeenOrder(stage.members, |stage.ins|)
  {
    h := StageMembers(g, part, templates, p);
    FusedAt(g, part, templates, h);
    StageInputsExact(g, part, h);
  }
}
