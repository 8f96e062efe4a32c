/** When fusing one graph listed in two orders gives the same reduced nodes. */
module FusionOrder {
  import opened Selection
  import opened Terms
  import opened Engine
  import opened Listings
  import opened Fusion
  import opened Stages
  import opened StageFusion
  import opened Reordering

  // ---- what has to agree ----

  /** No op has its operands the other way round. */
  ghost predicate ExactOperands(g: EngineGraph, f: seq<nat>, g': EngineGraph)
    requires |f| == |g.nodes|
  {
    forall p {:trigger f[p]} :: 0 <= p < |f| ==> OperandsMoved(f, g.nodes[p], g', f[p])
  }

  ghost predicate OperandsMoved(f: seq<nat>, node: EngineNode, g': EngineGraph, q: nat) {
    AllBelow(node.inputs, |f|) && q < |g'.nodes| && g'.nodes[q].inputs == Renumber(f, node.inputs)
  }

  /** Two nodes whose order shows in the reduced graph: members of one class, or last members of theirs. */
  ghost predicate OrderShows(part: seq<nat>, p: nat, q: nat)
    requires p < |part| && q < |part|
  {
    part[p] == part[q] || (IsLast(part, p) && IsLast(part, q))
  }

  ghost predicate ShownOrder(part: seq<nat>, f: seq<nat>)
    requires |part| == |f|
  {
    forall p, q :: 0 <= p < |f| && 0 <= q < |f| && OrderShows(part, p, q) ==> (p < q <==> f[p] < f[q])
  }

  // ---- agreeing orders fuse alike ----

  ghost function Identity(n: nat): (r: seq<nat>)
    ensures |r| == n && forall i {:trigger r[i]} :: 0 <= i < n ==> r[i] == i
  {
    seq(n, i => i)
  }

  lemma LastMoved(part: seq<nat>, f: seq<nat>, part': seq<nat>, p: nat)
    requires PartsMatch(part, f, part') && p < |f|
    ensures IsLast(part', f[p]) <==> IsLast(part, p)
  {
    LastOfUnique(part, p, p);
    LastOfUnique(part', f[p], f[p]);
    assert LastOf(part', f[p]) == f[LastOf(part, p)];
  }

  lemma RanksInOrder(part: seq<nat>)
    ensures InOrder(LastMask(part), Identity(|part|), Ranks(LastMask(part)), Rank(LastMask(part), |part|))
  {
    var mask := LastMask(part);
    forall i | 0 <= i < |part| && mask[i]
      ensures Ranks(mask)[i] < Rank(mask, |part|)
    {
      RankMonotone(mask, i, |part|);
    }
    forall i, j | 0 <= i < |part| && 0 <= j < |part| && mask[i] && mask[j]
      ensures Ranks(mask)[i] < Ranks(mask)[j] <==> i < j
    {
      RankOrder(mask, i, j);
    }
    forall p: nat | p < Rank(mask, |part|)
      ensures Taken(mask, Ranks(mask), p)
    {
      var i := Origin(mask, p);
      assert Ranks(mask)[i] == p;
    }
  }

  lemma MovedPlace(part: seq<nat>, f: seq<nat>, part': seq<nat>, p: nat)
    requires PartsMatch(part, f, part') && p < Rank(LastMask(part'), |part'|)
    ensures Taken(LastMask(part), Renumber(Ranks(LastMask(part')), f), p)
  {
    var e := Origin(LastMask(part'), p);
    assert e in f;
    var i :| 0 <= i < |f| && f[i] == e;
    LastMoved(part, f, part', i);
    assert Renumber(Ranks(LastMask(part')), f)[i] == p;
  }

  lemma MovedRanksInOrder(part: seq<nat>, f: seq<nat>, part': seq<nat>)
    requires PartsMatch(part, f, part')
    ensures InOrder(LastMask(part), f, Renumber(Ranks(LastMask(part')), f), Rank(LastMask(part'), |part'|))
  {
    var mask, mask', place := LastMask(part), LastMask(part'), Renumber(Ranks(LastMask(part')), f);
    forall i | 0 <= i < |f| && mask[i]
      ensures mask'[f[i]] && place[i] < Rank(mask', |part'|)
    {
      LastMoved(part, f, part', i);
      RankMonotone(mask', f[i], |part'|);
    }
    forall i, j | 0 <= i < |f| && 0 <= j < |f| && mask[i] && mask[j]
      ensures place[i] < place[j] <==> f[i] < f[j]
    {
      RankOrder(mask', f[i], f[j]);
    }
    forall p: nat | p < Rank(mask', |part'|)
      ensures Taken(mask, place, p)
    {
      MovedPlace(part, f, part', p);
    }
  }

  lemma SameRank(part: seq<nat>, f: seq<nat>, part': seq<nat>, h: nat)
    requires PartsMatch(part, f, part') && ShownOrder(part, f) && h < |f| && IsLast(part, h)
    ensures Rank(LastMask(part'), f[h]) == Rank(LastMask(part), h)
  {
    var mask, place, place' := LastMask(part), Ranks(LastMask(part)), Renumber(Ranks(LastMask(part')), f);
    RanksInOrder(part);
    MovedRanksInOrder(part, f, part');
    SameLastOrder(part, f);
    OrderGivesPlaces(mask, Identity(|part|), place, Rank(mask, |part|), f, place', Rank(LastMask(part'), |part'|), h);
  }

  lemma SameLastOrder(part: seq<nat>, f: seq<nat>)
    requires |part| == |f| && ShownOrder(part, f)
    ensures SameOrder(LastMask(part), Identity(|part|), f) && SameOrder(LastMask(part), f, Identity(|part|))
  {
    var mask := LastMask(part);
    forall i, j | 0 <= i < |f| && 0 <= j < |f| && mask[i] && mask[j]
      ensures i < j <==> f[i] < f[j]
    {
      assert OrderShows(part, i, j);
    }
  }

  lemma SameLength(part: seq<nat>, f: seq<nat>, part': seq<nat>)
    requires PartsMatch(part, f, part') && ShownOrder(part, f)
    ensures Rank(LastMask(part), |part|) == Rank(LastMask(part'), |part'|)
  {
    var mask, place, place' := LastMask(part), Ranks(LastMask(part)), Renumber(Ranks(LastMask(part')), f);
    var n, n' := Rank(mask, |part|), Rank(LastMask(part'), |part'|);
    RanksInOrder(part);
    MovedRanksInOrder(part, f, part');
    SameLastOrder(part, f);
    OrderGivesLength(mask, Identity(|part|), place, n, f, place', n');
    OrderGivesLength(mask, f, place', n', Identity(|part|), place, n);
  }

  /** Every class lands at one place. */
  lemma SameReducedIndex(part: seq<nat>, f: seq<nat>, part': seq<nat>, p: nat)
    requires PartsMatch(part, f, part') && ShownOrder(part, f) && p < |f|
    ensures ReducedIndex(part')[f[p]] == ReducedIndex(part)[p]
  {
    var h := LastOf(part, p);
    assert LastOf(part', f[p]) == f[h];
    SameRank(part, f, part', h);
  }

  lemma SameMembers(part: seq<nat>, f: seq<nat>, part': seq<nat>, h: nat)
    requires PartsMatch(part, f, part') && ShownOrder(part, f) && h < |f|
    ensures AllBelow(Members(part, part[h]), |f|)
    ensures Members(part', part'[f[h]]) == Renumber(f, Members(part, part[h]))
  {
    var ops, ops' := Members(part, part[h]), Members(part', part'[f[h]]);
    var moved := Renumber(f, ops);
    forall j, k | 0 <= j < k < |moved|
      ensures moved[j] < moved[k]
    {
      assert OrderShows(part, ops[j], ops[k]);
    }
    forall c
      ensures c in moved <==> c in ops'
    {
      if c in moved {
        var j :| 0 <= j < |moved| && moved[j] == c;
        MembersExact(part', part'[f[h]], f[ops[j]]);
      }
      if c in ops' {
        assert c in f;
        var q :| 0 <= q < |f| && f[q] == c;
        MembersExact(part, part[h], q);
        RenumberMember(f, ops, q);
      }
    }
    AscendingUnique(Identity(|part'|), moved, ops');
  }

  /** Slots name the same classes. */
  ghost predicate SlotsMatch(part: seq<nat>, f: seq<nat>, part': seq<nat>, slots: seq<nat>, slots': seq<nat>)
    requires |part| == |f| == |part'|
  {
    |slots| == |slots'| && forall s :: 0 <= s < |slots| ==> SlotMatches(part, f, part', slots[s], slots'[s])
  }

  ghost predicate SlotMatches(part: seq<nat>, f: seq<nat>, part': seq<nat>, c: nat, c': nat)
    requires |part| == |f| == |part'|
  {
    exists x {:trigger f[x]} :: 0 <= x < |f| && f[x] < |f| && part[x] == c && part'[f[x]] == c'
  }

  lemma {:induction false} SameIndex(a: seq<nat>, b: seq<nat>, x: nat, y: nat)
    requires |a| == |b| && forall s :: 0 <= s < |a| ==> (a[s] == x <==> b[s] == y)
    ensures x in a <==> y in b
    ensures x in a ==> IndexOf(a, x) == IndexOf(b, y)
  {
    if a != [] && a[0] != x {
      SameIndex(a[1..], b[1..], x, y);
      assert a == [a[0]] + a[1..] && b == [b[0]] + b[1..];
    }
  }

  lemma RefMoved(part: seq<nat>, f: seq<nat>, part': seq<nat>, ops: seq<nat>, slots: seq<nat>, slots': seq<nat>, x: nat)
    requires PartsMatch(part, f, part') && AllBelow(ops, |f|) && x < |f| && SlotsMatch(part, f, part', slots, slots')
    ensures RefTo(part, ops, slots, x).0 == RefTo(part', Renumber(f, ops), slots', f[x]).0
    ensures SlotsMatch(part, f, part', RefTo(part, ops, slots, x).1, RefTo(part', Renumber(f, ops), slots', f[x]).1)
  {
    var ops' := Renumber(f, ops);
    SameIndex(ops, ops', x, f[x]);
    forall s | 0 <= s < |slots|
      ensures slots[s] == part[x] <==> slots'[s] == part'[f[x]]
    {
      assert SlotMatches(part, f, part', slots[s], slots'[s]);
    }
    SameIndex(slots, slots', part[x], part'[f[x]]);
    assert SlotMatches(part, f, part', part[x], part'[f[x]]);
  }

  lemma RefsSnoc(part: seq<nat>, ops: seq<nat>, slots: seq<nat>, xs: seq<nat>, m: nat)
    requires 0 < m <= |xs| && AllBelow(xs, |part|)
    ensures var before := RefsTo(part, ops, slots, xs, m - 1); var now := RefTo(part, ops, before.1, xs[m - 1]);
      RefsTo(part, ops, slots, xs, m) == (before.0 + [now.0], now.1)
  {
  }

  /** The same references, over slots that match. */
  ghost predicate BuiltAlike<T>(part: seq<nat>, f: seq<nat>, part': seq<nat>, a: (T, seq<nat>), b: (T, seq<nat>))
    requires |part| == |f| == |part'|
  {
    a.0 == b.0 && SlotsMatch(part, f, part', a.1, b.1)
  }

  lemma NextRefMoved(part: seq<nat>, f: seq<nat>, part': seq<nat>, ops: seq<nat>,
                     slots: seq<nat>, slots': seq<nat>, xs: seq<nat>, ys: seq<nat>, m: nat)
    requires PartsMatch(part, f, part') && AllBelow(ops, |f|) && AllBelow(xs, |f|) && m < |xs| && ys == Renumber(f, xs)
    requires BuiltAlike(part, f, part', RefsTo(part, ops, slots, xs, m), RefsTo(part', Renumber(f, ops), slots', ys, m))
    ensures BuiltAlike(part, f, part', RefsTo(part, ops, slots, xs, m + 1), RefsTo(part', Renumber(f, ops), slots', ys, m + 1))
  {
    var after, after' := RefsTo(part, ops, slots, xs, m).1, RefsTo(part', Renumber(f, ops), slots', ys, m).1;
    RefMoved(part, f, part', ops, after, after', xs[m]);
    RefsSnoc(part, ops, slots, xs, m + 1);
    RefsSnoc(part', Renumber(f, ops), slots', ys, m + 1);
  }

  lemma {:induction false} RefsMoved(part: seq<nat>, f: seq<nat>, part': seq<nat>, ops: seq<nat>,
                                     slots: seq<nat>, slots': seq<nat>, xs: seq<nat>, ys: seq<nat>, m: nat)
    requires PartsMatch(part, f, part') && AllBelow(ops, |f|) && AllBelow(xs, |f|) && m <= |xs| && ys == Renumber(f, xs)
    requires SlotsMatch(part, f, part', slots, slots')
    ensures BuiltAlike(part, f, part', RefsTo(part, ops, slots, xs, m), RefsTo(part', Renumber(f, ops), slots', ys, m))
  {
    if m > 0 {
      RefsMoved(part, f, part', ops, slots, slots', xs, ys, m - 1);
      NextRefMoved(part, f, part', ops, slots, slots', xs, ys, m - 1);
    }
  }

  lemma NextMemberMoved(g: EngineGraph, part: seq<nat>, f: seq<nat>, g': EngineGraph, part': seq<nat>, ops: seq<nat>, k: nat)
    requires Reorders(g, f, g') && ExactOperands(g, f, g') && PartsMatch(part, f, part')
    requires AllBelow(ops, |f|) && k < |ops|
    requires BuiltAlike(part, f, part', BuildTo(g, part, ops, k), BuildTo(g', part', Renumber(f, ops), k))
    ensures BuiltAlike(part, f, part', BuildTo(g, part, ops, k + 1), BuildTo(g', part', Renumber(f, ops), k + 1))
  {
    var i := ops[k];
    assert SameNode(f, g.nodes[i], g'.nodes[f[i]]) && OperandsMoved(f, g.nodes[i], g', f[i]);
    RefsMoved(part, f, part', ops, BuildTo(g, part, ops, k).1, BuildTo(g', part', Renumber(f, ops), k).1,
              g.nodes[i].inputs, g'.nodes[f[i]].inputs, |g.nodes[i].inputs|);
  }

  /** The members of a stage are built alike. */
  lemma {:induction false} BuildMoved(g: EngineGraph, part: seq<nat>, f: seq<nat>, g': EngineGraph, part': seq<nat>,
                                      ops: seq<nat>, k: nat)
    requires Reorders(g, f, g') && ExactOperands(g, f, g') && PartsMatch(part, f, part')
    requires AllBelow(ops, |f|) && k <= |ops|
    ensures BuiltAlike(part, f, part', BuildTo(g, part, ops, k), BuildTo(g', part', Renumber(f, ops), k))
  {
    if k > 0 {
      BuildMoved(g, part, f, g', part', ops, k - 1);
      NextMemberMoved(g, part, f, g', part', ops, k - 1);
    }
  }

  lemma SlotsLandAlike(part: seq<nat>, f: seq<nat>, part': seq<nat>, slots: seq<nat>, slots': seq<nat>)
    requires PartsMatch(part, f, part') && ShownOrder(part, f) && Named(part) && Named(part')
    requires AllBelow(slots, |part|) && AllBelow(slots', |part'|) && SlotsMatch(part, f, part', slots, slots')
    ensures StageInputs(part, slots) == StageInputs(part', slots')
  {
    forall s | 0 <= s < |slots|
      ensures StageInputs(part, slots)[s] == StageInputs(part', slots')[s]
    {
      assert SlotMatches(part, f, part', slots[s], slots'[s]);
      var x :| 0 <= x < |f| && part[x] == slots[s] && part'[f[x]] == slots'[s];
      ReducedIndexOfClass(part, x);
      ReducedIndexOfClass(part', f[x]);
      SameReducedIndex(part, f, part', x);
    }
  }

  lemma StageMoved(g: EngineGraph, part: seq<nat>, f: seq<nat>, g': EngineGraph, part': seq<nat>, h: nat)
    requires Reorders(g, f, g') && ExactOperands(g, f, g') && PartsMatch(part, f, part') && ShownOrder(part, f)
    requires Named(part) && Named(part') && h < |f|
    ensures StageOf(g, part, h) == StageOf(g', part', f[h])
  {
    var ops := Members(part, part[h]);
    SameMembers(part, f, part', h);
    BuildMoved(g, part, f, g', part', ops, |ops|);
    SlotsBelow(g, part, ops);
    SlotsBelow(g', part', Renumber(f, ops));
    SlotsLandAlike(part, f, part', BuildTo(g, part, ops, |ops|).1, BuildTo(g', part', Renumber(f, ops), |ops|).1);
  }
}
