/** The stage-fusion pass itself: group the classes, order them by last member, emit one node each. */
module StageFusion {
  import opened Selection
  import opened Cells
  import opened Engine
  import opened Fusion
  import opened Node
  import opened Stages
  import opened FusedMeaning

  datatype ReductionReport = ReductionReport(
    inputNodes: nat, reachableNodes: nat, canonicalNodes: nat, stages: nat, reducedNodes: nat, boundaryNodes: nat)

  datatype Reduced = Reduced(nodes: seq<NodeKey>, outputs: seq<NodeId>, report: ReductionReport)

  // ---- grouping and ordering ----

  ghost predicate GroupsTo(part: seq<nat>, groups: map<nat, seq<nat>>, n: nat)
    requires n <= |part|
  {
    && (forall c :: c in groups <==> c in part[..n])
    && (forall c :: c in groups ==> groups[c] == MembersTo(part, c, n))
  }

  lemma {:induction false} NoMembers(part: seq<nat>, c: nat, n: nat)
    requires n <= |part| && c !in part[..n]
    ensures MembersTo(part, c, n) == []
  {
    if n > 0 {
      assert part[..n] == part[..n - 1] + [part[n - 1]];
      NoMembers(part, c, n - 1);
    }
  }

  function Collected(groups: map<nat, seq<nat>>, c: nat, i: nat): map<nat, seq<nat>> {
    groups[c := (if c in groups then groups[c] else []) + [i]]
  }

  lemma NamesCollected(part: seq<nat>, groups: map<nat, seq<nat>>, i: nat)
    requires i < |part| && forall c :: c in groups <==> c in part[..i]
    ensures forall c :: c in Collected(groups, part[i], i) <==> c in part[..i + 1]
  {
    assert part[..i + 1] == part[..i] + [part[i]];
  }

  lemma MembersCollected(part: seq<nat>, groups: map<nat, seq<nat>>, i: nat)
    requires i < |part| && GroupsTo(part, groups, i)
    ensures GroupsTo(part, Collected(groups, part[i], i), i + 1)
  {
    var c := part[i];
    NamesCollected(part, groups, i);
    if c !in groups {
      NoMembers(part, c, i);
    }
    forall d | d in Collected(groups, c, i)
      ensures Collected(groups, c, i)[d] == MembersTo(part, d, i + 1)
    {
      assert d != c ==> d in groups && MembersTo(part, d, i + 1) == MembersTo(part, d, i) + [];
    }
  }

  method CollectMembers(part: seq<nat>) returns (groups: map<nat, seq<nat>>)
    ensures GroupsTo(part, groups, |part|)
  {
    groups := map[];
    for i := 0 to |part|
      invariant GroupsTo(part, groups, i)
    {
      MembersCollected(part, groups, i);
      groups := Collected(groups, part[i], i);
    }
  }

  function MaxOf(xs: seq<nat>): (m: nat)
    requires xs != []
    ensures m in xs && forall k :: 0 <= k < |xs| ==> xs[k] <= m
  {
    if |xs| == 1 then xs[0] else
      var m := MaxOf(xs[1..]);
      assert xs == [xs[0]] + xs[1..];
      if m < xs[0] then xs[0] else m
  }

  /** The largest member of a class is its last one. */
  lemma MaxIsLast(part: seq<nat>, c: nat)
    requires c < |part| && part[c] == c
    ensures Members(part, c) != [] && MaxOf(Members(part, c)) == LastOf(part, c)
  {
    var l := LastOf(part, c);
    MembersExact(part, c, l);
    var m := MaxOf(Members(part, c));
    var k :| 0 <= k < |Members(part, c)| && Members(part, c)[k] == l;
    assert part[m] == c;
  }

  /** The keys of a hash map, in whatever order it yields them. */
  method KeysInAnyOrder(groups: map<nat, seq<nat>>) returns (keys: seq<nat>)
    ensures forall c :: c in keys <==> c in groups
    ensures forall j, k :: 0 <= j < k < |keys| ==> keys[j] != keys[k]
  {
    keys := [];
    var left := groups.Keys;
    while left != {}
      invariant left <= groups.Keys
      invariant forall c :: c in keys <==> c in groups && c !in left
      invariant forall j, k :: 0 <= j < k < |keys| ==> keys[j] != keys[k]
      decreases left
    {
      var c :| c in left;
      assert c !in keys;
      left := left - {c};
      keys := keys + [c];
    }
  }

  /** The last member of the class of each position. */
  ghost function Lasts(part: seq<nat>): (r: seq<nat>)
    ensures |r| == |part|
    ensures forall i {:trigger r[i]} :: 0 <= i < |part| ==> r[i] == LastOf(part, i)
  {
    seq(|part|, i requires 0 <= i < |part| => LastOf(part, i))
  }

  ghost predicate HeadsAscend(lasts: seq<nat>, comps: seq<nat>) {
    AllBelow(comps, |lasts|) && forall j, k :: 0 <= j < k < |comps| ==> lasts[comps[j]] < lasts[comps[k]]
  }

  /** The largest member listed for a class is its last one. */
  lemma MaxOfGroup(part: seq<nat>, groups: map<nat, seq<nat>>, c: nat)
    requires GroupsTo(part, groups, |part|) && Named(part) && c in groups
    ensures c < |part| && groups[c] != [] && MaxOf(groups[c]) == Lasts(part)[c]
  {
    NamesAreMembers(part, groups);
    MaxIsLast(part, c);
  }

  lemma DifferentLasts(part: seq<nat>, groups: map<nat, seq<nat>>, c: nat, d: nat)
    requires GroupsTo(part, groups, |part|) && Named(part) && c in groups && d in groups && c != d
    ensures c < |part| && d < |part| && Lasts(part)[c] != Lasts(part)[d]
  {
    NamesAreMembers(part, groups);
    LastOfUnique(part, d, c);
  }

  /** Where a class goes: in front of every class with a larger last member. */
  method InsertionPoint(ghost part: seq<nat>, groups: map<nat, seq<nat>>, comps: seq<nat>, c: nat) returns (k: nat)
    requires GroupsTo(part, groups, |part|) && Named(part)
    requires c in groups && c !in comps && c < |part| && forall d :: d in comps ==> d in groups
    requires HeadsAscend(Lasts(part), comps)
    ensures k <= |comps|
    ensures forall j :: k <= j < |comps| ==> Lasts(part)[c] < Lasts(part)[comps[j]]
    ensures k > 0 ==> Lasts(part)[comps[k - 1]] < Lasts(part)[c]
  {
    ghost var lasts := Lasts(part);
    MaxOfGroup(part, groups, c);
    k := |comps|;
    while k > 0
      invariant 0 <= k <= |comps|
      invariant forall j :: k <= j < |comps| ==> lasts[c] < lasts[comps[j]]
    {
      var d := comps[k - 1];
      assert d in comps;
      MaxOfGroup(part, groups, d);
      if MaxOf(groups[d]) <= MaxOf(groups[c]) {
        DifferentLasts(part, groups, c, d);
        return;
      }
      k := k - 1;
    }
  }

  lemma InsertKeepsOrder(lasts: seq<nat>, comps: seq<nat>, c: nat, k: nat)
    requires HeadsAscend(lasts, comps) && c < |lasts| && k <= |comps|
    requires forall j :: k <= j < |comps| ==> lasts[c] < lasts[comps[j]]
    requires k > 0 ==> lasts[comps[k - 1]] < lasts[c]
    ensures HeadsAscend(lasts, comps[..k] + [c] + comps[k..])
    ensures forall d :: d in comps[..k] + [c] + comps[k..] <==> d in comps || d == c
  {
    var r := comps[..k] + [c] + comps[k..];
    forall i, j | 0 <= i < j < |r|
      ensures r[i] < |lasts| && r[j] < |lasts| && lasts[r[i]] < lasts[r[j]]
    {
      if j == k {
        assert r[i] == comps[i] && (i == k - 1 || lasts[comps[i]] < lasts[comps[k - 1]]);
      }
    }
    InsertMembers(comps, c, k);
  }

  lemma InsertMembers(comps: seq<nat>, c: nat, k: nat)
    requires k <= |comps|
    ensures forall d :: d in comps[..k] + [c] + comps[k..] <==> d in comps || d == c
  {
    assert comps == comps[..k] + comps[k..];
  }

  lemma NamesAreMembers(part: seq<nat>, groups: map<nat, seq<nat>>)
    requires GroupsTo(part, groups, |part|) && Named(part)
    ensures forall c :: c in groups ==> c < |part| && part[c] == c && groups[c] == Members(part, c) && groups[c] != []
  {
    forall c | c in groups
      ensures c < |part| && part[c] == c && groups[c] == Members(part, c) && groups[c] != []
    {
      var i :| 0 <= i < |part| && part[..|part|][i] == c;
      MembersExact(part, c, c);
    }
  }

  /** The names of the classes, ordered by last member. */
  ghost function OrderedNames(part: seq<nat>): seq<nat> {
    Select(part, LastMask(part))
  }

  lemma OrderedNamesAt(part: seq<nat>, p: nat)
    requires Named(part) && p < |OrderedNames(part)|
    ensures OrderedNames(part)[p] < |part|
    ensures LastOf(part, OrderedNames(part)[p]) == Origin(LastMask(part), p)
    ensures OrderedNames(part)[p] == part[Origin(LastMask(part), p)]
  {
    var h := Origin(LastMask(part), p);
    SelectOrigin(part, LastMask(part), p);
    LastOfUnique(part, part[h], h);
  }

  lemma OrderedNamesAscend(part: seq<nat>)
    requires Named(part)
    ensures HeadsAscend(Lasts(part), OrderedNames(part))
    ensures forall c :: c in OrderedNames(part) <==> c in part
  {
    var names, mask := OrderedNames(part), LastMask(part);
    forall p | 0 <= p < |names|
      ensures names[p] < |part| && names[p] in part
    {
      OrderedNamesAt(part, p);
    }
    forall p, q | 0 <= p < q < |names|
      ensures Lasts(part)[names[p]] < Lasts(part)[names[q]]
    {
      OrderedNamesAt(part, p);
      OrderedNamesAt(part, q);
      var h, h' := Origin(mask, p), Origin(mask, q);
      if h' <= h {
        RankMonotone(mask, h', h);
      }
    }
    forall c | c in part
      ensures c in names
    {
      var i :| 0 <= i < |part| && part[i] == c;
      var h := LastOf(part, i);
      SelectAt(part, mask, h);
    }
  }

  lemma HasMember(xs: seq<nat>)
    requires xs != []
    ensures exists c :: c in xs
  {
    assert xs[0] in xs;
  }

  /** One ascending arrangement of a set of classes is the only one. */
  lemma {:induction false} AscendingUnique(lasts: seq<nat>, a: seq<nat>, b: seq<nat>)
    requires HeadsAscend(lasts, a) && HeadsAscend(lasts, b)
    requires forall c :: c in a <==> c in b
    ensures a == b
  {
    if a == [] {
      if b != [] {
        HasMember(b);
      }
    } else {
      assert a[0] in a;
      var a', b' := a[..|a| - 1], b[..|b| - 1];
      SameLastElement(lasts, a, b);
      forall c
        ensures c in a' <==> c in b'
      {
        InitExcludesLast(lasts, a, c);
        InitExcludesLast(lasts, b, c);
      }
      AscendingUnique(lasts, a', b');
      assert a == a' + [a[|a| - 1]] && b == b' + [b[|b| - 1]];
    }
  }

  lemma LastIsLargest(lasts: seq<nat>, a: seq<nat>)
    requires HeadsAscend(lasts, a) && a != []
    ensures forall c {:trigger c in a} :: c in a ==> LastAtMost(lasts, c, a[|a| - 1])
  {
    forall c | c in a
      ensures LastAtMost(lasts, c, a[|a| - 1])
    {
      var k :| 0 <= k < |a| && a[k] == c;
    }
  }

  ghost predicate LastAtMost(lasts: seq<nat>, c: nat, d: nat) {
    c < |lasts| && d < |lasts| && (c == d || lasts[c] < lasts[d])
  }

  lemma SameLastElement(lasts: seq<nat>, a: seq<nat>, b: seq<nat>)
    requires HeadsAscend(lasts, a) && HeadsAscend(lasts, b) && a != [] && b != []
    requires forall c :: c in a <==> c in b
    ensures a[|a| - 1] == b[|b| - 1]
  {
    LastIsLargest(lasts, a);
    LastIsLargest(lasts, b);
    assert a[|a| - 1] in b && b[|b| - 1] in a;
    assert LastAtMost(lasts, a[|a| - 1], b[|b| - 1]) && LastAtMost(lasts, b[|b| - 1], a[|a| - 1]);
  }

  lemma InitExcludesLast(lasts: seq<nat>, a: seq<nat>, c: nat)
    requires HeadsAscend(lasts, a) && a != []
    ensures c in a[..|a| - 1] <==> c in a && c != a[|a| - 1]
  {
    var a' := a[..|a| - 1];
    assert a == a' + [a[|a| - 1]];
    assert forall k :: 0 <= k < |a'| ==> a'[k] == a[k] && lasts[a[k]] < lasts[a[|a| - 1]];
  }

  /** Sorting by last member gives one order, whatever order the hash map yielded its keys in. */
  method OrderComps(ghost part: seq<nat>, groups: map<nat, seq<nat>>) returns (comps: seq<nat>)
    requires GroupsTo(part, groups, |part|) && Named(part)
    ensures comps == OrderedNames(part)
  {
    var keys := KeysInAnyOrder(groups);
    comps := [];
    for k := 0 to |keys|
      invariant HeadsAscend(Lasts(part), comps)
      invariant forall c :: c in comps <==> c in keys[..k]
    {
      assert keys[..k + 1] == keys[..k] + [keys[k]];
      assert keys[k] !in keys[..k];
      assert forall d :: d in keys[..k] ==> d in keys;
      NamesAreMembers(part, groups);
      var at := InsertionPoint(part, groups, comps, keys[k]);
      InsertKeepsOrder(Lasts(part), comps, keys[k], at);
      comps := comps[..at] + [keys[k]] + comps[at..];
    }
    assert keys[..|keys|] == keys;
    OrderedNamesAscend(part);
    assert part[..|part|] == part;
    AscendingUnique(Lasts(part), comps, OrderedNames(part));
  }

  // ---- emitting one stage ----

  /** A table from elements to their positions. */
  ghost predicate IndexTable(table: map<nat, nat>, xs: seq<nat>) {
    && (forall x :: x in table <==> x in xs)
    && (forall x :: x in table ==> table[x] == IndexOf(xs, x))
  }

  lemma {:induction false} IndexOfAppend(xs: seq<nat>, c: nat, x: nat)
    requires x in xs + [c]
    ensures IndexOf(xs + [c], x) == if x in xs then IndexOf(xs, x) else |xs|
  {
    if xs != [] && xs[0] != x {
      assert (xs + [c])[1..] == xs[1..] + [c];
      IndexOfAppend(xs[1..], c, x);
    }
  }

  lemma IndexTableAppend(table: map<nat, nat>, xs: seq<nat>, c: nat)
    requires IndexTable(table, xs) && c !in xs
    ensures IndexTable(table[c := |xs|], xs + [c])
  {
    forall x | x in xs + [c]
      ensures table[c := |xs|][x] == IndexOf(xs + [c], x)
    {
      IndexOfAppend(xs, c, x);
    }
  }

  method TableOf(xs: seq<nat>) returns (table: map<nat, nat>)
    requires forall j, k :: 0 <= j < k < |xs| ==> xs[j] < xs[k]
    ensures IndexTable(table, xs)
  {
    table := map[];
    for k := 0 to |xs|
      invariant IndexTable(table, xs[..k])
    {
      assert xs[..k + 1] == xs[..k] + [xs[k]];
      assert xs[k] !in xs[..k];
      IndexTableAppend(table, xs[..k], xs[k]);
      table := table[xs[k] := k];
    }
    assert xs[..|xs|] == xs;
  }

  /** Turn an op's inputs into references, opening slots for classes not seen before. */
  method ResolveRefs(part: seq<nat>, ghost ops: seq<nat>, local: map<nat, nat>,
                     slots0: seq<nat>, slotOf0: map<nat, nat>, xs: seq<nat>)
    returns (refs: seq<StageRef>, slots: seq<nat>, slotOf: map<nat, nat>)
    requires AllBelow(xs, |part|)
    requires IndexTable(local, ops) && IndexTable(slotOf0, slots0)
    ensures (refs, slots) == RefsTo(part, ops, slots0, xs, |xs|) && IndexTable(slotOf, slots)
  {
    refs, slots, slotOf := [], slots0, slotOf0;
    for m := 0 to |xs|
      invariant (refs, slots) == RefsTo(part, ops, slots0, xs, m) && IndexTable(slotOf, slots)
    {
      var x := xs[m];
      if x in local {
        refs := refs + [Member(local[x])];
      } else {
        var c := part[x];
        if c !in slotOf {
          IndexTableAppend(slotOf, slots, c);
          slotOf := slotOf[c := |slots|];
          slots := slots + [c];
          IndexOfAppend(slots[..|slots| - 1], c, c);
        }
        refs := refs + [Input(slotOf[c])];
      }
    }
  }

  method BuildStage(g: EngineGraph, part: seq<nat>, ops: seq<nat>) returns (members: seq<StageOp>, slots: seq<nat>)
    requires WellFormed(g) && |part| == |g.nodes| && AllBelow(ops, |part|)
    requires forall j, k :: 0 <= j < k < |ops| ==> ops[j] < ops[k]
    ensures (members, slots) == BuildTo(g, part, ops, |ops|)
  {
    var local := TableOf(ops);
    var slotOf: map<nat, nat> := map[];
    members, slots := [], [];
    for k := 0 to |ops|
      invariant (members, slots) == BuildTo(g, part, ops, k) && IndexTable(slotOf, slots)
    {
      var n := g.nodes[ops[k]];
      assert CellsOf(g)[ops[k]] == Cell(n.token, n.inputs) && AllBelow(n.inputs, ops[k]);
      var refs;
      refs, slots, slotOf := ResolveRefs(part, ops, local, slots, slotOf, n.inputs);
      members := members + [StageOp(n.token, refs)];
    }
  }

  // ---- emitting everything ----

  /** The classes emitted so far, the first `p`, are looked up by name. */
  ghost predicate EmittedBefore(part: seq<nat>, compToReduced: map<nat, nat>, p: nat) {
    forall x {:trigger ReducedIndex(part)[x]} :: 0 <= x < |part| && ReducedIndex(part)[x] < p ==>
      part[x] in compToReduced && compToReduced[part[x]] == ReducedIndex(part)[x]
  }

  lemma EmittedStep(part: seq<nat>, compToReduced: map<nat, nat>, p: nat, h: nat)
    requires EmittedBefore(part, compToReduced, p)
    requires h < |part| && IsLast(part, h) && Rank(LastMask(part), h) == p
    ensures EmittedBefore(part, compToReduced[part[h] := p], p + 1)
  {
    LastOfUnique(part, h, h);
    forall x | 0 <= x < |part| && ReducedIndex(part)[x] < p + 1
      ensures part[x] == part[h] ==> ReducedIndex(part)[x] == p
      ensures part[x] != part[h] ==> ReducedIndex(part)[x] < p
    {
      LastOfUnique(part, x, h);
      if ReducedIndex(part)[x] == p {
        RankInjective(LastMask(part), LastOf(part, x), h);
      }
    }
  }

  /** Look up the reduced nodes of the given positions' classes. */
  method LookupAll(part: seq<nat>, compToReduced: map<nat, nat>, xs: seq<nat>, ghost p: nat) returns (ys: seq<nat>)
    requires AllBelow(xs, |part|) && EmittedBefore(part, compToReduced, p)
    requires forall k :: 0 <= k < |xs| ==> ReducedIndex(part)[xs[k]] < p
    ensures ys == Renumber(ReducedIndex(part), xs)
  {
    ghost var f := ReducedIndex(part);
    ys := [];
    for m := 0 to |xs|
      invariant |ys| == m && forall l {:trigger ys[l]} :: 0 <= l < m ==> ys[l] == f[xs[l]]
    {
      assert f[xs[m]] < p;
      ys := ys + [compToReduced[part[xs[m]]]];
    }
  }

  lemma BoundaryInputsEmitted(g: EngineGraph, part: seq<nat>, h: nat)
    requires WellFormed(g) && ValidPartition(g, part) && h < |part| && g.nodes[h].boundary
    ensures AllBelow(g.nodes[h].inputs, |part|)
    ensures forall k :: 0 <= k < |g.nodes[h].inputs| ==>
      ReducedIndex(part)[g.nodes[h].inputs[k]] < Rank(LastMask(part), h)
  {
    assert CellsOf(g)[h].inputs == g.nodes[h].inputs;
    forall k | 0 <= k < |g.nodes[h].inputs|
      ensures ReducedIndex(part)[g.nodes[h].inputs[k]] < Rank(LastMask(part), h)
    {
      assert g.nodes[h].inputs[k] in g.nodes[h].inputs;
      BoundaryInput(g, part, h, g.nodes[h].inputs[k]);
    }
  }

  /** The class an outside slot of a stage names is emitted already. */
  lemma SlotEmitted(g: EngineGraph, part: seq<nat>, compToReduced: map<nat, nat>, h: nat, slots: seq<nat>, s: nat)
    requires WellFormed(g) && ValidPartition(g, part) && Named(part) && h < |part| && IsLast(part, h)
    requires EmittedBefore(part, compToReduced, Rank(LastMask(part), h))
    requires slots == BuildTo(g, part, Members(part, part[h]), |Members(part, part[h])|).1 && s < |slots|
    ensures slots[s] < |part| && slots[s] in compToReduced && compToReduced[slots[s]] == ReducedIndex(part)[slots[s]]
  {
    var ops := Members(part, part[h]);
    BuildToMeans(g, part, ops, |ops|);
    assert ExternalClass(g, part, ops, slots[s]);
    var x := SlotInput(g, part, h, slots[s]);
    assert part[slots[s]] == slots[s];
  }

  ghost predicate Tabled(part: seq<nat>, compToReduced: map<nat, nat>, c: nat) {
    c < |part| && c in compToReduced && compToReduced[c] == ReducedIndex(part)[c]
  }

  method StageInputsOf(ghost part: seq<nat>, compToReduced: map<nat, nat>, slots: seq<nat>) returns (inputs: seq<nat>)
    requires AllBelow(slots, |part|) && forall s :: 0 <= s < |slots| ==> Tabled(part, compToReduced, slots[s])
    ensures inputs == StageInputs(part, slots)
  {
    ghost var f := ReducedIndex(part);
    inputs := [];
    for s := 0 to |slots|
      invariant |inputs| == s && forall l :: 0 <= l < s ==> inputs[l] == f[slots[l]]
    {
      assert Tabled(part, compToReduced, slots[s]);
      inputs := inputs + [compToReduced[slots[s]]];
    }
  }

  method EmitStage(g: EngineGraph, part: seq<nat>, compToReduced: map<nat, nat>, ops: seq<nat>, ghost h: nat)
    returns (k: NodeKey)
    requires WellFormed(g) && ValidPartition(g, part) && Named(part) && h < |part| && IsLast(part, h)
    requires ops == Members(part, part[h])
    requires EmittedBefore(part, compToReduced, Rank(LastMask(part), h))
    ensures k == StageOf(g, part, h)
  {
    var members, slots := BuildStage(g, part, ops);
    SlotsBelow(g, part, ops);
    forall s | 0 <= s < |slots|
      ensures Tabled(part, compToReduced, slots[s])
    {
      SlotEmitted(g, part, compToReduced, h, slots, s);
    }
    var inputs := StageInputsOf(part, compToReduced, slots);
    k := Stage(inputs, members);
  }

  /** The class emitted at place `p`: its name, its members and its last member. */
  lemma CompAt(g: EngineGraph, part: seq<nat>, templates: map<string, NodeKey>, groups: map<nat, seq<nat>>, p: nat)
      returns (h: nat)
    requires Emittable(g, part, templates) && GroupsTo(part, groups, |part|) && p < |OrderedNames(part)|
    ensures h < |part| && IsLast(part, h) && Rank(LastMask(part), h) == p && part[h] == OrderedNames(part)[p]
    ensures part[h] < |part| && part[h] in groups && groups[part[h]] == Members(part, part[h])
    ensures g.nodes[part[h]].boundary == g.nodes[h].boundary && (g.nodes[h].boundary ==> part[h] == h)
    ensures FusedNodes(g, part, templates)[p] == EmittedAt(g, part, templates, h)
  {
    h := Origin(LastMask(part), p);
    OrderedNamesAt(part, p);
    FusedAt(g, part, templates, h);
    assert part[part[h]] == part[h];
    assert part[..|part|][h] == part[h];
  }

  method EmitNode(g: EngineGraph, part: seq<nat>, templates: map<string, NodeKey>, groups: map<nat, seq<nat>>,
                  compToReduced: map<nat, nat>, c: nat, ghost h: nat) returns (k: NodeKey)
    requires Emittable(g, part, templates) && h < |part| && IsLast(part, h) && c == part[h] < |part|
    requires c in groups && groups[c] == Members(part, c)
    requires g.nodes[c].boundary == g.nodes[h].boundary && (g.nodes[h].boundary ==> c == h)
    requires EmittedBefore(part, compToReduced, Rank(LastMask(part), h))
    ensures k == EmittedAt(g, part, templates, h)
  {
    if g.nodes[c].boundary {
      BoundaryInputsEmitted(g, part, h);
      var inputs := LookupAll(part, compToReduced, g.nodes[c].inputs, Rank(LastMask(part), h));
      assert TemplateFits(templates, g.nodes[c].token, g.nodes[c].inputs);
      k := templates[g.nodes[c].token].WithInputs(inputs);
    } else {
      k := EmitStage(g, part, compToReduced, groups[c], h);
    }
  }

  /** Which classes are made of ops, in the order they are emitted. */
  ghost function OpClasses(g: EngineGraph, part: seq<nat>): (r: seq<bool>)
    requires |part| == |g.nodes|
    ensures |r| == Rank(LastMask(part), |part|)
  {
    Select(Flags(g), LastMask(part))
  }

  ghost function Flags(g: EngineGraph): (r: seq<bool>)
    ensures |r| == |g.nodes| && forall i {:trigger r[i]} :: 0 <= i < |r| ==> r[i] == !g.nodes[i].boundary
  {
    seq(|g.nodes|, i requires 0 <= i < |g.nodes| => !g.nodes[i].boundary)
  }

  lemma OpClassAt(g: EngineGraph, part: seq<nat>, h: nat)
    requires |part| == |g.nodes| && h < |part| && IsLast(part, h)
    ensures Rank(LastMask(part), h) < |OpClasses(g, part)|
    ensures OpClasses(g, part)[Rank(LastMask(part), h)] == !g.nodes[h].boundary
  {
    SelectAt(Flags(g), LastMask(part), h);
  }

  /** Counting as classes are emitted comes to the count over all positions. */
  lemma {:induction false} ClassesCounted(g: EngineGraph, part: seq<nat>, n: nat)
    requires |part| == |g.nodes| && n <= |part|
    ensures Rank(LastMask(part), n) <= |OpClasses(g, part)|
    ensures Rank(OpClasses(g, part), Rank(LastMask(part), n)) == Rank(StageMask(g, part), n)
  {
    RankMonotone(LastMask(part), n, |part|);
    if n > 0 {
      ClassesCounted(g, part, n - 1);
      if LastMask(part)[n - 1] {
        OpClassAt(g, part, n - 1);
      }
    }
  }

  lemma AllCounted(g: EngineGraph, part: seq<nat>)
    requires |part| == |g.nodes|
    ensures Rank(OpClasses(g, part), |OpClasses(g, part)|) == StageCount(g, part)
    ensures |OpClasses(g, part)| == StageCount(g, part) + BoundaryCount(g, part)
  {
    ClassesCounted(g, part, |part|);
    CountsAddUp(g, part, |part|);
  }

  /** The first classes are emitted, looked up by name and counted. */
  ghost predicate EmittedTo(part: seq<nat>, fused: seq<NodeKey>, ops: seq<bool>, reduced: seq<NodeKey>,
                            compToReduced: map<nat, nat>, stages: nat, boundaryNodes: nat) {
    && |reduced| <= |fused| == |ops| && reduced == fused[..|reduced|]
    && EmittedBefore(part, compToReduced, |reduced|)
    && stages == Rank(ops, |reduced|) && boundaryNodes == |reduced| - stages
  }

  lemma EmitsNext(part: seq<nat>, fused: seq<NodeKey>, ops: seq<bool>, reduced: seq<NodeKey>,
                  compToReduced: map<nat, nat>, stages: nat, boundaryNodes: nat, c: nat)
    requires EmittedTo(part, fused, ops, reduced, compToReduced, stages, boundaryNodes) && |reduced| < |fused|
    requires EmittedBefore(part, compToReduced[c := |reduced|], |reduced| + 1)
    ensures var p := |reduced|;
      EmittedTo(part, fused, ops, reduced + [fused[p]], compToReduced[c := p],
                stages + (if ops[p] then 1 else 0), boundaryNodes + if ops[p] then 0 else 1)
  {
    assert fused[..|reduced| + 1] == fused[..|reduced|] + [fused[|reduced|]];
  }

  /** The node of the class at place `p`. */
  method EmitNext(g: EngineGraph, part: seq<nat>, templates: map<string, NodeKey>, groups: map<nat, seq<nat>>,
                  compToReduced: map<nat, nat>, c: nat, ghost p: nat) returns (k: NodeKey)
    requires Emittable(g, part, templates) && GroupsTo(part, groups, |part|)
    requires p < |OrderedNames(part)| && c == OrderedNames(part)[p] && EmittedBefore(part, compToReduced, p)
    ensures p < |FusedNodes(g, part, templates)| && k == FusedNodes(g, part, templates)[p]
    ensures EmittedBefore(part, compToReduced[c := p], p + 1)
    ensures c < |g.nodes| && p < |OpClasses(g, part)| && g.nodes[c].boundary == !OpClasses(g, part)[p]
  {
    ghost var h := CompAt(g, part, templates, groups, p);
    OpClassAt(g, part, h);
    k := EmitNode(g, part, templates, groups, compToReduced, c, h);
    EmittedStep(part, compToReduced, p, h);
  }

  /** One reduced node per class, in the order of last members. */
  method EmitAll(g: EngineGraph, part: seq<nat>, templates: map<string, NodeKey>)
    returns (reduced: seq<NodeKey>, compToReduced: map<nat, nat>, stages: nat, boundaryNodes: nat)
    requires Emittable(g, part, templates)
    ensures reduced == FusedNodes(g, part, templates) && EmittedBefore(part, compToReduced, |reduced|)
    ensures stages == StageCount(g, part) && boundaryNodes == BoundaryCount(g, part)
  {
    var groups := CollectMembers(part);
    var comps := OrderComps(part, groups);
    ghost var fused, ops := FusedNodes(g, part, templates), OpClasses(g, part);
    reduced, compToReduced, stages, boundaryNodes := [], map[], 0, 0;
    for p := 0 to |comps|
      invariant |reduced| == p && EmittedTo(part, fused, ops, reduced, compToReduced, stages, boundaryNodes)
    {
      var k := EmitNext(g, part, templates, groups, compToReduced, comps[p], p);
      EmitsNext(part, fused, ops, reduced, compToReduced, stages, boundaryNodes, comps[p]);
      if g.nodes[comps[p]].boundary {
        boundaryNodes := boundaryNodes + 1;
      } else {
        stages := stages + 1;
      }
      reduced := reduced + [k];
      compToReduced := compToReduced[comps[p] := |reduced| - 1];
    }
    AllCounted(g, part);
  }

  lemma OutputsEmitted(g: EngineGraph, part: seq<nat>, templates: map<string, NodeKey>)
    requires Emittable(g, part, templates)
    ensures forall k :: 0 <= k < |g.outputs| ==> ReducedIndex(part)[g.outputs[k]] < |FusedNodes(g, part, templates)|
  {
    FusedRunnable(g, part, templates);
    forall k | 0 <= k < |g.outputs|
      ensures ReducedIndex(part)[g.outputs[k]] < |FusedNodes(g, part, templates)|
    {
      assert FusedOutputs(g, part)[k] == ReducedIndex(part)[g.outputs[k]];
    }
  }

  /** Stage fusion over the partition of the chosen mode. */
  method FuseStages(g: EngineGraph, templates: map<string, NodeKey>, mode: FusionMode) returns (r: Reduced)
    requires WellFormed(g) && TemplatesFit(g, templates)
    ensures Emittable(g, Partition(g, mode), templates)
    ensures r.nodes == FusedNodes(g, Partition(g, mode), templates)
    ensures r.outputs == FusedOutputs(g, Partition(g, mode))
    ensures var part := Partition(g, mode);
      r.report == ReductionReport(0, 0, 0, StageCount(g, part), |r.nodes|, BoundaryCount(g, part))
  {
    PartitionValid(g, mode);
    var part := Components(g, mode);
    var reduced, compToReduced, stages, boundaryNodes := EmitAll(g, part, templates);
    OutputsEmitted(g, part, templates);
    var outputs := LookupAll(part, compToReduced, g.outputs, |reduced|);
    r := Reduced(reduced, outputs, ReductionReport(0, 0, 0, stages, |reduced|, boundaryNodes));
  }
}
