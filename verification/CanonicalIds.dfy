/** Which recorded nodes get one canonical id, operator by operator: a unit gets the id of its input, and
two other nodes share one exactly when they are the same operator over inputs with the same ids, in the
same order or, for the eight commuting operators alone, in the other one. */
module CanonicalIds {
  import opened Selection
  import opened Cells
  import opened Node
  import opened Arena
  import opened Operators
  import opened Interning
  import opened LocalCanon
  import opened Incremental

  /** Two argument lists of an operator with the same ids, or two arguments of a commuting one exchanged. */
  ghost predicate SameArguments(f: seq<nat>, head: NodeKey, xs: seq<nat>, ys: seq<nat>)
    requires AllBelow(xs, |f|) && AllBelow(ys, |f|)
  {
    || Renumber(f, xs) == Renumber(f, ys)
    || (IsCommuting(head) && |xs| == |ys| == 2 && f[xs[0]] == f[ys[1]] && f[xs[1]] == f[ys[0]])
  }

  /** The place of a node that is no unit: its cell over the ids of its inputs, as it is or exchanged. */
  ghost predicate CellAt(canon: seq<NodeKey>, cell: Cell<NodeKey>, p: nat) {
    p < |canon| && (HeadCells(canon)[p] == cell || IsSwap(HeadTheory(), cell, HeadCells(canon)[p]))
  }

  ghost function IdCell(f: seq<nat>, k: NodeKey): Cell<NodeKey>
    requires AllBelow(k.Inputs(), |f|)
  {
    Cell(k.Head(), Renumber(f, k.Inputs()))
  }

  lemma RunShape(nodes: seq<NodeKey>, st: State, i: nat)
    requires Consumed(nodes, st) && i < |nodes|
    ensures |st.mapping| == |nodes| && AllBelow(st.mapping, |st.canonNodes|) && AllBelow(nodes[i].Inputs(), i)
    ensures AllBelow(nodes[i].Inputs(), |st.mapping|)
    ensures Canonical(HeadTheory(), HeadCells(st.canonNodes))
  {
    RunKeepsInv(nodes, st);
  }

  lemma PlacedAt(nodes: seq<NodeKey>, st: State, i: nat)
    requires Consumed(nodes, st) && i < |nodes| && !IsUnit(nodes[i].Head())
    ensures |st.mapping| == |nodes| && AllBelow(nodes[i].Inputs(), |st.mapping|)
    ensures CellAt(st.canonNodes, IdCell(st.mapping, nodes[i]), st.mapping[i])
    ensures !HeadTheory().identity(nodes[i].Head())
  {
    RunShape(nodes, st, i);
    RunKeepsInv(nodes, st);
    RulesAreLaws(nodes[i]);
    assert HeadCells(nodes)[i] == HeadCell(nodes[i]);
    assert LandsOn(HeadTheory(), HeadCells(nodes), HeadCells(st.canonNodes), st.mapping, i);
  }

  /** A canonical arena holds a cell, in either order, at one place. */
  lemma OnePlace(canon: seq<NodeKey>, cell: Cell<NodeKey>, p: nat, q: nat)
    requires Canonical(HeadTheory(), HeadCells(canon)) && AllBelow(cell.inputs, |canon|) && !HeadTheory().identity(cell.sym)
    requires CellAt(canon, cell, p) && CellAt(canon, cell, q)
    ensures p == q
  {
    SwapForm(HeadTheory(), HeadCells(canon), cell, p);
    SwapForm(HeadTheory(), HeadCells(canon), cell, q);
    FormInjective(HeadTheory(), HeadCells(canon), p, q);
  }

  lemma Exchanged(f: seq<nat>, xs: seq<nat>, ys: seq<nat>)
    requires AllBelow(xs, |f|) && AllBelow(ys, |f|) && |xs| == |ys| == 2
    ensures f[xs[0]] == f[ys[1]] && f[xs[1]] == f[ys[0]]
      <==> Renumber(f, ys) == [Renumber(f, xs)[1], Renumber(f, xs)[0]]
  {
  }

  lemma CellsAlike(f: seq<nat>, a: NodeKey, b: NodeKey)
    requires AllBelow(a.Inputs(), |f|) && AllBelow(b.Inputs(), |f|) && a.Head() == b.Head()
    ensures SameArguments(f, a.Head(), a.Inputs(), b.Inputs())
      <==> IdCell(f, a) == IdCell(f, b) || IsSwap(HeadTheory(), IdCell(f, a), IdCell(f, b))
  {
    RulesAreLaws(a);
    if |a.Inputs()| == |b.Inputs()| == 2 {
      Exchanged(f, a.Inputs(), b.Inputs());
    }
  }

  /** Two cells at one place have one operator, and are equal or exchanged. */
  lemma AtOnePlace(canon: seq<NodeKey>, a: Cell<NodeKey>, b: Cell<NodeKey>, p: nat)
    requires CellAt(canon, a, p) && CellAt(canon, b, p)
    ensures a.sym == b.sym && (a == b || IsSwap(HeadTheory(), a, b))
  {
  }

  lemma SwapAt(canon: seq<NodeKey>, a: Cell<NodeKey>, b: Cell<NodeKey>, p: nat)
    requires CellAt(canon, b, p) && (a == b || IsSwap(HeadTheory(), a, b))
    ensures CellAt(canon, a, p)
  {
    if a != b {
      assert a.inputs == [a.inputs[0], a.inputs[1]];
    }
  }

  /** Two nodes that are no units share a canonical id exactly when they are one operator over inputs with
      the same ids, in the same order or, if it is one of the eight, in the other. */
  lemma IdsDecided(nodes: seq<NodeKey>, st: State, i: nat, j: nat)
    requires Consumed(nodes, st) && i < |nodes| && j < |nodes|
    requires !IsUnit(nodes[i].Head()) && !IsUnit(nodes[j].Head())
    ensures |st.mapping| == |nodes|
    ensures AllBelow(nodes[i].Inputs(), |st.mapping|) && AllBelow(nodes[j].Inputs(), |st.mapping|)
    ensures st.mapping[i] == st.mapping[j]
      <==> nodes[i].Head() == nodes[j].Head() && SameArguments(st.mapping, nodes[i].Head(), nodes[i].Inputs(), nodes[j].Inputs())
  {
    RunShape(nodes, st, i);
    PlacedAt(nodes, st, i);
    PlacedAt(nodes, st, j);
    var a, b := IdCell(st.mapping, nodes[i]), IdCell(st.mapping, nodes[j]);
    if st.mapping[i] == st.mapping[j] {
      AtOnePlace(st.canonNodes, a, b, st.mapping[i]);
      CellsAlike(st.mapping, nodes[i], nodes[j]);
    }
    if nodes[i].Head() == nodes[j].Head() && SameArguments(st.mapping, nodes[i].Head(), nodes[i].Inputs(), nodes[j].Inputs()) {
      CellsAlike(st.mapping, nodes[i], nodes[j]);
      SwapAt(st.canonNodes, a, b, st.mapping[j]);
      OnePlace(st.canonNodes, a, st.mapping[i], st.mapping[j]);
    }
  }

  /** A node's id is that of its first input exactly when its operator is one of the four units. */
  lemma UnitIds(nodes: seq<NodeKey>, st: State, i: nat)
    requires Consumed(nodes, st) && i < |nodes|
    ensures |st.mapping| == |nodes| && AllBelow(nodes[i].Inputs(), i)
    ensures IsUnit(nodes[i].Head()) ==> nodes[i].Inputs() != []
    ensures nodes[i].Inputs() != [] ==> (st.mapping[i] == st.mapping[nodes[i].Inputs()[0]] <==> IsUnit(nodes[i].Head()))
  {
    RunShape(nodes, st, i);
    RunKeepsInv(nodes, st);
    if IsUnit(nodes[i].Head()) {
      RulesAreLaws(nodes[i]);
      assert HeadCells(nodes)[i] == HeadCell(nodes[i]);
      assert FollowsInput(HeadCells(nodes), st.mapping, i);
    } else if nodes[i].Inputs() != [] {
      PlacedAt(nodes, st, i);
      var p, x := st.mapping[i], st.mapping[nodes[i].Inputs()[0]];
      var cell := HeadCells(st.canonNodes)[p];
      assert Renumber(st.mapping, nodes[i].Inputs())[0] == x;
      assert x in cell.inputs;
      assert AllBelow(cell.inputs, p);
    }
  }

  lemma InputsOfPair(name: string, a: nat, b: nat, n: nat)
    requires AllBelow(Op(name, [], [a, b]).Inputs(), n)
    ensures a < n && b < n
  {
    assert Op(name, [], [a, b]).Inputs()[0] == a && Op(name, [], [a, b]).Inputs()[1] == b;
  }

  lemma EitherOrder(f: seq<nat>, head: NodeKey, a: nat, b: nat)
    requires a < |f| && b < |f| && AllBelow([a, b], |f|) && AllBelow([b, a], |f|)
    ensures SameArguments(f, head, [a, b], [b, a]) <==> IsCommuting(head) || f[a] == f[b]
  {
    assert Renumber(f, [a, b]) == [f[a], f[b]] && Renumber(f, [b, a]) == [f[b], f[a]];
  }

  /** A bare operator recorded over `a, b` and over `b, a` gets one id exactly when it is one of the eight,
      or the inputs have one id themselves. */
  lemma TwoOrders(nodes: seq<NodeKey>, st: State, name: string, i: nat, j: nat, a: nat, b: nat)
    requires Consumed(nodes, st) && i < |nodes| && j < |nodes|
    requires nodes[i] == Op(name, [], [a, b]) && nodes[j] == Op(name, [], [b, a])
    ensures |st.mapping| == |nodes| && a < i && b < i
    ensures st.mapping[i] == st.mapping[j] <==> Commutes(name) || st.mapping[a] == st.mapping[b]
  {
    BareHead(name);
    RunShape(nodes, st, i);
    InputsOfPair(name, a, b, i);
    assert nodes[i].Head() == Op(name, [], []) == nodes[j].Head();
    IdsDecided(nodes, st, i, j);
    EitherOrder(st.mapping, Op(name, [], []), a, b);
  }

  /** For instance `x - y` and `y - x` keep two ids, and `x * y` and `y * x` share one. */
  lemma SubtractionApart(nodes: seq<NodeKey>, st: State, i: nat, j: nat, a: nat, b: nat)
    requires Consumed(nodes, st) && i < |nodes| && j < |nodes| && |st.mapping| == |nodes|
    requires a < |nodes| && b < |nodes| && st.mapping[a] != st.mapping[b]
    ensures nodes[i] == Op("sub", [], [a, b]) && nodes[j] == Op("sub", [], [b, a]) ==> st.mapping[i] != st.mapping[j]
    ensures nodes[i] == Op("mul", [], [a, b]) && nodes[j] == Op("mul", [], [b, a]) ==> st.mapping[i] == st.mapping[j]
  {
    if nodes[i] == Op("sub", [], [a, b]) && nodes[j] == Op("sub", [], [b, a]) {
      TwoOrders(nodes, st, "sub", i, j, a, b);
    }
    if nodes[i] == Op("mul", [], [a, b]) && nodes[j] == Op("mul", [], [b, a]) {
      TwoOrders(nodes, st, "mul", i, j, a, b);
    }
  }
}
