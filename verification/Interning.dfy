/** Hash-consing: an arena of nodes and the table that finds a node by its structural key. */
module Interning {
  import opened Wrappers
  import opened Selection
  import opened Cells
  import opened Node
  import opened Arena

  type Interned = (NodeId, seq<NodeKey>, map<NodeKey, NodeId>)

  /** Hash-cons a key: its id, and the arena and table afterwards. */
  function Intern(nodes: seq<NodeKey>, table: map<NodeKey, NodeId>, k: NodeKey): Interned {
    if k.Canon() in table then (table[k.Canon()], nodes, table)
    else (|nodes|, nodes + [k], table[k.Canon() := |nodes|])
  }

  /** The first input that is not an id handed out so far. */
  function BadInput(xs: seq<NodeId>, n: nat): (r: Option<NodeId>)
    ensures r.None? <==> AllBelow(xs, n)
    ensures r.Some? ==> r.value in xs && r.value >= n
  {
    if xs == [] then None else if xs[0] >= n then Some(xs[0]) else
      var r := BadInput(xs[1..], n);
      assert xs == [xs[0]] + xs[1..];
      r
  }

  lemma {:induction false} BadInputBelow(xs: seq<NodeId>, n: nat, k: nat)
    requires k <= |xs| && forall l :: 0 <= l < k ==> xs[l] < n
    ensures BadInput(xs, n) == BadInput(xs[k..], n)
  {
    if k > 0 {
      BadInputBelow(xs[1..], n, k - 1);
      assert xs[1..][k - 1..] == xs[k..];
    }
  }

  /** The one that is named is the first. */
  lemma BadInputIsFirst(xs: seq<NodeId>, n: nat, k: nat)
    requires k < |xs| && xs[k] >= n && AllBelow(xs[..k], n)
    ensures BadInput(xs, n) == Some(xs[k])
  {
    forall l | 0 <= l < k
      ensures xs[l] < n
    {
      assert xs[..k][l] == xs[l];
    }
    BadInputBelow(xs, n, k);
  }

  /** Table and arena are exact inverses up to interning equality. */
  ghost predicate TableExact(nodes: seq<NodeKey>, table: map<NodeKey, NodeId>) {
    && (forall c {:trigger nodes[c]} :: 0 <= c < |nodes| ==> nodes[c].Canon() in table && table[nodes[c].Canon()] == c)
    && (forall k {:trigger table[k]} :: k in table ==> table[k] < |nodes| && nodes[table[k]].Canon() == k)
  }

  ghost function HeadCells(nodes: seq<NodeKey>): (cells: seq<Cell<NodeKey>>)
    ensures |cells| == |nodes|
    ensures forall i {:trigger cells[i]} :: 0 <= i < |nodes| ==> cells[i] == HeadCell(nodes[i])
    ensures TopologicalKeys(nodes) ==> Topological(cells)
  {
    CellsBy(HeadOf, nodes)
  }

  ghost function HeadCell(k: NodeKey): Cell<NodeKey> {
    Cell(k.Head(), k.Inputs())
  }

  lemma HeadCellsAppend(nodes: seq<NodeKey>, k: NodeKey)
    ensures HeadCells(nodes + [k]) == HeadCells(nodes) + [HeadCell(k)]
  {
  }

  /** Interning equality is equality of head cells. */
  lemma SameHeadCell(a: NodeKey, b: NodeKey)
    ensures a.Canon() == b.Canon() <==> HeadCell(a) == HeadCell(b)
  {
    CanonIsHeadAndInputs(a, b);
  }

  lemma AbsentFromTable(nodes: seq<NodeKey>, table: map<NodeKey, NodeId>, k: NodeKey, c: nat)
    requires TableExact(nodes, table) && k.Canon() !in table && c < |nodes|
    ensures HeadCells(nodes)[c] != HeadCell(k)
  {
    SameHeadCell(nodes[c], k);
  }

  lemma FoundInTable(nodes: seq<NodeKey>, table: map<NodeKey, NodeId>, k: NodeKey)
    requires TableExact(nodes, table) && k.Canon() in table
    ensures table[k.Canon()] < |nodes| && HeadCells(nodes)[table[k.Canon()]] == HeadCell(k)
  {
    SameHeadCell(nodes[table[k.Canon()]], k);
  }

  lemma TableUnique(nodes: seq<NodeKey>, t1: map<NodeKey, NodeId>, t2: map<NodeKey, NodeId>)
    requires TableExact(nodes, t1) && TableExact(nodes, t2)
    ensures t1 == t2
  {
    forall k | k in t1 || k in t2
      ensures k in t1 && k in t2 && t1[k] == t2[k]
    {
      var c := if k in t1 then t1[k] else t2[k];
      assert nodes[c].Canon() == k;
    }
  }

  /** No structural key is stored twice. */
  lemma TableDistinct(nodes: seq<NodeKey>, table: map<NodeKey, NodeId>, c: nat, d: nat)
    requires TableExact(nodes, table) && c < |nodes| && d < |nodes| && nodes[c].Canon() == nodes[d].Canon()
    ensures c == d
  {
    assert table[nodes[c].Canon()] == c && table[nodes[d].Canon()] == d;
  }

  /** Interning keeps table and arena exact inverses, changes no node, and adds one only for a new key. */
  lemma InternFacts(nodes: seq<NodeKey>, table: map<NodeKey, NodeId>, k: NodeKey)
    requires TableExact(nodes, table) && TopologicalKeys(nodes) && AllBelow(k.Inputs(), |nodes|)
    ensures var (id, nodes', table') := Intern(nodes, table, k);
      && TableExact(nodes', table') && TopologicalKeys(nodes')
      && id < |nodes'| && nodes'[id].Canon() == k.Canon()
      && nodes' == (if id < |nodes| then nodes else nodes + [k])
  {
    if k.Canon() in table {
      assert nodes[table[k.Canon()]].Canon() == k.Canon();
    } else {
      var nodes' := nodes + [k];
      forall c | 0 <= c < |nodes'|
        ensures AllBelow(nodes'[c].Inputs(), c)
      {
        assert c < |nodes| ==> nodes'[c] == nodes[c];
      }
      InternNew(nodes, table, k);
    }
  }

  lemma InternNew(nodes: seq<NodeKey>, table: map<NodeKey, NodeId>, k: NodeKey)
    requires TableExact(nodes, table) && k.Canon() !in table
    ensures TableExact(nodes + [k], table[k.Canon() := |nodes|])
  {
  }

  lemma TableHashConsed(nodes: seq<NodeKey>, table: map<NodeKey, NodeId>)
    requires TableExact(nodes, table)
    ensures HashConsed(HeadCells(nodes))
  {
    var g := HeadCells(nodes);
    forall i, j | 0 <= i < j < |g|
      ensures g[i] != g[j]
    {
      SameHeadCell(nodes[i], nodes[j]);
      if nodes[i].Canon() == nodes[j].Canon() {
        TableDistinct(nodes, table, i, j);
      }
    }
  }

  /** In an interned arena two ids are equal exactly when their unfolded terms are. */
  lemma IdsAreTerms(nodes: seq<NodeKey>, table: map<NodeKey, NodeId>, c: nat, d: nat)
    requires TableExact(nodes, table) && TopologicalKeys(nodes) && c < |nodes| && d < |nodes|
    ensures c == d <==> Unfold(HeadCells(nodes), c) == Unfold(HeadCells(nodes), d)
  {
    TableHashConsed(nodes, table);
    if Unfold(HeadCells(nodes), c) == Unfold(HeadCells(nodes), d) {
      HashConsedTerms(HeadCells(nodes), c, d);
    }
  }
}
